/** The signal flags of eloop.c: an asynchronous handler against the main loop's scan.

    Every load and store of the main loop is a step of its own; the handler runs atomically
    between any two of them. */
module Signals {

  const SIGINT := 2
  const SIGTERM := 15

  predicate Terminating(sig: int) {
    sig == SIGINT || sig == SIGTERM
  }

  /** Where eloop_process_pending_signals stands: the access it performs next. */
  datatype Pc =
    | Idle           // load `signaled`
    | ClearSignaled  // signaled = 0
    | LoadPending    // load `pending_terminate`
    | StopAlarm      // alarm(0)
    | ClearPending   // pending_terminate = 0
    | LoadFlag       // load signals[i].signaled, or leave the loop
    | ClearFlag      // signals[i].signaled = 0
    | CallBack       // signals[i].handler(...)

  /** `sigs` are the registered signal numbers and `flags` their counters.  `armed` is the alarm.
      `arrived` and `called` count, per entry, deliveries and callbacks. */
  datatype State = State(
    sigs: seq<int>, flags: seq<nat>, signaled: nat, pendingTerminate: bool, armed: bool,
    pc: Pc, i: nat, arrived: seq<nat>, called: seq<nat>)

  datatype Action = Deliver(sig: int) | Main

  function First(sigs: seq<int>, sig: int): (k: nat)
    ensures k <= |sigs|
    ensures k < |sigs| ==> sigs[k] == sig
    ensures forall j :: 0 <= j < k ==> sigs[j] != sig
  {
    if sigs == [] || sigs[0] == sig then 0 else 1 + First(sigs[1..], sig)
  }

  ghost predicate Shape(s: State) {
    && |s.flags| == |s.sigs| == |s.arrived| == |s.called|
    && (s.pc.LoadFlag? ==> s.i <= |s.sigs|)
    && (s.pc.ClearFlag? || s.pc.CallBack? ==> s.i < |s.sigs|)
  }

  /** eloop_handle_signal. */
  function Handle(s: State, sig: int): State
    requires Shape(s)
  {
    var arm := Terminating(sig) && !s.pendingTerminate;
    var k := First(s.sigs, sig);
    var hit := k < |s.sigs|;
    s.(pendingTerminate := arm || s.pendingTerminate,
       armed := arm || s.armed,
       signaled := s.signaled + 1,
       flags := if hit then s.flags[k := s.flags[k] + 1] else s.flags,
       arrived := if hit then s.arrived[k := s.arrived[k] + 1] else s.arrived)
  }

  /** One access of eloop_process_pending_signals. */
  function MainStep(s: State): State
    requires Shape(s)
  {
    match s.pc
    case Idle => if s.signaled == 0 then s else s.(pc := ClearSignaled)
    case ClearSignaled => s.(signaled := 0, pc := LoadPending)
    case LoadPending => if s.pendingTerminate then s.(pc := StopAlarm) else s.(pc := LoadFlag, i := 0)
    case StopAlarm => s.(armed := false, pc := ClearPending)
    case ClearPending => s.(pendingTerminate := false, pc := LoadFlag, i := 0)
    case LoadFlag =>
      if s.i == |s.sigs| then s.(pc := Idle, i := 0)
      else if s.flags[s.i] == 0 then s.(i := s.i + 1)
      else s.(pc := ClearFlag)
    case ClearFlag => s.(flags := s.flags[s.i := 0], pc := CallBack)
    case CallBack => s.(called := s.called[s.i := s.called[s.i] + 1], pc := LoadFlag, i := s.i + 1)
  }

  function Next(s: State, a: Action): (t: State)
    requires Shape(s)
    ensures Shape(t)
  {
    match a
    case Deliver(sig) => Handle(s, sig)
    case Main => MainStep(s)
  }

  function Run(s: State, acts: seq<Action>): (t: State)
    requires Shape(s)
    ensures Shape(t)
    decreases |acts|
  {
    if acts == [] then s else Run(Next(s, acts[0]), acts[1..])
  }

  function Init(sigs: seq<int>): (s: State)
    ensures Shape(s)
  {
    var zeros := seq(|sigs|, _ => 0);
    State(sigs, zeros, 0, false, false, Idle, 0, zeros, zeros)
  }

  // ---------- safety over every interleaving ----------

  /** Entry k is still ahead in a scan that has already cleared `signaled`. */
  predicate Ahead(s: State, k: nat) {
    match s.pc
    case Idle => false
    case ClearSignaled => true
    case LoadPending => true
    case StopAlarm => true
    case ClearPending => true
    case LoadFlag => s.i <= k
    case ClearFlag => s.i <= k
    case CallBack => s.i < k
  }

  /** The callback of entry k has been decided on but not yet made. */
  predicate Committed(s: State, k: nat) {
    s.pc.CallBack? && s.i == k
  }

  ghost predicate Inv(s: State) {
    && Shape(s)
    // a set flag is announced by `signaled` or will be seen by the scan in progress
    && (forall k :: 0 <= k < |s.sigs| && s.flags[k] > 0 ==> s.signaled > 0 || Ahead(s, k))
    // the scan that chose to clear a flag saw it set
    && (s.pc.ClearFlag? ==> s.flags[s.i] > 0)
    && (s.pc.ClearSignaled? ==> s.signaled > 0)
    // the alarm runs exactly while a termination is pending, but for one window
    && (s.armed <==> s.pendingTerminate && !s.pc.ClearPending?)
    && (s.pc.StopAlarm? || s.pc.ClearPending? ==> s.pendingTerminate)
    // a pending termination is announced, or this pass will still clear it
    && (s.pendingTerminate ==>
         s.signaled > 0 || s.pc.LoadPending? || s.pc.StopAlarm? || s.pc.ClearPending?)
    // deliveries cover the set flags, the committed callback and the callbacks made
    && (forall k :: 0 <= k < |s.sigs| ==>
         s.called[k] + s.flags[k] + (if Committed(s, k) then 1 else 0) <= s.arrived[k])
  }

  lemma InitInv(sigs: seq<int>)
    ensures Inv(Init(sigs))
  {
  }

  lemma HandleInv(s: State, sig: int)
    requires Inv(s)
    ensures Inv(Handle(s, sig))
  {
  }

  lemma MainStepInv(s: State)
    requires Inv(s)
    ensures Inv(MainStep(s))
  {
  }

  lemma NextInv(s: State, a: Action)
    requires Inv(s)
    ensures Inv(Next(s, a))
  {
    match a
    case Deliver(sig) => HandleInv(s, sig);
    case Main => MainStepInv(s);
  }

  /** No interleaving breaks the invariant. */
  lemma {:induction false} RunInv(s: State, acts: seq<Action>)
    requires Inv(s)
    ensures Inv(Run(s, acts))
    decreases |acts|
  {
    if acts == [] {
    } else {
      NextInv(s, acts[0]);
      RunInv(Next(s, acts[0]), acts[1..]);
    }
  }

  /** No signal is lost: in every reachable state a set flag is announced or still ahead. */
  lemma NoFlagForgotten(sigs: seq<int>, acts: seq<Action>, k: nat)
    requires k < |sigs|
    ensures var s := Run(Init(sigs), acts);
            |s.flags| == |sigs| && (s.flags[k] > 0 ==> s.signaled > 0 || Ahead(s, k))
  {
    InitInv(sigs);
    RunInv(Init(sigs), acts);
    SigsFixed(Init(sigs), acts);
  }

  lemma {:induction false} SigsFixed(s: State, acts: seq<Action>)
    requires Shape(s)
    ensures Run(s, acts).sigs == s.sigs
    decreases |acts|
  {
    if acts == [] {
    } else {
      SigsFixed(Next(s, acts[0]), acts[1..]);
    }
  }

  /** No callback without a delivery of its own. */
  lemma NoSpuriousCallback(sigs: seq<int>, acts: seq<Action>, k: nat)
    requires k < |sigs|
    ensures var s := Run(Init(sigs), acts);
            |s.called| == |s.arrived| == |sigs| && s.called[k] <= s.arrived[k]
  {
    InitInv(sigs);
    RunInv(Init(sigs), acts);
    SigsFixed(Init(sigs), acts);
  }

  // ---------- what a delivery leaves behind ----------

  /** A delivery of a registered signal raises the flag and the arrival count of its first entry by
      one, announces itself and changes no other entry; SIGINT and SIGTERM are 2 and 15, and either
      leaves a termination pending. */
  lemma DeliveryIsRecorded(sigs: seq<int>, acts: seq<Action>, sig: int)
    requires sig in sigs
    ensures var s := Run(Init(sigs), acts);
            var t := Next(s, Deliver(sig));
            && |s.flags| == |s.arrived| == |t.flags| == |t.arrived| == |sigs|
            && t.signaled == s.signaled + 1 && t.called == s.called && t.pc == s.pc && t.i == s.i
            && (forall k :: 0 <= k < |sigs| ==>
                 var hit := if sigs[k] == sig && sig !in sigs[..k] then 1 else 0;
                 t.flags[k] == s.flags[k] + hit && t.arrived[k] == s.arrived[k] + hit)
            && (t.pendingTerminate <==> s.pendingTerminate || sig == 2 || sig == 15)
  {
    SigsFixed(Init(sigs), acts);
  }

  /** How often a signal was delivered. */
  function Deliveries(acts: seq<Action>, sig: int): nat {
    if acts == [] then 0 else (if acts[0] == Deliver(sig) then 1 else 0) + Deliveries(acts[1..], sig)
  }

  lemma NextArrives(s: State, a: Action, k: nat)
    requires Shape(s) && k < |s.sigs|
    ensures var t := Next(s, a);
            && t.sigs == s.sigs
            && t.arrived[k] == s.arrived[k] + if a == Deliver(s.sigs[k]) && s.sigs[k] !in s.sigs[..k] then 1 else 0
  {
    if a.Deliver? {
      var f := First(s.sigs, a.sig);
      assert f < k && s.sigs[k] == a.sig ==> s.sigs[f] in s.sigs[..k];
    }
  }

  lemma {:induction false} ArrivedAlong(s: State, acts: seq<Action>, k: nat)
    requires Shape(s) && k < |s.sigs|
    ensures Run(s, acts).sigs == s.sigs
    ensures Run(s, acts).arrived[k] == s.arrived[k] + if s.sigs[k] in s.sigs[..k] then 0 else Deliveries(acts, s.sigs[k])
    decreases |acts|
  {
    if acts == [] {
    } else {
      NextArrives(s, acts[0], k);
      ArrivedAlong(Next(s, acts[0]), acts[1..], k);
    }
  }

  /** Over any run the arrival count of an entry is the number of deliveries of its signal, or 0 if
      an earlier entry has the same signal. */
  lemma ArrivalsCountDeliveries(sigs: seq<int>, acts: seq<Action>, k: nat)
    requires k < |sigs|
    ensures |Run(Init(sigs), acts).arrived| == |sigs|
    ensures Run(Init(sigs), acts).arrived[k] == if sigs[k] in sigs[..k] then 0 else Deliveries(acts, sigs[k])
  {
    ArrivedAlong(Init(sigs), acts, k);
  }

  // ---------- a completed pass delivers ----------

  /** While a pass is under way, a flag that was set when it began is served or still ahead. */
  ghost predicate ServedOrAhead(s: State, k: nat, before: nat) {
    && Inv(s) && k < |s.sigs|
    && (s.called[k] > before ||
         (s.called[k] == before && (Committed(s, k) || (s.flags[k] > 0 && Ahead(s, k)))))
  }

  lemma {:induction false} PassServes(s: State, acts: seq<Action>, k: nat, before: nat)
    requires ServedOrAhead(s, k, before)
    ensures ServedOrAhead(Run(s, acts), k, before)
    decreases |acts|
  {
    if acts == [] {
    } else {
      var t := Next(s, acts[0]);
      NextInv(s, acts[0]);
      PassServes(t, acts[1..], k, before);
    }
  }

  /** Liveness in bounded form: take any interleaving in which the main loop, idle with flag k
      set, calls eloop_process_pending_signals and the call returns.  Callback k has been made,
      whatever was delivered meanwhile. */
  lemma {:induction false} CompletedPassDelivers(s: State, acts: seq<Action>, k: nat)
    requires Inv(s) && s.pc.Idle? && k < |s.sigs| && s.flags[k] > 0
    requires Main in acts && Run(s, acts).pc.Idle?
    ensures |Run(s, acts).called| == |s.sigs| && Run(s, acts).called[k] > s.called[k]
    decreases |acts|
  {
    SigsFixed(s, acts);
    var t := Next(s, acts[0]);
    NextInv(s, acts[0]);
    if acts[0].Main? {
      PassServes(t, acts[1..], k, s.called[k]);
    } else {
      assert acts == [acts[0]] + acts[1..];
      CompletedPassDelivers(t, acts[1..], k);
    }
  }

  /** The callback of entry k has been made since, or is still owed. */
  ghost predicate Owed(s: State, k: nat, before: nat) {
    && Inv(s) && k < |s.sigs|
    && (s.called[k] > before || (s.called[k] == before && (Committed(s, k) || s.flags[k] > 0)))
  }

  lemma {:induction false} StaysOwed(s: State, acts: seq<Action>, k: nat, before: nat)
    requires Owed(s, k, before)
    ensures Owed(Run(s, acts), k, before) && Run(s, acts).called[k] >= s.called[k]
    decreases |acts|
  {
    if acts == [] {
    } else {
      NextInv(s, acts[0]);
      StaysOwed(Next(s, acts[0]), acts[1..], k, before);
    }
  }

  lemma {:induction false} RunConcat(s: State, xs: seq<Action>, ys: seq<Action>)
    requires Shape(s)
    ensures Run(s, xs + ys) == Run(Run(s, xs), ys)
    decreases |xs|
  {
    if xs == [] {
      assert xs + ys == ys;
    } else {
      assert (xs + ys)[1..] == xs[1..] + ys;
      RunConcat(Next(s, xs[0]), xs[1..], ys);
    }
  }

  /** From delivery to callback: after any run, deliver a registered signal; then take any
      interleaving xs that leaves the main loop between two passes, and any ys in which a pass begins
      and the last pass returns.  The callback of the signal's first entry has been made since. */
  lemma DeliveredIsServed(sigs: seq<int>, acts: seq<Action>, sig: int, k: nat, xs: seq<Action>, ys: seq<Action>)
    requires k < |sigs| && sigs[k] == sig && sig !in sigs[..k]
    requires var d := Next(Run(Init(sigs), acts), Deliver(sig));
             Run(d, xs).pc.Idle? && Main in ys && Run(Run(d, xs), ys).pc.Idle?
    ensures var s := Run(Init(sigs), acts);
            var e := Run(s, [Deliver(sig)] + xs + ys);
            |s.called| == |e.called| == |sigs| && e.called[k] > s.called[k]
  {
    var s := Run(Init(sigs), acts);
    InitInv(sigs);
    RunInv(Init(sigs), acts);
    SigsFixed(Init(sigs), acts);
    DeliveryIsRecorded(sigs, acts, sig);
    var d := Next(s, Deliver(sig));
    NextInv(s, Deliver(sig));
    StaysOwed(d, xs, k, s.called[k]);
    var m := Run(d, xs);
    RunInv(d, xs);
    SigsFixed(d, xs);
    SigsFixed(m, ys);
    if m.called[k] == s.called[k] {
      CompletedPassDelivers(m, ys, k);
    } else {
      StaysOwed(m, ys, k, s.called[k]);
    }
    assert ([Deliver(sig)] + (xs + ys))[1..] == xs + ys;
    assert [Deliver(sig)] + xs + ys == [Deliver(sig)] + (xs + ys);
    RunConcat(d, xs, ys);
  }

  // ---------- the watchdog ----------

  /** In every reachable state the alarm runs exactly while a termination is pending, but for the
      one window between alarm(0) and pending_terminate = 0; and a pending termination is
      announced by `signaled` or about to be cleared by the pass under way. */
  lemma AlarmGuardsTermination(sigs: seq<int>, acts: seq<Action>)
    ensures var s := Run(Init(sigs), acts);
            && (s.armed <==> s.pendingTerminate && !s.pc.ClearPending?)
            && (s.pendingTerminate ==>
                 s.signaled > 0 || s.pc.LoadPending? || s.pc.StopAlarm? || s.pc.ClearPending?)
  {
    InitInv(sigs);
    RunInv(Init(sigs), acts);
  }

  /** A recorded terminating signal has the alarm or will be served by the pass under way. */
  ghost predicate Guarded(s: State) {
    && Inv(s)
    && forall k :: 0 <= k < |s.sigs| && Terminating(s.sigs[k]) && s.flags[k] > 0 ==> s.armed || Ahead(s, k)
  }

  lemma {:induction false} RunGuarded(s: State, acts: seq<Action>)
    requires Guarded(s)
    ensures Guarded(Run(s, acts))
    decreases |acts|
  {
    if acts == [] {
    } else {
      NextInv(s, acts[0]);
      NextGuarded(s, acts[0]);
      RunGuarded(Next(s, acts[0]), acts[1..]);
    }
  }

  lemma NextGuarded(s: State, a: Action)
    requires Guarded(s) && Inv(Next(s, a))
    ensures Guarded(Next(s, a))
  {
  }

  /** In every reachable state a recorded terminating signal lacks the alarm only while the pass
      under way will still serve it. */
  lemma UnguardedIsServed(sigs: seq<int>, acts: seq<Action>, k: nat)
    requires k < |sigs| && Terminating(sigs[k])
    ensures var s := Run(Init(sigs), acts);
            |s.flags| == |sigs| && (s.flags[k] > 0 ==> s.armed || Ahead(s, k))
  {
    RunGuarded(Init(sigs), acts);
    SigsFixed(Init(sigs), acts);
  }

  /** A terminating signal leaves the two-second alarm running unless it arrives in the one
      window between alarm(0) and pending_terminate = 0. */
  lemma WatchdogArmed(s: State, sig: int)
    requires Inv(s) && Terminating(sig)
    ensures Next(s, Deliver(sig)).armed <==> !s.pc.ClearPending?
  {
  }

  /** The window is reachable: the second SIGTERM of this run is recorded and will be served, but
      no alarm guards it and nothing marks a termination as pending. */
  lemma WatchdogMissed()
    ensures var s := Run(Init([SIGTERM]),
                         [Deliver(SIGTERM), Main, Main, Main, Main, Deliver(SIGTERM), Main]);
            s.flags == [2] && s.signaled == 1 && !s.armed && !s.pendingTerminate
  {
    var a0 := [Deliver(SIGTERM), Main, Main, Main, Main, Deliver(SIGTERM), Main];
    var a1 := [Main, Main, Main, Main, Deliver(SIGTERM), Main];
    var a2 := [Main, Main, Main, Deliver(SIGTERM), Main];
    var a3 := [Main, Main, Deliver(SIGTERM), Main];
    var a4 := [Main, Deliver(SIGTERM), Main];
    var a5 := [Deliver(SIGTERM), Main];
    var a6 := [Main];
    assert a0[1..] == a1 && a1[1..] == a2 && a2[1..] == a3 && a3[1..] == a4 && a4[1..] == a5 && a5[1..] == a6;
    var s0 := Init([SIGTERM]);
    var s1 := Next(s0, Deliver(SIGTERM));
    assert s1.flags == [1];
    var s4 := MainStep(MainStep(MainStep(s1)));
    assert Run(s0, a0) == Run(s1, a1) == Run(s4, a4) by {
      assert Run(s1, a1) == Run(MainStep(s1), a2);
      assert Run(MainStep(s1), a2) == Run(MainStep(MainStep(s1)), a3);
      assert Run(MainStep(MainStep(s1)), a3) == Run(s4, a4);
    }
    var s5 := MainStep(s4);
    var s6 := Handle(s5, SIGTERM);
    assert Run(s4, a4) == Run(s5, a5) == Run(s6, a6) == MainStep(s6) by {
      assert a6[1..] == [];
      assert Run(s6, a6) == Run(MainStep(s6), []);
    }
    assert s6.flags == [2];
  }

  // ---------- the pass without interference, and the code ----------

  function Remaining(s: State): nat
    requires Shape(s)
  {
    match s.pc
    case Idle => 4 * |s.sigs| + 10
    case ClearSignaled => 4 * |s.sigs| + 9
    case LoadPending => 4 * |s.sigs| + 8
    case StopAlarm => 4 * |s.sigs| + 7
    case ClearPending => 4 * |s.sigs| + 6
    case LoadFlag => 4 * (|s.sigs| - s.i) + 3
    case ClearFlag => 4 * (|s.sigs| - s.i) + 2
    case CallBack => 4 * (|s.sigs| - s.i) + 1
  }

  lemma MainStepAdvances(s: State)
    requires Shape(s)
    ensures Shape(MainStep(s)) && (MainStep(s).pc.Idle? || Remaining(MainStep(s)) < Remaining(s))
  {
  }

  /** Main steps alone, until the call returns. */
  function Finish(s: State): (t: State)
    requires Shape(s)
    ensures Shape(t) && t.pc.Idle?
    decreases Remaining(s)
  {
    MainStepAdvances(s);
    var t := MainStep(s);
    if t.pc.Idle? then t else Finish(t)
  }

  function Mains(n: nat): (acts: seq<Action>)
    ensures |acts| == n
  {
    if n == 0 then [] else [Main] + Mains(n - 1)
  }

  lemma RunMain(s: State, acts: seq<Action>)
    requires Shape(s)
    ensures Run(s, [Main] + acts) == Run(MainStep(s), acts)
  {
    assert ([Main] + acts)[1..] == acts;
  }

  /** Finish is a run of main steps only. */
  lemma {:induction false} FinishIsRun(s: State) returns (n: nat)
    requires Shape(s)
    ensures Finish(s) == Run(s, Mains(n))
    decreases Remaining(s)
  {
    var t := MainStep(s);
    MainStepAdvances(s);
    if t.pc.Idle? {
      n := 1;
      RunMain(s, Mains(0));
    } else {
      var m := FinishIsRun(t);
      n := m + 1;
      RunMain(s, Mains(m));
    }
  }

  /** From the call to the head of the scan. */
  lemma EnterScan(s: State)
    requires Shape(s) && s.pc.Idle? && s.signaled > 0
    ensures Finish(s) == Finish(s.(signaled := 0, armed := s.armed && !s.pendingTerminate,
                                   pendingTerminate := false, pc := LoadFlag, i := 0))
  {
    var u := MainStep(MainStep(MainStep(s)));
    assert Finish(s) == Finish(MainStep(s)) == Finish(MainStep(MainStep(s))) == Finish(u);
    if !u.pc.LoadFlag? {
      assert Finish(u) == Finish(MainStep(u)) == Finish(MainStep(MainStep(u)));
    }
  }

  /** Nothing to do, and nothing left to do. */
  lemma PassEnds(s: State)
    requires Shape(s)
    ensures s.pc.Idle? && s.signaled == 0 ==> Finish(s) == s
    ensures s.pc.LoadFlag? && s.i == |s.sigs| ==> Finish(s) == s.(pc := Idle, i := 0)
  {
  }

  /** The scan loop's body on values. */
  function Turn(s: State): (t: State)
    requires Shape(s) && s.pc.LoadFlag? && s.i < |s.sigs|
    ensures Shape(t) && t.pc.LoadFlag?
  {
    if s.flags[s.i] > 0 then
      s.(flags := s.flags[s.i := 0], called := s.called[s.i := s.called[s.i] + 1], i := s.i + 1)
    else s.(i := s.i + 1)
  }

  /** One turn of the scan. */
  lemma ScanTurn(s: State)
    requires Shape(s) && s.pc.LoadFlag? && s.i < |s.sigs|
    ensures Finish(s) == Finish(Turn(s))
  {
    var u := MainStep(s);
    FinishStep(s);
    TurnSteps(s);
    if s.flags[s.i] > 0 {
      FinishStep(u);
      FinishStep(MainStep(u));
    }
  }

  lemma FinishStep(s: State)
    requires Shape(s) && !MainStep(s).pc.Idle?
    ensures Finish(s) == Finish(MainStep(s))
  {
  }

  /** A turn is one main step, or three. */
  lemma TurnSteps(s: State)
    requires Shape(s) && s.pc.LoadFlag? && s.i < |s.sigs|
    ensures var u := MainStep(s);
            Turn(s) == if s.flags[s.i] > 0 then MainStep(MainStep(u)) else u
  {
  }

  /** What the rest of a scan does: serve every set flag from i on once and clear it. */
  lemma {:induction false} ScanEffect(s: State)
    requires Shape(s) && s.pc.LoadFlag?
    ensures var t := Finish(s);
            t == s.(pc := Idle, i := 0, flags := t.flags, called := t.called)
    ensures forall k :: 0 <= k < |s.sigs| ==>
              && Finish(s).flags[k] == (if k < s.i then s.flags[k] else 0)
              && Finish(s).called[k] == s.called[k] + (if k >= s.i && s.flags[k] > 0 then 1 else 0)
    decreases |s.sigs| - s.i
  {
    if s.i == |s.sigs| {
    } else {
      ScanTurn(s);
      ScanEffect(Turn(s));
    }
  }

  /** An undisturbed pass makes exactly one callback for every set flag and leaves nothing pending. */
  lemma QuietPass(s: State)
    requires Inv(s) && s.pc.Idle?
    ensures var t := Finish(s);
            && t.signaled == 0 && !t.pendingTerminate && !t.armed && |t.sigs| == |s.sigs|
            && forall k :: 0 <= k < |s.sigs| ==>
                 t.flags[k] == 0 && t.called[k] == s.called[k] + (if s.flags[k] > 0 then 1 else 0)
  {
    if s.signaled > 0 {
      EnterScan(s);
      ScanEffect(s.(signaled := 0, armed := s.armed && !s.pendingTerminate,
                    pendingTerminate := false, pc := LoadFlag, i := 0));
    }
  }

  /** The signal part of `struct eloop_data`. */
  class SignalTable {
    const sigs: seq<int>
    const flags: array<nat>
    var signaled: nat
    var pendingTerminate: bool
    var armed: bool
    ghost var arrived: seq<nat>
    ghost var called: seq<nat>

    ghost predicate Valid()
      reads this
    {
      flags.Length == |sigs| == |arrived| == |called|
    }

    ghost function Abs(): (s: State)
      reads this, flags
      requires Valid()
      ensures Shape(s)
    {
      State(sigs, flags[..], signaled, pendingTerminate, armed, Idle, 0, arrived, called)
    }

    constructor (sigs: seq<int>)
      ensures Valid() && fresh(flags) && Abs() == Init(sigs)
    {
      this.sigs := sigs;
      flags := new nat[|sigs|](_ => 0);
      signaled, pendingTerminate, armed := 0, false, false;
      arrived := seq(|sigs|, _ => 0);
      called := seq(|sigs|, _ => 0);
      new;
      assert flags[..] == seq(|sigs|, _ => 0);
    }

    /** The search of eloop_handle_signal. */
    method IndexOf(sig: int) returns (i: nat)
      ensures i == First(sigs, sig)
    {
      i := 0;
      while i < |sigs|
        invariant 0 <= i <= |sigs|
        invariant forall j :: 0 <= j < i ==> sigs[j] != sig
      {
        if sigs[i] == sig {
          break;
        }
        i := i + 1;
      }
      FirstIs(sigs, sig, i);
    }

    /** The first half of eloop_handle_signal. */
    method Announce(sig: int)
      requires Valid()
      modifies this`pendingTerminate, this`armed, this`signaled
      ensures Valid() && signaled == old(signaled) + 1
      ensures pendingTerminate == (old(pendingTerminate) || Terminating(sig))
      ensures armed == (old(armed) || (Terminating(sig) && !old(pendingTerminate)))
    {
      if Terminating(sig) && !pendingTerminate {
        pendingTerminate := true;
        armed := true;
      }
      signaled := signaled + 1;
    }

    method HandleSignal(sig: int)
      requires Valid()
      modifies this, flags
      ensures Valid() && Abs() == Handle(old(Abs()), sig)
    {
      Announce(sig);
      var i := IndexOf(sig);
      if i < |sigs| {
        flags[i] := flags[i] + 1;
        assert flags[..] == old(flags[..])[i := old(flags[i]) + 1];
        arrived := arrived[i := arrived[i] + 1];
      }
    }

    method ProcessPendingSignals()
      requires Valid()
      modifies this, flags
      ensures Valid() && Abs() == Finish(old(Abs()))
    {
      if signaled == 0 {
        PassEnds(Abs());
        return;
      }
      Acknowledge();
      ServeAll();
    }

    /** The loop over the entries. */
    method ServeAll()
      requires Valid()
      modifies flags, this`called
      ensures Valid() && Abs() == Finish(old(At(0)))
    {
      var i := 0;
      while i < |sigs|
        invariant 0 <= i <= |sigs| && Valid()
        invariant Finish(At(i)) == Finish(old(At(0)))
      {
        ScanTurn(At(i));
        ServeEntry(i);
        i := i + 1;
      }
      PassEnds(At(i));
    }

    /** signaled = 0, then stop the alarm if a termination was pending. */
    method Acknowledge()
      requires Valid() && signaled > 0
      modifies this`signaled, this`pendingTerminate, this`armed
      ensures Valid() && Finish(At(0)) == Finish(old(Abs()))
    {
      EnterScan(Abs());
      signaled := 0;
      if pendingTerminate {
        armed := false;
        pendingTerminate := false;
      }
    }

    /** The loop body: clear the flag, then call the handler. */
    method ServeEntry(i: nat)
      requires Valid() && i < |sigs|
      modifies flags, this`called
      ensures Valid() && At(i + 1) == Turn(old(At(i)))
    {
      if flags[i] > 0 {
        flags[i] := 0;
        assert flags[..] == old(flags[..])[i := 0];
        called := called[i := called[i] + 1];
      }
    }

    /** The state at the head of the scan loop. */
    ghost function At(i: nat): (s: State)
      reads this, flags
      requires Valid() && i <= |sigs|
      ensures Shape(s)
    {
      Abs().(pc := LoadFlag, i := i)
    }
  }

  lemma {:induction false} FirstIs(sigs: seq<int>, sig: int, i: nat)
    requires i <= |sigs| && (i < |sigs| ==> sigs[i] == sig)
    requires forall k :: 0 <= k < i ==> sigs[k] != sig
    ensures First(sigs, sig) == i
  {
    if i > 0 {
      FirstIs(sigs[1..], sig, i - 1);
    }
  }
}
