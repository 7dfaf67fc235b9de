/** The event loop of eloop.c as a state machine, with handlers that re-enter it.

    A handler is represented by the calls it makes.  Whatever calls the handlers make, a run
    leaves a legal log, and a due timer is served within as many iterations as there are timers
    ahead of it. */
module EventLoop {
  import opened TimerQueue
  import opened EventTrace

  datatype Reader = Reader(sock: int, handler: int, ctx: int, user: int)

  /** The calls a handler may make. */
  datatype Op =
    | RegisterTimeout(now: Time, secs: nat, usecs: nat, handler: int, ctx: int, user: int)
    | CancelTimeout(handler: int, ctx: int, user: int)
    | RegisterReadSock(reader: Reader)
    | UnregisterReadSock(sock: int)
    | Terminate

  /** `clock` is the last clock reading, `nextId` numbers the registrations and `log` records the
      events; the other fields are those of `struct eloop_data`. */
  datatype Loop = Loop(
    timers: seq<Timer>, readers: seq<Reader>, maxSock: int, terminate: bool,
    clock: int, nextId: nat, log: Log)

  function Init(clock: int): Loop {
    Loop([], [], 0, false, clock, 0, [])
  }

  // ---------- readers ----------

  function Socks(rs: seq<Reader>): (s: set<int>) {
    set r | r in rs :: r.sock
  }

  function IndexOf(rs: seq<Reader>, sock: int): (i: nat)
    ensures i <= |rs|
    ensures i < |rs| ==> rs[i].sock == sock
    ensures forall k :: 0 <= k < i ==> rs[k].sock != sock
  {
    if rs == [] || rs[0].sock == sock then 0 else 1 + IndexOf(rs[1..], sock)
  }

  function Without(rs: seq<Reader>, sock: int): seq<Reader> {
    var i := IndexOf(rs, sock);
    if i == |rs| then rs else rs[..i] + rs[i + 1..]
  }

  ghost predicate Unique(rs: seq<Reader>) {
    forall i, j :: 0 <= i < j < |rs| ==> rs[i].sock != rs[j].sock
  }

  function Max(a: int, b: int): int {
    if a > b then a else b
  }

  // ---------- one call ----------

  function Cancellations(ts: seq<Timer>): (es: seq<Event>)
    ensures |es| == |ts|
  {
    seq(|ts|, i requires 0 <= i < |ts| => Cancelled(ts[i]))
  }

  function Step(s: Loop, op: Op): Loop {
    match op
    case RegisterTimeout(now, secs, usecs, h, c, u) =>
      var t := Timer(s.nextId, Deadline(now, secs, usecs), h, c, u);
      s.(timers := Insert(s.timers, t), nextId := s.nextId + 1, clock := Micros(now),
         log := s.log + [Registered(t, Asked(now, secs, usecs, h, c, u))])
    case CancelTimeout(h, c, u) =>
      s.(timers := Keep(s.timers, h, c, u), log := s.log + Cancellations(Drop(s.timers, h, c, u)))
    case RegisterReadSock(r) =>
      s.(readers := s.readers + [r], maxSock := Max(r.sock, s.maxSock), log := s.log + [Added(r.sock)])
    case UnregisterReadSock(sock) =>
      if sock in Socks(s.readers) then
        s.(readers := Without(s.readers, sock), log := s.log + [Removed(sock)])
      else s
    case Terminate => s.(terminate := true)
  }

  /** What the callers and the system owe: the clock does not run back, and a newly opened
      descriptor is not one that is still registered. */
  predicate Allowed(s: Loop, op: Op) {
    match op
    case RegisterTimeout(now, _, _, _, _, _) => s.clock <= Micros(now)
    case RegisterReadSock(r) => r.sock !in Socks(s.readers)
    case _ => true
  }

  function Steps(s: Loop, ops: seq<Op>): Loop
    decreases |ops|
  {
    if ops == [] then s else Steps(Step(s, ops[0]), ops[1..])
  }

  predicate AllAllowed(s: Loop, ops: seq<Op>)
    decreases |ops|
  {
    ops == [] || (Allowed(s, ops[0]) && AllAllowed(Step(s, ops[0]), ops[1..]))
  }

  // ---------- one iteration of eloop_run ----------

  /** What the environment contributes to one iteration: the calls made by signal callbacks, the
      clock at the timer check, the calls made by a firing timer handler, the sockets select
      reported ready, and the calls made by the successive read handlers. */
  datatype Iteration = Iteration(
    signalOps: seq<Op>, now: Time, timerOps: seq<Op>, ready: set<int>, readerOps: seq<seq<Op>>)

  predicate HeadDue(s: Loop, now: Time) {
    s.timers != [] && !Before(now, s.timers[0].time)
  }

  function ReadClock(s: Loop, now: Time): Loop {
    if s.timers == [] then s else s.(clock := Micros(now))
  }

  /** The head is unlinked before its handler runs. */
  function Unlink(s: Loop, now: Time): Loop
    requires s.timers != []
  {
    s.(timers := s.timers[1..], log := s.log + [Fired(s.timers[0], now)])
  }

  function TimerPhase(s: Loop, now: Time, ops: seq<Op>): Loop {
    var r := ReadClock(s, now);
    if HeadDue(r, now) then Steps(Unlink(r, now), ops) else r
  }

  predicate TimerPhaseAllowed(s: Loop, now: Time, ops: seq<Op>) {
    var r := ReadClock(s, now);
    && s.clock <= Micros(now)
    && (HeadDue(r, now) ==> AllAllowed(Unlink(r, now), ops))
  }

  function Dispatching(s: Loop, sock: int): Loop {
    s.(log := s.log + [EventTrace.Dispatched(sock)])
  }

  /** The reader scan: an index into an array that the handlers change while it is walked. */
  function Dispatch(s: Loop, i: nat, ready: set<int>, scripts: seq<seq<Op>>): Loop
    decreases |scripts|, |s.readers| - i
  {
    if i >= |s.readers| then s
    else if s.readers[i].sock !in ready then Dispatch(s, i + 1, ready, scripts)
    else
      var d := Dispatching(s, s.readers[i].sock);
      if scripts == [] then Dispatch(d, i + 1, ready, scripts)
      else Dispatch(Steps(d, scripts[0]), i + 1, ready, scripts[1..])
  }

  predicate DispatchAllowed(s: Loop, i: nat, ready: set<int>, scripts: seq<seq<Op>>)
    decreases |scripts|, |s.readers| - i
  {
    if i >= |s.readers| then true
    else if s.readers[i].sock !in ready then DispatchAllowed(s, i + 1, ready, scripts)
    else
      var d := Dispatching(s, s.readers[i].sock);
      if scripts == [] then DispatchAllowed(d, i + 1, ready, scripts)
      else AllAllowed(d, scripts[0]) && DispatchAllowed(Steps(d, scripts[0]), i + 1, ready, scripts[1..])
  }

  function Iterate(s: Loop, it: Iteration): Loop {
    Dispatch(TimerPhase(Steps(s, it.signalOps), it.now, it.timerOps), 0, it.ready, it.readerOps)
  }

  /** select reports only sockets that were registered when it was called. */
  predicate IterationAllowed(s: Loop, it: Iteration) {
    var a := Steps(s, it.signalOps);
    && it.ready <= Socks(s.readers)
    && AllAllowed(s, it.signalOps)
    && TimerPhaseAllowed(a, it.now, it.timerOps)
    && DispatchAllowed(TimerPhase(a, it.now, it.timerOps), 0, it.ready, it.readerOps)
  }

  /** The guard of the while loop. */
  predicate Continues(s: Loop) {
    !s.terminate && (s.timers != [] || s.readers != [])
  }

  function Run(s: Loop, its: seq<Iteration>): Loop
    decreases |its|
  {
    if its == [] || !Continues(s) then s else Run(Iterate(s, its[0]), its[1..])
  }

  predicate RunAllowed(s: Loop, its: seq<Iteration>)
    decreases |its|
  {
    its == [] || !Continues(s) || (IterationAllowed(s, its[0]) && RunAllowed(Iterate(s, its[0]), its[1..]))
  }

  function Destructions(ts: seq<Timer>): (es: seq<Event>)
    ensures |es| == |ts|
  {
    seq(|ts|, i requires 0 <= i < |ts| => Destroyed(ts[i]))
  }

  /** eloop_destroy frees the remaining timers. */
  function Destroy(s: Loop): Loop {
    s.(timers := [], log := s.log + Destructions(s.timers))
  }

  // ---------- the invariant ----------

  ghost predicate IdsBelow(log: Log, n: nat) {
    forall i :: 0 <= i < |log| && log[i].Registered? ==> log[i].timer.id < n
  }

  ghost predicate NoDestruction(log: Log) {
    forall i :: 0 <= i < |log| ==> !log[i].Destroyed?
  }

  /** The list is the sorted arrangement of the abstract queue, the reader array lists the
      abstract registry without repetition, and max_sock bounds it. */
  ghost predicate Inv(s: Loop) {
    && Legal(s.log)
    && Sorted(s.timers)
    && (forall t :: t in s.timers <==> t in Pending(s.log))
    && (forall t :: t in s.timers ==> t.id < s.nextId)
    && IdsBelow(s.log, s.nextId)
    && Unique(s.readers)
    && Socks(s.readers) == Live(s.log)
    && (forall r :: r in s.readers ==> r.sock <= s.maxSock)
    && NoDestruction(s.log)
  }

  lemma InitInv(clock: int)
    ensures Inv(Init(clock))
  {
  }

  /** The timers of a sorted list are ended one by one, by cancellation or destruction. */
  predicate EndAll(es: seq<Event>, ts: seq<Timer>) {
    |es| == |ts| && forall i :: 0 <= i < |es| ==> (es[i].Cancelled? || es[i].Destroyed?) && es[i].timer == ts[i]
  }

  lemma EndOne(log: Log, e: Event)
    requires Legal(log) && (e.Cancelled? || e.Destroyed?) && e.timer in Pending(log)
    ensures Legal(log + [e]) && Pending(log + [e]) == Pending(log) - {e.timer} && Live(log + [e]) == Live(log)
  {
    Extend(log, e);
  }

  lemma {:induction false} EndRun(log: Log, ts: seq<Timer>, es: seq<Event>)
    requires Legal(log) && Sorted(ts) && EndAll(es, ts)
    requires forall t :: t in ts ==> t in Pending(log)
    ensures Legal(log + es)
    ensures forall t :: t in Pending(log + es) <==> t in Pending(log) && t !in ts
    ensures Live(log + es) == Live(log)
    decreases |ts|
  {
    if ts == [] {
      assert log + es == log;
    } else {
      EndOne(log, es[0]);
      SortedTail(ts);
      EndRun(log + [es[0]], ts[1..], es[1..]);
      assert log + [es[0]] + es[1..] == log + es;
      assert ts == [ts[0]] + ts[1..];
    }
  }

  lemma {:induction false} DropSorted(q: seq<Timer>, h: int, c: int, u: int)
    requires Sorted(q)
    ensures Sorted(Drop(q, h, c, u))
  {
    if q == [] {
    } else {
      SortedTail(q);
      DropSorted(q[1..], h, c, u);
      KeepDropMembers(q[1..], h, c, u);
      if Matches(q[0], h, c, u) {
        SortedCons(q[0], Drop(q[1..], h, c, u));
      }
    }
  }

  lemma RegisterInv(s: Loop, now: Time, secs: nat, usecs: nat, h: int, c: int, u: int)
    requires Inv(s)
    ensures Inv(Step(s, RegisterTimeout(now, secs, usecs, h, c, u)))
  {
    var t := Timer(s.nextId, Deadline(now, secs, usecs), h, c, u);
    InsertSorted(s.timers, t);
    InsertMultiset(s.timers, t);
    Extend(s.log, Registered(t, Asked(now, secs, usecs, h, c, u)));
  }

  lemma CancelInv(s: Loop, h: int, c: int, u: int)
    requires Inv(s)
    ensures Inv(Step(s, CancelTimeout(h, c, u)))
  {
    KeepSorted(s.timers, h, c, u);
    DropSorted(s.timers, h, c, u);
    KeepDropMembers(s.timers, h, c, u);
    EndRun(s.log, Drop(s.timers, h, c, u), Cancellations(Drop(s.timers, h, c, u)));
  }

  lemma WithoutSocks(rs: seq<Reader>, sock: int)
    requires Unique(rs)
    ensures Unique(Without(rs, sock))
    ensures Socks(Without(rs, sock)) == Socks(rs) - {sock}
    ensures forall r :: r in Without(rs, sock) ==> r in rs
  {
    var i := IndexOf(rs, sock);
    var w := Without(rs, sock);
    if i < |rs| {
      assert forall k :: 0 <= k < |w| ==> w[k] == if k < i then rs[k] else rs[k + 1];
      forall x | x in Socks(rs) - {sock} ensures x in Socks(w) {
        var r :| r in rs && r.sock == x;
        var k :| 0 <= k < |rs| && rs[k] == r;
        assert w[if k < i then k else k - 1] == r;
      }
    }
  }

  lemma SocksAppend(rs: seq<Reader>, r: Reader)
    ensures Socks(rs + [r]) == Socks(rs) + {r.sock}
    ensures Unique(rs) && r.sock !in Socks(rs) ==> Unique(rs + [r])
    ensures forall x :: x in rs + [r] <==> x in rs || x == r
  {
    var w := rs + [r];
    assert forall x :: x in w <==> x in rs || x == r;
    assert forall k :: 0 <= k < |rs| ==> rs[k] in rs;
  }

  /** The reader half of the invariant for a longer array. */
  lemma ReadersAppend(rs: seq<Reader>, r: Reader, live: set<int>, m: int)
    requires Unique(rs) && Socks(rs) == live && r.sock !in live
    requires forall x :: x in rs ==> x.sock <= m
    ensures Unique(rs + [r]) && Socks(rs + [r]) == live + {r.sock}
    ensures forall x :: x in rs + [r] ==> x.sock <= Max(r.sock, m)
  {
    SocksAppend(rs, r);
  }

  /** The timer half for an event that concerns no timer. */
  lemma LogAppend(s: Loop, e: Event)
    requires Inv(s) && LegalNext(s.log, e) && (e.Added? || e.Removed? || e.Dispatched?)
    ensures Legal(s.log + [e]) && Live(s.log + [e]) == LiveAfter(Live(s.log), e)
    ensures forall t :: t in s.timers <==> t in Pending(s.log + [e])
    ensures IdsBelow(s.log + [e], s.nextId) && NoDestruction(s.log + [e])
  {
    Extend(s.log, e);
  }

  lemma AddReaderInv(s: Loop, r: Reader)
    requires Inv(s) && r.sock !in Socks(s.readers)
    ensures Inv(Step(s, RegisterReadSock(r)))
  {
    LogAppend(s, Added(r.sock));
    ReadersAppend(s.readers, r, Live(s.log), s.maxSock);
  }

  lemma RemoveReaderInv(s: Loop, sock: int)
    requires Inv(s)
    ensures Inv(Step(s, UnregisterReadSock(sock)))
  {
    if sock in Socks(s.readers) {
      WithoutSocks(s.readers, sock);
      LogAppend(s, Removed(sock));
    }
  }

  /** Every allowed call keeps the invariant. */
  lemma StepInv(s: Loop, op: Op)
    requires Inv(s) && Allowed(s, op)
    ensures Inv(Step(s, op))
  {
    match op
    case RegisterTimeout(now, secs, usecs, h, c, u) => RegisterInv(s, now, secs, usecs, h, c, u);
    case CancelTimeout(h, c, u) => CancelInv(s, h, c, u);
    case RegisterReadSock(r) => AddReaderInv(s, r);
    case UnregisterReadSock(sock) => RemoveReaderInv(s, sock);
    case Terminate =>
  }

  lemma {:induction false} StepsInv(s: Loop, ops: seq<Op>)
    requires Inv(s) && AllAllowed(s, ops)
    ensures Inv(Steps(s, ops))
    decreases |ops|
  {
    if ops == [] {
    } else {
      StepInv(s, ops[0]);
      StepsInv(Step(s, ops[0]), ops[1..]);
    }
  }

  lemma UnlinkInv(s: Loop, now: Time)
    requires Inv(s) && HeadDue(s, now)
    ensures Inv(Unlink(s, now))
  {
    var t := s.timers[0];
    BeforeIsEarlier(now, t.time);
    SortedTail(s.timers);
    assert s.timers == [t] + s.timers[1..];
    Extend(s.log, Fired(t, now));
  }

  lemma TimerPhaseInv(s: Loop, now: Time, ops: seq<Op>)
    requires Inv(s) && TimerPhaseAllowed(s, now, ops)
    ensures Inv(TimerPhase(s, now, ops))
  {
    var r := ReadClock(s, now);
    if HeadDue(r, now) {
      UnlinkInv(r, now);
      StepsInv(Unlink(r, now), ops);
    }
  }

  lemma DispatchingInv(s: Loop, i: nat)
    requires Inv(s) && i < |s.readers|
    ensures Inv(Dispatching(s, s.readers[i].sock))
  {
    assert s.readers[i] in s.readers;
    Extend(s.log, EventTrace.Dispatched(s.readers[i].sock));
  }

  lemma {:induction false} DispatchInv(s: Loop, i: nat, ready: set<int>, scripts: seq<seq<Op>>)
    requires Inv(s) && DispatchAllowed(s, i, ready, scripts)
    ensures Inv(Dispatch(s, i, ready, scripts))
    decreases |scripts|, |s.readers| - i
  {
    if i >= |s.readers| {
    } else if s.readers[i].sock !in ready {
      DispatchInv(s, i + 1, ready, scripts);
    } else {
      DispatchingInv(s, i);
      var d := Dispatching(s, s.readers[i].sock);
      if scripts == [] {
        DispatchInv(d, i + 1, ready, scripts);
      } else {
        StepsInv(d, scripts[0]);
        DispatchInv(Steps(d, scripts[0]), i + 1, ready, scripts[1..]);
      }
    }
  }

  lemma IterateInv(s: Loop, it: Iteration)
    requires Inv(s) && IterationAllowed(s, it)
    ensures Inv(Iterate(s, it))
  {
    StepsInv(s, it.signalOps);
    TimerPhaseInv(Steps(s, it.signalOps), it.now, it.timerOps);
    DispatchInv(TimerPhase(Steps(s, it.signalOps), it.now, it.timerOps), 0, it.ready, it.readerOps);
  }

  /** Whole runs: the log of every run is a legal trace, whatever the handlers do. */
  lemma {:induction false} RunInv(s: Loop, its: seq<Iteration>)
    requires Inv(s) && RunAllowed(s, its)
    ensures Inv(Run(s, its))
    decreases |its|
  {
    if its == [] || !Continues(s) {
    } else {
      IterateInv(s, its[0]);
      RunInv(Iterate(s, its[0]), its[1..]);
    }
  }

  // ---------- the end of a run ----------

  /** From eloop_init through any run to eloop_destroy: every registered timer was registered
      once and fired, was cancelled or was destroyed exactly once; nothing else ended. */
  lemma WholeRunExactlyOnce(clock: int, its: seq<Iteration>, setup: seq<Op>, t: Timer)
    requires AllAllowed(Init(clock), setup) && RunAllowed(Steps(Init(clock), setup), its)
    ensures var log := Destroy(Run(Steps(Init(clock), setup), its)).log;
            && Legal(log)
            && Registrations(log, t) == Endings(log, t) == if WasRegistered(log, t) then 1 else 0
  {
    InitInv(clock);
    StepsInv(Init(clock), setup);
    var s := Run(Steps(Init(clock), setup), its);
    RunInv(Steps(Init(clock), setup), its);
    EndRun(s.log, s.timers, Destructions(s.timers));
    ExactlyOnce(Destroy(s).log, t);
  }

  // ---------- bounded fairness ----------

  /** At most k timers are ahead of `t`; with k == -1, `t` is no longer in the list. */
  ghost predicate Within(q: seq<Timer>, t: Timer, k: int) {
    t in q ==> exists j :: 0 <= j <= k && j < |q| && q[j] == t
  }

  /** A timer known to the machine that was due at the last clock reading. */
  ghost predicate DueWithin(s: Loop, t: Timer, k: int) {
    && Inv(s)
    && t.id < s.nextId
    && Micros(t.time) <= s.clock
    && Within(s.timers, t, k)
  }

  /** No call moves a due timer back, and none brings one back. */
  lemma StepKeepsPlace(s: Loop, op: Op, t: Timer, k: int)
    requires DueWithin(s, t, k) && Allowed(s, op)
    ensures DueWithin(Step(s, op), t, k)
  {
    StepInv(s, op);
    match op {
      case RegisterTimeout(now, secs, usecs, h, c, u) =>
        var n := Timer(s.nextId, Deadline(now, secs, usecs), h, c, u);
        InsertMultiset(s.timers, n);
        if t in s.timers {
          var j :| 0 <= j <= k && j < |s.timers| && s.timers[j] == t;
          InsertKeepsPosition(s.timers, n, j);
        }
      case CancelTimeout(h, c, u) =>
        KeepDropMembers(s.timers, h, c, u);
        if t in Keep(s.timers, h, c, u) {
          var j :| 0 <= j <= k && j < |s.timers| && s.timers[j] == t;
          var j' := KeepPosition(s.timers, h, c, u, j);
        }
      case _ =>
    }
  }

  lemma {:induction false} StepsKeepPlace(s: Loop, ops: seq<Op>, t: Timer, k: int)
    requires DueWithin(s, t, k) && AllAllowed(s, ops)
    ensures DueWithin(Steps(s, ops), t, k)
    decreases |ops|
  {
    if ops == [] {
    } else {
      StepKeepsPlace(s, ops[0], t, k);
      StepsKeepPlace(Step(s, ops[0]), ops[1..], t, k);
    }
  }

  lemma {:induction false} DispatchKeepsPlace(s: Loop, i: nat, ready: set<int>, scripts: seq<seq<Op>>, t: Timer, k: int)
    requires DueWithin(s, t, k) && DispatchAllowed(s, i, ready, scripts)
    ensures DueWithin(Dispatch(s, i, ready, scripts), t, k)
    decreases |scripts|, |s.readers| - i
  {
    if i >= |s.readers| {
    } else if s.readers[i].sock !in ready {
      DispatchKeepsPlace(s, i + 1, ready, scripts, t, k);
    } else {
      DispatchingInv(s, i);
      var d := Dispatching(s, s.readers[i].sock);
      if scripts == [] {
        DispatchKeepsPlace(d, i + 1, ready, scripts, t, k);
      } else {
        StepsKeepPlace(d, scripts[0], t, k);
        DispatchKeepsPlace(Steps(d, scripts[0]), i + 1, ready, scripts[1..], t, k);
      }
    }
  }

  /** While a due timer waits the head is due as well, so the timer check serves the head. */
  lemma TimerPhaseAdvances(s: Loop, now: Time, ops: seq<Op>, t: Timer, k: nat)
    requires DueWithin(s, t, k) && TimerPhaseAllowed(s, now, ops)
    ensures DueWithin(TimerPhase(s, now, ops), t, k - 1)
  {
    var r := ReadClock(s, now);
    if t in s.timers {
      var j :| 0 <= j <= k && j < |s.timers| && s.timers[j] == t;
      BeforeIsEarlier(now, r.timers[0].time);
      assert j == 0 || Precedes(r.timers[0], t);
      UnlinkInv(r, now);
      var v := Unlink(r, now);
      if j == 0 {
        SortedTail(r.timers);
      } else {
        assert v.timers[j - 1] == t;
      }
      StepsKeepPlace(v, ops, t, k - 1);
    } else if HeadDue(r, now) {
      UnlinkInv(r, now);
      StepsKeepPlace(Unlink(r, now), ops, t, k - 1);
    }
  }

  lemma IterateAdvances(s: Loop, it: Iteration, t: Timer, k: nat)
    requires DueWithin(s, t, k) && IterationAllowed(s, it)
    ensures DueWithin(Iterate(s, it), t, k - 1)
  {
    StepsKeepPlace(s, it.signalOps, t, k);
    var a := Steps(s, it.signalOps);
    TimerPhaseAdvances(a, it.now, it.timerOps, t, k);
    DispatchKeepsPlace(TimerPhase(a, it.now, it.timerOps), 0, it.ready, it.readerOps, t, k - 1);
  }

  /** The loop does not stop before the given iterations are done. */
  predicate Completes(s: Loop, its: seq<Iteration>)
    decreases |its|
  {
    its == [] || (Continues(s) && Completes(Iterate(s, its[0]), its[1..]))
  }

  lemma {:induction false} RunAdvances(s: Loop, its: seq<Iteration>, t: Timer, k: int)
    requires DueWithin(s, t, k) && RunAllowed(s, its) && Completes(s, its)
    requires |its| == k + 1
    ensures DueWithin(Run(s, its), t, -1)
    decreases |its|
  {
    if its == [] {
    } else {
      IterateAdvances(s, its[0], t, k);
      RunAdvances(Iterate(s, its[0]), its[1..], t, k - 1);
    }
  }

  /** Bounded fairness: a due timer with k timers ahead of it has fired or been cancelled after
      k + 1 iterations, whatever the handlers register meanwhile. */
  lemma BoundedWait(s: Loop, its: seq<Iteration>, k: nat) returns (r: nat)
    requires Inv(s) && k < |s.timers| && Micros(s.timers[k].time) <= s.clock
    requires RunAllowed(s, its) && Completes(s, its) && |its| == k + 1
    ensures var log := Run(s, its).log;
            r < |log| && Ends(log[r], s.timers[k]) && !log[r].Destroyed?
  {
    var t := s.timers[k];
    PendingIsRegistered(s.log, t);
    var p :| 0 <= p < |s.log| && Begins(s.log[p], t);
    RunAdvances(s, its, t, k);
    RunExtendsLog(s, its);
    r := EndedBetween(Run(s, its).log, t, p);
  }

  // ---------- what each call does ----------

  /** A registration adds exactly one timer.  It carries the call's handler and contexts, is due
      exactly the delay after the call, and is logged with what was asked. */
  lemma RegisterAsAsked(s: Loop, now: Time, secs: nat, usecs: nat, h: int, c: int, u: int) returns (t: Timer)
    requires Inv(s)
    ensures var e := Step(s, RegisterTimeout(now, secs, usecs, h, c, u));
            && multiset(e.timers) == multiset(s.timers) + multiset{t} && t !in s.timers
            && t.handler == h && t.ctx == c && t.user == u
            && 1_000_000 * t.time.sec + t.time.usec == 1_000_000 * (now.sec + secs) + now.usec + usecs
            && e.log == s.log + [Registered(t, Asked(now, secs, usecs, h, c, u))]
            && e.readers == s.readers && e.terminate == s.terminate
  {
    t := Timer(s.nextId, Deadline(now, secs, usecs), h, c, u);
    InsertMultiset(s.timers, t);
  }

  /** A cancellation takes exactly the timers of this handler whose contexts are the given ones, -1
      standing for any. */
  lemma CancelAsAsked(s: Loop, h: int, c: int, u: int)
    requires Inv(s)
    ensures var e := Step(s, CancelTimeout(h, c, u));
            && (forall t :: t in e.timers <==>
                 t in s.timers && !(t.handler == h && (c == -1 || t.ctx == c) && (u == -1 || t.user == u)))
            && e.readers == s.readers && e.terminate == s.terminate
  {
    KeepDropMembers(s.timers, h, c, u);
  }

  lemma WithoutMembers(rs: seq<Reader>, sock: int)
    requires Unique(rs)
    ensures forall r :: r in Without(rs, sock) <==> r in rs && r.sock != sock
  {
  }

  /** Registering adds the given reader, unregistering takes the reader of the given socket, and
      max_sock only rises, to the new socket at most; the timers stay. */
  lemma ReadersAsAsked(s: Loop, r: Reader, sock: int)
    requires Inv(s) && r.sock !in Socks(s.readers)
    ensures var e := Step(s, RegisterReadSock(r));
            && (forall x :: x in e.readers <==> x in s.readers || x == r)
            && s.maxSock <= e.maxSock && (e.maxSock == s.maxSock || e.maxSock == r.sock) && e.timers == s.timers
    ensures var e := Step(s, UnregisterReadSock(sock));
            && (forall x :: x in e.readers <==> x in s.readers && x.sock != sock)
            && e.maxSock == s.maxSock && e.timers == s.timers
  {
    SocksAppend(s.readers, r);
    WithoutMembers(s.readers, sock);
  }

  // ---------- when the loop stops ----------

  lemma {:induction false} StepsTerminate(s: Loop, ops: seq<Op>)
    ensures Steps(s, ops).terminate <==> s.terminate || Terminate in ops
    decreases |ops|
  {
    if ops == [] {
    } else {
      assert ops == [ops[0]] + ops[1..];
      StepsTerminate(Step(s, ops[0]), ops[1..]);
    }
  }

  lemma {:induction false} DispatchTerminates(s: Loop, i: nat, ready: set<int>, scripts: seq<seq<Op>>)
    ensures s.terminate ==> Dispatch(s, i, ready, scripts).terminate
    ensures Dispatch(s, i, ready, scripts).terminate ==>
              s.terminate || exists k :: 0 <= k < |scripts| && Terminate in scripts[k]
    decreases |scripts|, |s.readers| - i
  {
    if i >= |s.readers| {
    } else if s.readers[i].sock !in ready {
      DispatchTerminates(s, i + 1, ready, scripts);
    } else {
      var d := Dispatching(s, s.readers[i].sock);
      if scripts == [] {
        DispatchTerminates(d, i + 1, ready, scripts);
      } else {
        StepsTerminate(d, scripts[0]);
        DispatchTerminates(Steps(d, scripts[0]), i + 1, ready, scripts[1..]);
      }
    }
  }

  /** A loop that was told to stop by a signal callback or by the handler of a due timer performs no
      further iteration, nor does one without timers and readers.  Any other goes on unless a read
      handler told it to stop. */
  lemma StopsExactly(s: Loop, it: Iteration, its: seq<Iteration>)
    ensures s.terminate || (s.timers == [] && s.readers == []) ==> Run(s, [it] + its) == s
    ensures !s.terminate && (s.timers != [] || s.readers != []) ==> Run(s, [it] + its) == Run(Iterate(s, it), its)
    ensures Terminate in it.signalOps ==> Run(Iterate(s, it), its) == Iterate(s, it)
    ensures var a := Steps(s, it.signalOps);
            Terminate in it.timerOps && a.timers != [] && Micros(a.timers[0].time) <= Micros(it.now) ==>
              Run(Iterate(s, it), its) == Iterate(s, it)
    ensures Iterate(s, it).terminate ==>
              || s.terminate || Terminate in it.signalOps || Terminate in it.timerOps
              || exists k :: 0 <= k < |it.readerOps| && Terminate in it.readerOps[k]
  {
    assert ([it] + its)[1..] == its;
    var a := Steps(s, it.signalOps);
    var r := ReadClock(a, it.now);
    StepsTerminate(s, it.signalOps);
    if HeadDue(r, it.now) {
      StepsTerminate(Unlink(r, it.now), it.timerOps);
    }
    if a.timers != [] {
      BeforeIsEarlier(it.now, a.timers[0].time);
    }
    DispatchTerminates(TimerPhase(a, it.now, it.timerOps), 0, it.ready, it.readerOps);
  }

  // ---------- the log only grows ----------

  lemma {:induction false} StepsExtendLog(s: Loop, ops: seq<Op>)
    ensures s.log <= Steps(s, ops).log
    decreases |ops|
  {
    if ops == [] {
    } else {
      StepsExtendLog(Step(s, ops[0]), ops[1..]);
    }
  }

  lemma {:induction false} DispatchExtendsLog(s: Loop, i: nat, ready: set<int>, scripts: seq<seq<Op>>)
    ensures s.log <= Dispatch(s, i, ready, scripts).log
    decreases |scripts|, |s.readers| - i
  {
    if i >= |s.readers| {
    } else if s.readers[i].sock !in ready {
      DispatchExtendsLog(s, i + 1, ready, scripts);
    } else {
      var d := Dispatching(s, s.readers[i].sock);
      if scripts == [] {
        DispatchExtendsLog(d, i + 1, ready, scripts);
      } else {
        StepsExtendLog(d, scripts[0]);
        DispatchExtendsLog(Steps(d, scripts[0]), i + 1, ready, scripts[1..]);
      }
    }
  }

  lemma {:induction false} RunExtendsLog(s: Loop, its: seq<Iteration>)
    ensures s.log <= Run(s, its).log
    decreases |its|
  {
    if its == [] || !Continues(s) {
    } else {
      var it := its[0];
      var a := Steps(s, it.signalOps);
      StepsExtendLog(s, it.signalOps);
      var r := ReadClock(a, it.now);
      if HeadDue(r, it.now) {
        StepsExtendLog(Unlink(r, it.now), it.timerOps);
      }
      DispatchExtendsLog(TimerPhase(a, it.now, it.timerOps), 0, it.ready, it.readerOps);
      RunExtendsLog(Iterate(s, it), its[1..]);
    }
  }
}
