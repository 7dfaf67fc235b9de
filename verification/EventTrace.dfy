/** What a run of the event loop may look like from outside.

    A log lists what happened, oldest first.  It is legal when it is a trace of two textbook
    objects: a stable priority queue of timers and a registry of distinct sockets.  The rest of
    the module draws the consequences that hold of every legal log. */
module EventTrace {
  import opened TimerQueue

  /** What a caller of eloop_register_timeout asked for, and when. */
  datatype Asked = Asked(now: Time, secs: nat, usecs: nat, handler: int, ctx: int, user: int)

  datatype Event =
    | Registered(timer: Timer, asked: Asked)
    | Fired(timer: Timer, at: Time)
    | Cancelled(timer: Timer)
    | Destroyed(timer: Timer)
    | Added(sock: int)
    | Removed(sock: int)
    | Dispatched(sock: int)

  type Log = seq<Event>

  /** The timer carries what was asked for and is due exactly the delay after the call. */
  predicate Answers(t: Timer, a: Asked) {
    && t.handler == a.handler && t.ctx == a.ctx && t.user == a.user
    && 1_000_000 * t.time.sec + t.time.usec == 1_000_000 * (a.now.sec + a.secs) + a.now.usec + a.usecs
  }

  predicate Begins(e: Event, t: Timer) {
    e.Registered? && e.timer == t
  }

  ghost predicate WasRegistered(log: Log, t: Timer) {
    exists p :: 0 <= p < |log| && Begins(log[p], t)
  }

  /** The three ways in which a registration ends. */
  predicate Ends(e: Event, t: Timer) {
    (e.Fired? || e.Cancelled? || e.Destroyed?) && e.timer == t
  }

  function PendingAfter(before: set<Timer>, e: Event): set<Timer> {
    match e
    case Registered(t, _) => before + {t}
    case Fired(t, _) => before - {t}
    case Cancelled(t) => before - {t}
    case Destroyed(t) => before - {t}
    case _ => before
  }

  function LiveAfter(before: set<int>, e: Event): set<int> {
    match e
    case Added(s) => before + {s}
    case Removed(s) => before - {s}
    case _ => before
  }

  /** The abstract queue after a log: the registrations that have not ended. */
  ghost function Pending(log: Log): set<Timer> {
    if log == [] then {} else PendingAfter(Pending(log[..|log| - 1]), log[|log| - 1])
  }

  /** The abstract registry after a log. */
  ghost function Live(log: Log): set<int> {
    if log == [] then {} else LiveAfter(Live(log[..|log| - 1]), log[|log| - 1])
  }

  ghost predicate LegalNext(log: Log, e: Event) {
    match e
    case Registered(t, a) =>
      && Answers(t, a)
      && forall i :: 0 <= i < |log| && log[i].Registered? ==> log[i].timer.id < t.id
    case Fired(t, at) =>
      && t in Pending(log)
      && (forall u :: u in Pending(log) ==> u == t || Precedes(t, u))
      && Micros(t.time) <= Micros(at)
    case Cancelled(t) => t in Pending(log)
    case Destroyed(t) => t in Pending(log)
    case Added(s) => s !in Live(log)
    case Removed(s) => s in Live(log)
    case Dispatched(s) => s in Live(log)
  }

  ghost predicate Legal(log: Log) {
    log == [] || (Legal(log[..|log| - 1]) && LegalNext(log[..|log| - 1], log[|log| - 1]))
  }

  lemma Extend(log: Log, e: Event)
    requires Legal(log) && LegalNext(log, e)
    ensures Legal(log + [e])
    ensures Pending(log + [e]) == PendingAfter(Pending(log), e)
    ensures Live(log + [e]) == LiveAfter(Live(log), e)
  {
    assert (log + [e])[..|log + [e]| - 1] == log;
  }

  /** Every prefix of a legal log is legal, and every event was legal when it happened. */
  lemma {:induction false} LegalAt(log: Log, j: nat)
    requires Legal(log) && j < |log|
    ensures Legal(log[..j]) && LegalNext(log[..j], log[j])
  {
    if j < |log| - 1 {
      LegalAt(log[..|log| - 1], j);
      assert log[..|log| - 1][..j] == log[..j];
    }
  }

  lemma {:induction false} PendingIsRegistered(log: Log, t: Timer)
    requires t in Pending(log)
    ensures WasRegistered(log, t)
  {
    if log == [] {
    } else if !Begins(log[|log| - 1], t) {
      var front := log[..|log| - 1];
      PendingIsRegistered(front, t);
      var p :| 0 <= p < |front| && Begins(front[p], t);
      assert Begins(log[p], t);
    }
  }

  /** A registered timer that is no longer pending has ended since. */
  lemma {:induction false} EndedBetween(log: Log, t: Timer, p: nat) returns (r: nat)
    requires p < |log| && Begins(log[p], t) && t !in Pending(log)
    ensures p < r < |log| && Ends(log[r], t)
  {
    var front := log[..|log| - 1];
    if Ends(log[|log| - 1], t) {
      r := |log| - 1;
    } else {
      r := EndedBetween(front, t, p);
    }
  }

  lemma {:induction false} AddedBetween(log: Log, s: int, p: nat) returns (r: nat)
    requires p < |log| && log[p] == Removed(s) && s in Live(log)
    ensures p < r < |log| && log[r] == Added(s)
  {
    if log[|log| - 1] == Added(s) {
      r := |log| - 1;
    } else {
      r := AddedBetween(log[..|log| - 1], s, p);
    }
  }

  // ---------- consequences for timers ----------

  ghost function Endings(log: Log, t: Timer): nat {
    if log == [] then 0
    else Endings(log[..|log| - 1], t) + if Ends(log[|log| - 1], t) then 1 else 0
  }

  ghost function Registrations(log: Log, t: Timer): nat {
    if log == [] then 0
    else Registrations(log[..|log| - 1], t) + if Begins(log[|log| - 1], t) then 1 else 0
  }

  lemma OneMoreEvent(front: Log, e: Event, t: Timer)
    ensures WasRegistered(front + [e], t) <==> WasRegistered(front, t) || Begins(e, t)
  {
    var log := front + [e];
    if WasRegistered(front, t) {
      var p :| 0 <= p < |front| && Begins(front[p], t);
      assert Begins(log[p], t);
    }
    assert log[|front|] == e;
  }

  /** Every timer is registered at most once, and a registration is pending or has ended exactly once. */
  lemma {:induction false} ExactlyOnce(log: Log, t: Timer)
    requires Legal(log)
    ensures Registrations(log, t) == if WasRegistered(log, t) then 1 else 0
    ensures WasRegistered(log, t) ==> Endings(log, t) == if t in Pending(log) then 0 else 1
    ensures !WasRegistered(log, t) ==> Endings(log, t) == 0 && t !in Pending(log)
  {
    if log == [] {
    } else {
      var front, e := log[..|log| - 1], log[|log| - 1];
      ExactlyOnce(front, t);
      OneMoreEvent(front, e, t);
      assert log == front + [e];
    }
  }

  /** Distinct registrations carry increasing numbers, so the number is the registration order. */
  lemma RegistrationOrder(log: Log, p: nat, q: nat)
    requires Legal(log) && p < q < |log| && log[p].Registered? && log[q].Registered?
    ensures log[p].timer.id < log[q].timer.id
  {
    LegalAt(log, q);
    assert log[..q][p] == log[p];
  }

  /** No timer fires early: before a firing stands the one registration of this timer, and since the
      call at least the delay it asked for has passed. */
  lemma NeverEarly(log: Log, j: nat) returns (p: nat)
    requires Legal(log) && j < |log| && log[j].Fired?
    ensures p < j && Begins(log[p], log[j].timer) && Answers(log[j].timer, log[p].asked)
    ensures var a, at := log[p].asked, log[j].at;
            1_000_000 * (at.sec - a.now.sec) + (at.usec - a.now.usec) >= 1_000_000 * a.secs + a.usecs
  {
    LegalAt(log, j);
    PendingIsRegistered(log[..j], log[j].timer);
    p :| 0 <= p < j && Begins(log[..j][p], log[j].timer);
    LegalAt(log, p);
  }

  /** Firing follows deadlines, and registration order on equal deadlines: when a timer fires,
      every registration that comes before it in that order has already ended. */
  lemma FiringOrder(log: Log, p: nat, j: nat) returns (r: nat)
    requires Legal(log) && p < j < |log|
    requires log[p].Registered? && log[j].Fired? && Precedes(log[p].timer, log[j].timer)
    ensures p < r < j && Ends(log[r], log[p].timer)
  {
    LegalAt(log, j);
    assert log[..j][p] == log[p];
    r := EndedBetween(log[..j], log[p].timer, p);
  }

  // ---------- consequences for readers ----------

  /** A socket that was unregistered is dispatched again only if it was registered again. */
  lemma NoDispatchAfterRemoval(log: Log, p: nat, q: nat) returns (r: nat)
    requires Legal(log) && p < q < |log|
    requires log[p].Removed? && log[q] == Dispatched(log[p].sock)
    ensures p < r < q && log[r] == Added(log[p].sock)
  {
    LegalAt(log, q);
    assert log[..q][p] == log[p];
    r := AddedBetween(log[..q], log[p].sock, p);
  }
}
