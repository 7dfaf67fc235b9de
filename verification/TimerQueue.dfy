/** The timer list of eloop.c as a value: a sequence kept in firing order.

    Times are seconds and microseconds, as in `struct timeval`.  The list is ordered by
    deadline; entries with equal deadlines stay in registration order. */
module TimerQueue {

  datatype TimeVal = TimeVal(sec: int, usec: int)

  const MILLION := 1_000_000

  /** The wildcard ELOOP_ALL_CTX, (void *) -1. */
  const ALL_CTX := -1

  /** A normalised time: what gettimeofday returns and what the carry loop restores. */
  type Time = t: TimeVal | 0 <= t.usec < MILLION witness TimeVal(0, 0)

  function Micros(t: TimeVal): int {
    t.sec * MILLION + t.usec
  }

  /** timercmp(a, b, <): compares seconds first and microseconds only on a tie. */
  predicate Before(a: TimeVal, b: TimeVal) {
    if a.sec == b.sec then a.usec < b.usec else a.sec < b.sec
  }

  /** The field-wise comparison is the exact one, but only on normalised times. */
  lemma BeforeIsEarlier(a: Time, b: Time)
    ensures Before(a, b) <==> Micros(a) < Micros(b)
  {
  }

  /** A normalised time is determined by its microsecond count. */
  lemma NormalFormUnique(a: Time, b: Time)
    requires Micros(a) == Micros(b)
    ensures a == b
  {
  }

  /** The carry loop of eloop_register_timeout. */
  method AddDelay(now: Time, secs: nat, usecs: nat) returns (t: Time)
    ensures t == Deadline(now, secs, usecs)
  {
    var sum := TimeVal(now.sec + secs, now.usec + usecs);
    while sum.usec >= MILLION
      invariant 0 <= sum.usec
      invariant Micros(sum) == Micros(now) + secs * MILLION + usecs
      decreases sum.usec
    {
      sum := TimeVal(sum.sec + 1, sum.usec - MILLION);
    }
    t := sum;
    NormalFormUnique(t, Deadline(now, secs, usecs));
  }

  function Deadline(now: Time, secs: nat, usecs: nat): (t: Time)
    ensures Micros(t) == Micros(now) + secs * MILLION + usecs
  {
    var total := now.usec + usecs;
    TimeVal(now.sec + secs + total / MILLION, total % MILLION)
  }

  /** timersub with the guard of eloop_run: how long select may sleep before the head is due. */
  function SelectWait(now: Time, head: Time): (tv: Time)
    ensures Micros(tv) == if Micros(now) < Micros(head) then Micros(head) - Micros(now) else 0
  {
    if Before(now, head) then
      if head.usec - now.usec < 0 then TimeVal(head.sec - now.sec - 1, head.usec - now.usec + MILLION)
      else TimeVal(head.sec - now.sec, head.usec - now.usec)
    else TimeVal(0, 0)
  }

  /** One registration.  `id` is its registration number: a ghost of the model, not of the C struct. */
  datatype Timer = Timer(id: nat, time: Time, handler: int, ctx: int, user: int)

  predicate Matches(t: Timer, handler: int, ctx: int, user: int) {
    && t.handler == handler
    && (t.ctx == ctx || ctx == ALL_CTX)
    && (t.user == user || user == ALL_CTX)
  }

  function Insert(q: seq<Timer>, t: Timer): (r: seq<Timer>)
    ensures |r| == |q| + 1
  {
    if q == [] || Before(t.time, q[0].time) then [t] + q else [q[0]] + Insert(q[1..], t)
  }

  function Keep(q: seq<Timer>, handler: int, ctx: int, user: int): (r: seq<Timer>)
    ensures |r| <= |q|
  {
    if q == [] then []
    else if Matches(q[0], handler, ctx, user) then Keep(q[1..], handler, ctx, user)
    else [q[0]] + Keep(q[1..], handler, ctx, user)
  }

  function Drop(q: seq<Timer>, handler: int, ctx: int, user: int): (r: seq<Timer>)
    ensures |r| <= |q|
  {
    if q == [] then []
    else if Matches(q[0], handler, ctx, user) then [q[0]] + Drop(q[1..], handler, ctx, user)
    else Drop(q[1..], handler, ctx, user)
  }

  /** The firing order: earlier deadline first, earlier registration first on a tie. */
  predicate Precedes(a: Timer, b: Timer) {
    Micros(a.time) < Micros(b.time) || (Micros(a.time) == Micros(b.time) && a.id < b.id)
  }

  ghost predicate Sorted(q: seq<Timer>) {
    forall i, j :: 0 <= i < j < |q| ==> Precedes(q[i], q[j])
  }

  // ---------- insertion ----------

  /** The list loop stops at the first later deadline; inserting there is Insert. */
  lemma {:induction false} InsertSplit(q: seq<Timer>, t: Timer, k: nat)
    requires k <= |q|
    requires forall i :: 0 <= i < k ==> !Before(t.time, q[i].time)
    requires k < |q| ==> Before(t.time, q[k].time)
    ensures Insert(q, t) == q[..k] + [t] + q[k..]
  {
    if k == 0 {
    } else {
      forall i | 0 <= i < k - 1 ensures !Before(t.time, q[1..][i].time) {
        assert q[1..][i] == q[i + 1];
      }
      InsertSplit(q[1..], t, k - 1);
      assert q[..k] == [q[0]] + q[1..][..k - 1];
      assert q[1..][k - 1..] == q[k..];
    }
  }

  /** The insertion point. */
  function Slot(q: seq<Timer>, t: Timer): (k: nat)
    ensures k <= |q|
    ensures forall i :: 0 <= i < k ==> !Before(t.time, q[i].time)
    ensures k < |q| ==> Before(t.time, q[k].time)
  {
    if q == [] || Before(t.time, q[0].time) then 0 else 1 + Slot(q[1..], t)
  }

  lemma {:induction false} InsertMultiset(q: seq<Timer>, t: Timer)
    ensures multiset(Insert(q, t)) == multiset(q) + multiset{t}
    ensures forall x :: x in Insert(q, t) <==> x == t || x in q
  {
    if q == [] || Before(t.time, q[0].time) {
    } else {
      InsertMultiset(q[1..], t);
      assert q == [q[0]] + q[1..];
    }
  }

  lemma SortedCons(x: Timer, q: seq<Timer>)
    requires Sorted(q)
    requires forall y :: y in q ==> Precedes(x, y)
    ensures Sorted([x] + q)
  {
    var r := [x] + q;
    forall i, j | 0 <= i < j < |r| ensures Precedes(r[i], r[j]) {
      assert r[j] == q[j - 1] && q[j - 1] in q;
    }
  }

  lemma SortedTail(q: seq<Timer>)
    requires Sorted(q) && q != []
    ensures Sorted(q[1..])
    ensures forall y :: y in q[1..] ==> Precedes(q[0], y)
  {
  }

  lemma {:induction false} InsertSorted(q: seq<Timer>, t: Timer)
    requires Sorted(q)
    requires forall x :: x in q ==> x.id < t.id
    ensures Sorted(Insert(q, t))
  {
    if q == [] {
    } else {
      SortedTail(q);
      BeforeIsEarlier(t.time, q[0].time);
      if Before(t.time, q[0].time) {
        SortedCons(t, q);
      } else {
        assert q[0] in q;
        InsertSorted(q[1..], t);
        InsertMultiset(q[1..], t);
        SortedCons(q[0], Insert(q[1..], t));
      }
    }
  }

  /** No later registration moves ahead of a timer that is already due no later than it. */
  lemma InsertKeepsPosition(q: seq<Timer>, t: Timer, i: nat)
    requires Sorted(q) && i < |q|
    requires Micros(q[i].time) <= Micros(t.time)
    ensures Insert(q, t)[i] == q[i]
  {
    var k := Slot(q, t);
    InsertSplit(q, t, k);
    if k <= i {
      BeforeIsEarlier(t.time, q[k].time);
    }
  }

  // ---------- cancellation ----------

  lemma {:induction false} KeepDropPartition(q: seq<Timer>, handler: int, ctx: int, user: int)
    ensures multiset(Keep(q, handler, ctx, user)) + multiset(Drop(q, handler, ctx, user)) == multiset(q)
  {
    if q == [] {
    } else {
      KeepDropPartition(q[1..], handler, ctx, user);
      assert q == [q[0]] + q[1..];
    }
  }

  lemma {:induction false} KeepDropMembers(q: seq<Timer>, handler: int, ctx: int, user: int)
    ensures forall x :: x in Keep(q, handler, ctx, user) <==> x in q && !Matches(x, handler, ctx, user)
    ensures forall x :: x in Drop(q, handler, ctx, user) <==> x in q && Matches(x, handler, ctx, user)
  {
    if q == [] {
    } else {
      KeepDropMembers(q[1..], handler, ctx, user);
      assert q == [q[0]] + q[1..];
    }
  }

  lemma {:induction false} KeepSorted(q: seq<Timer>, handler: int, ctx: int, user: int)
    requires Sorted(q)
    ensures Sorted(Keep(q, handler, ctx, user))
  {
    if q == [] {
    } else {
      SortedTail(q);
      KeepSorted(q[1..], handler, ctx, user);
      KeepDropMembers(q[1..], handler, ctx, user);
      if !Matches(q[0], handler, ctx, user) {
        SortedCons(q[0], Keep(q[1..], handler, ctx, user));
      }
    }
  }

  /** A survivor never moves back. */
  lemma {:induction false} KeepPosition(q: seq<Timer>, handler: int, ctx: int, user: int, i: nat) returns (j: nat)
    requires i < |q| && !Matches(q[i], handler, ctx, user)
    ensures j <= i && j < |Keep(q, handler, ctx, user)|
    ensures Keep(q, handler, ctx, user)[j] == q[i]
  {
    if i == 0 {
      j := 0;
    } else {
      j := KeepPosition(q[1..], handler, ctx, user, i - 1);
      if !Matches(q[0], handler, ctx, user) {
        j := j + 1;
      }
    }
  }
}
