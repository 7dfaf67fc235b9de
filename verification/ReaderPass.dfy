/** One pass over the reader array while handlers change it.

    The scan keeps an index into an array that unregistering compacts.  Removing a later reader
    is harmless; removing the current or an earlier one makes the scan step over its successor. */
module ReaderPass {
  import opened TimerQueue
  import opened EventTrace
  import opened EventLoop

  function SockSeq(rs: seq<Reader>): (r: seq<int>)
    ensures |r| == |rs|
  {
    if rs == [] then [] else [rs[0].sock] + SockSeq(rs[1..])
  }

  function From(rs: seq<Reader>, i: nat): seq<Reader> {
    if i <= |rs| then rs[i..] else []
  }

  function Filter(xs: seq<int>, keep: set<int>): (r: seq<int>)
    ensures |r| <= |xs|
  {
    if xs == [] then []
    else if xs[0] in keep then [xs[0]] + Filter(xs[1..], keep)
    else Filter(xs[1..], keep)
  }

  /** The sockets dispatched in a stretch of the log, in order. */
  function Served(log: Log): seq<int> {
    if log == [] then []
    else if log[0].Dispatched? then [log[0].sock] + Served(log[1..])
    else Served(log[1..])
  }

  /** The events a pass adds. */
  function PassEvents(s: Loop, i: nat, ready: set<int>, scripts: seq<seq<Op>>): (l: Log)
    ensures s.log + l == Dispatch(s, i, ready, scripts).log
  {
    DispatchExtendsLog(s, i, ready, scripts);
    Dispatch(s, i, ready, scripts).log[|s.log|..]
  }

  lemma {:induction false} FilterConcat(a: seq<int>, b: seq<int>, keep: set<int>)
    ensures Filter(a + b, keep) == Filter(a, keep) + Filter(b, keep)
  {
    if a == [] {
      assert a + b == b;
    } else {
      assert (a + b)[1..] == a[1..] + b;
      FilterConcat(a[1..], b, keep);
    }
  }

  lemma {:induction false} ServedConcat(a: Log, b: Log)
    ensures Served(a + b) == Served(a) + Served(b)
  {
    if a == [] {
      assert a + b == b;
    } else {
      assert (a + b)[1..] == a[1..] + b;
      ServedConcat(a[1..], b);
    }
  }

  lemma {:induction false} SockSeqConcat(a: seq<Reader>, b: seq<Reader>)
    ensures SockSeq(a + b) == SockSeq(a) + SockSeq(b)
  {
    if a == [] {
      assert a + b == b;
    } else {
      assert (a + b)[1..] == a[1..] + b;
      SockSeqConcat(a[1..], b);
    }
  }

  /** The calls neither close nor open a reader of `stay`. */
  predicate Spares(ops: seq<Op>, stay: set<int>) {
    forall op :: op in ops ==>
      && (op.UnregisterReadSock? ==> op.sock !in stay)
      && (op.RegisterReadSock? ==> op.reader.sock !in stay)
  }

  /** A handler running at index i unregisters only readers behind it. */
  predicate LaterOps(s: Loop, ops: seq<Op>, i: nat)
    decreases |ops|
  {
    ops == [] ||
    ((ops[0].UnregisterReadSock? ==> IndexOf(s.readers, ops[0].sock) > i) &&
     LaterOps(Step(s, ops[0]), ops[1..], i))
  }

  predicate LaterOnly(s: Loop, i: nat, ready: set<int>, scripts: seq<seq<Op>>)
    decreases |scripts|, |s.readers| - i
  {
    if i >= |s.readers| then true
    else if s.readers[i].sock !in ready then LaterOnly(s, i + 1, ready, scripts)
    else
      var d := Dispatching(s, s.readers[i].sock);
      if scripts == [] then LaterOnly(d, i + 1, ready, scripts)
      else LaterOps(d, scripts[0], i) && LaterOnly(Steps(d, scripts[0]), i + 1, ready, scripts[1..])
  }

  /** What is still to be scanned, seen through `stay`. */
  function Ahead(s: Loop, i: nat, stay: set<int>): seq<int> {
    Filter(SockSeq(From(s.readers, i)), stay)
  }

  lemma RegisterKeepsAhead(rs: seq<Reader>, r: Reader, i: nat, stay: set<int>)
    requires i < |rs| && r.sock !in stay
    ensures Filter(SockSeq(From(rs + [r], i + 1)), stay) == Filter(SockSeq(From(rs, i + 1)), stay)
  {
    assert From(rs + [r], i + 1) == From(rs, i + 1) + [r];
    SockSeqConcat(From(rs, i + 1), [r]);
    FilterConcat(SockSeq(From(rs, i + 1)), SockSeq([r]), stay);
    assert [r][1..] == [] && [r.sock][1..] == [];
  }

  /** Cutting one reader out behind index i. */
  lemma CutKeepsAhead(rs: seq<Reader>, k: nat, i: nat, stay: set<int>)
    requires i < k < |rs| && rs[k].sock !in stay
    ensures Filter(SockSeq(From(rs[..k] + rs[k + 1..], i + 1)), stay) == Filter(SockSeq(From(rs, i + 1)), stay)
  {
    var a, b := rs[i + 1..k], rs[k + 1..];
    assert From(rs, i + 1) == a + ([rs[k]] + b);
    assert From(rs[..k] + rs[k + 1..], i + 1) == a + b;
    SockSeqConcat(a, [rs[k]] + b);
    SockSeqConcat(a, b);
    assert ([rs[k]] + b)[1..] == b;
    FilterConcat(SockSeq(a), SockSeq([rs[k]] + b), stay);
    FilterConcat(SockSeq(a), SockSeq(b), stay);
  }

  lemma UnregisterKeepsAhead(rs: seq<Reader>, x: int, i: nat, stay: set<int>)
    requires i < IndexOf(rs, x) < |rs| && x !in stay
    ensures Filter(SockSeq(From(Without(rs, x), i + 1)), stay) == Filter(SockSeq(From(rs, i + 1)), stay)
  {
    CutKeepsAhead(rs, IndexOf(rs, x), i, stay);
  }

  lemma StepKeepsAhead(s: Loop, op: Op, i: nat, stay: set<int>)
    requires i < |s.readers| && Spares([op], stay)
    requires op.UnregisterReadSock? ==> IndexOf(s.readers, op.sock) > i
    ensures Ahead(Step(s, op), i + 1, stay) == Ahead(s, i + 1, stay)
    ensures i < |Step(s, op).readers|
  {
    assert op in [op];
    if op.RegisterReadSock? {
      RegisterKeepsAhead(s.readers, op.reader, i, stay);
    } else if op.UnregisterReadSock? && op.sock in Socks(s.readers) {
      if IndexOf(s.readers, op.sock) < |s.readers| {
        UnregisterKeepsAhead(s.readers, op.sock, i, stay);
      }
    }
  }

  /** The events the calls of one handler add. */
  function OpEvents(s: Loop, ops: seq<Op>): (l: Log)
    ensures s.log + l == Steps(s, ops).log
  {
    StepsExtendLog(s, ops);
    Steps(s, ops).log[|s.log|..]
  }

  lemma {:induction false} ServedNone(log: Log)
    requires forall e :: e in log ==> !e.Dispatched?
    ensures Served(log) == []
  {
    if log == [] {
    } else {
      ServedNone(log[1..]);
    }
  }

  lemma StepServesNothing(s: Loop, op: Op)
    ensures s.log <= Step(s, op).log
    ensures forall e :: e in Step(s, op).log[|s.log|..] ==> !e.Dispatched?
  {
  }

  lemma SplitSuffix(a: Log, b: Log, c: Log)
    requires a <= b <= c
    ensures c[|a|..] == b[|a|..] + c[|b|..]
  {
  }

  lemma {:induction false} OpsServeNothing(s: Loop, ops: seq<Op>)
    ensures forall e :: e in OpEvents(s, ops) ==> !e.Dispatched?
    decreases |ops|
  {
    if ops == [] {
    } else {
      var s1 := Step(s, ops[0]);
      StepServesNothing(s, ops[0]);
      OpsServeNothing(s1, ops[1..]);
      StepsExtendLog(s1, ops[1..]);
      SplitSuffix(s.log, s1.log, Steps(s, ops).log);
    }
  }

  lemma {:induction false} StepsKeepAhead(s: Loop, ops: seq<Op>, i: nat, stay: set<int>)
    requires i < |s.readers| && Spares(ops, stay) && LaterOps(s, ops, i)
    ensures Ahead(Steps(s, ops), i + 1, stay) == Ahead(s, i + 1, stay)
    decreases |ops|
  {
    if ops == [] {
    } else {
      assert ops[0] in ops;
      StepKeepsAhead(s, ops[0], i, stay);
      StepsKeepAhead(Step(s, ops[0]), ops[1..], i, stay);
    }
  }

  lemma ServedJoin(base: Log, x: int, l: Log, m: Log, e: Log)
    requires base + e == base + [Dispatched(x)] + l + m
    requires forall v :: v in l ==> !v.Dispatched?
    ensures Served(e) == [x] + Served(m)
  {
    ServedNone(l);
    ServedConcat(l, m);
    assert e == (base + e)[|base|..];
    assert e == [Dispatched(x)] + (l + m);
  }

  /** Serving one ready reader: its dispatch, the calls of its handler, the rest of the pass. */
  lemma ServedUnrolls(s: Loop, i: nat, ready: set<int>, scripts: seq<seq<Op>>)
    requires i < |s.readers| && s.readers[i].sock in ready
    ensures var d := Dispatching(s, s.readers[i].sock);
            var h := if scripts == [] then d else Steps(d, scripts[0]);
            var rest := if scripts == [] then scripts else scripts[1..];
            && Dispatch(s, i, ready, scripts) == Dispatch(h, i + 1, ready, rest)
            && Served(PassEvents(s, i, ready, scripts)) ==
               [s.readers[i].sock] + Served(PassEvents(h, i + 1, ready, rest))
  {
    var x := s.readers[i].sock;
    var d := Dispatching(s, x);
    var ops := if scripts == [] then [] else scripts[0];
    var rest := if scripts == [] then scripts else scripts[1..];
    var h := Steps(d, ops);
    OpsServeNothing(d, ops);
    ServedJoin(s.log, x, OpEvents(d, ops), PassEvents(h, i + 1, ready, rest), PassEvents(s, i, ready, scripts));
  }

  /** When handlers unregister only readers behind them, the readers that stay registered are
      served exactly when they are ready, each once and in array order: their share of the
      dispatches is the ready part of their share of the array. */
  lemma {:induction false} PassServesStayers(
      s: Loop, i: nat, ready: set<int>, scripts: seq<seq<Op>>, stay: set<int>)
    requires LaterOnly(s, i, ready, scripts)
    requires forall k :: 0 <= k < |scripts| ==> Spares(scripts[k], stay)
    ensures Filter(Served(PassEvents(s, i, ready, scripts)), stay) == Filter(Ahead(s, i, stay), ready)
    decreases |scripts|, |s.readers| - i
  {
    if i >= |s.readers| {
    } else {
      var x := s.readers[i].sock;
      assert From(s.readers, i) == [s.readers[i]] + From(s.readers, i + 1);
      if x !in ready {
        PassServesStayers(s, i + 1, ready, scripts, stay);
      } else {
        ServedUnrolls(s, i, ready, scripts);
        var d := Dispatching(s, x);
        if scripts == [] {
          PassServesStayers(d, i + 1, ready, scripts, stay);
        } else {
          PassServesStayers(Steps(d, scripts[0]), i + 1, ready, scripts[1..], stay);
          StepsKeepAhead(d, scripts[0], i, stay);
        }
      }
    }
  }

  lemma {:induction false} FilterSingle(rs: seq<Reader>, x: int)
    requires Unique(rs)
    ensures Filter(SockSeq(rs), {x}) == if x in Socks(rs) then [x] else []
  {
    if rs == [] {
    } else {
      assert rs == [rs[0]] + rs[1..];
      FilterSingle(rs[1..], x);
      forall k | 0 <= k < |rs[1..]| ensures rs[1..][k].sock != rs[0].sock {
        assert rs[1..][k] == rs[k + 1];
      }
      assert rs[0].sock !in Socks(rs[1..]);
      assert Socks(rs) == {rs[0].sock} + Socks(rs[1..]);
    }
  }

  /** One ready reader: served exactly once in the pass, unless a handler closes it. */
  lemma ReadyReaderServedOnce(s: Loop, ready: set<int>, scripts: seq<seq<Op>>, x: int)
    requires Inv(s) && LaterOnly(s, 0, ready, scripts) && x in Socks(s.readers) && x in ready
    requires forall k :: 0 <= k < |scripts| ==> Spares(scripts[k], {x})
    ensures Filter(Served(PassEvents(s, 0, ready, scripts)), {x}) == [x]
  {
    PassServesStayers(s, 0, ready, scripts, {x});
    assert From(s.readers, 0) == s.readers;
    FilterSingle(s.readers, x);
    assert [x][1..] == [];
  }

  // ---------- what goes wrong otherwise ----------

  /** While index i is being served, unregistering one socket leaves every other reader behind i
      still behind i exactly when that socket was not registered, stood behind i itself, or
      nothing stands behind i. */
  lemma RemovalSkipsNobody(rs: seq<Reader>, i: nat, x: int)
    requires Unique(rs) && i < |rs|
    ensures (forall r :: r in From(rs, i + 1) && r.sock != x ==> r in From(Without(rs, x), i + 1))
            <==> (x !in Socks(rs) || IndexOf(rs, x) > i || i + 1 == |rs|)
  {
    var k := IndexOf(rs, x);
    if k < |rs| {
      assert rs[k] in rs;
      if k > i {
        CutKeepsMembers(rs, k, i, x);
      } else if i + 1 < |rs| {
        EarlierRemovalSkips(rs, i, x);
      }
    }
  }

  lemma CutKeepsMembers(rs: seq<Reader>, k: nat, i: nat, x: int)
    requires i < k < |rs| && rs[k].sock == x
    ensures forall r :: r in From(rs, i + 1) && r.sock != x ==> r in From(rs[..k] + rs[k + 1..], i + 1)
  {
    var w := rs[..k] + rs[k + 1..];
    var a, b := From(rs, i + 1), From(w, i + 1);
    forall r | r in a && r.sock != x ensures r in b {
      var j :| 0 <= j < |a| && a[j] == r;
      var q := i + 1 + j;
      assert rs[q] == r && q != k;
      if q < k {
        assert w[q] == r && b[j] == r;
      } else {
        assert w[q - 1] == r && b[j - 1] == r;
      }
    }
  }

  lemma EarlierRemovalSkips(rs: seq<Reader>, i: nat, x: int)
    requires Unique(rs) && IndexOf(rs, x) <= i && i + 1 < |rs|
    ensures rs[i + 1] in From(rs, i + 1) && rs[i + 1].sock != x
    ensures rs[i + 1] !in From(Without(rs, x), i + 1)
  {
  }

  /** Without further calls the rest of a pass serves the ready readers in array order. */
  lemma {:induction false} QuietRest(s: Loop, i: nat, ready: set<int>)
    ensures Served(PassEvents(s, i, ready, [])) == Filter(SockSeq(From(s.readers, i)), ready)
    decreases |s.readers| - i
  {
    if i >= |s.readers| {
    } else {
      var x := s.readers[i].sock;
      assert From(s.readers, i) == [s.readers[i]] + From(s.readers, i + 1);
      if x !in ready {
        QuietRest(s, i + 1, ready);
      } else {
        ServedUnrolls(s, i, ready, []);
        QuietRest(Dispatching(s, x), i + 1, ready);
      }
    }
  }

  lemma {:induction false} FilterMembers(rs: seq<Reader>, ready: set<int>)
    ensures forall x :: x in Filter(SockSeq(rs), ready) <==> x in Socks(rs) && x in ready
  {
    if rs == [] {
    } else {
      FilterMembers(rs[1..], ready);
      assert rs == [rs[0]] + rs[1..];
      assert Socks(rs) == {rs[0].sock} + Socks(rs[1..]);
    }
  }

  /** The pass from index i on, when the handler at i unregisters x and no other handler calls. */
  lemma PassAfterRemoval(s: Loop, i: nat, ready: set<int>, x: int)
    requires i < |s.readers| && s.readers[i].sock in ready
    ensures forall y :: y in Served(PassEvents(s, i, ready, [[UnregisterReadSock(x)]])) <==>
              y == s.readers[i].sock || (y in ready && y in Socks(From(Without(s.readers, x), i + 1)))
  {
    var scripts := [[UnregisterReadSock(x)]];
    var d := Dispatching(s, s.readers[i].sock);
    var h := OneCall(d, UnregisterReadSock(x));
    ServedUnrolls(s, i, ready, scripts);
    assert scripts[1..] == [];
    QuietRest(h, i + 1, ready);
    FilterMembers(From(h.readers, i + 1), ready);
    NotRegistered(s.readers, x);
  }

  lemma OneCall(s: Loop, op: Op) returns (h: Loop)
    ensures h == Step(s, op) == Steps(s, [op])
  {
    h := Step(s, op);
    assert [op][1..] == [];
  }

  lemma NotRegistered(rs: seq<Reader>, x: int)
    ensures x !in Socks(rs) ==> Without(rs, x) == rs
  {
    if IndexOf(rs, x) < |rs| {
      assert rs[IndexOf(rs, x)] in rs;
    }
  }

  /** Every ready reader behind i, but for the one unregistered, is served in this pass. */
  ghost predicate AllServed(s: Loop, i: nat, ready: set<int>, x: int) {
    forall r :: r in From(s.readers, i + 1) && r.sock in ready && r.sock != x ==>
      r.sock in Served(PassEvents(s, i, ready, [[UnregisterReadSock(x)]]))
  }

  /** While reader i is being served, unregistering one socket costs no ready reader its service in
      this pass exactly when that socket was not registered, stood behind i itself, nothing stands
      behind i, or the reader right behind i is not ready. */
  lemma RemovalCostsNobody(s: Loop, i: nat, ready: set<int>, x: int)
    requires Unique(s.readers) && i < |s.readers| && s.readers[i].sock in ready
    ensures AllServed(s, i, ready, x) <==>
            || x !in Socks(s.readers) || IndexOf(s.readers, x) > i
            || i + 1 == |s.readers| || s.readers[i + 1].sock !in ready
  {
    var rs, k := s.readers, IndexOf(s.readers, x);
    PassAfterRemoval(s, i, ready, x);
    NotRegistered(rs, x);
    if x !in Socks(rs) {
      assert AllServed(s, i, ready, x);
    } else if k > i {
      IndexBelow(rs, x);
      CutKeepsMembers(rs, k, i, x);
      assert AllServed(s, i, ready, x);
    } else if i + 1 < |rs| {
      IndexBelow(rs, x);
      ServedBehindGap(s, i, ready, x);
    }
  }

  lemma IndexBelow(rs: seq<Reader>, x: int)
    requires x in Socks(rs)
    ensures IndexOf(rs, x) < |rs|
  {
    var r :| r in rs && r.sock == x;
    var j :| 0 <= j < |rs| && rs[j] == r;
  }

  /** After a removal at or below i the scan goes on at the reader after the next one. */
  lemma GapBehind(rs: seq<Reader>, i: nat, x: int)
    requires IndexOf(rs, x) <= i && i + 1 < |rs|
    ensures From(Without(rs, x), i + 1) == rs[i + 2..]
  {
    CutBehind(rs, IndexOf(rs, x), i);
  }

  lemma CutBehind(rs: seq<Reader>, k: nat, i: nat)
    requires k <= i && i + 1 < |rs|
    ensures (rs[..k] + rs[k + 1..])[i + 1..] == rs[i + 2..]
  {
  }

  lemma BehindDiffers(rs: seq<Reader>, j: nat)
    requires Unique(rs) && j < |rs|
    ensures rs[j].sock !in Socks(rs[j + 1..])
  {
    var w := rs[j + 1..];
    forall r | r in w ensures r.sock != rs[j].sock {
      var m :| 0 <= m < |w| && w[m] == r;
      assert rs[j + 1 + m] == r;
    }
  }

  lemma ServedBehindGap(s: Loop, i: nat, ready: set<int>, x: int)
    requires Unique(s.readers) && s.readers != [] && IndexOf(s.readers, x) <= i && i + 1 < |s.readers|
    requires s.readers[i].sock in ready
    ensures AllServed(s, i, ready, x) <==> s.readers[i + 1].sock !in ready
  {
    var rs := s.readers;
    PassAfterRemoval(s, i, ready, x);
    GapBehind(rs, i, x);
    var next := rs[i + 1];
    assert From(rs, i + 1) == [next] + rs[i + 2..];
    BehindDiffers(rs, i + 1);
    assert next in From(rs, i + 1) && next.sock != x && next.sock != rs[i].sock;
  }

  /** A handler that unregisters its own socket: the reader behind it is ready and stays
      registered, but is not served in this pass. */
  lemma SelfRemovalSkipsSuccessor(s: Loop, i: nat, ready: set<int>)
    requires Unique(s.readers) && i + 1 < |s.readers|
    requires s.readers[i].sock in ready && s.readers[i + 1].sock in ready
    ensures var scripts := [[UnregisterReadSock(s.readers[i].sock)]];
            && s.readers[i + 1].sock !in Served(PassEvents(s, i, ready, scripts))
            && s.readers[i + 1] in Without(s.readers, s.readers[i].sock)
  {
    var rs, x := s.readers, s.readers[i].sock;
    IndexBelow(rs, x) by {
      assert rs[i] in rs;
    }
    assert IndexOf(rs, x) == i;
    PassAfterRemoval(s, i, ready, x);
    GapBehind(rs, i, x);
    BehindDiffers(rs, i + 1);
    assert Without(rs, x)[i] == rs[i + 1];
  }

  /** A socket registered by the handler at i is served in the same pass exactly when its number is
      in the ready set, which select filled before the socket was registered: a reopened number of a
      ready socket is taken for ready. */
  lemma NewReaderServed(s: Loop, i: nat, ready: set<int>, r: Reader)
    requires i < |s.readers| && s.readers[i].sock in ready && r.sock !in Socks(s.readers)
    ensures r.sock in Served(PassEvents(s, i, ready, [[RegisterReadSock(r)]])) <==> r.sock in ready
  {
    var scripts := [[RegisterReadSock(r)]];
    var d := Dispatching(s, s.readers[i].sock);
    var h := OneCall(d, RegisterReadSock(r));
    ServedUnrolls(s, i, ready, scripts);
    assert scripts[1..] == [];
    QuietRest(h, i + 1, ready);
    FilterMembers(From(h.readers, i + 1), ready);
    assert s.readers[i] in s.readers;
    var w := From(h.readers, i + 1);
    assert w[|w| - 1] == r;
  }
}
