/** eloop.c in its own form: a linked timer list, a reader array compacted in place and the main
    loop, each method tied to the state machine of module EventLoop. */
module EventLoopObject {
  import opened TimerQueue
  import opened EventTrace
  import opened EventLoop
  import opened TimerList

  /** The reader array and the largest socket ever registered. */
  class ReaderArray {
    var buf: array<Reader>
    var count: nat
    var maxSock: int

    ghost predicate Valid()
      reads this
    {
      count <= buf.Length
    }

    ghost function Contents(): seq<Reader>
      reads this, buf
      requires Valid()
    {
      buf[..count]
    }

    constructor ()
      ensures Valid() && fresh(buf) && Contents() == [] && maxSock == 0
    {
      buf, count, maxSock := new Reader[0](_ => Reader(0, 0, 0, 0)), 0, 0;
    }

    /** eloop_register_read_sock: realloc to one more element. */
    method Register(r: Reader)
      requires Valid()
      modifies this
      ensures Valid() && fresh(buf)
      ensures Contents() == old(Contents()) + [r] && maxSock == Max(r.sock, old(maxSock))
    {
      var old_buf, n := buf, count;
      var tmp := new Reader[n + 1](i requires 0 <= i < n + 1 && n <= old_buf.Length reads old_buf =>
        if i < n then old_buf[i] else r);
      buf, count := tmp, n + 1;
      if r.sock > maxSock {
        maxSock := r.sock;
      }
    }

    /** The search of eloop_unregister_read_sock. */
    method FirstMatch(sock: int) returns (i: nat)
      requires Valid()
      ensures i == IndexOf(Contents(), sock)
    {
      i := 0;
      while i < count
        invariant i <= count
        invariant forall k :: 0 <= k < i ==> buf[k].sock != sock
      {
        if buf[i].sock == sock {
          break;
        }
        i := i + 1;
      }
      IndexIs(Contents(), sock, i);
    }

    /** eloop_unregister_read_sock. */
    method Unregister(sock: int)
      requires Valid()
      modifies this`count, buf
      ensures Valid() && Contents() == Without(old(Contents()), sock)
    {
      var i := FirstMatch(sock);
      if i < count {
        CloseGap(i);
      }
    }

    /** The compaction: every later reader moves down by one. */
    method CloseGap(i: nat)
      requires Valid() && i < count
      modifies this`count, buf
      ensures Valid() && Contents() == old(Contents())[..i] + old(Contents())[i + 1..]
    {
      ghost var was := Contents();
      var j := i;
      while j < count - 1
        invariant Valid() && count == |was| && i <= j <= count - 1
        invariant buf[..j] == was[..i] + was[i + 1..j + 1]
        invariant forall k :: j < k < count ==> buf[k] == was[k]
      {
        buf[j] := buf[j + 1];
        j := j + 1;
      }
      count := count - 1;
    }
  }

  /** The first match is IndexOf. */
  lemma {:induction false} IndexIs(rs: seq<Reader>, sock: int, i: nat)
    requires i <= |rs| && (i < |rs| ==> rs[i].sock == sock)
    requires forall k :: 0 <= k < i ==> rs[k].sock != sock
    ensures IndexOf(rs, sock) == i
  {
    if i > 0 {
      IndexIs(rs[1..], sock, i - 1);
    }
  }

  lemma SockIsIndexed(rs: seq<Reader>, sock: int)
    ensures sock in Socks(rs) <==> IndexOf(rs, sock) < |rs|
  {
    if IndexOf(rs, sock) < |rs| {
      assert rs[IndexOf(rs, sock)] in rs;
    }
  }

  /** The global `eloop`.  `clock`, `nextId` and `log` are the bookkeeping of the state machine. */
  class Eloop {
    const timers: List
    const readers: ReaderArray
    var terminate: bool
    ghost var clock: int
    var nextId: nat
    ghost var log: Log

    ghost predicate Valid()
      reads this, timers, timers.nodes, readers
    {
      timers.Valid() && readers.Valid()
    }

    ghost function Repr(): set<object>
      reads this, timers, readers
    {
      {this, timers, readers, readers.buf} + (set n | n in timers.nodes)
    }

    ghost function State(): Loop
      reads this, timers, readers, readers.buf
      requires readers.Valid()
    {
      Loop(timers.Contents(), readers.Contents(), readers.maxSock, terminate, clock, nextId, log)
    }

    /** eloop_init. */
    constructor (ghost clock: int)
      ensures Valid() && fresh(Repr()) && State() == Init(clock) && timers.Detached() == {}
    {
      timers := new List();
      readers := new ReaderArray();
      terminate := false;
      this.clock, nextId, log := clock, 0, [];
    }

    method RegisterTimeout(now: Time, secs: nat, usecs: nat, handler: int, ctx: int, user: int)
      requires Valid()
      modifies Repr()
      ensures Valid() && fresh(Repr() - old(Repr()))
      ensures State() == Step(old(State()), EventLoop.RegisterTimeout(now, secs, usecs, handler, ctx, user))
      ensures timers.Detached() == old(timers.Detached())
    {
      var time := AddDelay(now, secs, usecs);
      var t := Timer(nextId, time, handler, ctx, user);
      timers.Register(t);
      nextId := nextId + 1;
      clock, log := Micros(now), log + [Registered(t, Asked(now, secs, usecs, handler, ctx, user))];
    }

    /** Returns the number of cancelled timers. */
    method CancelTimeout(handler: int, ctx: int, user: int) returns (removed: nat)
      requires Valid()
      modifies Repr()
      ensures Valid() && fresh(Repr() - old(Repr()))
      ensures State() == Step(old(State()), EventLoop.CancelTimeout(handler, ctx, user))
      ensures removed == |Drop(old(State()).timers, handler, ctx, user)|
      ensures timers.Detached() == old(timers.Detached())
    {
      log := log + Cancellations(Drop(timers.Contents(), handler, ctx, user));
      removed := timers.Cancel(handler, ctx, user);
    }

    method RegisterReadSock(r: Reader)
      requires Valid()
      modifies Repr()
      ensures Valid() && fresh(Repr() - old(Repr()))
      ensures State() == Step(old(State()), EventLoop.RegisterReadSock(r))
      ensures timers.Detached() == old(timers.Detached())
    {
      readers.Register(r);
      log := log + [Added(r.sock)];
    }

    method UnregisterReadSock(sock: int)
      requires Valid()
      modifies Repr()
      ensures Valid() && fresh(Repr() - old(Repr()))
      ensures State() == Step(old(State()), EventLoop.UnregisterReadSock(sock))
      ensures timers.Detached() == old(timers.Detached())
    {
      SockIsIndexed(readers.Contents(), sock);
      log := if sock in Socks(readers.Contents()) then log + [Removed(sock)] else log;
      readers.Unregister(sock);
    }

    /** The calls of one handler, in order. */
    method Call(ops: seq<Op>)
      requires Valid()
      modifies Repr()
      ensures Valid() && fresh(Repr() - old(Repr()))
      ensures State() == Steps(old(State()), ops)
      ensures timers.Detached() == old(timers.Detached())
    {
      var i := 0;
      while i < |ops|
        invariant i <= |ops|
        invariant Valid() && fresh(Repr() - old(Repr()))
        invariant Steps(State(), ops[i..]) == Steps(old(State()), ops)
        invariant timers.Detached() == old(timers.Detached())
      {
        assert ops[i..][0] == ops[i] && ops[i..][1..] == ops[i + 1..];
        match ops[i] {
          case RegisterTimeout(now, secs, usecs, h, c, u) => RegisterTimeout(now, secs, usecs, h, c, u);
          case CancelTimeout(h, c, u) => var _ := CancelTimeout(h, c, u);
          case RegisterReadSock(r) => RegisterReadSock(r);
          case UnregisterReadSock(sock) => UnregisterReadSock(sock);
          case Terminate => terminate := true;
        }
        i := i + 1;
      }
    }

    /** The timer check of eloop_run: unlink, call the handler, free. */
    method CheckTimers(now: Time, ops: seq<Op>)
      requires Valid() && timers.Detached() == {}
      modifies Repr()
      ensures Valid() && fresh(Repr() - old(Repr()))
      ensures State() == TimerPhase(old(State()), now, ops)
      ensures timers.Detached() == {}
    {
      if timers.head != null {
        clock := Micros(now);
        if !Before(now, timers.head.timer.time) {
          log := log + [Fired(timers.head.timer, now)];
          var tmp := timers.UnlinkHead();
          Call(ops);
          timers.Free(tmp);
        }
      }
    }

    /** The reader scan of eloop_run. */
    method DispatchReady(ready: set<int>, scripts: seq<seq<Op>>)
      requires Valid()
      modifies Repr()
      ensures Valid() && fresh(Repr() - old(Repr()))
      ensures State() == Dispatch(old(State()), 0, ready, scripts)
      ensures timers.Detached() == old(timers.Detached())
    {
      var i, rest := 0, scripts;
      while i < readers.count
        invariant Valid() && fresh(Repr() - old(Repr()))
        invariant Dispatch(State(), i, ready, rest) == Dispatch(old(State()), 0, ready, scripts)
        invariant timers.Detached() == old(timers.Detached())
        decreases |rest|, readers.count - i
      {
        var sock := readers.buf[i].sock;
        if sock in ready {
          log := log + [EventTrace.Dispatched(sock)];
          if rest != [] {
            var ops := rest[0];
            rest := rest[1..];
            Call(ops);
          }
        }
        i := i + 1;
      }
    }

    /** One turn: signal callbacks, the timer check, the reader scan. */
    method OneIteration(it: Iteration)
      requires Valid() && timers.Detached() == {}
      modifies Repr()
      ensures Valid() && fresh(Repr() - old(Repr()))
      ensures State() == Iterate(old(State()), it)
      ensures timers.Detached() == {}
    {
      Call(it.signalOps);
      CheckTimers(it.now, it.timerOps);
      DispatchReady(it.ready, it.readerOps);
    }

    /** eloop_run: one element of `its` is what one iteration meets. */
    method Run(its: seq<Iteration>)
      requires Valid() && timers.Detached() == {}
      modifies Repr()
      ensures Valid() && fresh(Repr() - old(Repr()))
      ensures State() == EventLoop.Run(old(State()), its)
      ensures timers.Detached() == {}
    {
      var n := 0;
      while n < |its| && !terminate && (timers.head != null || readers.count > 0)
        invariant n <= |its|
        invariant Valid() && fresh(Repr() - old(Repr()))
        invariant EventLoop.Run(State(), its[n..]) == EventLoop.Run(old(State()), its)
        invariant timers.Detached() == {}
        decreases |its| - n
      {
        var it := its[n];
        assert its[n..][0] == it && its[n..][1..] == its[n + 1..];
        assert Continues(State());
        OneIteration(it);
        n := n + 1;
      }
    }

    /** eloop_destroy: no timer block survives. */
    method DestroyLoop()
      requires Valid() && timers.Detached() == {}
      modifies Repr()
      ensures timers.live == {} && timers.nodes == []
      ensures log == Destroy(old(State())).log
    {
      log := log + Destructions(timers.Contents());
      timers.Destroy();
    }
  }
}
