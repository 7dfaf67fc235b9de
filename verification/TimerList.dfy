/** The linked timer list of eloop.c, relinked in place, with explicit malloc and free. */
module TimerList {
  import opened TimerQueue

  /** struct eloop_timeout: everything but the link is fixed before the node is linked in. */
  class TimerNode {
    const timer: Timer
    var next: TimerNode?

    constructor (t: Timer)
      ensures timer == t && next == null
    {
      timer := t;
      next := null;
    }
  }

  ghost function At(ns: seq<TimerNode>, i: nat): TimerNode? {
    if i < |ns| then ns[i] else null
  }

  ghost predicate Chain(h: TimerNode?, ns: seq<TimerNode>)
    reads ns
  {
    && h == At(ns, 0)
    && (forall i {:trigger ns[i].next} :: 0 <= i < |ns| ==> ns[i].next == At(ns, i + 1))
    && (forall i, j :: 0 <= i < j < |ns| ==> ns[i] != ns[j])
  }

  ghost function Timers(ns: seq<TimerNode>): (ts: seq<Timer>)
    ensures |ts| == |ns|
  {
    seq(|ns|, i requires 0 <= i < |ns| => ns[i].timer)
  }

  lemma TimersAround(a: seq<TimerNode>, n: TimerNode, b: seq<TimerNode>)
    ensures Timers(a + [n] + b) == Timers(a) + [n.timer] + Timers(b)
  {
  }

  lemma CancelStep(c: seq<Timer>, k: nat, handler: int, ctx: int, user: int)
    requires k < |c|
    ensures if Matches(c[k], handler, ctx, user) then
              && Keep(c[k..], handler, ctx, user) == Keep(c[k + 1..], handler, ctx, user)
              && |Drop(c[k..], handler, ctx, user)| == 1 + |Drop(c[k + 1..], handler, ctx, user)|
            else
              && c[..k] + Keep(c[k..], handler, ctx, user) == c[..k + 1] + Keep(c[k + 1..], handler, ctx, user)
              && |Drop(c[k..], handler, ctx, user)| == |Drop(c[k + 1..], handler, ctx, user)|
  {
    assert c[k..] == [c[k]] + c[k + 1..];
    assert c[..k + 1] == c[..k] + [c[k]];
  }

  class List {
    var head: TimerNode?
    ghost var nodes: seq<TimerNode>
    ghost var live: set<TimerNode>  // allocated and not yet freed

    ghost predicate Valid()
      reads this, nodes
    {
      Chain(head, nodes) && (forall n :: n in nodes ==> n in live)
    }

    /** Blocks that are allocated but not linked: a node whose handler is running. */
    ghost function Detached(): set<TimerNode>
      reads this
    {
      set n | n in live && n !in nodes
    }

    ghost function Contents(): seq<Timer>
      reads this
    {
      Timers(nodes)
    }

    constructor ()
      ensures Valid() && nodes == [] && Detached() == {}
    {
      head, nodes, live := null, [], {};
    }

    /** Links a node in behind `prev`, or at the head. */
    method LinkAfter(prev: TimerNode?, node: TimerNode, ghost k: nat)
      requires Valid() && k <= |nodes| && node !in nodes && node in live
      requires prev == if k == 0 then null else nodes[k - 1]
      modifies this, nodes, node
      ensures Valid() && live == old(live)
      ensures nodes == old(nodes[..k]) + [node] + old(nodes[k..])
    {
      if prev == null {
        node.next := head;
        head := node;
      } else {
        node.next := prev.next;
        prev.next := node;
      }
      ghost var was := nodes;
      nodes := was[..k] + [node] + was[k..];
      forall i | 0 <= i < |nodes| ensures nodes[i].next == At(nodes, i + 1) {
        if i < k {
          assert nodes[i] == was[i] && (i < k - 1 ==> was[i].next == was[i + 1] == nodes[i + 1]);
        } else if i > k {
          assert nodes[i] == was[i - 1] && was[i - 1].next == At(was, i);
        }
      }
    }

    /** Takes the node behind `prev`, or the head, out of the list. */
    method UnlinkAfter(prev: TimerNode?, next: TimerNode?, ghost k: nat)
      requires Valid() && k < |nodes| && next == nodes[k].next
      requires prev == if k == 0 then null else nodes[k - 1]
      modifies this, if prev == null then {} else {prev}
      ensures Valid() && live == old(live)
      ensures nodes == old(nodes[..k]) + old(nodes[k + 1..])
    {
      if prev == null {
        head := next;
      } else {
        prev.next := next;
      }
      ghost var was := nodes;
      nodes := was[..k] + was[k + 1..];
      forall i | 0 <= i < |nodes| ensures nodes[i].next == At(nodes, i + 1) {
        assert nodes[i] == if i < k then was[i] else was[i + 1];
        assert i < k - 1 ==> was[i].next == was[i + 1];
        assert i >= k ==> was[i + 1].next == At(was, i + 2);
      }
    }

    /** The list walk of eloop_register_timeout: the last node that is not later. */
    method FindPlace(t: Timer) returns (prev: TimerNode?, ghost k: nat)
      requires Valid()
      ensures k <= |nodes| && prev == if k == 0 then null else nodes[k - 1]
      ensures forall i :: 0 <= i < k ==> !Before(t.time, nodes[i].timer.time)
      ensures k < |nodes| ==> Before(t.time, nodes[k].timer.time)
    {
      k := 0;
      var tmp := head;
      prev := null;
      while tmp != null
        invariant 0 <= k <= |nodes|
        invariant tmp == At(nodes, k)
        invariant prev == if k == 0 then null else nodes[k - 1]
        invariant forall i :: 0 <= i < k ==> !Before(t.time, nodes[i].timer.time)
        decreases |nodes| - k
      {
        if Before(t.time, tmp.timer.time) {
          break;
        }
        prev, tmp := tmp, tmp.next;
        k := k + 1;
      }
    }

    /** The linking part of eloop_register_timeout. */
    method Register(t: Timer)
      requires Valid()
      modifies this, nodes
      ensures Valid() && fresh(set n | n in nodes && n !in old(nodes))
      ensures Contents() == Insert(old(Contents()), t)
      ensures Detached() == old(Detached())
    {
      var node := new TimerNode(t);
      live := live + {node};
      var prev, k := FindPlace(t);
      InsertSplit(Contents(), t, k);
      ghost var a, b := nodes[..k], nodes[k..];
      TimersAround(a, node, b);
      assert Timers(a) == Contents()[..k] && Timers(b) == Contents()[k..];
      LinkAfter(prev, node, k);
      assert Detached() == old(Detached()) by {
        assert nodes == a + [node] + b && old(nodes) == a + b;
      }
    }

    /** eloop_cancel_timeout. */
    method Cancel(handler: int, ctx: int, user: int) returns (removed: nat)
      requires Valid()
      modifies this, nodes
      ensures Valid() && (forall n :: n in nodes ==> n in old(nodes))
      ensures Contents() == Keep(old(Contents()), handler, ctx, user)
      ensures removed == |Drop(old(Contents()), handler, ctx, user)|
      ensures Detached() == old(Detached())
    {
      removed := 0;
      var prev: TimerNode?, timeout := null, head;
      ghost var k := 0;
      while timeout != null
        invariant Valid() && k <= |nodes| && (forall n :: n in nodes ==> n in old(nodes))
        invariant timeout == At(nodes, k)
        invariant prev == if k == 0 then null else nodes[k - 1]
        invariant Contents()[..k] + Keep(Contents()[k..], handler, ctx, user) == Keep(old(Contents()), handler, ctx, user)
        invariant removed + |Drop(Contents()[k..], handler, ctx, user)| == |Drop(old(Contents()), handler, ctx, user)|
        invariant Detached() == old(Detached())
        decreases |nodes| - k
      {
        var next := timeout.next;
        assert timeout == nodes[k] && next == nodes[k].next;
        CancelStep(Contents(), k, handler, ctx, user);
        if Matches(timeout.timer, handler, ctx, user) {
          assert prev != null ==> nodes[k - 1] in nodes;
          RemoveAndFree(prev, timeout, next, k);
          removed := removed + 1;
        } else {
          prev := timeout;
          k := k + 1;
        }
        timeout := next;
      }
    }

    /** The matching branch of eloop_cancel_timeout. */
    method RemoveAndFree(prev: TimerNode?, timeout: TimerNode, next: TimerNode?, ghost k: nat)
      requires Valid() && k < |nodes| && timeout == nodes[k] && next == nodes[k].next
      requires prev == if k == 0 then null else nodes[k - 1]
      modifies this, if prev == null then {} else {prev}
      ensures Valid() && nodes == old(nodes[..k]) + old(nodes[k + 1..])
      ensures Contents() == old(Contents()[..k]) + old(Contents()[k + 1..])
      ensures next == At(nodes, k) && Detached() == old(Detached())
    {
      assert nodes == nodes[..k] + [timeout] + nodes[k + 1..];
      UnlinkAfter(prev, next, k);
      live := live - {timeout};
    }

    /** eloop_run takes the head out of the list before it calls the handler. */
    method UnlinkHead() returns (n: TimerNode)
      requires Valid() && head != null
      modifies this
      ensures Valid() && nodes == old(nodes)[1..]
      ensures n == old(nodes)[0]
      ensures Contents() == old(Contents())[1..]
      ensures n !in old(Detached()) && Detached() == old(Detached()) + {n}
    {
      n := head;
      assert n == nodes[0] && n.next == nodes[0].next;
      assert nodes == [n] + nodes[1..];
      head := head.next;
      nodes := nodes[1..];
    }

    /** free after the handler returned: the node must still be allocated. */
    ghost method Free(n: TimerNode)
      requires Valid() && n in Detached()
      modifies this`live
      ensures Valid() && Detached() == old(Detached()) - {n}
    {
      live := live - {n};
    }

    /** The timer part of eloop_destroy; the head pointer is left dangling. */
    method Destroy()
      requires Valid()
      modifies this
      ensures live == old(Detached()) && nodes == []
    {
      var timeout := head;
      ghost var k := 0;
      while timeout != null
        invariant 0 <= k <= |nodes| && nodes == old(nodes) && Chain(head, nodes)
        invariant timeout == At(nodes, k)
        invariant forall i :: k <= i < |nodes| ==> nodes[i] in live
        invariant live == set n | n in old(live) && n !in nodes[..k]
        decreases |nodes| - k
      {
        var prev := timeout;
        assert prev == nodes[k];
        timeout := timeout.next;
        assert timeout == nodes[k].next;
        assert nodes[..k + 1] == nodes[..k] + [prev];
        live := live - {prev};
        k := k + 1;
      }
      assert nodes[..k] == nodes;
      nodes := [];
    }
  }
}
