/** indigo_packet.c in its own form: a wrapper with 128 slots for heap-allocated TLVs, filled,
    printed and freed in place. */
module PacketWrapper {
  import opened Basics
  import opened Codec

  /** The C heap: blocks are numbered, `live` are those allocated and not yet freed. */
  class Heap {
    ghost var live: set<nat>
    var next: nat
    const zeroIsNull: bool  // whether malloc(0) returns NULL; the C library decides

    ghost predicate Valid()
      reads this
    {
      forall b :: b in live ==> b < next
    }

    constructor (zeroIsNull: bool)
      ensures Valid() && live == {} && this.zeroIsNull == zeroIsNull
    {
      live, next := {}, 0;
      this.zeroIsNull := zeroIsNull;
    }

    method Malloc() returns (b: nat)
      requires Valid()
      modifies this
      ensures Valid() && b == old(next) && next == b + 1 && live == old(live) + {b}
    {
      b := next;
      live := live + {b};
      next := next + 1;
    }

    /** Freeing demands a live block, so nothing is freed twice. */
    method Free(b: nat)
      requires Valid() && b in live
      modifies this`live
      ensures Valid() && live == old(live) - {b}
    {
      live := live - {b};
    }
  }

  /** An allocated tlv_hdr: its block, the block of its value (if not NULL), its contents. */
  datatype Slot = Slot(block: nat, value: Option<nat>, tlv: Tlv)

  type Slots = seq<Option<Slot>>

  // ---------- the blocks a wrapper holds ----------

  function SlotBlocks(s: Option<Slot>): set<nat> {
    match s
    case None => {}
    case Some(x) => {x.block} + (if x.value.Some? then {x.value.value} else {})
  }

  function Blocks(ss: Slots): set<nat> {
    if ss == [] then {} else SlotBlocks(ss[0]) + Blocks(ss[1..])
  }

  /** No block is held twice. */
  predicate Separate(ss: Slots) {
    ss == [] ||
    (&& (ss[0].Some? ==> ss[0].value.value != Some(ss[0].value.block))
     && SlotBlocks(ss[0]) !! Blocks(ss[1..])
     && Separate(ss[1..]))
  }

  lemma {:induction false} BlocksConcat(a: Slots, b: Slots)
    ensures Blocks(a + b) == Blocks(a) + Blocks(b)
    ensures Separate(a + b) <==> Separate(a) && Separate(b) && Blocks(a) !! Blocks(b)
  {
    if a == [] {
      assert a + b == b;
    } else {
      assert (a + b)[1..] == a[1..] + b;
      BlocksConcat(a[1..], b);
    }
  }

  lemma BlocksAround(a: Slots, s: Option<Slot>, b: Slots)
    ensures Blocks(a + ([s] + b)) == Blocks(a) + SlotBlocks(s) + Blocks(b)
    ensures Separate(a + ([s] + b)) <==>
              && Separate(a) && Separate(b) && (s.Some? ==> s.value.value != Some(s.value.block))
              && SlotBlocks(s) !! Blocks(b) && Blocks(a) !! SlotBlocks(s) + Blocks(b)
  {
    BlocksConcat(a, [s] + b);
    assert ([s] + b)[1..] == b;
  }

  lemma SlotAround(ss: Slots, i: nat, s: Option<Slot>)
    requires i < |ss|
    ensures ss == ss[..i] + ([ss[i]] + ss[i + 1..]) && ss[i := s] == ss[..i] + ([s] + ss[i + 1..])
  {
  }

  /** Replacing one slot exchanges its blocks. */
  lemma BlocksUpdate(ss: Slots, i: nat, s: Option<Slot>)
    requires i < |ss| && Separate(ss)
    requires SlotBlocks(s) !! Blocks(ss) - SlotBlocks(ss[i])
    requires s.Some? ==> s.value.value != Some(s.value.block)
    ensures Separate(ss[i := s])
    ensures SlotBlocks(ss[i]) <= Blocks(ss)
    ensures Blocks(ss[i := s]) == Blocks(ss) - SlotBlocks(ss[i]) + SlotBlocks(s)
  {
    var a, b := ss[..i], ss[i + 1..];
    SlotAround(ss, i, s);
    BlocksAround(a, ss[i], b);
    BlocksAround(a, s, b);
    Exchange(Blocks(a), SlotBlocks(ss[i]), SlotBlocks(s), Blocks(b));
  }

  lemma Exchange(a: set<nat>, x: set<nat>, y: set<nat>, b: set<nat>)
    requires a !! x + b && x !! b && y !! a + x + b - x
    ensures a + y + b == a + x + b - x + y && y !! b && a !! y + b
  {
  }

  lemma {:induction false} BlocksNone(ss: Slots)
    requires forall i :: 0 <= i < |ss| ==> ss[i] == None
    ensures Blocks(ss) == {} && Separate(ss)
  {
    if ss != [] {
      BlocksNone(ss[1..]);
    }
  }

  /** The slots hold everything that was allocated since `before`. */
  predicate Since(ss: Slots, before: set<nat>, live: set<nat>) {
    Separate(ss) && Blocks(ss) !! before && live == before + Blocks(ss)
  }

  /** What stands at a parser position in front of at least three bytes. */
  lemma FirstTlv(packet: seq<byte>, parser: nat)
    requires parser + 3 <= |packet| && InBounds(packet[parser..])
    ensures var n: nat := packet[parser + 2];
            && parser + 3 + n <= |packet|
            && InBounds(packet[parser + 3 + n..])
            && Tlvs(packet[parser..]) ==
               [Tlv(DecodeU16(packet[parser], packet[parser + 1]), packet[parser + 3..parser + 3 + n])]
               + Tlvs(packet[parser + 3 + n..])
            && Slotted(packet[parser..]) == 1 + Slotted(packet[parser + 3 + n..])
  {
    var b := packet[parser..];
    var n: nat := packet[parser + 2];
    assert b[0] == packet[parser] && b[1] == packet[parser + 1] && b[2] == n;
    assert b[3..3 + n] == packet[parser + 3..parser + 3 + n] by {
      SubSlice(packet, parser, |packet|, 3, 3 + n);
    }
    assert b[3 + n..] == packet[parser + 3 + n..] by {
      SubSlice(packet, parser, |packet|, 3 + n, |b|);
    }
  }

  lemma SubSlice(s: seq<byte>, p: nat, q: nat, i: nat, j: nat)
    requires p <= q <= |s| && i <= j <= q - p
    ensures s[p..q][i..j] == s[p + i..p + j]
  {
    var a, b := s[p..q][i..j], s[p + i..p + j];
    assert |a| == |b|;
    forall k | 0 <= k < |a| ensures a[k] == b[k] {
      assert a[k] == s[p..q][i + k] == s[p + i + k];
    }
  }

  /** The first n slots hold the given TLVs. */
  predicate Holds(ss: Slots, ts: seq<Tlv>) {
    |ts| <= |ss| && forall i :: 0 <= i < |ts| ==> ss[i].Some? && ss[i].value.tlv == ts[i]
  }

  /** The parser has got to `parser` and has found `done`; the slots suffice for the rest. */
  predicate Reached(packet: seq<byte>, parser: nat, done: seq<Tlv>) {
    && HDR_LEN <= parser <= |packet|
    && InBounds(packet[HDR_LEN..]) && InBounds(packet[parser..])
    && |done| + Slotted(packet[parser..]) <= TLV_NUM
    && Tlvs(packet[HDR_LEN..]) == done + Tlvs(packet[parser..])
  }

  /** One TLV stands between two parser positions. */
  predicate FirstIs(packet: seq<byte>, parser: nat, next: nat, t: Tlv) {
    && parser <= next <= |packet| && InBounds(packet[parser..]) && InBounds(packet[next..])
    && Tlvs(packet[parser..]) == [t] + Tlvs(packet[next..])
    && Slotted(packet[parser..]) == 1 + Slotted(packet[next..])
  }

  lemma ReachedStart(packet: seq<byte>)
    requires HDR_LEN <= |packet| && InBounds(packet[HDR_LEN..]) && Slotted(packet[HDR_LEN..]) <= TLV_NUM
    ensures Reached(packet, HDR_LEN, [])
  {
  }

  lemma ReachedEnd(packet: seq<byte>, parser: nat, done: seq<Tlv>)
    requires Reached(packet, parser, done) && |packet| - parser < 3
    ensures Tlvs(packet[HDR_LEN..]) == done
  {
  }

  lemma ReachedNext(packet: seq<byte>, parser: nat, done: seq<Tlv>, next: nat, t: Tlv)
    requires Reached(packet, parser, done) && FirstIs(packet, parser, next, t)
    ensures Reached(packet, next, done + [t])
  {
    assert done + ([t] + Tlvs(packet[next..])) == (done + [t]) + Tlvs(packet[next..]);
  }

  lemma HoldsKept(a: Slots, b: Slots, ts: seq<Tlv>)
    requires Holds(a, ts) && |a| == |b| && forall i :: 0 <= i < |a| && i != |ts| ==> a[i] == b[i]
    ensures Holds(b, ts)
  {
  }

  lemma HoldsMore(ss: Slots, ts: seq<Tlv>, t: Tlv)
    requires Holds(ss, ts) && |ts| < |ss| && ss[|ts|].Some? && ss[|ts|].value.tlv == t
    ensures Holds(ss, ts + [t])
  {
  }

  // ---------- the wrapper ----------

  class Wrapper {
    var hdr: Header
    const tlv: array<Option<Slot>>
    var tlvNum: nat

    ghost predicate Valid()
      reads this, tlv
    {
      tlv.Length == TLV_NUM && tlvNum <= TLV_NUM
    }

    /** The wrapper after memset. */
    ghost predicate Zeroed()
      reads this, tlv
    {
      Valid() && hdr == ZERO_HEADER && tlvNum == 0 && forall i :: 0 <= i < TLV_NUM ==> tlv[i] == None
    }

    ghost predicate Owns(heap: Heap)
      reads this, tlv, heap
    {
      Separate(tlv[..]) && Blocks(tlv[..]) <= heap.live
    }

    ghost predicate Carries(m: Message)
      reads this, tlv
    {
      Valid() && hdr == m.hdr && tlvNum == |m.tlvs| && Holds(tlv[..], m.tlvs)
    }

    /** Behind the counted slots there is at most one block: the empty TLV of id 0 at which
        parsing stopped. */
    ghost predicate Leftover()
      reads this, tlv
    {
      Valid() && forall k :: tlvNum <= k < TLV_NUM && tlv[k].Some? ==> k == tlvNum && tlv[k].value.tlv == Tlv(0, [])
    }

    constructor ()
      ensures Zeroed() && fresh(tlv)
    {
      hdr, tlvNum := ZERO_HEADER, 0;
      tlv := new Option<Slot>[TLV_NUM](_ => None);
    }

    /** Stores a freshly allocated TLV header, and its value block, in a slot. */
    method Allocate(heap: Heap, i: nat, t: Tlv, withValue: bool)
      requires Valid() && heap.Valid() && i < TLV_NUM && Owns(heap)
      modifies tlv, heap
      ensures Valid() && heap.Valid() && Owns(heap)
      ensures tlv[i].Some? && tlv[i].value.tlv == t
      ensures forall k :: 0 <= k < TLV_NUM && k != i ==> tlv[k] == old(tlv[k])
      ensures heap.live == old(heap.live) + SlotBlocks(tlv[i]) && SlotBlocks(tlv[i]) !! old(heap.live)
      ensures Blocks(tlv[..]) == Blocks(old(tlv[..])) - SlotBlocks(old(tlv[i])) + SlotBlocks(tlv[i])
    {
      var block := heap.Malloc();
      var value := None;
      if withValue && !(heap.zeroIsNull && |t.value| == 0) {
        var v := heap.Malloc();
        value := Some(v);
      }
      ghost var was := tlv[..];
      BlocksUpdate(was, i, Some(Slot(block, value, t)));
      tlv[i] := Some(Slot(block, value, t));
      assert tlv[..] == was[i := tlv[i]];
    }

    /** The next free slot is filled and counted among what was allocated since `before`. */
    method AllocateNext(heap: Heap, t: Tlv, withValue: bool, ghost before: set<nat>)
      requires Valid() && heap.Valid() && tlvNum < TLV_NUM && tlv[tlvNum] == None
      requires Since(tlv[..], before, heap.live)
      modifies tlv, heap
      ensures Valid() && heap.Valid() && Since(tlv[..], before, heap.live)
      ensures tlv[tlvNum].Some? && tlv[tlvNum].value.tlv == t
      ensures forall k :: 0 <= k < TLV_NUM && k != tlvNum ==> tlv[k] == old(tlv[k])
    {
      Allocate(heap, tlvNum, t, withValue);
    }

    /** free_packet_wrapper: scans all 128 slots, counted or not. */
    method Free(heap: Heap)
      requires Valid() && heap.Valid() && Owns(heap)
      modifies this, tlv, heap`live
      ensures Zeroed() && heap.Valid()
      ensures heap.live == old(heap.live) - Blocks(old(tlv[..]))
    {
      var i := 0;
      while i < TLV_NUM
        invariant 0 <= i <= TLV_NUM && Valid() && heap.Valid()
        invariant tlv[..] == old(tlv[..]) && Separate(tlv[i..]) && Blocks(tlv[i..]) <= heap.live
        invariant heap.live - Blocks(tlv[i..]) == old(heap.live) - Blocks(old(tlv[..]))
      {
        assert tlv[i..][1..] == tlv[i + 1..] && tlv[i..][0] == tlv[i];
        if tlv[i].Some? {
          if tlv[i].value.value.Some? {
            heap.Free(tlv[i].value.value.value);
          }
          heap.Free(tlv[i].value.block);
        }
        i := i + 1;
      }
      assert tlv[TLV_NUM..] == [];
      hdr, tlvNum := ZERO_HEADER, 0;
      forall k | 0 <= k < TLV_NUM {
        tlv[k] := None;
      }
    }

    /** parse_packet. */
    method Parse(heap: Heap, tables: Tables, packet: seq<byte>) returns (ret: int)
      requires Zeroed() && heap.Valid()
      requires |packet| >= HDR_LEN ==> InBounds(packet[HDR_LEN..]) && Slotted(packet[HDR_LEN..]) <= TLV_NUM
      modifies this, tlv, heap
      ensures Valid() && heap.Valid()
      ensures ret == Codec.Parse(tables, packet).ret
      ensures Carries(Codec.Parse(tables, packet).msg) && Leftover()
      ensures Since(tlv[..], old(heap.live), heap.live)
    {
      BlocksNone(tlv[..]);
      if |packet| < HDR_LEN {
        return -1;
      }
      hdr := Header(packet[0], DecodeU16(packet[1], packet[2]), DecodeU16(packet[3], packet[4]), packet[5], packet[6]);
      ParseTlvs(heap, packet);
      ret := CheckIds(tables, Codec.Parse(tables, packet).msg);
    }

    /** The lookups at the end of parse_packet. */
    method CheckIds(tables: Tables, ghost msg: Message) returns (ret: int)
      requires Carries(msg)
      ensures ret == if Known(tables, msg) then 0 else -1
      ensures ret == 0 <==> msg.hdr.typ in tables.apis && forall t :: t in msg.tlvs ==> t.id in tables.tlvs
    {
      var api := GetApiById(tables, hdr.typ);
      if api.None? {
        return -1;
      }
      var i := 0;
      while i < tlvNum
        invariant 0 <= i <= tlvNum
        invariant forall k :: 0 <= k < i ==> msg.tlvs[k].id in tables.tlvs
      {
        var t := GetTlvById(tables, tlv[i].value.tlv.id);
        if t.None? {
          assert msg.tlvs[i].id !in tables.tlvs;
          return -1;
        }
        i := i + 1;
      }
      return 0;
    }

    /** The TLV loop of parse_packet. */
    method ParseTlvs(heap: Heap, packet: seq<byte>)
      requires Valid() && tlvNum == 0 && (forall i :: 0 <= i < TLV_NUM ==> tlv[i] == None)
      requires heap.Valid() && HDR_LEN <= |packet|
      requires InBounds(packet[HDR_LEN..]) && Slotted(packet[HDR_LEN..]) <= TLV_NUM
      modifies this`tlvNum, tlv, heap
      ensures Valid() && heap.Valid()
      ensures tlvNum == |Tlvs(packet[HDR_LEN..])| && Holds(tlv[..], Tlvs(packet[HDR_LEN..]))
      ensures Since(tlv[..], old(heap.live), heap.live) && Leftover()
    {
      BlocksNone(tlv[..]);
      ghost var done: seq<Tlv> := [];
      ReachedStart(packet);
      var parser := HDR_LEN;
      while |packet| - parser > 0
        invariant Parsing(heap, packet, parser, old(heap.live), done)
      {
        var ret: int;
        ret, done := NextTlv(heap, packet, parser, old(heap.live), done);
        if ret <= 0 {
          return;
        }
        parser := parser + ret;
      }
      ReachedEnd(packet, parser, done);
    }

    /** The loop invariant: what is in the slots, what is still in the packet. */
    ghost predicate Parsing(heap: Heap, packet: seq<byte>, parser: nat, before: set<nat>, done: seq<Tlv>)
      reads this, tlv, heap
    {
      && Valid() && heap.Valid() && Reached(packet, parser, done)
      && |done| == tlvNum && Holds(tlv[..], done)
      && (forall i :: tlvNum <= i < TLV_NUM ==> tlv[i] == None)
      && Since(tlv[..], before, heap.live)
    }

    method NextTlv(heap: Heap, packet: seq<byte>, parser: nat, ghost before: set<nat>, ghost done: seq<Tlv>)
      returns (ret: int, ghost more: seq<Tlv>)
      requires parser < |packet| && Parsing(heap, packet, parser, before, done)
      modifies this`tlvNum, tlv, heap
      ensures ret > 0 ==> parser + ret <= |packet| && Parsing(heap, packet, parser + ret, before, more)
      ensures ret <= 0 ==>
                && Valid() && heap.Valid() && Since(tlv[..], before, heap.live) && Leftover()
                && tlvNum == |Tlvs(packet[HDR_LEN..])| && Holds(tlv[..], Tlvs(packet[HDR_LEN..]))
    {
      more := done;
      ghost var was := tlv[..];
      ret := ParseTlv(heap, packet, parser, before);
      HoldsKept(was, tlv[..], done);
      if ret > 0 {
        ghost var t := tlv[tlvNum].value.tlv;
        ReachedNext(packet, parser, done, parser + ret, t);
        HoldsMore(tlv[..], done, t);
        more := done + [t];
        tlvNum := tlvNum + 1;
      } else {
        ReachedEnd(packet, parser, done);
      }
    }

    /** Allocate the next slot, then parse_tlv into it.  A failing parse_tlv
        leaves the slot allocated. */
    method ParseTlv(heap: Heap, packet: seq<byte>, parser: nat, ghost before: set<nat>) returns (ret: int)
      requires Valid() && heap.Valid() && tlvNum < TLV_NUM && tlv[tlvNum] == None
      requires Since(tlv[..], before, heap.live)
      requires parser <= |packet| && InBounds(packet[parser..])
      modifies tlv, heap
      ensures Valid() && heap.Valid() && Since(tlv[..], before, heap.live)
      ensures tlv[tlvNum].Some?
      ensures forall k :: 0 <= k < TLV_NUM && k != tlvNum ==> tlv[k] == old(tlv[k])
      ensures if |packet| - parser < 3 then ret == -1 && tlv[tlvNum].value.tlv == Tlv(0, [])
              else ret == 3 + |tlv[tlvNum].value.tlv.value| && FirstIs(packet, parser, parser + ret, tlv[tlvNum].value.tlv)
    {
      if |packet| - parser < 3 {
        AllocateNext(heap, Tlv(0, []), false, before);
        return -1;
      }
      var id := DecodeU16(packet[parser], packet[parser + 1]);
      var n: nat := packet[parser + 2];
      var value := packet[parser + 3..parser + 3 + n];
      FirstTlv(packet, parser);
      AllocateNext(heap, Tlv(id, value), true, before);
      ret := 3 + n;
    }

    /** find_wrapper_tlv_by_id scans all 128 slots.  On a parsed request it finds the first TLV with
        this id; only id 0 can also hit the leftover slot, which the request does not count. */
    method FindTlvById(id: u16, ghost m: Message) returns (r: Option<nat>)
      requires Carries(m) && Leftover()
      ensures var k := FirstWith(m.tlvs, id);
              r == if k < |m.tlvs| then Some(k)
                   else if id == 0 && tlvNum < TLV_NUM && tlv[tlvNum].Some? then Some(tlvNum)
                   else None
    {
      var i := 0;
      while i < TLV_NUM
        invariant 0 <= i <= TLV_NUM
        invariant forall k :: 0 <= k < i && tlv[k].Some? ==> tlv[k].value.tlv.id != id
      {
        if tlv[i].Some? && tlv[i].value.tlv.id == id {
          FirstWithIs(m.tlvs, id, if i < tlvNum then i else tlvNum);
          return Some(i);
        }
        i := i + 1;
      }
      FirstWithIs(m.tlvs, id, tlvNum);
      return None;
    }

    /** Blocks that are live but not held by this wrapper. */
    ghost function Foreign(heap: Heap): set<nat>
      reads this, tlv, heap
    {
      heap.live - Blocks(tlv[..])
    }

    /** fill_wrapper_message_hdr, with any header. */
    method FillHdr(h: Header)
      modifies this`hdr
      ensures hdr == h
    {
      hdr := h;
    }

    /** fill_wrapper_tlv_byte and fill_wrapper_tlv_bytes. */
    method FillTlv(heap: Heap, t: Tlv)
      requires Valid() && heap.Valid() && Owns(heap) && tlvNum < TLV_NUM && tlv[tlvNum] == None
      modifies this`tlvNum, tlv, heap
      ensures Valid() && heap.Valid() && Owns(heap) && tlvNum == old(tlvNum) + 1
      ensures tlv[tlvNum - 1].Some? && tlv[tlvNum - 1].value.tlv == t
      ensures forall k :: 0 <= k < TLV_NUM && k != tlvNum - 1 ==> tlv[k] == old(tlv[k])
      ensures Foreign(heap) == old(Foreign(heap))
    {
      Allocate(heap, tlvNum, t, true);
      ghost var ss := tlv[..];
      tlvNum := tlvNum + 1;
      assert tlv[..] == ss;
    }

    /** What a handler does with an empty response: set the header, append TLVs. */
    method Fill(heap: Heap, m: Message)
      requires Zeroed() && heap.Valid() && |m.tlvs| <= TLV_NUM
      modifies this, tlv, heap
      ensures heap.Valid() && Owns(heap) && Carries(m)
      ensures m.tlvs == [] ==> forall k :: 0 <= k < TLV_NUM ==> tlv[k] == None
      ensures Foreign(heap) == old(heap.live)
    {
      BlocksNone(tlv[..]);
      FillHdr(m.hdr);
      BlocksNone(tlv[..]);
      var i := 0;
      while i < |m.tlvs|
        invariant i <= |m.tlvs| && Valid() && heap.Valid() && Owns(heap)
        invariant hdr == m.hdr && tlvNum == i && Holds(tlv[..], m.tlvs[..i])
        invariant forall k :: i <= k < TLV_NUM ==> tlv[k] == None
        invariant Foreign(heap) == old(heap.live)
      {
        FillTlv(heap, m.tlvs[i]);
        i := i + 1;
      }
    }

    /** fill_wrapper_ack: slots 0 and 1 are overwritten without being freed. */
    method FillAck(heap: Heap, sn: u16, status: byte, reason: Payload)
      requires Valid() && heap.Valid() && Owns(heap)
      modifies this, tlv, heap
      ensures heap.Valid() && Owns(heap) && Carries(Ack(sn, status, reason))
      ensures Foreign(heap) == old(Foreign(heap)) + SlotBlocks(old(tlv[0])) + SlotBlocks(old(tlv[1]))
    {
      Allocate(heap, 0, Tlv(TLV_STATUS, [status]), true);
      Allocate(heap, 1, Tlv(TLV_MESSAGE, reason), true);
      ghost var ss := tlv[..];
      hdr := Header(API_VERSION, API_CMD_ACK, sn, API_RESERVED_BYTE, API_RESERVED_BYTE);
      tlvNum := 2;
      assert tlv[..] == ss;
    }

    /** assemble_packet on a buffer that is large enough. */
    method Assemble(packet: array<byte>, ghost m: Message) returns (len: nat)
      requires Carries(m) && HDR_LEN + PayloadSize(m.tlvs) <= packet.Length
      modifies packet
      ensures len == HDR_LEN + PayloadSize(m.tlvs) && packet[..len] == Encode(m)
    {
      len := GenMessageHdr(packet, hdr);
      var i := 0;
      while i < tlvNum
        invariant i <= tlvNum && Printed(packet[..], len, m, i)
      {
        len := AppendTlv(packet, len, m, i);
        i := i + 1;
      }
      assert m.tlvs[..i] == m.tlvs;
    }

    /** The loop body of assemble_packet. */
    method AppendTlv(packet: array<byte>, at: nat, ghost m: Message, i: nat) returns (len: nat)
      requires Carries(m) && i < tlvNum && Printed(packet[..], at, m, i)
      requires HDR_LEN + PayloadSize(m.tlvs) <= packet.Length
      modifies packet
      ensures Printed(packet[..], len, m, i + 1)
    {
      EncodeTlvsNext(m.tlvs, i);
      var ret := GenTlv(packet, at, tlv[i].value.tlv);
      len := at + ret;
    }
  }

  /** The buffer holds the header and the first i TLVs, and what is left to print is the rest. */
  predicate Printed(packet: seq<byte>, len: nat, m: Message, i: nat) {
    && i <= |m.tlvs| && len <= |packet|
    && packet[..len] == EncodeHeader(m.hdr) + EncodeTlvs(m.tlvs[..i])
    && len + PayloadSize(m.tlvs[i..]) == HDR_LEN + PayloadSize(m.tlvs)
  }

  const API_VERSION: byte := 0x01
  const API_RESERVED_BYTE: byte := 0xff
  const API_CMD_ACK: u16 := 0x0001
  const TLV_MESSAGE: u16 := 0xa000
  const TLV_STATUS: u16 := 0xa001

  /** What fill_wrapper_ack puts into the wrapper. */
  function Ack(sn: u16, status: byte, reason: Payload): Message {
    Message(Header(API_VERSION, API_CMD_ACK, sn, API_RESERVED_BYTE, API_RESERVED_BYTE),
            [Tlv(TLV_STATUS, [status]), Tlv(TLV_MESSAGE, reason)])
  }

  method GenMessageHdr(packet: array<byte>, h: Header) returns (len: nat)
    requires packet.Length >= HDR_LEN
    modifies packet
    ensures len == HDR_LEN && packet[..len] == EncodeHeader(h)
  {
    packet[0] := h.version;
    packet[1], packet[2] := h.typ / 0x100, h.typ % 0x100;
    packet[3], packet[4] := h.sn / 0x100, h.sn % 0x100;
    packet[5], packet[6] := h.reserved, h.reserved2;
    return HDR_LEN;
  }

  /** gen_tlv behind what is already in the buffer; -1 if it does not fit. */
  method GenTlv(packet: array<byte>, at: nat, t: Tlv) returns (ret: int)
    requires at <= packet.Length
    modifies packet
    ensures at + 3 + |t.value| > packet.Length ==> ret == -1 && packet[..] == old(packet[..])
    ensures at + 3 + |t.value| <= packet.Length ==>
              ret == 3 + |t.value| && packet[..at + ret] == old(packet[..at]) + EncodeTlv(t)
  {
    if packet.Length - at < |t.value| + 3 {
      return -1;
    }
    packet[at], packet[at + 1], packet[at + 2] := t.id / 0x100, t.id % 0x100, |t.value|;
    var i := 0;
    while i < |t.value|
      invariant 0 <= i <= |t.value|
      invariant packet[..at] == old(packet[..at])
      invariant packet[at] == t.id / 0x100 && packet[at + 1] == t.id % 0x100 && packet[at + 2] == |t.value|
      invariant forall k :: 0 <= k < i ==> packet[at + 3 + k] == t.value[k]
    {
      packet[at + 3 + i] := t.value[i];
      i := i + 1;
    }
    ret := 3 + |t.value|;
  }

  /** The index of the first TLV with this id, or the length. */
  function FirstWith(ts: seq<Tlv>, id: u16): (k: nat)
    ensures k <= |ts|
  {
    if ts == [] || ts[0].id == id then 0 else 1 + FirstWith(ts[1..], id)
  }

  lemma {:induction false} FirstWithIs(ts: seq<Tlv>, id: u16, k: nat)
    requires k <= |ts| && (k < |ts| ==> ts[k].id == id)
    requires forall i :: 0 <= i < k ==> ts[i].id != id
    ensures FirstWith(ts, id) == k
  {
    if k > 0 {
      FirstWithIs(ts[1..], id, k - 1);
    }
  }

  /** How many slots parsing a TLV area takes: one more than it counts if bytes are left over. */
  function Slotted(b: seq<byte>): nat
    requires InBounds(b)
  {
    if |b| == 0 then 0 else if |b| < 3 then 1 else 1 + Slotted(b[3 + b[2]..])
  }

  /** The first entry with this type. */
  method GetApiById(tables: Tables, typ: u16) returns (r: Option<nat>)
    ensures r.None? <==> typ !in tables.apis
    ensures r.Some? ==> r.value < |tables.apis| && tables.apis[r.value] == typ && typ !in tables.apis[..r.value]
  {
    for i := 0 to |tables.apis|
      invariant typ !in tables.apis[..i]
    {
      if typ == tables.apis[i] {
        return Some(i);
      }
    }
    return None;
  }

  method GetTlvById(tables: Tables, id: u16) returns (r: Option<nat>)
    ensures r.None? <==> id !in tables.tlvs
    ensures r.Some? ==> r.value < |tables.tlvs| && tables.tlvs[r.value] == id && id !in tables.tlvs[..r.value]
  {
    for i := 0 to |tables.tlvs|
      invariant id !in tables.tlvs[..i]
    {
      if id == tables.tlvs[i] {
        return Some(i);
      }
    }
    return None;
  }
}
