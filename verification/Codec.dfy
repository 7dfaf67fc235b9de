/** The QuickTrack wire format: a seven byte big-endian header followed by TLVs. */
module Codec {
  import opened Basics

  type u16 = x: int | 0 <= x < 0x1_0000
  type Payload = s: seq<byte> | |s| < 0x100  // the length is one byte

  datatype Header = Header(version: byte, typ: u16, sn: u16, reserved: byte, reserved2: byte)

  datatype Tlv = Tlv(id: u16, value: Payload)

  datatype Message = Message(hdr: Header, tlvs: seq<Tlv>)

  const HDR_LEN := 7
  const TLV_NUM := 128
  const ZERO_HEADER := Header(0, 0, 0, 0, 0)

  // ---------- printing ----------

  function EncodeU16(v: u16): (s: seq<byte>)
    ensures |s| == 2
  {
    [v / 0x100, v % 0x100]
  }

  function EncodeHeader(h: Header): (s: seq<byte>)
    ensures |s| == HDR_LEN
  {
    [h.version] + EncodeU16(h.typ) + EncodeU16(h.sn) + [h.reserved, h.reserved2]
  }

  function EncodeTlv(t: Tlv): (s: seq<byte>)
    ensures |s| == 3 + |t.value|
  {
    EncodeU16(t.id) + [|t.value|] + t.value
  }

  function EncodeTlvs(ts: seq<Tlv>): seq<byte> {
    if ts == [] then [] else EncodeTlv(ts[0]) + EncodeTlvs(ts[1..])
  }

  function Encode(m: Message): seq<byte> {
    EncodeHeader(m.hdr) + EncodeTlvs(m.tlvs)
  }

  function PayloadSize(ts: seq<Tlv>): nat {
    if ts == [] then 0 else 3 + |ts[0].value| + PayloadSize(ts[1..])
  }

  lemma {:induction false} EncodeTlvsLength(ts: seq<Tlv>)
    ensures |EncodeTlvs(ts)| == PayloadSize(ts)
  {
    if ts != [] {
      EncodeTlvsLength(ts[1..]);
    }
  }

  /** The length of a packet is 7 + sum(3 + len). */
  lemma EncodeLength(m: Message)
    ensures |Encode(m)| == HDR_LEN + PayloadSize(m.tlvs)
  {
    EncodeTlvsLength(m.tlvs);
  }

  lemma {:induction false} EncodeTlvsConcat(a: seq<Tlv>, b: seq<Tlv>)
    ensures EncodeTlvs(a + b) == EncodeTlvs(a) + EncodeTlvs(b)
  {
    if a == [] {
      assert a + b == b;
    } else {
      assert (a + b)[1..] == a[1..] + b;
      EncodeTlvsConcat(a[1..], b);
    }
  }

  /** What an encoder that works from left to right adds at index i. */
  lemma EncodeTlvsNext(ts: seq<Tlv>, i: nat)
    requires i < |ts|
    ensures EncodeTlvs(ts[..i + 1]) == EncodeTlvs(ts[..i]) + EncodeTlv(ts[i])
    ensures PayloadSize(ts[i..]) == 3 + |ts[i].value| + PayloadSize(ts[i + 1..])
  {
    assert ts[..i + 1] == ts[..i] + [ts[i]];
    EncodeTlvsConcat(ts[..i], [ts[i]]);
    assert EncodeTlvs([ts[i]]) == EncodeTlv(ts[i]) + EncodeTlvs([]);
    assert ts[i..][1..] == ts[i + 1..];
  }

  // ---------- parsing ----------

  function DecodeU16(hi: byte, lo: byte): u16 {
    hi * 0x100 + lo
  }

  function DecodeHeader(b: seq<byte>): Header
    requires |b| >= HDR_LEN
  {
    Header(b[0], DecodeU16(b[1], b[2]), DecodeU16(b[3], b[4]), b[5], b[6])
  }

  /** Every length byte stays inside the packet: parse_tlv relies on it without checking. */
  predicate InBounds(b: seq<byte>) {
    |b| < 3 || (3 + b[2] <= |b| && InBounds(b[3 + b[2]..]))
  }

  /** The TLVs that are parsed and counted. */
  function Tlvs(b: seq<byte>): seq<Tlv>
    requires InBounds(b)
  {
    if |b| < 3 then []
    else [Tlv(DecodeU16(b[0], b[1]), b[3..3 + b[2]])] + Tlvs(b[3 + b[2]..])
  }

  /** The stray bytes at which parsing stops; if there are any, one slot is left allocated but
      uncounted. */
  function Stray(b: seq<byte>): (r: seq<byte>)
    requires InBounds(b)
    ensures |r| < 3
  {
    if |b| < 3 then b else Stray(b[3 + b[2]..])
  }

  /** The id tables, kept abstract. */
  datatype Tables = Tables(apis: seq<u16>, tlvs: seq<u16>)

  predicate Known(tables: Tables, m: Message) {
    m.hdr.typ in tables.apis && forall i :: 0 <= i < |m.tlvs| ==> m.tlvs[i].id in tables.tlvs
  }

  datatype Parsed = Parsed(ret: int, msg: Message)

  /** parse_packet on a zeroed wrapper: the return code and what the wrapper then holds. */
  function Parse(tables: Tables, b: seq<byte>): Parsed
    requires |b| >= HDR_LEN ==> InBounds(b[HDR_LEN..])
  {
    if |b| < HDR_LEN then Parsed(-1, Message(ZERO_HEADER, []))
    else
      var m := Message(DecodeHeader(b), Tlvs(b[HDR_LEN..]));
      Parsed(if Known(tables, m) then 0 else -1, m)
  }

  // ---------- the two undo each other ----------

  lemma HeaderRoundTrip(h: Header, rest: seq<byte>)
    ensures DecodeHeader(EncodeHeader(h) + rest) == h
  {
    var e := EncodeHeader(h);
    assert forall i :: 0 <= i < HDR_LEN ==> (e + rest)[i] == e[i];
  }

  lemma HeaderRoundTripBack(b: seq<byte>)
    requires |b| >= HDR_LEN
    ensures EncodeHeader(DecodeHeader(b)) == b[..HDR_LEN]
  {
  }

  lemma TlvFront(t: Tlv, rest: seq<byte>)
    ensures var b := EncodeTlv(t) + rest;
            && |b| >= 3 && b[2] == |t.value| && 3 + b[2] <= |b|
            && DecodeU16(b[0], b[1]) == t.id && b[3..3 + b[2]] == t.value && b[3 + b[2]..] == rest
  {
    var b := EncodeTlv(t) + rest;
    assert b[0] == t.id / 0x100 && b[1] == t.id % 0x100 && b[2] == |t.value|;
  }

  /** One TLV in front is parsed first. */
  lemma TlvsCons(t: Tlv, rest: seq<byte>)
    requires InBounds(rest)
    ensures var b := EncodeTlv(t) + rest;
            InBounds(b) && Tlvs(b) == [t] + Tlvs(rest) && Stray(b) == Stray(rest)
  {
    TlvFront(t, rest);
  }

  lemma EncodeFirst(ts: seq<Tlv>, tail: seq<byte>)
    requires ts != []
    ensures EncodeTlvs(ts) + tail == EncodeTlv(ts[0]) + (EncodeTlvs(ts[1..]) + tail)
  {
  }

  /** One or two trailing bytes do not change what is parsed. */
  lemma {:induction false} TlvsRoundTrip(ts: seq<Tlv>, tail: seq<byte>)
    requires |tail| < 3
    ensures InBounds(EncodeTlvs(ts) + tail)
    ensures Tlvs(EncodeTlvs(ts) + tail) == ts && Stray(EncodeTlvs(ts) + tail) == tail
  {
    if ts == [] {
      assert EncodeTlvs(ts) + tail == tail;
    } else {
      var rest := EncodeTlvs(ts[1..]) + tail;
      TlvsRoundTrip(ts[1..], tail);
      EncodeFirst(ts, tail);
      TlvsCons(ts[0], rest);
      assert [ts[0]] + ts[1..] == ts;
    }
  }

  lemma U16RoundTripBack(hi: byte, lo: byte)
    ensures EncodeU16(DecodeU16(hi, lo)) == [hi, lo]
  {
  }

  lemma FourPieces(b: seq<byte>, n: nat)
    requires 3 + n <= |b|
    ensures [b[0], b[1]] + [b[2]] + b[3..3 + n] == b[..3 + n]
  {
  }

  /** The first TLV of a packet prints as the bytes it came from. */
  lemma TlvFrontBack(b: seq<byte>)
    requires |b| >= 3 && 3 + b[2] <= |b|
    ensures EncodeTlv(Tlv(DecodeU16(b[0], b[1]), b[3..3 + b[2]])) == b[..3 + b[2]]
  {
    var n: nat := b[2];
    var v := b[3..3 + n];
    U16RoundTripBack(b[0], b[1]);
    FourPieces(b, n);
    assert EncodeTlv(Tlv(DecodeU16(b[0], b[1]), v)) == [b[0], b[1]] + [b[2]] + v;
  }

  lemma TlvsUncons(b: seq<byte>) returns (t: Tlv, rest: seq<byte>)
    requires InBounds(b) && |b| >= 3
    ensures |rest| < |b| && InBounds(rest) && b == EncodeTlv(t) + rest
    ensures Tlvs(b) == [t] + Tlvs(rest) && Stray(b) == Stray(rest)
  {
    t, rest := Tlv(DecodeU16(b[0], b[1]), b[3..3 + b[2]]), b[3 + b[2]..];
    TlvFrontBack(b);
    assert b == b[..3 + b[2]] + rest;
  }

  lemma {:induction false} TlvsRoundTripBack(b: seq<byte>)
    requires InBounds(b)
    ensures EncodeTlvs(Tlvs(b)) + Stray(b) == b
  {
    if |b| >= 3 {
      var t, rest := TlvsUncons(b);
      TlvsRoundTripBack(rest);
      EncodeFirst([t] + Tlvs(rest), Stray(rest));
      assert ([t] + Tlvs(rest))[1..] == Tlvs(rest);
    }
  }

  /** parse_packet(assemble_packet(w)) gives back w, with or without stray bytes behind it. */
  lemma ParseUndoesEncode(tables: Tables, m: Message, tail: seq<byte>)
    requires |tail| < 3
    ensures var b := Encode(m) + tail;
            && |b| >= HDR_LEN && InBounds(b[HDR_LEN..])
            && Parse(tables, b) == Parsed(if Known(tables, m) then 0 else -1, m)
  {
    var b := Encode(m) + tail;
    assert b[HDR_LEN..] == EncodeTlvs(m.tlvs) + tail;
    assert b == EncodeHeader(m.hdr) + (EncodeTlvs(m.tlvs) + tail);
    HeaderRoundTrip(m.hdr, EncodeTlvs(m.tlvs) + tail);
    TlvsRoundTrip(m.tlvs, tail);
  }

  /** Assembling what was parsed gives back the packet, less the stray bytes. */
  lemma EncodeUndoesParse(tables: Tables, b: seq<byte>)
    requires |b| >= HDR_LEN && InBounds(b[HDR_LEN..])
    ensures b == Encode(Parse(tables, b).msg) + Stray(b[HDR_LEN..])
  {
    HeaderRoundTripBack(b);
    TlvsRoundTripBack(b[HDR_LEN..]);
    assert b == b[..HDR_LEN] + b[HDR_LEN..];
  }

  /** The packets parse_packet accepts are exactly the encodings of known messages, followed by
      at most two bytes. */
  lemma AcceptedPackets(tables: Tables, b: seq<byte>)
    requires |b| >= HDR_LEN ==> InBounds(b[HDR_LEN..])
    ensures Parse(tables, b).ret == 0 <==>
            exists m, tail ::
              && b == Encode(m) + tail && |tail| < 3
              && m.hdr.typ in tables.apis && forall t :: t in m.tlvs ==> t.id in tables.tlvs
  {
    if Parse(tables, b).ret == 0 {
      EncodeUndoesParse(tables, b);
      assert Known(tables, Parse(tables, b).msg);
    }
    forall m, tail | b == Encode(m) + tail && |tail| < 3 && Known(tables, m)
      ensures Parse(tables, b).ret == 0
    {
      ParseUndoesEncode(tables, m, tail);
    }
  }

  /** Different messages have different encodings. */
  lemma EncodeInjective(m: Message, n: Message)
    requires Encode(m) == Encode(n)
    ensures m == n
  {
    assert Encode(m) + [] == Encode(m) && Encode(n) + [] == Encode(n);
    ParseUndoesEncode(Tables([], []), m, []);
    ParseUndoesEncode(Tables([], []), n, []);
  }

  // ---------- the test tool's encoder ----------

  /** Tlv.to_bytes and Msg.to_bytes of test.py: an accumulating encoder written separately. */
  method PyEncode(id: u16, sn: u16, tlvs: seq<Tlv>) returns (raw: seq<byte>)
    ensures raw == Encode(Message(Header(0x01, id, sn, 0xff, 0xff), tlvs))
  {
    raw := [];
    raw := raw + [0x01];
    raw := raw + [id / 0x100];
    raw := raw + [id % 0x100];
    raw := raw + [sn / 0x100];
    raw := raw + [sn % 0x100];
    raw := raw + [0xff];
    raw := raw + [0xff];
    ghost var hdr := EncodeHeader(Header(0x01, id, sn, 0xff, 0xff));
    assert raw == hdr;
    for i := 0 to |tlvs|
      invariant raw == hdr + EncodeTlvs(tlvs[..i])
    {
      var out: seq<byte> := [];
      out := out + [tlvs[i].id / 0x100];
      out := out + [tlvs[i].id % 0x100];
      out := out + [|tlvs[i].value|];
      out := out + tlvs[i].value;
      assert out == EncodeTlv(tlvs[i]);
      EncodeTlvsNext(tlvs, i);
      raw := raw + out;
    }
    assert tlvs[..|tlvs|] == tlvs;
  }
}
