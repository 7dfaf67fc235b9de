/** The ICMP checksum of utils.c: a one's complement sum of 16-bit words in host byte order.

    `big` is the byte order of the host.  Section 1 of RFC 1071 defines the sum; section 2 states
    its byte order independence; RFC 792 asks that a packet with its checksum sums to zero. */
module Checksum {
  import opened Basics

  /** The largest size whose 16-bit words cannot add up to 2^32. */
  const MAX_SIZE := 131074

  function Word(big: bool, first: byte, second: byte): (w: nat)
    ensures w < 65536
  {
    if big then 256 * first + second else first + 256 * second
  }

  /** The loop's sum: words in host order, a last odd byte added as it is. */
  function Sum(big: bool, buf: seq<byte>): nat {
    if buf == [] then 0
    else if |buf| == 1 then buf[0]
    else Word(big, buf[0], buf[1]) + Sum(big, buf[2..])
  }

  function Fold(sum: nat): nat {
    sum % 65536 + sum / 65536
  }

  /** Two folds, complement, truncation to unsigned short. */
  function Finish(sum: nat): (r: nat)
    ensures r < 65536
  {
    65535 - Fold(Fold(sum)) % 65536
  }

  function IcmpChecksum(big: bool, buf: seq<byte>): (r: nat)
    ensures r < 65536
  {
    Finish(Sum(big, buf))
  }

  method ComputeIcmpChecksum(big: bool, buf: array<byte>, size: nat) returns (r: nat)
    requires size <= buf.Length
    ensures r == IcmpChecksum(big, buf[..size])
  {
    var sum, p, left := 0, 0, size;
    while left > 1
      invariant p + left == size
      invariant sum + Sum(big, buf[p..size]) == Sum(big, buf[..size])
    {
      assert buf[p..size][2..] == buf[p + 2..size];
      sum := sum + Word(big, buf[p], buf[p + 1]);
      p := p + 2;
      left := left - 2;
    }
    if left == 1 {
      sum := sum + buf[p];
    }
    assert sum == Sum(big, buf[..size]);
    sum := Fold(sum);
    sum := Fold(sum);
    r := 65535 - sum % 65536;
  }

  // ---------- folding ----------

  lemma FoldStep(n: nat)
    ensures n == Fold(n) + 65535 * (n / 65536)
    ensures Fold(n) == 0 <==> n == 0
  {
  }

  predicate DifferBy(n: int, m: int, q: int) {
    n - m == 65535 * q
  }

  /** n ≡ m modulo 65535. */
  ghost predicate Congruent(n: int, m: int) {
    exists q :: DifferBy(n, m, q)
  }

  lemma Quotient(n: int, m: int) returns (q: int)
    requires Congruent(n, m)
    ensures n - m == 65535 * q
  {
    q :| DifferBy(n, m, q);
  }

  lemma CongruentBy(n: int, m: int, q: int)
    requires n - m == 65535 * q
    ensures Congruent(n, m)
  {
    assert DifferBy(n, m, q);
  }

  lemma CongruentTrans(a: int, b: int, c: int)
    requires Congruent(a, b) && Congruent(b, c)
    ensures Congruent(a, c) && Congruent(b, a)
  {
    var p := Quotient(a, b);
    var q := Quotient(b, c);
    CongruentBy(a, c, p + q);
    CongruentBy(b, a, -p);
  }

  /** Congruent values in 0..65535 are equal, or they are the two representations of zero. */
  lemma CongruentSmall(n: int, m: int)
    requires Congruent(n, m) && 0 <= n <= 65535 && 0 <= m <= 65535
    ensures n == m || (n == 0 && m == 65535) || (n == 65535 && m == 0)
  {
    var q := Quotient(n, m);
    assert -1 <= q <= 1;
  }

  /** Two folds suffice below 2^32: the result fits 16 bits, is congruent to the sum modulo 65535,
      and is zero only for a zero sum. */
  lemma TwoFolds(n: nat)
    requires n < 0x1_0000_0000
    ensures Fold(Fold(n)) <= 65535
    ensures Congruent(Fold(Fold(n)), n)
    ensures Fold(Fold(n)) == 0 <==> n == 0
  {
    FoldStep(n);
    FoldStep(Fold(n));
    assert Fold(n) <= 65535 + 65535;
    CongruentBy(Fold(n), n, -(n / 65536));
    CongruentBy(Fold(Fold(n)), Fold(n), -(Fold(n) / 65536));
    CongruentTrans(Fold(Fold(n)), Fold(n), n);
  }

  lemma {:induction false} SumBound(big: bool, buf: seq<byte>)
    ensures Sum(big, buf) <= 65535 * ((|buf| + 1) / 2)
  {
    if |buf| > 1 {
      SumBound(big, buf[2..]);
    }
  }

  lemma SumFits(big: bool, buf: seq<byte>)
    requires |buf| <= MAX_SIZE
    ensures Sum(big, buf) < 0x1_0000_0000
  {
    SumBound(big, buf);
  }

  // ---------- a packet with its checksum sums to zero ----------

  /** What Finish computes below 2^32: the complement of the sum's residue. */
  lemma FinishIs(n: nat) returns (f: nat)
    requires n < 0x1_0000_0000
    ensures f <= 65535 && Finish(n) == 65535 - f
    ensures Congruent(f, n) && (f == 0 <==> n == 0)
  {
    TwoFolds(n);
    f := Fold(Fold(n));
  }

  lemma ComplementCancels(f: nat, g: nat, n: nat, m: nat)
    requires m == n + (65535 - f) && f <= 65535 && g <= 65535
    requires Congruent(f, n) && Congruent(g, m)
    requires (f == 0 <==> n == 0) && (g == 0 <==> m == 0)
    ensures g == 65535
  {
    var q := Quotient(f, n);
    CongruentBy(m, 0, 1 - q);
    CongruentTrans(g, m, 0);
    CongruentSmall(g, 0);
  }

  /** Writing the complement into a zero word brings the checksum to zero. */
  lemma ChecksumCancels(n: nat, m: nat)
    requires m == n + Finish(n) && m < 0x1_0000_0000
    ensures Finish(m) == 0
  {
    var f := FinishIs(n);
    var g := FinishIs(m);
    ComplementCancels(f, g, n, m);
  }

  /** The four header bytes that hold a native 16-bit value. */
  function Bytes16(big: bool, v: nat): (s: seq<byte>)
    requires v < 65536
    ensures |s| == 2 && Word(big, s[0], s[1]) == v
  {
    if big then [v / 256, v % 256] else [v % 256, v / 256]
  }

  /** The packet that setup_icmphdr leaves behind. */
  function EchoPacket(big: bool, typ: byte, code: byte, id: nat, sn: nat, payload: seq<byte>, check: nat): (s: seq<byte>)
    requires id < 65536 && sn < 65536 && check < 65536
    ensures |s| == 8 + |payload|
  {
    [typ, code] + Bytes16(big, check) + Bytes16(big, id) + Bytes16(big, sn) + payload
  }

  lemma SumCons(big: bool, a: byte, b: byte, rest: seq<byte>)
    ensures Sum(big, [a, b] + rest) == Word(big, a, b) + Sum(big, rest)
  {
    assert ([a, b] + rest)[2..] == rest;
  }

  lemma SumOfEchoPacket(big: bool, typ: byte, code: byte, id: nat, sn: nat, payload: seq<byte>, check: nat)
    requires id < 65536 && sn < 65536 && check < 65536
    ensures Sum(big, EchoPacket(big, typ, code, id, sn, payload, check)) ==
            Word(big, typ, code) + check + id + sn + Sum(big, payload)
  {
    var c, i, q := Bytes16(big, check), Bytes16(big, id), Bytes16(big, sn);
    PacketNests([typ, code], c, i, q, payload);
    SumPair(big, q, payload);
    SumPair(big, i, q + payload);
    SumPair(big, c, i + (q + payload));
    SumPair(big, [typ, code], c + (i + (q + payload)));
  }

  lemma SumPair(big: bool, w: seq<byte>, rest: seq<byte>)
    requires |w| == 2
    ensures Sum(big, w + rest) == Word(big, w[0], w[1]) + Sum(big, rest)
  {
    assert w == [w[0], w[1]];
    SumCons(big, w[0], w[1], rest);
  }

  lemma PacketNests(t: seq<byte>, c: seq<byte>, i: seq<byte>, q: seq<byte>, payload: seq<byte>)
    ensures t + c + i + q + payload == t + (c + (i + (q + payload)))
  {
  }

  /** A packet is known by its header bytes and its payload. */
  lemma PacketIs(s: seq<byte>, big: bool, typ: byte, code: byte, id: nat, sn: nat, payload: seq<byte>, check: nat)
    requires id < 65536 && sn < 65536 && check < 65536 && |s| == 8 + |payload|
    requires s[0] == typ && s[1] == code
    requires s[2] == Bytes16(big, check)[0] && s[3] == Bytes16(big, check)[1]
    requires s[4] == Bytes16(big, id)[0] && s[5] == Bytes16(big, id)[1]
    requires s[6] == Bytes16(big, sn)[0] && s[7] == Bytes16(big, sn)[1]
    requires s[8..] == payload
    ensures s == EchoPacket(big, typ, code, id, sn, payload, check)
  {
    var c, i, q := Bytes16(big, check), Bytes16(big, id), Bytes16(big, sn);
    assert c == [s[2], s[3]] && i == [s[4], s[5]] && q == [s[6], s[7]];
    assert s == [s[0], s[1]] + c + i + q + s[8..];
  }

  method ClearHeader(msg: array<byte>)
    requires 8 <= msg.Length
    modifies msg
    ensures forall k :: 0 <= k < 8 ==> msg[k] == 0
    ensures forall k :: 8 <= k < msg.Length ==> msg[k] == old(msg[k])
  {
    var i := 0;
    while i < 8
      invariant 0 <= i <= 8
      invariant forall k :: 0 <= k < i ==> msg[k] == 0
      invariant forall k :: 8 <= k < msg.Length ==> msg[k] == old(msg[k])
    {
      msg[i] := 0;
      i := i + 1;
    }
  }

  method Put16(big: bool, msg: array<byte>, at: nat, v: nat)
    requires v < 65536 && at + 2 <= msg.Length
    modifies msg
    ensures msg[at] == Bytes16(big, v)[0] && msg[at + 1] == Bytes16(big, v)[1]
    ensures forall k :: 0 <= k < msg.Length && k != at && k != at + 1 ==> msg[k] == old(msg[k])
  {
    var b := Bytes16(big, v);
    msg[at], msg[at + 1] := b[0], b[1];
  }

  method SetupIcmpHdr(big: bool, typ: byte, code: byte, id: nat, sn: nat, msg: array<byte>, size: nat)
    requires id < 65536 && sn < 65536 && 8 <= size <= msg.Length
    modifies msg
    ensures msg[..size] == EchoPacket(big, typ, code, id, sn, old(msg[8..size]),
              IcmpChecksum(big, EchoPacket(big, typ, code, id, sn, old(msg[8..size]), 0)))
    ensures msg[size..] == old(msg[size..])
  {
    ghost var payload := msg[8..size];
    ClearHeader(msg);
    msg[0], msg[1] := typ, code;
    Put16(big, msg, 4, id);
    Put16(big, msg, 6, sn);
    assert Bytes16(big, 0)[0] == 0 && Bytes16(big, 0)[1] == 0;
    assert msg[..size][8..] == payload;
    PacketIs(msg[..size], big, typ, code, id, sn, payload, 0);
    var check := ComputeIcmpChecksum(big, msg, size);
    Put16(big, msg, 2, check);
    assert msg[..size][8..] == payload;
    PacketIs(msg[..size], big, typ, code, id, sn, payload, check);
  }

  /** Where the fields of the echo packet stand: type, code, checksum, identifier, sequence number in
      host order, then the payload. */
  lemma EchoLayout(big: bool, typ: byte, code: byte, id: nat, sn: nat, payload: seq<byte>, check: nat)
    requires id < 65536 && sn < 65536 && check < 65536
    ensures var p := EchoPacket(big, typ, code, id, sn, payload, check);
            && |p| == 8 + |payload| && p[0] == typ && p[1] == code && p[8..] == payload
            && Word(big, p[2], p[3]) == check
            && Word(big, p[4], p[5]) == id
            && Word(big, p[6], p[7]) == sn
  {
  }

  /** After setup_icmphdr the checksum over the whole packet is zero, for every length up to
      131074, odd lengths included, on hosts of either byte order. */
  lemma RecomputedChecksumIsZero(big: bool, typ: byte, code: byte, id: nat, sn: nat, payload: seq<byte>)
    requires id < 65536 && sn < 65536 && 8 + |payload| <= MAX_SIZE
    ensures var check := IcmpChecksum(big, EchoPacket(big, typ, code, id, sn, payload, 0));
            IcmpChecksum(big, EchoPacket(big, typ, code, id, sn, payload, check)) == 0
  {
    var check := IcmpChecksum(big, EchoPacket(big, typ, code, id, sn, payload, 0));
    SumOfEchoPacket(big, typ, code, id, sn, payload, 0);
    SumOfEchoPacket(big, typ, code, id, sn, payload, check);
    SumFits(big, EchoPacket(big, typ, code, id, sn, payload, check));
    ChecksumCancels(Sum(big, EchoPacket(big, typ, code, id, sn, payload, 0)),
                    Sum(big, EchoPacket(big, typ, code, id, sn, payload, check)));
  }

  // ---------- byte order independence ----------

  function SwapPairs(buf: seq<byte>): (r: seq<byte>)
    requires |buf| % 2 == 0
    ensures |r| == |buf|
  {
    if buf == [] then [] else [buf[1], buf[0]] + SwapPairs(buf[2..])
  }

  function Swap16(v: nat): (r: nat)
    requires v < 65536
    ensures r < 65536
  {
    256 * (v % 256) + v / 256
  }

  /** The bytes that a host reads as the high halves of its words. */
  function HighSum(big: bool, buf: seq<byte>): nat
    requires |buf| % 2 == 0
  {
    if buf == [] then 0 else (if big then buf[0] else buf[1]) + HighSum(big, buf[2..])
  }

  lemma {:induction false} SwappedSum(big: bool, buf: seq<byte>)
    requires |buf| % 2 == 0
    ensures 256 * Sum(big, buf) == Sum(big, SwapPairs(buf)) + 65535 * HighSum(big, buf)
    ensures Sum(big, SwapPairs(buf)) == 0 <==> Sum(big, buf) == 0
  {
    if buf == [] {
    } else {
      SwappedSum(big, buf[2..]);
      assert SwapPairs(buf)[2..] == SwapPairs(buf[2..]);
    }
  }

  /** Exchanging the bytes of every word exchanges the bytes of the checksum. */
  lemma ByteOrderIndependence(big: bool, buf: seq<byte>)
    requires |buf| % 2 == 0 && |buf| <= MAX_SIZE
    ensures IcmpChecksum(big, SwapPairs(buf)) == Swap16(IcmpChecksum(big, buf))
  {
    SumFits(big, buf);
    SumFits(big, SwapPairs(buf));
    SwappedSum(big, buf);
    FinishSwapped(Sum(big, buf), Sum(big, SwapPairs(buf)), HighSum(big, buf));
  }

  lemma SwapCongruent(f: nat)
    requires f < 65536
    ensures Congruent(256 * f, Swap16(f))
    ensures Swap16(f) == 0 <==> f == 0
    ensures Swap16(65535 - f) == 65535 - Swap16(f)
  {
    CongruentBy(256 * f, Swap16(f), f / 256);
    var hi, lo := f / 256, f % 256;
    assert (65535 - f) / 256 == 255 - hi && (65535 - f) % 256 == 255 - lo;
  }

  lemma CongruentTimes(n: int, m: int)
    requires Congruent(n, m)
    ensures Congruent(256 * n, 256 * m)
  {
    var q := Quotient(n, m);
    CongruentBy(256 * n, 256 * m, 256 * q);
  }

  lemma SwapUnique(f: nat, g: nat, n: nat, m: nat)
    requires f <= 65535 && g <= 65535
    requires Congruent(f, n) && Congruent(g, m) && Congruent(m, 256 * n)
    requires f == 0 <==> g == 0
    ensures g == Swap16(f)
  {
    CongruentTimes(f, n);
    SwapCongruent(f);
    CongruentBy(256 * n, 256 * n, 0);
    CongruentTrans(256 * f, 256 * n, 256 * n);
    CongruentTrans(m, 256 * n, 256 * f);
    CongruentTrans(m, 256 * f, Swap16(f));
    CongruentTrans(g, m, Swap16(f));
    CongruentSmall(g, Swap16(f));
  }

  lemma FinishSwapped(n: nat, m: nat, h: nat)
    requires n < 0x1_0000_0000 && m < 0x1_0000_0000
    requires 256 * n == m + 65535 * h && (m == 0 <==> n == 0)
    ensures Finish(m) == Swap16(Finish(n))
  {
    var f := FinishIs(n);
    var g := FinishIs(m);
    var q: int := 0 - h;
    CongruentBy(m, 256 * n, q);
    SwapUnique(f, g, n, m);
    SwapCongruent(f);
  }

  /** So a host of the other byte order reads the same verdict from the same bytes. */
  lemma OtherHostAgrees(big: bool, buf: seq<byte>)
    requires |buf| % 2 == 0 && |buf| <= MAX_SIZE
    ensures IcmpChecksum(!big, buf) == Swap16(IcmpChecksum(big, buf))
    ensures IcmpChecksum(!big, buf) == 0 <==> IcmpChecksum(big, buf) == 0
  {
    SumOnOtherHost(big, buf);
    ByteOrderIndependence(big, buf);
  }

  lemma {:induction false} SumOnOtherHost(big: bool, buf: seq<byte>)
    requires |buf| % 2 == 0
    ensures Sum(!big, buf) == Sum(big, SwapPairs(buf))
  {
    if buf == [] {
    } else {
      SumOnOtherHost(big, buf[2..]);
      assert SwapPairs(buf)[2..] == SwapPairs(buf[2..]);
    }
  }

  function Last(buf: seq<byte>): (v: int)
    requires buf != []
    ensures 0 <= v < 256
  {
    buf[|buf| - 1]
  }

  lemma {:induction false} PaddedSum(big: bool, buf: seq<byte>)
    requires |buf| % 2 == 1
    ensures Sum(big, buf + [0]) == Sum(big, buf) + (if big then 255 * Last(buf) else 0)
  {
    if |buf| == 1 {
      assert (buf + [0])[2..] == [];
    } else {
      PaddedSum(big, buf[2..]);
      assert (buf + [0])[2..] == buf[2..] + [0];
    }
  }

  /** Sums that differ by less than 65535 have different checksums. */
  lemma FinishDiffers(n: nat, m: nat)
    requires n < m < n + 65535 && m < 0x1_0000_0000
    ensures Finish(n) != Finish(m)
  {
    var f := FinishIs(n);
    var g := FinishIs(m);
    NotCongruent(f, g, n, m);
  }

  lemma NotCongruent(f: nat, g: nat, n: nat, m: nat)
    requires n < m < n + 65535 && Congruent(f, n) && Congruent(g, m)
    ensures f != g
  {
    var p := Quotient(f, n);
    var q := Quotient(g, m);
    assert f == g ==> m - n == 65535 * (p - q);
  }

  /** An odd packet is to be summed as if padded with a zero byte.  Little-endian hosts do so for
      every packet; big-endian hosts only when the last byte is zero. */
  lemma OddLengthIsPadded(big: bool, buf: seq<byte>)
    requires |buf| % 2 == 1 && |buf| < MAX_SIZE
    ensures IcmpChecksum(big, buf) == IcmpChecksum(big, buf + [0]) <==> (!big || Last(buf) == 0)
  {
    PaddedSum(big, buf);
    SumFits(big, buf + [0]);
    if big && Last(buf) != 0 {
      FinishDiffers(Sum(big, buf), Sum(big, buf + [0]));
    }
  }

  /** A big-endian host sums the one-byte packet 01 as 0001, padded it would be 0100. */
  lemma OddPacketDiffers()
    ensures IcmpChecksum(true, [1]) == 0xfffe && IcmpChecksum(true, [1] + [0]) == 0xfeff
  {
    var b: seq<byte> := [1];
    assert (b + [0])[2..] == [];
    assert Sum(true, b + [0]) == 256;
  }
}
