/** The wireless interface table of utils.c: which interface serves which BSS. */
module Interfaces {

  const UNUSED_IDENTIFIER := -1
  const BANDS := 16

  datatype Interface = Interface(
    identifier: int, band: int, ifname: string,
    mbssidEnable: int, transmitter: int, hapdBssId: int, confFile: string)

  datatype BssInfo = BssInfo(identifier: int, band: int, mbssidEnable: int, transmitter: int)

  /** parse_bss_identifier: bits 0-3 band, 4-7 identifier, 8 MBSSID, 9 transmitter.  On two's
      complement integers the masks are Euclidean remainders. */
  function ParseBssIdentifier(v: int): (b: BssInfo)
    ensures ValidBss(b)
    ensures v == b.band + 16 * b.identifier + 256 * b.mbssidEnable + 512 * b.transmitter + 1024 * (v / 1024)
  {
    assert v / 16 / 16 == v / 256 && v / 256 / 2 == v / 512 && v / 512 / 2 == v / 1024;
    BssInfo(v / 16 % 16, v % 16, v / 256 % 2, v / 512 % 2)
  }

  predicate ValidBss(b: BssInfo) {
    0 <= b.band < BANDS && 0 <= b.identifier < 16 && 0 <= b.mbssidEnable < 2 && 0 <= b.transmitter < 2
  }

  /** Every combination of fields is carried by exactly one 10-bit value. */
  lemma BssIdentifierRoundTrip(b: BssInfo, v: int)
    requires ValidBss(b) && 0 <= v < 1024
    ensures ParseBssIdentifier(v) == b <==>
            v == b.band + 16 * b.identifier + 256 * b.mbssidEnable + 512 * b.transmitter
  {
    var p := ParseBssIdentifier(v);
    assert v / 1024 == 0;
    SameDigit(p.band, p.identifier + 16 * (p.mbssidEnable + 2 * p.transmitter),
              b.band, b.identifier + 16 * (b.mbssidEnable + 2 * b.transmitter));
    SameDigit(p.identifier, p.mbssidEnable + 2 * p.transmitter, b.identifier, b.mbssidEnable + 2 * b.transmitter);
  }

  lemma SameDigit(d: int, x: int, e: int, y: int)
    requires 0 <= d < 16 && 0 <= e < 16
    ensures d + 16 * x == e + 16 * y <==> d == e && x == y
  {
  }

  type Table = seq<Interface>

  predicate Used(x: Interface) {
    x.identifier != UNUSED_IDENTIFIER
  }

  function ConfPath(ifname: string): string {
    "/etc/hostapd/hostapd_" + ifname + ".conf"
  }

  // ---------- the operations on values ----------

  /** `configured` is configured_interface_count, `cnt` is band_mbssid_cnt. */
  datatype Alloc = Alloc(ifs: Table, configured: int, cnt: seq<int>)

  /** The first unused interface of a band, or the table's length. */
  function FreeIndex(ifs: Table, band: int): (k: nat)
    ensures k <= |ifs|
    ensures k < |ifs| ==> ifs[k].band == band && !Used(ifs[k])
    ensures forall i :: 0 <= i < k && ifs[i].band == band ==> Used(ifs[i])
  {
    if ifs == [] || (ifs[0].band == band && !Used(ifs[0])) then 0 else 1 + FreeIndex(ifs[1..], band)
  }

  predicate Serves(x: Interface, band: int, identifier: int) {
    x.band == band && Used(x) && x.identifier == identifier
  }

  /** get_wireless_interface_info: the first interface in use for this BSS, or the table's length. */
  function Find(ifs: Table, band: int, identifier: int): (k: nat)
    ensures k <= |ifs|
    ensures k < |ifs| ==> Serves(ifs[k], band, identifier)
    ensures forall i :: 0 <= i < k ==> !Serves(ifs[i], band, identifier)
  {
    if ifs == [] || Serves(ifs[0], band, identifier) then 0 else 1 + Find(ifs[1..], band, identifier)
  }

  function Take(x: Interface, b: BssInfo, rank: int): Interface {
    x.(identifier := b.identifier, mbssidEnable := b.mbssidEnable, transmitter := b.transmitter,
       hapdBssId := rank, confFile := ConfPath(x.ifname))
  }

  /** assign_wireless_interface_info. */
  function Assign(a: Alloc, b: BssInfo): Alloc
    requires |a.cnt| == BANDS && ValidBss(b)
  {
    var k := FreeIndex(a.ifs, b.band);
    if k == |a.ifs| then a
    else Alloc(a.ifs[k := Take(a.ifs[k], b, a.cnt[b.band])], a.configured + 1,
               a.cnt[b.band := a.cnt[b.band] + 1])
  }

  /** The callers' idiom: look the BSS up, assign an interface if there is none. */
  function FindOrAssign(a: Alloc, b: BssInfo): Alloc
    requires |a.cnt| == BANDS && ValidBss(b)
  {
    if Find(a.ifs, b.band, b.identifier) < |a.ifs| then a else Assign(a, b)
  }

  function Release(x: Interface): Interface {
    x.(identifier := UNUSED_IDENTIFIER)
  }

  /** clear_interfaces_resource. */
  function Clear(a: Alloc): (r: Alloc)
    ensures |r.ifs| == |a.ifs| && |r.cnt| == BANDS
  {
    Alloc(seq(|a.ifs|, i requires 0 <= i < |a.ifs| => Release(a.ifs[i])), 0, seq(BANDS, _ => 0))
  }

  // ---------- the invariant ----------

  function CountUsed(ifs: Table): nat {
    if ifs == [] then 0 else (if Used(ifs[0]) then 1 else 0) + CountUsed(ifs[1..])
  }

  function CountUsedIn(ifs: Table, band: int): nat {
    if ifs == [] then 0 else (if ifs[0].band == band && Used(ifs[0]) then 1 else 0) + CountUsedIn(ifs[1..], band)
  }

  /** How many interfaces of a band stand in a table. */
  function CountBand(ifs: Table, band: int): nat {
    if ifs == [] then 0 else (if ifs[0].band == band then 1 else 0) + CountBand(ifs[1..], band)
  }

  ghost predicate Inv(a: Alloc) {
    && |a.cnt| == BANDS
    && a.configured == CountUsed(a.ifs)
    && (forall b :: 0 <= b < BANDS ==> a.cnt[b] == CountUsedIn(a.ifs, b))
    // the used interfaces of a band are a prefix of that band's interfaces
    && (forall i, j :: 0 <= i < j < |a.ifs| && a.ifs[i].band == a.ifs[j].band && Used(a.ifs[j]) ==> Used(a.ifs[i]))
    // and each knows its rank among them
    && (forall i :: 0 <= i < |a.ifs| && Used(a.ifs[i]) ==>
         a.ifs[i].hapdBssId == CountBand(a.ifs[..i], a.ifs[i].band))
  }

  /** No BSS is served by two interfaces. */
  ghost predicate UniqueBss(ifs: Table) {
    forall i, j :: 0 <= i < j < |ifs| && Used(ifs[i]) && Used(ifs[j]) && ifs[i].band == ifs[j].band ==>
      ifs[i].identifier != ifs[j].identifier
  }

  lemma {:induction false} CountConcat(x: Table, y: Table, band: int)
    ensures CountUsed(x + y) == CountUsed(x) + CountUsed(y)
    ensures CountUsedIn(x + y, band) == CountUsedIn(x, band) + CountUsedIn(y, band)
    ensures CountBand(x + y, band) == CountBand(x, band) + CountBand(y, band)
  {
    if x == [] {
      assert x + y == y;
    } else {
      assert (x + y)[1..] == x[1..] + y;
      CountConcat(x[1..], y, band);
    }
  }

  lemma {:induction false} CountWhole(x: Table, band: int)
    ensures (forall i :: 0 <= i < |x| && x[i].band == band ==> Used(x[i])) ==> CountUsedIn(x, band) == CountBand(x, band)
    ensures (forall i :: 0 <= i < |x| && x[i].band == band ==> !Used(x[i])) ==> CountUsedIn(x, band) == 0
    ensures (forall i :: 0 <= i < |x| ==> !Used(x[i])) ==> CountUsed(x) == 0
  {
    if x != [] {
      CountWhole(x[1..], band);
      assert forall i :: 0 <= i < |x| - 1 ==> x[1..][i] == x[i + 1];
    }
  }

  /** Replacing one unused interface by a used one of the same band. */
  lemma CountTaken(ifs: Table, k: nat, t: Interface, band: int)
    requires k < |ifs| && !Used(ifs[k]) && Used(t) && t.band == ifs[k].band
    ensures CountUsed(ifs[k := t]) == CountUsed(ifs) + 1
    ensures CountUsedIn(ifs[k := t], band) == CountUsedIn(ifs, band) + (if band == t.band then 1 else 0)
  {
    var x, y := ifs[..k], ifs[k + 1..];
    assert ifs == x + ([ifs[k]] + y) && ifs[k := t] == x + ([t] + y);
    CountConcat(x, [ifs[k]] + y, band);
    CountConcat(x, [t] + y, band);
    assert ([ifs[k]] + y)[1..] == y && ([t] + y)[1..] == y;
  }

  /** Ranks depend on bands only. */
  lemma {:induction false} CountBandSame(x: Table, y: Table, band: int)
    requires |x| == |y| && forall i :: 0 <= i < |x| ==> x[i].band == y[i].band
    ensures CountBand(x, band) == CountBand(y, band)
  {
    if x != [] {
      CountBandSame(x[1..], y[1..], band);
    }
  }

  /** The counter of a band is the rank of its first free interface. */
  lemma FreeRank(a: Alloc, band: int)
    requires Inv(a) && 0 <= band < BANDS && FreeIndex(a.ifs, band) < |a.ifs|
    ensures a.cnt[band] == CountBand(a.ifs[..FreeIndex(a.ifs, band)], band)
  {
    var k := FreeIndex(a.ifs, band);
    var x, y := a.ifs[..k], a.ifs[k..];
    assert a.ifs == x + y;
    CountConcat(x, y, band);
    CountWhole(x, band);
    forall i | 0 <= i < |y| && y[i].band == band ensures !Used(y[i]) {
      assert y[i] == a.ifs[k + i];
    }
    CountWhole(y, band);
  }

  lemma AssignInv(a: Alloc, b: BssInfo)
    requires Inv(a) && ValidBss(b)
    ensures Inv(Assign(a, b))
  {
    var k := FreeIndex(a.ifs, b.band);
    if k < |a.ifs| {
      FreeRank(a, b.band);
      var t := Take(a.ifs[k], b, a.cnt[b.band]);
      var r := Assign(a, b);
      forall c | 0 <= c < BANDS ensures r.cnt[c] == CountUsedIn(r.ifs, c) {
        CountTaken(a.ifs, k, t, c);
      }
      CountTaken(a.ifs, k, t, b.band);
      forall i | 0 <= i < |r.ifs| && Used(r.ifs[i])
        ensures r.ifs[i].hapdBssId == CountBand(r.ifs[..i], r.ifs[i].band)
      {
        CountBandSame(r.ifs[..i], a.ifs[..i], r.ifs[i].band);
      }
    }
  }

  lemma ClearInv(a: Alloc)
    ensures Inv(Clear(a)) && UniqueBss(Clear(a).ifs)
  {
    var r := Clear(a);
    forall c | 0 <= c < BANDS ensures r.cnt[c] == CountUsedIn(r.ifs, c) {
      CountWhole(r.ifs, c);
    }
    CountWhole(r.ifs, 0);
  }

  /** Assigning keeps every BSS on one interface exactly when the BSS had none, or nothing is
      assigned because the band is full. */
  lemma AssignUnique(a: Alloc, b: BssInfo)
    requires Inv(a) && UniqueBss(a.ifs) && ValidBss(b)
    ensures UniqueBss(Assign(a, b).ifs) <==>
            Find(a.ifs, b.band, b.identifier) == |a.ifs| || FreeIndex(a.ifs, b.band) == |a.ifs|
  {
    var k, f := FreeIndex(a.ifs, b.band), Find(a.ifs, b.band, b.identifier);
    if k < |a.ifs| {
      var r := Assign(a, b).ifs;
      if f < |a.ifs| {
        assert Serves(r[f], b.band, b.identifier) && Serves(r[k], b.band, b.identifier);
        assert f != k;
      } else {
        forall i, j | 0 <= i < j < |r| && Used(r[i]) && Used(r[j]) && r[i].band == r[j].band
          ensures r[i].identifier != r[j].identifier
        {
          assert i != k ==> !Serves(a.ifs[i], b.band, b.identifier);
          assert j != k ==> !Serves(a.ifs[j], b.band, b.identifier);
        }
      }
    }
  }

  /** A successful assignment after a failed lookup is what the next lookup finds. */
  lemma FindAfterAssign(a: Alloc, b: BssInfo)
    requires Inv(a) && ValidBss(b)
    requires Find(a.ifs, b.band, b.identifier) == |a.ifs| && FreeIndex(a.ifs, b.band) < |a.ifs|
    ensures Find(Assign(a, b).ifs, b.band, b.identifier) == FreeIndex(a.ifs, b.band)
  {
    var k := FreeIndex(a.ifs, b.band);
    var r := Assign(a, b).ifs;
    assert Serves(r[k], b.band, b.identifier);
    forall i | 0 <= i < k ensures !Serves(r[i], b.band, b.identifier) {
      assert !Serves(a.ifs[i], b.band, b.identifier);
    }
  }

  /** What an assignment writes: the band's first free interface gets the BSS and a file of its own,
      keeps band and name, and nothing else in the table changes; a full band changes nothing. */
  lemma AssignAsAsked(a: Alloc, b: BssInfo, k: nat)
    requires |a.cnt| == BANDS && ValidBss(b) && k <= |a.ifs|
    requires forall i :: 0 <= i < k && a.ifs[i].band == b.band ==> a.ifs[i].identifier != -1
    requires k < |a.ifs| ==> a.ifs[k].band == b.band && a.ifs[k].identifier == -1
    ensures var r := Assign(a, b);
            if k == |a.ifs| then r == a
            else
              && |r.ifs| == |a.ifs| && (forall i :: 0 <= i < |a.ifs| && i != k ==> r.ifs[i] == a.ifs[i])
              && var x := r.ifs[k];
                 && x.identifier == b.identifier && x.mbssidEnable == b.mbssidEnable && x.transmitter == b.transmitter
                 && x.band == b.band && x.ifname == a.ifs[k].ifname
                 && x.confFile == "/etc/hostapd/hostapd_" + x.ifname + ".conf"
  {
    assert FreeIndex(a.ifs, b.band) == k;
  }

  /** Clearing releases every interface and keeps everything else about it. */
  lemma ClearAsAsked(a: Alloc)
    ensures var r := Clear(a);
            && r.configured == 0 && |r.ifs| == |a.ifs| && r.cnt == seq(16, _ => 0)
            && forall i :: 0 <= i < |a.ifs| ==>
                 && r.ifs[i].identifier == -1 && r.ifs[i].band == a.ifs[i].band && r.ifs[i].ifname == a.ifs[i].ifname
                 && r.ifs[i].(identifier := a.ifs[i].identifier) == a.ifs[i]
  {
    var r := Clear(a);
    assert r.cnt == seq(16, _ => 0);
  }

  // ---------- runs ----------

  datatype Op = DoAssign(bss: BssInfo) | DoFindOrAssign(bss: BssInfo) | DoClear

  function Step(a: Alloc, op: Op): Alloc
    requires |a.cnt| == BANDS && (op.DoClear? || ValidBss(op.bss))
  {
    match op
    case DoAssign(b) => Assign(a, b)
    case DoFindOrAssign(b) => FindOrAssign(a, b)
    case DoClear => Clear(a)
  }

  predicate ValidOps(ops: seq<Op>) {
    forall op :: op in ops ==> op.DoClear? || ValidBss(op.bss)
  }

  function Run(a: Alloc, ops: seq<Op>): (r: Alloc)
    requires |a.cnt| == BANDS && ValidOps(ops)
    ensures |r.cnt| == BANDS
    decreases |ops|
  {
    if ops == [] then a
    else
      assert ops[0] in ops && ValidOps(ops[1..]);
      Run(Step(a, ops[0]), ops[1..])
  }

  /** The counters and ranks are right after every sequence of assignments, lookups and clears;
      while nothing is assigned without a failed lookup, no BSS gets two interfaces. */
  lemma {:induction false} RunInv(a: Alloc, ops: seq<Op>)
    requires Inv(a) && ValidOps(ops)
    ensures Inv(Run(a, ops))
    ensures UniqueBss(a.ifs) && (forall op :: op in ops ==> !op.DoAssign?) ==> UniqueBss(Run(a, ops).ifs)
    decreases |ops|
  {
    if ops == [] {
    } else {
      var op := ops[0];
      assert op in ops && ValidOps(ops[1..]);
      if op.DoClear? {
        ClearInv(a);
      } else {
        AssignInv(a, op.bss);
        if UniqueBss(a.ifs) {
          AssignUnique(a, op.bss);
        }
      }
      RunInv(Step(a, op), ops[1..]);
    }
  }

  lemma FindKeepsIndex(a: Alloc, b: BssInfo, band: int, identifier: int)
    requires Inv(a) && ValidBss(b) && Find(a.ifs, band, identifier) < |a.ifs|
    ensures Find(Assign(a, b).ifs, band, identifier) == Find(a.ifs, band, identifier)
  {
    var k, r := Find(a.ifs, band, identifier), Assign(a, b).ifs;
    assert Serves(a.ifs[k], band, identifier);
    forall i | 0 <= i < k ensures !Serves(r[i], band, identifier) {
      assert !Serves(a.ifs[i], band, identifier);
    }
    assert Serves(r[k], band, identifier);
    FindIs(r, band, identifier, k);
  }

  lemma {:induction false} FindStays(a: Alloc, ops: seq<Op>, band: int, identifier: int)
    requires Inv(a) && ValidOps(ops) && Find(a.ifs, band, identifier) < |a.ifs|
    requires forall op :: op in ops ==> !op.DoClear?
    ensures Find(Run(a, ops).ifs, band, identifier) == Find(a.ifs, band, identifier)
    decreases |ops|
  {
    if ops == [] {
    } else {
      assert ops[0] in ops && ValidOps(ops[1..]);
      AssignInv(a, ops[0].bss);
      FindKeepsIndex(a, ops[0].bss, band, identifier);
      FindStays(Step(a, ops[0]), ops[1..], band, identifier);
    }
  }

  /** What a successful assignment after a failed lookup assigned is what every later lookup
      finds, whatever is assigned in between, until the interfaces are cleared. */
  lemma FindUntilClear(a: Alloc, b: BssInfo, ops: seq<Op>)
    requires Inv(a) && ValidBss(b) && ValidOps(ops)
    requires Find(a.ifs, b.band, b.identifier) == |a.ifs| && FreeIndex(a.ifs, b.band) < |a.ifs|
    requires forall op :: op in ops ==> !op.DoClear?
    ensures Find(Run(Assign(a, b), ops).ifs, b.band, b.identifier) == FreeIndex(a.ifs, b.band)
  {
    AssignInv(a, b);
    FindAfterAssign(a, b);
    FindStays(Assign(a, b), ops, b.band, b.identifier);
  }

  // ---------- the code ----------

  class InterfaceTable {
    const interfaces: array<Interface>
    var configured: int
    const bandCnt: array<int>

    ghost predicate Valid()
      reads this
    {
      bandCnt.Length == BANDS
    }

    ghost function Abs(): Alloc
      reads this, interfaces, bandCnt
    {
      Alloc(interfaces[..], configured, bandCnt[..])
    }

    constructor (table: Table)
      ensures Valid() && fresh(interfaces) && fresh(bandCnt)
      ensures Abs() == Alloc(table, 0, seq(BANDS, _ => 0))
    {
      interfaces := new Interface[|table|](i requires 0 <= i < |table| => table[i]);
      bandCnt := new int[BANDS](_ => 0);
      configured := 0;
      new;
      assert interfaces[..] == table && bandCnt[..] == seq(BANDS, _ => 0);
    }

    /** assign_wireless_interface_info: the index stands for the pointer, -1 for NULL. */
    method AssignInterface(b: BssInfo) returns (r: int)
      requires Valid() && ValidBss(b)
      modifies this`configured, interfaces, bandCnt
      ensures Abs() == Assign(old(Abs()), b)
      ensures r == if FreeIndex(old(interfaces[..]), b.band) < interfaces.Length
                   then FreeIndex(old(interfaces[..]), b.band) else -1
    {
      var i := 0;
      while i < interfaces.Length
        invariant 0 <= i <= interfaces.Length && Abs() == old(Abs())
        invariant forall k :: 0 <= k < i && interfaces[k].band == b.band ==> Used(interfaces[k])
      {
        if interfaces[i].band == b.band && interfaces[i].identifier == UNUSED_IDENTIFIER {
          FreeIndexIs(interfaces[..], b.band, i);
          configured := configured + 1;
          interfaces[i] := Take(interfaces[i], b, bandCnt[b.band]);
          bandCnt[b.band] := bandCnt[b.band] + 1;
          return i;
        }
        i := i + 1;
      }
      FreeIndexIs(interfaces[..], b.band, i);
      return -1;
    }

    /** get_wireless_interface_info. */
    method GetInterface(band: int, identifier: int) returns (r: int)
      requires Valid()
      ensures r == if Find(interfaces[..], band, identifier) < interfaces.Length
                   then Find(interfaces[..], band, identifier) else -1
    {
      var i := 0;
      while i < interfaces.Length
        invariant 0 <= i <= interfaces.Length
        invariant forall k :: 0 <= k < i ==> !Serves(interfaces[k], band, identifier)
      {
        if interfaces[i].band == band && interfaces[i].identifier != UNUSED_IDENTIFIER &&
           interfaces[i].identifier == identifier {
          FindIs(interfaces[..], band, identifier, i);
          return i;
        }
        i := i + 1;
      }
      FindIs(interfaces[..], band, identifier, i);
      return -1;
    }

    /** clear_interfaces_resource. */
    method ClearResource()
      requires Valid()
      modifies this`configured, interfaces, bandCnt
      ensures Abs() == Clear(old(Abs()))
    {
      var i := 0;
      while i < interfaces.Length
        invariant 0 <= i <= interfaces.Length
        invariant forall k :: 0 <= k < interfaces.Length ==>
                    interfaces[k] == if k < i then Release(old(interfaces[k])) else old(interfaces[k])
      {
        if interfaces[i].identifier != UNUSED_IDENTIFIER {
          interfaces[i] := Release(interfaces[i]);
        }
        i := i + 1;
      }
      configured := 0;
      forall b | 0 <= b < BANDS {
        bandCnt[b] := 0;
      }
      assert interfaces[..] == Clear(old(Abs())).ifs;
    }
  }

  lemma {:induction false} FreeIndexIs(ifs: Table, band: int, k: nat)
    requires k <= |ifs| && (k < |ifs| ==> ifs[k].band == band && !Used(ifs[k]))
    requires forall i :: 0 <= i < k && ifs[i].band == band ==> Used(ifs[i])
    ensures FreeIndex(ifs, band) == k
  {
    if k > 0 {
      FreeIndexIs(ifs[1..], band, k - 1);
    }
  }

  lemma {:induction false} FindIs(ifs: Table, band: int, identifier: int, k: nat)
    requires k <= |ifs| && (k < |ifs| ==> Serves(ifs[k], band, identifier))
    requires forall i :: 0 <= i < k ==> !Serves(ifs[i], band, identifier)
    ensures Find(ifs, band, identifier) == k
  {
    if k > 0 {
      FindIs(ifs[1..], band, identifier, k - 1);
    }
  }
}
