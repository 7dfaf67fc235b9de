/** Which file each BSS section of the hostapd configuration goes to.

    configure_ap_handler and the head of generate_hostapd_config, in the build with
    HOSTAPD_SUPPORT_MBSSID.  Interfaces are named by their index in the table. */
module ApFiles {
  import opened Basics
  import opened TextLines
  import opened Interfaces

  /** `tx` is band_transmitter, `first` is band_first_wlan, `files` the file system. */
  datatype Ap = Ap(alloc: Alloc, tx: seq<Option<nat>>, first: seq<Option<nat>>, files: map<string, string>)

  /** One AP_CONFIGURE request: its BSS, whether the request names it by a BSS identifier (else the
      single-BSS path assigns without lookup), the BSSes its OWE transition TLVs name, in order,
      and the text generated behind the head. */
  datatype Request = Request(bss: BssInfo, named: bool, owe: seq<BssInfo>, body: string)

  /** The TLVs that decide: the numbers of BSS_IDENTIFIER and of the OWE transition TLVs, the text
      of HW_MODE, and whether HE_6G_ONLY is there. */
  datatype Packet = Packet(bssIdentifier: Option<int>, hwMode: Option<string>, sixGOnly: bool, owe: seq<int>, body: string)

  const BAND_24GHZ := 0
  const BAND_5GHZ := 1
  const BAND_6GHZ := 2

  /** The BSS of a request without identifier is number 1 on the band of its mode. */
  function SingleBss(mode: string, sixGOnly: bool): (b: BssInfo)
    ensures ValidBss(b)
  {
    BssInfo(1, if sixGOnly then BAND_6GHZ else if "a" <= mode then BAND_5GHZ else BAND_24GHZ, 0, 0)
  }

  function Decode(p: Packet): (r: Option<Request>)
    ensures r.Some? ==> ValidRequest(r.value)
    ensures r.None? <==> p.bssIdentifier.None? && p.hwMode.None?
  {
    var owe := seq(|p.owe|, i requires 0 <= i < |p.owe| => ParseBssIdentifier(p.owe[i]));
    if p.bssIdentifier.Some? then Some(Request(ParseBssIdentifier(p.bssIdentifier.value), true, owe, p.body))
    else if p.hwMode.Some? then Some(Request(SingleBss(p.hwMode.value, p.sixGOnly), false, owe, p.body))
    else None
  }

  predicate Shape(s: Ap) {
    && |s.alloc.cnt| == BANDS && |s.tx| == BANDS && |s.first| == BANDS
    && (forall b :: 0 <= b < BANDS && s.tx[b].Some? ==> s.tx[b].value < |s.alloc.ifs|)
    && (forall b :: 0 <= b < BANDS && s.first[b].Some? ==> s.first[b].value < |s.alloc.ifs|)
  }

  predicate ValidRequest(r: Request) {
    ValidBss(r.bss) && forall i :: 0 <= i < |r.owe| ==> ValidBss(r.owe[i])
  }

  const CTRL_LINE := "ctrl_interface=/var/run/hostapd"
  const GROUP_LINE := "ctrl_interface_group=0"

  /** The head of the generated text. */
  function Head(ifname: string, extra: bool): string {
    if extra then ("bss=" + ifname) + "\n" + CTRL_LINE + "\n"
    else CTRL_LINE + "\n" + GROUP_LINE + "\n" + ("interface=" + ifname) + "\n"
  }

  /** The lines of one section, spelled out. */
  lemma SectionLines(name: string, extra: bool, body: string)
    requires '\n' !in name
    ensures Lines(Head(name, extra) + body) ==
            (if extra then ["bss=" + name, "ctrl_interface=/var/run/hostapd"]
             else ["ctrl_interface=/var/run/hostapd", "ctrl_interface_group=0", "interface=" + name]) + Lines(body)
  {
    NoNewlines(name);
    if extra {
      UnlinesTwo("bss=" + name, CTRL_LINE);
      LinesOfUnlines(["bss=" + name, CTRL_LINE], body);
    } else {
      UnlinesThree(CTRL_LINE, GROUP_LINE, "interface=" + name);
      LinesOfUnlines([CTRL_LINE, GROUP_LINE, "interface=" + name], body);
    }
  }

  lemma NoNewlines(name: string)
    requires '\n' !in name
    ensures '\n' !in CTRL_LINE && '\n' !in GROUP_LINE && '\n' !in "bss=" + name && '\n' !in "interface=" + name
  {
  }

  /** The section continues a file rather than starting one. */
  predicate Extra(s: Ap, x: Interface)
    requires |s.first| == BANDS && 0 <= x.band < BANDS
  {
    (x.mbssidEnable != 0 && x.transmitter == 0) || s.first[x.band].Some?
  }

  // ---------- files ----------

  /** open fails on an empty path. */
  function WriteFile(files: map<string, string>, path: string, text: string): map<string, string> {
    if path == "" then files else files[path := text]
  }

  function AppendFile(files: map<string, string>, path: string, text: string): map<string, string> {
    if path == "" then files else files[path := (if path in files then files[path] else "") + text]
  }

  function SetPath(a: Alloc, k: nat, path: string): Alloc
    requires k < |a.ifs|
  {
    a.(ifs := a.ifs[k := a.ifs[k].(confFile := path)])
  }

  // ---------- one request ----------

  function AssignAll(a: Alloc, bs: seq<BssInfo>): (r: Alloc)
    requires |a.cnt| == BANDS && forall i :: 0 <= i < |bs| ==> ValidBss(bs[i])
    ensures |r.cnt| == BANDS && |r.ifs| == |a.ifs|
    decreases |bs|
  {
    if bs == [] then a else AssignAll(FindOrAssign(a, bs[0]), bs[1..])
  }

  /** The interface chosen for a request, or the table's length. */
  function Choose(a: Alloc, r: Request): (k: nat)
    requires |a.cnt| == BANDS && ValidRequest(r)
    ensures k <= |a.ifs|
  {
    var f := Find(a.ifs, r.bss.band, r.bss.identifier);
    if r.named && f < |a.ifs| then f else FreeIndex(a.ifs, r.bss.band)
  }

  function Claim(a: Alloc, r: Request): (c: Alloc)
    requires |a.cnt| == BANDS && ValidRequest(r)
    ensures |c.cnt| == BANDS && |c.ifs| == |a.ifs|
  {
    if r.named then FindOrAssign(a, r.bss) else Assign(a, r.bss)
  }

  /** Which interface a request gets: a named BSS that has one keeps the first, and nothing is assigned;
      any other request gets the first free interface of its band, if there is one. */
  lemma ChooseAsAsked(a: Alloc, r: Request, i: nat)
    requires |a.cnt| == BANDS && ValidRequest(r) && i < |a.ifs|
    ensures var k, b := Choose(a, r), r.bss;
            if r.named && exists j :: 0 <= j < |a.ifs| && Serves(a.ifs[j], b.band, b.identifier) then
              && k < |a.ifs| && a.ifs[k].band == b.band && a.ifs[k].identifier == b.identifier && Claim(a, r) == a
              && (i < k ==> !Serves(a.ifs[i], b.band, b.identifier))
            else
              && (k < |a.ifs| ==> a.ifs[k].band == b.band && a.ifs[k].identifier == -1 && Claim(a, r) == Assign(a, b))
              && (i < k && a.ifs[i].band == b.band ==> a.ifs[i].identifier != -1)
  {
  }

  /** The text of a request that got interface k. */
  function Text(s: Ap, r: Request, k: nat): string
    requires Shape(s) && ValidRequest(r) && k < |s.alloc.ifs| && 0 <= Claim(s.alloc, r).ifs[k].band < BANDS
  {
    var x := Claim(s.alloc, r).ifs[k];
    Head(x.ifname, Extra(s, x)) + r.body
  }

  /** The filing step on values. */
  function Filed(s: Ap, k: nat, b: BssInfo, text: string): (t: Ap)
    requires Shape(s) && ValidBss(b) && k < |s.alloc.ifs|
    ensures Shape(t)
  {
    var first := if s.first[b.band].None? then s.first[b.band := Some(k)] else s.first;
    if b.mbssidEnable != 0 && b.transmitter == 0 then
      var files :=
        if s.tx[b.band].Some? then AppendFile(s.files, s.alloc.ifs[s.tx[b.band].value].confFile, text)
        else s.files;
      Ap(SetPath(s.alloc, k, ""), s.tx, first, files)
    else if s.first[b.band].Some? then
      Ap(SetPath(s.alloc, k, ""), s.tx, first, AppendFile(s.files, s.alloc.ifs[s.first[b.band].value].confFile, text))
    else
      Ap(s.alloc, s.tx, first, WriteFile(s.files, s.alloc.ifs[k].confFile, text))
  }

  function Configure(s: Ap, r: Request): (t: Ap)
    requires Shape(s) && ValidRequest(r)
    requires InRange(s.alloc.ifs)
    ensures Shape(t)
  {
    var k := Choose(s.alloc, r);
    var claimed := Claim(s.alloc, r);
    if k == |s.alloc.ifs| then s.(alloc := claimed)
    else
      var b := r.bss;
      var tx := if IsTransmitter(b) then s.tx[b.band := Some(k)] else s.tx;
      Filed(Ap(AssignAll(claimed, r.owe), tx, s.first, s.files), k, b, Text(s, r, k))
  }

  /** stop_ap_handler and the AP reset: the interfaces are released, the files stay. */
  function Reset(s: Ap): (t: Ap)
    ensures Shape(t) && (InRange(s.alloc.ifs) ==> InRange(t.alloc.ifs))
  {
    var none := seq(BANDS, _ => None);
    Ap(Clear(s.alloc), none, none, s.files)
  }

  /** Which BSS a request is about: one with an identifier says so itself, in its bits; one with a mode
      only means number 1 on band 2 (6 GHz), 1 (5 GHz) or 0. */
  lemma DecodedBss(p: Packet)
    requires Decode(p).Some?
    ensures var r := Decode(p).value;
            && r.body == p.body && |r.owe| == |p.owe|
            && (p.bssIdentifier.Some? ==>
                 var v, b := p.bssIdentifier.value, r.bss;
                 r.named && v % 1024 == b.band + 16 * b.identifier + 256 * b.mbssidEnable + 512 * b.transmitter)
            && (p.bssIdentifier.None? ==>
                 && !r.named && r.bss.identifier == 1 && r.bss.mbssidEnable == 0 && r.bss.transmitter == 0
                 && r.bss.band == if p.sixGOnly then 2
                                  else if p.hwMode.value != "" && p.hwMode.value[0] == 'a' then 1 else 0)
            && forall i :: 0 <= i < |p.owe| ==>
                 var v, b := p.owe[i], r.owe[i];
                 v % 1024 == b.band + 16 * b.identifier + 256 * b.mbssidEnable + 512 * b.transmitter
  {
    forall i | 0 <= i < |p.owe| ensures Decode(p).value.owe[i] == ParseBssIdentifier(p.owe[i]) {
    }
  }

  // ---------- what was configured ----------

  /** What was configured on a band since the reset. */
  datatype Done = Done(k: nat, bss: BssInfo, text: string, body: string)

  type History = seq<seq<Done>>

  function Concat(ds: seq<Done>): string {
    if ds == [] then "" else Concat(ds[..|ds| - 1]) + ds[|ds| - 1].text
  }

  predicate InRange(x: Table) {
    forall i :: 0 <= i < |x| ==> 0 <= x[i].band < BANDS
  }

  function Record(s: Ap, h: History, r: Request): (g: History)
    requires Shape(s) && ValidRequest(r) && |h| == BANDS && InRange(s.alloc.ifs)
    ensures |g| == BANDS
  {
    var k := Choose(s.alloc, r);
    if k == |s.alloc.ifs| then h
    else h[r.bss.band := h[r.bss.band] + [Done(k, r.bss, Text(s, r, k), r.body)]]
  }

  predicate IsTransmitter(b: BssInfo) {
    b.mbssidEnable != 0 && b.transmitter != 0
  }

  predicate NonTransmitting(b: BssInfo) {
    b.mbssidEnable != 0 && b.transmitter == 0
  }

  /** The band's current transmitter. */
  function LastTransmitter(ds: seq<Done>): Option<nat> {
    if ds == [] then None
    else if IsTransmitter(ds[|ds| - 1].bss) then Some(ds[|ds| - 1].k)
    else LastTransmitter(ds[..|ds| - 1])
  }

  /** The band's first BSS is a transmitter and no later one is. */
  predicate TransmitterLeads(ds: seq<Done>) {
    ds != [] && IsTransmitter(ds[0].bss) && forall i :: 0 < i < |ds| ==> !IsTransmitter(ds[i].bss)
  }

  /** The first BSS of the band started a file and still names it: it was not configured again. */
  predicate HasFile(ds: seq<Done>) {
    ds != [] && !NonTransmitting(ds[0].bss) && forall i :: 0 < i < |ds| ==> ds[i].k != ds[0].k
  }

  // ---------- the rules for a run ----------

  /** An interface that an OWE TLV reserved, and that now opens its band, was reserved with the same
      identifier value, as far as it says whether the BSS is transmitting. */
  predicate Consistent(s: Ap, h: History, r: Request)
    requires Shape(s) && ValidRequest(r) && |h| == BANDS
  {
    var k := Choose(s.alloc, r);
    k < |s.alloc.ifs| && h[r.bss.band] == [] && Used(s.alloc.ifs[k]) ==>
      (NonTransmitting(r.bss) <==> s.alloc.ifs[k].mbssidEnable != 0 && s.alloc.ifs[k].transmitter == 0)
  }

  /** The request opens its band with an interface whose name is that of the first interface of
      band c, which has a file. */
  predicate Clashes(s: Ap, h: History, r: Request, c: int)
    requires Shape(s) && ValidRequest(r) && |h| == BANDS && 0 <= c < BANDS
  {
    var k := Choose(s.alloc, r);
    && k < |s.alloc.ifs| && c != r.bss.band
    && h[r.bss.band] == [] && !NonTransmitting(r.bss)
    && HasFile(h[c]) && h[c][0].k < |s.alloc.ifs| && s.alloc.ifs[h[c][0].k].ifname == s.alloc.ifs[k].ifname
  }

  /** A non-transmitting BSS comes behind the band's one transmitter, which leads the band. */
  predicate Behind(ds: seq<Done>, b: BssInfo) {
    NonTransmitting(b) ==> TransmitterLeads(ds)
  }

  /** The first interfaces of bands with files have different names.  A BSS may be configured any
      number of times. */
  predicate Orderly(s: Ap, h: History, r: Request)
    requires Shape(s) && ValidRequest(r) && |h| == BANDS
  {
    Consistent(s, h, r) && forall c :: 0 <= c < BANDS ==> !Clashes(s, h, r, c)
  }

  /** The request configures again the BSS that leads its band. */
  predicate Repeats(s: Ap, h: History, r: Request)
    requires Shape(s) && ValidRequest(r) && |h| == BANDS
  {
    h[r.bss.band] != [] && Choose(s.alloc, r) == h[r.bss.band][0].k
  }

  /** The request costs this band its file: it configures a non-transmitting BSS without a
      transmitter to stand behind, or again the BSS that leads the band. */
  predicate Spoils(s: Ap, h: History, r: Request, band: int)
    requires Shape(s) && ValidRequest(r) && |h| == BANDS && 0 <= band < BANDS
  {
    && r.bss.band == band && Choose(s.alloc, r) < |s.alloc.ifs|
    && (!Behind(h[band], r.bss) || Repeats(s, h, r))
  }

  // ---------- the invariant ----------

  /** The interface has been configured. */
  predicate IsDone(ds: seq<Done>, k: nat) {
    exists i :: 0 <= i < |ds| && ds[i].k == k
  }

  /** The bookkeeping of one band, which holds whether or not the rule about transmitters is kept. */
  ghost predicate Band(s: Ap, ds: seq<Done>, band: int)
    requires Shape(s) && 0 <= band < BANDS
  {
    && Members(s.alloc.ifs, ds, band)
    && s.first[band] == (if ds == [] then None else Some(ds[0].k))
    && s.tx[band] == LastTransmitter(ds)
    // the first BSS names the file, if there is one
    && (ds != [] ==> OwnPath(s, ds))
  }

  /** The BSSes have their interfaces; all but the first section continue a file, and the interface
      of such a section has no path of its own. */
  ghost predicate Members(x: Table, ds: seq<Done>, band: int) {
    && (forall i :: 0 <= i < |ds| ==> ds[i].k < |x| && Serves(x[ds[i].k], band, ds[i].bss.identifier))
    && (forall i :: 0 < i < |ds| ==> x[ds[i].k].confFile == "" && ds[i].text == Head(x[ds[i].k].ifname, true) + ds[i].body)
  }

  ghost predicate OwnPath(s: Ap, ds: seq<Done>)
    requires ds != [] && ds[0].k < |s.alloc.ifs|
  {
    var x := s.alloc.ifs[ds[0].k];
    if HasFile(ds) then
      && x.confFile == ConfPath(x.ifname) && ds[0].text == Head(x.ifname, false) + ds[0].body
      && x.confFile in s.files && |s.files[x.confFile]| <= |Concat(ds)|
    else x.confFile == ""
  }

  /** The band's first interface names a file that is the concatenation, in order, of all texts
      configured on the band. */
  predicate Complete(s: Ap, ds: seq<Done>) {
    ds != [] ==>
      && HasFile(ds) && ds[0].k < |s.alloc.ifs|
      && var path := ConfPath(s.alloc.ifs[ds[0].k].ifname);
         path in s.files && s.files[path] == Concat(ds)
  }

  /** The first interfaces of bands with files have different names. */
  ghost predicate Apart(s: Ap, h: History)
    requires |h| == BANDS
  {
    forall b, c :: 0 <= b < BANDS && 0 <= c < BANDS && b != c && HasFile(h[b]) && HasFile(h[c]) ==>
      Differ(s, h[b][0].k, h[c][0].k)
  }

  predicate Differ(s: Ap, i: nat, j: nat) {
    i < |s.alloc.ifs| && j < |s.alloc.ifs| && s.alloc.ifs[i].ifname != s.alloc.ifs[j].ifname
  }

  ghost predicate Inv(s: Ap, h: History) {
    && Shape(s) && |h| == BANDS && InRange(s.alloc.ifs)
    && (forall b :: 0 <= b < BANDS ==> Band(s, h[b], b))
    && Apart(s, h)
    // an interface that is only reserved still has its own path
    && (forall i :: 0 <= i < |s.alloc.ifs| && Used(s.alloc.ifs[i]) && !IsDone(h[s.alloc.ifs[i].band], i) ==>
         s.alloc.ifs[i].confFile == ConfPath(s.alloc.ifs[i].ifname))
  }

  // ---------- assignments only take free interfaces ----------

  predicate GrowsAt(x: Interface, y: Interface) {
    || y == x
    || (!Used(x) && Used(y) && y.band == x.band && y.ifname == x.ifname && y.confFile == ConfPath(x.ifname))
  }

  predicate Grows(x: Table, y: Table) {
    |x| == |y| && forall i :: 0 <= i < |x| ==> GrowsAt(x[i], y[i])
  }

  lemma AssignGrows(a: Alloc, b: BssInfo)
    requires |a.cnt| == BANDS && ValidBss(b)
    ensures Grows(a.ifs, Assign(a, b).ifs) && Grows(a.ifs, FindOrAssign(a, b).ifs)
  {
  }

  lemma GrowsTrans(x: Table, y: Table, z: Table)
    requires Grows(x, y) && Grows(y, z)
    ensures Grows(x, z)
  {
    forall i | 0 <= i < |x| ensures GrowsAt(x[i], z[i]) {
      assert GrowsAt(x[i], y[i]) && GrowsAt(y[i], z[i]);
    }
  }

  lemma {:induction false} AssignAllGrows(a: Alloc, bs: seq<BssInfo>)
    requires |a.cnt| == BANDS && forall i :: 0 <= i < |bs| ==> ValidBss(bs[i])
    ensures Grows(a.ifs, AssignAll(a, bs).ifs)
    decreases |bs|
  {
    if bs != [] {
      AssignGrows(a, bs[0]);
      AssignAllGrows(FindOrAssign(a, bs[0]), bs[1..]);
      GrowsTrans(a.ifs, FindOrAssign(a, bs[0]).ifs, AssignAll(a, bs).ifs);
    }
  }

  /** The BSS has an interface, or its band has none to give. */
  ghost predicate ServedOrFull(x: Table, b: BssInfo) {
    (exists k :: 0 <= k < |x| && Serves(x[k], b.band, b.identifier)) ||
    (forall k :: 0 <= k < |x| && x[k].band == b.band ==> Used(x[k]))
  }

  lemma ServedStays(x: Table, y: Table, b: BssInfo)
    requires Grows(x, y) && ServedOrFull(x, b)
    ensures ServedOrFull(y, b)
  {
    if k :| 0 <= k < |x| && Serves(x[k], b.band, b.identifier) {
      assert GrowsAt(x[k], y[k]) && Serves(y[k], b.band, b.identifier);
    } else {
      forall k | 0 <= k < |y| && y[k].band == b.band ensures Used(y[k]) {
        assert GrowsAt(x[k], y[k]);
      }
    }
  }

  lemma AssignServes(a: Alloc, b: BssInfo)
    requires |a.cnt| == BANDS && ValidBss(b)
    ensures ServedOrFull(FindOrAssign(a, b).ifs, b)
  {
    var f, k := Find(a.ifs, b.band, b.identifier), FreeIndex(a.ifs, b.band);
    var y := FindOrAssign(a, b).ifs;
    if f < |a.ifs| {
      assert Serves(y[f], b.band, b.identifier);
    } else if k < |a.ifs| {
      assert Serves(y[k], b.band, b.identifier);
    }
  }

  lemma {:induction false} AllServed(a: Alloc, bs: seq<BssInfo>, i: nat)
    requires |a.cnt| == BANDS && i < |bs| && forall i :: 0 <= i < |bs| ==> ValidBss(bs[i])
    ensures ServedOrFull(AssignAll(a, bs).ifs, bs[i])
    decreases |bs|
  {
    if i == 0 {
      AssignServes(a, bs[0]);
      AssignAllGrows(FindOrAssign(a, bs[0]), bs[1..]);
      ServedStays(FindOrAssign(a, bs[0]).ifs, AssignAll(a, bs).ifs, bs[0]);
    } else {
      AllServed(FindOrAssign(a, bs[0]), bs[1..], i - 1);
    }
  }

  /** Filing changes no more than a path. */
  lemma FiledServes(s: Ap, k: nat, b: BssInfo, text: string, c: BssInfo)
    requires Shape(s) && ValidBss(b) && k < |s.alloc.ifs| && ServedOrFull(s.alloc.ifs, c)
    ensures ServedOrFull(Filed(s, k, b, text).alloc.ifs, c)
  {
    var x, y := s.alloc.ifs, Filed(s, k, b, text).alloc.ifs;
    assert forall i :: 0 <= i < |x| ==> y[i].(confFile := "") == x[i].(confFile := "");
    if i :| 0 <= i < |x| && Serves(x[i], c.band, c.identifier) {
      assert Serves(y[i], c.band, c.identifier);
    }
  }

  /** After a request every BSS its OWE transition TLVs name has an interface, or its band is full. */
  lemma OweServed(s: Ap, r: Request, i: nat)
    requires Shape(s) && InRange(s.alloc.ifs) && ValidRequest(r) && Choose(s.alloc, r) < |s.alloc.ifs| && i < |r.owe|
    ensures ServedOrFull(Configure(s, r).alloc.ifs, r.owe[i])
  {
    AllServed(Claim(s.alloc, r), r.owe, i);
    var k := Choose(s.alloc, r);
    AssignGrows(s.alloc, r.bss);
    assert GrowsAt(s.alloc.ifs[k], Claim(s.alloc, r).ifs[k]);
    var tx := if IsTransmitter(r.bss) then s.tx[r.bss.band := Some(k)] else s.tx;
    FiledServes(Ap(AssignAll(Claim(s.alloc, r), r.owe), tx, s.first, s.files), k, r.bss, Text(s, r, k), r.owe[i]);
  }

  /** The table in which a request's section is filed. */
  function After(s: Ap, r: Request): (y: Table)
    requires Shape(s) && ValidRequest(r)
    ensures |y| == |s.alloc.ifs|
  {
    AssignAll(Claim(s.alloc, r), r.owe).ifs
  }

  lemma AfterGrows(s: Ap, r: Request)
    requires Shape(s) && ValidRequest(r)
    ensures Grows(s.alloc.ifs, Claim(s.alloc, r).ifs) && Grows(Claim(s.alloc, r).ifs, After(s, r))
    ensures Grows(s.alloc.ifs, After(s, r))
  {
    AssignGrows(s.alloc, r.bss);
    AssignAllGrows(Claim(s.alloc, r), r.owe);
    GrowsTrans(s.alloc.ifs, Claim(s.alloc, r).ifs, After(s, r));
  }

  lemma ClaimFacts(s: Ap, h: History, r: Request)
    requires Inv(s, h) && ValidRequest(r) && Consistent(s, h, r) && Choose(s.alloc, r) < |s.alloc.ifs|
    ensures var k, y := Choose(s.alloc, r), After(s, r);
            && y[k] == Claim(s.alloc, r).ifs[k] && y[k].ifname == s.alloc.ifs[k].ifname
            && Serves(y[k], r.bss.band, r.bss.identifier)
            && (!Used(s.alloc.ifs[k]) ==> y[k].confFile == ConfPath(y[k].ifname))
            && (h[r.bss.band] == [] ==>
                 (NonTransmitting(r.bss) <==> y[k].mbssidEnable != 0 && y[k].transmitter == 0))
  {
    var k := Choose(s.alloc, r);
    AfterGrows(s, r);
    assert GrowsAt(Claim(s.alloc, r).ifs[k], After(s, r)[k]) && GrowsAt(s.alloc.ifs[k], After(s, r)[k]);
  }

  lemma Unassigned(s: Ap, r: Request)
    requires Shape(s) && ValidRequest(r) && Choose(s.alloc, r) == |s.alloc.ifs|
    ensures Claim(s.alloc, r) == s.alloc
  {
  }

  /** The interfaces that were configured keep their records, and one that opens a band has its
      own path. */
  lemma Kept(s: Ap, h: History, r: Request)
    requires Inv(s, h) && ValidRequest(r) && Consistent(s, h, r) && Choose(s.alloc, r) < |s.alloc.ifs|
    ensures var k, y := Choose(s.alloc, r), After(s, r);
            && (h[r.bss.band] == [] ==> y[k].confFile == ConfPath(y[k].ifname))
            && forall b, i :: 0 <= b < BANDS && 0 <= i < |h[b]| ==>
                 && h[b][i].k < |s.alloc.ifs| && y[h[b][i].k] == s.alloc.ifs[h[b][i].k]
                 && (b != r.bss.band ==> h[b][i].k != k)
  {
    var k, x, y := Choose(s.alloc, r), s.alloc.ifs, After(s, r);
    ClaimFacts(s, h, r);
    AfterGrows(s, r);
    assert GrowsAt(x[k], y[k]);
    forall b, i | 0 <= b < BANDS && 0 <= i < |h[b]|
      ensures h[b][i].k < |x| && y[h[b][i].k] == x[h[b][i].k] && (b != r.bss.band ==> h[b][i].k != k)
    {
      assert Band(s, h[b], b);
      assert Serves(x[h[b][i].k], b, h[b][i].bss.identifier) && GrowsAt(x[h[b][i].k], y[h[b][i].k]);
    }
  }

  // ---------- one request: the files ----------

  lemma {:induction false} LastTransmitterIsDone(ds: seq<Done>) returns (i: nat)
    requires LastTransmitter(ds).Some?
    ensures i < |ds| && IsTransmitter(ds[i].bss) && LastTransmitter(ds) == Some(ds[i].k)
    ensures forall j :: i < j < |ds| ==> !IsTransmitter(ds[j].bss)
  {
    if IsTransmitter(ds[|ds| - 1].bss) {
      i := |ds| - 1;
    } else {
      i := LastTransmitterIsDone(ds[..|ds| - 1]);
    }
  }

  lemma {:induction false} NoTransmitter(ds: seq<Done>)
    requires LastTransmitter(ds).None?
    ensures forall j :: 0 <= j < |ds| ==> !IsTransmitter(ds[j].bss)
  {
    if ds != [] {
      NoTransmitter(ds[..|ds| - 1]);
    }
  }

  /** Where a non-transmitting BSS is appended: to the band's file if there is one and its one
      transmitter leads the band, and nowhere otherwise. */
  lemma TransmitterPath(s: Ap, ds: seq<Done>, band: int)
    requires Shape(s) && 0 <= band < BANDS && Band(s, ds, band) && s.tx[band].Some?
    ensures s.alloc.ifs[s.tx[band].value].confFile ==
            if HasFile(ds) && TransmitterLeads(ds) then ConfPath(s.alloc.ifs[ds[0].k].ifname) else ""
  {
    var i := LastTransmitterIsDone(ds);
  }

  lemma LeadIsCurrent(s: Ap, ds: seq<Done>, band: int)
    requires Shape(s) && 0 <= band < BANDS && Band(s, ds, band) && TransmitterLeads(ds)
    ensures s.tx[band].Some?
  {
    if s.tx[band].None? {
      NoTransmitter(ds);
    }
  }

  lemma FileOf(s: Ap, h: History, b: int)
    requires Inv(s, h) && 0 <= b < BANDS && HasFile(h[b])
    ensures h[b][0].k < |s.alloc.ifs|
    ensures var x := s.alloc.ifs[h[b][0].k]; x.confFile == ConfPath(x.ifname) && x.confFile in s.files
  {
    assert Band(s, h[b], b);
  }

  /** The path a band's texts go to. */
  function BandPath(s: Ap, h: History, r: Request): string
    requires Shape(s) && ValidRequest(r) && |h| == BANDS && Choose(s.alloc, r) < |s.alloc.ifs|
  {
    var ds := h[r.bss.band];
    var i := if ds == [] || ds[0].k >= |s.alloc.ifs| then Choose(s.alloc, r) else ds[0].k;
    ConfPath(s.alloc.ifs[i].ifname)
  }

  /** The three filing branches, as read off the code. */
  lemma FilesShape(s: Ap, r: Request)
    requires Shape(s) && ValidRequest(r) && InRange(s.alloc.ifs) && Choose(s.alloc, r) < |s.alloc.ifs|
    ensures var k, y, band := Choose(s.alloc, r), After(s, r), r.bss.band;
            Configure(s, r).files ==
            if NonTransmitting(r.bss) then
              (if s.tx[band].Some? then AppendFile(s.files, y[s.tx[band].value].confFile, Text(s, r, k)) else s.files)
            else if s.first[band].Some? then AppendFile(s.files, y[s.first[band].value].confFile, Text(s, r, k))
            else WriteFile(s.files, y[k].confFile, Text(s, r, k))
  {
  }

  lemma StrayFiles(s: Ap, h: History, r: Request)
    requires Inv(s, h) && ValidRequest(r) && Consistent(s, h, r) && Choose(s.alloc, r) < |s.alloc.ifs|
    requires NonTransmitting(r.bss)
    ensures var ds, p, text := h[r.bss.band], BandPath(s, h, r), Text(s, r, Choose(s.alloc, r));
            && (HasFile(ds) ==> p in s.files)
            && Configure(s, r).files ==
               if HasFile(ds) && TransmitterLeads(ds) then s.files[p := s.files[p] + text] else s.files
  {
    var band, ds := r.bss.band, h[r.bss.band];
    FilesShape(s, r);
    Kept(s, h, r);
    assert Band(s, ds, band);
    if s.tx[band].Some? {
      TransmitterPath(s, ds, band);
      var i := LastTransmitterIsDone(ds);
      assert After(s, r)[ds[i].k] == s.alloc.ifs[ds[i].k];
    } else if TransmitterLeads(ds) {
      LeadIsCurrent(s, ds, band);
    }
  }

  lemma OrdinaryFiles(s: Ap, h: History, r: Request)
    requires Inv(s, h) && ValidRequest(r) && Consistent(s, h, r) && Choose(s.alloc, r) < |s.alloc.ifs|
    requires !NonTransmitting(r.bss)
    ensures var ds, p, text := h[r.bss.band], BandPath(s, h, r), Text(s, r, Choose(s.alloc, r));
            && (HasFile(ds) ==> p in s.files)
            && Configure(s, r).files ==
               if ds == [] then s.files[p := text]
               else if HasFile(ds) then s.files[p := s.files[p] + text]
               else s.files
  {
    var k, y, ds := Choose(s.alloc, r), After(s, r), h[r.bss.band];
    FilesShape(s, r);
    Kept(s, h, r);
    assert Band(s, ds, r.bss.band);
    if ds == [] {
      ClaimFacts(s, h, r);
      assert y[k].confFile == BandPath(s, h, r) != "";
    } else {
      assert y[ds[0].k] == s.alloc.ifs[ds[0].k];
    }
  }

  /** All that a request does to the files. */
  lemma FilesStep(s: Ap, h: History, r: Request)
    requires Inv(s, h) && ValidRequest(r) && Consistent(s, h, r) && Choose(s.alloc, r) < |s.alloc.ifs|
    ensures var ds, p, text := h[r.bss.band], BandPath(s, h, r), Text(s, r, Choose(s.alloc, r));
            && (HasFile(ds) ==> p in s.files)
            && Configure(s, r).files ==
               if ds == [] then (if NonTransmitting(r.bss) then s.files else s.files[p := text])
               else if HasFile(ds) && Behind(ds, r.bss) then s.files[p := s.files[p] + text]
               else s.files
  {
    if HasFile(h[r.bss.band]) {
      FileOf(s, h, r.bss.band);
    }
    if NonTransmitting(r.bss) {
      StrayFiles(s, h, r);
    } else {
      OrdinaryFiles(s, h, r);
    }
  }

  // ---------- one request: table, pointers and text ----------

  lemma TableStep(s: Ap, h: History, r: Request)
    requires Inv(s, h) && ValidRequest(r) && Consistent(s, h, r) && Choose(s.alloc, r) < |s.alloc.ifs|
    ensures var k, y, band, t := Choose(s.alloc, r), After(s, r), r.bss.band, Configure(s, r);
            && t.alloc.ifs == (if h[band] == [] && !NonTransmitting(r.bss) then y else y[k := y[k].(confFile := "")])
            && t.first == (if h[band] == [] then s.first[band := Some(k)] else s.first)
            && t.tx == (if IsTransmitter(r.bss) then s.tx[band := Some(k)] else s.tx)
  {
    assert Band(s, h[r.bss.band], r.bss.band);
  }

  /** The section says bss= unless it opens the band as something other than a non-transmitting BSS. */
  lemma TextStep(s: Ap, h: History, r: Request)
    requires Inv(s, h) && ValidRequest(r) && Consistent(s, h, r) && Choose(s.alloc, r) < |s.alloc.ifs|
    ensures var k := Choose(s.alloc, r);
            var name, extra := s.alloc.ifs[k].ifname, h[r.bss.band] != [] || NonTransmitting(r.bss);
            && Text(s, r, k) == Head(name, extra) + r.body
            && ('\n' !in name ==>
                 Lines(Text(s, r, k)) ==
                   (if extra then ["bss=" + name, "ctrl_interface=/var/run/hostapd"]
                    else ["ctrl_interface=/var/run/hostapd", "ctrl_interface_group=0", "interface=" + name]) +
                   Lines(r.body))
  {
    ClaimFacts(s, h, r);
    assert Band(s, h[r.bss.band], r.bss.band);
    var name := s.alloc.ifs[Choose(s.alloc, r)].ifname;
    if '\n' !in name {
      SectionLines(name, h[r.bss.band] != [] || NonTransmitting(r.bss), r.body);
    }
  }

  lemma BandStarts(t: Ap, d: Done, band: int)
    requires Shape(t) && 0 <= band < BANDS && d.k < |t.alloc.ifs|
    requires Serves(t.alloc.ifs[d.k], band, d.bss.identifier)
    requires t.first[band] == Some(d.k) && t.tx[band] == if IsTransmitter(d.bss) then Some(d.k) else None
    requires var x := t.alloc.ifs[d.k];
             if NonTransmitting(d.bss) then x.confFile == ""
             else x.confFile == ConfPath(x.ifname) && d.text == Head(x.ifname, false) + d.body &&
                  x.confFile in t.files && t.files[x.confFile] == d.text
    ensures Band(t, [d], band) && (Complete(t, [d]) <==> !NonTransmitting(d.bss))
  {
    assert [d][..0] == [] && Concat([d]) == "" + d.text;
  }

  lemma LastOf(ds: seq<Done>, d: Done)
    ensures Concat(ds + [d]) == Concat(ds) + d.text
    ensures LastTransmitter(ds + [d]) == if IsTransmitter(d.bss) then Some(d.k) else LastTransmitter(ds)
    ensures ds != [] ==> (HasFile(ds + [d]) <==> HasFile(ds) && d.k != ds[0].k)
    ensures |ds + [d]| == |ds| + 1 && (ds + [d])[|ds|] == d && forall i :: 0 <= i < |ds| ==> (ds + [d])[i] == ds[i]
  {
    var es := ds + [d];
    assert es[..|es| - 1] == ds;
  }

  /** Interface k keeps its record, but for its path if it is the one configured now. */
  predicate Cleared(x: Table, y: Table, k: nat, chosen: nat) {
    k < |x| == |y| && y[k] == if k == chosen then x[k].(confFile := "") else x[k]
  }

  lemma BandContinues(s: Ap, t: Ap, ds: seq<Done>, d: Done, band: int)
    requires Shape(s) && Shape(t) && 0 <= band < BANDS && Band(s, ds, band) && ds != []
    requires |s.alloc.ifs| == |t.alloc.ifs| && s.first[band] == t.first[band]
    requires t.tx[band] == if IsTransmitter(d.bss) then Some(d.k) else s.tx[band]
    requires forall i :: 0 <= i < |ds| ==> Cleared(s.alloc.ifs, t.alloc.ifs, ds[i].k, d.k)
    requires d.k < |t.alloc.ifs| && Serves(t.alloc.ifs[d.k], band, d.bss.identifier)
    requires t.alloc.ifs[d.k].confFile == "" && d.text == Head(t.alloc.ifs[d.k].ifname, true) + d.body
    requires HasFile(ds) ==> var p := s.alloc.ifs[ds[0].k].confFile;
               p in t.files && |t.files[p]| <= |s.files[p]| + |d.text|
    ensures Band(t, ds + [d], band)
  {
    LastOf(ds, d);
    MembersContinue(s.alloc.ifs, t.alloc.ifs, ds, d, band);
  }

  lemma MembersContinue(x: Table, y: Table, ds: seq<Done>, d: Done, band: int)
    requires |x| == |y| && Members(x, ds, band) && ds != []
    requires forall i :: 0 <= i < |ds| ==> Cleared(x, y, ds[i].k, d.k)
    requires d.k < |y| && Serves(y[d.k], band, d.bss.identifier)
    requires y[d.k].confFile == "" && d.text == Head(y[d.k].ifname, true) + d.body
    ensures Members(y, ds + [d], band)
  {
    var es := ds + [d];
    forall i | 0 <= i < |es| ensures es[i] == if i < |ds| then ds[i] else d {
    }
  }

  /** Appending keeps a complete file complete and repairs nothing; losing a text, or the path,
      loses it for good. */
  lemma CompleteContinues(s: Ap, t: Ap, ds: seq<Done>, d: Done, band: int, kept: bool)
    requires Shape(s) && 0 <= band < BANDS && Band(s, ds, band) && ds != [] && d.text != ""
    requires Cleared(s.alloc.ifs, t.alloc.ifs, ds[0].k, d.k)
    requires HasFile(ds) ==> var p := s.alloc.ifs[ds[0].k].confFile;
               p in t.files && t.files[p] == if kept then s.files[p] + d.text else s.files[p]
    ensures Complete(t, ds + [d]) <==> Complete(s, ds) && kept && d.k != ds[0].k
  {
    LastOf(ds, d);
    if HasFile(ds) {
      var p := s.alloc.ifs[ds[0].k].confFile;
      if kept {
        SameFront(s.files[p], Concat(ds), d.text);
      }
    }
  }

  lemma SameFront(a: string, b: string, c: string)
    ensures a + c == b + c <==> a == b
  {
    if a + c == b + c {
      assert |a + c| == |a| + |c| && |b + c| == |b| + |c|;
      assert a == (a + c)[..|a|] && b == (b + c)[..|b|];
    }
  }

  // ---------- one request: its own band ----------

  lemma OpensBand(s: Ap, h: History, r: Request)
    requires Inv(s, h) && ValidRequest(r) && Consistent(s, h, r) && Choose(s.alloc, r) < |s.alloc.ifs|
    requires h[r.bss.band] == []
    ensures var t, d := Configure(s, r), Done(Choose(s.alloc, r), r.bss, Text(s, r, Choose(s.alloc, r)), r.body);
            Band(t, [d], r.bss.band) && (Complete(t, [d]) <==> !NonTransmitting(r.bss))
  {
    var k := Choose(s.alloc, r);
    ClaimFacts(s, h, r);
    Kept(s, h, r);
    TableStep(s, h, r);
    TextStep(s, h, r);
    FilesStep(s, h, r);
    assert Band(s, h[r.bss.band], r.bss.band);
    BandStarts(Configure(s, r), Done(k, r.bss, Text(s, r, k), r.body), r.bss.band);
  }

  /** The table of a continuing request, at the interfaces that matter. */
  lemma ContinuesTable(s: Ap, h: History, r: Request)
    requires Inv(s, h) && ValidRequest(r) && Consistent(s, h, r) && Choose(s.alloc, r) < |s.alloc.ifs|
    requires h[r.bss.band] != []
    ensures var t, ds, k := Configure(s, r), h[r.bss.band], Choose(s.alloc, r);
            && |t.alloc.ifs| == |s.alloc.ifs|
            && (forall i :: 0 <= i < |ds| ==> Cleared(s.alloc.ifs, t.alloc.ifs, ds[i].k, k))
            && Serves(t.alloc.ifs[k], r.bss.band, r.bss.identifier) && t.alloc.ifs[k].confFile == ""
            && t.alloc.ifs[k].ifname == s.alloc.ifs[k].ifname
  {
    ClaimFacts(s, h, r);
    Kept(s, h, r);
    TableStep(s, h, r);
  }

  /** The file of a continuing request's band. */
  lemma ContinuesFiles(s: Ap, h: History, r: Request)
    requires Inv(s, h) && ValidRequest(r) && Consistent(s, h, r) && Choose(s.alloc, r) < |s.alloc.ifs|
    requires HasFile(h[r.bss.band])
    ensures var t, ds, text := Configure(s, r), h[r.bss.band], Text(s, r, Choose(s.alloc, r));
            && ds[0].k < |s.alloc.ifs|
            && var p := s.alloc.ifs[ds[0].k].confFile;
               p in s.files && p in t.files &&
               t.files[p] == if Behind(ds, r.bss) then s.files[p] + text else s.files[p]
  {
    FilesStep(s, h, r);
    assert Band(s, h[r.bss.band], r.bss.band);
  }

  lemma ContinuesBand(s: Ap, h: History, r: Request)
    requires Inv(s, h) && ValidRequest(r) && Consistent(s, h, r) && Choose(s.alloc, r) < |s.alloc.ifs|
    requires h[r.bss.band] != []
    ensures var t, ds, k := Configure(s, r), h[r.bss.band], Choose(s.alloc, r);
            var d := Done(k, r.bss, Text(s, r, k), r.body);
            && Band(t, ds + [d], r.bss.band)
            && (Complete(t, ds + [d]) <==> Complete(s, ds) && Behind(ds, r.bss) && d.k != ds[0].k)
  {
    var k, ds, band, t := Choose(s.alloc, r), h[r.bss.band], r.bss.band, Configure(s, r);
    var d := Done(k, r.bss, Text(s, r, k), r.body);
    ContinuesTable(s, h, r);
    TextStep(s, h, r);
    if HasFile(ds) {
      ContinuesFiles(s, h, r);
    }
    assert Band(s, ds, band);
    assert t.first[band] == s.first[band] && t.tx[band] == (if IsTransmitter(d.bss) then Some(k) else s.tx[band]) by {
      TableStep(s, h, r);
    }
    BandContinues(s, t, ds, d, band);
    CompleteContinues(s, t, ds, d, band, Behind(ds, r.bss));
  }

  lemma RecordStep(s: Ap, h: History, r: Request)
    requires Shape(s) && ValidRequest(r) && |h| == BANDS && InRange(s.alloc.ifs) && Choose(s.alloc, r) < |s.alloc.ifs|
    ensures var k, g: History := Choose(s.alloc, r), Record(s, h, r);
            && g[r.bss.band] == h[r.bss.band] + [Done(k, r.bss, Text(s, r, k), r.body)]
            && forall c :: 0 <= c < BANDS && c != r.bss.band ==> g[c] == h[c]
  {
  }

  /** What a request may do to its own band's file, exactly: the file is complete afterwards if and
      only if it was complete, the BSS, if non-transmitting, stands behind the one transmitter that
      leads the band, and the request does not configure again the BSS that leads the band.  A
      transmitter that comes late, or a repeat of any other BSS, is harmless by itself. */
  lemma FileRuleIsExact(s: Ap, h: History, r: Request)
    requires Inv(s, h) && ValidRequest(r) && Consistent(s, h, r) && Choose(s.alloc, r) < |s.alloc.ifs|
    ensures var t, g: History, band := Configure(s, r), Record(s, h, r), r.bss.band;
            && Band(t, g[band], band)
            && (Complete(t, g[band]) <==> Complete(s, h[band]) && Behind(h[band], r.bss) && !Repeats(s, h, r))
  {
    RecordStep(s, h, r);
    var d := Done(Choose(s.alloc, r), r.bss, Text(s, r, Choose(s.alloc, r)), r.body);
    if h[r.bss.band] == [] {
      OpensBand(s, h, r);
      assert [] + [d] == [d];
    } else {
      ContinuesBand(s, h, r);
    }
  }

  // ---------- one request: the other bands ----------

  /** A band that a request leaves alone, as far as the bookkeeping goes. */
  lemma BandStays(s: Ap, t: Ap, ds: seq<Done>, band: int)
    requires Shape(s) && Shape(t) && 0 <= band < BANDS && Band(s, ds, band)
    requires |s.alloc.ifs| == |t.alloc.ifs| && s.tx[band] == t.tx[band] && s.first[band] == t.first[band]
    requires forall i :: 0 <= i < |ds| ==> t.alloc.ifs[ds[i].k] == s.alloc.ifs[ds[i].k]
    requires HasFile(ds) ==> var p := s.alloc.ifs[ds[0].k].confFile; p in t.files && t.files[p] == s.files[p]
    ensures Band(t, ds, band) && (Complete(t, ds) <==> Complete(s, ds))
  {
  }

  lemma OtherTable(s: Ap, h: History, r: Request, c: int)
    requires Inv(s, h) && ValidRequest(r) && Consistent(s, h, r) && Choose(s.alloc, r) < |s.alloc.ifs|
    requires 0 <= c < BANDS && c != r.bss.band
    ensures var t := Configure(s, r);
            && |t.alloc.ifs| == |s.alloc.ifs| && t.tx[c] == s.tx[c] && t.first[c] == s.first[c]
            && forall i :: 0 <= i < |h[c]| ==>
                 h[c][i].k < |s.alloc.ifs| && t.alloc.ifs[h[c][i].k] == s.alloc.ifs[h[c][i].k]
  {
    Kept(s, h, r);
    TableStep(s, h, r);
  }

  lemma ConfPathDistinct(m: string, n: string)
    requires m != n
    ensures ConfPath(m) != ConfPath(n)
  {
    var p, q := "/etc/hostapd/hostapd_", ".conf";
    if |m| == |n| {
      var i :| 0 <= i < |m| && m[i] != n[i];
      assert ConfPath(m)[|p| + i] == m[i] && ConfPath(n)[|p| + i] == n[i];
    } else {
      assert |ConfPath(m)| == |p| + |m| + |q| && |ConfPath(n)| == |p| + |n| + |q|;
    }
  }

  /** A request that writes a file writes under another name than band c's, unless it clashes. */
  lemma OtherPath(s: Ap, h: History, r: Request, c: int)
    requires Inv(s, h) && ValidRequest(r) && Consistent(s, h, r) && Choose(s.alloc, r) < |s.alloc.ifs|
    requires 0 <= c < BANDS && c != r.bss.band && HasFile(h[c]) && !Clashes(s, h, r, c)
    requires HasFile(h[r.bss.band]) || (h[r.bss.band] == [] && !NonTransmitting(r.bss))
    ensures h[c][0].k < |s.alloc.ifs|
    ensures BandPath(s, h, r) != ConfPath(s.alloc.ifs[h[c][0].k].ifname)
  {
    var ds := h[r.bss.band];
    assert Band(s, h[c], c) && Band(s, ds, r.bss.band);
    var i := if ds == [] then Choose(s.alloc, r) else ds[0].k;
    assert Differ(s, i, h[c][0].k);
    ConfPathDistinct(s.alloc.ifs[i].ifname, s.alloc.ifs[h[c][0].k].ifname);
  }

  /** A request touches at most its own band's path. */
  lemma FilesElsewhere(s: Ap, h: History, r: Request, q: string)
    requires Inv(s, h) && ValidRequest(r) && Consistent(s, h, r) && Choose(s.alloc, r) < |s.alloc.ifs|
    requires q in s.files
    ensures var t, ds := Configure(s, r), h[r.bss.band];
            (HasFile(ds) || (ds == [] && !NonTransmitting(r.bss)) ==> q != BandPath(s, h, r)) ==>
              q in t.files && t.files[q] == s.files[q]
  {
    FilesStep(s, h, r);
    TouchesOne(s.files, Configure(s, r).files, BandPath(s, h, r), q);
  }

  lemma TouchesOne(m: map<string, string>, n: map<string, string>, p: string, q: string)
    requires q in m && (n == m || (p in n && n == m[p := n[p]]))
    ensures q in n && (n[q] == m[q] || (q == p && n != m))
  {
  }

  /** Without a clash of names another band's file is not touched. */
  lemma OtherFile(s: Ap, h: History, r: Request, c: int)
    requires Inv(s, h) && ValidRequest(r) && Consistent(s, h, r) && Choose(s.alloc, r) < |s.alloc.ifs|
    requires 0 <= c < BANDS && c != r.bss.band && HasFile(h[c]) && !Clashes(s, h, r, c)
    ensures h[c][0].k < |s.alloc.ifs|
    ensures var p, t := s.alloc.ifs[h[c][0].k].confFile, Configure(s, r);
            p in s.files && p in t.files && t.files[p] == s.files[p]
  {
    var ds := h[r.bss.band];
    FileOf(s, h, c);
    FilesElsewhere(s, h, r, s.alloc.ifs[h[c][0].k].confFile);
    if HasFile(ds) || (ds == [] && !NonTransmitting(r.bss)) {
      OtherPath(s, h, r, c);
    }
  }

  lemma OtherBands(s: Ap, h: History, r: Request, c: int)
    requires Inv(s, h) && ValidRequest(r) && Consistent(s, h, r) && Choose(s.alloc, r) < |s.alloc.ifs|
    requires 0 <= c < BANDS && c != r.bss.band && !Clashes(s, h, r, c)
    ensures Band(Configure(s, r), h[c], c)
    ensures Complete(Configure(s, r), h[c]) <==> Complete(s, h[c])
  {
    OtherTable(s, h, r, c);
    if HasFile(h[c]) {
      OtherFile(s, h, r, c);
    }
    assert Band(s, h[c], c);
    BandStays(s, Configure(s, r), h[c], c);
  }

  /** The rule about names is exact: a request leaves the complete file of another band
      complete if and only if it does not open its own band under the name of that band's first
      interface, or writes just what the file holds. */
  lemma NameRuleIsExact(s: Ap, h: History, r: Request, c: int)
    requires Inv(s, h) && ValidRequest(r) && Consistent(s, h, r) && Choose(s.alloc, r) < |s.alloc.ifs|
    requires 0 <= c < BANDS && c != r.bss.band && HasFile(h[c]) && Complete(s, h[c])
    ensures Complete(Configure(s, r), h[c]) <==>
            !Clashes(s, h, r, c) || Text(s, r, Choose(s.alloc, r)) == Concat(h[c])
  {
    if Clashes(s, h, r, c) {
      FilesStep(s, h, r);
      OtherTable(s, h, r, c);
    } else {
      OtherBands(s, h, r, c);
    }
  }

  // ---------- one request: the invariant ----------

  /** Which interface names a band's file after a request. */
  lemma FirstAfter(s: Ap, h: History, r: Request, b: int)
    requires Inv(s, h) && ValidRequest(r) && Consistent(s, h, r) && Choose(s.alloc, r) < |s.alloc.ifs|
    requires 0 <= b < BANDS && HasFile(Record(s, h, r)[b])
    ensures var k, i := Choose(s.alloc, r), Record(s, h, r)[b][0].k;
            && i < |s.alloc.ifs|
            && if HasFile(h[b]) then i == h[b][0].k
               else i == k && b == r.bss.band && h[b] == [] && !NonTransmitting(r.bss)
  {
    RecordStep(s, h, r);
    assert Band(s, h[b], b);
    LastOf(h[b], Done(Choose(s.alloc, r), r.bss, Text(s, r, Choose(s.alloc, r)), r.body));
  }

  lemma ApartStep(s: Ap, h: History, r: Request)
    requires Inv(s, h) && ValidRequest(r) && Orderly(s, h, r) && Choose(s.alloc, r) < |s.alloc.ifs|
    ensures Apart(Configure(s, r), Record(s, h, r))
  {
    var t, g: History := Configure(s, r), Record(s, h, r);
    SameNamesStep(s, r);
    forall b, c | 0 <= b < BANDS && 0 <= c < BANDS && b != c && HasFile(g[b]) && HasFile(g[c])
      ensures Differ(t, g[b][0].k, g[c][0].k)
    {
      ApartPair(s, h, r, b, c);
    }
  }

  lemma ApartPair(s: Ap, h: History, r: Request, b: int, c: int)
    requires Inv(s, h) && ValidRequest(r) && Orderly(s, h, r) && Choose(s.alloc, r) < |s.alloc.ifs|
    requires 0 <= b < BANDS && 0 <= c < BANDS && b != c
    requires var g: History := Record(s, h, r); HasFile(g[b]) && HasFile(g[c])
    ensures var g: History := Record(s, h, r); Differ(s, g[b][0].k, g[c][0].k)
  {
    FirstAfter(s, h, r, b);
    FirstAfter(s, h, r, c);
    assert !Clashes(s, h, r, b) && !Clashes(s, h, r, c);
  }

  lemma ReservedStep(s: Ap, h: History, r: Request, i: nat)
    requires Inv(s, h) && ValidRequest(r) && Consistent(s, h, r) && Choose(s.alloc, r) < |s.alloc.ifs|
    requires var t, g: History := Configure(s, r).alloc.ifs, Record(s, h, r);
             i < |t| && Used(t[i]) && 0 <= t[i].band < BANDS && !IsDone(g[t[i].band], i)
    ensures var t := Configure(s, r).alloc.ifs; t[i].confFile == ConfPath(t[i].ifname)
  {
    var k, x, y, g: History := Choose(s.alloc, r), s.alloc.ifs, After(s, r), Record(s, h, r);
    ClaimFacts(s, h, r);
    AfterGrows(s, r);
    TableStep(s, h, r);
    RecordStep(s, h, r);
    assert GrowsAt(x[i], y[i]);
    DoneStays(h[r.bss.band], Done(k, r.bss, Text(s, r, k), r.body), i);
  }

  lemma DoneStays(ds: seq<Done>, d: Done, i: nat)
    ensures IsDone(ds, i) ==> IsDone(ds + [d], i)
    ensures IsDone(ds + [d], d.k)
  {
    var es := ds + [d];
    assert es[|ds|].k == d.k;
    forall j | 0 <= j < |ds| ensures es[j] == ds[j] {
    }
  }

  /** An orderly request keeps the invariant, whether or not it costs a band its file. */
  lemma ConfigureInv(s: Ap, h: History, r: Request)
    requires Inv(s, h) && ValidRequest(r) && Orderly(s, h, r)
    ensures Inv(Configure(s, r), Record(s, h, r))
  {
    if Choose(s.alloc, r) == |s.alloc.ifs| {
      Unassigned(s, r);
    } else {
      var t, g: History := Configure(s, r), Record(s, h, r);
      SameNamesStep(s, r);
      RecordStep(s, h, r);
      forall c | 0 <= c < BANDS ensures Band(t, g[c], c) {
        if c == r.bss.band {
          FileRuleIsExact(s, h, r);
        } else {
          OtherBands(s, h, r, c);
        }
      }
      ApartStep(s, h, r);
      forall i | 0 <= i < |t.alloc.ifs| && Used(t.alloc.ifs[i]) && !IsDone(g[t.alloc.ifs[i].band], i)
        ensures t.alloc.ifs[i].confFile == ConfPath(t.alloc.ifs[i].ifname)
      {
        ReservedStep(s, h, r, i);
      }
    }
  }

  /** What an orderly request does to the completeness of any band's file. */
  lemma CompleteStep(s: Ap, h: History, r: Request, c: int)
    requires Inv(s, h) && ValidRequest(r) && Orderly(s, h, r) && 0 <= c < BANDS
    ensures Complete(Configure(s, r), Record(s, h, r)[c]) <==> Complete(s, h[c]) && !Spoils(s, h, r, c)
  {
    if Choose(s.alloc, r) == |s.alloc.ifs| {
      Unassigned(s, r);
    } else if c == r.bss.band {
      FileRuleIsExact(s, h, r);
    } else {
      RecordStep(s, h, r);
      OtherBands(s, h, r, c);
    }
  }

  // ---------- whole runs ----------

  /** The interfaces of a table keep their names and bands. */
  predicate SameNames(x: Table, y: Table) {
    |x| == |y| && forall i :: 0 <= i < |x| ==> x[i].ifname == y[i].ifname && x[i].band == y[i].band
  }

  lemma FiledKeepsNames(s: Ap, k: nat, b: BssInfo, text: string)
    requires Shape(s) && ValidBss(b) && k < |s.alloc.ifs|
    ensures SameNames(s.alloc.ifs, Filed(s, k, b, text).alloc.ifs)
  {
  }

  lemma GrowsKeepsNames(x: Table, y: Table)
    requires Grows(x, y)
    ensures SameNames(x, y)
  {
    forall i | 0 <= i < |x| ensures x[i].ifname == y[i].ifname && x[i].band == y[i].band {
      assert GrowsAt(x[i], y[i]);
    }
  }

  lemma SameNamesTrans(x: Table, y: Table, z: Table)
    requires SameNames(x, y) && SameNames(y, z)
    ensures SameNames(x, z) && (InRange(x) ==> InRange(z))
  {
  }

  lemma SameNamesStep(s: Ap, r: Request)
    requires Shape(s) && ValidRequest(r) && InRange(s.alloc.ifs)
    ensures SameNames(s.alloc.ifs, Configure(s, r).alloc.ifs) && InRange(Configure(s, r).alloc.ifs)
  {
    var x, claimed, k := s.alloc.ifs, Claim(s.alloc, r), Choose(s.alloc, r);
    AfterGrows(s, r);
    GrowsKeepsNames(x, claimed.ifs);
    SameNamesTrans(x, claimed.ifs, claimed.ifs);
    if k < |x| {
      var y := After(s, r);
      GrowsKeepsNames(x, y);
      var tx := if IsTransmitter(r.bss) then s.tx[r.bss.band := Some(k)] else s.tx;
      FiledKeepsNames(Ap(AssignAll(claimed, r.owe), tx, s.first, s.files), k, r.bss, Text(s, r, k));
      SameNamesTrans(x, y, Configure(s, r).alloc.ifs);
    }
  }

  ghost function Run(s: Ap, h: History, rs: seq<Request>): (r: (Ap, History))
    requires Shape(s) && InRange(s.alloc.ifs) && |h| == BANDS
    requires forall i :: 0 <= i < |rs| ==> ValidRequest(rs[i])
    ensures Shape(r.0) && |r.1| == BANDS
    decreases |rs|
  {
    if rs == [] then (s, h)
    else
      SameNamesStep(s, rs[0]);
      Run(Configure(s, rs[0]), Record(s, h, rs[0]), rs[1..])
  }

  ghost predicate OrderlyRun(s: Ap, h: History, rs: seq<Request>)
    requires Shape(s) && InRange(s.alloc.ifs) && |h| == BANDS
    requires forall i :: 0 <= i < |rs| ==> ValidRequest(rs[i])
    decreases |rs|
  {
    rs == [] ||
    (Orderly(s, h, rs[0]) &&
     (SameNamesStep(s, rs[0]); OrderlyRun(Configure(s, rs[0]), Record(s, h, rs[0]), rs[1..])))
  }

  /** No request of the run costs this band its file. */
  ghost predicate NoneSpoils(s: Ap, h: History, rs: seq<Request>, band: int)
    requires Shape(s) && InRange(s.alloc.ifs) && |h| == BANDS && 0 <= band < BANDS
    requires forall i :: 0 <= i < |rs| ==> ValidRequest(rs[i])
    decreases |rs|
  {
    rs == [] ||
    (!Spoils(s, h, rs[0], band) &&
     (SameNamesStep(s, rs[0]); NoneSpoils(Configure(s, rs[0]), Record(s, h, rs[0]), rs[1..], band)))
  }

  lemma {:induction false} RunInv(s: Ap, h: History, rs: seq<Request>)
    requires Inv(s, h) && (forall i :: 0 <= i < |rs| ==> ValidRequest(rs[i])) && OrderlyRun(s, h, rs)
    ensures Inv(Run(s, h, rs).0, Run(s, h, rs).1)
    decreases |rs|
  {
    if rs == [] {
    } else {
      ConfigureInv(s, h, rs[0]);
      RunInv(Configure(s, rs[0]), Record(s, h, rs[0]), rs[1..]);
    }
  }

  /** Over an orderly run, repeats included, a band's file ends complete if and only if it was
      complete and no request of the run costs the band its file: the first one that does loses it
      for good. */
  lemma {:induction false} RunCompleteExactly(s: Ap, h: History, rs: seq<Request>, band: int)
    requires Inv(s, h) && (forall i :: 0 <= i < |rs| ==> ValidRequest(rs[i])) && OrderlyRun(s, h, rs)
    requires 0 <= band < BANDS
    ensures Complete(Run(s, h, rs).0, Run(s, h, rs).1[band]) <==> Complete(s, h[band]) && NoneSpoils(s, h, rs, band)
    decreases |rs|
  {
    if rs == [] {
    } else {
      var t, g := Configure(s, rs[0]), Record(s, h, rs[0]);
      ConfigureInv(s, h, rs[0]);
      CompleteStep(s, h, rs[0], band);
      RunCompleteExactly(t, g, rs[1..], band);
    }
  }

  const NO_HISTORY: History := seq(BANDS, _ => [])

  lemma ResetInv(s: Ap)
    requires InRange(s.alloc.ifs)
    ensures Inv(Reset(s), NO_HISTORY)
  {
  }

  /** What the files of a band should look like. */
  ghost predicate OneFile(t: Ap, ds: seq<Done>, band: int)
    requires Shape(t) && 0 <= band < BANDS
  {
    ds != [] ==>
      && (forall i :: 0 <= i < |ds| ==> ds[i].k < |t.alloc.ifs| && Serves(t.alloc.ifs[ds[i].k], band, ds[i].bss.identifier))
      && var x := t.alloc.ifs[ds[0].k];
         && x.confFile == "/etc/hostapd/hostapd_" + x.ifname + ".conf"
         && x.confFile in t.files && t.files[x.confFile] == Concat(ds)
         && ds[0].text == Head(x.ifname, false) + ds[0].body
         && forall i :: 0 < i < |ds| ==>
              t.alloc.ifs[ds[i].k].confFile == "" && ds[i].text == Head(t.alloc.ifs[ds[i].k].ifname, true) + ds[i].body
  }

  lemma OneFileIsComplete(t: Ap, ds: seq<Done>, band: int)
    requires Shape(t) && 0 <= band < BANDS && Band(t, ds, band)
    ensures OneFile(t, ds, band) <==> Complete(t, ds)
  {
    if ds != [] && NonTransmitting(ds[0].bss) {
      assert ConfPath(t.alloc.ifs[ds[0].k].ifname) != "";
    }
  }

  /** From any state, reset and then configure BSSes, each any number of times, the first interfaces
      of the bands having different names.  A band then has nothing, or one file that is the
      concatenation, in order, of all texts configured on it, the first of which opens an interface=
      section and every later one a bss= section, and no interface but the first has a path; if and
      only if no non-transmitting BSS of the band was configured without the one transmitter leading
      it, and the BSS that leads the band was not configured again. */
  lemma FilesAfterRun(s: Ap, rs: seq<Request>, band: int)
    requires InRange(s.alloc.ifs) && 0 <= band < BANDS
    requires forall i :: 0 <= i < |rs| ==> ValidRequest(rs[i])
    requires OrderlyRun(Reset(s), NO_HISTORY, rs)
    ensures var (t, h) := Run(Reset(s), NO_HISTORY, rs);
            OneFile(t, h[band], band) <==> NoneSpoils(Reset(s), NO_HISTORY, rs, band)
  {
    ResetInv(s);
    RunInv(Reset(s), NO_HISTORY, rs);
    RunCompleteExactly(Reset(s), NO_HISTORY, rs, band);
    var (t, h) := Run(Reset(s), NO_HISTORY, rs);
    OneFileIsComplete(t, h[band], band);
  }

  // ---------- the lines of a band's file ----------

  /** Whole lines, none of which says what the head of a section says. */
  predicate Plain(body: string) {
    && Whole(body)
    && NoneHas(Lines(body), "interface=") && NoneHas(Lines(body), "bss=") && NoneHas(Lines(body), "ctrl_interface=")
  }

  /** The lines of one section that start with each of the three keys. */
  lemma SectionKeys(name: string, extra: bool, body: string)
    requires '\n' !in name && Plain(body)
    ensures var ls := Lines(Head(name, extra) + body);
            && WithKey(ls, "interface=") == (if extra then [] else ["interface=" + name])
            && WithKey(ls, "bss=") == (if extra then ["bss=" + name] else [])
            && WithKey(ls, "ctrl_interface=") == ["ctrl_interface=/var/run/hostapd"]
    ensures Whole(Head(name, extra) + body)
  {
    SectionLines(name, extra, body);
    KeyBehindHead(name, extra, body, "interface=");
    KeyBehindHead(name, extra, body, "bss=");
    KeyBehindHead(name, extra, body, "ctrl_interface=");
    ExtraKeys(name);
    FirstKeys(name);
  }

  function HeadLines(name: string, extra: bool): seq<string> {
    if extra then ["bss=" + name, CTRL_LINE] else [CTRL_LINE, GROUP_LINE, "interface=" + name]
  }

  lemma KeyBehindHead(name: string, extra: bool, body: string, key: string)
    requires '\n' !in name && NoneHas(Lines(body), key)
    ensures WithKey(Lines(Head(name, extra) + body), key) == WithKey(HeadLines(name, extra), key)
  {
    SectionLines(name, extra, body);
    WithKeyConcat(HeadLines(name, extra), Lines(body), key);
    WithKeyNone(Lines(body), key);
  }

  lemma ExtraPrefixes(name: string)
    ensures "bss=" <= "bss=" + name && !("interface=" <= "bss=" + name) && !("ctrl_interface=" <= "bss=" + name)
  {
    assert ("bss=" + name)[0] == 'b';
  }

  lemma FirstPrefixes(name: string)
    ensures "interface=" <= "interface=" + name
    ensures !("bss=" <= "interface=" + name) && !("ctrl_interface=" <= "interface=" + name)
  {
    assert ("interface=" + name)[0] == 'i';
  }

  lemma CtrlPrefixes()
    ensures !("bss=" <= CTRL_LINE) && !("interface=" <= CTRL_LINE) && "ctrl_interface=" <= CTRL_LINE
    ensures !("bss=" <= GROUP_LINE) && !("interface=" <= GROUP_LINE) && !("ctrl_interface=" <= GROUP_LINE)
  {
    assert CTRL_LINE[0] == 'c' && GROUP_LINE[0] == 'c' && GROUP_LINE[14] == '_';
  }

  lemma ExtraKeys(name: string)
    ensures var e := HeadLines(name, true);
            && WithKey(e, "interface=") == [] && WithKey(e, "bss=") == ["bss=" + name]
            && WithKey(e, "ctrl_interface=") == [CTRL_LINE]
  {
    ExtraPrefixes(name);
    CtrlPrefixes();
    KeyOfTwo("bss=" + name, CTRL_LINE, "interface=");
    KeyOfTwo("bss=" + name, CTRL_LINE, "bss=");
    KeyOfTwo("bss=" + name, CTRL_LINE, "ctrl_interface=");
  }

  lemma FirstKeys(name: string)
    ensures var f := HeadLines(name, false);
            && WithKey(f, "interface=") == ["interface=" + name] && WithKey(f, "bss=") == []
            && WithKey(f, "ctrl_interface=") == [CTRL_LINE]
  {
    FirstPrefixes(name);
    CtrlPrefixes();
    KeyOfThree(CTRL_LINE, GROUP_LINE, "interface=" + name, "interface=");
    KeyOfThree(CTRL_LINE, GROUP_LINE, "interface=" + name, "bss=");
    KeyOfThree(CTRL_LINE, GROUP_LINE, "interface=" + name, "ctrl_interface=");
  }

  /** What the sections of a file say: the first stands for its interface, each later one for a
      further BSS. */
  ghost predicate Sections(x: Table, ds: seq<Done>) {
    && (forall i :: 0 <= i < |ds| ==> ds[i].k < |x| && '\n' !in x[ds[i].k].ifname && Plain(ds[i].body))
    && (forall i :: 0 <= i < |ds| ==> ds[i].text == Head(x[ds[i].k].ifname, i > 0) + ds[i].body)
  }

  /** The names behind the first one, with "bss=" in front. */
  function BssLines(x: Table, ds: seq<Done>): (r: seq<string>)
    requires forall i :: 0 <= i < |ds| ==> ds[i].k < |x|
    ensures |r| == if ds == [] then 0 else |ds| - 1
    ensures forall i :: 0 < i < |ds| ==> r[i - 1] == "bss=" + x[ds[i].k].ifname
  {
    if |ds| <= 1 then [] else BssLines(x, ds[..|ds| - 1]) + ["bss=" + x[ds[|ds| - 1].k].ifname]
  }

  /** What a text says under the three keys. */
  ghost predicate Says(file: string, first: string, later: seq<string>, n: nat) {
    && Whole(file)
    && WithKey(Lines(file), "interface=") == [first]
    && WithKey(Lines(file), "bss=") == later
    && |WithKey(Lines(file), "ctrl_interface=")| == n
  }

  lemma {:induction false} FileKeys(x: Table, ds: seq<Done>)
    requires ds != [] && Sections(x, ds)
    ensures Says(Concat(ds), "interface=" + x[ds[0].k].ifname, BssLines(x, ds), |ds|)
  {
    var front, last := ds[..|ds| - 1], ds[|ds| - 1];
    SectionKeys(x[last.k].ifname, |ds| > 1, last.body);
    if front == [] {
      assert Concat(ds) == last.text;
    } else {
      FileKeys(x, front);
      OneMoreSays(Concat(front), last.text, "interface=" + x[ds[0].k].ifname, BssLines(x, front), |front|,
                  "bss=" + x[last.k].ifname);
    }
  }

  lemma OneMoreSays(file: string, text: string, first: string, later: seq<string>, n: nat, line: string)
    requires Says(file, first, later, n) && Whole(text)
    requires WithKey(Lines(text), "interface=") == [] && WithKey(Lines(text), "bss=") == [line]
    requires |WithKey(Lines(text), "ctrl_interface=")| == 1
    ensures Says(file + text, first, later + [line], n + 1)
  {
    OneMoreSection(file, text, "interface=");
    OneMoreSection(file, text, "bss=");
    OneMoreSection(file, text, "ctrl_interface=");
  }

  lemma OneMoreSection(file: string, text: string, key: string)
    requires Whole(file) && Whole(text)
    ensures Whole(file + text) && WithKey(Lines(file + text), key) == WithKey(Lines(file), key) + WithKey(Lines(text), key)
  {
    LinesConcat(file, text);
    WithKeyConcat(Lines(file), Lines(text), key);
  }

  ghost predicate PlainBodies(h: History) {
    forall b :: 0 <= b < |h| ==> forall i :: 0 <= i < |h[b]| ==> Plain(h[b][i].body)
  }

  lemma {:induction false} BodiesAlong(s: Ap, h: History, rs: seq<Request>)
    requires Shape(s) && InRange(s.alloc.ifs) && |h| == BANDS
    requires forall i :: 0 <= i < |rs| ==> ValidRequest(rs[i]) && Plain(rs[i].body)
    requires PlainBodies(h)
    ensures PlainBodies(Run(s, h, rs).1) && SameNames(s.alloc.ifs, Run(s, h, rs).0.alloc.ifs)
    decreases |rs|
  {
    if rs == [] {
    } else {
      SameNamesStep(s, rs[0]);
      var t, g := Configure(s, rs[0]), Record(s, h, rs[0]);
      BodiesAlong(t, g, rs[1..]);
      SameNamesTrans(s.alloc.ifs, t.alloc.ifs, Run(t, g, rs[1..]).0.alloc.ifs);
    }
  }

  /** The band's file, named after its first interface: exactly one line says interface= and names
      that interface, the lines that say bss= name the interfaces of the later sections, in order, and
      each section has one control line. */
  ghost predicate FileSays(t: Ap, ds: seq<Done>, band: int) {
    var x := t.alloc.ifs;
    ds != [] ==>
      && (forall i :: 0 <= i < |ds| ==> ds[i].k < |x| && Serves(x[ds[i].k], band, ds[i].bss.identifier))
      && var path := "/etc/hostapd/hostapd_" + x[ds[0].k].ifname + ".conf";
         && x[ds[0].k].confFile == path && path in t.files
         && var ls := Lines(t.files[path]);
            && WithKey(ls, "interface=") == ["interface=" + x[ds[0].k].ifname]
            && WithKey(ls, "bss=") == seq(|ds| - 1, i requires 0 <= i < |ds| - 1 => "bss=" + x[ds[i + 1].k].ifname)
            && |WithKey(ls, "ctrl_interface=")| == |ds|
  }

  lemma OneFileSays(t: Ap, ds: seq<Done>, band: int)
    requires Shape(t) && 0 <= band < BANDS && OneFile(t, ds, band) && PlainNames(t.alloc.ifs)
    requires forall i :: 0 <= i < |ds| ==> Plain(ds[i].body)
    ensures FileSays(t, ds, band)
  {
    if ds != [] {
      OneFileSections(t, ds, band);
      FileKeys(t.alloc.ifs, ds);
      BssLinesAre(t.alloc.ifs, ds);
    }
  }

  lemma OneFileSections(t: Ap, ds: seq<Done>, band: int)
    requires Shape(t) && 0 <= band < BANDS && OneFile(t, ds, band) && PlainNames(t.alloc.ifs)
    requires forall i :: 0 <= i < |ds| ==> Plain(ds[i].body)
    ensures Sections(t.alloc.ifs, ds)
  {
  }

  lemma BssLinesAre(x: Table, ds: seq<Done>)
    requires ds != [] && forall i :: 0 <= i < |ds| ==> ds[i].k < |x|
    ensures BssLines(x, ds) == seq(|ds| - 1, i requires 0 <= i < |ds| - 1 => "bss=" + x[ds[i + 1].k].ifname)
  {
  }

  predicate PlainNames(x: Table) {
    forall i :: 0 <= i < |x| ==> '\n' !in x[i].ifname
  }

  lemma NamesStayPlain(x: Table, y: Table)
    requires PlainNames(x) && SameNames(x, y)
    ensures PlainNames(y)
  {
  }

  /** What hostapd reads: from any state, reset and then configure BSSes whose bodies do not repeat
      the head.  While no request costs a band its file, the file says what it should. */
  lemma FileLinesAfterRun(s: Ap, rs: seq<Request>, band: int)
    requires InRange(s.alloc.ifs) && 0 <= band < BANDS && PlainNames(s.alloc.ifs)
    requires forall i :: 0 <= i < |rs| ==> ValidRequest(rs[i]) && Plain(rs[i].body)
    requires OrderlyRun(Reset(s), NO_HISTORY, rs) && NoneSpoils(Reset(s), NO_HISTORY, rs, band)
    ensures var (t, h) := Run(Reset(s), NO_HISTORY, rs); FileSays(t, h[band], band)
  {
    FilesAfterRun(s, rs, band);
    BodiesAlong(Reset(s), NO_HISTORY, rs);
    var (t, h) := Run(Reset(s), NO_HISTORY, rs);
    NamesStayPlain(Reset(s).alloc.ifs, t.alloc.ifs);
    OneFileSays(t, h[band], band);
  }

  /** The names must be distinct: with one name on two bands (the shipped default parameters are
      2:wlan0,2:wlan1,5:wlan0,5:wlan1) the second band overwrites the first band's file. */
  lemma SharedNameLosesText(name: string, b0: string, b1: string)
    ensures var unused := Interface(UNUSED_IDENTIFIER, 0, name, 0, 0, 0, "");
            var none := seq(BANDS, _ => None);
            var s := Ap(Alloc([unused, unused.(band := 1)], 0, seq(BANDS, _ => 0)), none, none, map[]);
            var r0 := Request(BssInfo(1, 0, 0, 0), true, [], b0);
            var r1 := Request(BssInfo(1, 1, 0, 0), true, [], b1);
            Configure(Configure(s, r0), r1).files == map[ConfPath(name) := Head(name, false) + b1]
  {
    var unused := Interface(UNUSED_IDENTIFIER, 0, name, 0, 0, 0, "");
    var none := seq(BANDS, _ => None);
    var s := Ap(Alloc([unused, unused.(band := 1)], 0, seq(BANDS, _ => 0)), none, none, map[]);
    var r0 := Request(BssInfo(1, 0, 0, 0), true, [], b0);
    assert s.alloc.ifs[1..] == [unused.(band := 1)];
    assert FreeIndex(s.alloc.ifs, 0) == 0;
    var s1 := Configure(s, r0);
    var u := Take(unused, r0.bss, 0);
    assert s1.alloc.ifs == [u, unused.(band := 1)];
    assert s1.alloc.ifs[1..] == [unused.(band := 1)] && s1.alloc.ifs[1..][1..] == [];
    assert FreeIndex(s1.alloc.ifs, 1) == 1;
    assert Find(s1.alloc.ifs, 1, 1) == 2;
    assert s1.files == map[ConfPath(name) := Head(name, false) + b0];
  }

  /** A table with one unused interface on band 0, after a reset. */
  function Fresh(name: string): (s: Ap)
    ensures Shape(s) && InRange(s.alloc.ifs)
  {
    var none := seq(BANDS, _ => None);
    Ap(Alloc([Interface(UNUSED_IDENTIFIER, 0, name, 0, 0, 0, "")], 0, seq(BANDS, _ => 0)), none, none, map[])
  }

  lemma FreshChoice(name: string, r: Request)
    requires ValidRequest(r) && r.bss.band == 0 && r.owe == []
    ensures Choose(Fresh(name).alloc, r) == 0
    ensures After(Fresh(name), r) == [Take(Fresh(name).alloc.ifs[0], r.bss, 0)]
  {
    var x := Fresh(name).alloc.ifs;
    assert x[1..] == [];
    assert FreeIndex(x, 0) == 0 && Find(x, 0, r.bss.identifier) == 1;
  }

  /** A non-transmitting BSS alone: its text is written nowhere and its interface has no path. */
  lemma StrayLosesText(name: string, body: string)
    ensures var r := Request(BssInfo(1, 0, 1, 0), true, [], body);
            var t := Configure(Fresh(name), r);
            t.files == map[] && |t.alloc.ifs| == 1 && t.alloc.ifs[0].confFile == ""
  {
    FreshChoice(name, Request(BssInfo(1, 0, 1, 0), true, [], body));
  }

  /** One BSS configured twice: both texts are in the file, but no interface names it any more. */
  lemma RepeatLosesPath(name: string, b0: string, b1: string)
    ensures var r0 := Request(BssInfo(1, 0, 0, 0), true, [], b0);
            var r1 := r0.(body := b1);
            var t := Configure(Configure(Fresh(name), r0), r1);
            && t.files == map[ConfPath(name) := Head(name, false) + b0 + (Head(name, true) + b1)]
            && |t.alloc.ifs| == 1 && t.alloc.ifs[0].confFile == ""
  {
    var r0 := Request(BssInfo(1, 0, 0, 0), true, [], b0);
    var r1 := r0.(body := b1);
    FreshChoice(name, r0);
    var u := Take(Fresh(name).alloc.ifs[0], r0.bss, 0);
    var s1 := Configure(Fresh(name), r0);
    assert ConfPath(name) != "";
    assert s1.alloc.ifs == [u] && s1.first[0] == Some(0) && s1.tx[0] == None;
    assert s1.files == map[ConfPath(name) := Head(name, false) + b0];
    assert Find([u], 0, 1) == 0;
    assert Choose(s1.alloc, r1) == 0 && Claim(s1.alloc, r1) == s1.alloc;
  }

  // ---------- the code ----------

  /** The globals behind AP_CONFIGURE; array indices stand for interface pointers. */
  class Configurator {
    const table: InterfaceTable
    const transmitter: array<Option<nat>>
    const firstWlan: array<Option<nat>>
    var files: map<string, string>

    ghost predicate Valid()
      reads this, table, transmitter, firstWlan, table.interfaces, table.bandCnt
    {
      table.Valid() && transmitter.Length == BANDS && firstWlan.Length == BANDS && transmitter != firstWlan && Shape(Abs())
    }

    ghost function Abs(): Ap
      reads this, table, table.interfaces, table.bandCnt, transmitter, firstWlan
    {
      Ap(table.Abs(), transmitter[..], firstWlan[..], files)
    }

    ghost function Repr(): set<object> {
      {this, table, table.interfaces, table.bandCnt, transmitter, firstWlan}
    }

    constructor (table: InterfaceTable)
      requires table.Valid()
      ensures Valid() && this.table == table && fresh(transmitter) && fresh(firstWlan)
      ensures Abs() == Ap(table.Abs(), seq(BANDS, _ => None), seq(BANDS, _ => None), map[])
    {
      this.table := table;
      transmitter := new Option<nat>[BANDS](_ => None);
      firstWlan := new Option<nat>[BANDS](_ => None);
      files := map[];
      new;
      assert transmitter[..] == seq(BANDS, _ => None) && firstWlan[..] == seq(BANDS, _ => None);
    }

    /** Look up, assign on failure; -1 if the band is full. */
    method FindOrAssignInterface(b: BssInfo) returns (k: int)
      requires Valid() && ValidBss(b)
      modifies table, table.interfaces, table.bandCnt
      ensures Valid() && table.Abs() == FindOrAssign(old(table.Abs()), b)
      ensures transmitter[..] == old(transmitter[..]) && firstWlan[..] == old(firstWlan[..]) && files == old(files)
      ensures var r := Request(b, true, [], "");
              k == if Choose(old(table.Abs()), r) < table.interfaces.Length then Choose(old(table.Abs()), r) else -1
    {
      k := table.GetInterface(b.band, b.identifier);
      if k < 0 {
        k := table.AssignInterface(b);
      }
    }

    /** The interface work of the TLV loop: one lookup or assignment per OWE transition TLV. */
    method ReserveAll(bs: seq<BssInfo>)
      requires Valid() && forall i :: 0 <= i < |bs| ==> ValidBss(bs[i])
      modifies table, table.interfaces, table.bandCnt
      ensures Valid() && table.Abs() == AssignAll(old(table.Abs()), bs)
      ensures transmitter[..] == old(transmitter[..]) && firstWlan[..] == old(firstWlan[..]) && files == old(files)
    {
      var i := 0;
      while i < |bs|
        invariant 0 <= i <= |bs| && Valid()
        invariant transmitter[..] == old(transmitter[..]) && firstWlan[..] == old(firstWlan[..]) && files == old(files)
        invariant AssignAll(table.Abs(), bs[i..]) == AssignAll(old(table.Abs()), bs)
      {
        assert bs[i..][0] == bs[i] && bs[i..][1..] == bs[i + 1..];
        var _ := FindOrAssignInterface(bs[i]);
        i := i + 1;
      }
    }

    /** write_file and append_file, with the path taken from interface `owner`. */
    method Store(owner: nat, text: string, append: bool)
      requires Valid() && owner < table.interfaces.Length
      modifies this`files
      ensures Valid()
      ensures var p := table.interfaces[owner].confFile;
              files == if append then AppendFile(old(files), p, text) else WriteFile(old(files), p, text)
    {
      var path := table.interfaces[owner].confFile;
      if path != "" {
        var was := if append && path in files then files[path] else "";
        assert "" + text == text;
        files := files[path := was + text];
      }
    }

    /** The filing branches of configure_ap_handler. */
    method FileSection(k: nat, b: BssInfo, text: string)
      requires Valid() && ValidBss(b) && k < table.interfaces.Length
      modifies this`files, table.interfaces, firstWlan
      ensures Valid() && Abs() == Filed(old(Abs()), k, b, text)
    {
      if b.mbssidEnable != 0 && b.transmitter == 0 {
        if transmitter[b.band].Some? {
          Store(transmitter[b.band].value, text, true);
        }
        table.interfaces[k] := table.interfaces[k].(confFile := "");
      } else if firstWlan[b.band].Some? {
        Store(firstWlan[b.band].value, text, true);
        table.interfaces[k] := table.interfaces[k].(confFile := "");
      } else {
        Store(k, text, false);
      }
      if firstWlan[b.band].None? {
        firstWlan[b.band] := Some(k);
      }
    }

    /** The lookup and assignment at the head of configure_ap_handler. */
    method ClaimInterface(r: Request) returns (k: int)
      requires Valid() && ValidRequest(r)
      modifies table, table.interfaces, table.bandCnt
      ensures Valid() && table.Abs() == Claim(old(table.Abs()), r)
      ensures transmitter[..] == old(transmitter[..]) && firstWlan[..] == old(firstWlan[..]) && files == old(files)
      ensures k == if Choose(old(table.Abs()), r) < table.interfaces.Length then Choose(old(table.Abs()), r) else -1
    {
      if r.named {
        k := FindOrAssignInterface(r.bss);
      } else {
        k := table.AssignInterface(r.bss);
      }
    }

    /** The head of generate_hostapd_config. */
    method SectionHead(k: nat) returns (text: string)
      requires Valid() && k < table.interfaces.Length && 0 <= table.interfaces[k].band < BANDS
      ensures text == Head(Abs().alloc.ifs[k].ifname, Extra(Abs(), Abs().alloc.ifs[k]))
    {
      var x := table.interfaces[k];
      var extra := (x.mbssidEnable != 0 && x.transmitter == 0) || firstWlan[x.band].Some?;
      text := Head(x.ifname, extra);
    }

    /** What follows the head: the transmitter, the TLV loop, the filing. */
    method FileRequest(k: nat, r: Request, text: string)
      requires Valid() && ValidRequest(r) && k < table.interfaces.Length
      modifies Repr()
      ensures Valid()
      ensures var tx := if IsTransmitter(r.bss) then old(transmitter[..])[r.bss.band := Some(k)] else old(transmitter[..]);
              Abs() == Filed(Ap(AssignAll(old(table.Abs()), r.owe), tx, old(firstWlan[..]), old(files)), k, r.bss, text)
    {
      if IsTransmitter(r.bss) {
        transmitter[r.bss.band] := Some(k);
      }
      assert table.Abs() == old(table.Abs());
      ReserveAll(r.owe);
      FileSection(k, r.bss, text);
    }

    /** configure_ap_handler for a BSS; false is the NOT_OK status. */
    method ConfigureBss(r: Request) returns (ok: bool)
      requires Valid() && ValidRequest(r)
      requires forall i :: 0 <= i < table.interfaces.Length ==> 0 <= table.interfaces[i].band < BANDS
      modifies Repr()
      ensures Valid() && Abs() == Configure(old(Abs()), r)
      ensures ok <==> Choose(old(table.Abs()), r) < table.interfaces.Length
    {
      ghost var s := Abs();
      var k := ClaimInterface(r);
      if k < 0 {
        return false;
      }
      AssignGrows(s.alloc, r.bss);
      assert GrowsAt(s.alloc.ifs[k], table.Abs().ifs[k]);
      var head := SectionHead(k);
      var text := head + r.body;
      assert text == Text(s, r, k);
      FileRequest(k, r, text);
      ok := true;
    }

    /** configure_ap_handler: without identifier and mode there is no interface to configure. */
    method ConfigureAp(p: Packet) returns (ok: bool)
      requires Valid()
      requires forall i :: 0 <= i < table.interfaces.Length ==> 0 <= table.interfaces[i].band < BANDS
      modifies Repr()
      ensures Valid() && Abs() == if Decode(p).Some? then Configure(old(Abs()), Decode(p).value) else old(Abs())
      ensures ok <==> Decode(p).Some? && Choose(old(table.Abs()), Decode(p).value) < table.interfaces.Length
    {
      var owe: seq<BssInfo> := [];
      for i := 0 to |p.owe|
        invariant |owe| == i && forall k :: 0 <= k < i ==> owe[k] == ParseBssIdentifier(p.owe[k])
      {
        owe := owe + [ParseBssIdentifier(p.owe[i])];
      }
      assert owe == seq(|p.owe|, i requires 0 <= i < |p.owe| => ParseBssIdentifier(p.owe[i]));
      ok := false;
      if p.bssIdentifier.Some? {
        ok := ConfigureBss(Request(ParseBssIdentifier(p.bssIdentifier.value), true, owe, p.body));
      } else if p.hwMode.Some? {
        var band := BAND_24GHZ;
        if p.sixGOnly {
          band := BAND_6GHZ;
        } else if "a" <= p.hwMode.value {
          band := BAND_5GHZ;
        }
        ok := ConfigureBss(Request(BssInfo(1, band, 0, 0), false, owe, p.body));
      }
    }
  }
}
