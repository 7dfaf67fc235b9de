/** The defaults that generate_hostapd_config appends behind the lines of the TLVs.

    The loop over the TLVs leaves its findings in flag variables; everything appended afterwards
    is a function of them.  The question is whether the order of the TLVs matters.  The build is
    the non-OpenWRT one with HOSTAPD_SUPPORT_MBSSID. */
module HostapdTail {
  import opened Basics
  import opened TextTlv
  import opened TextLines

  const TLV_CHANNEL := 0x0002
  const TLV_IEEE80211_AC := 0x0008
  const TLV_WPA := 0x000b
  const TLV_WPA_KEY_MGMT := 0x000c
  const TLV_IEEE80211_W := 0x0012
  const TLV_VHT_OPER_CHWIDTH := 0x0013
  const TLV_BSS_IDENTIFIER := 0x001d
  const TLV_HW_MODE := 0x001e
  const TLV_SAE_GROUPS := 0x0071
  const TLV_IEEE80211_AX := 0x0072
  const TLV_HE_OPER_CHWIDTH := 0x0073
  const TLV_HE_MU_EDCA := 0x0090
  const TLV_HE_6G_ONLY := 0x00a6
  const TLV_HE_UNSOL_PR_RESP_CADENCE := 0x00a7
  const TLV_HS20 := 0x00a9
  const TLV_HESSID := 0x00ae
  const TLV_WPS_ENABLE := 0x00cc

  // ---------- C text ----------

  function Digits(s: string, acc: int): int {
    if s != "" && '0' <= s[0] <= '9' then Digits(s[1..], 10 * acc + (s[0] as int - '0' as int)) else acc
  }

  function Atoi(s: string): int {
    if s == "" then 0
    else if s[0] == ' ' then Atoi(s[1..])
    else if s[0] == '-' then -Digits(s[1..], 0)
    else if s[0] == '+' then Digits(s[1..], 0)
    else Digits(s, 0)
  }

  function Decimal(n: nat): string {
    if n < 10 then [('0' as int + n) as char] else Decimal(n / 10) + Decimal(n % 10)
  }

  /** printf("%d"). */
  function Dec(n: int): string {
    if n < 0 then "-" + Decimal(-n) else Decimal(n)
  }

  // ---------- the loop ----------

  /** The id tables, kept abstract, and whether the vendor supplies WPS settings. */
  datatype Tables = Tables(semicolon: set<int>, profiles: set<int>, mapped: set<int>, wpsSettings: bool)

  /** The flag variables, grouped. */
  datatype Security = Security(
    hasSae: bool, hasWpa: bool, hasPmf: bool, hasOwe: bool, hasTransition: bool, hasSaeGroups: bool)

  datatype Width = Width(chwidth: int, chwidthset: bool, vhtChwidthset: bool)

  datatype Features = Features(enableAx: bool, enableAc: bool, enableMuedca: bool, enableHs20: bool)

  /** `band` is None while the C array is uninitialised. */
  datatype Flags = Flags(
    sec: Security, width: Width, feat: Features, channel: int, band: Option<string>,
    enableWps: bool, useMbss: bool, is6gOnly: bool, unsolInterval: int)

  const INITIAL := Flags(Security(false, false, false, false, false, false), Width(1, false, false),
                         Features(false, false, false, false), 0, None, false, false, false, 0)

  /** What the loop asks about a value. */
  datatype Facts = Facts(sae: bool, psk: bool, owe: bool, one: bool, two: bool, self: bool, number: int)

  function Read(value: string): Facts {
    Facts(Contains(value, "SAE"), Contains(value, "WPA-PSK"), Contains(value, "OWE"),
          Contains(value, "1"), Contains(value, "2"), Contains(value, "self"), Atoi(value))
  }

  /** The TLV is not disposed of before the flag tests: it falls through to find_tlv_config and is
      mapped. */
  predicate Passes(tables: Tables, id: int, x: Facts) {
    && id != TLV_HE_6G_ONLY && id != TLV_BSS_IDENTIFIER && id !in tables.semicolon
    && !(id == TLV_HESSID && x.self)
    && id !in tables.profiles && id != TLV_WPS_ENABLE && id in tables.mapped
  }

  predicate Reaches(tables: Tables, t: Tlv) {
    Passes(tables, t.id, Read(t.value))
  }

  /** One turn of the loop: every test looks at one id only.  (On a further BSS the channel TLV
      is disposed of early, but no flag other than `channel` hangs on that id.) */
  function Note(tables: Tables, f: Flags, t: Tlv): Flags {
    Apply(tables, f, t.id, t.value, Read(t.value))
  }

  function ApplySecurity(f: Security, id: int, x: Facts): Security {
    var keyMgmt := id == TLV_WPA_KEY_MGMT;
    Security(f.hasSae || (keyMgmt && x.sae), f.hasWpa || (id == TLV_WPA && x.two), f.hasPmf || id == TLV_IEEE80211_W,
             f.hasOwe || (keyMgmt && x.owe), f.hasTransition || (keyMgmt && x.sae && x.psk),
             f.hasSaeGroups || id == TLV_SAE_GROUPS)
  }

  function ApplyWidth(f: Width, id: int, x: Facts): Width {
    var he, vht := id == TLV_HE_OPER_CHWIDTH, id == TLV_VHT_OPER_CHWIDTH;
    Width(if he || vht then x.number else f.chwidth, f.chwidthset || he, f.vhtChwidthset || vht)
  }

  function ApplyFeatures(f: Features, id: int, x: Facts): Features {
    Features(f.enableAx || (id == TLV_IEEE80211_AX && x.one), f.enableAc || (id == TLV_IEEE80211_AC && x.one),
             f.enableMuedca || id == TLV_HE_MU_EDCA, f.enableHs20 || (id == TLV_HS20 && x.one))
  }

  function Apply(tables: Tables, f: Flags, id: int, value: string, x: Facts): Flags {
    var m := Passes(tables, id, x);
    Flags(
      if m then ApplySecurity(f.sec, id, x) else f.sec,
      if m then ApplyWidth(f.width, id, x) else f.width,
      if m then ApplyFeatures(f.feat, id, x) else f.feat,
      if id == TLV_CHANNEL then x.number else f.channel,
      if m && id == TLV_HW_MODE then Some(value) else f.band,
      f.enableWps || (id == TLV_WPS_ENABLE && id !in tables.semicolon && id !in tables.profiles && tables.wpsSettings),
      f.useMbss || id == TLV_BSS_IDENTIFIER,
      f.is6gOnly || id == TLV_HE_6G_ONLY,
      if m && id == TLV_HE_UNSOL_PR_RESP_CADENCE then x.number else f.unsolInterval)
  }

  function Scan(tables: Tables, f: Flags, ts: seq<Tlv>): Flags
    decreases |ts|
  {
    if ts == [] then f else Scan(tables, Note(tables, f, ts[0]), ts[1..])
  }

  /** The loop over the TLVs. */
  method ScanTlvs(tables: Tables, tlvs: seq<Tlv>, isMultipleBssid: bool) returns (f: Flags)
    ensures f == Scan(tables, INITIAL, tlvs)
  {
    f := INITIAL;
    var i := 0;
    while i < |tlvs|
      invariant 0 <= i <= |tlvs|
      invariant Scan(tables, f, tlvs[i..]) == Scan(tables, INITIAL, tlvs)
    {
      assert tlvs[i..][0] == tlvs[i] && tlvs[i..][1..] == tlvs[i + 1..];
      f := Turn(tables, f, tlvs[i].id, tlvs[i].value, Read(tlvs[i].value), isMultipleBssid);
      i := i + 1;
    }
  }

  /** The loop body, with `return` for `continue`: the early exits, then one test per flag. */
  method Turn(tables: Tables, f: Flags, id: int, value: string, x: Facts, isMultipleBssid: bool) returns (g: Flags)
    ensures g == Apply(tables, f, id, value, x)
  {
    g := f;
    if id == TLV_CHANNEL {
      g := g.(channel := x.number);
      if isMultipleBssid {
        return;
      }
    }
    if id == TLV_HE_6G_ONLY {
      return g.(is6gOnly := true);
    }
    if id == TLV_BSS_IDENTIFIER {
      return g.(useMbss := true);
    }
    if id in tables.semicolon || (id == TLV_HESSID && x.self) || id in tables.profiles {
      return;
    }
    if id == TLV_WPS_ENABLE {
      return if tables.wpsSettings then g.(enableWps := true) else g;
    }
    if id !in tables.mapped {
      return;
    }
    var sec := TurnSecurity(g.sec, id, x);
    var width := TurnWidth(g.width, id, x);
    var feat := TurnFeatures(g.feat, id, x);
    g := g.(sec := sec, width := width, feat := feat);
    if id == TLV_HW_MODE {
      g := g.(band := Some(value));
    }
    if id == TLV_HE_UNSOL_PR_RESP_CADENCE {
      g := g.(unsolInterval := x.number);
    }
  }

  method TurnSecurity(f: Security, id: int, x: Facts) returns (g: Security)
    ensures g == ApplySecurity(f, id, x)
  {
    g := f;
    if id == TLV_WPA_KEY_MGMT && x.sae && x.psk {
      g := g.(hasTransition := true);
    }
    if id == TLV_WPA_KEY_MGMT && x.owe {
      g := g.(hasOwe := true);
    }
    if id == TLV_WPA_KEY_MGMT && x.sae {
      g := g.(hasSae := true);
    }
    if id == TLV_WPA && x.two {
      g := g.(hasWpa := true);
    }
    if id == TLV_IEEE80211_W {
      g := g.(hasPmf := true);
    }
    if id == TLV_SAE_GROUPS {
      g := g.(hasSaeGroups := true);
    }
  }

  method TurnWidth(f: Width, id: int, x: Facts) returns (g: Width)
    ensures g == ApplyWidth(f, id, x)
  {
    g := f;
    if id == TLV_HE_OPER_CHWIDTH {
      g := g.(chwidth := x.number, chwidthset := true);
    }
    if id == TLV_VHT_OPER_CHWIDTH {
      g := g.(chwidth := x.number, vhtChwidthset := true);
    }
  }

  method TurnFeatures(f: Features, id: int, x: Facts) returns (g: Features)
    ensures g == ApplyFeatures(f, id, x)
  {
    g := f;
    if id == TLV_IEEE80211_AC && x.one {
      g := g.(enableAc := true);
    }
    if id == TLV_IEEE80211_AX && x.one {
      g := g.(enableAx := true);
    }
    if id == TLV_HE_MU_EDCA {
      g := g.(enableMuedca := true);
    }
    if id == TLV_HS20 && x.one {
      g := g.(enableHs20 := true);
    }
  }

  // ---------- what is appended ----------

  /** The channel tables of utils.c. */
  datatype Radio = Radio(
    ht40plus: int -> bool, ht40minus: int -> bool, centre: (int, int) -> int, centre6g: (int, int) -> int)

  datatype AccessCategory = BestEffort | Background | Video | Voice

  datatype EdcaItem = Aifsn | Aci | EcwMin | EcwMax | Timer

  /** The names of the appended settings. */
  datatype Key =
    | WpsRfBands | Ieee80211w | SaeRequireMfp | MultipleBssid | SaeGroups
    | HeChwidth | OpClass | HeCentre | UnsolInterval | FilsInterval | HeBssColor | Ieee80211d | CountryCode
    | HtCapab | Ieee80211h | VhtChwidth | VhtCentre | VhtCapab
    | EdcaQueue | Edca(ac: AccessCategory, item: EdcaItem)
    | Hs20Release | ManageP2p | CrossConnection | BssLoadPeriod | DeauthTimeout

  function CategoryName(ac: AccessCategory): (r: string)
    ensures |r| == 2
  {
    match ac
    case BestEffort => "be"
    case Background => "bk"
    case Video => "vi"
    case Voice => "vo"
  }

  function ItemName(item: EdcaItem): string {
    match item
    case Aifsn => "aifsn"
    case Aci => "aci"
    case EcwMin => "ecwmin"
    case EcwMax => "ecwmax"
    case Timer => "timer"
  }

  function Name(k: Key): string {
    match k
    case WpsRfBands => "wps_rf_bands"
    case Ieee80211w => "ieee80211w"
    case SaeRequireMfp => "sae_require_mfp"
    case MultipleBssid => "multiple_bssid"
    case SaeGroups => "sae_groups"
    case HeChwidth => "he_oper_chwidth"
    case OpClass => "op_class"
    case HeCentre => "he_oper_centr_freq_seg0_idx"
    case UnsolInterval => "unsol_bcast_probe_resp_interval"
    case FilsInterval => "fils_discovery_max_interval"
    case HeBssColor => "he_bss_color"
    case Ieee80211d => "ieee80211d"
    case CountryCode => "country_code"
    case HtCapab => "ht_capab"
    case Ieee80211h => "ieee80211h"
    case VhtChwidth => "vht_oper_chwidth"
    case VhtCentre => "vht_oper_centr_freq_seg0_idx"
    case VhtCapab => "vht_capab"
    case EdcaQueue => "he_mu_edca_qos_info_queue_request"
    case Edca(ac, item) => "he_mu_edca_ac_" + CategoryName(ac) + "_" + ItemName(item)
    case Hs20Release => "hs20_release"
    case ManageP2p => "manage_p2p"
    case CrossConnection => "allow_cross_connection"
    case BssLoadPeriod => "bss_load_update_period"
    case DeauthTimeout => "hs20_deauth_req_timeout"
  }

  datatype Setting = Setting(key: Key, value: string)

  /** The line of a setting. */
  function Render(s: Setting): string {
    Name(s.key) + "=" + s.value
  }

  function Rendered(ss: seq<Setting>): (ls: seq<string>)
    ensures |ls| == |ss| && forall i :: 0 <= i < |ss| ==> ls[i] == Render(ss[i])
  {
    if ss == [] then [] else [Render(ss[0])] + Rendered(ss[1..])
  }

  function If(c: bool, k: Key, value: string): seq<Setting> {
    if c then [Setting(k, value)] else []
  }

  function Wps(f: Flags, band: string): seq<Setting> {
    if !f.enableWps then []
    else if f.useMbss then [Setting(WpsRfBands, "ag")]
    else if "a" <= band then [Setting(WpsRfBands, "a")]
    else if "g" <= band then [Setting(WpsRfBands, "g")]
    else []
  }

  function Pmf(f: Flags): seq<Setting> {
    if f.sec.hasPmf then []
    else if f.sec.hasTransition then [Setting(Ieee80211w, "1")]
    else if f.sec.hasSae && f.sec.hasWpa then [Setting(Ieee80211w, "2")]
    else if f.sec.hasOwe then [Setting(Ieee80211w, "2")]
    else if f.sec.hasWpa then [Setting(Ieee80211w, "1")]
    else []
  }

  function OperatingClass(w: int): seq<Setting> {
    if w == 1 then [Setting(OpClass, "133")] else if w == 2 then [Setting(OpClass, "134")] else []
  }

  function SixGBack(f: Flags): seq<Setting> {
    If(f.unsolInterval != 0, UnsolInterval, Dec(f.unsolInterval)) + If(f.unsolInterval == 0, FilsInterval, "20")
    + [Setting(HeBssColor, "19")] + [Setting(Ieee80211d, "1")] + [Setting(CountryCode, "US")]
  }

  function SixG(f: Flags, radio: Radio, width: int): seq<Setting> {
    If(!f.width.chwidthset, HeChwidth, Dec(width)) + OperatingClass(width)
    + [Setting(HeCentre, Dec(radio.centre6g(f.channel, width)))] + SixGBack(f)
  }

  function Side(f: Flags, radio: Radio): seq<Setting> {
    if radio.ht40plus(f.channel) then [Setting(HtCapab, "[HT40+]")]
    else if radio.ht40minus(f.channel) then [Setting(HtCapab, "[HT40-]")] else []
  }

  /** The settings of a width above 0. */
  function WideFront(width: int): seq<Setting> {
    If(width == 2, Ieee80211d, "1") + If(width == 2, CountryCode, "US") + If(width == 2, Ieee80211h, "1")
  }

  function WideBack(f: Flags, width: int, centre: int): seq<Setting> {
    If(f.feat.enableAc && !f.width.vhtChwidthset, VhtChwidth, Dec(width)) + If(f.feat.enableAc, VhtCentre, Dec(centre))
    + If(f.feat.enableAc && width == 2, VhtCapab, "[VHT160]")
    + If(f.feat.enableAx && !f.width.chwidthset, HeChwidth, Dec(width)) + If(f.feat.enableAx, HeCentre, Dec(centre))
  }

  /** Without an HT40 side there is no width. */
  function SideWidth(f: Flags, radio: Radio, width: int): int {
    if radio.ht40plus(f.channel) || radio.ht40minus(f.channel) then width else 0
  }

  function FiveG(f: Flags, radio: Radio, width0: int): seq<Setting> {
    var width := SideWidth(f, radio, width0);
    if width > 0 then Side(f, radio) + WideFront(width) + WideBack(f, width, radio.centre(f.channel, width))
    else Side(f, radio)
  }

  /** Without 11ac and 11ax there is no width. */
  function BaseWidth(f: Flags): int {
    if f.feat.enableAc || f.feat.enableAx then f.width.chwidth else 0
  }

  /** The settings of channel width and centre frequency. */
  function WidthSettings(f: Flags, radio: Radio): seq<Setting>
    requires f.band.Some?
  {
    if f.is6gOnly then SixG(f, radio, BaseWidth(f))
    else if Contains(f.band.value, "a") then FiveG(f, radio, BaseWidth(f))
    else []
  }

  function FrontSettings(f: Flags, transmitter: bool): seq<Setting>
    requires f.band.Some?
  {
    Wps(f, f.band.value) + Pmf(f)
    + If(f.sec.hasSae, SaeRequireMfp, "1") + If(transmitter, MultipleBssid, "1")
    + If(f.sec.hasSae && !f.sec.hasSaeGroups, SaeGroups, "15 16 17 18 19 20 21")
  }

  const EDCA_BE := [
    Setting(EdcaQueue, "1"), Setting(Edca(BestEffort, Aifsn), "0"),
    Setting(Edca(BestEffort, EcwMin), "15"), Setting(Edca(BestEffort, EcwMax), "15"),
    Setting(Edca(BestEffort, Timer), "255")]

  const EDCA_BK := [
    Setting(Edca(Background, Aifsn), "0"), Setting(Edca(Background, Aci), "1"),
    Setting(Edca(Background, EcwMin), "15"), Setting(Edca(Background, EcwMax), "15"),
    Setting(Edca(Background, Timer), "255")]

  const EDCA_VI := [
    Setting(Edca(Video, EcwMin), "15"), Setting(Edca(Video, EcwMax), "15"), Setting(Edca(Video, Aifsn), "0"),
    Setting(Edca(Video, Aci), "2"), Setting(Edca(Video, Timer), "255")]

  const EDCA_VO := [
    Setting(Edca(Voice, Aifsn), "0"), Setting(Edca(Voice, Aci), "3"),
    Setting(Edca(Voice, EcwMin), "15"), Setting(Edca(Voice, EcwMax), "15"), Setting(Edca(Voice, Timer), "255")]

  const EDCA := EDCA_BE + EDCA_BK + EDCA_VI + EDCA_VO

  function Hs20(c: bool): seq<Setting> {
    if c then
      [Setting(Hs20Release, "3"), Setting(ManageP2p, "1"), Setting(CrossConnection, "0"),
       Setting(BssLoadPeriod, "100"), Setting(DeauthTimeout, "3")]
    else []
  }

  function FeatureSettings(f: Flags): seq<Setting> {
    (if f.feat.enableMuedca then EDCA else []) + Hs20(f.feat.enableHs20)
  }

  function Settings(f: Flags, radio: Radio, transmitter: bool): seq<Setting>
    requires f.band.Some?
  {
    FrontSettings(f, transmitter) + WidthSettings(f, radio) + FeatureSettings(f)
  }

  /** Everything behind the loop.  `transmitter` is wlanp->mbssid_enable && wlanp->transmitter. */
  function Tail(f: Flags, radio: Radio, transmitter: bool): string
    requires f.band.Some?
  {
    Unlines(Rendered(Settings(f, radio, transmitter)))
  }

  // ---------- order ----------

  ghost predicate DistinctIds(ts: seq<Tlv>) {
    forall i, j :: 0 <= i < j < |ts| ==> ts[i].id != ts[j].id
  }

  predicate WidthPair(tables: Tables, a: Tlv, b: Tlv) {
    && a.id == TLV_HE_OPER_CHWIDTH && b.id == TLV_VHT_OPER_CHWIDTH
    && Reaches(tables, a) && Reaches(tables, b) && Atoi(a.value) != Atoi(b.value)
  }

  /** Both width TLVs are present and disagree. */
  ghost predicate WidthConflict(tables: Tables, ts: seq<Tlv>) {
    exists a, b :: a in ts && b in ts && WidthPair(tables, a, b)
  }

  lemma NoteCommutes(tables: Tables, f: Flags, a: Tlv, b: Tlv)
    requires a.id != b.id && !WidthPair(tables, a, b) && !WidthPair(tables, b, a)
    ensures Note(tables, Note(tables, f, a), b) == Note(tables, Note(tables, f, b), a)
  {
  }

  lemma {:induction false} ScanConcat(tables: Tables, f: Flags, xs: seq<Tlv>, ys: seq<Tlv>)
    ensures Scan(tables, f, xs + ys) == Scan(tables, Scan(tables, f, xs), ys)
    decreases |xs|
  {
    if xs == [] {
      assert xs + ys == ys;
    } else {
      assert (xs + ys)[1..] == xs[1..] + ys;
      ScanConcat(tables, Note(tables, f, xs[0]), xs[1..], ys);
    }
  }

  /** A TLV that conflicts with nothing before it may be scanned first. */
  lemma {:induction false} MoveToFront(tables: Tables, f: Flags, xs: seq<Tlv>, t: Tlv)
    requires forall x :: x in xs ==> x.id != t.id && !WidthPair(tables, x, t) && !WidthPair(tables, t, x)
    ensures Scan(tables, f, xs + [t]) == Scan(tables, f, [t] + xs)
    decreases |xs|
  {
    if xs == [] {
      assert xs + [t] == [t] + xs;
    } else {
      var x, rest := xs[0], xs[1..];
      assert (xs + [t])[1..] == rest + [t];
      MoveToFront(tables, Note(tables, f, x), rest, t);
      assert ([t] + rest)[1..] == rest && ([t] + xs)[1..] == xs;
      NoteCommutes(tables, f, x, t);
    }
  }

  function Remove(ys: seq<Tlv>, i: nat): seq<Tlv>
    requires i < |ys|
  {
    ys[..i] + ys[i + 1..]
  }

  lemma RemoveMultiset(ys: seq<Tlv>, i: nat)
    requires i < |ys|
    ensures multiset(Remove(ys, i)) == multiset(ys) - multiset{ys[i]}
  {
    assert ys == ys[..i] + ([ys[i]] + ys[i + 1..]);
  }

  /** Scanning position i first makes no difference. */
  lemma BringForward(tables: Tables, f: Flags, ys: seq<Tlv>, i: nat)
    requires i < |ys| && DistinctIds(ys) && !WidthConflict(tables, ys)
    ensures Scan(tables, f, ys) == Scan(tables, Note(tables, f, ys[i]), Remove(ys, i))
  {
    var l, t, r := ys[..i], ys[i], ys[i + 1..];
    forall x | x in l ensures x.id != t.id && x in ys {
    }
    MoveToFront(tables, f, l, t);
    assert ys == (l + [t]) + r;
    ScanConcat(tables, f, l + [t], r);
    assert ([t] + l)[1..] == l;
    ScanConcat(tables, Note(tables, f, t), l, r);
  }

  /** Without a width conflict, every permutation leaves the same flags. */
  lemma {:induction false} ScanPermutes(tables: Tables, f: Flags, xs: seq<Tlv>, ys: seq<Tlv>)
    requires multiset(xs) == multiset(ys) && DistinctIds(ys) && !WidthConflict(tables, ys)
    ensures Scan(tables, f, xs) == Scan(tables, f, ys)
    decreases |xs|
  {
    if xs == [] {
      assert |multiset(ys)| == 0;
    } else {
      assert xs[0] in multiset(ys);
      var i :| 0 <= i < |ys| && ys[i] == xs[0];
      BringForward(tables, f, ys, i);
      RemoveMultiset(ys, i);
      RemoveMultiset(xs, 0);
      assert Remove(xs, 0) == xs[1..];
      Sublist(tables, ys, i);
      ScanPermutes(tables, Note(tables, f, xs[0]), xs[1..], Remove(ys, i));
    }
  }

  lemma Sublist(tables: Tables, ys: seq<Tlv>, i: nat)
    requires i < |ys| && DistinctIds(ys) && !WidthConflict(tables, ys)
    ensures DistinctIds(Remove(ys, i)) && !WidthConflict(tables, Remove(ys, i))
  {
    var z := Remove(ys, i);
    assert forall k :: 0 <= k < |z| ==> z[k] == ys[if k < i then k else k + 1];
    forall x | x in z ensures x in ys {
    }
  }

  /** Appended defaults do not depend on TLV order: for distinct ids, HW_MODE present, and width
      TLVs that agree if both are there, permuting the TLVs leaves the appended text unchanged. */
  lemma TailIgnoresOrder(tables: Tables, xs: seq<Tlv>, ys: seq<Tlv>, radio: Radio, transmitter: bool)
    requires multiset(xs) == multiset(ys) && DistinctIds(ys) && !WidthConflict(tables, ys)
    requires Scan(tables, INITIAL, ys).band.Some?
    ensures Scan(tables, INITIAL, xs).band.Some?
    ensures Tail(Scan(tables, INITIAL, xs), radio, transmitter) == Tail(Scan(tables, INITIAL, ys), radio, transmitter)
  {
    ScanPermutes(tables, INITIAL, xs, ys);
  }

  /** For the flag variables the condition is exact: all orders of a request with distinct ids
      leave the same flags if and only if its width TLVs do not disagree. */
  lemma FlagsOrderExactly(tables: Tables, ys: seq<Tlv>)
    requires DistinctIds(ys)
    ensures (forall xs :: multiset(xs) == multiset(ys) ==> Scan(tables, INITIAL, xs) == Scan(tables, INITIAL, ys))
            <==> !WidthConflict(tables, ys)
  {
    if WidthConflict(tables, ys) {
      var a, b :| a in ys && b in ys && WidthPair(tables, a, b);
      var xs, zs := ConflictShows(tables, ys, a, b);
    } else {
      forall xs | multiset(xs) == multiset(ys) ensures Scan(tables, INITIAL, xs) == Scan(tables, INITIAL, ys) {
        ScanPermutes(tables, INITIAL, xs, ys);
      }
    }
  }

  /** Disagreeing width TLVs: the two orders that put them last leave the one and the other width. */
  lemma ConflictShows(tables: Tables, ys: seq<Tlv>, a: Tlv, b: Tlv) returns (xs: seq<Tlv>, zs: seq<Tlv>)
    requires a in ys && b in ys && WidthPair(tables, a, b)
    ensures multiset(xs) == multiset(ys) == multiset(zs)
    ensures Scan(tables, INITIAL, xs).width == Width(Atoi(b.value), true, true)
    ensures Scan(tables, INITIAL, zs).width == Width(Atoi(a.value), true, true)
  {
    var front := PutLast(ys, a, b);
    LastWidthWins(tables, front, a, b);
    xs, zs := front + [a, b], front + [b, a];
  }

  lemma PutLast(ys: seq<Tlv>, a: Tlv, b: Tlv) returns (front: seq<Tlv>)
    requires a in ys && b in ys && a != b
    ensures multiset(front + [a, b]) == multiset(ys) && multiset(front + [b, a]) == multiset(ys)
  {
    front := Arrange(multiset(ys) - multiset{a, b});
    assert multiset{a, b} <= multiset(ys);
    assert multiset(front + [a, b]) == multiset(front) + multiset{a, b};
    assert multiset(front + [b, a]) == multiset(front) + multiset{a, b};
  }

  lemma Arrange(m: multiset<Tlv>) returns (zs: seq<Tlv>)
    ensures multiset(zs) == m
    decreases |m|
  {
    if |m| == 0 {
      zs := [];
    } else {
      var t :| t in m;
      zs := Arrange(m - multiset{t});
      zs := [t] + zs;
    }
  }

  /** Of two width TLVs the last one decides. */
  lemma LastWidthWins(tables: Tables, zs: seq<Tlv>, a: Tlv, b: Tlv)
    requires WidthPair(tables, a, b)
    ensures Scan(tables, INITIAL, zs + [a, b]).width == Width(Atoi(b.value), true, true)
    ensures Scan(tables, INITIAL, zs + [b, a]).width == Width(Atoi(a.value), true, true)
  {
    var f := Scan(tables, INITIAL, zs);
    ScanConcat(tables, INITIAL, zs, [a, b]);
    ScanConcat(tables, INITIAL, zs, [b, a]);
    ScanPair(tables, f, a, b);
    ScanPair(tables, f, b, a);
  }

  // ---------- order and the appended text ----------

  /** Where the width lines of the 6 GHz band tell widths p and q apart. */
  predicate SixGTells(f: Flags, radio: Radio, p: int, q: int) {
    p == 1 || p == 2 || q == 1 || q == 2 || radio.centre6g(f.channel, p) != radio.centre6g(f.channel, q)
  }

  /** Where those of the 5 GHz band do: only on a channel with an HT40 side. */
  predicate FiveGTells(f: Flags, radio: Radio, p: int, q: int) {
    && (radio.ht40plus(f.channel) || radio.ht40minus(f.channel))
    && (p > 0 || q > 0)
    && ((p > 0) != (q > 0) || p == 2 || q == 2 || radio.centre(f.channel, p) != radio.centre(f.channel, q))
  }

  /** The text uses the width, and tells p and q apart. */
  predicate WidthTells(f: Flags, radio: Radio, p: int, q: int) {
    && (f.feat.enableAc || f.feat.enableAx)
    && if f.is6gOnly then SixGTells(f, radio, p, q)
       else f.band.Some? && Contains(f.band.value, "a") && FiveGTells(f, radio, p, q)
  }

  /** The request has disagreeing width TLVs, and its text tells them apart. */
  ghost predicate WidthShows(tables: Tables, ts: seq<Tlv>, radio: Radio) {
    exists a, b :: a in ts && b in ts && WidthPair(tables, a, b) &&
      WidthTells(Scan(tables, INITIAL, ts), radio, Atoi(a.value), Atoi(b.value))
  }

  /** The tables without the two width TLVs. */
  function Blind(tables: Tables): Tables {
    tables.(mapped := tables.mapped - {TLV_HE_OPER_CHWIDTH, TLV_VHT_OPER_CHWIDTH})
  }

  predicate SameButWidth(f: Flags, g: Flags) {
    f.(width := g.width) == g
  }

  /** The other flags do not notice the width TLVs. */
  lemma {:induction false} ScanBlind(tables: Tables, f: Flags, g: Flags, xs: seq<Tlv>)
    requires SameButWidth(f, g)
    ensures SameButWidth(Scan(tables, f, xs), Scan(Blind(tables), g, xs))
    decreases |xs|
  {
    if xs == [] {
    } else {
      ScanBlind(tables, Note(tables, f, xs[0]), Note(Blind(tables), g, xs[0]), xs[1..]);
    }
  }

  /** Whatever the width TLVs say, the other flags do not depend on order. */
  lemma OthersIgnoreOrder(tables: Tables, xs: seq<Tlv>, ys: seq<Tlv>)
    requires multiset(xs) == multiset(ys) && DistinctIds(ys)
    ensures SameButWidth(Scan(tables, INITIAL, xs), Scan(tables, INITIAL, ys))
  {
    ScanBlind(tables, INITIAL, INITIAL, xs);
    ScanBlind(tables, INITIAL, INITIAL, ys);
    ScanPermutes(Blind(tables), INITIAL, xs, ys);
  }

  /** `a` and `b` are the only width TLVs. */
  ghost predicate OnlyWidths(xs: seq<Tlv>, a: Tlv, b: Tlv) {
    forall x :: x in xs ==> (x.id == TLV_HE_OPER_CHWIDTH ==> x == a) && (x.id == TLV_VHT_OPER_CHWIDTH ==> x == b)
  }

  /** In any order the width is one of the two that are given, and both are noted as given. */
  lemma {:induction false} ScanWidth(tables: Tables, f: Flags, xs: seq<Tlv>, a: Tlv, b: Tlv)
    requires WidthPair(tables, a, b) && OnlyWidths(xs, a, b)
    ensures var w, p, q := Scan(tables, f, xs).width, Atoi(a.value), Atoi(b.value);
            && w.chwidthset == (f.width.chwidthset || a in xs)
            && w.vhtChwidthset == (f.width.vhtChwidthset || b in xs)
            && (w.chwidth == p || w.chwidth == q || (w.chwidth == f.width.chwidth && a !in xs && b !in xs))
    decreases |xs|
  {
    if xs == [] {
    } else {
      var x := xs[0];
      assert xs == [x] + xs[1..];
      ScanWidth(tables, Note(tables, f, x), xs[1..], a, b);
      assert x.id == TLV_HE_OPER_CHWIDTH ==> x == a;
      assert x.id == TLV_VHT_OPER_CHWIDTH ==> x == b;
    }
  }

  lemma WidthOfOrder(tables: Tables, xs: seq<Tlv>, ys: seq<Tlv>, a: Tlv, b: Tlv)
    requires multiset(xs) == multiset(ys) && DistinctIds(ys) && a in ys && b in ys && WidthPair(tables, a, b)
    ensures var w := Scan(tables, INITIAL, xs).width;
            w == Width(Atoi(a.value), true, true) || w == Width(Atoi(b.value), true, true)
  {
    assert forall x :: x in xs <==> x in multiset(xs);
    assert forall x :: x in ys <==> x in multiset(ys);
    ScanWidth(tables, INITIAL, xs, a, b);
  }

  // ---------- printed numbers ----------

  predicate AllDigits(s: string) {
    forall i :: 0 <= i < |s| ==> '0' <= s[i] <= '9'
  }

  lemma {:induction false} DigitsConcat(s: string, t: string, acc: int)
    requires AllDigits(s)
    ensures Digits(s + t, acc) == Digits(t, Digits(s, acc))
  {
    if s == "" {
      assert s + t == t;
    } else {
      assert (s + t)[1..] == s[1..] + t;
      DigitsConcat(s[1..], t, 10 * acc + (s[0] as int - '0' as int));
    }
  }

  lemma {:induction false} DecimalDigits(n: nat)
    ensures Decimal(n) != "" && AllDigits(Decimal(n)) && Digits(Decimal(n), 0) == n
  {
    if n < 10 {
      assert Decimal(n)[1..] == "";
    } else {
      DecimalDigits(n / 10);
      var d := Decimal(n % 10);
      assert d[1..] == "" && Digits(d, n / 10) == n;
      DigitsConcat(Decimal(n / 10), d, 0);
    }
  }

  /** atoi undoes printing with %d. */
  lemma AtoiUndoesDec(n: int)
    ensures Atoi(Dec(n)) == n && '\n' !in Dec(n)
  {
    if n < 0 {
      DecimalDigits(-n);
      assert Dec(n)[1..] == Decimal(-n);
    } else {
      DecimalDigits(n);
    }
  }

  lemma DecInjective(m: int, n: int)
    ensures Dec(m) == Dec(n) <==> m == n
  {
    AtoiUndoesDec(m);
    AtoiUndoesDec(n);
  }

  // ---------- the text and its settings ----------

  /** No value breaks its line. */
  predicate AllClean(ss: seq<Setting>) {
    forall i :: 0 <= i < |ss| ==> '\n' !in ss[i].value
  }

  /** Neither a newline nor an equals sign. */
  predicate Letters(s: string) {
    forall i :: 0 <= i < |s| ==> s[i] == '_' || 'a' <= s[i] <= 'z' || '0' <= s[i] <= '9'
  }

  lemma FrontNames()
    ensures Letters("wps_rf_bands")
    ensures Letters("ieee80211w")
    ensures Letters("sae_require_mfp")
    ensures Letters("multiple_bssid")
    ensures Letters("sae_groups")
  {
  }

  lemma DiscoveryNames()
    ensures Letters("unsol_bcast_probe_resp_interval")
    ensures Letters("fils_discovery_max_interval")
  {
  }

  lemma CountryNames()
    ensures Letters("he_bss_color")
    ensures Letters("country_code")
    ensures Letters("ieee80211d")
    ensures Letters("ieee80211h")
    ensures Letters("op_class")
  {
  }

  lemma CentreNames()
    ensures Letters("he_oper_centr_freq_seg0_idx")
    ensures Letters("vht_oper_centr_freq_seg0_idx")
  {
  }

  lemma WidthNames()
    ensures Letters("ht_capab")
    ensures Letters("vht_capab")
    ensures Letters("he_oper_chwidth")
    ensures Letters("vht_oper_chwidth")
  {
  }

  lemma Hs20Names()
    ensures Letters("hs20_release")
    ensures Letters("manage_p2p")
    ensures Letters("allow_cross_connection")
  {
  }

  lemma FeatureNames()
    ensures Letters("bss_load_update_period")
    ensures Letters("hs20_deauth_req_timeout")
    ensures Letters("he_mu_edca_qos_info_queue_request")
  {
  }

  lemma MoreLetters(s: string, t: string)
    requires Letters(s) && Letters(t)
    ensures Letters(s + t)
  {
  }

  lemma EdcaNames(ac: AccessCategory, item: EdcaItem)
    ensures Letters(Name(Edca(ac, item)))
  {
    assert Letters("he_mu_edca_ac_") && Letters(CategoryName(ac)) && Letters("_") && Letters(ItemName(item));
    MoreLetters("he_mu_edca_ac_", CategoryName(ac));
    MoreLetters("he_mu_edca_ac_" + CategoryName(ac), "_");
    MoreLetters("he_mu_edca_ac_" + CategoryName(ac) + "_", ItemName(item));
  }

  lemma NameIsPlain(k: Key)
    ensures Letters(Name(k))
  {
    if k.Edca? {
      EdcaNames(k.ac, k.item);
    }
    FrontNames();
    DiscoveryNames();
    CountryNames();
    CentreNames();
    WidthNames();
    Hs20Names();
    FeatureNames();
  }

  lemma Joined(a: seq<Setting>, b: seq<Setting>)
    requires AllClean(a) && AllClean(b)
    ensures AllClean(a + b)
  {
  }

  lemma Joined5(a: seq<Setting>, b: seq<Setting>, c: seq<Setting>, d: seq<Setting>, e: seq<Setting>)
    requires AllClean(a) && AllClean(b) && AllClean(c) && AllClean(d) && AllClean(e)
    ensures AllClean(a + b + c + d + e)
  {
    Joined(a, b);
    Joined(a + b, c);
    Joined(a + b + c, d);
    Joined(a + b + c + d, e);
  }

  /** A printed number. */
  lemma NumberIsClean(c: bool, k: Key, n: int)
    ensures AllClean(If(c, k, Dec(n))) && AllClean([Setting(k, Dec(n))])
  {
    AtoiUndoesDec(n);
  }

  lemma SixGIsClean(f: Flags, radio: Radio, w: int)
    ensures AllClean(SixG(f, radio, w))
  {
    NumberIsClean(!f.width.chwidthset, HeChwidth, w);
    NumberIsClean(f.unsolInterval != 0, UnsolInterval, f.unsolInterval);
    NumberIsClean(true, HeCentre, radio.centre6g(f.channel, w));
    Joined5(If(f.unsolInterval != 0, UnsolInterval, Dec(f.unsolInterval)), If(f.unsolInterval == 0, FilsInterval, "20"),
            [Setting(HeBssColor, "19")], [Setting(Ieee80211d, "1")], [Setting(CountryCode, "US")]);
    Joined5(If(!f.width.chwidthset, HeChwidth, Dec(w)), OperatingClass(w),
            [Setting(HeCentre, Dec(radio.centre6g(f.channel, w)))], SixGBack(f), []);
  }

  lemma WideIsClean(f: Flags, w: int, centre: int)
    ensures AllClean(WideFront(w)) && AllClean(WideBack(f, w, centre))
  {
    var ac, ax := f.feat.enableAc, f.feat.enableAx;
    NumberIsClean(ac && !f.width.vhtChwidthset, VhtChwidth, w);
    NumberIsClean(ac, VhtCentre, centre);
    NumberIsClean(ax && !f.width.chwidthset, HeChwidth, w);
    NumberIsClean(ax, HeCentre, centre);
    Joined5(If(ac && !f.width.vhtChwidthset, VhtChwidth, Dec(w)), If(ac, VhtCentre, Dec(centre)),
            If(ac && w == 2, VhtCapab, "[VHT160]"), If(ax && !f.width.chwidthset, HeChwidth, Dec(w)),
            If(ax, HeCentre, Dec(centre)));
  }

  lemma FiveGIsClean(f: Flags, radio: Radio, w0: int)
    ensures AllClean(FiveG(f, radio, w0))
  {
    var w := SideWidth(f, radio, w0);
    var centre := radio.centre(f.channel, w);
    WideIsClean(f, w, centre);
    Joined5(Side(f, radio), WideFront(w), WideBack(f, w, centre), [], []);
  }

  lemma FrontIsClean(f: Flags, transmitter: bool)
    requires f.band.Some?
    ensures AllClean(FrontSettings(f, transmitter))
  {
    WpsPmfClean(f, f.band.value);
    var e := If(f.sec.hasSae && !f.sec.hasSaeGroups, SaeGroups, "15 16 17 18 19 20 21");
    assert AllClean(e);
    Joined5(Wps(f, f.band.value), Pmf(f), If(f.sec.hasSae, SaeRequireMfp, "1"), If(transmitter, MultipleBssid, "1"), e);
  }

  lemma WpsPmfClean(f: Flags, band: string)
    ensures AllClean(Wps(f, band)) && AllClean(Pmf(f))
  {
  }

  lemma FeaturesAreClean(f: Flags)
    ensures AllClean(FeatureSettings(f))
  {
    Joined5(EDCA_BE, EDCA_BK, EDCA_VI, EDCA_VO, []);
    Joined(if f.feat.enableMuedca then EDCA else [], Hs20(f.feat.enableHs20));
  }

  lemma RenderedAreLines(ss: seq<Setting>)
    requires AllClean(ss)
    ensures AreLines(Rendered(ss))
  {
    forall i | 0 <= i < |ss| ensures '\n' !in Rendered(ss)[i] {
      NameIsPlain(ss[i].key);
    }
  }

  lemma AllAreClean(f: Flags, radio: Radio, transmitter: bool)
    requires f.band.Some?
    ensures AllClean(Settings(f, radio, transmitter))
  {
    FrontIsClean(f, transmitter);
    SixGIsClean(f, radio, BaseWidth(f));
    FiveGIsClean(f, radio, BaseWidth(f));
    FeaturesAreClean(f);
    Joined(FrontSettings(f, transmitter), WidthSettings(f, radio));
    Joined(FrontSettings(f, transmitter) + WidthSettings(f, radio), FeatureSettings(f));
  }

  /** The appended text consists of the lines of these settings. */
  lemma LinesOfTail(f: Flags, radio: Radio, transmitter: bool)
    requires f.band.Some?
    ensures Lines(Tail(f, radio, transmitter)) == Rendered(Settings(f, radio, transmitter))
  {
    AllAreClean(f, radio, transmitter);
    var ls := Rendered(Settings(f, radio, transmitter));
    RenderedAreLines(Settings(f, radio, transmitter));
    LinesOfUnlines(ls, "");
    assert Unlines(ls) + "" == Unlines(ls);
  }

  lemma {:induction false} RenderedConcat(a: seq<Setting>, b: seq<Setting>)
    ensures Rendered(a + b) == Rendered(a) + Rendered(b)
  {
    if a == [] {
      assert a + b == b;
    } else {
      assert (a + b)[1..] == a[1..] + b;
      RenderedConcat(a[1..], b);
    }
  }

  // ---------- which widths the text tells apart ----------

  /** Two lines of one key are equal only if the values are. */
  lemma ValueCut(k: Key, u: string, v: string)
    ensures Render(Setting(k, u)) == Render(Setting(k, v)) <==> u == v
  {
    var front := Name(k) + "=";
    assert (front + u)[|front|..] == u && (front + v)[|front|..] == v;
  }

  lemma SixGExactly(f: Flags, g: Flags, radio: Radio, p: int, q: int)
    requires SameButWidth(f, g) && f.width.chwidthset && g.width.chwidthset && p != q
    ensures Rendered(SixG(f, radio, p)) == Rendered(SixG(g, radio, q)) <==> !SixGTells(f, radio, p, q)
  {
    var c, d := Dec(radio.centre6g(f.channel, p)), Dec(radio.centre6g(f.channel, q));
    var x, y := SixG(f, radio, p), SixG(g, radio, q);
    DecInjective(radio.centre6g(f.channel, p), radio.centre6g(f.channel, q));
    ValueCut(HeCentre, c, d);
    ValueCut(OpClass, "133", "134");
    if OperatingClass(p) == [] && OperatingClass(q) == [] {
      assert Rendered(x)[0] == Render(Setting(HeCentre, c)) && Rendered(y)[0] == Render(Setting(HeCentre, d));
      assert c == d ==> x == y;
    } else if OperatingClass(p) != [] && OperatingClass(q) != [] {
      assert Rendered(x)[0] != Rendered(y)[0];
    } else {
      assert |x| != |y|;
    }
  }

  lemma WideExactly(f: Flags, g: Flags, p: int, q: int, c: int, d: int)
    requires SameButWidth(f, g) && f.width == Width(p, true, true) && g.width == Width(q, true, true) && p != q
    requires f.feat.enableAc || f.feat.enableAx
    ensures var x, y := WideFront(p) + WideBack(f, p, c), WideFront(q) + WideBack(g, q, d);
            && x != [] && y != [] && (Rendered(x) == Rendered(y) <==> p != 2 && q != 2 && c == d)
  {
    var x, y := WideFront(p) + WideBack(f, p, c), WideFront(q) + WideBack(g, q, d);
    DecInjective(c, d);
    if p == 2 || q == 2 {
      assert |x| != |y|;
    } else {
      var k := if f.feat.enableAc then VhtCentre else HeCentre;
      ValueCut(k, Dec(c), Dec(d));
      assert x[0] == Setting(k, Dec(c)) && y[0] == Setting(k, Dec(d));
      assert Rendered(x)[0] == Render(x[0]) && Rendered(y)[0] == Render(y[0]);
      assert c == d ==> x == y;
    }
  }

  lemma SameBehind(a: seq<Setting>, x: seq<Setting>, y: seq<Setting>)
    ensures Rendered(a + x) == Rendered(a + y) <==> Rendered(x) == Rendered(y)
  {
    RenderedConcat(a, x);
    RenderedConcat(a, y);
    assert (Rendered(a) + Rendered(x))[|a|..] == Rendered(x) && (Rendered(a) + Rendered(y))[|a|..] == Rendered(y);
  }

  lemma Regroup(a: seq<Setting>, b: seq<Setting>, c: seq<Setting>)
    ensures a + b + c == a + (b + c) && a == a + []
  {
  }

  lemma FiveGExactly(f: Flags, g: Flags, radio: Radio, p: int, q: int)
    requires SameButWidth(f, g) && f.width == Width(p, true, true) && g.width == Width(q, true, true) && p != q
    requires f.feat.enableAc || f.feat.enableAx
    ensures Rendered(FiveG(f, radio, p)) == Rendered(FiveG(g, radio, q)) <==> !FiveGTells(f, radio, p, q)
  {
    if radio.ht40plus(f.channel) || radio.ht40minus(f.channel) {
      var c, d := radio.centre(f.channel, p), radio.centre(f.channel, q);
      WideExactly(f, g, p, q, c, d);
      var x, y := WideFront(p) + WideBack(f, p, c), WideFront(q) + WideBack(g, q, d);
      var a := Side(f, radio);
      Regroup(a, WideFront(p), WideBack(f, p, c));
      Regroup(a, WideFront(q), WideBack(g, q, d));
      assert FiveG(f, radio, p) == a + (if p > 0 then x else []);
      assert FiveG(g, radio, q) == a + (if q > 0 then y else []);
      SameBehind(a, if p > 0 then x else [], if q > 0 then y else []);
    }
  }

  /** With two given widths p and q, the lines are the same exactly when they do not tell them apart. */
  lemma WidthLinesExactly(f: Flags, g: Flags, radio: Radio, p: int, q: int)
    requires SameButWidth(f, g) && f.width == Width(p, true, true) && g.width == Width(q, true, true) && p != q
    requires f.band.Some?
    ensures Rendered(WidthSettings(f, radio)) == Rendered(WidthSettings(g, radio)) <==> !WidthTells(f, radio, p, q)
  {
    if f.feat.enableAc || f.feat.enableAx {
      if f.is6gOnly {
        SixGExactly(f, g, radio, p, q);
      } else {
        FiveGExactly(f, g, radio, p, q);
      }
    }
  }

  lemma Middle(a: seq<string>, m: seq<string>, n: seq<string>, b: seq<string>)
    ensures a + m + b == a + n + b <==> m == n
  {
    if a + m + b == a + n + b {
      assert |a + m + b| == |a| + |m| + |b| && |a + n + b| == |a| + |n| + |b|;
      assert m == (a + m + b)[|a|..|a| + |m|];
      assert n == (a + n + b)[|a|..|a| + |n|];
    }
  }

  lemma TailTells(f: Flags, g: Flags, radio: Radio, transmitter: bool)
    requires f.band.Some? && SameButWidth(f, g)
    ensures Tail(f, radio, transmitter) == Tail(g, radio, transmitter) <==>
            Rendered(WidthSettings(f, radio)) == Rendered(WidthSettings(g, radio))
  {
    LinesOfTail(f, radio, transmitter);
    LinesOfTail(g, radio, transmitter);
    var a, b := FrontSettings(f, transmitter), FeatureSettings(f);
    assert a == FrontSettings(g, transmitter) && b == FeatureSettings(g);
    RenderedConcat(a + WidthSettings(f, radio), b);
    RenderedConcat(a + WidthSettings(g, radio), b);
    RenderedConcat(a, WidthSettings(f, radio));
    RenderedConcat(a, WidthSettings(g, radio));
    Middle(Rendered(a), Rendered(WidthSettings(f, radio)), Rendered(WidthSettings(g, radio)), Rendered(b));
  }

  /** The order xs of a request leaves the same text as ys. */
  ghost predicate SameTail(tables: Tables, xs: seq<Tlv>, ys: seq<Tlv>, radio: Radio, transmitter: bool) {
    var f, g := Scan(tables, INITIAL, xs), Scan(tables, INITIAL, ys);
    f.band.Some? && g.band.Some? && Tail(f, radio, transmitter) == Tail(g, radio, transmitter)
  }

  lemma HiddenWidth(tables: Tables, xs: seq<Tlv>, ys: seq<Tlv>, radio: Radio, transmitter: bool)
    requires multiset(xs) == multiset(ys) && DistinctIds(ys) && !WidthShows(tables, ys, radio)
    requires Scan(tables, INITIAL, ys).band.Some?
    ensures SameTail(tables, xs, ys, radio, transmitter)
  {
    if !WidthConflict(tables, ys) {
      TailIgnoresOrder(tables, xs, ys, radio, transmitter);
    } else {
      var a, b :| a in ys && b in ys && WidthPair(tables, a, b);
      var f, g := Scan(tables, INITIAL, xs), Scan(tables, INITIAL, ys);
      OthersIgnoreOrder(tables, xs, ys);
      WidthOfOrder(tables, xs, ys, a, b);
      WidthOfOrder(tables, ys, ys, a, b);
      if f.width != g.width {
        WidthLinesExactly(f, g, radio, f.width.chwidth, g.width.chwidth);
      }
      TailTells(f, g, radio, transmitter);
    }
  }

  lemma ShownWidth(tables: Tables, ys: seq<Tlv>, radio: Radio, transmitter: bool) returns (xs: seq<Tlv>)
    requires DistinctIds(ys) && WidthShows(tables, ys, radio) && Scan(tables, INITIAL, ys).band.Some?
    ensures multiset(xs) == multiset(ys) && !SameTail(tables, xs, ys, radio, transmitter)
  {
    var a, b :| a in ys && b in ys && WidthPair(tables, a, b) &&
      WidthTells(Scan(tables, INITIAL, ys), radio, Atoi(a.value), Atoi(b.value));
    var us, vs := ConflictShows(tables, ys, a, b);
    var f, g := Scan(tables, INITIAL, us), Scan(tables, INITIAL, vs);
    OthersIgnoreOrder(tables, us, ys);
    OthersIgnoreOrder(tables, vs, ys);
    WidthLinesExactly(g, f, radio, Atoi(a.value), Atoi(b.value));
    TailTells(g, f, radio, transmitter);
    xs := if SameTail(tables, us, ys, radio, transmitter) then vs else us;
  }

  /** For given channel tables the appended text depends on the order of the TLVs exactly when an HE
      and a VHT width TLV disagree and the text tells the two widths apart: 11ac or 11ax is on and
      either the band is 6 GHz, and the widths differ in op class or centre, or it is 5 GHz on a
      channel with an HT40 side, some width is above 0, and the widths differ in being above 0, in
      being 160 MHz or in their centre. */
  lemma OrderMattersExactly(tables: Tables, ys: seq<Tlv>, radio: Radio, transmitter: bool)
    requires DistinctIds(ys) && Scan(tables, INITIAL, ys).band.Some?
    ensures (forall xs :: multiset(xs) == multiset(ys) ==> SameTail(tables, xs, ys, radio, transmitter))
            <==> !WidthShows(tables, ys, radio)
  {
    if WidthShows(tables, ys, radio) {
      var xs := ShownWidth(tables, ys, radio, transmitter);
    } else {
      forall xs | multiset(xs) == multiset(ys) ensures SameTail(tables, xs, ys, radio, transmitter) {
        HiddenWidth(tables, xs, ys, radio, transmitter);
      }
    }
  }

  /** Outside 6 GHz a channel without an HT40 side, 165 or none given, makes every order print the
      same text. */
  lemma NoSideNoOrder(tables: Tables, xs: seq<Tlv>, ys: seq<Tlv>, radio: Radio, transmitter: bool)
    requires multiset(xs) == multiset(ys) && DistinctIds(ys)
    requires var f := Scan(tables, INITIAL, ys);
             f.band.Some? && !f.is6gOnly && !radio.ht40plus(f.channel) && !radio.ht40minus(f.channel)
    ensures SameTail(tables, xs, ys, radio, transmitter)
  {
    HiddenWidth(tables, xs, ys, radio, transmitter);
  }

  lemma SmallNumbers()
    ensures Atoi("1") == 1 && Atoi("2") == 2 && Atoi("36") == 36
  {
    assert "1"[1..] == "" && "2"[1..] == "" && "36"[1..] == "6" && "6"[1..] == "";
    assert Digits("36", 0) == Digits("6", 3);
  }

  lemma FrontFlags(tables: Tables, f: Flags, ts: seq<Tlv>)
    requires tables.semicolon == {} && tables.profiles == {} && {TLV_HW_MODE, TLV_IEEE80211_AX} <= tables.mapped
    requires ts == [Tlv(TLV_HW_MODE, "a"), Tlv(TLV_CHANNEL, "36"), Tlv(TLV_IEEE80211_AX, "1")]
    ensures var g := Scan(tables, f, ts);
            g.band == Some("a") && g.channel == 36 && g.feat.enableAx && g.is6gOnly == f.is6gOnly
  {
    SmallNumbers();
    var f1 := Note(tables, f, ts[0]);
    var f2 := Note(tables, f1, ts[1]);
    assert ts[1..][0] == ts[1] && ts[1..][1..] == ts[2..] && ts[2..][0] == ts[2] && ts[2..][1..] == [];
    assert Scan(tables, f, ts) == Scan(tables, f1, ts[1..]) == Scan(tables, f2, ts[2..]);
    assert Scan(tables, f2, ts[2..]) == Scan(tables, Note(tables, f2, ts[2]), []);
    assert Contains("1", "1");
  }

  lemma PairFlags(tables: Tables, f: Flags, a: Tlv, b: Tlv)
    requires a.id == TLV_HE_OPER_CHWIDTH && b.id == TLV_VHT_OPER_CHWIDTH
    ensures SameButWidth(f, Scan(tables, f, [a, b])) && SameButWidth(f, Scan(tables, f, [b, a]))
  {
    ScanPair(tables, f, a, b);
    ScanPair(tables, f, b, a);
    WidthOnly(tables, f, a);
    WidthOnly(tables, f, b);
    WidthOnly(tables, Note(tables, f, a), b);
    WidthOnly(tables, Note(tables, f, b), a);
  }

  lemma WidthOnly(tables: Tables, f: Flags, t: Tlv)
    requires t.id == TLV_HE_OPER_CHWIDTH || t.id == TLV_VHT_OPER_CHWIDTH
    ensures SameButWidth(f, Note(tables, f, t))
  {
  }

  lemma ScanPair(tables: Tables, f: Flags, a: Tlv, b: Tlv)
    ensures Scan(tables, f, [a, b]) == Note(tables, Note(tables, f, a), b)
  {
    assert [a, b][1..] == [b] && [b][1..] == [];
    assert Scan(tables, f, [a, b]) == Scan(tables, Note(tables, f, a), [b]) == Note(tables, Note(tables, f, a), b);
  }

  /** Two orders of one request that print different text: HW_MODE a on channel 36 with 11ax, and a
      VHT width of 160 MHz behind or in front of an HE width of 80 MHz. */
  lemma OrderChangesText(tables: Tables, radio: Radio, transmitter: bool) returns (xs: seq<Tlv>, ys: seq<Tlv>)
    requires tables.semicolon == {} && tables.profiles == {}
    requires {TLV_HW_MODE, TLV_IEEE80211_AX, TLV_HE_OPER_CHWIDTH, TLV_VHT_OPER_CHWIDTH} <= tables.mapped
    requires radio.ht40plus(36)
    ensures var front := [Tlv(TLV_HW_MODE, "a"), Tlv(TLV_CHANNEL, "36"), Tlv(TLV_IEEE80211_AX, "1")];
            var he, vht := Tlv(TLV_HE_OPER_CHWIDTH, "1"), Tlv(TLV_VHT_OPER_CHWIDTH, "2");
            xs == front + [he, vht] && ys == front + [vht, he]
    ensures !SameTail(tables, xs, ys, radio, transmitter)
  {
    var front := [Tlv(TLV_HW_MODE, "a"), Tlv(TLV_CHANNEL, "36"), Tlv(TLV_IEEE80211_AX, "1")];
    var he, vht := Tlv(TLV_HE_OPER_CHWIDTH, "1"), Tlv(TLV_VHT_OPER_CHWIDTH, "2");
    xs, ys := front + [he, vht], front + [vht, he];
    SmallNumbers();
    FrontFlags(tables, INITIAL, front);
    PairText(tables, front, he, vht, radio, transmitter);
  }

  lemma PairText(tables: Tables, front: seq<Tlv>, a: Tlv, b: Tlv, radio: Radio, transmitter: bool)
    requires WidthPair(tables, a, b) && Atoi(a.value) == 1 && Atoi(b.value) == 2 && radio.ht40plus(36)
    requires var f := Scan(tables, INITIAL, front);
             f.band == Some("a") && f.channel == 36 && f.feat.enableAx && !f.is6gOnly
    ensures !SameTail(tables, front + [a, b], front + [b, a], radio, transmitter)
  {
    ScanConcat(tables, INITIAL, front, [a, b]);
    ScanConcat(tables, INITIAL, front, [b, a]);
    LastWidthWins(tables, front, a, b);
    PairFlags(tables, Scan(tables, INITIAL, front), a, b);
    SplitText(Scan(tables, INITIAL, front + [b, a]), Scan(tables, INITIAL, front + [a, b]), radio, transmitter);
  }

  lemma SplitText(f: Flags, g: Flags, radio: Radio, transmitter: bool)
    requires SameButWidth(f, g) && f.width == Width(1, true, true) && g.width == Width(2, true, true)
    requires f.band == Some("a") && f.channel == 36 && f.feat.enableAx && !f.is6gOnly && radio.ht40plus(36)
    ensures Tail(f, radio, transmitter) != Tail(g, radio, transmitter)
  {
    WidthLinesExactly(f, g, radio, 1, 2);
    TailTells(f, g, radio, transmitter);
  }
}
