/** What the appended defaults of generate_hostapd_config say, read off the request's TLVs.

    Each claim is about the lines of the appended text that start with one key, and names the TLVs
    that decide. */
module HostapdLines {
  import opened Basics
  import opened TextTlv
  import opened TextLines
  import opened HostapdTail

  // ---------- what a request asks for ----------

  /** TLVs with this id reach the flag tests of the loop. */
  predicate Listed(tables: Tables, id: int) {
    id in tables.mapped && id !in tables.semicolon && id !in tables.profiles
  }

  ghost predicate Present(ts: seq<Tlv>, id: int) {
    exists t :: t in ts && t.id == id
  }

  ghost predicate Gives(tables: Tables, ts: seq<Tlv>, id: int) {
    Listed(tables, id) && Present(ts, id)
  }

  predicate Speaks(t: Tlv, id: int, a: string, b: string) {
    t.id == id && Contains(t.value, a) && Contains(t.value, b)
  }

  /** Some TLV with this id names both words. */
  ghost predicate AsksBoth(tables: Tables, ts: seq<Tlv>, id: int, a: string, b: string) {
    Listed(tables, id) && exists t :: t in ts && Speaks(t, id, a, b)
  }

  ghost predicate Asks(tables: Tables, ts: seq<Tlv>, id: int, word: string) {
    AsksBoth(tables, ts, id, word, word)
  }

  /** The value of the last TLV whose id is one of these. */
  function LastValue(ts: seq<Tlv>, ids: set<int>): Option<string> {
    if ts == [] then None
    else if ts[|ts| - 1].id in ids then Some(ts[|ts| - 1].value)
    else LastValue(ts[..|ts| - 1], ids)
  }

  function LastNumber(ts: seq<Tlv>, ids: set<int>, default: int): int {
    match LastValue(ts, ids)
    case None => default
    case Some(v) => Atoi(v)
  }

  function ListedOf(tables: Tables, ids: set<int>): set<int> {
    set id | id in ids && Listed(tables, id)
  }

  lemma PresentLast(front: seq<Tlv>, t: Tlv, id: int)
    ensures Present(front + [t], id) <==> Present(front, id) || t.id == id
  {
    var ts := front + [t];
    assert forall x :: x in ts <==> x in front || x == t;
  }

  lemma AsksLast(tables: Tables, front: seq<Tlv>, t: Tlv, id: int, a: string, b: string)
    ensures AsksBoth(tables, front + [t], id, a, b) <==>
            AsksBoth(tables, front, id, a, b) || (Listed(tables, id) && Speaks(t, id, a, b))
  {
    var ts := front + [t];
    assert forall x :: x in ts <==> x in front || x == t;
  }

  lemma ScanLast(tables: Tables, front: seq<Tlv>, t: Tlv)
    ensures Scan(tables, INITIAL, front + [t]) == Note(tables, Scan(tables, INITIAL, front), t)
  {
    ScanConcat(tables, INITIAL, front, [t]);
    assert [t][1..] == [];
  }

  // ---------- each flag is an existence in the request ----------

  lemma {:induction false} KeyMgmtFlags(tables: Tables, ts: seq<Tlv>)
    ensures var f := Scan(tables, INITIAL, ts).sec;
            && (f.hasSae <==> Asks(tables, ts, TLV_WPA_KEY_MGMT, "SAE"))
            && (f.hasOwe <==> Asks(tables, ts, TLV_WPA_KEY_MGMT, "OWE"))
            && (f.hasTransition <==> AsksBoth(tables, ts, TLV_WPA_KEY_MGMT, "SAE", "WPA-PSK"))
  {
    if ts != [] {
      var front, t := ts[..|ts| - 1], ts[|ts| - 1];
      KeyMgmtFlags(tables, front);
      assert ts == front + [t];
      ScanLast(tables, front, t);
      AsksLast(tables, front, t, TLV_WPA_KEY_MGMT, "SAE", "SAE");
      AsksLast(tables, front, t, TLV_WPA_KEY_MGMT, "OWE", "OWE");
      AsksLast(tables, front, t, TLV_WPA_KEY_MGMT, "SAE", "WPA-PSK");
    }
  }

  lemma {:induction false} SecurityFlags(tables: Tables, ts: seq<Tlv>)
    ensures var f := Scan(tables, INITIAL, ts).sec;
            && (f.hasWpa <==> Asks(tables, ts, TLV_WPA, "2"))
            && (f.hasPmf <==> Gives(tables, ts, TLV_IEEE80211_W))
            && (f.hasSaeGroups <==> Gives(tables, ts, TLV_SAE_GROUPS))
  {
    if ts != [] {
      var front, t := ts[..|ts| - 1], ts[|ts| - 1];
      SecurityFlags(tables, front);
      assert ts == front + [t];
      ScanLast(tables, front, t);
      AsksLast(tables, front, t, TLV_WPA, "2", "2");
      PresentLast(front, t, TLV_IEEE80211_W);
      PresentLast(front, t, TLV_SAE_GROUPS);
    }
  }

  lemma {:induction false} FeatureFlags(tables: Tables, ts: seq<Tlv>)
    ensures var f := Scan(tables, INITIAL, ts);
            && (f.feat.enableAx <==> Asks(tables, ts, TLV_IEEE80211_AX, "1"))
            && (f.feat.enableAc <==> Asks(tables, ts, TLV_IEEE80211_AC, "1"))
            && (f.feat.enableHs20 <==> Asks(tables, ts, TLV_HS20, "1"))
            && (f.feat.enableMuedca <==> Gives(tables, ts, TLV_HE_MU_EDCA))
            && (f.useMbss <==> Present(ts, TLV_BSS_IDENTIFIER))
            && (f.is6gOnly <==> Present(ts, TLV_HE_6G_ONLY))
            && (f.enableWps <==>
                 && tables.wpsSettings && Present(ts, TLV_WPS_ENABLE)
                 && TLV_WPS_ENABLE !in tables.semicolon && TLV_WPS_ENABLE !in tables.profiles)
  {
    if ts != [] {
      var front, t := ts[..|ts| - 1], ts[|ts| - 1];
      FeatureFlags(tables, front);
      assert ts == front + [t];
      ScanLast(tables, front, t);
      AsksLast(tables, front, t, TLV_IEEE80211_AX, "1", "1");
      AsksLast(tables, front, t, TLV_IEEE80211_AC, "1", "1");
      AsksLast(tables, front, t, TLV_HS20, "1", "1");
      PresentLast(front, t, TLV_HE_MU_EDCA);
      PresentLast(front, t, TLV_BSS_IDENTIFIER);
      PresentLast(front, t, TLV_HE_6G_ONLY);
      PresentLast(front, t, TLV_WPS_ENABLE);
    }
  }

  lemma {:induction false} WidthsGiven(tables: Tables, ts: seq<Tlv>)
    ensures var f := Scan(tables, INITIAL, ts).width;
            && (f.chwidthset <==> Gives(tables, ts, TLV_HE_OPER_CHWIDTH))
            && (f.vhtChwidthset <==> Gives(tables, ts, TLV_VHT_OPER_CHWIDTH))
  {
    if ts != [] {
      var front, t := ts[..|ts| - 1], ts[|ts| - 1];
      WidthsGiven(tables, front);
      assert ts == front + [t];
      ScanLast(tables, front, t);
      PresentLast(front, t, TLV_HE_OPER_CHWIDTH);
      PresentLast(front, t, TLV_VHT_OPER_CHWIDTH);
    }
  }

  lemma {:induction false} WidthNumber(tables: Tables, ts: seq<Tlv>)
    ensures Scan(tables, INITIAL, ts).width.chwidth ==
            LastNumber(ts, ListedOf(tables, {TLV_HE_OPER_CHWIDTH, TLV_VHT_OPER_CHWIDTH}), 1)
  {
    if ts != [] {
      var front, t := ts[..|ts| - 1], ts[|ts| - 1];
      WidthNumber(tables, front);
      assert ts == front + [t];
      ScanLast(tables, front, t);
    }
  }

  lemma {:induction false} RadioFlags(tables: Tables, ts: seq<Tlv>)
    ensures var f := Scan(tables, INITIAL, ts);
            && f.channel == LastNumber(ts, {TLV_CHANNEL}, 0)
            && f.unsolInterval == LastNumber(ts, ListedOf(tables, {TLV_HE_UNSOL_PR_RESP_CADENCE}), 0)
            && f.band == LastValue(ts, ListedOf(tables, {TLV_HW_MODE}))
  {
    if ts != [] {
      var front, t := ts[..|ts| - 1], ts[|ts| - 1];
      RadioFlags(tables, front);
      assert ts == front + [t];
      ScanLast(tables, front, t);
    }
  }

  // ---------- the settings with one key ----------

  /** The settings with this key, in order. */
  function Only(ss: seq<Setting>, k: Key): seq<Setting> {
    if ss == [] then [] else if ss[0].key == k then [ss[0]] + Only(ss[1..], k) else Only(ss[1..], k)
  }

  lemma {:induction false} OnlyConcat(a: seq<Setting>, b: seq<Setting>, k: Key)
    ensures Only(a + b, k) == Only(a, k) + Only(b, k)
  {
    if a == [] {
      assert a + b == b;
    } else {
      assert (a + b)[1..] == a[1..] + b;
      OnlyConcat(a[1..], b, k);
    }
  }

  /** Settings that all have the key j. */
  lemma {:induction false} AllOrNone(ss: seq<Setting>, j: Key, k: Key)
    requires AllKey(ss, j)
    ensures Only(ss, k) == if j == k then ss else []
  {
    if ss != [] {
      AllOrNone(ss[1..], j, k);
    }
  }

  lemma {:induction false} NoneHasKey(ss: seq<Setting>, k: Key)
    requires forall i :: 0 <= i < |ss| ==> ss[i].key != k
    ensures Only(ss, k) == []
  {
    if ss != [] {
      NoneHasKey(ss[1..], k);
    }
  }

  predicate AllKey(ss: seq<Setting>, j: Key) {
    forall i :: 0 <= i < |ss| ==> ss[i].key == j
  }

  /** One more group behind others. */
  lemma Trail(front: seq<Setting>, b: seq<Setting>, q: Key, k: Key)
    requires AllKey(b, q)
    ensures k != q ==> Only(front + b, k) == Only(front, k)
    ensures k == q && Only(front, k) == [] ==> Only(front + b, k) == b
  {
    OnlyConcat(front, b, k);
    AllOrNone(b, q, k);
  }

  predicate Distinct(p: Key, q: Key, r: Key, s: Key, t: Key) {
    p != q && p != r && p != s && p != t && q != r && q != s && q != t && r != s && r != t && s != t
  }

  /** Five groups of settings, each with a key of its own. */
  lemma FromGroups(a: seq<Setting>, b: seq<Setting>, c: seq<Setting>, d: seq<Setting>, e: seq<Setting>,
                   p: Key, q: Key, r: Key, s: Key, t: Key, k: Key)
    requires AllKey(a, p) && AllKey(b, q) && AllKey(c, r) && AllKey(d, s) && AllKey(e, t) && Distinct(p, q, r, s, t)
    ensures Only(a + b + c + d + e, k) ==
            if k == p then a else if k == q then b else if k == r then c else if k == s then d else if k == t then e else []
  {
    AllOrNone(a, p, k);
    Trail(a, b, q, k);
    Trail(a + b, c, r, k);
    Trail(a + b + c, d, s, k);
    Trail(a + b + c + d, e, t, k);
  }

  lemma FrontOnly(f: Flags, transmitter: bool, k: Key)
    requires f.band.Some?
    ensures var ss := Only(FrontSettings(f, transmitter), k);
            && (k.WpsRfBands? ==> ss == Wps(f, f.band.value))
            && (k.Ieee80211w? ==> ss == Pmf(f))
            && (k.SaeRequireMfp? ==> ss == If(f.sec.hasSae, k, "1"))
            && (k.MultipleBssid? ==> ss == If(transmitter, k, "1"))
            && (k.SaeGroups? ==> ss == If(f.sec.hasSae && !f.sec.hasSaeGroups, k, "15 16 17 18 19 20 21"))
            && (!InFront(k) ==> ss == [])
  {
    FromGroups(Wps(f, f.band.value), Pmf(f), If(f.sec.hasSae, SaeRequireMfp, "1"), If(transmitter, MultipleBssid, "1"),
               If(f.sec.hasSae && !f.sec.hasSaeGroups, SaeGroups, "15 16 17 18 19 20 21"),
               WpsRfBands, Ieee80211w, SaeRequireMfp, MultipleBssid, SaeGroups, k);
  }

  predicate InFront(k: Key) {
    k.WpsRfBands? || k.Ieee80211w? || k.SaeRequireMfp? || k.MultipleBssid? || k.SaeGroups?
  }

  predicate IsFeature(k: Key) {
    || k.EdcaQueue? || k.Edca? || k.Hs20Release? || k.ManageP2p? || k.CrossConnection? || k.BssLoadPeriod?
    || k.DeauthTimeout?
  }

  lemma SixGBackOnly(f: Flags, k: Key)
    ensures var ss := Only(SixGBack(f), k);
            && (k.UnsolInterval? ==> ss == If(f.unsolInterval != 0, k, Dec(f.unsolInterval)))
            && (k.FilsInterval? ==> ss == If(f.unsolInterval == 0, k, "20"))
            && (k.HeBssColor? ==> ss == [Setting(k, "19")])
            && (k.Ieee80211d? ==> ss == [Setting(k, "1")])
            && (k.CountryCode? ==> ss == [Setting(k, "US")])
            && (!k.UnsolInterval? && !k.FilsInterval? && !k.HeBssColor? && !k.Ieee80211d? && !k.CountryCode? ==> ss == [])
  {
    FromGroups(If(f.unsolInterval != 0, UnsolInterval, Dec(f.unsolInterval)), If(f.unsolInterval == 0, FilsInterval, "20"),
               [Setting(HeBssColor, "19")], [Setting(Ieee80211d, "1")], [Setting(CountryCode, "US")],
               UnsolInterval, FilsInterval, HeBssColor, Ieee80211d, CountryCode, k);
  }

  lemma SixGOnly(f: Flags, radio: Radio, w: int, k: Key)
    ensures var ss := Only(SixG(f, radio, w), k);
            && (k.HeChwidth? ==> ss == If(!f.width.chwidthset, k, Dec(w)))
            && (k.OpClass? ==> ss == OperatingClass(w))
            && (k.HeCentre? ==> ss == [Setting(k, Dec(radio.centre6g(f.channel, w)))])
            && (!k.HeChwidth? && !k.OpClass? && !k.HeCentre? ==> ss == Only(SixGBack(f), k))
  {
    var a, b := If(!f.width.chwidthset, HeChwidth, Dec(w)), OperatingClass(w);
    var c := [Setting(HeCentre, Dec(radio.centre6g(f.channel, w)))];
    assert a + b + c + [] + [] == a + b + c;
    FromGroups(a, b, c, [], [], HeChwidth, OpClass, HeCentre, VhtCapab, VhtCentre, k);
    OnlyConcat(a + b + c, SixGBack(f), k);
    SixGBackOnly(f, k);
  }

  lemma WideFrontOnly(w: int, k: Key)
    ensures var ss := Only(WideFront(w), k);
            && (k.Ieee80211d? ==> ss == If(w == 2, k, "1"))
            && (k.CountryCode? ==> ss == If(w == 2, k, "US"))
            && (k.Ieee80211h? ==> ss == If(w == 2, k, "1"))
            && (!k.Ieee80211d? && !k.CountryCode? && !k.Ieee80211h? ==> ss == [])
  {
    var a, b, c := If(w == 2, Ieee80211d, "1"), If(w == 2, CountryCode, "US"), If(w == 2, Ieee80211h, "1");
    assert a + b + c + [] + [] == a + b + c;
    FromGroups(a, b, c, [], [], Ieee80211d, CountryCode, Ieee80211h, HeCentre, VhtCentre, k);
  }

  lemma WideBackOnly(f: Flags, w: int, centre: int, k: Key)
    ensures var ss, ac, ax := Only(WideBack(f, w, centre), k), f.feat.enableAc, f.feat.enableAx;
            && (k.VhtChwidth? ==> ss == If(ac && !f.width.vhtChwidthset, k, Dec(w)))
            && (k.VhtCentre? ==> ss == If(ac, k, Dec(centre)))
            && (k.VhtCapab? ==> ss == If(ac && w == 2, k, "[VHT160]"))
            && (k.HeChwidth? ==> ss == If(ax && !f.width.chwidthset, k, Dec(w)))
            && (k.HeCentre? ==> ss == If(ax, k, Dec(centre)))
            && (!k.VhtChwidth? && !k.VhtCentre? && !k.VhtCapab? && !k.HeChwidth? && !k.HeCentre? ==> ss == [])
  {
    var ac, ax := f.feat.enableAc, f.feat.enableAx;
    FromGroups(If(ac && !f.width.vhtChwidthset, VhtChwidth, Dec(w)), If(ac, VhtCentre, Dec(centre)),
               If(ac && w == 2, VhtCapab, "[VHT160]"), If(ax && !f.width.chwidthset, HeChwidth, Dec(w)),
               If(ax, HeCentre, Dec(centre)), VhtChwidth, VhtCentre, VhtCapab, HeChwidth, HeCentre, k);
  }

  lemma FiveGOnly(f: Flags, radio: Radio, w0: int, k: Key)
    ensures var w := SideWidth(f, radio, w0);
            Only(FiveG(f, radio, w0), k) ==
              if k.HtCapab? then Side(f, radio)
              else if w > 0 then Only(WideFront(w), k) + Only(WideBack(f, w, radio.centre(f.channel, w)), k)
              else []
  {
    var w := SideWidth(f, radio, w0);
    var a, b, c := Side(f, radio), WideFront(w), WideBack(f, w, radio.centre(f.channel, w));
    AllOrNone(a, HtCapab, k);
    if w > 0 {
      assert FiveG(f, radio, w0) == a + b + c;
      OnlyConcat(a + b, c, k);
      OnlyConcat(a, b, k);
      if k.HtCapab? {
        WideFrontOnly(w, k);
        WideBackOnly(f, w, radio.centre(f.channel, w), k);
      } else {
        Behind(Only(a, k), Only(b, k), Only(c, k));
      }
    }
  }

  lemma Behind(a: seq<Setting>, b: seq<Setting>, c: seq<Setting>)
    requires a == []
    ensures a + b + c == b + c
  {
  }

  // ---------- from settings to lines ----------

  predicate AllFeatures(ss: seq<Setting>) {
    forall i :: 0 <= i < |ss| ==> IsFeature(ss[i].key)
  }

  lemma BothFeatures(a: seq<Setting>, b: seq<Setting>)
    requires AllFeatures(a) && AllFeatures(b)
    ensures AllFeatures(a + b)
  {
  }

  lemma FeaturesOnly(f: Flags, k: Key)
    requires !IsFeature(k)
    ensures Only(FeatureSettings(f), k) == []
  {
    BothFeatures(EDCA_BE, EDCA_BK);
    BothFeatures(EDCA_BE + EDCA_BK, EDCA_VI);
    BothFeatures(EDCA_BE + EDCA_BK + EDCA_VI, EDCA_VO);
    BothFeatures(if f.feat.enableMuedca then EDCA else [], Hs20(f.feat.enableHs20));
    NoneHasKey(FeatureSettings(f), k);
  }

  /** A setting other than the feature settings stands in the front or among the width settings. */
  lemma SettingsOnly(f: Flags, radio: Radio, transmitter: bool, k: Key)
    requires f.band.Some? && !IsFeature(k)
    ensures var ss := Only(Settings(f, radio, transmitter), k);
            ss == if InFront(k) then Only(FrontSettings(f, transmitter), k) else Only(WidthSettings(f, radio), k)
  {
    var a, b, c := FrontSettings(f, transmitter), WidthSettings(f, radio), FeatureSettings(f);
    OnlyConcat(a + b, c, k);
    OnlyConcat(a, b, k);
    FeaturesOnly(f, k);
    FrontOnly(f, transmitter, k);
    if InFront(k) {
      NotInWidth(f, radio, k);
    }
  }

  lemma NotInWidth(f: Flags, radio: Radio, k: Key)
    requires f.band.Some? && InFront(k)
    ensures Only(WidthSettings(f, radio), k) == []
  {
    var w := SideWidth(f, radio, BaseWidth(f));
    SixGOnly(f, radio, BaseWidth(f), k);
    SixGBackOnly(f, k);
    FiveGOnly(f, radio, BaseWidth(f), k);
    WideFrontOnly(w, k);
    WideBackOnly(f, w, radio.centre(f.channel, w), k);
  }

  lemma EdcaDiffer(j: Key, k: Key)
    requires j.Edca? && k.Edca? && Name(j) == Name(k)
    ensures j == k
  {
    assert Name(j)[14..16] == CategoryName(j.ac) && Name(k)[14..16] == CategoryName(k.ac);
    assert Name(j)[17..] == ItemName(j.item) && Name(k)[17..] == ItemName(k.item);
    assert CategoryName(j.ac)[0] == CategoryName(k.ac)[0] && CategoryName(j.ac)[1] == CategoryName(k.ac)[1];
    assert ItemName(j.item)[2] == ItemName(k.item)[2] && |ItemName(j.item)| == |ItemName(k.item)|;
    if |ItemName(j.item)| == 6 {
      assert ItemName(j.item)[4] == ItemName(k.item)[4];
    }
  }

  lemma EdcaShape(k: Key)
    ensures |Name(k)| > 11 && Name(k)[3] == 'm' && Name(k)[11] == 'a' <==> k.Edca?
  {
  }

  lemma ShortDiffer(j: Key, k: Key)
    requires !j.Edca? && !k.Edca? && |Name(j)| < 10 && Name(j) == Name(k)
    ensures j == k
  {
    assert Name(j)[0] == Name(k)[0];
  }

  lemma TenDiffer(j: Key, k: Key)
    requires !j.Edca? && !k.Edca? && |Name(j)| == 10 && Name(j) == Name(k)
    ensures j == k
  {
    assert Name(j)[0] == Name(k)[0] && Name(j)[9] == Name(k)[9];
  }

  lemma MiddleDiffer(j: Key, k: Key)
    requires !j.Edca? && !k.Edca? && 10 < |Name(j)| <= 15 && Name(j) == Name(k)
    ensures j == k
  {
    assert Name(j)[0] == Name(k)[0] && Name(j)[1] == Name(k)[1];
  }

  lemma LongDiffer(j: Key, k: Key)
    requires !j.Edca? && !k.Edca? && |Name(j)| > 15 && Name(j) == Name(k)
    ensures j == k
  {
    assert Name(j)[0] == Name(k)[0];
  }

  /** Different keys have different names. */
  lemma NamesDiffer(j: Key, k: Key)
    requires Name(j) == Name(k)
    ensures j == k
  {
    EdcaShape(j);
    EdcaShape(k);
    if j.Edca? {
      EdcaDiffer(j, k);
    } else if |Name(j)| < 10 {
      ShortDiffer(j, k);
    } else if |Name(j)| == 10 {
      TenDiffer(j, k);
    } else if |Name(j)| <= 15 {
      MiddleDiffer(j, k);
    } else {
      LongDiffer(j, k);
    }
  }

  /** The lines of a text that start with a name and an equals sign are the settings of that key. */
  lemma {:induction false} LinesOfKey(ss: seq<Setting>, k: Key)
    ensures WithKey(Rendered(ss), Name(k) + "=") == Rendered(Only(ss, k))
  {
    if ss != [] {
      LinesOfKey(ss[1..], k);
      OwnLine(ss[0], k);
      assert Rendered(ss)[1..] == Rendered(ss[1..]);
      if ss[0].key == k {
        assert Only(ss, k)[1..] == Only(ss[1..], k);
      }
    }
  }

  /** A text is cut at its first equals sign in one way only. */
  lemma {:induction false} FirstEquals(m: string, u: string, n: string, v: string)
    requires '=' !in m && '=' !in n && m + "=" + u == n + "=" + v
    ensures m == n
  {
    assert (m + "=" + u)[0] == (n + "=" + v)[0];
    if m != "" && n != "" {
      assert (m + "=" + u)[1..] == m[1..] + "=" + u && (n + "=" + v)[1..] == n[1..] + "=" + v;
      FirstEquals(m[1..], u, n[1..], v);
      assert m == [m[0]] + m[1..] && n == [n[0]] + n[1..];
    }
  }

  /** A line starts with a name and an equals sign exactly if it has that key. */
  lemma OwnLine(s: Setting, k: Key)
    ensures Name(k) + "=" <= Render(s) <==> s.key == k
  {
    var front, l := Name(k) + "=", Render(s);
    if front <= l {
      NameIsPlain(k);
      NameIsPlain(s.key);
      assert l == front + l[|front|..];
      FirstEquals(Name(k), l[|front|..], Name(s.key), s.value);
      NamesDiffer(k, s.key);
    }
  }

  /** The appended lines of a request. */
  ghost function Appended(tables: Tables, ts: seq<Tlv>, radio: Radio, transmitter: bool): seq<string>
    requires Scan(tables, INITIAL, ts).band.Some?
  {
    Lines(Tail(Scan(tables, INITIAL, ts), radio, transmitter))
  }

  lemma AppendedOnly(tables: Tables, ts: seq<Tlv>, radio: Radio, transmitter: bool, k: Key)
    requires Scan(tables, INITIAL, ts).band.Some? && !IsFeature(k)
    ensures var f := Scan(tables, INITIAL, ts);
            WithKey(Appended(tables, ts, radio, transmitter), Name(k) + "=") ==
            Rendered(if InFront(k) then Only(FrontSettings(f, transmitter), k) else Only(WidthSettings(f, radio), k))
  {
    var f := Scan(tables, INITIAL, ts);
    LinesOfTail(f, radio, transmitter);
    LinesOfKey(Settings(f, radio, transmitter), k);
    SettingsOnly(f, radio, transmitter, k);
  }

  // ---------- what the appended text says ----------

  function Says(c: bool, line: string): seq<string> {
    if c then [line] else []
  }

  lemma PmfText()
    ensures Name(Ieee80211w) + "=" == "ieee80211w="
    ensures Rendered([Setting(Ieee80211w, "1")]) == ["ieee80211w=1"]
    ensures Rendered([Setting(Ieee80211w, "2")]) == ["ieee80211w=2"]
  {
    assert Render(Setting(Ieee80211w, "1")) == "ieee80211w=1" && Render(Setting(Ieee80211w, "2")) == "ieee80211w=2";
  }

  lemma WpsText()
    ensures Name(WpsRfBands) + "=" == "wps_rf_bands="
    ensures Rendered([Setting(WpsRfBands, "ag")]) == ["wps_rf_bands=ag"]
    ensures Rendered([Setting(WpsRfBands, "a")]) == ["wps_rf_bands=a"]
    ensures Rendered([Setting(WpsRfBands, "g")]) == ["wps_rf_bands=g"]
  {
    assert Render(Setting(WpsRfBands, "ag")) == "wps_rf_bands=ag";
    assert Render(Setting(WpsRfBands, "a")) == "wps_rf_bands=a";
    assert Render(Setting(WpsRfBands, "g")) == "wps_rf_bands=g";
  }

  lemma MfpText()
    ensures Name(SaeRequireMfp) + "=" == "sae_require_mfp="
    ensures Rendered([Setting(SaeRequireMfp, "1")]) == ["sae_require_mfp=1"]
  {
    assert Render(Setting(SaeRequireMfp, "1")) == "sae_require_mfp=1";
  }

  lemma GroupsText()
    ensures Name(SaeGroups) + "=" == "sae_groups="
    ensures Rendered([Setting(SaeGroups, "15 16 17 18 19 20 21")]) == ["sae_groups=15 16 17 18 19 20 21"]
  {
    assert Render(Setting(SaeGroups, "15 16 17 18 19 20 21")) == "sae_groups=15 16 17 18 19 20 21";
  }

  lemma TransmitterText()
    ensures Name(MultipleBssid) + "=" == "multiple_bssid="
    ensures Rendered([Setting(MultipleBssid, "1")]) == ["multiple_bssid=1"]
  {
    assert Render(Setting(MultipleBssid, "1")) == "multiple_bssid=1";
  }

  lemma NumberText(k: Key, n: int)
    ensures Rendered([Setting(k, Dec(n))]) == [Name(k) + "=" + Dec(n)]
  {
  }

  lemma WidthKeys()
    ensures Name(HeChwidth) + "=" == "he_oper_chwidth=" && Name(VhtChwidth) + "=" == "vht_oper_chwidth="
  {
  }

  lemma CentreKeys()
    ensures Name(HeCentre) + "=" == "he_oper_centr_freq_seg0_idx="
    ensures Name(VhtCentre) + "=" == "vht_oper_centr_freq_seg0_idx="
  {
  }

  lemma CapabText()
    ensures Name(VhtCapab) + "=" == "vht_capab=" && Rendered([Setting(VhtCapab, "[VHT160]")]) == ["vht_capab=[VHT160]"]
  {
    assert Render(Setting(VhtCapab, "[VHT160]")) == "vht_capab=[VHT160]";
  }

  lemma SideText()
    ensures Name(HtCapab) + "=" == "ht_capab="
    ensures Rendered([Setting(HtCapab, "[HT40+]")]) == ["ht_capab=[HT40+]"]
    ensures Rendered([Setting(HtCapab, "[HT40-]")]) == ["ht_capab=[HT40-]"]
  {
    assert Render(Setting(HtCapab, "[HT40+]")) == "ht_capab=[HT40+]";
    assert Render(Setting(HtCapab, "[HT40-]")) == "ht_capab=[HT40-]";
  }

  lemma CountryText()
    ensures Name(Ieee80211d) + "=" == "ieee80211d=" && Rendered([Setting(Ieee80211d, "1")]) == ["ieee80211d=1"]
    ensures Name(Ieee80211h) + "=" == "ieee80211h=" && Rendered([Setting(Ieee80211h, "1")]) == ["ieee80211h=1"]
    ensures Name(CountryCode) + "=" == "country_code=" && Rendered([Setting(CountryCode, "US")]) == ["country_code=US"]
  {
    assert Render(Setting(Ieee80211d, "1")) == "ieee80211d=1" && Render(Setting(Ieee80211h, "1")) == "ieee80211h=1";
    assert Render(Setting(CountryCode, "US")) == "country_code=US";
  }

  lemma CadenceKey()
    ensures Name(UnsolInterval) + "=" == "unsol_bcast_probe_resp_interval="
  {
  }

  lemma DiscoveryText()
    ensures Name(FilsInterval) + "=" == "fils_discovery_max_interval="
    ensures Rendered([Setting(FilsInterval, "20")]) == ["fils_discovery_max_interval=20"]
    ensures Name(HeBssColor) + "=" == "he_bss_color=" && Rendered([Setting(HeBssColor, "19")]) == ["he_bss_color=19"]
  {
    assert Render(Setting(FilsInterval, "20")) == "fils_discovery_max_interval=20";
    assert Render(Setting(HeBssColor, "19")) == "he_bss_color=19";
  }

  lemma ClassText()
    ensures Name(OpClass) + "=" == "op_class="
    ensures Rendered([Setting(OpClass, "133")]) == ["op_class=133"]
    ensures Rendered([Setting(OpClass, "134")]) == ["op_class=134"]
  {
    assert Render(Setting(OpClass, "133")) == "op_class=133" && Render(Setting(OpClass, "134")) == "op_class=134";
  }

  /** The management frame protection default: none if the request says ieee80211w itself; 1 if one
      key management TLV names both SAE and WPA-PSK; 2 for SAE with WPA2, or for OWE; 1 for WPA2 alone. */
  lemma PmfLine(tables: Tables, ts: seq<Tlv>, radio: Radio, transmitter: bool)
    requires Scan(tables, INITIAL, ts).band.Some?
    ensures WithKey(Appended(tables, ts, radio, transmitter), "ieee80211w=") ==
            if Gives(tables, ts, TLV_IEEE80211_W) then []
            else if AsksBoth(tables, ts, TLV_WPA_KEY_MGMT, "SAE", "WPA-PSK") then ["ieee80211w=1"]
            else if Asks(tables, ts, TLV_WPA_KEY_MGMT, "SAE") && Asks(tables, ts, TLV_WPA, "2") then ["ieee80211w=2"]
            else if Asks(tables, ts, TLV_WPA_KEY_MGMT, "OWE") then ["ieee80211w=2"]
            else if Asks(tables, ts, TLV_WPA, "2") then ["ieee80211w=1"]
            else []
  {
    KeyMgmtFlags(tables, ts);
    SecurityFlags(tables, ts);
    AppendedOnly(tables, ts, radio, transmitter, Ieee80211w);
    FrontOnly(Scan(tables, INITIAL, ts), transmitter, Ieee80211w);
    PmfText();
  }

  /** WPS: none unless the request enables it and the vendor supplies settings; then ag if the request
      names a BSS, and the first letter of the mode, a or g, otherwise. */
  lemma WpsLine(tables: Tables, ts: seq<Tlv>, radio: Radio, transmitter: bool)
    requires Scan(tables, INITIAL, ts).band.Some?
    ensures var mode := LastValue(ts, ListedOf(tables, {TLV_HW_MODE}));
            && mode.Some?
            && WithKey(Appended(tables, ts, radio, transmitter), "wps_rf_bands=") ==
               if !tables.wpsSettings || !Present(ts, TLV_WPS_ENABLE)
                  || TLV_WPS_ENABLE in tables.semicolon || TLV_WPS_ENABLE in tables.profiles then []
               else if Present(ts, TLV_BSS_IDENTIFIER) then ["wps_rf_bands=ag"]
               else if mode.value != "" && mode.value[0] == 'a' then ["wps_rf_bands=a"]
               else if mode.value != "" && mode.value[0] == 'g' then ["wps_rf_bands=g"]
               else []
  {
    RadioFlags(tables, ts);
    FeatureFlags(tables, ts);
    AppendedOnly(tables, ts, radio, transmitter, WpsRfBands);
    FrontOnly(Scan(tables, INITIAL, ts), transmitter, WpsRfBands);
    WpsText();
    FirstLetter(Scan(tables, INITIAL, ts).band.value);
  }

  lemma FirstLetter(s: string)
    ensures "a" <= s <==> s != "" && s[0] == 'a'
    ensures "g" <= s <==> s != "" && s[0] == 'g'
  {
  }

  /** SAE requires management frame protection. */
  lemma MfpLine(tables: Tables, ts: seq<Tlv>, radio: Radio, transmitter: bool)
    requires Scan(tables, INITIAL, ts).band.Some?
    ensures WithKey(Appended(tables, ts, radio, transmitter), "sae_require_mfp=") ==
            Says(Asks(tables, ts, TLV_WPA_KEY_MGMT, "SAE"), "sae_require_mfp=1")
  {
    KeyMgmtFlags(tables, ts);
    AppendedOnly(tables, ts, radio, transmitter, SaeRequireMfp);
    FrontOnly(Scan(tables, INITIAL, ts), transmitter, SaeRequireMfp);
    MfpText();
  }

  /** The default groups, for SAE if the request lists none. */
  lemma GroupsLine(tables: Tables, ts: seq<Tlv>, radio: Radio, transmitter: bool)
    requires Scan(tables, INITIAL, ts).band.Some?
    ensures WithKey(Appended(tables, ts, radio, transmitter), "sae_groups=") ==
            Says(Asks(tables, ts, TLV_WPA_KEY_MGMT, "SAE") && !Gives(tables, ts, TLV_SAE_GROUPS),
                 "sae_groups=15 16 17 18 19 20 21")
  {
    KeyMgmtFlags(tables, ts);
    SecurityFlags(tables, ts);
    AppendedOnly(tables, ts, radio, transmitter, SaeGroups);
    FrontOnly(Scan(tables, INITIAL, ts), transmitter, SaeGroups);
    GroupsText();
  }

  /** A transmitter says that there are several BSSes. */
  lemma TransmitterLine(tables: Tables, ts: seq<Tlv>, radio: Radio, transmitter: bool)
    requires Scan(tables, INITIAL, ts).band.Some?
    ensures WithKey(Appended(tables, ts, radio, transmitter), "multiple_bssid=") == Says(transmitter, "multiple_bssid=1")
  {
    AppendedOnly(tables, ts, radio, transmitter, MultipleBssid);
    FrontOnly(Scan(tables, INITIAL, ts), transmitter, MultipleBssid);
    TransmitterText();
  }

  // ---------- the width lines of a request ----------

  /** The width a request asks for: the last of its width TLVs, 1 without one; 0 without 11ac and 11ax. */
  ghost function AskedWidth(tables: Tables, ts: seq<Tlv>): int {
    if Asks(tables, ts, TLV_IEEE80211_AC, "1") || Asks(tables, ts, TLV_IEEE80211_AX, "1")
    then LastNumber(ts, ListedOf(tables, {TLV_HE_OPER_CHWIDTH, TLV_VHT_OPER_CHWIDTH}), 1) else 0
  }

  function Channel(ts: seq<Tlv>): int {
    LastNumber(ts, {TLV_CHANNEL}, 0)
  }

  /** The band is 5 GHz. */
  predicate FiveGhz(tables: Tables, ts: seq<Tlv>) {
    var mode := LastValue(ts, ListedOf(tables, {TLV_HW_MODE}));
    mode.Some? && Contains(mode.value, "a")
  }

  /** In the 5 GHz band, on a channel with an HT40 side, the width is above 0. */
  ghost predicate Wide(tables: Tables, ts: seq<Tlv>, radio: Radio) {
    && !Present(ts, TLV_HE_6G_ONLY) && FiveGhz(tables, ts)
    && (radio.ht40plus(Channel(ts)) || radio.ht40minus(Channel(ts))) && AskedWidth(tables, ts) > 0
  }

  lemma WidthFacts(tables: Tables, ts: seq<Tlv>, radio: Radio)
    requires Scan(tables, INITIAL, ts).band.Some?
    ensures var f := Scan(tables, INITIAL, ts);
            && BaseWidth(f) == AskedWidth(tables, ts) && f.channel == Channel(ts)
            && (Contains(f.band.value, "a") <==> FiveGhz(tables, ts))
            && (f.is6gOnly <==> Present(ts, TLV_HE_6G_ONLY))
            && (f.width.chwidthset <==> Gives(tables, ts, TLV_HE_OPER_CHWIDTH))
            && (f.width.vhtChwidthset <==> Gives(tables, ts, TLV_VHT_OPER_CHWIDTH))
            && (f.feat.enableAx <==> Asks(tables, ts, TLV_IEEE80211_AX, "1"))
            && (f.feat.enableAc <==> Asks(tables, ts, TLV_IEEE80211_AC, "1"))
            && (Wide(tables, ts, radio) <==> IsWide(f, radio))
            && f.unsolInterval == LastNumber(ts, ListedOf(tables, {TLV_HE_UNSOL_PR_RESP_CADENCE}), 0)
  {
    WidthsGiven(tables, ts);
    WidthNumber(tables, ts);
    RadioFlags(tables, ts);
    FeatureFlags(tables, ts);
  }

  predicate IsWide(f: Flags, radio: Radio)
    requires f.band.Some?
  {
    !f.is6gOnly && Contains(f.band.value, "a") && SideWidth(f, radio, BaseWidth(f)) > 0
  }

  /** What stands among the width settings, by key. */
  lemma WidthSays(f: Flags, radio: Radio, k: Key)
    requires f.band.Some? && !InFront(k)
    ensures var ss, w, wide := Only(WidthSettings(f, radio), k), BaseWidth(f), IsWide(f, radio);
            var ac, ax, six := wide && f.feat.enableAc, wide && f.feat.enableAx, f.is6gOnly;
            var c, c6 := Dec(radio.centre(f.channel, w)), Dec(radio.centre6g(f.channel, w));
            && (k.OpClass? ==> ss == if six then OperatingClass(w) else [])
            && (k.HeChwidth? ==> ss == If((six || ax) && !f.width.chwidthset, k, Dec(w)))
            && (k.HeCentre? ==> ss == If(six || ax, k, if six then c6 else c))
            && (k.VhtChwidth? ==> ss == If(ac && !f.width.vhtChwidthset, k, Dec(w)))
            && (k.VhtCentre? ==> ss == If(ac, k, c))
            && (k.VhtCapab? ==> ss == If(ac && w == 2, k, "[VHT160]"))
            && (k.Ieee80211d? ==> ss == If(six || (wide && w == 2), k, "1"))
            && (k.CountryCode? ==> ss == If(six || (wide && w == 2), k, "US"))
            && (k.Ieee80211h? ==> ss == If(wide && w == 2, k, "1"))
            && (k.UnsolInterval? ==> ss == If(six && f.unsolInterval != 0, k, Dec(f.unsolInterval)))
            && (k.FilsInterval? ==> ss == If(six && f.unsolInterval == 0, k, "20"))
            && (k.HeBssColor? ==> ss == If(six, k, "19"))
            && (k.HtCapab? ==> ss == if !six && Contains(f.band.value, "a") then Side(f, radio) else [])
  {
    var w := BaseWidth(f);
    if f.is6gOnly {
      assert Only(WidthSettings(f, radio), k) == Only(SixG(f, radio, w), k);
      SixGOnly(f, radio, w, k);
      SixGBackOnly(f, k);
    } else if Contains(f.band.value, "a") {
      assert Only(WidthSettings(f, radio), k) == Only(FiveG(f, radio, w), k);
      FiveGOnly(f, radio, w, k);
      WideFrontOnly(w, k);
      WideBackOnly(f, w, radio.centre(f.channel, w), k);
    }
  }

  /** The operating class: 133 for 80 MHz, 134 for 160 MHz, in the 6 GHz band only. */
  lemma ClassLine(tables: Tables, ts: seq<Tlv>, radio: Radio, transmitter: bool)
    requires Scan(tables, INITIAL, ts).band.Some?
    ensures WithKey(Appended(tables, ts, radio, transmitter), "op_class=") ==
            if Present(ts, TLV_HE_6G_ONLY) && AskedWidth(tables, ts) == 1 then ["op_class=133"]
            else if Present(ts, TLV_HE_6G_ONLY) && AskedWidth(tables, ts) == 2 then ["op_class=134"]
            else []
  {
    var f := Scan(tables, INITIAL, ts);
    WidthFacts(tables, ts, radio);
    AppendedOnly(tables, ts, radio, transmitter, OpClass);
    WidthSays(f, radio, OpClass);
    ClassText();
  }

  /** The HE lines are written in the 6 GHz band, and with 11ax for a wide channel of the 5 GHz band. */
  ghost predicate HeWritten(tables: Tables, ts: seq<Tlv>, radio: Radio) {
    Present(ts, TLV_HE_6G_ONLY) || (Wide(tables, ts, radio) && Asks(tables, ts, TLV_IEEE80211_AX, "1"))
  }

  /** The VHT lines with 11ac for such a channel. */
  ghost predicate VhtWritten(tables: Tables, ts: seq<Tlv>, radio: Radio) {
    Wide(tables, ts, radio) && Asks(tables, ts, TLV_IEEE80211_AC, "1")
  }

  /** The HE width, unless the request gives it itself. */
  lemma HeWidthLine(tables: Tables, ts: seq<Tlv>, radio: Radio, transmitter: bool)
    requires Scan(tables, INITIAL, ts).band.Some?
    ensures WithKey(Appended(tables, ts, radio, transmitter), "he_oper_chwidth=") ==
            Says(HeWritten(tables, ts, radio) && !Gives(tables, ts, TLV_HE_OPER_CHWIDTH),
                 "he_oper_chwidth=" + Dec(AskedWidth(tables, ts)))
  {
    var f := Scan(tables, INITIAL, ts);
    WidthFacts(tables, ts, radio);
    AppendedOnly(tables, ts, radio, transmitter, HeChwidth);
    WidthSays(f, radio, HeChwidth);
    NumberText(HeChwidth, BaseWidth(f));
    WidthKeys();
  }

  /** The VHT width, unless the request gives it itself. */
  lemma VhtWidthLine(tables: Tables, ts: seq<Tlv>, radio: Radio, transmitter: bool)
    requires Scan(tables, INITIAL, ts).band.Some?
    ensures WithKey(Appended(tables, ts, radio, transmitter), "vht_oper_chwidth=") ==
            Says(VhtWritten(tables, ts, radio) && !Gives(tables, ts, TLV_VHT_OPER_CHWIDTH),
                 "vht_oper_chwidth=" + Dec(AskedWidth(tables, ts)))
  {
    var f := Scan(tables, INITIAL, ts);
    WidthFacts(tables, ts, radio);
    AppendedOnly(tables, ts, radio, transmitter, VhtChwidth);
    WidthSays(f, radio, VhtChwidth);
    NumberText(VhtChwidth, BaseWidth(f));
    WidthKeys();
  }

  /** The HE centre, by the table of the band. */
  lemma HeCentreLine(tables: Tables, ts: seq<Tlv>, radio: Radio, transmitter: bool)
    requires Scan(tables, INITIAL, ts).band.Some?
    ensures var w, ch := AskedWidth(tables, ts), Channel(ts);
            var c := if Present(ts, TLV_HE_6G_ONLY) then radio.centre6g(ch, w) else radio.centre(ch, w);
            WithKey(Appended(tables, ts, radio, transmitter), "he_oper_centr_freq_seg0_idx=") ==
            Says(HeWritten(tables, ts, radio), "he_oper_centr_freq_seg0_idx=" + Dec(c))
  {
    var f := Scan(tables, INITIAL, ts);
    WidthFacts(tables, ts, radio);
    AppendedOnly(tables, ts, radio, transmitter, HeCentre);
    WidthSays(f, radio, HeCentre);
    NumberText(HeCentre, radio.centre(f.channel, BaseWidth(f)));
    NumberText(HeCentre, radio.centre6g(f.channel, BaseWidth(f)));
    CentreKeys();
  }

  /** The VHT centre. */
  lemma VhtCentreLine(tables: Tables, ts: seq<Tlv>, radio: Radio, transmitter: bool)
    requires Scan(tables, INITIAL, ts).band.Some?
    ensures WithKey(Appended(tables, ts, radio, transmitter), "vht_oper_centr_freq_seg0_idx=") ==
            Says(VhtWritten(tables, ts, radio),
                 "vht_oper_centr_freq_seg0_idx=" + Dec(radio.centre(Channel(ts), AskedWidth(tables, ts))))
  {
    var f := Scan(tables, INITIAL, ts);
    WidthFacts(tables, ts, radio);
    AppendedOnly(tables, ts, radio, transmitter, VhtCentre);
    WidthSays(f, radio, VhtCentre);
    NumberText(VhtCentre, radio.centre(f.channel, BaseWidth(f)));
    CentreKeys();
  }

  /** The capability for 160 MHz with 11ac. */
  lemma VhtCapabLine(tables: Tables, ts: seq<Tlv>, radio: Radio, transmitter: bool)
    requires Scan(tables, INITIAL, ts).band.Some?
    ensures WithKey(Appended(tables, ts, radio, transmitter), "vht_capab=") ==
            Says(VhtWritten(tables, ts, radio) && AskedWidth(tables, ts) == 2, "vht_capab=[VHT160]")
  {
    var f := Scan(tables, INITIAL, ts);
    WidthFacts(tables, ts, radio);
    AppendedOnly(tables, ts, radio, transmitter, VhtCapab);
    WidthSays(f, radio, VhtCapab);
    CapabText();
  }

  /** The HT40 side, in the 5 GHz band and whatever the width. */
  lemma SideLine(tables: Tables, ts: seq<Tlv>, radio: Radio, transmitter: bool)
    requires Scan(tables, INITIAL, ts).band.Some?
    ensures WithKey(Appended(tables, ts, radio, transmitter), "ht_capab=") ==
            if Present(ts, TLV_HE_6G_ONLY) || !FiveGhz(tables, ts) then []
            else if radio.ht40plus(Channel(ts)) then ["ht_capab=[HT40+]"]
            else if radio.ht40minus(Channel(ts)) then ["ht_capab=[HT40-]"]
            else []
  {
    var f := Scan(tables, INITIAL, ts);
    WidthFacts(tables, ts, radio);
    AppendedOnly(tables, ts, radio, transmitter, HtCapab);
    WidthSays(f, radio, HtCapab);
    SideText();
  }

  /** 160 MHz in the 5 GHz band. */
  ghost predicate NeedsDfs(tables: Tables, ts: seq<Tlv>, radio: Radio) {
    Wide(tables, ts, radio) && AskedWidth(tables, ts) == 2
  }

  /** 11d, in the 6 GHz band and for 160 MHz in the 5 GHz band. */
  lemma RegulatoryLine(tables: Tables, ts: seq<Tlv>, radio: Radio, transmitter: bool)
    requires Scan(tables, INITIAL, ts).band.Some?
    ensures WithKey(Appended(tables, ts, radio, transmitter), "ieee80211d=") ==
            Says(Present(ts, TLV_HE_6G_ONLY) || NeedsDfs(tables, ts, radio), "ieee80211d=1")
  {
    var f := Scan(tables, INITIAL, ts);
    WidthFacts(tables, ts, radio);
    AppendedOnly(tables, ts, radio, transmitter, Ieee80211d);
    WidthSays(f, radio, Ieee80211d);
    CountryText();
  }

  /** The country, likewise. */
  lemma CountryLine(tables: Tables, ts: seq<Tlv>, radio: Radio, transmitter: bool)
    requires Scan(tables, INITIAL, ts).band.Some?
    ensures WithKey(Appended(tables, ts, radio, transmitter), "country_code=") ==
            Says(Present(ts, TLV_HE_6G_ONLY) || NeedsDfs(tables, ts, radio), "country_code=US")
  {
    var f := Scan(tables, INITIAL, ts);
    WidthFacts(tables, ts, radio);
    AppendedOnly(tables, ts, radio, transmitter, CountryCode);
    WidthSays(f, radio, CountryCode);
    CountryText();
  }

  /** 11h, for 160 MHz in the 5 GHz band only. */
  lemma DfsLine(tables: Tables, ts: seq<Tlv>, radio: Radio, transmitter: bool)
    requires Scan(tables, INITIAL, ts).band.Some?
    ensures WithKey(Appended(tables, ts, radio, transmitter), "ieee80211h=") ==
            Says(NeedsDfs(tables, ts, radio), "ieee80211h=1")
  {
    var f := Scan(tables, INITIAL, ts);
    WidthFacts(tables, ts, radio);
    AppendedOnly(tables, ts, radio, transmitter, Ieee80211h);
    WidthSays(f, radio, Ieee80211h);
    CountryText();
  }

  ghost function Cadence(tables: Tables, ts: seq<Tlv>): int {
    LastNumber(ts, ListedOf(tables, {TLV_HE_UNSOL_PR_RESP_CADENCE}), 0)
  }

  /** Discovery, in the 6 GHz band only: the cadence the request gives, */
  lemma CadenceLine(tables: Tables, ts: seq<Tlv>, radio: Radio, transmitter: bool)
    requires Scan(tables, INITIAL, ts).band.Some?
    ensures WithKey(Appended(tables, ts, radio, transmitter), "unsol_bcast_probe_resp_interval=") ==
            Says(Present(ts, TLV_HE_6G_ONLY) && Cadence(tables, ts) != 0,
                 "unsol_bcast_probe_resp_interval=" + Dec(Cadence(tables, ts)))
  {
    var f := Scan(tables, INITIAL, ts);
    WidthFacts(tables, ts, radio);
    AppendedOnly(tables, ts, radio, transmitter, UnsolInterval);
    WidthSays(f, radio, UnsolInterval);
    NumberText(UnsolInterval, f.unsolInterval);
    CadenceKey();
  }

  /** and FILS discovery without one. */
  lemma FilsLine(tables: Tables, ts: seq<Tlv>, radio: Radio, transmitter: bool)
    requires Scan(tables, INITIAL, ts).band.Some?
    ensures WithKey(Appended(tables, ts, radio, transmitter), "fils_discovery_max_interval=") ==
            Says(Present(ts, TLV_HE_6G_ONLY) && Cadence(tables, ts) == 0, "fils_discovery_max_interval=20")
  {
    var f := Scan(tables, INITIAL, ts);
    WidthFacts(tables, ts, radio);
    AppendedOnly(tables, ts, radio, transmitter, FilsInterval);
    WidthSays(f, radio, FilsInterval);
    DiscoveryText();
  }

  /** The colour, in the 6 GHz band only. */
  lemma ColourLine(tables: Tables, ts: seq<Tlv>, radio: Radio, transmitter: bool)
    requires Scan(tables, INITIAL, ts).band.Some?
    ensures WithKey(Appended(tables, ts, radio, transmitter), "he_bss_color=") ==
            Says(Present(ts, TLV_HE_6G_ONLY), "he_bss_color=19")
  {
    var f := Scan(tables, INITIAL, ts);
    WidthFacts(tables, ts, radio);
    AppendedOnly(tables, ts, radio, transmitter, HeBssColor);
    WidthSays(f, radio, HeBssColor);
    DiscoveryText();
  }

  /** MU EDCA and Hotspot 2.0: the text ends with the settings of the features the request asks for. */
  lemma FeatureLines(tables: Tables, ts: seq<Tlv>, radio: Radio, transmitter: bool)
    requires Scan(tables, INITIAL, ts).band.Some?
    ensures var f := Scan(tables, INITIAL, ts);
            Appended(tables, ts, radio, transmitter) ==
              Rendered(FrontSettings(f, transmitter) + WidthSettings(f, radio))
              + ((if Gives(tables, ts, TLV_HE_MU_EDCA) then Rendered(EDCA) else [])
                 + (if Asks(tables, ts, TLV_HS20, "1") then
                      ["hs20_release=3", "manage_p2p=1", "allow_cross_connection=0", "bss_load_update_period=100",
                       "hs20_deauth_req_timeout=3"]
                    else []))
  {
    var f := Scan(tables, INITIAL, ts);
    FeatureFlags(tables, ts);
    LinesOfTail(f, radio, transmitter);
    FeatureText(f);
    RenderedConcat(FrontSettings(f, transmitter) + WidthSettings(f, radio), FeatureSettings(f));
  }

  lemma FeatureText(f: Flags)
    ensures Rendered(FeatureSettings(f)) ==
            (if f.feat.enableMuedca then Rendered(EDCA) else [])
            + (if f.feat.enableHs20 then
                 ["hs20_release=3", "manage_p2p=1", "allow_cross_connection=0", "bss_load_update_period=100",
                  "hs20_deauth_req_timeout=3"]
               else [])
  {
    RenderedConcat(if f.feat.enableMuedca then EDCA else [], Hs20(f.feat.enableHs20));
    Hs20Text();
  }

  lemma Hs20Names()
    ensures Render(Setting(Hs20Release, "3")) == "hs20_release=3"
    ensures Render(Setting(ManageP2p, "1")) == "manage_p2p=1"
    ensures Render(Setting(CrossConnection, "0")) == "allow_cross_connection=0"
  {
  }

  lemma LoadNames()
    ensures Render(Setting(BssLoadPeriod, "100")) == "bss_load_update_period=100"
    ensures Render(Setting(DeauthTimeout, "3")) == "hs20_deauth_req_timeout=3"
  {
  }

  lemma Hs20Text()
    ensures Rendered(Hs20(true)) ==
            ["hs20_release=3", "manage_p2p=1", "allow_cross_connection=0", "bss_load_update_period=100",
             "hs20_deauth_req_timeout=3"]
    ensures Rendered(Hs20(false)) == []
  {
    Hs20Names();
    LoadNames();
  }
}
