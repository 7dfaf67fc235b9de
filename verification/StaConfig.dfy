/** generate_wpas_config: a station request turned into wpa_supplicant text.

    The text is built as a sequence of lines.  The claim is that this is a translation: every
    mapped TLV yields exactly one line, in the right section and in request order. */
module StaConfig {
  import opened Basics
  import opened TextTlv

  const TLV_IEEE80211_W := 0x0012
  const TLV_KEY_MGMT := 0x0036
  const TLV_STA_IEEE80211_W := 0x003c
  const TLV_CA_CERT := 0x0042
  const TLV_PAC_FILE := 0x006d
  const TLV_SERVER_CERT := 0x0099

  datatype Entry = Entry(id: int, name: string, quoted: bool)

  /** `maps` and `globals` are maps[] and wpas_global_maps[]; `certHash` is get_server_cert_hash. */
  datatype Tables = Tables(maps: seq<Entry>, globals: seq<Entry>, certHash: string -> string)

  const CA_BUNDLE := "/etc/ssl/certs/ca-certificates.crt"

  /** The first entry with this id. */
  function Lookup(es: seq<Entry>, id: int): (r: Option<Entry>)
    ensures r.Some? ==> r.value in es && r.value.id == id
    ensures r.None? <==> forall e :: e in es ==> e.id != id
  {
    if es == [] then None
    else if es[0].id == id then Some(es[0])
    else Lookup(es[1..], id)
  }

  method FindConfig(es: seq<Entry>, id: int) returns (r: Option<Entry>)
    ensures r == Lookup(es, id)
  {
    var i := 0;
    while i < |es|
      invariant 0 <= i <= |es|
      invariant Lookup(es, id) == Lookup(es[i..], id)
    {
      if es[i].id == id {
        return Some(es[i]);
      }
      i := i + 1;
    }
    return None;
  }

  // ---------- one line per TLV ----------

  predicate IsGlobal(tables: Tables, t: Tlv) {
    Lookup(tables.globals, t.id).Some?
  }

  predicate IsNetwork(tables: Tables, t: Tlv) {
    Lookup(tables.maps, t.id).Some? && !IsGlobal(tables, t)
  }

  function GlobalLine(tables: Tables, t: Tlv): string
    requires IsGlobal(tables, t)
  {
    Lookup(tables.globals, t.id).value.name + "=" + t.value + "\n"
  }

  /** The value as it is written. */
  function Written(tables: Tables, t: Tlv): string {
    if t.id == TLV_CA_CERT && t.value == "DEFAULT" then CA_BUNDLE
    else if t.id == TLV_SERVER_CERT then tables.certHash(t.value)
    else t.value
  }

  function NetworkLine(tables: Tables, t: Tlv): string
    requires IsNetwork(tables, t)
  {
    var e := Lookup(tables.maps, t.id).value;
    var v := Written(tables, t);
    if e.quoted then e.name + "=\"" + v + "\"\n" else e.name + "=" + v + "\n"
  }

  const HEADER := ["ctrl_interface=/var/run/wpa_supplicant\n", "ap_scan=1\n", "pmf=1\n"]
  const OPEN := "network={\n"
  const CLOSE := "}\n"

  function GlobalLines(tables: Tables, ts: seq<Tlv>): seq<string> {
    if ts == [] then []
    else GlobalLines(tables, ts[..|ts| - 1]) +
         (if IsGlobal(tables, ts[|ts| - 1]) then [GlobalLine(tables, ts[|ts| - 1])] else [])
  }

  function NetworkLines(tables: Tables, ts: seq<Tlv>): seq<string> {
    if ts == [] then []
    else NetworkLines(tables, ts[..|ts| - 1]) +
         (if IsNetwork(tables, ts[|ts| - 1]) then [NetworkLine(tables, ts[|ts| - 1])] else [])
  }

  // ---------- the management frame protection default ----------

  predicate IsExplicitPmf(tables: Tables, t: Tlv) {
    IsNetwork(tables, t) && (t.id == TLV_IEEE80211_W || t.id == TLV_STA_IEEE80211_W)
  }

  ghost predicate HasExplicitPmf(tables: Tables, ts: seq<Tlv>) {
    exists t :: t in ts && IsExplicitPmf(tables, t)
  }

  /** Some key management TLV names `a`, and `b` or not `b`. */
  ghost predicate Names(tables: Tables, ts: seq<Tlv>, a: string, withPsk: Option<bool>) {
    exists t :: t in ts && NamedBy(tables, t, a, withPsk)
  }

  predicate NamedBy(tables: Tables, t: Tlv, a: string, withPsk: Option<bool>) {
    IsNetwork(tables, t) && t.id == TLV_KEY_MGMT && Contains(t.value, a) &&
    (withPsk.None? || withPsk.value == Contains(t.value, "WPA-PSK"))
  }

  ghost function PmfLines(tables: Tables, ts: seq<Tlv>): seq<string> {
    if HasExplicitPmf(tables, ts) then []
    else if Names(tables, ts, "SAE", Some(true)) then ["ieee80211w=1\n"]
    else if Names(tables, ts, "SAE", Some(false)) || Names(tables, ts, "OWE", None) then ["ieee80211w=2\n"]
    else []
  }

  /** The whole configuration. */
  ghost function Config(tables: Tables, ts: seq<Tlv>): seq<string> {
    HEADER + GlobalLines(tables, ts) + [OPEN] + NetworkLines(tables, ts) + PmfLines(tables, ts) + [CLOSE]
  }

  /** The global pac_file_path after a request: the last PAC_FILE value, if any. */
  function PacPath(tables: Tables, ts: seq<Tlv>, was: string): string {
    if ts == [] then was
    else if IsNetwork(tables, ts[|ts| - 1]) && ts[|ts| - 1].id == TLV_PAC_FILE then ts[|ts| - 1].value
    else PacPath(tables, ts[..|ts| - 1], was)
  }

  lemma OneMore(tables: Tables, ts: seq<Tlv>, i: nat)
    requires i < |ts|
    ensures ts[..i + 1][..i] == ts[..i]
    ensures HasExplicitPmf(tables, ts[..i + 1]) <==> (HasExplicitPmf(tables, ts[..i]) || IsExplicitPmf(tables, ts[i]))
    ensures forall a, p {:trigger Names(tables, ts[..i + 1], a, p)} ::
              Names(tables, ts[..i + 1], a, p) <==> (Names(tables, ts[..i], a, p) || NamedBy(tables, ts[i], a, p))
  {
    assert forall t :: t in ts[..i + 1] <==> t in ts[..i] || t == ts[i] by {
      assert ts[..i + 1] == ts[..i] + [ts[i]];
    }
  }

  /** The network line of a TLV, if it has one. */
  method NetworkItem(tables: Tables, t: Tlv) returns (line: string, isNetwork: bool)
    ensures isNetwork == IsNetwork(tables, t)
    ensures isNetwork ==> line == NetworkLine(tables, t)
  {
    line := "";
    var cfg := FindConfig(tables.maps, t.id);
    var global := FindConfig(tables.globals, t.id);
    isNetwork := cfg.Some? && global.None?;
    if isNetwork {
      var value := t.value;
      if t.id == TLV_CA_CERT && t.value == "DEFAULT" {
        value := CA_BUNDLE;
      } else if t.id == TLV_SERVER_CERT {
        value := tables.certHash(t.value);
      }
      if cfg.value.quoted {
        line := cfg.value.name + "=\"" + value + "\"\n";
      } else {
        line := cfg.value.name + "=" + value + "\n";
      }
    }
  }

  /** The flag variables of the second loop. */
  datatype Flags = Flags(explicit: bool, transition: bool, saeOnly: bool, owe: bool)

  ghost function FlagsOf(tables: Tables, ts: seq<Tlv>): Flags {
    Flags(HasExplicitPmf(tables, ts), Names(tables, ts, "SAE", Some(true)), Names(tables, ts, "SAE", Some(false)),
          Names(tables, ts, "OWE", None))
  }

  function Noted(tables: Tables, f: Flags, t: Tlv): (g: Flags)
    ensures !IsNetwork(tables, t) ==> g == f
  {
    Flags(f.explicit || IsExplicitPmf(tables, t), f.transition || NamedBy(tables, t, "SAE", Some(true)),
          f.saeOnly || NamedBy(tables, t, "SAE", Some(false)), f.owe || NamedBy(tables, t, "OWE", None))
  }

  /** What TLV i adds to each result of the second loop. */
  lemma NetworkStep(tables: Tables, ts: seq<Tlv>, i: nat, was: string)
    requires i < |ts|
    ensures FlagsOf(tables, ts[..i + 1]) == Noted(tables, FlagsOf(tables, ts[..i]), ts[i])
    ensures NetworkLines(tables, ts[..i + 1]) ==
            NetworkLines(tables, ts[..i]) + (if IsNetwork(tables, ts[i]) then [NetworkLine(tables, ts[i])] else [])
    ensures PacPath(tables, ts[..i + 1], was) ==
            if IsNetwork(tables, ts[i]) && ts[i].id == TLV_PAC_FILE then ts[i].value else PacPath(tables, ts[..i], was)
  {
    OneMore(tables, ts, i);
  }

  method NoteFlags(tables: Tables, f: Flags, t: Tlv) returns (g: Flags)
    requires IsNetwork(tables, t)
    ensures g == Noted(tables, f, t)
  {
    g := f;
    if t.id == TLV_IEEE80211_W || t.id == TLV_STA_IEEE80211_W {
      g := g.(explicit := true);
    } else if t.id == TLV_KEY_MGMT {
      var psk, sae := Contains(t.value, "WPA-PSK"), Contains(t.value, "SAE");
      if psk && sae {
        g := g.(transition := true);
      }
      if !psk && sae {
        g := g.(saeOnly := true);
      }
      if Contains(t.value, "OWE") {
        g := g.(owe := true);
      }
    }
  }

  /** The first loop. */
  method GlobalSection(tables: Tables, tlvs: seq<Tlv>, front: seq<string>) returns (buffer: seq<string>)
    ensures buffer == front + GlobalLines(tables, tlvs)
  {
    buffer := front;
    var i := 0;
    while i < |tlvs|
      invariant 0 <= i <= |tlvs|
      invariant buffer == front + GlobalLines(tables, tlvs[..i])
    {
      assert tlvs[..i + 1][..i] == tlvs[..i];
      var cfg := FindConfig(tables.globals, tlvs[i].id);
      if cfg.Some? {
        buffer := buffer + [cfg.value.name + "=" + tlvs[i].value + "\n"];
      }
      i := i + 1;
    }
    assert tlvs[..i] == tlvs;
  }

  /** The second loop. */
  method NetworkSection(tables: Tables, tlvs: seq<Tlv>, front: seq<string>, pacFile: string)
      returns (buffer: seq<string>, f: Flags, pac: string)
    ensures buffer == front + NetworkLines(tables, tlvs)
    ensures f == FlagsOf(tables, tlvs)
    ensures pac == PacPath(tables, tlvs, pacFile)
  {
    buffer, f, pac := front, Flags(false, false, false, false), pacFile;
    var i := 0;
    while i < |tlvs|
      invariant 0 <= i <= |tlvs|
      invariant buffer == front + NetworkLines(tables, tlvs[..i])
      invariant f == FlagsOf(tables, tlvs[..i])
      invariant pac == PacPath(tables, tlvs[..i], pacFile)
    {
      NetworkStep(tables, tlvs, i, pacFile);
      var line, isNetwork := NetworkItem(tables, tlvs[i]);
      if isNetwork {
        f := NoteFlags(tables, f, tlvs[i]);
        if tlvs[i].id == TLV_PAC_FILE {
          pac := tlvs[i].value;
        }
        buffer := buffer + [line];
      }
      i := i + 1;
    }
    assert tlvs[..i] == tlvs;
  }

  /** generate_wpas_config.  `pacFile` is the global pac_file_path. */
  method GenerateWpasConfig(tables: Tables, tlvs: seq<Tlv>, pacFile: string) returns (buffer: seq<string>, pac: string)
    ensures buffer == Config(tables, tlvs)
    ensures pac == PacPath(tables, tlvs, pacFile)
  {
    var f: Flags;
    buffer := GlobalSection(tables, tlvs, HEADER);
    buffer := buffer + [OPEN];
    buffer, f, pac := NetworkSection(tables, tlvs, buffer, pacFile);
    if !f.explicit {
      if f.transition {
        buffer := buffer + ["ieee80211w=1\n"];
      } else if f.saeOnly {
        buffer := buffer + ["ieee80211w=2\n"];
      } else if f.owe {
        buffer := buffer + ["ieee80211w=2\n"];
      }
    }
    buffer := buffer + [CLOSE];
  }

  // ---------- an exactly-once, order-preserving translation ----------

  /** The line of TLV i stands behind those of the TLVs of its kind before it. */
  lemma {:induction false} LineAt(tables: Tables, ts: seq<Tlv>, i: nat)
    requires i < |ts|
    ensures IsGlobal(tables, ts[i]) ==>
              |GlobalLines(tables, ts[..i])| < |GlobalLines(tables, ts)| &&
              GlobalLines(tables, ts)[|GlobalLines(tables, ts[..i])|] == GlobalLine(tables, ts[i])
    ensures IsNetwork(tables, ts[i]) ==>
              |NetworkLines(tables, ts[..i])| < |NetworkLines(tables, ts)| &&
              NetworkLines(tables, ts)[|NetworkLines(tables, ts[..i])|] == NetworkLine(tables, ts[i])
  {
    var front := ts[..|ts| - 1];
    if i < |ts| - 1 {
      LineAt(tables, front, i);
      assert front[..i] == ts[..i];
    }
  }

  /** Every line comes from a TLV. */
  lemma {:induction false} GlobalLineFrom(tables: Tables, ts: seq<Tlv>, j: nat) returns (i: nat)
    requires j < |GlobalLines(tables, ts)|
    ensures i < |ts| && IsGlobal(tables, ts[i]) && |GlobalLines(tables, ts[..i])| == j
  {
    var front := ts[..|ts| - 1];
    if j < |GlobalLines(tables, front)| {
      i := GlobalLineFrom(tables, front, j);
      assert front[..i] == ts[..i];
    } else {
      i := |ts| - 1;
    }
  }

  lemma {:induction false} NetworkLineFrom(tables: Tables, ts: seq<Tlv>, j: nat) returns (i: nat)
    requires j < |NetworkLines(tables, ts)|
    ensures i < |ts| && IsNetwork(tables, ts[i]) && |NetworkLines(tables, ts[..i])| == j
  {
    var front := ts[..|ts| - 1];
    if j < |NetworkLines(tables, front)| {
      i := NetworkLineFrom(tables, front, j);
      assert front[..i] == ts[..i];
    } else {
      i := |ts| - 1;
    }
  }

  /** Where the line of TLV i stands in the configuration. */
  function Position(tables: Tables, ts: seq<Tlv>, i: nat): nat
    requires i < |ts|
  {
    if IsGlobal(tables, ts[i]) then |HEADER| + |GlobalLines(tables, ts[..i])|
    else |HEADER| + |GlobalLines(tables, ts)| + 1 + |NetworkLines(tables, ts[..i])|
  }

  predicate Mapped(tables: Tables, t: Tlv) {
    IsGlobal(tables, t) || IsNetwork(tables, t)
  }

  lemma {:induction false} CountsGrow(tables: Tables, ts: seq<Tlv>, i: nat, k: nat)
    requires i < k <= |ts|
    ensures |GlobalLines(tables, ts[..i])| + (if IsGlobal(tables, ts[i]) then 1 else 0) <= |GlobalLines(tables, ts[..k])|
    ensures |NetworkLines(tables, ts[..i])| + (if IsNetwork(tables, ts[i]) then 1 else 0) <= |NetworkLines(tables, ts[..k])|
  {
    assert ts[..k][..k - 1] == ts[..k - 1];
    if i < k - 1 {
      CountsGrow(tables, ts, i, k - 1);
    }
  }

  /** The number of the line of TLV i within its section. */
  function Rank(tables: Tables, ts: seq<Tlv>, i: nat): nat
    requires i < |ts|
  {
    if IsGlobal(tables, ts[i]) then |GlobalLines(tables, ts[..i])| else |NetworkLines(tables, ts[..i])|
  }

  /** `c` is laid out in sections as far as open line and line j of each section go. */
  predicate LaidOut(c: seq<string>, g: seq<string>, n: seq<string>, j: nat) {
    && |c| > |HEADER| + |g| + 1 + |n|
    && c[|HEADER| + |g|] == OPEN
    && (j < |g| ==> c[|HEADER| + j] == g[j])
    && (j < |n| ==> c[|HEADER| + |g| + 1 + j] == n[j])
  }

  /** Line j of a section, by its place in the whole. */
  lemma LinePlace(c: seq<string>, g: seq<string>, n: seq<string>, j: nat, global: bool, line: string, p: nat)
    requires LaidOut(c, g, n, j)
    requires if global then j < |g| && g[j] == line else j < |n| && n[j] == line
    requires p == if global then |HEADER| + j else |HEADER| + |g| + 1 + j
    ensures Stands(c, |HEADER| + |g|, |n|, global, line, p)
  {
  }

  /** The line stands at position p, in front of the opening line or among the `count` lines behind it. */
  predicate Stands(c: seq<string>, open: nat, count: nat, global: bool, line: string, p: nat) {
    && open < |c| && c[open] == OPEN && p < |c| && c[p] == line
    && if global then |HEADER| <= p < open else open < p <= open + count
  }

  /** The line of a mapped TLV. */
  function OwnLine(tables: Tables, t: Tlv): string
    requires Mapped(tables, t)
  {
    if IsGlobal(tables, t) then GlobalLine(tables, t) else NetworkLine(tables, t)
  }

  lemma LineRank(tables: Tables, ts: seq<Tlv>, i: nat)
    requires i < |ts| && Mapped(tables, ts[i])
    ensures var g, n, j := GlobalLines(tables, ts), NetworkLines(tables, ts), Rank(tables, ts, i);
            if IsGlobal(tables, ts[i]) then j < |g| && g[j] == OwnLine(tables, ts[i])
            else j < |n| && n[j] == OwnLine(tables, ts[i])
  {
    LineAt(tables, ts, i);
  }

  /** Every mapped TLV has its line, in the section of its kind. */
  lemma LineInSection(tables: Tables, ts: seq<Tlv>, i: nat)
    requires i < |ts| && Mapped(tables, ts[i])
    ensures Stands(Config(tables, ts), |HEADER| + |GlobalLines(tables, ts)|, |NetworkLines(tables, ts)|,
                   IsGlobal(tables, ts[i]), OwnLine(tables, ts[i]), Position(tables, ts, i))
  {
    var j := Rank(tables, ts, i);
    ConfigLayout(tables, ts, j);
    LineRank(tables, ts, i);
    LinePlace(Config(tables, ts), GlobalLines(tables, ts), NetworkLines(tables, ts), j, IsGlobal(tables, ts[i]),
              OwnLine(tables, ts[i]), Position(tables, ts, i));
  }

  /** The k-th entry is the first one with this id. */
  predicate FirstEntry(es: seq<Entry>, id: int, k: nat) {
    k < |es| && es[k].id == id && forall j :: 0 <= j < k ==> es[j].id != id
  }

  lemma {:induction false} LookupIsFirst(es: seq<Entry>, id: int, k: nat)
    requires FirstEntry(es, id, k)
    ensures Lookup(es, id) == Some(es[k])
  {
    if k > 0 {
      LookupIsFirst(es[1..], id, k - 1);
    }
  }

  /** The line of a TLV with a global entry, spelled out. */
  lemma GlobalLineSays(tables: Tables, ts: seq<Tlv>, i: nat, k: nat)
    requires i < |ts| && FirstEntry(tables.globals, ts[i].id, k)
    ensures var c, p := Config(tables, ts), Position(tables, ts, i);
            p < |c| && c[p] == tables.globals[k].name + "=" + ts[i].value + "\n"
  {
    LookupIsFirst(tables.globals, ts[i].id, k);
    LineInSection(tables, ts, i);
  }

  /** The line of a TLV with a network entry only: the value stands in quotes exactly if the entry says
      so; DEFAULT for a CA certificate is the system's bundle, and a server certificate stands for its
      hash. */
  lemma NetworkLineSays(tables: Tables, ts: seq<Tlv>, i: nat, k: nat)
    requires i < |ts| && FirstEntry(tables.maps, ts[i].id, k) && forall e :: e in tables.globals ==> e.id != ts[i].id
    ensures var c, p, e := Config(tables, ts), Position(tables, ts, i), tables.maps[k];
            var v := if ts[i].id == TLV_CA_CERT && ts[i].value == "DEFAULT" then "/etc/ssl/certs/ca-certificates.crt"
                     else if ts[i].id == TLV_SERVER_CERT then tables.certHash(ts[i].value)
                     else ts[i].value;
            p < |c| && c[p] == e.name + "=" + (if e.quoted then "\"" + v + "\"" else v) + "\n"
  {
    LookupIsFirst(tables.maps, ts[i].id, k);
    LineInSection(tables, ts, i);
    NetworkText(tables, ts[i], tables.maps[k]);
  }

  lemma NetworkText(tables: Tables, t: Tlv, e: Entry)
    requires IsNetwork(tables, t) && Lookup(tables.maps, t.id) == Some(e)
    ensures NetworkLine(tables, t) ==
            e.name + "=" + (if e.quoted then "\"" + Written(tables, t) + "\"" else Written(tables, t)) + "\n"
  {
    var v := Written(tables, t);
    assert e.name + "=\"" + v + "\"\n" == e.name + "=" + ("\"" + v + "\"") + "\n";
  }

  /** The fixed lines: three at the head, one that opens the network block, one that closes it. */
  lemma FixedLines(tables: Tables, ts: seq<Tlv>)
    ensures var c, open := Config(tables, ts), 3 + |GlobalLines(tables, ts)|;
            && c[..3] == ["ctrl_interface=/var/run/wpa_supplicant\n", "ap_scan=1\n", "pmf=1\n"]
            && open < |c| - 1 && c[open] == "network={\n" && c[|c| - 1] == "}\n"
  {
    Ends(HEADER, GlobalLines(tables, ts), OPEN, NetworkLines(tables, ts), PmfLines(tables, ts), CLOSE);
  }

  lemma Ends(head: seq<string>, g: seq<string>, open: string, n: seq<string>, p: seq<string>, close: string)
    ensures var c := head + g + [open] + n + p + [close];
            && |c| == |head| + |g| + 1 + |n| + |p| + 1
            && c[..|head|] == head && c[|head| + |g|] == open && c[|c| - 1] == close
  {
  }

  /** The global pac_file_path is the value of the last PAC_FILE TLV, or what it was. */
  lemma {:induction false} PacIsLast(tables: Tables, ts: seq<Tlv>, was: string, i: nat)
    requires forall j :: 0 <= j < |ts| && ts[j].id == TLV_PAC_FILE ==> IsNetwork(tables, ts[j])
    requires i <= |ts| && (i < |ts| ==> ts[i].id == TLV_PAC_FILE)
    requires forall j :: 0 <= j < |ts| && (i == |ts| || i < j) ==> ts[j].id != TLV_PAC_FILE
    ensures PacPath(tables, ts, was) == if i == |ts| then was else ts[i].value
  {
    if ts != [] && i != |ts| - 1 {
      PacIsLast(tables, ts[..|ts| - 1], was, if i == |ts| then |ts| - 1 else i);
    }
  }

  lemma ConfigLayout(tables: Tables, ts: seq<Tlv>, j: nat)
    ensures LaidOut(Config(tables, ts), GlobalLines(tables, ts), NetworkLines(tables, ts), j)
  {
    Layout(HEADER, GlobalLines(tables, ts), OPEN, NetworkLines(tables, ts), PmfLines(tables, ts), [CLOSE], j);
  }

  /** Where the j-th line of each section stands in a text made of six parts. */
  lemma Layout(head: seq<string>, g: seq<string>, open: string, n: seq<string>, p: seq<string>, tail: seq<string>, j: nat)
    ensures var c := head + g + [open] + n + p + tail;
            && |c| == |head| + |g| + 1 + |n| + |p| + |tail|
            && c[|head| + |g|] == open
            && (j < |g| ==> c[|head| + j] == g[j])
            && (j < |n| ==> c[|head| + |g| + 1 + j] == n[j])
  {
  }

  /** The positions keep the request order within a section and never coincide. */
  lemma OrderKept(tables: Tables, ts: seq<Tlv>, i: nat, k: nat)
    requires i < k < |ts| && Mapped(tables, ts[i]) && Mapped(tables, ts[k])
    ensures IsGlobal(tables, ts[i]) == IsGlobal(tables, ts[k]) ==> Position(tables, ts, i) < Position(tables, ts, k)
    ensures Position(tables, ts, i) != Position(tables, ts, k)
  {
    CountsGrow(tables, ts, i, k);
    LineAt(tables, ts, i);
    LineAt(tables, ts, k);
  }

  /** Nothing else is written: every line is a fixed one, the default, or some TLV's own. */
  lemma NoOtherLines(tables: Tables, ts: seq<Tlv>, p: nat) returns (i: nat)
    requires p < |Config(tables, ts)|
    ensures var open := |HEADER| + |GlobalLines(tables, ts)|;
            || p < |HEADER| || p == open || p > open + |NetworkLines(tables, ts)|
            || (i < |ts| && Mapped(tables, ts[i]) && Position(tables, ts, i) == p)
    ensures |Config(tables, ts)| ==
            |HEADER| + |GlobalLines(tables, ts)| + 1 + |NetworkLines(tables, ts)| + |PmfLines(tables, ts)| + 1
  {
    var open := |HEADER| + |GlobalLines(tables, ts)|;
    i := 0;
    if |HEADER| <= p < open {
      i := GlobalLineFrom(tables, ts, p - |HEADER|);
    } else if open < p <= open + |NetworkLines(tables, ts)| {
      i := NetworkLineFrom(tables, ts, p - open - 1);
    }
  }

  /** What stands behind the network lines: the closing brace, and in front of it a default
      ieee80211w line exactly when the request has no explicit one and some key management TLV names
      SAE or OWE.  It is 1 exactly when one of them names SAE with WPA-PSK. */
  lemma PmfDefault(tables: Tables, ts: seq<Tlv>)
    ensures var c, end := Config(tables, ts), |HEADER| + |GlobalLines(tables, ts)| + 1 + |NetworkLines(tables, ts)|;
            && end < |c|
            && c[end..] ==
               if HasExplicitPmf(tables, ts) then [CLOSE]
               else if Names(tables, ts, "SAE", Some(true)) then ["ieee80211w=1\n", CLOSE]
               else if Names(tables, ts, "SAE", None) || Names(tables, ts, "OWE", None) then ["ieee80211w=2\n", CLOSE]
               else [CLOSE]
  {
    SaeSplits(tables, ts);
    Behind(HEADER + GlobalLines(tables, ts) + [OPEN] + NetworkLines(tables, ts), PmfLines(tables, ts), [CLOSE]);
  }

  lemma Behind(front: seq<string>, p: seq<string>, tail: seq<string>)
    ensures (front + p + tail)[|front|..] == p + tail
  {
  }

  lemma SaeSplits(tables: Tables, ts: seq<Tlv>)
    ensures Names(tables, ts, "SAE", None) <==> Names(tables, ts, "SAE", Some(true)) || Names(tables, ts, "SAE", Some(false))
  {
    forall t | t in ts && NamedBy(tables, t, "SAE", None)
      ensures NamedBy(tables, t, "SAE", Some(true)) || NamedBy(tables, t, "SAE", Some(false))
    {
    }
  }
}
