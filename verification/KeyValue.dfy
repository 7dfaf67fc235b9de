/** get_key_value of utils.c: finding `key=value` in status text by substring search.

    Strings are NUL-free sequences of characters, as C sees them. */
module KeyValue {
  import opened Basics

  const NUL := 0 as char

  // ---------- the C library ----------

  /** strstr: the first occurrence. */
  function Strstr(text: string, pat: string): (r: Option<nat>)
    ensures r.Some? ==> r.value + |pat| <= |text|
  {
    if pat <= text then Some(0)
    else if text == "" then None
    else
      match Strstr(text[1..], pat)
      case None => None
      case Some(p) => Some(p + 1)
  }

  predicate OccursAt(text: string, pat: string, p: nat) {
    p <= |text| && pat <= text[p..]
  }

  /** The result is the first occurrence; None means that there is none. */
  lemma {:induction false} StrstrIsFirst(text: string, pat: string, p: nat)
    ensures Strstr(text, pat) == Some(p) ==> OccursAt(text, pat, p)
    ensures OccursAt(text, pat, p) ==> Strstr(text, pat).Some? && Strstr(text, pat).value <= p
  {
    if pat <= text || text == "" {
      assert text[0..] == text;
    } else if p > 0 {
      StrstrIsFirst(text[1..], pat, p - 1);
      assert p <= |text| ==> text[1..][p - 1..] == text[p..];
    } else {
      assert text[0..] == text;
    }
  }

  /** What a C reader sees in a buffer. */
  function CStr(buf: seq<char>): (r: string)
    ensures |r| <= |buf|
  {
    if buf == [] || buf[0] == NUL then "" else [buf[0]] + CStr(buf[1..])
  }

  // ---------- the search ----------

  /** Where the value starts: behind "\n<token>=" anywhere, or else behind "<token>=" in front. */
  function ValueStart(buffer: string, token: string): (r: Option<nat>)
    ensures r.Some? ==> r.value <= |buffer|
  {
    match Strstr(buffer, "\n" + token + "=")
    case Some(p) => Some(p + |token| + 2)
    case None => if token + "=" <= buffer then Some(|token| + 1) else None
  }

  function UpToNewline(text: string): string {
    match Strstr(text, "\n")
    case Some(e) => text[..e]
    case None => text
  }

  function ValueFrom(buffer: string, start: Option<nat>): Option<string>
    requires start.Some? ==> start.value <= |buffer|
  {
    match start
    case None => None
    case Some(p) => Some(UpToNewline(buffer[p..]))
  }

  function Lookup(buffer: string, token: string): Option<string> {
    ValueFrom(buffer, ValueStart(buffer, token))
  }

  /** get_key_value: `value` is the caller's buffer, large enough for the value that is found.
      strncpy writes no terminator when it stops at a newline; strcpy does. */
  method GetKeyValue(value: array<char>, buffer: string, token: string) returns (ret: int)
    requires Lookup(buffer, token).Some? ==> |Lookup(buffer, token).value| < value.Length
    modifies value
    ensures ret == if Lookup(buffer, token).Some? then 0 else -1
    ensures Lookup(buffer, token).None? ==> value[..] == old(value[..])
    ensures Lookup(buffer, token).Some? ==>
              var v := Lookup(buffer, token).value;
              && |v| < value.Length
              && value[..|v|] == v
              && (value[|v|] == NUL || value[|v|] == old(value[|v|]))
              && (NUL !in buffer && value[|v|] == NUL ==> CStr(value[..]) == v)
  {
    var ptr := ValueStart(buffer, token);
    if ptr.None? {
      return -1;
    }
    var rest := buffer[ptr.value..];
    var endptr := Strstr(rest, "\n");
    var n := if endptr.Some? then endptr.value else |rest|;
    var i := 0;
    while i < n
      invariant 0 <= i <= n
      invariant value[..i] == rest[..i]
      invariant forall k :: i <= k < value.Length ==> value[k] == old(value[k])
    {
      value[i] := rest[i];
      i := i + 1;
    }
    if endptr.None? {
      value[n] := NUL;
    }
    ret := 0;
    if NUL !in buffer && value[n] == NUL {
      assert value[..][..n] == rest[..n];
      assert forall k :: 0 <= k < n ==> rest[..n][k] == buffer[ptr.value + k];
      ReadBack(value[..], rest[..n]);
    }
  }

  /** A caller that zero-filled its buffer reads back exactly the value. */
  lemma {:induction false} ReadBack(buf: seq<char>, v: string)
    requires NUL !in v && |v| < |buf| && buf[..|v|] == v && buf[|v|] == NUL
    ensures CStr(buf) == v
  {
    if v == "" {
    } else {
      assert buf[0] == v[0];
      assert buf[1..][..|v| - 1] == v[1..];
      ReadBack(buf[1..], v[1..]);
    }
  }

  // ---------- lines ----------

  function Join(lines: seq<string>): string {
    if lines == [] then ""
    else if |lines| == 1 then lines[0]
    else lines[0] + "\n" + Join(lines[1..])
  }

  ghost predicate NewlineFree(lines: seq<string>) {
    forall i :: 0 <= i < |lines| ==> '\n' !in lines[i]
  }

  lemma PrefixBehindNewline(rest: string, pat: string)
    requires pat != "" && pat[0] == '\n'
    ensures pat <= "\n" + rest <==> pat[1..] <= rest
    ensures ("\n" + rest)[1..] == rest
  {
    assert pat == ['\n'] + pat[1..];
  }

  function Shift(r: Option<nat>, n: nat): Option<nat> {
    match r case None => None case Some(p) => Some(n + p)
  }

  /** A pattern that opens with a newline does not match inside newline-free text. */
  lemma {:induction false} StrstrSkipsText(line: string, rest: string, pat: string)
    requires '\n' !in line && pat != "" && pat[0] == '\n'
    ensures Strstr(line + rest, pat) == Shift(Strstr(rest, pat), |line|)
  {
    if line == "" {
      assert line + rest == rest;
    } else {
      var text := line + rest;
      assert line[0] in line && text[0] == line[0];
      assert !(pat <= text);
      assert text[1..] == line[1..] + rest;
      StrstrSkipsText(line[1..], rest, pat);
    }
  }

  lemma Associate(a: string, b: string, c: string)
    ensures a + b + c == a + (b + c)
  {
  }

  lemma StrstrSkipsLine(line: string, rest: string, pat: string)
    requires '\n' !in line && pat != "" && pat[0] == '\n'
    ensures Strstr(line + "\n" + rest, pat) ==
            if pat[1..] <= rest then Some(|line|) else Shift(Strstr(rest, pat), |line| + 1)
  {
    Associate(line, "\n", rest);
    StrstrSkipsText(line, "\n" + rest, pat);
    PrefixBehindNewline(rest, pat);
  }

  lemma {:induction false} StrstrNoNewline(line: string, pat: string)
    requires '\n' !in line && pat != "" && pat[0] == '\n'
    ensures Strstr(line, pat) == None
  {
    if line == "" {
    } else {
      assert line[0] in line;
      StrstrNoNewline(line[1..], pat);
    }
  }

  /** A newline-free prefix of the text is a prefix of its first line. */
  lemma PrefixOfFirstLine(lines: seq<string>, p: string)
    requires lines != [] && '\n' !in p
    ensures p <= Join(lines) <==> p <= lines[0]
  {
    if |lines| > 1 {
      var text := Join(lines);
      assert text[..|lines[0]|] == lines[0] && text[|lines[0]|] == '\n';
      assert p <= text ==> forall k :: 0 <= k < |p| ==> p[k] == text[k];
    }
  }

  /** The line that is found: the first match behind the first line, else the first line. */
  function Pick(lines: seq<string>, prefix: string): Option<nat> {
    match PickLater(lines, prefix)
    case Some(i) => Some(i)
    case None => if lines != [] && prefix <= lines[0] then Some(0) else None
  }

  function PickLater(lines: seq<string>, prefix: string): (r: Option<nat>)
    ensures r.Some? ==> 0 < r.value < |lines| && prefix <= lines[r.value]
    ensures r.Some? ==> forall j :: 0 < j < r.value ==> !(prefix <= lines[j])
    ensures r.None? ==> forall j :: 0 < j < |lines| ==> !(prefix <= lines[j])
  {
    if |lines| <= 1 then None
    else if prefix <= lines[1] then Some(1)
    else
      match PickLater(lines[1..], prefix)
      case None =>
        assert forall j :: 1 < j < |lines| ==> lines[j] == lines[1..][j - 1];
        None
      case Some(i) =>
        assert forall j :: 1 < j < |lines| ==> lines[j] == lines[1..][j - 1];
        Some(i + 1)
  }

  /** Where line i starts in the joined text. */
  function Offset(lines: seq<string>, i: nat): nat
    requires i < |lines|
  {
    if i == 0 then 0 else |lines[0]| + 1 + Offset(lines[1..], i - 1)
  }

  lemma {:induction false} TextFrom(lines: seq<string>, i: nat)
    requires i < |lines|
    ensures Offset(lines, i) <= |Join(lines)|
    ensures Join(lines)[Offset(lines, i)..] == Join(lines[i..])
  {
    if i > 0 {
      TextFrom(lines[1..], i - 1);
      assert lines[1..][i - 1..] == lines[i..];
      assert Join(lines)[|lines[0]| + 1..] == Join(lines[1..]);
    }
  }

  /** The substring search finds the end of the line before the picked one. */
  lemma {:induction false} StrstrPicks(lines: seq<string>, prefix: string)
    requires NewlineFree(lines) && '\n' !in prefix
    ensures Strstr(Join(lines), "\n" + prefix) ==
            match PickLater(lines, prefix) case None => None case Some(i) => Some(Offset(lines, i) - 1)
  {
    if lines == [] {
    } else if |lines| == 1 {
      StrstrNoNewline(lines[0], "\n" + prefix);
    } else {
      var rest := lines[1..];
      NewlineFreeTail(lines);
      StrstrPicks(rest, prefix);
      PrefixOfFirstLine(rest, prefix);
      var pat := "\n" + prefix;
      assert pat[1..] == prefix;
      StrstrSkipsLine(lines[0], Join(rest), pat);
      StrstrPicksStep(lines, prefix, Strstr(Join(rest), pat));
    }
  }

  lemma NewlineFreeTail(lines: seq<string>)
    requires NewlineFree(lines) && lines != []
    ensures NewlineFree(lines[1..])
  {
  }

  /** The arithmetic of one step: offsets in the text and in its tail. */
  lemma StrstrPicksStep(lines: seq<string>, prefix: string, found: Option<nat>)
    requires |lines| > 1
    requires found == match PickLater(lines[1..], prefix)
                      case None => None
                      case Some(i) => Some(Offset(lines[1..], i) - 1)
    ensures (if prefix <= lines[1] then Some(|lines[0]|)
             else match found case None => None case Some(p) => Some(|lines[0]| + 1 + p)) ==
            match PickLater(lines, prefix) case None => None case Some(i) => Some(Offset(lines, i) - 1)
  {
  }

  lemma UpToNewlineIsLine(lines: seq<string>, k: nat)
    requires lines != [] && NewlineFree(lines) && k <= |lines[0]|
    ensures UpToNewline(Join(lines)[k..]) == lines[0][k..]
  {
    var l := lines[0][k..];
    assert forall c :: c in l ==> c in lines[0];
    if |lines| == 1 {
      StrstrNoNewline(l, "\n");
    } else {
      assert Join(lines)[k..] == l + "\n" + Join(lines[1..]);
      StrstrSkipsLine(l, Join(lines[1..]), "\n");
    }
  }

  lemma {:induction false} OffsetPositive(lines: seq<string>, i: nat)
    requires 0 < i < |lines|
    ensures Offset(lines, i) > 0
  {
  }

  lemma StartIsPicked(lines: seq<string>, token: string)
    requires NewlineFree(lines) && '\n' !in token && lines != []
    ensures ValueStart(Join(lines), token) ==
            match Pick(lines, token + "=")
            case None => None
            case Some(i) => Some(Offset(lines, i) + |token| + 1)
  {
    var prefix := token + "=";
    StrstrPicks(lines, prefix);
    PrefixOfFirstLine(lines, prefix);
    assert "\n" + token + "=" == "\n" + prefix;
    match PickLater(lines, prefix) {
      case None =>
      case Some(i) => OffsetPositive(lines, i);
    }
  }

  /** What get_key_value returns on any text: the picked line, less the searched prefix. */
  lemma LookupPicksLine(lines: seq<string>, token: string)
    requires NewlineFree(lines) && '\n' !in token && lines != []
    ensures Lookup(Join(lines), token) ==
            match Pick(lines, token + "=")
            case None => None
            case Some(i) => Some(lines[i][|token| + 1..])
  {
    StartIsPicked(lines, token);
    PickedValue(lines, token + "=", ValueStart(Join(lines), token));
  }

  lemma PickedValue(lines: seq<string>, prefix: string, start: Option<nat>)
    requires NewlineFree(lines)
    requires start.Some? ==> start.value <= |Join(lines)|
    requires start == match Pick(lines, prefix) case None => None case Some(i) => Some(Offset(lines, i) + |prefix|)
    ensures ValueFrom(Join(lines), start) ==
            match Pick(lines, prefix) case None => None case Some(i) => Some(lines[i][|prefix|..])
  {
    match Pick(lines, prefix) {
      case None =>
      case Some(i) => ValueAt(lines, i, prefix);
    }
  }

  lemma ValueAt(lines: seq<string>, i: nat, prefix: string)
    requires NewlineFree(lines) && i < |lines| && prefix <= lines[i]
    ensures Offset(lines, i) + |prefix| <= |Join(lines)|
    ensures UpToNewline(Join(lines)[Offset(lines, i) + |prefix|..]) == lines[i][|prefix|..]
  {
    TextFrom(lines, i);
    PrefixFits(lines, i, prefix);
    assert Join(lines)[Offset(lines, i) + |prefix|..] == Join(lines[i..])[|prefix|..];
    UpToNewlineIsLine(lines[i..], |prefix|);
  }

  lemma PrefixFits(lines: seq<string>, i: nat, prefix: string)
    requires i < |lines| && prefix <= lines[i]
    ensures |prefix| <= |Join(lines[i..])|
  {
  }

  // ---------- rendering and reading back ----------

  datatype Entry = Entry(key: string, value: string)

  predicate WellFormed(es: seq<Entry>) {
    forall e :: e in es ==> '=' !in e.key && '\n' !in e.key && '\n' !in e.value
  }

  predicate DistinctKeys(es: seq<Entry>) {
    forall i, j :: 0 <= i < j < |es| ==> es[i].key != es[j].key
  }

  function Line(e: Entry): string {
    e.key + "=" + e.value
  }

  /** One line per entry; a trailing newline is an empty last line. */
  function Lines(es: seq<Entry>, trailing: bool): (ls: seq<string>)
    ensures |ls| == |es| + if trailing then 1 else 0
  {
    seq(|es|, i requires 0 <= i < |es| => Line(es[i])) + if trailing then [""] else []
  }

  function Render(es: seq<Entry>, trailing: bool): string {
    Join(Lines(es, trailing))
  }

  /** A line starts with "<token>=" exactly when its key is the token: the search never matches a
      longer key or a part of a value. */
  lemma LineMatches(e: Entry, token: string)
    requires '=' !in e.key && '=' !in token
    ensures token + "=" <= Line(e) <==> e.key == token
  {
    var l := Line(e);
    if token + "=" <= l {
      assert l[|token|] == '=' && l[|e.key|] == '=';
      assert forall k :: 0 <= k < |token| ==> token[k] == l[k];
      assert forall k :: 0 <= k < |e.key| ==> e.key[k] == l[k];
      assert |token| == |e.key|;
    }
  }

  lemma LinesMatch(es: seq<Entry>, trailing: bool, token: string)
    requires WellFormed(es) && '=' !in token && '\n' !in token
    ensures var ls := Lines(es, trailing);
            && NewlineFree(ls)
            && (forall i :: 0 <= i < |es| ==> ls[i] == Line(es[i]) && (token + "=" <= ls[i] <==> es[i].key == token))
            && (trailing ==> ls[|es|] == "")
  {
    var ls := Lines(es, trailing);
    forall i | 0 <= i < |es|
      ensures ls[i] == Line(es[i]) && '\n' !in ls[i] && (token + "=" <= ls[i] <==> es[i].key == token)
    {
      assert es[i] in es;
      LineMatches(es[i], token);
    }
    assert trailing ==> ls[|es|] == "";
  }

  /** Looking a key up undoes rendering: a present key yields its value, an absent one nothing. */
  lemma LookupUndoesRender(es: seq<Entry>, trailing: bool, token: string)
    requires WellFormed(es) && DistinctKeys(es)
    requires '=' !in token && '\n' !in token
    ensures forall i :: 0 <= i < |es| && es[i].key == token ==> Lookup(Render(es, trailing), token) == Some(es[i].value)
    ensures (forall i :: 0 <= i < |es| ==> es[i].key != token) ==> Lookup(Render(es, trailing), token) == None
  {
    var ls := Lines(es, trailing);
    LinesMatch(es, trailing, token);
    if ls == [] {
      return;
    }
    LookupPicksLine(ls, token);
    match Pick(ls, token + "=") {
      case None =>
      case Some(i) =>
        assert i < |es|;
        assert Line(es[i])[|token| + 1..] == es[i].value;
    }
  }
}
