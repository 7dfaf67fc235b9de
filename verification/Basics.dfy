/** Vocabulary shared by the other modules. */
module Basics {

  datatype Option<+T> = None | Some(value: T)

  type byte = x: int | 0 <= x < 0x100
}

/** A TLV as the configuration generators see it: its value copied into a zeroed C buffer. */
module TextTlv {

  datatype Tlv = Tlv(id: int, value: string)

  /** strstr(text, pat) is not NULL. */
  predicate Contains(text: string, pat: string) {
    pat <= text || (text != "" && Contains(text[1..], pat))
  }
}

/** Text as lines, each ended by a newline. */
module TextLines {

  function Unlines(ls: seq<string>): string {
    if ls == [] then "" else Front(ls[0], Unlines(ls[1..]))
  }

  /** Where the first line ends. */
  function LineEnd(s: string): (n: nat)
    ensures n <= |s| && '\n' !in s[..n] && (n < |s| ==> s[n] == '\n')
  {
    if s == "" || s[0] == '\n' then 0 else 1 + LineEnd(s[1..])
  }

  function Lines(s: string): seq<string>
    decreases |s|
  {
    if s == "" then []
    else
      var n := LineEnd(s);
      [s[..n]] + if n < |s| then Lines(s[n + 1..]) else []
  }

  /** The text ends with its last line's newline. */
  predicate Whole(s: string) {
    s == "" || s[|s| - 1] == '\n'
  }

  predicate AreLines(ls: seq<string>) {
    forall i :: 0 <= i < |ls| ==> '\n' !in ls[i]
  }

  /** The lines that start with this key, in order. */
  function WithKey(ls: seq<string>, key: string): seq<string> {
    if ls == [] then []
    else (if key <= ls[0] then [ls[0]] else []) + WithKey(ls[1..], key)
  }

  predicate NoneHas(ls: seq<string>, key: string) {
    forall i :: 0 <= i < |ls| ==> !(key <= ls[i])
  }

  /** `l` as the first line of a text. */
  function Front(l: string, rest: string): string {
    l + "\n" + rest
  }

  lemma FrontConcat(l: string, s: string, t: string)
    ensures Front(l, s) + t == Front(l, s + t)
  {
  }

  lemma {:induction false} FrontEnds(l: string, rest: string)
    requires '\n' !in l
    ensures LineEnd(Front(l, rest)) == |l|
  {
    if l != "" {
      FrontEnds(l[1..], rest);
      assert Front(l, rest)[1..] == Front(l[1..], rest);
    }
  }

  lemma FirstLine(l: string, rest: string)
    requires '\n' !in l
    ensures Lines(Front(l, rest)) == [l] + Lines(rest)
  {
    FrontEnds(l, rest);
    assert Front(l, rest)[..|l|] == l && Front(l, rest)[|l| + 1..] == rest;
  }

  lemma LinesStep(l: string, s: string, t: string, ls: seq<string>)
    requires '\n' !in l && Lines(s + t) == ls + Lines(t)
    ensures Lines(Front(l, s) + t) == [l] + ls + Lines(t)
  {
    FirstLine(l, s + t);
    FrontConcat(l, s, t);
    assert [l] + (ls + Lines(t)) == [l] + ls + Lines(t);
  }

  lemma UnlinesTwo(a: string, b: string)
    ensures Unlines([a, b]) == a + "\n" + b + "\n"
  {
    assert [a, b][1..] == [b] && [b][1..] == [];
    assert Unlines([b]) == Front(b, Unlines([])) == b + "\n";
    assert Unlines([a, b]) == Front(a, Unlines([b]));
    assert a + "\n" + (b + "\n") == a + "\n" + b + "\n";
  }

  lemma UnlinesThree(a: string, b: string, c: string)
    ensures Unlines([a, b, c]) == a + "\n" + b + "\n" + c + "\n"
  {
    assert [a, b, c][1..] == [b, c];
    UnlinesTwo(b, c);
    assert a + "\n" + (b + "\n" + c + "\n") == a + "\n" + b + "\n" + c + "\n";
  }

  /** Splitting undoes joining. */
  lemma {:induction false} LinesOfUnlines(ls: seq<string>, rest: string)
    requires AreLines(ls)
    ensures Lines(Unlines(ls) + rest) == ls + Lines(rest)
  {
    if ls == [] {
      assert Unlines(ls) + rest == rest;
    } else {
      LinesOfUnlines(ls[1..], rest);
      LinesStep(ls[0], Unlines(ls[1..]), rest, ls[1..]);
      assert [ls[0]] + ls[1..] == ls;
    }
  }

  /** A whole text that is not empty has a first line, which ends in a newline. */
  lemma Split(s: string) returns (l: string, rest: string)
    requires Whole(s) && s != ""
    ensures '\n' !in l && s == Front(l, rest) && Whole(rest) && |rest| < |s|
  {
    var n := LineEnd(s);
    assert s[|s| - 1] == '\n';
    assert n < |s| by {
      assert s[..|s|] == s;
    }
    l, rest := s[..n], s[n + 1..];
  }

  /** Whole texts are split one by one. */
  lemma {:induction false} LinesConcat(s: string, t: string)
    requires Whole(s)
    ensures Lines(s + t) == Lines(s) + Lines(t)
    decreases |s|
  {
    if s == "" {
      assert s + t == t;
    } else {
      var l, rest := Split(s);
      LinesConcat(rest, t);
      LinesStep(l, rest, t, Lines(rest));
      FirstLine(l, rest);
    }
  }

  lemma {:induction false} WithKeyConcat(a: seq<string>, b: seq<string>, key: string)
    ensures WithKey(a + b, key) == WithKey(a, key) + WithKey(b, key)
  {
    if a == [] {
      assert a + b == b;
    } else {
      assert (a + b)[1..] == a[1..] + b;
      WithKeyConcat(a[1..], b, key);
    }
  }

  lemma KeyOfTwo(a: string, b: string, key: string)
    ensures WithKey([a, b], key) == (if key <= a then [a] else []) + (if key <= b then [b] else [])
  {
    assert [a, b][1..] == [b] && [b][1..] == [];
    assert WithKey([b], key) == if key <= b then [b] else [];
  }

  lemma KeyOfThree(a: string, b: string, c: string, key: string)
    ensures WithKey([a, b, c], key) ==
            (if key <= a then [a] else []) + ((if key <= b then [b] else []) + (if key <= c then [c] else []))
  {
    assert [a, b, c][1..] == [b, c];
    KeyOfTwo(b, c, key);
  }

  lemma {:induction false} WithKeyNone(ls: seq<string>, key: string)
    requires NoneHas(ls, key)
    ensures WithKey(ls, key) == []
  {
    if ls != [] {
      WithKeyNone(ls[1..], key);
    }
  }
}
