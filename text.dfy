/** String operations of Python's `str` and `re` that the modelled code uses,
    written out as recursive functions over `seq<char>`. A Dafny `char` is a
    Unicode scalar value, so `|s|` counts code points as Python's `len` does. */
module Text {

  /** `s.startswith(p)` */
  predicate IsPrefix(p: string, s: string) {
    |p| <= |s| && s[..|p|] == p
  }

  /** `s.endswith(p)` */
  predicate IsSuffix(p: string, s: string) {
    |p| <= |s| && s[|s| - |p|..] == p
  }

  /** Python's substring test `p in s`. */
  predicate Contains(s: string, p: string)
    decreases |s|
  {
    IsPrefix(p, s) || (|s| > 0 && Contains(s[1..], p))
  }

  /** An occurrence at a known index makes `p in s` true. */
  lemma {:induction false} ContainsAt(s: string, p: string, i: nat)
    requires i + |p| <= |s| && s[i..i + |p|] == p
    ensures Contains(s, p)
    decreases i
  {
    if i > 0 {
      assert s[1..][i - 1..i - 1 + |p|] == s[i..i + |p|];
      ContainsAt(s[1..], p, i - 1);
    }
  }

  /** `p in s` gives an index where `p` occurs. */
  lemma {:induction false} ContainsWitness(s: string, p: string) returns (i: nat)
    requires Contains(s, p)
    ensures i + |p| <= |s| && s[i..i + |p|] == p
    decreases |s|
  {
    if IsPrefix(p, s) {
      i := 0;
    } else {
      var j := ContainsWitness(s[1..], p);
      assert s[1..][j..j + |p|] == s[j + 1..j + 1 + |p|];
      i := j + 1;
    }
  }

  /** A substring found inside a part of `s` is found in `s`. */
  lemma ContainsInfix(a: string, m: string, b: string, p: string)
    requires Contains(m, p)
    ensures Contains(a + m + b, p)
  {
    var i := ContainsWitness(m, p);
    assert (a + m + b)[|a| + i..|a| + i + |p|] == m[i..i + |p|];
    ContainsAt(a + m + b, p, |a| + i);
  }

  /** A text holding `a + b` holds each of `a` and `b`. */
  lemma ContainsParts(s: string, a: string, b: string)
    requires Contains(s, a + b)
    ensures Contains(s, a) && Contains(s, b)
  {
    var i := ContainsWitness(s, a + b);
    assert s[i..i + |a|] == (a + b)[..|a|] == a;
    assert s[i + |a|..i + |a| + |b|] == (a + b)[|a|..] == b;
    ContainsAt(s, a, i);
    ContainsAt(s, b, i + |a|);
  }

  /** With no occurrence at any index, `p in s` is false. */
  lemma {:induction false} NoOccurrence(s: string, p: string)
    requires forall i :: 0 <= i <= |s| ==> !IsPrefix(p, s[i..])
    ensures !Contains(s, p)
    decreases |s|
  {
    assert s[0..] == s;
    if |s| > 0 {
      forall i | 0 <= i <= |s| - 1 ensures !IsPrefix(p, s[1..][i..]) {
        assert s[1..][i..] == s[i + 1..];
      }
      NoOccurrence(s[1..], p);
    }
  }

  /** The part before the first occurrence of `p` does not contain `p`. */
  lemma NotBeforeFirst(u: string, idx: nat, p: string)
    requires idx <= |u| && p != []
    requires forall j :: 0 <= j < idx ==> !IsPrefix(p, u[j..])
    ensures !Contains(u[..idx], p)
  {
    forall j | 0 <= j <= idx ensures !IsPrefix(p, u[..idx][j..]) {
      if j < idx && |p| <= idx - j {
        assert u[..idx][j..][..|p|] == u[j..][..|p|];
      }
    }
    NoOccurrence(u[..idx], p);
  }

  /** `s.find(p)`: the first index where `p` occurs, or -1. */
  function IndexOf(s: string, p: string): (k: int)
    ensures k >= -1
    ensures k == -1 <==> !Contains(s, p)
    ensures k >= 0 ==> k + |p| <= |s| && IsPrefix(p, s[k..])
    ensures k >= 0 ==> forall j :: 0 <= j < k ==> !IsPrefix(p, s[j..])
    decreases |s|
  {
    if IsPrefix(p, s) then
      assert s[0..] == s;
      0
    else if |s| == 0 then -1
    else
      var k := IndexOf(s[1..], p);
      if k == -1 then -1
      else
        assert s[1..][k..] == s[k + 1..];
        assert s[0..] == s;
        assert forall j :: 1 <= j < k + 1 ==> s[1..][j - 1..] == s[j..];
        k + 1
  }

  /** Python `s.replace(pat, rep)` for a non-empty `pat`: occurrences are
      found left to right and never overlap. */
  function ReplaceAll(s: string, pat: string, rep: string): (r: string)
    requires pat != []
    ensures !Contains(s, pat) ==> r == s
    decreases |s|
  {
    if |s| == 0 then s
    else if IsPrefix(pat, s) then rep + ReplaceAll(s[|pat|..], pat, rep)
    else [s[0]] + ReplaceAll(s[1..], pat, rep)
  }

  lemma NotContainsChar(s: string, c: char)
    requires c !in s
    ensures !Contains(s, [c])
    decreases |s|
  {
    if |s| > 0 {
      assert s[0] in s;
      NotContainsChar(s[1..], c);
    }
  }

  /** A replace step whose character is absent changes nothing. */
  lemma KeepsAbsent(s: string, c: char, rep: string)
    requires c !in s
    ensures ReplaceAll(s, [c], rep) == s
  {
    NotContainsChar(s, c);
  }

  lemma ReplaceCharOne(x: char, c: char, rep: string)
    ensures ReplaceAll([x], [c], rep) == if x == c then rep else [x]
  {
    assert [x][1..] == [];
  }
  /** Replacing a single character distributes over concatenation. */
  lemma {:induction false} ReplaceCharAppend(a: string, b: string, c: char, rep: string)
    ensures ReplaceAll(a + b, [c], rep) == ReplaceAll(a, [c], rep) + ReplaceAll(b, [c], rep)
    decreases |a|
  {
    if a == [] {
      assert a + b == b;
    } else {
      assert (a + b)[1..] == a[1..] + b;
      assert IsPrefix([c], a + b) <==> IsPrefix([c], a);
      ReplaceCharAppend(a[1..], b, c, rep);
    }
  }

  /** After replacing every `c` by a string free of `c`, no `c` is left. */
  lemma {:induction false} ReplaceCharRemoves(s: string, c: char, rep: string)
    requires c !in rep
    ensures c !in ReplaceAll(s, [c], rep)
    decreases |s|
  {
    if |s| > 0 {
      ReplaceCharRemoves(s[1..], c, rep);
    }
  }

  /** Replacing only inserts the characters of `rep`. */
  lemma {:induction false} ReplaceChars(s: string, pat: string, rep: string, x: char)
    requires pat != [] && x in ReplaceAll(s, pat, rep)
    ensures x in s || x in rep
    decreases |s|
  {
    if |s| > 0 {
      if IsPrefix(pat, s) {
        var t := ReplaceAll(s[|pat|..], pat, rep);
        assert ReplaceAll(s, pat, rep) == rep + t;
        if x !in rep {
          ReplaceChars(s[|pat|..], pat, rep, x);
          assert x in s[|pat|..];
        }
      } else {
        var t := ReplaceAll(s[1..], pat, rep);
        assert ReplaceAll(s, pat, rep) == [s[0]] + t;
        if x != s[0] { ReplaceChars(s[1..], pat, rep, x); }
      }
    }
  }

  // ---------------------------------------------------------------------------
  // strip

  /** The characters of `str.strip('\n\r \t')`. */
  const Blank: set<char> := {'\n', '\r', ' ', '\t'}

  /** The characters Python's `str.isspace()` accepts; `str.strip()` and
      `str.split()` without arguments use them. */
  const PySpace: set<char> := {
    '\t', '\n', '\U{0B}', '\U{0C}', '\r', '\U{1C}', '\U{1D}', '\U{1E}', '\U{1F}', ' ',
    '\U{85}', '\U{A0}', '\U{1680}', '\U{2000}', '\U{2001}', '\U{2002}', '\U{2003}',
    '\U{2004}', '\U{2005}', '\U{2006}', '\U{2007}', '\U{2008}', '\U{2009}', '\U{200A}',
    '\U{2028}', '\U{2029}', '\U{202F}', '\U{205F}', '\U{3000}'
  }

  /** `s.lstrip(cs)`: the longest suffix of `s` after a prefix made only of `cs`. */
  function TrimLeft(s: string, cs: set<char>): (r: string)
    ensures |r| <= |s| && r == s[|s| - |r|..]
    ensures r == [] || r[0] !in cs
    ensures forall i :: 0 <= i < |s| - |r| ==> s[i] in cs
    decreases |s|
  {
    if |s| > 0 && s[0] in cs then TrimLeft(s[1..], cs) else s
  }

  /** `s.rstrip(cs)` */
  function TrimRight(s: string, cs: set<char>): (r: string)
    ensures |r| <= |s| && r == s[..|r|]
    ensures r == [] || r[|r| - 1] !in cs
    ensures forall i :: |r| <= i < |s| ==> s[i] in cs
    decreases |s|
  {
    if |s| > 0 && s[|s| - 1] in cs then TrimRight(s[..|s| - 1], cs) else s
  }

  /** `s.strip(cs)` */
  function Trim(s: string, cs: set<char>): (r: string)
  {
    TrimRight(TrimLeft(s, cs), cs)
  }

  /** `s` neither starts nor ends with a character of `cs`. */
  predicate Trimmed(s: string, cs: set<char>) {
    s == [] || (s[0] !in cs && s[|s| - 1] !in cs)
  }

  /** The result of `strip` is a slice of the input, starting at `i`, with no
      `cs` at either end. */
  lemma TrimSpec(s: string, cs: set<char>) returns (i: nat)
    ensures Trimmed(Trim(s, cs), cs)
    ensures i + |Trim(s, cs)| <= |s| && Trim(s, cs) == s[i..i + |Trim(s, cs)|]
  {
    var l := TrimLeft(s, cs);
    var r := TrimRight(l, cs);
    i := |s| - |l|;
    assert r == s[i..i + |r|];
    if r != [] {
      assert r[0] == l[0];
    }
  }

  /** `strip` leaves no `cs` at either end. */
  lemma TrimTrimmed(s: string, cs: set<char>)
    ensures Trimmed(Trim(s, cs), cs)
  {
    var i := TrimSpec(s, cs);
  }

  /** A trimmed string is its own strip. */
  lemma TrimOfTrimmed(s: string, cs: set<char>)
    requires Trimmed(s, cs)
    ensures Trim(s, cs) == s
  {
  }

  /** `s.strip()` with Python's whitespace. */
  function Strip(s: string): string {
    Trim(s, PySpace)
  }

  /** `s.strip('\n\r \t')` */
  function StripBlank(s: string): string {
    Trim(s, Blank)
  }

  // ---------------------------------------------------------------------------
  // newline runs

  /** No two newlines stand next to each other. */
  predicate NoDoubleNewline(s: string) {
    forall i :: 0 < i < |s| ==> !(s[i - 1] == '\n' && s[i] == '\n')
  }

  /** `re.sub(r'\n{2,}', '\n', s)`, which equals `re.sub(r'\n+', '\n', s)`:
      every maximal run of newlines becomes one newline. */
  function CollapseNewlines(s: string): (r: string)
    ensures |r| <= |s|
    ensures NoDoubleNewline(r)
    ensures |s| > 0 ==> |r| > 0 && r[0] == s[0] && r[|r| - 1] == s[|s| - 1]
    decreases |s|
  {
    if |s| == 0 then s
    else if |s| >= 2 && s[0] == '\n' && s[1] == '\n' then CollapseNewlines(s[1..])
    else [s[0]] + CollapseNewlines(s[1..])
  }

  /** Collapsing only drops characters, it never introduces one. */
  lemma {:induction false} CollapseKeepsChars(s: string, c: char)
    requires c in CollapseNewlines(s)
    ensures c in s
    decreases |s|
  {
    if |s| > 0 && c != s[0] {
      CollapseKeepsChars(s[1..], c);
    }
  }

  /** Collapsing a text that has no newline run changes nothing. */
  lemma {:induction false} CollapseWithoutRuns(s: string)
    requires NoDoubleNewline(s)
    ensures CollapseNewlines(s) == s
    decreases |s|
  {
    if |s| > 0 {
      assert NoDoubleNewline(s[1..]) by {
        forall i | 0 < i < |s| - 1 ensures !(s[1..][i - 1] == '\n' && s[1..][i] == '\n') {
          assert s[1..][i - 1] == s[i] && s[1..][i] == s[i + 1];
        }
      }
      if |s| >= 2 {
        assert !(s[0] == '\n' && s[1] == '\n');
      }
      CollapseWithoutRuns(s[1..]);
    }
  }

  /** Every slice of a text without newline runs has none either. */
  lemma SliceKeepsNoDoubleNewline(s: string, i: nat, j: nat)
    requires i <= j <= |s| && NoDoubleNewline(s)
    ensures NoDoubleNewline(s[i..j])
  {
    forall k | 0 < k < j - i ensures !(s[i..j][k - 1] == '\n' && s[i..j][k] == '\n') {
      assert s[i..j][k - 1] == s[i + k - 1] && s[i..j][k] == s[i + k];
    }
  }

  // ---------------------------------------------------------------------------
  // markup

  /** `s.find(c, from)` */
  function IndexOfFrom(s: string, c: char, from: nat): (k: int)
    ensures k == -1 || (from <= k < |s| && s[k] == c)
    ensures k == -1 ==> forall j :: from <= j < |s| ==> s[j] != c
    ensures k != -1 ==> forall j :: from <= j < k ==> s[j] != c
    decreases |s| - from
  {
    if from >= |s| then -1 else if s[from] == c then from else IndexOfFrom(s, c, from + 1)
  }

  /** `re.sub(r'<[^>]+>', '', s)`: a `<` followed by at least one character
      other than `>` and then a `>` is removed, scanning left to right. */
  function StripTags(s: string): (r: string)
    ensures |r| <= |s|
    decreases |s|
  {
    if |s| == 0 then s
    else if s[0] == '<' && IndexOfFrom(s, '>', 1) >= 2 then StripTags(s[IndexOfFrom(s, '>', 1) + 1..])
    else [s[0]] + StripTags(s[1..])
  }

  /** Text without `<` is its own tag-free text. */
  lemma {:induction false} StripTagsPlain(s: string)
    requires '<' !in s
    ensures StripTags(s) == s
    decreases |s|
  {
    if |s| > 0 {
      assert s[0] in s;
      StripTagsPlain(s[1..]);
    }
  }

  /** A tag between two pieces of text vanishes from the tag-free text: the
      logical name of `{{na<x/>me}}` is the logical name of `{{name}}`. */
  lemma {:induction false} StripTagsDropsTag(a: string, t: string, b: string)
    requires '<' !in a && t != [] && '>' !in t
    ensures StripTags(a + "<" + t + ">" + b) == a + StripTags(b)
    decreases |a|
  {
    var s := a + "<" + t + ">" + b;
    if a == [] {
      assert s == "<" + t + ">" + b;
      assert IndexOfFrom(s, '>', 1) == |t| + 1 by {
        assert s[|t| + 1] == '>';
        forall j | 1 <= j < |t| + 1 ensures s[j] != '>' {
          assert s[j] == t[j - 1];
        }
        assert IndexOfFrom(s, '>', 1) != -1;
      }
      assert s[|t| + 2..] == b;
    } else {
      assert a[0] in a;
      assert s[1..] == a[1..] + "<" + t + ">" + b;
      StripTagsDropsTag(a[1..], t, b);
    }
  }

  // ---------------------------------------------------------------------------
  // lines

  /** `s.split('\n')`: always at least one piece, none holding a newline. */
  function SplitLines(s: string): (r: seq<string>)
    ensures |r| >= 1
    decreases |s|
  {
    var k := IndexOfFrom(s, '\n', 0);
    if k == -1 then [s] else [s[..k]] + SplitLines(s[k + 1..])
  }

  /** No piece holds a newline. */
  lemma {:induction false} SplitLinesNoNewline(s: string)
    ensures forall i :: 0 <= i < |SplitLines(s)| ==> '\n' !in SplitLines(s)[i]
    decreases |s|
  {
    var k := SplitStep(s);
    if k != -1 {
      var rest := SplitLines(s[k + 1..]);
      SplitLinesNoNewline(s[k + 1..]);
      ConsNoNewline(s[..k], rest);
    }
  }

  /** A text without a newline is a single piece. */
  lemma SplitLinesSingle(s: string)
    requires '\n' !in s
    ensures SplitLines(s) == [s]
  {
    var k := SplitStep(s);
  }

  lemma ConsNoNewline(h: string, rest: seq<string>)
    requires '\n' !in h
    requires forall i :: 0 <= i < |rest| ==> '\n' !in rest[i]
    ensures forall i :: 0 <= i < |[h] + rest| ==> '\n' !in ([h] + rest)[i]
  {
    forall i | 0 <= i < |[h] + rest| ensures '\n' !in ([h] + rest)[i] {
      if i > 0 {
        assert ([h] + rest)[i] == rest[i - 1];
      }
    }
  }

  /** `'\n'.join(parts)` */
  function JoinLines(parts: seq<string>): string
  {
    if |parts| == 0 then ""
    else if |parts| == 1 then parts[0]
    else parts[0] + "\n" + JoinLines(parts[1..])
  }

  /** Splitting at newlines and joining back gives the text again. */
  lemma {:induction false} JoinSplitLines(s: string)
    ensures JoinLines(SplitLines(s)) == s
    decreases |s|
  {
    var k := SplitStep(s);
    if k != -1 {
      var h, t := s[..k], s[k + 1..];
      JoinCons(h, SplitLines(t));
      JoinSplitLines(t);
    }
  }

  /** The first cut `split` makes: at the first newline, or nowhere. */
  lemma SplitStep(s: string) returns (k: int)
    ensures k == -1 ==> SplitLines(s) == [s]
    ensures k != -1 ==> 0 <= k < |s| && SplitLines(s) == [s[..k]] + SplitLines(s[k + 1..])
    ensures k != -1 ==> s == s[..k] + "\n" + s[k + 1..]
    ensures k == -1 ==> '\n' !in s
    ensures k != -1 ==> '\n' !in s[..k]
  {
    k := IndexOfFrom(s, '\n', 0);
    if k != -1 {
      CutAt(s, k);
      assert [s[k]] == "\n";
      forall j | 0 <= j < k ensures s[..k][j] != '\n' {
      }
    } else {
      assert SplitLines(s) == [s];
      forall j | 0 <= j < |s| ensures s[j] != '\n' {
      }
    }
  }

  lemma CutAt(s: string, k: nat)
    requires k < |s|
    ensures s == s[..k] + [s[k]] + s[k + 1..]
  {
    assert s[k..] == [s[k]] + s[k + 1..];
    assert s == s[..k] + s[k..];
  }

  lemma JoinCons(head: string, rest: seq<string>)
    requires |rest| >= 1
    ensures JoinLines([head] + rest) == head + "\n" + JoinLines(rest)
  {
    var parts := [head] + rest;
    assert parts[0] == head && parts[1..] == rest;
  }

  // ---------------------------------------------------------------------------
  // numbers

  function DigitChar(d: nat): (c: char)
    requires d < 10
    ensures '0' <= c <= '9'
  {
    (48 + d) as char
  }

  /** `str(n)` for a natural number. */
  function NatToString(n: nat): (r: string)
    ensures |r| >= 1 && (n >= 10 <==> |r| >= 2)
    decreases n
  {
    if n < 10 then [DigitChar(n)] else NatToString(n / 10) + [DigitChar(n % 10)]
  }

  /** Different numbers print differently. */
  lemma {:induction false} NatToStringInjective(a: nat, b: nat)
    requires NatToString(a) == NatToString(b)
    ensures a == b
    decreases a
  {
    if a >= 10 && b >= 10 {
      var ra, rb := NatToString(a), NatToString(b);
      assert ra[|ra| - 1] == rb[|rb| - 1];
      assert ra[..|ra| - 1] == NatToString(a / 10);
      assert rb[..|rb| - 1] == NatToString(b / 10);
      NatToStringInjective(a / 10, b / 10);
    }
  }

  // ---------------------------------------------------------------------------
  // whitespace tokens

  /** `s.split()[0]` when `s.split()` is not empty: the first maximal run of
      non-whitespace characters. */
  function FirstToken(s: string): (r: string)
    ensures |r| <= |s|
    decreases |s|
  {
    if |s| == 0 then s
    else if s[0] in PySpace then FirstToken(s[1..])
    else TakeWord(s)
  }

  function TakeWord(s: string): (r: string)
    ensures |r| <= |s| && r == s[..|r|]
    ensures forall c :: c in r ==> c !in PySpace
    ensures |r| < |s| ==> s[|r|] in PySpace
    decreases |s|
  {
    if |s| == 0 || s[0] in PySpace then [] else [s[0]] + TakeWord(s[1..])
  }

  /** `s.split()` is empty exactly when `s` is only whitespace. */
  predicate AllSpace(s: string) {
    forall i :: 0 <= i < |s| ==> s[i] in PySpace
  }

  /** `r` is a maximal run of non-whitespace characters starting at `i` in
      `s`, with only whitespace before it. */
  predicate TokenAt(s: string, i: nat, r: string) {
    && r != [] && (forall c :: c in r ==> c !in PySpace)
    && i + |r| <= |s| && s[i..i + |r|] == r
    && (forall j :: 0 <= j < i ==> s[j] in PySpace)
    && (i + |r| < |s| ==> s[i + |r|] in PySpace)
  }

  /** A whitespace character in front shifts the token by one. */
  lemma TokenAfterSpace(s: string, i: nat, r: string)
    requires |s| > 0 && s[0] in PySpace && TokenAt(s[1..], i, r)
    ensures TokenAt(s, i + 1, r)
  {
    assert s[i + 1..i + 1 + |r|] == s[1..][i..i + |r|];
    forall j | 0 <= j < i + 1 ensures s[j] in PySpace {
      if j > 0 { assert s[j] == s[1..][j - 1]; }
    }
    if i + 1 + |r| < |s| {
      assert s[i + 1 + |r|] == s[1..][i + |r|];
    }
  }

  lemma NotAllSpaceTail(s: string)
    requires !AllSpace(s) && s[0] in PySpace
    ensures !AllSpace(s[1..])
  {
    var k :| 0 <= k < |s| && s[k] !in PySpace;
    assert s[1..][k - 1] == s[k];
  }

  /** When `s` is not all whitespace, `s.split()[0]` is a non-empty run of
      non-whitespace characters of `s`, preceded only by whitespace and
      followed by whitespace or the end. */
  lemma {:induction false} FirstTokenSpec(s: string) returns (i: nat)
    requires !AllSpace(s)
    ensures TokenAt(s, i, FirstToken(s))
    decreases |s|
  {
    if s[0] in PySpace {
      NotAllSpaceTail(s);
      var i' := FirstTokenSpec(s[1..]);
      assert FirstToken(s) == FirstToken(s[1..]);
      TokenAfterSpace(s, i', FirstToken(s[1..]));
      i := i' + 1;
    } else {
      i := 0;
    }
  }
}
