/** Replacing one `{{key}}` placeholder in a markup part:
    `replace_placeholder_in_xml` (word/word_filler.py:91-142, copied in
    fill/word_filler.py:82-119) and `_replace_placeholder_in_xml`
    (fill/ppt_filler.py:52-86). The three copies differ only in how the value
    is turned into markup. */
module Placeholders {
  import opened Text
  import opened Regions
  import opened LineBreaks

  /** Which converter prepares the value: Word run breaks with escaping, or
      slide breaks without. */
  datatype Flavor = Word | Slide

  function ConvertValue(flavor: Flavor, value: string): string {
    match flavor
    case Word => ConvertNewlinesToWordXml(value)
    case Slide => ConvertNewlinesToPptxXml(value)
  }

  /** `f"{{{{{placeholder}}}}}"` */
  function Literal(key: string): (r: string)
    ensures |r| == |key| + 4 && r != []
  {
    "{{" + key + "}}"
  }

  /** The region's text with `<[^>]+>` tags removed. */
  function RegionText(s: string, start: nat, end: int): string
    requires start + 4 <= end <= |s|
  {
    StripTags(s[start + 2..end - 2])
  }

  /** The region opened at `start` closes and its tag-free text contains `key`. */
  predicate Qualifies(s: string, start: nat, key: string) {
    var e := RegionEnd(s, start);
    e > 0 && Contains(RegionText(s, start, e), key)
  }

  /** `start` opens a qualifying region and no later `{{` does. */
  ghost predicate RightmostQualifying(s: string, start: nat, key: string) {
    && IsOpenAt(s, start) && Qualifies(s, start, key)
    && forall q :: start < q && IsOpenAt(s, q) ==> !Qualifies(s, q, key)
  }

  /** The last index of `starts` whose region qualifies, or -1. */
  function LastQualifying(s: string, starts: seq<nat>, key: string): (j: int)
    ensures -1 <= j < |starts|
    ensures j >= 0 ==> Qualifies(s, starts[j], key)
    ensures forall k :: j < k < |starts| ==> !Qualifies(s, starts[k], key)
    decreases |starts|
  {
    if starts == [] then -1
    else if Qualifies(s, starts[|starts| - 1], key) then |starts| - 1
    else LastQualifying(s, starts[..|starts| - 1], key)
  }

  lemma IndexOfOpen(s: string, q: nat) returns (k: nat)
    requires IsOpenAt(s, q)
    ensures k < |Opens(s)| && Opens(s)[k] == q
  {
    assert q in Opens(s);
    k :| k < |Opens(s)| && Opens(s)[k] == q;
  }

  /** What one replacement does to a part, with the success flag: the literal
      `{{key}}` replaced everywhere when it occurs; otherwise the right-most
      qualifying region spliced out for the value; otherwise nothing. */
  function Substitute(xml: string, key: string, rep: string): (res: (string, bool))
    ensures !res.1 ==> res.0 == xml
  {
    if Contains(xml, Literal(key)) then (ReplaceAll(xml, Literal(key), rep), true)
    else
      var starts := Opens(xml);
      var j := LastQualifying(xml, starts, key);
      if j < 0 then (xml, false)
      else
        var p := starts[j];
        (xml[..p] + rep + xml[RegionEnd(xml, p)..], true)
  }

  /** The three outcomes of one replacement: it succeeds exactly when the
      literal occurs or some region qualifies; the literal, when present,
      wins and is replaced everywhere; otherwise the right-most qualifying
      region, and only it, is spliced out for the value. */
  lemma SubstituteOutcomes(xml: string, key: string, rep: string)
    ensures var res := Substitute(xml, key, rep);
      && (res.1 <==> Contains(xml, Literal(key)) || exists p: nat :: IsOpenAt(xml, p) && Qualifies(xml, p, key))
      && (Contains(xml, Literal(key)) ==> res.0 == ReplaceAll(xml, Literal(key), rep))
      && (!Contains(xml, Literal(key)) && res.1 ==>
            exists p: nat :: RightmostQualifying(xml, p, key) && res.0 == xml[..p] + rep + xml[RegionEnd(xml, p)..])
  {
    if !Contains(xml, Literal(key)) {
      var starts := Opens(xml);
      var j := LastQualifying(xml, starts, key);
      if j < 0 {
        forall p | IsOpenAt(xml, p) ensures !Qualifies(xml, p, key) {
          var k := IndexOfOpen(xml, p);
        }
      } else {
        var p := starts[j];
        forall q | p < q && IsOpenAt(xml, q) ensures !Qualifies(xml, q, key) {
          var k := IndexOfOpen(xml, q);
          assert k > j;
        }
        assert RightmostQualifying(xml, p, key);
      }
    }
  }

  /** The source's loops over the collected `{{` positions, walked from the
      last to the first, stopping at the first region that qualifies; gives
      the qualifying position's index among the `{{` positions, or -1. */
  method FindQualifyingRegion(xml: string, key: string) returns (j: int, start: nat, end: int)
    ensures j == LastQualifying(xml, Opens(xml), key)
    ensures j >= 0 ==> start == Opens(xml)[j] && end == RegionEnd(xml, start)
  {
    var starts := CollectOpens(xml);
    var k := |starts|;
    start, end := 0, -1;
    while k > 0
      invariant 0 <= k <= |starts|
      invariant NoneQualifiesFrom(xml, starts, key, k)
    {
      k := k - 1;
      var e, ok := RegionQualifies(xml, starts[k], key);
      if ok {
        LastQualifyingIs(xml, starts, key, k);
        return k, starts[k], e;
      }
    }
    NoneQualifying(xml, starts, key);
    return -1, start, end;
  }

  /** One pass of the reversed walk: the depth scan, then the key test on the
      region's tag-free text. */
  method RegionQualifies(xml: string, start: nat, key: string) returns (e: int, ok: bool)
    ensures e == RegionEnd(xml, start)
    ensures ok <==> Qualifies(xml, start, key)
  {
    e := FindRegionEnd(xml, start);
    ok := false;
    if e > 0 {
      var text := StripTags(xml[start + 2..e - 2]);
      ok := Contains(text, key);
    }
  }

  /** No position from index `k` on qualifies. */
  predicate NoneQualifiesFrom(s: string, starts: seq<nat>, key: string, k: nat) {
    forall m :: k <= m < |starts| ==> !Qualifies(s, starts[m], key)
  }

  /** The walk stops at the last qualifying position. */
  lemma {:induction false} LastQualifyingIs(s: string, starts: seq<nat>, key: string, k: nat)
    requires k < |starts| && Qualifies(s, starts[k], key)
    requires forall m :: k < m < |starts| ==> !Qualifies(s, starts[m], key)
    ensures LastQualifying(s, starts, key) == k
    decreases |starts|
  {
    if k < |starts| - 1 {
      var init := starts[..|starts| - 1];
      assert init[k] == starts[k];
      forall m | k < m < |init| ensures !Qualifies(s, init[m], key) {
        assert init[m] == starts[m];
      }
      LastQualifyingIs(s, init, key, k);
    }
  }

  /** When no position qualifies, the walk finds nothing. */
  lemma {:induction false} NoneQualifying(s: string, starts: seq<nat>, key: string)
    requires forall m :: 0 <= m < |starts| ==> !Qualifies(s, starts[m], key)
    ensures LastQualifying(s, starts, key) == -1
    decreases |starts|
  {
    if starts != [] {
      var init := starts[..|starts| - 1];
      forall m | 0 <= m < |init| ensures !Qualifies(s, init[m], key) {
        assert init[m] == starts[m];
      }
      NoneQualifying(s, init, key);
    }
  }

  /** `replace_placeholder_in_xml`: the literal test and replace-all, else
      the region scan and one splice. */
  method ReplacePlaceholderInXml(xml: string, key: string, value: string, flavor: Flavor)
    returns (r: string, ok: bool)
    ensures (r, ok) == Substitute(xml, key, ConvertValue(flavor, value))
  {
    var rep := ConvertValue(flavor, value);
    var lit := Literal(key);
    if Contains(xml, lit) {
      return ReplaceAll(xml, lit, rep), true;
    }
    var j, start, end := FindQualifyingRegion(xml, key);
    if j >= 0 {
      return xml[..start] + rep + xml[end..], true;
    }
    return xml, false;
  }

  // ---------------------------------------------------------------------------
  // One placeholder in a part

  /** A part holding exactly one `{{ ... }}` region with brace-free content. */
  lemma SingleRegion(x: string, a: string, m: string, b: string)
    requires x == a + "{{" + m + "}}" + b
    requires '{' !in a && '{' !in m && '}' !in m && '{' !in b
    ensures Opens(x) == [|a|] && RegionEnd(x, |a|) == |a| + |m| + 4
    ensures x[|a| + 2..|a| + |m| + 2] == m && x[..|a|] == a && x[|a| + |m| + 4..] == b
  {
    var n := |a|;
    assert x[n] == '{' && x[n + 1] == '{';
    assert x[n + |m| + 2] == '}' && x[n + |m| + 3] == '}';
    forall i | 0 <= i < |x| && i != n && i != n + 1 ensures x[i] != '{' {
      if i < n {
        assert x[i] == a[i];
      } else if i < n + 2 + |m| {
        assert x[i] == m[i - n - 2];
      } else if i >= n + |m| + 4 {
        assert x[i] == b[i - n - |m| - 4];
      }
    }
    forall q | q != n ensures !IsOpenAt(x, q) {
      if 0 <= q && q + 1 < |x| {
        assert x[q] != '{' || x[q + 1] != '{';
      }
    }
    OnlyOpen(x, n);
    forall q | n + 2 <= q < n + 2 + |m| ensures !IsOpenAt(x, q) && !IsCloseAt(x, q) {
      assert x[q] == m[q - n - 2];
    }
    PlainRegion(x, n + 2, n + 2 + |m|);
    assert x[n + 2..n + |m| + 2] == m;
    assert x[..n] == a;
    assert x[n + |m| + 4..] == b;
  }

  /** The part `a{{k1<t>k2}}b`, with the one tag `<t>` splitting the key. */
  function SplitPart(a: string, k1: string, t: string, k2: string, b: string): string {
    a + "{{" + k1 + "<" + t + ">" + k2 + "}}" + b
  }

  predicate SplitShape(a: string, k1: string, t: string, k2: string, b: string) {
    && '{' !in a && '{' !in b
    && '{' !in k1 && '}' !in k1 && '<' !in k1
    && '{' !in k2 && '}' !in k2 && '<' !in k2
    && '{' !in t && '}' !in t && '>' !in t && t != []
  }

  lemma SplitRegion(a: string, k1: string, t: string, k2: string, b: string)
    requires SplitShape(a, k1, t, k2, b)
    ensures var x, m := SplitPart(a, k1, t, k2, b), k1 + "<" + t + ">" + k2;
      && Opens(x) == [|a|] && RegionEnd(x, |a|) == |a| + |m| + 4
      && RegionText(x, |a|, |a| + |m| + 4) == k1 + k2
      && x[..|a|] == a && x[|a| + |m| + 4..] == b
      && x[|a| + 2 + |k1|] == '<'
  {
    var m := k1 + "<" + t + ">" + k2;
    var x := a + "{{" + m + "}}" + b;
    assert x == SplitPart(a, k1, t, k2, b);
    SingleRegion(x, a, m, b);
    StripTagsPlain(k2);
    StripTagsDropsTag(k1, t, k2);
    assert x[|a| + 2 + |k1|] == m[|k1|];
  }

  /** At the one open of the split part, the text differs from the literal
      where the tag starts. */
  lemma SplitOpenNotLiteral(a: string, k1: string, t: string, k2: string, b: string, i: nat)
    requires SplitShape(a, k1, t, k2, b)
    requires i <= |SplitPart(a, k1, t, k2, b)| && IsOpenAt(SplitPart(a, k1, t, k2, b), i)
    ensures !IsPrefix(Literal(k1 + k2), SplitPart(a, k1, t, k2, b)[i..])
  {
    var x := SplitPart(a, k1, t, k2, b);
    var lit := Literal(k1 + k2);
    SplitRegion(a, k1, t, k2, b);
    var k := IndexOfOpen(x, i);
    assert i == |a|;
    assert lit[2 + |k1|] != '<' by {
      if k2 != [] { assert lit[2 + |k1|] == k2[0]; } else { assert lit[2 + |k1|] == '}'; }
    }
    if |x[i..]| >= |lit| {
      assert x[i..][2 + |k1|] != lit[2 + |k1|];
    }
  }

  lemma SplitHasNoLiteral(a: string, k1: string, t: string, k2: string, b: string)
    requires SplitShape(a, k1, t, k2, b)
    ensures !Contains(SplitPart(a, k1, t, k2, b), Literal(k1 + k2))
  {
    var x := SplitPart(a, k1, t, k2, b);
    var lit := Literal(k1 + k2);
    forall i | 0 <= i <= |x| ensures !IsPrefix(lit, x[i..]) {
      if IsOpenAt(x, i) {
        SplitOpenNotLiteral(a, k1, t, k2, b, i);
      } else if i + 1 < |x| {
        assert x[i..][0] != '{' || x[i..][1] != '{';
      }
    }
    NoOccurrence(x, lit);
  }

  /** A key split across runs, `k1<t>k2` between the braces, is found by the
      region scan: the literal `{{k1k2}}` does not occur, and the whole region
      is replaced by the value. */
  lemma SplitKeyIsReplaced(a: string, k1: string, t: string, k2: string, b: string, rep: string)
    requires SplitShape(a, k1, t, k2, b)
    ensures Substitute(SplitPart(a, k1, t, k2, b), k1 + k2, rep) == (a + rep + b, true)
  {
    var x := SplitPart(a, k1, t, k2, b);
    var key := k1 + k2;
    var n := |a|;
    SplitRegion(a, k1, t, k2, b);
    SplitHasNoLiteral(a, k1, t, k2, b);
    assert Contains(key, key) by { assert IsPrefix(key, key); }
    assert Qualifies(x, n, key);
    assert Opens(x)[0] == n;
    assert LastQualifying(x, Opens(x), key) == 0;
  }

  /** The fast path stops at the literal: when `{{key}}` occurs in the part,
      a second, split occurrence of the same key further on is left as it
      was. */
  lemma FastPathLeavesSplitOccurrence(key: string, y: string, rep: string)
    requires !Contains(y, Literal(key))
    ensures Substitute(Literal(key) + y, key, rep) == (rep + y, true)
  {
    var lit := Literal(key);
    var x := lit + y;
    assert IsPrefix(lit, x);
    assert x[|lit|..] == y;
    assert ReplaceAll(x, lit, rep) == rep + ReplaceAll(y, lit, rep);
  }
}
