/** Deleting the placeholders no replacement used:
    `clean_remaining_placeholders` (word/word_filler.py:197-246, copied in
    fill/word_filler.py:182-218) and `_clean_remaining_placeholders`
    (fill/ppt_filler.py:89-117, which tests with `any(...)` instead of a loop
    with `break`). The `{{` positions are collected once; walking them from
    the last to the first, each region is scanned in the part as it is by
    then, and removed when no used key is a substring of its tag-free text. */
module Cleanup {
  import opened Text
  import opened Regions
  import opened Placeholders

  /** Some used key occurs in `text` (substring test, not equality). */
  predicate IsUsed(text: string, used: set<string>) {
    exists u :: u in used && Contains(text, u)
  }

  /** `r` is `s` with some characters deleted. */
  predicate Subsequence(r: string, s: string)
    decreases |s|
  {
    if r == [] then true
    else if s == [] then false
    else (r[0] == s[0] && Subsequence(r[1..], s[1..])) || Subsequence(r, s[1..])
  }

  lemma {:induction false} SubsequenceRefl(s: string)
    ensures Subsequence(s, s)
    decreases |s|
  {
    if s != [] {
      SubsequenceRefl(s[1..]);
    }
  }

  lemma {:induction false} SubsequenceTrans(a: string, b: string, c: string)
    requires Subsequence(a, b) && Subsequence(b, c)
    ensures Subsequence(a, c)
    decreases |c|
  {
    if a != [] {
      assert b != [] && c != [];
      if b[0] == c[0] && Subsequence(b[1..], c[1..]) {
        if a[0] == b[0] && Subsequence(a[1..], b[1..]) {
          SubsequenceTrans(a[1..], b[1..], c[1..]);
        } else {
          SubsequenceTrans(a, b[1..], c[1..]);
        }
      } else {
        SubsequenceTrans(a, b, c[1..]);
      }
    }
  }

  /** Deleting a prefix keeps a subsequence. */
  lemma {:induction false} SubsequenceDropFront(r: string, s: string, n: nat)
    requires n <= |s| && Subsequence(r, s[n..])
    ensures Subsequence(r, s)
    decreases n
  {
    if n > 0 {
      assert s[1..][n - 1..] == s[n..];
      SubsequenceDropFront(r, s[1..], n - 1);
      if r != [] {
        assert Subsequence(r, s[1..]);
      }
    }
  }

  /** Deleting the span `[p, e)` keeps a subsequence. */
  lemma {:induction false} SubsequenceCut(s: string, p: nat, e: nat)
    requires p <= e <= |s|
    ensures Subsequence(s[..p] + s[e..], s)
    decreases p
  {
    if p == 0 {
      assert s[..p] + s[e..] == s[e..];
      SubsequenceRefl(s[e..]);
      SubsequenceDropFront(s[e..], s, e);
    } else {
      var r := s[..p] + s[e..];
      SubsequenceCut(s[1..], p - 1, e - 1);
      assert r[0] == s[0];
      assert r[1..] == s[1..][..p - 1] + s[1..][e - 1..];
    }
  }

  /** One step of the reversed loop on the part as it is by then. */
  function CleanAt(s: string, p: nat, used: set<string>): (r: string)
    ensures Subsequence(r, s) && |r| <= |s|
    ensures |r| < |s| <==> RegionEnd(s, p) > 0 && !IsUsed(RegionText(s, p, RegionEnd(s, p)), used)
    ensures |r| < |s| ==> r == s[..p] + s[RegionEnd(s, p)..]
    ensures |r| == |s| ==> r == s
    ensures p <= |s| ==> p <= |r| && r[..p] == s[..p]
  {
    var e := RegionEnd(s, p);
    if e > 0 && !IsUsed(RegionText(s, p, e), used) then
      SubsequenceCut(s, p, e);
      s[..p] + s[e..]
    else
      SubsequenceRefl(s);
      s
  }

  /** The reversed loop over the collected positions `starts`. */
  function CleanFrom(s: string, starts: seq<nat>, used: set<string>): (r: string)
    ensures Subsequence(r, s) && |r| <= |s|
    decreases |starts|
  {
    if starts == [] then
      SubsequenceRefl(s);
      s
    else
      var s' := CleanAt(s, starts[|starts| - 1], used);
      var r := CleanFrom(s', starts[..|starts| - 1], used);
      SubsequenceTrans(r, s', s);
      r
  }

  /** The whole cleanup of a part. */
  function CleanRemaining(s: string, used: set<string>): string {
    CleanFrom(s, Opens(s), used)
  }

  /** The inner test: the Word filler's loop with `break`, and the slide
      filler's `any(...)`, both decide whether some used key occurs. */
  method ContainsUsedKey(text: string, used: set<string>) returns (found: bool)
    ensures found <==> IsUsed(text, used)
  {
    found := false;
    var rest := used;
    while rest != {} && !found
      invariant rest <= used
      invariant found <==> exists u :: u in used - rest && Contains(text, u)
      decreases |rest|
    {
      var u :| u in rest;
      assert used - (rest - {u}) == (used - rest) + {u};
      if Contains(text, u) {
        found := true;
      }
      rest := rest - {u};
    }
    assert !found ==> used - rest == used;
  }

  /** `clean_remaining_placeholders`: the collecting loop, then the reversed
      walk that splices `xml_content` in place. */
  method CleanRemainingPlaceholders(xml: string, used: set<string>) returns (r: string)
    ensures r == CleanRemaining(xml, used)
  {
    var starts := CollectOpens(xml);
    r := xml;
    var k := |starts|;
    assert starts[..k] == starts;
    while k > 0
      invariant 0 <= k <= |starts|
      invariant CleanFrom(r, starts[..k], used) == CleanRemaining(xml, used)
    {
      CleanFromStep(r, starts, k, used);
      r := CleanRegionAt(r, starts[k - 1], used);
      k := k - 1;
    }
  }

  /** One pass of the reversed walk: the depth scan from `start`, then the
      splice when the region closes and holds no used key. */
  method CleanRegionAt(xml: string, start: nat, used: set<string>) returns (r: string)
    ensures r == CleanAt(xml, start, used)
  {
    r := xml;
    var e := FindRegionEnd(xml, start);
    if e > 0 {
      var text := StripTags(xml[start + 2..e - 2]);
      var isUsed := ContainsUsedKey(text, used);
      if !isUsed {
        r := xml[..start] + xml[e..];
      }
    }
  }

  /** Walking the first `k` positions handles position `k - 1` first. */
  lemma CleanFromStep(s: string, starts: seq<nat>, k: nat, used: set<string>)
    requires 0 < k <= |starts|
    ensures CleanFrom(s, starts[..k], used) == CleanFrom(CleanAt(s, starts[k - 1], used), starts[..k - 1], used)
  {
    var t := starts[..k];
    assert t[|t| - 1] == starts[k - 1] && t[..|t| - 1] == starts[..k - 1];
  }

  // ---------------------------------------------------------------------------
  // What the cleanup keeps

  /** Positions at or beyond `m` leave the first `m` characters alone. */
  lemma {:induction false} CleanKeepsPrefix(s: string, starts: seq<nat>, used: set<string>, m: nat)
    requires m <= |s|
    requires forall k :: 0 <= k < |starts| ==> m <= starts[k]
    ensures var r := CleanFrom(s, starts, used); m <= |r| && r[..m] == s[..m]
    decreases |starts|
  {
    if starts != [] {
      var p := starts[|starts| - 1];
      var s' := CleanAt(s, p, used);
      if p <= |s| {
        assert s'[..m] == s'[..p][..m];
      } else {
        assert s' == s;
      }
      CleanKeepsPrefix(s', starts[..|starts| - 1], used, m);
      assert s'[..m] == s[..m];
    }
  }

  /** Text before the first `{{` is never touched, and a part without any
      `{{` comes back unchanged. */
  lemma CleanBeforeFirstOpen(s: string, used: set<string>)
    ensures var r := CleanRemaining(s, used);
      && (Opens(s) == [] ==> r == s)
      && (Opens(s) != [] ==> Opens(s)[0] <= |r| && r[..Opens(s)[0]] == s[..Opens(s)[0]])
  {
    var starts := Opens(s);
    if starts != [] {
      var m := starts[0];
      forall k | 0 <= k < |starts| ensures m <= starts[k] {
        if k > 0 { assert starts[0] < starts[k]; }
      }
      CleanKeepsPrefix(s, starts, used, m);
    }
  }

  /** With no `{{` anywhere, nothing is collected. */
  /** A part without `{` has no placeholder to clean. */
  lemma NoBraceClean(s: string, used: set<string>)
    requires '{' !in s
    ensures CleanRemaining(s, used) == s
  {
    forall q ensures !IsOpenAt(s, q) {
      if 0 <= q < |s| {
        assert s[q] in s;
      }
    }
    NoOpenUnchanged(s, used);
  }

  lemma NoOpenUnchanged(s: string, used: set<string>)
    requires forall q :: !IsOpenAt(s, q)
    ensures Opens(s) == [] && CleanRemaining(s, used) == s
  {
    SkipNonOpens(s, 0, |s|);
    assert OpensFrom(s, |s|) == [];
  }

  /** A part whose only `{{` opens a region that closes. */
  lemma CleanOneRegion(x: string, n: nat, e: int, used: set<string>)
    requires Opens(x) == [n] && RegionEnd(x, n) == e && e > 0
    ensures CleanRemaining(x, used)
      == if IsUsed(RegionText(x, n, e), used) then x else x[..n] + x[e..]
  {
    var starts := [n];
    assert starts[|starts| - 1] == n && starts[..|starts| - 1] == [];
    assert CleanFrom(x, starts, used) == CleanFrom(CleanAt(x, n, used), [], used);
    assert CleanRemaining(x, used) == CleanAt(x, n, used);
  }

  /** A part holding one brace-free placeholder loses it exactly when no used
      key is a substring of its tag-free text. */
  lemma SinglePlaceholderCleanup(x: string, a: string, m: string, b: string, used: set<string>)
    requires x == a + "{{" + m + "}}" + b
    requires '{' !in a && '{' !in m && '}' !in m && '{' !in b
    ensures CleanRemaining(x, used) == if IsUsed(StripTags(m), used) then x else a + b
  {
    var n, e := |a|, |a| + |m| + 4;
    SingleRegion(x, a, m, b);
    assert e - 2 == |a| + |m| + 2;
    CleanSplitRegion(x, n, e, a, m, b, used);
  }

  /** `CleanOneRegion`, with the region's inside and the text around it
      named. */
  lemma CleanSplitRegion(x: string, n: nat, e: int, a: string, m: string, b: string, used: set<string>)
    requires Opens(x) == [n] && RegionEnd(x, n) == e && e > 0
    requires n + 2 <= e - 2 <= e <= |x| && x[n + 2..e - 2] == m && x[..n] == a && x[e..] == b
    ensures CleanRemaining(x, used) == if IsUsed(StripTags(m), used) then x else a + b
  {
    CleanOneRegion(x, n, e, used);
  }

  /** Substring matching in action: a leftover `{{k + d}}` (the template's
      `{{环境新闻标题10}}`) survives the cleanup when `k` (`环境新闻标题1`)
      is a used key. */
  lemma LongerKeySurvives(a: string, k: string, d: string, b: string, used: set<string>)
    requires k in used
    requires '{' !in a && '{' !in b
    requires '{' !in k + d && '}' !in k + d && '<' !in k + d
    ensures var x := a + "{{" + k + d + "}}" + b; CleanRemaining(x, used) == x
  {
    assert a + "{{" + k + d + "}}" + b == a + "{{" + (k + d) + "}}" + b;
    SinglePlaceholderCleanup(a + "{{" + k + d + "}}" + b, a, k + d, b, used);
    StripTagsPlain(k + d);
    assert IsPrefix(k, k + d);
    assert IsUsed(k + d, used);
  }
}
