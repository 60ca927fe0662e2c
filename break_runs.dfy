/** The break tidying the Word fillers run on `document.xml` after all
    replacements (word/word_filler.py:346-351, fill/word_filler.py:308-312):
    runs of two or more break sequences become one, empty-run breaks are
    deleted, and break sequences at the very start and end are dropped. */
module BreakRuns {
  import opened Text
  import opened LineBreaks

  /** `<w:t></w:t><w:br/><w:t></w:t>`, a break between two empty runs. */
  const EmptyRunBreak: string := "<w:t></w:t><w:br/><w:t></w:t>"

  /** `re.sub(r'^(b)+', '', s)` */
  function DropLeading(s: string, b: string): (r: string)
    requires b != []
    ensures !IsPrefix(b, r)
    ensures |r| <= |s| && r == s[|s| - |r|..]
    ensures IsPrefix(b, s) ==> |r| <= |s| - |b|
    ensures !IsPrefix(b, s) ==> r == s
    decreases |s|
  {
    if IsPrefix(b, s) then DropLeading(s[|b|..], b) else s
  }

  /** The run of `b` at the very end removed. */
  function DropRun(s: string, b: string): (r: string)
    requires b != []
    ensures !IsSuffix(b, r)
    ensures |r| <= |s| && r == s[..|r|]
    ensures !IsSuffix(b, s) ==> r == s
    decreases |s|
  {
    if IsSuffix(b, s) then DropRun(s[..|s| - |b|], b) else s
  }

  /** `re.sub(r'(b)+$', '', s)`. Without the multi-line flag `$` matches at
      the end and also just before a newline that ends the text, so a run
      of breaks followed by that one newline is removed and the newline
      kept. As `b` holds no newline, only the last run can be followed by
      the end or by a final newline, so there is at most one match. */
  function DropTrailing(s: string, b: string): (r: string)
    requires b != [] && '\n' !in b
    ensures !IsSuffix(b, r)
    ensures |r| <= |s|
    ensures BeforeFinalNewline(s, b) ==> r == DropRun(s[..|s| - 1], b) + "\n"
    ensures !BeforeFinalNewline(s, b) ==> r == DropRun(s, b)
  {
    if BeforeFinalNewline(s, b) then
      var r := DropRun(s[..|s| - 1], b) + "\n";
      assert r[|r| - 1] == '\n' && b[|b| - 1] != '\n';
      r
    else DropRun(s, b)
  }

  /** `s` ends with `b` and then a single newline. */
  predicate BeforeFinalNewline(s: string, b: string) {
    IsSuffix("\n", s) && IsSuffix(b, s[..|s| - 1])
  }

  /** A break run before a final newline goes, the newline stays: the run at
      the very end of `x + b + "\n"` is dropped. */
  lemma DropTrailingKeepsNewline(x: string, b: string)
    requires b != [] && '\n' !in b
    requires !IsSuffix(b, x)
    ensures DropTrailing(x + b + "\n", b) == x + "\n"
  {
    var s := x + b + "\n";
    assert s[..|s| - 1] == x + b;
    assert (x + b)[|x + b| - |b|..] == b && (x + b)[..|x + b| - |b|] == x;
  }

  /** `re.sub(r'(b){2,}', b, s)`: scanning left to right, a place where `b`
      occurs twice in a row starts a run that is consumed as far as it goes
      and written back as one `b`. */
  function CollapseBreakRuns(s: string, b: string): (r: string)
    requires b != []
    ensures |r| <= |s|
    decreases |s|
  {
    if |s| == 0 then s
    else if IsPrefix(b + b, s) then
      assert IsPrefix(b, s);
      b + CollapseBreakRuns(DropLeading(s, b), b)
    else [s[0]] + CollapseBreakRuns(s[1..], b)
  }

  /** Text without two breaks in a row is left as it is. */
  lemma {:induction false} CollapseWithoutDoubles(s: string, b: string)
    requires b != [] && !Contains(s, b + b)
    ensures CollapseBreakRuns(s, b) == s
    decreases |s|
  {
    if |s| > 0 {
      CollapseWithoutDoubles(s[1..], b);
      assert s == [s[0]] + s[1..];
    }
  }

  /** The three substitutions and the two anchored deletions, in order. */
  function TidyBreaks(s: string): string {
    var collapsed := CollapseBreakRuns(s, WordBreak);
    var noEmpty := ReplaceAll(collapsed, EmptyRunBreak, "");
    DropTrailing(DropLeading(noEmpty, WordBreak), WordBreak)
  }

  /** No `<` in `w` is followed by `/` or ends `w`: the collapse cannot start
      a break inside it. */
  predicate NoBreakStart(w: string) {
    forall j :: 0 <= j < |w| && w[j] == '<' ==> j + 1 < |w| && w[j + 1] != '/'
  }

  lemma PrefixCons(p: string, c: char, y: string)
    requires p != []
    ensures IsPrefix(p, [c] + y) <==> c == p[0] && IsPrefix(p[1..], y)
  {
    var s := [c] + y;
    if |p| <= |s| {
      assert s[..|p|] == [c] + y[..|p| - 1];
    }
  }

  lemma PrefixTwice(b: string, y: string)
    ensures IsPrefix(b + b, b + y) <==> IsPrefix(b, y)
  {
    if |b + b| <= |b + y| {
      assert (b + y)[..|b + b|] == b + y[..|b|];
      if b + y[..|b|] == b + b {
        assert y[..|b|] == (b + y[..|b|])[|b|..];
      }
    }
  }

  lemma BreakTail(b: string)
    requires BreakShaped(b)
    ensures NoBreakStart(b[1..])
  {
    forall j | 0 <= j < |b[1..]| && b[1..][j] == '<' ensures j + 1 < |b[1..]| && b[1..][j + 1] != '/' {
      assert b[j + 1] == '<';
    }
  }

  /** Text the collapse writes out verbatim at the front really is at the
      front of its input. */
  lemma {:induction false} VerbatimPrefix(w: string, u: string, b: string)
    requires BreakShaped(b) && NoBreakStart(w)
    ensures IsPrefix(w, CollapseBreakRuns(u, b)) ==> IsPrefix(w, u)
    decreases |u|
  {
    var r := CollapseBreakRuns(u, b);
    if w != [] && u != [] {
      if IsPrefix(b + b, u) {
        assert r == b + CollapseBreakRuns(DropLeading(u, b), b);
        if w[0] == '<' {
          assert r[1] == '/' && w[1] != '/';
        }
      } else {
        assert r == [u[0]] + CollapseBreakRuns(u[1..], b);
        PrefixCons(w, u[0], CollapseBreakRuns(u[1..], b));
        PrefixCons(w, u[0], u[1..]);
        assert u == [u[0]] + u[1..];
        VerbatimPrefix(w[1..], u[1..], b);
      }
    }
  }

  lemma NoBreakStartTail(w: string)
    requires w != [] && NoBreakStart(w)
    ensures NoBreakStart(w[1..])
  {
    forall j | 0 <= j < |w[1..]| && w[1..][j] == '<' ensures j + 1 < |w[1..]| && w[1..][j + 1] != '/' {
      assert w[j + 1] == '<';
    }
  }

  /** A first character in which no break starts is copied. */
  lemma CollapsePlainStep(w: string, v: string, b: string)
    requires |b| >= 2 && b[0] == '<' && b[1] == '/' && NoBreakStart(w) && w != []
    ensures CollapseBreakRuns(w + v, b) == [w[0]] + CollapseBreakRuns(w[1..] + v, b)
  {
    var s := w + v;
    assert s[0] == w[0] && s[1..] == w[1..] + v;
    if w[0] == '<' {
      assert 1 < |w| && s[1] == w[1] && w[1] != '/';
      assert (b + b)[1] == '/';
    } else {
      assert (b + b)[0] == '<';
    }
    assert !IsPrefix(b + b, s);
  }

  lemma ConsAppend(w: string, y: string)
    requires w != []
    ensures [w[0]] + (w[1..] + y) == w + y
  {
    assert w == [w[0]] + w[1..];
  }

  /** Text in which the collapse cannot start a break passes through it. */
  lemma {:induction false} CollapseVerbatim(w: string, v: string, b: string)
    requires |b| >= 2 && b[0] == '<' && b[1] == '/' && NoBreakStart(w)
    ensures CollapseBreakRuns(w + v, b) == w + CollapseBreakRuns(v, b)
    decreases |w|
  {
    if w == [] {
      assert w + v == v;
    } else {
      CollapsePlainStep(w, v, b);
      NoBreakStartTail(w);
      CollapseVerbatim(w[1..], v, b);
      ConsAppend(w, CollapseBreakRuns(v, b));
    }
  }

  /** Output starting with a break comes from input starting with one. */
  lemma PrefixFromOutput(t: string, b: string)
    requires BreakShaped(b)
    ensures IsPrefix(b, CollapseBreakRuns(t, b)) ==> IsPrefix(b, t)
  {
    if t != [] && !IsPrefix(b + b, t) {
      var y := CollapseBreakRuns(t[1..], b);
      assert CollapseBreakRuns(t, b) == [t[0]] + y;
      BreakTail(b);
      VerbatimPrefix(b[1..], t[1..], b);
      PrefixCons(b, t[0], y);
      PrefixCons(b, t[0], t[1..]);
      assert t == [t[0]] + t[1..];
    }
  }

  lemma StartsDoubleAfterRun(u: string, b: string)
    requires BreakShaped(b) && IsPrefix(b + b, u)
    ensures !IsPrefix(b + b, CollapseBreakRuns(u, b))
  {
    var t := DropLeading(u, b);
    assert CollapseBreakRuns(u, b) == b + CollapseBreakRuns(t, b);
    PrefixFromOutput(t, b);
    PrefixTwice(b, CollapseBreakRuns(t, b));
  }

  lemma StartsDoubleAfterSingle(u: string, v: string, b: string)
    requires BreakShaped(b) && u == b + v && !IsPrefix(b, v)
    ensures !IsPrefix(b + b, CollapseBreakRuns(u, b))
  {
    CollapseAfterSingle(u, v, b);
    PrefixFromOutput(v, b);
    PrefixTwice(b, CollapseBreakRuns(v, b));
  }

  /** A lone break at the front is copied and the rest collapsed on its own. */
  lemma CollapseAfterSingle(u: string, v: string, b: string)
    requires BreakShaped(b) && u == b + v && !IsPrefix(b, v)
    ensures CollapseBreakRuns(u, b) == b + CollapseBreakRuns(v, b)
  {
    PrefixTwice(b, v);
    BreakTail(b);
    var w := b[1..];
    assert u[0] == b[0] && u[1..] == w + v;
    CollapseVerbatim(w, v, b);
    var rest := CollapseBreakRuns(v, b);
    assert !IsPrefix(b + b, u);
    calc {
      CollapseBreakRuns(u, b);
      [u[0]] + CollapseBreakRuns(u[1..], b);
      [b[0]] + (w + rest);
      { assert b == [b[0]] + w; }
      b + rest;
    }
  }

  lemma StartsDoubleOtherwise(u: string, b: string)
    requires BreakShaped(b) && u != [] && !IsPrefix(b, u)
    ensures !IsPrefix(b + b, CollapseBreakRuns(u, b))
  {
    var r := CollapseBreakRuns(u, b);
    PrefixFromOutput(u, b);
    if |r| >= |b + b| {
      assert r[..|b|] == r[..|b + b|][..|b|];
      assert (b + b)[..|b|] == b;
    }
  }

  /** The collapse never outputs two breaks at its front. */
  lemma NeverStartsDouble(u: string, b: string)
    requires BreakShaped(b)
    ensures !IsPrefix(b + b, CollapseBreakRuns(u, b))
  {
    if u != [] {
      if IsPrefix(b + b, u) {
        StartsDoubleAfterRun(u, b);
      } else if IsPrefix(b, u) {
        var v := u[|b|..];
        assert u == b + v;
        PrefixTwice(b, v);
        StartsDoubleAfterSingle(u, v, b);
      } else {
        StartsDoubleOtherwise(u, b);
      }
    }
  }

  /** After `(b){2,}` becomes one `b`, no two breaks are adjacent anywhere. */
  lemma {:induction false} CollapseLeavesNoAdjacentBreaks(s: string, b: string)
    requires BreakShaped(b)
    ensures NoAdjacentBreaks(CollapseBreakRuns(s, b), b)
    decreases |s|
  {
    var r := CollapseBreakRuns(s, b);
    NeverStartsDouble(s, b);
    assert r[0..] == r;
    if s != [] {
      if IsPrefix(b + b, s) {
        var t := DropLeading(s, b);
        var y := CollapseBreakRuns(t, b);
        assert r == b + y;
        CollapseLeavesNoAdjacentBreaks(t, b);
        forall i | 0 < i <= |r| ensures !IsPrefix(b + b, r[i..]) {
          if i < |b| {
            assert r[i] == b[i];
            if b[i] == '<' && |r[i..]| >= |b + b| {
              assert i + 1 < |b|;
              assert r[i..][1] == r[i + 1] == b[i + 1] != '/' == (b + b)[1];
            }
          } else {
            assert r[i..] == y[i - |b|..];
          }
        }
      } else {
        var y := CollapseBreakRuns(s[1..], b);
        assert r == [s[0]] + y;
        CollapseLeavesNoAdjacentBreaks(s[1..], b);
        forall i | 0 < i <= |r| ensures !IsPrefix(b + b, r[i..]) {
          assert r[i..] == y[i - 1..];
        }
      }
    }
  }

  /** The tidied part neither starts nor ends with a break sequence. When a
      break run stood just before a final newline once the leading breaks are
      gone, that run is removed and the newline kept; an earlier run before
      another newline is not touched (`EarlierRunSurvives`). */
  lemma TidyDropsEdgeBreaks(s: string)
    ensures !IsPrefix(WordBreak, TidyBreaks(s)) && !IsSuffix(WordBreak, TidyBreaks(s))
    ensures var y := DropLeading(ReplaceAll(CollapseBreakRuns(s, WordBreak), EmptyRunBreak, ""), WordBreak);
      BeforeFinalNewline(y, WordBreak) ==> IsSuffix("\n", TidyBreaks(s)) && !BeforeFinalNewline(TidyBreaks(s), WordBreak)
  {
    BreaksAreShaped();
    var noEmpty := ReplaceAll(CollapseBreakRuns(s, WordBreak), EmptyRunBreak, "");
    var y := DropLeading(noEmpty, WordBreak);
    var r := DropTrailing(y, WordBreak);
    EdgesAfterDrop(y, WordBreak);
  }

  /** Only the last run is anchored: in `x` + break + newline + break, the
      final break goes and the one before the newline, now final, stays. */
  lemma EarlierRunSurvives()
    ensures var s := "x" + WordBreak + "\n" + WordBreak;
      TidyBreaks(s) == "x" + WordBreak + "\n" && BeforeFinalNewline(TidyBreaks(s), WordBreak)
  {
    var b := WordBreak;
    var s := "x" + b + "\n" + b;
    ProbeHasNoDouble();
    CollapseWithoutDoubles(s, b);
    ProbeHasNoEmptyRun();
    assert ReplaceAll(s, EmptyRunBreak, "") == s;
    assert s[0] == 'x' != b[0];
    assert DropLeading(s, b) == s;
    DropTrailingLeavesEarlierRun("x", b);
    var t := "x" + b + "\n";
    assert t[..|t| - 1] == "x" + b;
  }

  /** `(b)+$` removes the final run of `x + b + "\n" + b` and nothing else. */
  lemma DropTrailingLeavesEarlierRun(x: string, b: string)
    requires b != [] && '\n' !in b
    ensures DropTrailing(x + b + "\n" + b, b) == x + b + "\n"
  {
    var s := x + b + "\n" + b;
    var t := x + b + "\n";
    assert s[|s| - 1] == b[|b| - 1] != '\n';
    assert s[..|s| - |b|] == t && s[|s| - |b|..] == b;
    assert t[|t| - 1] == '\n' != b[|b| - 1];
  }

  lemma ProbeHasNoDouble()
    ensures !Contains("x" + WordBreak + "\n" + WordBreak, WordBreak + WordBreak)
  {
    var b := WordBreak;
    var s := "x" + b + "\n" + b;
    forall i | 0 <= i <= |s| ensures !IsPrefix(b + b, s[i..]) {
      if i == 0 {
        assert s[i..][0] == 'x' != (b + b)[0];
      } else if i == 1 {
        assert s[i..][18] == '\n' != (b + b)[18];
      } else if i == 2 {
        assert s[i..][0] == '/' != (b + b)[0];
      }
    }
    NoOccurrence(s, b + b);
  }

  lemma ProbeHasNoEmptyRun()
    ensures !Contains("x" + WordBreak + "\n" + WordBreak, EmptyRunBreak)
  {
    var s := "x" + WordBreak + "\n" + WordBreak;
    var e := EmptyRunBreak;
    forall i | 0 <= i <= |s| ensures !IsPrefix(e, s[i..]) {
      if i == 1 {
        assert s[i..][1] == '/' != e[1];
      } else if i == 7 {
        assert s[i..][3] == 'b' != e[3];
      } else if i < 10 {
        assert s[i..][0] == s[i] != '<' == e[0];
      }
    }
    NoOccurrence(s, e);
  }

  /** Dropping the trailing run keeps the front of a text that does not start
      with `b` free of `b`, and a run before a final newline leaves none. */
  lemma EdgesAfterDrop(y: string, b: string)
    requires BreakShaped(b) && !IsPrefix(b, y)
    ensures !IsPrefix(b, DropTrailing(y, b))
    ensures BeforeFinalNewline(y, b) ==> IsSuffix("\n", DropTrailing(y, b)) && !BeforeFinalNewline(DropTrailing(y, b), b)
  {
    var r := DropTrailing(y, b);
    if BeforeFinalNewline(y, b) {
      var d := DropRun(y[..|y| - 1], b);
      assert r == d + "\n" && r[..|r| - 1] == d;
      if |b| <= |r| {
        if |b| <= |d| {
          assert r[..|b|] == d[..|b|] == y[..|b|];
        } else {
          assert r[|r| - 1] == '\n' && |b| == |r|;
          assert r[..|b|][|b| - 1] == '\n';
        }
      }
    } else {
      if |b| <= |r| {
        assert r[..|b|] == y[..|b|];
      }
    }
  }

  /** The collapse only writes characters of its input and of `b`. */
  lemma {:induction false} CollapseChars(s: string, b: string, x: char)
    requires b != [] && x in CollapseBreakRuns(s, b)
    ensures x in s || x in b
    decreases |s|
  {
    if |s| > 0 {
      if IsPrefix(b + b, s) {
        assert IsPrefix(b, s);
        var t := DropLeading(s, b);
        assert CollapseBreakRuns(s, b) == b + CollapseBreakRuns(t, b);
        if x !in b {
          CollapseChars(t, b, x);
          assert x in s[|s| - |t|..];
        }
      } else {
        assert CollapseBreakRuns(s, b) == [s[0]] + CollapseBreakRuns(s[1..], b);
        if x != s[0] {
          CollapseChars(s[1..], b, x);
        }
      }
    }
  }

  /** The tidying only writes characters of its input and of the break
      sequence. */
  lemma TidyChars(s: string, x: char)
    requires x in TidyBreaks(s)
    ensures x in s || x in WordBreak
  {
    BreaksAreShaped();
    TidyStagesChars(s, WordBreak, EmptyRunBreak, x);
  }

  /** Tidying brings in no `{`: a part without one keeps none to clean. */
  lemma TidyAddsNoBrace(s: string)
    requires '{' !in s
    ensures '{' !in TidyBreaks(s)
  {
    assert '{' !in WordBreak;
    if '{' in TidyBreaks(s) {
      TidyChars(s, '{');
    }
  }

  /** The same for any break `b` and any empty-run pattern `e`. */
  lemma TidyStagesChars(s: string, b: string, e: string, x: char)
    requires b != [] && '\n' !in b && e != []
    requires x in DropTrailing(DropLeading(ReplaceAll(CollapseBreakRuns(s, b), e, ""), b), b)
    ensures x in s || x in b
  {
    var collapsed := CollapseBreakRuns(s, b);
    var noEmpty := ReplaceAll(collapsed, e, "");
    var y := DropLeading(noEmpty, b);
    DropTrailingChars(y, b, x);
    DropLeadingChars(noEmpty, b, x);
    ReplaceChars(collapsed, e, "", x);
    CollapseChars(s, b, x);
  }

  lemma DropLeadingChars(s: string, b: string, x: char)
    requires b != [] && x in DropLeading(s, b)
    ensures x in s
  {
    var r := DropLeading(s, b);
    var k := |s| - |r|;
    assert r == s[k..];
    var i :| 0 <= i < |r| && r[i] == x;
    assert s[k..][i] == s[k + i];
  }

  lemma DropTrailingChars(s: string, b: string, x: char)
    requires b != [] && '\n' !in b && x in DropTrailing(s, b)
    ensures x in s
  {
    if BeforeFinalNewline(s, b) {
      var d := DropRun(s[..|s| - 1], b);
      if x in d {
        DropRunChars(s[..|s| - 1], b, x);
        assert x in s[..|s| - 1];
      } else {
        assert x == '\n' && s[|s| - 1] == '\n';
      }
    } else {
      DropRunChars(s, b, x);
    }
  }

  lemma DropRunChars(s: string, b: string, x: char)
    requires b != [] && x in DropRun(s, b)
    ensures x in s
  {
    var r := DropRun(s, b);
    var i :| 0 <= i < |r| && r[i] == x;
    assert s[i] == x;
  }
}
