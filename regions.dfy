/** Locating `{{ ... }}` regions in a markup part. Both fillers scan the
    same way (word/word_filler.py:107-133, fill/ppt_filler.py:60-79): every
    position where `{{` starts is collected left to right, and from two
    characters past a start a depth counter walks one character at a time,
    going up at `{{` and down at `}}`, until a `}}` is met at depth zero. */
module Regions {

  /** `s[i:i+2] == '{{'` */
  predicate IsOpenAt(s: string, i: int) {
    0 <= i && i + 1 < |s| && s[i] == '{' && s[i + 1] == '{'
  }

  /** `s[i:i+2] == '}}'` */
  predicate IsCloseAt(s: string, i: int) {
    0 <= i && i + 1 < |s| && s[i] == '}' && s[i + 1] == '}'
  }

  /** The positions from `from` on where `{{` starts, in ascending order. */
  function OpensFrom(s: string, from: nat): (r: seq<nat>)
    ensures forall k :: 0 <= k < |r| ==> from <= r[k] && IsOpenAt(s, r[k])
    ensures forall i :: from <= i && IsOpenAt(s, i) ==> i in r
    ensures forall k, l :: 0 <= k < l < |r| ==> r[k] < r[l]
    decreases |s| - from
  {
    if from + 1 >= |s| then []
    else if IsOpenAt(s, from) then [from] + OpensFrom(s, from + 1)
    else OpensFrom(s, from + 1)
  }

  /** Every position where `{{` starts. */
  function Opens(s: string): seq<nat> {
    OpensFrom(s, 0)
  }

  /** Positions without a `{{` contribute nothing to the collected list. */
  lemma {:induction false} SkipNonOpens(s: string, lo: nat, hi: nat)
    requires lo <= hi
    requires forall q :: lo <= q < hi ==> !IsOpenAt(s, q)
    ensures OpensFrom(s, lo) == OpensFrom(s, hi)
    decreases hi - lo
  {
    if lo < hi {
      SkipNonOpens(s, lo + 1, hi);
    }
  }

  /** A part whose only `{{` starts at `n` yields the single start `n`. */
  lemma OnlyOpen(s: string, n: nat)
    requires IsOpenAt(s, n)
    requires forall q :: q != n ==> !IsOpenAt(s, q)
    ensures Opens(s) == [n]
  {
    SkipNonOpens(s, 0, n);
    SkipNonOpens(s, n + 1, |s|);
    assert OpensFrom(s, |s|) == [];
  }

  /** What one character position does to the nesting depth. */
  function Step(s: string, i: nat): int {
    if IsCloseAt(s, i) then -1 else if IsOpenAt(s, i) then 1 else 0
  }

  /** The depth change accumulated over positions `lo` to `hi - 1`. */
  function Net(s: string, lo: nat, hi: nat): int
    decreases hi - lo
  {
    if lo >= hi then 0 else Step(s, lo) + Net(s, lo + 1, hi)
  }

  /** The scan from `pos` at depth `depth`: one past the closing `}}`, or -1
      when the part ends first. */
  function MatchEnd(s: string, pos: nat, depth: nat): (e: int)
    ensures e == -1 || (pos + 2 <= e <= |s| && IsCloseAt(s, e - 2))
    decreases |s| - pos
  {
    if pos + 1 >= |s| then -1
    else if IsCloseAt(s, pos) then
      (if depth == 0 then pos + 2 else MatchEnd(s, pos + 1, depth - 1))
    else if IsOpenAt(s, pos) then MatchEnd(s, pos + 1, depth + 1)
    else MatchEnd(s, pos + 1, depth)
  }

  /** `end_pos` for the region opened at `start`. */
  function RegionEnd(s: string, start: nat): (e: int)
    ensures e == -1 || (start + 4 <= e <= |s| && IsCloseAt(s, e - 2))
  {
    MatchEnd(s, start + 2, 0)
  }

  /** The scan stops at the first `}}` where the depth, counted from the
      scan's start, comes back to zero; when it finds none, every `}}` it
      passes still has depth above zero. */
  lemma {:induction false} MatchEndIsFirstBalancedClose(s: string, pos: nat, depth: nat)
    ensures var e := MatchEnd(s, pos, depth);
      e != -1 ==> depth + Net(s, pos, e - 2) == 0
    ensures var e := MatchEnd(s, pos, depth);
      forall q :: pos <= q && (e == -1 || q < e - 2) && IsCloseAt(s, q) ==> depth + Net(s, pos, q) > 0
    decreases |s| - pos
  {
    var e := MatchEnd(s, pos, depth);
    if pos + 1 < |s| {
      if IsCloseAt(s, pos) && depth == 0 {
        assert e == pos + 2;
      } else {
        var d': nat := if IsCloseAt(s, pos) then depth - 1 else if IsOpenAt(s, pos) then depth + 1 else depth;
        assert depth + Step(s, pos) == d';
        MatchEndIsFirstBalancedClose(s, pos + 1, d');
        assert e == MatchEnd(s, pos + 1, d');
        if e != -1 {
          assert Net(s, pos, e - 2) == Step(s, pos) + Net(s, pos + 1, e - 2);
        }
        forall q | pos <= q && (e == -1 || q < e - 2) && IsCloseAt(s, q)
          ensures depth + Net(s, pos, q) > 0
        {
          if q > pos {
            assert Net(s, pos, q) == Step(s, pos) + Net(s, pos + 1, q);
          }
        }
      }
    }
  }

  /** A region without any `}}` after its opening never closes. */
  lemma {:induction false} NoCloseNoRegion(s: string, pos: nat, depth: nat)
    requires forall q :: pos <= q ==> !IsCloseAt(s, q)
    ensures MatchEnd(s, pos, depth) == -1
    decreases |s| - pos
  {
    if pos + 1 < |s| {
      NoCloseNoRegion(s, pos + 1, if IsOpenAt(s, pos) then depth + 1 else depth);
    }
  }

  /** The first `}}` after an opening with no `{{` or `}}` in between closes it. */
  lemma {:induction false} PlainRegion(s: string, pos: nat, close: nat)
    requires pos <= close && IsCloseAt(s, close)
    requires forall q :: pos <= q < close ==> !IsOpenAt(s, q) && !IsCloseAt(s, q)
    ensures MatchEnd(s, pos, 0) == close + 2
    decreases close - pos
  {
    if pos < close {
      PlainRegion(s, pos + 1, close);
    }
  }

  /** The collecting loop: every `i` from 0 while `i < len - 1`. */
  method CollectOpens(s: string) returns (starts: seq<nat>)
    ensures starts == Opens(s)
  {
    starts := [];
    var i: nat := 0;
    while i + 1 < |s|
      invariant starts + OpensFrom(s, i) == Opens(s)
      decreases |s| - i
    {
      if s[i] == '{' && s[i + 1] == '{' {
        assert OpensFrom(s, i) == [i] + OpensFrom(s, i + 1);
        starts := starts + [i];
        assert starts + OpensFrom(s, i + 1) == Opens(s);
      }
      i := i + 1;
    }
  }

  /** The depth-counting scan for the region opened at `start`. */
  method FindRegionEnd(s: string, start: nat) returns (end: int)
    ensures end == RegionEnd(s, start)
  {
    var depth: nat := 0;
    var pos := start + 2;
    end := -1;
    while pos + 1 < |s|
      invariant MatchEnd(s, pos, depth) == RegionEnd(s, start)
      decreases |s| - pos
    {
      if s[pos] == '}' && s[pos + 1] == '}' {
        if depth == 0 {
          end := pos + 2;
          return;
        }
        depth := depth - 1;
      } else if s[pos] == '{' && s[pos + 1] == '{' {
        depth := depth + 1;
      }
      pos := pos + 1;
    }
  }
}
