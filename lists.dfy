/** Generic sequence helpers: a filter-then-map over a list, and removal of
    repeated elements keeping first occurrences, the two shapes of the
    list-building loops in the report code. */
module Lists {
  /** `[f(x) for x in xs if keep(x)]` */
  function FilterMap<T, U>(xs: seq<T>, keep: T -> bool, f: T -> U): seq<U>
    decreases |xs|
  {
    if xs == [] then []
    else
      var rest := FilterMap(xs[..|xs| - 1], keep, f);
      var x := xs[|xs| - 1];
      if keep(x) then rest + [f(x)] else rest
  }

  /** One more element adds its image when it is kept. */
  lemma FilterMapStep<T, U>(xs: seq<T>, i: nat, keep: T -> bool, f: T -> U)
    requires i < |xs|
    ensures FilterMap(xs[..i + 1], keep, f)
      == FilterMap(xs[..i], keep, f) + (if keep(xs[i]) then [f(xs[i])] else [])
  {
    var pre := xs[..i + 1];
    assert pre[..|pre| - 1] == xs[..i] && pre[|pre| - 1] == xs[i];
  }

  /** Nothing comes out exactly when nothing is kept. */
  lemma {:induction false} FilterMapEmpty<T, U>(xs: seq<T>, keep: T -> bool, f: T -> U)
    ensures FilterMap(xs, keep, f) == [] <==> forall i :: 0 <= i < |xs| ==> !keep(xs[i])
    decreases |xs|
  {
    if xs != [] {
      var init := xs[..|xs| - 1];
      FilterMapEmpty(init, keep, f);
      assert forall i :: 0 <= i < |init| ==> init[i] == xs[i];
    }
  }

  /** What comes out is the image of a kept element. */
  lemma {:induction false} FilterMapImage<T, U>(xs: seq<T>, keep: T -> bool, f: T -> U, y: U) returns (i: nat)
    requires y in FilterMap(xs, keep, f)
    ensures i < |xs| && keep(xs[i]) && f(xs[i]) == y
    decreases |xs|
  {
    var init := xs[..|xs| - 1];
    if y in FilterMap(init, keep, f) {
      i := FilterMapImage(init, keep, f, y);
      assert init[i] == xs[i];
    } else {
      i := |xs| - 1;
    }
  }

  /** Every kept element from index `k` on has its image among those of
      the elements from `k` on. */
  lemma FilterMapFromHas<T, U>(xs: seq<T>, k: nat, keep: T -> bool, f: T -> U, j: nat)
    requires k <= j < |xs| && keep(xs[j])
    ensures f(xs[j]) in FilterMap(xs[k..], keep, f)
  {
    var tail := xs[k..];
    assert tail[j - k] == xs[j];
    FilterMapHas(tail, keep, f, j - k);
  }

  /** What comes out of the elements from index `k` on is the image of one
      of them. */
  lemma FilterMapFromImage<T, U>(xs: seq<T>, k: nat, keep: T -> bool, f: T -> U, y: U) returns (j: nat)
    requires k <= |xs| && y in FilterMap(xs[k..], keep, f)
    ensures k <= j < |xs| && keep(xs[j]) && f(xs[j]) == y
  {
    var tail := xs[k..];
    var i := FilterMapImage(tail, keep, f, y);
    assert tail[i] == xs[k + i];
    j := k + i;
  }

  /** Every kept element's image comes out. */
  lemma {:induction false} FilterMapHas<T, U>(xs: seq<T>, keep: T -> bool, f: T -> U, i: nat)
    requires i < |xs| && keep(xs[i])
    ensures f(xs[i]) in FilterMap(xs, keep, f)
    decreases |xs|
  {
    if i < |xs| - 1 {
      var init := xs[..|xs| - 1];
      assert init[i] == xs[i];
      FilterMapHas(init, keep, f, i);
    }
  }

  /** Filtering and mapping twice is filtering and mapping once, when the
      second pass keeps all the first one produced. */
  lemma {:induction false} FilterMapTwice<T, U, V>(xs: seq<T>, keep: T -> bool, f: T -> U,
                                                   keep2: U -> bool, g: U -> V, h: T -> V)
    requires forall x :: keep(x) ==> keep2(f(x))
    requires forall x :: h(x) == g(f(x))
    ensures FilterMap(FilterMap(xs, keep, f), keep2, g) == FilterMap(xs, keep, h)
    decreases |xs|
  {
    if xs != [] {
      var init := xs[..|xs| - 1];
      var x := xs[|xs| - 1];
      FilterMapTwice(init, keep, f, keep2, g, h);
      var mid := FilterMap(init, keep, f);
      if keep(x) {
        var ys := mid + [f(x)];
        assert ys[..|ys| - 1] == mid;
      }
    }
  }

  /** `xs` without repetitions, each element kept where it first occurs: the
      `if x not in out: out.append(x)` loop. */
  function Dedup<T(==, !new)>(xs: seq<T>): (r: seq<T>)
    ensures forall x :: x in r <==> x in xs
    ensures forall i, j :: 0 <= i < j < |r| ==> r[i] != r[j]
    decreases |xs|
  {
    if xs == [] then []
    else
      var d := Dedup(xs[..|xs| - 1]);
      var x := xs[|xs| - 1];
      assert xs == xs[..|xs| - 1] + [x];
      if x in d then d else d + [x]
  }

  /** Appending an element appends it to the deduplicated list when new. */
  lemma DedupAppend<T(!new)>(xs: seq<T>, x: T)
    ensures Dedup(xs + [x]) == if x in Dedup(xs) then Dedup(xs) else Dedup(xs) + [x]
  {
    var ys := xs + [x];
    assert ys[..|ys| - 1] == xs;
  }

  /** One more element adds its image to the distinct images when it is kept
      and its image is new, and changes nothing otherwise. */
  lemma FilterMapDedupStep<T, U(!new)>(xs: seq<T>, i: nat, keep: T -> bool, f: T -> U)
    requires i < |xs|
    ensures var d := Dedup(FilterMap(xs[..i], keep, f));
      Dedup(FilterMap(xs[..i + 1], keep, f))
        == if keep(xs[i]) && f(xs[i]) !in d then d + [f(xs[i])] else d
  {
    var pre := FilterMap(xs[..i], keep, f);
    FilterMapStep(xs, i, keep, f);
    if keep(xs[i]) {
      DedupAppend(pre, f(xs[i]));
    } else {
      assert pre + [] == pre;
    }
  }

  /** The first occurrences come in the order of the input: an element that
      first occurs before another stays before it. */
  lemma {:induction false} DedupKeepsOrder<T(!new)>(xs: seq<T>, i: nat, j: nat)
    requires i < j < |Dedup(xs)|
    ensures FirstIndex(xs, Dedup(xs)[i]) < FirstIndex(xs, Dedup(xs)[j])
    decreases |xs|
  {
    var init := xs[..|xs| - 1];
    var d := Dedup(init);
    var x := xs[|xs| - 1];
    FirstIndexPrefix(xs, Dedup(xs)[i]);
    FirstIndexPrefix(xs, Dedup(xs)[j]);
    if j < |d| {
      DedupKeepsOrder(init, i, j);
    } else {
      assert Dedup(xs)[j] == x && x !in init;
      assert Dedup(xs)[i] == d[i] && d[i] in init;
    }
  }

  /** The index where `x` first occurs in `xs`. */
  function FirstIndex<T(==, !new)>(xs: seq<T>, x: T): (k: nat)
    requires x in xs
    ensures k < |xs| && xs[k] == x && x !in xs[..k]
  {
    if xs[0] == x then 0
    else
      assert x in xs[1..];
      var k := FirstIndex(xs[1..], x);
      assert xs[..k + 1] == [xs[0]] + xs[1..][..k];
      k + 1
  }

  /** Dropping the last element keeps first occurrences that came before it. */
  lemma FirstIndexPrefix<T(!new)>(xs: seq<T>, x: T)
    requires x in xs
    ensures var init := xs[..|xs| - 1];
      (x in init ==> FirstIndex(xs, x) == FirstIndex(init, x))
      && (x !in init ==> FirstIndex(xs, x) == |xs| - 1)
  {
    var init := xs[..|xs| - 1];
    var k := FirstIndex(xs, x);
    if x in init {
      var m := FirstIndex(init, x);
      assert xs[m] == x;
      assert xs[..m] == init[..m];
      assert init[..k] == xs[..k];
      FirstIndexUnique(xs, x, k, m);
    } else {
      FirstIndexUnique(xs, x, k, |xs| - 1);
    }
  }

  /** An index with `x` and none before it is the first index. */
  lemma FirstIndexUnique<T(!new)>(xs: seq<T>, x: T, k: nat, m: nat)
    requires k < |xs| && m < |xs| && xs[k] == x && xs[m] == x
    requires x !in xs[..k] && x !in xs[..m]
    ensures k == m
  {
  }

  /** The first index at or after `from` whose element satisfies `p`, or
      `|xs|` when there is none: the shape of a `for` loop that stops at
      the first match. */
  function FirstFrom<T>(xs: seq<T>, p: T -> bool, from: nat): (k: nat)
    requires from <= |xs|
    ensures from <= k <= |xs|
    ensures k < |xs| ==> p(xs[k])
    ensures forall j :: from <= j < k ==> !p(xs[j])
    decreases |xs| - from
  {
    if from == |xs| || p(xs[from]) then from else FirstFrom(xs, p, from + 1)
  }

  /** Any index with a match and none before it is the one found. */
  lemma FirstFromAt<T>(xs: seq<T>, p: T -> bool, from: nat, k: nat)
    requires from <= k < |xs| && p(xs[k])
    requires forall j :: from <= j < k ==> !p(xs[j])
    ensures FirstFrom(xs, p, from) == k
  {
  }

  /** A non-match is passed over. */
  lemma FirstFromSkip<T>(xs: seq<T>, p: T -> bool, from: nat)
    requires from < |xs| && !p(xs[from])
    ensures FirstFrom(xs, p, from) == FirstFrom(xs, p, from + 1)
  {
  }

  /** A match stops the search. */
  lemma FirstFromHit<T>(xs: seq<T>, p: T -> bool, from: nat)
    requires from < |xs| && p(xs[from])
    ensures FirstFrom(xs, p, from) == from
  {
  }

  /** Searching the first `n` elements finds the first match among them,
      or nothing when none of them matches. */
  lemma FirstInPrefix<T>(xs: seq<T>, n: nat, p: T -> bool)
    requires n <= |xs|
    ensures forall k | 0 <= k < n && p(xs[k]) && (forall j :: 0 <= j < k ==> !p(xs[j])) :: FirstFrom(xs[..n], p, 0) == k
    ensures (forall k :: 0 <= k < n ==> !p(xs[k])) ==> FirstFrom(xs[..n], p, 0) == n
  {
    var head := xs[..n];
    assert forall k :: 0 <= k < n ==> head[k] == xs[k];
  }

  /** What a first-match search over the first `n` elements picks: the image
      of the first match, or `d` when none of them matches. */
  lemma FirstInPrefixValue<T, U>(xs: seq<T>, n: nat, p: T -> bool, f: T -> U, d: U)
    requires n <= |xs|
    ensures var k := FirstFrom(xs[..n], p, 0);
      forall i | 0 <= i < n && p(xs[i]) && (forall j :: 0 <= j < i ==> !p(xs[j])) :: k < n && f(xs[..n][k]) == f(xs[i])
    ensures (forall i :: 0 <= i < n ==> !p(xs[i])) ==> FirstFrom(xs[..n], p, 0) == n
  {
    FirstInPrefix(xs, n, p);
  }

  /** Without a match from `from` on, nothing is found. */
  lemma FirstFromNone<T>(xs: seq<T>, p: T -> bool, from: nat)
    requires from <= |xs|
    requires forall j :: from <= j < |xs| ==> !p(xs[j])
    ensures FirstFrom(xs, p, from) == |xs|
  {
  }
}
