/** What a chain of `str.replace` calls can and cannot bring into a text:
    with a non-empty replacement that shares no character with a pattern,
    a replace-all neither leaves that pattern behind nor creates it. */
module Occurrences {
  import opened Text

  /** No character of `a` occurs in `b`. */
  predicate Apart(a: string, b: string) {
    forall c :: c in a ==> c !in b
  }

  /** An occurrence of `p` in `a + b` cannot start inside `a` when `a` holds
      no character of `p`. */
  lemma {:induction false} ContainsPastApart(a: string, b: string, p: string)
    requires p != [] && Apart(a, p) && Contains(a + b, p)
    ensures Contains(b, p)
    decreases |a|
  {
    if a != [] {
      assert a[0] in a && p[0] in p;
      assert !IsPrefix(p, a + b) by {
        assert (a + b)[0] == a[0];
      }
      assert (a + b)[1..] == a[1..] + b;
      assert Contains(a[1..] + b, p);
      forall k | 0 <= k < |a[1..]| ensures a[1..][k] in a {
        assert a[1..][k] == a[k + 1];
      }
      ContainsPastApart(a[1..], b, p);
    } else {
      assert a + b == b;
    }
  }

  /** A prefix of the replaced text with no character of the replacement was
      already a prefix of the original. */
  lemma {:induction false} PrefixSurvives(t: string, q: string, rep: string, w: string)
    requires q != [] && rep != [] && Apart(rep, w) && IsPrefix(w, ReplaceAll(t, q, rep))
    ensures IsPrefix(w, t)
    decreases |t|
  {
    if w != [] && t != [] {
      assert w[0] in w && ReplaceAll(t, q, rep)[0] == w[0];
      assert ReplaceAll(t, q, rep)[0] !in rep;
      assert !IsPrefix(q, t);
      {
        var r := ReplaceAll(t[1..], q, rep);
        assert ReplaceAll(t, q, rep) == [t[0]] + r;
        assert w[1..] == r[..|w| - 1];
        ApartTail(rep, w);
        PrefixSurvives(t[1..], q, rep, w[1..]);
        assert w == [t[0]] + w[1..];
      }
    }
  }

  /** Replacing `q` by a non-empty text apart from `p` leaves no `p` when `q`
      is `p` itself, and brings in no `p` when there was none. */
  lemma {:induction false} ReplaceLeavesNo(s: string, q: string, rep: string, p: string)
    requires q != [] && p != [] && rep != [] && Apart(rep, p)
    requires q == p || !Contains(s, p)
    ensures !Contains(ReplaceAll(s, q, rep), p)
    decreases |s|
  {
    if s != [] {
      if IsPrefix(q, s) {
        var t := s[|q|..];
        if q != p {
          SuffixMisses(s, |q|, p);
        }
        ReplaceLeavesNo(t, q, rep, p);
        ApartMisses(rep, ReplaceAll(t, q, rep), p);
      } else {
        var t := s[1..];
        var r := ReplaceAll(t, q, rep);
        assert ReplaceAll(s, q, rep) == [s[0]] + r;
        ReplaceLeavesNo(t, q, rep, p);
        PrefixThrough(s, q, rep, p);
        assert ([s[0]] + r)[1..] == r;
      }
    }
  }

  /** A suffix of a text without `p` has none either. */
  lemma SuffixMisses(s: string, k: nat, p: string)
    requires k <= |s| && !Contains(s, p)
    ensures !Contains(s[k..], p)
  {
    if Contains(s[k..], p) {
      var i := ContainsWitness(s[k..], p);
      assert s[k + i..k + i + |p|] == s[k..][i..i + |p|];
      ContainsAt(s, p, k + i);
    }
  }

  /** A `p` in `a + b` lies in `b` when `a` holds no character of `p`. */
  lemma ApartMisses(a: string, b: string, p: string)
    requires p != [] && Apart(a, p) && !Contains(b, p)
    ensures !Contains(a + b, p)
  {
    if Contains(a + b, p) {
      ContainsPastApart(a, b, p);
    }
  }

  /** When the first character is kept, a `p` at the front of the result
      was at the front of the text. */
  lemma PrefixThrough(s: string, q: string, rep: string, p: string)
    requires s != [] && q != [] && p != [] && rep != [] && Apart(rep, p)
    ensures IsPrefix(p, [s[0]] + ReplaceAll(s[1..], q, rep)) ==> IsPrefix(p, s)
  {
    var r := ReplaceAll(s[1..], q, rep);
    if IsPrefix(p, [s[0]] + r) {
      assert p[1..] == r[..|p| - 1];
      ApartTail(rep, p);
      PrefixSurvives(s[1..], q, rep, p[1..]);
      assert p == [s[0]] + p[1..];
      assert s == [s[0]] + s[1..];
    }
  }

  lemma ApartTail(a: string, p: string)
    requires p != [] && Apart(a, p)
    ensures Apart(a, p[1..])
  {
    forall k | 0 <= k < |p[1..]| ensures p[1..][k] in p {
      assert p[1..][k] == p[k + 1];
    }
  }
}
