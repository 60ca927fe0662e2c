/** The fill sequences of the three fillers: every replacement tried in turn
    on a part (word/word_filler.py:333-338, fill/word_filler.py:299-304,
    fill/ppt_filler.py:192-197), then, for the Word document, the break
    tidying and the cleanup with the keys of the map as used placeholders
    (word/word_filler.py:346-356, fill/word_filler.py:309-316), and, for a
    slide part, the cleanup only when some replacement in it succeeded
    (fill/ppt_filler.py:199-202). */
module Fill {
  import opened Wrappers
  import opened Text
  import opened Regions
  import opened Placeholders
  import opened Cleanup
  import opened BreakRuns
  import opened ReportModel
  import opened Replacements

  /** The number of news items per section both fillers ask for. */
  const MaxNewsPerSection: nat := 8

  // ---------------------------------------------------------------------------
  // The replacement loop

  /** The pairs (key, converted value) the loop works with: each value goes
      through the flavour's converter before it is put in. */
  function Prepare(entries: seq<Entry>, flavor: Flavor): (r: seq<Entry>)
    ensures |r| == |entries|
    decreases |entries|
  {
    if entries == [] then []
    else
      var last := entries[|entries| - 1];
      Prepare(entries[..|entries| - 1], flavor) + [(last.0, ConvertValue(flavor, last.1))]
  }

  /** Each pair keeps its key and carries its converted value. */
  lemma {:induction false} PrepareAt(entries: seq<Entry>, flavor: Flavor, i: nat)
    requires i < |entries|
    ensures Prepare(entries, flavor)[i] == (entries[i].0, ConvertValue(flavor, entries[i].1))
    decreases |entries|
  {
    if i < |entries| - 1 {
      PrepareAt(entries[..|entries| - 1], flavor, i);
    }
  }

  /** Steps applied in turn from `x`, with the number of them that reported
      success: the shape of the replacement loop, whatever the step. */
  function Fold(x: string, pairs: seq<Entry>, step: (string, Entry) -> (string, bool)): (r: (string, nat))
    ensures r.1 <= |pairs|
    decreases |pairs|
  {
    if pairs == [] then (x, 0)
    else
      var before := Fold(x, pairs[..|pairs| - 1], step);
      var s := step(before.0, pairs[|pairs| - 1]);
      (s.0, if s.1 then before.1 + 1 else before.1)
  }

  lemma FoldStep(x: string, pairs: seq<Entry>, i: nat, step: (string, Entry) -> (string, bool))
    requires i < |pairs|
    ensures var before := Fold(x, pairs[..i], step);
      var s := step(before.0, pairs[i]);
      && Fold(x, pairs[..i + 1], step).0 == s.0
      && Fold(x, pairs[..i + 1], step).1 == if s.1 then before.1 + 1 else before.1
  {
    assert pairs[..i + 1][..i] == pairs[..i];
  }

  /** When a step that fails leaves its input alone, a fold with no success
      leaves its start alone. */
  lemma {:induction false} FoldNoSuccess(x: string, pairs: seq<Entry>, step: (string, Entry) -> (string, bool))
    requires forall y, e :: !step(y, e).1 ==> step(y, e).0 == y
    ensures Fold(x, pairs, step).1 == 0 ==> Fold(x, pairs, step).0 == x
    decreases |pairs|
  {
    if pairs != [] {
      FoldNoSuccess(x, pairs[..|pairs| - 1], step);
    }
  }

  /** One replacement, as the loop calls it. */
  function Replace(x: string, e: Entry): (string, bool) {
    Substitute(x, e.0, e.1)
  }

  /** The part after the replacements `pairs` were tried in order, with the
      number of them that succeeded. */
  function SubstituteAll(xml: string, pairs: seq<Entry>): (r: (string, nat))
    ensures r.1 <= |pairs|
    ensures r.1 == 0 ==> r.0 == xml
  {
    FoldNoSuccess(xml, pairs, Replace);
    Fold(xml, pairs, Replace)
  }

  /** The loop `for placeholder, replacement in replacements.items()`,
      counting the successes. */
  method SubstituteEach(xml: string, entries: seq<Entry>, flavor: Flavor) returns (r: string, count: nat)
    ensures r == SubstituteAll(xml, Prepare(entries, flavor)).0
    ensures count == SubstituteAll(xml, Prepare(entries, flavor)).1
  {
    ghost var pairs := Prepare(entries, flavor);
    r, count := xml, 0;
    assert pairs[..0] == [];
    for i := 0 to |entries|
      invariant r == Fold(xml, pairs[..i], Replace).0
      invariant count == Fold(xml, pairs[..i], Replace).1
    {
      r, count := SubstituteNext(xml, entries, flavor, pairs, i, r, count);
    }
    assert pairs[..|entries|] == pairs;
  }

  /** One pass of the loop, with the count of successes kept up to date. */
  method SubstituteNext(ghost xml: string, entries: seq<Entry>, flavor: Flavor, ghost pairs: seq<Entry>, i: nat, x: string, n: nat)
    returns (r: string, count: nat)
    requires pairs == Prepare(entries, flavor) && i < |entries|
    requires x == Fold(xml, pairs[..i], Replace).0 && n == Fold(xml, pairs[..i], Replace).1
    ensures r == Fold(xml, pairs[..i + 1], Replace).0 && count == Fold(xml, pairs[..i + 1], Replace).1
  {
    FoldStep(xml, pairs, i, Replace);
    PrepareAt(entries, flavor, i);
    var ok;
    r, ok := ReplaceEntry(x, entries[i], flavor, pairs[i]);
    count := if ok then n + 1 else n;
  }

  /** One pass of the loop: `replace_placeholder_in_xml` with the entry's key
      and value. */
  method ReplaceEntry(x: string, entry: Entry, flavor: Flavor, ghost prepared: Entry) returns (r: string, ok: bool)
    requires prepared == (entry.0, ConvertValue(flavor, entry.1))
    ensures r == Replace(x, prepared).0 && ok == Replace(x, prepared).1
  {
    r, ok := ReplacePlaceholderInXml(x, entry.0, entry.1, flavor);
  }

  /** Text without `{` holds neither a literal placeholder nor a region:
      the replacement fails and leaves it as it was. */
  lemma NoBraceNoSubstitute(xml: string, key: string, rep: string)
    requires '{' !in xml
    ensures Substitute(xml, key, rep) == (xml, false)
  {
    var lit := Literal(key);
    forall i | 0 <= i <= |xml| ensures !IsPrefix(lit, xml[i..]) {
      if i < |xml| && |lit| <= |xml[i..]| {
        assert xml[i..][0] == xml[i];
      }
    }
    NoOccurrence(xml, lit);
    assert forall p: nat :: !IsOpenAt(xml, p);
  }

  /** A part without `{` goes through the whole loop unchanged, with no
      success counted. */
  lemma {:induction false} NoBraceUntouched(xml: string, pairs: seq<Entry>)
    requires '{' !in xml
    ensures SubstituteAll(xml, pairs) == (xml, 0)
    decreases |pairs|
  {
    if pairs != [] {
      var last := pairs[|pairs| - 1];
      NoBraceUntouched(xml, pairs[..|pairs| - 1]);
      NoBraceNoSubstitute(xml, last.0, last.1);
    }
  }

  // ---------------------------------------------------------------------------
  // The Word document

  /** `document.xml` after the replacements, the break tidying and the
      cleanup of the placeholders no key of the map occurs in. */
  function FillDocument(xml: string, entries: seq<Entry>): (r: (string, nat))
    ensures r.1 <= |entries|
  {
    var subst := SubstituteAll(xml, Prepare(entries, Word));
    (CleanRemaining(TidyBreaks(subst.0), Keys(entries)), subst.1)
  }

  /** The three steps of the Word filler on `document.xml`. */
  method FillDocumentXml(xml: string, entries: seq<Entry>) returns (r: string, count: nat)
    ensures r == FillDocument(xml, entries).0 && count == FillDocument(xml, entries).1
  {
    var x;
    x, count := SubstituteEach(xml, entries, Word);
    x := TidyBreaks(x);
    r := CleanRemainingPlaceholders(x, Keys(entries));
  }

  /** `fill_word_template` from the loaded report to the new `document.xml`:
      the map with at most eight news items per section, then the fill. */
  method FillWordTemplate(xml: string, report: Report, rule: ContentRule) returns (r: string, count: nat)
    ensures var filled := FillDocument(xml, ReplacementEntries(report, MaxNewsPerSection, rule));
      r == filled.0 && count == filled.1
  {
    var entries := BuildReplacements(report, MaxNewsPerSection, rule);
    r, count := FillDocumentXml(xml, entries);
  }

  /** A document without `{` only has its breaks tidied: nothing is replaced
      and nothing is cleaned. */
  lemma NoBraceDocument(xml: string, entries: seq<Entry>)
    requires '{' !in xml
    ensures FillDocument(xml, entries) == (TidyBreaks(xml), 0)
  {
    NoBraceUntouched(xml, Prepare(entries, Word));
    var t := TidyBreaks(xml);
    TidyAddsNoBrace(xml);
    NoBraceClean(t, Keys(entries));
  }

  // ---------------------------------------------------------------------------
  // The slide parts

  /** One XML part of the presentation: the replacements, and the cleanup
      only when one of them succeeded; a part with no success is not
      rewritten. */
  function FillSlidePart(xml: string, entries: seq<Entry>): (r: (string, nat))
    ensures r.1 <= |entries|
  {
    var subst := SubstituteAll(xml, Prepare(entries, Slide));
    if subst.1 > 0 then (CleanRemaining(subst.0, Keys(entries)), subst.1) else (xml, 0)
  }

  /** A slide part without `{` is left exactly as it was. */
  lemma NoBraceSlidePart(xml: string, entries: seq<Entry>)
    requires '{' !in xml
    ensures FillSlidePart(xml, entries) == (xml, 0)
  {
    NoBraceUntouched(xml, Prepare(entries, Slide));
  }

  /** The slide filler on one part, as the loop body does it. */
  method FillSlidePartXml(xml: string, entries: seq<Entry>) returns (r: string, n: nat)
    ensures r == FillSlidePart(xml, entries).0 && n == FillSlidePart(xml, entries).1
  {
    var x;
    x, n := SubstituteEach(xml, entries, Slide);
    if n > 0 {
      r := CleanRemainingPlaceholders(x, Keys(entries));
    } else {
      r := xml;
    }
  }

  /** A step on each part in turn, and the sum of the counts. */
  function MapParts(parts: seq<string>, f: string -> (string, nat)): (r: (seq<string>, nat))
    ensures |r.0| == |parts|
    decreases |parts|
  {
    if parts == [] then ([], 0)
    else
      var before := MapParts(parts[..|parts| - 1], f);
      var last := f(parts[|parts| - 1]);
      (before.0 + [last.0], before.1 + last.1)
  }

  lemma MapPartsStep(parts: seq<string>, f: string -> (string, nat), i: nat)
    requires i < |parts|
    ensures var before := MapParts(parts[..i], f);
      && MapParts(parts[..i + 1], f).0 == before.0 + [f(parts[i]).0]
      && MapParts(parts[..i + 1], f).1 == before.1 + f(parts[i]).1
  {
    assert parts[..i + 1][..i] == parts[..i];
  }

  /** Each part of the result is that part under the step. */
  lemma {:induction false} MapPartsAt(parts: seq<string>, f: string -> (string, nat), i: nat)
    requires i < |parts|
    ensures MapParts(parts, f).0[i] == f(parts[i]).0
    decreases |parts|
  {
    if i < |parts| - 1 {
      MapPartsAt(parts[..|parts| - 1], f, i);
    }
  }

  /** With a step that counts nothing only where it changes nothing, a zero
      total means every part is as it was. */
  lemma {:induction false} MapPartsNoCount(parts: seq<string>, f: string -> (string, nat))
    requires forall y :: f(y).1 == 0 ==> f(y).0 == y
    ensures MapParts(parts, f).1 == 0 ==> MapParts(parts, f).0 == parts
    decreases |parts|
  {
    if parts != [] {
      var init := parts[..|parts| - 1];
      MapPartsNoCount(init, f);
      assert parts == init + [parts[|parts| - 1]];
    }
  }

  /** All parts of the presentation, and the successes over all of them. */
  function FillSlideParts(parts: seq<string>, entries: seq<Entry>): (r: (seq<string>, nat))
    ensures |r.0| == |parts|
  {
    MapParts(parts, y => FillSlidePart(y, entries))
  }

  /** Each part is filled on its own: the result at `i` depends only on the
      part at `i`. */
  lemma FillSlidePartsAt(parts: seq<string>, entries: seq<Entry>, i: nat)
    requires i < |parts|
    ensures FillSlideParts(parts, entries).0[i] == FillSlidePart(parts[i], entries).0
  {
    MapPartsAt(parts, y => FillSlidePart(y, entries), i);
  }

  /** With no success in any part, every part is left as it was. */
  lemma NoSuccessNoRewrite(parts: seq<string>, entries: seq<Entry>)
    requires FillSlideParts(parts, entries).1 == 0
    ensures FillSlideParts(parts, entries).0 == parts
  {
    MapPartsNoCount(parts, y => FillSlidePart(y, entries));
  }

  /** Writing `v` over the first element after `done`. */
  lemma SpliceStep(done: seq<string>, rest: seq<string>, v: string)
    requires rest != []
    ensures (done + rest)[|done| := v] == done + [v] + rest[1..]
  {
  }

  /** The loop over the extracted parts, rewriting in place the ones in which
      a replacement succeeded. */
  method FillSlides(parts: array<string>, entries: seq<Entry>) returns (count: nat)
    modifies parts
    ensures parts[..] == FillSlideParts(old(parts[..]), entries).0
    ensures count == FillSlideParts(old(parts[..]), entries).1
  {
    ghost var orig := parts[..];
    ghost var f := y => FillSlidePart(y, entries);
    count := 0;
    assert orig[..0] == [] && orig[0..] == orig;
    for i := 0 to parts.Length
      invariant parts[..] == MapParts(orig[..i], f).0 + orig[i..]
      invariant count == MapParts(orig[..i], f).1
    {
      MapPartsStep(orig, f, i);
      ghost var done := MapParts(orig[..i], f).0;
      assert orig[i..][1..] == orig[i + 1..];
      assert parts[i] == orig[i];
      var x, n := FillSlidePartXml(parts[i], entries);
      SpliceStep(done, orig[i..], x);
      if n > 0 {
        parts[i] := x;
        count := count + n;
      }
    }
    assert orig[..parts.Length] == orig;
  }

  /** `fill_ppt_template` from the loaded report: the slide map, which fails
      only on a whitespace generation time, then the parts; on failure no
      part is touched. */
  method FillPptTemplate(parts: array<string>, report: Report) returns (r: Result<nat>)
    modifies parts
    ensures PptReplacementEntries(report, MaxNewsPerSection).Err? <==> r.Err?
    ensures r.Err? ==> parts[..] == old(parts[..])
    ensures r.Ok? ==> var filled := FillSlideParts(old(parts[..]), PptReplacementEntries(report, MaxNewsPerSection).value);
      parts[..] == filled.0 && r.value == filled.1
  {
    match PptReplacementEntries(report, MaxNewsPerSection)
    case Err(m) =>
      return Err(m);
    case Ok(entries) =>
      var count := FillSlides(parts, entries);
      return Ok(count);
  }
}
