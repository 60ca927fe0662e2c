/** Turning a replacement value into run-break markup:
    `convert_newlines_to_word_xml` (word/word_filler.py, and its copy in
    fill/word_filler.py) escapes, strips `\n\r \t` from both ends, collapses
    newline runs and rewrites each newline as `</w:t><w:br/><w:t>`;
    `_convert_newlines_to_pptx_xml` (fill/ppt_filler.py) does the same with
    `</a:t><a:br/><a:t>` but never escapes. */
module LineBreaks {
  import opened Text
  import opened XmlEscape

  const WordBreak: string := "</w:t><w:br/><w:t>"
  const SlideBreak: string := "</a:t><a:br/><a:t>"

  /** A break sequence closes a text element: it starts with `</`, has no
      other `</` inside, holds no newline and ends with `>`. */
  predicate BreakShaped(b: string) {
    && |b| >= 2 && b[0] == '<' && b[1] == '/' && b[|b| - 1] == '>' && '\n' !in b
    && forall i :: 0 < i < |b| - 1 ==> !(b[i] == '<' && b[i + 1] == '/')
  }

  lemma BreaksAreShaped()
    ensures BreakShaped(WordBreak) && BreakShaped(SlideBreak)
  {
  }

  /** `convert_newlines_to_word_xml` */
  function ConvertNewlinesToWordXml(text: string): string {
    ReplaceAll(CollapseNewlines(StripBlank(EscapeXml(text))), "\n", WordBreak)
  }

  /** `_convert_newlines_to_pptx_xml`: no escaping step. */
  function ConvertNewlinesToPptxXml(text: string): string {
    ReplaceAll(CollapseNewlines(StripBlank(text)), "\n", SlideBreak)
  }

  /** No two break sequences follow each other anywhere in `s`. */
  predicate NoAdjacentBreaks(s: string, b: string) {
    forall i :: 0 <= i <= |s| ==> !IsPrefix(b + b, s[i..])
  }

  /** The shape every converted value has: no newline, no break at either
      end, no two breaks in a row. */
  predicate BreakLayout(r: string, b: string) {
    '\n' !in r && !IsPrefix(b, r) && !IsSuffix(b, r) && NoAdjacentBreaks(r, b)
  }

  /** Text free of newline runs, with no newline at either end and no markup
      brackets: what the converters feed to the final replace. */
  predicate Lines(t: string) {
    && '<' !in t && '>' !in t && NoDoubleNewline(t)
    && (t == [] || (t[0] != '\n' && t[|t| - 1] != '\n'))
  }

  lemma SliceChars(s: string, i: nat, j: nat, c: char)
    requires i <= j <= |s| && c !in s
    ensures c !in s[i..j]
  {
    forall k | 0 <= k < j - i ensures s[i..j][k] != c {
      assert s[i + k] in s;
    }
  }

  lemma ReplaceNewlineFront(t: string, b: string)
    requires t != []
    ensures ReplaceAll(t, "\n", b)
      == (if t[0] == '\n' then b else [t[0]]) + ReplaceAll(t[1..], "\n", b)
  {
    assert IsPrefix("\n", t) <==> t[0] == '\n';
  }

  lemma ReplaceNewlineLast(t: string, b: string)
    requires t != [] && t[|t| - 1] != '\n'
    ensures var r := ReplaceAll(t, "\n", b); r != [] && r[|r| - 1] == t[|t| - 1]
  {
    var init, c := t[..|t| - 1], t[|t| - 1];
    assert t == init + [c];
    ReplaceCharAppend(init, [c], '\n', b);
    ReplaceNewlineFront([c], b);
    assert [c][1..] == [];
  }

  /** Replacing the newlines of text without newline runs or `<` never puts
      two breaks next to each other. */
  lemma {:induction false} NoAdjacentAfterReplace(t: string, b: string)
    requires BreakShaped(b) && '<' !in t && NoDoubleNewline(t)
    ensures NoAdjacentBreaks(ReplaceAll(t, "\n", b), b)
    decreases |t|
  {
    var r := ReplaceAll(t, "\n", b);
    if t == [] {
      assert r == [];
    } else {
      var t' := t[1..];
      SliceKeepsNoDoubleNewline(t, 1, |t|);
      SliceChars(t, 1, |t|, '<');
      NoAdjacentAfterReplace(t', b);
      var r' := ReplaceAll(t', "\n", b);
      ReplaceNewlineFront(t, b);
      if t' != [] {
        ReplaceNewlineFront(t', b);
        assert t'[0] == t[1] && t[1] in t;
      }
      assert t[0] in t;
      if t[0] == '\n' {
        assert r == b + r';
        assert t' != [] ==> t'[0] != '\n' && r'[0] == t'[0] && r'[0] != '<';
        forall i | 0 <= i <= |r| ensures !IsPrefix(b + b, r[i..]) {
          if i == 0 {
            if |r| >= |b| + |b| {
              assert t' != [];
              assert r[|b|] == r'[0] != '<' == (b + b)[|b|];
            }
          } else if i < |b| {
            assert r[i] == b[i];
            if b[i] == '<' && |r| >= i + |b| + |b| {
              assert i + 1 < |b|;
              assert r[i..][1] == r[i + 1] == b[i + 1] != '/' == (b + b)[1];
            }
          } else {
            assert r[i..] == r'[i - |b|..];
          }
        }
      } else {
        assert r == [t[0]] + r';
        forall i | 0 <= i <= |r| ensures !IsPrefix(b + b, r[i..]) {
          if i == 0 {
            assert r[0] == t[0] != '<';
          } else {
            assert r[i..] == r'[i - 1..];
          }
        }
      }
    }
  }

  /** Turning every break back into a newline undoes the replace, as long as
      the text had no `<` of its own. */
  lemma {:induction false} UnbreakAfterReplace(t: string, b: string)
    requires BreakShaped(b) && '<' !in t
    ensures ReplaceAll(ReplaceAll(t, "\n", b), b, "\n") == t
    decreases |t|
  {
    if t != [] {
      var r' := ReplaceAll(t[1..], "\n", b);
      ReplaceNewlineFront(t, b);
      SliceChars(t, 1, |t|, '<');
      UnbreakAfterReplace(t[1..], b);
      assert t[0] in t;
      if t[0] == '\n' {
        var r := b + r';
        assert IsPrefix(b, r) && r[|b|..] == r';
      } else {
        var r := [t[0]] + r';
        assert !IsPrefix(b, r) && r[1..] == r';
      }
    }
  }

  /** What the final `replace('\n', break)` gives for prepared text. */
  lemma LinesLayout(t: string, b: string)
    requires BreakShaped(b) && Lines(t)
    ensures BreakLayout(ReplaceAll(t, "\n", b), b)
    ensures ReplaceAll(ReplaceAll(t, "\n", b), b, "\n") == t
  {
    var r := ReplaceAll(t, "\n", b);
    ReplaceCharRemoves(t, '\n', b);
    NoAdjacentAfterReplace(t, b);
    UnbreakAfterReplace(t, b);
    if t != [] {
      ReplaceNewlineFront(t, b);
      ReplaceNewlineLast(t, b);
      assert t[0] in t && t[|t| - 1] in t;
      assert r[0] == t[0] != b[0];
      assert r[|r| - 1] == t[|t| - 1] != b[|b| - 1];
    }
  }

  /** Stripping and collapsing keeps the markup-free text in the shape of `Lines`. */
  lemma PreparedLines(e: string)
    requires '<' !in e && '>' !in e
    ensures Lines(CollapseNewlines(StripBlank(e)))
  {
    var i := TrimSpec(e, Blank);
    var s := StripBlank(e);
    SliceChars(e, i, i + |s|, '<');
    SliceChars(e, i, i + |s|, '>');
    var t := CollapseNewlines(s);
    if '<' in t { CollapseKeepsChars(s, '<'); }
    if '>' in t { CollapseKeepsChars(s, '>'); }
    if s != [] {
      assert '\n' in Blank;
    }
  }

  /** `convert_newlines_to_word_xml`: the result holds no newline, neither
      starts nor ends with a break and never has two breaks in a row; turning
      the breaks back into newlines leaves no raw `<`, `>`, `"` or `'`, and
      decoding the five entities then gives the input with `\n\r \t` stripped
      from both ends and newline runs collapsed. */
  lemma WordConversion(text: string)
    ensures BreakLayout(ConvertNewlinesToWordXml(text), WordBreak)
    ensures var u := ReplaceAll(ConvertNewlinesToWordXml(text), WordBreak, "\n");
      && '<' !in u && '>' !in u && '"' !in u && '\'' !in u
      && UnescapeXml(u) == CollapseNewlines(StripBlank(text))
  {
    BreaksAreShaped();
    var e := EscapeXml(text);
    EscapeRoundTrip(text);
    EscapeIsPerCharacter(text);
    StripBlankEscape(text);
    CollapseEscape(StripBlank(text));
    var t := CollapseNewlines(StripBlank(e));
    assert t == EscapeEach(CollapseNewlines(StripBlank(text)));
    PreparedLines(e);
    LinesLayout(t, WordBreak);
    UnescapeEscapeEach(CollapseNewlines(StripBlank(text)));
  }

  /** `_convert_newlines_to_pptx_xml`: the result never holds a newline. */
  lemma SlideConversionHasNoNewline(text: string)
    ensures '\n' !in ConvertNewlinesToPptxXml(text)
  {
    BreaksAreShaped();
    ReplaceCharRemoves(CollapseNewlines(StripBlank(text)), '\n', SlideBreak);
  }

  /** `_convert_newlines_to_pptx_xml` on text without markup brackets: no
      break at either end, none adjacent, and the breaks turn back into the
      stripped, collapsed text. The slide converter does not escape, so text
      holding `<` or `>` could itself spell a break tag and the round trip
      would not hold; the claim is made only for text that cannot. */
  lemma SlideConversion(text: string)
    requires '<' !in text && '>' !in text
    ensures BreakLayout(ConvertNewlinesToPptxXml(text), SlideBreak)
    ensures ReplaceAll(ConvertNewlinesToPptxXml(text), SlideBreak, "\n")
         == CollapseNewlines(StripBlank(text))
  {
    BreaksAreShaped();
    PreparedLines(text);
    LinesLayout(CollapseNewlines(StripBlank(text)), SlideBreak);
  }

  /** The slide converter inserts a single-line value verbatim, `&` and `<`
      included, where the Word converter would write `&amp;` and `&lt;`. */
  lemma SlideConversionDoesNotEscape(text: string)
    requires '\n' !in text && Trimmed(text, Blank)
    ensures ConvertNewlinesToPptxXml(text) == text
  {
    SingleLineUnchanged(text, SlideBreak);
  }

  lemma SingleLineUnchanged(text: string, b: string)
    requires '\n' !in text && Trimmed(text, Blank)
    ensures ReplaceAll(CollapseNewlines(StripBlank(text)), "\n", b) == text
  {
    TrimOfTrimmed(text, Blank);
    assert NoDoubleNewline(text);
    CollapseWithoutRuns(text);
    NotNewline(text);
  }

  lemma NotNewline(s: string)
    requires '\n' !in s
    ensures !Contains(s, "\n")
    decreases |s|
  {
    if |s| > 0 {
      assert s[0] in s;
      NotNewline(s[1..]);
    }
  }

  /** The two converters differ on `&`: for a value `x&y` with ordinary
      characters around the ampersand, Word writes `x&amp;y`, the slide
      converter keeps `x&y`. */
  lemma AmpersandExample(x: char, y: char)
    requires x !in Blank && y !in Blank
    requires x !in "&<>\"'" && y !in "&<>\"'"
    ensures ConvertNewlinesToWordXml([x, '&', y]) == [x] + "&amp;" + [y]
    ensures ConvertNewlinesToPptxXml([x, '&', y]) == [x, '&', y]
  {
    var s := [x, '&', y];
    var e := [x] + "&amp;" + [y];
    EscapeIsPerCharacter(s);
    assert s[1..] == ['&', y] && s[1..][1..] == [y] && [y][1..] == [];
    assert EscapeEach([y]) == [y];
    assert EscapeEach(['&', y]) == "&amp;" + [y];
    assert EscapeEach(s) == e;
    assert '\n' !in e && Trimmed(e, Blank);
    SingleLineUnchanged(e, WordBreak);
    assert '\n' !in s && Trimmed(s, Blank);
    SlideConversionDoesNotEscape(s);
  }
}
