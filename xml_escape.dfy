/** Escaping of the five XML metacharacters, as `_escape_xml` in
    fill/ppt_filler.py and the first step of `convert_newlines_to_word_xml`
    write it: a chain of `str.replace` calls with `&` first. Decoding uses the
    five predefined entities of section 4.6 of XML 1.0. */
module XmlEscape {
  import opened Text

  /** The replace chain, in the source's order. */
  function EscapeXml(s: string): string {
    ReplaceAll(ReplaceAll(ReplaceAll(ReplaceAll(ReplaceAll(
      s, "&", "&amp;"), "<", "&lt;"), ">", "&gt;"), "\"", "&quot;"), "'", "&apos;")
  }

  /** The entity (or the character itself) that escaping gives one character. */
  function EscapeChar(c: char): (r: string)
    ensures r != [] && (c != '\n' ==> '\n' !in r)
    ensures c in Blank ==> r == [c]
    ensures c !in Blank ==> r[0] !in Blank && r[|r| - 1] !in Blank
    ensures '<' !in r && '>' !in r && '"' !in r && '\'' !in r
  {
    if c == '&' then "&amp;"
    else if c == '<' then "&lt;"
    else if c == '>' then "&gt;"
    else if c == '"' then "&quot;"
    else if c == '\'' then "&apos;"
    else [c]
  }

  /** Escaping character by character. */
  function EscapeEach(s: string): (r: string)
    ensures '<' !in r && '>' !in r && '"' !in r && '\'' !in r
    decreases |s|
  {
    if s == [] then [] else EscapeChar(s[0]) + EscapeEach(s[1..])
  }

  /** Decoding of the five predefined entities; any other text is kept. */
  function UnescapeXml(s: string): string
    decreases |s|
  {
    if |s| == 0 then s
    else if IsPrefix("&amp;", s) then "&" + UnescapeXml(s[5..])
    else if IsPrefix("&lt;", s) then "<" + UnescapeXml(s[4..])
    else if IsPrefix("&gt;", s) then ">" + UnescapeXml(s[4..])
    else if IsPrefix("&quot;", s) then "\"" + UnescapeXml(s[6..])
    else if IsPrefix("&apos;", s) then "'" + UnescapeXml(s[6..])
    else [s[0]] + UnescapeXml(s[1..])
  }

  lemma {:induction false} EscapeEachAppend(a: string, b: string)
    ensures EscapeEach(a + b) == EscapeEach(a) + EscapeEach(b)
    decreases |a|
  {
    if a == [] {
      assert a + b == b;
    } else {
      assert (a + b)[0] == a[0] && (a + b)[1..] == a[1..] + b;
      EscapeEachAppend(a[1..], b);
    }
  }

  /** The last one, two, three and four steps of the chain keep a text
      without their characters. */
  lemma KeepsLast1(s: string)
    requires '\'' !in s
    ensures ReplaceAll(s, "'", "&apos;") == s
  {
    KeepsAbsent(s, '\'', "&apos;");
  }

  lemma KeepsLast2(s: string)
    requires '"' !in s && '\'' !in s
    ensures ReplaceAll(ReplaceAll(s, "\"", "&quot;"), "'", "&apos;") == s
  {
    KeepsAbsent(s, '"', "&quot;");
    KeepsLast1(s);
  }

  lemma KeepsLast3(s: string)
    requires '>' !in s && '"' !in s && '\'' !in s
    ensures ReplaceAll(ReplaceAll(ReplaceAll(s, ">", "&gt;"), "\"", "&quot;"), "'", "&apos;") == s
  {
    KeepsAbsent(s, '>', "&gt;");
    KeepsLast2(s);
  }

  lemma KeepsLast4(s: string)
    requires '<' !in s && '>' !in s && '"' !in s && '\'' !in s
    ensures ReplaceAll(ReplaceAll(ReplaceAll(ReplaceAll(s, "<", "&lt;"), ">", "&gt;"), "\"", "&quot;"), "'", "&apos;") == s
  {
    KeepsAbsent(s, '<', "&lt;");
    KeepsLast3(s);
  }

  /** The chain escapes a one-character text into that character's entity. */
  lemma EscapeOne(c: char)
    ensures EscapeXml([c]) == EscapeChar(c)
  {
    ReplaceCharOne(c, '&', "&amp;");
    if c == '&' {
      KeepsLast4("&amp;");
    } else {
      ReplaceCharOne(c, '<', "&lt;");
      if c == '<' {
        KeepsLast3("&lt;");
      } else {
        ReplaceCharOne(c, '>', "&gt;");
        if c == '>' {
          KeepsLast2("&gt;");
        } else {
          ReplaceCharOne(c, '"', "&quot;");
          if c == '"' {
            KeepsLast1("&quot;");
          } else {
            ReplaceCharOne(c, '\'', "&apos;");
          }
        }
      }
    }
  }

  /** The replace chain distributes over concatenation. */
  lemma EscapeXmlAppend(a: string, b: string)
    ensures EscapeXml(a + b) == EscapeXml(a) + EscapeXml(b)
  {
    var a1, b1 := ReplaceAll(a, "&", "&amp;"), ReplaceAll(b, "&", "&amp;");
    ReplaceCharAppend(a, b, '&', "&amp;");
    var a2, b2 := ReplaceAll(a1, "<", "&lt;"), ReplaceAll(b1, "<", "&lt;");
    ReplaceCharAppend(a1, b1, '<', "&lt;");
    var a3, b3 := ReplaceAll(a2, ">", "&gt;"), ReplaceAll(b2, ">", "&gt;");
    ReplaceCharAppend(a2, b2, '>', "&gt;");
    var a4, b4 := ReplaceAll(a3, "\"", "&quot;"), ReplaceAll(b3, "\"", "&quot;");
    ReplaceCharAppend(a3, b3, '"', "&quot;");
    ReplaceCharAppend(a4, b4, '\'', "&apos;");
  }

  /** The source's replace chain escapes each character independently: `&`
      goes first, so no entity produced by a later step is escaped again. */
  lemma {:induction false} EscapeIsPerCharacter(s: string)
    ensures EscapeXml(s) == EscapeEach(s)
    decreases |s|
  {
    if s != [] {
      assert s == [s[0]] + s[1..];
      EscapeXmlAppend([s[0]], s[1..]);
      EscapeOne(s[0]);
      EscapeIsPerCharacter(s[1..]);
    }
  }

  /** Decoding one entity (or one plain character) at the front. */
  lemma {:induction false} UnescapeFront(ent: string, c: char, rest: string)
    requires ent == EscapeChar(c)
    ensures UnescapeXml(ent + rest) == [c] + UnescapeXml(rest)
  {
    var s := ent + rest;
    assert s[..|ent|] == ent && s[|ent|..] == rest;
    if c == '&' {
      assert IsPrefix("&amp;", s);
    } else if c == '<' {
      assert s[1] == 'l' && !IsPrefix("&amp;", s);
      assert IsPrefix("&lt;", s);
    } else if c == '>' {
      assert s[1] == 'g' && !IsPrefix("&amp;", s) && !IsPrefix("&lt;", s);
      assert IsPrefix("&gt;", s);
    } else if c == '"' {
      assert s[1] == 'q' && !IsPrefix("&amp;", s) && !IsPrefix("&lt;", s) && !IsPrefix("&gt;", s);
      assert IsPrefix("&quot;", s);
    } else if c == '\'' {
      assert s[1] == 'a' && s[2] == 'p' && !IsPrefix("&amp;", s) && !IsPrefix("&lt;", s);
      assert !IsPrefix("&gt;", s) && !IsPrefix("&quot;", s);
      assert IsPrefix("&apos;", s);
    } else {
      assert s[0] == c && c != '&';
      assert !IsPrefix("&amp;", s) && !IsPrefix("&lt;", s) && !IsPrefix("&gt;", s);
      assert !IsPrefix("&quot;", s) && !IsPrefix("&apos;", s);
    }
  }

  /** Decoding the entities undoes escaping. */
  lemma {:induction false} UnescapeEscapeEach(s: string)
    ensures UnescapeXml(EscapeEach(s)) == s
    decreases |s|
  {
    if s != [] {
      UnescapeFront(EscapeChar(s[0]), s[0], EscapeEach(s[1..]));
      UnescapeEscapeEach(s[1..]);
    }
  }

  /** Round trip of `_escape_xml`: decoding the five predefined entities
      returns the original text, and the escaped text has no raw `<`, `>`,
      `"` or `'`. */
  lemma EscapeRoundTrip(s: string)
    ensures UnescapeXml(EscapeXml(s)) == s
    ensures var e := EscapeXml(s); '<' !in e && '>' !in e && '"' !in e && '\'' !in e
  {
    EscapeIsPerCharacter(s);
    UnescapeEscapeEach(s);
  }

  // ---------------------------------------------------------------------------
  // Escaping commutes with the whitespace steps that follow it.

  lemma {:induction false} TrimLeftEscape(s: string)
    ensures TrimLeft(EscapeEach(s), Blank) == EscapeEach(TrimLeft(s, Blank))
    decreases |s|
  {
    if s != [] {
      TrimLeftEscape(s[1..]);
    }
  }

  lemma {:induction false} TrimRightEscape(s: string)
    ensures TrimRight(EscapeEach(s), Blank) == EscapeEach(TrimRight(s, Blank))
    decreases |s|
  {
    if s != [] {
      var init, c := s[..|s| - 1], s[|s| - 1];
      assert s == init + [c];
      EscapeEachAppend(init, [c]);
      assert EscapeEach([c]) == EscapeChar(c);
      var e := EscapeEach(s);
      if c in Blank {
        assert e == EscapeEach(init) + [c];
        assert e[..|e| - 1] == EscapeEach(init);
        TrimRightEscape(init);
      }
    }
  }

  lemma StripBlankEscape(s: string)
    ensures StripBlank(EscapeEach(s)) == EscapeEach(StripBlank(s))
  {
    TrimLeftEscape(s);
    TrimRightEscape(TrimLeft(s, Blank));
  }

  lemma {:induction false} CollapseAfterPlain(w: string, t: string)
    requires w != [] ==> w[0] != '\n'
    requires '\n' !in w
    ensures CollapseNewlines(w + t) == w + CollapseNewlines(t)
    decreases |w|
  {
    if w == [] {
      assert w + t == t;
    } else {
      CollapsePlainHead(w, t);
      if w[1..] != [] { assert w[1..][0] in w; }
      CollapseAfterPlain(w[1..], t);
      assert w == [w[0]] + w[1..];
    }
  }

  /** A first character that is not a newline is kept by the collapse. */
  lemma CollapsePlainHead(w: string, t: string)
    requires w != [] && w[0] != '\n'
    ensures CollapseNewlines(w + t) == [w[0]] + CollapseNewlines(w[1..] + t)
  {
    assert (w + t)[0] == w[0] && (w + t)[1..] == w[1..] + t;
  }

  lemma {:induction false} CollapseEscape(s: string)
    ensures CollapseNewlines(EscapeEach(s)) == EscapeEach(CollapseNewlines(s))
    decreases |s|
  {
    if s != [] {
      var e := EscapeEach(s);
      var e1 := EscapeEach(s[1..]);
      CollapseEscape(s[1..]);
      if s[0] == '\n' {
        assert e == "\n" + e1;
        if |s| >= 2 && s[1] == '\n' {
          assert e1 == "\n" + EscapeEach(s[2..]);
          assert e[1..] == e1;
        } else {
          assert e1 == [] || e1[0] != '\n' by {
            if |s| >= 2 { assert e1[0] == EscapeChar(s[1])[0]; }
          }
          assert CollapseNewlines(e) == "\n" + CollapseNewlines(e1);
        }
      } else {
        var w := EscapeChar(s[0]);
        CollapseAfterPlain(w, e1);
        assert CollapseNewlines(s) == [s[0]] + CollapseNewlines(s[1..]);
      }
    }
  }
}
