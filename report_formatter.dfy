/** The text helpers of report/report_formatter.py: newline normalisation,
    recognising and formatting the "source" lines that end each news item,
    and collecting them from a block of text. The three regular expressions
    of `format_source_line` are modelled as searches for their leftmost
    match; each pattern leaves the engine no choice when it backtracks, so
    the leftmost match is the only one. */
module ReportFormatter {
  import opened Wrappers
  import opened Text
  import opened Lists

  /** What every formatted source line starts with. */
  const Label: string := "资料来源："

  // ---------------------------------------------------------------------------
  // normalize_newlines

  /** `normalize_newlines`: runs of newlines become one, then the text is
      stripped; the empty text is returned as it is. */
  function NormalizeNewlines(text: string): (r: string)
    ensures text == [] ==> r == []
    ensures NoDoubleNewline(r) && Trimmed(r, PySpace)
  {
    if text == [] then text
    else
      var c := CollapseNewlines(text);
      StripKeepsNoRuns(c);
      Strip(c)
  }

  /** Stripping a text without newline runs leaves none. */
  lemma StripKeepsNoRuns(c: string)
    requires NoDoubleNewline(c)
    ensures NoDoubleNewline(Strip(c)) && Trimmed(Strip(c), PySpace)
  {
    var i := TrimSpec(c, PySpace);
    SliceKeepsNoDoubleNewline(c, i, i + |Strip(c)|);
  }

  /** A normalised text is left as it is. */
  lemma NormalizedFixed(s: string)
    requires NoDoubleNewline(s) && Trimmed(s, PySpace)
    ensures NormalizeNewlines(s) == s
  {
    if s != [] {
      CollapseWithoutRuns(s);
      TrimOfTrimmed(s, PySpace);
    }
  }

  /** Normalising twice is normalising once. */
  lemma NormalizeIdempotent(text: string)
    ensures NormalizeNewlines(NormalizeNewlines(text)) == NormalizeNewlines(text)
  {
    NormalizedFixed(NormalizeNewlines(text));
  }

  // ---------------------------------------------------------------------------
  // is_source_line

  /** `\d`, read as an ASCII digit: Python's `str` patterns also accept the
      other Unicode decimal digits, which this model does not. */
  predicate IsDigit(c: char) {
    '0' <= c <= '9'
  }

  /** `\s*\d` matches at `j`. */
  predicate DigitAfterSpaces(s: string, j: nat)
    decreases |s| - j
  {
    j < |s| && (IsDigit(s[j]) || (s[j] in PySpace && DigitAfterSpaces(s, j + 1)))
  }

  /** `re.search(r'\[cite:\s*\d+', s)` finds a match, with `\d` read as
      `IsDigit`. */
  predicate HasCite(s: string) {
    exists i :: 0 <= i < |s| && IsPrefix("[cite:", s[i..]) && DigitAfterSpaces(s, i + 6)
  }

  /** `is_source_line` */
  predicate IsSourceLine(text: string) {
    || IsPrefix("Sources", text) || IsPrefix("Source:", text) || IsPrefix("资料来源", text)
    || IsPrefix("[资料来源]", text) || IsPrefix("[cite:", text)
    || Contains(text, "vertexaisearch.cloud.google.com")
    || Contains(text, "grounding-api-redirect")
    || HasCite(text)
  }

  // ---------------------------------------------------------------------------
  // format_source_line

  /** The end of the run of characters outside `stop` that starts at `j`:
      the greedy `[^…]+` of the patterns. */
  function RunEnd(s: string, j: nat, stop: set<char>): (e: nat)
    requires j <= |s|
    ensures j <= e <= |s|
    ensures forall k :: j <= k < e ==> s[k] !in stop
    ensures e == |s| || s[e] in stop
    decreases |s| - j
  {
    if j == |s| || s[j] in stop then j else RunEnd(s, j + 1, stop)
  }

  /** The end of the whitespace run at `j`: `\s*`. */
  function SkipSpace(s: string, j: nat): (e: nat)
    requires j <= |s|
    ensures j <= e <= |s|
    ensures forall k :: j <= k < e ==> s[k] in PySpace
    ensures e == |s| || s[e] !in PySpace
    decreases |s| - j
  {
    if j == |s| || s[j] !in PySpace then j else SkipSpace(s, j + 1)
  }

  /** The length `https?://` matches at `j`, or 0. */
  function SchemeAt(s: string, j: nat): (n: nat)
    requires j <= |s|
    ensures n == 0 || n == 7 || n == 8
    ensures n == 8 ==> IsPrefix("https://", s[j..])
    ensures n == 7 ==> IsPrefix("http://", s[j..])
  {
    if IsPrefix("https://", s[j..]) then 8
    else if IsPrefix("http://", s[j..]) then 7
    else 0
  }

  /** `https?://[^stop]+` at `j`: where the match ends. */
  function UrlEnd(s: string, j: nat, stop: set<char>): (r: Option<nat>)
    requires j <= |s|
    ensures r.Some? ==> j + SchemeAt(s, j) < r.value <= |s| && SchemeAt(s, j) > 0
    ensures r.Some? ==> forall k :: j + SchemeAt(s, j) <= k < r.value ==> s[k] !in stop
  {
    var n := SchemeAt(s, j);
    if n == 0 then None
    else
      var e := RunEnd(s, j + n, stop);
      if e == j + n then None else Some(e)
  }

  /** The three patterns of `format_source_line`, in the order it tries them. */
  datatype Pattern =
    | BracketLink  // \[资料来源\]\((https?://[^\)]+)\)
    | SourceLink   // Source:\s*\[([^\]]+)\]\((https?://[^\)]+)\)
    | BareUrl      // (https?://[^\s\)]+)

  const CloseParen: set<char> := {')'}

  /** The text beginning with `https?://`: a web link. */
  predicate IsUrl(u: string) {
    IsPrefix("http://", u) || IsPrefix("https://", u)
  }

  /** The pattern's captured link when the pattern matches at `i`. */
  function MatchAt(s: string, i: nat, pat: Pattern): (r: Option<string>)
    requires i <= |s|
    ensures r.Some? ==> IsUrl(r.value) && ')' !in r.value && Contains(s, r.value)
  {
    match pat
    case BracketLink =>
      if !IsPrefix("[资料来源](", s[i..]) then None
      else LinkInParens(s, i + 7)
    case SourceLink =>
      if !IsPrefix("Source:", s[i..]) then None
      else
        var j := SkipSpace(s, i + 7);
        if j == |s| || s[j] != '[' then None
        else
          var e := RunEnd(s, j + 1, {']'});
          if e == j + 1 || e + 1 >= |s| || s[e + 1] != '(' then None
          else LinkInParens(s, e + 2)
    case BareUrl =>
      match UrlEnd(s, i, PySpace + CloseParen)
      case None => None
      case Some(e) => UrlText(s, i, e, PySpace + CloseParen)
  }

  /** `(https?://[^\)]+)\)` at `j`: the link when a `)` closes it. */
  function LinkInParens(s: string, j: nat): (r: Option<string>)
    requires j <= |s|
    ensures r.Some? ==> IsUrl(r.value) && ')' !in r.value && Contains(s, r.value)
    ensures r.Some? ==> j + |r.value| <= |s| && s[j..j + |r.value|] == r.value
  {
    match UrlEnd(s, j, CloseParen)
    case None => None
    case Some(e) => if e == |s| then None else UrlText(s, j, e, CloseParen)
  }

  /** The link `s[j..e]` that `UrlEnd` delimited. */
  function UrlText(s: string, j: nat, e: nat, stop: set<char>): (r: Option<string>)
    requires j <= |s| && UrlEnd(s, j, stop) == Some(e) && ')' in stop
    ensures r == Some(s[j..e]) && IsUrl(s[j..e]) && ')' !in s[j..e] && Contains(s, s[j..e])
    ensures j + |r.value| <= |s| && s[j..j + |r.value|] == r.value
  {
    var n := SchemeAt(s, j);
    var u := s[j..e];
    assert u[..n] == s[j..][..n];
    forall k | 0 <= k < |u| ensures u[k] != ')' {
      if k < n {
        assert u[k] == s[j..][..n][k];
      }
    }
    ContainsAt(s, u, j);
    Some(u)
  }

  /** `re.search(pattern, s)`: the capture of the leftmost match from `i` on. */
  function Search(s: string, i: nat, pat: Pattern): (r: Option<string>)
    requires i <= |s|
    ensures r.Some? ==> IsUrl(r.value) && ')' !in r.value && Contains(s, r.value)
    decreases |s| - i
  {
    match MatchAt(s, i, pat)
    case Some(u) => Some(u)
    case None => if i == |s| then None else Search(s, i + 1, pat)
  }

  /** The fallback of `format_source_line`: the markers removed. */
  function Cleaned(s: string): string {
    Strip(ReplaceAll(ReplaceAll(s, "[资料来源]", ""), "Source:", ""))
  }

  /** `format_source_line`: a `[cite:` line has no link; otherwise the first
      of the three patterns that matches gives the link, else the text
      itself without its markers. */
  function FormatSourceLine(sourceText: string): (r: string)
    ensures IsPrefix(Label, r)
    ensures IsPrefix("[cite:", Strip(sourceText)) ==> r == Label
    ensures var s := Strip(sourceText); var tail := r[|Label|..];
      tail == [] || tail == Cleaned(s) || (IsUrl(tail) && ')' !in tail && Contains(s, tail))
  {
    var s := Strip(sourceText);
    if IsPrefix("[cite:", s) then Label
    else match Search(s, 0, BracketLink)
    case Some(u) => Label + u
    case None => match Search(s, 0, SourceLink)
    case Some(u) => Label + u
    case None => match Search(s, 0, BareUrl)
    case Some(u) => Label + u
    case None =>
      var c := Cleaned(s);
      if c != [] then Label + c else Label
  }

  /** The first pattern that finds a link decides: a `[资料来源](url)` link
      wins over a `Source: [x](url)` one, which wins over a bare link. */
  lemma FormatPriority(sourceText: string)
    requires !IsPrefix("[cite:", Strip(sourceText))
    ensures var s := Strip(sourceText); var r := FormatSourceLine(sourceText);
      && (Search(s, 0, BracketLink).Some? ==> r == Label + Search(s, 0, BracketLink).value)
      && (Search(s, 0, BracketLink).None? && Search(s, 0, SourceLink).Some? ==>
            r == Label + Search(s, 0, SourceLink).value)
      && (Search(s, 0, BracketLink).None? && Search(s, 0, SourceLink).None? && Search(s, 0, BareUrl).Some? ==>
            r == Label + Search(s, 0, BareUrl).value)
  {
  }

  /** A `[资料来源](url)` line is formatted as its link. */
  lemma BracketLinkFormatted(url: string)
    requires IsUrl(url) && ')' !in url
    requires url != "http://" && url != "https://"
    ensures FormatSourceLine("[资料来源](" + url + ")") == Label + url
  {
    assert "[资料来源](" + url + ")" + [] == "[资料来源](" + url + ")";
    BracketLinkWins(url, []);
  }

  /** A line that opens with a `[资料来源](url)` link is formatted as that
      link, whatever follows it: a later `Source: [x](url2)` link or bare
      link never wins over it. */
  lemma BracketLinkWins(url: string, rest: string)
    requires IsUrl(url) && ')' !in url
    requires url != "http://" && url != "https://"
    requires rest == [] || rest[|rest| - 1] !in PySpace
    ensures FormatSourceLine("[资料来源](" + url + ")" + rest) == Label + url
  {
    var s := "[资料来源](" + url + ")" + rest;
    assert s[0] == '[' && '[' !in PySpace;
    assert s[|s| - 1] !in PySpace by {
      if rest == [] {
        assert s[|s| - 1] == ')';
      } else {
        assert s[|s| - 1] == rest[|rest| - 1];
      }
    }
    TrimOfTrimmed(s, PySpace);
    assert !IsPrefix("[cite:", s) by {
      assert s[1] == '资';
    }
    BracketLinkMatches(url, rest);
  }

  /** The bracket pattern captures the link at the start of such a line. */
  lemma BracketLinkMatches(url: string, rest: string)
    requires IsUrl(url) && ')' !in url
    requires url != "http://" && url != "https://"
    ensures Search("[资料来源](" + url + ")" + rest, 0, BracketLink) == Some(url)
  {
    var s := "[资料来源](" + url + ")" + rest;
    assert IsPrefix("[资料来源](", s[0..]);
    assert s[7..][..|url|] == url;
    PrefixOfPrefix("https://", url, s[7..]);
    PrefixOfPrefix("http://", url, s[7..]);
    var n := SchemeAt(s, 7);
    assert n == if IsPrefix("https://", url) then 8 else 7;
    forall k | 7 + n <= k < 7 + |url| ensures s[k] != ')' {
      assert s[k] == url[k - 7];
    }
    assert s[7 + |url|] == ')';
    RunEndAt(s, 7 + n, CloseParen, 7 + |url|);
    assert s[7..7 + |url|] == url;
    assert MatchAt(s, 0, BracketLink) == Some(url);
  }

  /** The text each pattern begins with. */
  function Opening(pat: Pattern): string {
    match pat
    case BracketLink => "[资料来源]("
    case SourceLink => "Source:"
    case BareUrl => "http"
  }

  /** A pattern matches only where its opening text stands. */
  lemma MatchNeedsOpening(s: string, i: nat, pat: Pattern)
    requires i <= |s| && MatchAt(s, i, pat).Some?
    ensures IsPrefix(Opening(pat), s[i..])
  {
    if pat.BareUrl? {
      assert SchemeAt(s, i) > 0;
      assert s[i..][..4] == s[i..][..SchemeAt(s, i)][..4];
    }
  }

  /** A search finds nothing in a text without the pattern's opening text. */
  lemma {:induction false} SearchNeedsOpening(s: string, i: nat, pat: Pattern)
    requires i <= |s| && Search(s, i, pat).Some?
    ensures Contains(s, Opening(pat))
    decreases |s| - i
  {
    if MatchAt(s, i, pat).Some? {
      MatchNeedsOpening(s, i, pat);
      ContainsAt(s, Opening(pat), i);
    } else {
      SearchNeedsOpening(s, i + 1, pat);
    }
  }

  /** Positions where the pattern does not match are passed over. */
  lemma {:induction false} SearchSkips(s: string, i: nat, k: nat, pat: Pattern)
    requires i <= k <= |s|
    requires forall m :: i <= m < k ==> MatchAt(s, m, pat).None?
    ensures Search(s, i, pat) == Search(s, k, pat)
    decreases k - i
  {
    if i < k {
      SearchSkips(s, i + 1, k, pat);
    }
  }

  /** A link standing at `j` and followed by a stop character, or by the end
      of the text, is what `https?://[^stop]+` matches there. */
  lemma UrlAt(s: string, j: nat, url: string, stop: set<char>)
    requires j + |url| <= |s| && s[j..j + |url|] == url
    requires IsUrl(url) && url != "http://" && url != "https://"
    requires forall k :: 0 <= k < |url| ==> url[k] !in stop
    requires j + |url| == |s| || s[j + |url|] in stop
    ensures UrlEnd(s, j, stop) == Some(j + |url|)
  {
    assert s[j..][..|url|] == url;
    PrefixOfPrefix("https://", url, s[j..]);
    PrefixOfPrefix("http://", url, s[j..]);
    var n := SchemeAt(s, j);
    assert n < |url|;
    forall k | j + n <= k < j + |url| ensures s[k] !in stop {
      assert s[k] == url[k - j];
    }
    RunEndAt(s, j + n, stop, j + |url|);
  }

  /** `(https?://[^\)]+)\)` at `j` captures a link closed by `)`. */
  lemma LinkInParensAt(s: string, j: nat, url: string)
    requires j + |url| < |s| && s[j..j + |url|] == url && s[j + |url|] == ')'
    requires IsUrl(url) && url != "http://" && url != "https://" && ')' !in url
    ensures LinkInParens(s, j) == Some(url)
  {
    UrlAt(s, j, url, CloseParen);
  }

  /** A `Source: [name](url)` line is formatted as its link when it holds no
      `[资料来源](` link, which the source tries first. */
  lemma SourceLinkFormatted(name: string, url: string)
    requires name != [] && ']' !in name
    requires IsUrl(url) && url != "http://" && url != "https://" && ')' !in url
    requires !Contains("Source: [" + name + "](" + url + ")", "[资料来源](")
    ensures FormatSourceLine("Source: [" + name + "](" + url + ")") == Label + url
  {
    var s := "Source: [" + name + "](" + url + ")";
    assert s[0] == 'S' && s[|s| - 1] == ')';
    assert 'S' !in PySpace && ')' !in PySpace;
    assert !IsPrefix("[cite:", s) by {
      assert s[0] != '[';
    }
    SourceLinkMatches(name, url);
    FormattedBySourceLink(s, url);
  }

  /** The source-link pattern captures the link of such a line. */
  lemma SourceLinkMatches(name: string, url: string)
    requires name != [] && ']' !in name
    requires IsUrl(url) && url != "http://" && url != "https://" && ')' !in url
    ensures MatchAt("Source: [" + name + "](" + url + ")", 0, SourceLink) == Some(url)
  {
    var s := "Source: [" + name + "](" + url + ")";
    var e := 9 + |name|;
    assert s[..7] == "Source:" && s[7] == ' ' && s[8] == '[';
    forall k | 9 <= k < e ensures s[k] != ']' {
      assert s[k] == name[k - 9];
    }
    assert s[e] == ']' && s[e + 1] == '(';
    assert s[e + 2..e + 2 + |url|] == url && s[e + 2 + |url|] == ')';
    SourceLinkAt(s, e, url);
  }

  /** The source-link pattern at the start of a text laid out as
      `Source: [`, a name without `]` ending before `e`, `](`, the link and
      `)`. */
  lemma SourceLinkAt(s: string, e: nat, url: string)
    requires 9 < e && e + 2 + |url| < |s|
    requires s[..7] == "Source:" && s[7] == ' ' && s[8] == '['
    requires forall k :: 9 <= k < e ==> s[k] != ']'
    requires s[e] == ']' && s[e + 1] == '('
    requires s[e + 2..e + 2 + |url|] == url && s[e + 2 + |url|] == ')'
    requires IsUrl(url) && url != "http://" && url != "https://" && ')' !in url
    ensures MatchAt(s, 0, SourceLink) == Some(url)
  {
    assert IsPrefix("Source:", s[0..]);
    assert ' ' in PySpace && '[' !in PySpace;
    assert SkipSpace(s, 7) == 8;
    RunEndAt(s, 9, {']'}, e);
    LinkInParensAt(s, e + 2, url);
  }

  /** A stripped line that is not a `[cite:` line and holds no
      `[资料来源](` link is formatted as the link the source-link pattern
      captures. */
  lemma FormattedBySourceLink(s: string, url: string)
    requires Trimmed(s, PySpace) && !IsPrefix("[cite:", s)
    requires !Contains(s, Opening(BracketLink))
    requires Search(s, 0, SourceLink) == Some(url)
    ensures FormatSourceLine(s) == Label + url
  {
    TrimOfTrimmed(s, PySpace);
    NoOpeningNoMatch(s, BracketLink);
    FormatPriority(s);
  }

  /** The same for a line with neither of the first two kinds of link and the
      bare-link pattern. */
  lemma FormattedByBareUrl(s: string, url: string)
    requires Trimmed(s, PySpace) && !IsPrefix("[cite:", s)
    requires !Contains(s, Opening(BracketLink)) && !Contains(s, Opening(SourceLink))
    requires Search(s, 0, BareUrl) == Some(url)
    ensures FormatSourceLine(s) == Label + url
  {
    TrimOfTrimmed(s, PySpace);
    NoOpeningNoMatch(s, BracketLink);
    NoOpeningNoMatch(s, SourceLink);
    FormatPriority(s);
  }

  /** Without its opening text a pattern finds nothing. */
  lemma NoOpeningNoMatch(s: string, pat: Pattern)
    requires !Contains(s, Opening(pat))
    ensures Search(s, 0, pat).None?
  {
    if Search(s, 0, pat).Some? {
      SearchNeedsOpening(s, 0, pat);
      assert false;
    }
  }

  /** A line with neither of the first two kinds of link is formatted as the
      first web link in it, the link running up to a space, a `)` or the end
      of the line. */
  lemma BareUrlFormatted(pre: string, url: string, post: string)
    requires Trimmed(pre + url + post, PySpace) && !IsPrefix("[cite:", pre + url + post)
    requires !Contains(pre + url + post, "[资料来源](") && !Contains(pre + url + post, "Source:")
    requires IsUrl(url) && url != "http://" && url != "https://"
    requires forall k :: 0 <= k < |url| ==> url[k] !in PySpace && url[k] != ')'
    requires post == [] || post[0] in PySpace || post[0] == ')'
    requires forall i :: 0 <= i < |pre| ==> !IsUrl((pre + url + post)[i..])
    ensures FormatSourceLine(pre + url + post) == Label + url
  {
    var s := pre + url + post;
    BareUrlMatches(pre, url, post);
    FormattedByBareUrl(s, url);
  }

  /** The bare-link pattern captures the first web link of the line. */
  lemma BareUrlMatches(pre: string, url: string, post: string)
    requires IsUrl(url) && url != "http://" && url != "https://"
    requires forall k :: 0 <= k < |url| ==> url[k] !in PySpace && url[k] != ')'
    requires post == [] || post[0] in PySpace || post[0] == ')'
    requires forall i :: 0 <= i < |pre| ==> !IsUrl((pre + url + post)[i..])
    ensures Search(pre + url + post, 0, BareUrl) == Some(url)
  {
    var s := pre + url + post;
    forall m | 0 <= m < |pre| ensures MatchAt(s, m, BareUrl).None? {
      assert SchemeAt(s, m) == 0;
    }
    SearchSkips(s, 0, |pre|, BareUrl);
    assert s[|pre|..|pre| + |url|] == url;
    UrlAt(s, |pre|, url, PySpace + CloseParen);
    assert MatchAt(s, |pre|, BareUrl) == Some(url);
  }

  /** Below the length of `u`, the prefixes of `u` and of a text starting
      with `u` are the same. */
  lemma PrefixOfPrefix(p: string, u: string, t: string)
    requires IsPrefix(u, t) && |p| <= |u|
    ensures IsPrefix(p, u) <==> IsPrefix(p, t)
  {
    assert t[..|p|] == u[..|p|];
  }

  /** `RunEnd` stops at the first character of `stop`, or at the end. */
  lemma {:induction false} RunEndAt(s: string, j: nat, stop: set<char>, e: nat)
    requires j <= e <= |s| && (e == |s| || s[e] in stop)
    requires forall k :: j <= k < e ==> s[k] !in stop
    ensures RunEnd(s, j, stop) == e
    decreases e - j
  {
    if j < e {
      RunEndAt(s, j + 1, stop, e);
    }
  }

  // ---------------------------------------------------------------------------
  // extract_source_from_text

  /** A line the loop picks up: one that is a source line once stripped. */
  predicate SourceKept(line: string) {
    IsSourceLine(Strip(line))
  }

  /** What the loop makes of a picked-up line. */
  function SourceFormat(line: string): string {
    FormatSourceLine(Strip(line))
  }

  /** The formatted source lines among `lines`, duplicates included. */
  function FormattedSources(lines: seq<string>): seq<string> {
    FilterMap(lines, SourceKept, SourceFormat)
  }

  /** `extract_source_from_text`: the distinct formatted source lines, joined
      by newlines, or none when no line is a source line. */
  function ExtractSources(text: string): (r: Option<string>)
    ensures r.None? <==> forall i :: 0 <= i < |SplitLines(text)| ==> !SourceKept(SplitLines(text)[i])
  {
    FilterMapEmpty(SplitLines(text), SourceKept, SourceFormat);
    var found := Dedup(FormattedSources(SplitLines(text)));
    if found == [] then None else Some(JoinLines(found))
  }

  /** The loop of `extract_source_from_text`, appending each new formatted
      source line to `sources`. */
  method ExtractSourceFromText(text: string) returns (r: Option<string>)
    ensures r == ExtractSources(text)
  {
    var lines := SplitLines(text);
    var sources: seq<string> := [];
    for i := 0 to |lines|
      invariant sources == Dedup(FormattedSources(lines[..i]))
    {
      var lineStripped := Strip(lines[i]);
      ExtractStep(lines, i);
      if IsSourceLine(lineStripped) {
        var formatted := FormatSourceLine(lineStripped);
        if formatted != [] && formatted !in sources {
          sources := sources + [formatted];
        }
      }
    }
    assert lines[..|lines|] == lines;
    r := if sources == [] then None else Some(JoinLines(sources));
  }

  /** One more line adds its formatting when it is a source line whose
      formatting is new, and changes nothing otherwise. */
  lemma ExtractStep(lines: seq<string>, i: nat)
    requires i < |lines|
    ensures var d := Dedup(FormattedSources(lines[..i]));
      Dedup(FormattedSources(lines[..i + 1]))
        == if SourceKept(lines[i]) && SourceFormat(lines[i]) !in d then d + [SourceFormat(lines[i])] else d
  {
    FilterMapDedupStep(lines, i, SourceKept, SourceFormat);
  }

  /** Each extracted source is the labelled formatting of a source line of
      the text, each source line's formatting is among them, and none is
      repeated. */
  lemma ExtractedSources(text: string, x: string)
    ensures var lines := SplitLines(text);
      var found := Dedup(FormattedSources(lines));
      && (x in found <==> exists i :: 0 <= i < |lines| && SourceKept(lines[i]) && SourceFormat(lines[i]) == x)
      && (x in found ==> IsPrefix(Label, x))
      && (forall i, j :: 0 <= i < j < |found| ==> found[i] != found[j])
  {
    var lines := SplitLines(text);
    if x in Dedup(FormattedSources(lines)) {
      var i := FilterMapImage(lines, SourceKept, SourceFormat, x);
    }
    if exists i :: 0 <= i < |lines| && SourceKept(lines[i]) && SourceFormat(lines[i]) == x {
      var i :| 0 <= i < |lines| && SourceKept(lines[i]) && SourceFormat(lines[i]) == x;
      FilterMapHas(lines, SourceKept, SourceFormat, i);
    }
  }
}
