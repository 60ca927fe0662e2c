/** `extract_title_and_hotspot` of report/report_formatter.py: the title of
    the final report, looked for in its first fifteen lines, and the
    "hotspot" summary block that follows a marker line and runs up to the
    first chapter heading.

    The source lower-cases a line before looking for the markers. The
    markers are Chinese, lower-casing changes only cased letters, and no
    cased letter becomes or comes from a Chinese character, so a marker
    occurs in the lower-cased line exactly when it occurs in the line; the
    model looks in the line itself. */
module TitleHotspot {
  import opened Wrappers
  import opened Text
  import opened Lists
  import opened ReportFormatter
  import opened CoreUtils
  import opened SectionParser

  /** Only the first fifteen lines may hold the title. */
  const TitleWindow: nat := 15
  /** The chapter fallback looks at most fifty lines past the start. */
  const FallbackWindow: nat := 50

  const HotspotMarks: seq<string> := ["热点聚焦", "核心摘要", "摘要", "周报开篇"]
  const ChapterWords: seq<string> := ["环境", "社会", "治理", "公司治理", "章节"]
  const HeadWords: seq<string> := ["环境", "社会", "治理", "动态"]

  // ---------------------------------------------------------------------------
  // the title

  /** A line stripped, without any `#` or `*`, and stripped again. */
  function CleanTitleLine(line: string): (r: string)
    ensures '#' !in r && '*' !in r && Trimmed(r, PySpace)
  {
    var clean := ReplaceAll(ReplaceAll(Strip(line), "#", ""), "*", "");
    UnmarkedFree(Strip(line));
    StripKeepsOut(clean, '#');
    StripKeepsOut(clean, '*');
    TrimTrimmed(clean, PySpace);
    Strip(clean)
  }

  /** Removing every `#` and then every `*` leaves neither. */
  lemma UnmarkedFree(s: string)
    ensures var clean := ReplaceAll(ReplaceAll(s, "#", ""), "*", "");
      '#' !in clean && '*' !in clean
  {
    var unhashed := ReplaceAll(s, "#", "");
    ReplaceCharRemoves(s, '#', "");
    ReplaceCharRemoves(unhashed, '*', "");
    if '#' in ReplaceAll(unhashed, "*", "") {
      ReplaceChars(unhashed, "*", "", '#');
    }
  }

  /** A cleaned line that names the report: `ESG` together with `周报` or
      `日报`, the first two tests of the source being special cases of the
      third. */
  predicate NamesReport(c: string) {
    Contains(c, Esg + WeeklyWord) || Contains(c, Esg + DailyWord)
    || (Contains(c, Esg) && (Contains(c, "周报") || Contains(c, "日报")))
  }

  const Esg: string := "ESG"
  /** `周报`, the weekly report */
  const WeeklyWord: string := "周报"
  /** `投研日报`, the daily research report */
  const DailyWord: string := "投研日报"

  predicate TitleLine(line: string) {
    NamesReport(CleanTitleLine(line))
  }

  /** `f"{report_label}（{date_range_chinese}）"` */
  function DefaultTitle(info: DateInfo): string {
    ReportLabel(info) + "（" + info.dateRangeChinese + "）"
  }

  /** `lines[:15]` */
  function TitleHead(lines: seq<string>): (r: seq<string>)
    ensures |r| == (if |lines| <= TitleWindow then |lines| else TitleWindow) && r == lines[..|r|]
  {
    if |lines| <= TitleWindow then lines else lines[..TitleWindow]
  }

  /** The title: the first of the first fifteen lines that names the report,
      cleaned, or else the label with the date range. A cleaned line that
      names the report holds `ESG`, so it is never the empty title the
      source would replace. */
  function TitleOf(lines: seq<string>, info: DateInfo): string {
    var head := TitleHead(lines);
    var k := FirstFrom(head, TitleLine, 0);
    if k < |head| then CleanTitleLine(head[k]) else DefaultTitle(info)
  }

  /** The title of the report text, cut into lines at `\n`. */
  function ExtractTitle(text: string, info: DateInfo): string {
    TitleOf(SplitLines(text), info)
  }

  /** The title comes from the first line among the first fifteen that names
      the report; when none of them does, it is the default title, whatever
      the later lines say. */
  lemma TitleFromHead(lines: seq<string>, info: DateInfo)
    ensures forall k | 0 <= k < |lines| && k < TitleWindow && TitleLine(lines[k])
        && (forall j :: 0 <= j < k ==> !TitleLine(lines[j])) :: TitleOf(lines, info) == CleanTitleLine(lines[k])
    ensures (forall k :: 0 <= k < |lines| && k < TitleWindow ==> !TitleLine(lines[k]))
        ==> TitleOf(lines, info) == DefaultTitle(info)
  {
    FirstInPrefixValue(lines, |TitleHead(lines)|, TitleLine, CleanTitleLine, DefaultTitle(info));
  }

  /** A title found in the text is never empty and names the report. */
  lemma FoundTitleNamesReport(line: string)
    requires TitleLine(line)
    ensures CleanTitleLine(line) != [] && Contains(CleanTitleLine(line), "ESG")
  {
    var c := CleanTitleLine(line);
    if Contains(c, Esg + WeeklyWord) {
      ContainsParts(c, Esg, WeeklyWord);
    } else if Contains(c, Esg + DailyWord) {
      ContainsParts(c, Esg, DailyWord);
    }
  }

  /** The title loop over `lines[:15]`. */
  method FindTitle(lines: seq<string>, info: DateInfo) returns (title: string)
    ensures title == TitleOf(lines, info)
  {
    var head := TitleHead(lines);
    var i := 0;
    while i < |head|
      invariant 0 <= i <= |head|
      invariant FirstFrom(head, TitleLine, i) == FirstFrom(head, TitleLine, 0)
    {
      var clean := CleanTitleLine(head[i]);
      if NamesReport(clean) {
        return clean;
      }
      i := i + 1;
    }
    return DefaultTitle(info);
  }

  // ---------------------------------------------------------------------------
  // where the hotspot block starts

  /** A line holding one of the hotspot markers. */
  predicate MarksHotspot(line: string) {
    AnyIn(HotspotMarks, line)
  }

  /** A blank line or a `---` rule, skipped after the marker line. */
  predicate Skippable(line: string) {
    Strip(line) == [] || IsPrefix("---", Strip(line))
  }

  predicate Substantive(line: string) {
    !Skippable(line)
  }

  /** The first line after the first marker line that is neither blank nor a
      rule, or `None` when no line holds a marker. */
  function HotspotStart(lines: seq<string>): (r: Option<nat>)
    ensures r.None? <==> forall i :: 0 <= i < |lines| ==> !MarksHotspot(lines[i])
    ensures r.Some? ==> 0 < r.value <= |lines|
  {
    var m := FirstFrom(lines, MarksHotspot, 0);
    if m == |lines| then None else Some(FirstFrom(lines, Substantive, m + 1))
  }

  /** The marker loop and the skipping loop after it. */
  method FindHotspotStart(lines: seq<string>) returns (start: Option<nat>)
    ensures start == HotspotStart(lines)
  {
    var i := 0;
    while i < |lines|
      invariant 0 <= i <= |lines|
      invariant FirstFrom(lines, MarksHotspot, i) == FirstFrom(lines, MarksHotspot, 0)
    {
      if MarksHotspot(lines[i]) {
        var s := i + 1;
        while s < |lines| && Skippable(lines[s])
          invariant i + 1 <= s <= |lines|
          invariant FirstFrom(lines, Substantive, s) == FirstFrom(lines, Substantive, i + 1)
        {
          s := s + 1;
        }
        return Some(s);
      }
      i := i + 1;
    }
    return None;
  }

  // ---------------------------------------------------------------------------
  // where the hotspot block ends

  /** A chapter heading: `【` with a domain or `章节`, or `###` with a domain
      or `动态`. */
  predicate EndsHotspot(line: string) {
    var s := Strip(line);
    (IsPrefix("【", s) && AnyIn(ChapterWords, s)) || (IsPrefix("###", s) && AnyIn(HeadWords, s))
  }

  predicate MentionsE(s: string) {
    Contains(s, "环境（E）") || Contains(s, "【环境（E）")
  }

  predicate MentionsS(s: string) {
    Contains(s, "社会（S）") || Contains(s, "【社会（S）")
  }

  predicate MentionsG(s: string) {
    Contains(s, "治理（G）") || Contains(s, "【治理（G）") || Contains(s, "【公司治理（G）")
  }

  /** A stripped line that closes the block once all three domains were seen. */
  predicate Closes(s: string) {
    s == [] || IsPrefix("【", s) || IsPrefix("###", s)
  }

  /** The fallback scan from line `i` on, `e`, `s` and `g` telling which
      domains were seen before `i`: the block ends at the first line that
      closes it after all three domains were seen (that line included),
      else at the end of the text. */
  function EsgEnd(lines: seq<string>, i: nat, e: bool, s: bool, g: bool): (k: nat)
    requires i <= |lines|
    ensures i <= k <= |lines|
    ensures k < |lines| ==> Closes(Strip(lines[k]))
    decreases |lines| - i
  {
    if i == |lines| then i
    else
      var l := Strip(lines[i]);
      var e1, s1, g1 := e || MentionsE(l), s || MentionsS(l), g || MentionsG(l);
      if e1 && s1 && g1 && Closes(l) then i else EsgEnd(lines, i + 1, e1, s1, g1)
  }

  /** A line the last fallback stops at: `【`, or `###` with `动态`. */
  predicate SepLine(line: string) {
    var s := Strip(line);
    IsPrefix("【", s) || (IsPrefix("###", s) && Contains(s, "动态"))
  }

  /** `lines[:min(start + 50, len(lines))]` */
  function Window(lines: seq<string>, start: nat): (r: seq<string>)
    requires start <= |lines|
    ensures start <= |r| <= start + FallbackWindow && |r| <= |lines| && r == lines[..|r|]
  {
    if start + FallbackWindow < |lines| then lines[..start + FallbackWindow] else lines
  }

  /** Where the block ends: at the first chapter heading from `start` on;
      without one, where the three-domain scan ends; and if that scan ends
      where it began, at the first separator of the next fifty lines. */
  function HotspotEnd(lines: seq<string>, start: nat): (e: nat)
    requires start <= |lines|
    ensures start <= e <= |lines|
    ensures forall j :: start <= j < e ==> !EndsHotspot(lines[j])
  {
    var head := FirstFrom(lines, EndsHotspot, start);
    if head < |lines| then head
    else
      var esg := EsgEnd(lines, start, false, false, false);
      if esg != start then esg else FirstFrom(Window(lines, start), SepLine, start)
  }

  /** The block runs to the first chapter heading whenever there is one. */
  lemma EndAtHeading(lines: seq<string>, start: nat, j: nat)
    requires start <= j < |lines| && EndsHotspot(lines[j])
    ensures HotspotEnd(lines, start) <= j && EndsHotspot(lines[HotspotEnd(lines, start)])
  {
  }

  /** The three-domain scan can only end where it began when nothing is left
      to scan, so the fifty-line fallback never moves the end: a first line
      that mentions all three domains and closes the block is itself a
      chapter heading. */
  lemma ChapterFallbackIdle(lines: seq<string>, start: nat)
    requires start < |lines|
    requires forall j :: start <= j < |lines| ==> !EndsHotspot(lines[j])
    ensures EsgEnd(lines, start, false, false, false) != start
  {
    EsgStep(lines, start, false, false, false);
    var l := Strip(lines[start]);
    if MentionsE(l) && Closes(l) {
      ClosingMentionIsHeading(lines[start]);
      assert false;
    }
  }

  /** A line that mentions `环境（E）` and closes the block is a chapter
      heading. */
  lemma ClosingMentionIsHeading(line: string)
    requires MentionsE(Strip(line)) && Closes(Strip(line))
    ensures EndsHotspot(line)
  {
    var l := Strip(line);
    EnvironmentMentioned(l);
    assert Contains(l, ChapterWords[0]) && Contains(l, HeadWords[0]);
  }

  /** A line naming `环境（E）` holds `环境`, so it is not empty. */
  lemma EnvironmentMentioned(l: string)
    requires MentionsE(l)
    ensures Contains(l, "环境") && l != []
  {
    if Contains(l, "环境（E）") {
      assert "环境" + "（E）" == "环境（E）";
      ContainsParts(l, "环境", "（E）");
    } else {
      assert "【环境" + "（E）" == "【环境（E）";
      assert "【" + "环境" == "【环境";
      ContainsParts(l, "【环境", "（E）");
      ContainsParts(l, "【", "环境");
    }
  }

  /** The loop that looks for the next chapter heading, then the two
      fallbacks. */
  method FindHotspotEnd(lines: seq<string>, start: nat) returns (end: nat)
    requires start <= |lines|
    ensures end == HotspotEnd(lines, start)
  {
    var i := start;
    while i < |lines|
      invariant start <= i <= |lines|
      invariant FirstFrom(lines, EndsHotspot, i) == FirstFrom(lines, EndsHotspot, start)
    {
      if EndsHotspot(lines[i]) {
        return i;
      }
      i := i + 1;
    }
    end := EsgFallbackEnd(lines, start);
    if end == start {
      end := ChapterFallbackEnd(lines, start);
    }
  }

  /** The loop with the `e_found`, `s_found` and `g_found` flags. */
  method EsgFallbackEnd(lines: seq<string>, start: nat) returns (end: nat)
    requires start <= |lines|
    ensures end == EsgEnd(lines, start, false, false, false)
  {
    end := start;
    var e, s, g := false, false, false;
    var i := start;
    while i < |lines|
      invariant start <= i <= |lines| && end == i
      invariant EsgEnd(lines, i, e, s, g) == EsgEnd(lines, start, false, false, false)
    {
      var stop;
      stop, e, s, g := EsgLine(lines, i, e, s, g);
      if stop {
        return i;
      }
      end := i + 1;
      i := i + 1;
    }
  }

  /** One pass of that loop: the flags after line `i`, and whether the block
      ends there. */
  method EsgLine(lines: seq<string>, i: nat, e: bool, s: bool, g: bool) returns (stop: bool, e1: bool, s1: bool, g1: bool)
    requires i < |lines|
    ensures stop ==> EsgEnd(lines, i, e, s, g) == i
    ensures !stop ==> EsgEnd(lines, i, e, s, g) == EsgEnd(lines, i + 1, e1, s1, g1)
  {
    var l := Strip(lines[i]);
    EsgStep(lines, i, e, s, g);
    e1 := e || MentionsE(l);
    s1 := s || MentionsS(l);
    g1 := g || MentionsG(l);
    stop := e1 && s1 && g1 && Closes(l);
  }

  /** One line of the three-domain scan. */
  lemma EsgStep(lines: seq<string>, i: nat, e: bool, s: bool, g: bool)
    requires i < |lines|
    ensures var l := Strip(lines[i]);
      var e1, s1, g1 := e || MentionsE(l), s || MentionsS(l), g || MentionsG(l);
      EsgEnd(lines, i, e, s, g) == if e1 && s1 && g1 && Closes(l) then i else EsgEnd(lines, i + 1, e1, s1, g1)
  {
  }

  /** The last fallback: up to fifty lines, stopping at a separator. */
  method ChapterFallbackEnd(lines: seq<string>, start: nat) returns (end: nat)
    requires start <= |lines|
    ensures end == FirstFrom(Window(lines, start), SepLine, start)
  {
    var window := Window(lines, start);
    end := start;
    var i := start;
    while i < |window|
      invariant start <= i <= |window| && end == i
      invariant FirstFrom(window, SepLine, i) == FirstFrom(window, SepLine, start)
    {
      if SepLine(lines[i]) {
        return i;
      }
      end := i + 1;
      i := i + 1;
    }
  }

  // ---------------------------------------------------------------------------
  // the hotspot text

  /** `[l.strip() for l in block if l.strip()]` */
  function KeptLines(block: seq<string>): seq<string> {
    FilterMap(block, NonBlank, Strip)
  }

  /** The non-blank lines of the block, stripped, joined, stripped and
      normalised. */
  function HotspotText(block: seq<string>): (r: string)
    ensures NoDoubleNewline(r) && Trimmed(r, PySpace)
    ensures r == [] <==> forall j :: 0 <= j < |block| ==> !NonBlank(block[j])
  {
    var joined := Strip(JoinLines(KeptLines(block)));
    JoinedEmpty(block);
    TrimTrimmed(JoinLines(KeptLines(block)), PySpace);
    NormalizeKeepsText(joined);
    NormalizeNewlines(joined)
  }

  /** The joined lines are empty exactly when every line is blank. */
  lemma JoinedEmpty(block: seq<string>)
    ensures Strip(JoinLines(KeptLines(block))) == [] <==> forall j :: 0 <= j < |block| ==> !NonBlank(block[j])
  {
    var kept := KeptLines(block);
    FilterMapEmpty(block, NonBlank, Strip);
    if kept != [] {
      KeptLineShape(block, kept[0]);
      JoinStartsWith(kept);
      StripNonEmpty(JoinLines(kept));
    }
  }

  /** A kept line is non-empty and starts with a non-space. */
  lemma KeptLineShape(block: seq<string>, p: string)
    requires p in KeptLines(block)
    ensures p != [] && p[0] !in PySpace
  {
    var i := FilterMapImage(block, NonBlank, Strip, p);
    TrimTrimmed(block[i], PySpace);
  }

  /** Joining starts with the first part. */
  lemma JoinStartsWith(parts: seq<string>)
    requires |parts| > 0 && parts[0] != []
    ensures JoinLines(parts) != [] && JoinLines(parts)[0] == parts[0][0]
  {
  }

  /** Normalising a non-empty stripped text leaves it non-empty. */
  lemma NormalizeKeepsText(s: string)
    requires Trimmed(s, PySpace)
    ensures NormalizeNewlines(s) == [] <==> s == []
  {
    if s != [] {
      var c := CollapseNewlines(s);
      assert c[0] == s[0] && s[0] !in PySpace;
      StripNonEmpty(c);
    }
  }

  /** The hotspot: `None` when no line holds a marker, else the text of the
      block from its start to its end. */
  function HotspotOf(lines: seq<string>): (r: Option<string>)
    ensures r.None? <==> forall i :: 0 <= i < |lines| ==> !MarksHotspot(lines[i])
    ensures r.Some? ==> NoDoubleNewline(r.value) && Trimmed(r.value, PySpace)
  {
    match HotspotStart(lines)
    case None => None
    case Some(start) => Some(HotspotText(lines[start..HotspotEnd(lines, start)]))
  }

  /** The hotspot of the report text, cut into lines at `\n`. */
  function ExtractHotspot(text: string): Option<string> {
    HotspotOf(SplitLines(text))
  }

  /** Where the block lies: after the first marker line and the blank or
      rule lines that follow it, and before any chapter heading, ending at
      the first chapter heading when there is one. A normalised text is
      left alone by `normalize_newlines`. */
  lemma HotspotBlock(lines: seq<string>) returns (m: nat, s: nat, e: nat)
    requires HotspotOf(lines).Some?
    ensures m < s <= e <= |lines|
      && MarksHotspot(lines[m]) && (forall j :: 0 <= j < m ==> !MarksHotspot(lines[j]))
      && (forall j :: m < j < s ==> Skippable(lines[j]))
      && (s < |lines| ==> !Skippable(lines[s]))
      && (forall j :: s <= j < e ==> !EndsHotspot(lines[j]))
      && ((exists j :: s <= j < |lines| && EndsHotspot(lines[j])) ==> e < |lines| && EndsHotspot(lines[e]))
      && HotspotOf(lines).value == HotspotText(lines[s..e])
    ensures NormalizeNewlines(HotspotOf(lines).value) == HotspotOf(lines).value
  {
    m := FirstFrom(lines, MarksHotspot, 0);
    s := FirstFrom(lines, Substantive, m + 1);
    e := HotspotEnd(lines, s);
    if j :| s <= j < |lines| && EndsHotspot(lines[j]) {
      EndAtHeading(lines, s, j);
    }
    NormalizedFixed(HotspotOf(lines).value);
  }

  // ---------------------------------------------------------------------------
  // the whole function

  /** `extract_title_and_hotspot` */
  method ExtractTitleAndHotspot(text: string, info: DateInfo) returns (title: string, hotspot: Option<string>)
    ensures title == ExtractTitle(text, info)
    ensures hotspot == ExtractHotspot(text)
  {
    var lines := SplitLines(text);
    title := FindTitle(lines, info);
    var start := FindHotspotStart(lines);
    match start
    case None =>
      hotspot := None;
    case Some(s) =>
      var end := FindHotspotEnd(lines, s);
      hotspot := Some(HotspotText(lines[s..end]));
  }
}
