/** report/report_saver.py: where a run's report files go, the plain-text
    dump of what the model wrote, and the JSON record the fillers read.

    Writing the files, creating the directory and reading the clock are
    left to the caller: the two file writers return the path and the text
    or record they would write, and the formatted time and its ISO form are
    parameters. */
module ReportSaver {
  import opened Wrappers
  import opened Text
  import opened Lists
  import opened ReportFormatter
  import opened CoreUtils
  import opened SectionParser
  import opened TitleHotspot
  import opened OutputNames
  import RM = ReportModel
  import Replacements

  // ---------------------------------------------------------------------------
  // file names

  /** `{suffix}_报告.json` */
  function JsonName(info: DateInfo): string {
    OutputDateSuffix(info) + ReportSuffix + ".json"
  }

  /** `{suffix}_原始内容.txt` */
  function RawName(info: DateInfo): string {
    OutputDateSuffix(info) + RawSuffix
  }

  const RawSuffix: string := "_原始内容.txt"

  function JsonPath(info: DateInfo): string {
    PathJoin(OutputSubdir(info), JsonName(info))
  }

  function RawPath(info: DateInfo): string {
    PathJoin(OutputSubdir(info), RawName(info))
  }

  /** When the date suffix holds no slash, the JSON and the text dump lie in
      the same directory, the date part the fillers read back from the JSON
      is that suffix, and the Word document and the presentation they write
      land beside it under the same suffix. */
  lemma SavedFilesTogether(info: DateInfo)
    requires '/' !in OutputDateSuffix(info)
    ensures FileName(JsonPath(info)) == JsonName(info)
    ensures Sibling(JsonPath(info), RawName(info)) == RawPath(info)
    ensures JsonDatePart(JsonPath(info)) == OutputDateSuffix(info)
    ensures PptOutputPath(JsonPath(info)) == PathJoin(OutputSubdir(info), OutputDateSuffix(info) + FinalSuffixPpt)
    ensures WordOutputPath(JsonPath(info)) == PathJoin(OutputSubdir(info), OutputDateSuffix(info) + FinalSuffixWord)
  {
    FilesTogether(OutputSubdir(info), OutputDateSuffix(info));
  }

  /** The same, for any directory and suffix. */
  lemma FilesTogether(dir: string, suffix: string)
    requires '/' !in suffix
    ensures var json := PathJoin(dir, suffix + ReportSuffix + ".json");
      && FileName(json) == suffix + ReportSuffix + ".json"
      && Sibling(json, suffix + RawSuffix) == PathJoin(dir, suffix + RawSuffix)
      && JsonDatePart(json) == suffix
      && PptOutputPath(json) == PathJoin(dir, suffix + FinalSuffixPpt)
      && WordOutputPath(json) == PathJoin(dir, suffix + FinalSuffixWord)
  {
    var name := suffix + ReportSuffix + ".json";
    assert '/' !in name;
    JoinedName(dir, name);
    JoinedSibling(dir, name, suffix + RawSuffix);
    JoinedSibling(dir, name, suffix + FinalSuffixPpt);
    JoinedSibling(dir, name, suffix + FinalSuffixWord);
    ReportJsonStem(suffix);
    DatePartRoundTrip(suffix);
    assert IsSuffix(ReportSuffix, suffix + ReportSuffix) by {
      var s := suffix + ReportSuffix;
      assert s[|s| - |ReportSuffix|..] == ReportSuffix;
    }
  }

  /** The name joined onto a directory is read back as the file name. */
  lemma JoinedName(dir: string, name: string)
    requires '/' !in name && name != []
    ensures FileName(PathJoin(dir, name)) == name
  {
    NoLeadingSlash(name);
    if dir == [] {
    } else if IsSuffix("/", dir) {
      AfterSlash(dir, name, name);
    } else {
      SiblingIn(dir, name, name);
    }
  }

  /** A sibling of a name joined onto a directory is the other name joined
      onto that directory. */
  lemma JoinedSibling(dir: string, name: string, other: string)
    requires '/' !in name && name != [] && '/' !in other
    ensures Sibling(PathJoin(dir, name), other) == PathJoin(dir, other)
  {
    NoLeadingSlash(name);
    NoLeadingSlash(other);
    if dir == [] {
    } else if IsSuffix("/", dir) {
      AfterSlash(dir, name, other);
    } else {
      SiblingIn(dir, name, other);
    }
  }

  lemma NoLeadingSlash(name: string)
    requires '/' !in name
    ensures !IsPrefix("/", name)
  {
    if |name| >= 1 {
      assert name[..1][0] == name[0];
    }
  }

  /** Under a directory that ends with a slash, the name is what follows it
      and a sibling replaces it. */
  lemma AfterSlash(dir: string, name: string, other: string)
    requires IsSuffix("/", dir) && '/' !in name
    ensures FileName(dir + name) == name && Sibling(dir + name, other) == dir + other
  {
    var s := dir + name;
    assert dir[|dir| - 1] == dir[|dir| - 1..][0] == '/';
    assert s[|dir| - 1] == '/';
    assert s[|dir|..] == name;
    LastIndexAt(s, '/', |dir| - 1);
    assert s[..|dir|] == dir;
  }

  // ---------------------------------------------------------------------------
  // save_raw_content

  /** `c * 80` */
  function Rule(c: char): (r: string)
    ensures |r| == 80 && forall i :: 0 <= i < |r| ==> r[i] == c
  {
    seq(80, _ => c)
  }

  /** The domains in the order they are dumped, with their headings. */
  const RawDomains: seq<(string, string)> := [("E", "环境（E）"), ("S", "社会（S）"), ("G", "公司治理（G）")]

  /** Missing domains are dumped as `无内容`. */
  const NoContent: string := "无内容"

  /** `d.get(key, default)` on a dict of strings. */
  function Lookup(m: map<string, string>, key: string, default: string): string {
    if key in m then m[key] else default
  }

  function RawHeader(info: DateInfo, now: string): seq<string> {
    [Rule('='), ReportLabel(info) + " - 原始内容", "研究期间：" + info.dateRangeChinese,
     "生成时间：" + now, Rule('='), ""]
  }

  /** A bracketed heading, a rule, the body and two empty lines. */
  function RawBlock(heading: string, body: string): seq<string> {
    ["【" + heading + "】", Rule('-'), body, "", ""]
  }

  /** The block of the `k`-th domain. */
  function DomainBlock(polished: map<string, string>, k: nat): seq<string>
    requires k < |RawDomains|
  {
    RawBlock(RawDomains[k].1 + "章节", Lookup(polished, RawDomains[k].0, NoContent))
  }

  /** The blocks of the first `k` domains. */
  function DomainBlocks(polished: map<string, string>, k: nat): (r: seq<string>)
    requires k <= |RawDomains|
    ensures |r| == 5 * k
  {
    if k == 0 then [] else DomainBlocks(polished, k - 1) + DomainBlock(polished, k - 1)
  }

  /** `content_parts` */
  function RawParts(final: string, hotspot: string, polished: map<string, string>, info: DateInfo, now: string): seq<string> {
    RawHeader(info, now) + RawBlock("最终合并报告", final) + RawBlock("热点聚焦", hotspot)
      + DomainBlocks(polished, |RawDomains|)
  }

  /** The dump opens with the label, the period and the time between two
      rules, then holds the final report, the hotspot and the E, S and G
      texts, in that order, each under its heading. */
  lemma RawLayout(final: string, hotspot: string, polished: map<string, string>, info: DateInfo, now: string)
    ensures var parts := RawParts(final, hotspot, polished, info, now);
      && |parts| == 31
      && parts[0] == parts[4] == Rule('=')
      && parts[1] == ReportLabel(info) + " - 原始内容"
      && parts[6] == "【最终合并报告】" && parts[8] == final
      && parts[11] == "【热点聚焦】" && parts[13] == hotspot
      && parts[16] == "【环境（E）章节】" && parts[21] == "【社会（S）章节】" && parts[26] == "【公司治理（G）章节】"
      && parts[18] == Lookup(polished, "E", NoContent)
      && parts[23] == Lookup(polished, "S", NoContent)
      && parts[28] == Lookup(polished, "G", NoContent)
  {
    var head := RawHeader(info, now) + RawBlock("最终合并报告", final) + RawBlock("热点聚焦", hotspot);
    DomainLayout(polished);
    assert "【" + "最终合并报告" + "】" == "【最终合并报告】";
    assert "【" + "热点聚焦" + "】" == "【热点聚焦】";
    assert RawParts(final, hotspot, polished, info, now) == head + DomainBlocks(polished, 3);
    assert |head| == 16;
  }

  /** The three domain blocks: heading at 0, 5 and 10, text at 2, 7 and
      12. */
  lemma DomainLayout(polished: map<string, string>)
    ensures var b := DomainBlocks(polished, 3);
      && b[0] == "【环境（E）章节】" && b[5] == "【社会（S）章节】" && b[10] == "【公司治理（G）章节】"
      && b[2] == Lookup(polished, "E", NoContent)
      && b[7] == Lookup(polished, "S", NoContent)
      && b[12] == Lookup(polished, "G", NoContent)
  {
    assert DomainBlocks(polished, 1) == DomainBlock(polished, 0);
    assert DomainBlocks(polished, 2) == DomainBlock(polished, 0) + DomainBlock(polished, 1);
    assert DomainBlocks(polished, 3) == DomainBlock(polished, 0) + DomainBlock(polished, 1) + DomainBlock(polished, 2);
    assert "【" + "环境（E）" + "章节" + "】" == "【环境（E）章节】";
    assert "【" + "社会（S）" + "章节" + "】" == "【社会（S）章节】";
    assert "【" + "公司治理（G）" + "章节" + "】" == "【公司治理（G）章节】";
  }

  /** A domain missing from the results is dumped as `无内容`. */
  lemma RawMissingDomain(final: string, hotspot: string, polished: map<string, string>, info: DateInfo, now: string, k: nat)
    requires k < |RawDomains| && RawDomains[k].0 !in polished
    ensures RawParts(final, hotspot, polished, info, now)[18 + 5 * k] == NoContent
  {
    RawLayout(final, hotspot, polished, info, now);
  }

  /** `save_raw_content`: the path of the dump and its text, the parts
      joined with newlines. */
  method SaveRawContent(final: string, hotspot: string, polished: map<string, string>, info: DateInfo, now: string)
    returns (filename: string, text: string)
    ensures filename == RawPath(info)
    ensures text == JoinLines(RawParts(final, hotspot, polished, info, now))
  {
    filename := PathJoin(OutputSubdir(info), OutputDateSuffix(info) + RawSuffix);
    var parts := RawContentParts(final, hotspot, polished, info, now);
    text := JoinLines(parts);
  }

  /** The appends that build `content_parts`. */
  method RawContentParts(final: string, hotspot: string, polished: map<string, string>, info: DateInfo, now: string)
    returns (parts: seq<string>)
    ensures parts == RawParts(final, hotspot, polished, info, now)
  {
    parts := RawHeader(info, now);
    parts := parts + RawBlock("最终合并报告", final);
    parts := parts + RawBlock("热点聚焦", hotspot);
    ghost var head := parts;
    var k := 0;
    while k < |RawDomains|
      invariant 0 <= k <= |RawDomains|
      invariant parts == head + DomainBlocks(polished, k)
    {
      var (domain, name) := RawDomains[k];
      parts := parts + RawBlock(name + "章节", Lookup(polished, domain, NoContent));
      k := k + 1;
    }
  }

  // ---------------------------------------------------------------------------
  // choosing the hotspot

  /** A hotspot shorter than this is not trusted. */
  const HotspotMin: nat := 50

  /** The hotspot the saver keeps: the passed text stripped when that is
      longer than fifty characters, else the one extracted from the final
      report when that has at least fifty, else the passed text as it
      came. */
  function ChooseHotspot(passed: string, final: string): (r: string)
    ensures r == Strip(passed) || r == passed || ExtractHotspot(final) == Some(r)
    ensures r != passed ==> |r| >= HotspotMin
  {
    ChooseAmong(passed, ExtractHotspot(final))
  }

  /** The choice, given what extraction from the final report gives. */
  function ChooseAmong(passed: string, extracted: Option<string>): (r: string)
    ensures r == Strip(passed) || r == passed || extracted == Some(r)
    ensures r != passed ==> |r| >= HotspotMin
  {
    var stripped := Strip(passed);
    if |stripped| > HotspotMin then stripped
    else if extracted.Some? && |extracted.value| >= HotspotMin then extracted.value
    else passed
  }

  /** The order of preference: a long passed hotspot wins whatever the
      final report says; otherwise a long extracted one; otherwise the
      passed text untouched. */
  lemma HotspotPreference(passed: string, final: string)
    ensures |Strip(passed)| > HotspotMin ==> ChooseHotspot(passed, final) == Strip(passed)
    ensures |Strip(passed)| <= HotspotMin && ExtractHotspot(final).Some?
        && |ExtractHotspot(final).value| >= HotspotMin
        ==> ChooseHotspot(passed, final) == ExtractHotspot(final).value
    ensures |Strip(passed)| <= HotspotMin
        && (ExtractHotspot(final).None? || |ExtractHotspot(final).value| < HotspotMin)
        ==> ChooseHotspot(passed, final) == passed
  {
  }

  // ---------------------------------------------------------------------------
  // cleaning the hotspot

  /** A line skipped while the leading title lines are skipped: once
      stripped it is empty, a heading, a rule, or names the hotspot. */
  predicate LeadLine(line: string) {
    var s := Strip(line);
    IsPrefix("#", s) || IsPrefix("###", s) || Contains(s, "热点聚焦") || IsPrefix("---", s) || s == []
  }

  predicate BodyLine(line: string) {
    !LeadLine(line)
  }

  /** A line stripped, without `###` and then without `**`, stripped
      again. */
  function CleanLine(line: string): (r: string)
    ensures !Contains(r, "**") && Trimmed(r, PySpace)
  {
    var t := ReplaceAll(ReplaceAll(Strip(line), "###", ""), "**", "");
    PairsGone(ReplaceAll(Strip(line), "###", ""));
    StripKeepsAbsent(t, "**");
    TrimTrimmed(t, PySpace);
    Strip(t)
  }

  predicate KeptLine(line: string) {
    CleanLine(line) != []
  }

  /** Where the body starts: the first line that is not a lead line. */
  function BodyStart(lines: seq<string>): (k: nat)
    ensures k <= |lines|
  {
    FirstFrom(lines, BodyLine, 0)
  }

  /** The cleaned non-empty lines of the body. */
  function CleanedLines(lines: seq<string>): seq<string> {
    FilterMap(lines[BodyStart(lines)..], KeptLine, CleanLine)
  }

  /** The hotspot as saved: the empty text stays empty; otherwise its lines
      are cleaned, joined, stripped and normalised. */
  function CleanHotspot(h: string): (r: string)
    ensures h == [] ==> r == []
    ensures NoDoubleNewline(r) && Trimmed(r, PySpace)
  {
    if h == [] then h else NormalizeNewlines(Strip(JoinLines(CleanedLines(SplitLines(h)))))
  }

  /** Only the leading run of lead lines is dropped as title: every line
      before the body is a lead line, and the body starts with a line that
      is not. */
  lemma LeadRun(lines: seq<string>)
    ensures forall j :: 0 <= j < BodyStart(lines) ==> LeadLine(lines[j])
    ensures BodyStart(lines) < |lines| ==> !LeadLine(lines[BodyStart(lines)])
  {
  }

  /** After the first body line, a line is dropped only when it cleans to
      nothing. */
  lemma CleanedComplete(lines: seq<string>, j: nat)
    requires BodyStart(lines) <= j < |lines| && CleanLine(lines[j]) != []
    ensures CleanLine(lines[j]) in CleanedLines(lines)
  {
    FilterMapFromHas(lines, BodyStart(lines), KeptLine, CleanLine, j);
  }

  /** A kept line is the cleaned form of a body line: not empty, without
      `**` and without space at either end. */
  lemma CleanedSound(lines: seq<string>, x: string) returns (j: nat)
    requires x in CleanedLines(lines)
    ensures BodyStart(lines) <= j < |lines| && CleanLine(lines[j]) == x
    ensures x != [] && !Contains(x, "**") && Trimmed(x, PySpace)
  {
    j := FilterMapFromImage(lines, BodyStart(lines), KeptLine, CleanLine, x);
  }

  /** A hotspot whose first line is already body text loses none of its
      non-empty lines to the title skipping. */
  lemma NoTitleNoSkip(lines: seq<string>)
    requires |lines| > 0 && BodyLine(lines[0])
    ensures CleanedLines(lines) == FilterMap(lines, KeptLine, CleanLine)
  {
    assert lines[0..] == lines;
  }

  /** Removing every `**` left to right leaves none. */
  lemma {:induction false} PairsGone(s: string)
    ensures !Contains(ReplaceAll(s, "**", ""), "**")
    decreases |s|
  {
    if |s| > 0 {
      if IsPrefix("**", s) {
        PairsGone(s[2..]);
        assert ReplaceAll(s, "**", "") == ReplaceAll(s[2..], "**", "");
      } else {
        var rest := ReplaceAll(s[1..], "**", "");
        PairsGone(s[1..]);
        if s[0] == '*' && |s| > 1 {
          assert s[..2][1] == s[1];
          LeadKept(s[1..]);
        }
        var r := [s[0]] + rest;
        assert r[1..] == rest;
        assert !IsPrefix("**", r) by {
          if |r| >= 2 && r[0] == '*' {
            assert r[..2][1] == r[1];
          }
        }
      }
    }
  }

  /** A text that does not start with `*` keeps its first character. */
  lemma LeadKept(t: string)
    requires t != [] && t[0] != '*'
    ensures ReplaceAll(t, "**", "") != [] && ReplaceAll(t, "**", "")[0] == t[0]
  {
    assert !IsPrefix("**", t) by {
      if |t| >= 2 { assert t[..2][0] == t[0]; }
    }
  }

  /** Stripping adds no substring. */
  lemma StripKeepsAbsent(t: string, p: string)
    requires !Contains(t, p)
    ensures !Contains(Strip(t), p)
  {
    var i := TrimSpec(t, PySpace);
    SliceKeepsAbsent(t, p, i, i + |Strip(t)|);
  }

  /** A slice holds no substring its text does not hold. */
  lemma SliceKeepsAbsent(t: string, p: string, i: nat, j: nat)
    requires i <= j <= |t| && !Contains(t, p)
    ensures !Contains(t[i..j], p)
  {
    if Contains(t[i..j], p) {
      assert t[..i] + t[i..j] + t[j..] == t;
      ContainsInfix(t[..i], t[i..j], t[j..], p);
    }
  }

  /** The cleaning loop of `save_formatted_report`: lead lines are skipped
      until the first body line, then every line is cleaned and kept when
      something is left. */
  method CleanHotspotLines(lines: seq<string>) returns (cleaned: seq<string>)
    ensures cleaned == CleanedLines(lines)
  {
    cleaned := [];
    var skipTitle := true;
    ghost var k := BodyStart(lines);
    ghost var body := lines[k..];
    var i := 0;
    while i < |lines|
      invariant 0 <= i <= |lines|
      invariant skipTitle ==> cleaned == [] && FirstFrom(lines, BodyLine, i) == k
      invariant !skipTitle ==> k < i && cleaned == FilterMap(body[..i - k], KeptLine, CleanLine)
    {
      var stripped := Strip(lines[i]);
      if skipTitle && (IsPrefix("#", stripped) || IsPrefix("###", stripped) || Contains(stripped, "热点聚焦")
                       || IsPrefix("---", stripped) || stripped == []) {
        FirstFromSkip(lines, BodyLine, i);
      } else {
        if skipTitle {
          FirstFromHit(lines, BodyLine, i);
          assert body[..0] == [];
        }
        skipTitle := false;
        FilterMapStep(body, i - k, KeptLine, CleanLine);
        assert body[i - k] == lines[i];
        cleaned := KeepCleanLine(lines[i], cleaned);
      }
      i := i + 1;
    }
    if skipTitle {
      assert body == [];
    } else {
      assert body[..|lines| - k] == body;
    }
  }

  /** One pass of the cleaning loop past the title lines: the line is
      cleaned and kept when something is left. */
  method KeepCleanLine(line: string, cleaned: seq<string>) returns (r: seq<string>)
    ensures r == cleaned + (if KeptLine(line) then [CleanLine(line)] else [])
  {
    var c := CleanLine(line);
    r := cleaned;
    if c != [] {
      r := r + [c];
    }
  }

  /** The hotspot cleaning of `save_formatted_report`. */
  method CleanHotspotText(h: string) returns (r: string)
    ensures r == CleanHotspot(h)
  {
    r := h;
    if h != [] {
      var cleaned := CleanHotspotLines(SplitLines(h));
      r := Strip(JoinLines(cleaned));
      r := NormalizeNewlines(r);
    }
  }

  // ---------------------------------------------------------------------------
  // the saved record

  datatype Period = Period(startDate: string, endDate: string, startDateIso: string, endDateIso: string, dateRange: string)

  datatype Metadata = Metadata(
    title: string, reportType: string, period: Period,
    generationTime: string, generationTimeIso: string, agent: string, model: string)

  datatype SavedSection = SavedSection(sectionTitle: string, newsItems: seq<ParsedItem>)

  datatype SavedContent = SavedContent(
    title: string, hotspotFocus: string,
    environmental: SavedSection, social: SavedSection, governance: SavedSection)

  datatype SavedReport = SavedReport(metadata: Metadata, content: SavedContent)

  const EnvironmentTitle: string := "环境（E）动态"
  const SocialTitle: string := "社会（S）动态"
  const GovernanceTitle: string := "公司治理（G）动态"

  /** The title of the record: the one found in the final report, else the
      label with the date range. */
  function SavedTitle(final: string, info: DateInfo): string {
    var t := ExtractTitle(final, info);
    if t == [] then DefaultTitle(info) else t
  }

  function SavedSectionOf(polished: map<string, string>, domain: string, title: string): SavedSection {
    SavedSection(title, ParseSection(Lookup(polished, domain, "")))
  }

  /** `report_data` as `save_formatted_report` builds it. */
  function FormattedReport(final: string, passed: string, polished: map<string, string>, info: DateInfo,
                           agent: string, model: string, now: string, nowIso: string): SavedReport
  {
    var period := Period(info.startDateChinese, info.endDateChinese, info.startDateIso, info.endDateIso, info.dateRangeChinese);
    SavedReport(
      Metadata(ReportLabel(info), ReportType(info), period, now, nowIso, agent, model),
      SavedContent(
        SavedTitle(final, info),
        CleanHotspot(ChooseHotspot(passed, final)),
        SavedSectionOf(polished, "E", EnvironmentTitle),
        SavedSectionOf(polished, "S", SocialTitle),
        SavedSectionOf(polished, "G", GovernanceTitle)))
  }

  /** The title the record carries is the one extracted, which is never
      empty: a title line found in the report names it, and otherwise the
      default title is used, so the source's empty-title fallback never
      fires. */
  lemma SavedTitleIsExtracted(final: string, info: DateInfo)
    ensures SavedTitle(final, info) == ExtractTitle(final, info) && SavedTitle(final, info) != []
  {
    TitleNonEmpty(SplitLines(final), info);
  }

  lemma TitleNonEmpty(lines: seq<string>, info: DateInfo)
    ensures TitleOf(lines, info) != []
  {
    var head := TitleHead(lines);
    var k := FirstFrom(head, TitleLine, 0);
    if k < |head| {
      FoundTitleNamesReport(head[k]);
    } else {
      assert DefaultTitle(info)[|ReportLabel(info)|] == '（';
    }
  }

  /** Every news item of the record is published, and a domain missing
      from the results has no items. */
  lemma SavedItemsPublished(final: string, passed: string, polished: map<string, string>, info: DateInfo,
                            agent: string, model: string, now: string, nowIso: string)
    ensures var c := FormattedReport(final, passed, polished, info, agent, model, now, nowIso).content;
      && (forall k :: 0 <= k < |c.environmental.newsItems| ==> Published(c.environmental.newsItems[k]))
      && (forall k :: 0 <= k < |c.social.newsItems| ==> Published(c.social.newsItems[k]))
      && (forall k :: 0 <= k < |c.governance.newsItems| ==> Published(c.governance.newsItems[k]))
      && ("E" !in polished ==> c.environmental.newsItems == [])
      && ("S" !in polished ==> c.social.newsItems == [])
      && ("G" !in polished ==> c.governance.newsItems == [])
  {
    ParsePublishes(Lookup(polished, "E", ""));
    ParsePublishes(Lookup(polished, "S", ""));
    ParsePublishes(Lookup(polished, "G", ""));
  }

  /** The record as the fillers read it back from the JSON. */
  function AsFillerReport(saved: SavedReport): (r: RM.Report)
    ensures r.hotspotFocus == Some(saved.content.hotspotFocus)
  {
    RM.Report(
      Some(saved.metadata.period.dateRange),
      Some(saved.metadata.generationTime),
      Some(saved.content.hotspotFocus),
      AsFillerSection(saved.content.environmental),
      AsFillerSection(saved.content.social),
      AsFillerSection(saved.content.governance))
  }

  function AsFillerSection(s: SavedSection): (r: RM.Section)
    ensures |r.newsItems| == |s.newsItems|
    ensures forall k :: 0 <= k < |r.newsItems| ==>
      r.newsItems[k] == RM.NewsItem(Some(s.newsItems[k].title), Some(s.newsItems[k].content))
  {
    RM.Section(Some(s.sectionTitle), seq(|s.newsItems|, k requires 0 <= k < |s.newsItems| =>
      RM.NewsItem(Some(s.newsItems[k].title), Some(s.newsItems[k].content))))
  }

  /** What the saver writes survives the Word filler's `clean_text`: the
      hotspot and every news content come back unchanged. */
  lemma SavedValuesStayClean(final: string, passed: string, polished: map<string, string>, info: DateInfo,
                             agent: string, model: string, now: string, nowIso: string)
    ensures var saved := FormattedReport(final, passed, polished, info, agent, model, now, nowIso);
      var r := AsFillerReport(saved);
      && Replacements.CleanText(r.hotspotFocus) == saved.content.hotspotFocus
      && (forall k :: 0 <= k < |r.environmental.newsItems| ==>
            Replacements.CleanText(r.environmental.newsItems[k].content) == saved.content.environmental.newsItems[k].content)
      && (forall k :: 0 <= k < |r.social.newsItems| ==>
            Replacements.CleanText(r.social.newsItems[k].content) == saved.content.social.newsItems[k].content)
      && (forall k :: 0 <= k < |r.governance.newsItems| ==>
            Replacements.CleanText(r.governance.newsItems[k].content) == saved.content.governance.newsItems[k].content)
  {
    var saved := FormattedReport(final, passed, polished, info, agent, model, now, nowIso);
    SavedItemsPublished(final, passed, polished, info, agent, model, now, nowIso);
    StaysClean(saved.content.hotspotFocus);
    SectionStaysClean(saved.content.environmental);
    SectionStaysClean(saved.content.social);
    SectionStaysClean(saved.content.governance);
  }

  lemma SectionStaysClean(s: SavedSection)
    requires forall k :: 0 <= k < |s.newsItems| ==> Published(s.newsItems[k])
    ensures forall k :: 0 <= k < |AsFillerSection(s).newsItems| ==>
      Replacements.CleanText(AsFillerSection(s).newsItems[k].content) == s.newsItems[k].content
  {
    forall k | 0 <= k < |s.newsItems| ensures Replacements.CleanText(Some(s.newsItems[k].content)) == s.newsItems[k].content {
      StaysClean(s.newsItems[k].content);
    }
  }

  /** A normalised text is clean for the filler. */
  lemma StaysClean(v: string)
    requires NoDoubleNewline(v) && Trimmed(v, PySpace)
    ensures Replacements.CleanText(Some(v)) == v
  {
    Replacements.CleanTextKeepsClean(v);
  }

  /** `save_formatted_report`: the path of the JSON and the record written
      there. */
  method SaveFormattedReport(final: string, passed: string, polished: map<string, string>, info: DateInfo,
                             agent: string, model: string, now: string, nowIso: string)
    returns (filename: string, saved: SavedReport)
    ensures filename == JsonPath(info)
    ensures saved == FormattedReport(final, passed, polished, info, agent, model, now, nowIso)
  {
    filename := PathJoin(OutputSubdir(info), OutputDateSuffix(info) + ReportSuffix + ".json");
    var title, found := ExtractTitleAndHotspot(final, info);
    if title == [] {
      title := DefaultTitle(info);
    }
    var chosen := PickHotspot(passed, found);
    var hotspot := CleanHotspotText(chosen);
    var period := Period(info.startDateChinese, info.endDateChinese, info.startDateIso, info.endDateIso, info.dateRangeChinese);
    saved := SavedReport(
      Metadata(ReportLabel(info), ReportType(info), period, now, nowIso, agent, model),
      SavedContent(
        title, hotspot,
        SavedSection(EnvironmentTitle, ParseSection(Lookup(polished, "E", ""))),
        SavedSection(SocialTitle, ParseSection(Lookup(polished, "S", ""))),
        SavedSection(GovernanceTitle, ParseSection(Lookup(polished, "G", "")))));
  }

  /** The hotspot choice of `save_formatted_report`, given what extraction
      from the final report gives. */
  method PickHotspot(passed: string, extracted: Option<string>) returns (chosen: string)
    ensures chosen == ChooseAmong(passed, extracted)
  {
    var stripped := Strip(passed);
    chosen := if |stripped| > HotspotMin then stripped else "";
    if chosen == [] {
      chosen := if extracted.Some? then extracted.value else "";
    }
    if chosen == [] || |chosen| < HotspotMin {
      chosen := passed;
    }
  }
}
