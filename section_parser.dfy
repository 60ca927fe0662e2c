/** `parse_section_content` of report/report_formatter.py: splitting one
    domain section of the report text into news items, each a title and the
    paragraphs that follow it, with the "source" lines moved to the end of
    each item.

    The section is cut into paragraphs at every newline, so a paragraph is
    one line: the branches of the source for a paragraph of several lines
    never run (ParagraphShape proves that a paragraph splits into itself).
    A title that Python holds as `None` is the empty title here: the source
    only asks whether the title is truthy, and an empty title is not. */
module SectionParser {
  import opened Wrappers
  import opened Text
  import opened Lists
  import opened ReportFormatter

  /** One `{"title": …, "content": …}` entry of the parsed section. */
  datatype ParsedItem = ParsedItem(title: string, content: string)

  /** The loop's variables: the current title, the paragraphs collected
      under it, a source line held back for later, and the items so far. */
  datatype ParseState = ParseState(title: string, parts: seq<string>, pending: Option<string>, items: seq<ParsedItem>)

  const SectionMarks: seq<string> := ["# 环境", "# 社会", "# 治理", "环境（E）", "社会（S）", "治理（G）", "公司治理（G）"]
  const HeadingWords: seq<string> := ["动态", "章节"]
  const DomainWords: seq<string> := ["环境", "社会", "治理"]
  const ContentOpeners: seq<string> := [
    "在", "根据", "该", "这", "其", "文件", "此次", "此事", "从", "Sources", "资料来源",
    "[资料来源]", "工业和信息化部", "美国", "晶科", "中国天楹"]
  const TitleMarks: seq<string> := ["环境（E）", "社会（S）", "治理（G）", "公司治理"]

  /** `any(kw in s for kw in kws)` */
  predicate AnyIn(kws: seq<string>, s: string) {
    exists k :: 0 <= k < |kws| && Contains(s, kws[k])
  }

  /** `s.startswith(tuple(ps))` */
  predicate AnyPrefix(ps: seq<string>, s: string) {
    exists k :: 0 <= k < |ps| && IsPrefix(ps[k], s)
  }

  // ---------------------------------------------------------------------------
  // paragraphs

  predicate NonBlank(line: string) {
    Strip(line) != []
  }

  /** `[p.strip() for p in text.split('\n') if p.strip()]` */
  function Paragraphs(text: string): seq<string> {
    FilterMap(SplitLines(text), NonBlank, Strip)
  }

  /** A paragraph is a non-empty stripped line, and cutting it into
      paragraphs again gives just itself: the `para_lines` of the source
      always hold the paragraph alone. */
  lemma ParagraphShape(text: string, k: nat)
    requires k < |Paragraphs(text)|
    ensures var p := Paragraphs(text)[k];
      && p != [] && '\n' !in p && Trimmed(p, PySpace)
      && Paragraphs(p) == [p]
  {
    var lines := SplitLines(text);
    var p := Paragraphs(text)[k];
    var i := FilterMapImage(lines, NonBlank, Strip, p);
    SplitLinesNoNewline(text);
    StripKeepsOut(lines[i], '\n');
    TrimTrimmed(lines[i], PySpace);
    SplitLinesSingle(p);
    TrimOfTrimmed(p, PySpace);
    assert [p][..0] == [] && NonBlank(p);
    assert FilterMap([p], NonBlank, Strip) == FilterMap([p][..0], NonBlank, Strip) + [Strip(p)];
  }

  /** Stripping a text without `x` leaves none. */
  lemma StripKeepsOut(s: string, x: char)
    requires x !in s
    ensures x !in Strip(s)
  {
    var i := TrimSpec(s, PySpace);
    SliceKeepsOut(s, x, i, i + |Strip(s)|);
  }

  lemma SliceKeepsOut(s: string, x: char, i: nat, j: nat)
    requires i <= j <= |s| && x !in s
    ensures x !in s[i..j]
  {
    forall k | 0 <= k < j - i ensures s[i..j][k] != x {
      assert s[i..j][k] == s[i + k];
    }
  }

  /** A text that starts with a non-space keeps something when stripped. */
  lemma StripNonEmpty(s: string)
    requires s != [] && s[0] !in PySpace
    ensures Strip(s) != []
  {
    assert TrimLeft(s, PySpace) == s;
  }

  // ---------------------------------------------------------------------------
  // one paragraph

  /** A section heading such as `### 环境（E）动态` or `# 投研周报：环境`, which
      the loop skips. */
  predicate IsHeading(p: string) {
    SectionHeading(p) || ReportHeading(p)
  }

  /** A line naming a section together with `动态` or `章节`. */
  predicate SectionHeading(p: string) {
    AnyIn(SectionMarks, p) && AnyIn(HeadingWords, p)
  }

  /** A Markdown heading of the weekly report naming a domain. */
  predicate ReportHeading(p: string) {
    IsPrefix("#", p) && (Contains(p, "投研周报") || Contains(p, "周报")) && AnyIn(DomainWords, p)
  }

  /** `re.sub(r'^#+\s*', '', s)` */
  function DropHashes(s: string): (r: string)
    ensures IsSuffix(r, s)
  {
    if IsPrefix("#", s) then TrimLeft(TrimLeft(s, {'#'}), PySpace) else s
  }

  /** The paragraph without its heading marks and emphasis: no `*` is left
      and it is stripped. */
  function CleanFirst(p: string): (r: string)
    ensures '*' !in r && Trimmed(r, PySpace)
  {
    var unstarred := ReplaceAll(ReplaceAll(DropHashes(p), "**", ""), "*", "");
    ReplaceCharRemoves(ReplaceAll(DropHashes(p), "**", ""), '*', "");
    StripKeepsOut(unstarred, '*');
    TrimTrimmed(unstarred, PySpace);
    Strip(unstarred)
  }

  /** A short line that does not end like a sentence and does not open like
      body text. */
  predicate IsPlainTitle(c: string) {
    && |c| < 100
    && !IsSuffix("。", c) && !IsSuffix(".", c)
    && !AnyPrefix(ContentOpeners, c)
  }

  /** The paragraph opens a new item. */
  predicate StartsItem(p: string) {
    (IsPrefix("#", p) || IsPlainTitle(CleanFirst(p))) && |CleanFirst(p)| > 5
  }

  /** Where a long first paragraph is cut into a title: at the first `。`,
      else at the first `，`, unless that is missing or before 20; then at 60. */
  function TitleEnd(c: string): (r: nat)
    requires |c| > 80
    ensures 20 <= r < |c|
    ensures r == 60 || c[r] == '。' || c[r] == '，'
  {
    var stop := IndexOf(c, "。");
    var k := if stop == -1 then IndexOf(c, "，") else stop;
    if k == -1 || k < 20 then 60
    else
      assert IsPrefix(c[k..k + 1], c[k..]);
      k
  }

  /** The last part collected under the title is a source line. */
  predicate EndsWithSource(parts: seq<string>) {
    parts != [] && IsSourceLine(parts[|parts| - 1])
  }

  predicate NotSourceLine(line: string) {
    !IsSourceLine(line)
  }

  function Same(line: string): string {
    line
  }

  /** `lines[-3:]` */
  function LastThree(lines: seq<string>): (r: seq<string>)
    ensures |r| == if |lines| < 3 then |lines| else 3
  {
    if |lines| <= 3 then lines else lines[|lines| - 3..]
  }

  /** The last three lines of the content read as a source. */
  predicate SourceAtEnd(content: string) {
    IsSourceLine(JoinLines(LastThree(SplitLines(content))))
  }

  /** The content with its source lines taken out and the extracted sources
      `e` put after it; nothing when only source lines were there. */
  function MoveSources(content: string, e: string): string {
    var clean := Strip(JoinLines(FilterMap(SplitLines(content), NotSourceLine, Same)));
    if clean == [] then "" else clean + "\n" + e
  }

  /** The content of the item being closed, and whether the held-back source
      line went into it. A content whose last three lines already read as a
      source keeps as it is; otherwise the source lines in it move to its
      end, or, when there are none, the held-back source line is appended. */
  function ItemContent(parts: seq<string>, pending: Option<string>): (string, bool) {
    var content := Strip(JoinLines(parts));
    if content == [] || SourceAtEnd(content) then (content, false)
    else match ExtractSources(content)
      case Some(e) => (MoveSources(content, e), false)
      case None =>
        if pending.Some? then (content + "\n" + pending.value, true) else (content, false)
  }

  /** Closing the current item when there is a title with something under
      it: an item with a non-empty content is added. */
  function Flush(st: ParseState): (r: ParseState)
    ensures r.title == st.title && r.parts == st.parts
  {
    if st.title == [] || st.parts == [] then st
    else
      var content := ItemContent(st.parts, st.pending);
      st.(items := if content.0 == [] then st.items else st.items + [ParsedItem(st.title, content.0)],
          pending := if content.1 then None else st.pending)
  }

  /** A paragraph that is a source line once cleaned: it joins the item
      unless the item already ends with one, or is held back when there is
      no title yet. */
  function SourceStep(st: ParseState, p: string): ParseState {
    if st.title == [] then st.(pending := Some(p))
    else if EndsWithSource(st.parts) then st
    else st.(parts := st.parts + [p])
  }

  /** A body paragraph under a title. */
  function ContentStep(st: ParseState, p: string): ParseState {
    if !IsSourceLine(p) then st.(parts := st.parts + [p])
    else if st.parts == [] then st.(pending := Some(p))
    else if EndsWithSource(st.parts) then st
    else st.(parts := st.parts + [p])
  }

  /** A body paragraph before any title: a long one is cut into a title and
      the rest, a short one becomes the title. */
  function LeadStep(st: ParseState, c: string): ParseState {
    if |c| > 80 then
      var cut := TitleEnd(c);
      var rest := Strip(c[cut..]);
      st.(title := Strip(c[..cut]), parts := if IsSourceLine(rest) then st.parts else st.parts + [rest])
    else st.(title := c)
  }

  /** What one paragraph does to the loop's variables. */
  function Step(st: ParseState, p: string): ParseState {
    var c := CleanFirst(p);
    if IsHeading(p) then st
    else if IsSourceLine(c) then SourceStep(st, p)
    else if StartsItem(p) then Flush(st).(title := c, parts := [])
    else if st.title != [] then ContentStep(st, p)
    else LeadStep(st, c)
  }

  // The branches of `Step`, one lemma each.

  lemma StepHeading(st: ParseState, p: string)
    requires IsHeading(p)
    ensures Step(st, p) == st
  {
  }

  lemma StepSource(st: ParseState, p: string)
    requires !IsHeading(p) && IsSourceLine(CleanFirst(p))
    ensures Step(st, p) == SourceStep(st, p)
  {
  }

  lemma StepTitle(st: ParseState, p: string)
    requires !IsHeading(p) && !IsSourceLine(CleanFirst(p)) && StartsItem(p)
    ensures Step(st, p) == Flush(st).(title := CleanFirst(p), parts := [])
  {
  }

  lemma StepContent(st: ParseState, p: string)
    requires !IsHeading(p) && !IsSourceLine(CleanFirst(p)) && !StartsItem(p) && st.title != []
    ensures Step(st, p) == ContentStep(st, p)
  {
  }

  lemma StepLead(st: ParseState, p: string)
    requires !IsHeading(p) && !IsSourceLine(CleanFirst(p)) && !StartsItem(p) && st.title == []
    ensures Step(st, p) == LeadStep(st, CleanFirst(p))
  {
  }

  /** The loop over the paragraphs. */
  function Run(paras: seq<string>): ParseState
    decreases |paras|
  {
    if paras == [] then ParseState("", [], None, [])
    else Step(Run(paras[..|paras| - 1]), paras[|paras| - 1])
  }

  lemma RunStep(paras: seq<string>, i: nat)
    requires i < |paras|
    ensures Run(paras[..i + 1]) == Step(Run(paras[..i]), paras[i])
  {
    var pre := paras[..i + 1];
    assert pre[..|pre| - 1] == paras[..i] && pre[|pre| - 1] == paras[i];
  }

  // ---------------------------------------------------------------------------
  // what the loop keeps true

  /** A collected item has a stripped title without `*` and some content. */
  predicate ItemShaped(item: ParsedItem) {
    item.title != [] && '*' !in item.title && Trimmed(item.title, PySpace) && item.content != []
  }

  predicate ItemsShaped(items: seq<ParsedItem>) {
    forall k :: 0 <= k < |items| ==> ItemShaped(items[k])
  }

  /** Paragraphs are only collected under a title, the title carries no
      emphasis marks and no outer spaces, and every item closed so far has a
      title and a content. */
  predicate Inv(st: ParseState) {
    && (st.title == [] ==> st.parts == [])
    && '*' !in st.title && Trimmed(st.title, PySpace)
    && ItemsShaped(st.items)
  }

  lemma FlushKeeps(st: ParseState)
    requires Inv(st)
    ensures Inv(Flush(st))
  {
  }

  lemma SourceStepKeeps(st: ParseState, p: string)
    requires Inv(st)
    ensures Inv(SourceStep(st, p))
  {
  }

  lemma ContentStepKeeps(st: ParseState, p: string)
    requires Inv(st) && st.title != []
    ensures Inv(ContentStep(st, p))
  {
  }

  /** A title cut from a long lead paragraph is not empty, so the rest of
      the paragraph is collected under a title. */
  lemma LeadStepKeeps(st: ParseState, c: string)
    requires Inv(st) && st.title == [] && '*' !in c && Trimmed(c, PySpace)
    ensures Inv(LeadStep(st, c))
  {
    if |c| > 80 {
      var cut := TitleEnd(c);
      var head := c[..cut];
      SliceKeepsOut(c, '*', 0, cut);
      StripKeepsOut(head, '*');
      TrimTrimmed(head, PySpace);
      StripNonEmpty(head);
    }
  }

  lemma StepKeeps(st: ParseState, p: string)
    requires Inv(st)
    ensures Inv(Step(st, p))
  {
    if IsHeading(p) {
      StepHeading(st, p);
    } else if IsSourceLine(CleanFirst(p)) {
      StepSource(st, p);
      SourceStepKeeps(st, p);
    } else if StartsItem(p) {
      StepTitle(st, p);
      FlushKeeps(st);
    } else if st.title != [] {
      StepContent(st, p);
      ContentStepKeeps(st, p);
    } else {
      StepLead(st, p);
      LeadStepKeeps(st, CleanFirst(p));
    }
  }

  lemma {:induction false} RunKeeps(paras: seq<string>)
    ensures Inv(Run(paras))
    decreases |paras|
  {
    if paras != [] {
      RunKeeps(paras[..|paras| - 1]);
      StepKeeps(Run(paras[..|paras| - 1]), paras[|paras| - 1]);
    }
  }

  // ---------------------------------------------------------------------------
  // the final filter

  /** The filter's test: a title of at least five characters that differs
      from the content, is no heading and names no domain, over a content of
      at least twenty characters. */
  predicate ItemKept(item: ParsedItem) {
    var title := Strip(item.title);
    var content := Strip(item.content);
    !(|title| < 5 || title == content || IsPrefix("#", title) || AnyIn(TitleMarks, title) || |content| < 20)
  }

  /** The sources an item ends with: its source lines formatted, each once;
      when it has none, what `extract_source_from_text` finds. */
  function SourcesOf(content: string): seq<string> {
    var formatted := Dedup(FormattedSources(SplitLines(content)));
    if formatted != [] then formatted
    else match ExtractSources(content) case Some(e) => [e] case None => []
  }

  /** The cleaned content followed by the sources; the content itself when
      there is nothing else to show. */
  function Arranged(clean: string, sources: seq<string>, content: string): string {
    if sources != [] then (if clean != [] then clean + "\n" + JoinLines(sources) else JoinLines(sources))
    else if clean != [] then clean else content
  }

  /** A kept item with its source lines formatted, without repeats, and
      placed after the rest of the content, and its newlines normalised. */
  function CleanItem(item: ParsedItem): ParsedItem {
    var content := Strip(item.content);
    var clean := Strip(JoinLines(FilterMap(SplitLines(content), NotSourceKept, Same)));
    ParsedItem(Strip(item.title), NormalizeNewlines(Arranged(clean, SourcesOf(content), content)))
  }

  predicate NotSourceKept(line: string) {
    !SourceKept(line)
  }

  function FilterItems(items: seq<ParsedItem>): seq<ParsedItem> {
    FilterMap(items, ItemKept, CleanItem)
  }

  /** What a published item looks like. */
  predicate Published(item: ParsedItem) {
    && |item.title| >= 5 && Trimmed(item.title, PySpace) && '*' !in item.title
    && !IsPrefix("#", item.title) && !AnyIn(TitleMarks, item.title)
    && NoDoubleNewline(item.content) && Trimmed(item.content, PySpace)
  }

  /** Every item the filter lets through is published, and each is the
      cleaned form of a kept item, in order. */
  lemma FilterPublishes(items: seq<ParsedItem>, k: nat)
    requires ItemsShaped(items) && k < |FilterItems(items)|
    ensures Published(FilterItems(items)[k])
  {
    var y := FilterItems(items)[k];
    var i := FilterMapImage(items, ItemKept, CleanItem, y);
    TrimOfTrimmed(items[i].title, PySpace);
  }

  /** When no line of the content is a source line, `extract_source_from_text`
      finds none either: the fallback of the filter never adds anything, and
      the sources placed at the end are exactly the extracted ones. */
  lemma SourcesAreExtracted(content: string)
    ensures var formatted := Dedup(FormattedSources(SplitLines(content)));
      && (formatted == [] <==> ExtractSources(content).None?)
      && (formatted != [] ==> ExtractSources(content) == Some(JoinLines(formatted)))
  {
    FilterMapEmpty(SplitLines(content), SourceKept, SourceFormat);
  }

  /** `parse_section_content` */
  function ParseSection(text: string): seq<ParsedItem> {
    if Strip(text) == [] then []
    else
      var paras := Paragraphs(text);
      if paras == [] then [] else FilterItems(Flush(Run(paras)).items)
  }

  /** A blank section has no items, and every item of a section is
      published. */
  lemma ParsePublishes(text: string)
    ensures Strip(text) == [] ==> ParseSection(text) == []
    ensures forall k :: 0 <= k < |ParseSection(text)| ==> Published(ParseSection(text)[k])
  {
    var paras := Paragraphs(text);
    if Strip(text) != [] && paras != [] {
      RunKeeps(paras);
      FlushKeeps(Run(paras));
      var items := Flush(Run(paras)).items;
      forall k | 0 <= k < |FilterItems(items)| ensures Published(FilterItems(items)[k]) {
        FilterPublishes(items, k);
      }
    }
  }

  // ---------------------------------------------------------------------------
  // the loops

  /** The lines of `content` that are not source lines, as they are. */
  method KeepNonSourceLines(contentLines: seq<string>) returns (cleanLines: seq<string>)
    ensures cleanLines == FilterMap(contentLines, NotSourceLine, Same)
  {
    cleanLines := [];
    for j := 0 to |contentLines|
      invariant cleanLines == FilterMap(contentLines[..j], NotSourceLine, Same)
    {
      FilterMapStep(contentLines, j, NotSourceLine, Same);
      if !IsSourceLine(contentLines[j]) {
        cleanLines := cleanLines + [contentLines[j]];
      }
    }
    assert contentLines[..|contentLines|] == contentLines;
  }

  /** Closing the current item, as the loop does when a new title comes and
      once more after the last paragraph. */
  method FinishNews(title: string, parts: seq<string>, pending: Option<string>, news: seq<ParsedItem>)
    returns (news': seq<ParsedItem>, pending': Option<string>)
    requires title != [] && parts != []
    ensures ParseState(title, parts, pending', news') == Flush(ParseState(title, parts, pending, news))
  {
    var content, used := CloseContent(parts, pending);
    news' := if content != [] then news + [ParsedItem(title, content)] else news;
    pending' := if used then None else pending;
  }

  /** The content of the item being closed, and whether the held-back
      source went into it. */
  method CloseContent(parts: seq<string>, pending: Option<string>) returns (content: string, used: bool)
    ensures (content, used) == ItemContent(parts, pending)
  {
    used := false;
    content := Strip(JoinLines(parts));
    if content != [] {
      var contentLines := SplitLines(content);
      var hasSourceAtEnd := false;
      if |contentLines| >= 1 {
        var lastFewLines := JoinLines(LastThree(contentLines));
        if IsSourceLine(lastFewLines) {
          hasSourceAtEnd := true;
        }
      }
      if !hasSourceAtEnd {
        content, used := AddSources(parts, pending, content);
        return;
      }
    }
    ContentKept(parts, pending);
  }

  /** Closing a content whose end is no source: its own source lines are
      moved last, or the held-back one is added. */
  method AddSources(ghost parts: seq<string>, pending: Option<string>, content: string) returns (content': string, used: bool)
    requires content == Strip(JoinLines(parts)) && content != [] && !SourceAtEnd(content)
    ensures (content', used) == ItemContent(parts, pending)
  {
    content', used := content, false;
    var extracted := ExtractSourceFromText(content);
    match extracted {
      case Some(e) =>
        var cleanLines := KeepNonSourceLines(SplitLines(content));
        var clean := Strip(JoinLines(cleanLines));
        content' := if clean != [] then clean + "\n" + e else clean;
        ContentMoved(parts, pending, e);
      case None =>
        if pending.Some? {
          content' := content + "\n" + pending.value;
          used := true;
        }
        ContentPending(parts, pending);
    }
  }

  lemma ContentKept(parts: seq<string>, pending: Option<string>)
    requires var content := Strip(JoinLines(parts)); content == [] || SourceAtEnd(content)
    ensures ItemContent(parts, pending) == (Strip(JoinLines(parts)), false)
  {
  }

  lemma ContentMoved(parts: seq<string>, pending: Option<string>, e: string)
    requires var content := Strip(JoinLines(parts));
      content != [] && !SourceAtEnd(content) && ExtractSources(content) == Some(e)
    ensures ItemContent(parts, pending) == (MoveSources(Strip(JoinLines(parts)), e), false)
  {
  }

  lemma ContentPending(parts: seq<string>, pending: Option<string>)
    requires var content := Strip(JoinLines(parts));
      content != [] && !SourceAtEnd(content) && ExtractSources(content) == None
    ensures var content := Strip(JoinLines(parts));
      ItemContent(parts, pending) == if pending.Some? then (content + "\n" + pending.value, true) else (content, false)
  {
  }

  /** The body of the loop over the paragraphs. */
  method ParagraphStep(title: string, parts: seq<string>, pending: Option<string>, news: seq<ParsedItem>, para: string)
    returns (title': string, parts': seq<string>, pending': Option<string>, news': seq<ParsedItem>)
    ensures ParseState(title', parts', pending', news') == Step(ParseState(title, parts, pending, news), para)
  {
    ghost var st := ParseState(title, parts, pending, news);
    title', parts', pending', news' := title, parts, pending, news;
    if SectionHeading(para) {
      StepHeading(st, para);
      return;
    }
    if ReportHeading(para) {
      StepHeading(st, para);
      return;
    }
    var cleanFirst := CleanFirst(para);
    if IsSourceLine(cleanFirst) {
      StepSource(st, para);
      parts', pending' := SourceParagraph(title, parts, pending, news, para);
      return;
    }
    var isMarkdownTitle := IsPrefix("#", para);
    var isPlainTitle := IsPlainTitle(cleanFirst);
    if (isMarkdownTitle || isPlainTitle) && |cleanFirst| > 5 {
      StepTitle(st, para);
      if title != [] && parts != [] {
        news', pending' := FinishNews(title, parts, pending, news);
      }
      title' := cleanFirst;
      parts' := [];
    } else if title != [] {
      StepContent(st, para);
      parts', pending' := ContentParagraph(title, parts, pending, news, para);
    } else {
      StepLead(st, para);
      title', parts' := LeadParagraph(title, parts, pending, news, cleanFirst);
    }
  }

  /** A paragraph that is a source line once cleaned. */
  method SourceParagraph(title: string, parts: seq<string>, pending: Option<string>, ghost news: seq<ParsedItem>, para: string)
    returns (parts': seq<string>, pending': Option<string>)
    ensures ParseState(title, parts', pending', news) == SourceStep(ParseState(title, parts, pending, news), para)
  {
    parts', pending' := parts, pending;
    if title != [] {
      if parts != [] {
        if !IsSourceLine(parts[|parts| - 1]) {
          parts' := parts + [para];
        }
      } else {
        parts' := parts + [para];
      }
    } else {
      pending' := Some(para);
    }
  }

  /** A body paragraph under a title. */
  method ContentParagraph(ghost title: string, parts: seq<string>, pending: Option<string>, ghost news: seq<ParsedItem>, para: string)
    returns (parts': seq<string>, pending': Option<string>)
    ensures ParseState(title, parts', pending', news) == ContentStep(ParseState(title, parts, pending, news), para)
  {
    parts', pending' := parts, pending;
    if IsSourceLine(para) {
      if parts == [] {
        pending' := Some(para);
      } else if !IsSourceLine(parts[|parts| - 1]) {
        parts' := parts + [para];
      }
    } else {
      parts' := parts + [para];
    }
  }

  /** A body paragraph before any title. */
  method LeadParagraph(ghost title: string, parts: seq<string>, ghost pending: Option<string>, ghost news: seq<ParsedItem>, cleanFirst: string)
    returns (title': string, parts': seq<string>)
    ensures ParseState(title', parts', pending, news) == LeadStep(ParseState(title, parts, pending, news), cleanFirst)
  {
    title', parts' := cleanFirst, parts;
    if |cleanFirst| > 80 {
      var titleEnd := IndexOf(cleanFirst, "。");
      if titleEnd == -1 {
        titleEnd := IndexOf(cleanFirst, "，");
      }
      if titleEnd == -1 || titleEnd < 20 {
        titleEnd := if |cleanFirst| < 60 then |cleanFirst| else 60;
      }
      title' := Strip(cleanFirst[..titleEnd]);
      if |cleanFirst| > titleEnd {
        var remaining := Strip(cleanFirst[titleEnd..]);
        if !IsSourceLine(remaining) {
          parts' := parts + [remaining];
        }
      }
    }
  }

  /** The lines of a content sorted into the other lines, as they are, and
      the source lines, stripped. */
  method SortLines(contentLines: seq<string>) returns (cleanLines: seq<string>, sourceLines: seq<string>)
    ensures cleanLines == FilterMap(contentLines, NotSourceKept, Same)
    ensures sourceLines == FilterMap(contentLines, SourceKept, Strip)
  {
    cleanLines, sourceLines := [], [];
    for j := 0 to |contentLines|
      invariant cleanLines == FilterMap(contentLines[..j], NotSourceKept, Same)
      invariant sourceLines == FilterMap(contentLines[..j], SourceKept, Strip)
    {
      FilterMapStep(contentLines, j, NotSourceKept, Same);
      FilterMapStep(contentLines, j, SourceKept, Strip);
      var lineStripped := Strip(contentLines[j]);
      if IsSourceLine(lineStripped) {
        sourceLines := sourceLines + [lineStripped];
      } else {
        cleanLines := cleanLines + [contentLines[j]];
      }
    }
    assert contentLines[..|contentLines|] == contentLines;
  }

  predicate Always(s: string) {
    true
  }

  /** The stripped source lines of a content formatted, each result once. */
  method FormatDistinct(ghost contentLines: seq<string>, sourceLines: seq<string>) returns (formattedSources: seq<string>)
    requires sourceLines == FilterMap(contentLines, SourceKept, Strip)
    ensures formattedSources == Dedup(FormattedSources(contentLines))
  {
    formattedSources := [];
    for j := 0 to |sourceLines|
      invariant formattedSources == Dedup(FilterMap(sourceLines[..j], Always, FormatSourceLine))
    {
      FilterMapDedupStep(sourceLines, j, Always, FormatSourceLine);
      var formatted := FormatSourceLine(sourceLines[j]);
      if formatted != [] && formatted !in formattedSources {
        formattedSources := formattedSources + [formatted];
      }
    }
    assert sourceLines[..|sourceLines|] == sourceLines;
    FilterMapTwice(contentLines, SourceKept, Strip, Always, FormatSourceLine, SourceFormat);
  }

  /** One kept item made ready for publishing: its lines sorted into content
      and sources, the sources formatted once each and put last. */
  method CleanNewsItem(item: ParsedItem) returns (r: ParsedItem)
    requires ItemKept(item)
    ensures r == CleanItem(item)
  {
    var title := Strip(item.title);
    var content := Strip(item.content);
    var contentLines := SplitLines(content);
    var cleanLines, sourceLines := SortLines(contentLines);
    var cleanContent := Strip(JoinLines(cleanLines));
    var formattedSources := FormatDistinct(contentLines, sourceLines);
    if formattedSources == [] {
      var extracted := ExtractSourceFromText(content);
      match extracted {
        case Some(e) => formattedSources := formattedSources + [e];
        case None =>
      }
    }
    var finalContent: string;
    if formattedSources != [] {
      var sourceText := JoinLines(formattedSources);
      finalContent := if cleanContent != [] then cleanContent + "\n" + sourceText else sourceText;
    } else {
      finalContent := if cleanContent != [] then cleanContent else content;
    }
    finalContent := NormalizeNewlines(finalContent);
    r := ParsedItem(title, finalContent);
  }

  /** The filter loop at the end of `parse_section_content`. */
  method FilterNewsItems(news: seq<ParsedItem>) returns (filtered: seq<ParsedItem>)
    ensures filtered == FilterItems(news)
  {
    filtered := [];
    for i := 0 to |news|
      invariant filtered == FilterMap(news[..i], ItemKept, CleanItem)
    {
      FilterMapStep(news, i, ItemKept, CleanItem);
      var title := Strip(news[i].title);
      var content := Strip(news[i].content);
      if |title| < 5 || title == content || IsPrefix("#", title) || AnyIn(TitleMarks, title) || |content| < 20 {
        continue;
      }
      var cleaned := CleanNewsItem(news[i]);
      filtered := filtered + [cleaned];
    }
    assert news[..|news|] == news;
  }

  /** The loop over the paragraphs. */
  method ParseParagraphs(paragraphs: seq<string>) returns (st: ParseState)
    ensures st == Run(paragraphs)
  {
    var title := "";
    var parts: seq<string> := [];
    var pending: Option<string> := None;
    var news: seq<ParsedItem> := [];
    for i := 0 to |paragraphs|
      invariant ParseState(title, parts, pending, news) == Run(paragraphs[..i])
    {
      RunStep(paragraphs, i);
      title, parts, pending, news := ParagraphStep(title, parts, pending, news, paragraphs[i]);
    }
    assert paragraphs[..|paragraphs|] == paragraphs;
    st := ParseState(title, parts, pending, news);
  }

  /** `parse_section_content`: the paragraph loop, the last item closed, and
      the filter. */
  method ParseSectionContent(sectionText: string) returns (items: seq<ParsedItem>)
    ensures items == ParseSection(sectionText)
  {
    if sectionText == [] || Strip(sectionText) == [] {
      return [];
    }
    var paragraphs := Paragraphs(sectionText);
    if paragraphs == [] {
      return [];
    }
    var st := ParseParagraphs(paragraphs);
    var news := st.items;
    if st.title != [] && st.parts != [] {
      var pendingLeft;
      news, pendingLeft := FinishNews(st.title, st.parts, st.pending, news);
    }
    items := FilterNewsItems(news);
  }
}
