/** The replacement maps: `build_replacements` (word/word_filler.py:145-194,
    and its copy in fill/word_filler.py:144-179 that sends news content
    through `_normalize_news_content_for_output`, fill/word_filler.py:122-141)
    and `_build_ppt_replacements` (fill/ppt_filler.py:21-27). A Python dict
    filled by assignment is modelled as the sequence of its entries in
    insertion order; `ReplacementKeysDistinct` shows no key is assigned
    twice, so the sequence is exactly the dict. */
module Replacements {
  import opened Wrappers
  import opened Text
  import opened ReportModel

  type Entry = (string, string)

  /** How news content is cleaned: `clean_text` as in word/word_filler.py, or
      the source-aware normaliser of fill/word_filler.py. */
  datatype ContentRule = CleanContent | NormalizeContent

  const DateRangeKey: string := "日期范围"
  const HotspotKey: string := "热点聚焦"
  const ReportDateKey: string := "报告日期"
  const SourceMarker: string := "资料来源"

  /** The section names in the order of the `sections` dict. */
  const SectionNames: seq<string> := ["环境", "社会", "治理"]

  function Sections(report: Report): (r: seq<Section>)
    ensures |r| == |SectionNames|
  {
    [report.environmental, report.social, report.governance]
  }

  function SectionTitleKey(cn: string): string { cn + "章节标题" }
  function NewsTitleKey(cn: string, i: nat): string { cn + "新闻标题" + NatToString(i) }
  function NewsContentKey(cn: string, i: nat): string { cn + "新闻内容" + NatToString(i) }

  /** The set of keys of a dict given by its entries. */
  function Keys(entries: seq<Entry>): set<string> {
    set e | e in entries :: e.0
  }

  /** No key appears twice. */
  predicate DistinctKeys(entries: seq<Entry>) {
    forall i, j :: 0 <= i < j < |entries| ==> entries[i].0 != entries[j].0
  }

  /** A value as the Word template wants it: no `\n\r \t` at either end and
      no two newlines in a row. */
  predicate Clean(v: string) {
    Trimmed(v, Blank) && NoDoubleNewline(v)
  }

  // ---------------------------------------------------------------------------
  // Cleaning values

  /** `clean_text`: "" for a missing or empty value, else stripped of
      `\n\r \t` with newline runs collapsed (the empty string needs no
      branch of its own: stripping and collapsing it gives ""). */
  function CleanText(t: Option<string>): (r: string)
    ensures t.None? || t == Some("") ==> r == ""
  {
    match t
    case None => ""
    case Some(s) => CollapseNewlines(StripBlank(s))
  }

  /** Every cleaned value is clean. */
  lemma CleanTextIsClean(t: Option<string>)
    ensures Clean(CleanText(t))
  {
    if t.Some? {
      TrimTrimmed(t.value, Blank);
    }
  }

  /** Cleaning is a projection: clean text is its own cleaning. */
  lemma CleanTextKeepsClean(v: string)
    requires Clean(v)
    ensures CleanText(Some(v)) == v
  {
    TrimOfTrimmed(v, Blank);
    CollapseWithoutRuns(v);
  }

  lemma CleanTextIdempotent(t: Option<string>)
    ensures CleanText(Some(CleanText(t))) == CleanText(t)
  {
    CleanTextIsClean(t);
    CleanTextKeepsClean(CleanText(t));
  }

  /** `_normalize_news_content_for_output`. The import of
      `normalize_source_block` it tries first names a function the report
      formatter does not define, so its `except` branch always runs and the
      text is used as it is. */
  function NormalizeNewsContent(t: Option<string>): (r: string)
    ensures t.None? || t == Some("") ==> r == ""
  {
    match t
    case None => ""
    case Some(s) =>
      var u := StripBlank(s);
      var idx := IndexOf(u, SourceMarker);
      if idx == -1 then CollapseNewlines(u)
      else CollapseNewlines(Strip(u[..idx])) + "\n\n" + u[idx..]
  }

  /** Without a 资料来源 marker the normaliser is `clean_text`. */
  lemma NormalizeWithoutSource(s: string)
    requires !Contains(StripBlank(s), SourceMarker)
    ensures NormalizeNewsContent(Some(s)) == CleanText(Some(s))
    ensures Clean(NormalizeNewsContent(Some(s)))
  {
    CleanTextIsClean(Some(s));
  }

  /** With a marker, the text before its first occurrence is stripped and
      collapsed, then comes exactly one empty line, then the rest of the
      stripped text from the marker on, verbatim. */
  lemma NormalizeWithSource(s: string) returns (before: string, after: string)
    requires Contains(StripBlank(s), SourceMarker)
    ensures NormalizeNewsContent(Some(s)) == before + "\n\n" + after
    ensures Trimmed(before, PySpace) && NoDoubleNewline(before)
    ensures IsPrefix(SourceMarker, after) && IsSuffix(after, StripBlank(s))
    ensures !Contains(StripBlank(s)[..|StripBlank(s)| - |after|], SourceMarker)
  {
    var u := StripBlank(s);
    var idx := IndexOf(u, SourceMarker);
    assert 0 <= idx <= |u|;
    TrimTrimmed(u[..idx], PySpace);
    before := CollapseNewlines(Strip(u[..idx]));
    after := u[idx..];
    assert |u| - |after| == idx;
    NotBeforeFirst(u, idx, SourceMarker);
  }

  function ContentValue(rule: ContentRule, t: Option<string>): string {
    match rule
    case CleanContent => CleanText(t)
    case NormalizeContent => NormalizeNewsContent(t)
  }

  // ---------------------------------------------------------------------------
  // The map

  function Min(a: nat, b: nat): nat { if a <= b then a else b }

  /** How many news placeholders a section fills: `min(actual_count, max)`. */
  function NewsCount(sec: Section, maxNews: nat): (n: nat)
    ensures n <= |sec.newsItems| && n <= maxNews
    ensures n == |sec.newsItems| || n == maxNews
  {
    Min(|sec.newsItems|, maxNews)
  }

  /** The values one news item contributes: its title and its content, as
      cleaned for the template. */
  function NewsValue(rule: ContentRule, item: NewsItem): (string, string) {
    (CleanText(item.title), ContentValue(rule, item.content))
  }

  /** The values of each news item, in order. */
  function NewsValues(items: seq<NewsItem>, rule: ContentRule): (r: seq<(string, string)>)
    ensures |r| == |items|
  {
    if items == [] then [] else [NewsValue(rule, items[0])] + NewsValues(items[1..], rule)
  }

  lemma {:induction false} NewsValuesAt(items: seq<NewsItem>, rule: ContentRule, j: nat)
    requires j < |items|
    ensures NewsValues(items, rule)[j] == NewsValue(rule, items[j])
    decreases j
  {
    if j > 0 {
      NewsValuesAt(items[1..], rule, j - 1);
      assert items[1..][j - 1] == items[j];
    }
  }

  /** The inner loop's entries for news items 1 to `n`, title then content,
      given each item's values. */
  function NewsEntries(cn: string, vals: seq<(string, string)>, n: nat): (r: seq<Entry>)
    requires n <= |vals|
    ensures |r| == 2 * n
  {
    if n == 0 then []
    else
      NewsEntries(cn, vals, n - 1)
        + [(NewsTitleKey(cn, n), vals[n - 1].0), (NewsContentKey(cn, n), vals[n - 1].1)]
  }

  /** News item `i` gives the entries at `2i - 2` (its title) and `2i - 1`
      (its content). */
  lemma {:induction false} NewsEntriesAt(cn: string, vals: seq<(string, string)>, n: nat, i: nat)
    requires n <= |vals| && 1 <= i <= n
    ensures var r := NewsEntries(cn, vals, n);
      && r[2 * i - 2] == (NewsTitleKey(cn, i), vals[i - 1].0)
      && r[2 * i - 1] == (NewsContentKey(cn, i), vals[i - 1].1)
    decreases n
  {
    var prev := NewsEntries(cn, vals, n - 1);
    var last := [(NewsTitleKey(cn, n), vals[n - 1].0), (NewsContentKey(cn, n), vals[n - 1].1)];
    assert NewsEntries(cn, vals, n) == prev + last;
    if i < n {
      NewsEntriesAt(cn, vals, n - 1, i);
      assert (prev + last)[2 * i - 2] == prev[2 * i - 2];
      assert (prev + last)[2 * i - 1] == prev[2 * i - 1];
    } else {
      assert (prev + last)[2 * i - 2] == last[0];
      assert (prev + last)[2 * i - 1] == last[1];
    }
  }

  /** A section's entries: its title, then its news items. */
  function SectionLayout(cn: string, title: string, vals: seq<(string, string)>, n: nat): seq<Entry>
    requires n <= |vals|
  {
    [(SectionTitleKey(cn), title)] + NewsEntries(cn, vals, n)
  }

  function SectionEntries(cn: string, sec: Section, maxNews: nat, rule: ContentRule): seq<Entry> {
    SectionLayout(cn, CleanText(sec.sectionTitle), NewsValues(sec.newsItems, rule), NewsCount(sec, maxNews))
  }

  function HeadEntries(report: Report): seq<Entry> {
    [(DateRangeKey, CleanText(report.dateRange)), (HotspotKey, CleanText(report.hotspotFocus))]
  }

  /** The map as it stands after the first `s` passes of the outer loop. */
  function EntriesUpTo(report: Report, s: nat, maxNews: nat, rule: ContentRule): seq<Entry>
    requires s <= |SectionNames|
  {
    if s == 0 then HeadEntries(report)
    else
      EntriesUpTo(report, s - 1, maxNews, rule)
        + SectionEntries(SectionNames[s - 1], Sections(report)[s - 1], maxNews, rule)
  }

  /** The whole map, in insertion order. */
  function ReplacementEntries(report: Report, maxNews: nat, rule: ContentRule): seq<Entry> {
    EntriesUpTo(report, |SectionNames|, maxNews, rule)
  }

  /** `build_replacements`: two head entries, then for each section its
      title and its news items. */
  method BuildReplacements(report: Report, maxNews: nat, rule: ContentRule) returns (entries: seq<Entry>)
    ensures entries == ReplacementEntries(report, maxNews, rule)
  {
    entries := [(DateRangeKey, CleanText(report.dateRange)), (HotspotKey, CleanText(report.hotspotFocus))];
    for s := 0 to |SectionNames|
      invariant entries == EntriesUpTo(report, s, maxNews, rule)
    {
      var part := SectionReplacements(SectionNames[s], Sections(report)[s], maxNews, rule);
      EntriesStep(report, s, maxNews, rule);
      entries := entries + part;
    }
  }

  lemma EntriesStep(report: Report, s: nat, maxNews: nat, rule: ContentRule)
    requires s < |SectionNames|
    ensures EntriesUpTo(report, s + 1, maxNews, rule)
      == EntriesUpTo(report, s, maxNews, rule) + SectionEntries(SectionNames[s], Sections(report)[s], maxNews, rule)
  {
  }

  /** One pass of the outer loop: the section title, then for `i` from 1 to
      `min(len(news_items), max)` the title and the content of news item
      `i`. */
  method SectionReplacements(cn: string, sec: Section, maxNews: nat, rule: ContentRule)
    returns (entries: seq<Entry>)
    ensures entries == SectionEntries(cn, sec, maxNews, rule)
  {
    ghost var title, vals := CleanText(sec.sectionTitle), NewsValues(sec.newsItems, rule);
    entries := [(SectionTitleKey(cn), CleanText(sec.sectionTitle))];
    LayoutEmpty(cn, title, vals);
    var count := NewsCount(sec, maxNews);
    for n := 0 to count
      invariant entries == SectionLayout(cn, title, vals, n)
    {
      var i := n + 1;
      var v := NewsValue(rule, sec.newsItems[n]);
      NewsValuesAt(sec.newsItems, rule, n);
      LayoutStep(cn, title, vals, n, v);
      entries := entries + [(NewsTitleKey(cn, i), v.0), (NewsContentKey(cn, i), v.1)];
    }
  }

  lemma LayoutEmpty(cn: string, title: string, vals: seq<(string, string)>)
    ensures SectionLayout(cn, title, vals, 0) == [(SectionTitleKey(cn), title)]
  {
    assert NewsEntries(cn, vals, 0) == [];
  }

  /** News item `n`, with values `v`, extends a section's entries by its
      two entries. */
  lemma LayoutStep(cn: string, title: string, vals: seq<(string, string)>, n: nat, v: (string, string))
    requires n < |vals| && vals[n] == v
    ensures SectionLayout(cn, title, vals, n + 1)
      == SectionLayout(cn, title, vals, n) + [(NewsTitleKey(cn, n + 1), v.0), (NewsContentKey(cn, n + 1), v.1)]
  {
    var head := [(SectionTitleKey(cn), title)];
    var last := [(NewsTitleKey(cn, n + 1), v.0), (NewsContentKey(cn, n + 1), v.1)];
    assert NewsEntries(cn, vals, n + 1) == NewsEntries(cn, vals, n) + last;
    AppendAssoc(head, NewsEntries(cn, vals, n), last);
  }

  lemma AppendAssoc<T>(a: seq<T>, b: seq<T>, c: seq<T>)
    ensures a + (b + c) == (a + b) + c
  {
  }

  // ---------------------------------------------------------------------------
  // Which keys

  /** A key of one section with `n` news items filled. */
  predicate SectionKey(k: string, cn: string, n: nat) {
    k == SectionTitleKey(cn)
    || exists i :: 1 <= i <= n && (k == NewsTitleKey(cn, i) || k == NewsContentKey(cn, i))
  }

  /** The keys `build_replacements` sets. */
  predicate IsReplacementKey(k: string, report: Report, maxNews: nat) {
    || k == DateRangeKey || k == HotspotKey
    || SectionKey(k, "环境", NewsCount(report.environmental, maxNews))
    || SectionKey(k, "社会", NewsCount(report.social, maxNews))
    || SectionKey(k, "治理", NewsCount(report.governance, maxNews))
  }

  lemma KeysAppend(a: seq<Entry>, b: seq<Entry>)
    ensures Keys(a + b) == Keys(a) + Keys(b)
  {
    forall k | k in Keys(a + b) ensures k in Keys(a) + Keys(b) {
      var e :| e in a + b && e.0 == k;
    }
    forall k | k in Keys(a) + Keys(b) ensures k in Keys(a + b) {
      if k in Keys(a) {
        var e :| e in a && e.0 == k;
        assert e in a + b;
      } else {
        var e :| e in b && e.0 == k;
        assert e in a + b;
      }
    }
  }

  /** The key of news entry `j`: the title key of item `j / 2 + 1` at even
      `j`, its content key at odd `j`. */
  function NewsKey(cn: string, j: nat): string {
    if j % 2 == 0 then NewsTitleKey(cn, j / 2 + 1) else NewsContentKey(cn, j / 2 + 1)
  }

  lemma NewsEntryKey(cn: string, vals: seq<(string, string)>, n: nat, j: nat)
    requires n <= |vals| && j < 2 * n
    ensures NewsEntries(cn, vals, n)[j].0 == NewsKey(cn, j)
  {
    var i := j / 2 + 1;
    NewsEntriesAt(cn, vals, n, i);
    assert j == 2 * i - 2 || j == 2 * i - 1;
  }

  lemma NewsKeysSound(cn: string, vals: seq<(string, string)>, n: nat, k: string)
    requires n <= |vals| && k in Keys(NewsEntries(cn, vals, n))
    ensures exists i :: 1 <= i <= n && (k == NewsTitleKey(cn, i) || k == NewsContentKey(cn, i))
  {
    var r := NewsEntries(cn, vals, n);
    var e :| e in r && e.0 == k;
    var j :| 0 <= j < |r| && r[j] == e;
    NewsEntryKey(cn, vals, n, j);
    var i := j / 2 + 1;
    assert 1 <= i <= n;
  }

  lemma NewsKeysComplete(cn: string, vals: seq<(string, string)>, n: nat, i: nat)
    requires n <= |vals| && 1 <= i <= n
    ensures NewsTitleKey(cn, i) in Keys(NewsEntries(cn, vals, n))
    ensures NewsContentKey(cn, i) in Keys(NewsEntries(cn, vals, n))
  {
    var r := NewsEntries(cn, vals, n);
    NewsEntriesAt(cn, vals, n, i);
    assert r[2 * i - 2] in r && r[2 * i - 1] in r;
  }

  /** The news entries carry the title and content keys of items 1 to `n`,
      and no other key. */
  lemma NewsKeys(cn: string, vals: seq<(string, string)>, n: nat)
    requires n <= |vals|
    ensures forall k :: k in Keys(NewsEntries(cn, vals, n)) <==>
      exists i :: 1 <= i <= n && (k == NewsTitleKey(cn, i) || k == NewsContentKey(cn, i))
  {
    forall k | k in Keys(NewsEntries(cn, vals, n))
      ensures exists i :: 1 <= i <= n && (k == NewsTitleKey(cn, i) || k == NewsContentKey(cn, i))
    {
      NewsKeysSound(cn, vals, n, k);
    }
    forall i | 1 <= i <= n
      ensures NewsTitleKey(cn, i) in Keys(NewsEntries(cn, vals, n))
      ensures NewsContentKey(cn, i) in Keys(NewsEntries(cn, vals, n))
    {
      NewsKeysComplete(cn, vals, n, i);
    }
  }

  lemma LayoutKeys(cn: string, title: string, vals: seq<(string, string)>, n: nat)
    requires n <= |vals|
    ensures forall k :: k in Keys(SectionLayout(cn, title, vals, n)) <==> SectionKey(k, cn, n)
  {
    var head := [(SectionTitleKey(cn), title)];
    KeysAppend(head, NewsEntries(cn, vals, n));
    assert Keys(head) == {SectionTitleKey(cn)} by {
      assert head[0] in head;
    }
    NewsKeys(cn, vals, n);
  }

  /** One section's keys: its 章节标题 and its 新闻标题i / 新闻内容i for i
      from 1 to `min(n, max)`. */
  lemma SectionKeys(cn: string, sec: Section, maxNews: nat, rule: ContentRule)
    ensures forall k :: k in Keys(SectionEntries(cn, sec, maxNews, rule)) <==> SectionKey(k, cn, NewsCount(sec, maxNews))
  {
    LayoutKeys(cn, CleanText(sec.sectionTitle), NewsValues(sec.newsItems, rule), NewsCount(sec, maxNews));
  }

  /** The three sections in full. */
  lemma SectionsUnfold(report: Report, maxNews: nat, rule: ContentRule)
    ensures ReplacementEntries(report, maxNews, rule)
      == HeadEntries(report)
       + SectionEntries("环境", report.environmental, maxNews, rule)
       + SectionEntries("社会", report.social, maxNews, rule)
       + SectionEntries("治理", report.governance, maxNews, rule)
  {
    var e := SectionEntries(SectionNames[0], report.environmental, maxNews, rule);
    var s := SectionEntries(SectionNames[1], report.social, maxNews, rule);
    var g := SectionEntries(SectionNames[2], report.governance, maxNews, rule);
    assert EntriesUpTo(report, 1, maxNews, rule) == HeadEntries(report) + e;
    assert EntriesUpTo(report, 2, maxNews, rule) == HeadEntries(report) + e + s;
    assert EntriesUpTo(report, 3, maxNews, rule) == HeadEntries(report) + e + s + g;
  }

  /** The key set: 日期范围, 热点聚焦, each section's 章节标题, and its
      新闻标题i / 新闻内容i for i from 1 to `min(n, max)`, and nothing else. */
  lemma ReplacementKeys(report: Report, maxNews: nat, rule: ContentRule)
    ensures forall k :: k in Keys(ReplacementEntries(report, maxNews, rule)) <==> IsReplacementKey(k, report, maxNews)
  {
    var e := SectionEntries("环境", report.environmental, maxNews, rule);
    var s := SectionEntries("社会", report.social, maxNews, rule);
    var g := SectionEntries("治理", report.governance, maxNews, rule);
    var head := HeadEntries(report);
    SectionsUnfold(report, maxNews, rule);
    assert Keys(head) == {DateRangeKey, HotspotKey} by {
      assert head[0] in head && head[1] in head;
    }
    SectionKeys("环境", report.environmental, maxNews, rule);
    SectionKeys("社会", report.social, maxNews, rule);
    SectionKeys("治理", report.governance, maxNews, rule);
    FourKeySets(head, e, s, g, NewsCount(report.environmental, maxNews),
      NewsCount(report.social, maxNews), NewsCount(report.governance, maxNews));
  }

  /** The head keys followed by the keys of the three sections. */
  lemma FourKeySets(head: seq<Entry>, e: seq<Entry>, s: seq<Entry>, g: seq<Entry>, ne: nat, ns: nat, ng: nat)
    requires Keys(head) == {DateRangeKey, HotspotKey}
    requires forall k :: k in Keys(e) <==> SectionKey(k, "环境", ne)
    requires forall k :: k in Keys(s) <==> SectionKey(k, "社会", ns)
    requires forall k :: k in Keys(g) <==> SectionKey(k, "治理", ng)
    ensures forall k :: k in Keys(head + e + s + g) <==>
      || k == DateRangeKey || k == HotspotKey
      || SectionKey(k, "环境", ne) || SectionKey(k, "社会", ns) || SectionKey(k, "治理", ng)
  {
    FourKeys(head, e, s, g);
  }

  lemma FourKeys(a: seq<Entry>, b: seq<Entry>, c: seq<Entry>, d: seq<Entry>)
    ensures Keys(a + b + c + d) == Keys(a) + Keys(b) + Keys(c) + Keys(d)
  {
    KeysAppend(a + b + c, d);
    KeysAppend(a + b, c);
    KeysAppend(a, b);
  }

  // ---------------------------------------------------------------------------
  // No key is assigned twice

  /** Keys of one section differ from each other. */
  lemma NewsKeyShapes(cn: string, a: nat, b: nat)
    ensures NewsTitleKey(cn, a) == NewsTitleKey(cn, b) ==> a == b
    ensures NewsContentKey(cn, a) == NewsContentKey(cn, b) ==> a == b
    ensures NewsTitleKey(cn, a) != NewsContentKey(cn, b)
    ensures SectionTitleKey(cn) != NewsTitleKey(cn, a) && SectionTitleKey(cn) != NewsContentKey(cn, a)
  {
    var t, c := cn + "新闻标题", cn + "新闻内容";
    assert NewsTitleKey(cn, a)[|cn| + 2] == '标' && NewsContentKey(cn, b)[|cn| + 2] == '内';
    assert SectionTitleKey(cn)[|cn|] == '章';
    assert NewsTitleKey(cn, a)[|cn|] == '新' && NewsContentKey(cn, a)[|cn|] == '新';
    if NewsTitleKey(cn, a) == NewsTitleKey(cn, b) {
      assert NewsTitleKey(cn, a)[|t|..] == NatToString(a);
      assert NewsTitleKey(cn, b)[|t|..] == NatToString(b);
      NatToStringInjective(a, b);
    }
    if NewsContentKey(cn, a) == NewsContentKey(cn, b) {
      assert NewsContentKey(cn, a)[|c|..] == NatToString(a);
      assert NewsContentKey(cn, b)[|c|..] == NatToString(b);
      NatToStringInjective(a, b);
    }
  }

  /** Every key of section `cn` starts with `cn`. */
  lemma SectionKeyStarts(k: string, cn: string, n: nat)
    requires SectionKey(k, cn, n) && cn != []
    ensures |k| > 0 && k[0] == cn[0]
  {
    if k != SectionTitleKey(cn) {
      var i :| 1 <= i <= n && (k == NewsTitleKey(cn, i) || k == NewsContentKey(cn, i));
    }
  }

  lemma DistinctAppend(a: seq<Entry>, b: seq<Entry>)
    requires DistinctKeys(a) && DistinctKeys(b)
    requires forall k :: k in Keys(a) ==> k !in Keys(b)
    ensures DistinctKeys(a + b)
  {
    forall i, j | 0 <= i < j < |a + b| ensures (a + b)[i].0 != (a + b)[j].0 {
      if j < |a| {
        assert (a + b)[i] == a[i] && (a + b)[j] == a[j];
      } else if i >= |a| {
        assert (a + b)[i] == b[i - |a|] && (a + b)[j] == b[j - |a|];
      } else {
        assert (a + b)[i] == a[i] && (a + b)[j] == b[j - |a|];
        assert a[i] in a && b[j - |a|] in b;
        assert a[i].0 in Keys(a) && b[j - |a|].0 in Keys(b);
      }
    }
  }

  lemma NewsKeyInjective(cn: string, j1: nat, j2: nat)
    requires NewsKey(cn, j1) == NewsKey(cn, j2)
    ensures j1 == j2
  {
    NewsKeyShapes(cn, j1 / 2 + 1, j2 / 2 + 1);
    NewsKeyShapes(cn, j2 / 2 + 1, j1 / 2 + 1);
  }

  lemma NewsDistinct(cn: string, vals: seq<(string, string)>, n: nat)
    requires n <= |vals|
    ensures DistinctKeys(NewsEntries(cn, vals, n))
  {
    var r := NewsEntries(cn, vals, n);
    forall j1, j2 | 0 <= j1 < j2 < |r| ensures r[j1].0 != r[j2].0 {
      NewsEntryKey(cn, vals, n, j1);
      NewsEntryKey(cn, vals, n, j2);
      if NewsKey(cn, j1) == NewsKey(cn, j2) {
        NewsKeyInjective(cn, j1, j2);
      }
    }
  }

  lemma LayoutDistinct(cn: string, title: string, vals: seq<(string, string)>, n: nat)
    requires n <= |vals|
    ensures DistinctKeys(SectionLayout(cn, title, vals, n))
  {
    var head := [(SectionTitleKey(cn), title)];
    var news := NewsEntries(cn, vals, n);
    NewsDistinct(cn, vals, n);
    NewsKeys(cn, vals, n);
    forall k | k in Keys(head) ensures k !in Keys(news) {
      assert k == SectionTitleKey(cn);
      forall i | 1 <= i <= n ensures k != NewsTitleKey(cn, i) && k != NewsContentKey(cn, i) {
        NewsKeyShapes(cn, i, i);
      }
    }
    DistinctAppend(head, news);
  }

  /** Every key is non-empty and starts with a character of `starts`. */
  predicate KeysStartIn(entries: seq<Entry>, starts: set<char>) {
    forall k :: k in Keys(entries) ==> |k| > 0 && k[0] in starts
  }

  /** A section's keys are distinct and all start with the first character
      of the section's name. */
  lemma LayoutShape(cn: string, title: string, vals: seq<(string, string)>, n: nat)
    requires n <= |vals| && cn != []
    ensures DistinctKeys(SectionLayout(cn, title, vals, n))
    ensures KeysStartIn(SectionLayout(cn, title, vals, n), {cn[0]})
  {
    LayoutDistinct(cn, title, vals, n);
    LayoutKeys(cn, title, vals, n);
    forall k | k in Keys(SectionLayout(cn, title, vals, n)) ensures |k| > 0 && k[0] in {cn[0]} {
      SectionKeyStarts(k, cn, n);
    }
  }

  lemma SectionShape(cn: string, sec: Section, maxNews: nat, rule: ContentRule)
    requires cn != []
    ensures DistinctKeys(SectionEntries(cn, sec, maxNews, rule))
    ensures KeysStartIn(SectionEntries(cn, sec, maxNews, rule), {cn[0]})
  {
    LayoutShape(cn, CleanText(sec.sectionTitle), NewsValues(sec.newsItems, rule), NewsCount(sec, maxNews));
  }

  lemma HeadDistinct(report: Report)
    ensures DistinctKeys(HeadEntries(report))
    ensures KeysStartIn(HeadEntries(report), {'日', '热'})
  {
    var head := HeadEntries(report);
    forall k | k in Keys(head) ensures |k| > 0 && k[0] in {'日', '热'} {
      var e :| e in head && e.0 == k;
      assert e == head[0] || e == head[1];
    }
  }

  /** Appending entries whose keys all start with a character no earlier key
      starts with keeps the keys distinct. */
  lemma AppendFresh(prev: seq<Entry>, part: seq<Entry>, starts: set<char>, c: char, next: set<char>)
    requires DistinctKeys(prev) && DistinctKeys(part)
    requires KeysStartIn(prev, starts) && KeysStartIn(part, {c})
    requires c !in starts && next == starts + {c}
    ensures DistinctKeys(prev + part)
    ensures KeysStartIn(prev + part, next)
  {
    DistinctAppend(prev, part);
    KeysAppend(prev, part);
  }

  /** The first characters of the head keys and of the section names are
      five different characters. */
  lemma FreshStarts()
    ensures '环' !in {'日', '热'} && {'日', '热', '环'} == {'日', '热'} + {'环'}
    ensures '社' !in {'日', '热', '环'} && {'日', '热', '环', '社'} == {'日', '热', '环'} + {'社'}
    ensures '治' !in {'日', '热', '环', '社'} && {'日', '热', '环', '社', '治'} == {'日', '热', '环', '社'} + {'治'}
  {
  }

  /** The head keys followed by three sections whose keys start with 环, 社
      and 治. */
  lemma FourFresh(head: seq<Entry>, e: seq<Entry>, s: seq<Entry>, g: seq<Entry>)
    requires DistinctKeys(head) && KeysStartIn(head, {'日', '热'})
    requires DistinctKeys(e) && KeysStartIn(e, {'环'})
    requires DistinctKeys(s) && KeysStartIn(s, {'社'})
    requires DistinctKeys(g) && KeysStartIn(g, {'治'})
    ensures DistinctKeys(head + e + s + g)
  {
    FreshStarts();
    AppendFresh(head, e, {'日', '热'}, '环', {'日', '热', '环'});
    AppendFresh(head + e, s, {'日', '热', '环'}, '社', {'日', '热', '环', '社'});
    AppendFresh(head + e + s, g, {'日', '热', '环', '社'}, '治', {'日', '热', '环', '社', '治'});
  }

  /** `build_replacements` never assigns a key twice, so the entries are
      exactly the dict: the head keys start with 日 and 热, and each
      section's keys with the first character of its name. */
  lemma ReplacementKeysDistinct(report: Report, maxNews: nat, rule: ContentRule)
    ensures DistinctKeys(ReplacementEntries(report, maxNews, rule))
  {
    var head := HeadEntries(report);
    var e := SectionEntries("环境", report.environmental, maxNews, rule);
    var s := SectionEntries("社会", report.social, maxNews, rule);
    var g := SectionEntries("治理", report.governance, maxNews, rule);
    SectionsUnfold(report, maxNews, rule);
    HeadDistinct(report);
    SectionShape("环境", report.environmental, maxNews, rule);
    SectionShape("社会", report.social, maxNews, rule);
    SectionShape("治理", report.governance, maxNews, rule);
    FourFresh(head, e, s, g);
  }

  // ---------------------------------------------------------------------------
  // Which values

  /** Each key is paired with the cleaned value of its source field: the
      head fields, each section title, and each news title and content. */
  lemma ReplacementLookup(report: Report, maxNews: nat, rule: ContentRule, s: nat, i: nat)
    requires s < |SectionNames| && 1 <= i <= NewsCount(Sections(report)[s], maxNews)
    ensures var r := ReplacementEntries(report, maxNews, rule);
      var cn, sec := SectionNames[s], Sections(report)[s];
      && (DateRangeKey, CleanText(report.dateRange)) in r
      && (HotspotKey, CleanText(report.hotspotFocus)) in r
      && (SectionTitleKey(cn), CleanText(sec.sectionTitle)) in r
      && (NewsTitleKey(cn, i), CleanText(sec.newsItems[i - 1].title)) in r
      && (NewsContentKey(cn, i), ContentValue(rule, sec.newsItems[i - 1].content)) in r
  {
    var cn, sec := SectionNames[s], Sections(report)[s];
    SectionLookup(cn, sec, maxNews, rule, i);
    EntriesContainSection(report, maxNews, rule, s);
    HeadInEntries(report, maxNews, rule, |SectionNames|);
  }

  lemma SectionLookup(cn: string, sec: Section, maxNews: nat, rule: ContentRule, i: nat)
    requires 1 <= i <= NewsCount(sec, maxNews)
    ensures var part := SectionEntries(cn, sec, maxNews, rule);
      && (SectionTitleKey(cn), CleanText(sec.sectionTitle)) in part
      && (NewsTitleKey(cn, i), CleanText(sec.newsItems[i - 1].title)) in part
      && (NewsContentKey(cn, i), ContentValue(rule, sec.newsItems[i - 1].content)) in part
  {
    var vals, n := NewsValues(sec.newsItems, rule), NewsCount(sec, maxNews);
    var news := NewsEntries(cn, vals, n);
    var part := SectionEntries(cn, sec, maxNews, rule);
    assert part == [(SectionTitleKey(cn), CleanText(sec.sectionTitle))] + news;
    NewsEntriesAt(cn, vals, n, i);
    NewsValuesAt(sec.newsItems, rule, i - 1);
    assert part[0] in part && part[2 * i - 1] in part && part[2 * i] in part;
  }

  lemma HeadInEntries(report: Report, maxNews: nat, rule: ContentRule, s: nat)
    requires s <= |SectionNames|
    ensures HeadEntries(report)[0] in EntriesUpTo(report, s, maxNews, rule)
    ensures HeadEntries(report)[1] in EntriesUpTo(report, s, maxNews, rule)
  {
    if s > 0 {
      HeadInEntries(report, maxNews, rule, s - 1);
    }
  }

  /** The entries of section `s` are part of the map. */
  lemma EntriesContainSection(report: Report, maxNews: nat, rule: ContentRule, s: nat)
    requires s < |SectionNames|
    ensures forall e :: e in SectionEntries(SectionNames[s], Sections(report)[s], maxNews, rule) ==>
      e in ReplacementEntries(report, maxNews, rule)
  {
    SectionsUnfold(report, maxNews, rule);
  }

  /** Every value a news entry carries is one of the items' values. */
  lemma NewsEntryValue(cn: string, vals: seq<(string, string)>, n: nat, j: nat)
    requires n <= |vals| && j < 2 * n
    ensures var v := NewsEntries(cn, vals, n)[j].1; v == vals[j / 2].0 || v == vals[j / 2].1
  {
    var i := j / 2 + 1;
    NewsEntriesAt(cn, vals, n, i);
    assert j == 2 * i - 2 || j == 2 * i - 1;
  }

  lemma SectionValuesClean(cn: string, sec: Section, maxNews: nat)
    ensures forall e :: e in SectionEntries(cn, sec, maxNews, CleanContent) ==> Clean(e.1)
  {
    var vals, n := NewsValues(sec.newsItems, CleanContent), NewsCount(sec, maxNews);
    var news := NewsEntries(cn, vals, n);
    var part := SectionEntries(cn, sec, maxNews, CleanContent);
    assert part == [(SectionTitleKey(cn), CleanText(sec.sectionTitle))] + news;
    CleanTextIsClean(sec.sectionTitle);
    forall e | e in part ensures Clean(e.1) {
      if e != part[0] {
        var j :| 0 <= j < |news| && news[j] == e;
        NewsEntryValue(cn, vals, n, j);
        NewsValuesAt(sec.newsItems, CleanContent, j / 2);
        CleanTextIsClean(sec.newsItems[j / 2].title);
        CleanTextIsClean(sec.newsItems[j / 2].content);
      }
    }
  }

  /** With `clean_text` on every field (word/word_filler.py), every value is
      stripped of `\n\r \t` and holds no two newlines in a row. */
  lemma {:induction false} ReplacementValuesClean(report: Report, maxNews: nat, s: nat)
    requires s <= |SectionNames|
    ensures forall e :: e in EntriesUpTo(report, s, maxNews, CleanContent) ==> Clean(e.1)
  {
    if s == 0 {
      CleanTextIsClean(report.dateRange);
      CleanTextIsClean(report.hotspotFocus);
    } else {
      ReplacementValuesClean(report, maxNews, s - 1);
      SectionValuesClean(SectionNames[s - 1], Sections(report)[s - 1], maxNews);
    }
  }

  // ---------------------------------------------------------------------------
  // The slide map

  /** `gen_time.split()[0] if " " in gen_time else gen_time`: `split()` of a
      string made only of whitespace is empty, and indexing it raises. */
  function ReportDateValue(g: string): (r: Result<string>)
    ensures ' ' !in g ==> r == Ok(g)
    ensures ' ' in g ==> (r.Err? <==> AllSpace(g))
  {
    if ' ' in g then
      if AllSpace(g) then Err("IndexError: list index out of range") else Ok(FirstToken(g))
    else Ok(g)
  }

  /** A date with a space keeps its first whitespace-free token, which is
      non-empty and comes after nothing but whitespace. */
  lemma ReportDateToken(g: string) returns (i: nat)
    requires ' ' in g && !AllSpace(g)
    ensures ReportDateValue(g).Ok?
    ensures var v := ReportDateValue(g).value;
      && v != [] && (forall c :: c in v ==> c !in PySpace)
      && i + |v| <= |g| && g[i..i + |v|] == v
      && (forall j :: 0 <= j < i ==> g[j] in PySpace)
  {
    i := FirstTokenSpec(g);
  }

  /** `_build_ppt_replacements`: the map of fill/word_filler.py, plus
      报告日期 when `generation_time` is non-empty. */
  function PptReplacementEntries(report: Report, maxNews: nat): Result<seq<Entry>> {
    var base := ReplacementEntries(report, maxNews, NormalizeContent);
    match report.generationTime
    case None => Ok(base)
    case Some(g) =>
      if g == "" then Ok(base)
      else
        match ReportDateValue(g)
        case Err(m) => Err(m)
        case Ok(v) => Ok(base + [(ReportDateKey, v)])
  }

  /** The slide map is the Word map with at most one entry more, 报告日期,
      present exactly when `generation_time` is non-empty; the call fails
      only for a non-empty time made of whitespace with a space in it; and
      no key is assigned twice. */
  lemma PptReplacements(report: Report, maxNews: nat)
    ensures var r := PptReplacementEntries(report, maxNews);
      var base := ReplacementEntries(report, maxNews, NormalizeContent);
      var g := report.generationTime;
      && (r.Err? <==> g.Some? && g.value != "" && ' ' in g.value && AllSpace(g.value))
      && (r.Ok? ==> |base| <= |r.value| && r.value[..|base|] == base && DistinctKeys(r.value))
      && (r.Ok? ==> (ReportDateKey in Keys(r.value) <==> g.Some? && g.value != ""))
  {
    var base := ReplacementEntries(report, maxNews, NormalizeContent);
    var r := PptReplacementEntries(report, maxNews);
    ReplacementKeysDistinct(report, maxNews, NormalizeContent);
    ReportDateKeyIsNew(report, maxNews);
    if r.Ok? && r.value != base {
      var v := r.value[|base|].1;
      assert r.value == base + [(ReportDateKey, v)];
      AddReportDate(base, v);
    }
  }

  /** Appending 报告日期 to a map without it. */
  lemma AddReportDate(base: seq<Entry>, v: string)
    requires DistinctKeys(base) && ReportDateKey !in Keys(base)
    ensures var r := base + [(ReportDateKey, v)];
      DistinctKeys(r) && ReportDateKey in Keys(r) && r[..|base|] == base
  {
    var extra := [(ReportDateKey, v)];
    assert Keys(extra) == {ReportDateKey} by {
      assert extra[0] in extra;
    }
    DistinctAppend(base, extra);
    KeysAppend(base, extra);
    assert (base + extra)[..|base|] == base;
  }

  /** 报告日期 is not one of the keys `build_replacements` sets. */
  lemma ReportDateKeyIsNew(report: Report, maxNews: nat)
    ensures ReportDateKey !in Keys(ReplacementEntries(report, maxNews, NormalizeContent))
  {
    ReplacementKeys(report, maxNews, NormalizeContent);
    forall cn, n | cn in SectionNames && SectionKey(ReportDateKey, cn, n) ensures false {
      SectionKeyStarts(ReportDateKey, cn, n);
    }
    assert "环境" in SectionNames && "社会" in SectionNames && "治理" in SectionNames;
  }
}
