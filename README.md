# ESG report template filling, modelled in Dafny

easy-esg produces a weekly or daily ESG research report. A language model writes the report text. The saver turns that text into a JSON record: a title, a "hotspot" summary and three domain sections (environment, social, governance) of news items. Two fillers then write the record into Office templates. The Word filler edits `word/document.xml` of a `.docx`. The slide filler edits every XML part of a `.pptx`. Both replace `{{placeholder}}` markers with values from the record.

This project models that pipeline:

- **The placeholder engine.** It builds the replacement map. It converts each value to run-break markup; the Word converter also escapes it. It replaces a placeholder either literally or, when markup splits it, by scanning `{{ ... }}` regions. It then tidies line breaks and deletes the placeholders nothing filled. The three near-identical copies of the engine (word/word_filler.py, fill/word_filler.py, fill/ppt_filler.py) are modelled once. A `Flavor` (Word or Slide) selects the converter. A `ContentRule` selects how news content is cleaned.
- **The helpers the pipeline relies on** (core/utils.py):
  - the date information of a run;
  - the file-name suffix and output directory;
  - placeholder substitution in prompts;
  - provider and API-key resolution.
- **The report helpers** (report/report_formatter.py):
  - newline normalisation;
  - source-line formatting and extraction;
  - `parse_section_content`;
  - `extract_title_and_hotspot`.
- **The saver** (report/report_saver.py): the raw text dump and the JSON record, with the writes returned as values.
- **The output names** of the fillers and of scripts/fill_template.py.

Modules, one per file: `Wrappers`, `Text`, `Lists`, `Occurrences`, `XmlEscape`, `LineBreaks`, `Regions`, `Placeholders`, `Cleanup`, `BreakRuns`, `ReportModel`, `Replacements`, `Fill`, `Calendar`, `CoreUtils`, `OutputNames`, `ReportFormatter`, `SectionParser`, `TitleHotspot`, `ReportSaver`.

The code's loops are methods with loop invariants, proved equal to recursive specification functions. The lemmas then state what the source promises about those functions.

Where the written description of the system and the code differ, the model follows the code:

- The slide converter does not escape values, although `_escape_xml` is defined beside it.
- `normalize_source_block`, which `_normalize_news_content_for_output` tries to import, does not exist in report/report_formatter.py. Its fallback therefore always runs.
- A paragraph of `parse_section_content` is always a single line, because the section is split at every newline.
- The fifty-line fallback of `extract_title_and_hotspot` never moves the end of the hotspot block.

## Model

| member | source | states |
|---|---|---|
| XmlEscape.EscapeIsPerCharacter | word/word_filler.py:64-69 | the `str.replace` chain, `&` first, escapes every character independently, so no entity is escaped twice |
| XmlEscape.EscapeRoundTrip | fill/ppt_filler.py:30-40 | decoding the five predefined XML entities gives back the original text, and the escaped text holds no raw `<`, `>`, `"` or `'` |
| LineBreaks.WordConversion | word/word_filler.py:50-88 | the converted value has no newline, does not start or end with a break and never has two breaks in a row; with the breaks turned back into newlines it holds no raw `<`, `>`, `"` or `'`, and decoding its entities gives the input stripped and collapsed |
| LineBreaks.NoAdjacentAfterReplace | word/word_filler.py:76-86 | replacing the newlines of text without newline runs never puts two breaks next to each other |
| LineBreaks.UnbreakAfterReplace | word/word_filler.py:86 | turning every break back into a newline undoes the replace for text without `<` |
| LineBreaks.SlideConversionHasNoNewline | fill/ppt_filler.py:43-49 | the slide converter's result never holds a newline |
| LineBreaks.SlideConversion | fill/ppt_filler.py:43-49 | on text without `<`/`>`: no break at either end, none adjacent, and the breaks turn back into the stripped, collapsed text |
| LineBreaks.SlideConversionDoesNotEscape | fill/ppt_filler.py:43-49 | a single-line value is inserted verbatim, `&` and `<` included |
| LineBreaks.AmpersandExample | fill/ppt_filler.py:43-49 | for `x&y` the Word converter writes `x&amp;y` and the slide converter keeps `x&y` |
| Regions.CollectOpens | word/word_filler.py:107-112 | the collecting loop returns exactly the ascending positions where `{{` starts |
| Regions.FindRegionEnd | word/word_filler.py:117-129 | the depth-counting scan returns the region's end, as `RegionEnd` defines it |
| Regions.MatchEndIsFirstBalancedClose | word/word_filler.py:117-129 | the scan stops at the first `}}` where the depth comes back to zero; when it finds none, every `}}` it passes is at depth above zero |
| Regions.NoCloseNoRegion | word/word_filler.py:117-131 | a region with no `}}` after its opening never closes |
| Regions.PlainRegion | word/word_filler.py:117-129 | the first `}}` after an opening, with no brace pair in between, closes it |
| Placeholders.SubstituteOutcomes | word/word_filler.py:91-142 | a replacement succeeds exactly when the literal `{{key}}` occurs or some region closes and holds the key in its tag-free text; when the literal occurs, every occurrence is replaced; otherwise a success splices the value over the right-most qualifying region |
| Placeholders.FindQualifyingRegion | word/word_filler.py:115-140 | the reversed walk over the collected `{{` positions returns the index of the last one whose region qualifies, or -1, with that position and its region end |
| Placeholders.LastQualifyingIs | word/word_filler.py:115-140 | the walk stops at the last qualifying position |
| Placeholders.NoneQualifying | word/word_filler.py:115-142 | when no position qualifies, the walk finds nothing |
| Placeholders.ReplacePlaceholderInXml | fill/ppt_filler.py:52-86 | the method with the literal test and the region scan returns exactly `Substitute`'s part and success flag |
| Placeholders.SplitKeyIsReplaced | word/word_filler.py:104-140 | a key split across runs by a tag is not found as a literal but is found by the region scan, and the whole region is replaced by the value |
| Placeholders.FastPathLeavesSplitOccurrence | word/word_filler.py:100-101 | when `{{key}}` occurs literally, only the literal occurrences are replaced; text holding the key in another form is left as it was |
| Cleanup.CleanRemainingPlaceholders | word/word_filler.py:197-246 | the collecting loop and the reversed splicing walk compute `CleanRemaining` of the part |
| Cleanup.ContainsUsedKey | fill/ppt_filler.py:114 | the inner test is true exactly when some used key is a substring of the region's tag-free text |
| Cleanup.CleanKeepsPrefix | word/word_filler.py:210-244 | positions at or beyond `m` leave the first `m` characters alone |
| Cleanup.CleanBeforeFirstOpen | word/word_filler.py:202-246 | text before the first `{{` is never touched, and a part without `{{` comes back unchanged |
| Cleanup.NoBraceClean | word/word_filler.py:197-246 | a part without `{` is unchanged |
| Cleanup.SinglePlaceholderCleanup | word/word_filler.py:226-244 | a part holding one brace-free placeholder loses it exactly when no used key is a substring of its tag-free text |
| Cleanup.LongerKeySurvives | word/word_filler.py:234-238 | a leftover `{{k + d}}` is not removed when `k` is a used key, because the test is a substring test |
| BreakRuns.DropTrailingKeepsNewline | word/word_filler.py:351 | `(b)+$` also removes a break run just before a final newline and keeps the newline |
| BreakRuns.DropTrailingLeavesEarlierRun | word/word_filler.py:351 | `(b)+$` removes only the final run of `x + b + "\n" + b`, so the break before that newline stays |
| BreakRuns.EarlierRunSurvives | word/word_filler.py:346-351 | tidying `x` + break + newline + break gives `x` + break + newline: a break can still stand just before the final newline |
| BreakRuns.CollapseWithoutDoubles | word/word_filler.py:346 | text without two breaks in a row is left as it is |
| BreakRuns.CollapseLeavesNoAdjacentBreaks | word/word_filler.py:346 | after `(b){2,}` becomes `b`, no two breaks are adjacent anywhere |
| BreakRuns.TidyDropsEdgeBreaks | word/word_filler.py:346-351 | the tidied part neither starts nor ends with a break; a break run that stood just before a final newline (once the leading breaks are gone) is removed and the newline kept |
| BreakRuns.TidyAddsNoBrace | fill/word_filler.py:309-312 | tidying brings in no `{`, so it creates no placeholder to clean |
| BreakRuns.TidyChars | word/word_filler.py:346-351 | the tidying only writes characters of its input and of the break sequence |
| Replacements.CleanTextIsClean | word/word_filler.py:151-158 | every `clean_text` result has no `\n\r \t` at either end and no two newlines in a row |
| Replacements.CleanTextKeepsClean | word/word_filler.py:151-158 | clean text is its own cleaning |
| Replacements.CleanTextIdempotent | word/word_filler.py:151-158 | cleaning twice is cleaning once |
| Replacements.NormalizeWithoutSource | fill/word_filler.py:134-137 | without a 资料来源 marker, the news normaliser is `clean_text` |
| Replacements.NormalizeWithSource | fill/word_filler.py:135-141 | with a marker, the stripped and collapsed text before it, one empty line, then the rest from the marker on verbatim |
| Replacements.BuildReplacements | word/word_filler.py:145-194 | the loops produce exactly `ReplacementEntries`: two head entries, then each section's title and up to `max` news titles and contents |
| Replacements.SectionReplacements | word/word_filler.py:175-189 | one pass of the outer loop adds the section title, then for `i` from 1 to `min(n, max)` news title `i` and news content `i` |
| Replacements.NewsEntriesAt | word/word_filler.py:186-189 | news item `i` gives the entries at `2i - 2` (its title) and `2i - 1` (its content) |
| Replacements.SectionKeys | word/word_filler.py:179-189 | one section's keys are its 章节标题 and 新闻标题i / 新闻内容i for `i` from 1 to `min(n, max)` |
| Replacements.ReplacementKeys | word/word_filler.py:145-194 | the key set is 日期范围, 热点聚焦 and each section's keys, and nothing else |
| Replacements.ReplacementKeysDistinct | fill/word_filler.py:144-179 | no key is assigned twice, so the entry sequence is exactly the dict |
| Replacements.ReplacementLookup | word/word_filler.py:161-189 | each key is paired with the cleaned value of its source field |
| Replacements.ReplacementValuesClean | word/word_filler.py:151-189 | with `clean_text` on every field, every value is clean |
| Replacements.ReportDateToken | fill/ppt_filler.py:26 | a generation time with a space yields its first whitespace-free token, which is non-empty |
| Replacements.PptReplacements | fill/ppt_filler.py:21-27 | the slide map is the Word map plus 报告日期 exactly when the generation time is non-empty; it fails only for a whitespace time that contains a space |
| Replacements.ReportDateKeyIsNew | fill/ppt_filler.py:26 | 报告日期 is not a key `build_replacements` sets |
| Fill.SubstituteEach | word/word_filler.py:333-338 | the loop over the map's entries computes `SubstituteAll`: each converted value tried in turn, with the count of successes |
| Fill.NoBraceUntouched | word/word_filler.py:333-338 | a part without `{` goes through the whole loop unchanged, with no success counted |
| Fill.FillDocumentXml | word/word_filler.py:333-356 | replacements, then break tidying, then cleanup with the map's keys as the used placeholders |
| Fill.FillWordTemplate | fill/word_filler.py:287-316 | the map with at most eight news items per section, then the document fill |
| Fill.NoBraceDocument | word/word_filler.py:333-356 | a document without `{` only has its breaks tidied |
| Fill.NoBraceSlidePart | fill/ppt_filler.py:192-202 | a slide part without `{` is left exactly as it was |
| Fill.FillSlidePartXml | fill/ppt_filler.py:192-202 | one part: the replacements, and the cleanup only when some replacement succeeded |
| Fill.FillSlidePartsAt | fill/ppt_filler.py:184-202 | each part is filled on its own; the result at `i` depends only on part `i` |
| Fill.NoSuccessNoRewrite | fill/ppt_filler.py:199-202 | with no success in any part, every part is left as it was |
| Fill.FillSlides | fill/ppt_filler.py:184-202 | the loop rewrites every part in place to its filled form and returns the total number of successes |
| Fill.FillPptTemplate | fill/ppt_filler.py:173-202 | the slide map, which fails only on a whitespace generation time, then the parts; on failure no part is touched |
| Calendar.CivilIsValid | core/utils.py:131-134 | every day number is a valid date of years 1 to 9999 |
| Calendar.DigitsInjective | core/utils.py:172-176 | two days with the same eight `YYYYMMDD` digits are the same day |
| Calendar.IsoWithoutDashes | core/utils.py:172-173 | removing the dashes of an ISO date leaves its eight digits |
| CoreUtils.DateRanges | core/utils.py:145-157 | each range starts with the start date and ends with the end date, and is the start date alone exactly when the two days are equal |
| CoreUtils.LastWeek | core/utils.py:129-135 | last week runs from a Monday to the Sunday six days later, strictly before today and within the previous week; it fails only before day 1 |
| CoreUtils.ModeRanges | core/utils.py:160-164 | a daily run has type daily and a one-date range; any other mode is weekly with a two-date range |
| CoreUtils.SuffixOfDays | core/utils.py:167-176 | the suffix is `YYYYMMDD` for one day and `YYYYMMDD_YYYYMMDD` for a range |
| CoreUtils.SubdirOfMode | core/utils.py:179-185 | a run's files go to `output/daily` or `output/weekly` |
| CoreUtils.ReplaceInOrder | core/utils.py:277-280 | the substitution loop applies the mapping's replacements in insertion order |
| CoreUtils.DomainPlaceholdersGone | core/utils.py:263-280 | none of `{DOMAIN}`, `{DOMAIN_CN}`, `{DOMAIN_EXAMPLE}` survives the substitution for E, S or G |
| CoreUtils.LastWeekSpanNeverMatches | core/utils.py:283-311 | 上周 is replaced before 上周一至上周日, so the longer key can never match afterwards |
| CoreUtils.ChooseProvider | core/utils.py:69-72 | the provider is gemini or qwen, and qwen exactly when the override, or failing that the configuration, says qwen |
| CoreUtils.ResolveQwen | core/utils.py:80-88 | Qwen fails exactly for an empty or `YOUR_` key, and otherwise uses the one key for all three domains |
| CoreUtils.ResolveRuntime | core/utils.py:91-98 | with runtime keys, every domain gets a key: its own when given, else borrowed in the order E, S, G; `api_key` is E |
| CoreUtils.ResolveSingle | core/utils.py:106-113 | a single key fails exactly when empty or the sample value, and otherwise serves all three domains |
| CoreUtils.ResolveKeys | core/utils.py:69-116 | a successful resolution has the chosen provider and four non-empty keys |
| CoreUtils.ConfiguredKeys | core/utils.py:99-105 | with a non-empty key dictionary, resolution fails exactly when E, S or G is missing, empty or a `YOUR_` placeholder, and otherwise takes the keys from it |
| CoreUtils.SingleKeyFallback | core/utils.py:106-113 | with no dictionary, an empty one or a falsy value, the single key decides |
| OutputNames.DatePartRoundTrip | scripts/fill_template.py:26-33 | marking a date part as a report and reading it back gives it back; the trailing mark wins over a leading one |
| OutputNames.ReportJsonStem | scripts/fill_template.py:28 | `{suffix}_报告.json` has stem `{suffix}_报告` whatever dots the suffix holds |
| OutputNames.OutputsFollowJson | word/word_filler.py:283-293 | the Word document and the presentation land beside the JSON, named by its suffix, and the date part read back is that suffix |
| OutputNames.WordOutputPath | word/word_filler.py:283-293 | `{date_part}_最终版.docx` beside the JSON when its stem is marked, `最终版.docx` otherwise |
| OutputNames.PptOutputPath | fill/ppt_filler.py:154-162 | always `{date_part}_最终版.pptx` beside the JSON |
| ReportFormatter.NormalizeNewlines | report/report_formatter.py:8-20 | the empty text stays empty, and the result has no newline runs and no whitespace at either end |
| ReportFormatter.NormalizeIdempotent | report/report_formatter.py:8-20 | normalising twice is normalising once |
| ReportFormatter.FormatSourceLine | report/report_formatter.py:35-63 | the result always starts with `资料来源：`; a `[cite:` line gives the label alone; otherwise the label is followed by nothing, by the line without its markers, or by a web link without `)` that occurs in the line |
| ReportFormatter.BracketLinkFormatted | report/report_formatter.py:44-46 | a `[资料来源](url)` line formats as its link |
| ReportFormatter.BracketLinkWins | report/report_formatter.py:43-56 | a line opening with `[资料来源](url)` formats as that link whatever non-blank-ended text follows, so a later `Source: [x](url2)` or bare link never wins over it |
| ReportFormatter.SourceLinkFormatted | report/report_formatter.py:49-51 | a `Source: [name](url)` line without a bracket link formats as its link |
| ReportFormatter.BareUrlFormatted | report/report_formatter.py:54-56 | a line without either of those formats as its first web link, which runs to a space, a `)` or the end |
| ReportFormatter.ExtractSourceFromText | report/report_formatter.py:66-78 | the loop computes `ExtractSources`: each new formatted source line, in order |
| ReportFormatter.ExtractedSources | report/report_formatter.py:66-78 | each extracted source is the formatting of a source line of the text, each source line's formatting is among them, and none repeats |
| SectionParser.ParagraphShape | report/report_formatter.py:92-104 | a paragraph is one non-empty stripped line, and splitting it again gives just itself |
| SectionParser.CleanFirst | report/report_formatter.py:119-120 | the cleaned first line has no `*` and is stripped |
| SectionParser.TitleEnd | report/report_formatter.py:239-243 | the cut of a paragraph longer than 80 characters lies at 20 or later and before the end, at a `。`, at a `，` or at 60 |
| SectionParser.LeadStepKeeps | report/report_formatter.py:237-255 | a title cut from a long lead paragraph is not empty |
| SectionParser.FilterPublishes | report/report_formatter.py:297-355 | every item the filter keeps is published: a title of at least five characters, stripped, without `*`, `#` at the front or a domain heading; the content is normalised |
| SectionParser.SourcesAreExtracted | report/report_formatter.py:328-339 | the fallback to `extract_source_from_text` adds a source exactly when the formatted source lines are non-empty |
| SectionParser.ParsePublishes | report/report_formatter.py:81-357 | a blank section has no items, and every item of a section is published |
| SectionParser.ParseSectionContent | report/report_formatter.py:81-357 | the paragraph loop, the closing of the last item and the filter compute `ParseSection` |
| SectionParser.FilterNewsItems | report/report_formatter.py:297-357 | the filter loop computes the kept items, cleaned, in order |
| SectionParser.CleanNewsItem | report/report_formatter.py:311-355 | a kept item's other lines come first and its formatted sources, each once, last |
| TitleHotspot.TitleFromHead | report/report_formatter.py:365-379 | the title comes from the first of the first fifteen lines that names the report, else it is the default title |
| TitleHotspot.FoundTitleNamesReport | report/report_formatter.py:368-377 | a found title is non-empty and contains `ESG` |
| TitleHotspot.FindTitle | report/report_formatter.py:365-379 | the title loop computes the title the function specifies |
| TitleHotspot.FindHotspotStart | report/report_formatter.py:382-394 | the marker loop and the skipping loop compute `HotspotStart` |
| TitleHotspot.EndAtHeading | report/report_formatter.py:396-404 | the block runs to the first chapter heading whenever there is one |
| TitleHotspot.ChapterFallbackIdle | report/report_formatter.py:436-443 | the fifty-line fallback can never move the end |
| TitleHotspot.FindHotspotEnd | report/report_formatter.py:396-443 | the heading loop and the two fallbacks compute `HotspotEnd` |
| TitleHotspot.EsgFallbackEnd | report/report_formatter.py:409-434 | the loop with the E/S/G flags computes `EsgEnd` |
| TitleHotspot.HotspotOf | report/report_formatter.py:382-450 | the hotspot is `None` exactly when no line holds a marker, and otherwise has no newline runs and no whitespace at either end |
| TitleHotspot.HotspotBlock | report/report_formatter.py:382-448 | the block starts after the first marker line and the blank or rule lines that follow it, stops at the first chapter heading, and its text is already normalised |
| TitleHotspot.ExtractTitleAndHotspot | report/report_formatter.py:360-450 | the method computes the specified title and hotspot |
| ReportSaver.SavedFilesTogether | report/report_saver.py:14-17 | the JSON and the raw dump share one directory, and the fillers read back the suffix and write their documents beside them |
| ReportSaver.RawLayout | report/report_saver.py:19-48 | the dump is the header (label, period, time between rules), then the final report, the hotspot and E, S, G, in that order, each under its heading |
| ReportSaver.RawMissingDomain | report/report_saver.py:43-46 | a domain missing from the results is dumped as 无内容 |
| ReportSaver.SaveRawContent | report/report_saver.py:12-55 | returns the dump's path `{suffix}_原始内容.txt` in the run's directory, and the parts joined with newlines |
| ReportSaver.ChooseHotspot | report/report_saver.py:71-75 | the kept hotspot is the stripped passed text, the extracted one, or the passed text itself; anything but the passed text has at least fifty characters |
| ReportSaver.HotspotPreference | report/report_saver.py:71-75 | a passed hotspot longer than fifty characters wins; else an extracted one of at least fifty; else the passed text untouched |
| ReportSaver.CleanLine | report/report_saver.py:83-91 | a cleaned line holds no `**` and is stripped |
| ReportSaver.LeadRun | report/report_saver.py:81-89 | only the leading run of heading, 热点聚焦, `---` or blank lines is dropped, and the body starts at the first other line |
| ReportSaver.CleanedComplete | report/report_saver.py:89-93 | after the first body line, a line is dropped only when it cleans to nothing |
| ReportSaver.CleanedSound | report/report_saver.py:90-93 | every kept line is the cleaning of a body line: non-empty, without `**` and stripped |
| ReportSaver.NoTitleNoSkip | report/report_saver.py:81-89 | a hotspot whose first line is body text loses none of its non-empty lines |
| ReportSaver.CleanHotspot | report/report_saver.py:78-96 | an empty hotspot stays empty; the cleaned hotspot has no newline runs and is stripped |
| ReportSaver.CleanHotspotLines | report/report_saver.py:79-94 | the `skip_title` loop computes the specified kept lines |
| ReportSaver.CleanHotspotText | report/report_saver.py:77-96 | the hotspot cleaning computes `CleanHotspot` |
| ReportSaver.SavedTitleIsExtracted | report/report_saver.py:66-68 | the saved title is the extracted one and is never empty, so the empty-title fallback never fires |
| ReportSaver.SavedItemsPublished | report/report_saver.py:98-101 | every saved news item is published, and a domain missing from the results has no items |
| ReportSaver.SavedValuesStayClean | report/report_saver.py:103-135 | the saved hotspot and every news content pass the Word filler's `clean_text` unchanged |
| ReportSaver.SaveFormattedReport | report/report_saver.py:58-142 | returns the JSON path `{suffix}_报告.json` in the run's directory and the record with the extracted title, the chosen and cleaned hotspot, and the three sections under their fixed titles with `parse_section_content` of each domain |
| ReportSaver.PickHotspot | report/report_saver.py:71-75 | the choice as the code makes it, given what extraction returns |

## Left out

- File and archive I/O is left out: unpacking and zipping the templates, reading and writing `document.xml` and the slide parts, `load_json_report`, writing the saver's files and creating directories. The models take and return the texts and records.
- The clock is a parameter. `datetime.now()` (core/utils.py:131, 140) is a day number. The saver's formatted time and its ISO form are strings.
- Console output is left out: every `print` and `safe_print`, and the replacement count the fillers print.
- The early returns of `fill_word_template` and `fill_ppt_template` for a missing JSON or template, and their choice of the latest JSON, are left out. So are an explicit `output_path` and its rewriting into `output/` (word/word_filler.py:261-310, fill/ppt_filler.py:132-171).
- `get_latest_output_subdir`, `find_latest_report_json` and `list_output_files_in_subdir` (core/utils.py:188-260) depend on the directory tree and modification times, so they are left out.
- `load_prompt` (core/utils.py:119-126) reads a file, so it is left out.
- Reading `config.json` and merging its nested `gemini`/`qwen` sections (core/utils.py:42-67) is left out. `CoreUtils.Config` holds the merged entries the key resolution reads.
- `main` and `_ensure_txt_in_output` of scripts/fill_template.py are left out; both only handle files.
- A report record without `date_range`, `hotspot_focus`, a section or its `news_items` raises `KeyError` (word/word_filler.py:161, 165, 176, 182; fill/word_filler.py:155, 158, 168, 170). The model assumes these are present; only `null` values and keys read with `.get` are options.
- `str()` coercion of non-string values is left out (word/word_filler.py:60-61, 155; fill/ppt_filler.py:32-33, 45-46). Every value is a string or missing.
- `is_source_line` tests `\[cite:\s*\d+` (report/report_formatter.py:31). In a `str` pattern Python's `\d` also matches non-ASCII decimal digits such as the fullwidth `３`. The model's `ReportFormatter.IsDigit` accepts only `0`-`9`, so a line like `见报道[cite: ３]` is a source line in the code but content in the model.
- `str()` of non-string keys in the configuration (core/utils.py:82, 104) is left out: keys are strings.
- The slide filler's skip of a part it cannot read (fill/ppt_filler.py:186-190) is left out. Every part is modelled as readable text.
- The slide filler rewrites a part only when a replacement succeeded in it. The model returns the part unchanged in that case, which is the same content.
- LineBreaks.SlideConversion: requires the value to hold no `<` or `>`. The slide converter does not escape, so such a value can itself spell break markup, and no round trip through the breaks exists for it. `SlideConversionHasNoNewline` and `SlideConversionDoesNotEscape` cover all values.
- ReportSaver.CleanLine: states only that no `**` is left. Removing `###` and then `**` can form a new `###` (`#**##` becomes `###`), so "no `###`" does not hold.
- ReportSaver.SaveFormattedReport: the code calls `extract_title_and_hotspot` twice on the same input (report/report_saver.py:66, 73). The model calls it once. The function is pure, so both calls give the same value.
- ReportSaver.SaveFormattedReport: a `None` hotspot argument is left out. The hotspot passed in is a string, and "" stands for an absent one.
- `normalize_source_block`, which fill/word_filler.py:130 tries to import, is not defined in report/report_formatter.py. The import always fails, so the model takes the `except` branch (report/report_formatter.py is the file that would define it).
- The marker test of `extract_title_and_hotspot` lower-cases the line first (report/report_formatter.py:386-388). The markers are Chinese and lower-casing does not touch them, so the model tests the line itself.
