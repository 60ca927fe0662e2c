/** The helpers of core/utils.py the report pipeline relies on: the date
    information of a run, the file-name suffix and output directory derived
    from it, the placeholder substitution in prompts, and the resolution of
    the provider and API keys in `load_config`. */
module CoreUtils {
  import opened Wrappers
  import opened Text
  import opened Calendar
  import opened Occurrences

  const OutputBase: string := "output"
  const Weekly: string := "weekly"
  const Daily: string := "daily"
  const WeeklyLabel: string := "ESG投研周报"
  const DailyLabel: string := "ESG投研日报"

  /** The dictionary `_build_date_info` returns. `report_type` and
      `report_label` are read with a default elsewhere, so they may be
      absent from a dictionary that did not come from here. */
  datatype DateInfo = DateInfo(
    startDateChinese: string,
    endDateChinese: string,
    startDateIso: string,
    endDateIso: string,
    dateRangeChinese: string,
    dateRangeIso: string,
    dateRangeCompact: string,
    reportType: Option<string>,
    reportLabel: Option<string>)

  /** `date_info.get("report_type", "weekly")` */
  function ReportType(info: DateInfo): string {
    match info.reportType
    case Some(t) => t
    case None => Weekly
  }

  /** `date_info.get("report_label", "ESG投研周报")` */
  function ReportLabel(info: DateInfo): string {
    match info.reportLabel
    case Some(l) => l
    case None => WeeklyLabel
  }

  // ---------------------------------------------------------------------------
  // Date information

  /** `_build_date_info`: both ends in three formats, and a range that is a
      single date when the two days are the same. */
  function BuildDateInfo(start: Day, end: Day, reportType: string, reportLabel: string): DateInfo {
    DateInfo(
      Chinese(start), Chinese(end), Iso(start), Iso(end),
      if start != end then Chinese(start) + " 至 " + Chinese(end) else Chinese(start),
      if start != end then Iso(start) + " 至 " + Iso(end) else Iso(start),
      if start != end then Compact(start) + "-" + Compact(end) else Compact(start),
      Some(reportType), Some(reportLabel))
  }

  /** Each range runs from the start date to the end date, and collapses to
      the start date alone exactly when the two days are the same. */
  lemma DateRanges(start: Day, end: Day, reportType: string, reportLabel: string)
    ensures var info := BuildDateInfo(start, end, reportType, reportLabel);
      && (info.dateRangeChinese == info.startDateChinese <==> start == end)
      && (info.dateRangeIso == info.startDateIso <==> start == end)
      && (info.dateRangeCompact == Compact(start) <==> start == end)
      && IsPrefix(info.startDateChinese, info.dateRangeChinese)
      && IsSuffix(info.endDateChinese, info.dateRangeChinese)
      && IsPrefix(info.startDateIso, info.dateRangeIso)
      && IsSuffix(info.endDateIso, info.dateRangeIso)
      && info.reportType == Some(reportType) && info.reportLabel == Some(reportLabel)
  {
    var info := BuildDateInfo(start, end, reportType, reportLabel);
    if start != end {
      var a, b := Chinese(start), Chinese(end);
      assert info.dateRangeChinese == a + " 至 " + b;
      assert (a + " 至 " + b)[..|a|] == a;
      assert (a + " 至 " + b)[|a + " 至 "|..] == b;
      var c, d := Iso(start), Iso(end);
      assert (c + " 至 " + d)[..|c|] == c;
      assert (c + " 至 " + d)[|c + " 至 "|..] == d;
    }
  }

  /** `get_last_week_date_range` on today's day number: from the Monday of
      the previous week to the Sunday after it. A start before day 1 is the
      `OverflowError` of `datetime`. */
  function LastWeek(today: Day): (r: Result<(Day, Day)>)
    ensures r.Ok? <==> today - Weekday(today) - 7 >= 1
    ensures r.Ok? ==> var (start, end) := r.value;
      && Weekday(start) == 0 && Weekday(end) == 6 && end == start + 6
      && end < today <= end + 7
  {
    var w := Weekday(today);
    assert today + 6 == 7 * ((today + 6) / 7) + w;
    var start := today - (w + 7);
    if start < 1 then Err("OverflowError: date value out of range")
    else
      assert (start + 6) % 7 == 0 by {
        assert start + 6 == 7 * ((today + 6) / 7 - 1);
      }
      assert (start + 12) % 7 == 6 by {
        assert start + 12 == 7 * ((today + 6) / 7 - 1) + 6;
      }
      Ok((start, start + 6))
  }

  function GetLastWeekDateRange(today: Day): Result<DateInfo> {
    match LastWeek(today)
    case Err(m) => Err(m)
    case Ok((start, end)) => Ok(BuildDateInfo(start, end, Weekly, WeeklyLabel))
  }

  /** `get_yesterday_date_range`: one day, the one before today. */
  function GetYesterdayDateRange(today: Day): Result<DateInfo> {
    if today == 1 then Err("OverflowError: date value out of range")
    else Ok(BuildDateInfo(today - 1, today - 1, Daily, DailyLabel))
  }

  /** `get_date_range_for_mode` */
  function GetDateRangeForMode(mode: string, today: Day): Result<DateInfo> {
    if mode == Daily then GetYesterdayDateRange(today) else GetLastWeekDateRange(today)
  }

  /** A weekly run covers seven days and its ranges name both ends; a daily
      run covers yesterday and its ranges are that one date. */
  lemma ModeRanges(mode: string, today: Day)
    ensures var r := GetDateRangeForMode(mode, today);
      r.Ok? ==> && ReportType(r.value) == (if mode == Daily then Daily else Weekly)
                && (r.value.dateRangeChinese == r.value.startDateChinese <==> mode == Daily)
  {
    var r := GetDateRangeForMode(mode, today);
    if r.Ok? {
      if mode == Daily {
        DateRanges(today - 1, today - 1, Daily, DailyLabel);
      } else {
        var (start, end) := LastWeek(today).value;
        DateRanges(start, end, Weekly, WeeklyLabel);
      }
    }
  }

  // ---------------------------------------------------------------------------
  // Output names

  /** `get_output_date_suffix` */
  function OutputDateSuffix(info: DateInfo): string {
    var s := ReplaceAll(info.startDateIso, "-", "");
    var e := ReplaceAll(info.endDateIso, "-", "");
    if s == e then s else s + "_" + e
  }

  /** For the dates of a run the suffix is `YYYYMMDD` for a single day and
      `YYYYMMDD_YYYYMMDD` for a range. */
  lemma SuffixOfDays(start: Day, end: Day, reportType: string, reportLabel: string)
    ensures OutputDateSuffix(BuildDateInfo(start, end, reportType, reportLabel))
      == if start == end then Digits(start) else Digits(start) + "_" + Digits(end)
  {
    IsoWithoutDashes(start);
    IsoWithoutDashes(end);
    if Digits(start) == Digits(end) {
      DigitsInjective(start, end);
    }
  }

  /** POSIX `os.path.join(a, b)` */
  function PathJoin(a: string, b: string): (r: string)
    ensures IsSuffix(b, r)
  {
    if IsPrefix("/", b) then b
    else if a == [] || IsSuffix("/", a) then a + b
    else a + "/" + b
  }

  /** `get_output_subdir` */
  function OutputSubdir(info: DateInfo): string {
    PathJoin(OutputBase, ReportType(info))
  }

  /** A run's files go to `output/weekly` or `output/daily`. */
  lemma SubdirOfMode(mode: string, today: Day)
    ensures var r := GetDateRangeForMode(mode, today);
      r.Ok? ==> OutputSubdir(r.value) == OutputBase + "/" + (if mode == Daily then Daily else Weekly)
  {
    var r := GetDateRangeForMode(mode, today);
    if r.Ok? {
      ModeRanges(mode, today);
      JoinPlain(OutputBase, ReportType(r.value));
    }
  }

  /** Joining onto a directory without a trailing slash a name without a
      leading one puts one slash between them. */
  lemma JoinPlain(a: string, b: string)
    requires a != [] && a[|a| - 1] != '/' && (b == [] || b[0] != '/')
    ensures PathJoin(a, b) == a + "/" + b
  {
    assert !IsPrefix("/", b) by {
      if |b| >= 1 {
        assert b[..1][0] == b[0];
      }
    }
    assert !IsSuffix("/", a) by {
      assert a[|a| - 1..][0] == a[|a| - 1];
    }
  }

  // ---------------------------------------------------------------------------
  // Placeholder substitution in prompts

  /** `pairs` applied in order, each one a `str.replace` over the whole text. */
  function ReplaceEach(text: string, pairs: seq<(string, string)>): string
    requires forall i :: 0 <= i < |pairs| ==> pairs[i].0 != []
    decreases |pairs|
  {
    if pairs == [] then text
    else
      var last := pairs[|pairs| - 1];
      ReplaceAll(ReplaceEach(text, pairs[..|pairs| - 1]), last.0, last.1)
  }

  /** The substitution loop over a mapping's items. */
  method ReplaceInOrder(text: string, pairs: seq<(string, string)>) returns (result: string)
    requires forall i :: 0 <= i < |pairs| ==> pairs[i].0 != []
    ensures result == ReplaceEach(text, pairs)
  {
    result := text;
    for i := 0 to |pairs|
      invariant result == ReplaceEach(text, pairs[..i])
    {
      assert pairs[..i + 1][..i] == pairs[..i];
      result := ReplaceAll(result, pairs[i].0, pairs[i].1);
    }
    assert pairs[..|pairs|] == pairs;
  }

  /** `DOMAIN_MAP` */
  predicate IsDomain(d: string) {
    d == "E" || d == "S" || d == "G"
  }

  const CnE: string := "环境"
  const CnS: string := "社会"
  const CnG: string := "治理"
  const ExampleE: string := "欧盟委员会通过《可持续产品生态设计条例》"
  const ExampleS: string := "某公司发布员工多元化发展报告"
  const ExampleG: string := "某公司发布董事会多元化政策"

  function DomainCn(d: string): string
    requires IsDomain(d)
  {
    if d == "E" then CnE else if d == "S" then CnS else CnG
  }

  function DomainExample(d: string): string
    requires IsDomain(d)
  {
    if d == "E" then ExampleE else if d == "S" then ExampleS else ExampleG
  }

  const DomainKey: string := "{DOMAIN}"
  const DomainCnKey: string := "{DOMAIN_CN}"
  const DomainExampleKey: string := "{DOMAIN_EXAMPLE}"

  function DomainReplacements(d: string): (r: seq<(string, string)>)
    requires IsDomain(d)
    ensures forall i :: 0 <= i < |r| ==> r[i].0 != []
  {
    [(DomainKey, d), (DomainCnKey, DomainCn(d)), (DomainExampleKey, DomainExample(d))]
  }

  /** `replace_domain_placeholders` */
  method ReplaceDomainPlaceholders(text: string, domain: string) returns (result: string)
    ensures !IsDomain(domain) ==> result == text
    ensures IsDomain(domain) ==> result == ReplaceEach(text, DomainReplacements(domain))
  {
    if !IsDomain(domain) {
      return text;
    }
    result := ReplaceInOrder(text, DomainReplacements(domain));
  }

  /** None of the three domain placeholders survives the substitution: each
      replacement is non-empty and shares no character with any of them. */
  lemma DomainPlaceholdersGone(text: string, d: string)
    requires IsDomain(d)
    ensures var r := ReplaceEach(text, DomainReplacements(d));
      !Contains(r, DomainKey) && !Contains(r, DomainCnKey) && !Contains(r, DomainExampleKey)
  {
    var pairs := DomainReplacements(d);
    assert pairs[..1][..0] == [] && pairs[..2][..1] == pairs[..1] && pairs[..3][..2] == pairs[..2];
    assert pairs[..3] == pairs;
    var t1 := ReplaceAll(text, DomainKey, d);
    var t2 := ReplaceAll(t1, DomainCnKey, DomainCn(d));
    var t3 := ReplaceAll(t2, DomainExampleKey, DomainExample(d));
    assert ReplaceEach(text, pairs[..1]) == t1;
    assert ReplaceEach(text, pairs[..2]) == t2;
    assert ReplaceEach(text, pairs) == t3;
    DomainValuesApart(d);
    ReplaceLeavesNo(text, DomainKey, d, DomainKey);
    ReplaceLeavesNo(t1, DomainCnKey, DomainCn(d), DomainKey);
    ReplaceLeavesNo(t2, DomainExampleKey, DomainExample(d), DomainKey);
    ReplaceLeavesNo(t1, DomainCnKey, DomainCn(d), DomainCnKey);
    ReplaceLeavesNo(t2, DomainExampleKey, DomainExample(d), DomainCnKey);
    ReplaceLeavesNo(t2, DomainExampleKey, DomainExample(d), DomainExampleKey);
  }

  /** The values put in for the domain placeholders hold no character of the
      placeholders still to be replaced. */
  lemma DomainValuesApart(d: string)
    requires IsDomain(d)
    ensures Apart(d, DomainKey)
    ensures Apart(DomainCn(d), DomainKey) && Apart(DomainCn(d), DomainCnKey)
    ensures Apart(DomainExample(d), DomainKey) && Apart(DomainExample(d), DomainCnKey)
    ensures Apart(DomainExample(d), DomainExampleKey)
  {
    KeysAscii();
    ValuesWide();
    ApartByRange(DomainCn(d), DomainKey);
    ApartByRange(DomainCn(d), DomainCnKey);
    ApartByRange(DomainExample(d), DomainKey);
    ApartByRange(DomainExample(d), DomainCnKey);
    ApartByRange(DomainExample(d), DomainExampleKey);
  }

  predicate AllAscii(s: string) {
    forall i :: 0 <= i < |s| ==> s[i] < '\U{80}'
  }

  predicate NoAscii(s: string) {
    forall i :: 0 <= i < |s| ==> s[i] >= '\U{80}'
  }

  lemma ApartByRange(a: string, p: string)
    requires NoAscii(a) && AllAscii(p)
    ensures Apart(a, p)
  {
    forall c | c in p ensures c < '\U{80}' {
      var j :| 0 <= j < |p| && p[j] == c;
    }
    forall c | c in a ensures c >= '\U{80}' {
      var i :| 0 <= i < |a| && a[i] == c;
    }
  }

  lemma KeysAscii()
    ensures AllAscii(DomainKey) && AllAscii(DomainCnKey) && AllAscii(DomainExampleKey)
  {
  }

  lemma ValuesWide()
    ensures NoAscii(CnE) && NoAscii(CnS) && NoAscii(CnG)
    ensures NoAscii(ExampleE) && NoAscii(ExampleS) && NoAscii(ExampleG)
  {
  }

  predicate IsWeekly(info: DateInfo) {
    ReportType(info) == Weekly
  }

  const LastWeekWord: string := "上周"
  const LastWeekSpan: string := "上周一至上周日"

  /** The mapping of `replace_date_placeholders`, in its insertion order. */
  function DateReplacements(info: DateInfo): (r: seq<(string, string)>)
    ensures |r| == 18 && forall i :: 0 <= i < |r| ==> r[i].0 != []
    ensures r[1] == (LastWeekWord, info.dateRangeChinese) && r[2].0 == LastWeekSpan
    ensures r[15].1 == "周报" <==> IsWeekly(info)
    ensures r[16].1 == "过去一周" <==> IsWeekly(info)
    ensures r[17].1 == "本周" <==> IsWeekly(info)
  {
    var range := info.dateRangeChinese;
    var weekly := IsWeekly(info);
    [ ("上周（具体日期范围由系统自动填充）", range),
      (LastWeekWord, range),
      (LastWeekSpan, range),
      ("{上周日期}", range),
      ("{DATE_RANGE}", range),
      ("{DATE_RANGE_CHINESE}", range),
      ("{TIME_SCOPE}", range),
      ("{START_DATE}", info.startDateChinese),
      ("{END_DATE}", info.endDateChinese),
      ("{START_DATE_CHINESE}", info.startDateChinese),
      ("{END_DATE_CHINESE}", info.endDateChinese),
      ("{START_DATE_ISO}", info.startDateIso),
      ("{END_DATE_ISO}", info.endDateIso),
      ("{DATE_RANGE_ISO}", info.dateRangeIso),
      ("{DATE_RANGE_COMPACT}", info.dateRangeCompact),
      ("{REPORT_TYPE_CN}", if weekly then "周报" else "日报"),
      ("{PERIOD_PHRASE}", if weekly then "过去一周" else "当日"),
      ("{THIS_PERIOD}", if weekly then "本周" else "当日") ]
  }

  /** `replace_date_placeholders` */
  method ReplaceDatePlaceholders(text: string, info: DateInfo) returns (result: string)
    ensures result == ReplaceEach(text, DateReplacements(info))
  {
    result := ReplaceInOrder(text, DateReplacements(info));
  }

  /** `上周` is replaced before `上周一至上周日`, and once no `上周` is left the
      longer key cannot occur: its replacement never changes anything, for
      any date range that is non-empty and holds neither `上` nor `周`. */
  lemma LastWeekSpanNeverMatches(text: string, info: DateInfo)
    requires info.dateRangeChinese != [] && Apart(info.dateRangeChinese, LastWeekWord)
    ensures var pairs := DateReplacements(info);
      var before := ReplaceEach(text, pairs[..2]);
      !Contains(before, LastWeekSpan) && ReplaceEach(text, pairs[..3]) == before
  {
    var pairs := DateReplacements(info);
    var range := info.dateRangeChinese;
    assert pairs[..2][..1] == pairs[..1] && pairs[..1][..0] == [] && pairs[..3][..2] == pairs[..2];
    var t0 := ReplaceEach(text, pairs[..1]);
    var before := ReplaceEach(text, pairs[..2]);
    assert before == ReplaceAll(t0, LastWeekWord, range);
    ReplaceLeavesNo(t0, LastWeekWord, range, LastWeekWord);
    if Contains(before, LastWeekSpan) {
      var i := ContainsWitness(before, LastWeekSpan);
      assert before[i..i + 2] == LastWeekSpan[..2] == LastWeekWord;
      ContainsAt(before, LastWeekWord, i);
    }
    assert ReplaceEach(text, pairs[..3]) == ReplaceAll(before, LastWeekSpan, range);
  }

  /** The range of a run holds neither `上` nor `周`: only digits, `年月日`,
      spaces, `至`, `.` and `-`. */
  lemma RangeOfDaysApart(start: Day, end: Day, reportType: string, reportLabel: string)
    ensures var r := BuildDateInfo(start, end, reportType, reportLabel).dateRangeChinese;
      r != [] && Apart(r, LastWeekWord)
  {
    ChineseApart(start);
    ChineseApart(end);
    var a, b := Chinese(start), Chinese(end);
    if start != end {
      ApartJoin(a, " 至 ", LastWeekWord);
      ApartJoin(a + " 至 ", b, LastWeekWord);
    }
  }

  lemma ChineseApart(n: Day)
    ensures Chinese(n) != [] && Apart(Chinese(n), LastWeekWord)
  {
    CivilIsValid(n);
    var c := CivilFromOrdinal(n);
    var y, m, d := YearText(c), MonthText(c), DayText(c);
    DigitsApart(y);
    DigitsApart(m);
    DigitsApart(d);
    ApartJoin(y, "年", LastWeekWord);
    ApartJoin(y + "年", m, LastWeekWord);
    ApartJoin(y + "年" + m, "月", LastWeekWord);
    ApartJoin(y + "年" + m + "月", d, LastWeekWord);
    ApartJoin(y + "年" + m + "月" + d, "日", LastWeekWord);
  }

  lemma DigitsApart(s: string)
    requires forall i :: 0 <= i < |s| ==> '0' <= s[i] <= '9'
    ensures Apart(s, LastWeekWord)
  {
    forall c | c in s ensures c !in LastWeekWord {
      var i :| 0 <= i < |s| && s[i] == c;
    }
  }

  lemma ApartJoin(a: string, b: string, p: string)
    requires Apart(a, p) && Apart(b, p)
    ensures Apart(a + b, p)
  {
    forall c | c in a + b ensures c !in p {
      var i :| 0 <= i < |a + b| && (a + b)[i] == c;
      if i < |a| {
        assert a[i] == c;
      } else {
        assert b[i - |a|] == c;
      }
    }
  }

  // ---------------------------------------------------------------------------
  // Provider and API keys

  /** `config["api_keys"]`: a dictionary, or some other JSON value, of
      which only its truth value matters. */
  datatype KeysValue = KeysDict(keys: map<string, string>) | KeysOther(truthy: bool)

  /** The entries of the configuration the key resolution reads, after the
      defaults of the nested `gemini` and `qwen` sections are merged in. */
  datatype Config = Config(
    provider: Option<string>,
    apiKey: Option<string>,
    apiKeys: Option<KeysValue>,
    qwenApiKey: Option<string>)

  /** What `load_config` decides: the provider, `api_key` and the three keys
      of `api_keys`. */
  datatype Resolved = Resolved(provider: string, apiKey: string, e: string, s: string, g: string)

  const Gemini: string := "gemini"
  const Qwen: string := "qwen"
  const Placeholder: string := "YOUR_"
  const SampleKey: string := "YOUR_API_KEY_HERE"

  /** Python's `a or b` for an optional string. */
  function Or(a: Option<string>, b: string): string {
    if a.Some? && a.value != "" then a.value else b
  }

  /** `provider_override or config.get("provider", "gemini")`, with anything
      but the two known names read as Gemini. */
  function ChooseProvider(providerOverride: Option<string>, config: Config): (p: string)
    ensures p == Gemini || p == Qwen
    ensures p == Qwen <==> Or(providerOverride, "") == Qwen
                           || (Or(providerOverride, "") == "" && config.provider == Some(Qwen))
  {
    var chosen := Or(providerOverride, match config.provider case Some(v) => v case None => Gemini);
    if chosen == Qwen then Qwen else Gemini
  }

  function EnvGet(env: map<string, string>, key: string): Option<string> {
    if key in env then Some(env[key]) else None
  }

  /** `(os.environ.get("ESG_RUNTIME_API_KEY") or "").strip()` and the three
      per-domain keys, which fall back on it. */
  function RuntimeSingle(env: map<string, string>): string {
    Strip(Or(EnvGet(env, "ESG_RUNTIME_API_KEY"), ""))
  }

  function RuntimeKey(env: map<string, string>, domain: string): string {
    Strip(Or(EnvGet(env, "ESG_RUNTIME_API_KEY_" + domain), RuntimeSingle(env)))
  }

  predicate UsableKey(k: string) {
    k != "" && !IsPrefix(Placeholder, k)
  }

  /** Whether the configured dictionary holds a usable key for `domain`. */
  predicate HasUsable(keys: map<string, string>, domain: string) {
    domain in keys && UsableKey(keys[domain])
  }

  /** The first of E, S, G that the configured key dictionary lacks or holds
      empty or as a `YOUR_…` placeholder. */
  function BadDomain(keys: map<string, string>): (r: Option<string>)
    ensures r.None? <==> HasUsable(keys, "E") && HasUsable(keys, "S") && HasUsable(keys, "G")
  {
    if !HasUsable(keys, "E") then Some("E")
    else if !HasUsable(keys, "S") then Some("S")
    else if !HasUsable(keys, "G") then Some("G")
    else None
  }

  /** `runtime_single or config.get("qwen_api_key") or DASHSCOPE_API_KEY` */
  function QwenKey(config: Config, env: map<string, string>): string {
    Or(Some(RuntimeSingle(env)), Or(config.qwenApiKey, Or(EnvGet(env, "DASHSCOPE_API_KEY"), "")))
  }

  /** Qwen uses one key for every domain. */
  function ResolveQwen(key: string): (r: Result<Resolved>)
    ensures r.Err? <==> !UsableKey(key)
    ensures r.Ok? ==> r.value == Resolved(Qwen, key, key, key, key)
  {
    if !UsableKey(key) then Err("qwen api key missing")
    else Ok(Resolved(Qwen, key, key, key, key))
  }

  /** Gemini with runtime keys: a domain without its own key borrows E, then
      S, then G. */
  function ResolveRuntime(re: string, rs: string, rg: string): (r: Resolved)
    requires re != "" || rs != "" || rg != ""
    ensures r.e != "" && r.s != "" && r.g != "" && r.apiKey == r.e && r.provider == Gemini
    ensures (re != "" ==> r.e == re) && (rs != "" ==> r.s == rs) && (rg != "" ==> r.g == rg)
  {
    var e := if re != "" then re else if rs != "" then rs else rg;
    var s := if rs != "" then rs else if re != "" then re else rg;
    var g := if rg != "" then rg else if re != "" then re else rs;
    Resolved(Gemini, e, e, s, g)
  }

  /** Gemini without runtime keys: the `api_keys` dictionary when it is a
      non-empty one, else the single `api_key`. */
  function ResolveConfigured(config: Config): (r: Result<Resolved>)
    ensures r.Ok? ==> r.value.provider == Gemini
    ensures r.Ok? ==> r.value.apiKey != "" && r.value.e != "" && r.value.s != "" && r.value.g != ""
  {
    match config.apiKeys
    case Some(KeysDict(keys)) =>
      if |keys| > 0 then
        match BadDomain(keys)
        case Some(d) => Err("gemini api key " + d + " missing")
        case None => Ok(Resolved(Gemini, Or(config.apiKey, keys["E"]), keys["E"], keys["S"], keys["G"]))
      else ResolveSingle(config.apiKey)
    case Some(KeysOther(truthy)) =>
      if truthy then Err("api_keys must be a dictionary") else ResolveSingle(config.apiKey)
    case None => ResolveSingle(config.apiKey)
  }

  /** One configured key for all three domains; only an empty key and the
      sample value itself are refused. */
  function ResolveSingle(apiKey: Option<string>): (r: Result<Resolved>)
    ensures var key := Or(apiKey, "");
      && (r.Err? <==> key == "" || key == SampleKey)
      && (r.Ok? ==> r.value == Resolved(Gemini, key, key, key, key))
  {
    var key := Or(apiKey, "");
    if key == "" || key == SampleKey then Err("gemini api key missing")
    else Ok(Resolved(Gemini, key, key, key, key))
  }

  /** The key resolution of `load_config`, with the configuration and the
      environment given. */
  function ResolveKeys(config: Config, env: map<string, string>, providerOverride: Option<string>): (r: Result<Resolved>)
    ensures r.Ok? ==> r.value.provider == ChooseProvider(providerOverride, config)
    ensures r.Ok? ==> r.value.apiKey != "" && r.value.e != "" && r.value.s != "" && r.value.g != ""
  {
    if ChooseProvider(providerOverride, config) == Qwen then ResolveQwen(QwenKey(config, env))
    else
      var re, rs, rg := RuntimeKey(env, "E"), RuntimeKey(env, "S"), RuntimeKey(env, "G");
      if re != "" || rs != "" || rg != "" then Ok(ResolveRuntime(re, rs, rg))
      else ResolveConfigured(config)
  }

  /** With a non-empty configured dictionary, the call fails exactly when
      one of E, S, G is missing, empty or a `YOUR_…` placeholder, and
      otherwise takes the three keys from it, `api_key` defaulting to E. */
  lemma ConfiguredKeys(config: Config, keys: map<string, string>)
    requires config.apiKeys == Some(KeysDict(keys)) && |keys| > 0
    ensures var r := ResolveConfigured(config);
      && (r.Err? <==> !(HasUsable(keys, "E") && HasUsable(keys, "S") && HasUsable(keys, "G")))
      && (r.Ok? ==> && r.value.e == keys["E"] && r.value.s == keys["S"] && r.value.g == keys["G"]
                    && r.value.apiKey == Or(config.apiKey, keys["E"]))
  {
  }

  /** With no dictionary, an empty one or a falsy other value, the single key
      decides. */
  lemma SingleKeyFallback(config: Config)
    requires config.apiKeys.None? || config.apiKeys == Some(KeysOther(false)) || config.apiKeys == Some(KeysDict(map[]))
    ensures ResolveConfigured(config) == ResolveSingle(config.apiKey)
  {
  }
}
