/** Where the fillers write their documents when no output path is given:
    next to the report JSON, under a name derived from the JSON's stem. Paths
    are POSIX paths without `.`/`..` components or repeated slashes. */
module OutputNames {
  import opened Text

  const ReportSuffix: string := "_报告"
  const ReportPrefix: string := "报告_"
  const FinalWord: string := "最终版.docx"
  const FinalSuffixWord: string := "_最终版.docx"
  const FinalSuffixPpt: string := "_最终版.pptx"

  /** The index of the last `c` in `s`, or -1: `str.rfind`. */
  function LastIndex(s: string, c: char): (i: int)
    ensures -1 <= i < |s|
    ensures i >= 0 ==> s[i] == c
    ensures c !in s[i + 1..]
    decreases |s|
  {
    if s == [] then -1
    else if s[|s| - 1] == c then |s| - 1
    else
      var init := s[..|s| - 1];
      var i := LastIndex(init, c);
      assert s[i + 1..] == init[i + 1..] + [s[|s| - 1]];
      i
  }

  /** `Path(p).name`: what follows the last slash. */
  function FileName(path: string): (r: string)
    ensures IsSuffix(r, path) && '/' !in r
    ensures '/' !in path ==> r == path
  {
    var i := LastIndex(path, '/');
    path[i + 1..]
  }

  /** `Path(p).parent / name` */
  function Sibling(path: string, name: string): (r: string)
    ensures IsSuffix(name, r)
    ensures '/' !in path ==> r == name
  {
    var i := LastIndex(path, '/');
    path[..i + 1] + name
  }

  /** `PurePath.stem` of a file name: without its last suffix, where a
      suffix is a dot neither first nor last. */
  function Stem(name: string): (r: string)
    ensures IsPrefix(r, name)
    ensures r == name || (0 < |r| < |name| - 1 && name[|r|] == '.' && '.' !in name[|r| + 1..])
  {
    var i := LastIndex(name, '.');
    if 0 < i < |name| - 1 then name[..i]
    else name
  }

  /** `_date_part_from_json_path`: the stem without a trailing `_报告`, else
      without a leading `报告_`, else the stem itself. */
  function DatePart(stem: string): (r: string)
    ensures IsSuffix(ReportSuffix, stem) ==> stem == r + ReportSuffix
    ensures !IsSuffix(ReportSuffix, stem) && IsPrefix(ReportPrefix, stem) ==> stem == ReportPrefix + r
    ensures !IsSuffix(ReportSuffix, stem) && !IsPrefix(ReportPrefix, stem) ==> r == stem
  {
    if IsSuffix(ReportSuffix, stem) then stem[..|stem| - |ReportSuffix|]
    else if IsPrefix(ReportPrefix, stem) then stem[|ReportPrefix|..]
    else stem
  }

  /** The date part of the report JSON at `jsonPath`. */
  function JsonDatePart(jsonPath: string): string {
    DatePart(Stem(FileName(jsonPath)))
  }

  /** The Word document's default path: `{date_part}_最终版.docx` next to the
      JSON when its stem is marked as a report, `最终版.docx` otherwise. */
  function WordOutputPath(jsonPath: string): (r: string)
    ensures var stem := Stem(FileName(jsonPath));
      && (IsSuffix(ReportSuffix, stem) || IsPrefix(ReportPrefix, stem) ==>
            r == Sibling(jsonPath, DatePart(stem) + FinalSuffixWord))
      && (!IsSuffix(ReportSuffix, stem) && !IsPrefix(ReportPrefix, stem) ==>
            r == Sibling(jsonPath, FinalWord))
  {
    var stem := Stem(FileName(jsonPath));
    if IsSuffix(ReportSuffix, stem) || IsPrefix(ReportPrefix, stem) then
      Sibling(jsonPath, DatePart(stem) + FinalSuffixWord)
    else Sibling(jsonPath, FinalWord)
  }

  /** The presentation's default path: always `{date_part}_最终版.pptx` next
      to the JSON. */
  function PptOutputPath(jsonPath: string): (r: string)
    ensures IsSuffix(FinalSuffixPpt, r)
    ensures '/' !in jsonPath ==> r == JsonDatePart(jsonPath) + FinalSuffixPpt
  {
    Sibling(jsonPath, JsonDatePart(jsonPath) + FinalSuffixPpt)
  }

  /** Marking a date part as a report and reading it back gives it back;
      the trailing mark wins over a leading one. */
  lemma DatePartRoundTrip(d: string)
    ensures DatePart(d + ReportSuffix) == d
    ensures DatePart(ReportPrefix + d) == d || IsSuffix(ReportSuffix, ReportPrefix + d)
  {
    var s := d + ReportSuffix;
    assert s[|s| - |ReportSuffix|..] == ReportSuffix;
    var t := ReportPrefix + d;
    assert t[..|ReportPrefix|] == ReportPrefix;
  }

  /** The file a report JSON is saved as, `{suffix}_报告.json`, has stem
      `{suffix}_报告` whatever dots the suffix holds. */
  lemma ReportJsonStem(suffix: string)
    ensures Stem(suffix + ReportSuffix + ".json") == suffix + ReportSuffix
  {
    var name := suffix + ReportSuffix + ".json";
    var i := |suffix + ReportSuffix|;
    assert name[i] == '.';
    assert name[i + 1..] == "json";
    assert LastIndex(name, '.') == i;
  }

  /** For the JSON the saver writes into directory `dir`, the Word document
      and the presentation land beside it, named by the same suffix, and
      the date part read back is that suffix. */
  lemma OutputsFollowJson(dir: string, suffix: string)
    requires '/' !in suffix
    ensures var jsonPath := dir + "/" + (suffix + ReportSuffix + ".json");
      && JsonDatePart(jsonPath) == suffix
      && WordOutputPath(jsonPath) == dir + "/" + (suffix + FinalSuffixWord)
      && PptOutputPath(jsonPath) == dir + "/" + (suffix + FinalSuffixPpt)
  {
    var name := suffix + ReportSuffix + ".json";
    var jsonPath := dir + "/" + name;
    assert '/' !in name;
    SiblingIn(dir, name, suffix + FinalSuffixWord);
    SiblingIn(dir, name, suffix + FinalSuffixPpt);
    ReportJsonStem(suffix);
    DatePartRoundTrip(suffix);
    assert IsSuffix(ReportSuffix, suffix + ReportSuffix) by {
      var s := suffix + ReportSuffix;
      assert s[|s| - |ReportSuffix|..] == ReportSuffix;
    }
  }

  /** In a directory, a file's name is what follows the directory, and its
      sibling is the other name in the same directory. */
  lemma SiblingIn(dir: string, name: string, other: string)
    requires '/' !in name
    ensures FileName(dir + "/" + name) == name
    ensures Sibling(dir + "/" + name, other) == dir + "/" + other
  {
    var s := dir + "/" + name;
    assert s[|dir| + 1..] == name;
    LastIndexAt(s, '/', |dir|);
    assert s[..|dir| + 1] == dir + "/";
  }

  /** `LastIndex` finds a `c` after which none follows. */
  lemma {:induction false} LastIndexAt(s: string, c: char, i: nat)
    requires i < |s| && s[i] == c && c !in s[i + 1..]
    ensures LastIndex(s, c) == i
    decreases |s|
  {
    if i < |s| - 1 {
      assert s[|s| - 1] == s[i + 1..][|s| - 2 - i];
      var init := s[..|s| - 1];
      assert init[i + 1..] == s[i + 1..|s| - 1];
      LastIndexAt(init, c, i);
    }
  }
}
