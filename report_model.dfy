/** The report record the fillers read (`report_data` in
    word/word_filler.py:145-194 and fill/ppt_filler.py:21-27) and the saver
    writes (report/report_saver.py:99-133). A text field is an option:
    `None` stands for a JSON `null`, or, for the fields the filler reads with
    `.get` (section titles, news titles and news contents), for a missing
    key; `clean_text` turns either into the empty string. The fields it
    reads by indexing (the date range, the hotspot, the three sections and
    their news lists) are taken to be present: a record without one makes
    the source raise `KeyError`, which this model does not cover. */
module ReportModel {
  import opened Wrappers

  datatype NewsItem = NewsItem(title: Option<string>, content: Option<string>)

  datatype Section = Section(sectionTitle: Option<string>, newsItems: seq<NewsItem>)

  datatype Report = Report(
    dateRange: Option<string>,
    generationTime: Option<string>,
    hotspotFocus: Option<string>,
    environmental: Section,
    social: Section,
    governance: Section)
}
