/**
 * The job ledger: the spreadsheet the e-mail parser keeps
 * (`initialize_spreadsheet`, `add_jobs_to_spreadsheet`).
 *
 * The workbook file is the `saved` field of a `JobSheet`: `None` while no file
 * exists, otherwise its rows, header first. A row is its cell values and the
 * style of its first cell. Fonts other than the priority cell's, column widths
 * and frozen panes are not modelled. Fetching a posting page is the `fetch`
 * parameter and today's date the `today` parameter.
 */
module Ledger {
  import opened Wrappers
  import opened Text
  import opened Lists
  import opened Scrape
  import opened Priority

  /** A cell value as `iter_rows(values_only=True)` returns it. */
  datatype Cell = Blank | Num(n: int) | Str(s: string)

  /** The style of a row's first cell. */
  datatype Fill = Plain | HeaderStyle | GreenBold | Yellow

  datatype Row = Row(cells: seq<Cell>, fill: Fill)

  /** A scraped job with the priority `calculate_priority` gave it. */
  datatype RankedJob = RankedJob(job: JobData, priority: int)

  const Headers: seq<string> := [
    "Priority", "Job Title", "Company", "Location", "Travel Required", "Salary/Rate", "Job URL", "Date Added"
  ]
  /** `row[6]`: the "Job URL" column. */
  const UrlColumn := 6
  const TravelDefault := "Not specified"
  const SalaryDefault := "Not Listed"
  /** Jobs whose location lower-cases to this are not recorded. */
  const SkippedLocation := "not specified"

  function HeaderRow(): Row
  {
    Row(seq(|Headers|, i requires 0 <= i < |Headers| => Str(Headers[i])), HeaderStyle)
  }

  /** Green and bold for priority 1, light yellow for 2, no fill otherwise. */
  function FillFor(priority: int): (fill: Fill)
    ensures fill == GreenBold <==> priority == High
    ensures fill == Yellow <==> priority == Medium
  {
    if priority == 1 then GreenBold else if priority == 2 then Yellow else Plain
  }

  /** The row appended for a job on date `today`: one cell per column of the header, the priority
      first, the job's URL in the URL column, and the first cell styled by the priority. */
  function JobRow(r: RankedJob, today: string): (row: Row)
    ensures |row.cells| == |Headers|
    ensures row.cells[0] == Num(r.priority) && UrlCell(row) == Str(r.job.url)
    ensures row.cells[3] == Str(r.job.location)
    ensures row.fill == GreenBold <==> r.priority == High
  {
    Row([Num(r.priority), Str(r.job.title), Str(r.job.company), Str(r.job.location),
         Str(TravelDefault), Str(SalaryDefault), Str(r.job.url), Str(today)], FillFor(r.priority))
  }

  function JobRows(jobs: seq<RankedJob>, today: string): (rows: seq<Row>)
    ensures |rows| == |jobs|
  {
    seq(|jobs|, i requires 0 <= i < |jobs| => JobRow(jobs[i], today))
  }

  /** `row[6]` of a row read back; a row shorter than the sheet is padded with empty cells
      (the header row makes every sheet written here eight columns wide). */
  function UrlCell(row: Row): Cell
  {
    if |row.cells| > UrlColumn then row.cells[UrlColumn] else Blank
  }

  /** Python truthiness of a cell value. */
  predicate Truthy(c: Cell)
  {
    match c
    case Blank => false
    case Num(n) => n != 0
    case Str(s) => s != ""
  }

  /** `existing_urls`: the non-empty URL cells of the rows after the header. */
  function RecordedUrls(rows: seq<Row>): (urls: set<Cell>)
    ensures forall c :: c in urls ==> Truthy(c)
    ensures |rows| <= 1 ==> urls == {}
    ensures forall k :: 1 <= k < |rows| && Truthy(UrlCell(rows[k])) ==> UrlCell(rows[k]) in urls
  {
    set k | 1 <= k < |rows| && Truthy(UrlCell(rows[k])) :: UrlCell(rows[k])
  }

  /** The key the priority sort uses. */
  function PriorityOf(r: RankedJob): int
  {
    r.priority
  }

  /** The job one URL contributes: nothing when it is already recorded, when the page could not
      be fetched, or when the location is "not specified". */
  function Candidate(url: string, recorded: set<Cell>, fetch: string -> Response,
                     high: seq<string>, medium: seq<string>): (c: Option<RankedJob>)
    ensures c.Some? <==>
      && Str(url) !in recorded
      && ScrapeJob(url, fetch(url)).Some?
      && ToLower(ScrapeJob(url, fetch(url)).value.location) != SkippedLocation
    ensures c.Some? ==> ScrapeJob(url, fetch(url)) == Some(c.value.job)
    ensures c.Some? ==> c.value.job.url == url && fetch(url).Fetched?
    ensures c.Some? ==> c.value.priority in {High, Medium, Low}
  {
    if Str(url) in recorded then None
    else
      match ScrapeJob(url, fetch(url))
      case None => None
      case Some(job) =>
        if ToLower(job.location) == SkippedLocation then None
        else Some(RankedJob(job, Classify(ParserText(job.title, job.company), high, medium)))
  }

  /** `new_jobs` after the loop over the URLs, in the order they were scraped. */
  function NewJobs(urls: seq<string>, recorded: set<Cell>, fetch: string -> Response,
                   high: seq<string>, medium: seq<string>): seq<RankedJob>
  {
    FilterMap(urls, url => Candidate(url, recorded, fetch, high, medium))
  }

  /** The rows `load_workbook` sees: a missing file is first created with the header row. */
  function LoadedRows(saved: Option<seq<Row>>): seq<Row>
  {
    match saved
    case None => [HeaderRow()]
    case Some(rows) => rows
  }

  /** The rows appended by one run: the new jobs stably sorted by priority. */
  function AppendedRows(rows: seq<Row>, urls: seq<string>, fetch: string -> Response,
                        high: seq<string>, medium: seq<string>, today: string): seq<Row>
  {
    JobRows(SortBy(NewJobs(urls, RecordedUrls(rows), fetch, high, medium), PriorityOf), today)
  }

  class JobSheet {
    /** The workbook file: `None` while it does not exist. */
    var saved: Option<seq<Row>>

    constructor (saved: Option<seq<Row>>)
      ensures this.saved == saved
    {
      this.saved := saved;
    }

    /** `initialize_spreadsheet`: a new workbook holding only the header row. */
    method InitializeSpreadsheet()
      modifies this
      ensures saved == Some([HeaderRow()])
    {
      saved := Some([HeaderRow()]);
    }

    /** `add_jobs_to_spreadsheet`: creates the file if needed, reads the recorded URLs, scrapes
        and ranks the new ones, appends them sorted by priority and returns how many it added. */
    method AddJobs(urls: seq<string>, fetch: string -> Response, high: seq<string>, medium: seq<string>,
                   today: string) returns (newCount: nat)
      modifies this
      ensures saved == Some(LoadedRows(old(saved)) + AppendedRows(LoadedRows(old(saved)), urls, fetch, high, medium, today))
      ensures newCount == |AppendedRows(LoadedRows(old(saved)), urls, fetch, high, medium, today)|
    {
      if saved.None? {
        InitializeSpreadsheet();
      }
      var rows := saved.value;
      var existing := ExistingUrls(rows);
      var newJobs := ScrapeNewJobs(urls, existing, fetch, high, medium);
      var sorted := SortBy(newJobs, PriorityOf);
      var appended;
      appended, newCount := AppendJobRows(rows, sorted, today);
      saved := Some(appended);
    }
  }

  /** The loop over the data rows collecting `existing_urls`. */
  method ExistingUrls(rows: seq<Row>) returns (existing: set<Cell>)
    ensures existing == RecordedUrls(rows)
  {
    existing := {};
    for k := 0 to |rows|
      invariant existing == set m | 1 <= m < k && Truthy(UrlCell(rows[m])) :: UrlCell(rows[m])
    {
      if k >= 1 && Truthy(UrlCell(rows[k])) {
        existing := existing + {UrlCell(rows[k])};
      }
    }
  }

  /** The loop over the URLs filling `new_jobs`. */
  method ScrapeNewJobs(urls: seq<string>, existing: set<Cell>, fetch: string -> Response,
                       high: seq<string>, medium: seq<string>) returns (newJobs: seq<RankedJob>)
    ensures newJobs == NewJobs(urls, existing, fetch, high, medium)
  {
    newJobs := [];
    for i := 0 to |urls|
      invariant newJobs == NewJobs(urls[..i], existing, fetch, high, medium)
    {
      assert urls[..i + 1][..i] == urls[..i];
      var url := urls[i];
      if Str(url) in existing {
        continue;
      }
      var jobData := ScrapeJob(url, fetch(url));
      if jobData.Some? {
        var job := jobData.value;
        if ToLower(job.location) == SkippedLocation {
          continue;
        }
        var text := ToLower(ToLower(job.title) + " " + ToLower(job.company));
        var priority := CalculatePriority(text, high, medium);
        newJobs := newJobs + [RankedJob(job, priority)];
      }
    }
    assert urls[..|urls|] == urls;
  }

  /** The loop appending one row per sorted job and counting them. */
  method AppendJobRows(rows: seq<Row>, sorted: seq<RankedJob>, today: string) returns (appended: seq<Row>, newCount: nat)
    ensures appended == rows + JobRows(sorted, today)
    ensures newCount == |sorted|
  {
    appended := rows;
    newCount := 0;
    for j := 0 to |sorted|
      invariant appended == rows + JobRows(sorted[..j], today)
      invariant newCount == j
    {
      assert JobRows(sorted[..j + 1], today) == JobRows(sorted[..j], today) + [JobRow(sorted[j], today)];
      appended := appended + [JobRow(sorted[j], today)];
      newCount := newCount + 1;
    }
    assert sorted[..|sorted|] == sorted;
  }

  // ---------------------------------------------------------------------------
  // Properties

  /** A job is appended exactly when some URL of the run yields it: the URL is not in the URL
      column of a data row, its page was fetched, its location is not "not specified", and its
      priority is the keyword classification of its title and company. */
  lemma NewJobsMembers(urls: seq<string>, recorded: set<Cell>, fetch: string -> Response,
                                          high: seq<string>, medium: seq<string>, r: RankedJob)
    ensures r in NewJobs(urls, recorded, fetch, high, medium) <==>
      exists i :: 0 <= i < |urls| && Candidate(urls[i], recorded, fetch, high, medium) == Some(r)
  {
    FilterMapMembers(urls, url => Candidate(url, recorded, fetch, high, medium), r);
  }

  /** A URL already in the sheet, a page that could not be fetched and a job whose location is
      "not specified" never give a new row. */
  lemma NeverAppended(rows: seq<Row>, urls: seq<string>, fetch: string -> Response,
                      high: seq<string>, medium: seq<string>, today: string, k: nat)
    requires k < |AppendedRows(rows, urls, fetch, high, medium, today)|
    ensures UrlCell(AppendedRows(rows, urls, fetch, high, medium, today)[k]) !in RecordedUrls(rows)
    ensures exists i :: (0 <= i < |urls| &&
      UrlCell(AppendedRows(rows, urls, fetch, high, medium, today)[k]) == Str(urls[i]) &&
      fetch(urls[i]).Fetched? &&
      ToLower(AppendedRows(rows, urls, fetch, high, medium, today)[k].cells[3].s) != SkippedLocation)
  {
    var jobs := NewJobs(urls, RecordedUrls(rows), fetch, high, medium);
    var sorted := SortBy(jobs, PriorityOf);
    var r := sorted[k];
    assert multiset(sorted) == multiset(jobs);
    assert r in multiset(jobs);
    NewJobsMembers(urls, RecordedUrls(rows), fetch, high, medium, r);
    var i :| 0 <= i < |urls| && Candidate(urls[i], RecordedUrls(rows), fetch, high, medium) == Some(r);
    var row := AppendedRows(rows, urls, fetch, high, medium, today)[k];
    assert row == JobRow(r, today);
    assert UrlCell(row) == Str(urls[i]) && Str(urls[i]) !in RecordedUrls(rows);
    assert row.cells[3].s == r.job.location;
    assert fetch(urls[i]).Fetched? && ToLower(r.job.location) != SkippedLocation;
  }

  /** The appended rows are in nondecreasing priority, and among equal priorities they keep the
      order the URLs were scraped in. */
  lemma AppendedRowsAreSorted(rows: seq<Row>, urls: seq<string>, fetch: string -> Response,
                              high: seq<string>, medium: seq<string>, today: string)
    ensures forall i, j :: 0 <= i < j < |AppendedRows(rows, urls, fetch, high, medium, today)| ==>
      AppendedRows(rows, urls, fetch, high, medium, today)[i].cells[0].n <=
      AppendedRows(rows, urls, fetch, high, medium, today)[j].cells[0].n
    ensures forall p :: Having(SortBy(NewJobs(urls, RecordedUrls(rows), fetch, high, medium), PriorityOf), PriorityOf, p)
                     == Having(NewJobs(urls, RecordedUrls(rows), fetch, high, medium), PriorityOf, p)
  {
    var jobs := NewJobs(urls, RecordedUrls(rows), fetch, high, medium);
    forall p
      ensures Having(SortBy(jobs, PriorityOf), PriorityOf, p) == Having(jobs, PriorityOf, p)
    {
      SortByIsStable(jobs, PriorityOf, p);
    }
  }

  /** A row written for a job is read back with the job's URL in the URL column, and its first
      cell is styled by its priority. */
  lemma JobRowReadsBack(r: RankedJob, today: string)
    ensures |JobRow(r, today).cells| == |Headers|
    ensures UrlCell(JobRow(r, today)) == Str(r.job.url)
    ensures r.job.url != "" ==> UrlCell(JobRow(r, today)) in RecordedUrls([HeaderRow(), JobRow(r, today)])
    ensures JobRow(r, today).fill == GreenBold <==> r.priority == High
    ensures JobRow(r, today).fill == Yellow <==> r.priority == Medium
  {
    assert UrlCell([HeaderRow(), JobRow(r, today)][1]) == Str(r.job.url);
  }

  /** A new sheet holds exactly the header row, whose cells are the eight column names. */
  lemma HeaderRowHoldsColumnNames()
    ensures |HeaderRow().cells| == 8
    ensures forall i :: 0 <= i < 8 ==> HeaderRow().cells[i] == Str(Headers[i])
    ensures RecordedUrls([HeaderRow()]) == {}
  {
  }

  /** Every URL of the run that gets a row is recorded afterwards (URLs are never empty). */
  lemma AppendedUrlsAreRecorded(rows: seq<Row>, urls: seq<string>, fetch: string -> Response,
                                high: seq<string>, medium: seq<string>, today: string, i: nat)
    requires |rows| >= 1
    requires i < |urls| && urls[i] != ""
    requires Candidate(urls[i], RecordedUrls(rows), fetch, high, medium).Some?
    ensures Str(urls[i]) in RecordedUrls(rows + AppendedRows(rows, urls, fetch, high, medium, today))
  {
    var r := Candidate(urls[i], RecordedUrls(rows), fetch, high, medium).value;
    NewJobsMembers(urls, RecordedUrls(rows), fetch, high, medium, r);
    var k := AppendedRowOf(rows, urls, fetch, high, medium, today, r);
    var all := rows + AppendedRows(rows, urls, fetch, high, medium, today);
    assert all[|rows| + k] == JobRow(r, today);
    JobRowReadsBack(r, today);
    assert UrlCell(all[|rows| + k]) == Str(urls[i]);
  }

  /** Where the row of a new job ends up among the appended rows. */
  lemma AppendedRowOf(rows: seq<Row>, urls: seq<string>, fetch: string -> Response,
                      high: seq<string>, medium: seq<string>, today: string, r: RankedJob) returns (k: nat)
    requires r in NewJobs(urls, RecordedUrls(rows), fetch, high, medium)
    ensures k < |AppendedRows(rows, urls, fetch, high, medium, today)|
    ensures AppendedRows(rows, urls, fetch, high, medium, today)[k] == JobRow(r, today)
  {
    var jobs := NewJobs(urls, RecordedUrls(rows), fetch, high, medium);
    var sorted := SortBy(jobs, PriorityOf);
    assert multiset(sorted) == multiset(jobs);
    assert r in multiset(sorted);
    k :| 0 <= k < |sorted| && sorted[k] == r;
  }

  /** Recorded URLs stay recorded when rows are appended. */
  lemma RecordedUrlsGrow(rows: seq<Row>, more: seq<Row>)
    ensures RecordedUrls(rows) <= RecordedUrls(rows + more)
  {
    forall c | c in RecordedUrls(rows)
      ensures c in RecordedUrls(rows + more)
    {
      var k :| 1 <= k < |rows| && Truthy(UrlCell(rows[k])) && UrlCell(rows[k]) == c;
      assert (rows + more)[k] == rows[k];
    }
  }

  /** Running again with the same URLs and the same pages adds nothing: every URL that got a row
      the first time is now recorded, and every other one is turned away as before. */
  lemma SecondRunAddsNothing(rows: seq<Row>, urls: seq<string>, fetch: string -> Response,
                             high: seq<string>, medium: seq<string>, today: string, later: string)
    requires |rows| >= 1
    requires forall i :: 0 <= i < |urls| ==> urls[i] != ""
    ensures AppendedRows(rows + AppendedRows(rows, urls, fetch, high, medium, today), urls, fetch, high, medium, later) == []
  {
    var after := rows + AppendedRows(rows, urls, fetch, high, medium, today);
    RecordedUrlsGrow(rows, AppendedRows(rows, urls, fetch, high, medium, today));
    forall i | 0 <= i < |urls|
      ensures Candidate(urls[i], RecordedUrls(after), fetch, high, medium).None?
    {
      if Candidate(urls[i], RecordedUrls(rows), fetch, high, medium).Some? {
        AppendedUrlsAreRecorded(rows, urls, fetch, high, medium, today, i);
      }
    }
    NoCandidatesNoJobs(urls, RecordedUrls(after), fetch, high, medium);
  }

  lemma {:induction false} NoCandidatesNoJobs(urls: seq<string>, recorded: set<Cell>, fetch: string -> Response,
                                              high: seq<string>, medium: seq<string>)
    requires forall i :: 0 <= i < |urls| ==> Candidate(urls[i], recorded, fetch, high, medium).None?
    ensures NewJobs(urls, recorded, fetch, high, medium) == []
  {
    if urls != [] {
      var init := urls[..|urls| - 1];
      assert forall i :: 0 <= i < |init| ==> init[i] == urls[i];
      NoCandidatesNoJobs(init, recorded, fetch, high, medium);
    }
  }

  /** Distinct URLs give rows with distinct URLs. */
  lemma {:induction false} DistinctUrlsGiveDistinctJobs(urls: seq<string>, recorded: set<Cell>, fetch: string -> Response,
                                                        high: seq<string>, medium: seq<string>)
    requires Distinct(urls)
    ensures forall a, b :: 0 <= a < b < |NewJobs(urls, recorded, fetch, high, medium)| ==>
      NewJobs(urls, recorded, fetch, high, medium)[a].job.url != NewJobs(urls, recorded, fetch, high, medium)[b].job.url
  {
    if urls != [] {
      var init := urls[..|urls| - 1];
      var last := urls[|urls| - 1];
      assert Distinct(init);
      DistinctUrlsGiveDistinctJobs(init, recorded, fetch, high, medium);
      var earlier := NewJobs(init, recorded, fetch, high, medium);
      forall a | 0 <= a < |earlier|
        ensures earlier[a].job.url != last
      {
        NewJobsMembers(init, recorded, fetch, high, medium, earlier[a]);
        var i :| 0 <= i < |init| && Candidate(init[i], recorded, fetch, high, medium) == Some(earlier[a]);
      }
      match Candidate(last, recorded, fetch, high, medium)
      case None =>
      case Some(r) =>
    }
  }
}
