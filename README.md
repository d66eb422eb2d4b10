# LinkedIn job tracker — verified model of the ingestion pipeline and the dashboard list

This project models the core of a small job tracker written in Python. It proves properties of that model in Dafny.

The tracker has two parts:

- **The e-mail parser** (`linkedin_email_parser.py`).
  - It reads LinkedIn job-alert messages and pulls the posting links out of them.
  - It rewrites every link to one canonical URL, `https://www.linkedin.com/jobs/view/<id>`.
  - It scrapes each new posting page for its title, company and location, and ranks the job 1, 2 or 3 by keyword.
  - It appends the new jobs, sorted by rank, to a spreadsheet ledger, skipping any URL the ledger already holds.
- **The web dashboard** (`app.py`).
  - It turns job-search API elements into records, drops repeated posting ids and sorts by rank.
  - It replaces its in-memory list on every refresh, and serves per-rank pages.

Modules:

| file | module | what it holds |
|---|---|---|
| `wrappers.dfy` | `Wrappers` | `Option` |
| `text.dfy` | `Text` | ASCII lower-casing, Python's `\s` set, digits, `k in s` on strings |
| `lists.dfy` | `Lists` | `list(set)`, Python's stable `list.sort` on an integer key, the per-key filter, subsequences, unions |
| `job_urls.dfy` | `JobUrls` | link extraction per body, and the batch of messages |
| `scrape.dfy` | `Scrape` | selector fallback, title clean-up, truncation, the scrape outcome |
| `priority.dfy` | `Priority` | `calculate_priority` (both copies) and the default keyword lists |
| `ledger.dfy` | `Ledger` | the spreadsheet as the class `JobSheet`, with `initialize_spreadsheet` and `add_jobs_to_spreadsheet` |
| `dashboard.dfy` | `Dashboard` | record construction, first-occurrence dedup, the sorted list, and the store as the class `JobBoard` with refresh and per-rank pages |

How the model is built:

- **Imperative code stays imperative.** This covers the loops that fill a set, extend a list, build `existing_urls`, append rows and count them, and the dedup loop with its `seen_ids`. Each of these is a method with loop invariants, proved equal to a specification function. The properties are proved about those functions.
- **State updated in place becomes a class.** The spreadsheet file and the dashboard's `jobs_data` are classes whose methods modify their fields.
- **Pure code stays pure.** `calculate_priority` is both a function (`Classify`) and a method with the source's early-returning loops (`CalculatePriority`), and the method is proved to return what the function returns.

## Model

| member | source | states |
|---|---|---|
| JobUrls.ExtractJobUrls | linkedin_email_parser.py:136-151 | The returned list has no repeated URL and holds exactly the canonical URLs of the ids the two link patterns capture at some position of the body. |
| JobUrls.MatchAtIsLinkMatch | linkedin_email_parser.py:138-145 | The position-by-position reading of a pattern (`MatchAt`) captures `id` at `i` exactly when the regular expression matches there, with or without the optional `www.`, and `id` is the whole digit run after the fixed text. |
| JobUrls.JobUrlsInAreLinkIds | linkedin_email_parser.py:138-149 | A URL is reported for a body if and only if it is `https://www.linkedin.com/jobs/view/` followed by the id some link in the body carries. |
| JobUrls.LinkYieldsCanonicalUrl | linkedin_email_parser.py:138-148 | A `/jobs/view/` or `/comm/jobs/view/` link, with or without `www.`, anywhere in a body yields the canonical URL of its id, so both shapes of one id give the same URL. |
| JobUrls.CanonicalUrlInjective | linkedin_email_parser.py:148 | Two canonical URLs are equal exactly when their ids are, so deduplicating URLs deduplicates postings. |
| JobUrls.NoLinkGivesNoUrls | linkedin_email_parser.py:143-151 | A body in which no pattern matches gives the empty result. |
| JobUrls.MatchesDoNotOverlap | linkedin_email_parser.py:145 | No match starts strictly inside another match's fixed text or digits, so trying every position finds what the non-overlapping `re.findall` scan finds. |
| JobUrls.JobUrlsIgnoreCase | linkedin_email_parser.py:145 | Bodies that differ only in the case of ASCII letters give the same URLs (`re.IGNORECASE`). |
| JobUrls.MatchAtIgnoresCase | linkedin_email_parser.py:145 | At each position, the id captured does not depend on letter case. |
| JobUrls.CanonicalUrlIsFixedPoint | linkedin_email_parser.py:139-148 | Extracting from a canonical URL gives back exactly that URL. |
| JobUrls.OnlyMatchOfCanonicalUrl | linkedin_email_parser.py:139-140 | In a canonical URL only the view pattern matches, only at the start, and it captures the id. |
| JobUrls.DigitRunLength | linkedin_email_parser.py:139-140 | `\d+` takes the maximal run of digits: every character in the run is a digit, and the character after it is not. |
| JobUrls.FetchJobUrls | linkedin_email_parser.py:167-206 | Only the last 50 messages are read. The returned list has no repeated URL and holds exactly the URLs of the messages that were read and had a non-empty body. |
| JobUrls.BatchUrlsMembers | linkedin_email_parser.py:197-206 | A URL is in the batch result exactly when some message that was read yields it. |
| JobUrls.RecentWindowIsSuffix | linkedin_email_parser.py:167 | The window is the last 50 ids, or all of them when there are at most 50. |
| Scrape.FirstFound | linkedin_email_parser.py:84-86 | The `or` chain gives nothing exactly when no selector found an element. Otherwise it gives the element of the first selector that found one, even when that element's text is empty. |
| Scrape.FirstFoundIsFirst | linkedin_email_parser.py:96-98 | When selector `k` is the first to find an element, the chain yields that element. |
| Scrape.FieldValueFromFirstProbe | linkedin_email_parser.py:100-102 | A field takes the text of the first selector that found an element, cut to the limit. It is `'Not found'` when that text is empty, and later selectors are not tried. |
| Scrape.FieldValueWithoutElement | linkedin_email_parser.py:76-81 | When no selector finds an element, the title, company and location keep `'Not found'`. |
| Scrape.StoredIsTruncation | linkedin_email_parser.py:102 | A stored value is `'Not found'` for empty text, the text itself when it fits, and its first `limit` characters otherwise. |
| Scrape.ScrapedFieldsAreBounded | linkedin_email_parser.py:93-113 | The title holds at most 200 characters, and the company and location at most 100. |
| Scrape.TitleFromCleanedText | linkedin_email_parser.py:88-93 | The stored title is a prefix of the cleaned title text, at most 200 characters long, and `'Not found'` when the clean-up leaves nothing. |
| Scrape.ScrapeJob | linkedin_email_parser.py:71-124 | A page that could not be fetched gives `None`, a fetched page always gives a record, and the record keeps the URL it was scraped from. |
| Scrape.FieldValue | linkedin_email_parser.py:95-113 | A company or location is `'Not found'` or a prefix, of at most the limit in length, of the text some selector found. |
| Scrape.TitleValue | linkedin_email_parser.py:83-93 | The title is `'Not found'`, or a non-empty prefix of at most 200 characters of the cleaned text some selector found. |
| Scrape.SpaceRun | linkedin_email_parser.py:91 | `\s*` takes the maximal run of white space. |
| Scrape.FindSuffix | linkedin_email_parser.py:91-92 | It finds the leftmost position where `\s*<sep>\s*LinkedIn.*$` matches, or reports that it matches nowhere. |
| Scrape.StripSuffix | linkedin_email_parser.py:91 | One substitution never lengthens the text, and changes it exactly when the pattern matches somewhere, including text with line breaks. |
| Scrape.CleanTitle | linkedin_email_parser.py:91-92 | The clean-up never lengthens the title and leaves it unchanged when neither the `-` nor the `\|` pattern matches. |
| Scrape.StripSuffixIsPrefix | linkedin_email_parser.py:91 | On one line, one substitution leaves a prefix of the text, and changes it exactly when the pattern matches somewhere. |
| Scrape.StripSuffixLeavesNoSuffix | linkedin_email_parser.py:91 | On one line, after the substitution the pattern matches nowhere. |
| Scrape.StripSuffixIdempotent | linkedin_email_parser.py:91 | On one line, substituting twice is the same as once. |
| Scrape.CleanTitleRemovesBothTails | linkedin_email_parser.py:89-92 | On one line, the cleaned title is a prefix of the text with neither a `-` nor a `\|` LinkedIn tail left, and cleaning it again changes nothing. |
| Priority.AnyKeywordIn | linkedin_email_parser.py:241-247 | A keyword loop finds something exactly when some keyword of the list is a substring of the text. |
| Priority.Classify | linkedin_email_parser.py:235-249 | The rank is 1 exactly when some high keyword occurs. It is 2 exactly when no high keyword occurs and some medium keyword does. It is 3 exactly when neither list has a keyword in the text. |
| Priority.CalculatePriority | linkedin_email_parser.py:235-249 | The two early-returning loops return the rank `Classify` gives, always 1, 2 or 3. |
| Priority.CombinedText | app.py:38-40 | The searched text is the lower-cased title, one space, then the lower-cased company. Its length is the sum of the fields' lengths plus one, and no upper-case letter is left in it. |
| Priority.ParserText | linkedin_email_parser.py:237-239 | The parser's extra lower-casing of the combined text changes nothing, so the parser and the dashboard search the same text. |
| Priority.FieldKeywordIsFound | linkedin_email_parser.py:237-242 | A keyword in the lower-cased title or the lower-cased company is found in the combined text. |
| Priority.HighKeywordInFieldRanksFirst | linkedin_email_parser.py:241-243 | A high keyword in either field ranks the job 1, whatever the medium keywords are. |
| Priority.UpperCaseHighKeywordsNeverMatch | linkedin_email_parser.py:237-243 | Keywords are compared as written, so high keywords that each contain an upper-case letter never rank a job 1. |
| Priority.OracleErpManagerIsHigh | linkedin_email_parser.py:46-53 | The default lists rank ("Oracle ERP Manager", "PwC") 1. |
| Priority.OracleCloudAdministratorIsMedium | linkedin_email_parser.py:46-53 | The default lists rank ("Oracle Cloud Administrator", "Acme Corp") 2. |
| Priority.BaristaIsLow | linkedin_email_parser.py:46-53 | The default lists rank ("Barista", "Acme Corp") 3. |
| Priority.KeywordAcrossFieldsIsFound | linkedin_email_parser.py:239 | The separating space lets a keyword span the title and the company: "Oracle" at "Cloud Co" is ranked 2, though neither field holds "oracle cloud". |
| Lists.ListOfSet | linkedin_email_parser.py:151 | `list(a_set)` holds every element of the set exactly once. |
| Lists.SortBy | linkedin_email_parser.py:322 | Sorting on the priority key gives a list in nondecreasing key order with the same elements and the same multiplicities. |
| Lists.SortByIsStable | app.py:126 | The sort is stable: for every key, the elements with that key keep their input order. |
| Lists.HavingIsFilter | app.py:166 | The per-key filter keeps exactly the elements with that key, in their order. |
| Ledger.JobSheet.InitializeSpreadsheet | linkedin_email_parser.py:251-262 | A new workbook holds only the header row. |
| Ledger.HeaderRowHoldsColumnNames | linkedin_email_parser.py:257-262 | The header row holds the eight column names in order and records no URL. |
| Ledger.JobSheet.AddJobs | linkedin_email_parser.py:283-355 | A missing file is created first. The existing rows are unchanged, the rows of the new jobs sorted by priority follow them, and the result is the number of rows appended. |
| Ledger.ExistingUrls | linkedin_email_parser.py:291-295 | `existing_urls` is the set of non-empty column-7 values of the rows after the header. |
| Ledger.ScrapeNewJobs | linkedin_email_parser.py:300-318 | The loop's `new_jobs` is the candidates of the URLs, in URL order. |
| Ledger.AppendJobRows | linkedin_email_parser.py:325-341 | One row per sorted job is appended, in order, and `new_count` is the number of jobs. |
| Ledger.NewJobsMembers | linkedin_email_parser.py:302-318 | A job is new exactly when some URL of the run yields it as its candidate. |
| Ledger.Candidate | linkedin_email_parser.py:303-317 | A URL gives a job exactly when it is not recorded, its page was fetched, and the scraped location is not "not specified". The job is the scraped record, keeps its URL, and has priority 1, 2 or 3. |
| Ledger.RecordedUrls | linkedin_email_parser.py:292-295 | Only non-empty values are recorded, the header row contributes nothing, and every non-empty column-7 value of a data row is recorded. |
| Ledger.FillFor | linkedin_email_parser.py:345-351 | The priority cell is green and bold exactly for priority 1 and light yellow exactly for priority 2. |
| Ledger.JobRow | linkedin_email_parser.py:329-351 | A job's row has one cell per header column, the priority first, the location in the fourth column and the job's URL in the URL column, and is green and bold exactly for priority 1. |
| Ledger.NeverAppended | linkedin_email_parser.py:292-316 | No appended row carries a URL that is already in the URL column of a data row. Each appended row comes from some input URL whose page was fetched and whose location is not "not specified". |
| Ledger.AppendedRowsAreSorted | linkedin_email_parser.py:322 | The appended rows are in nondecreasing priority, and jobs of equal priority keep the order they were scraped in. |
| Ledger.JobRowReadsBack | linkedin_email_parser.py:329-351 | A job's row has eight cells with the job's URL in the URL column. It is recorded when read back. Its first cell is green and bold exactly for priority 1 and yellow exactly for priority 2. |
| Ledger.AppendedUrlsAreRecorded | linkedin_email_parser.py:292-295 | Every URL that got a row is among the recorded URLs afterwards. |
| Ledger.SecondRunAddsNothing | linkedin_email_parser.py:283-355 | Running again with the same URLs and the same pages appends nothing. |
| Ledger.DistinctUrlsGiveDistinctJobs | linkedin_email_parser.py:206 | Distinct input URLs, which `list(set(...))` guarantees, give new jobs with distinct URLs. |
| Dashboard.MakeJob | app.py:96-107 | A record's URL is the canonical URL of its id and its description has at most 200 characters. Its priority is the keyword rank of its title and company, always 1, 2 or 3. |
| Dashboard.RecordUrlIsCanonical | app.py:101 | A posting's record links the same URL the e-mail parser extracts for that id. |
| Dashboard.AppKeywordsAreDefaults | app.py:26-34 | The dashboard's built-in keyword lists equal the parser's defaults. |
| Dashboard.CollectJobs | app.py:95-108 | The loop builds one record per element, in order. |
| Dashboard.DedupById | app.py:117-123 | The loop with `seen_ids` keeps exactly what `KeepFirst` keeps. |
| Dashboard.KeepFirst | app.py:117-123 | The dedup keeps at most as many jobs as it is given, and always keeps the first job. |
| Dashboard.KeepFirstIds | app.py:117-123 | The kept jobs have pairwise different ids, and every id of the input is kept. |
| Dashboard.KeepFirstIsSubsequence | app.py:117-123 | The kept jobs appear in the input, in the same order. |
| Dashboard.KeepFirstKeepsFirstOccurrences | app.py:117-123 | A job is kept if it is the first with its id, and every kept job is the first with its id. |
| Dashboard.FetchLinkedInJobs | app.py:52-128 | Without an access token the result is empty. Otherwise it is the deduplicated records stably sorted by priority. |
| Dashboard.FetchedJobsAreValid | app.py:117-128 | The returned list has no id twice, ranks only 1 to 3, is sorted by rank, and holds every id of the input. |
| Dashboard.FetchedJobsAreStable | app.py:126 | Among jobs of equal rank, the returned list keeps the order of the deduplicated records. |
| Dashboard.JobBoard.constructor | app.py:20-23 | The store starts empty and without an update time. |
| Dashboard.JobBoard.UpdateJobs | app.py:130-138 | The fetched list replaces the stored one wholesale, stamped with the time and `CST`, and the store stays valid. |
| Dashboard.JobBoard.Refresh | app.py:153-161 | After the refresh, `jobs_count` is the length of the new list and `updated_at` is the new stamp. |
| Dashboard.JobBoard.PriorityJobs | app.py:163-171 | The page for a level holds exactly the stored jobs of that priority, in stored order, and its count is their number. |
| Dashboard.PriorityPagesCoverBoard | app.py:163-171 | When every rank is 1, 2 or 3, the per-rank filters for 1, 2 and 3 together hold every job once: their counts add up to the total. |
| Dashboard.BoardPagesCoverJobs | app.py:163-171 | On a valid store, the counts of the pages for 1, 2 and 3 add up to the number of stored jobs. |

## Left out

- Mail access is not modelled: IMAP login and search, MIME body selection (`get_email_body`) and the date filters, including the `year != 2026` test and `days_back`. These need the network, the mail library and the clock. A message is an `Option<string>` body, `None` when it was not read.
- The HTTP request and BeautifulSoup parsing in `scrape_linkedin_job` are not modelled. Each field's selector chain is given as the sequence of what each selector found: the stripped element text, or nothing. Fetching a page is a function parameter from URL to response. That treats a repeated fetch of the same URL as giving the same page.
- The workbook file is not modelled beyond its rows: openpyxl loading and saving, fonts other than the priority cell's bold, the header style details, column widths and frozen panes. The first cell's style is kept as a fill tag.
- Reading and writing `keywords.json` are not modelled. The keyword lists are parameters, and the defaults the parser writes are constants.
- `time.sleep`, `print`, `input`, and the credential checks in `main` are not modelled.
- The dashboard's API request loop over search keywords is not modelled. The elements the requests returned, in request order, are an input. Request failures are not modelled either, because they only drop elements.
- Flask routes, template rendering, APScheduler and `multi_time_scheduler.py` are not modelled.
- Lower-casing is modelled on ASCII only. `ToLower` leaves every non-ASCII letter unchanged, whereas Python's `str.lower()` lower-cases every cased letter (`É` to `é`, `Σ` to `σ`). So a keyword with non-ASCII letters never matches their upper-case forms in the model, though it does in Python: with the keyword "gérant" and the title "GÉRANT", Python ranks 1 and `Classify` does not.
- `re.IGNORECASE` and `\d` in the link patterns are modelled on ASCII only. The patterns' letters are ASCII. Python would also fold the Kelvin sign and long s to `k` and `s`, and accepts non-ASCII decimal digits in `\d`.
- API element fields are strings or missing. A JSON `null` or a non-string value, which makes the source raise or store a non-string, is not modelled.
- Sheets narrower than seven columns, where `row[6]` raises `IndexError`, are not modelled. Every sheet this program writes has eight columns.
- Lists.ListOfSet: the order of `list(a_set)` is left unspecified. Only membership and the absence of repeats are stated.
- Scrape.StripSuffixIsPrefix, Scrape.StripSuffixLeavesNoSuffix, Scrape.StripSuffixIdempotent and Scrape.CleanTitleRemovesBothTails are stated for text without a line break. The substitution itself (`FindSuffix`, `StripSuffix`) models the line-break cases of `.*$`, including the final line break `$` leaves in place.
- Ledger.JobSheet.AddJobs always appends and saves. In openpyxl, `sheet.append` raises `IllegalCharacterError` when a title, company or location holds an ASCII control character other than tab, line feed or carriage return. Such a character can survive `get_text(strip=True)` inside the text. Nothing catches the error, so that run stops before `wb.save` and records no row. That error comes from openpyxl, not from this program's code, and is not modelled.
- Ledger.JobSheet.AddJobs does not require distinct URLs, matching the source: the recorded set is not updated inside the loop, so a URL given twice is appended twice. The distinct-URL guarantee is a hypothesis of Ledger.DistinctUrlsGiveDistinctJobs.
