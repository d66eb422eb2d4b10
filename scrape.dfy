/**
 * Turning a fetched posting page into the job record (`scrape_linkedin_job`).
 *
 * The HTTP request and the HTML parsing are not modelled: a page is given as,
 * for each field, the results of its selector chain in order, each being the
 * stripped text of the element that selector found, or `None` when it found
 * nothing. What is modelled is the choice among the selectors, the removal of
 * the site name from the title, the truncation and the `'Not found'` fallback.
 */
module Scrape {
  import opened Wrappers
  import opened Text

  const NotFound := "Not found"
  const SiteName := "LinkedIn"
  const TitleLimit := 200
  const FieldLimit := 100

  /** The probes of one page: the title, company and location selector chains. */
  datatype Page = Page(titleProbes: seq<Option<string>>, companyProbes: seq<Option<string>>,
                       locationProbes: seq<Option<string>>)

  /** A status other than 200, or an exception while fetching, is `FetchFailed`. */
  datatype Response = FetchFailed | Fetched(page: Page)

  datatype JobData = JobData(title: string, company: string, location: string, url: string)

  /** `a or b or c` over elements: the first selector that finds an element wins, whatever its
      text, because an element is always truthy. */
  function FirstFound(probes: seq<Option<string>>): (r: Option<string>)
    ensures r.None? <==> forall k :: 0 <= k < |probes| ==> probes[k].None?
    ensures r.Some? ==> exists k :: 0 <= k < |probes| && probes[k] == r && forall m :: 0 <= m < k ==> probes[m].None?
  {
    if probes == [] then None
    else if probes[0].Some? then probes[0]
    else
      var r := FirstFound(probes[1..]);
      assert forall k :: 0 <= k < |probes| - 1 ==> probes[1..][k] == probes[k + 1];
      r
  }

  /** `text[:limit] if text else 'Not found'` */
  function Stored(text: string, limit: nat): string
  {
    if text == "" then NotFound else Take(text, limit)
  }

  /** A company or location value: the first found element's text, truncated, or `'Not found'`. */
  function FieldValue(probes: seq<Option<string>>, limit: nat): (v: string)
    ensures v == NotFound || (|v| <= limit && exists k :: 0 <= k < |probes| && probes[k].Some? && v <= probes[k].value)
  {
    match FirstFound(probes)
    case None => NotFound
    case Some(text) => Stored(text, limit)
  }

  // ---------------------------------------------------------------------------
  // Title cleanup: `re.sub(r'\s*<sep>\s*LinkedIn.*$', '', text)` for `-` and then `|`.

  /** The length of the run of `\s` characters starting at `j`. */
  function SpaceRun(t: string, j: nat): (n: nat)
    ensures j + n <= |t| || n == 0
    ensures forall m :: j <= m < j + n ==> m < |t| && IsSpace(t[m])
    ensures j + n < |t| ==> !IsSpace(t[j + n])
    decreases |t| - j
  {
    if j < |t| && IsSpace(t[j]) then 1 + SpaceRun(t, j + 1) else 0
  }

  /** `.*$` matches from `e`: no line break before the end of the text, except a final one. */
  predicate RestOfLine(t: string, e: nat)
  {
    forall m :: e <= m < |t| - 1 ==> t[m] != '\n'
  }

  /** The pattern matches starting at `p`. Each `\s*` has to stop exactly where its run of
      white space ends, because neither the separator nor `L` is white space, so the greedy
      reading below is the only one the regular expression can take. */
  predicate SuffixAt(t: string, p: nat, sep: char)
  {
    var q := p + SpaceRun(t, p);
    && q < |t| && t[q] == sep
    && var r := q + 1 + SpaceRun(t, q + 1);
       && r + |SiteName| <= |t| && t[r..r + |SiteName|] == SiteName
       && RestOfLine(t, r + |SiteName|)
  }

  /** The leftmost start at or after `p` where the pattern matches. */
  function FindSuffix(t: string, sep: char, p: nat): (r: Option<nat>)
    ensures r.Some? ==> p <= r.value < |t| && SuffixAt(t, r.value, sep)
    ensures r.Some? ==> forall m :: p <= m < r.value ==> !SuffixAt(t, m, sep)
    ensures r.None? ==> forall m :: p <= m ==> !SuffixAt(t, m, sep)
    decreases |t| - p
  {
    if p >= |t| then
      NoSuffixPastEnd(t, sep);
      None
    else if SuffixAt(t, p, sep) then Some(p)
    else
      var r := FindSuffix(t, sep, p + 1);
      NoSuffixBefore(t, sep, p, r);
      r
  }

  /** Extends the leftmost-match facts of a search from `p + 1` to a search from `p`. */
  lemma NoSuffixBefore(t: string, sep: char, p: nat, r: Option<nat>)
    requires !SuffixAt(t, p, sep)
    requires r.Some? ==> forall m :: p + 1 <= m < r.value ==> !SuffixAt(t, m, sep)
    requires r.None? ==> forall m :: p + 1 <= m ==> !SuffixAt(t, m, sep)
    ensures r.Some? ==> forall m :: p <= m < r.value ==> !SuffixAt(t, m, sep)
    ensures r.None? ==> forall m :: p <= m ==> !SuffixAt(t, m, sep)
  {
  }

  lemma NoSuffixPastEnd(t: string, sep: char)
    ensures forall m :: |t| <= m ==> !SuffixAt(t, m, sep)
  {
  }

  /** What `$` leaves behind: a final line break is not part of the match. */
  function FinalBreak(t: string): string
  {
    if |t| > 0 && t[|t| - 1] == '\n' then "\n" else ""
  }

  /** One `re.sub`: everything from the leftmost match to the end of the line goes. */
  function StripSuffix(t: string, sep: char): (r: string)
    ensures |r| <= |t|
    ensures r == t <==> FindSuffix(t, sep, 0).None?
  {
    match FindSuffix(t, sep, 0)
    case None => t
    case Some(p) => t[..p] + FinalBreak(t)
  }

  /** Lines 91-92: the `-` tail first, then the `|` tail. */
  function CleanTitle(t: string): (r: string)
    ensures |r| <= |t|
    ensures FindSuffix(t, '-', 0).None? && FindSuffix(t, '|', 0).None? ==> r == t
  {
    StripSuffix(StripSuffix(t, '-'), '|')
  }

  /** The title: the first found element's text with its LinkedIn tails removed, cut to 200
      characters, or `'Not found'`. */
  function TitleValue(probes: seq<Option<string>>): (v: string)
    ensures v == NotFound ||
      (0 < |v| <= TitleLimit && exists k :: 0 <= k < |probes| && probes[k].Some? && v <= CleanTitle(probes[k].value))
  {
    match FirstFound(probes)
    case None => NotFound
    case Some(text) => Stored(CleanTitle(text), TitleLimit)
  }

  /** `scrape_linkedin_job`: `None` when the page could not be fetched, otherwise the record
      with each field from its selector chain. */
  function ScrapeJob(url: string, response: Response): (job: Option<JobData>)
    ensures response.FetchFailed? <==> job.None?
    ensures job.Some? ==> job.value.url == url
  {
    match response
    case FetchFailed => None
    case Fetched(page) =>
      Some(JobData(TitleValue(page.titleProbes), FieldValue(page.companyProbes, FieldLimit),
                   FieldValue(page.locationProbes, FieldLimit), url))
  }

  // ---------------------------------------------------------------------------
  // Properties

  /** A field takes its value from the first selector that finds an element: `'Not found'` when
      none does, or when that element's text is empty (later selectors are not tried), and
      otherwise that text cut to `limit` characters. */
  lemma FieldValueFromFirstProbe(probes: seq<Option<string>>, limit: nat, k: nat)
    requires k < |probes| && probes[k].Some? && forall m :: 0 <= m < k ==> probes[m].None?
    ensures probes[k].value == "" ==> FieldValue(probes, limit) == NotFound
    ensures probes[k].value != "" ==> FieldValue(probes, limit) == Take(probes[k].value, limit)
  {
    FirstFoundIsFirst(probes, k);
  }

  lemma FieldValueWithoutElement(probes: seq<Option<string>>, limit: nat)
    requires forall m :: 0 <= m < |probes| ==> probes[m].None?
    ensures FieldValue(probes, limit) == NotFound
    ensures TitleValue(probes) == NotFound
  {
  }

  /** The element `FirstFound` reports is the one at the first probe that found something. */
  lemma FirstFoundIsFirst(probes: seq<Option<string>>, k: nat)
    requires k < |probes| && probes[k].Some? && forall m :: 0 <= m < k ==> probes[m].None?
    ensures FirstFound(probes) == probes[k]
  {
    var r := FirstFound(probes);
    var j :| 0 <= j < |probes| && probes[j] == r && forall m :: 0 <= m < j ==> probes[m].None?;
  }

  /** A stored value is `'Not found'` or a non-empty prefix of the text of at most `limit`
      characters, and it is the first `limit` characters when the text is longer. */
  lemma StoredIsTruncation(text: string, limit: nat)
    requires limit > 0
    ensures Stored(text, limit) == NotFound || (0 < |Stored(text, limit)| <= limit && Stored(text, limit) <= text)
    ensures |text| > limit ==> Stored(text, limit) == text[..limit]
    ensures 0 < |text| <= limit ==> Stored(text, limit) == text
    ensures text == "" ==> Stored(text, limit) == NotFound
  {
  }

  /** Company and location hold at most 100 characters, the title at most 200. */
  lemma ScrapedFieldsAreBounded(url: string, response: Response)
    requires ScrapeJob(url, response).Some?
    ensures |ScrapeJob(url, response).value.title| <= TitleLimit
    ensures |ScrapeJob(url, response).value.company| <= FieldLimit
    ensures |ScrapeJob(url, response).value.location| <= FieldLimit
  {
  }

  /** The stored title is the first 200 characters of the cleaned text, or `'Not found'` when the
      cleanup leaves nothing. */
  lemma TitleFromCleanedText(probes: seq<Option<string>>, k: nat)
    requires k < |probes| && probes[k].Some? && forall m :: 0 <= m < k ==> probes[m].None?
    ensures CleanTitle(probes[k].value) == "" ==> TitleValue(probes) == NotFound
    ensures CleanTitle(probes[k].value) != "" ==> TitleValue(probes) <= CleanTitle(probes[k].value)
    ensures |CleanTitle(probes[k].value)| > TitleLimit ==> TitleValue(probes) == CleanTitle(probes[k].value)[..TitleLimit]
  {
    FirstFoundIsFirst(probes, k);
  }

  /** On one line of text, removing a tail leaves a prefix, and it removes one exactly when the
      pattern matches somewhere. */
  lemma StripSuffixIsPrefix(t: string, sep: char)
    requires '\n' !in t
    ensures StripSuffix(t, sep) <= t
    ensures StripSuffix(t, sep) == t <==> forall m :: !SuffixAt(t, m, sep)
  {
    match FindSuffix(t, sep, 0)
    case None =>
    case Some(p) =>
      assert |StripSuffix(t, sep)| < |t|;
  }

  /** A run of white space measured in a prefix is the same run in the whole text, unless it
      reaches the end of the prefix. */
  lemma {:induction false} SpaceRunInPrefix(t: string, p: nat, j: nat)
    requires p <= |t| && j + SpaceRun(t[..p], j) < p
    ensures SpaceRun(t[..p], j) == SpaceRun(t, j)
    decreases |t| - j
  {
    if j < p && IsSpace(t[j]) {
      assert t[..p][j] == t[j];
      SpaceRunInPrefix(t, p, j + 1);
    } else {
      assert t[..p][j] == t[j];
    }
  }

  /** The two white-space runs of a match, and where the site name starts. */
  lemma SuffixAtParts(t: string, p: nat, sep: char) returns (q: nat, r: nat)
    requires SuffixAt(t, p, sep)
    ensures q == p + SpaceRun(t, p) && q < |t| && t[q] == sep
    ensures r == q + 1 + SpaceRun(t, q + 1) && r + |SiteName| <= |t| && t[r] == 'L'
    ensures t[r..r + |SiteName|] == SiteName
  {
    q := p + SpaceRun(t, p);
    r := q + 1 + SpaceRun(t, q + 1);
    assert t[r..r + |SiteName|][0] == t[r];
  }

  /** On one line, a match in a prefix is a match in the whole text. */
  lemma SuffixInPrefix(t: string, p: nat, m: nat, sep: char)
    requires '\n' !in t && p <= |t|
    requires SuffixAt(t[..p], m, sep)
    ensures SuffixAt(t, m, sep)
  {
    var u := t[..p];
    var q, r := SuffixAtParts(u, m, sep);
    SpaceRunInPrefix(t, p, m);
    SpaceRunInPrefix(t, p, q + 1);
    SliceOfPrefix(t, p, q, r);
    LineHasNoBreak(t, r + |SiteName|);
    SuffixAtIntro(t, m, sep, q, r);
  }

  lemma SliceOfPrefix(t: string, p: nat, q: nat, r: nat)
    requires q < p <= |t| && r + |SiteName| <= p
    ensures t[..p][q] == t[q] && t[..p][r..r + |SiteName|] == t[r..r + |SiteName|]
  {
  }

  /** The parts of a match, found separately, make a match. */
  lemma SuffixAtIntro(t: string, p: nat, sep: char, q: nat, r: nat)
    requires q == p + SpaceRun(t, p) && q < |t| && t[q] == sep
    requires r == q + 1 + SpaceRun(t, q + 1) && r + |SiteName| <= |t|
    requires t[r..r + |SiteName|] == SiteName && RestOfLine(t, r + |SiteName|)
    ensures SuffixAt(t, p, sep)
  {
  }

  lemma LineHasNoBreak(t: string, e: nat)
    requires '\n' !in t
    ensures RestOfLine(t, e)
  {
    forall i | e <= i < |t| - 1
      ensures t[i] != '\n'
    {
      assert t[i] in t;
    }
  }

  /** On one line, after a tail is removed no other tail of that kind is left. */
  lemma StripSuffixLeavesNoSuffix(t: string, sep: char)
    requires '\n' !in t
    ensures forall m :: !SuffixAt(StripSuffix(t, sep), m, sep)
  {
    match FindSuffix(t, sep, 0)
    case None =>
    case Some(p) =>
      assert StripSuffix(t, sep) == t[..p];
      forall m: nat
        ensures !SuffixAt(t[..p], m, sep)
      {
        if m < p && SuffixAt(t[..p], m, sep) {
          SuffixInPrefix(t, p, m, sep);
        }
      }
  }

  /** Removing a tail is idempotent on one line of text. */
  lemma StripSuffixIdempotent(t: string, sep: char)
    requires '\n' !in t
    ensures StripSuffix(StripSuffix(t, sep), sep) == StripSuffix(t, sep)
  {
    StripSuffixLeavesNoSuffix(t, sep);
    StripSuffixIsPrefix(t, sep);
    var u := StripSuffix(t, sep);
    assert '\n' !in u by {
      forall i | 0 <= i < |u|
        ensures u[i] != '\n'
      {
        assert u[i] == t[i];
      }
    }
    StripSuffixIsPrefix(u, sep);
  }

  /** On one line the cleaned title is a prefix of the text that carries neither a `-` nor a `|`
      site-name tail, and cleaning it again changes nothing. */
  lemma CleanTitleRemovesBothTails(t: string)
    requires '\n' !in t
    ensures CleanTitle(t) <= t
    ensures forall m :: !SuffixAt(CleanTitle(t), m, '-') && !SuffixAt(CleanTitle(t), m, '|')
    ensures CleanTitle(CleanTitle(t)) == CleanTitle(t)
  {
    var a := StripSuffix(t, '-');
    var b := StripSuffix(a, '|');
    StripSuffixIsPrefix(t, '-');
    StripSuffixLeavesNoSuffix(t, '-');
    assert '\n' !in a by {
      forall i | 0 <= i < |a|
        ensures a[i] != '\n'
      {
        assert a[i] == t[i];
      }
    }
    StripSuffixIsPrefix(a, '|');
    StripSuffixLeavesNoSuffix(a, '|');
    assert b == a[..|b|];
    forall m: nat
      ensures !SuffixAt(b, m, '-')
    {
      if SuffixAt(b, m, '-') {
        SuffixInPrefix(a, |b|, m, '-');
      }
    }
    assert '\n' !in b by {
      forall i | 0 <= i < |b|
        ensures b[i] != '\n'
      {
        assert b[i] == a[i];
      }
    }
    StripSuffixIsPrefix(b, '-');
    StripSuffixIsPrefix(b, '|');
  }
}
