/**
 * The web dashboard's job list (`app.py`): turning job-search API elements
 * into records, dropping repeated postings, ranking them, the in-memory store
 * the refresh replaces, and the per-priority pages.
 *
 * The HTTP requests to the job-search API are not modelled: the elements the
 * requests returned, over all search keywords and in request order, are an
 * input. Flask rendering and the scheduler are not modelled either.
 */
module Dashboard {
  import opened Wrappers
  import opened Text
  import opened Lists
  import opened Priority
  import JobUrls

  /** The fields of an API element the record reads; a missing key is `None`. */
  datatype Named = Named(name: Option<string>)
  datatype Described = Described(text: Option<string>)
  datatype ApiJob = ApiJob(jobPostingId: Option<string>, title: Option<string>, companyDetails: Option<Named>,
                           formattedLocation: Option<string>, listedAt: Option<string>,
                           description: Option<Described>)

  datatype Job = Job(id: string, title: string, company: string, location: string, url: string,
                     postedDate: string, description: string, priority: int)

  const Unknown := "N/A"
  const DescriptionLimit := 200

  /** The keyword lists built into the dashboard. */
  const AppHigh: seq<string> := [
    "oracle erp", "oracle epm", "technical sales", "fusion", "netsuite",
    "manager", "senior manager", "pwc", "pricewaterhousecoopers"
  ]
  const AppMedium: seq<string> := [
    "oracle cloud", "oracle application", "oracle consultant",
    "oracle developer", "oracle hcm", "oracle scm"
  ]

  /** `d.get(key, default)` */
  function Get(v: Option<string>, default: string): string
  {
    match v
    case Some(s) => s
    case None => default
  }

  /** The record built for one API element (lines 96-107): missing text fields become "N/A" or
      the empty string, the description is cut to 200 characters, and the priority is the
      keyword classification of title and company. */
  function MakeJob(e: ApiJob): (job: Job)
    ensures job.url == JobUrls.CanonicalUrl(job.id)
    ensures |job.description| <= DescriptionLimit
    ensures job.priority in {High, Medium, Low}
    ensures job.priority == Classify(CombinedText(job.title, job.company), AppHigh, AppMedium)
  {
    var id := Get(e.jobPostingId, "");
    var title := Get(e.title, Unknown);
    var company := match e.companyDetails case Some(d) => Get(d.name, Unknown) case None => Unknown;
    var text := match e.description case Some(d) => Get(d.text, "") case None => "";
    Job(id, title, company, Get(e.formattedLocation, Unknown), "https://www.linkedin.com/jobs/view/" + id,
        Get(e.listedAt, ""), Take(text, DescriptionLimit),
        Classify(CombinedText(title, company), AppHigh, AppMedium))
  }

  function MakeJobs(elements: seq<ApiJob>): (jobs: seq<Job>)
    ensures |jobs| == |elements|
    ensures forall i :: 0 <= i < |elements| ==> jobs[i] == MakeJob(elements[i])
  {
    seq(|elements|, i requires 0 <= i < |elements| => MakeJob(elements[i]))
  }

  function IdSet(jobs: seq<Job>): set<string>
  {
    set i | 0 <= i < |jobs| :: jobs[i].id
  }

  /** What the dedup loop keeps of `jobs`: each job whose id no earlier job had. */
  function KeepFirst(jobs: seq<Job>): (kept: seq<Job>)
    ensures |kept| <= |jobs|
    ensures jobs != [] ==> kept != [] && kept[0] == jobs[0]
  {
    if jobs == [] then []
    else
      var kept := KeepFirst(jobs[..|jobs| - 1]);
      if jobs[|jobs| - 1].id in IdSet(kept) then kept else kept + [jobs[|jobs| - 1]]
  }

  function PriorityOf(job: Job): int
  {
    job.priority
  }

  /** The list `fetch_linkedin_jobs` returns: nothing without an access token, otherwise the
      records, without repeated ids, stably sorted by priority. */
  function FetchedJobs(token: string, elements: seq<ApiJob>): seq<Job>
  {
    if token == "" then [] else SortBy(KeepFirst(MakeJobs(elements)), PriorityOf)
  }

  /** The loop building `all_jobs` from the elements. */
  method CollectJobs(elements: seq<ApiJob>) returns (allJobs: seq<Job>)
    ensures allJobs == MakeJobs(elements)
  {
    allJobs := [];
    for i := 0 to |elements|
      invariant |allJobs| == i
      invariant forall k :: 0 <= k < i ==> allJobs[k] == MakeJob(elements[k])
    {
      allJobs := allJobs + [MakeJob(elements[i])];
    }
  }

  /** Lines 117-123: `seen_ids` and `unique_jobs` filled in one pass. */
  method DedupById(jobs: seq<Job>) returns (unique: seq<Job>)
    ensures unique == KeepFirst(jobs)
  {
    var seenIds: set<string> := {};
    unique := [];
    for i := 0 to |jobs|
      invariant unique == KeepFirst(jobs[..i])
      invariant seenIds == IdSet(unique)
    {
      assert jobs[..i + 1][..i] == jobs[..i];
      if jobs[i].id !in seenIds {
        IdSetSnoc(unique, jobs[i]);
        seenIds := seenIds + {jobs[i].id};
        unique := unique + [jobs[i]];
      }
    }
    assert jobs[..|jobs|] == jobs;
  }

  /** `fetch_linkedin_jobs` after the requests. */
  method FetchLinkedInJobs(token: string, elements: seq<ApiJob>) returns (jobs: seq<Job>)
    ensures jobs == FetchedJobs(token, elements)
  {
    if token == "" {
      return [];
    }
    var allJobs := CollectJobs(elements);
    var unique := DedupById(allJobs);
    jobs := SortBy(unique, PriorityOf);
  }

  /** `jobs_data`: the list the pages show and when it was last replaced. */
  class JobBoard {
    var jobs: seq<Job>
    var lastUpdated: Option<string>

    /** What every list the board holds satisfies: no id twice, ranked 1 to 3, sorted by rank. */
    predicate Valid()
      reads this
    {
      && (forall i, j :: 0 <= i < j < |jobs| ==> jobs[i].id != jobs[j].id)
      && (forall i :: 0 <= i < |jobs| ==> jobs[i].priority in {High, Medium, Low})
      && SortedBy(jobs, PriorityOf)
    }

    constructor ()
      ensures jobs == [] && lastUpdated == None
      ensures Valid()
    {
      jobs := [];
      lastUpdated := None;
    }

    /** `update_jobs`: the fetched list replaces the stored one wholesale, stamped with the
        time `now` (formatted by the caller) and the zone name. */
    method UpdateJobs(token: string, elements: seq<ApiJob>, now: string)
      modifies this
      ensures jobs == FetchedJobs(token, elements)
      ensures lastUpdated == Some(now + " CST")
      ensures Valid()
    {
      var fetched := FetchLinkedInJobs(token, elements);
      FetchedJobsAreValid(token, elements);
      jobs := fetched;
      lastUpdated := Some(now + " CST");
    }

    /** `api_refresh`: refreshes, then reports the new count and stamp. */
    method Refresh(token: string, elements: seq<ApiJob>, now: string) returns (jobsCount: nat, updatedAt: Option<string>)
      modifies this
      ensures jobs == FetchedJobs(token, elements)
      ensures jobsCount == |jobs| && updatedAt == lastUpdated == Some(now + " CST")
      ensures Valid()
    {
      UpdateJobs(token, elements, now);
      jobsCount := |jobs|;
      updatedAt := lastUpdated;
    }

    /** `priority_jobs(level)`: the stored jobs of that priority in stored order, and their number. */
    function PriorityJobs(level: int): (page: (seq<Job>, nat))
      reads this
      ensures page.1 == |page.0|
      ensures forall x :: x in page.0 <==> x in jobs && x.priority == level
      ensures IsSubsequence(page.0, jobs)
    {
      HavingIsFilter(jobs, PriorityOf, level);
      var filtered := Having(jobs, PriorityOf, level);
      (filtered, |filtered|)
    }
  }

  // ---------------------------------------------------------------------------
  // Properties

  lemma IdSetSnoc(jobs: seq<Job>, x: Job)
    ensures IdSet(jobs + [x]) == IdSet(jobs) + {x.id}
  {
    var s := jobs + [x];
    assert s[|jobs|].id == x.id;
    forall id | id in IdSet(jobs)
      ensures id in IdSet(s)
    {
      var i :| 0 <= i < |jobs| && jobs[i].id == id;
      assert s[i] == jobs[i];
    }
  }

  /** The dashboard's keyword lists are the parser's defaults, so both rank a job alike. */
  lemma AppKeywordsAreDefaults()
    ensures AppHigh == DefaultHigh && AppMedium == DefaultMedium
  {
  }

  /** The dashboard links a posting by the same URL the e-mail parser extracts for its id. */
  lemma RecordUrlIsCanonical(e: ApiJob, id: string)
    requires e.jobPostingId == Some(id)
    ensures MakeJob(e).url == JobUrls.CanonicalUrl(id)
  {
  }

  /** The kept jobs have pairwise different ids, and exactly the ids of the input. */
  lemma {:induction false} KeepFirstIds(jobs: seq<Job>)
    ensures forall i, j :: 0 <= i < j < |KeepFirst(jobs)| ==> KeepFirst(jobs)[i].id != KeepFirst(jobs)[j].id
    ensures IdSet(KeepFirst(jobs)) == IdSet(jobs)
  {
    if jobs != [] {
      var init := jobs[..|jobs| - 1];
      var x := jobs[|jobs| - 1];
      var kept := KeepFirst(init);
      KeepFirstIds(init);
      IdSetSnoc(init, x);
      assert init + [x] == jobs;
      if x.id !in IdSet(kept) {
        IdSetSnoc(kept, x);
        forall i | 0 <= i < |kept|
          ensures kept[i].id != x.id
        {
          assert kept[i].id in IdSet(kept);
        }
      }
    }
  }

  /** The kept jobs appear in the input in the same order. */
  lemma {:induction false} KeepFirstIsSubsequence(jobs: seq<Job>)
    ensures IsSubsequence(KeepFirst(jobs), jobs)
  {
    if jobs != [] {
      var init := jobs[..|jobs| - 1];
      var x := jobs[|jobs| - 1];
      KeepFirstIsSubsequence(init);
      SubsequenceExtend(KeepFirst(init), init, x);
      assert init + [x] == jobs;
    }
  }

  /** A job is kept exactly when it is the first with its id. */
  lemma KeepFirstKeepsFirstOccurrences(jobs: seq<Job>, k: nat)
    requires k < |jobs|
    ensures jobs[k] in KeepFirst(jobs) <== forall j :: 0 <= j < k ==> jobs[j].id != jobs[k].id
    ensures forall x :: x in KeepFirst(jobs) ==>
      exists i :: 0 <= i < |jobs| && jobs[i] == x && (forall j :: 0 <= j < i ==> jobs[j].id != x.id)
  {
    if forall j :: 0 <= j < k ==> jobs[j].id != jobs[k].id {
      FirstOccurrenceIsKept(jobs, k);
    }
    KeptAreFirstOccurrences(jobs);
  }

  lemma {:induction false} FirstOccurrenceIsKept(jobs: seq<Job>, k: nat)
    requires k < |jobs|
    requires forall j :: 0 <= j < k ==> jobs[j].id != jobs[k].id
    ensures jobs[k] in KeepFirst(jobs)
  {
    var init := jobs[..|jobs| - 1];
    var x := jobs[|jobs| - 1];
    var kept := KeepFirst(init);
    assert KeepFirst(jobs) == kept || KeepFirst(jobs) == kept + [x];
    if k < |init| {
      assert init[k] == jobs[k];
      forall j | 0 <= j < k
        ensures init[j].id != init[k].id
      {
        assert init[j] == jobs[j];
      }
      FirstOccurrenceIsKept(init, k);
    } else {
      KeepFirstIds(init);
      forall j | 0 <= j < |init|
        ensures init[j].id != x.id
      {
        assert init[j] == jobs[j];
      }
      assert x.id !in IdSet(init);
    }
  }

  lemma {:induction false} KeptAreFirstOccurrences(jobs: seq<Job>)
    ensures forall x :: x in KeepFirst(jobs) ==>
      exists i :: 0 <= i < |jobs| && jobs[i] == x && (forall j :: 0 <= j < i ==> jobs[j].id != x.id)
  {
    if jobs != [] {
      var init := jobs[..|jobs| - 1];
      var x := jobs[|jobs| - 1];
      var kept := KeepFirst(init);
      KeptAreFirstOccurrences(init);
      KeepFirstIds(init);
      forall y | y in KeepFirst(jobs)
        ensures exists i :: 0 <= i < |jobs| && jobs[i] == y && forall j :: 0 <= j < i ==> jobs[j].id != y.id
      {
        if y in kept {
          var i :| 0 <= i < |init| && init[i] == y && forall j :: 0 <= j < i ==> init[j].id != y.id;
          assert jobs[i] == y;
          forall j | 0 <= j < i
            ensures jobs[j].id != y.id
          {
            assert jobs[j] == init[j];
          }
        } else {
          assert y == x && x.id !in IdSet(kept);
          forall j | 0 <= j < |jobs| - 1
            ensures jobs[j].id != y.id
          {
            assert init[j].id in IdSet(init);
          }
        }
      }
    }
  }

  /** Among jobs of equal rank the returned list keeps the order of the deduplicated records. */
  lemma FetchedJobsAreStable(token: string, elements: seq<ApiJob>, p: int)
    requires token != ""
    ensures Having(FetchedJobs(token, elements), PriorityOf, p) == Having(KeepFirst(MakeJobs(elements)), PriorityOf, p)
  {
    SortByIsStable(KeepFirst(MakeJobs(elements)), PriorityOf, p);
  }

  /** The returned list has no id twice, every id of the input, ranks in 1 to 3, and is sorted
      by rank. */
  lemma FetchedJobsAreValid(token: string, elements: seq<ApiJob>)
    ensures var jobs := FetchedJobs(token, elements);
      && (forall i, j :: 0 <= i < j < |jobs| ==> jobs[i].id != jobs[j].id)
      && (forall i :: 0 <= i < |jobs| ==> jobs[i].priority in {High, Medium, Low})
      && SortedBy(jobs, PriorityOf)
      && (token != "" ==> IdSet(jobs) == IdSet(MakeJobs(elements)))
  {
    if token != "" {
      var unique := KeepFirst(MakeJobs(elements));
      var jobs := SortBy(unique, PriorityOf);
      KeepFirstIds(MakeJobs(elements));
      SameElements(jobs, unique);
      SameIdSet(jobs, unique);
      DistinctIdsPermuted(unique, jobs);
      KeptPriorities(MakeJobs(elements), jobs);
    }
  }

  /** Two lists with the same multiset hold the same elements. */
  lemma SameElements(a: seq<Job>, b: seq<Job>)
    requires multiset(a) == multiset(b)
    ensures forall x :: x in a <==> x in b
  {
    forall x
      ensures x in a <==> x in b
    {
      assert x in a <==> x in multiset(a);
      assert x in b <==> x in multiset(b);
    }
  }

  lemma SameIdSet(a: seq<Job>, b: seq<Job>)
    requires forall x :: x in a <==> x in b
    ensures IdSet(a) == IdSet(b)
  {
    forall id | id in IdSet(a)
      ensures id in IdSet(b)
    {
      var i :| 0 <= i < |a| && a[i].id == id;
      assert a[i] in b;
      var k :| 0 <= k < |b| && b[k] == a[i];
    }
    forall id | id in IdSet(b)
      ensures id in IdSet(a)
    {
      var i :| 0 <= i < |b| && b[i].id == id;
      assert b[i] in a;
      var k :| 0 <= k < |a| && a[k] == b[i];
    }
  }

  lemma DistinctIdsPermuted(unique: seq<Job>, sorted: seq<Job>)
    requires forall a, b :: 0 <= a < b < |unique| ==> unique[a].id != unique[b].id
    requires multiset(sorted) == multiset(unique)
    ensures forall i, j :: 0 <= i < j < |sorted| ==> sorted[i].id != sorted[j].id
  {
    forall i: nat, j: nat | i < j < |sorted|
      ensures sorted[i].id != sorted[j].id
    {
      SortedDistinctIds(unique, sorted, i, j);
    }
  }

  lemma KeptPriorities(made: seq<Job>, jobs: seq<Job>)
    requires forall i :: 0 <= i < |made| ==> made[i].priority in {High, Medium, Low}
    requires forall x :: x in jobs ==> x in KeepFirst(made)
    ensures forall i :: 0 <= i < |jobs| ==> jobs[i].priority in {High, Medium, Low}
  {
    forall i | 0 <= i < |jobs|
      ensures jobs[i].priority in {High, Medium, Low}
    {
      KeptJobsAreMade(made, jobs[i]);
    }
  }

  lemma KeptJobsAreMade(made: seq<Job>, x: Job)
    requires x in KeepFirst(made)
    ensures x in made
  {
    KeepFirstIsSubsequence(made);
    SubsequenceMembers(KeepFirst(made), made, x);
  }

  lemma {:induction false} SubsequenceMembers(r: seq<Job>, s: seq<Job>, x: Job)
    requires IsSubsequence(r, s) && x in r
    ensures x in s
    decreases |s|
  {
    if r[0] == s[0] && IsSubsequence(r[1..], s[1..]) {
      if x != r[0] {
        assert x in r[1..];
        SubsequenceMembers(r[1..], s[1..], x);
      }
    } else {
      SubsequenceMembers(r, s[1..], x);
    }
  }

  /** Sorting a list with distinct ids keeps them distinct. */
  lemma SortedDistinctIds(unique: seq<Job>, sorted: seq<Job>, i: nat, j: nat)
    requires forall a, b :: 0 <= a < b < |unique| ==> unique[a].id != unique[b].id
    requires multiset(sorted) == multiset(unique)
    requires i < j < |sorted|
    ensures sorted[i].id != sorted[j].id
  {
    assert sorted[i] in multiset(unique) && sorted[j] in multiset(unique);
    var a :| 0 <= a < |unique| && unique[a] == sorted[i];
    var b :| 0 <= b < |unique| && unique[b] == sorted[j];
    DistinctCount(unique, a);
    PairCount(sorted, i, j);
  }

  /** An element occurring at `i` and again at `j` is counted twice. */
  lemma PairCount(s: seq<Job>, i: nat, j: nat)
    requires i < j < |s|
    ensures multiset(s)[s[i]] >= 1 + (if s[j] == s[i] then 1 else 0)
  {
    var front := s[..j];
    assert s == front + [s[j]] + s[j + 1..];
    assert s[i] == front[i];
    assert multiset(front)[s[i]] >= 1;
  }

  lemma {:induction false} DistinctCount(s: seq<Job>, a: nat)
    requires forall p, q :: 0 <= p < q < |s| ==> s[p].id != s[q].id
    requires a < |s|
    ensures multiset(s)[s[a]] == 1
  {
    if |s| > 1 {
      var init := s[..|s| - 1];
      assert s == init + [s[|s| - 1]];
      if a < |init| {
        DistinctCount(init, a);
        assert s[|s| - 1] != s[a];
      } else {
        assert s[a] !in init by {
          forall p | 0 <= p < |init|
            ensures init[p] != s[a]
          {
            assert init[p].id == s[p].id != s[a].id;
          }
        }
      }
    }
  }

  /** The three priority pages split the board: each stored job is on exactly the page of its
      priority, so their counts add up to the total. */
  lemma {:induction false} PriorityPagesCoverBoard(jobs: seq<Job>)
    requires forall i :: 0 <= i < |jobs| ==> jobs[i].priority in {High, Medium, Low}
    ensures |Having(jobs, PriorityOf, High)| + |Having(jobs, PriorityOf, Medium)| + |Having(jobs, PriorityOf, Low)| == |jobs|
  {
    if jobs != [] {
      PriorityPagesCoverBoard(jobs[1..]);
    }
  }

  /** On a valid store, the pages for levels 1, 2 and 3 together hold every stored job once. */
  lemma BoardPagesCoverJobs(board: JobBoard)
    requires board.Valid()
    ensures board.PriorityJobs(High).1 + board.PriorityJobs(Medium).1 + board.PriorityJobs(Low).1 == |board.jobs|
  {
    PriorityPagesCoverBoard(board.jobs);
  }
}
