/**
 * Finding posting links in alert e-mail bodies (`extract_job_urls_from_email`)
 * and collecting them over a batch of messages (`fetch_linkedin_job_emails`).
 *
 * Each of the two link patterns is read as a function `MatchAt` giving the id
 * a match starting at a position captures; `LinkMatch` is the regular
 * expression's own reading (either choice of the optional `www.` group) and
 * `MatchAtIsLinkMatch` shows the two agree.
 */
module JobUrls {
  import opened Wrappers
  import opened Text
  import opened Lists

  /** `.../jobs/view/<id>` and `.../comm/jobs/view/<id>` links. */
  datatype Shape = ViewLink | CommLink

  /** The patterns in the order the extractor applies them. */
  const Patterns: seq<Shape> := [ViewLink, CommLink]

  const Scheme := "https://"
  const WwwHost := "www."
  const CanonicalPrefix := "https://www.linkedin.com/jobs/view/"

  /** How many of the most recent alert messages a batch reads. */
  const RecentLimit := 50

  function PathOf(shape: Shape): string
  {
    match shape
    case ViewLink => "linkedin.com/jobs/view/"
    case CommLink => "linkedin.com/comm/jobs/view/"
  }

  /** The fixed text of a pattern, with or without its optional `www.` group. */
  function LinkPrefix(www: bool, shape: Shape): string
  {
    Scheme + (if www then WwwHost else "") + PathOf(shape)
  }

  /** The one URL every link to posting `id` is rewritten to. */
  function CanonicalUrl(id: string): string
  {
    CanonicalPrefix + id
  }

  /** The lower-case literal `lit` occurs in `s` at `i`, letters compared ignoring case. */
  predicate LiteralAt(s: string, i: nat, lit: string)
    decreases |lit|
  {
    if lit == [] then i <= |s|
    else i < |s| && ToLowerChar(s[i]) == lit[0] && LiteralAt(s, i + 1, lit[1..])
  }

  /** The length of the run of ASCII digits starting at `j`. */
  function DigitRunLength(s: string, j: nat): (n: nat)
    ensures n == 0 || j + n <= |s|
    ensures forall m :: j <= m < j + n ==> m < |s| && IsDigit(s[m])
    ensures j + n < |s| ==> !IsDigit(s[j + n])
    decreases |s| - j
  {
    if j < |s| && IsDigit(s[j]) then 1 + DigitRunLength(s, j + 1) else 0
  }

  /** Where the id of a `shape` link starting at `i` begins, when the fixed text matches there.
      Trying `www.` first and falling back is the same as the pattern's backtracking, because
      a host starting with `www.` cannot also start with `linkedin`. */
  function IdStart(s: string, i: nat, shape: Shape): (j: Option<nat>)
    ensures j.Some? ==> j.value <= |s|
  {
    if !LiteralAt(s, i, Scheme) then None
    else
      var h := i + |Scheme|;
      var p := if LiteralAt(s, h, WwwHost) then h + |WwwHost| else h;
      if LiteralAt(s, p, PathOf(shape)) then LiteralAtBound(s, p, PathOf(shape)); Some(p + |PathOf(shape)|) else None
  }

  /** The id the `shape` pattern captures when a match starts at `i` (`\d+` is greedy). */
  function MatchAt(s: string, i: nat, shape: Shape): Option<string>
  {
    match IdStart(s, i, shape)
    case None => None
    case Some(j) =>
      var n := DigitRunLength(s, j);
      if n == 0 then None else Some(s[j..j + n])
  }

  /** `id` is the whole run of digits starting at `j`. */
  predicate DigitRunAt(s: string, j: nat, id: string)
  {
    && |id| > 0
    && j + |id| <= |s|
    && s[j..j + |id|] == id
    && (forall m :: j <= m < j + |id| ==> IsDigit(s[m]))
    && (j + |id| == |s| || !IsDigit(s[j + |id|]))
  }

  /** The fixed text of the pattern, with the `www.` group taken or not as `www` says, matches at
      `i`, and `id` is the digit run after it. */
  predicate LinkMatchWith(s: string, i: nat, shape: Shape, www: bool, id: string)
  {
    LiteralAt(s, i, LinkPrefix(www, shape)) && DigitRunAt(s, i + |LinkPrefix(www, shape)|, id)
  }

  /** The regular expression for `shape` matches at `i` and captures `id`. */
  predicate LinkMatch(s: string, i: nat, shape: Shape, id: string)
  {
    exists www: bool :: LinkMatchWith(s, i, shape, www, id)
  }

  /** A match of `shape` starting at `i` reports the URL `u`. */
  predicate FoundAt(s: string, i: nat, shape: Shape, u: string)
  {
    MatchAt(s, i, shape).Some? && u == CanonicalUrl(MatchAt(s, i, shape).value)
  }

  /** The canonical URLs of the `shape` matches starting before position `n`. */
  function UrlsOfShape(s: string, shape: Shape, n: nat): set<string>
  {
    set i: nat | i < n && i < |s| && MatchAt(s, i, shape).Some? :: CanonicalUrl(MatchAt(s, i, shape).value)
  }

  /** The URLs the scan finds for the patterns in `shapes`. */
  function ShapesUrls(s: string, shapes: seq<Shape>): set<string>
  {
    if shapes == [] then {}
    else ShapesUrls(s, shapes[..|shapes| - 1]) + UrlsOfShape(s, shapes[|shapes| - 1], |s|)
  }

  /** Every URL the extractor reports for one body. */
  function JobUrlsIn(s: string): set<string>
  {
    UrlsOfShape(s, ViewLink, |s|) + UrlsOfShape(s, CommLink, |s|)
  }

  /** `extract_job_urls_from_email`: each pattern scanned over the body, the canonical URLs
      gathered in a set, the set returned as a list. */
  method ExtractJobUrls(body: string) returns (urls: seq<string>)
    ensures Distinct(urls)
    ensures forall u :: u in urls <==> u in JobUrlsIn(body)
  {
    var found: set<string> := {};
    for p := 0 to |Patterns|
      invariant found == ShapesUrls(body, Patterns[..p])
    {
      var shape := Patterns[p];
      for i := 0 to |body|
        invariant found == ShapesUrls(body, Patterns[..p]) + UrlsOfShape(body, shape, i)
      {
        var m := MatchAt(body, i, shape);
        UrlsOfShapeStep(body, shape, i);
        if m.Some? {
          found := found + {CanonicalUrl(m.value)};
        }
      }
      assert Patterns[..p + 1][..p] == Patterns[..p];
    }
    assert Patterns[..|Patterns|] == Patterns;
    PatternsUrls(body);
    urls := ListOfSet(found);
  }

  /** The last `RecentLimit` messages (`email_ids[-50:]`). */
  function RecentWindow<T>(ids: seq<T>): seq<T>
  {
    if |ids| > RecentLimit then ids[|ids| - RecentLimit..] else ids
  }

  /** The union of the extractions over the messages that were read (`None`: fetch failed,
      filtered out by date, or could not be processed). */
  function BatchUrls(bodies: seq<Option<string>>): set<string>
  {
    UnionOf(bodies, BodyUrls)
  }

  /** The URLs one message contributes: none when it was not read. */
  function BodyUrls(body: Option<string>): set<string>
  {
    match body
    case Some(b) => JobUrlsIn(b)
    case None => {}
  }

  /** The URL part of `fetch_linkedin_job_emails`: extend a list with each message's URLs,
      then return `list(set(...))` of it. */
  method FetchJobUrls(inbox: seq<Option<string>>) returns (urls: seq<string>)
    ensures Distinct(urls)
    ensures forall u :: u in urls <==> u in BatchUrls(RecentWindow(inbox))
  {
    var recent := RecentWindow(inbox);
    var all: seq<string> := [];
    for k := 0 to |recent|
      invariant forall u :: u in all <==> u in BatchUrls(recent[..k])
    {
      assert recent[..k + 1][..k] == recent[..k];
      match recent[k] {
        case None =>
        case Some(body) =>
          if body != "" {
            var found := ExtractJobUrls(body);
            all := all + found;
          } else {
            assert JobUrlsIn(body) == {} by { NoUrlsInEmpty(); }
          }
      }
    }
    assert recent[..|recent|] == recent;
    urls := ListOfSet(set u | u in all);
  }

  // ---------------------------------------------------------------------------
  // Properties

  lemma UrlsOfShapeStep(s: string, shape: Shape, i: nat)
    requires i < |s|
    ensures UrlsOfShape(s, shape, i + 1)
         == UrlsOfShape(s, shape, i)
          + (if MatchAt(s, i, shape).Some? then {CanonicalUrl(MatchAt(s, i, shape).value)} else {})
  {
  }

  lemma NoUrlsInEmpty()
    ensures JobUrlsIn("") == {}
  {
  }

  lemma PatternsUrls(s: string)
    ensures ShapesUrls(s, Patterns) == JobUrlsIn(s)
  {
    assert Patterns[..1] == [ViewLink];
    assert Patterns[..1][..0] == [];
    assert ShapesUrls(s, [ViewLink]) == UrlsOfShape(s, ViewLink, |s|);
  }

  lemma InUrlsOfShape(s: string, shape: Shape, u: string)
    ensures u in UrlsOfShape(s, shape, |s|) <==> exists i: nat :: i < |s| && FoundAt(s, i, shape, u)
  {
    if u in UrlsOfShape(s, shape, |s|) {
      var i: nat :| i < |s| && MatchAt(s, i, shape).Some? && u == CanonicalUrl(MatchAt(s, i, shape).value);
      assert FoundAt(s, i, shape, u);
    }
  }

  lemma ReportedUrlIsFound(s: string, u: string)
    requires u in JobUrlsIn(s)
    ensures exists i: nat, shape: Shape :: i < |s| && FoundAt(s, i, shape, u)
  {
    if u in UrlsOfShape(s, ViewLink, |s|) {
      InUrlsOfShape(s, ViewLink, u);
      var i: nat :| i < |s| && FoundAt(s, i, ViewLink, u);
    } else {
      InUrlsOfShape(s, CommLink, u);
      var i: nat :| i < |s| && FoundAt(s, i, CommLink, u);
    }
  }

  lemma FoundUrlIsReported(s: string, u: string, i: nat, shape: Shape)
    requires i < |s| && FoundAt(s, i, shape, u)
    ensures u in JobUrlsIn(s)
  {
    InUrlsOfShape(s, shape, u);
  }

  /** Membership in `JobUrlsIn` through the positions where a pattern matches. */
  lemma JobUrlsInMembers(s: string, u: string)
    ensures u in JobUrlsIn(s) <==> exists i: nat, shape: Shape :: i < |s| && FoundAt(s, i, shape, u)
  {
    if u in JobUrlsIn(s) {
      ReportedUrlIsFound(s, u);
    }
    if exists i: nat, shape: Shape :: i < |s| && FoundAt(s, i, shape, u) {
      var i: nat, shape: Shape :| i < |s| && FoundAt(s, i, shape, u);
      FoundUrlIsReported(s, u, i, shape);
    }
  }

  lemma {:induction false} LiteralAtChars(s: string, i: nat, lit: string)
    ensures LiteralAt(s, i, lit) <==>
      i + |lit| <= |s| && forall k :: 0 <= k < |lit| ==> ToLowerChar(s[i + k]) == lit[k]
    decreases |lit|
  {
    if lit != [] {
      LiteralAtChars(s, i + 1, lit[1..]);
      if i + |lit| <= |s| && forall k :: 0 <= k < |lit| ==> ToLowerChar(s[i + k]) == lit[k] {
        forall k | 0 <= k < |lit| - 1
          ensures ToLowerChar(s[i + 1 + k]) == lit[1..][k]
        {
          assert ToLowerChar(s[i + (k + 1)]) == lit[k + 1];
        }
        assert ToLowerChar(s[i + 0]) == lit[0];
      }
      if LiteralAt(s, i, lit) {
        forall k | 0 <= k < |lit|
          ensures ToLowerChar(s[i + k]) == lit[k]
        {
          if k > 0 {
            assert ToLowerChar(s[i + 1 + (k - 1)]) == lit[1..][k - 1];
          }
        }
      }
    }
  }

  lemma {:induction false} LiteralAtBound(s: string, i: nat, lit: string)
    requires LiteralAt(s, i, lit)
    ensures i + |lit| <= |s|
    decreases |lit|
  {
    if lit != [] {
      LiteralAtBound(s, i + 1, lit[1..]);
    }
  }

  lemma LiteralAtChar(s: string, i: nat, lit: string, k: nat)
    requires LiteralAt(s, i, lit) && k < |lit|
    ensures i + |lit| <= |s| && ToLowerChar(s[i + k]) == lit[k]
  {
    LiteralAtChars(s, i, lit);
  }

  lemma LiteralAtConcat(s: string, i: nat, a: string, b: string)
    ensures LiteralAt(s, i, a + b) <==> LiteralAt(s, i, a) && LiteralAt(s, i + |a|, b)
  {
    LiteralAtChars(s, i, a + b);
    LiteralAtChars(s, i, a);
    LiteralAtChars(s, i + |a|, b);
    if LiteralAt(s, i, a) && LiteralAt(s, i + |a|, b) {
      forall k | 0 <= k < |a + b|
        ensures ToLowerChar(s[i + k]) == (a + b)[k]
      {
        if k >= |a| {
          assert ToLowerChar(s[i + |a| + (k - |a|)]) == b[k - |a|];
        }
      }
    }
    if LiteralAt(s, i, a + b) {
      forall k | 0 <= k < |b|
        ensures ToLowerChar(s[i + |a| + k]) == b[k]
      {
        assert ToLowerChar(s[i + (|a| + k)]) == (a + b)[|a| + k];
      }
      forall k | 0 <= k < |a|
        ensures ToLowerChar(s[i + k]) == a[k]
      {
        assert ToLowerChar(s[i + k]) == (a + b)[k];
      }
    }
  }

  lemma {:induction false} DigitRunLengthOfRun(s: string, j: nat, id: string)
    requires DigitRunAt(s, j, id)
    ensures DigitRunLength(s, j) == |id|
    decreases |id|
  {
    assert s[j] == s[j..j + |id|][0] == id[0];
    if |id| > 1 {
      var rest := id[1..];
      assert s[j + 1..j + 1 + |rest|] == s[j..j + |id|][1..];
      assert forall c :: c in rest ==> c in id;
      DigitRunLengthOfRun(s, j + 1, rest);
    } else {
      assert j + 1 == |s| || !IsDigit(s[j + 1]);
    }
  }

  lemma DigitRunAtLength(s: string, j: nat)
    requires DigitRunLength(s, j) > 0
    ensures DigitRunAt(s, j, s[j..j + DigitRunLength(s, j)])
  {
    var n := DigitRunLength(s, j);
    var id := s[j..j + n];
    forall c | c in id
      ensures IsDigit(c)
    {
      var m :| 0 <= m < |id| && id[m] == c;
      assert id[m] == s[j + m];
    }
  }

  /** A host that starts with `www.` does not start with `linkedin`. */
  lemma WwwIsNotPath(s: string, h: nat, shape: Shape)
    ensures !(LiteralAt(s, h, WwwHost) && LiteralAt(s, h, PathOf(shape)))
  {
    if LiteralAt(s, h, WwwHost) {
      assert ToLowerChar(s[h]) == WwwHost[0] == 'w';
      assert PathOf(shape)[0] == 'l';
    }
  }

  lemma LinkPrefixSplit(s: string, i: nat, www: bool, shape: Shape)
    ensures LiteralAt(s, i, LinkPrefix(www, shape)) <==>
      && LiteralAt(s, i, Scheme)
      && (www ==> LiteralAt(s, i + |Scheme|, WwwHost))
      && LiteralAt(s, i + |Scheme| + (if www then |WwwHost| else 0), PathOf(shape))
  {
    var w := if www then WwwHost else "";
    assert LinkPrefix(www, shape) == (Scheme + w) + PathOf(shape);
    LiteralAtConcat(s, i, Scheme + w, PathOf(shape));
    LiteralAtConcat(s, i, Scheme, w);
  }

  /** The fixed text of a pattern matching at `i` places the id right after it. */
  lemma IdStartOfPrefix(s: string, i: nat, www: bool, shape: Shape)
    requires LiteralAt(s, i, LinkPrefix(www, shape))
    ensures IdStart(s, i, shape) == Some(i + |LinkPrefix(www, shape)|)
  {
    LinkPrefixSplit(s, i, www, shape);
    LinkPrefixLength(www, shape);
    if www {
      IdStartWithWww(s, i, shape);
    } else {
      IdStartWithoutWww(s, i, shape);
    }
  }

  lemma IdStartWithWww(s: string, i: nat, shape: Shape)
    requires LiteralAt(s, i, Scheme) && LiteralAt(s, i + |Scheme|, WwwHost)
    requires LiteralAt(s, i + |Scheme| + |WwwHost|, PathOf(shape))
    ensures IdStart(s, i, shape) == Some(i + |Scheme| + |WwwHost| + |PathOf(shape)|)
  {
    IdStartOfParts(s, i, shape, i + |Scheme| + |WwwHost|);
  }

  lemma IdStartWithoutWww(s: string, i: nat, shape: Shape)
    requires LiteralAt(s, i, Scheme) && LiteralAt(s, i + |Scheme|, PathOf(shape))
    ensures IdStart(s, i, shape) == Some(i + |Scheme| + |PathOf(shape)|)
  {
    WwwIsNotPath(s, i + |Scheme|, shape);
    IdStartOfParts(s, i, shape, i + |Scheme|);
  }

  /** `IdStart` when the scheme and the path match, the path where the `www.` test puts it. */
  lemma IdStartOfParts(s: string, i: nat, shape: Shape, p: nat)
    requires LiteralAt(s, i, Scheme)
    requires p == if LiteralAt(s, i + |Scheme|, WwwHost) then i + |Scheme| + |WwwHost| else i + |Scheme|
    requires LiteralAt(s, p, PathOf(shape))
    ensures IdStart(s, i, shape) == Some(p + |PathOf(shape)|)
  {
  }

  lemma LinkPrefixLength(www: bool, shape: Shape)
    ensures |LinkPrefix(www, shape)| == |Scheme| + (if www then |WwwHost| else 0) + |PathOf(shape)|
  {
  }

  lemma PrefixOfIdStart(s: string, i: nat, shape: Shape) returns (www: bool)
    requires IdStart(s, i, shape).Some?
    ensures LiteralAt(s, i, LinkPrefix(www, shape))
    ensures IdStart(s, i, shape).value == i + |LinkPrefix(www, shape)|
  {
    www := LiteralAt(s, i + |Scheme|, WwwHost);
    LinkPrefixSplit(s, i, www, shape);
  }

  lemma MatchAtGivesLinkMatch(s: string, i: nat, shape: Shape, id: string)
    requires MatchAt(s, i, shape) == Some(id)
    ensures LinkMatch(s, i, shape, id)
  {
    var j := MatchAtParts(s, i, shape, id);
    var www := PrefixOfIdStart(s, i, shape);
    LinkMatchOfParts(s, i, shape, www, j, id);
  }

  lemma LinkMatchOfParts(s: string, i: nat, shape: Shape, www: bool, j: nat, id: string)
    requires LiteralAt(s, i, LinkPrefix(www, shape)) && j == i + |LinkPrefix(www, shape)|
    requires DigitRunAt(s, j, id)
    ensures LinkMatch(s, i, shape, id)
  {
    assert LinkMatchWith(s, i, shape, www, id);
  }

  /** A match has its id start after the fixed text and captures the whole digit run there. */
  lemma MatchAtParts(s: string, i: nat, shape: Shape, id: string) returns (j: nat)
    requires MatchAt(s, i, shape) == Some(id)
    ensures IdStart(s, i, shape) == Some(j)
    ensures DigitRunAt(s, j, id)
  {
    j := DigitsAfterStart(s, IdStart(s, i, shape), id);
  }

  /** The digit-run half of `MatchAt`, for a start position already found. */
  lemma DigitsAfterStart(s: string, start: Option<nat>, id: string) returns (j: nat)
    requires match start
             case None => false
             case Some(p) => DigitRunLength(s, p) > 0 && id == s[p..p + DigitRunLength(s, p)]
    ensures start == Some(j) && DigitRunAt(s, j, id)
  {
    j := start.value;
    DigitRunAtLength(s, j);
  }

  lemma LinkMatchGivesMatchAt(s: string, i: nat, shape: Shape, id: string)
    requires LinkMatch(s, i, shape, id)
    ensures MatchAt(s, i, shape) == Some(id)
  {
    var j := LinkMatchParts(s, i, shape, id);
    MatchAtOfRun(s, i, shape, j, id);
  }

  /** A match of the regular expression has its id start after the fixed text. */
  lemma LinkMatchParts(s: string, i: nat, shape: Shape, id: string) returns (j: nat)
    requires LinkMatch(s, i, shape, id)
    ensures IdStart(s, i, shape) == Some(j) && DigitRunAt(s, j, id)
  {
    var www :| LinkMatchWith(s, i, shape, www, id);
    IdStartOfPrefix(s, i, www, shape);
    j := i + |LinkPrefix(www, shape)|;
  }

  lemma MatchAtOfRun(s: string, i: nat, shape: Shape, j: nat, id: string)
    requires IdStart(s, i, shape) == Some(j)
    requires DigitRunAt(s, j, id)
    ensures MatchAt(s, i, shape) == Some(id)
  {
    DigitRunLengthOfRun(s, j, id);
  }

  /** `MatchAt` is the regular expression's reading of a pattern. */
  lemma MatchAtIsLinkMatch(s: string, i: nat, shape: Shape, id: string)
    ensures MatchAt(s, i, shape) == Some(id) <==> LinkMatch(s, i, shape, id)
  {
    if MatchAt(s, i, shape) == Some(id) {
      MatchAtGivesLinkMatch(s, i, shape, id);
    }
    if LinkMatch(s, i, shape, id) {
      LinkMatchGivesMatchAt(s, i, shape, id);
    }
  }

  /** The characters after the first of a link's fixed text are never an `h`. */
  lemma NoSchemeInsideLinkPrefix(www: bool, shape: Shape)
    ensures forall m :: 1 <= m < |LinkPrefix(www, shape)| ==> LinkPrefix(www, shape)[m] != 'h'
  {
    var w := if www then WwwHost else "";
    assert forall m :: 1 <= m < |Scheme| ==> Scheme[m] != 'h';
    assert forall m :: 0 <= m < |w| ==> w[m] != 'h';
    assert forall m :: 0 <= m < |PathOf(shape)| ==> PathOf(shape)[m] != 'h';
    NoCharAfterFirst(Scheme, w, 'h');
    NoCharAfterFirst(Scheme + w, PathOf(shape), 'h');
  }

  lemma NoCharAfterFirst(a: string, b: string, c: char)
    requires forall m :: 1 <= m < |a| ==> a[m] != c
    requires forall m :: 0 <= m < |b| ==> b[m] != c
    ensures forall m :: 1 <= m < |a + b| ==> (a + b)[m] != c
  {
    forall m | 1 <= m < |a + b|
      ensures (a + b)[m] != c
    {
      if m >= |a| {
        assert (a + b)[m] == b[m - |a|];
      }
    }
  }

  /** No match starts strictly inside another one, so scanning every position finds exactly what
      the non-overlapping `re.findall` scan finds. */
  lemma MatchesDoNotOverlap(s: string, i: nat, shape: Shape, id: string, k: nat, other: Shape)
    requires MatchAt(s, i, shape) == Some(id)
    requires i < k < IdStart(s, i, shape).value + |id|
    ensures MatchAt(s, k, other) == None
  {
    var www := PrefixOfIdStart(s, i, shape);
    var p := LinkPrefix(www, shape);
    if k < i + |p| {
      LiteralAtChar(s, i, p, k - i);
      NoSchemeInsideLinkPrefix(www, shape);
    } else {
      assert IsDigit(s[k]);
    }
    NoMatchWithoutScheme(s, k, other);
  }

  /** A match needs an `h` (or `H`) where it starts. */
  lemma NoMatchWithoutScheme(s: string, k: nat, shape: Shape)
    requires k < |s| && ToLowerChar(s[k]) != 'h'
    ensures MatchAt(s, k, shape) == None
  {
    assert Scheme[0] == 'h';
  }

  /** A literal with a character the text does not have at that place does not occur there. */
  lemma LiteralAtMismatch(s: string, i: nat, lit: string, k: nat)
    requires k < |lit| && (i + k < |s| ==> ToLowerChar(s[i + k]) != lit[k])
    ensures !LiteralAt(s, i, lit)
  {
    LiteralAtChars(s, i, lit);
  }

  /** The fixed text of a link has no upper-case letter, so it matches itself. */
  lemma LinkPrefixIsLower(www: bool, shape: Shape)
    ensures forall m :: 0 <= m < |LinkPrefix(www, shape)| ==> !IsUpper(LinkPrefix(www, shape)[m])
  {
    var w := if www then WwwHost else "";
    assert forall m :: 0 <= m < |Scheme| ==> !IsUpper(Scheme[m]);
    assert forall m :: 0 <= m < |w| ==> !IsUpper(w[m]);
    assert forall m :: 0 <= m < |PathOf(shape)| ==> !IsUpper(PathOf(shape)[m]);
    NoUpperInConcat(Scheme, w);
    NoUpperInConcat(Scheme + w, PathOf(shape));
  }

  lemma NoUpperInConcat(a: string, b: string)
    requires forall m :: 0 <= m < |a| ==> !IsUpper(a[m])
    requires forall m :: 0 <= m < |b| ==> !IsUpper(b[m])
    ensures forall m :: 0 <= m < |a + b| ==> !IsUpper((a + b)[m])
  {
    forall m | 0 <= m < |a + b|
      ensures !IsUpper((a + b)[m])
    {
      if m >= |a| {
        assert (a + b)[m] == b[m - |a|];
      }
    }
  }

  /** A link of either shape, with or without `www.`, for posting `id` anywhere in a body
      puts exactly the canonical URL of `id` in the result. */
  lemma LinkYieldsCanonicalUrl(pre: string, www: bool, shape: Shape, id: string, post: string)
    requires |id| > 0 && forall c :: c in id ==> IsDigit(c)
    requires post == [] || !IsDigit(post[0])
    ensures CanonicalUrl(id) in JobUrlsIn(pre + LinkPrefix(www, shape) + id + post)
  {
    var s := pre + LinkPrefix(www, shape) + id + post;
    MatchAtOfLink(pre, www, shape, id, post);
    FoundUrlIsReported(s, CanonicalUrl(id), |pre|, shape);
  }

  /** The pattern matches a link where it starts and captures the whole id. */
  lemma MatchAtOfLink(pre: string, www: bool, shape: Shape, id: string, post: string)
    requires |id| > 0 && forall c :: c in id ==> IsDigit(c)
    requires post == [] || !IsDigit(post[0])
    ensures MatchAt(pre + LinkPrefix(www, shape) + id + post, |pre|, shape) == Some(id)
  {
    var p := LinkPrefix(www, shape);
    var s := pre + p + id + post;
    var i := |pre|;
    LinkPrefixIsLower(www, shape);
    forall k | 0 <= k < |p|
      ensures ToLowerChar(s[i + k]) == p[k]
    {
      assert s[i + k] == p[k];
    }
    LiteralAtChars(s, i, p);
    assert s[i + |p|..i + |p| + |id|] == id;
    forall m | i + |p| <= m < i + |p| + |id|
      ensures IsDigit(s[m])
    {
      assert s[m] == id[m - i - |p|];
    }
    if post != [] {
      assert s[i + |p| + |id|] == post[0];
    }
    assert LinkMatchWith(s, i, shape, www, id);
    LinkMatchGivesMatchAt(s, i, shape, id);
  }

  /** The URLs of a body are exactly the canonical URLs of the ids the patterns capture; in
      particular a body without a link gives none. */
  lemma JobUrlsInAreLinkIds(s: string, u: string)
    ensures u in JobUrlsIn(s) <==>
      exists i: nat, shape: Shape, id: string :: i < |s| && LinkMatch(s, i, shape, id) && u == CanonicalUrl(id)
  {
    if u in JobUrlsIn(s) {
      ReportedUrlIsFound(s, u);
      var i: nat, shape: Shape :| i < |s| && FoundAt(s, i, shape, u);
      var id := MatchAt(s, i, shape).value;
      MatchAtGivesLinkMatch(s, i, shape, id);
      assert i < |s| && LinkMatch(s, i, shape, id) && u == CanonicalUrl(id);
    }
    if exists i: nat, shape: Shape, id: string :: i < |s| && LinkMatch(s, i, shape, id) && u == CanonicalUrl(id) {
      var i: nat, shape: Shape, id: string :| i < |s| && LinkMatch(s, i, shape, id) && u == CanonicalUrl(id);
      LinkMatchGivesMatchAt(s, i, shape, id);
      FoundUrlIsReported(s, u, i, shape);
    }
  }

  /** A body in which no pattern matches anywhere gives the empty list, not an error. */
  lemma NoLinkGivesNoUrls(s: string)
    requires forall i: nat, shape: Shape, id: string :: i < |s| ==> !LinkMatch(s, i, shape, id)
    ensures JobUrlsIn(s) == {}
  {
    forall u | u in JobUrlsIn(s)
      ensures false
    {
      JobUrlsInAreLinkIds(s, u);
    }
  }

  /** Two URLs are the same exactly when their posting ids are: deduplicating URLs deduplicates postings. */
  lemma CanonicalUrlInjective(a: string, b: string)
    ensures CanonicalUrl(a) == CanonicalUrl(b) <==> a == b
  {
    if CanonicalUrl(a) == CanonicalUrl(b) {
      assert a == CanonicalUrl(a)[|CanonicalPrefix|..];
      assert b == CanonicalUrl(b)[|CanonicalPrefix|..];
    }
  }

  /** Extracting from a canonical URL gives back that URL and nothing else. */
  lemma CanonicalUrlIsFixedPoint(id: string)
    requires |id| > 0 && forall c :: c in id ==> IsDigit(c)
    ensures JobUrlsIn(CanonicalUrl(id)) == {CanonicalUrl(id)}
  {
    var s := CanonicalUrl(id);
    CanonicalUrlMatchesView(id);
    FoundUrlIsReported(s, s, 0, ViewLink);
    forall u | u in JobUrlsIn(s)
      ensures u == s
    {
      OnlyUrlOfCanonicalUrl(id, u);
    }
  }

  lemma OnlyUrlOfCanonicalUrl(id: string, u: string)
    requires |id| > 0 && forall c :: c in id ==> IsDigit(c)
    requires u in JobUrlsIn(CanonicalUrl(id))
    ensures u == CanonicalUrl(id)
  {
    OnlyMatchOfCanonicalUrl(id);
    UrlOfOnlyMatch(CanonicalUrl(id), id, u);
  }

  /** A text whose only match is a view link at its start reports only that link's URL. */
  lemma UrlOfOnlyMatch(s: string, id: string, u: string)
    requires MatchAt(s, 0, ViewLink) == Some(id) && MatchAt(s, 0, CommLink) == None
    requires forall i: nat, shape: Shape :: 0 < i < |s| ==> MatchAt(s, i, shape) == None
    requires u in JobUrlsIn(s)
    ensures u == CanonicalUrl(id)
  {
    ReportedUrlIsFound(s, u);
    var i: nat, shape: Shape :| i < |s| && FoundAt(s, i, shape, u);
    var m := MatchAt(s, i, shape);
    assert m.Some? && u == CanonicalUrl(m.value);
    assert i == 0;
    assert shape == ViewLink;
  }

  /** In a canonical URL only the view pattern matches, and only at the start, capturing the id. */
  lemma OnlyMatchOfCanonicalUrl(id: string)
    requires |id| > 0 && forall c :: c in id ==> IsDigit(c)
    ensures MatchAt(CanonicalUrl(id), 0, ViewLink) == Some(id)
    ensures MatchAt(CanonicalUrl(id), 0, CommLink) == None
    ensures forall i: nat, shape: Shape :: 0 < i < |CanonicalUrl(id)| ==> MatchAt(CanonicalUrl(id), i, shape) == None
  {
    CanonicalUrlMatchesView(id);
    CanonicalUrlIsNotComm(id);
    forall i: nat, shape: Shape | 0 < i < |CanonicalUrl(id)|
      ensures MatchAt(CanonicalUrl(id), i, shape) == None
    {
      NoMatchInsideCanonicalUrl(id, i, shape);
    }
  }

  lemma CanonicalUrlMatchesView(id: string)
    requires |id| > 0 && forall c :: c in id ==> IsDigit(c)
    ensures MatchAt(CanonicalUrl(id), 0, ViewLink) == Some(id)
  {
    assert CanonicalUrl(id) == [] + LinkPrefix(true, ViewLink) + id + [];
    MatchAtOfLink([], true, ViewLink, id, []);
  }

  lemma CanonicalUrlIsNotComm(id: string)
    ensures MatchAt(CanonicalUrl(id), 0, CommLink) == None
  {
    var s := CanonicalUrl(id);
    assert s[|Scheme|] == 'w';
    assert s[|Scheme| + |WwwHost| + 13] == 'j';
    NotCommWithViewPath(s);
  }

  /** A `comm` link needs `l` right after the scheme, or `c` where the view path has its `j`. */
  lemma NotCommWithViewPath(s: string)
    requires |Scheme| + |WwwHost| + 13 < |s|
    requires s[|Scheme|] == 'w' && s[|Scheme| + |WwwHost| + 13] == 'j'
    ensures MatchAt(s, 0, CommLink) == None
  {
    LiteralAtMismatch(s, |Scheme|, PathOf(CommLink), 0);
    LiteralAtMismatch(s, |Scheme| + |WwwHost|, PathOf(CommLink), 13);
  }

  lemma NoMatchInsideCanonicalUrl(id: string, i: nat, shape: Shape)
    requires forall c :: c in id ==> IsDigit(c)
    requires 0 < i < |CanonicalUrl(id)|
    ensures MatchAt(CanonicalUrl(id), i, shape) == None
  {
    var s := CanonicalUrl(id);
    if i < |CanonicalPrefix| {
      assert forall m :: 1 <= m < |CanonicalPrefix| ==> CanonicalPrefix[m] != 'h' && CanonicalPrefix[m] != 'H';
      assert s[i] == CanonicalPrefix[i];
    } else {
      assert s[i] == id[i - |CanonicalPrefix|];
      assert s[i] in id;
    }
    NoMatchWithoutScheme(s, i, shape);
  }

  lemma ToLowerCharKeepsDigits(a: char, b: char)
    requires ToLowerChar(a) == ToLowerChar(b)
    ensures IsDigit(a) <==> IsDigit(b)
    ensures IsDigit(a) ==> a == b
  {
  }

  lemma {:induction false} DigitRunLengthIgnoresCase(s: string, t: string, j: nat)
    requires SameUpToCase(s, t)
    ensures DigitRunLength(s, j) == DigitRunLength(t, j)
    decreases |s| - j
  {
    if j < |s| {
      ToLowerCharKeepsDigits(s[j], t[j]);
      DigitRunLengthIgnoresCase(s, t, j + 1);
    }
  }

  /** `s` and `t` differ at most in the case of ASCII letters. */
  predicate SameUpToCase(s: string, t: string)
  {
    |s| == |t| && forall m :: 0 <= m < |s| ==> ToLowerChar(s[m]) == ToLowerChar(t[m])
  }

  lemma {:induction false} LiteralAtIgnoresCase(s: string, t: string, i: nat, lit: string)
    requires SameUpToCase(s, t)
    ensures LiteralAt(s, i, lit) == LiteralAt(t, i, lit)
    decreases |lit|
  {
    if lit != [] {
      LiteralAtIgnoresCase(s, t, i + 1, lit[1..]);
    }
  }

  lemma IdStartIgnoresCase(s: string, t: string, i: nat, shape: Shape)
    requires SameUpToCase(s, t)
    ensures IdStart(s, i, shape) == IdStart(t, i, shape)
  {
    var h := i + |Scheme|;
    LiteralAtIgnoresCase(s, t, i, Scheme);
    LiteralAtIgnoresCase(s, t, h, WwwHost);
    LiteralAtIgnoresCase(s, t, h, PathOf(shape));
    LiteralAtIgnoresCase(s, t, h + |WwwHost|, PathOf(shape));
  }

  lemma SameUpToCaseOfLower(s: string, t: string)
    requires ToLower(s) == ToLower(t)
    ensures SameUpToCase(s, t)
  {
    assert |s| == |ToLower(s)| == |t|;
    forall m | 0 <= m < |s|
      ensures ToLowerChar(s[m]) == ToLowerChar(t[m])
    {
      assert ToLower(s)[m] == ToLower(t)[m];
    }
  }

  lemma MatchAtIgnoresCase(s: string, t: string, i: nat, shape: Shape)
    requires SameUpToCase(s, t)
    ensures MatchAt(s, i, shape) == MatchAt(t, i, shape)
  {
    IdStartIgnoresCase(s, t, i, shape);
    if IdStart(s, i, shape).Some? {
      var j := IdStart(s, i, shape).value;
      DigitRunLengthIgnoresCase(s, t, j);
      DigitsIgnoreCase(s, t, j, DigitRunLength(s, j));
    }
  }

  /** Where `s` has digits, a text equal to it up to case has the same digits. */
  lemma DigitsIgnoreCase(s: string, t: string, j: nat, n: nat)
    requires SameUpToCase(s, t) && j + n <= |s|
    requires forall m :: j <= m < j + n ==> IsDigit(s[m])
    ensures s[j..j + n] == t[j..j + n]
  {
    forall m | j <= m < j + n
      ensures s[m] == t[m]
    {
      ToLowerCharKeepsDigits(s[m], t[m]);
    }
  }

  /** The patterns ignore case: bodies equal up to letter case give the same URLs. */
  lemma JobUrlsIgnoreCase(s: string, t: string)
    requires ToLower(s) == ToLower(t)
    ensures JobUrlsIn(s) == JobUrlsIn(t)
  {
    SameUpToCaseOfLower(s, t);
    assert |s| == |t|;
    forall i: nat, shape: Shape
      ensures MatchAt(s, i, shape) == MatchAt(t, i, shape)
    {
      MatchAtIgnoresCase(s, t, i, shape);
    }
    forall u
      ensures u in JobUrlsIn(s) <==> u in JobUrlsIn(t)
    {
      JobUrlsInMembers(s, u);
      JobUrlsInMembers(t, u);
    }
  }

  /** A URL is in the batch result exactly when some message read in the window yields it. */
  lemma BatchUrlsMembers(bodies: seq<Option<string>>, u: string)
    ensures u in BatchUrls(bodies) <==>
      exists k :: 0 <= k < |bodies| && bodies[k].Some? && u in JobUrlsIn(bodies[k].value)
  {
    UnionOfMembers(bodies, BodyUrls, u);
  }

  /** The window is the last `RecentLimit` messages, or all of them when there are fewer. */
  lemma RecentWindowIsSuffix<T>(ids: seq<T>)
    ensures |RecentWindow(ids)| == if |ids| > RecentLimit then RecentLimit else |ids|
    ensures RecentWindow(ids) == ids[|ids| - |RecentWindow(ids)|..]
  {
  }
}
