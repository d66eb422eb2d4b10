/**
 * Ranking a job by keywords (`calculate_priority`, present both in the e-mail
 * parser and in the web application).
 *
 * The text searched is the lower-cased title, a space and the lower-cased
 * company. The first high-priority keyword found gives 1, otherwise the first
 * medium-priority keyword found gives 2, otherwise the job gets 3. Keywords
 * are compared as written, so only lower-case keywords can ever be found.
 */
module Priority {
  import opened Text

  const High := 1
  const Medium := 2
  const Low := 3

  /** The keyword lists the parser writes to `keywords.json` when the file is missing, which are
      also the lists the web application has built in. */
  const DefaultHigh: seq<string> := [
    "oracle erp", "oracle epm", "technical sales", "fusion", "netsuite",
    "manager", "senior manager", "pwc", "pricewaterhousecoopers"
  ]
  const DefaultMedium: seq<string> := [
    "oracle cloud", "oracle application", "oracle consultant",
    "oracle developer", "oracle hcm", "oracle scm"
  ]

  /** `f"{title} {company}"` over the lower-cased fields: the title's letters, a space, then the
      company's letters, with no upper-case letter left, so lower-casing it again changes nothing. */
  function CombinedText(title: string, company: string): (text: string)
    ensures |text| == |title| + 1 + |company| && text[|title|] == ' '
    ensures forall i :: 0 <= i < |text| ==> !IsUpper(text[i])
    ensures ToLower(text) == text
  {
    ToLowerConcat(ToLower(title) + " ", ToLower(company));
    ToLowerConcat(ToLower(title), " ");
    ToLowerIdempotent(title);
    ToLowerIdempotent(company);
    ToLower(title) + " " + ToLower(company)
  }

  /** The parser lower-cases the combined text once more, which changes nothing: both copies of
      `calculate_priority` search the same text. */
  function ParserText(title: string, company: string): (text: string)
    ensures text == CombinedText(title, company)
  {
    ToLower(ToLower(title) + " " + ToLower(company))
  }

  /** Some keyword of `keywords` is a substring of `text`. */
  function AnyKeywordIn(keywords: seq<string>, text: string): (found: bool)
    ensures found <==> exists k :: 0 <= k < |keywords| && Contains(text, keywords[k])
  {
    if keywords == [] then false
    else if Contains(text, keywords[0]) then true
    else
      var found := AnyKeywordIn(keywords[1..], text);
      assert forall k :: 0 < k < |keywords| ==> keywords[k] == keywords[1..][k - 1];
      found
  }

  /** The priority the keyword lists give `text`. */
  function Classify(text: string, high: seq<string>, medium: seq<string>): (p: int)
    ensures p == High <==> exists k :: 0 <= k < |high| && Contains(text, high[k])
    ensures p == Medium <==>
      (forall k :: 0 <= k < |high| ==> !Contains(text, high[k])) &&
      (exists k :: 0 <= k < |medium| && Contains(text, medium[k]))
    ensures p == Low <==>
      (forall k :: 0 <= k < |high| ==> !Contains(text, high[k])) &&
      (forall k :: 0 <= k < |medium| ==> !Contains(text, medium[k]))
  {
    if AnyKeywordIn(high, text) then High else if AnyKeywordIn(medium, text) then Medium else Low
  }

  /** `calculate_priority` on the text it builds: the high keywords in order, returning 1 at the
      first found, then the medium keywords, returning 2, and 3 when the loops run out. */
  method CalculatePriority(text: string, high: seq<string>, medium: seq<string>) returns (p: int)
    ensures p == Classify(text, high, medium)
    ensures p in {High, Medium, Low}
  {
    for k := 0 to |high|
      invariant forall m :: 0 <= m < k ==> !Contains(text, high[m])
    {
      if Contains(text, high[k]) {
        return High;
      }
    }
    for k := 0 to |medium|
      invariant forall m :: 0 <= m < k ==> !Contains(text, medium[m])
    {
      if Contains(text, medium[k]) {
        return Medium;
      }
    }
    return Low;
  }

  // ---------------------------------------------------------------------------
  // Properties

  /** A keyword found in the title or in the company is found in the combined text. */
  lemma FieldKeywordIsFound(title: string, company: string, keyword: string)
    requires Contains(ToLower(title), keyword) || Contains(ToLower(company), keyword)
    ensures Contains(CombinedText(title, company), keyword)
  {
    var t := CombinedText(title, company);
    if Contains(ToLower(title), keyword) {
      var i :| 0 <= i <= |ToLower(title)| - |keyword| && OccursAt(ToLower(title), keyword, i);
      assert t[i..i + |keyword|] == ToLower(title)[i..i + |keyword|];
      assert OccursAt(t, keyword, i);
    } else {
      var i :| 0 <= i <= |ToLower(company)| - |keyword| && OccursAt(ToLower(company), keyword, i);
      var j := |ToLower(title)| + 1 + i;
      assert t[j..j + |keyword|] == ToLower(company)[i..i + |keyword|];
      assert OccursAt(t, keyword, j);
    }
  }

  /** A high keyword in either field ranks the job 1, whatever the medium keywords. */
  lemma HighKeywordInFieldRanksFirst(title: string, company: string, high: seq<string>, medium: seq<string>, k: nat)
    requires k < |high|
    requires Contains(ToLower(title), high[k]) || Contains(ToLower(company), high[k])
    ensures Classify(CombinedText(title, company), high, medium) == High
  {
    FieldKeywordIsFound(title, company, high[k]);
  }

  /** Keywords holding an upper-case letter are never found, so a high list made only of such
      keywords never ranks a job 1. */
  lemma UpperCaseHighKeywordsNeverMatch(title: string, company: string, high: seq<string>, medium: seq<string>)
    requires forall k :: 0 <= k < |high| ==> exists j :: 0 <= j < |high[k]| && IsUpper(high[k][j])
    ensures Classify(CombinedText(title, company), high, medium) != High
  {
    var t := ToLower(title + " " + company);
    assert CombinedText(title, company) == t by {
      ToLowerConcat(title + " ", company);
      ToLowerConcat(title, " ");
    }
    forall k | 0 <= k < |high|
      ensures !Contains(t, high[k])
    {
      var j :| 0 <= j < |high[k]| && IsUpper(high[k][j]);
      UpperKeywordNeverMatches(title + " " + company, high[k], j);
    }
  }

  /** ("Oracle ERP Manager", "PwC") is ranked 1 by the default lists. */
  lemma OracleErpManagerIsHigh()
    ensures Classify(CombinedText("Oracle ERP Manager", "PwC"), DefaultHigh, DefaultMedium) == High
  {
    assert CombinedText("Oracle ERP Manager", "PwC") == "oracle erp manager pwc";
    assert OccursAt("oracle erp manager pwc", DefaultHigh[0], 0);
  }

  /** ("Oracle Cloud Administrator", "Acme Corp") is ranked 2: no high keyword occurs, but
      "oracle cloud" does. */
  lemma OracleCloudAdministratorIsMedium()
    ensures Classify(CombinedText("Oracle Cloud Administrator", "Acme Corp"), DefaultHigh, DefaultMedium) == Medium
  {
    AdministratorText();
    NoDefaultHighInAdministratorText();
    assert OccursAt("oracle cloud administrator acme corp", DefaultMedium[0], 0);
  }

  lemma NoDefaultHighInAdministratorText()
    ensures forall k :: 0 <= k < |DefaultHigh| ==> !Contains("oracle cloud administrator acme corp", DefaultHigh[k])
  {
    AdministratorTextLetters();
    NoDefaultHighIn("oracle cloud administrator acme corp");
  }

  lemma AdministratorTextLetters()
    ensures var t := "oracle cloud administrator acme corp";
      && (forall i :: 0 <= i < |t| ==> t[i] != 'h' && t[i] != 'f' && t[i] != 'g' && t[i] != 'w')
      && (forall i :: 0 <= i < |t| - 1 ==> !(t[i] == ' ' && t[i + 1] == 'e') && !(t[i] == 'n' && t[i + 1] == 'e'))
  {
  }

  lemma AdministratorText()
    ensures CombinedText("Oracle Cloud Administrator", "Acme Corp") == "oracle cloud administrator acme corp"
  {
  }

  /** ("Barista", "Acme Corp") is ranked 3: neither list has a keyword in the text. */
  lemma BaristaIsLow()
    ensures Classify(CombinedText("Barista", "Acme Corp"), DefaultHigh, DefaultMedium) == Low
  {
    BaristaText();
    NoDefaultKeywordInBaristaText();
  }

  lemma BaristaText()
    ensures CombinedText("Barista", "Acme Corp") == "barista acme corp"
  {
  }

  lemma NoDefaultKeywordInBaristaText()
    ensures forall k :: 0 <= k < |DefaultHigh| ==> !Contains("barista acme corp", DefaultHigh[k])
    ensures forall k :: 0 <= k < |DefaultMedium| ==> !Contains("barista acme corp", DefaultMedium[k])
  {
    var t := "barista acme corp";
    BaristaTextLetters();
    AbsentCharNotContained(t, DefaultHigh[0], 4);
    AbsentCharNotContained(t, DefaultHigh[1], 4);
    AbsentCharNotContained(t, DefaultHigh[2], 8);
    AbsentCharNotContained(t, DefaultHigh[3], 0);
    AbsentCharNotContained(t, DefaultHigh[4], 0);
    AbsentCharNotContained(t, DefaultHigh[5], 2);
    AbsentCharNotContained(t, DefaultHigh[6], 2);
    AbsentCharNotContained(t, DefaultHigh[7], 1);
    AbsentCharNotContained(t, DefaultHigh[8], 5);
    forall k | 0 <= k < |DefaultMedium|
      ensures !Contains(t, DefaultMedium[k])
    {
      assert DefaultMedium[k][4] == 'l';
      AbsentCharNotContained(t, DefaultMedium[k], 4);
    }
  }

  lemma BaristaTextLetters()
    ensures var t := "barista acme corp";
      forall i :: 0 <= i < |t| ==> t[i] != 'l' && t[i] != 'f' && t[i] != 'n' && t[i] != 'w'
  {
  }

  /** The separating space lets a keyword run from the title into the company: "Oracle" at
      "Cloud Co" is ranked 2 through "oracle cloud". */
  lemma KeywordAcrossFieldsIsFound()
    ensures !Contains(ToLower("Oracle"), "oracle cloud") && !Contains(ToLower("Cloud Co"), "oracle cloud")
    ensures Classify(CombinedText("Oracle", "Cloud Co"), DefaultHigh, DefaultMedium) == Medium
  {
    var t := CombinedText("Oracle", "Cloud Co");
    assert t == "oracle cloud co";
    NoDefaultHighIn(t);
    assert OccursAt(t, DefaultMedium[0], 0);
    assert |ToLower("Oracle")| < |"oracle cloud"|;
    assert forall i :: 0 <= i < |ToLower("Cloud Co")| ==> ToLower("Cloud Co")[i] != 'r';
    AbsentCharNotContained(ToLower("Cloud Co"), "oracle cloud", 1);
  }

  /** No default high keyword occurs in a text lacking ` e`, `ne`, `h`, `f`, `g` and `w`. */
  lemma NoDefaultHighIn(t: string)
    requires forall i :: 0 <= i < |t| ==> t[i] != 'h' && t[i] != 'f' && t[i] != 'g' && t[i] != 'w'
    requires forall i :: 0 <= i < |t| - 1 ==> !(t[i] == ' ' && t[i + 1] == 'e') && !(t[i] == 'n' && t[i + 1] == 'e')
    ensures forall k :: 0 <= k < |DefaultHigh| ==> !Contains(t, DefaultHigh[k])
  {
    AbsentPairNotContained(t, DefaultHigh[0], 6);
    AbsentPairNotContained(t, DefaultHigh[1], 6);
    AbsentCharNotContained(t, DefaultHigh[2], 3);
    AbsentCharNotContained(t, DefaultHigh[3], 0);
    AbsentPairNotContained(t, DefaultHigh[4], 0);
    AbsentCharNotContained(t, DefaultHigh[5], 4);
    AbsentCharNotContained(t, DefaultHigh[6], 11);
    AbsentCharNotContained(t, DefaultHigh[7], 1);
    AbsentCharNotContained(t, DefaultHigh[8], 5);
  }
}
