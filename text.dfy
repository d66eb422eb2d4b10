/**
 * Character and string helpers shared by the extractor, the scraper and the
 * classifier. Lower-casing is ASCII only: `ToLower` leaves every non-ASCII
 * letter unchanged, whereas Python's `str.lower()` lower-cases every cased
 * letter (`É` to `é`, `Σ` to `σ`). A keyword with non-ASCII letters therefore
 * never matches their upper-case forms here, though it does in Python. The link
 * patterns are ASCII, where `re.IGNORECASE` agrees with `ToLower`.
 */
module Text {

  predicate IsDigit(c: char) { '0' <= c <= '9' }

  predicate IsUpper(c: char) { 'A' <= c <= 'Z' }

  function ToLowerChar(c: char): char
  {
    if IsUpper(c) then (c as int - 'A' as int + 'a' as int) as char else c
  }

  /** `s.lower()` */
  function ToLower(s: string): string
  {
    seq(|s|, i requires 0 <= i < |s| => ToLowerChar(s[i]))
  }

  /** The characters Python's `\s` (and `str.isspace`) accept. */
  predicate IsSpace(c: char)
  {
    || ('\t' <= c <= '\r')
    || ('\U{1C}' <= c <= '\U{20}')
    || c == '\U{85}' || c == '\U{A0}' || c == '\U{1680}'
    || ('\U{2000}' <= c <= '\U{200A}')
    || c == '\U{2028}' || c == '\U{2029}' || c == '\U{202F}' || c == '\U{205F}' || c == '\U{3000}'
  }

  /** `s[:n]` for a non-negative `n`. */
  function Take(s: string, n: nat): string
  {
    if |s| <= n then s else s[..n]
  }

  predicate OccursAt(s: string, k: string, i: int)
  {
    0 <= i && i + |k| <= |s| && s[i..i + |k|] == k
  }

  /** Python's `k in s` on strings: `k` is a contiguous substring of `s` (the empty string always is). */
  predicate Contains(s: string, k: string)
  {
    exists i :: 0 <= i <= |s| - |k| && OccursAt(s, k, i)
  }

  lemma ToLowerCharIsLower(c: char)
    ensures !IsUpper(ToLowerChar(c))
    ensures IsUpper(c) || ToLowerChar(c) == c
  {
  }

  /** Lower-casing twice is lower-casing once; lower-casing distributes over concatenation. */
  lemma ToLowerIdempotent(s: string)
    ensures ToLower(ToLower(s)) == ToLower(s)
  {
  }

  lemma ToLowerConcat(a: string, b: string)
    ensures ToLower(a + b) == ToLower(a) + ToLower(b)
  {
  }

  /** A keyword holding an upper-case letter is never found in lower-cased text. */
  lemma {:induction false} UpperKeywordNeverMatches(s: string, k: string, j: nat)
    requires j < |k| && IsUpper(k[j])
    ensures !Contains(ToLower(s), k)
  {
    var t := ToLower(s);
    forall i | 0 <= i <= |t| - |k|
      ensures !OccursAt(t, k, i)
    {
      ToLowerCharIsLower(s[i + j]);
      assert t[i..i + |k|][j] == t[i + j] != k[j];
    }
  }

  /** If some character of `k` never occurs in `s`, then `k` is not a substring of `s`. */
  lemma {:induction false} AbsentCharNotContained(s: string, k: string, j: nat)
    requires j < |k|
    requires forall i :: 0 <= i < |s| ==> s[i] != k[j]
    ensures !Contains(s, k)
  {
    forall i | 0 <= i <= |s| - |k|
      ensures !OccursAt(s, k, i)
    {
      assert s[i..i + |k|][j] == s[i + j] != k[j];
    }
  }

  /** If two adjacent characters of `k` never occur side by side in `s`, then `k` is not a substring of `s`. */
  lemma {:induction false} AbsentPairNotContained(s: string, k: string, j: nat)
    requires j + 1 < |k|
    requires forall i :: 0 <= i < |s| - 1 ==> !(s[i] == k[j] && s[i + 1] == k[j + 1])
    ensures !Contains(s, k)
  {
    forall i | 0 <= i <= |s| - |k|
      ensures !OccursAt(s, k, i)
    {
      var w := s[i..i + |k|];
      assert w[j] == s[i + j] && w[j + 1] == s[i + j + 1];
    }
  }
}
