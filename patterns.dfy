/**
  The three regular expressions of the form, written out as predicates on
  strings: `/^[1-5]$/` for the cost rating, `/\S+@\S+\.\S+/` (not anchored,
  so it may match anywhere in the string) for the email address, and
  `/^\d{3}-\d{3}-\d{4}$/` for the phone number. Without the `m` flag `^` and
  `$` match only at the ends of the whole string, and `\d` is `[0-9]`.
 */
module Patterns {
  import opened JsString

  /** `/^[1-5]$/.test(s)` */
  predicate IsCostRating(s: string)
  {
    |s| == 1 && '1' <= s[0] <= '5'
  }

  /** `/^\d{3}-\d{3}-\d{4}$/.test(s)` */
  predicate IsPhoneNumber(s: string)
  {
    && |s| == 12
    && s[3] == '-' && s[7] == '-'
    && forall i :: 0 <= i < 12 && i != 3 && i != 7 ==> IsDigit(s[i])
  }

  /** `\S+` matches exactly s[lo..hi]. */
  predicate NonSpaceRun(s: string, lo: int, hi: int)
    requires 0 <= lo <= hi <= |s|
  {
    lo < hi && forall m :: lo <= m < hi ==> !IsWhite(s[m])
  }

  /** `\S+@\S+\.\S+` matches s[i..e], with the '@' at p and the '.' at q. */
  predicate EmailMatchAt(s: string, i: int, p: int, q: int, e: int)
  {
    && 0 <= i < p < q < e <= |s|
    && NonSpaceRun(s, i, p) && s[p] == '@'
    && NonSpaceRun(s, p + 1, q) && s[q] == '.'
    && NonSpaceRun(s, q + 1, e)
  }

  /** `/\S+@\S+\.\S+/.test(s)`: the pattern matches some substring of s. */
  predicate MatchesEmail(s: string)
  {
    exists i, p, q, e | 0 <= i < |s| && 0 <= p < |s| && 0 <= q < |s| && 0 <= e <= |s| :: EmailMatchAt(s, i, p, q, e)
  }

  /** A string without any '@' never passes the email pattern. */
  lemma EmailNeedsAt(s: string)
    requires forall k :: 0 <= k < |s| ==> s[k] != '@'
    ensures !MatchesEmail(s)
  {
  }

  /** The pattern needs a '.' somewhere after the '@' with something on both sides of it. */
  lemma EmailNeedsDotAfterAt(s: string)
    requires MatchesEmail(s)
    ensures exists p, q :: 0 < p && p + 1 < q && q + 1 < |s| && s[p] == '@' && s[q] == '.'
  {
    var start, at, dot, end :| EmailMatchAt(s, start, at, dot, end);
    assert EmailMatchAt(s, start, at, dot, end);
    assert 0 < at && at + 1 < dot && dot + 1 < |s| && s[at] == '@' && s[dot] == '.';
  }

  lemma EmailExamples()
    ensures MatchesEmail("a@b.co")
    ensures !MatchesEmail("abc")
    ensures !MatchesEmail("a@b")
  {
    assert EmailMatchAt("a@b.co", 0, 1, 3, 6);
    EmailNeedsAt("abc");
    if MatchesEmail("a@b") {
      EmailNeedsDotAfterAt("a@b");
    }
  }

  lemma PhoneExamples()
    ensures IsPhoneNumber("555-123-4567")
    ensures !IsPhoneNumber("5551234567")
    ensures !IsPhoneNumber("555-12-4567")
  {
  }

  lemma CostRatingExamples()
    ensures forall s :: s in {"1", "2", "3", "4", "5"} ==> IsCostRating(s)
    ensures forall s :: s in {"0", "6", "12", "abc", " 3", "3 "} ==> !IsCostRating(s)
  {
  }
}
