/** The naive substring search of the user service (webservice/main.go).

    A Go string is a sequence of bytes and `len` and indexing count bytes;
    here a Go string is a Dafny `string` whose characters stand for those
    bytes, so every length and index below is a byte count. */
module Search {

  /** `needle` sits in `haystack` starting at position `i`. */
  predicate MatchesAt(haystack: string, needle: string, i: int)
  {
    0 <= i && i + |needle| <= |haystack| && haystack[i..i + |needle|] == needle
  }

  /** The mathematical "needle occurs in haystack": some start position
      `0 <= i <= |haystack| - |needle|` has the needle as its slice. */
  predicate Contains(haystack: string, needle: string)
  {
    exists i | 0 <= i <= |haystack| - |needle| :: MatchesAt(haystack, needle, i)
  }

  /** The program's nested loop: the outer loop tries every start position
      from 0 up to `len(haystack) - len(needle)` (a negative bound when the
      needle is longer, so the loop does not run), the inner loop compares
      byte by byte and gives up at the first difference. Every index the
      inner loop reads, `haystack[i + j]`, is checked by the verifier to be
      below `|haystack|`. */
  method InefficientContains(haystack: string, needle: string) returns (found: bool)
    ensures found <==> Contains(haystack, needle)
    ensures |needle| == 0 ==> found
    ensures |needle| > |haystack| ==> !found
  {
    if |needle| == 0 {
      assert MatchesAt(haystack, needle, 0);
      return true;
    }
    var i := 0;
    while i <= |haystack| - |needle|
      invariant 0 <= i
      invariant forall k :: 0 <= k < i ==> !MatchesAt(haystack, needle, k)
    {
      var matched := true;
      var j := 0;
      while j < |needle|
        invariant 0 <= j <= |needle|
        invariant forall m :: 0 <= m < j ==> haystack[i + m] == needle[m]
      {
        if haystack[i + j] != needle[j] {
          matched := false;
          break;
        }
        j := j + 1;
      }
      if matched {
        assert MatchesAt(haystack, needle, i);
        return true;
      }
      assert haystack[i + j] != needle[j];
      i := i + 1;
    }
    found := false;
  }

  /** The empty needle occurs in every haystack. */
  lemma EmptyNeedleAlwaysFound(haystack: string)
    ensures Contains(haystack, "")
  {
    assert MatchesAt(haystack, "", 0);
  }

  /** A needle longer than the haystack never occurs in it. */
  lemma LongerNeedleNeverFound(haystack: string, needle: string)
    requires |needle| > |haystack|
    ensures !Contains(haystack, needle)
  {
  }
}
