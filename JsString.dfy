/**
 * The two string built-ins the query engine relies on:
 * `String.prototype.toLowerCase` and `String.prototype.includes`.
 */
module JsString {

  /** Lower-cases one character; only the ASCII letters A-Z are mapped. */
  function LowerChar(c: char): (r: char)
    ensures 'A' <= c <= 'Z' ==> 'a' <= r <= 'z' && r as int == c as int + 32
    ensures !('A' <= c <= 'Z') ==> r == c
  {
    if 'A' <= c <= 'Z' then (c as int + 32) as char else c
  }

  /** `s.toLowerCase()`, character by character. */
  function ToLowerCase(s: string): (r: string)
    ensures |r| == |s|
    ensures forall i :: 0 <= i < |s| ==> r[i] == LowerChar(s[i])
  {
    if s == [] then [] else [LowerChar(s[0])] + ToLowerCase(s[1..])
  }

  /** No upper-case ASCII letter is left. */
  predicate IsLowerCase(s: string)
  {
    forall i :: 0 <= i < |s| ==> !('A' <= s[i] <= 'Z')
  }

  /** Lower-casing leaves no upper-case letter and is idempotent. */
  lemma ToLowerCaseNormalizes(s: string)
    ensures IsLowerCase(ToLowerCase(s))
    ensures ToLowerCase(ToLowerCase(s)) == ToLowerCase(s)
  {
  }

  /** `needle` occurs in `haystack` at position `i`. */
  predicate OccursAt(haystack: string, needle: string, i: int)
  {
    0 <= i && i + |needle| <= |haystack| && haystack[i..i + |needle|] == needle
  }

  /**
   * `haystack.includes(needle)`: tries every start position from the left.
   * The result is true exactly when some position holds the needle.
   */
  function Includes(haystack: string, needle: string): (b: bool)
    ensures b <==> exists i :: OccursAt(haystack, needle, i)
    decreases |haystack|
  {
    if |needle| <= |haystack| && haystack[..|needle|] == needle then
      assert OccursAt(haystack, needle, 0);
      true
    else if haystack == [] then
      false
    else
      var found := Includes(haystack[1..], needle);
      ShiftOccurrence(haystack, needle);
      found
  }

  /** Occurrences in `h` at positions after 0 are the occurrences in `h[1..]`, shifted. */
  lemma ShiftOccurrence(h: string, n: string)
    requires h != []
    requires !OccursAt(h, n, 0)
    ensures (exists i :: OccursAt(h, n, i)) <==> (exists i :: OccursAt(h[1..], n, i))
  {
    if exists i :: OccursAt(h, n, i) {
      var i :| OccursAt(h, n, i);
      assert i > 0;
      assert h[1..][i - 1..i - 1 + |n|] == h[i..i + |n|];
      assert OccursAt(h[1..], n, i - 1);
    }
    if exists i :: OccursAt(h[1..], n, i) {
      var i :| OccursAt(h[1..], n, i);
      assert h[1..][i..i + |n|] == h[i + 1..i + 1 + |n|];
      assert OccursAt(h, n, i + 1);
    }
  }

  /** Lower-casing both strings keeps every occurrence: `includes` after `toLowerCase` ignores case. */
  lemma {:induction false} LowerCaseKeepsIncludes(haystack: string, needle: string)
    requires Includes(haystack, needle)
    ensures Includes(ToLowerCase(haystack), ToLowerCase(needle))
  {
    var i :| OccursAt(haystack, needle, i);
    var lowered := ToLowerCase(haystack);
    assert forall k :: 0 <= k < |needle| ==> lowered[i..i + |needle|][k] == LowerChar(needle[k]) by {
      forall k | 0 <= k < |needle| ensures lowered[i..i + |needle|][k] == LowerChar(needle[k]) {
        assert haystack[i..i + |needle|][k] == needle[k];
      }
    }
    assert OccursAt(lowered, ToLowerCase(needle), i);
  }
}
