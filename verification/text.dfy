/**
 * Strings as sequences of characters: the lowercasing that mode parsing
 * applies to its input, and substring containment for error messages.
 *
 * Lowercasing is ASCII lowercasing: 'A'..'Z' become 'a'..'z' and every
 * other character is left alone.
 */
module Text {

  predicate IsUpper(c: char) {
    'A' <= c <= 'Z'
  }

  predicate IsLowerLetter(c: char) {
    'a' <= c <= 'z'
  }

  /** No character of `s` is an upper-case letter. */
  predicate IsLowercase(s: string) {
    forall i :: 0 <= i < |s| ==> !IsUpper(s[i])
  }

  /** Lowercase one character. */
  function LowerChar(c: char): (r: char)
    ensures !IsUpper(r)
    ensures !IsUpper(c) ==> r == c
    ensures IsLowerLetter(r) <==> IsUpper(c) || IsLowerLetter(c)
    ensures IsUpper(c) ==> r as int - 'a' as int == c as int - 'A' as int
  {
    if IsUpper(c) then (c as int + ('a' as int - 'A' as int)) as char else c
  }

  /** Lowercase a string character by character. */
  function Lower(s: string): (r: string)
    ensures |r| == |s|
    ensures forall i :: 0 <= i < |s| ==> r[i] == LowerChar(s[i])
    ensures IsLowercase(r)
  {
    if s == [] then [] else [LowerChar(s[0])] + Lower(s[1..])
  }

  /** Lowercasing leaves a string without upper-case letters unchanged,
      and only such a string. */
  lemma LowerFixesExactlyLowercase(s: string)
    ensures Lower(s) == s <==> IsLowercase(s)
  {
  }

  /** Lowercasing twice is lowercasing once. */
  lemma LowerIdempotent(s: string)
    ensures Lower(Lower(s)) == Lower(s)
  {
  }

  /** `needle` occurs in `hay` starting at index `i`. */
  predicate OccursAt(hay: string, needle: string, i: int) {
    0 <= i && i + |needle| <= |hay| && hay[i..(i + |needle|)] == needle
  }

  /** `needle` occurs somewhere in `hay`. */
  predicate Contains(hay: string, needle: string) {
    exists i :: 0 <= i <= |hay| && OccursAt(hay, needle, i)
  }

  /** Whatever occurs in a part of a concatenation occurs in the whole. */
  lemma ContainsInConcat(a: string, b: string, needle: string)
    ensures Contains(a, needle) ==> Contains(a + b, needle)
    ensures Contains(b, needle) ==> Contains(a + b, needle)
  {
    if Contains(a, needle) {
      var i :| 0 <= i <= |a| && OccursAt(a, needle, i);
      var n := |needle|;
      assert (a + b)[i..i + n] == a[i..i + n];
      assert OccursAt(a + b, needle, i);
    }
    if Contains(b, needle) {
      var j :| 0 <= j <= |b| && OccursAt(b, needle, j);
      var k, n := |a| + j, |needle|;
      assert (a + b)[k..k + n] == b[j..j + n];
      assert OccursAt(a + b, needle, k);
    }
  }

  /** The middle piece of a concatenation occurs in it. */
  lemma ContainsMiddle(a: string, b: string, c: string)
    ensures Contains(a + b + c, b)
  {
    assert OccursAt(b, b, 0);
    ContainsInConcat(a, b, b);
    ContainsInConcat(a + b, c, b);
  }
}
