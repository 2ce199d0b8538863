/**
 * ASCII case folding, the part of Java's String.toLowerCase that the jobs rely on:
 * hashtags and mention names are folded before they are compared with the fair table,
 * and tweet text is folded after everything but letters and spaces has been deleted.
 */
module Ascii {

  predicate IsUpper(c: char) { 'A' <= c <= 'Z' }

  /** Folds one character: an upper-case ASCII letter becomes its lower-case form. */
  function LowerChar(c: char): (d: char)
    ensures !IsUpper(d)
    ensures !IsUpper(c) ==> d == c
    ensures IsUpper(c) ==> 'a' <= d <= 'z' && d as int - 'a' as int == c as int - 'A' as int
  {
    if IsUpper(c) then (c as int - 'A' as int + 'a' as int) as char else c
  }

  /** Folds a whole string, character by character. */
  function Lower(s: string): (r: string)
    ensures |r| == |s|
    ensures forall i :: 0 <= i < |s| ==> r[i] == LowerChar(s[i])
  {
    if s == [] then [] else [LowerChar(s[0])] + Lower(s[1..])
  }

  /** A string with no upper-case ASCII letter, i.e. one that folding leaves alone. */
  predicate IsLowercase(s: string) {
    forall i :: 0 <= i < |s| ==> !IsUpper(s[i])
  }

  lemma LowerIsLowercase(s: string)
    ensures IsLowercase(Lower(s))
  {
  }

  /** Folding is idempotent and fixes exactly the strings that are already lower case. */
  lemma LowerFixesLowercase(s: string)
    ensures Lower(s) == s <==> IsLowercase(s)
    ensures Lower(Lower(s)) == Lower(s)
  {
    LowerIsLowercase(s);
    if IsLowercase(s) {
      assert forall i :: 0 <= i < |s| ==> Lower(s)[i] == s[i];
    }
    assert forall i :: 0 <= i < |s| ==> Lower(Lower(s))[i] == Lower(s)[i];
  }

  lemma LowerAppend(a: string, b: string)
    ensures Lower(a + b) == Lower(a) + Lower(b)
  {
    assert forall i :: 0 <= i < |a + b| ==> Lower(a + b)[i] == (Lower(a) + Lower(b))[i];
  }
}
