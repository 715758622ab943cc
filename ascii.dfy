/** strings.ToUpper and strings.ToLower, restricted to ASCII letters. */
module Ascii {

  predicate IsLowerLetter(c: char) { 'a' <= c <= 'z' }

  predicate IsUpperLetter(c: char) { 'A' <= c <= 'Z' }

  predicate IsLetter(c: char) { IsLowerLetter(c) || IsUpperLetter(c) }

  /** Every character is an ASCII letter of either case. */
  predicate IsLetters(s: string)
  {
    forall i :: 0 <= i < |s| ==> IsLetter(s[i])
  }

  function UpperChar(c: char): char
  {
    if IsLowerLetter(c) then (c as int - 32) as char else c
  }

  function LowerChar(c: char): char
  {
    if IsUpperLetter(c) then (c as int + 32) as char else c
  }

  /** The string with every lowercase ASCII letter replaced by its uppercase form. */
  function Upper(s: string): (r: string)
    ensures |r| == |s|
    ensures forall i :: 0 <= i < |s| ==> r[i] == UpperChar(s[i])
    ensures forall i :: 0 <= i < |r| ==> !IsLowerLetter(r[i])
  {
    if s == [] then [] else [UpperChar(s[0])] + Upper(s[1..])
  }

  /** The string with every uppercase ASCII letter replaced by its lowercase form. */
  function Lower(s: string): (r: string)
    ensures |r| == |s|
    ensures forall i :: 0 <= i < |s| ==> r[i] == LowerChar(s[i])
    ensures forall i :: 0 <= i < |r| ==> !IsUpperLetter(r[i])
  {
    if s == [] then [] else [LowerChar(s[0])] + Lower(s[1..])
  }

  /** A string without lowercase letters is its own uppercase form. */
  lemma {:induction false} UpperFixesUppercase(s: string)
    requires forall i :: 0 <= i < |s| ==> !IsLowerLetter(s[i])
    ensures Upper(s) == s
  {
    if s != [] {
      UpperFixesUppercase(s[1..]);
    }
  }

  /** A string without uppercase letters is its own lowercase form. */
  lemma {:induction false} LowerFixesLowercase(s: string)
    requires forall i :: 0 <= i < |s| ==> !IsUpperLetter(s[i])
    ensures Lower(s) == s
  {
    if s != [] {
      LowerFixesLowercase(s[1..]);
    }
  }

  /** Uppercasing twice is uppercasing once: an id stored uppercased is found again by
      uppercasing it. */
  lemma UpperIdempotent(s: string)
    ensures Upper(Upper(s)) == Upper(s)
  {
    UpperFixesUppercase(Upper(s));
  }

  lemma LowerIdempotent(s: string)
    ensures Lower(Lower(s)) == Lower(s)
  {
    LowerFixesLowercase(Lower(s));
  }

  /** Lowercasing a string of letters gives a string of lowercase letters. */
  lemma LowerOfLetters(s: string)
    requires IsLetters(s)
    ensures forall i :: 0 <= i < |s| ==> IsLowerLetter(Lower(s)[i])
  {
    forall i | 0 <= i < |s| ensures IsLowerLetter(Lower(s)[i]) {
      assert IsLetter(s[i]);
    }
  }

  /** Two strings that differ only in letter case have the same uppercase form. */
  lemma {:induction false} UpperIgnoresCase(s: string)
    ensures Upper(Lower(s)) == Upper(s)
  {
    if s != [] {
      UpperIgnoresCase(s[1..]);
    }
  }
}
