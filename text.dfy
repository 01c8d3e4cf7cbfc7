/** The part of Java's String.toUpperCase that the core relies on. */
module Text {

  /** Upper-cases one ASCII letter and leaves every other character alone. */
  function UpperChar(c: char): char
  {
    if 'a' <= c <= 'z' then (c as int - 32) as char else c
  }

  predicate IsUpperCase(s: string)
  {
    forall i :: 0 <= i < |s| ==> !('a' <= s[i] <= 'z')
  }

  /** String.toUpperCase */
  function ToUpper(s: string): (r: string)
    ensures |r| == |s|
    ensures forall i :: 0 <= i < |s| ==> r[i] == UpperChar(s[i])
  {
    if s == [] then [] else [UpperChar(s[0])] + ToUpper(s[1..])
  }

  /** A character outside the Basic Multilingual Plane, which UTF-16 stores as two code units. */
  predicate IsSupplementary(c: char)
  {
    c as int > 0xFFFF
  }

  /** String.length: the number of UTF-16 code units, not of characters. */
  function Utf16Length(s: string): (n: nat)
    ensures |s| <= n <= 2 * |s|
    ensures n == |s| <==> forall i :: 0 <= i < |s| ==> !IsSupplementary(s[i])
  {
    if s == [] then 0
    else (if IsSupplementary(s[0]) then 2 else 1) + Utf16Length(s[1..])
  }

  /** Two strings that differ only in the case of their letters. */
  predicate EqualIgnoringCase(a: string, b: string)
  {
    |a| == |b| && forall i :: 0 <= i < |a| ==> UpperChar(a[i]) == UpperChar(b[i])
  }

  lemma ToUpperIsUpperCase(s: string)
    ensures IsUpperCase(ToUpper(s))
  {
  }

  /** A string with no lower-case letter is its own upper-case form. */
  lemma UpperCaseIsFixed(s: string)
    requires IsUpperCase(s)
    ensures ToUpper(s) == s
  {
  }

  /** Upper-casing an already upper-cased string changes nothing. */
  lemma ToUpperIdempotent(s: string)
    ensures ToUpper(ToUpper(s)) == ToUpper(s)
  {
    ToUpperIsUpperCase(s);
    UpperCaseIsFixed(ToUpper(s));
  }

  /** Strings equal up to case have the same upper-case form, and only they do. */
  lemma ToUpperEqualIffEqualIgnoringCase(a: string, b: string)
    ensures ToUpper(a) == ToUpper(b) <==> EqualIgnoringCase(a, b)
  {
    if EqualIgnoringCase(a, b) {
      assert forall i :: 0 <= i < |a| ==> ToUpper(a)[i] == ToUpper(b)[i];
    }
    if ToUpper(a) == ToUpper(b) {
      assert forall i :: 0 <= i < |a| ==> UpperChar(a[i]) == ToUpper(a)[i] == ToUpper(b)[i] == UpperChar(b[i]);
    }
  }
}
