/** ASCII case mapping, the part of Go's strings.ToLower that the key translator relies on. */
module Strings {

  predicate IsUpper(c: char) {
    'A' <= c <= 'Z'
  }

  /** The lower-case form of one character; only the ASCII letters A-Z change. */
  function LowerChar(c: char): (r: char)
    ensures SameLetter(c, r) && !IsUpper(r)
  {
    if IsUpper(c) then (c as int + 32) as char else c
  }

  /** True iff s contains no upper-case ASCII letter. */
  predicate IsLower(s: string) {
    forall i :: 0 <= i < |s| ==> !IsUpper(s[i])
  }

  predicate IsLowerLetter(c: char) {
    'a' <= c <= 'z'
  }

  /**
   * x and y are the same character up to ASCII case: equal, or an upper-case
   * letter and the lower-case letter at the same place in the alphabet.
   */
  predicate SameLetter(x: char, y: char) {
    || x == y
    || (IsUpper(x) && IsLowerLetter(y) && y as int - 'a' as int == x as int - 'A' as int)
    || (IsUpper(y) && IsLowerLetter(x) && x as int - 'a' as int == y as int - 'A' as int)
  }

  /** Two strings are equal up to the case of their ASCII letters. */
  predicate EqualFold(a: string, b: string) {
    |a| == |b| && forall i :: 0 <= i < |a| ==> SameLetter(a[i], b[i])
  }

  /** The lower-case string that equals s up to case. */
  function ToLower(s: string): (r: string)
    ensures EqualFold(s, r) && IsLower(r)
  {
    seq(|s|, i requires 0 <= i < |s| => LowerChar(s[i]))
  }

  /** ToLower(s) is the only lower-case string equal to s up to case. */
  lemma ToLowerUnique(s: string, t: string)
    requires EqualFold(s, t) && IsLower(t)
    ensures t == ToLower(s)
  {
    forall i | 0 <= i < |s|
      ensures t[i] == ToLower(s)[i]
    {
      assert LowerChar(t[i]) == t[i];
    }
  }

  /** Lower-casing leaves a lower-case string as it is. */
  lemma ToLowerOfLower(s: string)
    requires IsLower(s)
    ensures ToLower(s) == s
  {
    ToLowerUnique(s, s);
  }

  /** Lower-casing is idempotent. */
  lemma ToLowerIdempotent(s: string)
    ensures ToLower(ToLower(s)) == ToLower(s)
  {
    ToLowerOfLower(ToLower(s));
  }

  /** Two keys have the same lower-case form exactly when they differ only in case,
      so a lookup through ToLower matches case-insensitively. */
  lemma ToLowerMatchesEqualFold(a: string, b: string)
    ensures ToLower(a) == ToLower(b) <==> EqualFold(a, b)
  {
    if ToLower(a) == ToLower(b) {
      assert forall i :: 0 <= i < |a| ==> LowerChar(a[i]) == ToLower(a)[i];
    }
    if EqualFold(a, b) {
      assert forall i :: 0 <= i < |a| ==> ToLower(a)[i] == ToLower(b)[i];
    }
  }
}
