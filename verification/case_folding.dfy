/**
 * Lower-casing of e-mail addresses, the model of Swift's `String.lowercased()`
 * restricted to ASCII letters.
 */
module CaseFolding {

  predicate IsAsciiUpper(c: char) { 'A' <= c <= 'Z' }

  /** Maps `A`..`Z` to `a`..`z` and leaves every other character alone. */
  function LowerChar(c: char): (d: char)
    ensures !IsAsciiUpper(d)
    ensures d == c || (IsAsciiUpper(c) && 'a' <= d <= 'z')
  {
    if IsAsciiUpper(c) then (c as int + 32) as char else c
  }

  /** A string with no upper-case ASCII letter: the form every stored e-mail has. */
  predicate IsLowercase(s: string) {
    forall i :: 0 <= i < |s| ==> !IsAsciiUpper(s[i])
  }

  function Lower(s: string): string {
    seq(|s|, i requires 0 <= i < |s| => LowerChar(s[i]))
  }

  /** Lowering yields a lower-case string of the same length. */
  lemma LowerIsLowercase(s: string)
    ensures |Lower(s)| == |s| && IsLowercase(Lower(s))
  {
  }

  /** A string that is already lower-case is its own lowering. */
  lemma LowerFixesLowercase(s: string)
    requires IsLowercase(s)
    ensures Lower(s) == s
  {
  }

  /** Lowering twice is lowering once. */
  lemma LowerIdempotent(s: string)
    ensures Lower(Lower(s)) == Lower(s)
  {
    LowerIsLowercase(s);
    LowerFixesLowercase(Lower(s));
  }
}
