/**
 * The e-mail format check of `validateEmail`: a whole-string match of
 * `[A-Z0-9a-z._%+-]+@[A-Za-z0-9.-]+\.[A-Za-z]{2,}`.
 *
 * `MatchesEmailPattern` states the language of that regular expression as a
 * split of the string into its five pieces; `ValidateEmail` decides it by
 * locating the first `@` and the last `.`; `ValidateEmailMatchesPattern`
 * proves the two agree on every string.
 */
module EmailFormat {
  import opened Optional
  import opened CaseFolding

  predicate IsAsciiLetter(c: char) { 'A' <= c <= 'Z' || 'a' <= c <= 'z' }

  predicate IsAsciiDigit(c: char) { '0' <= c <= '9' }

  /** The class `[A-Z0-9a-z._%+-]`. */
  predicate IsLocalChar(c: char) {
    IsAsciiLetter(c) || IsAsciiDigit(c) || c == '.' || c == '_' || c == '%' || c == '+' || c == '-'
  }

  /** The class `[A-Za-z0-9.-]`. */
  predicate IsHostChar(c: char) {
    IsAsciiLetter(c) || IsAsciiDigit(c) || c == '.' || c == '-'
  }

  /** `[A-Z0-9a-z._%+-]+` */
  predicate IsLocalPart(s: string) {
    |s| >= 1 && forall i :: 0 <= i < |s| ==> IsLocalChar(s[i])
  }

  /** `[A-Za-z0-9.-]+` */
  predicate IsHostPart(s: string) {
    |s| >= 1 && forall i :: 0 <= i < |s| ==> IsHostChar(s[i])
  }

  /** `[A-Za-z]{2,}` */
  predicate IsTopLevelDomain(s: string) {
    |s| >= 2 && forall i :: 0 <= i < |s| ==> IsAsciiLetter(s[i])
  }

  /**
   * `s` is local part, `@` at index `at`, host part, `.` at index `dot`,
   * top-level domain.
   */
  ghost predicate SplitsAt(s: string, at: int, dot: int) {
    && 0 <= at < dot < |s|
    && s[at] == '@'
    && s[dot] == '.'
    && IsLocalPart(s[..at])
    && IsHostPart(s[at + 1..dot])
    && IsTopLevelDomain(s[dot + 1..])
  }

  /** The whole of `s` is in the language of the e-mail regular expression. */
  ghost predicate MatchesEmailPattern(s: string) {
    exists at, dot :: SplitsAt(s, at, dot)
  }

  /** The index of the first occurrence of `c` in `s`, if any. */
  function FirstIndexOf(s: string, c: char): (r: Option<nat>)
    ensures r.Some? ==> r.value < |s|
  {
    if s == [] then None
    else if s[0] == c then Some(0)
    else match FirstIndexOf(s[1..], c)
      case None => None
      case Some(i) => Some(i + 1)
  }

  /** `FirstIndexOf` finds an occurrence with none before it, or there is none. */
  lemma {:induction false} FirstIndexOfSpec(s: string, c: char)
    ensures var r := FirstIndexOf(s, c);
      && (r.Some? ==> s[r.value] == c && forall j :: 0 <= j < r.value ==> s[j] != c)
      && (r.None? ==> forall j :: 0 <= j < |s| ==> s[j] != c)
  {
    if s != [] && s[0] != c {
      FirstIndexOfSpec(s[1..], c);
      assert forall j :: 1 <= j < |s| ==> s[j] == s[1..][j - 1];
    }
  }

  /** The index of the last occurrence of `c` in `s`, if any. */
  function LastIndexOf(s: string, c: char): (r: Option<nat>)
    ensures r.Some? ==> r.value < |s|
  {
    if s == [] then None
    else if s[|s| - 1] == c then Some(|s| - 1)
    else LastIndexOf(s[..|s| - 1], c)
  }

  /** `LastIndexOf` finds an occurrence with none after it, or there is none. */
  lemma {:induction false} LastIndexOfSpec(s: string, c: char)
    ensures var r := LastIndexOf(s, c);
      && (r.Some? ==> s[r.value] == c && forall j :: r.value < j < |s| ==> s[j] != c)
      && (r.None? ==> forall j :: 0 <= j < |s| ==> s[j] != c)
  {
    if s != [] && s[|s| - 1] != c {
      LastIndexOfSpec(s[..|s| - 1], c);
      assert forall j :: 0 <= j < |s| - 1 ==> s[j] == s[..|s| - 1][j];
    }
  }

  /**
   * `validateEmail`: the local part runs up to the first `@` (the class of the
   * local part has no `@`), the top-level domain follows the last `.` (it is
   * letters only).
   */
  function ValidateEmail(s: string): bool {
    match FirstIndexOf(s, '@')
    case None => false
    case Some(at) =>
      match LastIndexOf(s, '.')
      case None => false
      case Some(dot) =>
        && at < dot
        && IsLocalPart(s[..at])
        && IsHostPart(s[at + 1..dot])
        && IsTopLevelDomain(s[dot + 1..])
  }

  /** The validator accepts exactly the strings the regular expression matches. */
  lemma ValidateEmailMatchesPattern(s: string)
    ensures ValidateEmail(s) <==> MatchesEmailPattern(s)
  {
    FirstIndexOfSpec(s, '@');
    LastIndexOfSpec(s, '.');
    if MatchesEmailPattern(s) {
      var at, dot :| SplitsAt(s, at, dot);
      forall j | 0 <= j < at ensures s[j] != '@' {
        assert IsLocalChar(s[..at][j]);
      }
      forall j | dot < j < |s| ensures s[j] != '.' {
        assert IsAsciiLetter(s[dot + 1..][j - dot - 1]);
      }
      assert FirstIndexOf(s, '@') == Some(at);
      assert LastIndexOf(s, '.') == Some(dot);
    }
    if ValidateEmail(s) {
      var at := FirstIndexOf(s, '@').value;
      var dot := LastIndexOf(s, '.').value;
      assert SplitsAt(s, at, dot);
    }
  }

  /** Lowering an address keeps it well-formed: the same split still works. */
  lemma LowerPreservesEmailPattern(s: string)
    requires MatchesEmailPattern(s)
    ensures MatchesEmailPattern(Lower(s))
  {
    var at, dot :| SplitsAt(s, at, dot);
    var t := Lower(s);
    var local, host, tld := t[..at], t[at + 1..dot], t[dot + 1..];
    forall i | 0 <= i < |local| ensures IsLocalChar(local[i]) {
      assert IsLocalChar(s[..at][i]);
    }
    forall i | 0 <= i < |host| ensures IsHostChar(host[i]) {
      assert IsHostChar(s[at + 1..dot][i]);
    }
    forall i | 0 <= i < |tld| ensures IsAsciiLetter(tld[i]) {
      assert IsAsciiLetter(s[dot + 1..][i]);
    }
    assert SplitsAt(t, at, dot);
  }

  /** A string without an `@` is never a well-formed address. */
  lemma NoAtSignNoMatch(s: string)
    requires forall i :: 0 <= i < |s| ==> s[i] != '@'
    ensures !MatchesEmailPattern(s)
  {
  }

  /** Sample addresses in the language of the pattern. */
  lemma PatternAccepts()
    ensures MatchesEmailPattern("a@b.com")
    ensures MatchesEmailPattern("A.B-c@mail.example.io")
  {
    assert SplitsAt("a@b.com", 1, 3);
    assert SplitsAt("A.B-c@mail.example.io", 5, 18);
  }

  /** Sample strings outside the pattern: no `@`, and a one-letter domain. */
  lemma PatternRejects()
    ensures !MatchesEmailPattern("not-an-email")
    ensures !MatchesEmailPattern("a@b.c")
  {
    var noAt := "not-an-email";
    assert forall i :: 0 <= i < |noAt| ==> noAt[i] != '@';
    NoAtSignNoMatch(noAt);
    var shortTld := "a@b.c";
    forall at, dot | 0 <= at < dot < |shortTld| && shortTld[dot] == '.'
      ensures !SplitsAt(shortTld, at, dot)
    {
      assert dot == 3;
      assert |shortTld[dot + 1..]| == 1;
    }
  }
}
