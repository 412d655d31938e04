/**
 The two pure helpers of the waiting-list form (src/App.tsx): the Twitter
 handle validator and the profile-link deriver.

 A handle is a string; the validator answers with an error message, the
 empty message meaning "valid". The regular expression the validator uses,
 `^@[A-Za-z0-9_]{1,15}$` (no flags), is modelled as a matcher in the
 shape the regular-expression engine evaluates it (a greedy bounded run of
 the character class, then the end-of-input anchor), next to a reference
 reading of the pattern as a plain predicate, and the two are proved equal.
 */
module TwitterHandle {

  /** Message for a non-empty handle that does not start with `@`. */
  const MustStartWithAt: string := "Twitter handle must start with @"

  /** Message for a handle that starts with `@` but does not match the pattern. */
  const InvalidFormat: string := "Invalid Twitter handle format"

  /** Upper bound of the `{1,15}` repetition: the longest user name. */
  const MaxNameLength: nat := 15

  /** Fixed prefix of every derived profile link. */
  const ProfileBase: string := "https://twitter.com/"

  /** The character class `[A-Za-z0-9_]`. */
  predicate IsNameChar(c: char) {
    ('A' <= c <= 'Z') || ('a' <= c <= 'z') || ('0' <= c <= '9') || c == '_'
  }

  /**
   Reference reading of `^@[A-Za-z0-9_]{1,15}$`: an `@`, then 1 to 15
   characters of the class, then the end of the input. Without the `m` flag
   `$` matches only at the very end, so a trailing newline is not allowed.
   */
  ghost predicate IsWellFormedHandle(h: string) {
    && |h| >= 2
    && h[0] == '@'
    && |h| - 1 <= MaxNameLength
    && forall i :: 1 <= i < |h| ==> IsNameChar(h[i])
  }

  /**
   How many characters the greedy repetition `[A-Za-z0-9_]{0,max}` consumes
   at the start of `s`: it stops at the first character outside the class,
   at the end of the input, or after `max` characters.
   */
  function NameRun(s: string, max: nat): (n: nat)
    ensures n <= max && n <= |s|
    ensures forall i :: 0 <= i < n ==> IsNameChar(s[i])
    ensures n < max && n < |s| ==> !IsNameChar(s[n])
  {
    if max == 0 || s == [] || !IsNameChar(s[0]) then 0
    else 1 + NameRun(s[1..], max - 1)
  }

  /**
   The regular-expression test at src/App.tsx:29. The match is anchored at
   the start; the repetition takes as many characters as it can (at most
   15) and backtracking to fewer can never reach the end of the input
   sooner, so the test succeeds exactly when the greedy run takes at least
   one character and ends at the end of the input.
   */
  function MatchesHandlePattern(h: string): (b: bool)
    ensures b <==> IsWellFormedHandle(h)
  {
    if h == [] || h[0] != '@' then false
    else
      var n := NameRun(h[1..], MaxNameLength);
      assert forall i :: 1 <= i <= n ==> h[i] == h[1..][i - 1];
      1 <= n && 1 + n == |h|
  }

  /**
   `validateTwitterHandle`: the empty handle is accepted (the field is
   optional), a handle not starting with `@` gets one message, one that
   starts with `@` but fails the pattern gets the other.
   */
  function ValidateTwitterHandle(handle: string): (message: string)
    ensures handle == "" ==> message == ""
    ensures handle != "" && handle[0] != '@' ==> message == MustStartWithAt
    ensures handle != "" && handle[0] == '@' ==>
              message == (if IsWellFormedHandle(handle) then "" else InvalidFormat)
    ensures message == "" <==> handle == "" || IsWellFormedHandle(handle)
  {
    if handle == "" then ""
    else if handle[0] != '@' then MustStartWithAt
    else if !MatchesHandlePattern(handle) then InvalidFormat
    else ""
  }

  /**
   `getTwitterUrl`: no link for the empty handle or the bare `@`, otherwise
   the profile base followed by the handle without its first character.
   */
  function GetTwitterUrl(handle: string): (url: string)
    ensures url == "" <==> handle == "" || handle == "@"
  {
    if handle == "" || handle == "@" then ""
    else ProfileBase + handle[1..]
  }

  /**
   The link derived from a non-empty valid handle is the profile base
   followed by the user name: 1 to 15 characters of the class (so no `@`
   and no `/`), and putting the `@` back in front of it gives the handle.
   */
  lemma ValidHandleProfileUrl(handle: string)
    requires handle != "" && ValidateTwitterHandle(handle) == ""
    ensures |ProfileBase| < |GetTwitterUrl(handle)| <= |ProfileBase| + MaxNameLength
    ensures GetTwitterUrl(handle)[..|ProfileBase|] == ProfileBase
    ensures "@" + GetTwitterUrl(handle)[|ProfileBase|..] == handle
    ensures forall i :: |ProfileBase| <= i < |GetTwitterUrl(handle)| ==>
              IsNameChar(GetTwitterUrl(handle)[i])
    ensures '@' !in GetTwitterUrl(handle)[|ProfileBase|..]
  {
    assert !IsNameChar('@');
    var url := GetTwitterUrl(handle);
    var name := url[|ProfileBase|..];
    assert url == ProfileBase + handle[1..];
    assert name == handle[1..];
    assert "@" + name == [handle[0]] + handle[1..] == handle;
    forall i | |ProfileBase| <= i < |url|
      ensures IsNameChar(url[i])
    {
      assert url[i] == handle[i - |ProfileBase| + 1];
    }
  }

  /**
   Distinct valid handles get distinct links: the link determines the
   handle it was derived from.
   */
  lemma ProfileUrlInjective(a: string, b: string)
    requires a != "" && ValidateTwitterHandle(a) == ""
    requires b != "" && ValidateTwitterHandle(b) == ""
    requires GetTwitterUrl(a) == GetTwitterUrl(b)
    ensures a == b
  {
    ValidHandleProfileUrl(a);
    ValidHandleProfileUrl(b);
  }

  /** Worked examples of accepted and rejected handles. */
  lemma ValidatorExamples()
    ensures ValidateTwitterHandle("") == ""
    ensures ValidateTwitterHandle("@boris_99") == ""
    ensures ValidateTwitterHandle("alice") == MustStartWithAt
    ensures ValidateTwitterHandle("@") == InvalidFormat
  {
    var ok := "@boris_99";
    assert forall i :: 1 <= i < |ok| ==> IsNameChar(ok[i]);
  }

  /** A name over 15 characters or with a `-` is rejected, and so is a
      trailing newline, since `$` matches only at the end of the input. */
  lemma ValidatorRejections()
    ensures ValidateTwitterHandle("@this-is-way-too-long-1") == InvalidFormat
    ensures ValidateTwitterHandle("@boris\n") == InvalidFormat
  {
    var long := "@this-is-way-too-long-1";
    assert !IsWellFormedHandle(long) by { assert !IsNameChar(long[5]); }
    var nl := "@boris\n";
    assert !IsWellFormedHandle(nl) by { assert !IsNameChar(nl[6]); }
  }

  /** Worked examples of derived links. */
  lemma ProfileUrlExamples()
    ensures GetTwitterUrl("") == "" && GetTwitterUrl("@") == ""
    ensures GetTwitterUrl("@boris") == "https://twitter.com/boris"
  {
  }
}
