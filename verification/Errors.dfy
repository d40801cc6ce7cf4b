/**
 Classification of errors into permanent ones, which end a term or a retry at once, and transient ones.
 */
module Errors {
  import opened Store

  /** What errors.Is finds in the chain of an error. */
  datatype Sentinel = InvalidConfig | PermissionDenied | BucketNotFound

  /**
   An error: its text, whether its own type is *TimeoutError, and what its chain wraps.
   */
  datatype Error = Error(text: string, isTimeoutError: bool, wrapsCanceled: bool, wrapsDeadline: bool,
                         wraps: set<Sentinel>)

  function Plain(text: string): Error {
    Error(text, false, false, false, {})
  }

  function LowerChar(ch: char): char {
    if 'A' <= ch <= 'Z' then ch - 'A' + 'a' else ch
  }

  function ToLower(s: string): string {
    seq(|s|, i requires 0 <= i < |s| => LowerChar(s[i]))
  }

  predicate Contains(s: string, pattern: string) {
    |pattern| <= |s| && (s[..|pattern|] == pattern || Contains(s[1..], pattern))
  }

  const PERMANENT_PATTERNS: seq<string> := [
    "revision mismatch", "key not found", "permission denied", "bucket not found", "access denied", "invalid",
    "authentication"]

  const TRANSIENT_PATTERNS: seq<string> := [
    "timeout", "deadline exceeded", "connection lost", "connection refused", "temporary", "unavailable", "network",
    "i/o timeout", "connection reset"]

  predicate MatchesAny(text: string, patterns: seq<string>) {
    exists k :: 0 <= k < |patterns| && Contains(ToLower(text), patterns[k])
  }

  predicate IsPermanent(err: Option<Error>) {
    match err
    case None => false
    case Some(e) =>
      if e.wrapsCanceled then false
      else if e.isTimeoutError then false
      else if e.wrapsDeadline then false
      else if MatchesAny(e.text, PERMANENT_PATTERNS) then true
      else if InvalidConfig in e.wraps then true
      else if PermissionDenied in e.wraps then true
      else if BucketNotFound in e.wraps then true
      else false
  }

  predicate IsTransient(err: Option<Error>) {
    match err
    case None => false
    case Some(e) =>
      if IsPermanent(err) then false
      else if e.wrapsDeadline then true
      else if e.isTimeoutError then true
      else if MatchesAny(e.text, TRANSIENT_PATTERNS) then true
      else true
  }

  /** Permanent and transient exactly partition the errors; nil is neither. */
  lemma Partition(err: Option<Error>)
    ensures err.Some? <==> IsPermanent(err) != IsTransient(err)
    ensures !(IsPermanent(err) && IsTransient(err))
  {
  }

  ghost predicate OccursAt(s: string, pattern: string, i: nat) {
    i + |pattern| <= |s| && s[i..i + |pattern|] == pattern
  }

  lemma {:induction false} ContainsAt(s: string, pattern: string, i: nat)
    requires OccursAt(s, pattern, i)
    ensures Contains(s, pattern)
  {
    if i > 0 {
      assert s[1..][i - 1..i - 1 + |pattern|] == s[i..i + |pattern|];
      ContainsAt(s[1..], pattern, i - 1);
    }
  }

  lemma {:induction false} FindOccurrence(s: string, pattern: string) returns (i: nat)
    requires Contains(s, pattern)
    ensures OccursAt(s, pattern, i)
  {
    if s[..|pattern|] == pattern {
      i := 0;
    } else {
      i := FindOccurrence(s[1..], pattern);
      assert s[1..][i..i + |pattern|] == s[i + 1..i + 1 + |pattern|];
      i := i + 1;
    }
  }

  /** The recursive search finds the pattern exactly if it occurs somewhere. */
  lemma ContainsIff(s: string, pattern: string)
    ensures Contains(s, pattern) <==> exists i: nat :: OccursAt(s, pattern, i)
  {
    if Contains(s, pattern) {
      var i := FindOccurrence(s, pattern);
    }
    forall i: nat | OccursAt(s, pattern, i)
      ensures Contains(s, pattern)
    {
      ContainsAt(s, pattern, i);
    }
  }

  /**
   An error around another one.  fmt.Errorf with %w, an ElectionError, a TokenValidationError or a
   ValidationError add text; a *TimeoutError adds text and its own type.
   */
  function Wrap(before: string, e: Error, after: string, inTimeoutError: bool): Error {
    Error(before + e.text + after, inTimeoutError, e.wrapsCanceled, e.wrapsDeadline, e.wraps)
  }

  lemma ContainsInContext(before: string, text: string, after: string, pattern: string)
    requires Contains(ToLower(text), pattern)
    ensures Contains(ToLower(before + text + after), pattern)
  {
    var i := FindOccurrence(ToLower(text), pattern);
    var whole := ToLower(before + text + after);
    assert whole[|before| + i..|before| + i + |pattern|] == ToLower(text)[i..i + |pattern|];
    ContainsAt(whole, pattern, |before| + i);
  }

  /** A permanent error that is wrapped stays permanent, exactly unless the wrapper is a *TimeoutError. */
  lemma WrapStaysPermanent(before: string, e: Error, after: string, inTimeoutError: bool)
    requires IsPermanent(Some(e))
    ensures IsPermanent(Some(Wrap(before, e, after, inTimeoutError))) <==> !inTimeoutError
  {
    if MatchesAny(e.text, PERMANENT_PATTERNS) {
      var k :| 0 <= k < |PERMANENT_PATTERNS| && Contains(ToLower(e.text), PERMANENT_PATTERNS[k]);
      ContainsInContext(before, e.text, after, PERMANENT_PATTERNS[k]);
    }
  }

  lemma LowerKeeps(s: string)
    requires forall i :: 0 <= i < |s| ==> !('A' <= s[i] <= 'Z')
    ensures ToLower(s) == s
  {
  }

  /** The text mentions the pattern, a lower-case one, in whatever case. */
  ghost predicate Mentions(text: string, pattern: string) {
    exists i: nat :: OccursAt(ToLower(text), pattern, i)
  }

  lemma MatchesAnyIff(text: string)
    ensures MatchesAny(text, PERMANENT_PATTERNS) <==>
              exists k :: 0 <= k < |PERMANENT_PATTERNS| && Mentions(text, PERMANENT_PATTERNS[k])
  {
    forall k | 0 <= k < |PERMANENT_PATTERNS|
      ensures Contains(ToLower(text), PERMANENT_PATTERNS[k]) <==> Mentions(text, PERMANENT_PATTERNS[k])
    {
      ContainsIff(ToLower(text), PERMANENT_PATTERNS[k]);
    }
  }

  /**
   The permanent errors are those that mention one of seven texts or wrap one of three sentinels, and are
   neither a cancellation nor a timeout; all other errors are transient.
   */
  lemma PermanentExactly(e: Error)
    ensures IsPermanent(Some(e)) <==>
              && !e.wrapsCanceled && !e.isTimeoutError && !e.wrapsDeadline
              && (|| Mentions(e.text, "revision mismatch")
                  || Mentions(e.text, "key not found")
                  || Mentions(e.text, "permission denied")
                  || Mentions(e.text, "bucket not found")
                  || Mentions(e.text, "access denied")
                  || Mentions(e.text, "invalid")
                  || Mentions(e.text, "authentication")
                  || InvalidConfig in e.wraps || PermissionDenied in e.wraps || BucketNotFound in e.wraps)
    ensures IsTransient(Some(e)) <==> !IsPermanent(Some(e))
    ensures !IsPermanent(None) && !IsTransient(None)
  {
    MatchesAnyIff(e.text);
    var ps := PERMANENT_PATTERNS;
    assert |ps| == 7 && ps[0] == "revision mismatch" && ps[1] == "key not found" && ps[2] == "permission denied";
    assert ps[3] == "bucket not found" && ps[4] == "access denied" && ps[5] == "invalid" && ps[6] == "authentication";
  }

  /** The characters are equal, or the two cases of one ASCII letter. */
  predicate SameLetter(a: char, b: char) {
    || a == b
    || ('A' <= a <= 'Z' && b as int == a as int + 32)
    || ('A' <= b <= 'Z' && a as int == b as int + 32)
  }

  /** The case of the text does not matter. */
  lemma CaseIsIgnored(e: Error, text: string)
    requires |text| == |e.text| && forall i :: 0 <= i < |text| ==> SameLetter(text[i], e.text[i])
    ensures IsPermanent(Some(e.(text := text))) <==> IsPermanent(Some(e))
  {
    assert ToLower(text) == ToLower(e.text);
  }

  /** Losing the key, in either way the store reports it, is permanent. */
  lemma LossIsPermanent(f: Fault)
    requires f.RevisionMismatch? || f.KeyNotFound?
    ensures IsPermanent(Some(Plain(Message(f))))
  {
    LowerKeeps(Message(f));
    ContainsAt(Message(f), Message(f), 0);
    assert PERMANENT_PATTERNS[0] == Message(RevisionMismatch) && PERMANENT_PATTERNS[1] == Message(KeyNotFound);
  }
}
