/** `UsernameValidator`: user names accepted by the anchored pattern
    `^[a-z_][a-z0-9_-]*$`. The test is written as the two-state automaton
    that recognises the pattern and proved equal to the character-class
    description. */
module UsernameValidator {
  import opened Wrappers

  const Pattern := "/^[a-z_][a-z0-9_-]*$/"

  /** `[a-z_]`, the class of the first character. */
  predicate IsLeading(c: char) {
    ('a' <= c <= 'z') || c == '_'
  }

  /** `[a-z0-9_-]`, the class of every later character. */
  predicate IsTrailing(c: char) {
    ('a' <= c <= 'z') || ('0' <= c <= '9') || c == '_' || c == '-'
  }

  /** States of the recogniser: nothing read, a well-formed prefix read,
      or a character outside its class seen. */
  datatype State = Start | Accepting | Rejected

  function Step(st: State, c: char): State {
    match st
    case Start => if IsLeading(c) then Accepting else Rejected
    case Accepting => if IsTrailing(c) then Accepting else Rejected
    case Rejected => Rejected
  }

  /** The state after reading `s` from `st`, one character at a time. */
  function Run(st: State, s: string): State
    decreases |s|
  {
    if s == [] then st else Run(Step(st, s[0]), s[1..])
  }

  /** The pattern as a description: a first character in [a-z_] and every
      later one in [a-z0-9_-]. */
  predicate WellFormed(s: string) {
    |s| >= 1 && IsLeading(s[0]) && forall i :: 1 <= i < |s| ==> IsTrailing(s[i])
  }

  /** `validate(username)`: the empty name is refused, any other name
      goes through the recogniser. */
  function Validate(username: string): (ok: bool)
    ensures username == "" ==> !ok
  {
    if username == "" then false else Run(Start, username) == Accepting
  }

  /** `assertValid(username)`: nothing for a valid name, the error naming
      the pattern otherwise. */
  function AssertValid(username: string): (r: Option<string>)
    ensures r.None? <==> Validate(username)
    ensures r.Some? ==> r.value == "Invalid username format. Must strictly match regex: " + Pattern
  {
    if Validate(username) then None
    else Some("Invalid username format. Must strictly match regex: " + Pattern)
  }

  /** From an accepting state the rest is accepted exactly when every
      character is in the trailing class. */
  lemma {:induction false} RunFromAccepting(s: string)
    ensures Run(Accepting, s) == Accepting <==> forall i :: 0 <= i < |s| ==> IsTrailing(s[i])
    ensures Run(Accepting, s) != Start
    decreases |s|
  {
    if s != [] {
      RunFromAccepting(s[1..]);
      if !IsTrailing(s[0]) {
        RejectedStays(s[1..]);
      } else {
        assert forall i :: 1 <= i < |s| ==> s[i] == s[1..][i - 1];
      }
    }
  }

  /** Once rejected, always rejected. */
  lemma {:induction false} RejectedStays(s: string)
    ensures Run(Rejected, s) == Rejected
    decreases |s|
  {
    if s != [] {
      RejectedStays(s[1..]);
    }
  }

  /** The recogniser accepts exactly the names the pattern describes. */
  lemma ValidateIff(username: string)
    ensures Validate(username) <==> WellFormed(username)
  {
    if username != [] {
      var rest := username[1..];
      assert forall i :: 1 <= i < |username| ==> username[i] == rest[i - 1];
      if IsLeading(username[0]) {
        RunFromAccepting(rest);
      } else {
        RejectedStays(rest);
      }
    }
  }

  /** Upper-case letters are refused anywhere in the name. */
  lemma UppercaseRejected(username: string, i: int)
    requires 0 <= i < |username| && 'A' <= username[i] <= 'Z'
    ensures !Validate(username)
  {
    ValidateIff(username);
  }

  /** A name cannot start with a digit or '-'. */
  lemma LeadingDigitOrDashRejected(username: string)
    requires |username| >= 1 && (('0' <= username[0] <= '9') || username[0] == '-')
    ensures !Validate(username)
  {
    ValidateIff(username);
  }

  /** Digits and '-' are allowed after the first character. */
  lemma TrailingDigitsAccepted(first: char, rest: string)
    requires IsLeading(first) && forall i :: 0 <= i < |rest| ==> ('0' <= rest[i] <= '9') || rest[i] == '-'
    ensures Validate([first] + rest)
  {
    var s := [first] + rest;
    assert forall i :: 1 <= i < |s| ==> s[i] == rest[i - 1];
    ValidateIff(s);
  }
}
