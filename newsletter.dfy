/** The newsletter sign-up: the e-mail check and the state transitions of
    `handleSubscribe` (src/pages/Newsletter.tsx). */
module Newsletter {
  import opened Wrappers
  import opened Text

  /** The class `[^\s@]`. */
  predicate IsAtomChar(c: char) {
    !IsSpace(c) && c != '@'
  }

  /** `s[lo..hi]` is in `[^\s@]*`. */
  predicate AtomRun(s: string, lo: nat, hi: nat)
    requires lo <= hi <= |s|
  {
    forall i | lo <= i < hi :: IsAtomChar(s[i])
  }

  /** `/^[^\s@]+@[^\s@]+\.[^\s@]+$/.test(s)`: the string splits as a
      non-empty atom, `@`, a non-empty atom, `.`, and a non-empty atom. The
      middle atom may itself contain dots, so any dot after the first
      character of the domain may serve as the separator. */
  predicate MatchesEmailPattern(s: string) {
    exists at, dot | 0 < at < dot < |s| ::
      && at + 1 < dot && dot + 1 < |s|
      && s[at] == '@' && s[dot] == '.'
      && AtomRun(s, 0, at) && AtomRun(s, at + 1, dot) && AtomRun(s, dot + 1, |s|)
  }

  /** The structure the pattern describes, stated independently: no
      whitespace anywhere, exactly one `@`, a non-empty local part before it,
      and after it a domain with a dot that is neither its first nor its
      last character. */
  ghost predicate WellFormedAddress(s: string) {
    && NoSpace(s)
    && exists at ::
      && 0 < at < |s| && s[at] == '@'
      && (forall j :: 0 <= j < |s| && s[j] == '@' ==> j == at)
      && exists dot :: at + 1 < dot < |s| - 1 && s[dot] == '.'
  }

  /** What the pattern accepts is well formed. */
  lemma PatternGivesAddress(s: string)
    requires MatchesEmailPattern(s)
    ensures WellFormedAddress(s)
  {
    var at, dot :| 0 < at < dot < |s| && at + 1 < dot && dot + 1 < |s|
      && s[at] == '@' && s[dot] == '.'
      && AtomRun(s, 0, at) && AtomRun(s, at + 1, dot) && AtomRun(s, dot + 1, |s|);
    forall i | 0 <= i < |s| && i != at ensures IsAtomChar(s[i]) {
      if i < at { assert AtomRun(s, 0, at); }
      else if i < dot { assert AtomRun(s, at + 1, dot); }
      else if dot < i { assert AtomRun(s, dot + 1, |s|); }
    }
    assert NoSpace(s) by {
      forall i | 0 <= i < |s| ensures !IsSpace(s[i]) {
        if i != at { assert IsAtomChar(s[i]); }
      }
    }
    assert forall j :: 0 <= j < |s| && s[j] == '@' ==> j == at;
    assert at + 1 < dot < |s| - 1 && s[dot] == '.';
  }

  /** A well-formed address matches the pattern. */
  lemma AddressMatchesPattern(s: string)
    requires WellFormedAddress(s)
    ensures MatchesEmailPattern(s)
  {
    var at :| && 0 < at < |s| && s[at] == '@'
      && (forall j :: 0 <= j < |s| && s[j] == '@' ==> j == at)
      && exists dot :: at + 1 < dot < |s| - 1 && s[dot] == '.';
    var dot :| at + 1 < dot < |s| - 1 && s[dot] == '.';
    assert forall i | 0 <= i < |s| && i != at :: IsAtomChar(s[i]);
    assert AtomRun(s, 0, at) && AtomRun(s, at + 1, dot) && AtomRun(s, dot + 1, |s|);
  }

  /** The check accepts exactly the well-formed addresses. */
  lemma EmailPatternIff(s: string)
    ensures MatchesEmailPattern(s) <==> WellFormedAddress(s)
  {
    if MatchesEmailPattern(s) {
      PatternGivesAddress(s);
    }
    if WellFormedAddress(s) {
      AddressMatchesPattern(s);
    }
  }

  /** Every string of the shape `L@A.B`, with `L`, `A` and `B` non-empty and
      free of whitespace and `@`, is accepted. */
  lemma EmailAcceptsShape(local: string, host: string, tld: string)
    requires local != [] && host != [] && tld != []
    requires forall i :: 0 <= i < |local| ==> IsAtomChar(local[i])
    requires forall i :: 0 <= i < |host| ==> IsAtomChar(host[i])
    requires forall i :: 0 <= i < |tld| ==> IsAtomChar(tld[i])
    ensures MatchesEmailPattern(local + "@" + host + "." + tld)
  {
    var s := local + "@" + host + "." + tld;
    var at := |local|;
    var dot := |local| + 1 + |host|;
    assert s[at] == '@' && s[dot] == '.';
    assert forall i | 0 <= i < at :: s[i] == local[i];
    assert forall i | at + 1 <= i < dot :: s[i] == host[i - at - 1];
    assert forall i | dot + 1 <= i < |s| :: s[i] == tld[i - dot - 1];
    assert AtomRun(s, 0, at) && AtomRun(s, at + 1, dot) && AtomRun(s, dot + 1, |s|);
  }

  /** A blank address, and one with whitespace at either end (the untrimmed
      input is tested), is never accepted. */
  lemma EmailRejectsWhitespace(s: string)
    requires IsBlank(s) || (s != [] && (IsSpace(s[0]) || IsSpace(s[|s| - 1])))
    ensures !MatchesEmailPattern(s)
  {
    BlankIffAllSpace(s);
    EmailPatternIff(s);
  }

  /** `name || null`. */
  function NameOrNull(name: string): (r: Option<string>)
    ensures r.None? <==> name == []
    ensures r.Some? ==> r.value == name
  {
    if name == [] then None else Some(name)
  }

  datatype SubscribeOutcome =
    | EmptyEmail                                  // "Please enter your email"
    | InvalidEmail                                // "Please enter a valid email address"
    | Requested(email: string, name: Option<string>) // `subscribeToNewsletter` is awaited

  class SignupForm {
    var email: string
    var name: string
    var loading: bool
    var subscribed: bool

    constructor ()
      ensures email == [] && name == [] && !loading && !subscribed
    {
      email, name, loading, subscribed := [], [], false, false;
    }

    /** `handleSubscribe` up to the awaited call: a blank e-mail, then one
        the pattern rejects, ends the handler with nothing changed; otherwise
        `loading` is raised and the call is made with the typed address and
        the name or null. */
    method StartSubscribe() returns (outcome: SubscribeOutcome)
      modifies this`loading
      ensures IsBlank(email) ==> outcome == EmptyEmail && loading == old(loading)
      ensures !IsBlank(email) && !MatchesEmailPattern(email) ==>
        outcome == InvalidEmail && loading == old(loading)
      ensures !IsBlank(email) && MatchesEmailPattern(email) ==>
        outcome == Requested(email, NameOrNull(name)) && loading
    {
      if IsBlank(email) {
        return EmptyEmail;
      }
      if !MatchesEmailPattern(email) {
        return InvalidEmail;
      }
      loading := true;
      outcome := Requested(email, NameOrNull(name));
    }

    /** The continuation: success marks the reader subscribed and clears
        both fields; failure leaves them as typed. `loading` ends false on
        both paths. */
    method FinishSubscribe(success: bool)
      modifies this
      ensures !loading
      ensures success ==> subscribed && email == [] && name == []
      ensures !success ==>
        subscribed == old(subscribed) && email == old(email) && name == old(name)
    {
      if success {
        subscribed := true;
        email := [];
        name := [];
      }
      loading := false;
    }
  }
}
