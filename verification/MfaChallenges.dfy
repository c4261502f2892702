/**
 The challenge of the login-time WebAuthn check. It lies in a session key of its own, which is
 cleared only after an accepted assertion and never expires.
 */
module MfaChallenges {
  import opened Wrappers
  import opened Sorting
  import opened LoginSession

  /** The challenge that a request hands to the verifier. */
  function HandsOver(s: Session, step: Step): Option<string> {
    if step.VerifyAssertion? && PendingUser(s).Some? && s.challenge.Some? && s.challenge.value != "" && step.credentialMatches
    then s.challenge else None
  }

  /** Every challenge handed to the verifier in a run, oldest first. */
  function Handed(settings: Settings, s: Session, steps: seq<Step>): seq<string>
    decreases |steps|
  {
    if steps == [] then []
    else
      var h := HandsOver(s, steps[0]);
      (if h.Some? then [h.value] else []) + Handed(settings, Apply(settings, s, steps[0]), steps[1..])
  }

  /** The request that issues a new challenge. */
  predicate Issues(s: Session, step: Step) {
    step.WebAuthnOptions? && PendingUser(s).Some?
  }

  /** Has the stored challenge been handed over after this step, if `tried` says so before it? */
  predicate TriedAfter(s: Session, step: Step, tried: bool) {
    !Issues(s, step) && (tried || HandsOver(s, step).Some?)
  }

  /** Some request is verified with a challenge that an earlier, refused one had been verified with. */
  predicate Retries(settings: Settings, s: Session, steps: seq<Step>, tried: bool)
    decreases |steps|
  {
    steps != [] &&
    (|| (tried && HandsOver(s, steps[0]).Some?)
     || Retries(settings, Apply(settings, s, steps[0]), steps[1..], TriedAfter(s, steps[0], tried)))
  }

  /** Every issued challenge is new. */
  ghost predicate FreshIssues(settings: Settings, s: Session, steps: seq<Step>, issued: set<string>)
    decreases |steps|
  {
    steps != [] ==>
      && (Issues(s, steps[0]) ==> steps[0].challenge !in issued)
      && FreshIssues(settings, Apply(settings, s, steps[0]), steps[1..], IssuedAfter(s, steps[0], issued))
  }

  function IssuedAfter(s: Session, step: Step, issued: set<string>): set<string> {
    if Issues(s, step) then issued + {step.challenge} else issued
  }

  /** How the key changes: set by an issue, kept or cleared by anything else. */
  lemma ChallengeStep(settings: Settings, s: Session, step: Step)
    ensures Issues(s, step) ==> Apply(settings, s, step).challenge == Some(step.challenge)
    ensures !Issues(s, step) ==> Apply(settings, s, step).challenge == s.challenge || Apply(settings, s, step).challenge == None
    ensures HandsOver(s, step).Some? ==>
      Apply(settings, s, step).challenge == if step.accepted then None else s.challenge
  {
  }

  /** The stored challenge was issued, and handed over exactly if `tried`; nothing unissued was. */
  ghost predicate Tracked(s: Session, issued: set<string>, handed: seq<string>, tried: bool) {
    && (forall c :: c in handed ==> c in issued)
    && (s.challenge.Some? ==> s.challenge.value in issued && (tried <==> s.challenge.value in handed))
  }

  lemma StepTracks(settings: Settings, s: Session, step: Step, issued: set<string>, handed: seq<string>, tried: bool)
    requires Tracked(s, issued, handed, tried) && (Issues(s, step) ==> step.challenge !in issued)
    ensures var h := HandsOver(s, step);
      Tracked(Apply(settings, s, step), IssuedAfter(s, step, issued), handed + (if h.Some? then [h.value] else []), TriedAfter(s, step, tried))
  {
    ChallengeStep(settings, s, step);
  }

  lemma NoDuplicatesPrefix(a: seq<string>, b: seq<string>)
    requires NoDuplicates(a + b)
    ensures NoDuplicates(a)
  {
    forall i, j | 0 <= i < j < |a|
      ensures a[i] != a[j]
    {
      assert (a + b)[i] == a[i] && (a + b)[j] == a[j];
    }
  }

  lemma {:induction false} HandedOnceIffFrom(settings: Settings, s: Session, steps: seq<Step>, issued: set<string>, handed: seq<string>, tried: bool)
    requires Tracked(s, issued, handed, tried) && FreshIssues(settings, s, steps, issued) && NoDuplicates(handed)
    ensures NoDuplicates(handed + Handed(settings, s, steps)) <==> !Retries(settings, s, steps, tried)
    decreases |steps|
  {
    if steps == [] {
      assert handed + [] == handed;
    } else {
      var step, next := steps[0], Apply(settings, s, steps[0]);
      var h := HandsOver(s, step);
      var now := handed + (if h.Some? then [h.value] else []);
      var rest := Handed(settings, next, steps[1..]);
      StepTracks(settings, s, step, issued, handed, tried);
      assert handed + Handed(settings, s, steps) == now + rest;
      if h.Some? && tried {
        var i :| 0 <= i < |handed| && handed[i] == h.value;
        assert now[i] == now[|handed|];
        if NoDuplicates(now + rest) {
          NoDuplicatesPrefix(now, rest);
          assert false;
        }
      } else {
        HandedOnceIffFrom(settings, next, steps[1..], IssuedAfter(s, step, issued), now, TriedAfter(s, step, tried));
      }
    }
  }

  /**
   * With new challenges throughout, each is handed to the verifier at most once exactly when every
   * refused assertion is followed by a new challenge before the next one is verified.
   */
  lemma HandedOnceIff(settings: Settings, steps: seq<Step>)
    requires FreshIssues(settings, Fresh(), steps, {})
    ensures NoDuplicates(Handed(settings, Fresh(), steps)) <==> !Retries(settings, Fresh(), steps, false)
  {
    HandedOnceIffFrom(settings, Fresh(), steps, {}, [], false);
    assert [] + Handed(settings, Fresh(), steps) == Handed(settings, Fresh(), steps);
  }

  /** Refused as often as one likes, a challenge is handed over again and stays. */
  lemma {:induction false} RefusedStays(settings: Settings, s: Session, n: nat)
    requires PendingUser(s).Some? && s.challenge.Some? && s.challenge.value != ""
    ensures var steps := seq(n, i => VerifyAssertion(true, false));
      && Run(settings, s, steps) == s
      && |Handed(settings, s, steps)| == n && forall c :: c in Handed(settings, s, steps) ==> c == s.challenge.value
    decreases n
  {
    var steps := seq(n, i => VerifyAssertion(true, false));
    if n > 0 {
      assert steps[1..] == seq(n - 1, i => VerifyAssertion(true, false));
      assert Apply(settings, s, steps[0]) == s;
      RefusedStays(settings, s, n - 1);
    }
  }
}
