/** The WebAuthn challenge slot of one session: issued, handed to a verifier, cleared, expired. */
module WebAuthnChallenges {
  import opened Wrappers

  const CHALLENGE_TTL_MS: int := 5 * 60 * 1000

  datatype Kind = Registration | Authentication

  datatype ChallengeData = ChallengeData(challenge: string, expiresAt: int, kind: Kind)

  /** A challenge issued to the client, or handed to a verifier, and when. */
  datatype Record = Record(challenge: string, kind: Kind, time: int)

  datatype Slot = Slot(stored: Option<ChallengeData>, issued: seq<Record>, handed: seq<Record>)

  datatype Step =
    | Options(kind: Kind, challenge: string, now: int)
    | Verify(kind: Kind, now: int, reachesVerifier: bool)
    | Lost

  /** `storeChallenge`. */
  function StoreChallenge(s: Slot, challenge: string, kind: Kind, now: int): Slot {
    s.(stored := Some(ChallengeData(challenge, now + CHALLENGE_TTL_MS, kind)), issued := s.issued + [Record(challenge, kind, now)])
  }

  predicate Usable(s: Slot, kind: Kind, now: int) {
    s.stored.Some? && s.stored.value.expiresAt >= now && s.stored.value.kind == kind
  }

  /** `getChallenge`: an expired challenge is removed, one of the other kind is left alone. */
  function GetChallenge(s: Slot, kind: Kind, now: int): (Slot, Option<string>) {
    if s.stored.Some? && s.stored.value.expiresAt < now then (s.(stored := None), None)
    else if Usable(s, kind, now) then (s, Some(s.stored.value.challenge))
    else (s, None)
  }

  /** `verifyRegistration` and `verifyAuthentication`: the slot is cleared before the verifier is called. */
  function HandleVerify(s: Slot, kind: Kind, now: int, reachesVerifier: bool): Slot {
    var (s1, challenge) := GetChallenge(s, kind, now);
    if challenge.None? || challenge.value == "" || !reachesVerifier then s1
    else s1.(stored := None, handed := s1.handed + [Record(challenge.value, kind, now)])
  }

  function Apply(s: Slot, step: Step): Slot {
    match step
    case Options(kind, challenge, now) => StoreChallenge(s, challenge, kind, now)
    case Verify(kind, now, reachesVerifier) => HandleVerify(s, kind, now, reachesVerifier)
    case Lost => s.(stored := None)
  }

  function Run(s: Slot, steps: seq<Step>): Slot
    decreases |steps|
  {
    if steps == [] then s else Run(Apply(s, steps[0]), steps[1..])
  }

  /** Every challenge the run would issue differs from those issued before. */
  ghost predicate FreshIssues(s: Slot, steps: seq<Step>)
    decreases |steps|
  {
    steps != [] ==>
      && (steps[0].Options? ==> forall i :: 0 <= i < |s.issued| ==> s.issued[i].challenge != steps[0].challenge)
      && FreshIssues(Apply(s, steps[0]), steps[1..])
  }

  /** The challenge was issued in this session for this ceremony, no more than five minutes earlier. */
  ghost predicate IssuedInTime(issued: seq<Record>, r: Record) {
    exists i :: 0 <= i < |issued| && issued[i].challenge == r.challenge && issued[i].kind == r.kind
                && r.time <= issued[i].time + CHALLENGE_TTL_MS
  }

  ghost predicate HandedOnce(handed: seq<Record>) {
    forall i, j :: 0 <= i < j < |handed| ==> handed[i].challenge != handed[j].challenge
  }

  ghost predicate Inv(s: Slot) {
    && (forall i :: 0 <= i < |s.handed| ==> IssuedInTime(s.issued, s.handed[i]))
    && HandedOnce(s.handed)
    && (s.stored.Some? ==>
          && Record(s.stored.value.challenge, s.stored.value.kind, s.stored.value.expiresAt - CHALLENGE_TTL_MS) in s.issued
          && forall i :: 0 <= i < |s.handed| ==> s.handed[i].challenge != s.stored.value.challenge)
  }

  lemma IssueKeepsInv(s: Slot, kind: Kind, challenge: string, now: int)
    requires Inv(s)
    requires forall i :: 0 <= i < |s.issued| ==> s.issued[i].challenge != challenge
    ensures Inv(StoreChallenge(s, challenge, kind, now))
  {
    var s' := StoreChallenge(s, challenge, kind, now);
    assert s'.issued[|s.issued|] == Record(challenge, kind, now);
    forall i | 0 <= i < |s.handed|
      ensures IssuedInTime(s'.issued, s.handed[i]) && s.handed[i].challenge != challenge
    {
      assert IssuedInTime(s.issued, s.handed[i]);
      var j :| 0 <= j < |s.issued| && s.issued[j].challenge == s.handed[i].challenge && s.issued[j].kind == s.handed[i].kind
               && s.handed[i].time <= s.issued[j].time + CHALLENGE_TTL_MS;
      assert s'.issued[j] == s.issued[j];
    }
  }

  lemma VerifyKeepsInv(s: Slot, kind: Kind, now: int, reachesVerifier: bool)
    requires Inv(s)
    ensures Inv(HandleVerify(s, kind, now, reachesVerifier))
  {
    if Usable(s, kind, now) && reachesVerifier {
      var c := s.stored.value;
      var i :| 0 <= i < |s.issued| && s.issued[i] == Record(c.challenge, c.kind, c.expiresAt - CHALLENGE_TTL_MS);
      assert IssuedInTime(s.issued, Record(c.challenge, kind, now));
    }
  }

  lemma {:induction false} RunKeepsInv(s: Slot, steps: seq<Step>)
    requires Inv(s) && FreshIssues(s, steps)
    ensures Inv(Run(s, steps))
    decreases |steps|
  {
    if steps != [] {
      match steps[0] {
        case Options(kind, challenge, now) => IssueKeepsInv(s, kind, challenge, now);
        case Verify(kind, now, reachesVerifier) => VerifyKeepsInv(s, kind, now, reachesVerifier);
        case Lost =>
      }
      RunKeepsInv(Apply(s, steps[0]), steps[1..]);
    }
  }

  /**
   In every run of one session, each challenge handed to a verifier was issued in it for the
   same ceremony at most five minutes before, and no challenge is handed over twice.
   */
  lemma ChallengesAreSingleUse(steps: seq<Step>)
    requires FreshIssues(Slot(None, [], []), steps)
    ensures var s := Run(Slot(None, [], []), steps);
            HandedOnce(s.handed) && forall i :: 0 <= i < |s.handed| ==> IssuedInTime(s.issued, s.handed[i])
  {
    RunKeepsInv(Slot(None, [], []), steps);
  }

  // ---------- With a clock ----------

  /** The clock never goes back, from `now` on. */
  predicate Clocked(steps: seq<Step>, now: int)
    decreases |steps|
  {
    if steps == [] then true
    else if steps[0].Lost? then Clocked(steps[1..], now)
    else now <= steps[0].now && Clocked(steps[1..], steps[0].now)
  }

  /** Issued in this session for this ceremony, before the hand-over and no more than five minutes before. */
  ghost predicate IssuedBefore(issued: seq<Record>, r: Record) {
    exists i :: 0 <= i < |issued| && issued[i].challenge == r.challenge && issued[i].kind == r.kind
                && issued[i].time <= r.time <= issued[i].time + CHALLENGE_TTL_MS
  }

  ghost predicate Timely(s: Slot, now: int) {
    && (forall i :: 0 <= i < |s.handed| ==> IssuedBefore(s.issued, s.handed[i]))
    && (forall i :: 0 <= i < |s.issued| ==> s.issued[i].time <= now)
    && (s.stored.Some? ==>
          Record(s.stored.value.challenge, s.stored.value.kind, s.stored.value.expiresAt - CHALLENGE_TTL_MS) in s.issued)
  }

  lemma IssueKeepsTimely(s: Slot, kind: Kind, challenge: string, now: int, later: int)
    requires Timely(s, now) && now <= later
    ensures Timely(StoreChallenge(s, challenge, kind, later), later)
  {
    var s' := StoreChallenge(s, challenge, kind, later);
    assert s'.issued[|s.issued|] == Record(challenge, kind, later);
    forall i | 0 <= i < |s.handed|
      ensures IssuedBefore(s'.issued, s.handed[i])
    {
      var r := s.handed[i];
      var j :| 0 <= j < |s.issued| && s.issued[j].challenge == r.challenge && s.issued[j].kind == r.kind
               && s.issued[j].time <= r.time <= s.issued[j].time + CHALLENGE_TTL_MS;
      assert s'.issued[j] == s.issued[j];
    }
  }

  lemma VerifyKeepsTimely(s: Slot, kind: Kind, now: int, later: int, reachesVerifier: bool)
    requires Timely(s, now) && now <= later
    ensures Timely(HandleVerify(s, kind, later, reachesVerifier), later)
  {
    if Usable(s, kind, later) {
      var c := s.stored.value;
      var i :| 0 <= i < |s.issued| && s.issued[i] == Record(c.challenge, c.kind, c.expiresAt - CHALLENGE_TTL_MS);
      assert IssuedBefore(s.issued, Record(c.challenge, kind, later));
    }
  }

  lemma {:induction false} RunKeepsTimely(s: Slot, steps: seq<Step>, now: int) returns (later: int)
    requires Timely(s, now) && Clocked(steps, now)
    ensures Timely(Run(s, steps), later)
    decreases |steps|
  {
    later := now;
    if steps != [] {
      match steps[0] {
        case Options(kind, challenge, at) => IssueKeepsTimely(s, kind, challenge, now, at);
        case Verify(kind, at, reachesVerifier) => VerifyKeepsTimely(s, kind, now, at, reachesVerifier);
        case Lost =>
      }
      later := RunKeepsTimely(Apply(s, steps[0]), steps[1..], if steps[0].Lost? then now else steps[0].now);
    }
  }

  /** Whenever the clock does not go back, a challenge is issued first and handed over within five minutes. */
  lemma HandedAfterIssue(steps: seq<Step>, now: int)
    requires Clocked(steps, now)
    ensures var s := Run(Slot(None, [], []), steps);
            forall i :: 0 <= i < |s.handed| ==> IssuedBefore(s.issued, s.handed[i])
  {
    var later := RunKeepsTimely(Slot(None, [], []), steps, now);
  }

  // ---------- Exactly when a challenge is handed over ----------

  /**
   * A request hands over the stored challenge exactly when it is for the same ceremony, not older
   * than five minutes, not empty, and the request reaches the verifier; and then the slot is empty.
   */
  lemma HandedIff(s: Slot, kind: Kind, now: int, reachesVerifier: bool)
    ensures var s' := Apply(s, Verify(kind, now, reachesVerifier));
      if s.stored.Some? && s.stored.value.kind == kind && now <= s.stored.value.expiresAt && s.stored.value.challenge != "" && reachesVerifier
      then s'.stored == None && s'.issued == s.issued && s'.handed == s.handed + [Record(s.stored.value.challenge, kind, now)]
      else
        && s'.issued == s.issued && s'.handed == s.handed
        && s'.stored == if s.stored.Some? && s.stored.value.expiresAt < now then None else s.stored
  {
  }

  /** A challenge is stored for its ceremony and for five minutes, in place of any other. */
  lemma IssuedFor(s: Slot, kind: Kind, challenge: string, now: int)
    ensures Apply(s, Options(kind, challenge, now)) ==
      Slot(Some(ChallengeData(challenge, now + 300_000, kind)), s.issued + [Record(challenge, kind, now)], s.handed)
  {
  }

  /** So a request of the right kind that comes within five minutes gets its own challenge verified. */
  lemma IssuedIsHanded(s: Slot, kind: Kind, challenge: string, issued: int, now: int)
    requires challenge != "" && now <= issued + 300_000
    ensures Run(s, [Options(kind, challenge, issued), Verify(kind, now, true)]).handed == s.handed + [Record(challenge, kind, now)]
  {
    var steps := [Options(kind, challenge, issued), Verify(kind, now, true)];
    var s1 := Apply(s, steps[0]);
    IssuedFor(s, kind, challenge, issued);
    HandedIff(s1, kind, now, true);
    assert steps[1..] == [steps[1]] && steps[1..][1..] == [];
    assert Run(s, steps) == Run(s1, steps[1..]) == Run(Apply(s1, steps[1]), []);
  }

  /** Losing the session value loses the challenge, and nothing of the history. */
  lemma LostIsGone(s: Slot)
    ensures Apply(s, Lost) == Slot(None, s.issued, s.handed)
  {
  }

  /** The clock goes forward exactly when no request is earlier than `now` or than one before it. */
  lemma {:induction false} ClockedIff(steps: seq<Step>, now: int)
    ensures Clocked(steps, now) <==>
      && (forall i :: 0 <= i < |steps| && !steps[i].Lost? ==> now <= steps[i].now)
      && (forall i, j :: 0 <= i < j < |steps| && !steps[i].Lost? && !steps[j].Lost? ==> steps[i].now <= steps[j].now)
    decreases |steps|
  {
    if steps != [] {
      var rest := steps[1..];
      assert forall i :: 0 <= i < |rest| ==> rest[i] == steps[i + 1];
      assert forall i :: 1 <= i < |steps| ==> steps[i] == rest[i - 1];
      ClockedIff(rest, if steps[0].Lost? then now else steps[0].now);
    }
  }
}
