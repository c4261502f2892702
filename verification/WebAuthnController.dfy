/** The challenge handling of the WebAuthn controller, on one session value. */
module WebAuthnController {
  import opened Wrappers
  import opened WebAuthnChallenges

  /** The session value behind the slot, as the controller writes it. */
  class Controller {
    var stored: Option<ChallengeData>
    ghost var issued: seq<Record>
    ghost var handed: seq<Record>

    ghost function Snapshot(): Slot
      reads this
    {
      Slot(stored, issued, handed)
    }

    method IssueOptions(challenge: string, kind: Kind, now: int)
      modifies this
      ensures Snapshot() == StoreChallenge(old(Snapshot()), challenge, kind, now)
    {
      stored := Some(ChallengeData(challenge, now + CHALLENGE_TTL_MS, kind));
      issued := issued + [Record(challenge, kind, now)];
    }

    method GetChallenge(expected: Kind, now: int) returns (challenge: Option<string>)
      modifies this`stored
      ensures (Snapshot(), challenge) == WebAuthnChallenges.GetChallenge(old(Snapshot()), expected, now)
    {
      if stored.None? {
        return None;
      }
      if stored.value.expiresAt < now {
        stored := None;
        return None;
      }
      if stored.value.kind != expected {
        return None;
      }
      return Some(stored.value.challenge);
    }

    method HandleVerify(kind: Kind, now: int, credentialUsable: bool) returns (challenge: Option<string>)
      modifies this
      ensures Snapshot() == WebAuthnChallenges.HandleVerify(old(Snapshot()), kind, now, credentialUsable)
      ensures challenge.Some? <==> Usable(old(Snapshot()), kind, now) && old(stored).value.challenge != "" && credentialUsable
      ensures challenge.Some? ==> challenge.value == old(stored).value.challenge
    {
      challenge := GetChallenge(kind, now);
      if challenge.None? || challenge.value == "" || !credentialUsable {
        return None;
      }
      stored := None;
      handed := handed + [Record(challenge.value, kind, now)];
    }
  }
}
