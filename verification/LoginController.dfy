/** The handlers as they run: session keys set and removed one after another. */
module LoginController {
  import opened Wrappers
  import opened LoginSession
  import Recovery

  /** `findIndex` by id or username, counting past the end when there is none. */
  method FindIndex(accounts: seq<Account>, a: Account) returns (index: nat)
    ensures index <= |accounts|
    ensures index < |accounts| ==> SameAccount(accounts[index], a)
    ensures RemoveFirst(accounts, a) == if index < |accounts| then accounts[..index] + accounts[index + 1..] else accounts
  {
    index := 0;
    while index < |accounts| && !SameAccount(accounts[index], a)
      invariant index <= |accounts|
      invariant forall j :: 0 <= j < index ==> !SameAccount(accounts[j], a)
    {
      index := index + 1;
    }
    RemoveFirstAt(accounts, a, index);
  }

  class Controller {
    const settings: Settings
    var pendingMfaUser: Option<Pending>
    var pendingSocialMfaUser: Option<Pending>
    var authenticatedUsers: Option<AuthUsers>
    var isAuthenticated: bool
    var webauthnChallenge: Option<string>
    var linkSocialAccountIntent: bool
    var recoveryAttempt: Option<RecoveryAttempt>
    var secondaryEmailVerification: Option<Account>
    ghost var log: seq<Event>

    constructor (settings: Settings)
      ensures this.settings == settings && Snapshot() == Fresh()
    {
      this.settings := settings;
      pendingMfaUser, pendingSocialMfaUser, authenticatedUsers := None, None, None;
      isAuthenticated, webauthnChallenge, linkSocialAccountIntent := false, None, false;
      recoveryAttempt, secondaryEmailVerification, log := None, None, [];
    }

    ghost function Snapshot(): Session
      reads this
    {
      Session(pendingMfaUser, pendingSocialMfaUser, authenticatedUsers, isAuthenticated, webauthnChallenge, linkSocialAccountIntent,
              recoveryAttempt, secondaryEmailVerification, log)
    }

    method SetAuthenticated(a: Account, ghost via: Via) returns (thrown: bool)
      modifies this`authenticatedUsers, this`isAuthenticated, this`log
      ensures thrown == !Named(a)
      ensures Snapshot() == LoginSession.SetAuthenticated(old(Snapshot()), a, via, settings)
    {
      if !Named(a) {
        return true;
      }
      if authenticatedUsers.None? || !settings.multipleAccounts {
        authenticatedUsers := Some(AuthUsers(a, []));
      } else {
        var existing := authenticatedUsers.value;
        var others := existing.others;
        var index := FindIndex(others, a);
        if index < |others| {
          others := others[..index] + others[index + 1..];
        }
        if !SameAccount(existing.active, a) {
          others := others + [existing.active];
        }
        authenticatedUsers := Some(AuthUsers(a, others));
      }
      isAuthenticated := true;
      log := log + [Authenticated(a, via)];
      return false;
    }

    method AddAuthenticatedUser(a: Account, ghost via: Via) returns (outcome: AddOutcome)
      modifies this`authenticatedUsers, this`log
      ensures outcome == AddCheck(old(authenticatedUsers), a, settings)
      ensures Snapshot() == AddAuthenticated(old(Snapshot()), a, via, settings)
    {
      outcome := AddCheck(authenticatedUsers, a, settings);
      if outcome.Added? {
        authenticatedUsers := Some(AuthUsers(a, if authenticatedUsers.None? then [] else authenticatedUsers.value.others + [authenticatedUsers.value.active]));
        log := log + [Authenticated(a, via)];
      }
    }

    method ProcessLogin(user: UserRecord, flow: Flow)
      modifies this
      ensures Snapshot() == LoginSession.ProcessLogin(old(Snapshot()), user, flow, settings)
    {
      log := log + [FirstFactor(user.account, user.mfaEnabled)];
      if user.mfaEnabled {
        pendingMfaUser := Some(PendingOf(user));
        return;
      }
      if flow.AddingAccount? {
        var added := AddAuthenticatedUser(user.account, ByPassword);
        return;
      }
      if flow.Continuing? && AddCheck(authenticatedUsers, user.account, settings).LimitReached? {
        return;
      }
      var thrown := SetAuthenticated(user.account, ByPassword);
    }

    method SocialCallback(user: UserRecord, needsPhone: bool, flow: Flow)
      modifies this
      ensures Snapshot() == LoginSession.SocialCallback(old(Snapshot()), user, needsPhone, flow, settings)
    {
      if linkSocialAccountIntent {
        linkSocialAccountIntent := false;
        return;
      }
      if needsPhone {
        return;
      }
      log := log + [FirstFactor(user.account, user.mfaEnabled)];
      if user.mfaEnabled {
        pendingSocialMfaUser := Some(PendingOf(user));
      } else if flow.Plain? {
        var thrown := SetAuthenticated(user.account, BySocial);
      } else {
        var added := AddAuthenticatedUser(user.account, BySocial);
      }
    }

    method ProcessMfaSelect(factor: MfaMethod)
      modifies this
      ensures Snapshot() == LoginSession.ProcessMfaSelect(old(Snapshot()), factor)
    {
      var pending := if pendingMfaUser.Some? then pendingMfaUser else pendingSocialMfaUser;
      if pending.None? || factor !in pending.value.enabled {
        return;
      }
      var chosen := pending.value.(mfaMethod := Some(factor));
      if pendingMfaUser.None? {
        pendingSocialMfaUser := Some(chosen);
      }
      pendingMfaUser := Some(chosen);
    }

    /** `accepted` is the answer of the TOTP or email-code verifier. */
    method ProcessMfaVerify(codeGiven: bool, accepted: bool)
      modifies this
      ensures Snapshot() == LoginSession.ProcessMfaVerify(old(Snapshot()), codeGiven, accepted, settings)
    {
      var pending := if pendingMfaUser.Some? then pendingMfaUser else pendingSocialMfaUser;
      if pending.None? || !codeGiven {
        return;
      }
      var verified := false;
      if pending.value.mfaMethod == Some(Totp) || pending.value.mfaMethod == Some(EmailCode) {
        verified := accepted;
      }
      if !verified {
        return;
      }
      log := log + [SecondFactor(pending.value.account, pending.value.mfaMethod.value)];
      var thrown := SetAuthenticated(pending.value.account, ByMfa(pending.value.mfaMethod.value));
      if thrown {
        return;
      }
      pendingMfaUser := None;
      pendingSocialMfaUser := None;
    }

    method ProcessMfaWebAuthn(credentialMatches: bool, accepted: bool)
      modifies this
      ensures Snapshot() == LoginSession.ProcessMfaWebAuthn(old(Snapshot()), credentialMatches, accepted, settings)
    {
      var pending := if pendingMfaUser.Some? then pendingMfaUser else pendingSocialMfaUser;
      if pending.None? || webauthnChallenge.None? || webauthnChallenge.value == "" || !credentialMatches || !accepted {
        return;
      }
      webauthnChallenge := None;
      log := log + [SecondFactor(pending.value.account, WebAuthn)];
      var added := AddAuthenticatedUser(pending.value.account, ByMfa(WebAuthn));
      pendingMfaUser := None;
      pendingSocialMfaUser := None;
    }

    // ---------- Recovery ----------

    /** `processAccountRecovery`, for the user that the identifier was found to name. */
    method ProcessAccountRecovery(user: Account, available: seq<RecoveryMethod>)
      modifies this
      ensures Snapshot() == StartRecovery(old(Snapshot()), user, available)
    {
      if available == [] {
        return;
      }
      recoveryAttempt := Some(RecoveryAttempt(user, available, None, false));
      log := log + [RecoveryRequested(user)];
    }

    method ProcessRecoveryMethodSelect(means: RecoveryMethod)
      modifies this
      ensures Snapshot() == SelectRecovery(old(Snapshot()), means)
    {
      if recoveryAttempt.None? || means !in recoveryAttempt.value.available {
        return;
      }
      recoveryAttempt := Some(recoveryAttempt.value.(means := Some(means)));
    }

    /** The end of the backup-code and security-question handlers. */
    method RecoverAccount(means: RecoveryMethod, accepted: bool)
      modifies this
      ensures Snapshot() == Recover(old(Snapshot()), means, accepted, settings)
    {
      if recoveryAttempt.None? || recoveryAttempt.value.means != Some(means) || !accepted {
        return;
      }
      var user := recoveryAttempt.value.account;
      recoveryAttempt := None;
      log := log + [RecoveryProof(user, means)];
      var thrown := SetAuthenticated(user, ByRecovery);
    }

    /** `processRecoveryVerifyCode`. */
    method ProcessRecoveryVerifyCode(answer: Answer)
      modifies this
      ensures Snapshot() == VerifyRecoveryCode(old(Snapshot()), answer, settings)
    {
      if recoveryAttempt.Some? && recoveryAttempt.value.means == Some(Recovery.Sms) && recoveryAttempt.value.smsSent {
        RecoverAccount(Recovery.Sms, answer.Accepted?);
        return;
      }
      if secondaryEmailVerification.None? || answer.Denied? {
        return;
      }
      var user := secondaryEmailVerification.value;
      secondaryEmailVerification := None;
      if answer.Expired? {
        return;
      }
      recoveryAttempt := None;
      log := log + [RecoveryProof(user, Recovery.SecondaryEmail)];
      var thrown := SetAuthenticated(user, ByRecovery);
    }
  }
}
