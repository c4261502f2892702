/**
 Sessions and recovery records together: who is let in by a backup code, and whose code it was.
 Any number of sessions work on the same records.
 */
module RecoveryLogin {
  import opened Wrappers
  import opened Sorting
  import Recovery
  import LoginSession
  type CodeHash = Recovery.CodeHash

  datatype System = System(sessions: map<nat, LoginSession.Session>, records: map<string, Option<Recovery.Record>>)

  datatype Step =
    | InSession(sid: nat, request: LoginSession.Step)
    | OnRecord(user: string, change: Recovery.Step)
    | SubmitCode(sid: nat, blank: bool, matched: Option<CodeHash>, now: int)

  /** The user whose codes a submitted code is tried against: the one in the session's `recoveryAttempt`. */
  function Target(sys: System, sid: nat): Option<LoginSession.Account>
    requires sid in sys.sessions
  {
    var s := sys.sessions[sid];
    if LoginSession.Recovering(s, Recovery.BackupCodes) && s.recovery.value.account.id in sys.records
    then Some(s.recovery.value.account) else None
  }

  /** Backup codes are used through `SubmitCode` alone, and the verifier matches only stored codes. */
  predicate Enabled(sys: System, step: Step) {
    match step
    case InSession(sid, request) =>
      sid in sys.sessions && !(request.RecoverWith? && request.means.BackupCodes?)
    case OnRecord(user, change) => user in sys.records && !change.CodeUsed?
    case SubmitCode(sid, _, matched, now) =>
      && sid in sys.sessions
      && (Target(sys, sid).Some? ==> Recovery.Possible(sys.records[Target(sys, sid).value.id], Recovery.CodeUsed(matched, now)))
  }

  predicate LetsIn(sys: System, step: Step)
    requires Enabled(sys, step)
  {
    && step.SubmitCode? && !step.blank && Target(sys, step.sid).Some?
    && Recovery.Recovers(sys.records[Target(sys, step.sid).value.id], Recovery.CodeUsed(step.matched, step.now))
  }

  function Apply(settings: LoginSession.Settings, sys: System, step: Step): System
    requires Enabled(sys, step)
  {
    match step
    case InSession(sid, request) =>
      sys.(sessions := sys.sessions[sid := LoginSession.Apply(settings, sys.sessions[sid], request)])
    case OnRecord(user, change) =>
      sys.(records := sys.records[user := Recovery.Apply(sys.records[user], change)])
    case SubmitCode(sid, blank, matched, now) =>
      if blank || Target(sys, sid).None? then sys
      else
        var user := Target(sys, sid).value.id;
        var attempt := Recovery.UseBackupCode(sys.records[user], matched, now);
        var session := LoginSession.Recover(sys.sessions[sid], Recovery.BackupCodes, attempt.recovered, settings);
        System(sys.sessions[sid := session], sys.records[user := attempt.recovery])
  }

  ghost predicate Run(settings: LoginSession.Settings, sys: System, steps: seq<Step>, sys': System)
    decreases |steps|
  {
    if steps == [] then sys' == sys
    else Enabled(sys, steps[0]) && Run(settings, Apply(settings, sys, steps[0]), steps[1..], sys')
  }

  // ---------- The ledger of spent codes ----------

  datatype Spend = Spend(sid: nat, user: string, code: CodeHash)

  function SpendsOf(sys: System, step: Step): seq<Spend>
    requires Enabled(sys, step)
  {
    if LetsIn(sys, step) then [Spend(step.sid, Target(sys, step.sid).value.id, step.matched.value)] else []
  }

  /** Every code that let somebody in during a run, oldest first. */
  ghost function Ledger(settings: LoginSession.Settings, sys: System, steps: seq<Step>, sys': System): seq<Spend>
    requires Run(settings, sys, steps, sys')
    decreases |steps|
  {
    if steps == [] then []
    else SpendsOf(sys, steps[0]) + Ledger(settings, Apply(settings, sys, steps[0]), steps[1..], sys')
  }

  function UsersIn(ledger: seq<Spend>, sid: nat): seq<string> {
    if ledger == [] then []
    else (if ledger[0].sid == sid then [ledger[0].user] else []) + UsersIn(ledger[1..], sid)
  }

  function CodesOf(ledger: seq<Spend>, user: string): seq<CodeHash> {
    if ledger == [] then []
    else (if ledger[0].user == user then [ledger[0].code] else []) + CodesOf(ledger[1..], user)
  }

  lemma LedgerHead(spends: seq<Spend>, rest: seq<Spend>, sid: nat, user: string)
    requires |spends| <= 1
    ensures UsersIn(spends + rest, sid) == UsersIn(spends, sid) + UsersIn(rest, sid)
    ensures CodesOf(spends + rest, user) == CodesOf(spends, user) + CodesOf(rest, user)
  {
    if spends == [] {
      assert spends + rest == rest;
    } else {
      assert (spends + rest)[1..] == rest && spends[1..] == [];
    }
  }

  // ---------- The session's side ----------

  predicate IsBackupProof(e: LoginSession.Event) {
    e.RecoveryProof? && e.means.BackupCodes?
  }

  /** Whom backup codes let in, according to the session's history. */
  function BackupProofs(log: seq<LoginSession.Event>): seq<string> {
    if log == [] then []
    else
      var e := log[|log| - 1];
      BackupProofs(log[..|log| - 1]) + (if IsBackupProof(e) then [e.account.id] else [])
  }

  /** The history went on without a backup code being accepted. */
  ghost predicate WithoutProof(log: seq<LoginSession.Event>, log': seq<LoginSession.Event>) {
    log <= log' && forall i :: |log| <= i < |log'| ==> !IsBackupProof(log'[i])
  }

  lemma {:induction false} ProofsAfter(log: seq<LoginSession.Event>, log': seq<LoginSession.Event>)
    requires WithoutProof(log, log')
    ensures BackupProofs(log') == BackupProofs(log)
    decreases |log'|
  {
    if |log| < |log'| {
      ProofsAfter(log, log'[..|log'| - 1]);
    } else {
      assert log == log';
    }
  }

  lemma SignInWithoutProof(settings: LoginSession.Settings, s: LoginSession.Session, a: LoginSession.Account, via: LoginSession.Via)
    ensures WithoutProof(s.log, LoginSession.SetAuthenticated(s, a, via, settings).log)
    ensures WithoutProof(s.log, LoginSession.AddAuthenticated(s, a, via, settings).log)
  {
  }

  lemma LoginWithoutProof(settings: LoginSession.Settings, s: LoginSession.Session, request: LoginSession.Step)
    requires request.Login? || request.Social?
    ensures WithoutProof(s.log, LoginSession.Apply(settings, s, request).log)
  {
    var u := request.user;
    var s1 := LoginSession.Log(s, LoginSession.FirstFactor(u.account, u.mfaEnabled));
    SignInWithoutProof(settings, s1, u.account, if request.Login? then LoginSession.ByPassword else LoginSession.BySocial);
  }

  lemma MfaWithoutProof(settings: LoginSession.Settings, s: LoginSession.Session, factor: LoginSession.MfaMethod)
    requires LoginSession.PendingUser(s).Some?
    ensures var a := LoginSession.PendingUser(s).value.account;
      var s1 := LoginSession.Log(s, LoginSession.SecondFactor(a, factor));
      && WithoutProof(s.log, LoginSession.SetAuthenticated(s1, a, LoginSession.ByMfa(factor), settings).log)
      && WithoutProof(s.log, LoginSession.AddAuthenticated(s1, a, LoginSession.ByMfa(factor), settings).log)
  {
    var a := LoginSession.PendingUser(s).value.account;
    SignInWithoutProof(settings, LoginSession.Log(s, LoginSession.SecondFactor(a, factor)), a, LoginSession.ByMfa(factor));
  }

  lemma VerifyWithoutProof(settings: LoginSession.Settings, s: LoginSession.Session, request: LoginSession.Step)
    requires request.VerifyCode? || request.VerifyAssertion? || request.VerifyPasskey?
    ensures WithoutProof(s.log, LoginSession.Apply(settings, s, request).log)
  {
    var pending := LoginSession.PendingUser(s);
    if pending.Some? {
      MfaWithoutProof(settings, s, LoginSession.WebAuthn);
      MfaWithoutProof(settings, s.(challenge := None), LoginSession.WebAuthn);
      if pending.value.mfaMethod.Some? {
        MfaWithoutProof(settings, s, pending.value.mfaMethod.value);
      }
    }
  }

  lemma OtherRecoveryWithoutProof(settings: LoginSession.Settings, s: LoginSession.Session, a: LoginSession.Account, means: Recovery.RecoveryMethod)
    requires !means.BackupCodes?
    ensures WithoutProof(s.log, LoginSession.FinishRecovery(s, a, means, settings).log)
  {
    SignInWithoutProof(settings, LoginSession.Log(s.(recovery := None), LoginSession.RecoveryProof(a, means)), a, LoginSession.ByRecovery);
  }

  lemma RequestWithoutProof(settings: LoginSession.Settings, s: LoginSession.Session, request: LoginSession.Step)
    requires !(request.RecoverWith? && request.means.BackupCodes?)
    ensures WithoutProof(s.log, LoginSession.Apply(settings, s, request).log)
  {
    match request
    case Login(_, _) => LoginWithoutProof(settings, s, request);
    case Social(_, _, _) => LoginWithoutProof(settings, s, request);
    case VerifyCode(_, _) => VerifyWithoutProof(settings, s, request);
    case VerifyAssertion(_, _) => VerifyWithoutProof(settings, s, request);
    case VerifyPasskey(_) => VerifyWithoutProof(settings, s, request);
    case RecoverWith(means, _) =>
      if s.recovery.Some? {
        OtherRecoveryWithoutProof(settings, s, s.recovery.value.account, means);
      }
    case VerifyRecovery(_) =>
      if s.recovery.Some? {
        OtherRecoveryWithoutProof(settings, s, s.recovery.value.account, Recovery.Sms);
      }
      if s.emailCode.Some? {
        OtherRecoveryWithoutProof(settings, s.(emailCode := None), s.emailCode.value, Recovery.SecondaryEmail);
      }
    case Registered(a) => SignInWithoutProof(settings, LoginSession.Log(s, LoginSession.AccountCreated(a)), a, LoginSession.ByRegistration);
    case _ =>
  }

  lemma RecoverAddsProof(settings: LoginSession.Settings, s: LoginSession.Session, accepted: bool)
    requires LoginSession.Recovering(s, Recovery.BackupCodes)
    ensures BackupProofs(LoginSession.Recover(s, Recovery.BackupCodes, accepted, settings).log) ==
      BackupProofs(s.log) + (if accepted then [s.recovery.value.account.id] else [])
  {
    if accepted {
      var a := s.recovery.value.account;
      var s1 := LoginSession.Log(s.(recovery := None), LoginSession.RecoveryProof(a, Recovery.BackupCodes));
      assert s1.log[..|s.log|] == s.log;
      SignInWithoutProof(settings, s1, a, LoginSession.ByRecovery);
      ProofsAfter(s1.log, LoginSession.SetAuthenticated(s1, a, LoginSession.ByRecovery, settings).log);
    }
  }

  lemma RequestStep(settings: LoginSession.Settings, s: LoginSession.Session, request: LoginSession.Step)
    requires !(request.RecoverWith? && request.means.BackupCodes?)
    ensures BackupProofs(LoginSession.Apply(settings, s, request).log) == BackupProofs(s.log)
  {
    RequestWithoutProof(settings, s, request);
    ProofsAfter(s.log, LoginSession.Apply(settings, s, request).log);
  }

  /** The users that one step adds to a session's history. */
  ghost predicate Adds(sys: System, next: System, spends: seq<Spend>, sid: nat) {
    && sid in sys.sessions && sid in next.sessions
    && BackupProofs(next.sessions[sid].log) == BackupProofs(sys.sessions[sid].log) + UsersIn(spends, sid)
  }

  lemma SessionStep(settings: LoginSession.Settings, sys: System, step: Step, sid: nat)
    requires Enabled(sys, step) && sid in sys.sessions
    ensures Adds(sys, Apply(settings, sys, step), SpendsOf(sys, step), sid)
  {
    match step
    case InSession(other, request) => RequestStep(settings, sys.sessions[other], request);
    case OnRecord(_, _) =>
    case SubmitCode(other, blank, matched, now) =>
      if !blank && Target(sys, other).Some? {
        RecoverAddsProof(settings, sys.sessions[other], LetsIn(sys, step));
      }
  }

  lemma AddsTwice(sys: System, next: System, last: System, spends: seq<Spend>, rest: seq<Spend>, sid: nat)
    requires |spends| <= 1 && Adds(sys, next, spends, sid) && Adds(next, last, rest, sid)
    ensures Adds(sys, last, spends + rest, sid)
  {
    LedgerHead(spends, rest, sid, "");
  }

  /** In every session, backup codes let in exactly the users the ledger has for it, in that order. */
  lemma {:induction false} SessionMatchesLedger(settings: LoginSession.Settings, sys: System, steps: seq<Step>, sys': System, sid: nat)
    requires Run(settings, sys, steps, sys') && sid in sys.sessions
    ensures Adds(sys, sys', Ledger(settings, sys, steps, sys'), sid)
    decreases |steps|
  {
    if steps != [] {
      var next := Apply(settings, sys, steps[0]);
      SessionStep(settings, sys, steps[0], sid);
      SessionMatchesLedger(settings, next, steps[1..], sys', sid);
      AddsTwice(sys, next, sys', SpendsOf(sys, steps[0]), Ledger(settings, next, steps[1..], sys'), sid);
    }
  }

  // ---------- The record's side ----------

  /** What the steps of a run did to one user's record. */
  ghost function ChangesTo(settings: LoginSession.Settings, sys: System, steps: seq<Step>, sys': System, user: string): seq<Recovery.Step>
    requires Run(settings, sys, steps, sys')
    decreases |steps|
  {
    if steps == [] then []
    else ChangeBy(sys, steps[0], user) + ChangesTo(settings, Apply(settings, sys, steps[0]), steps[1..], sys', user)
  }

  function ChangeBy(sys: System, step: Step, user: string): seq<Recovery.Step>
    requires Enabled(sys, step)
  {
    if step.OnRecord? && step.user == user then [step.change]
    else if step.SubmitCode? && !step.blank && Target(sys, step.sid).Some? && Target(sys, step.sid).value.id == user
    then [Recovery.CodeUsed(step.matched, step.now)] else []
  }

  lemma RecordStep(settings: LoginSession.Settings, sys: System, step: Step, user: string)
    requires Enabled(sys, step) && user in sys.records
    ensures user in Apply(settings, sys, step).records
    ensures var change, before := ChangeBy(sys, step, user), sys.records[user];
      if change == [] then
        Apply(settings, sys, step).records[user] == before && CodesOf(SpendsOf(sys, step), user) == []
      else
        && |change| == 1
        && Apply(settings, sys, step).records[user] == Recovery.Apply(before, change[0])
        && Recovery.Possible(before, change[0])
        && CodesOf(SpendsOf(sys, step), user) == (if Recovery.Recovers(before, change[0]) then [change[0].matched.value] else [])
  {
  }

  /** No step of the run gives this user new codes. */
  ghost predicate KeepsCodes(steps: seq<Step>, user: string) {
    forall step :: step in steps && step.OnRecord? && step.user == user ==> !Recovery.Generates(step.change)
  }

  /** `changes` explain a record's way from `before` to `after`, and `codes` are what they spent. */
  ghost predicate Explains(changes: seq<Recovery.Step>, before: Option<Recovery.Record>, after: Option<Recovery.Record>, codes: seq<CodeHash>) {
    after == Recovery.Run(before, changes) && codes == Recovery.Spent(before, changes)
  }

  lemma ExplainsMore(change: seq<Recovery.Step>, rest: seq<Recovery.Step>, before: Option<Recovery.Record>,
                     next: Option<Recovery.Record>, after: Option<Recovery.Record>, codes: seq<CodeHash>, more: seq<CodeHash>)
    requires |change| <= 1 && Explains(rest, next, after, more)
    requires change == [] ==> next == before && codes == []
    requires change != [] ==>
      && next == Recovery.Apply(before, change[0]) && Recovery.Possible(before, change[0])
      && codes == (if Recovery.Recovers(before, change[0]) then [change[0].matched.value] else [])
    ensures Explains(change + rest, before, after, codes + more)
    ensures Recovery.OneGeneration(next, rest) && (change == [] || !Recovery.Generates(change[0])) ==> Recovery.OneGeneration(before, change + rest)
  {
    if change == [] {
      assert change + rest == rest && codes + more == more;
    } else {
      assert (change + rest)[0] == change[0] && (change + rest)[1..] == rest;
    }
  }

  /** The user's record runs through `ChangesTo`, and the ledger lists exactly the codes that this spent. */
  lemma {:induction false} RecordMatchesLedger(settings: LoginSession.Settings, sys: System, steps: seq<Step>, sys': System, user: string)
    requires Run(settings, sys, steps, sys') && user in sys.records
    ensures user in sys'.records
    ensures var changes := ChangesTo(settings, sys, steps, sys', user);
      && Explains(changes, sys.records[user], sys'.records[user], CodesOf(Ledger(settings, sys, steps, sys'), user))
      && (KeepsCodes(steps, user) ==> Recovery.OneGeneration(sys.records[user], changes))
    decreases |steps|
  {
    if steps != [] {
      var next := Apply(settings, sys, steps[0]);
      var spends, ledger := SpendsOf(sys, steps[0]), Ledger(settings, next, steps[1..], sys');
      RecordStep(settings, sys, steps[0], user);
      RecordMatchesLedger(settings, next, steps[1..], sys', user);
      LedgerHead(spends, ledger, 0, user);
      ExplainsMore(ChangeBy(sys, steps[0], user), ChangesTo(settings, next, steps[1..], sys', user),
                   sys.records[user], next.records[user], sys'.records[user], CodesOf(spends, user), CodesOf(ledger, user));
      assert forall step :: step in steps[1..] ==> step in steps;
    }
  }

  /**
   Between two generations, backup codes let a user in at most once per distinct code, over all
   sessions together; every such recovery used a code of that user's own record, which is gone.
   */
  lemma RecoveriesSpendOwnCodes(settings: LoginSession.Settings, sys: System, steps: seq<Step>, sys': System, user: string)
    requires Run(settings, sys, steps, sys') && user in sys.records && KeepsCodes(steps, user)
    ensures var codes := CodesOf(Ledger(settings, sys, steps, sys'), user);
      && NoDuplicates(codes) && Elems(codes) <= Recovery.Stored(sys.records[user])
      && |codes| <= |Recovery.Stored(sys.records[user])|
      && user in sys'.records && Elems(codes) !! Recovery.Stored(sys'.records[user])
  {
    RecordMatchesLedger(settings, sys, steps, sys', user);
    var changes := ChangesTo(settings, sys, steps, sys', user);
    Recovery.CodesAreSpentOnce(sys.records[user], changes);
    Recovery.RecoveriesAreBounded(sys.records[user], changes);
  }

  // ---------- Exactly when somebody gets in ----------

  /** The session is recovering `user` by backup codes. */
  predicate RecoversByCode(sys: System, sid: nat, user: string) {
    && sid in sys.sessions && sys.sessions[sid].recovery.Some?
    && sys.sessions[sid].recovery.value.means == Some(Recovery.BackupCodes) && sys.sessions[sid].recovery.value.account.id == user
  }

  predicate Usable(record: Option<Recovery.Record>, now: int) {
    && record.Some? && record.value.backupCodes.Some?
    && !(record.value.lockout.Some? && record.value.lockout.value.lockedUntil.Some? && now < record.value.lockout.value.lockedUntil.value)
  }

  /** A request can happen unless it would use a backup code behind the record's back, or match a code that is not stored. */
  lemma EnabledIff(sys: System, step: Step)
    ensures Enabled(sys, step) <==>
      match step
      case InSession(sid, request) => sid in sys.sessions && !(request.RecoverWith? && request.means == Recovery.BackupCodes)
      case OnRecord(user, change) => user in sys.records && !change.CodeUsed?
      case SubmitCode(sid, _, matched, _) =>
        && sid in sys.sessions
        && forall user :: user in sys.records && RecoversByCode(sys, sid, user) && matched.Some? ==>
             sys.records[user].Some? && sys.records[user].value.backupCodes.Some? && matched.value in sys.records[user].value.backupCodes.value
  {
    if step.SubmitCode? && step.sid in sys.sessions && Target(sys, step.sid).Some? {
      assert RecoversByCode(sys, step.sid, Target(sys, step.sid).value.id);
    }
  }

  /** A submitted code lets somebody in exactly when it is the user being recovered, unlocked, and a stored code matched. */
  lemma LetsInIff(sys: System, step: Step)
    requires Enabled(sys, step)
    ensures LetsIn(sys, step) <==>
      && step.SubmitCode? && !step.blank && step.matched.Some?
      && exists user :: user in sys.records && RecoversByCode(sys, step.sid, user) && Usable(sys.records[user], step.now)
  {
    if step.SubmitCode? && Target(sys, step.sid).Some? {
      assert RecoversByCode(sys, step.sid, Target(sys, step.sid).value.id);
    }
  }

  /** A step changes the record of one user at most: the one it names, or the one being recovered. */
  lemma RecordsAfter(settings: LoginSession.Settings, sys: System, step: Step, user: string)
    requires Enabled(sys, step) && user in sys.records
    ensures user in Apply(settings, sys, step).records
    ensures Apply(settings, sys, step).records[user] ==
      if step.OnRecord? && step.user == user then Recovery.Apply(sys.records[user], step.change)
      else if step.SubmitCode? && !step.blank && RecoversByCode(sys, step.sid, user)
      then Recovery.Apply(sys.records[user], Recovery.CodeUsed(step.matched, step.now))
      else sys.records[user]
  {
  }

  /** And one session at most: the one the request came in; a code is a recovery there, accepted if it lets in. */
  lemma SessionsAfter(settings: LoginSession.Settings, sys: System, step: Step, sid: nat)
    requires Enabled(sys, step) && sid in sys.sessions
    ensures sid in Apply(settings, sys, step).sessions
    ensures Apply(settings, sys, step).sessions[sid] ==
      if step.InSession? && step.sid == sid then LoginSession.Apply(settings, sys.sessions[sid], step.request)
      else if step.SubmitCode? && step.sid == sid
      then LoginSession.Apply(settings, sys.sessions[sid], LoginSession.RecoverWith(Recovery.BackupCodes, LetsIn(sys, step)))
      else sys.sessions[sid]
  {
  }
}
