/**
 One browser session through login, multi-factor verification, recovery and account
 switching. Verifiers and user lookups are oracles: their answers come with the step and
 are written to the session's history.
 */
module LoginSession {
  import opened Wrappers
  import Recovery
  type RecoveryMethod = Recovery.RecoveryMethod

  datatype MfaMethod = Totp | EmailCode | WebAuthn

  datatype Account = Account(id: string, username: string)

  /** The user record as a lookup returned it. */
  datatype UserRecord = UserRecord(account: Account, mfaEnabled: bool, methods: seq<MfaMethod>, preferred: Option<MfaMethod>)

  /** The `pendingMfaUser` and `pendingSocialMfaUser` session values. */
  datatype Pending = Pending(account: Account, mfaMethod: Option<MfaMethod>, enabled: seq<MfaMethod>)

  datatype AuthUsers = AuthUsers(active: Account, others: seq<Account>)

  datatype Via = ByPassword | BySocial | ByRegistration | ByMfa(factor: MfaMethod) | ByRecovery

  datatype Event =
    | FirstFactor(account: Account, mfaEnabled: bool)
    | SecondFactor(account: Account, factor: MfaMethod)
    | AccountCreated(account: Account)
    | RecoveryRequested(account: Account)
    | RecoveryProof(account: Account, means: RecoveryMethod)
    | Authenticated(account: Account, via: Via)
    | SessionEnded

  /** The `recoveryAttempt` session value: whom to recover, by what, and whether an SMS code is out. */
  datatype RecoveryAttempt = RecoveryAttempt(account: Account, available: seq<RecoveryMethod>, means: Option<RecoveryMethod>, smsSent: bool)

  datatype Session = Session(
    pendingMfa: Option<Pending>,
    pendingSocialMfa: Option<Pending>,
    users: Option<AuthUsers>,
    marked: bool,
    challenge: Option<string>,
    linkIntent: bool,
    recovery: Option<RecoveryAttempt>,
    emailCode: Option<Account>,
    log: seq<Event>)

  datatype Settings = Settings(multipleAccounts: bool, maxAccounts: nat, reauthOnSwitch: bool)

  // ---------- The session manager's account list ----------

  predicate SameAccount(a: Account, b: Account) {
    a.id == b.id || a.username == b.username
  }

  predicate Named(a: Account) {
    !Blank(a.id) && !Blank(a.username)
  }

  function RemoveFirst(accounts: seq<Account>, a: Account): seq<Account> {
    if accounts == [] then []
    else if SameAccount(accounts[0], a) then accounts[1..]
    else [accounts[0]] + RemoveFirst(accounts[1..], a)
  }

  lemma {:induction false} RemoveFirstAt(accounts: seq<Account>, a: Account, index: nat)
    requires index <= |accounts| && forall j :: 0 <= j < index ==> !SameAccount(accounts[j], a)
    requires index < |accounts| ==> SameAccount(accounts[index], a)
    ensures RemoveFirst(accounts, a) == if index < |accounts| then accounts[..index] + accounts[index + 1..] else accounts
    decreases index
  {
    if 0 < index {
      RemoveFirstAt(accounts[1..], a, index - 1);
      if index < |accounts| {
        assert accounts[..index] == [accounts[0]] + accounts[1..][..index - 1];
        assert accounts[index + 1..] == accounts[1..][index..];
      }
    }
  }

  /** `setAuthenticated` on the account list. */
  function Activate(users: Option<AuthUsers>, a: Account, settings: Settings): AuthUsers {
    if users.None? || !settings.multipleAccounts then AuthUsers(a, [])
    else
      var rest := RemoveFirst(users.value.others, a);
      AuthUsers(a, if SameAccount(users.value.active, a) then rest else rest + [users.value.active])
  }

  datatype AddOutcome = Added | MultiAccountDisabled | AlreadyExists | LimitReached

  function AddCheck(users: Option<AuthUsers>, a: Account, settings: Settings): AddOutcome {
    if users.None? then Added
    else if !settings.multipleAccounts then MultiAccountDisabled
    else if SameAccount(users.value.active, a) || (exists o :: o in users.value.others && SameAccount(o, a)) then AlreadyExists
    else if 1 + |users.value.others| >= (if settings.maxAccounts == 0 then 5 else settings.maxAccounts) then LimitReached
    else Added
  }

  /** `addAuthenticatedUser` with the new account made active. */
  function Add(users: Option<AuthUsers>, a: Account, settings: Settings): Option<AuthUsers> {
    if !AddCheck(users, a, settings).Added? then users
    else if users.None? then Some(AuthUsers(a, []))
    else Some(AuthUsers(a, users.value.others + [users.value.active]))
  }

  function SwitchIndex(others: seq<Account>, target: string): nat {
    if others == [] || others[0].id == target || others[0].username == target then 0
    else 1 + SwitchIndex(others[1..], target)
  }

  /** `switchUser`: swaps the first matching account with the active one. */
  function Switch(users: AuthUsers, target: string): AuthUsers {
    var i := SwitchIndex(users.others, target);
    if i < |users.others| then AuthUsers(users.others[i], users.others[..i] + users.others[i + 1..] + [users.active]) else users
  }

  // ---------- Handlers ----------

  function Log(s: Session, e: Event): Session {
    s.(log := s.log + [e])
  }

  /** `setAuthenticated`, which throws on a blank id or username. */
  function SetAuthenticated(s: Session, a: Account, via: Via, settings: Settings): Session
  {
    if !Named(a) then s
    else Log(s.(users := Some(Activate(s.users, a, settings)), marked := true), Authenticated(a, via))
  }

  function AddAuthenticated(s: Session, a: Account, via: Via, settings: Settings): Session {
    if AddCheck(s.users, a, settings).Added?
    then Log(s.(users := Add(s.users, a, settings)), Authenticated(a, via))
    else s
  }

  function PreferredMethod(u: UserRecord): Option<MfaMethod> {
    if u.methods == [] then None
    else if u.preferred.Some? && u.preferred.value in u.methods then u.preferred
    else Some(u.methods[0])
  }

  function PendingOf(u: UserRecord): Pending {
    Pending(u.account, PreferredMethod(u), u.methods)
  }

  /** Where the login came from decides how the account joins the session. */
  datatype Flow = AddingAccount | Continuing | Plain

  /** `processLogin` once the credentials were accepted for `u`. */
  function ProcessLogin(s: Session, u: UserRecord, flow: Flow, settings: Settings): Session {
    var s1 := Log(s, FirstFactor(u.account, u.mfaEnabled));
    if u.mfaEnabled then s1.(pendingMfa := Some(PendingOf(u)))
    else if flow.AddingAccount? then AddAuthenticated(s1, u.account, ByPassword, settings)
    else if flow.Continuing? && AddCheck(s.users, u.account, settings).LimitReached? then s1
    else SetAuthenticated(s1, u.account, ByPassword, settings)
  }

  /** `socialCallback` once the provider was accepted for `u`; an explicit link request never signs in. */
  function SocialCallback(s: Session, u: UserRecord, needsPhone: bool, flow: Flow, settings: Settings): Session {
    if s.linkIntent then s.(linkIntent := false)
    else if needsPhone then s
    else
      var s1 := Log(s, FirstFactor(u.account, u.mfaEnabled));
      if u.mfaEnabled then s1.(pendingSocialMfa := Some(PendingOf(u)))
      else if flow.Plain? then SetAuthenticated(s1, u.account, BySocial, settings)
      else AddAuthenticated(s1, u.account, BySocial, settings)
  }

  function PendingUser(s: Session): Option<Pending> {
    if s.pendingMfa.Some? then s.pendingMfa else s.pendingSocialMfa
  }

  /** `processMfaSelect`; the pending object is changed in place, and stored under the first key. */
  function ProcessMfaSelect(s: Session, factor: MfaMethod): Session {
    var pending := PendingUser(s);
    if pending.None? || factor !in pending.value.enabled then s
    else
      var chosen := Some(pending.value.(mfaMethod := Some(factor)));
      s.(pendingMfa := chosen, pendingSocialMfa := if s.pendingMfa.None? then chosen else s.pendingSocialMfa)
  }

  function DropPending(s: Session): Session {
    s.(pendingMfa := None, pendingSocialMfa := None)
  }

  /** `processMfaVerify`: `accepted` is the verifier's answer for the pending user and the submitted code. */
  function ProcessMfaVerify(s: Session, codeGiven: bool, accepted: bool, settings: Settings): Session {
    var pending := PendingUser(s);
    if pending.None? || !codeGiven || pending.value.mfaMethod.None? || pending.value.mfaMethod.value.WebAuthn? || !accepted then s
    else
      var a, factor := pending.value.account, pending.value.mfaMethod.value;
      var s1 := Log(s, SecondFactor(a, factor));
      if Named(a) then DropPending(SetAuthenticated(s1, a, ByMfa(factor), settings)) else s1
  }

  /** `processMfaWebAuthn`: the assertion is checked against a credential of the pending user. */
  function ProcessMfaWebAuthn(s: Session, credentialMatches: bool, accepted: bool, settings: Settings): Session {
    var pending := PendingUser(s);
    if pending.None? || s.challenge.None? || s.challenge.value == "" || !credentialMatches || !accepted then s
    else
      var a := pending.value.account;
      var s1 := Log(s.(challenge := None), SecondFactor(a, WebAuthn));
      DropPending(AddAuthenticated(s1, a, ByMfa(WebAuthn), settings))
  }

  /** `verifyAuthentication` of the WebAuthn controller, once the assertion was accepted. */
  function VerifyAuthentication(s: Session, accepted: bool, settings: Settings): Session {
    var pending := PendingUser(s);
    if pending.None? || !accepted then s
    else
      var a := pending.value.account;
      var s1 := Log(s, SecondFactor(a, WebAuthn));
      if Named(a) then DropPending(SetAuthenticated(s1, a, ByMfa(WebAuthn), settings)) else s1
  }

  // ---------- Account recovery ----------

  /** `processAccountRecovery` once a user with available methods was found. */
  function StartRecovery(s: Session, a: Account, available: seq<RecoveryMethod>): Session {
    if available == [] then s
    else Log(s.(recovery := Some(RecoveryAttempt(a, available, None, false))), RecoveryRequested(a))
  }

  /** `processRecoveryMethodSelect`. */
  function SelectRecovery(s: Session, means: RecoveryMethod): Session {
    if s.recovery.None? || means !in s.recovery.value.available then s
    else s.(recovery := Some(s.recovery.value.(means := Some(means))))
  }

  predicate Recovering(s: Session, means: RecoveryMethod) {
    s.recovery.Some? && s.recovery.value.means == Some(means)
  }

  /** `processRecoverySms`: the code went out. */
  function SmsCodeSent(s: Session): Session {
    if Recovering(s, Recovery.Sms) then s.(recovery := Some(s.recovery.value.(smsSent := true))) else s
  }

  /** `processRecoverySecondaryEmail`: the code went out to the address of the user being recovered. */
  function EmailCodeSent(s: Session): Session {
    if Recovering(s, Recovery.SecondaryEmail) then s.(emailCode := Some(s.recovery.value.account)) else s
  }

  /** The end of a recovery: the key goes, and the user is signed in. */
  function FinishRecovery(s: Session, a: Account, means: RecoveryMethod, settings: Settings): Session {
    SetAuthenticated(Log(s.(recovery := None), RecoveryProof(a, means)), a, ByRecovery, settings)
  }

  /** `processRecoveryBackupCodes` and `processRecoverySecurityQuestions`. */
  function Recover(s: Session, means: RecoveryMethod, accepted: bool, settings: Settings): Session {
    if !Recovering(s, means) || !accepted then s
    else FinishRecovery(s, s.recovery.value.account, means, settings)
  }

  datatype Answer = Accepted | Denied | Expired

  /** `processRecoveryVerifyCode`: an SMS code that is out takes precedence over an emailed one. */
  function VerifyRecoveryCode(s: Session, answer: Answer, settings: Settings): Session {
    if Recovering(s, Recovery.Sms) && s.recovery.value.smsSent then
      Recover(s, Recovery.Sms, answer.Accepted?, settings)
    else if s.emailCode.None? || answer.Denied? then s
    else if answer.Expired? then s.(emailCode := None)
    else FinishRecovery(s.(emailCode := None), s.emailCode.value, Recovery.SecondaryEmail, settings)
  }

  predicate Mentions(e: Event, a: Account) {
    !e.SessionEnded? && e.account.id == a.id
  }

  /** Nothing is known of the account before `end`. */
  predicate Unheard(log: seq<Event>, end: nat, a: Account)
    requires end <= |log|
  {
    forall j :: 0 <= j < end ==> !Mentions(log[j], a)
  }

  /** `processRegister` once the user store created the account; it never gives out an id again. */
  function Register(s: Session, a: Account, settings: Settings): Session {
    if !Unheard(s.log, |s.log|, a) then s
    else SetAuthenticated(Log(s, AccountCreated(a)), a, ByRegistration, settings)
  }

  /** A new session; the history goes on. */
  function End(s: Session): Session {
    Log(Session(None, None, None, false, None, false, None, None, s.log), SessionEnded)
  }

  datatype Step =
    | Login(user: UserRecord, flow: Flow)
    | Social(user: UserRecord, needsPhone: bool, flow: Flow)
    | SelectMethod(factor: MfaMethod)
    | VerifyCode(codeGiven: bool, accepted: bool)
    | WebAuthnOptions(challenge: string)
    | VerifyAssertion(credentialMatches: bool, accepted: bool)
    | VerifyPasskey(accepted: bool)
    | RequestRecovery(account: Account, available: seq<RecoveryMethod>)
    | SelectRecoveryMethod(means: RecoveryMethod)
    | RecoverySmsSent
    | RecoveryEmailSent
    | RecoverWith(means: RecoveryMethod, accepted: bool)
    | VerifyRecovery(answer: Answer)
    | Registered(account: Account)
    | RequestLink
    | SwitchAccount(target: string)
    | Destroyed

  function Apply(settings: Settings, s: Session, step: Step): Session {
    match step
    case Login(u, flow) => ProcessLogin(s, u, flow, settings)
    case Social(u, needsPhone, flow) => SocialCallback(s, u, needsPhone, flow, settings)
    case SelectMethod(factor) => ProcessMfaSelect(s, factor)
    case VerifyCode(codeGiven, accepted) => ProcessMfaVerify(s, codeGiven, accepted, settings)
    case WebAuthnOptions(challenge) => if PendingUser(s).None? then s else s.(challenge := Some(challenge))
    case VerifyAssertion(credentialMatches, accepted) => ProcessMfaWebAuthn(s, credentialMatches, accepted, settings)
    case VerifyPasskey(accepted) => VerifyAuthentication(s, accepted, settings)
    case RequestRecovery(a, available) => StartRecovery(s, a, available)
    case SelectRecoveryMethod(means) => SelectRecovery(s, means)
    case RecoverySmsSent => SmsCodeSent(s)
    case RecoveryEmailSent => EmailCodeSent(s)
    case RecoverWith(means, accepted) => Recover(s, means, accepted, settings)
    case VerifyRecovery(answer) => VerifyRecoveryCode(s, answer, settings)
    case Registered(a) => Register(s, a, settings)
    case RequestLink => s.(linkIntent := true)
    case SwitchAccount(target) =>
      if s.users.None? || settings.reauthOnSwitch then s else s.(users := Some(Switch(s.users.value, target)))
    case Destroyed => End(s)
  }

  function Fresh(): Session {
    Session(None, None, None, false, None, false, None, None, [])
  }

  // ---------- What the history must show ----------

  /** What ends the force of an earlier event. */
  datatype Scope =
    | InSession   // the session it happened in
    | UntilMfa    // that session, or an MFA sign-in
    | UntilProof  // that session, a newer recovery request, or a completed recovery

  predicate Ends(scope: Scope, e: Event) {
    || e.SessionEnded?
    || (scope.UntilMfa? && e.Authenticated? && e.via.ByMfa?)
    || (scope.UntilProof? && (e.RecoveryRequested? || e.RecoveryProof?))
  }

  /** `e` happened before `end`, and nothing since has ended its force. */
  ghost predicate Standing(log: seq<Event>, end: nat, e: Event, scope: Scope)
    requires end <= |log|
  {
    exists j :: 0 <= j < end && log[j] == e && forall k :: j < k < end ==> !Ends(scope, log[k])
  }

  /** How an authentication at position `i` must be explained by what came before it. */
  ghost predicate Explained(log: seq<Event>, i: nat)
    requires i < |log|
  {
    match log[i]
    case Authenticated(a, ByPassword) => i > 0 && log[i - 1] == FirstFactor(a, false)
    case Authenticated(a, BySocial) => i > 0 && log[i - 1] == FirstFactor(a, false)
    case Authenticated(a, ByMfa(factor)) =>
      i > 0 && log[i - 1] == SecondFactor(a, factor) && Standing(log, i - 1, FirstFactor(a, true), UntilMfa)
    case Authenticated(a, ByRecovery) =>
      && i > 0 && log[i - 1].RecoveryProof? && log[i - 1].account == a
      && Standing(log, i - 1, RecoveryRequested(a), if log[i - 1].means.SecondaryEmail? then InSession else UntilProof)
    case Authenticated(a, ByRegistration) =>
      i > 0 && log[i - 1] == AccountCreated(a) && Unheard(log, i - 1, a)
    case _ => true
  }

  /** The account was signed in during the current session. */
  ghost predicate WasAuthenticated(log: seq<Event>, a: Account) {
    exists via :: Standing(log, |log|, Authenticated(a, via), InSession)
  }

  ghost predicate PendingOk(log: seq<Event>, pending: Option<Pending>) {
    pending.Some? ==> Standing(log, |log|, FirstFactor(pending.value.account, true), UntilMfa)
  }

  ghost predicate RecoveryOk(log: seq<Event>, recovery: Option<RecoveryAttempt>, emailCode: Option<Account>) {
    && (recovery.Some? ==> Standing(log, |log|, RecoveryRequested(recovery.value.account), UntilProof))
    && (emailCode.Some? ==> Standing(log, |log|, RecoveryRequested(emailCode.value), InSession))
  }

  ghost predicate UsersOk(log: seq<Event>, users: Option<AuthUsers>) {
    users.Some? ==> WasAuthenticated(log, users.value.active) && forall a :: a in users.value.others ==> WasAuthenticated(log, a)
  }

  ghost predicate LogOk(log: seq<Event>) {
    forall i :: 0 <= i < |log| ==> Explained(log, i)
  }

  ghost predicate Inv(s: Session) {
    && LogOk(s.log)
    && PendingOk(s.log, s.pendingMfa)
    && PendingOk(s.log, s.pendingSocialMfa)
    && RecoveryOk(s.log, s.recovery, s.emailCode)
    && UsersOk(s.log, s.users)
    && (s.marked ==> s.users.Some?)
  }

  lemma StandingInPrefix(log: seq<Event>, end: nat, e: Event, scope: Scope, next: Event)
    requires end <= |log| && Standing(log, end, e, scope)
    ensures Standing(log + [next], end, e, scope)
  {
    var j :| 0 <= j < end && log[j] == e && forall k :: j < k < end ==> !Ends(scope, log[k]);
    assert (log + [next])[j] == e;
  }

  lemma StandingAfter(log: seq<Event>, e: Event, scope: Scope, next: Event)
    ensures Standing(log, |log|, e, scope) && !Ends(scope, next) ==> Standing(log + [next], |log| + 1, e, scope)
    ensures Standing(log + [next], |log| + 1, next, scope)
  {
    if Standing(log, |log|, e, scope) && !Ends(scope, next) {
      var j :| 0 <= j < |log| && log[j] == e && forall k :: j < k < |log| ==> !Ends(scope, log[k]);
      assert (log + [next])[j] == e;
    }
    assert (log + [next])[|log|] == next;
  }

  lemma ExplainedStays(log: seq<Event>, e: Event)
    requires LogOk(log) && Explained(log + [e], |log|)
    ensures LogOk(log + [e])
  {
    var log' := log + [e];
    forall i | 0 <= i < |log'|
      ensures Explained(log', i)
    {
      if i < |log| {
        assert log'[i] == log[i] && Explained(log, i) && (i > 0 ==> log'[i - 1] == log[i - 1]);
        if i > 0 {
          var end: nat := i - 1;
          assert forall a :: Unheard(log, end, a) ==> Unheard(log', end, a);
          forall x, scope | Standing(log, end, x, scope)
            ensures Standing(log', end, x, scope)
          {
            StandingInPrefix(log, end, x, scope, e);
          }
        }
      }
    }
  }

  lemma UsersStay(log: seq<Event>, e: Event, users: Option<AuthUsers>)
    requires UsersOk(log, users) && (e.SessionEnded? ==> users.None?)
    ensures UsersOk(log + [e], users)
  {
    forall a | WasAuthenticated(log, a) && !e.SessionEnded?
      ensures WasAuthenticated(log + [e], a)
    {
      var via :| Standing(log, |log|, Authenticated(a, via), InSession);
      StandingAfter(log, Authenticated(a, via), InSession, e);
    }
  }

  lemma PendingStays(log: seq<Event>, e: Event, pending: Option<Pending>)
    requires PendingOk(log, pending) && (Ends(UntilMfa, e) ==> pending.None?)
    ensures PendingOk(log + [e], pending)
  {
    if pending.Some? {
      StandingAfter(log, FirstFactor(pending.value.account, true), UntilMfa, e);
    }
  }

  lemma RecoveryStays(log: seq<Event>, e: Event, recovery: Option<RecoveryAttempt>, emailCode: Option<Account>)
    requires RecoveryOk(log, recovery, emailCode)
    requires (Ends(UntilProof, e) ==> recovery.None?) && (e.SessionEnded? ==> emailCode.None?)
    ensures RecoveryOk(log + [e], recovery, emailCode)
  {
    if recovery.Some? {
      StandingAfter(log, RecoveryRequested(recovery.value.account), UntilProof, e);
    }
    if emailCode.Some? {
      StandingAfter(log, RecoveryRequested(emailCode.value), InSession, e);
    }
  }

  /** An event may be logged once nothing is left that it puts an end to. */
  lemma LogKeepsInv(s: Session, e: Event)
    requires Inv(s) && Explained(s.log + [e], |s.log|)
    requires Ends(UntilMfa, e) ==> PendingUser(s).None?
    requires Ends(UntilProof, e) ==> s.recovery.None?
    requires e.SessionEnded? ==> s.emailCode.None? && s.users.None?
    ensures Inv(Log(s, e))
  {
    ExplainedStays(s.log, e);
    PendingStays(s.log, e, s.pendingMfa);
    PendingStays(s.log, e, s.pendingSocialMfa);
    RecoveryStays(s.log, e, s.recovery, s.emailCode);
    UsersStay(s.log, e, s.users);
  }

  ghost predicate KnownIn(users: Option<AuthUsers>, a: Account) {
    users.Some? && (users.value.active == a || a in users.value.others)
  }

  lemma {:induction false} RemoveFirstShrinks(accounts: seq<Account>, a: Account, x: Account)
    ensures x in RemoveFirst(accounts, a) ==> x in accounts
  {
    if accounts != [] && !SameAccount(accounts[0], a) {
      RemoveFirstShrinks(accounts[1..], a, x);
    }
  }

  /** No account enters the list but the one being authenticated. */
  lemma OnlyAccountAdded(users: Option<AuthUsers>, a: Account, settings: Settings, x: Account)
    ensures KnownIn(Some(Activate(users, a, settings)), x) ==> x == a || KnownIn(users, x)
    ensures KnownIn(Add(users, a, settings), x) ==> x == a || KnownIn(users, x)
  {
    if users.Some? {
      RemoveFirstShrinks(users.value.others, a, x);
    }
  }

  lemma SwitchKeepsAccounts(users: AuthUsers, target: string, x: Account)
    ensures KnownIn(Some(Switch(users, target)), x) ==> KnownIn(Some(users), x)
  {
  }

  lemma AuthenticateKeepsInv(s: Session, a: Account, via: Via, users: Option<AuthUsers>, marked: bool)
    requires Inv(s) && Explained(s.log + [Authenticated(a, via)], |s.log|)
    requires via.ByMfa? ==> PendingUser(s).None?
    requires users.Some? && forall x :: KnownIn(users, x) ==> x == a || KnownIn(s.users, x)
    ensures Inv(Log(s.(users := users, marked := marked), Authenticated(a, via)))
  {
    var e := Authenticated(a, via);
    LogKeepsInv(s, e);
    var s1 := Log(s, e);
    StandingAfter(s.log, e, InSession, e);
    assert WasAuthenticated(s1.log, a);
    forall x | KnownIn(users, x)
      ensures WasAuthenticated(s1.log, x)
    {
      if x != a {
        assert KnownIn(s1.users, x);
      }
    }
    assert KnownIn(users, users.value.active);
    assert forall x :: x in users.value.others ==> KnownIn(users, x);
  }

  lemma SetAuthenticatedKeepsInv(s: Session, a: Account, via: Via, settings: Settings)
    requires Inv(s) && Explained(s.log + [Authenticated(a, via)], |s.log|)
    requires via.ByMfa? ==> PendingUser(s).None?
    ensures Inv(SetAuthenticated(s, a, via, settings)) && Inv(AddAuthenticated(s, a, via, settings))
  {
    forall x
      ensures KnownIn(Some(Activate(s.users, a, settings)), x) ==> x == a || KnownIn(s.users, x)
      ensures KnownIn(Add(s.users, a, settings), x) ==> x == a || KnownIn(s.users, x)
    {
      OnlyAccountAdded(s.users, a, settings, x);
    }
    AuthenticateKeepsInv(s, a, via, Some(Activate(s.users, a, settings)), true);
    if AddCheck(s.users, a, settings).Added? {
      AuthenticateKeepsInv(s, a, via, Add(s.users, a, settings), s.marked);
    }
  }

  lemma LoginKeepsInv(settings: Settings, s: Session, step: Step)
    requires Inv(s) && (step.Login? || step.Social?)
    ensures Inv(Apply(settings, s, step))
  {
    var e := FirstFactor(step.user.account, step.user.mfaEnabled);
    LogKeepsInv(s, e);
    var s1 := Log(s, e);
    StandingAfter(s.log, e, UntilMfa, e);
    assert s1.log[|s1.log| - 1] == e;
    if !step.user.mfaEnabled {
      var via := if step.Login? then ByPassword else BySocial;
      assert (s1.log + [Authenticated(step.user.account, via)])[|s1.log| - 1] == e;
      SetAuthenticatedKeepsInv(s1, step.user.account, via, settings);
    }
  }

  /** After the second factor, the pending users go and the sign-in is explained. */
  lemma SecondFactorKeepsInv(settings: Settings, s: Session, s0: Session, factor: MfaMethod)
    requires Inv(s0) && s == s0.(challenge := s.challenge) && PendingUser(s0).Some?
    ensures var a := PendingUser(s0).value.account;
            var s1 := Log(s, SecondFactor(a, factor));
            && Inv(s1)
            && Inv(SetAuthenticated(DropPending(s1), a, ByMfa(factor), settings))
            && Inv(AddAuthenticated(DropPending(s1), a, ByMfa(factor), settings))
  {
    var a := PendingUser(s0).value.account;
    var e := SecondFactor(a, factor);
    LogKeepsInv(s, e);
    var s1 := Log(s, e);
    assert Standing(s.log, |s.log|, FirstFactor(a, true), UntilMfa);
    StandingInPrefix(s.log, |s.log|, FirstFactor(a, true), UntilMfa, e);
    StandingInPrefix(s1.log, |s.log|, FirstFactor(a, true), UntilMfa, Authenticated(a, ByMfa(factor)));
    assert (s1.log + [Authenticated(a, ByMfa(factor))])[|s.log|] == e;
    SetAuthenticatedKeepsInv(DropPending(s1), a, ByMfa(factor), settings);
  }

  lemma VerifyCodeKeepsInv(settings: Settings, s: Session, codeGiven: bool, accepted: bool)
    requires Inv(s)
    ensures Inv(ProcessMfaVerify(s, codeGiven, accepted, settings))
  {
    if PendingUser(s).Some? && PendingUser(s).value.mfaMethod.Some? {
      SecondFactorKeepsInv(settings, s, s, PendingUser(s).value.mfaMethod.value);
    }
  }

  lemma VerifyAssertionKeepsInv(settings: Settings, s: Session, credentialMatches: bool, accepted: bool)
    requires Inv(s)
    ensures Inv(ProcessMfaWebAuthn(s, credentialMatches, accepted, settings))
  {
    if PendingUser(s).Some? {
      SecondFactorKeepsInv(settings, s.(challenge := None), s, WebAuthn);
    }
  }

  lemma VerifyPasskeyKeepsInv(settings: Settings, s: Session, accepted: bool)
    requires Inv(s)
    ensures Inv(VerifyAuthentication(s, accepted, settings))
  {
    if PendingUser(s).Some? {
      SecondFactorKeepsInv(settings, s, s, WebAuthn);
    }
  }

  lemma StartRecoveryKeepsInv(s: Session, a: Account, available: seq<RecoveryMethod>)
    requires Inv(s)
    ensures Inv(StartRecovery(s, a, available))
  {
    var e := RecoveryRequested(a);
    LogKeepsInv(s.(recovery := None), e);
    StandingAfter(s.log, e, UntilProof, e);
  }

  lemma FinishRecoveryKeepsInv(settings: Settings, s: Session, a: Account, means: RecoveryMethod)
    requires Inv(s)
    requires Standing(s.log, |s.log|, RecoveryRequested(a), if means.SecondaryEmail? then InSession else UntilProof)
    ensures Inv(FinishRecovery(s, a, means, settings))
  {
    var e, scope := RecoveryProof(a, means), if means.SecondaryEmail? then InSession else UntilProof;
    LogKeepsInv(s.(recovery := None), e);
    var s1 := Log(s.(recovery := None), e);
    StandingInPrefix(s.log, |s.log|, RecoveryRequested(a), scope, e);
    StandingInPrefix(s1.log, |s.log|, RecoveryRequested(a), scope, Authenticated(a, ByRecovery));
    assert (s1.log + [Authenticated(a, ByRecovery)])[|s.log|] == e;
    SetAuthenticatedKeepsInv(s1, a, ByRecovery, settings);
  }

  lemma StandingWeaker(log: seq<Event>, e: Event, scope: Scope)
    requires Standing(log, |log|, e, scope)
    ensures Standing(log, |log|, e, InSession)
  {
    var j :| 0 <= j < |log| && log[j] == e && forall k :: j < k < |log| ==> !Ends(scope, log[k]);
    assert forall k :: j < k < |log| && Ends(InSession, log[k]) ==> Ends(scope, log[k]);
  }

  lemma RecoverKeepsInv(settings: Settings, s: Session, means: RecoveryMethod, accepted: bool)
    requires Inv(s)
    ensures Inv(Recover(s, means, accepted, settings))
  {
    if Recovering(s, means) {
      StandingWeaker(s.log, RecoveryRequested(s.recovery.value.account), UntilProof);
      FinishRecoveryKeepsInv(settings, s, s.recovery.value.account, means);
    }
  }

  lemma VerifyRecoveryKeepsInv(settings: Settings, s: Session, answer: Answer)
    requires Inv(s)
    ensures Inv(VerifyRecoveryCode(s, answer, settings))
  {
    RecoverKeepsInv(settings, s, Recovery.Sms, answer.Accepted?);
    if s.emailCode.Some? {
      FinishRecoveryKeepsInv(settings, s.(emailCode := None), s.emailCode.value, Recovery.SecondaryEmail);
    }
  }

  lemma RegisterKeepsInv(settings: Settings, s: Session, a: Account)
    requires Inv(s)
    ensures Inv(Register(s, a, settings))
  {
    if Unheard(s.log, |s.log|, a) {
      LogKeepsInv(s, AccountCreated(a));
      var s1 := Log(s, AccountCreated(a));
      var log := s1.log + [Authenticated(a, ByRegistration)];
      assert log[|s.log|] == AccountCreated(a) && Unheard(log, |s.log|, a);
      SetAuthenticatedKeepsInv(s1, a, ByRegistration, settings);
    }
  }

  lemma SwitchKeepsInv(s: Session, target: string)
    requires Inv(s) && s.users.Some?
    ensures Inv(s.(users := Some(Switch(s.users.value, target))))
  {
    var users := Switch(s.users.value, target);
    forall x | KnownIn(Some(users), x)
      ensures WasAuthenticated(s.log, x)
    {
      SwitchKeepsAccounts(s.users.value, target, x);
    }
    assert KnownIn(Some(users), users.active) && forall x :: x in users.others ==> KnownIn(Some(users), x);
  }

  lemma {:induction false} StepKeepsInv(settings: Settings, s: Session, step: Step)
    requires Inv(s)
    ensures Inv(Apply(settings, s, step))
  {
    match step
    case Login(_, _) => LoginKeepsInv(settings, s, step);
    case Social(_, _, _) => LoginKeepsInv(settings, s, step);
    case VerifyCode(codeGiven, accepted) => VerifyCodeKeepsInv(settings, s, codeGiven, accepted);
    case VerifyAssertion(credentialMatches, accepted) => VerifyAssertionKeepsInv(settings, s, credentialMatches, accepted);
    case VerifyPasskey(accepted) => VerifyPasskeyKeepsInv(settings, s, accepted);
    case RequestRecovery(a, available) => StartRecoveryKeepsInv(s, a, available);
    case RecoveryEmailSent =>
      if s.recovery.Some? {
        StandingWeaker(s.log, RecoveryRequested(s.recovery.value.account), UntilProof);
      }
    case RecoverWith(means, accepted) => RecoverKeepsInv(settings, s, means, accepted);
    case VerifyRecovery(answer) => VerifyRecoveryKeepsInv(settings, s, answer);
    case Registered(a) => RegisterKeepsInv(settings, s, a);
    case SwitchAccount(target) =>
      if s.users.Some? {
        SwitchKeepsInv(s, target);
      }
    case Destroyed => LogKeepsInv(Session(None, None, None, false, None, false, None, None, s.log), SessionEnded);
    case _ =>
  }

  // ---------- Over whole runs ----------

  function Run(settings: Settings, s: Session, steps: seq<Step>): Session
    decreases |steps|
  {
    if steps == [] then s else Run(settings, Apply(settings, s, steps[0]), steps[1..])
  }

  lemma {:induction false} RunKeepsInv(settings: Settings, s: Session, steps: seq<Step>)
    requires Inv(s)
    ensures Inv(Run(settings, s, steps))
    decreases |steps|
  {
    if steps != [] {
      StepKeepsInv(settings, s, steps[0]);
      RunKeepsInv(settings, Apply(settings, s, steps[0]), steps[1..]);
    }
  }

  /**
   Safety of every run. Whoever an MFA step signs in had their own second factor accepted just
   then, and their own first factor earlier in the same session, with no MFA sign-in since.
   `processLogin` and `socialCallback` alone sign in only users without MFA. Whoever a recovery
   signs in is the user it was last requested for in the same session; only an emailed code may
   be older than the last request. Registration signs in a user never heard of before.
   */
  lemma EveryLoginIsExplained(settings: Settings, steps: seq<Step>, i: nat)
    requires i < |Run(settings, Fresh(), steps).log|
    ensures Explained(Run(settings, Fresh(), steps).log, i)
  {
    RunKeepsInv(settings, Fresh(), steps);
  }

  /** Every account in the session, active or not, was signed in during it by an explained event. */
  lemma EveryAccountWasAuthenticated(settings: Settings, steps: seq<Step>, a: Account)
    requires KnownIn(Run(settings, Fresh(), steps).users, a)
    ensures WasAuthenticated(Run(settings, Fresh(), steps).log, a)
    ensures LogOk(Run(settings, Fresh(), steps).log)
  {
    RunKeepsInv(settings, Fresh(), steps);
  }

  // ---------- One first factor, one MFA login ----------

  /** How often the user's first factor was accepted with MFA still to come. */
  function FirstFactors(log: seq<Event>, a: Account): nat {
    if log == [] then 0
    else FirstFactors(log[..|log| - 1], a) + (if log[|log| - 1] == FirstFactor(a, true) then 1 else 0)
  }

  function MfaLogins(log: seq<Event>, a: Account): nat {
    if log == [] then 0
    else
      var e := log[|log| - 1];
      MfaLogins(log[..|log| - 1], a) + (if e.Authenticated? && e.via.ByMfa? && e.account == a then 1 else 0)
  }

  lemma {:induction false} CountsBetween(log: seq<Event>, a: Account, j: nat, i: nat)
    requires j <= i <= |log|
    ensures FirstFactors(log[..j], a) <= FirstFactors(log[..i], a)
    ensures (forall k :: j <= k < i ==> !Ends(UntilMfa, log[k])) ==> MfaLogins(log[..i], a) == MfaLogins(log[..j], a)
    decreases i
  {
    if j < i {
      CountsBetween(log, a, j, i - 1);
      assert log[..i][..i - 1] == log[..i - 1];
    }
  }

  /** From a first factor up to `i`, with no MFA sign-in in between, only the payments grow. */
  lemma PaidSince(log: seq<Event>, a: Account, j: nat, i: nat)
    requires j < i <= |log| && log[j] == FirstFactor(a, true)
    requires forall k :: j < k < i ==> !Ends(UntilMfa, log[k])
    ensures MfaLogins(log[..i], a) == MfaLogins(log[..j], a)
    ensures FirstFactors(log[..i], a) >= FirstFactors(log[..j], a) + 1
  {
    assert log[..j + 1][..j] == log[..j];
    CountsBetween(log, a, j, i);
    CountsBetween(log, a, j + 1, i);
  }

  /** The first factor that an MFA sign-in at `i` rests on. */
  lemma FirstFactorOf(log: seq<Event>, a: Account, i: nat) returns (j: nat)
    requires i < |log| && Explained(log, i) && log[i].Authenticated? && log[i].via.ByMfa? && log[i].account == a
    ensures j < i && log[j] == FirstFactor(a, true) && forall k :: j < k < i ==> !Ends(UntilMfa, log[k])
  {
    var end: nat := i - 1;
    var at :| 0 <= at < end && log[at] == FirstFactor(a, true) && forall k :: at < k < end ==> !Ends(UntilMfa, log[k]);
    j := at;
  }

  /** Every accepted first factor of a user pays for at most one MFA sign-in, and of that user. */
  lemma {:induction false} MfaLoginsPaid(log: seq<Event>, a: Account, i: nat)
    requires LogOk(log) && i <= |log|
    ensures MfaLogins(log[..i], a) <= FirstFactors(log[..i], a)
    decreases i
  {
    if i > 0 {
      var e := log[i - 1];
      assert log[..i][..i - 1] == log[..i - 1];
      if e.Authenticated? && e.via.ByMfa? && e.account == a {
        var j := FirstFactorOf(log, a, i - 1);
        MfaLoginsPaid(log, a, j);
        PaidSince(log, a, j, i - 1);
      } else {
        MfaLoginsPaid(log, a, i - 1);
      }
    }
  }

  lemma MfaLoginsAreBounded(settings: Settings, steps: seq<Step>, a: Account)
    ensures var log := Run(settings, Fresh(), steps).log; MfaLogins(log, a) <= FirstFactors(log, a)
  {
    RunKeepsInv(settings, Fresh(), steps);
    var log := Run(settings, Fresh(), steps).log;
    MfaLoginsPaid(log, a, |log|);
    assert log[..|log|] == log;
  }
}
