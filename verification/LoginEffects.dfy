/**
 What each request may do to a session, told from the session's side: which answers of which
 verifiers put an event into the history, and what changes each key. The handlers are not named.
 */
module LoginEffects {
  import opened Wrappers
  import Recovery
  import opened LoginSession

  // ---------- What the answers are about ----------

  /** `p` is the user waiting for a second factor; a password login takes precedence over a social one. */
  predicate Awaits(s: Session, p: Pending) {
    s.pendingMfa == Some(p) || (s.pendingMfa.None? && s.pendingSocialMfa == Some(p))
  }

  /** A verifier was asked for the waiting user's own factor `f`, and accepted it. */
  predicate SecondFactorAccepted(s: Session, step: Step, p: Pending, f: MfaMethod) {
    && Awaits(s, p)
    && match step
       case VerifyCode(codeGiven, accepted) => accepted && codeGiven && p.mfaMethod == Some(f) && (f == Totp || f == EmailCode)
       case VerifyAssertion(credentialMatches, accepted) =>
         accepted && credentialMatches && f == WebAuthn && s.challenge.Some? && s.challenge.value != ""
       case VerifyPasskey(accepted) => accepted && f == WebAuthn
       case _ => false
  }

  /** A password, or an identity provider that was not asked for a mere link, was accepted for `u`. */
  predicate FirstFactorAccepted(s: Session, step: Step, u: UserRecord) {
    match step
    case Login(user, _) => user == u
    case Social(user, needsPhone, _) => user == u && !needsPhone && !s.linkIntent
    case _ => false
  }

  /** A recovery of `a` by `means` was under way in this session, and its answer was accepted. */
  predicate RecoveryAccepted(s: Session, step: Step, a: Account, means: RecoveryMethod) {
    match step
    case RecoverWith(m, accepted) =>
      accepted && m == means && s.recovery.Some? && s.recovery.value.account == a && s.recovery.value.means == Some(means)
    case VerifyRecovery(answer) =>
      && answer == Accepted
      && (if s.recovery.Some? && s.recovery.value.means == Some(Recovery.Sms) && s.recovery.value.smsSent
          then means == Recovery.Sms && s.recovery.value.account == a
          else means == Recovery.SecondaryEmail && s.emailCode == Some(a))
    case _ => false
  }

  /** Something other than white space. */
  predicate Visible(text: string) {
    exists i :: 0 <= i < |text| && text[i] != ' ' && !('\t' <= text[i] <= '\r')
  }

  predicate HasNames(a: Account) {
    Visible(a.id) && Visible(a.username)
  }

  predicate Listed(users: Option<AuthUsers>, a: Account) {
    users.Some? && (users.value.active == a || a in users.value.others)
  }

  predicate Clash(users: AuthUsers, a: Account) {
    || users.active.id == a.id || users.active.username == a.username
    || exists i :: 0 <= i < |users.others| && (users.others[i].id == a.id || users.others[i].username == a.username)
  }

  predicate AtLimit(users: AuthUsers, settings: Settings) {
    |users.others| + 1 >= if settings.maxAccounts == 0 then 5 else settings.maxAccounts
  }

  /** A further account may join the session. */
  predicate Room(users: Option<AuthUsers>, a: Account, settings: Settings) {
    users.Some? ==> settings.multipleAccounts && !Clash(users.value, a) && !AtLimit(users.value, settings)
  }

  /** A further account is kept out for the limit's sake alone. */
  predicate Crowded(users: Option<AuthUsers>, a: Account, settings: Settings) {
    users.Some? && settings.multipleAccounts && !Clash(users.value, a) && AtLimit(users.value, settings)
  }

  lemma NamedMeans(a: Account)
    ensures Named(a) <==> HasNames(a)
  {
    BlankMeans(a.id);
    BlankMeans(a.username);
  }

  lemma BlankMeans(text: string)
    ensures Blank(text) <==> !Visible(text)
  {
    if !Blank(text) {
      var c :| c in text && !WhiteSpace(c);
      var i :| 0 <= i < |text| && text[i] == c;
      assert Visible(text);
    } else {
      assert forall i :: 0 <= i < |text| ==> WhiteSpace(text[i]);
    }
  }

  lemma AddCheckMeans(users: Option<AuthUsers>, a: Account, settings: Settings)
    ensures AddCheck(users, a, settings) == Added <==> Room(users, a, settings)
    ensures AddCheck(users, a, settings) == LimitReached <==> Crowded(users, a, settings)
  {
    if users.Some? {
      assert forall i :: 0 <= i < |users.value.others| ==> users.value.others[i] in users.value.others;
    }
  }

  // ---------- What goes into the history ----------

  function Waiting(s: Session): Option<Pending> {
    if s.pendingMfa.Some? then s.pendingMfa else s.pendingSocialMfa
  }

  function SignIn(a: Account, via: Via, allowed: bool): seq<Event> {
    if allowed then [Authenticated(a, via)] else []
  }

  /** How a user without MFA joins the session after a password login, and after a social one. */
  predicate JoinsByPassword(s: Session, u: UserRecord, flow: Flow, settings: Settings) {
    match flow
    case AddingAccount => Room(s.users, u.account, settings)
    case Continuing => HasNames(u.account) && !Crowded(s.users, u.account, settings)
    case Plain => HasNames(u.account)
  }

  predicate JoinsBySocial(s: Session, u: UserRecord, flow: Flow, settings: Settings) {
    if flow == Plain then HasNames(u.account) else Room(s.users, u.account, settings)
  }

  /** The events of one request, by the answers it came with. */
  function NewEvents(settings: Settings, s: Session, step: Step): seq<Event> {
    match step
    case Login(u, flow) =>
      [FirstFactor(u.account, u.mfaEnabled)]
      + SignIn(u.account, ByPassword, !u.mfaEnabled && JoinsByPassword(s, u, flow, settings))
    case Social(u, needsPhone, flow) =>
      if needsPhone || s.linkIntent then []
      else [FirstFactor(u.account, u.mfaEnabled)]
           + SignIn(u.account, BySocial, !u.mfaEnabled && JoinsBySocial(s, u, flow, settings))
    case VerifyCode(codeGiven, accepted) =>
      var p := Waiting(s);
      if accepted && codeGiven && p.Some? && (p.value.mfaMethod == Some(Totp) || p.value.mfaMethod == Some(EmailCode)) then
        [SecondFactor(p.value.account, p.value.mfaMethod.value)]
        + SignIn(p.value.account, ByMfa(p.value.mfaMethod.value), HasNames(p.value.account))
      else []
    case VerifyAssertion(credentialMatches, accepted) =>
      var p := Waiting(s);
      if accepted && credentialMatches && p.Some? && s.challenge.Some? && s.challenge.value != "" then
        [SecondFactor(p.value.account, WebAuthn)]
        + SignIn(p.value.account, ByMfa(WebAuthn), Room(s.users, p.value.account, settings))
      else []
    case VerifyPasskey(accepted) =>
      var p := Waiting(s);
      if accepted && p.Some? then
        [SecondFactor(p.value.account, WebAuthn)] + SignIn(p.value.account, ByMfa(WebAuthn), HasNames(p.value.account))
      else []
    case RequestRecovery(a, available) => if available == [] then [] else [RecoveryRequested(a)]
    case RecoverWith(means, accepted) =>
      if accepted && s.recovery.Some? && s.recovery.value.means == Some(means)
      then Proof(s.recovery.value.account, means) else []
    case VerifyRecovery(answer) =>
      if answer != Accepted then []
      else if s.recovery.Some? && s.recovery.value.means == Some(Recovery.Sms) && s.recovery.value.smsSent
      then Proof(s.recovery.value.account, Recovery.Sms)
      else if s.emailCode.Some? then Proof(s.emailCode.value, Recovery.SecondaryEmail) else []
    case Registered(a) =>
      if exists i :: 0 <= i < |s.log| && !s.log[i].SessionEnded? && s.log[i].account.id == a.id then []
      else [AccountCreated(a)] + SignIn(a, ByRegistration, HasNames(a))
    case Destroyed => [SessionEnded]
    case _ => []
  }

  function Proof(a: Account, means: RecoveryMethod): seq<Event> {
    [RecoveryProof(a, means)] + SignIn(a, ByRecovery, HasNames(a))
  }

  lemma LoginEvents(settings: Settings, s: Session, step: Step)
    requires step.Login? || step.Social?
    ensures Apply(settings, s, step).log == s.log + NewEvents(settings, s, step)
  {
    NamedMeans(step.user.account);
    AddCheckMeans(s.users, step.user.account, settings);
  }

  lemma CodeEvents(settings: Settings, s: Session, step: Step)
    requires step.VerifyCode? || step.VerifyPasskey?
    ensures Apply(settings, s, step).log == s.log + NewEvents(settings, s, step)
  {
    if Waiting(s).Some? {
      NamedMeans(Waiting(s).value.account);
    }
  }

  lemma AssertionEvents(settings: Settings, s: Session, step: Step)
    requires step.VerifyAssertion?
    ensures Apply(settings, s, step).log == s.log + NewEvents(settings, s, step)
  {
    if Waiting(s).Some? {
      AddCheckMeans(s.users, Waiting(s).value.account, settings);
    }
  }

  lemma FinishEvents(settings: Settings, s: Session, a: Account, means: RecoveryMethod)
    ensures FinishRecovery(s, a, means, settings).log == s.log + Proof(a, means)
  {
    NamedMeans(a);
  }

  lemma RecoverWithEvents(settings: Settings, s: Session, step: Step)
    requires step.RecoverWith?
    ensures Apply(settings, s, step).log == s.log + NewEvents(settings, s, step)
  {
    if s.recovery.Some? {
      FinishEvents(settings, s, s.recovery.value.account, step.means);
    }
  }

  lemma VerifyRecoveryEvents(settings: Settings, s: Session, step: Step)
    requires step.VerifyRecovery?
    ensures Apply(settings, s, step).log == s.log + NewEvents(settings, s, step)
  {
    if s.recovery.Some? {
      FinishEvents(settings, s, s.recovery.value.account, Recovery.Sms);
    }
    if s.emailCode.Some? {
      FinishEvents(settings, s.(emailCode := None), s.emailCode.value, Recovery.SecondaryEmail);
    }
  }

  /** Every request adds exactly the events its answers call for, and never touches the history before. */
  lemma HistoryIs(settings: Settings, s: Session, step: Step)
    ensures Apply(settings, s, step).log == s.log + NewEvents(settings, s, step)
  {
    match step
    case Login(_, _) => LoginEvents(settings, s, step);
    case Social(_, _, _) => LoginEvents(settings, s, step);
    case VerifyCode(_, _) => CodeEvents(settings, s, step);
    case VerifyAssertion(_, _) => AssertionEvents(settings, s, step);
    case VerifyPasskey(_) => CodeEvents(settings, s, step);
    case RecoverWith(_, _) => RecoverWithEvents(settings, s, step);
    case VerifyRecovery(_) => VerifyRecoveryEvents(settings, s, step);
    case Registered(a) => NamedMeans(a);
    case _ =>
  }

  ghost predicate Adds(settings: Settings, s: Session, step: Step, e: Event) {
    var log := Apply(settings, s, step).log;
    exists i :: |s.log| <= i < |log| && log[i] == e
  }

  lemma InTail(log: seq<Event>, added: seq<Event>, e: Event)
    ensures e in added <==> exists i :: |log| <= i < |log + added| && (log + added)[i] == e
  {
    if e in added {
      var i :| 0 <= i < |added| && added[i] == e;
      assert (log + added)[|log| + i] == e;
    }
  }

  lemma AddsMeans(settings: Settings, s: Session, step: Step, e: Event)
    ensures Adds(settings, s, step, e) <==> e in NewEvents(settings, s, step)
  {
    HistoryIs(settings, s, step);
    InTail(s.log, NewEvents(settings, s, step), e);
  }

  lemma SecondFactorIn(settings: Settings, s: Session, step: Step, a: Account, f: MfaMethod)
    ensures SecondFactor(a, f) in NewEvents(settings, s, step) <==>
      Waiting(s).Some? && Waiting(s).value.account == a && SecondFactorAccepted(s, step, Waiting(s).value, f)
  {
  }

  lemma MfaSignInIn(settings: Settings, s: Session, step: Step, a: Account, f: MfaMethod)
    ensures Authenticated(a, ByMfa(f)) in NewEvents(settings, s, step) <==>
      && Waiting(s).Some? && Waiting(s).value.account == a && SecondFactorAccepted(s, step, Waiting(s).value, f)
      && (if step.VerifyAssertion? then Room(s.users, a, settings) else HasNames(a))
  {
  }

  /** Only one user waits at a time. */
  lemma AwaitsMeans(s: Session, p: Pending)
    ensures Awaits(s, p) <==> Waiting(s) == Some(p)
  {
  }

  /** A first factor is recorded exactly when it was accepted. */
  lemma FirstFactorIff(settings: Settings, s: Session, step: Step, a: Account, mfaEnabled: bool)
    ensures Adds(settings, s, step, FirstFactor(a, mfaEnabled)) <==>
      exists u :: FirstFactorAccepted(s, step, u) && u.account == a && u.mfaEnabled == mfaEnabled
  {
    AddsMeans(settings, s, step, FirstFactor(a, mfaEnabled));
    if step.Login? || step.Social? {
      assert FirstFactorAccepted(s, step, step.user) || step.Social?;
    }
  }

  /** A second factor is recorded exactly when a verifier accepted it for the user waiting for it. */
  lemma SecondFactorIff(settings: Settings, s: Session, step: Step, a: Account, f: MfaMethod)
    ensures Adds(settings, s, step, SecondFactor(a, f)) <==>
      exists p :: SecondFactorAccepted(s, step, p, f) && p.account == a
  {
    AddsMeans(settings, s, step, SecondFactor(a, f));
    SecondFactorIn(settings, s, step, a, f);
    forall p | SecondFactorAccepted(s, step, p, f)
      ensures Waiting(s) == Some(p)
    {
      AwaitsMeans(s, p);
    }
  }

  /** An MFA sign-in happens exactly then, if the account may join the session. */
  lemma MfaSignInIff(settings: Settings, s: Session, step: Step, a: Account, f: MfaMethod)
    ensures Adds(settings, s, step, Authenticated(a, ByMfa(f))) <==>
      && (exists p :: SecondFactorAccepted(s, step, p, f) && p.account == a)
      && (if step.VerifyAssertion? then Room(s.users, a, settings) else HasNames(a))
  {
    AddsMeans(settings, s, step, Authenticated(a, ByMfa(f)));
    MfaSignInIn(settings, s, step, a, f);
    forall p | SecondFactorAccepted(s, step, p, f)
      ensures Waiting(s) == Some(p)
    {
      AwaitsMeans(s, p);
    }
  }

  /** A password alone signs in exactly users without MFA that may join the session. */
  lemma PasswordSignInIff(settings: Settings, s: Session, step: Step, a: Account)
    ensures Adds(settings, s, step, Authenticated(a, ByPassword)) <==>
      step.Login? && step.user.account == a && !step.user.mfaEnabled && JoinsByPassword(s, step.user, step.flow, settings)
  {
    AddsMeans(settings, s, step, Authenticated(a, ByPassword));
  }

  /** And so does a social login that was not asked for a mere link. */
  lemma SocialSignInIff(settings: Settings, s: Session, step: Step, a: Account)
    ensures Adds(settings, s, step, Authenticated(a, BySocial)) <==>
      && step.Social? && step.user.account == a && !step.user.mfaEnabled
      && !step.needsPhone && !s.linkIntent && JoinsBySocial(s, step.user, step.flow, settings)
  {
    AddsMeans(settings, s, step, Authenticated(a, BySocial));
  }

  /** A recovery proof is recorded exactly on an accepted answer for the user being recovered. */
  lemma RecoveryProofIff(settings: Settings, s: Session, step: Step, a: Account, means: RecoveryMethod)
    ensures Adds(settings, s, step, RecoveryProof(a, means)) <==> RecoveryAccepted(s, step, a, means)
  {
    AddsMeans(settings, s, step, RecoveryProof(a, means));
  }

  /** And a recovery signs in exactly then. */
  lemma RecoverySignInIff(settings: Settings, s: Session, step: Step, a: Account)
    ensures Adds(settings, s, step, Authenticated(a, ByRecovery)) <==>
      HasNames(a) && exists m :: RecoveryAccepted(s, step, a, m)
  {
    AddsMeans(settings, s, step, Authenticated(a, ByRecovery));
    if step.RecoverWith? {
      assert forall m :: RecoveryAccepted(s, step, a, m) ==> m == step.means;
      assert RecoveryAccepted(s, step, a, step.means) || !RecoveryAccepted(s, step, a, step.means);
    } else if step.VerifyRecovery? {
      assert forall m :: RecoveryAccepted(s, step, a, m) ==> m == Recovery.Sms || m == Recovery.SecondaryEmail;
      assert RecoveryAccepted(s, step, a, Recovery.Sms) || RecoveryAccepted(s, step, a, Recovery.SecondaryEmail)
             || forall m :: !RecoveryAccepted(s, step, a, m);
    }
  }

  // ---------- A refusal ----------

  /** The verifier said no. */
  predicate Refused(step: Step) {
    match step
    case VerifyCode(_, accepted) => !accepted
    case VerifyAssertion(_, accepted) => !accepted
    case VerifyPasskey(accepted) => !accepted
    case RecoverWith(_, accepted) => !accepted
    case VerifyRecovery(answer) => answer == Denied
    case _ => false
  }

  /** A refused request leaves the whole session as it was. */
  lemma RefusalChangesNothing(settings: Settings, s: Session, step: Step)
    requires Refused(step)
    ensures Apply(settings, s, step) == s
  {
  }

  lemma {:induction false} RefusalsChangeNothing(settings: Settings, s: Session, steps: seq<Step>)
    requires forall i :: 0 <= i < |steps| ==> Refused(steps[i])
    ensures Run(settings, s, steps) == s
    decreases |steps|
  {
    if steps != [] {
      RefusalChangesNothing(settings, s, steps[0]);
      assert forall i :: 0 <= i < |steps[1..]| ==> steps[1..][i] == steps[i + 1];
      RefusalsChangeNothing(settings, s, steps[1..]);
    }
  }

  // ---------- The account list ----------

  predicate Same(x: Account, a: Account) {
    x.id == a.id || x.username == a.username
  }

  /** `i` is where the first account like `a` stands in the list, or its length. */
  ghost predicate FirstLike(list: seq<Account>, a: Account, i: nat) {
    i <= |list| && (i < |list| ==> Same(list[i], a)) && forall j :: 0 <= j < i ==> !Same(list[j], a)
  }

  function WithoutAt(list: seq<Account>, i: nat): seq<Account> {
    if i < |list| then list[..i] + list[i + 1..] else list
  }

  lemma RemoveFirstMeans(list: seq<Account>, a: Account, i: nat)
    requires FirstLike(list, a, i)
    ensures RemoveFirst(list, a) == WithoutAt(list, i)
  {
    assert forall x :: SameAccount(x, a) <==> Same(x, a);
    RemoveFirstAt(list, a, i);
  }

  /** Signing in makes the account active; the one active before and the others stay, each once. */
  lemma ActivateMeans(users: Option<AuthUsers>, a: Account, settings: Settings, i: nat)
    requires users.Some? ==> FirstLike(users.value.others, a, i)
    ensures Activate(users, a, settings).active == a
    ensures Activate(users, a, settings).others ==
      if users.None? || !settings.multipleAccounts then []
      else WithoutAt(users.value.others, i) + (if Same(users.value.active, a) then [] else [users.value.active])
  {
    if users.Some? {
      RemoveFirstMeans(users.value.others, a, i);
    }
  }

  /** Joining appends the account active before, and nothing is lost. */
  lemma AddMeans(users: Option<AuthUsers>, a: Account, settings: Settings)
    ensures Room(users, a, settings) ==>
      Add(users, a, settings) == Some(AuthUsers(a, if users.None? then [] else users.value.others + [users.value.active]))
    ensures !Room(users, a, settings) ==> Add(users, a, settings) == users
  {
    AddCheckMeans(users, a, settings);
  }

  /** `i` is where the first account with that id or name stands in the list, or its length. */
  ghost predicate FirstCalled(list: seq<Account>, target: string, i: nat) {
    && i <= |list| && (i < |list| ==> list[i].id == target || list[i].username == target)
    && forall j :: 0 <= j < i ==> list[j].id != target && list[j].username != target
  }

  lemma {:induction false} SwitchIndexMeans(list: seq<Account>, target: string, i: nat)
    requires FirstCalled(list, target, i)
    ensures SwitchIndex(list, target) == i
    decreases |list|
  {
    if i > 0 {
      assert forall j :: 0 <= j < i - 1 ==> list[1..][j] == list[j + 1];
      SwitchIndexMeans(list[1..], target, i - 1);
    }
  }

  /** Switching trades the active account for the first one called so, and keeps every account. */
  lemma SwitchMeans(users: AuthUsers, target: string, i: nat)
    requires FirstCalled(users.others, target, i)
    ensures Switch(users, target) ==
      if i < |users.others| then AuthUsers(users.others[i], WithoutAt(users.others, i) + [users.active]) else users
  {
    SwitchIndexMeans(users.others, target, i);
  }

  // ---------- What changes each key ----------

  /** The request completes the second factor of the waiting user. */
  predicate Completes(s: Session, step: Step) {
    match step
    case VerifyCode(codeGiven, accepted) =>
      var p := Waiting(s);
      && accepted && codeGiven && p.Some? && (p.value.mfaMethod == Some(Totp) || p.value.mfaMethod == Some(EmailCode))
      && HasNames(p.value.account)
    case VerifyAssertion(credentialMatches, accepted) =>
      accepted && credentialMatches && Waiting(s).Some? && s.challenge.Some? && s.challenge.value != ""
    case VerifyPasskey(accepted) => accepted && Waiting(s).Some? && HasNames(Waiting(s).value.account)
    case _ => false
  }

  /** The method a user is first asked for. */
  predicate FirstAsked(u: UserRecord, m: Option<MfaMethod>) {
    if u.methods == [] then m == None
    else if u.preferred.Some? && u.preferred.value in u.methods then m == u.preferred
    else m == Some(u.methods[0])
  }

  ghost predicate WaitsAs(p: Option<Pending>, u: UserRecord) {
    p.Some? && p.value.account == u.account && p.value.enabled == u.methods && FirstAsked(u, p.value.mfaMethod)
  }

  predicate Chooses(s: Session, step: Step) {
    step.SelectMethod? && Waiting(s).Some? && step.factor in Waiting(s).value.enabled
  }

  /** Who waits for a second factor: set by a first factor, re-labelled by a choice, cleared by completion. */
  ghost predicate PendingIs(s: Session, step: Step, s': Session) {
    if step.Destroyed? || Completes(s, step) then s'.pendingMfa == None && s'.pendingSocialMfa == None
    else if Chooses(s, step) then
      && s'.pendingMfa == Some(Waiting(s).value.(mfaMethod := Some(step.factor)))
      && s'.pendingSocialMfa == if s.pendingMfa.None? then s'.pendingMfa else s.pendingSocialMfa
    else
      && (if step.Login? && step.user.mfaEnabled then WaitsAs(s'.pendingMfa, step.user) else s'.pendingMfa == s.pendingMfa)
      && (if step.Social? && step.user.mfaEnabled && !step.needsPhone && !s.linkIntent
          then WaitsAs(s'.pendingSocialMfa, step.user) else s'.pendingSocialMfa == s.pendingSocialMfa)
  }

  lemma LoginPending(settings: Settings, s: Session, step: Step)
    requires step.Login? || step.Social?
    ensures PendingIs(s, step, Apply(settings, s, step))
  {
  }

  lemma SecondFactorPending(settings: Settings, s: Session, step: Step)
    requires step.VerifyCode? || step.VerifyAssertion? || step.VerifyPasskey?
    ensures PendingIs(s, step, Apply(settings, s, step))
  {
    if Waiting(s).Some? {
      NamedMeans(Waiting(s).value.account);
    }
  }

  lemma PendingAfter(settings: Settings, s: Session, step: Step)
    ensures PendingIs(s, step, Apply(settings, s, step))
  {
    match step
    case Login(_, _) => LoginPending(settings, s, step);
    case Social(_, _, _) => LoginPending(settings, s, step);
    case VerifyCode(_, _) => SecondFactorPending(settings, s, step);
    case VerifyAssertion(_, _) => SecondFactorPending(settings, s, step);
    case VerifyPasskey(_) => SecondFactorPending(settings, s, step);
    case _ =>
  }

  /** The challenge: set for a waiting user, spent by an accepted assertion. */
  lemma ChallengeAfter(settings: Settings, s: Session, step: Step)
    ensures Apply(settings, s, step).challenge ==
      if step.Destroyed? || (step.VerifyAssertion? && Completes(s, step)) then None
      else if step.WebAuthnOptions? && Waiting(s).Some? then Some(step.challenge)
      else s.challenge
  {
  }

  /** A link request is remembered until the next social callback. */
  lemma LinkIntentAfter(settings: Settings, s: Session, step: Step)
    ensures Apply(settings, s, step).linkIntent == (step.RequestLink? || (s.linkIntent && !step.Social? && !step.Destroyed?))
  {
  }

  predicate CompletesRecovery(s: Session, step: Step) {
    match step
    case RecoverWith(means, accepted) => accepted && s.recovery.Some? && s.recovery.value.means == Some(means)
    case VerifyRecovery(answer) => answer == Accepted && (s.emailCode.Some? || SmsIsOut(s))
    case _ => false
  }

  predicate SmsIsOut(s: Session) {
    s.recovery.Some? && s.recovery.value.means == Some(Recovery.Sms) && s.recovery.value.smsSent
  }

  /** The recovery under way: who, by what, and whether a code is out. */
  lemma RecoveryAfter(settings: Settings, s: Session, step: Step)
    ensures Apply(settings, s, step).recovery ==
      if step.Destroyed? || CompletesRecovery(s, step) then None
      else if step.RequestRecovery? && step.available != [] then Some(RecoveryAttempt(step.account, step.available, None, false))
      else if step.SelectRecoveryMethod? && s.recovery.Some? && step.means in s.recovery.value.available
      then Some(s.recovery.value.(means := Some(step.means)))
      else if step.RecoverySmsSent? && s.recovery.Some? && s.recovery.value.means == Some(Recovery.Sms)
      then Some(s.recovery.value.(smsSent := true))
      else s.recovery
  {
  }

  /** Whom an emailed code is for. */
  lemma EmailCodeAfter(settings: Settings, s: Session, step: Step)
    ensures Apply(settings, s, step).emailCode ==
      if step.Destroyed? || (step.VerifyRecovery? && step.answer != Denied && !SmsIsOut(s)) then None
      else if step.RecoveryEmailSent? && s.recovery.Some? && s.recovery.value.means == Some(Recovery.SecondaryEmail)
      then Some(s.recovery.value.account)
      else s.emailCode
  {
  }

  // ---------- Who is signed in ----------

  /** The account a request signs in, if it does. */
  function SignedIn(settings: Settings, s: Session, step: Step): Option<Account> {
    var events := NewEvents(settings, s, step);
    if events != [] && events[|events| - 1].Authenticated? then Some(events[|events| - 1].account) else None
  }

  /** The requests that add to the accounts of the session, where the others put the account in front. */
  predicate JoinsOthers(step: Step) {
    step.VerifyAssertion? || (step.Login? && step.flow == AddingAccount) || (step.Social? && step.flow != Plain)
  }

  lemma LoginUsers(settings: Settings, s: Session, step: Step)
    requires step.Login? || step.Social?
    ensures UsersAre(settings, s, step)
  {
    NamedMeans(step.user.account);
    AddCheckMeans(s.users, step.user.account, settings);
  }

  lemma CodeUsers(settings: Settings, s: Session, step: Step)
    requires step.VerifyCode? || step.VerifyPasskey?
    ensures UsersAre(settings, s, step)
  {
    if Waiting(s).Some? {
      NamedMeans(Waiting(s).value.account);
    }
  }

  lemma AssertionUsers(settings: Settings, s: Session, step: Step)
    requires step.VerifyAssertion?
    ensures UsersAre(settings, s, step)
  {
    if Waiting(s).Some? {
      AddCheckMeans(s.users, Waiting(s).value.account, settings);
    }
  }

  lemma FinishUsers(settings: Settings, s: Session, a: Account, means: RecoveryMethod)
    ensures var s' := FinishRecovery(s, a, means, settings);
      && s'.users == (if HasNames(a) then Some(Activate(s.users, a, settings)) else s.users)
      && s'.marked == (s.marked || HasNames(a))
  {
    NamedMeans(a);
  }

  lemma RecoverWithUsers(settings: Settings, s: Session, step: Step)
    requires step.RecoverWith?
    ensures UsersAre(settings, s, step)
  {
    if s.recovery.Some? {
      FinishUsers(settings, s, s.recovery.value.account, step.means);
    }
  }

  lemma VerifyRecoveryUsers(settings: Settings, s: Session, step: Step)
    requires step.VerifyRecovery?
    ensures UsersAre(settings, s, step)
  {
    if s.recovery.Some? {
      FinishUsers(settings, s, s.recovery.value.account, Recovery.Sms);
    }
    if s.emailCode.Some? {
      FinishUsers(settings, s.(emailCode := None), s.emailCode.value, Recovery.SecondaryEmail);
    }
  }

  ghost predicate UsersAre(settings: Settings, s: Session, step: Step) {
    UsersFollow(settings, s, step, SignedIn(settings, s, step), Apply(settings, s, step))
  }

  /** With `a` signed in, if anybody, the session is left as `s'`. */
  ghost predicate UsersFollow(settings: Settings, s: Session, step: Step, a: Option<Account>, s': Session) {
    && s'.users == (
         if a.Some? then (if JoinsOthers(step) then Add(s.users, a.value, settings) else Some(Activate(s.users, a.value, settings)))
         else if step.Destroyed? then None
         else if step.SwitchAccount? && s.users.Some? && !settings.reauthOnSwitch then Some(Switch(s.users.value, step.target))
         else s.users)
    && s'.marked == (!step.Destroyed? && (s.marked || (a.Some? && !JoinsOthers(step))))
  }

  /** The account list changes by a sign-in, by a switch and at the end of the session, and never otherwise. */
  lemma UsersAfter(settings: Settings, s: Session, step: Step)
    ensures UsersAre(settings, s, step)
  {
    match step
    case Login(_, _) => LoginUsers(settings, s, step);
    case Social(_, _, _) => LoginUsers(settings, s, step);
    case VerifyCode(_, _) => CodeUsers(settings, s, step);
    case VerifyAssertion(_, _) => AssertionUsers(settings, s, step);
    case VerifyPasskey(_) => CodeUsers(settings, s, step);
    case RecoverWith(_, _) => RecoverWithUsers(settings, s, step);
    case VerifyRecovery(_) => VerifyRecoveryUsers(settings, s, step);
    case Registered(a) => NamedMeans(a);
    case _ =>
  }

  /** Whoever a request signs in is the active user afterwards. */
  lemma SignedInIsActive(settings: Settings, s: Session, step: Step)
    requires SignedIn(settings, s, step).Some?
    ensures var users := Apply(settings, s, step).users; users.Some? && users.value.active == SignedIn(settings, s, step).value
  {
    UsersAfter(settings, s, step);
    HistoryIs(settings, s, step);
    AddCheckMeans(s.users, SignedIn(settings, s, step).value, settings);
  }

  // ---------- Over whole runs ----------

  /** A run begins with an empty session and takes its requests one after another. */
  lemma {:induction false} RunGrows(settings: Settings, s: Session, steps: seq<Step>, step: Step)
    ensures Fresh() == Session(None, None, None, false, None, false, None, None, [])
    ensures Run(settings, s, []) == s
    ensures Run(settings, s, steps + [step]) == Apply(settings, Run(settings, s, steps), step)
    decreases |steps|
  {
    if steps == [] {
      assert [] + [step] == [step] && [step][1..] == [];
    } else {
      RunGrows(settings, Apply(settings, s, steps[0]), steps[1..], step);
      assert (steps + [step])[0] == steps[0] && (steps + [step])[1..] == steps[1..] + [step];
    }
  }

  /** The end of a session ends the force of everything in it; so do the events named with each scope. */
  lemma ScopesEnd(e: Event)
    ensures Ends(InSession, e) <==> e == SessionEnded
    ensures Ends(UntilMfa, e) <==> e == SessionEnded || exists a, f :: e == Authenticated(a, ByMfa(f))
    ensures Ends(UntilProof, e) <==>
      || e == SessionEnded || (exists a :: e == RecoveryRequested(a)) || (exists a, m :: e == RecoveryProof(a, m))
  {
    if e.Authenticated? && e.via.ByMfa? {
      assert e == Authenticated(e.account, ByMfa(e.via.factor));
    }
    if e.RecoveryRequested? {
      assert e == RecoveryRequested(e.account);
    }
    if e.RecoveryProof? {
      assert e == RecoveryProof(e.account, e.means);
    }
  }

  /** The request that put an event into the history of a run. */
  lemma {:induction false} EveryEventWasAdded(settings: Settings, s: Session, steps: seq<Step>, i: nat) returns (k: nat)
    requires |s.log| <= i < |Run(settings, s, steps).log|
    ensures k < |steps| && Adds(settings, Run(settings, s, steps[..k]), steps[k], Run(settings, s, steps).log[i])
    decreases |steps|
  {
    var next, rest := Apply(settings, s, steps[0]), steps[1..];
    HistoryIs(settings, s, steps[0]);
    if i < |next.log| {
      k := 0;
      RunKeepsHistory(settings, next, rest);
      assert next.log[i] == Run(settings, s, steps).log[i];
      assert steps[..0] == [];
    } else {
      k := EveryEventWasAdded(settings, next, rest, i);
      assert steps[..k + 1][0] == steps[0] && steps[..k + 1][1..] == rest[..k];
      k := k + 1;
    }
  }

  lemma {:induction false} RunKeepsHistory(settings: Settings, s: Session, steps: seq<Step>)
    ensures s.log <= Run(settings, s, steps).log
    decreases |steps|
  {
    if steps != [] {
      HistoryIs(settings, s, steps[0]);
      RunKeepsHistory(settings, Apply(settings, s, steps[0]), steps[1..]);
    }
  }

  /**
   * In every run, whoever was signed in with a second factor was waiting for it at that moment, and
   * a verifier had just accepted that very factor of that user.
   */
  lemma EveryMfaLoginWasAccepted(settings: Settings, steps: seq<Step>, i: nat) returns (k: nat, p: Pending)
    requires i < |Run(settings, Fresh(), steps).log|
    requires Run(settings, Fresh(), steps).log[i].Authenticated? && Run(settings, Fresh(), steps).log[i].via.ByMfa?
    ensures var e := Run(settings, Fresh(), steps).log[i];
      k < |steps| && SecondFactorAccepted(Run(settings, Fresh(), steps[..k]), steps[k], p, e.via.factor) && p.account == e.account
  {
    var e := Run(settings, Fresh(), steps).log[i];
    k := EveryEventWasAdded(settings, Fresh(), steps, i);
    var s := Run(settings, Fresh(), steps[..k]);
    MfaSignInIff(settings, s, steps[k], e.account, e.via.factor);
    p :| SecondFactorAccepted(s, steps[k], p, e.via.factor) && p.account == e.account;
  }

  /** And whoever was signed in by a recovery was being recovered, and the answer had just been accepted. */
  lemma EveryRecoveryWasAccepted(settings: Settings, steps: seq<Step>, i: nat) returns (k: nat, means: RecoveryMethod)
    requires i < |Run(settings, Fresh(), steps).log|
    requires Run(settings, Fresh(), steps).log[i].Authenticated? && Run(settings, Fresh(), steps).log[i].via == ByRecovery
    ensures k < |steps| && RecoveryAccepted(Run(settings, Fresh(), steps[..k]), steps[k], Run(settings, Fresh(), steps).log[i].account, means)
  {
    var e := Run(settings, Fresh(), steps).log[i];
    k := EveryEventWasAdded(settings, Fresh(), steps, i);
    var s := Run(settings, Fresh(), steps[..k]);
    RecoverySignInIff(settings, s, steps[k], e.account);
    means :| RecoveryAccepted(s, steps[k], e.account, means);
  }

  /** What the bound on MFA sign-ins counts. */
  lemma CountsGrow(log: seq<Event>, e: Event, a: Account)
    ensures FirstFactors([], a) == 0 && MfaLogins([], a) == 0
    ensures FirstFactors(log + [e], a) == FirstFactors(log, a) + (if e == FirstFactor(a, true) then 1 else 0)
    ensures MfaLogins(log + [e], a) == MfaLogins(log, a) + (if exists f :: e == Authenticated(a, ByMfa(f)) then 1 else 0)
  {
    assert (log + [e])[..|log|] == log;
    if e.Authenticated? && e.via.ByMfa? && e.account == a {
      assert e == Authenticated(a, ByMfa(e.via.factor));
    }
  }
}
