/** What each recovery step does to each part of the record, and which codes count afterwards. */
module RecoveryEffects {
  import opened Wrappers
  import opened Sorting
  import opened Recovery

  /** The record before a step: an account without one has nothing enabled and nothing stored. */
  function Before(recovery: Option<Record>): Record {
    if recovery.Some? then recovery.value else Record(false, [], None, None, None, None, None)
  }

  predicate LockedOut(recovery: Option<Record>, now: int) {
    && recovery.Some? && recovery.value.lockout.Some? && recovery.value.lockout.value.lockedUntil.Some?
    && now < recovery.value.lockout.value.lockedUntil.value
  }

  /** The step takes away the last supported method, and with it the whole record. */
  predicate Empties(recovery: Option<Record>, step: Step) {
    step.DisableMethod? && recovery.Some? && forall n :: n in recovery.value.methods && n.Supported? ==> n.m == step.m
  }

  predicate Drops(recovery: Option<Record>, step: Step, m: RecoveryMethod) {
    step == DisableMethod(m) || Empties(recovery, step)
  }

  /** The step stores new backup codes. */
  predicate Renews(recovery: Option<Record>, step: Step) {
    step.Enable? || step.EnrolCodes? || (step.RegenerateCodes? && recovery.Some? && recovery.value.enabled)
  }

  /** A visitor presents a code that matches, at a time when that counts. */
  predicate Enters(recovery: Option<Record>, step: Step) {
    step.CodeUsed? && step.matched.Some? && recovery.Some? && recovery.value.backupCodes.Some? && !LockedOut(recovery, step.now)
  }

  /** A visitor presents a wrong code of any kind, at a time when that counts. */
  predicate Fails(recovery: Option<Record>, step: Step) {
    || (step.CodeUsed? && step.matched.None? && recovery.Some? && recovery.value.backupCodes.Some? && !LockedOut(recovery, step.now))
    || (step.OtherCodeUsed? && !step.accepted && !LockedOut(recovery, step.now))
  }

  predicate EntersOtherwise(recovery: Option<Record>, step: Step) {
    step.OtherCodeUsed? && step.accepted && !LockedOut(recovery, step.now)
  }

  lemma EmptiesMeans(recovery: Option<Record>, m: RecoveryMethod)
    requires recovery.Some?
    ensures Without(Normalize(recovery.value.methods), m) == [] <==> Empties(recovery, DisableMethod(m))
  {
    var left := Without(Normalize(recovery.value.methods), m);
    if left != [] {
      assert left[0] in recovery.value.methods && left[0].Supported? && left[0] != Supported(m);
    } else {
      forall n | n in recovery.value.methods && n.Supported?
        ensures n.m == m
      {
        assert n in Normalize(recovery.value.methods) && n !in left;
      }
    }
  }

  /** Disabling drops the data of that method, or everything with the last one, and nothing else. */
  lemma DisabledFields(recovery: Option<Record>, m: RecoveryMethod)
    ensures var r, r' := Before(recovery), Before(Disable(recovery, m));
      if Empties(recovery, DisableMethod(m)) then r' == Record(false, [], None, None, None, None, None)
      else
        && r'.enabled == r.enabled && r'.lockout == r.lockout
        && r'.backupCodes == (if m == BackupCodes then None else r.backupCodes)
        && r'.secondaryEmail == (if m == SecondaryEmail then None else r.secondaryEmail)
        && r'.sms == (if m == Sms then None else r.sms)
        && r'.securityQuestions == (if m == SecurityQuestions then None else r.securityQuestions)
  {
    if recovery.Some? {
      EmptiesMeans(recovery, m);
    }
  }

  // ---------- Backup codes ----------

  /** Stored codes are replaced by the new ones, lose the one that let somebody in, or stay as they are. */
  ghost predicate CodesFollow(recovery: Option<Record>, step: Step, codes: Option<seq<CodeHash>>) {
    if Renews(recovery, step) then codes == Some(step.codes)
    else if Drops(recovery, step, BackupCodes) then codes == None
    else if Enters(recovery, step) then
      codes.Some? && forall c :: c in codes.value <==> c in recovery.value.backupCodes.value && c != step.matched.value
    else codes == Before(recovery).backupCodes
  }

  lemma CodesAfterOthers(recovery: Option<Record>, step: Step)
    requires !step.DisableMethod?
    ensures CodesFollow(recovery, step, Before(Apply(recovery, step)).backupCodes)
  {
  }

  lemma CodesAfter(recovery: Option<Record>, step: Step)
    ensures CodesFollow(recovery, step, Before(Apply(recovery, step)).backupCodes)
  {
    if step.DisableMethod? {
      DisabledFields(recovery, step.m);
    } else {
      CodesAfterOthers(recovery, step);
    }
  }

  /** A visitor is let in exactly then. */
  lemma RecoversIff(recovery: Option<Record>, step: Step)
    ensures Recovers(recovery, step) <==> Enters(recovery, step)
  {
  }

  /** After a generation, exactly its codes are stored. */
  lemma GenerationStores(recovery: Option<Record>, step: Step)
    requires Renews(recovery, step)
    ensures Stored(Apply(recovery, step)) == Elems(step.codes)
  {
    CodesAfter(recovery, step);
  }

  /** A code that is not of the latest generation never lets anybody in again. */
  lemma OnlyLatestCodesRecover(recovery: Option<Record>, generation: Step, steps: seq<Step>)
    requires Renews(recovery, generation) && OneGeneration(Apply(recovery, generation), steps)
    ensures Elems(Spent(Apply(recovery, generation), steps)) <= Elems(generation.codes)
    ensures |Spent(Apply(recovery, generation), steps)| <= |Elems(generation.codes)|
  {
    GenerationStores(recovery, generation);
    CodesAreSpentOnce(Apply(recovery, generation), steps);
    RecoveriesAreBounded(Apply(recovery, generation), steps);
  }

  // ---------- The other methods' data ----------

  /** What a step stores for the other methods: the data it came with, none when dropped, or what was there. */
  function EmailOf(recovery: Option<Record>, step: Step): Option<string> {
    if step.EnableEmail? then Some(step.address)
    else if step.Enable? && step.email.Some? then step.email
    else if Drops(recovery, step, SecondaryEmail) then None
    else Before(recovery).secondaryEmail
  }

  function QuestionsOf(recovery: Option<Record>, step: Step): Option<seq<string>> {
    if step.SaveQuestions? then Some(step.questions)
    else if Drops(recovery, step, SecurityQuestions) then None
    else Before(recovery).securityQuestions
  }

  function SmsOf(recovery: Option<Record>, step: Step): Option<string> {
    if step.SmsSent? then Some(step.code)
    else if Drops(recovery, step, Sms) then None
    else Before(recovery).sms
  }

  lemma DataAfterOthers(recovery: Option<Record>, step: Step)
    requires !step.DisableMethod?
    ensures var r := Before(Apply(recovery, step));
      && r.secondaryEmail == EmailOf(recovery, step) && r.securityQuestions == QuestionsOf(recovery, step)
      && r.sms == SmsOf(recovery, step)
  {
  }

  /** A step stores the data it came with, and keeps that of the other methods. */
  lemma DataAfter(recovery: Option<Record>, step: Step)
    ensures var r := Before(Apply(recovery, step));
      && r.secondaryEmail == EmailOf(recovery, step) && r.securityQuestions == QuestionsOf(recovery, step)
      && r.sms == SmsOf(recovery, step)
  {
    if step.DisableMethod? {
      DisabledFields(recovery, step.m);
    } else {
      DataAfterOthers(recovery, step);
    }
  }

  // ---------- Methods ----------

  predicate AddsMethod(recovery: Option<Record>, step: Step, m: RecoveryMethod) {
    match m
    case BackupCodes => Renews(recovery, step)
    case SecondaryEmail => step.EnableEmail? || (step.Enable? && step.email.Some?)
    case SecurityQuestions => step.SaveQuestions?
    case Sms => false
  }

  lemma MethodsAfterDisabling(recovery: Option<Record>, m: RecoveryMethod, n: MethodName)
    ensures n in Before(Disable(recovery, m)).methods <==>
      n in Before(recovery).methods && n.Supported? && n.m != m
  {
    if recovery.Some? {
      EmptiesMeans(recovery, m);
    }
  }

  lemma MethodsAfterAdding(recovery: Option<Record>, step: Step, m: RecoveryMethod)
    requires !step.DisableMethod?
    ensures Supported(m) in Before(Apply(recovery, step)).methods <==>
      AddsMethod(recovery, step, m) || Supported(m) in Before(recovery).methods
  {
  }

  /** A method is listed exactly when the step adds it, or when it was and the step does not drop it. */
  lemma MethodsAfter(recovery: Option<Record>, step: Step, m: RecoveryMethod)
    ensures Supported(m) in Before(Apply(recovery, step)).methods <==>
      AddsMethod(recovery, step, m) || (Supported(m) in Before(recovery).methods && !Drops(recovery, step, m))
  {
    if step.DisableMethod? {
      MethodsAfterDisabling(recovery, step.m, Supported(m));
    } else {
      MethodsAfterAdding(recovery, step, m);
    }
  }

  /** The step rewrites the list from its supported names. */
  predicate Normalizes(recovery: Option<Record>, step: Step) {
    || step.Enable? || step.EnableEmail? || step.SaveQuestions? || step.DisableMethod?
    || (step.RegenerateCodes? && recovery.Some? && recovery.value.enabled)
  }

  /** An unsupported name survives exactly the steps that do not. */
  lemma UnsupportedAfter(recovery: Option<Record>, step: Step, text: string)
    ensures Unsupported(text) in Before(Apply(recovery, step)).methods <==>
      Unsupported(text) in Before(recovery).methods && !Normalizes(recovery, step)
  {
    if step.DisableMethod? {
      MethodsAfterDisabling(recovery, step.m, Unsupported(text));
    }
  }

  lemma EnabledAfterOthers(recovery: Option<Record>, step: Step)
    requires !step.DisableMethod?
    ensures Before(Apply(recovery, step)).enabled ==
      (step.Enable? || step.EnableEmail? || step.SaveQuestions? || step.EnrolCodes? || Before(recovery).enabled)
  {
  }

  /** Recovery is enabled by adding a method, and disabled with the last one. */
  lemma EnabledAfter(recovery: Option<Record>, step: Step)
    ensures Before(Apply(recovery, step)).enabled <==>
      step.Enable? || step.EnableEmail? || step.SaveQuestions? || step.EnrolCodes? || (Before(recovery).enabled && !Empties(recovery, step))
  {
    if step.DisableMethod? {
      DisabledFields(recovery, step.m);
    } else {
      EnabledAfterOthers(recovery, step);
    }
  }

  // ---------- Lockout ----------

  predicate Over(l: Lockout, now: int) {
    l.lockedUntil.Some? && l.lockedUntil.value <= now
  }

  /** Failures counted before a guess at `now`: an expired lockout starts afresh. */
  function Counted(recovery: Option<Record>, now: int): nat {
    if recovery.None? || recovery.value.lockout.None? || Over(recovery.value.lockout.value, now) then 0
    else recovery.value.lockout.value.failedAttempts
  }

  function Pending(recovery: Option<Record>, now: int): Option<int> {
    if recovery.Some? && recovery.value.lockout.Some? && !Over(recovery.value.lockout.value, now)
    then recovery.value.lockout.value.lockedUntil else None
  }

  /** The fifth failure locks for half an hour; a recovery clears; nothing else touches the lockout. */
  ghost predicate LockoutFollows(recovery: Option<Record>, step: Step, lockout: Option<Lockout>) {
    if Fails(recovery, step) then
      var failures := Counted(recovery, step.now) + 1;
      && lockout.Some? && lockout.value.failedAttempts == failures
      && lockout.value.lockedUntil == (if failures >= 5 then Some(step.now + 1_800_000) else Pending(recovery, step.now))
    else if Enters(recovery, step) || EntersOtherwise(recovery, step) then
      lockout == if Before(recovery).lockout.Some? then Some(Lockout(0, None)) else None
    else if Empties(recovery, step) then lockout == None
    else lockout == Before(recovery).lockout
  }

  lemma LockoutAfterOthers(recovery: Option<Record>, step: Step)
    requires !step.DisableMethod?
    ensures LockoutFollows(recovery, step, Before(Apply(recovery, step)).lockout)
  {
  }

  lemma LockoutAfter(recovery: Option<Record>, step: Step)
    ensures LockoutFollows(recovery, step, Before(Apply(recovery, step)).lockout)
  {
    if step.DisableMethod? {
      DisabledFields(recovery, step.m);
    } else {
      LockoutAfterOthers(recovery, step);
    }
  }

  // ---------- Counting ----------

  /** The guesses and clearings that are counted are those of the record. */
  lemma CountedIff(recovery: Option<Record>, step: Step)
    ensures WrongGuess(recovery, step) <==> Fails(recovery, step)
    ensures Clears(recovery, step) <==> Enters(recovery, step) || EntersOtherwise(recovery, step) || Empties(recovery, step)
  {
    if step.DisableMethod? && recovery.Some? {
      EmptiesMeans(recovery, step.m);
    }
  }

  /** And each step counts once, in the state it is taken in. */
  lemma CountsGrow(recovery: Option<Record>, step: Step, rest: seq<Step>)
    ensures WrongGuesses(recovery, []) == 0 && Clearings(recovery, []) == 0
    ensures WrongGuesses(recovery, [step] + rest) ==
      (if WrongGuess(recovery, step) then 1 else 0) + WrongGuesses(Apply(recovery, step), rest)
    ensures Clearings(recovery, [step] + rest) ==
      (if Clears(recovery, step) then 1 else 0) + Clearings(Apply(recovery, step), rest)
  {
    assert ([step] + rest)[0] == step && ([step] + rest)[1..] == rest;
  }
}
