/** A user's recovery record: enabling, disabling and using recovery methods. */
module Recovery {
  import opened Wrappers
  import opened Sorting

  datatype RecoveryMethod = BackupCodes | SecondaryEmail | Sms | SecurityQuestions

  const MAX_RECOVERY_ATTEMPTS: nat := 5
  const LOCKOUT_DURATION_MS: int := 30 * 60 * 1000

  /** Hash of a stored backup code. */
  type CodeHash = string

  datatype Lockout = Lockout(failedAttempts: nat, lockedUntil: Option<int>)

  /** An entry of the stored method list: one of the four supported names, or anything else. */
  datatype MethodName = Supported(m: RecoveryMethod) | Unsupported(text: string)

  /** Which data the record holds for each method; the data itself matters only for backup codes. */
  datatype Record = Record(
    enabled: bool,
    methods: seq<MethodName>,
    backupCodes: Option<seq<CodeHash>>,
    secondaryEmail: Option<string>,
    sms: Option<string>,
    securityQuestions: Option<seq<string>>,
    lockout: Option<Lockout>)

  const EMPTY: Record := Record(false, [], None, None, None, None, None)

  // ---------- The stored method list ----------

  /** Adding to a `Set`, which keeps the order of insertion. */
  function AddOnce(names: seq<MethodName>, n: MethodName): (r: seq<MethodName>)
    ensures NoDuplicates(names) ==> NoDuplicates(r)
    ensures forall x :: x in r <==> x in names || x == n
    ensures names <= r
  {
    if n in names then names else names + [n]
  }

  /** `[...new Set(names)]`. */
  function Distinct(names: seq<MethodName>): (r: seq<MethodName>)
    ensures NoDuplicates(r)
    ensures forall n :: n in r <==> n in names
  {
    if names == [] then []
    else
      var init, last := names[..|names| - 1], names[|names| - 1];
      assert names == init + [last];
      AddOnce(Distinct(init), last)
  }

  /** `normalizeRecoveryMethods`: supported names once each, in order of first appearance. */
  function Normalize(names: seq<MethodName>): (r: seq<MethodName>)
    ensures NoDuplicates(r)
    ensures forall n :: n in r <==> n in names && n.Supported?
  {
    if names == [] then []
    else
      var init, last := names[..|names| - 1], names[|names| - 1];
      assert names == init + [last];
      if last.Supported? then AddOnce(Normalize(init), last) else Normalize(init)
  }

  /** A list of supported names without repetitions is already normal. */
  lemma {:induction false} NormalizeStable(names: seq<MethodName>)
    requires NoDuplicates(names) && forall n :: n in names ==> n.Supported?
    ensures Normalize(names) == names
  {
    if names != [] {
      var init, last := names[..|names| - 1], names[|names| - 1];
      assert names == init + [last] && last !in init;
      NormalizeStable(init);
    }
  }

  /** Normalising twice is normalising once. */
  lemma NormalizeIdempotent(names: seq<MethodName>)
    ensures Normalize(Normalize(names)) == Normalize(names)
  {
    NormalizeStable(Normalize(names));
  }

  lemma {:induction false} DistinctStable(names: seq<MethodName>)
    requires NoDuplicates(names)
    ensures Distinct(names) == names
  {
    if names != [] {
      var init, last := names[..|names| - 1], names[|names| - 1];
      assert names == init + [last] && last !in init;
      DistinctStable(init);
    }
  }

  lemma DistinctOfAdded(names: seq<MethodName>, n: MethodName)
    requires NoDuplicates(names)
    ensures Distinct(names + [n]) == AddOnce(names, n)
  {
    DistinctStable(names);
    assert (names + [n])[..|names|] == names;
  }

  function Without(names: seq<MethodName>, m: RecoveryMethod): (r: seq<MethodName>)
    ensures NoDuplicates(names) ==> NoDuplicates(r)
    ensures forall x :: x in r <==> x in names && x != Supported(m)
  {
    if names == [] then []
    else
      var init, last := names[..|names| - 1], names[|names| - 1];
      assert names == init + [last];
      assert NoDuplicates(names) ==> last !in init;
      if last == Supported(m) then Without(init, m) else Without(init, m) + [last]
  }

  // ---------- The operations ----------

  /** `user.recovery || { enabled: false, methods: [] }`. */
  function Prior(recovery: Option<Record>): Record {
    if recovery.Some? then recovery.value else EMPTY
  }

  /** `enableRecovery` with backup codes, also after "recovery setup"; a given email is added with it. */
  function EnableBackupCodes(recovery: Option<Record>, codes: seq<CodeHash>, email: Option<string>): Record {
    var prior := Prior(recovery);
    var methods := AddOnce(Normalize(prior.methods), Supported(BackupCodes));
    var r := prior.(enabled := true, methods := methods, backupCodes := Some(codes));
    if email.Some? then r.(methods := AddOnce(methods, Supported(SecondaryEmail)), secondaryEmail := email) else r
  }

  function EnableSecondaryEmail(recovery: Option<Record>, email: string): Record {
    var prior := Prior(recovery);
    prior.(enabled := true, methods := AddOnce(Normalize(prior.methods), Supported(SecondaryEmail)), secondaryEmail := Some(email))
  }

  function SaveSecurityQuestions(recovery: Option<Record>, questions: seq<string>): Record {
    var prior := Prior(recovery);
    prior.(enabled := true, methods := AddOnce(Normalize(prior.methods), Supported(SecurityQuestions)), securityQuestions := Some(questions))
  }

  /** `buildRecoveryWithBackupCodes`, used when MFA enrolment issues codes; unsupported names survive. */
  function BuildWithBackupCodes(recovery: Option<Record>, codes: seq<CodeHash>): Record {
    var prior := Prior(recovery);
    prior.(enabled := true, methods := AddOnce(Distinct(prior.methods), Supported(BackupCodes)), backupCodes := Some(codes))
  }

  /** `regenerateBackupCodes`, refused unless recovery is enabled. */
  function Regenerate(recovery: Option<Record>, codes: seq<CodeHash>): Option<Record> {
    if recovery.None? || !recovery.value.enabled then recovery
    else
      var prior := recovery.value;
      Some(prior.(methods := AddOnce(Normalize(prior.methods), Supported(BackupCodes)), backupCodes := Some(codes)))
  }

  function DropData(r: Record, m: RecoveryMethod): Record {
    match m
    case BackupCodes => r.(backupCodes := None)
    case SecondaryEmail => r.(secondaryEmail := None)
    case Sms => r.(sms := None)
    case SecurityQuestions => r.(securityQuestions := None)
  }

  /** `disableRecovery`: the last method takes the whole record with it. */
  function Disable(recovery: Option<Record>, m: RecoveryMethod): Option<Record> {
    if recovery.None? then None
    else
      var methods := Without(Normalize(recovery.value.methods), m);
      if methods == [] then Some(EMPTY) else Some(DropData(recovery.value.(methods := methods), m))
  }

  /** Sending a recovery SMS stores its code, whatever the methods are. */
  function SendSms(recovery: Option<Record>, code: string): Record {
    Prior(recovery).(sms := Some(code))
  }

  // ---------- Lockout and code use ----------

  predicate Locked(r: Record, now: int) {
    r.lockout.Some? && r.lockout.value.lockedUntil.Some? && r.lockout.value.lockedUntil.value > now
  }

  function RecordFailure(r: Record, now: int): Record {
    var l := if r.lockout.Some? then r.lockout.value else Lockout(0, None);
    var base := if l.lockedUntil.Some? && l.lockedUntil.value <= now then Lockout(0, None) else l;
    var failed := base.failedAttempts + 1;
    r.(lockout := Some(Lockout(failed, if failed >= MAX_RECOVERY_ATTEMPTS then Some(now + LOCKOUT_DURATION_MS) else base.lockedUntil)))
  }

  /** `clearRecoveryLockout`. */
  function Cleared(lockout: Option<Lockout>): Option<Lockout> {
    if lockout.Some? then Some(Lockout(0, None)) else None
  }

  function RemoveCode(codes: seq<CodeHash>, code: CodeHash): (r: seq<CodeHash>)
    ensures forall c :: c in r <==> c in codes && c != code
  {
    if codes == [] then []
    else if codes[0] == code then RemoveCode(codes[1..], code)
    else [codes[0]] + RemoveCode(codes[1..], code)
  }

  datatype Attempt = Attempt(recovery: Option<Record>, recovered: bool)

  /** `processRecoveryBackupCodes`: `matched` is the stored hash the verifier matched, if any. */
  function UseBackupCode(recovery: Option<Record>, matched: Option<CodeHash>, now: int): Attempt {
    if recovery.None? || recovery.value.backupCodes.None? || Locked(recovery.value, now) then Attempt(recovery, false)
    else
      var r := recovery.value;
      if matched.None? then Attempt(Some(RecordFailure(r, now)), false)
      else
        Attempt(Some(r.(backupCodes := Some(RemoveCode(r.backupCodes.value, matched.value)),
                        lockout := Cleared(r.lockout))), true)
  }

  /** An SMS or secondary-email recovery, which shares the lockout of backup codes. */
  function UseOtherCode(recovery: Option<Record>, accepted: bool, now: int): Option<Record> {
    if recovery.Some? && Locked(recovery.value, now) then recovery
    else if !accepted then Some(RecordFailure(Prior(recovery), now))
    else if recovery.None? then None
    else Some(recovery.value.(lockout := Cleared(recovery.value.lockout)))
  }

  // ---------- Runs ----------

  datatype Step =
    | Enable(codes: seq<CodeHash>, email: Option<string>)
    | EnableEmail(address: string)
    | SaveQuestions(questions: seq<string>)
    | EnrolCodes(codes: seq<CodeHash>)
    | RegenerateCodes(codes: seq<CodeHash>)
    | DisableMethod(m: RecoveryMethod)
    | SmsSent(code: string)
    | CodeUsed(matched: Option<CodeHash>, now: int)
    | OtherCodeUsed(accepted: bool, now: int)

  /** The verifier only ever matches a stored code. */
  predicate Possible(recovery: Option<Record>, step: Step) {
    step.CodeUsed? && step.matched.Some? ==>
      recovery.Some? && recovery.value.backupCodes.Some? && step.matched.value in recovery.value.backupCodes.value
  }

  function Apply(recovery: Option<Record>, step: Step): Option<Record> {
    match step
    case Enable(codes, email) => Some(EnableBackupCodes(recovery, codes, email))
    case EnableEmail(address) => Some(EnableSecondaryEmail(recovery, address))
    case SaveQuestions(questions) => Some(SaveSecurityQuestions(recovery, questions))
    case EnrolCodes(codes) => Some(BuildWithBackupCodes(recovery, codes))
    case RegenerateCodes(codes) => Regenerate(recovery, codes)
    case DisableMethod(m) => Disable(recovery, m)
    case SmsSent(code) => Some(SendSms(recovery, code))
    case CodeUsed(matched, now) => UseBackupCode(recovery, matched, now).recovery
    case OtherCodeUsed(accepted, now) => UseOtherCode(recovery, accepted, now)
  }

  /** No duplicates, enabled exactly when a method is listed, data exactly for the listed methods. */
  ghost predicate WellFormed(r: Record) {
    && NoDuplicates(r.methods)
    && (r.enabled <==> r.methods != [])
    && (r.backupCodes.Some? <==> Supported(BackupCodes) in r.methods)
    && (r.secondaryEmail.Some? <==> Supported(SecondaryEmail) in r.methods)
    && (r.securityQuestions.Some? <==> Supported(SecurityQuestions) in r.methods)
    && LockoutOk(r.lockout)
  }

  ghost predicate Ok(recovery: Option<Record>) {
    recovery.Some? ==> WellFormed(recovery.value)
  }

  // ---------- Every operation keeps the record well formed ----------

  ghost predicate LockoutOk(lockout: Option<Lockout>) {
    lockout.Some? ==>
      && lockout.value.failedAttempts <= MAX_RECOVERY_ATTEMPTS
      && (lockout.value.failedAttempts == MAX_RECOVERY_ATTEMPTS ==> lockout.value.lockedUntil.Some?)
  }

  lemma EnablingKeepsWellFormed(recovery: Option<Record>, codes: seq<CodeHash>, email: Option<string>)
    requires Ok(recovery)
    ensures WellFormed(EnableBackupCodes(recovery, codes, email))
  {
    var with := AddOnce(Normalize(Prior(recovery).methods), Supported(BackupCodes));
    assert Supported(BackupCodes) in with && Supported(BackupCodes) in AddOnce(with, Supported(SecondaryEmail));
  }

  lemma AddingKeepsWellFormed(recovery: Option<Record>, step: Step)
    requires Ok(recovery)
    requires step.EnableEmail? || step.SaveQuestions? || step.EnrolCodes? || step.RegenerateCodes?
    ensures Ok(Apply(recovery, step))
  {
    var m := if step.EnableEmail? then SecondaryEmail else if step.SaveQuestions? then SecurityQuestions else BackupCodes;
    var names := Prior(recovery).methods;
    assert Supported(m) in AddOnce(Normalize(names), Supported(m)) && Supported(m) in AddOnce(Distinct(names), Supported(m));
  }

  lemma DisablingKeepsWellFormed(recovery: Option<Record>, m: RecoveryMethod)
    requires Ok(recovery)
    ensures Ok(Disable(recovery, m))
  {
    if recovery.Some? {
      var methods := Without(Normalize(recovery.value.methods), m);
      if methods != [] {
        assert methods[0] in recovery.value.methods;
      }
    }
  }

  lemma UsingKeepsWellFormed(recovery: Option<Record>, matched: Option<CodeHash>, now: int)
    requires Ok(recovery)
    ensures Ok(UseBackupCode(recovery, matched, now).recovery)
    ensures forall accepted :: Ok(UseOtherCode(recovery, accepted, now))
  {
  }

  lemma StepKeepsWellFormed(recovery: Option<Record>, step: Step)
    requires Ok(recovery)
    ensures Ok(Apply(recovery, step))
  {
    match step
    case Enable(codes, email) => EnablingKeepsWellFormed(recovery, codes, email);
    case DisableMethod(m) => DisablingKeepsWellFormed(recovery, m);
    case CodeUsed(matched, now) => UsingKeepsWellFormed(recovery, matched, now);
    case OtherCodeUsed(_, now) => UsingKeepsWellFormed(recovery, None, now);
    case SmsSent(_) =>
    case _ => AddingKeepsWellFormed(recovery, step);
  }

  function Run(recovery: Option<Record>, steps: seq<Step>): Option<Record>
    decreases |steps|
  {
    if steps == [] then recovery else Run(Apply(recovery, steps[0]), steps[1..])
  }

  /** Every sequence of recovery operations keeps the record well formed. */
  lemma {:induction false} RunKeepsWellFormed(recovery: Option<Record>, steps: seq<Step>)
    requires Ok(recovery)
    ensures Ok(Run(recovery, steps))
    decreases |steps|
  {
    if steps != [] {
      StepKeepsWellFormed(recovery, steps[0]);
      RunKeepsWellFormed(Apply(recovery, steps[0]), steps[1..]);
    }
  }

  // ---------- Backup codes are spent, never copied ----------

  /** The hashes a recovery could still be made with. */
  ghost function Stored(recovery: Option<Record>): set<CodeHash> {
    if recovery.Some? && recovery.value.backupCodes.Some? then Elems(recovery.value.backupCodes.value) else {}
  }

  /** Does this step let the visitor in? */
  predicate Recovers(recovery: Option<Record>, step: Step) {
    step.CodeUsed? && UseBackupCode(recovery, step.matched, step.now).recovered
  }

  predicate Generates(step: Step) {
    step.Enable? || step.EnrolCodes? || step.RegenerateCodes?
  }

  /** Each match is of a code stored at that moment, and no new codes are generated. */
  ghost predicate OneGeneration(recovery: Option<Record>, steps: seq<Step>)
    decreases |steps|
  {
    steps != [] ==>
      && !Generates(steps[0])
      && Possible(recovery, steps[0])
      && OneGeneration(Apply(recovery, steps[0]), steps[1..])
  }

  /** The hashes that let somebody in, oldest first. */
  function Spent(recovery: Option<Record>, steps: seq<Step>): seq<CodeHash>
    decreases |steps|
  {
    if steps == [] then []
    else
      (if Recovers(recovery, steps[0]) then [steps[0].matched.value] else []) + Spent(Apply(recovery, steps[0]), steps[1..])
  }

  lemma UseSpends(recovery: Option<Record>, matched: Option<CodeHash>, now: int)
    requires Possible(recovery, CodeUsed(matched, now))
    ensures var attempt := UseBackupCode(recovery, matched, now);
      && (attempt.recovered ==> matched.Some? && matched.value in Stored(recovery) && Stored(attempt.recovery) == Stored(recovery) - {matched.value})
      && (!attempt.recovered ==> Stored(attempt.recovery) == Stored(recovery))
  {
  }

  lemma OthersSpendNothing(recovery: Option<Record>, step: Step)
    requires !Generates(step) && !step.CodeUsed?
    ensures Stored(Apply(recovery, step)) <= Stored(recovery)
    ensures !step.DisableMethod? ==> Stored(Apply(recovery, step)) == Stored(recovery)
  {
  }

  lemma StepSpends(recovery: Option<Record>, step: Step)
    requires Possible(recovery, step) && !Generates(step)
    ensures Recovers(recovery, step) ==>
      step.matched.value in Stored(recovery) && Stored(Apply(recovery, step)) == Stored(recovery) - {step.matched.value}
    ensures !Recovers(recovery, step) ==> Stored(Apply(recovery, step)) <= Stored(recovery)
    ensures !Recovers(recovery, step) && !step.DisableMethod? ==> Stored(Apply(recovery, step)) == Stored(recovery)
  {
    if step.CodeUsed? {
      UseSpends(recovery, step.matched, step.now);
    } else {
      OthersSpendNothing(recovery, step);
    }
  }

  /**
   * Between two generations every code lets somebody in at most once: the spent codes are distinct,
   * were stored at the start and are gone at the end; only disabling a method can lose others.
   */
  lemma {:induction false} CodesAreSpentOnce(recovery: Option<Record>, steps: seq<Step>)
    requires OneGeneration(recovery, steps)
    ensures NoDuplicates(Spent(recovery, steps))
    ensures Elems(Spent(recovery, steps)) !! Stored(Run(recovery, steps))
    ensures Elems(Spent(recovery, steps)) + Stored(Run(recovery, steps)) <= Stored(recovery)
    ensures (forall step :: step in steps ==> !step.DisableMethod?) ==>
      Elems(Spent(recovery, steps)) + Stored(Run(recovery, steps)) == Stored(recovery)
    decreases |steps|
  {
    if steps != [] {
      var step, rest := steps[0], steps[1..];
      var next := Apply(recovery, step);
      StepSpends(recovery, step);
      CodesAreSpentOnce(next, rest);
      assert forall s :: s in steps <==> s == step || s in rest;
      var tail := Spent(next, rest);
      assert forall x :: x in tail <==> x in Elems(tail);
      if Recovers(recovery, step) {
        assert Elems([step.matched.value] + tail) == {step.matched.value} + Elems(tail);
      } else {
        assert [] + tail == tail;
      }
    }
  }

  lemma {:induction false} DistinctCount<T>(s: seq<T>, within: set<T>)
    requires NoDuplicates(s) && Elems(s) <= within
    ensures |s| <= |within|
  {
    if s != [] {
      var init, last := s[..|s| - 1], s[|s| - 1];
      assert s == init + [last];
      assert last in Elems(s) && last !in init;
      assert forall x :: x in init ==> x in Elems(s);
      DistinctCount(init, within - {last});
    }
  }

  /** So recoveries never outnumber the distinct codes generated. */
  lemma RecoveriesAreBounded(recovery: Option<Record>, steps: seq<Step>)
    requires OneGeneration(recovery, steps)
    ensures |Spent(recovery, steps)| <= |Stored(recovery)|
  {
    CodesAreSpentOnce(recovery, steps);
    DistinctCount(Spent(recovery, steps), Stored(recovery));
  }

  // ---------- Lockout ----------

  /** A code, of any of the three kinds, reached its verifier and was refused. */
  predicate WrongGuess(recovery: Option<Record>, step: Step) {
    match step
    case CodeUsed(matched, now) =>
      matched.None? && recovery.Some? && recovery.value.backupCodes.Some? && !Locked(recovery.value, now)
    case OtherCodeUsed(accepted, now) => !accepted && (recovery.Some? ==> !Locked(recovery.value, now))
    case _ => false
  }

  function WrongGuesses(recovery: Option<Record>, steps: seq<Step>): nat
    decreases |steps|
  {
    if steps == [] then 0
    else (if WrongGuess(recovery, steps[0]) then 1 else 0) + WrongGuesses(Apply(recovery, steps[0]), steps[1..])
  }

  /** A recovery of any kind clears the lockout; so does disabling the last method. */
  predicate Clears(recovery: Option<Record>, step: Step) {
    || Recovers(recovery, step)
    || (step.OtherCodeUsed? && step.accepted && (recovery.Some? ==> !Locked(recovery.value, step.now)))
    || (step.DisableMethod? && Disable(recovery, step.m) == Some(EMPTY))
  }

  function Clearings(recovery: Option<Record>, steps: seq<Step>): nat
    decreases |steps|
  {
    if steps == [] then 0
    else (if Clears(recovery, steps[0]) then 1 else 0) + Clearings(Apply(recovery, steps[0]), steps[1..])
  }

  /** Wrong guesses still open to a visitor during the half hour that begins at `from`. */
  function BudgetOf(lockout: Option<Lockout>, from: int): int {
    if lockout.None? then MAX_RECOVERY_ATTEMPTS
    else if lockout.value.lockedUntil.None? then MAX_RECOVERY_ATTEMPTS - lockout.value.failedAttempts
    else if lockout.value.lockedUntil.value >= from + LOCKOUT_DURATION_MS then 0
    else MAX_RECOVERY_ATTEMPTS
  }

  function Budget(recovery: Option<Record>, from: int): int {
    BudgetOf(Prior(recovery).lockout, from)
  }

  predicate Timed(step: Step) {
    step.CodeUsed? || step.OtherCodeUsed?
  }

  predicate Within(steps: seq<Step>, from: int) {
    forall step :: step in steps && Timed(step) ==> from <= step.now < from + LOCKOUT_DURATION_MS
  }

  /** Nobody gets in while locked out, and a locked-out attempt changes nothing. */
  lemma LockedOutIsIdle(recovery: Option<Record>, step: Step)
    requires Timed(step) && recovery.Some? && Locked(recovery.value, step.now)
    ensures !Recovers(recovery, step) && Apply(recovery, step) == recovery
  {
  }

  /** A wrong guess takes at least one from the budget. */
  lemma FailureSpends(r: Record, now: int, from: int)
    requires LockoutOk(r.lockout) && !Locked(r, now) && from <= now < from + LOCKOUT_DURATION_MS
    ensures BudgetOf(RecordFailure(r, now).lockout, from) < BudgetOf(r.lockout, from)
  {
  }

  lemma DisablingKeepsLockout(recovery: Option<Record>, m: RecoveryMethod)
    requires Disable(recovery, m) != Some(EMPTY)
    ensures Prior(Disable(recovery, m)).lockout == Prior(recovery).lockout
  {
  }

  lemma AddingKeepsLockout(recovery: Option<Record>, step: Step)
    requires !Timed(step) && !step.DisableMethod?
    ensures Prior(Apply(recovery, step)).lockout == Prior(recovery).lockout
  {
  }

  /** Nothing but a guess touches the lockout, unless it clears it. */
  lemma LockoutKept(recovery: Option<Record>, step: Step)
    requires !Timed(step) && !Clears(recovery, step)
    ensures Prior(Apply(recovery, step)).lockout == Prior(recovery).lockout
  {
    if step.DisableMethod? {
      DisablingKeepsLockout(recovery, step.m);
    } else {
      AddingKeepsLockout(recovery, step);
    }
  }

  lemma StepSpendsBudget(recovery: Option<Record>, step: Step, from: int)
    requires Ok(recovery)
    requires Timed(step) ==> from <= step.now < from + LOCKOUT_DURATION_MS
    ensures 0 <= Budget(recovery, from) <= MAX_RECOVERY_ATTEMPTS
    ensures !Clears(recovery, step) ==>
      Budget(Apply(recovery, step), from) <= Budget(recovery, from) - (if WrongGuess(recovery, step) then 1 else 0)
    ensures Clears(recovery, step) ==> !WrongGuess(recovery, step)
  {
    if !Timed(step) {
      if !Clears(recovery, step) {
        LockoutKept(recovery, step);
      }
    } else if WrongGuess(recovery, step) {
      FailureSpends(Prior(recovery), step.now, from);
    }
  }

  /** Any half hour sees at most five wrong guesses, plus five for each time the lockout was cleared in it. */
  lemma {:induction false} GuessingIsBounded(recovery: Option<Record>, steps: seq<Step>, from: int)
    requires Ok(recovery) && Within(steps, from)
    ensures WrongGuesses(recovery, steps) <= Budget(recovery, from) + MAX_RECOVERY_ATTEMPTS * Clearings(recovery, steps)
    ensures WrongGuesses(recovery, steps) <= MAX_RECOVERY_ATTEMPTS * (1 + Clearings(recovery, steps))
    decreases |steps|
  {
    StepSpendsBudget(recovery, SmsSent(""), from);
    if steps != [] {
      var next := Apply(recovery, steps[0]);
      StepSpendsBudget(recovery, steps[0], from);
      StepKeepsWellFormed(recovery, steps[0]);
      StepSpendsBudget(next, SmsSent(""), from);
      assert forall s :: s in steps[1..] ==> s in steps;
      GuessingIsBounded(next, steps[1..], from);
    }
  }
}
