/** The recovery record of one account, rebuilt and written back by each request. */
module RecoveryController {
  import opened Wrappers
  import Recovery
  type RecoveryMethod = Recovery.RecoveryMethod
  type CodeHash = Recovery.CodeHash

  /** `verifyBackupCode`: every usable hash is tried, and the first match is reported. */
  method VerifyBackupCode(code: string, hashes: seq<CodeHash>, verifies: (string, CodeHash) -> bool)
    returns (matched: Option<CodeHash>)
    ensures matched.None? <==> forall h :: h in hashes && h != "" ==> !verifies(code, h)
    ensures matched.Some? ==> exists i ::
      && 0 <= i < |hashes| && hashes[i] == matched.value && hashes[i] != "" && verifies(code, hashes[i])
      && forall j :: 0 <= j < i && hashes[j] != "" ==> !verifies(code, hashes[j])
  {
    matched := None;
    for i := 0 to |hashes|
      invariant matched.None? ==> forall j :: 0 <= j < i && hashes[j] != "" ==> !verifies(code, hashes[j])
      invariant matched.Some? ==> exists j ::
        && 0 <= j < i && hashes[j] == matched.value && hashes[j] != "" && verifies(code, hashes[j])
        && forall k :: 0 <= k < j && hashes[k] != "" ==> !verifies(code, hashes[k])
    {
      if hashes[i] != "" {
        var valid := verifies(code, hashes[i]);
        if valid && matched.None? {
          matched := Some(hashes[i]);
        }
      }
    }
  }

  /** `normalizeRecoveryMethods`: filter the stored names into an insertion-ordered set. */
  method NormalizeRecoveryMethods(stored: seq<Recovery.MethodName>) returns (methods: seq<Recovery.MethodName>)
    ensures methods == Recovery.Normalize(stored)
  {
    methods := [];
    for i := 0 to |stored|
      invariant methods == Recovery.Normalize(stored[..i])
    {
      assert stored[..i + 1][..i] == stored[..i];
      if stored[i].Supported? && stored[i] !in methods {
        methods := methods + [stored[i]];
      }
    }
    assert stored[..|stored|] == stored;
  }

  /** `Array.from(new Set(stored))`. */
  method DistinctMethods(stored: seq<Recovery.MethodName>) returns (methods: seq<Recovery.MethodName>)
    ensures methods == Recovery.Distinct(stored)
  {
    methods := [];
    for i := 0 to |stored|
      invariant methods == Recovery.Distinct(stored[..i])
    {
      assert stored[..i + 1][..i] == stored[..i];
      if stored[i] !in methods {
        methods := methods + [stored[i]];
      }
    }
    assert stored[..|stored|] == stored;
  }

  /** `methods.filter(m => m !== method)`. */
  method FilterOut(methods: seq<Recovery.MethodName>, m: RecoveryMethod) returns (kept: seq<Recovery.MethodName>)
    ensures kept == Recovery.Without(methods, m)
  {
    kept := [];
    for i := 0 to |methods|
      invariant kept == Recovery.Without(methods[..i], m)
    {
      assert methods[..i + 1][..i] == methods[..i];
      if methods[i] != Recovery.Supported(m) {
        kept := kept + [methods[i]];
      }
    }
    assert methods[..|methods|] == methods;
  }

  predicate UsableEmail(email: string) {
    !Blank(email) && '@' in email
  }

  class Account {
    var recovery: Option<Recovery.Record>

    /**
     * Backup codes, chosen alone or by "recovery setup" together with an address. `address` is the
     * address as `generateSecondaryEmailVerification` stores it; where that throws, nothing is stored.
     */
    method EnableBackupCodes(codes: seq<CodeHash>, email: string, address: string -> Option<string>) returns (thrown: bool)
      modifies this
      ensures thrown == (UsableEmail(email) && address(Trim(email)).None?)
      ensures recovery ==
        if thrown then old(recovery)
        else Recovery.Apply(old(recovery), Recovery.Enable(codes, if UsableEmail(email) then address(Trim(email)) else None))
      ensures Recovery.Ok(old(recovery)) ==> Recovery.Ok(recovery)
    {
      Established(Recovery.Enable(codes, if UsableEmail(email) then address(Trim(email)) else None));
      var existing := if recovery.None? then Recovery.EMPTY else recovery.value;
      var methods := NormalizeRecoveryMethods(existing.methods);
      if Recovery.Supported(Recovery.BackupCodes) !in methods {
        methods := methods + [Recovery.Supported(Recovery.BackupCodes)];
      }
      var config := existing.(enabled := true, methods := methods, backupCodes := Some(codes));
      if UsableEmail(email) {
        var stored := address(Trim(email));
        if stored.None? {
          return true;
        }
        if Recovery.Supported(Recovery.SecondaryEmail) !in methods {
          methods := methods + [Recovery.Supported(Recovery.SecondaryEmail)];
        }
        config := config.(methods := methods, secondaryEmail := stored);
      }
      recovery := Some(config);
      return false;
    }

    /** A secondary address alone; one without `@` is sent back, and an invalid one throws. */
    method EnableSecondaryEmail(email: string, address: string -> Option<string>)
      modifies this
      ensures recovery ==
        if '@' in email && address(Trim(email)).Some?
        then Recovery.Apply(old(recovery), Recovery.EnableEmail(address(Trim(email)).value)) else old(recovery)
      ensures Recovery.Ok(old(recovery)) ==> Recovery.Ok(recovery)
    {
      if '@' !in email {
        return;
      }
      var stored := address(Trim(email));
      if stored.None? {
        return;
      }
      Established(Recovery.EnableEmail(stored.value));
      var existing := if recovery.None? then Recovery.EMPTY else recovery.value;
      var methods := NormalizeRecoveryMethods(existing.methods);
      if Recovery.Supported(Recovery.SecondaryEmail) !in methods {
        methods := methods + [Recovery.Supported(Recovery.SecondaryEmail)];
      }
      recovery := Some(existing.(enabled := true, methods := methods, secondaryEmail := stored));
    }

    /** `disableRecovery`: filter the list, delete the one field, and start afresh when the list is empty. */
    method DisableRecovery(m: RecoveryMethod)
      modifies this
      ensures recovery == Recovery.Apply(old(recovery), Recovery.DisableMethod(m))
      ensures Recovery.Ok(old(recovery)) ==> Recovery.Ok(recovery)
    {
      Established(Recovery.DisableMethod(m));
      if recovery.None? {
        return;
      }
      var methods := NormalizeRecoveryMethods(recovery.value.methods);
      methods := FilterOut(methods, m);
      var updated := recovery.value.(methods := methods);
      match m {
        case BackupCodes => updated := updated.(backupCodes := None);
        case SecondaryEmail => updated := updated.(secondaryEmail := None);
        case Sms => updated := updated.(sms := None);
        case SecurityQuestions => updated := updated.(securityQuestions := None);
      }
      if methods == [] {
        updated := Recovery.EMPTY;
      }
      recovery := Some(updated);
    }

    method RegenerateBackupCodes(codes: seq<CodeHash>)
      modifies this
      ensures recovery == Recovery.Apply(old(recovery), Recovery.RegenerateCodes(codes))
      ensures Recovery.Ok(old(recovery)) ==> Recovery.Ok(recovery)
    {
      Established(Recovery.RegenerateCodes(codes));
      if recovery.None? || !recovery.value.enabled {
        return;
      }
      var methods := NormalizeRecoveryMethods(recovery.value.methods);
      if Recovery.Supported(Recovery.BackupCodes) !in methods {
        methods := methods + [Recovery.Supported(Recovery.BackupCodes)];
      }
      recovery := Some(recovery.value.(methods := methods, backupCodes := Some(codes)));
    }

    /** `new Set([...methods, 'security_questions'])`. */
    method SaveSecurityQuestions(questions: seq<string>)
      modifies this
      ensures recovery == Recovery.Apply(old(recovery), Recovery.SaveQuestions(questions))
      ensures Recovery.Ok(old(recovery)) ==> Recovery.Ok(recovery)
    {
      Established(Recovery.SaveQuestions(questions));
      var existing := if recovery.None? then Recovery.EMPTY else recovery.value;
      var normal := NormalizeRecoveryMethods(existing.methods);
      var added := normal + [Recovery.Supported(Recovery.SecurityQuestions)];
      var methods := DistinctMethods(added);
      Recovery.DistinctOfAdded(normal, Recovery.Supported(Recovery.SecurityQuestions));
      recovery := Some(existing.(enabled := true, methods := methods, securityQuestions := Some(questions)));
    }

    /** `buildRecoveryWithBackupCodes` at MFA enrolment. */
    method EnrolBackupCodes(codes: seq<CodeHash>)
      modifies this
      ensures recovery == Recovery.Apply(old(recovery), Recovery.EnrolCodes(codes))
      ensures Recovery.Ok(old(recovery)) ==> Recovery.Ok(recovery)
    {
      Established(Recovery.EnrolCodes(codes));
      var existing := if recovery.None? then Recovery.EMPTY else recovery.value;
      var added := existing.methods + [Recovery.Supported(Recovery.BackupCodes)];
      var methods := DistinctMethods(added);
      assert added[..|added| - 1] == existing.methods;
      recovery := Some(existing.(enabled := true, methods := methods, backupCodes := Some(codes)));
    }

    lemma Established(step: Recovery.Step)
      ensures Recovery.Ok(recovery) ==> Recovery.Ok(Recovery.Apply(recovery, step))
    {
      if Recovery.Ok(recovery) {
        Recovery.StepKeepsWellFormed(recovery, step);
      }
    }

    /**
     * `processRecoveryBackupCodes`; `usable` says that the codes have not expired and the code has the
     * right format. An empty code is sent back without a trace; any other request is a possible
     * `CodeUsed` step of the recovery record, and it recovers exactly when a stored hash verifies and the account is not locked out.
     */
    method ProcessRecoveryBackupCodes(code: string, usable: bool, verifies: (string, CodeHash) -> bool, now: int)
      returns (recovered: bool)
      modifies this
      ensures Blank(code) ==> recovery == old(recovery)
      ensures !Blank(code) ==> exists matched :: (
        var step := Recovery.CodeUsed(matched, now);
        && Recovery.Possible(old(recovery), step)
        && recovery == Recovery.Apply(old(recovery), step)
        && recovered == Recovery.Recovers(old(recovery), step))
      ensures recovered <==>
        && !Blank(code) && usable && old(recovery).Some? && old(recovery).value.backupCodes.Some?
        && !Recovery.Locked(old(recovery).value, now)
        && exists h :: h in old(recovery).value.backupCodes.value && h != "" && verifies(code, h)
    {
      recovered := false;
      if Blank(code) {
        return;
      }
      ghost var before := recovery;
      var matched := None;
      if recovery.Some? && recovery.value.backupCodes.Some? && !Recovery.Locked(recovery.value, now) {
        if usable {
          matched := VerifyBackupCode(code, recovery.value.backupCodes.value, verifies);
        }
        if matched.None? {
          recovery := Some(Recovery.RecordFailure(recovery.value, now));
        } else {
          var codes := Recovery.RemoveCode(recovery.value.backupCodes.value, matched.value);
          recovery := Some(recovery.value.(backupCodes := Some(codes), lockout := Recovery.Cleared(recovery.value.lockout)));
          recovered := true;
        }
      }
      assert Recovery.Possible(before, Recovery.CodeUsed(matched, now));
      assert recovery == Recovery.Apply(before, Recovery.CodeUsed(matched, now));
    }
  }
}
