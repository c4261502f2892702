/** The provider object of `base-social-login.ts`, as it updates the store request by request. */
module SocialLogin {
  import opened Wrappers
  import opened SocialIntegrations

  class Provider {
    const provider: string
    var db: Store

    constructor (provider: string, db: Store)
      ensures this.provider == provider && this.db == db
    {
      this.provider, this.db := provider, db;
    }

    /** The repository's `findOne`: some record satisfying the filter, if there is any. */
    method FindOne(filter: Integration -> bool) returns (found: Option<nat>)
      ensures Answer(db, filter, found)
    {
      var ids := set i | i in db.records && filter(db.records[i]);
      if ids == {} {
        assert forall i :: i in db.records && filter(db.records[i]) ==> i in ids;
        return None;
      }
      var id :| id in ids;
      return Some(id);
    }

    method CreateIntegration(user: string, subject: string) returns (thrown: bool)
      modifies this
      ensures thrown == CreateThrows(old(db), user, provider, subject)
      ensures db == if thrown then old(db) else Create(old(db), user, provider, subject)
    {
      thrown := CreateThrows(db, user, provider, subject);
      if !thrown {
        db := Create(db, user, provider, subject);
      }
    }

    method LinkToUser(user: string, subject: string) returns (result: Result, ghost known: Option<nat>)
      modifies this
      ensures Answer(old(db), AnyByUser(user, provider), known)
      ensures (db, result) == SocialIntegrations.LinkToUser(old(db), user, provider, subject, known)
    {
      known := SomeAnswer(db, AnyByUser(user, provider));
      var bySubject := FindOne(ActiveBySubject(provider, subject));
      if bySubject.Some? {
        return Thrown, known;
      }
      var byUser := FindOne(ActiveByUser(user, provider));
      if byUser.Some? {
        return Thrown, known;
      }
      var deactivated := FindOne(AnyByUser(user, provider));
      known := deactivated;
      if deactivated.Some? {
        db := SetActive(db, deactivated.value, true);
        return Linked(user), known;
      }
      var thrown := CreateIntegration(user, subject);
      return if thrown then Thrown else Linked(user), known;
    }

    /** The account page's unlink request, with the guard on the last way to sign in. */
    method UnlinkAccount(user: string) returns (result: Result, ghost found: Option<nat>)
      modifies this
      ensures Answer(old(db), ActiveByUser(user, provider), found)
      ensures (db, result) == Unlink(old(db), user, provider, found)
    {
      found := SomeAnswer(db, ActiveByUser(user, provider));
      if user !in db.users {
        return Refused, found;
      }
      var hasPassword := db.users[user].hasPassword;
      var ids := ActiveIds(db, user);
      if |ids| == 1 && (exists i :: i in ids && db.records[i].provider == provider) && !hasPassword {
        return Refused, found;
      }
      var target := FindOne(ActiveByUser(user, provider));
      found := target;
      if target.None? {
        return Thrown, found;
      }
      db := SetActive(db, target.value, false);
      return Linked(user), found;
    }

    /** The linking branch of a callback, with its compensating write. */
    method LinkCurrentUser(behavior: Behavior, user: string, subject: string, fault: Fault) returns (result: Result, ghost known: Option<nat>)
      modifies this
      ensures Answer(old(db), AnyByUser(user, provider), known)
      ensures (db, result) == LinkSignedIn(old(db), behavior, user, provider, subject, known, fault)
    {
      known := SomeAnswer(db, AnyByUser(user, provider));
      var byUser := FindOne(ActiveByUser(user, provider));
      if byUser.Some? {
        return Refused, known;
      }
      var deactivated := FindOne(AnyByUser(user, provider));
      known := deactivated;
      if deactivated.Some? {
        if user !in db.users {
          return Refused, known;
        }
        db := SetActive(db, deactivated.value, true);
        return Linked(user), known;
      }
      var count := |ActiveIds(db, user)|;
      if (!behavior.allowMultipleProviders && count > 0) || count >= behavior.maxProvidersPerUser {
        return Refused, known;
      }
      var id := db.nextId;
      var thrown := CreateIntegration(user, subject);
      if thrown {
        return Thrown, known;
      }
      if fault.NoFault? {
        return Linked(user), known;
      }
      if fault.LookupFails? {
        db := SetActive(db, id, false);
      }
      return Thrown, known;
    }

    /** `handleUserIntegration`: `session` is the active user, `owner` the user with the profile's email. */
    method HandleUserIntegration(behavior: Behavior, session: Option<string>, profile: Profile, owner: Option<string>, fault: Fault)
      returns (result: Result, ghost found: Option<nat>, ghost known: Option<nat>)
      modifies this
      ensures Answer(old(db), ActiveBySubject(provider, profile.subject), found)
      ensures if session.Some? then Answer(old(db), AnyByUser(session.value, provider), known) else known == None
      ensures (db, result) == HandleCallback(old(db), behavior, session, provider, profile, found, known, owner, fault)
    {
      var existing := FindOne(ActiveBySubject(provider, profile.subject));
      found, known := existing, None;
      if session.Some? {
        known := SomeAnswer(db, AnyByUser(session.value, provider));
      }
      if existing.Some? {
        var user := db.records[existing.value].user;
        if (session.Some? && session.value != user) || user !in db.users {
          return Refused, found, known;
        }
        return Linked(user), found, known;
      }
      if profile.email.None? && !profile.hasPhone {
        return Refused, found, known;
      }
      if session.Some? {
        result, known := LinkCurrentUser(behavior, session.value, profile.subject, fault);
        return;
      }
      if owner.None? || !behavior.autoLink || !profile.emailVerified {
        return Refused, found, known;
      }
      var thrown := CreateIntegration(owner.value, profile.subject);
      return if thrown then Thrown else Linked(owner.value), found, known;
    }
  }
}
