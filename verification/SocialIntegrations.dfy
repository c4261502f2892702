/**
 The social-integration store: linking, unlinking and callbacks, with requests serialised.
 A lookup may return any matching record, so each step carries the records it was given.
 */
module SocialIntegrations {
  import opened Wrappers

  /** A stored link; `subject` is the provider subject written when the record was created. */
  datatype Integration = Integration(user: string, provider: string, subject: string, active: bool)

  datatype User = User(email: Option<string>, hasPassword: bool)

  /** `indexed` stores reject a second record with the same user and provider, or provider and subject. */
  datatype Store = Store(records: map<nat, Integration>, users: map<string, User>, nextId: nat, indexed: bool)

  datatype Profile = Profile(subject: string, email: Option<string>, hasPhone: bool, emailVerified: bool)

  datatype Behavior = Behavior(allowMultipleProviders: bool, maxProvidersPerUser: nat, autoLink: bool)

  datatype Result = Linked(user: string) | Refused | Thrown

  // ---------- Lookups ----------

  predicate OfUser(r: Integration, user: string, provider: string) {
    r.user == user && r.provider == provider
  }

  predicate OfSubject(r: Integration, provider: string, subject: string) {
    r.provider == provider && r.subject == subject
  }

  predicate HasActiveSubject(db: Store, provider: string, subject: string) {
    exists i :: i in db.records && db.records[i].active && OfSubject(db.records[i], provider, subject)
  }

  predicate HasActiveOfUser(db: Store, user: string, provider: string) {
    exists i :: i in db.records && db.records[i].active && OfUser(db.records[i], user, provider)
  }

  /** `found` is a possible answer of a lookup over the records satisfying `p`. */
  ghost predicate Answer(db: Store, p: Integration -> bool, found: Option<nat>) {
    match found
    case Some(i) => i in db.records && p(db.records[i])
    case None => forall i :: i in db.records ==> !p(db.records[i])
  }

  /** A lookup always has an answer. */
  lemma SomeAnswer(db: Store, p: Integration -> bool) returns (found: Option<nat>)
    ensures Answer(db, p, found)
  {
    if i :| i in db.records && p(db.records[i]) {
      found := Some(i);
    } else {
      found := None;
    }
  }

  function ActiveBySubject(provider: string, subject: string): Integration -> bool {
    (r: Integration) => r.active && OfSubject(r, provider, subject)
  }

  function ActiveByUser(user: string, provider: string): Integration -> bool {
    (r: Integration) => r.active && OfUser(r, user, provider)
  }

  function AnyByUser(user: string, provider: string): Integration -> bool {
    (r: Integration) => OfUser(r, user, provider)
  }

  /** `findByUser`: the active records of a user. */
  function ActiveIds(db: Store, user: string): set<nat> {
    set i | i in db.records && db.records[i].active && db.records[i].user == user
  }

  // ---------- Writes ----------

  function SetActive(db: Store, id: nat, active: bool): Store
    requires id in db.records
  {
    db.(records := db.records[id := db.records[id].(active := active)])
  }

  predicate IndexRejects(db: Store, user: string, provider: string, subject: string) {
    db.indexed && exists i :: i in db.records && (OfUser(db.records[i], user, provider) || OfSubject(db.records[i], provider, subject))
  }

  predicate CreateThrows(db: Store, user: string, provider: string, subject: string) {
    || Blank(subject)
    || user !in db.users
    || HasActiveOfUser(db, user, provider)
    || HasActiveSubject(db, provider, subject)
    || IndexRejects(db, user, provider, subject)
  }

  function Create(db: Store, user: string, provider: string, subject: string): Store {
    db.(records := db.records[db.nextId := Integration(user, provider, subject, true)], nextId := db.nextId + 1)
  }

  // ---------- The operations ----------

  /** `linkToUser`; `known` answers the lookup that includes inactive records. */
  function LinkToUser(db: Store, user: string, provider: string, subject: string, known: Option<nat>): (Store, Result)
    requires known.Some? ==> known.value in db.records
  {
    if HasActiveSubject(db, provider, subject) || HasActiveOfUser(db, user, provider) then (db, Thrown)
    else if known.Some? then (SetActive(db, known.value, true), Linked(user))
    else if CreateThrows(db, user, provider, subject) then (db, Thrown)
    else (Create(db, user, provider, subject), Linked(user))
  }

  /** `unlinkSocialAccount` of the signed-in user; `found` answers the active lookup of `unlinkFromUser`. */
  function Unlink(db: Store, user: string, provider: string, found: Option<nat>): (Store, Result)
    requires found.Some? ==> found.value in db.records
  {
    var ids := ActiveIds(db, user);
    if user !in db.users then (db, Refused)
    else if |ids| == 1 && (exists i :: i in ids && db.records[i].provider == provider) && !db.users[user].hasPassword then (db, Refused)
    else if found.None? then (db, Thrown)
    else (SetActive(db, found.value, false), Linked(user))
  }

  /** What fails after a new record was created: nothing, the user lookup, or also the compensating write. */
  datatype Fault = NoFault | LookupFails | CompensationFails

  /** The branch for a signed-in user whose provider subject is not linked yet. */
  function LinkSignedIn(db: Store, behavior: Behavior, user: string, provider: string, subject: string, known: Option<nat>, fault: Fault): (Store, Result)
    requires known.Some? ==> known.value in db.records
  {
    if HasActiveOfUser(db, user, provider) then (db, Refused)
    else if known.Some? then
      if user in db.users then (SetActive(db, known.value, true), Linked(user)) else (db, Refused)
    else if !behavior.allowMultipleProviders && |ActiveIds(db, user)| > 0 then (db, Refused)
    else if |ActiveIds(db, user)| >= behavior.maxProvidersPerUser then (db, Refused)
    else if CreateThrows(db, user, provider, subject) then (db, Thrown)
    else
      var created := Create(db, user, provider, subject);
      match fault
      case NoFault => (created, Linked(user))
      case LookupFails => (SetActive(created, db.nextId, false), Thrown)
      case CompensationFails => (created, Thrown)
  }

  /** The branch without a signed-in user: link by a verified email, or leave it to registration. */
  function LinkByEmail(db: Store, behavior: Behavior, owner: Option<string>, provider: string, profile: Profile): (Store, Result) {
    if owner.Some? && behavior.autoLink && profile.emailVerified then
      if CreateThrows(db, owner.value, provider, profile.subject) then (db, Thrown)
      else (Create(db, owner.value, provider, profile.subject), Linked(owner.value))
    else (db, Refused)
  }

  /**
   `handleUserIntegration`. `found` answers the active lookup by subject, `known` the lookup
   by user including inactive records, and `owner` the lookup by email.
   */
  function HandleCallback(db: Store, behavior: Behavior, session: Option<string>, provider: string, profile: Profile,
                          found: Option<nat>, known: Option<nat>, owner: Option<string>, fault: Fault): (Store, Result)
    requires found.Some? ==> found.value in db.records
    requires known.Some? ==> known.value in db.records
  {
    if found.Some? then
      var user := db.records[found.value].user;
      if session.Some? && session.value != user then (db, Refused)
      else if user !in db.users then (db, Refused)
      else (db, Linked(user))
    else if profile.email.None? && !profile.hasPhone then (db, Refused)
    else if session.Some? then LinkSignedIn(db, behavior, session.value, provider, profile.subject, known, fault)
    else LinkByEmail(db, behavior, owner, provider, profile)
  }

  // ---------- Steps and runs ----------

  datatype Step =
    | Link(user: string, provider: string, subject: string, known: Option<nat>)
    | UnlinkAccount(user: string, provider: string, found: Option<nat>)
    | Callback(behavior: Behavior, session: Option<string>, provider: string, profile: Profile,
               found: Option<nat>, known: Option<nat>, owner: Option<string>, fault: Fault)
    | NewUser(user: string, account: User)

  /** The lookups answered truthfully; registration creates a user and then links it. */
  ghost predicate Enabled(db: Store, step: Step) {
    match step
    case Link(user, provider, subject, known) => Answer(db, AnyByUser(user, provider), known)
    case UnlinkAccount(user, provider, found) => Answer(db, ActiveByUser(user, provider), found)
    case Callback(_, session, provider, profile, found, known, owner, _) =>
      && Answer(db, ActiveBySubject(provider, profile.subject), found)
      && (if session.Some? then Answer(db, AnyByUser(session.value, provider), known) else known == None)
      && (owner.Some? ==> owner.value in db.users && db.users[owner.value].email == profile.email && profile.email.Some?)
    case NewUser(user, _) => user !in db.users
  }

  ghost function Apply(db: Store, step: Step): Store
    requires Enabled(db, step)
  {
    match step
    case Link(user, provider, subject, known) => LinkToUser(db, user, provider, subject, known).0
    case UnlinkAccount(user, provider, found) => Unlink(db, user, provider, found).0
    case Callback(behavior, session, provider, profile, found, known, owner, fault) =>
      HandleCallback(db, behavior, session, provider, profile, found, known, owner, fault).0
    case NewUser(user, account) => db.(users := db.users[user := account])
  }

  ghost predicate Run(db: Store, steps: seq<Step>, db': Store)
    decreases |steps|
  {
    if steps == [] then db' == db
    else Enabled(db, steps[0]) && Run(Apply(db, steps[0]), steps[1..], db')
  }

  // ---------- Every step is one of a few writes ----------

  datatype Effect =
    | Nothing
    | Reactivate(id: nat)
    | Deactivate(id: nat)
    | Insert(user: string, provider: string, subject: string, kept: bool)
    | AddUser(user: string, account: User)

  /** The store after a write, record by record. */
  function Do(db: Store, e: Effect): Store
    requires e.Reactivate? || e.Deactivate? ==> e.id in db.records
  {
    match e
    case Nothing => db
    case Reactivate(id) =>
      var r := db.records[id];
      Store(db.records[id := Integration(r.user, r.provider, r.subject, true)], db.users, db.nextId, db.indexed)
    case Deactivate(id) =>
      var r := db.records[id];
      Store(db.records[id := Integration(r.user, r.provider, r.subject, false)], db.users, db.nextId, db.indexed)
    case Insert(user, provider, subject, kept) =>
      Store(db.records[db.nextId := Integration(user, provider, subject, kept)], db.users, db.nextId + 1, db.indexed)
    case AddUser(user, account) => Store(db.records, db.users[user := account], db.nextId, db.indexed)
  }

  /** When each write happens. */
  ghost predicate Allowed(db: Store, e: Effect) {
    match e
    case Nothing => true
    case Reactivate(id) =>
      id in db.records && !HasActiveOfUser(db, db.records[id].user, db.records[id].provider)
    case Deactivate(id) =>
      && id in db.records && db.records[id].active && db.records[id].user in db.users
      && (|ActiveIds(db, db.records[id].user)| == 1 ==> db.users[db.records[id].user].hasPassword)
    case Insert(user, provider, subject, _) => !CreateThrows(db, user, provider, subject)
    case AddUser(user, _) => user !in db.users
  }

  /** An active record links this subject, or this user, to the provider. */
  predicate SubjectLinked(db: Store, provider: string, subject: string) {
    exists i :: i in db.records && db.records[i].active && db.records[i].provider == provider && db.records[i].subject == subject
  }

  predicate UserLinked(db: Store, user: string, provider: string) {
    exists i :: i in db.records && db.records[i].active && db.records[i].provider == provider && db.records[i].user == user
  }

  /** A new record may be created; an index also minds the records that are not active. */
  predicate Creatable(db: Store, user: string, provider: string, subject: string) {
    && (exists i :: 0 <= i < |subject| && !WhiteSpace(subject[i]))
    && user in db.users && !UserLinked(db, user, provider) && !SubjectLinked(db, provider, subject)
    && (db.indexed ==> forall i :: i in db.records && db.records[i].provider == provider ==>
          db.records[i].user != user && db.records[i].subject != subject)
  }

  /** Unlinking would leave the user without a password and without any other link. */
  ghost predicate LastWayIn(db: Store, user: string, provider: string)
    requires user in db.users
  {
    && !db.users[user].hasPassword
    && exists i :: i in db.records && db.records[i].active && db.records[i].user == user && db.records[i].provider == provider
                   && forall j :: j in db.records && db.records[j].active && db.records[j].user == user ==> j == i
  }

  /** The user may have a further provider. */
  predicate RoomForProvider(db: Store, behavior: Behavior, user: string) {
    |ActiveIds(db, user)| < behavior.maxProvidersPerUser && (|ActiveIds(db, user)| == 0 || behavior.allowMultipleProviders)
  }

  predicate HasContact(profile: Profile) {
    profile.email.Some? || profile.hasPhone
  }

  /** The write a step makes, by its guards. */
  ghost function EffectOf(db: Store, step: Step): Effect
    requires Enabled(db, step)
  {
    match step
    case Link(user, provider, subject, known) =>
      if SubjectLinked(db, provider, subject) || UserLinked(db, user, provider) then Nothing
      else if known.Some? then Reactivate(known.value)
      else if Creatable(db, user, provider, subject) then Insert(user, provider, subject, true)
      else Nothing
    case UnlinkAccount(user, provider, found) =>
      if user in db.users && found.Some? && !LastWayIn(db, user, provider) then Deactivate(found.value) else Nothing
    case Callback(behavior, session, provider, profile, found, known, owner, fault) =>
      if found.Some? || !HasContact(profile) then Nothing
      else if session.None? then
        if owner.Some? && behavior.autoLink && profile.emailVerified && Creatable(db, owner.value, provider, profile.subject)
        then Insert(owner.value, provider, profile.subject, true) else Nothing
      else if UserLinked(db, session.value, provider) then Nothing
      else if known.Some? then
        if session.value in db.users then Reactivate(known.value) else Nothing
      else if RoomForProvider(db, behavior, session.value) && Creatable(db, session.value, provider, profile.subject)
      then Insert(session.value, provider, profile.subject, fault != LookupFails)
      else Nothing
    case NewUser(user, account) => AddUser(user, account)
  }

  lemma CreatableMeans(db: Store, user: string, provider: string, subject: string)
    ensures CreateThrows(db, user, provider, subject) <==> !Creatable(db, user, provider, subject)
    ensures HasActiveSubject(db, provider, subject) <==> SubjectLinked(db, provider, subject)
    ensures HasActiveOfUser(db, user, provider) <==> UserLinked(db, user, provider)
  {
    if Blank(subject) {
      assert forall i :: 0 <= i < |subject| ==> WhiteSpace(subject[i]);
    } else {
      var c :| c in subject && !WhiteSpace(c);
      var i :| 0 <= i < |subject| && subject[i] == c;
    }
  }

  lemma LastWayInMeans(db: Store, user: string, provider: string)
    requires user in db.users
    ensures var ids := ActiveIds(db, user);
      LastWayIn(db, user, provider) <==>
        |ids| == 1 && (exists i :: i in ids && db.records[i].provider == provider) && !db.users[user].hasPassword
  {
    var ids := ActiveIds(db, user);
    if LastWayIn(db, user, provider) {
      var i :| i in db.records && db.records[i].active && db.records[i].user == user && db.records[i].provider == provider
               && forall j :: j in db.records && db.records[j].active && db.records[j].user == user ==> j == i;
      assert ids == {i};
    }
    if |ids| == 1 && (exists i :: i in ids && db.records[i].provider == provider) {
      var i :| i in ids && db.records[i].provider == provider;
      OnlyOne(ids, i);
      assert forall j :: j in db.records && db.records[j].active && db.records[j].user == user ==> j in ids;
    }
  }

  lemma OnlyOne(ids: set<nat>, i: nat)
    requires i in ids && |ids| == 1
    ensures forall j :: j in ids ==> j == i
  {
    assert |ids - {i}| == 0;
    assert forall j :: j in ids && j != i ==> j in ids - {i};
  }

  lemma LinkIsEffect(db: Store, step: Step)
    requires Enabled(db, step) && step.Link?
    ensures Allowed(db, EffectOf(db, step)) && Apply(db, step) == Do(db, EffectOf(db, step))
  {
    CreatableMeans(db, step.user, step.provider, step.subject);
  }

  lemma UnlinkIsEffect(db: Store, step: Step)
    requires Enabled(db, step) && step.UnlinkAccount?
    ensures Allowed(db, EffectOf(db, step)) && Apply(db, step) == Do(db, EffectOf(db, step))
  {
    if step.user in db.users {
      LastWayInMeans(db, step.user, step.provider);
      if step.found.Some? {
        assert step.found.value in ActiveIds(db, step.user);
      }
    }
  }

  lemma CallbackIsEffect(db: Store, step: Step)
    requires Enabled(db, step) && step.Callback?
    ensures Allowed(db, EffectOf(db, step)) && Apply(db, step) == Do(db, EffectOf(db, step))
  {
    if step.session.Some? {
      CreatableMeans(db, step.session.value, step.provider, step.profile.subject);
    }
    if step.owner.Some? {
      CreatableMeans(db, step.owner.value, step.provider, step.profile.subject);
    }
  }

  /** The case analysis, done once: a step performs exactly its write, and only when that write is allowed. */
  lemma StepIsEffect(db: Store, step: Step)
    requires Enabled(db, step)
    ensures Allowed(db, EffectOf(db, step))
    ensures Apply(db, step) == Do(db, EffectOf(db, step))
  {
    match step
    case Link(_, _, _, _) => LinkIsEffect(db, step);
    case UnlinkAccount(_, _, _) => UnlinkIsEffect(db, step);
    case Callback(_, _, _, _, _, _, _, _) => CallbackIsEffect(db, step);
    case NewUser(_, _) =>
  }

  // ---------- One active record per provider subject ----------

  predicate SameSubject(r: Integration, q: Integration) {
    r.provider == q.provider && r.subject == q.subject
  }

  predicate BothActive(r: Integration, q: Integration) {
    r.active && q.active && SameSubject(r, q)
  }

  ghost predicate UniqueActive(db: Store) {
    forall i, j :: i in db.records && j in db.records && BothActive(db.records[i], db.records[j]) ==> i == j
  }

  ghost predicate IdsBelowNext(db: Store) {
    forall i :: i in db.records ==> i < db.nextId
  }

  /** What the unique indexes of MongoDB and PostgreSQL keep, for inactive records too. */
  ghost predicate Indexed(db: Store) {
    && db.indexed
    && IdsBelowNext(db)
    && (forall i, j :: i in db.records && j in db.records && SameSubject(db.records[i], db.records[j]) ==> i == j)
  }

  lemma EffectKeepsIndexed(db: Store, e: Effect)
    requires Indexed(db) && Allowed(db, e)
    ensures Indexed(Do(db, e))
  {
    var db' := Do(db, e);
    if e.Reactivate? || e.Deactivate? {
      forall i, j | i in db'.records && j in db'.records && SameSubject(db'.records[i], db'.records[j])
        ensures i == j
      {
        assert SameSubject(db.records[i], db.records[j]);
      }
    }
  }

  /** With the unique indexes, no run ever has two active records of one provider subject. */
  lemma {:induction false} IndexedRunKeepsUnique(db: Store, steps: seq<Step>, db': Store)
    requires Indexed(db) && Run(db, steps, db')
    ensures Indexed(db') && UniqueActive(db')
    decreases |steps|
  {
    if steps != [] {
      StepIsEffect(db, steps[0]);
      EffectKeepsIndexed(db, EffectOf(db, steps[0]));
      IndexedRunKeepsUnique(Apply(db, steps[0]), steps[1..], db');
    }
  }

  /** The record a step would reactivate, by the guards on the way to that branch. */
  function Revived(db: Store, step: Step): Option<nat> {
    match step
    case Link(user, provider, subject, known) =>
      if !HasActiveSubject(db, provider, subject) && !HasActiveOfUser(db, user, provider) then known else None
    case Callback(_, session, provider, profile, found, known, _, _) =>
      if && found.None? && (profile.email.Some? || profile.hasPhone)
         && session.Some? && session.value in db.users && !HasActiveOfUser(db, session.value, provider)
      then known else None
    case _ => None
  }

  lemma RevivedIsEffect(db: Store, step: Step)
    requires Enabled(db, step)
    ensures EffectOf(db, step).Reactivate? <==> Revived(db, step).Some?
    ensures EffectOf(db, step).Reactivate? ==> EffectOf(db, step).id == Revived(db, step).value
    ensures Revived(db, step).Some? ==> Revived(db, step).value in db.records
  {
  }

  /** The subject stored in the record is linked by an active record. */
  predicate SubjectTaken(db: Store, id: nat)
    requires id in db.records
  {
    HasActiveSubject(db, db.records[id].provider, db.records[id].subject)
  }

  /**
   Without them, a step keeps the active records unique exactly when it does not reactivate
   a record whose stored subject has been linked again since.
   */
  lemma UniqueAfterStepIff(db: Store, step: Step)
    requires Enabled(db, step) && UniqueActive(db) && IdsBelowNext(db)
    ensures Revived(db, step).Some? ==> Revived(db, step).value in db.records
    ensures UniqueActive(Apply(db, step)) <==> !(Revived(db, step).Some? && SubjectTaken(db, Revived(db, step).value))
  {
    StepIsEffect(db, step);
    RevivedIsEffect(db, step);
    var e := EffectOf(db, step);
    var db' := Do(db, e);
    match e
    case Reactivate(id) => UniqueAfterReactivation(db, id);
    case Insert(user, provider, subject, kept) => UniqueAfterInsert(db, user, provider, subject, kept);
    case Deactivate(id) =>
      forall i, j | i in db'.records && j in db'.records && BothActive(db'.records[i], db'.records[j])
        ensures i == j
      {
        assert BothActive(db.records[i], db.records[j]);
      }
    case _ =>
  }

  lemma UniqueAfterReactivation(db: Store, id: nat)
    requires Allowed(db, Reactivate(id)) && UniqueActive(db)
    ensures UniqueActive(SetActive(db, id, true)) <==> !HasActiveSubject(db, db.records[id].provider, db.records[id].subject)
  {
    var db', r := SetActive(db, id, true), db.records[id];
    assert !r.active;
    if i :| i in db.records && db.records[i].active && OfSubject(db.records[i], r.provider, r.subject) {
      assert i != id && BothActive(db'.records[i], db'.records[id]);
    } else {
      forall i, j | i in db'.records && j in db'.records && BothActive(db'.records[i], db'.records[j])
        ensures i == j
      {
        if i != id && j != id {
          assert BothActive(db.records[i], db.records[j]);
        }
      }
    }
  }

  lemma UniqueAfterInsert(db: Store, user: string, provider: string, subject: string, kept: bool)
    requires Allowed(db, Insert(user, provider, subject, kept)) && UniqueActive(db) && IdsBelowNext(db)
    ensures UniqueActive(Do(db, Insert(user, provider, subject, kept)))
  {
    var db' := Do(db, Insert(user, provider, subject, kept));
    forall i, j | i in db'.records && j in db'.records && BothActive(db'.records[i], db'.records[j])
      ensures i == j
    {
      if i != db.nextId && j != db.nextId {
        assert BothActive(db.records[i], db.records[j]);
      }
    }
  }

  lemma {:induction false} RunAppend(db: Store, steps: seq<Step>, mid: Store, step: Step)
    requires Run(db, steps, mid) && Enabled(mid, step)
    ensures Run(db, steps + [step], Apply(mid, step))
    decreases |steps|
  {
    if steps == [] {
      assert [step][1..] == [];
    } else {
      RunAppend(Apply(db, steps[0]), steps[1..], mid, step);
      assert (steps + [step])[1..] == steps[1..] + [step];
    }
  }

  // A run on SQLite, where no index helps: `ann` links a subject and unlinks it, `bob` links it,
  // and when `ann` comes back with a different subject her old record is reactivated.

  function TwoUsers(ann: string, bob: string, records: map<nat, Integration>, nextId: nat): Store {
    Store(records, map[ann := User(None, true), bob := User(None, true)], nextId, false)
  }

  /** A callback for the signed-in `user` whose subject nobody has linked. */
  function SignedInCallback(user: string, provider: string, subject: string, known: Option<nat>): Step {
    Callback(Behavior(true, 5, false), Some(user), provider, Profile(subject, Some("user@example.com"), false, true), None, known, None, NoFault)
  }

  lemma AnnLinks(ann: string, bob: string, provider: string, subject: string)
    requires !Blank(subject)
    ensures var db, step := TwoUsers(ann, bob, map[], 0), SignedInCallback(ann, provider, subject, None);
            Enabled(db, step) && Apply(db, step) == TwoUsers(ann, bob, map[0 := Integration(ann, provider, subject, true)], 1)
  {
    assert ActiveIds(TwoUsers(ann, bob, map[], 0), ann) == {};
  }

  lemma AnnUnlinks(ann: string, bob: string, provider: string, subject: string)
    ensures var db, step := TwoUsers(ann, bob, map[0 := Integration(ann, provider, subject, true)], 1), UnlinkAccount(ann, provider, Some(0));
            Enabled(db, step) && Apply(db, step) == TwoUsers(ann, bob, map[0 := Integration(ann, provider, subject, false)], 1)
  {
  }

  lemma BobLinks(ann: string, bob: string, provider: string, subject: string)
    requires ann != bob && !Blank(subject)
    ensures var db, step := TwoUsers(ann, bob, map[0 := Integration(ann, provider, subject, false)], 1), SignedInCallback(bob, provider, subject, None);
            Enabled(db, step) && Apply(db, step) ==
              TwoUsers(ann, bob, map[0 := Integration(ann, provider, subject, false), 1 := Integration(bob, provider, subject, true)], 2)
  {
    assert ActiveIds(TwoUsers(ann, bob, map[0 := Integration(ann, provider, subject, false)], 1), bob) == {};
  }

  lemma AnnReturns(ann: string, bob: string, provider: string, subject: string, other: string)
    requires ann != bob && subject != other
    ensures var db := TwoUsers(ann, bob, map[0 := Integration(ann, provider, subject, false), 1 := Integration(bob, provider, subject, true)], 2);
            var step := SignedInCallback(ann, provider, other, Some(0));
            Enabled(db, step) && !UniqueActive(Apply(db, step))
  {
    var db := TwoUsers(ann, bob, map[0 := Integration(ann, provider, subject, false), 1 := Integration(bob, provider, subject, true)], 2);
    var db' := Apply(db, SignedInCallback(ann, provider, other, Some(0)));
    assert BothActive(db'.records[0], db'.records[1]);
  }

  /** From an empty store without the index, a run of four requests ends with two active records of one subject. */
  lemma UnindexedCanDuplicate(ann: string, bob: string, provider: string, subject: string, other: string)
    returns (steps: seq<Step>, db': Store)
    requires ann != bob && !Blank(subject) && subject != other
    ensures Run(TwoUsers(ann, bob, map[], 0), steps, db') && !UniqueActive(db')
  {
    var db := TwoUsers(ann, bob, map[], 0);
    steps, db' := [], db;
    AnnLinks(ann, bob, provider, subject);
    steps, db' := ExtendRun(db, steps, db', SignedInCallback(ann, provider, subject, None));
    AnnUnlinks(ann, bob, provider, subject);
    steps, db' := ExtendRun(db, steps, db', UnlinkAccount(ann, provider, Some(0)));
    BobLinks(ann, bob, provider, subject);
    steps, db' := ExtendRun(db, steps, db', SignedInCallback(bob, provider, subject, None));
    AnnReturns(ann, bob, provider, subject, other);
    steps, db' := ExtendRun(db, steps, db', SignedInCallback(ann, provider, other, Some(0)));
  }

  lemma ExtendRun(db: Store, steps: seq<Step>, mid: Store, step: Step) returns (steps': seq<Step>, db': Store)
    requires Run(db, steps, mid) && Enabled(mid, step)
    ensures db' == Apply(mid, step) && Run(db, steps', db')
  {
    RunAppend(db, steps, mid, step);
    steps', db' := steps + [step], Apply(mid, step);
  }

  // ---------- The signed-in user stays the user ----------

  /** With a user signed in, a successful callback is for that user. */
  lemma CallbackKeepsUser(db: Store, step: Step)
    requires Enabled(db, step) && step.Callback? && step.session.Some?
    ensures var r := HandleCallback(db, step.behavior, step.session, step.provider, step.profile, step.found, step.known, step.owner, step.fault).1;
            r.Linked? ==> r.user == step.session.value && r.user in db.users
  {
  }

  /**
   * Without a session, a callback for an unlinked subject changes the store exactly when the profile
   * has a contact, its email is verified and belongs to a user, linking by email is on, and the
   * record can be created; and then it adds one active record of that user.
   */
  lemma EmailLinkIff(db: Store, step: Step)
    requires Enabled(db, step) && step.Callback? && step.session.None? && step.found.None?
    ensures Apply(db, step) != db <==>
      && (step.profile.email.Some? || step.profile.hasPhone) && step.profile.emailVerified
      && step.owner.Some? && step.behavior.autoLink && Creatable(db, step.owner.value, step.provider, step.profile.subject)
    ensures Apply(db, step) != db ==>
      Apply(db, step).records == db.records[db.nextId := Integration(step.owner.value, step.provider, step.profile.subject, true)]
  {
    StepIsEffect(db, step);
    assert Do(db, Insert("", "", "", true)).nextId != db.nextId;
  }

  /** A callback touches nobody's links but the session user's, or those of the owner of a verified email. */
  lemma CallbackTouchesOnly(db: Store, step: Step, someone: string)
    requires Enabled(db, step) && step.Callback? && IdsBelowNext(db)
    requires step.session != Some(someone)
    requires !(step.session.None? && step.profile.emailVerified && step.owner == Some(someone))
    ensures ActiveIds(Apply(db, step), someone) == ActiveIds(db, someone)
  {
    StepIsEffect(db, step);
  }

  /** What a step answers, by its guards. */
  ghost function Answered(db: Store, step: Step): Result
    requires Enabled(db, step) && !step.NewUser?
  {
    match step
    case Link(user, provider, subject, known) =>
      if SubjectLinked(db, provider, subject) || UserLinked(db, user, provider) then Thrown
      else if known.Some? || Creatable(db, user, provider, subject) then Linked(user)
      else Thrown
    case UnlinkAccount(user, provider, found) =>
      if user !in db.users || LastWayIn(db, user, provider) then Refused
      else if found.None? then Thrown
      else Linked(user)
    case Callback(behavior, session, provider, profile, found, known, owner, fault) =>
      if found.Some? then
        var user := db.records[found.value].user;
        if user in db.users && (session == None || session == Some(user)) then Linked(user) else Refused
      else if !HasContact(profile) then Refused
      else if session.None? then
        if owner.None? || !behavior.autoLink || !profile.emailVerified then Refused
        else if Creatable(db, owner.value, provider, profile.subject) then Linked(owner.value)
        else Thrown
      else if UserLinked(db, session.value, provider) then Refused
      else if known.Some? then
        if session.value in db.users then Linked(session.value) else Refused
      else if !RoomForProvider(db, behavior, session.value) then Refused
      else if Creatable(db, session.value, provider, profile.subject) && fault == NoFault then Linked(session.value)
      else Thrown
  }

  function ResultOf(db: Store, step: Step): Result
    requires step.Link? ==> (step.known.Some? ==> step.known.value in db.records)
    requires step.UnlinkAccount? ==> (step.found.Some? ==> step.found.value in db.records)
    requires step.Callback? ==> (step.found.Some? ==> step.found.value in db.records) && (step.known.Some? ==> step.known.value in db.records)
  {
    match step
    case Link(user, provider, subject, known) => LinkToUser(db, user, provider, subject, known).1
    case UnlinkAccount(user, provider, found) => Unlink(db, user, provider, found).1
    case Callback(behavior, session, provider, profile, found, known, owner, fault) =>
      HandleCallback(db, behavior, session, provider, profile, found, known, owner, fault).1
    case NewUser(user, _) => Linked(user)
  }

  /** Every step answers exactly what its guards call for. */
  lemma StepAnswers(db: Store, step: Step)
    requires Enabled(db, step) && !step.NewUser?
    ensures ResultOf(db, step) == Answered(db, step)
  {
    match step
    case Link(user, provider, subject, _) => CreatableMeans(db, user, provider, subject);
    case UnlinkAccount(user, provider, _) =>
      if user in db.users {
        LastWayInMeans(db, user, provider);
      }
    case Callback(_, session, provider, profile, _, _, owner, _) =>
      if session.Some? {
        CreatableMeans(db, session.value, provider, profile.subject);
      }
      if owner.Some? {
        CreatableMeans(db, owner.value, provider, profile.subject);
      }
  }

  // ---------- A way to sign in is never lost ----------

  ghost predicate HasAccess(db: Store, user: string) {
    user in db.users && (db.users[user].hasPassword || ActiveIds(db, user) != {})
  }

  lemma {:induction false} OtherRemains(ids: set<nat>, id: nat) returns (other: nat)
    requires id in ids && |ids| != 1
    ensures other in ids && other != id
  {
    assert ids == {id} + (ids - {id});
    assert ids - {id} != {};
    other :| other in ids - {id};
  }

  lemma DeactivationKeepsAccess(db: Store, id: nat, user: string)
    requires Allowed(db, Deactivate(id)) && HasAccess(db, user)
    ensures HasAccess(SetActive(db, id, false), user)
  {
    var ids := ActiveIds(db, user);
    if !db.users[user].hasPassword {
      var other: nat;
      if id in ids {
        other := OtherRemains(ids, id);
      } else {
        other :| other in ids;
      }
      assert other in ActiveIds(SetActive(db, id, false), user);
    }
  }

  lemma EffectKeepsAccess(db: Store, e: Effect, user: string)
    requires Allowed(db, e) && IdsBelowNext(db) && HasAccess(db, user)
    ensures HasAccess(Do(db, e), user) && IdsBelowNext(Do(db, e))
  {
    if e.Deactivate? {
      DeactivationKeepsAccess(db, e.id, user);
    } else if !db.users[user].hasPassword {
      var i :| i in ActiveIds(db, user);
      assert i in ActiveIds(Do(db, e), user);
    }
  }

  /** Through every run, a user with a password or an active integration keeps one of them. */
  lemma {:induction false} RunKeepsAccess(db: Store, steps: seq<Step>, db': Store, user: string)
    requires IdsBelowNext(db) && Run(db, steps, db') && HasAccess(db, user)
    ensures HasAccess(db', user)
    decreases |steps|
  {
    if steps != [] {
      StepIsEffect(db, steps[0]);
      EffectKeepsAccess(db, EffectOf(db, steps[0]), user);
      RunKeepsAccess(Apply(db, steps[0]), steps[1..], db', user);
    }
  }

  /** A link that fails half-way and is compensated leaves the active records as they were. */
  lemma CompensationRestores(db: Store, user: string, provider: string, subject: string, someone: string)
    requires IdsBelowNext(db) && Allowed(db, Insert(user, provider, subject, false))
    ensures ActiveIds(Do(db, Insert(user, provider, subject, false)), someone) == ActiveIds(db, someone)
  {
  }
}
