/**
 One process's configuration manager under every interleaving. A step is a stretch of
 code between two `await`s; the state holds the manager's fields, the calls in flight
 and, as history, every value the cached base has had.
 */
module ConfigManager {
  import opened Wrappers

  /** How a tenant's configuration is derived: overlay the overrides, then compute defaults. */
  datatype Env<!C, !O> = Env(derive: (string, C, Option<O>) -> C, overrideService: bool)

  /** One assignment to the cached base, and whether it emptied the tenant cache. */
  datatype Change<+C> = Change(base: Option<C>, clears: bool)

  /** The overrides a load read, and how often the tenant had been invalidated by then. */
  datatype Reading<+O> = Reading(overrides: Option<O>, evictions: nat)

  /**
   A cached tenant configuration: what its load read, the moments it cloned the base and stored
   the result, and how often the tenant had been invalidated when it stored it.
   */
  datatype Entry<+C, +O> = Entry(config: C, reading: Reading<O>, cloned: nat, stored: nat, evictions: nat)

  /** A tenant load; `settled` once its promise has resolved. */
  datatype Load<+C, +O> = Load(tenant: string, clone: Option<C>, epoch: nat, reading: Option<Reading<O>>, settled: bool)

  /** The lock map of `ensureTenantConfig` and the loads in flight. */
  datatype Flights<+C, +O> = Flights(locks: map<string, nat>, loads: map<nat, Load<C, O>>, nextLoad: nat)

  /** How often all tenants were invalidated, and each one alone. */
  datatype Evictions = Evictions(all: nat, alone: map<string, nat>)

  /** A configuration update: queued behind promise `prev`, or holding the lock. */
  datatype Update<+C> =
    | Waiting(prev: nat)
    | Holding(snapshot: Option<C>, epoch: nat, installed: bool)

  /** The promise chain: every update owns one promise, and awaits the one that was the tail before it. */
  datatype Chain<+C> = Chain(tail: nat, resolved: set<nat>, updates: map<nat, Update<C>>, acquired: seq<nat>)

  datatype State<C, O> = State(
    cache: Option<C>,
    tenants: map<string, Entry<C, O>>,
    bases: seq<Change<C>>,
    evictions: Evictions,
    flights: Flights<C, O>,
    chain: Chain<C>,
    reloads: map<nat, Option<C>>)

  datatype Step<C, O> =
    | EnsureTenant(tenant: string)
    | OverridesRead(load: nat, overrides: Option<O>)
    | LoadStored(load: nat)
    | OverridesFailed(load: nat)
    | LoadAwaited(load: nat)
    | UpdateQueued
    | UpdateAcquired(ticket: nat)
    | UpdateInstalled(ticket: nat, config: C)
    | UpdateDone(ticket: nat)
    | UpdateFailed(ticket: nat)
    | ReloadStarted(reload: nat)
    | ReloadInstalled(reload: nat, config: C)
    | ReloadFailed(reload: nat)
    | DatabaseChanged(config: C)
    | InstalledKeeping(config: C)
    | TenantInvalidated(tenant: string)
    | AllInvalidated
    | Cleared

  function Init<C, O>(): State<C, O> {
    State(None, map[], [Change(None, true)], Evictions(0, map[]), Flights(map[], map[], 0), Chain(0, {0}, map[], []), map[])
  }

  predicate InFlight<C, O>(f: Flights<C, O>, id: nat, settled: bool) {
    id in f.loads && f.loads[id].settled == settled
  }

  predicate Holds<C>(q: Chain<C>, k: nat) {
    k in q.updates && q.updates[k].Holding?
  }

  predicate Enabled<C, O>(s: State<C, O>, step: Step<C, O>) {
    match step
    case OverridesRead(id, _) => InFlight(s.flights, id, false) && s.flights.loads[id].reading.None?
    case LoadStored(id) => InFlight(s.flights, id, false) && s.flights.loads[id].reading.Some?
    case OverridesFailed(id) => InFlight(s.flights, id, false)
    case LoadAwaited(id) => InFlight(s.flights, id, true)
    case UpdateAcquired(k) => k in s.chain.updates && s.chain.updates[k].Waiting? && s.chain.updates[k].prev in s.chain.resolved
    case UpdateInstalled(k, _) => Holds(s.chain, k) && !s.chain.updates[k].installed
    case UpdateDone(k) => Holds(s.chain, k) && s.chain.updates[k].installed
    case UpdateFailed(k) => Holds(s.chain, k)
    case ReloadStarted(r) => r !in s.reloads
    case ReloadInstalled(r, _) => r in s.reloads
    case ReloadFailed(r) => r in s.reloads
    case _ => true
  }

  // ---------- The pieces of the steps ----------

  /** Assigns the cached base; the sources that also empty the tenant cache say so. */
  function SetBase<C, O>(s: State<C, O>, base: Option<C>, clears: bool): State<C, O> {
    s.(cache := base,
       tenants := if clears then map[] else s.tenants,
       bases := s.bases + [Change(base, clears)])
  }

  /** How often the tenant has been invalidated. */
  function EvictionsOf(e: Evictions, t: string): nat {
    e.all + (if t in e.alone then e.alone[t] else 0)
  }

  function EvictOne(e: Evictions, t: string): Evictions {
    e.(alone := e.alone[t := (if t in e.alone then e.alone[t] else 0) + 1])
  }

  function StartLoad<C, O>(f: Flights<C, O>, t: string, clone: Option<C>, epoch: nat, settled: bool): Flights<C, O> {
    Flights(f.locks[t := f.nextLoad], f.loads[f.nextLoad := Load(t, clone, epoch, None, settled)], f.nextLoad + 1)
  }

  /** The override service read its answer; the load has not gone on yet. */
  function ReadOverrides<C, O>(f: Flights<C, O>, id: nat, reading: Reading<O>): Flights<C, O>
    requires id in f.loads
  {
    f.(loads := f.loads[id := f.loads[id].(reading := Some(reading))])
  }

  function Settle<C, O>(f: Flights<C, O>, id: nat): Flights<C, O>
    requires id in f.loads
  {
    f.(loads := f.loads[id := f.loads[id].(settled := true)])
  }

  /** The `finally` block: deletes the lock entry of the tenant and forgets the call. */
  function Land<C, O>(f: Flights<C, O>, id: nat): Flights<C, O>
    requires id in f.loads
  {
    f.(locks := f.locks - {f.loads[id].tenant}, loads := f.loads - {id})
  }

  function Enqueue<C>(q: Chain<C>): Chain<C> {
    q.(tail := q.tail + 1, updates := q.updates[q.tail + 1 := Waiting(q.tail)])
  }

  function Acquire<C>(q: Chain<C>, k: nat, snapshot: Option<C>, epoch: nat): Chain<C> {
    q.(updates := q.updates[k := Holding(snapshot, epoch, false)], acquired := q.acquired + [k])
  }

  function MarkInstalled<C>(q: Chain<C>, k: nat): Chain<C>
    requires Holds(q, k)
  {
    q.(updates := q.updates[k := q.updates[k].(installed := true)])
  }

  function Release<C>(q: Chain<C>, k: nat): Chain<C> {
    q.(resolved := q.resolved + {k}, updates := q.updates - {k})
  }

  /** What a load stores that cloned the base of moment `cloned`. */
  function NewEntry<C, O>(env: Env<C, O>, s: State<C, O>, t: string, clone: C, reading: Reading<O>, cloned: nat): Entry<C, O>
    requires s.bases != []
  {
    Entry(env.derive(t, clone, reading.overrides), reading, cloned, |s.bases| - 1, EvictionsOf(s.evictions, t))
  }

  /** The synchronous start of `ensureTenantConfig`, up to its first `await`. */
  function StartEnsure<C, O>(env: Env<C, O>, s: State<C, O>, t: string): State<C, O>
    requires s.bases != []
  {
    if t in s.tenants || t in s.flights.locks then s
    else
      var now := |s.bases| - 1;
      var immediate := s.cache.None? || !env.overrideService;
      s.(flights := StartLoad(s.flights, t, s.cache, now, immediate),
         tenants :=
           if s.cache.Some? && !env.overrideService
           then s.tenants[t := NewEntry(env, s, t, s.cache.value, Reading(None, EvictionsOf(s.evictions, t)), now)]
           else s.tenants)
  }

  /** The end of a load: derive from the clone taken at its start and the overrides read since, and store. */
  function FinishLoad<C, O>(env: Env<C, O>, s: State<C, O>, id: nat): State<C, O>
    requires id in s.flights.loads && s.flights.loads[id].reading.Some? && s.bases != []
  {
    var load := s.flights.loads[id];
    s.(flights := Settle(s.flights, id),
       tenants :=
         if load.clone.Some?
         then s.tenants[load.tenant := NewEntry(env, s, load.tenant, load.clone.value, load.reading.value, load.epoch)]
         else s.tenants)
  }

  function Apply<C, O>(env: Env<C, O>, s: State<C, O>, step: Step<C, O>): State<C, O>
    requires Enabled(s, step) && s.bases != []
  {
    match step
    case EnsureTenant(t) => StartEnsure(env, s, t)
    case OverridesRead(id, overrides) =>
      s.(flights := ReadOverrides(s.flights, id, Reading(overrides, EvictionsOf(s.evictions, s.flights.loads[id].tenant))))
    case LoadStored(id) => FinishLoad(env, s, id)
    case OverridesFailed(id) => s.(flights := Settle(s.flights, id))
    case LoadAwaited(id) => s.(flights := Land(s.flights, id))
    case UpdateQueued => s.(chain := Enqueue(s.chain))
    case UpdateAcquired(k) => s.(chain := Acquire(s.chain, k, s.cache, |s.bases| - 1))
    case UpdateInstalled(k, c) => SetBase(s.(chain := MarkInstalled(s.chain, k)), Some(c), true)
    case UpdateDone(k) => s.(chain := Release(s.chain, k))
    case UpdateFailed(k) => SetBase(s.(chain := Release(s.chain, k)), s.chain.updates[k].snapshot, false)
    case ReloadStarted(r) => s.(reloads := s.reloads[r := s.cache])
    case ReloadInstalled(r, c) => SetBase(s.(reloads := s.reloads - {r}), Some(c), true)
    case ReloadFailed(r) => SetBase(s.(reloads := s.reloads - {r}), s.reloads[r], false)
    case DatabaseChanged(c) => SetBase(s, Some(c), true)
    case InstalledKeeping(c) => SetBase(s, Some(c), false)
    case TenantInvalidated(t) => s.(tenants := s.tenants - {t}, evictions := EvictOne(s.evictions, t))
    case AllInvalidated => s.(tenants := map[], evictions := s.evictions.(all := s.evictions.all + 1))
    case Cleared => SetBase(s, None, true)
  }

  // ---------- Invariants ----------

  /** The lock map and the loads in flight name each other. */
  ghost predicate FlightsOk<C, O>(f: Flights<C, O>) {
    && (forall t :: t in f.locks ==> f.locks[t] in f.loads && f.loads[f.locks[t]].tenant == t)
    && (forall id :: id in f.loads ==> id < f.nextLoad && f.loads[id].tenant in f.locks && f.locks[f.loads[id].tenant] == id)
  }

  /**
   Tickets are numbered in queueing order and acquired in that order, and only the
   newest acquired one may be unresolved.
   */
  ghost predicate ChainOk<C>(q: Chain<C>) {
    && |q.acquired| <= q.tail
    && (forall i :: 0 <= i < |q.acquired| ==> q.acquired[i] == i + 1)
    && (forall k :: 0 <= k < |q.acquired| ==> k in q.resolved)
    && (forall k :: k in q.resolved ==> k <= |q.acquired|)
    && 0 in q.resolved
    && (forall k :: k in q.updates <==> 0 < k <= q.tail && k !in q.resolved)
    && (forall k :: k in q.updates && q.updates[k].Waiting? ==> q.updates[k].prev == k - 1 && |q.acquired| < k)
    && (forall k :: k in q.updates && q.updates[k].Holding? ==> k == |q.acquired|)
  }

  ghost predicate EntryOk<C, O>(env: Env<C, O>, bases: seq<Change<C>>, t: string, e: Entry<C, O>) {
    && e.cloned <= e.stored < |bases|
    && bases[e.cloned].base.Some?
    && e.config == env.derive(t, bases[e.cloned].base.value, e.reading.overrides)
    && (forall i :: e.stored < i < |bases| ==> !bases[i].clears)
  }

  ghost predicate EntriesOk<C, O>(env: Env<C, O>, bases: seq<Change<C>>, tenants: map<string, Entry<C, O>>) {
    forall t :: t in tenants ==> EntryOk(env, bases, t, tenants[t])
  }

  /** Every load in flight holds the base that was current when it started. */
  ghost predicate ClonesOk<C, O>(bases: seq<Change<C>>, f: Flights<C, O>) {
    forall id :: id in f.loads ==> f.loads[id].epoch < |bases| && bases[f.loads[id].epoch].base == f.loads[id].clone
  }

  /** The lock holder's snapshot is the base that was current when it acquired the lock. */
  ghost predicate SnapshotsOk<C>(bases: seq<Change<C>>, q: Chain<C>) {
    forall k :: Holds(q, k) ==> q.updates[k].epoch < |bases| && bases[q.updates[k].epoch].base == q.updates[k].snapshot
  }

  /** Nothing was read in the future, and no tenant was invalidated since its entry was stored. */
  ghost predicate ReadingsOk<C, O>(e: Evictions, tenants: map<string, Entry<C, O>>, f: Flights<C, O>) {
    && (forall t :: t in tenants ==> tenants[t].reading.evictions <= tenants[t].evictions == EvictionsOf(e, t))
    && (forall id :: id in f.loads && f.loads[id].reading.Some? ==>
          f.loads[id].reading.value.evictions <= EvictionsOf(e, f.loads[id].tenant))
  }

  ghost predicate Inv<C, O>(env: Env<C, O>, s: State<C, O>) {
    && s.bases != []
    && s.cache == s.bases[|s.bases| - 1].base
    && FlightsOk(s.flights)
    && ChainOk(s.chain)
    && EntriesOk(env, s.bases, s.tenants)
    && ClonesOk(s.bases, s.flights)
    && ReadingsOk(s.evictions, s.tenants, s.flights)
    && SnapshotsOk(s.bases, s.chain)
  }

  lemma StartLoadOk<C, O>(bases: seq<Change<C>>, f: Flights<C, O>, t: string, clone: Option<C>, settled: bool)
    requires FlightsOk(f) && ClonesOk(bases, f) && t !in f.locks
    requires bases != [] && bases[|bases| - 1].base == clone
    ensures var f' := StartLoad(f, t, clone, |bases| - 1, settled); FlightsOk(f') && ClonesOk(bases, f')
  {
  }

  lemma SettleOk<C, O>(bases: seq<Change<C>>, f: Flights<C, O>, id: nat)
    requires FlightsOk(f) && ClonesOk(bases, f) && id in f.loads
    ensures FlightsOk(Settle(f, id)) && ClonesOk(bases, Settle(f, id))
  {
  }

  lemma ReadOverridesOk<C, O>(bases: seq<Change<C>>, f: Flights<C, O>, id: nat, reading: Reading<O>)
    requires FlightsOk(f) && ClonesOk(bases, f) && id in f.loads
    ensures FlightsOk(ReadOverrides(f, id, reading)) && ClonesOk(bases, ReadOverrides(f, id, reading))
  {
  }

  /** Only the call that created a lock entry deletes it: every other entry survives. */
  lemma LandOk<C, O>(bases: seq<Change<C>>, f: Flights<C, O>, id: nat)
    requires FlightsOk(f) && ClonesOk(bases, f) && id in f.loads
    ensures FlightsOk(Land(f, id)) && ClonesOk(bases, Land(f, id))
    ensures f.locks[f.loads[id].tenant] == id
    ensures forall t :: t in f.locks && f.locks[t] != id ==> t in Land(f, id).locks && Land(f, id).locks[t] == f.locks[t]
  {
    var f' := Land(f, id);
    forall j | j in f'.loads
      ensures f'.loads[j].tenant in f'.locks
    {
      assert f.locks[f.loads[j].tenant] == j;
    }
  }

  lemma EnqueueOk<C>(q: Chain<C>)
    requires ChainOk(q)
    ensures ChainOk(Enqueue(q))
  {
  }

  lemma AcquireOk<C>(q: Chain<C>, k: nat, snapshot: Option<C>, epoch: nat)
    requires ChainOk(q) && k in q.updates && q.updates[k].Waiting? && q.updates[k].prev in q.resolved
    ensures k == |q.acquired| + 1 && ChainOk(Acquire(q, k, snapshot, epoch))
  {
    assert k == |q.acquired| + 1;
    var q' := Acquire(q, k, snapshot, epoch);
    assert forall i :: 0 <= i < |q'.acquired| ==> i in q'.resolved;
  }

  lemma ReleaseOk<C>(q: Chain<C>, k: nat)
    requires ChainOk(q) && Holds(q, k)
    ensures ChainOk(Release(q, k))
  {
  }

  lemma BaseChangeOk<C, O>(env: Env<C, O>, s: State<C, O>, base: Option<C>, clears: bool)
    requires Inv(env, s)
    ensures Inv(env, SetBase(s, base, clears))
  {
    var s' := SetBase(s, base, clears);
    forall t | t in s'.tenants
      ensures EntryOk(env, s'.bases, t, s'.tenants[t])
    {
      assert EntryOk(env, s.bases, t, s.tenants[t]);
    }
  }

  predicate ChainStep<C, O>(step: Step<C, O>) {
    step.UpdateQueued? || step.UpdateAcquired? || step.UpdateDone?
  }

  /** A step that changes the chain alone need only restore the chain. */
  lemma InvWithChain<C, O>(env: Env<C, O>, s: State<C, O>, q: Chain<C>)
    requires Inv(env, s) && ChainOk(q) && SnapshotsOk(s.bases, q)
    ensures Inv(env, s.(chain := q))
  {
  }

  lemma QueueStepOk<C, O>(env: Env<C, O>, s: State<C, O>)
    requires Inv(env, s)
    ensures Inv(env, s.(chain := Enqueue(s.chain)))
  {
    EnqueueOk(s.chain);
    InvWithChain(env, s, Enqueue(s.chain));
  }

  lemma AcquireStepOk<C, O>(env: Env<C, O>, s: State<C, O>, k: nat)
    requires Inv(env, s) && Enabled(s, UpdateAcquired(k))
    ensures Inv(env, s.(chain := Acquire(s.chain, k, s.cache, |s.bases| - 1)))
  {
    AcquireOk(s.chain, k, s.cache, |s.bases| - 1);
    InvWithChain(env, s, Acquire(s.chain, k, s.cache, |s.bases| - 1));
  }

  lemma ReleaseStepOk<C, O>(env: Env<C, O>, s: State<C, O>, k: nat)
    requires Inv(env, s) && Holds(s.chain, k)
    ensures Inv(env, s.(chain := Release(s.chain, k)))
  {
    ReleaseOk(s.chain, k);
    InvWithChain(env, s, Release(s.chain, k));
  }

  lemma ChainStepOk<C, O>(env: Env<C, O>, s: State<C, O>, step: Step<C, O>)
    requires Inv(env, s) && Enabled(s, step) && ChainStep(step)
    ensures Inv(env, Apply(env, s, step))
  {
    match step
    case UpdateQueued => QueueStepOk(env, s);
    case UpdateAcquired(k) => AcquireStepOk(env, s, k);
    case UpdateDone(k) => ReleaseStepOk(env, s, k);
  }

  lemma EvictionStepOk<C, O>(env: Env<C, O>, s: State<C, O>, step: Step<C, O>)
    requires Inv(env, s) && (step.TenantInvalidated? || step.AllInvalidated?)
    ensures Inv(env, Apply(env, s, step))
  {
    EvictionReadings(s, if step.TenantInvalidated? then step.tenant else "");
  }

  lemma StoreEntryOk<C, O>(env: Env<C, O>, s: State<C, O>, t: string, reading: Reading<O>, cloned: nat)
    requires EntriesOk(env, s.bases, s.tenants)
    requires cloned < |s.bases| && s.bases[cloned].base.Some?
    ensures EntriesOk(env, s.bases, s.tenants[t := NewEntry(env, s, t, s.bases[cloned].base.value, reading, cloned)])
  {
  }

  /** What the tenant side of the state keeps, whatever the update chain does. */
  ghost predicate TenantsOk<C, O>(env: Env<C, O>, s: State<C, O>) {
    && s.bases != [] && s.cache == s.bases[|s.bases| - 1].base
    && FlightsOk(s.flights) && EntriesOk(env, s.bases, s.tenants) && ClonesOk(s.bases, s.flights)
  }

  lemma StartEnsureFlights<C, O>(env: Env<C, O>, s: State<C, O>, t: string)
    requires s.bases != [] && s.cache == s.bases[|s.bases| - 1].base
    requires FlightsOk(s.flights) && ClonesOk(s.bases, s.flights)
    ensures FlightsOk(StartEnsure(env, s, t).flights) && ClonesOk(s.bases, StartEnsure(env, s, t).flights)
  {
    if t !in s.tenants && t !in s.flights.locks {
      var settled := s.cache.None? || !env.overrideService;
      assert StartEnsure(env, s, t).flights == StartLoad(s.flights, t, s.cache, |s.bases| - 1, settled);
      StartLoadOk(s.bases, s.flights, t, s.cache, settled);
    }
  }

  lemma StartEnsureEntries<C, O>(env: Env<C, O>, s: State<C, O>, t: string)
    requires s.bases != [] && s.cache == s.bases[|s.bases| - 1].base
    requires EntriesOk(env, s.bases, s.tenants)
    ensures EntriesOk(env, s.bases, StartEnsure(env, s, t).tenants)
  {
    if s.cache.Some? {
      StoreEntryOk(env, s, t, Reading(None, EvictionsOf(s.evictions, t)), |s.bases| - 1);
    }
  }

  lemma StartEnsureOk<C, O>(env: Env<C, O>, s: State<C, O>, t: string)
    requires TenantsOk(env, s)
    ensures TenantsOk(env, StartEnsure(env, s, t))
  {
    StartEnsureFlights(env, s, t);
    StartEnsureEntries(env, s, t);
  }

  lemma FinishLoadEntries<C, O>(env: Env<C, O>, s: State<C, O>, id: nat)
    requires s.bases != [] && ClonesOk(s.bases, s.flights) && EntriesOk(env, s.bases, s.tenants)
    requires id in s.flights.loads && s.flights.loads[id].reading.Some?
    ensures EntriesOk(env, s.bases, FinishLoad(env, s, id).tenants)
  {
    var load := s.flights.loads[id];
    if load.clone.Some? {
      StoreEntryOk(env, s, load.tenant, load.reading.value, load.epoch);
    }
  }

  lemma FinishLoadOk<C, O>(env: Env<C, O>, s: State<C, O>, id: nat)
    requires TenantsOk(env, s) && id in s.flights.loads && s.flights.loads[id].reading.Some?
    ensures TenantsOk(env, FinishLoad(env, s, id))
  {
    SettleOk(s.bases, s.flights, id);
    FinishLoadEntries(env, s, id);
  }

  predicate FlightStep<C, O>(step: Step<C, O>) {
    step.EnsureTenant? || step.OverridesRead? || step.LoadStored? || step.OverridesFailed? || step.LoadAwaited?
  }

  /** The steps of a load that store nothing change the flights alone. */
  lemma FlightsOnlyOk<C, O>(env: Env<C, O>, s: State<C, O>, step: Step<C, O>)
    requires TenantsOk(env, s) && Enabled(s, step)
    requires step.OverridesRead? || step.OverridesFailed? || step.LoadAwaited?
    ensures var f := Apply(env, s, step).flights; FlightsOk(f) && ClonesOk(s.bases, f)
  {
    match step
    case OverridesRead(id, overrides) =>
      ReadOverridesOk(s.bases, s.flights, id, Reading(overrides, EvictionsOf(s.evictions, s.flights.loads[id].tenant)));
    case OverridesFailed(id) => SettleOk(s.bases, s.flights, id);
    case LoadAwaited(id) => LandOk(s.bases, s.flights, id);
  }

  lemma FlightTenantsOk<C, O>(env: Env<C, O>, s: State<C, O>, step: Step<C, O>)
    requires TenantsOk(env, s) && Enabled(s, step) && FlightStep(step)
    ensures TenantsOk(env, Apply(env, s, step))
  {
    match step
    case EnsureTenant(t) => StartEnsureOk(env, s, t);
    case LoadStored(id) => FinishLoadOk(env, s, id);
    case _ => FlightsOnlyOk(env, s, step);
  }

  /** Readings stay in order under every step of a load. */
  lemma FlightReadings<C, O>(env: Env<C, O>, s: State<C, O>, step: Step<C, O>)
    requires s.bases != [] && ReadingsOk(s.evictions, s.tenants, s.flights) && Enabled(s, step) && FlightStep(step)
    ensures var s' := Apply(env, s, step); ReadingsOk(s.evictions, s'.tenants, s'.flights)
  {
  }

  /** And under every invalidation, which drops the entries it makes out of date. */
  lemma EvictionReadings<C, O>(s: State<C, O>, t: string)
    requires ReadingsOk(s.evictions, s.tenants, s.flights)
    ensures ReadingsOk(EvictOne(s.evictions, t), s.tenants - {t}, s.flights)
    ensures ReadingsOk(s.evictions.(all := s.evictions.all + 1), map[], s.flights)
  {
  }

  lemma FlightStepOk<C, O>(env: Env<C, O>, s: State<C, O>, step: Step<C, O>)
    requires Inv(env, s) && Enabled(s, step) && FlightStep(step)
    ensures Inv(env, Apply(env, s, step))
  {
    assert TenantsOk(env, s);
    FlightTenantsOk(env, s, step);
    FlightReadings(env, s, step);
  }

  lemma BaseStepOk<C, O>(env: Env<C, O>, s: State<C, O>, step: Step<C, O>)
    requires Inv(env, s) && Enabled(s, step)
    requires step.UpdateInstalled? || step.UpdateFailed? || step.ReloadInstalled? || step.ReloadFailed?
    ensures Inv(env, Apply(env, s, step))
  {
    match step
    case UpdateInstalled(k, c) => BaseChangeOk(env, s.(chain := MarkInstalled(s.chain, k)), Some(c), true);
    case UpdateFailed(k) =>
      ReleaseStepOk(env, s, k);
      BaseChangeOk(env, s.(chain := Release(s.chain, k)), s.chain.updates[k].snapshot, false);
    case ReloadInstalled(r, c) => BaseChangeOk(env, s.(reloads := s.reloads - {r}), Some(c), true);
    case ReloadFailed(r) => BaseChangeOk(env, s.(reloads := s.reloads - {r}), s.reloads[r], false);
  }

  /** Every step keeps the invariant. */
  lemma {:induction false} StepKeepsInv<C, O>(env: Env<C, O>, s: State<C, O>, step: Step<C, O>)
    requires Inv(env, s) && Enabled(s, step)
    ensures Inv(env, Apply(env, s, step))
  {
    match step
    case EnsureTenant(_) => FlightStepOk(env, s, step);
    case OverridesRead(_, _) => FlightStepOk(env, s, step);
    case LoadStored(_) => FlightStepOk(env, s, step);
    case OverridesFailed(_) => FlightStepOk(env, s, step);
    case LoadAwaited(_) => FlightStepOk(env, s, step);
    case UpdateQueued => ChainStepOk(env, s, step);
    case UpdateAcquired(_) => ChainStepOk(env, s, step);
    case UpdateDone(_) => ChainStepOk(env, s, step);
    case DatabaseChanged(c) => BaseChangeOk(env, s, Some(c), true);
    case InstalledKeeping(c) => BaseChangeOk(env, s, Some(c), false);
    case Cleared => BaseChangeOk(env, s, None, true);
    case ReloadStarted(_) =>
    case TenantInvalidated(_) => EvictionStepOk(env, s, step);
    case AllInvalidated => EvictionStepOk(env, s, step);
    case _ => BaseStepOk(env, s, step);
  }

  // ---------- Over whole runs ----------

  ghost predicate Run<C(!new), O(!new)>(env: Env<C, O>, s: State<C, O>, steps: seq<Step<C, O>>, s': State<C, O>)
    decreases |steps|
  {
    if steps == [] then s' == s
    else s.bases != [] && Enabled(s, steps[0]) && Run(env, Apply(env, s, steps[0]), steps[1..], s')
  }

  lemma {:induction false} RunKeepsInv<C(!new), O(!new)>(env: Env<C, O>, s: State<C, O>, steps: seq<Step<C, O>>, s': State<C, O>)
    requires Inv(env, s) && Run(env, s, steps, s')
    ensures Inv(env, s')
    decreases |steps|
  {
    if steps != [] {
      StepKeepsInv(env, s, steps[0]);
      RunKeepsInv(env, Apply(env, s, steps[0]), steps[1..], s');
    }
  }

  ghost predicate Reachable<C(!new), O(!new)>(env: Env<C, O>, s: State<C, O>) {
    exists steps :: Run(env, Init(), steps, s)
  }

  lemma ReachableInv<C(!new), O(!new)>(env: Env<C, O>, s: State<C, O>)
    requires Reachable(env, s)
    ensures Inv(env, s)
  {
    var steps :| Run(env, Init(), steps, s);
    RunKeepsInv(env, Init(), steps, s);
  }

  /** At most one load per tenant is in flight, and a call that finds a lock starts none. */
  lemma SingleFlight<C(!new), O(!new)>(env: Env<C, O>, s: State<C, O>, a: nat, b: nat)
    requires Reachable(env, s) && a in s.flights.loads && b in s.flights.loads
    requires s.flights.loads[a].tenant == s.flights.loads[b].tenant
    ensures a == b
    ensures s.bases != [] && Apply(env, s, EnsureTenant(s.flights.loads[a].tenant)) == s
  {
    ReachableInv(env, s);
  }

  /** Updates hold the lock one at a time and in the order they asked for it. */
  lemma LockIsFairMutex<C(!new), O(!new)>(env: Env<C, O>, s: State<C, O>, a: nat, b: nat)
    requires Reachable(env, s)
    ensures Holds(s.chain, a) && Holds(s.chain, b) ==> a == b
    ensures forall i :: 0 <= i < |s.chain.acquired| ==> s.chain.acquired[i] == i + 1
    ensures Holds(s.chain, a) && b in s.chain.updates && b != a ==> a < b && s.chain.updates[b].Waiting?
  {
    ReachableInv(env, s);
  }

  /** While an update is unfinished, the head of the queue can take a step. */
  lemma ChainNeverSticks<C(!new), O(!new)>(env: Env<C, O>, s: State<C, O>, k: nat)
    requires Reachable(env, s) && k in s.chain.updates
    ensures exists head :: head in s.chain.updates && head <= k
                           && (Enabled(s, UpdateAcquired(head)) || Enabled(s, UpdateFailed(head)))
  {
    ReachableInv(env, s);
    var q := s.chain;
    var head := if |q.acquired| in q.updates then |q.acquired| else |q.acquired| + 1;
    assert |q.acquired| in q.updates || |q.acquired| in q.resolved;
    assert head in q.updates;
    if q.updates[head].Waiting? {
      assert Enabled(s, UpdateAcquired(head));
    } else {
      assert Enabled(s, UpdateFailed(head));
    }
  }

  /** The steps that advance the queue: acquiring, installing, finishing or failing. */
  predicate Advances<C, O>(step: Step<C, O>) {
    step.UpdateAcquired? || step.UpdateInstalled? || step.UpdateDone? || step.UpdateFailed?
  }

  function Advancing<C, O>(steps: seq<Step<C, O>>): nat {
    if steps == [] then 0 else (if Advances(steps[0]) then 1 else 0) + Advancing(steps[1..])
  }

  /** How many advancing steps the queue can still make before ticket `k` is resolved. */
  function Distance<C>(q: Chain<C>, k: nat): int {
    var n := |q.acquired|;
    3 * (k - n) + (if Holds(q, n) then (if q.updates[n].installed then 1 else 2) else 0)
  }

  lemma StepCloser<C, O>(env: Env<C, O>, s: State<C, O>, step: Step<C, O>, k: nat)
    requires s.bases != [] && ChainOk(s.chain) && Enabled(s, step) && k in s.chain.updates
    ensures Distance(s.chain, k) > 0
    ensures var q := Apply(env, s, step).chain;
      k in q.updates ==> Distance(q, k) <= Distance(s.chain, k) - (if Advances(step) then 1 else 0)
    ensures k in Apply(env, s, step).chain.updates || k in Apply(env, s, step).chain.resolved
  {
    assert |s.chain.acquired| in s.chain.resolved || k >= |s.chain.acquired|;
  }

  lemma {:induction false} ResolvedStays<C(!new), O(!new)>(env: Env<C, O>, s: State<C, O>, steps: seq<Step<C, O>>, s': State<C, O>, k: nat)
    requires Run(env, s, steps, s') && k in s.chain.resolved
    ensures k in s'.chain.resolved
    decreases |steps|
  {
    if steps != [] {
      ResolvedStays(env, Apply(env, s, steps[0]), steps[1..], s', k);
    }
  }

  /**
   No update waits for ever: within as many advancing steps of the queue as its distance, at
   most three for every update in line, ticket `k` is resolved, whatever else runs in between.
   */
  lemma {:induction false} ServedWithinDistance<C(!new), O(!new)>(env: Env<C, O>, s: State<C, O>, steps: seq<Step<C, O>>, s': State<C, O>, k: nat)
    requires Inv(env, s) && Run(env, s, steps, s') && k in s.chain.updates
    ensures Distance(s.chain, k) <= 3 * k
    ensures Advancing(steps) >= Distance(s.chain, k) ==> k in s'.chain.resolved
    decreases |steps|
  {
    if steps == [] {
      StepCloser(env, s, UpdateQueued, k);
    } else {
      var next := Apply(env, s, steps[0]);
      StepCloser(env, s, steps[0], k);
      StepKeepsInv(env, s, steps[0]);
      if k in next.chain.updates {
        ServedWithinDistance(env, next, steps[1..], s', k);
      } else {
        ResolvedStays(env, next, steps[1..], s', k);
      }
    }
  }

  /** The base changed since the entry was stored by a source that kept the tenant cache. */
  ghost predicate KeepingChangeSince<C>(bases: seq<Change<C>>, epoch: nat) {
    exists i :: epoch < i < |bases| && !bases[i].clears && bases[i].base != bases[i - 1].base
  }

  lemma {:induction false} NoChangeSince<C>(bases: seq<Change<C>>, epoch: nat, now: nat)
    requires epoch <= now < |bases| && !KeepingChangeSince(bases, epoch)
    requires forall i :: epoch < i < |bases| ==> !bases[i].clears
    ensures bases[now].base == bases[epoch].base
    decreases now
  {
    if epoch < now {
      NoChangeSince(bases, epoch, now - 1);
      assert !(bases[now].base != bases[now - 1].base);
    }
  }

  /** The entry is what a load at this moment would store, had it read the same overrides. */
  ghost predicate Current<C, O>(env: Env<C, O>, s: State<C, O>, t: string)
    requires t in s.tenants
  {
    s.cache.Some? && s.tenants[t].config == env.derive(t, s.cache.value, s.tenants[t].reading.overrides)
  }

  /** For this tenant and these overrides, the two bases come out the same. */
  predicate SameView<C(==), O>(env: Env<C, O>, t: string, overrides: Option<O>, base: Option<C>, other: Option<C>) {
    base.Some? && other.Some? && env.derive(t, base.value, overrides) == env.derive(t, other.value, overrides)
  }

  /**
   Exactly when a cached tenant entry is current: when the base its load cloned and the base
   cached now come out the same for it, in particular when they are equal, and only then if
   deriving tells these two bases apart.
   */
  lemma TenantEntryCurrentIff<C(!new), O(!new)>(env: Env<C, O>, s: State<C, O>, t: string)
    requires Reachable(env, s) && t in s.tenants
    ensures s.tenants[t].cloned < |s.bases|
    ensures var cloned, overrides := s.bases[s.tenants[t].cloned].base, s.tenants[t].reading.overrides;
      && (Current(env, s, t) <==> SameView(env, t, overrides, cloned, s.cache))
      && (cloned == s.cache ==> Current(env, s, t))
      && ((SameView(env, t, overrides, cloned, s.cache) ==> cloned == s.cache) ==> (Current(env, s, t) <==> cloned == s.cache))
  {
    ReachableInv(env, s);
    assert EntryOk(env, s.bases, t, s.tenants[t]);
  }

  /**
   So an entry is current unless its load straddled a base change or a later change kept
   the tenant cache.
   */
  lemma TenantEntryIsCurrent<C(!new), O(!new)>(env: Env<C, O>, s: State<C, O>, t: string)
    requires Reachable(env, s) && t in s.tenants
    requires s.tenants[t].cloned == s.tenants[t].stored
    requires !KeepingChangeSince(s.bases, s.tenants[t].stored)
    ensures Current(env, s, t)
  {
    ReachableInv(env, s);
    var e := s.tenants[t];
    assert EntryOk(env, s.bases, t, e);
    NoChangeSince(s.bases, e.stored, |s.bases| - 1);
    TenantEntryCurrentIff(env, s, t);
  }

  // ---------- Overrides and invalidation ----------

  /** The overrides of the entry were read after the last invalidation of its tenant. */
  predicate ReadSinceInvalidation<C, O>(s: State<C, O>, t: string)
    requires t in s.tenants
  {
    s.tenants[t].reading.evictions == EvictionsOf(s.evictions, t)
  }

  /**
   Exactly when a cached entry carries overrides read after the last invalidation: when no
   invalidation fell between the moments its load read them and stored the entry.
   */
  lemma ReadSinceInvalidationIff<C(!new), O(!new)>(env: Env<C, O>, s: State<C, O>, t: string)
    requires Reachable(env, s) && t in s.tenants
    ensures ReadSinceInvalidation(s, t) <==> s.tenants[t].reading.evictions == s.tenants[t].evictions
    ensures s.tenants[t].reading.evictions <= EvictionsOf(s.evictions, t)
  {
    ReachableInv(env, s);
  }

  // ---------- Each side condition is needed ----------

  lemma RunStep<C(!new), O(!new)>(env: Env<C, O>, s: State<C, O>, step: Step<C, O>)
    requires Reachable(env, s) && s.bases != [] && Enabled(s, step)
    ensures Reachable(env, Apply(env, s, step))
  {
    var steps :| Run(env, Init(), steps, s);
    RunAppend(env, Init(), steps, s, step);
  }

  lemma {:induction false} RunAppend<C(!new), O(!new)>(env: Env<C, O>, s: State<C, O>, steps: seq<Step<C, O>>, s': State<C, O>, step: Step<C, O>)
    requires Run(env, s, steps, s') && s'.bases != [] && Enabled(s', step)
    ensures Run(env, s, steps + [step], Apply(env, s', step))
    decreases |steps|
  {
    if steps == [] {
      assert [step][1..] == [];
    } else {
      RunAppend(env, Apply(env, s, steps[0]), steps[1..], s', step);
      assert (steps + [step])[1..] == steps[1..] + [step];
    }
  }

  /** A load that straddles an install leaves an entry of the old base behind. */
  lemma StraddlingLoadIsStale<C(!new), O(!new)>(env: Env<C, O>, t: string, before: C, after: C, overrides: Option<O>) returns (s: State<C, O>)
    requires env.overrideService && env.derive(t, before, overrides) != env.derive(t, after, overrides)
    ensures Reachable(env, s) && t in s.tenants && s.cache == Some(after)
    ensures s.tenants[t].config != env.derive(t, after, s.tenants[t].reading.overrides)
  {
    s := Init();
    assert Run(env, Init(), [], s);
    RunStep(env, s, InstalledKeeping(before));
    s := Apply(env, s, InstalledKeeping(before));
    RunStep(env, s, EnsureTenant(t));
    s := Apply(env, s, EnsureTenant(t));
    RunStep(env, s, DatabaseChanged(after));
    s := Apply(env, s, DatabaseChanged(after));
    RunStep(env, s, OverridesRead(0, overrides));
    s := Apply(env, s, OverridesRead(0, overrides));
    RunStep(env, s, LoadStored(0));
    s := Apply(env, s, LoadStored(0));
  }

  /** A load that reads its overrides, is overtaken by an invalidation and then stores brings the old ones back. */
  lemma InvalidatedComesBack<C(!new), O(!new)>(env: Env<C, O>, t: string, base: C, overrides: Option<O>) returns (s: State<C, O>)
    requires env.overrideService
    ensures Reachable(env, s) && t in s.tenants && s.tenants[t].reading.overrides == overrides
    ensures !ReadSinceInvalidation(s, t) && Current(env, s, t)
  {
    s := Init();
    assert Run(env, Init(), [], s);
    RunStep(env, s, InstalledKeeping(base));
    s := Apply(env, s, InstalledKeeping(base));
    RunStep(env, s, EnsureTenant(t));
    s := Apply(env, s, EnsureTenant(t));
    RunStep(env, s, OverridesRead(0, overrides));
    s := Apply(env, s, OverridesRead(0, overrides));
    RunStep(env, s, TenantInvalidated(t));
    s := Apply(env, s, TenantInvalidated(t));
    RunStep(env, s, LoadStored(0));
    s := Apply(env, s, LoadStored(0));
  }

  /** An install that keeps the tenant cache leaves its entries behind. */
  lemma KeepingInstallIsStale<C(!new), O(!new)>(env: Env<C, O>, t: string, before: C, after: C, overrides: Option<O>) returns (s: State<C, O>)
    requires env.overrideService && env.derive(t, before, overrides) != env.derive(t, after, overrides)
    ensures Reachable(env, s) && t in s.tenants && s.cache == Some(after)
    ensures s.tenants[t].cloned == s.tenants[t].stored
    ensures s.tenants[t].config != env.derive(t, after, s.tenants[t].reading.overrides)
  {
    s := Init();
    assert Run(env, Init(), [], s);
    RunStep(env, s, InstalledKeeping(before));
    s := Apply(env, s, InstalledKeeping(before));
    RunStep(env, s, EnsureTenant(t));
    s := Apply(env, s, EnsureTenant(t));
    RunStep(env, s, OverridesRead(0, overrides));
    s := Apply(env, s, OverridesRead(0, overrides));
    RunStep(env, s, LoadStored(0));
    s := Apply(env, s, LoadStored(0));
    RunStep(env, s, InstalledKeeping(after));
    s := Apply(env, s, InstalledKeeping(after));
  }

  /** A run up to the point where an update has installed its base but not finished. */
  lemma UnfinishedUpdate<C(!new), O(!new)>(env: Env<C, O>, before: C, after: C) returns (s: State<C, O>)
    ensures Reachable(env, s) && s.cache == Some(after) && s.tenants == map[] && s.flights == Flights(map[], map[], 0)
    ensures Holds(s.chain, 1) && s.chain.updates[1].snapshot == Some(before)
  {
    s := Init();
    assert Run(env, Init(), [], s);
    RunStep(env, s, InstalledKeeping(before));
    s := Apply(env, s, InstalledKeeping(before));
    RunStep(env, s, UpdateQueued);
    s := Apply(env, s, UpdateQueued);
    RunStep(env, s, UpdateAcquired(1));
    s := Apply(env, s, UpdateAcquired(1));
    RunStep(env, s, UpdateInstalled(1, after));
    s := Apply(env, s, UpdateInstalled(1, after));
  }

  /** An update that fails after its install leaves entries of the withdrawn base behind. */
  lemma LateRollbackIsStale<C(!new), O(!new)>(env: Env<C, O>, t: string, before: C, after: C, overrides: Option<O>) returns (s: State<C, O>)
    requires env.overrideService && env.derive(t, before, overrides) != env.derive(t, after, overrides)
    ensures Reachable(env, s) && t in s.tenants && s.cache == Some(before)
    ensures s.tenants[t].cloned == s.tenants[t].stored
    ensures s.tenants[t].config != env.derive(t, before, s.tenants[t].reading.overrides)
  {
    s := UnfinishedUpdate(env, before, after);
    ReachableInv(env, s);
    RunStep(env, s, EnsureTenant(t));
    s := Apply(env, s, EnsureTenant(t));
    RunStep(env, s, OverridesRead(0, overrides));
    s := Apply(env, s, OverridesRead(0, overrides));
    RunStep(env, s, LoadStored(0));
    s := Apply(env, s, LoadStored(0));
    RunStep(env, s, UpdateFailed(1));
    s := Apply(env, s, UpdateFailed(1));
  }

  // ---------- Rollback ----------

  /** One step: a resolved ticket stays so, and a holder keeps its snapshot or is resolved. */
  lemma SnapshotStep<C, O>(env: Env<C, O>, s: State<C, O>, step: Step<C, O>, k: nat)
    requires s.bases != [] && ChainOk(s.chain) && Enabled(s, step) && (k in s.chain.resolved || Holds(s.chain, k))
    ensures var q := Apply(env, s, step).chain;
      && (k in q.resolved || Holds(q, k))
      && (Holds(q, k) && Holds(s.chain, k) ==> q.updates[k].snapshot == s.chain.updates[k].snapshot)
      && (k in s.chain.resolved ==> k in q.resolved)
  {
  }

  lemma ResolvedNeverHolds<C, O>(env: Env<C, O>, s: State<C, O>, k: nat)
    requires Inv(env, s) && k in s.chain.resolved
    ensures !Holds(s.chain, k)
  {
  }

  /** Once resolved, a ticket never holds the lock again; while held, its snapshot does not move. */
  lemma {:induction false} SnapshotIsFixed<C(!new), O(!new)>(env: Env<C, O>, s: State<C, O>, steps: seq<Step<C, O>>, s': State<C, O>, k: nat)
    requires Inv(env, s) && Run(env, s, steps, s') && Holds(s'.chain, k)
    requires k in s.chain.resolved || Holds(s.chain, k)
    ensures Holds(s.chain, k) && s'.chain.updates[k].snapshot == s.chain.updates[k].snapshot
    decreases |steps|
  {
    if steps == [] {
      if k in s.chain.resolved {
        ResolvedNeverHolds(env, s, k);
      }
    } else {
      var next := Apply(env, s, steps[0]);
      StepKeepsInv(env, s, steps[0]);
      SnapshotStep(env, s, steps[0], k);
      SnapshotIsFixed(env, next, steps[1..], s', k);
      if k in next.chain.resolved {
        ResolvedNeverHolds(env, next, k);
      }
    }
  }

  /** Whatever ran in between, a failed update puts back the base that was cached when it got the lock. */
  lemma FailedUpdateRestores<C(!new), O(!new)>(env: Env<C, O>, s: State<C, O>, k: nat, steps: seq<Step<C, O>>, s': State<C, O>)
    requires Reachable(env, s) && s.bases != [] && Enabled(s, UpdateAcquired(k))
    requires Run(env, Apply(env, s, UpdateAcquired(k)), steps, s')
    requires s'.bases != [] && Enabled(s', UpdateFailed(k))
    ensures Apply(env, s', UpdateFailed(k)).cache == s.cache
    ensures k in Apply(env, s', UpdateFailed(k)).chain.resolved
  {
    ReachableInv(env, s);
    StepKeepsInv(env, s, UpdateAcquired(k));
    SnapshotIsFixed(env, Apply(env, s, UpdateAcquired(k)), steps, s', k);
  }
}
