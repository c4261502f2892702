/** What each step of the configuration manager may do, and what it does to each of its fields. */
module ConfigEffects {
  import opened Wrappers
  import opened ConfigManager

  // ---------- When a step can happen ----------

  /**
   A load goes on once: its overrides are read, then stored, or reading fails, and only a settled
   one is awaited. A queued update acquires after its predecessor; a holder installs at most once,
   finishes only after that, and may fail until then. A reload ends only if it was started.
   */
  lemma EnabledIff<C, O>(s: State<C, O>, step: Step<C, O>)
    ensures Enabled(s, step) <==>
      match step
      case OverridesRead(id, _) => id in s.flights.loads && !s.flights.loads[id].settled && s.flights.loads[id].reading == None
      case LoadStored(id) => id in s.flights.loads && !s.flights.loads[id].settled && s.flights.loads[id].reading != None
      case OverridesFailed(id) => id in s.flights.loads && !s.flights.loads[id].settled
      case LoadAwaited(id) => id in s.flights.loads && s.flights.loads[id].settled
      case UpdateAcquired(k) => k in s.chain.updates && s.chain.updates[k].Waiting? && s.chain.updates[k].prev in s.chain.resolved
      case UpdateInstalled(k, _) => k in s.chain.updates && s.chain.updates[k].Holding? && !s.chain.updates[k].installed
      case UpdateDone(k) => k in s.chain.updates && s.chain.updates[k].Holding? && s.chain.updates[k].installed
      case UpdateFailed(k) => k in s.chain.updates && s.chain.updates[k].Holding?
      case ReloadStarted(r) => r !in s.reloads
      case ReloadInstalled(r, _) => r in s.reloads
      case ReloadFailed(r) => r in s.reloads
      case _ => true
  {
  }

  /** The manager starts with nothing, and the first update waits for nobody. */
  lemma Beginning<C, O>()
    ensures var s := Init<C, O>();
      && s.cache == None && s.tenants == map[] && s.reloads == map[] && s.bases == [Change(None, true)]
      && s.flights.locks == map[] && s.flights.loads == map[]
      && s.chain.tail in s.chain.resolved && s.chain.updates == map[] && s.chain.acquired == []
      && forall t :: EvictionsOf(s.evictions, t) == 0
  {
  }

  // ---------- The cached base ----------

  /** The base that a step installs, restores or clears. */
  ghost predicate SetsBase<C, O>(s: State<C, O>, step: Step<C, O>, base: Option<C>)
    requires Enabled(s, step)
  {
    match step
    case UpdateInstalled(_, c) => base == Some(c)
    case ReloadInstalled(_, c) => base == Some(c)
    case DatabaseChanged(c) => base == Some(c)
    case InstalledKeeping(c) => base == Some(c)
    case UpdateFailed(k) => base == s.chain.updates[k].snapshot
    case ReloadFailed(r) => base == s.reloads[r]
    case Cleared => base == None
    case _ => false
  }

  predicate KeepsBase<C, O>(step: Step<C, O>) {
    !(step.UpdateInstalled? || step.ReloadInstalled? || step.DatabaseChanged? || step.InstalledKeeping?
      || step.UpdateFailed? || step.ReloadFailed? || step.Cleared?)
  }

  /** The steps that also forget every tenant's entry; a rollback and `flushInitial` do not. */
  predicate Forgets<C, O>(step: Step<C, O>) {
    step.UpdateInstalled? || step.ReloadInstalled? || step.DatabaseChanged? || step.Cleared?
  }

  lemma BaseAfter<C, O>(env: Env<C, O>, s: State<C, O>, step: Step<C, O>)
    requires s.bases != [] && Enabled(s, step)
    ensures var s' := Apply(env, s, step);
      if KeepsBase(step) then s'.cache == s.cache && s'.bases == s.bases
      else SetsBase(s, step, s'.cache) && s'.bases == s.bases + [Change(s'.cache, Forgets(step))]
  {
  }

  // ---------- Tenant entries ----------

  /** The step drops the entry of `t`. */
  predicate Evicts<C, O>(step: Step<C, O>, t: string) {
    Forgets(step) || step == TenantInvalidated(t) || step == AllInvalidated
  }

  /** The step stores an entry of `t` with this configuration. */
  ghost predicate Stores<C, O>(env: Env<C, O>, s: State<C, O>, step: Step<C, O>, t: string, config: C) {
    match step
    case EnsureTenant(u) =>
      && u == t && t !in s.tenants && t !in s.flights.locks && !env.overrideService
      && s.cache.Some? && config == env.derive(t, s.cache.value, None)
    case LoadStored(id) =>
      && id in s.flights.loads && s.flights.loads[id].tenant == t && s.flights.loads[id].clone.Some?
      && s.flights.loads[id].reading.Some?
      && config == env.derive(t, s.flights.loads[id].clone.value, s.flights.loads[id].reading.value.overrides)
    case _ => false
  }

  /** An entry is dropped by an eviction, stored by a load with what it cloned and read, and otherwise kept. */
  lemma TenantAfter<C, O>(env: Env<C, O>, s: State<C, O>, step: Step<C, O>, t: string)
    requires s.bases != [] && Enabled(s, step)
    ensures var tenants := Apply(env, s, step).tenants;
      if Evicts(step, t) then t !in tenants
      else if exists config :: Stores(env, s, step, t, config) then t in tenants && Stores(env, s, step, t, tenants[t].config)
      else (t in tenants <==> t in s.tenants) && (t in tenants ==> tenants[t] == s.tenants[t])
  {
    if step.EnsureTenant? && s.cache.Some? {
      assert Stores(env, s, step, t, env.derive(t, s.cache.value, None)) || !Stores(env, s, step, t, env.derive(t, s.cache.value, None));
    }
    if step.LoadStored? && s.flights.loads[step.load].clone.Some? {
      var load := s.flights.loads[step.load];
      var config := env.derive(load.tenant, load.clone.value, load.reading.value.overrides);
      assert Stores(env, s, step, load.tenant, config);
    }
  }

  /** A tenant is counted as invalidated exactly by an invalidation of itself or of all. */
  lemma EvictionsAfter<C, O>(env: Env<C, O>, s: State<C, O>, step: Step<C, O>, t: string)
    requires s.bases != [] && Enabled(s, step)
    ensures EvictionsOf(Apply(env, s, step).evictions, t) ==
      EvictionsOf(s.evictions, t) + (if step == TenantInvalidated(t) || step == AllInvalidated then 1 else 0)
  {
  }

  // ---------- Loads and their locks ----------

  /** The call starts a load, with a clone of the base of this moment. */
  predicate Starts<C, O>(s: State<C, O>, step: Step<C, O>) {
    step.EnsureTenant? && step.tenant !in s.tenants && step.tenant !in s.flights.locks
  }

  lemma LocksAfter<C, O>(env: Env<C, O>, s: State<C, O>, step: Step<C, O>)
    requires s.bases != [] && Enabled(s, step)
    ensures var f' := Apply(env, s, step).flights;
      && f'.locks == (if Starts(s, step) then s.flights.locks[step.tenant := s.flights.nextLoad]
                      else if step.LoadAwaited? then s.flights.locks - {s.flights.loads[step.load].tenant}
                      else s.flights.locks)
      && f'.nextLoad == s.flights.nextLoad + (if Starts(s, step) then 1 else 0)
  {
  }

  /** What becomes of each load: started, read, settled by a store or a failure, and forgotten once awaited. */
  lemma LoadsAfter<C, O>(env: Env<C, O>, s: State<C, O>, step: Step<C, O>)
    requires s.bases != [] && Enabled(s, step)
    ensures var loads, loads' := s.flights.loads, Apply(env, s, step).flights.loads;
      if Starts(s, step) then
        loads' == loads[s.flights.nextLoad := Load(step.tenant, s.cache, |s.bases| - 1, None, s.cache == None || !env.overrideService)]
      else match step
        case OverridesRead(id, overrides) =>
          loads' == loads[id := loads[id].(reading := Some(Reading(overrides, EvictionsOf(s.evictions, loads[id].tenant))))]
        case LoadStored(id) => loads' == loads[id := loads[id].(settled := true)]
        case OverridesFailed(id) => loads' == loads[id := loads[id].(settled := true)]
        case LoadAwaited(id) => loads' == loads - {id}
        case _ => loads' == loads
  {
  }

  // ---------- The update queue ----------

  lemma ChainAfter<C, O>(env: Env<C, O>, s: State<C, O>, step: Step<C, O>)
    requires s.bases != [] && Enabled(s, step)
    ensures var q, q' := s.chain, Apply(env, s, step).chain;
      match step
      case UpdateQueued => q' == Chain(q.tail + 1, q.resolved, q.updates[q.tail + 1 := Waiting(q.tail)], q.acquired)
      case UpdateAcquired(k) => q' == Chain(q.tail, q.resolved, q.updates[k := Holding(s.cache, |s.bases| - 1, false)], q.acquired + [k])
      case UpdateInstalled(k, _) =>
        q' == Chain(q.tail, q.resolved, q.updates[k := Holding(q.updates[k].snapshot, q.updates[k].epoch, true)], q.acquired)
      case UpdateDone(k) => q' == Chain(q.tail, q.resolved + {k}, q.updates - {k}, q.acquired)
      case UpdateFailed(k) => q' == Chain(q.tail, q.resolved + {k}, q.updates - {k}, q.acquired)
      case _ => q' == q
  {
  }

  lemma ReloadsAfter<C, O>(env: Env<C, O>, s: State<C, O>, step: Step<C, O>)
    requires s.bases != [] && Enabled(s, step)
    ensures Apply(env, s, step).reloads ==
      match step
      case ReloadStarted(r) => s.reloads[r := s.cache]
      case ReloadInstalled(r, _) => s.reloads - {r}
      case ReloadFailed(r) => s.reloads - {r}
      case _ => s.reloads
  {
  }

  /** The queue advances by acquiring, installing, finishing and failing, and each such step counts once. */
  lemma {:induction false} AdvancingGrows<C, O>(steps: seq<Step<C, O>>, step: Step<C, O>)
    ensures Advancing<C, O>([]) == 0
    ensures Advancing(steps + [step]) ==
      Advancing(steps) + (if step.UpdateAcquired? || step.UpdateInstalled? || step.UpdateDone? || step.UpdateFailed? then 1 else 0)
    decreases |steps|
  {
    if steps == [] {
      assert [step][1..] == [] && [] + [step] == [step];
    } else {
      AdvancingGrows(steps[1..], step);
      assert (steps + [step])[0] == steps[0] && (steps + [step])[1..] == steps[1..] + [step];
    }
  }
}
