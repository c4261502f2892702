/**
 The manager object. Each method is one stretch of code between two `await`s; what an
 asynchronous call keeps in local variables across an `await` comes back as a parameter.
 */
module ConfigManagerObject {
  import opened Wrappers
  import opened ConfigManager

  /** The cached configurations are those of the entries. */
  ghost predicate Configs<C, O>(configs: map<string, C>, entries: map<string, Entry<C, O>>) {
    configs.Keys == entries.Keys && forall t :: t in configs ==> configs[t] == entries[t].config
  }

  /** Every step of a reachable state leads to a reachable state. */
  lemma Reached<C(!new), O(!new)>(env: Env<C, O>, s: State<C, O>, step: Step<C, O>)
    requires Reachable(env, s) && Enabled(s, step)
    ensures s.bases != [] && Reachable(env, Apply(env, s, step))
  {
    ReachableInv(env, s);
    RunStep(env, s, step);
  }

  lemma LocksName<C(!new), O(!new)>(env: Env<C, O>, s: State<C, O>, load: nat)
    requires Reachable(env, s) && load in s.flights.loads
    ensures var t := s.flights.loads[load].tenant; t in s.flights.locks && s.flights.locks[t] == load
  {
    ReachableInv(env, s);
  }

  lemma TicketsBelowTail<C(!new), O(!new)>(env: Env<C, O>, s: State<C, O>)
    requires Reachable(env, s)
    ensures forall k :: k in s.chain.updates ==> k <= s.chain.tail
  {
    ReachableInv(env, s);
  }

  class Manager<C(!new), O(!new)> {
    const env: Env<C, O>
    var cache: Option<C>
    var tenantConfigs: map<string, C>
    /** Each lock entry is a promise, named by the number of its load. */
    var tenantConfigLocks: map<string, nat>
    var nextLoad: nat
    /** The newest promise of the update chain, named by its ticket. */
    var configUpdateTail: nat
    ghost var s: State<C, O>

    constructor (env: Env<C, O>)
      ensures this.env == env && s == Init() && Valid()
    {
      this.env := env;
      cache, tenantConfigs, tenantConfigLocks, nextLoad, configUpdateTail := None, map[], map[], 0, 0;
      s := Init();
      new;
      assert Run(env, Init(), [], s);
    }

    /** The fields hold what a reachable state of the transition system says. */
    ghost predicate Valid()
      reads this
    {
      && Reachable(env, s) && s.bases != []
      && cache == s.cache
      && Configs(tenantConfigs, s.tenants)
      && tenantConfigLocks == s.flights.locks
      && nextLoad == s.flights.nextLoad
      && configUpdateTail == s.chain.tail
    }

    // ---------- Tenant loads ----------

    /** `ensureTenantConfig` up to its first `await`; the load it started, if it did. */
    method EnsureTenantConfig(t: string) returns (load: Option<nat>, clone: Option<C>)
      requires Valid()
      modifies this
      ensures Valid() && s == Apply(env, old(s), EnsureTenant(t))
      ensures load.Some? <==> t !in old(tenantConfigs) && t !in old(tenantConfigLocks)
      ensures load.Some? ==> load.value in s.flights.loads
                             && s.flights.loads[load.value].tenant == t && s.flights.loads[load.value].clone == clone
    {
      Reached(env, s, EnsureTenant(t));
      clone := cache;
      if t in tenantConfigs || t in tenantConfigLocks {
        return None, clone;
      }
      s := Apply(env, s, EnsureTenant(t));
      load := Some(nextLoad);
      tenantConfigLocks := tenantConfigLocks[t := nextLoad];
      nextLoad := nextLoad + 1;
      if cache.Some? && !env.overrideService {
        tenantConfigs := tenantConfigs[t := env.derive(t, cache.value, None)];
      }
    }

    /** The override service has read its answer; the manager does not know yet. */
    method OverridesAreRead(load: nat, overrides: Option<O>)
      requires Valid() && Enabled(s, OverridesRead(load, overrides))
      modifies this`s
      ensures Valid() && s == Apply(env, old(s), OverridesRead(load, overrides))
      ensures Enabled(s, LoadStored(load)) && s.flights.loads[load].reading.value.overrides == overrides
    {
      Reached(env, s, OverridesRead(load, overrides));
      s := Apply(env, s, OverridesRead(load, overrides));
    }

    /** The rest of `loadTenantConfig`, with the clone it took before awaiting the overrides. */
    method OverridesArrive(load: nat, t: string, clone: C, overrides: Option<O>)
      requires Valid() && Enabled(s, LoadStored(load)) && s.flights.loads[load].reading.value.overrides == overrides
      requires s.flights.loads[load].tenant == t && s.flights.loads[load].clone == Some(clone)
      modifies this
      ensures Valid() && s == Apply(env, old(s), LoadStored(load))
      ensures tenantConfigs == old(tenantConfigs)[t := env.derive(t, clone, overrides)]
    {
      Reached(env, s, LoadStored(load));
      s := Apply(env, s, LoadStored(load));
      tenantConfigs := tenantConfigs[t := env.derive(t, clone, overrides)];
    }

    /** Reading the overrides threw: the load settles and nothing is cached. */
    method OverridesReadFailed(load: nat)
      requires Valid() && Enabled(s, OverridesFailed(load))
      modifies this
      ensures Valid() && s == Apply(env, old(s), OverridesFailed(load))
      ensures Enabled(s, LoadAwaited(load))
      ensures tenantConfigs == old(tenantConfigs) && tenantConfigLocks == old(tenantConfigLocks)
    {
      Reached(env, s, OverridesFailed(load));
      s := Apply(env, s, OverridesFailed(load));
    }

    /** The `finally` of the call that created the lock; it removes its own entry and no other. */
    method ReleaseTenantLock(load: nat, t: string)
      requires Valid() && Enabled(s, LoadAwaited(load)) && s.flights.loads[load].tenant == t
      modifies this
      ensures Valid() && s == Apply(env, old(s), LoadAwaited(load))
      ensures t in old(tenantConfigLocks) && old(tenantConfigLocks)[t] == load
      ensures tenantConfigLocks == old(tenantConfigLocks) - {t}
    {
      Reached(env, s, LoadAwaited(load));
      LocksName(env, s, load);
      s := Apply(env, s, LoadAwaited(load));
      tenantConfigLocks := tenantConfigLocks - {t};
    }

    // ---------- Updates ----------

    /** `acquireConfigUpdateLock` up to its `await`: the promise to wait for, and the one to resolve later. */
    method AcquireConfigUpdateLock() returns (previous: nat, ticket: nat)
      requires Valid()
      modifies this
      ensures Valid() && s == Apply(env, old(s), UpdateQueued)
      ensures ticket in s.chain.updates && s.chain.updates[ticket] == Waiting(previous)
      ensures forall k :: k in old(s).chain.updates ==> k < ticket
    {
      Reached(env, s, UpdateQueued);
      TicketsBelowTail(env, s);
      previous := configUpdateTail;
      ticket := previous + 1;
      configUpdateTail := ticket;
      s := Apply(env, s, UpdateQueued);
    }

    /** The lock was granted: remember what to roll back to. */
    method BeginUpdate(ticket: nat) returns (previousCache: Option<C>)
      requires Valid() && Enabled(s, UpdateAcquired(ticket))
      modifies this
      ensures Valid() && s == Apply(env, old(s), UpdateAcquired(ticket))
      ensures Holds(s.chain, ticket) && s.chain.updates[ticket].snapshot == previousCache == cache == old(cache)
    {
      Reached(env, s, UpdateAcquired(ticket));
      previousCache := cache;
      s := Apply(env, s, UpdateAcquired(ticket));
    }

    method InstallUpdate(ticket: nat, config: C)
      requires Valid() && Enabled(s, UpdateInstalled(ticket, config))
      modifies this
      ensures Valid() && s == Apply(env, old(s), UpdateInstalled(ticket, config))
      ensures cache == Some(config) && tenantConfigs == map[]
    {
      Reached(env, s, UpdateInstalled(ticket, config));
      s := Apply(env, s, UpdateInstalled(ticket, config));
      cache := Some(config);
      tenantConfigs := map[];
    }

    /** The `catch` and `finally` of `update`; `previousCache` is what `BeginUpdate` returned. */
    method RollBackUpdate(ticket: nat, previousCache: Option<C>)
      requires Valid() && Enabled(s, UpdateFailed(ticket)) && s.chain.updates[ticket].snapshot == previousCache
      modifies this
      ensures Valid() && s == Apply(env, old(s), UpdateFailed(ticket))
      ensures cache == previousCache && tenantConfigs == old(tenantConfigs)
      ensures ticket in s.chain.resolved
    {
      Reached(env, s, UpdateFailed(ticket));
      s := Apply(env, s, UpdateFailed(ticket));
      cache := previousCache;
    }

    /** The `finally` of an update that succeeded. */
    method FinishUpdate(ticket: nat)
      requires Valid() && Enabled(s, UpdateDone(ticket))
      modifies this
      ensures Valid() && s == Apply(env, old(s), UpdateDone(ticket))
      ensures cache == old(cache) && ticket in s.chain.resolved
    {
      Reached(env, s, UpdateDone(ticket));
      s := Apply(env, s, UpdateDone(ticket));
    }

    // ---------- Other installers ----------

    /** `reload` up to its first `await`: remember what to go back to. */
    method BeginReload(reload: nat) returns (previousCache: Option<C>)
      requires Valid() && Enabled(s, ReloadStarted(reload))
      modifies this
      ensures Valid() && s == Apply(env, old(s), ReloadStarted(reload))
      ensures Enabled(s, ReloadFailed(reload)) && s.reloads[reload] == previousCache == old(cache)
      ensures forall c :: Enabled(s, ReloadInstalled(reload, c))
    {
      Reached(env, s, ReloadStarted(reload));
      previousCache := cache;
      s := Apply(env, s, ReloadStarted(reload));
    }

    method InstallReload(reload: nat, config: C)
      requires Valid() && Enabled(s, ReloadInstalled(reload, config))
      modifies this
      ensures Valid() && s == Apply(env, old(s), ReloadInstalled(reload, config))
      ensures cache == Some(config) && tenantConfigs == map[]
    {
      Reached(env, s, ReloadInstalled(reload, config));
      s := Apply(env, s, ReloadInstalled(reload, config));
      cache := Some(config);
      tenantConfigs := map[];
    }

    /** The `catch` of `reload`. */
    method RollBackReload(reload: nat, previousCache: Option<C>)
      requires Valid() && Enabled(s, ReloadFailed(reload)) && s.reloads[reload] == previousCache
      modifies this
      ensures Valid() && s == Apply(env, old(s), ReloadFailed(reload))
      ensures cache == previousCache && tenantConfigs == old(tenantConfigs)
    {
      Reached(env, s, ReloadFailed(reload));
      s := Apply(env, s, ReloadFailed(reload));
      cache := previousCache;
    }

    /** `flushInitial` installs a base and leaves the tenant cache as it is. */
    method InstallInitial(config: C)
      requires Valid()
      modifies this
      ensures Valid() && s == Apply(env, old(s), InstalledKeeping(config))
      ensures cache == Some(config) && tenantConfigs == old(tenantConfigs)
    {
      Reached(env, s, InstalledKeeping(config));
      s := Apply(env, s, InstalledKeeping(config));
      cache := Some(config);
    }

    /** The end of `handleDbProviderChange`, once the bootstrap configuration has been read. */
    method HandleDbProviderChange(config: C)
      requires Valid()
      modifies this
      ensures Valid() && s == Apply(env, old(s), DatabaseChanged(config))
      ensures cache == Some(config) && tenantConfigs == map[]
    {
      Reached(env, s, DatabaseChanged(config));
      s := Apply(env, s, DatabaseChanged(config));
      cache := Some(config);
      tenantConfigs := map[];
    }

    // ---------- Invalidation ----------

    /** A global message: every tenant entry goes, and the base stays until the reload installs one. */
    method HandleGlobalInvalidation()
      requires Valid()
      modifies this
      ensures Valid() && s == Apply(env, old(s), AllInvalidated)
      ensures cache == old(cache) && tenantConfigs == map[]
    {
      Reached(env, s, AllInvalidated);
      s := Apply(env, s, AllInvalidated);
      tenantConfigs := map[];
    }

    method ClearCache()
      requires Valid()
      modifies this
      ensures Valid() && s == Apply(env, old(s), Cleared)
      ensures cache == None && tenantConfigs == map[]
    {
      Reached(env, s, Cleared);
      s := Apply(env, s, Cleared);
      cache := None;
      tenantConfigs := map[];
    }

    method InvalidateTenantConfig(t: string)
      requires Valid()
      modifies this
      ensures Valid() && s == Apply(env, old(s), TenantInvalidated(t))
      ensures tenantConfigs == old(tenantConfigs) - {t}
    {
      Reached(env, s, TenantInvalidated(t));
      s := Apply(env, s, TenantInvalidated(t));
      tenantConfigs := tenantConfigs - {t};
    }

    // ---------- Reading ----------

    /**
     * `getConfig`: `None` is the error of an unloaded manager, and `multiTenant` reads the feature
     * flag of the base. A tenant gets its cached entry, which is the overlay on the current base
     * exactly when the base its load cloned comes out the same; without an entry it gets the base.
     */
    method GetConfig(multiTenant: C -> bool, tenant: Option<string>) returns (config: Option<C>)
      requires Valid()
      ensures config.None? <==> cache.None?
      ensures cache.Some? ==>
        if multiTenant(cache.value) && tenant.Some? && tenant.value != "" && tenant.value in s.tenants then
          var t, e := tenant.value, s.tenants[tenant.value];
          && config == Some(e.config) && e.cloned < |s.bases|
          && (config == Some(env.derive(t, cache.value, e.reading.overrides)) <==>
                SameView(env, t, e.reading.overrides, s.bases[e.cloned].base, cache))
        else config == cache
    {
      if cache.None? {
        return None;
      }
      if multiTenant(cache.value) && tenant.Some? && tenant.value != "" && tenant.value in tenantConfigs {
        TenantEntryCurrentIff(env, s, tenant.value);
        return Some(tenantConfigs[tenant.value]);
      }
      return cache;
    }
  }
}
