/**
 Configuration invalidation across processes: a shared settings store, one cached base
 and one tenant cache per process, and an inbox per subscriber. Updates, reloads and
 deliveries are atomic here, and every published message reaches every inbox.
 */
module ConfigBroadcast {
  import opened Wrappers

  /** `runtime` merges a stored configuration with the bootstrap one; `derive` overlays a tenant's overrides. */
  datatype Env<!S, !C, !O> = Env(runtime: S -> C, derive: (string, C, Option<O>) -> C)

  /** An invalidation: `tenant` is absent for the global one. */
  datatype Message = Message(origin: nat, tenant: Option<string>)

  datatype Process<C> = Process(base: C, tenants: map<string, C>, inbox: seq<Message>)

  datatype System<S, C, O> = System(stored: S, overrides: map<string, O>, processes: seq<Process<C>>)

  datatype Step<S, O> =
    | Update(process: nat, settings: S)
    | SaveOverrides(process: nat, tenant: string, overrides: O)
    | EnsureTenant(process: nat, tenant: string)
    | Deliver(process: nat)

  predicate Enabled<S, C, O>(sys: System<S, C, O>, step: Step<S, O>) {
    && step.process < |sys.processes|
    && (step.Deliver? ==> sys.processes[step.process].inbox != [])
  }

  function Lookup<O>(overrides: map<string, O>, t: string): Option<O> {
    if t in overrides then Some(overrides[t]) else None
  }

  /** Appends a message to every inbox, the sender's own included. */
  function Publish<C>(processes: seq<Process<C>>, m: Message): seq<Process<C>> {
    seq(|processes|, i requires 0 <= i < |processes| => processes[i].(inbox := processes[i].inbox + [m]))
  }

  /** `update`: store, install the new base, clear the tenant cache, broadcast. */
  function ApplyUpdate<S, C, O>(env: Env<S, C, O>, sys: System<S, C, O>, p: nat, settings: S): System<S, C, O>
    requires p < |sys.processes|
  {
    var installed := sys.processes[p].(base := env.runtime(settings), tenants := map[]);
    sys.(stored := settings, processes := Publish(sys.processes[p := installed], Message(p, None)))
  }

  /** Saving tenant overrides evicts the local entry and broadcasts the tenant's name. */
  function ApplySave<S, C, O>(sys: System<S, C, O>, p: nat, t: string, overrides: O): System<S, C, O>
    requires p < |sys.processes|
  {
    var evicted := sys.processes[p].(tenants := sys.processes[p].tenants - {t});
    sys.(overrides := sys.overrides[t := overrides], processes := Publish(sys.processes[p := evicted], Message(p, Some(t))))
  }

  function ApplyEnsure<S, C, O>(env: Env<S, C, O>, sys: System<S, C, O>, p: nat, t: string): System<S, C, O>
    requires p < |sys.processes|
  {
    var process := sys.processes[p];
    if t in process.tenants then sys
    else
      var config := env.derive(t, process.base, Lookup(sys.overrides, t));
      sys.(processes := sys.processes[p := process.(tenants := process.tenants[t := config])])
  }

  /** The subscriber: its own messages are ignored, a global one clears and reloads, a tenant one evicts. */
  function Handle<S, C, O>(env: Env<S, C, O>, stored: S, p: nat, process: Process<C>, m: Message): Process<C> {
    if m.origin == p then process
    else if m.tenant.None? then process.(base := env.runtime(stored), tenants := map[])
    else process.(tenants := process.tenants - {m.tenant.value})
  }

  function ApplyDeliver<S, C, O>(env: Env<S, C, O>, sys: System<S, C, O>, p: nat): System<S, C, O>
    requires p < |sys.processes| && sys.processes[p].inbox != []
  {
    var process := sys.processes[p];
    var rest := process.(inbox := process.inbox[1..]);
    sys.(processes := sys.processes[p := Handle(env, sys.stored, p, rest, process.inbox[0])])
  }

  function Apply<S, C, O>(env: Env<S, C, O>, sys: System<S, C, O>, step: Step<S, O>): System<S, C, O>
    requires Enabled(sys, step)
  {
    match step
    case Update(p, settings) => ApplyUpdate(env, sys, p, settings)
    case SaveOverrides(p, t, overrides) => ApplySave(sys, p, t, overrides)
    case EnsureTenant(p, t) => ApplyEnsure(env, sys, p, t)
    case Deliver(p) => ApplyDeliver(env, sys, p)
  }

  // ---------- What is repaired by a message still on its way ----------

  ghost predicate GlobalPending(p: nat, inbox: seq<Message>) {
    exists i :: 0 <= i < |inbox| && inbox[i].origin != p && inbox[i].tenant.None?
  }

  ghost predicate TenantPending(p: nat, inbox: seq<Message>, t: string) {
    exists i :: 0 <= i < |inbox| && inbox[i].origin != p && inbox[i].tenant == Some(t)
  }

  /** A stale base has a global message coming; a stale entry has a message for its tenant, or the global one. */
  ghost predicate ProcessOk<S, C, O>(env: Env<S, C, O>, stored: S, overrides: map<string, O>, p: nat, process: Process<C>) {
    && (process.base == env.runtime(stored) || GlobalPending(p, process.inbox))
    && (forall t :: t in process.tenants ==>
          || process.tenants[t] == env.derive(t, env.runtime(stored), Lookup(overrides, t))
          || TenantPending(p, process.inbox, t)
          || GlobalPending(p, process.inbox))
  }

  ghost predicate Inv<S, C, O>(env: Env<S, C, O>, sys: System<S, C, O>) {
    forall p :: 0 <= p < |sys.processes| ==> ProcessOk(env, sys.stored, sys.overrides, p, sys.processes[p])
  }

  lemma PendingAfterPublish(p: nat, inbox: seq<Message>, m: Message)
    ensures GlobalPending(p, inbox) ==> GlobalPending(p, inbox + [m])
    ensures forall t :: TenantPending(p, inbox, t) ==> TenantPending(p, inbox + [m], t)
    ensures m.origin != p && m.tenant.None? ==> GlobalPending(p, inbox + [m])
    ensures m.origin != p && m.tenant.Some? ==> TenantPending(p, inbox + [m], m.tenant.value)
  {
    assert (inbox + [m])[|inbox|] == m;
    forall i | 0 <= i < |inbox|
      ensures (inbox + [m])[i] == inbox[i]
    {
    }
  }

  lemma PendingAfterDelivery(p: nat, inbox: seq<Message>)
    requires inbox != []
    ensures GlobalPending(p, inbox) ==> GlobalPending(p, inbox[1..]) || (inbox[0].origin != p && inbox[0].tenant.None?)
    ensures forall t :: TenantPending(p, inbox, t) ==> TenantPending(p, inbox[1..], t) || (inbox[0].origin != p && inbox[0].tenant == Some(t))
  {
    forall i | 0 < i < |inbox|
      ensures inbox[1..][i - 1] == inbox[i]
    {
    }
  }

  lemma UpdateKeepsInv<S, C, O>(env: Env<S, C, O>, sys: System<S, C, O>, p: nat, settings: S)
    requires Inv(env, sys) && p < |sys.processes|
    ensures Inv(env, ApplyUpdate(env, sys, p, settings))
  {
    var sys' := ApplyUpdate(env, sys, p, settings);
    forall q | 0 <= q < |sys'.processes|
      ensures ProcessOk(env, sys'.stored, sys'.overrides, q, sys'.processes[q])
    {
      PendingAfterPublish(q, sys.processes[q].inbox, Message(p, None));
    }
  }

  lemma SaveKeepsInv<S, C, O>(env: Env<S, C, O>, sys: System<S, C, O>, p: nat, t: string, overrides: O)
    requires Inv(env, sys) && p < |sys.processes|
    ensures Inv(env, ApplySave(sys, p, t, overrides))
  {
    var sys' := ApplySave(sys, p, t, overrides);
    forall q | 0 <= q < |sys'.processes|
      ensures ProcessOk(env, sys'.stored, sys'.overrides, q, sys'.processes[q])
    {
      assert ProcessOk(env, sys.stored, sys.overrides, q, sys.processes[q]);
      PendingAfterPublish(q, sys.processes[q].inbox, Message(p, Some(t)));
      assert forall u :: u != t ==> Lookup(sys'.overrides, u) == Lookup(sys.overrides, u);
    }
  }

  lemma EnsureKeepsInv<S, C, O>(env: Env<S, C, O>, sys: System<S, C, O>, p: nat, t: string)
    requires Inv(env, sys) && p < |sys.processes|
    ensures Inv(env, ApplyEnsure(env, sys, p, t))
  {
    var sys' := ApplyEnsure(env, sys, p, t);
    forall q | 0 <= q < |sys'.processes|
      ensures ProcessOk(env, sys'.stored, sys'.overrides, q, sys'.processes[q])
    {
      assert ProcessOk(env, sys.stored, sys.overrides, q, sys.processes[q]);
    }
  }

  lemma DeliverKeepsInv<S, C, O>(env: Env<S, C, O>, sys: System<S, C, O>, p: nat)
    requires Inv(env, sys) && p < |sys.processes| && sys.processes[p].inbox != []
    ensures Inv(env, ApplyDeliver(env, sys, p))
  {
    var sys' := ApplyDeliver(env, sys, p);
    forall q | 0 <= q < |sys'.processes|
      ensures ProcessOk(env, sys'.stored, sys'.overrides, q, sys'.processes[q])
    {
      assert ProcessOk(env, sys.stored, sys.overrides, q, sys.processes[q]);
      if q == p {
        PendingAfterDelivery(p, sys.processes[p].inbox);
      }
    }
  }

  lemma StepKeepsInv<S, C, O>(env: Env<S, C, O>, sys: System<S, C, O>, step: Step<S, O>)
    requires Inv(env, sys) && Enabled(sys, step)
    ensures Inv(env, Apply(env, sys, step))
  {
    match step
    case Update(p, settings) => UpdateKeepsInv(env, sys, p, settings);
    case SaveOverrides(p, t, overrides) => SaveKeepsInv(env, sys, p, t, overrides);
    case EnsureTenant(p, t) => EnsureKeepsInv(env, sys, p, t);
    case Deliver(p) => DeliverKeepsInv(env, sys, p);
  }

  // ---------- Over whole runs ----------

  /** A freshly started system: every process loaded the stored configuration. */
  ghost predicate Started<S, C, O>(env: Env<S, C, O>, sys: System<S, C, O>) {
    forall p :: 0 <= p < |sys.processes| ==> sys.processes[p] == Process(env.runtime(sys.stored), map[], [])
  }

  ghost predicate Run<S(!new), C(!new), O(!new)>(env: Env<S, C, O>, sys: System<S, C, O>, steps: seq<Step<S, O>>, sys': System<S, C, O>)
    decreases |steps|
  {
    if steps == [] then sys' == sys
    else Enabled(sys, steps[0]) && Run(env, Apply(env, sys, steps[0]), steps[1..], sys')
  }

  lemma {:induction false} RunKeepsInv<S(!new), C(!new), O(!new)>(env: Env<S, C, O>, sys: System<S, C, O>, steps: seq<Step<S, O>>, sys': System<S, C, O>)
    requires Inv(env, sys) && Run(env, sys, steps, sys')
    ensures Inv(env, sys')
    decreases |steps|
  {
    if steps != [] {
      StepKeepsInv(env, sys, steps[0]);
      RunKeepsInv(env, Apply(env, sys, steps[0]), steps[1..], sys');
    }
  }

  /**
   Eventual agreement: whenever no message is pending, every process serves the stored
   configuration, and every cached tenant entry overlays the current overrides on it.
   */
  lemma QuietMeansAgreed<S(!new), C(!new), O(!new)>(env: Env<S, C, O>, sys: System<S, C, O>, steps: seq<Step<S, O>>, sys': System<S, C, O>, p: nat)
    requires Started(env, sys) && Run(env, sys, steps, sys')
    requires p < |sys'.processes| && sys'.processes[p].inbox == []
    ensures sys'.processes[p].base == env.runtime(sys'.stored)
    ensures forall t :: t in sys'.processes[p].tenants ==>
              sys'.processes[p].tenants[t] == env.derive(t, env.runtime(sys'.stored), Lookup(sys'.overrides, t))
  {
    RunKeepsInv(env, sys, steps, sys');
    assert ProcessOk(env, sys'.stored, sys'.overrides, p, sys'.processes[p]);
  }

  function Pending<C>(processes: seq<Process<C>>): nat {
    if processes == [] then 0 else |processes[0].inbox| + Pending(processes[1..])
  }

  lemma {:induction false} PendingUpdate<C>(processes: seq<Process<C>>, p: nat, process: Process<C>)
    requires p < |processes|
    ensures Pending(processes[p := process]) == Pending(processes) - |processes[p].inbox| + |process.inbox|
  {
    if p == 0 {
      assert processes[p := process][1..] == processes[1..];
    } else {
      PendingUpdate(processes[1..], p - 1, process);
      assert processes[p := process][1..] == processes[1..][p - 1 := process];
    }
  }

  /** Handling a message publishes nothing: each delivery brings the system one message closer to quiet. */
  lemma DeliveryDrains<S, C, O>(env: Env<S, C, O>, sys: System<S, C, O>, p: nat)
    requires Enabled(sys, Deliver(p))
    ensures Pending(Apply(env, sys, Deliver(p)).processes) == Pending(sys.processes) - 1
    ensures Apply(env, sys, Deliver(p)).stored == sys.stored && Apply(env, sys, Deliver(p)).overrides == sys.overrides
  {
    PendingUpdate(sys.processes, p, Apply(env, sys, Deliver(p)).processes[p]);
  }

  // ---------- What was asked for is what is served ----------

  /** The settings of the last update of a run, or those before it. */
  function LastSettings<S, O>(initial: S, steps: seq<Step<S, O>>): S {
    if steps == [] then initial
    else if steps[|steps| - 1].Update? then steps[|steps| - 1].settings
    else LastSettings(initial, steps[..|steps| - 1])
  }

  /** The overrides last saved for a tenant, or those before the run. */
  function LastOverrides<S, O>(initial: Option<O>, steps: seq<Step<S, O>>, t: string): Option<O> {
    if steps == [] then initial
    else
      var last := steps[|steps| - 1];
      if last.SaveOverrides? && last.tenant == t then Some(last.overrides)
      else LastOverrides(initial, steps[..|steps| - 1], t)
  }

  lemma {:induction false} LastStep<S(!new), C(!new), O(!new)>(env: Env<S, C, O>, sys: System<S, C, O>, steps: seq<Step<S, O>>, sys': System<S, C, O>) returns (mid: System<S, C, O>)
    requires steps != [] && Run(env, sys, steps, sys')
    ensures Run(env, sys, steps[..|steps| - 1], mid) && Enabled(mid, steps[|steps| - 1]) && sys' == Apply(env, mid, steps[|steps| - 1])
    decreases |steps|
  {
    if |steps| == 1 {
      mid := sys;
      assert steps[1..] == [] && steps[..0] == [];
    } else {
      mid := LastStep(env, Apply(env, sys, steps[0]), steps[1..], sys');
      assert steps[..|steps| - 1][0] == steps[0] && steps[..|steps| - 1][1..] == steps[1..][..|steps| - 2];
    }
  }

  /** The store holds the settings of the last update, and each tenant's overrides as last saved. */
  lemma {:induction false} StoreIsLatest<S(!new), C(!new), O(!new)>(env: Env<S, C, O>, sys: System<S, C, O>, steps: seq<Step<S, O>>, sys': System<S, C, O>)
    requires Run(env, sys, steps, sys')
    ensures sys'.stored == LastSettings(sys.stored, steps)
    ensures forall t :: Lookup(sys'.overrides, t) == LastOverrides(Lookup(sys.overrides, t), steps, t)
    decreases |steps|
  {
    if steps != [] {
      var mid := LastStep(env, sys, steps, sys');
      StoreIsLatest(env, sys, steps[..|steps| - 1], mid);
    }
  }

  /**
   Whenever no message is pending for it, a process serves the configuration of the last update
   of the run, and each tenant the overrides last saved for it.
   */
  lemma QuietServesLatest<S(!new), C(!new), O(!new)>(env: Env<S, C, O>, sys: System<S, C, O>, steps: seq<Step<S, O>>, sys': System<S, C, O>, p: nat)
    requires Started(env, sys) && Run(env, sys, steps, sys')
    requires p < |sys'.processes| && sys'.processes[p].inbox == []
    ensures var base := env.runtime(LastSettings(sys.stored, steps));
      && sys'.processes[p].base == base
      && forall t :: t in sys'.processes[p].tenants ==>
           sys'.processes[p].tenants[t] == env.derive(t, base, LastOverrides(Lookup(sys.overrides, t), steps, t))
  {
    QuietMeansAgreed(env, sys, steps, sys', p);
    StoreIsLatest(env, sys, steps, sys');
  }

  // ---------- What each step does to each process ----------

  /** An update reaches its own process at once; another one by the global message of someone else. */
  lemma BaseAfter<S, C, O>(env: Env<S, C, O>, sys: System<S, C, O>, step: Step<S, O>, q: nat)
    requires Enabled(sys, step) && q < |sys.processes|
    ensures |Apply(env, sys, step).processes| == |sys.processes|
    ensures Apply(env, sys, step).processes[q].base ==
      if step.Update? && step.process == q then env.runtime(step.settings)
      else if step.Deliver? && step.process == q && sys.processes[q].inbox[0].tenant == None && sys.processes[q].inbox[0].origin != q
      then env.runtime(sys.stored)
      else sys.processes[q].base
  {
  }

  /** Every process is told of every update and save, and loses the first message it handles. */
  lemma InboxAfter<S, C, O>(env: Env<S, C, O>, sys: System<S, C, O>, step: Step<S, O>, q: nat)
    requires Enabled(sys, step) && q < |sys.processes|
    ensures |Apply(env, sys, step).processes| == |sys.processes|
    ensures var inbox := sys.processes[q].inbox;
      Apply(env, sys, step).processes[q].inbox ==
        match step
        case Update(p, _) => inbox + [Message(p, None)]
        case SaveOverrides(p, t, _) => inbox + [Message(p, Some(t))]
        case Deliver(p) => if p == q then inbox[1..] else inbox
        case EnsureTenant(_, _) => inbox
  {
  }

  /** The step makes process `q` forget its entry of `t`: its own change, or somebody else's message. */
  predicate Evicts<S, C, O>(sys: System<S, C, O>, step: Step<S, O>, q: nat, t: string)
    requires Enabled(sys, step)
  {
    step.process == q && match step
      case Update(_, _) => true
      case SaveOverrides(_, u, _) => u == t
      case Deliver(p) => var m := sys.processes[p].inbox[0]; m.origin != p && (m.tenant == None || m.tenant == Some(t))
      case EnsureTenant(_, _) => false
  }

  /** An entry is made on demand, forgotten by an eviction of its own tenant or of all, and otherwise kept. */
  lemma TenantAfter<S, C, O>(env: Env<S, C, O>, sys: System<S, C, O>, step: Step<S, O>, q: nat, t: string)
    requires Enabled(sys, step) && q < |sys.processes|
    ensures |Apply(env, sys, step).processes| == |sys.processes|
    ensures var before, after := sys.processes[q].tenants, Apply(env, sys, step).processes[q].tenants;
      if Evicts(sys, step, q, t) then t !in after
      else if t in before then t in after && after[t] == before[t]
      else if step == EnsureTenant(q, t) then
        t in after && after[t] == env.derive(t, sys.processes[q].base, if t in sys.overrides then Some(sys.overrides[t]) else None)
      else t !in after
  {
  }
}
