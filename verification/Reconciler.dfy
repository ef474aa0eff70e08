/** The agent's plan and apply over its VM instances: what a plan is, what each strategy does
    with it under any failures, and that both converge. */
module Reconciler {
  import opened Types
  import opened Ordering
  import opened VolumeOrder

  datatype VmState = Running | Stopped | Failed

  datatype Instance = Instance(config: ServiceConfig, state: VmState)

  type Vms = map<string, Instance>

  datatype Action =
    | Create(service: ServiceConfig)
    | Update(service: ServiceConfig, previous: ServiceConfig)
    | Delete(service: ServiceConfig)

  // ---------------------------------------------------------------------- comparing

  /** volumesEqual: equal after sorting copies of both by name. */
  predicate VolumesEqual(a: seq<VolumeConfig>, b: seq<VolumeConfig>) {
    |a| == |b| && SortBy(VolumeBefore, a) == SortBy(VolumeBefore, b)
  }

  /** Two volume lists count as equal exactly when they hold the same volumes in any order. */
  lemma VolumesEqualMeaning(a: seq<VolumeConfig>, b: seq<VolumeConfig>)
    requires DistinctIn(a) && DistinctIn(b)
    ensures VolumesEqual(a, b) <==> multiset(a) == multiset(b)
  {
    SortPermutes(VolumeBefore, a);
    SortPermutes(VolumeBefore, b);
    if multiset(a) == multiset(b) {
      NamesOrder(a);
      NamesOrder(b);
      SortForgetsOrder(VolumeBefore, a, b);
      SameElements(a, b);
    }
  }

  /** needsUpdate */
  predicate NeedsUpdate(inst: Instance, desired: ServiceConfig) {
    var cur := inst.config;
    if cur.image != desired.image then true
    else if cur.kernel != desired.kernel then true
    else if cur.vcpus != desired.vcpus then true
    else if cur.memoryMB != desired.memoryMB then true
    else if cur.kernelArgs != desired.kernelArgs then true
    else if cur.network != desired.network then true
    else if cur.portForwards != desired.portForwards then true
    else if !VolumesEqual(cur.volumes, desired.volumes) then true
    else !inst.state.Running?
  }

  /** `cur` with everything an update looks at taken from `desired`; what is left over are the
      fields it ignores. */
  function IgnoringAll(cur: ServiceConfig, desired: ServiceConfig): ServiceConfig {
    desired.(antiAffinityGroup := cur.antiAffinityGroup, volumes := cur.volumes, healthCheck := cur.healthCheck,
             metadata := cur.metadata, env := cur.env, links := cur.links, crossNodeLinks := cur.crossNodeLinks,
             nodeHostIPEnv := cur.nodeHostIPEnv)
  }

  /** An instance is left alone exactly when it runs and differs from the desired service at
      most in the order of its volumes, its anti-affinity group, health check, metadata, links
      and the environment they are written from. (A changed environment shows in the kernel
      arguments the agent builds from it.) */
  lemma NeedsUpdateMeaning(inst: Instance, desired: ServiceConfig)
    requires inst.config.name == desired.name && DistinctIn(inst.config.volumes) && DistinctIn(desired.volumes)
    ensures !NeedsUpdate(inst, desired) <==>
            && inst.state.Running?
            && multiset(inst.config.volumes) == multiset(desired.volumes)
            && inst.config == IgnoringAll(inst.config, desired)
  {
    VolumesEqualMeaning(inst.config.volumes, desired.volumes);
  }

  /** The fields that a plan ignores. */
  predicate SameIgnored(a: ServiceConfig, b: ServiceConfig) {
    && a.antiAffinityGroup == b.antiAffinityGroup && a.healthCheck == b.healthCheck && a.metadata == b.metadata
    && a.env == b.env && a.links == b.links && a.crossNodeLinks == b.crossNodeLinks
    && a.nodeHostIPEnv == b.nodeHostIPEnv
  }

  // ------------------------------------------------------------------------ planning

  /** Creates and updates in the order of the desired services. */
  function Wanted(vms: Vms, desired: seq<ServiceConfig>): seq<Action> {
    if desired == [] then []
    else
      var front, s := Wanted(vms, desired[..|desired| - 1]), desired[|desired| - 1];
      if s.name !in vms then front + [Create(s)]
      else if NeedsUpdate(vms[s.name], s) then front + [Update(s, vms[s.name].config)]
      else front
  }

  function NamesOf(desired: seq<ServiceConfig>): set<string> {
    set s | s in desired :: s.name
  }

  /** The deletes come last, in whatever order the instances are ranged over. */
  ghost predicate IsPlan(actions: seq<Action>, vms: Vms, desired: seq<ServiceConfig>) {
    exists deletes: seq<string> ::
      && (forall n :: n in deletes <==> n in vms && n !in NamesOf(desired))
      && (forall i, j :: 0 <= i < j < |deletes| ==> deletes[i] != deletes[j])
      && actions == Wanted(vms, desired) + DeletesFor(vms, deletes)
  }

  function DeletesFor(vms: Vms, names: seq<string>): (ds: seq<Action>)
    requires forall n :: n in names ==> n in vms
    ensures |ds| == |names| && forall i :: 0 <= i < |names| ==> ds[i] == Delete(vms[names[i]].config)
  {
    if names == [] then []
    else
      assert names[|names| - 1] in names;
      DeletesFor(vms, names[..|names| - 1]) + [Delete(vms[names[|names| - 1]].config)]
  }

  // ------------------------------------------------------------------------ applying

  /** What goes wrong in one apply, by service: the volume preflight, setting up the network
      or starting the VM, and the pause after an update. */
  datatype Faults = Faults(preflight: set<string>, start: set<string>, pause: set<string>)

  function Get(vms: Vms, name: string): Option<Instance> {
    if name in vms then Some(vms[name]) else None
  }

  /** What one action does to the instance of its own service, and whether it reports an error. */
  function Effect(inst: Option<Instance>, a: Action, f: Faults): (Option<Instance>, bool) {
    match a
    case Create(s) => Started(inst, s, f)
    case Update(s, _) => if s.name in f.preflight then (inst, true) else Started(None, s, f)
    case Delete(_) => (None, false)
  }

  function Started(inst: Option<Instance>, s: ServiceConfig, f: Faults): (Option<Instance>, bool) {
    if s.name in f.start || (inst.Some? && inst.value.state.Running?) then (inst, true)
    else (Some(Instance(s, Running)), false)
  }

  function Set(vms: Vms, name: string, inst: Option<Instance>): Vms {
    match inst
    case None => vms - {name}
    case Some(i) => vms[name := i]
  }

  datatype Result = Result(vms: Vms, failed: bool)

  /** Every action in turn, going on after an error. */
  function InTurn(vms: Vms, actions: seq<Action>, f: Faults): Result {
    if actions == [] then Result(vms, false)
    else
      var front, a := InTurn(vms, actions[..|actions| - 1], f), actions[|actions| - 1];
      var (inst, failed) := Effect(Get(front.vms, a.service.name), a, f);
      Result(Set(front.vms, a.service.name, inst), front.failed || failed)
  }

  function OfKind(actions: seq<Action>, kind: Action -> bool): seq<Action> {
    if actions == [] then []
    else
      var front, a := OfKind(actions[..|actions| - 1], kind), actions[|actions| - 1];
      if kind(a) then front + [a] else front
  }

  /** Updates one at a time, stopping at the first error or interrupted pause. */
  function OneByOne(vms: Vms, updates: seq<Action>, f: Faults): Result
    decreases |updates|
  {
    if updates == [] then Result(vms, false)
    else
      var a := updates[0];
      var (inst, failed) := Effect(Get(vms, a.service.name), a, f);
      var vms' := Set(vms, a.service.name, inst);
      if failed || (|updates| > 1 && a.service.name in f.pause) then Result(vms', true)
      else OneByOne(vms', updates[1..], f)
  }

  function Rolling(vms: Vms, actions: seq<Action>, f: Faults): Result {
    var deleted := InTurn(vms, OfKind(actions, (a: Action) => a.Delete?), f);
    var created := InTurn(deleted.vms, OfKind(actions, (a: Action) => a.Create?), f);
    var updated := OneByOne(created.vms, OfKind(actions, (a: Action) => a.Update?), f);
    Result(updated.vms, created.failed || updated.failed)
  }

  // ---------------------------------------------------- what a run of actions amounts to

  ghost predicate Apart(actions: seq<Action>) {
    forall i, j :: 0 <= i < j < |actions| ==> actions[i].service.name != actions[j].service.name
  }

  lemma ApartAppend(actions: seq<Action>, a: Action)
    requires Apart(actions) && forall b :: b in actions ==> b.service.name != a.service.name
    ensures Apart(actions + [a])
  {
    assert forall i :: 0 <= i < |actions| ==> actions[i] in actions;
  }

  /** Each action acts on its own service as if it were alone. */
  ghost predicate Pointwise(vms: Vms, actions: seq<Action>, f: Faults, r: Result) {
    && (forall a :: a in actions ==> Get(r.vms, a.service.name) == Effect(Get(vms, a.service.name), a, f).0)
    && (forall name :: (forall a :: a in actions ==> a.service.name != name) ==> Get(r.vms, name) == Get(vms, name))
    && (r.failed <==> exists a :: a in actions && Effect(Get(vms, a.service.name), a, f).1)
  }

  lemma OneMorePointwise(vms: Vms, front: seq<Action>, a: Action, f: Faults, r: Result, r': Result)
    requires Pointwise(vms, front, f, r) && forall b :: b in front ==> b.service.name != a.service.name
    requires var (inst, failed) := Effect(Get(r.vms, a.service.name), a, f);
             r' == Result(Set(r.vms, a.service.name, inst), r.failed || failed)
    ensures Pointwise(vms, front + [a], f, r')
  {
    var all := front + [a];
    assert forall b :: b in all <==> b in front || b == a;
    assert Get(r.vms, a.service.name) == Get(vms, a.service.name);
    assert forall name :: name != a.service.name ==> Get(r'.vms, name) == Get(r.vms, name);
  }

  lemma {:induction false} InTurnIsPointwise(vms: Vms, actions: seq<Action>, f: Faults)
    requires Apart(actions)
    ensures Pointwise(vms, actions, f, InTurn(vms, actions, f))
  {
    if actions != [] {
      var front, a := actions[..|actions| - 1], actions[|actions| - 1];
      InTurnIsPointwise(vms, front, f);
      assert actions == front + [a];
      OneMorePointwise(vms, front, a, f, InTurn(vms, front, f), InTurn(vms, actions, f));
    }
  }

  /** The outcome of going through the actions does not depend on their order. */
  lemma AnyOrderSameResult(vms: Vms, actions: seq<Action>, actions': seq<Action>, f: Faults)
    requires Apart(actions) && Apart(actions') && forall a :: a in actions <==> a in actions'
    ensures InTurn(vms, actions, f) == InTurn(vms, actions', f)
  {
    InTurnIsPointwise(vms, actions, f);
    InTurnIsPointwise(vms, actions', f);
    var r, r' := InTurn(vms, actions, f), InTurn(vms, actions', f);
    forall name ensures Get(r.vms, name) == Get(r'.vms, name) {
      if a :| a in actions && a.service.name == name {
      } else {
        assert forall a :: a in actions' ==> a.service.name != name;
      }
    }
    SameLookups(r.vms, r'.vms);
  }

  lemma SameLookups(a: Vms, b: Vms)
    requires forall name :: Get(a, name) == Get(b, name)
    ensures a == b
  {
    forall name ensures name in a <==> name in b {
      assert Get(a, name) == Get(b, name);
    }
    forall name | name in a ensures a[name] == b[name] {
      assert Get(a, name) == Get(b, name);
    }
  }

  lemma {:induction false} InTurnAppend(vms: Vms, xs: seq<Action>, ys: seq<Action>, f: Faults)
    ensures var first := InTurn(vms, xs, f);
            var second := InTurn(first.vms, ys, f);
            InTurn(vms, xs + ys, f) == Result(second.vms, first.failed || second.failed)
  {
    if ys == [] {
      assert xs + ys == xs;
    } else {
      assert (xs + ys)[..|xs + ys| - 1] == xs + ys[..|ys| - 1];
      InTurnAppend(vms, xs, ys[..|ys| - 1], f);
    }
  }

  lemma {:induction false} OneByOneWithoutError(vms: Vms, updates: seq<Action>, f: Faults)
    requires !OneByOne(vms, updates, f).failed
    ensures OneByOne(vms, updates, f) == InTurn(vms, updates, f)
    decreases |updates|
  {
    if updates != [] {
      var a := updates[0];
      var (inst, failed) := Effect(Get(vms, a.service.name), a, f);
      var vms' := Set(vms, a.service.name, inst);
      assert [a][..0] == [] && [a][|[a]| - 1] == a;
      assert InTurn(vms, [a], f) == Result(vms', failed);
      OneByOneWithoutError(vms', updates[1..], f);
      InTurnAppend(vms, [a], updates[1..], f);
      assert updates == [a] + updates[1..];
    }
  }

  lemma {:induction false} OfKindMeaning(actions: seq<Action>, kind: Action -> bool)
    ensures forall a :: a in OfKind(actions, kind) <==> a in actions && kind(a)
    ensures Apart(actions) ==> Apart(OfKind(actions, kind))
  {
    if actions != [] {
      var front, a := actions[..|actions| - 1], actions[|actions| - 1];
      OfKindMeaning(front, kind);
      assert actions == front + [a];
      if Apart(actions) {
        ApartAppend(OfKind(front, kind), a);
      }
    }
  }

  function Deletes(actions: seq<Action>): seq<Action> {
    OfKind(actions, (a: Action) => a.Delete?)
  }

  function Creates(actions: seq<Action>): seq<Action> {
    OfKind(actions, (a: Action) => a.Create?)
  }

  function Updates(actions: seq<Action>): seq<Action> {
    OfKind(actions, (a: Action) => a.Update?)
  }

  lemma Regrouped(actions: seq<Action>)
    requires Apart(actions)
    ensures var all := Deletes(actions) + Creates(actions) + Updates(actions);
            Apart(all) && forall a :: a in actions <==> a in all
  {
    var d, c, u := Deletes(actions), Creates(actions), Updates(actions);
    OfKindMeaning(actions, (a: Action) => a.Delete?);
    OfKindMeaning(actions, (a: Action) => a.Create?);
    OfKindMeaning(actions, (a: Action) => a.Update?);
    var all := d + c + u;
    forall i, j | 0 <= i < j < |all| ensures all[i].service.name != all[j].service.name {
      if i < |d| <= j || |d| <= i < |d| + |c| <= j {
        DifferentActions(actions, all[i], all[j]);
      }
    }
  }

  lemma DifferentActions(actions: seq<Action>, a: Action, b: Action)
    requires Apart(actions) && a in actions && b in actions && a != b
    ensures a.service.name != b.service.name
  {
  }

  /** A rolling apply that meets no error does exactly what an all-at-once apply does, and
      that one then meets no error either. */
  lemma RollingWithoutError(vms: Vms, actions: seq<Action>, f: Faults)
    requires Apart(actions) && !Rolling(vms, actions, f).failed
    ensures InTurn(vms, actions, f) == Rolling(vms, actions, f)
  {
    var d, c, u := Deletes(actions), Creates(actions), Updates(actions);
    var deleted := InTurn(vms, d, f);
    var created := InTurn(deleted.vms, c, f);
    OneByOneWithoutError(created.vms, u, f);
    InTurnAppend(vms, d, c, f);
    InTurnAppend(vms, d + c, u, f);
    Regrouped(actions);
    AnyOrderSameResult(vms, actions, d + c + u, f);
    OfKindMeaning(actions, (a: Action) => a.Delete?);
    DeletesNeverFail(vms, d, f);
  }

  lemma {:induction false} DeletesNeverFail(vms: Vms, actions: seq<Action>, f: Faults)
    requires forall a :: a in actions ==> a.Delete?
    ensures !InTurn(vms, actions, f).failed
  {
    if actions != [] {
      assert actions[|actions| - 1] in actions;
      DeletesNeverFail(vms, actions[..|actions| - 1], f);
    }
  }

  // --------------------------------------------------------------------- convergence

  ghost predicate WellKeyed(vms: Vms) {
    forall n :: n in vms ==> vms[n].config.name == n
  }

  /** Which actions a plan holds, whatever their order. */
  ghost predicate PlanOf(actions: seq<Action>, vms: Vms, desired: seq<ServiceConfig>) {
    forall a :: a in actions <==>
      match a
      case Create(s) => s in desired && s.name !in vms
      case Update(s, prev) => s in desired && s.name in vms && NeedsUpdate(vms[s.name], s) && prev == vms[s.name].config
      case Delete(c) => c.name in vms && c.name !in NamesOf(desired) && c == vms[c.name].config
  }

  lemma {:induction false} WantedMeaning(vms: Vms, desired: seq<ServiceConfig>)
    requires DistinctNames(desired)
    ensures forall a :: a in Wanted(vms, desired) <==>
              match a
              case Create(s) => s in desired && s.name !in vms
              case Update(s, prev) => s in desired && s.name in vms && NeedsUpdate(vms[s.name], s)
                && prev == vms[s.name].config
              case Delete(_) => false
    ensures Apart(Wanted(vms, desired))
  {
    if desired != [] {
      var front, s := desired[..|desired| - 1], desired[|desired| - 1];
      WantedMeaning(vms, front);
      assert desired == front + [s];
      assert forall t :: t in front ==> t.name != s.name;
      var w := Wanted(vms, front);
      assert forall a :: a in w ==> a.service in front;
      ApartAppend(w, Create(s));
      if s.name in vms {
        ApartAppend(w, Update(s, vms[s.name].config));
      }
    }
  }

  lemma DeletesMeaning(vms: Vms, names: seq<string>)
    requires WellKeyed(vms) && (forall n :: n in names ==> n in vms)
    requires forall i, j :: 0 <= i < j < |names| ==> names[i] != names[j]
    ensures forall a :: a in DeletesFor(vms, names) <==>
              a.Delete? && a.service.name in names && a.service == vms[a.service.name].config
    ensures Apart(DeletesFor(vms, names))
  {
    var ds := DeletesFor(vms, names);
    forall i | 0 <= i < |ds| ensures names[i] in names && ds[i].service.name == names[i] {
      assert names[i] in names;
    }
    forall a: Action | a.Delete? && a.service.name in names && a.service == vms[a.service.name].config ensures a in ds {
      var i :| 0 <= i < |names| && names[i] == a.service.name;
      assert ds[i] == a;
    }
  }

  lemma ApartJoin(xs: seq<Action>, ys: seq<Action>)
    requires Apart(xs) && Apart(ys) && forall a, b :: a in xs && b in ys ==> a.service.name != b.service.name
    ensures Apart(xs + ys)
  {
    assert forall i :: 0 <= i < |xs| ==> xs[i] in xs;
    assert forall i :: 0 <= i < |ys| ==> ys[i] in ys;
  }

  /** Every service has at most one action, and the plan holds exactly the right ones. */
  lemma PlanMeaning(actions: seq<Action>, vms: Vms, desired: seq<ServiceConfig>)
    requires WellKeyed(vms) && DistinctNames(desired) && IsPlan(actions, vms, desired)
    ensures PlanOf(actions, vms, desired) && Apart(actions)
  {
    var deletes :|
      && (forall n :: n in deletes <==> n in vms && n !in NamesOf(desired))
      && (forall i, j :: 0 <= i < j < |deletes| ==> deletes[i] != deletes[j])
      && actions == Wanted(vms, desired) + DeletesFor(vms, deletes);
    WantedMeaning(vms, desired);
    DeletesMeaning(vms, deletes);
    assert forall a :: a in Wanted(vms, desired) ==> a.service.name in NamesOf(desired);
    ApartJoin(Wanted(vms, desired), DeletesFor(vms, deletes));
  }

  /** What is up to date: every desired service runs and needs no update, and nothing else is
      there. */
  ghost predicate Converged(vms: Vms, desired: seq<ServiceConfig>) {
    && (forall n :: n in vms <==> n in NamesOf(desired))
    && forall s :: s in desired ==> !NeedsUpdate(vms[s.name], s)
  }

  lemma EmptyPlanIsConverged(vms: Vms, desired: seq<ServiceConfig>)
    requires WellKeyed(vms) && PlanOf([], vms, desired)
    ensures Converged(vms, desired)
  {
    forall n | n in vms ensures n in NamesOf(desired) {
      assert Delete(vms[n].config) !in [];
    }
    forall s | s in desired ensures s.name in vms && !NeedsUpdate(vms[s.name], s) {
      assert Create(s) !in [];
      if s.name in vms {
        assert Update(s, vms[s.name].config) !in [];
      }
    }
  }

  /** Exactly then there is nothing to do. (What "as desired" covers is said below.) */
  lemma NothingToPlan(vms: Vms, desired: seq<ServiceConfig>, actions: seq<Action>)
    requires WellKeyed(vms) && DistinctNames(desired) && IsPlan(actions, vms, desired)
    ensures actions == [] <==> Converged(vms, desired)
  {
    PlanMeaning(actions, vms, desired);
    if actions == [] {
      EmptyPlanIsConverged(vms, desired);
    } else {
      var a := actions[0];
      assert a in actions;
      assert !a.Delete? ==> a.service.name in NamesOf(desired);
    }
  }

  /** What one would take an empty plan to mean: each desired service runs exactly as desired,
      up to the order of its volumes. */
  ghost predicate RunsAsDesired(vms: Vms, desired: seq<ServiceConfig>) {
    && (forall n :: n in vms <==> n in NamesOf(desired))
    && forall s :: s in desired ==>
         && vms[s.name].state.Running?
         && vms[s.name].config == s.(volumes := vms[s.name].config.volumes)
         && multiset(vms[s.name].config.volumes) == multiset(s.volumes)
  }

  ghost predicate DistinctEverywhere(vms: Vms, desired: seq<ServiceConfig>) {
    && (forall n :: n in vms ==> DistinctIn(vms[n].config.volumes))
    && forall s :: s in desired ==> DistinctIn(s.volumes)
  }

  /** With nothing left to do, all run exactly as desired if and only if no running service
      differs in a field that a plan ignores. */
  lemma ConvergedRunsAsDesired(vms: Vms, desired: seq<ServiceConfig>)
    requires WellKeyed(vms) && DistinctEverywhere(vms, desired) && Converged(vms, desired)
    ensures RunsAsDesired(vms, desired) <==> forall s :: s in desired ==> SameIgnored(vms[s.name].config, s)
  {
    forall s | s in desired
      ensures s.name in vms && vms[s.name].state.Running? && multiset(vms[s.name].config.volumes) == multiset(s.volumes)
      ensures vms[s.name].config == s.(volumes := vms[s.name].config.volumes) <==> SameIgnored(vms[s.name].config, s)
    {
      assert s.name in NamesOf(desired);
      NeedsUpdateMeaning(vms[s.name], s);
    }
  }

  /** A health check changed on a running service is never applied: nothing is planned. */
  lemma ChangedHealthCheckIsIgnored(s: ServiceConfig, before: Option<HealthCheck>, actions: seq<Action>)
    requires DistinctIn(s.volumes) && before != s.healthCheck
    requires IsPlan(actions, map[s.name := Instance(s.(healthCheck := before), Running)], [s])
    ensures actions == []
    ensures !RunsAsDesired(map[s.name := Instance(s.(healthCheck := before), Running)], [s])
  {
    var vms := map[s.name := Instance(s.(healthCheck := before), Running)];
    assert NamesOf([s]) == {s.name} by {
      assert s in [s];
    }
    assert Converged(vms, [s]);
    NothingToPlan(vms, [s], actions);
    assert s in [s] && !SameIgnored(vms[s.name].config, s);
    ConvergedRunsAsDesired(vms, [s]);
  }

  /** Whatever fails: a service whose preflight, network and VM start do not fail ends up as
      desired, a service whose preflight fails keeps the VM it had, an up-to-date service is
      not touched, and undesired ones are gone. */
  ghost predicate BestEffort(vms: Vms, desired: seq<ServiceConfig>, f: Faults, vms': Vms) {
    && (forall s :: s in desired && s.name !in f.start && (s.name in f.preflight ==> s.name !in vms) ==>
          s.name in vms' && !NeedsUpdate(vms'[s.name], s))
    && (forall s :: s in desired && s.name in vms && (s.name in f.preflight || !NeedsUpdate(vms[s.name], s)) ==>
          s.name in vms' && vms'[s.name] == vms[s.name])
    && (forall n :: n in vms' ==> n in NamesOf(desired))
    && WellKeyed(vms')
  }

  lemma FatesAreBestEffort(vms: Vms, desired: seq<ServiceConfig>, f: Faults, vms': Vms)
    requires forall s :: s in desired ==> Get(vms', s.name) == Fate(vms, s, f)
    requires WellKeyed(vms') && forall n :: n in vms' ==> n in NamesOf(desired)
    ensures BestEffort(vms, desired, f, vms')
  {
    forall s | s in desired && s.name !in f.start && (s.name in f.preflight ==> s.name !in vms)
      ensures s.name in vms' && !NeedsUpdate(vms'[s.name], s)
    {
      assert Get(vms', s.name) == Fate(vms, s, f);
    }
    forall s | s in desired && s.name in vms && (s.name in f.preflight || !NeedsUpdate(vms[s.name], s))
      ensures s.name in vms' && vms'[s.name] == vms[s.name]
    {
      assert Get(vms', s.name) == Fate(vms, s, f);
    }
  }

  lemma KeysOfResult(vms: Vms, desired: seq<ServiceConfig>, actions: seq<Action>, f: Faults, r: Result, n: string)
    requires WellKeyed(vms) && DistinctNames(desired) && PlanOf(actions, vms, desired) && Pointwise(vms, actions, f, r)
    requires n in r.vms
    ensures n in NamesOf(desired) && r.vms[n].config.name == n
  {
    UndesiredIsGone(vms, desired, actions, f, r, n);
    assert Get(r.vms, n) == Some(r.vms[n]);
    var s :| s in desired && s.name == n;
    FateOf(vms, desired, actions, f, r, s);
  }

  lemma AllFates(vms: Vms, desired: seq<ServiceConfig>, actions: seq<Action>, f: Faults, r: Result)
    requires DistinctNames(desired) && PlanOf(actions, vms, desired) && Pointwise(vms, actions, f, r)
    ensures forall s :: s in desired ==> Get(r.vms, s.name) == Fate(vms, s, f)
  {
    forall s | s in desired ensures Get(r.vms, s.name) == Fate(vms, s, f) {
      FateOf(vms, desired, actions, f, r, s);
    }
  }

  lemma AllAtOnceIsBestEffort(vms: Vms, desired: seq<ServiceConfig>, actions: seq<Action>, f: Faults)
    requires WellKeyed(vms) && DistinctNames(desired) && IsPlan(actions, vms, desired)
    ensures BestEffort(vms, desired, f, InTurn(vms, actions, f).vms)
  {
    var r := InTurn(vms, actions, f);
    PlanMeaning(actions, vms, desired);
    InTurnIsPointwise(vms, actions, f);
    AllFates(vms, desired, actions, f, r);
    forall n ensures n in r.vms ==> n in NamesOf(desired) && r.vms[n].config.name == n {
      if n in r.vms {
        KeysOfResult(vms, desired, actions, f, r, n);
      }
    }
    FatesAreBestEffort(vms, desired, f, r.vms);
  }

  /** What becomes of a desired service. */
  function Fate(vms: Vms, s: ServiceConfig, f: Faults): Option<Instance> {
    if s.name !in vms then Started(None, s, f).0
    else if !NeedsUpdate(vms[s.name], s) || s.name in f.preflight then Some(vms[s.name])
    else Started(None, s, f).0
  }

  lemma FateOf(vms: Vms, desired: seq<ServiceConfig>, actions: seq<Action>, f: Faults, r: Result, s: ServiceConfig)
    requires DistinctNames(desired) && PlanOf(actions, vms, desired) && Pointwise(vms, actions, f, r) && s in desired
    ensures Get(r.vms, s.name) == Fate(vms, s, f)
  {
    assert s.name in NamesOf(desired);
    if s.name !in vms {
      assert Create(s) in actions;
    } else if NeedsUpdate(vms[s.name], s) {
      assert Update(s, vms[s.name].config) in actions;
    } else {
      forall a | a in actions ensures a.service.name != s.name {
        assert !a.Delete? ==> a.service in desired;
      }
    }
  }

  lemma UndesiredIsGone(vms: Vms, desired: seq<ServiceConfig>, actions: seq<Action>, f: Faults, r: Result, n: string)
    requires WellKeyed(vms) && PlanOf(actions, vms, desired) && Pointwise(vms, actions, f, r)
    ensures n !in NamesOf(desired) ==> Get(r.vms, n) == None
  {
    if n !in NamesOf(desired) {
      if n in vms {
        assert Delete(vms[n].config) in actions;
      } else {
        assert forall a :: a in actions ==> a.service.name != n;
      }
    }
  }

  /** Convergence: an apply that reports no error, by either strategy, leaves nothing to plan. */
  lemma ApplyConverges(vms: Vms, desired: seq<ServiceConfig>, actions: seq<Action>, f: Faults, rolling: bool)
    requires WellKeyed(vms) && DistinctNames(desired) && IsPlan(actions, vms, desired)
    requires var r := if rolling then Rolling(vms, actions, f) else InTurn(vms, actions, f); !r.failed
    ensures var r := if rolling then Rolling(vms, actions, f) else InTurn(vms, actions, f);
            Converged(r.vms, desired) && WellKeyed(r.vms) && r == InTurn(vms, actions, f)
  {
    PlanMeaning(actions, vms, desired);
    if rolling {
      RollingWithoutError(vms, actions, f);
    }
    var r := InTurn(vms, actions, f);
    InTurnIsPointwise(vms, actions, f);
    AllAtOnceIsBestEffort(vms, desired, actions, f);
    forall s | s in desired ensures s.name in r.vms && !NeedsUpdate(r.vms[s.name], s) {
      NoFaultHere(vms, desired, actions, f, r, s);
      FateOf(vms, desired, actions, f, r, s);
    }
  }

  lemma NoFaultHere(vms: Vms, desired: seq<ServiceConfig>, actions: seq<Action>, f: Faults, r: Result, s: ServiceConfig)
    requires PlanOf(actions, vms, desired) && Pointwise(vms, actions, f, r) && !r.failed && s in desired
    ensures s.name !in vms || NeedsUpdate(vms[s.name], s) ==> s.name !in f.start
    ensures s.name in vms && NeedsUpdate(vms[s.name], s) ==> s.name !in f.preflight
  {
    if s.name !in vms {
      assert Create(s) in actions;
    } else if NeedsUpdate(vms[s.name], s) {
      assert Update(s, vms[s.name].config) in actions;
    }
  }

  // ------------------------------------------------------------- errors, and where a roll stops

  /** The step of this action that fails, told from the faults: the preflight of an update, or
      starting a service that is new or was stopped for the update. */
  predicate Fails(vms: Vms, a: Action, f: Faults) {
    match a
    case Create(s) => s.name in f.start || (s.name in vms && vms[s.name].state.Running?)
    case Update(s, _) => s.name in f.preflight || s.name in f.start
    case Delete(_) => false
  }

  /** An all-at-once apply reports an error exactly if an action failed, so with no faults it
      reports none. */
  lemma ErrorsAreReported(vms: Vms, desired: seq<ServiceConfig>, actions: seq<Action>, f: Faults)
    requires WellKeyed(vms) && DistinctNames(desired) && IsPlan(actions, vms, desired)
    ensures InTurn(vms, actions, f).failed <==> exists a :: a in actions && Fails(vms, a, f)
    ensures f.start == {} && f.preflight == {} ==> !InTurn(vms, actions, f).failed
  {
    PlanMeaning(actions, vms, desired);
    InTurnIsPointwise(vms, actions, f);
    forall a ensures Fails(vms, a, f) <==> Effect(Get(vms, a.service.name), a, f).1 {
    }
    forall a | a in actions && a.Create? ensures a.service.name !in vms {
      CreatedIsNew(vms, desired, actions, a);
    }
  }

  lemma CreatedIsNew(vms: Vms, desired: seq<ServiceConfig>, actions: seq<Action>, a: Action)
    requires PlanOf(actions, vms, desired) && a in actions && a.Create?
    ensures a.service.name !in vms
  {
  }

  /** What one update leaves: the old VM after a failed preflight, none after a failed start, and
      otherwise the desired one running. */
  function Updated(inst: Option<Instance>, s: ServiceConfig, f: Faults): Option<Instance> {
    if s.name in f.preflight then inst
    else if s.name in f.start then None
    else Some(Instance(s, Running))
  }

  /** The roll has gone past the first `k` updates: none of them failed or was interrupted. */
  ghost predicate RolledPast(updates: seq<Action>, f: Faults, k: int) {
    forall i :: 0 <= i < k && i < |updates| ==>
      var name := updates[i].service.name;
      name !in f.preflight && name !in f.start && (i < |updates| - 1 ==> name !in f.pause)
  }

  /** Those up to the first failure or interruption are carried out, those behind it are not
      touched, and an error is reported exactly if it stopped. */
  ghost predicate Rolled(vms: Vms, updates: seq<Action>, f: Faults, r: Result) {
    && (forall i :: 0 <= i < |updates| ==>
          var s := updates[i].service;
          Get(r.vms, s.name) == if RolledPast(updates, f, i) then Updated(Get(vms, s.name), s, f) else Get(vms, s.name))
    && (forall name :: (forall a :: a in updates ==> a.service.name != name) ==> Get(r.vms, name) == Get(vms, name))
    && (r.failed <==> !RolledPast(updates, f, |updates|))
  }

  lemma RollsOn(vms: Vms, vms': Vms, updates: seq<Action>, f: Faults, r: Result)
    requires updates != [] && Apart(updates) && RolledPast(updates, f, 1) && Rolled(vms', updates[1..], f, r)
    requires vms' ==
             Set(vms, updates[0].service.name, Updated(Get(vms, updates[0].service.name), updates[0].service, f))
    ensures Rolled(vms, updates, f, r)
  {
    var a, rest := updates[0], updates[1..];
    assert forall i :: 0 <= i < |rest| ==> rest[i] == updates[i + 1];
    assert forall b :: b in updates <==> b == a || b in rest;
    forall i | 0 <= i <= |rest| ensures RolledPast(rest, f, i) <==> RolledPast(updates, f, i + 1) {
      RolledPastTail(updates, f, i);
    }
    forall b | b in rest ensures b.service.name != a.service.name {
      var i :| 0 <= i < |rest| && rest[i] == b;
      assert updates[i + 1] == b;
    }
    assert Get(r.vms, a.service.name) == Get(vms', a.service.name);
  }

  lemma RollStops(vms: Vms, updates: seq<Action>, f: Faults, r: Result)
    requires updates != [] && Apart(updates) && !RolledPast(updates, f, 1)
    requires r == Result(Set(vms, updates[0].service.name,
                             Updated(Get(vms, updates[0].service.name), updates[0].service, f)), true)
    ensures Rolled(vms, updates, f, r)
  {
    assert updates[0] in updates;
    forall i | 1 <= i <= |updates| ensures !RolledPast(updates, f, i) {
    }
  }

  /** A rolling update stops at the first update that fails or is interrupted after it. */
  lemma {:induction false} RollStopsAtFirstFailure(vms: Vms, updates: seq<Action>, f: Faults)
    requires Apart(updates) && forall a :: a in updates ==> a.Update?
    ensures Rolled(vms, updates, f, OneByOne(vms, updates, f))
    decreases |updates|
  {
    if updates != [] {
      var a, rest := updates[0], updates[1..];
      var (inst, failed) := Effect(Get(vms, a.service.name), a, f);
      var vms' := Set(vms, a.service.name, inst);
      assert a in updates && forall b :: b in rest ==> b in updates;
      if failed || (|updates| > 1 && a.service.name in f.pause) {
        RollStops(vms, updates, f, OneByOne(vms, updates, f));
      } else {
        assert forall i :: 0 <= i < |rest| ==> rest[i] == updates[i + 1];
        RollStopsAtFirstFailure(vms', rest, f);
        RollsOn(vms, vms', updates, f, OneByOne(vms, updates, f));
      }
    }
  }

  lemma RolledPastTail(updates: seq<Action>, f: Faults, k: nat)
    requires k < |updates| && RolledPast(updates, f, 1)
    ensures RolledPast(updates[1..], f, k) <==> RolledPast(updates, f, k + 1)
  {
    var rest := updates[1..];
    assert forall i :: 0 <= i < |rest| ==> rest[i] == updates[i + 1];
    if RolledPast(updates, f, k + 1) {
      forall i | 0 <= i < k && i < |rest|
        ensures rest[i].service.name !in f.preflight && rest[i].service.name !in f.start
        ensures i < |rest| - 1 ==> rest[i].service.name !in f.pause
      {
        assert updates[i + 1].service.name !in f.preflight;
      }
    }
    if RolledPast(rest, f, k) {
      forall i | 0 < i < k + 1 && i < |updates|
        ensures updates[i].service.name !in f.preflight && updates[i].service.name !in f.start
        ensures i < |updates| - 1 ==> updates[i].service.name !in f.pause
      {
        assert rest[i - 1].service.name !in f.preflight;
      }
    }
  }
}
