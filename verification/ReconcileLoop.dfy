/** The reconciler at work: its loops over the VM manager, and which services are down while it
    rolls or applies all at once. */
module ReconcileLoop {
  import opened Types
  import opened Reconciler

  // ------------------------------------------------------- what is down during a rolling run

  /** Every state of the instances during the updates, in order. */
  function States(vms: Vms, updates: seq<Action>, f: Faults): seq<Vms>
    decreases |updates|
  {
    if updates == [] then [vms]
    else
      var a := updates[0];
      var (inst, failed) := Effect(Get(vms, a.service.name), a, f);
      var vms' := Set(vms, a.service.name, inst);
      [vms] + (if a.service.name in f.preflight then [] else [vms - {a.service.name}])
      + if failed || (|updates| > 1 && a.service.name in f.pause) then [vms'] else States(vms', updates[1..], f)
  }

  predicate Runs(vms: Vms, name: string) {
    name in vms && vms[name].state.Running?
  }

  /** Of the services to be updated that ran in `before`, at most one does not run in `now`. */
  ghost predicate AtMostOneDown(before: Vms, now: Vms, updates: seq<Action>) {
    forall a, b :: a in updates && b in updates
      && Runs(before, a.service.name) && !Runs(now, a.service.name)
      && Runs(before, b.service.name) && !Runs(now, b.service.name)
      ==> a.service.name == b.service.name
  }

  ghost predicate NoneDown(before: Vms, now: Vms, updates: seq<Action>) {
    forall a :: a in updates && Runs(before, a.service.name) ==> Runs(now, a.service.name)
  }

  lemma {:induction false} StatesStayUp(before: Vms, all: seq<Action>, vms: Vms, updates: seq<Action>, f: Faults)
    requires NoneDown(before, vms, all) && forall a :: a in updates ==> a.Update?
    ensures forall st :: st in States(vms, updates, f) ==> AtMostOneDown(before, st, all)
    decreases |updates|
  {
    if updates != [] {
      var a := updates[0];
      var (inst, failed) := Effect(Get(vms, a.service.name), a, f);
      var vms' := Set(vms, a.service.name, inst);
      assert a in updates;
      OneServiceDown(before, all, vms, vms - {a.service.name}, a.service.name);
      OneServiceDown(before, all, vms, vms', a.service.name);
      OneServiceDown(before, all, vms, vms, a.service.name);
      if !failed {
        assert NoneDown(before, vms', all);
        StatesStayUp(before, all, vms', updates[1..], f);
      }
    }
  }

  lemma OneServiceDown(before: Vms, all: seq<Action>, vms: Vms, st: Vms, name: string)
    requires NoneDown(before, vms, all) && forall n :: n != name && Runs(vms, n) ==> Runs(st, n)
    ensures AtMostOneDown(before, st, all)
  {
  }

  /** Rolling never has more than one to-be-updated running service down, not even when an
      update fails: it stops there. */
  lemma RollingKeepsTheRestUp(vms: Vms, updates: seq<Action>, f: Faults)
    requires forall a :: a in updates ==> a.Update?
    ensures forall st :: st in States(vms, updates, f) ==> AtMostOneDown(vms, st, updates)
    ensures States(vms, updates, f) != []
    ensures States(vms, updates, f)[|States(vms, updates, f)| - 1] == OneByOne(vms, updates, f).vms
  {
    StatesStayUp(vms, updates, vms, updates, f);
    StatesEndInResult(vms, updates, f);
  }

  lemma {:induction false} StatesEndInResult(vms: Vms, updates: seq<Action>, f: Faults)
    ensures var st := States(vms, updates, f); st != [] && st[|st| - 1] == OneByOne(vms, updates, f).vms
    decreases |updates|
  {
    if updates != [] {
      var a := updates[0];
      var (inst, failed) := Effect(Get(vms, a.service.name), a, f);
      StatesEndInResult(Set(vms, a.service.name, inst), updates[1..], f);
    }
  }

  // ------------------------------------------------ the whole of a rolling apply

  /** Every state of the instances while going through the actions in turn. */
  function TurnStates(vms: Vms, actions: seq<Action>, f: Faults): seq<Vms> {
    if actions == [] then [vms]
    else TurnStates(vms, actions[..|actions| - 1], f) + [InTurn(vms, actions, f).vms]
  }

  /** Every state of the instances in a rolling apply: deletes, creates, updates. */
  function RollingStates(vms: Vms, actions: seq<Action>, f: Faults): seq<Vms> {
    var deleted := InTurn(vms, Deletes(actions), f).vms;
    var created := InTurn(deleted, Creates(actions), f).vms;
    TurnStates(vms, Deletes(actions), f) + TurnStates(deleted, Creates(actions), f)
    + States(created, Updates(actions), f)
  }

  lemma {:induction false} OthersStayPut(vms: Vms, actions: seq<Action>, f: Faults, name: string)
    requires forall a :: a in actions ==> a.service.name != name
    ensures forall st :: st in TurnStates(vms, actions, f) ==> Get(st, name) == Get(vms, name)
    ensures Get(InTurn(vms, actions, f).vms, name) == Get(vms, name)
  {
    if actions != [] {
      var front, a := actions[..|actions| - 1], actions[|actions| - 1];
      assert actions == front + [a] && a in actions;
      OthersStayPut(vms, front, f, name);
    }
  }

  /** Deletes and creates do not touch a service that is to be updated. */
  lemma UpdatedStayUp(vms: Vms, actions: seq<Action>, f: Faults, u: Action)
    requires Apart(actions) && u in Updates(actions)
    ensures var deleted := InTurn(vms, Deletes(actions), f).vms;
            && (forall st :: st in TurnStates(vms, Deletes(actions), f) + TurnStates(deleted, Creates(actions), f) ==>
                  Get(st, u.service.name) == Get(vms, u.service.name))
            && Get(InTurn(deleted, Creates(actions), f).vms, u.service.name) == Get(vms, u.service.name)
  {
    OfKindMeaning(actions, (a: Action) => a.Delete?);
    OfKindMeaning(actions, (a: Action) => a.Create?);
    OfKindMeaning(actions, (a: Action) => a.Update?);
    var name := u.service.name;
    forall a | a in Deletes(actions) || a in Creates(actions) ensures a.service.name != name {
      DifferentActions(actions, a, u);
    }
    OthersStayPut(vms, Deletes(actions), f, name);
    OthersStayPut(InTurn(vms, Deletes(actions), f).vms, Creates(actions), f, name);
  }

  /** At every moment of a rolling apply, whatever fails, at most one service that ran and is
      to be updated is down; and the last state is what the apply leaves. */
  lemma RollingTakesOneDown(vms: Vms, actions: seq<Action>, f: Faults)
    requires Apart(actions)
    ensures forall st :: st in RollingStates(vms, actions, f) ==> AtMostOneDown(vms, st, Updates(actions))
    ensures var states := RollingStates(vms, actions, f);
            states != [] && states[|states| - 1] == Rolling(vms, actions, f).vms
  {
    var updates := Updates(actions);
    var deleted := InTurn(vms, Deletes(actions), f).vms;
    var created := InTurn(deleted, Creates(actions), f).vms;
    OfKindMeaning(actions, (a: Action) => a.Update?);
    forall u | u in updates
      ensures forall st :: st in TurnStates(vms, Deletes(actions), f) + TurnStates(deleted, Creates(actions), f) ==>
                Get(st, u.service.name) == Get(vms, u.service.name)
      ensures Get(created, u.service.name) == Get(vms, u.service.name)
    {
      UpdatedStayUp(vms, actions, f, u);
    }
    StatesStayUp(vms, updates, created, updates, f);
    StatesEndInResult(created, updates, f);
    forall st | st in TurnStates(vms, Deletes(actions), f) + TurnStates(deleted, Creates(actions), f)
      ensures AtMostOneDown(vms, st, updates)
    {
    }
  }

  // ---------------------------------------------------------------- all at once

  /** The update of a running service that will leave it down. */
  predicate LeavesDown(a: Action, f: Faults) {
    a.Update? && a.service.name in f.start && a.service.name !in f.preflight
  }

  /** After an all-at-once apply, a service that ran and was to be updated is down exactly if
      its start failed and its preflight did not; so at most one is down exactly if there is at
      most one such service. */
  lemma AllAtOnceTakesDownExactly(vms: Vms, actions: seq<Action>, f: Faults)
    requires Apart(actions)
    ensures forall a :: a in actions && a.Update? && Runs(vms, a.service.name) ==>
              (!Runs(InTurn(vms, actions, f).vms, a.service.name) <==> LeavesDown(a, f))
    ensures AtMostOneDown(vms, InTurn(vms, actions, f).vms, Updates(actions)) <==>
            forall a, b ::
              a in actions && b in actions && Runs(vms, a.service.name) && Runs(vms, b.service.name) && LeavesDown(a, f)
                && LeavesDown(b, f)
              ==> a == b
  {
    forall a | a in actions && a.Update? && Runs(vms, a.service.name)
      ensures !Runs(InTurn(vms, actions, f).vms, a.service.name) <==> LeavesDown(a, f)
    {
      TakesDownEach(vms, actions, f, a);
    }
    OfKindMeaning(actions, (a: Action) => a.Update?);
    OneDownAtMost(vms, InTurn(vms, actions, f).vms, actions, Updates(actions), f);
  }

  lemma TakesDownEach(vms: Vms, actions: seq<Action>, f: Faults, a: Action)
    requires Apart(actions) && a in actions && a.Update? && Runs(vms, a.service.name)
    ensures !Runs(InTurn(vms, actions, f).vms, a.service.name) <==> LeavesDown(a, f)
  {
    InTurnIsPointwise(vms, actions, f);
    assert Get(InTurn(vms, actions, f).vms, a.service.name) == Effect(Get(vms, a.service.name), a, f).0;
  }

  lemma OneDownAtMost(vms: Vms, vms': Vms, actions: seq<Action>, updates: seq<Action>, f: Faults)
    requires Apart(actions) && forall a :: a in updates <==> a in actions && a.Update?
    requires forall a :: a in updates && Runs(vms, a.service.name) ==>
               (!Runs(vms', a.service.name) <==> LeavesDown(a, f))
    ensures AtMostOneDown(vms, vms', updates) <==>
            forall a, b ::
              a in actions && b in actions && Runs(vms, a.service.name) && Runs(vms, b.service.name) && LeavesDown(a, f)
                && LeavesDown(b, f)
              ==> a == b
  {
    forall a, b | a in actions && b in actions && a.service.name == b.service.name ensures a == b {
      if a != b {
        DifferentActions(actions, a, b);
      }
    }
  }

  /** Two running services that both need an update have this plan. */
  lemma PlanOfTwoUpdates(vms: Vms, a: ServiceConfig, b: ServiceConfig)
    requires a.name != b.name && vms.Keys == {a.name, b.name}
    requires NeedsUpdate(vms[a.name], a) && NeedsUpdate(vms[b.name], b)
    ensures IsPlan([Update(a, vms[a.name].config), Update(b, vms[b.name].config)], vms, [a, b])
  {
    var first: seq<ServiceConfig> := [a];
    assert [a, b][..1] == first && first[..0] == [];
    assert Wanted(vms, first) == [Update(a, vms[a.name].config)];
    assert NamesOf([a, b]) == {a.name, b.name} by {
      assert a in [a, b] && b in [a, b];
    }
    var none: seq<string> := [];
    assert Wanted(vms, [a, b]) + DeletesFor(vms, none) ==
           [Update(a, vms[a.name].config), Update(b, vms[b.name].config)];
    assert forall n :: n in none <==> n in vms && n !in NamesOf([a, b]);
  }

  /** Two failing starts are enough, whatever it is that needs the updates. */
  lemma AllAtOnceCanTakeTwoDown(vms: Vms, a: ServiceConfig, b: ServiceConfig, actions: seq<Action>)
    requires a.name != b.name && vms.Keys == {a.name, b.name} && WellKeyed(vms)
    requires vms[a.name].state.Running? && vms[b.name].state.Running?
    requires NeedsUpdate(vms[a.name], a) && NeedsUpdate(vms[b.name], b)
    requires IsPlan(actions, vms, [a, b])
    ensures var r := InTurn(vms, actions, Faults({}, {a.name, b.name}, {}));
            !Runs(r.vms, a.name) && !Runs(r.vms, b.name)
  {
    var f := Faults({}, {a.name, b.name}, {});
    PlanMeaning(actions, vms, [a, b]);
    AllAtOnceTakesDownExactly(vms, actions, f);
    forall s | s in [a, b] ensures !Runs(InTurn(vms, actions, f).vms, s.name) {
      assert Update(s, vms[s.name].config) in actions;
    }
    assert a in [a, b] && b in [a, b];
  }

  // --------------------------------------------------------------------------- the loops

  class VmManager {
    var instances: Vms

    constructor ()
      ensures instances == map[]
    {
      instances := map[];
    }

    /** Start: refuses a service that is running; any later failure leaves the map alone. */
    method Start(svc: ServiceConfig, fails: bool) returns (err: bool)
      modifies this
      ensures instances ==
              Set(old(instances), svc.name,
                  (if err then Get(old(instances), svc.name) else Some(Instance(svc, Running))))
      ensures err <==> fails || Runs(old(instances), svc.name)
    {
      if svc.name in instances && instances[svc.name].state.Running? {
        return true;
      }
      if fails {
        return true;
      }
      instances := instances[svc.name := Instance(svc, Running)];
      return false;
    }

    /** Remove: stops the VM if it runs and forgets it. */
    method Remove(name: string)
      modifies this
      ensures instances == old(instances) - {name}
    {
      if name in instances && instances[name].state.Running? {
        instances := instances[name := instances[name].(state := Stopped)];
      }
      instances := instances - {name};
    }
  }

  class Agent {
    const vms: VmManager
    const rolling: bool

    constructor (vmManager: VmManager, strategy: bool)
      ensures vms == vmManager && rolling == strategy
    {
      vms, rolling := vmManager, strategy;
    }

    /** The first loops of Plan: desired services in order. */
    method PlanWanted(actual: Vms, desired: seq<ServiceConfig>) returns (actions: seq<Action>, desiredSet: set<string>)
      ensures actions == Wanted(actual, desired) && desiredSet == NamesOf(desired)
    {
      actions, desiredSet := [], {};
      var i := 0;
      while i < |desired|
        invariant 0 <= i <= |desired| && actions == Wanted(actual, desired[..i])
        invariant desiredSet == NamesOf(desired[..i])
      {
        var svc := desired[i];
        assert desired[..i + 1][..i] == desired[..i];
        assert desired[..i + 1] == desired[..i] + [svc];
        desiredSet := desiredSet + {svc.name};
        if svc.name !in actual {
          actions := actions + [Create(svc)];
        } else if NeedsUpdate(actual[svc.name], svc) {
          actions := actions + [Update(svc, actual[svc.name].config)];
        }
        i := i + 1;
      }
      assert desired[..i] == desired;
    }

    /** The last loop of Plan: instances nobody desires, ranged over in any order. */
    method PlanDeletes(actual: Vms, desiredSet: set<string>) returns (actions: seq<Action>, deletes: seq<string>)
      ensures forall n :: n in deletes <==> n in actual && n !in desiredSet
      ensures forall j, k :: 0 <= j < k < |deletes| ==> deletes[j] != deletes[k]
      ensures actions == DeletesFor(actual, deletes)
    {
      actions, deletes := [], [];
      var todo := actual.Keys;
      while todo != {}
        invariant todo <= actual.Keys
        invariant forall n :: n in deletes <==> n in actual.Keys - todo && n !in desiredSet
        invariant forall j, k :: 0 <= j < k < |deletes| ==> deletes[j] != deletes[k]
        invariant actions == DeletesFor(actual, deletes)
        decreases |todo|
      {
        var name :| name in todo;
        if name !in desiredSet {
          DeleteOneMore(actual, deletes, name);
          actions := actions + [Delete(actual[name].config)];
          deletes := deletes + [name];
        }
        todo := todo - {name};
      }
    }

    /** Plan */
    method Plan(desired: seq<ServiceConfig>) returns (actions: seq<Action>)
      ensures IsPlan(actions, vms.instances, desired)
    {
      var wanted, desiredSet := PlanWanted(vms.instances, desired);
      var gone, _ := PlanDeletes(vms.instances, desiredSet);
      return wanted + gone;
    }

    method CreateService(svc: ServiceConfig, fails: bool) returns (err: bool)
      modifies vms
      ensures vms.instances ==
              Set(old(vms.instances), svc.name,
                  (if err then Get(old(vms.instances), svc.name) else Some(Instance(svc, Running))))
      ensures err <==> fails || Runs(old(vms.instances), svc.name)
    {
      err := vms.Start(svc, fails);
    }

    /** One action as both strategies perform it. */
    method Perform(a: Action, f: Faults) returns (err: bool)
      requires a.Update? ==> a.previous.name == a.service.name
      modifies vms
      ensures var (inst, failed) := Effect(Get(old(vms.instances), a.service.name), a, f);
              err == failed && vms.instances == Set(old(vms.instances), a.service.name, inst)
    {
      match a {
        case Create(svc) =>
          err := CreateService(svc, svc.name in f.start);
        case Update(svc, previous) =>
          if svc.name in f.preflight {
            return true;
          }
          vms.Remove(previous.name);
          err := CreateService(svc, svc.name in f.start);
        case Delete(svc) =>
          vms.Remove(svc.name);
          err := false;
      }
    }

    /** applyAllAtOnce, and the batch phases of applyRolling. */
    method ApplyInTurn(actions: seq<Action>, f: Faults) returns (err: bool)
      requires forall a :: a in actions && a.Update? ==> a.previous.name == a.service.name
      modifies vms
      ensures Result(vms.instances, err) == InTurn(old(vms.instances), actions, f)
    {
      err := false;
      var i := 0;
      while i < |actions|
        invariant 0 <= i <= |actions|
        invariant Result(vms.instances, err) == InTurn(old(vms.instances), actions[..i], f)
      {
        assert actions[..i + 1][..i] == actions[..i];
        var failed := Perform(actions[i], f);
        err := err || failed;
        i := i + 1;
      }
      assert actions[..i] == actions;
    }

    method Select(actions: seq<Action>, kind: Action -> bool) returns (chosen: seq<Action>)
      ensures chosen == OfKind(actions, kind)
    {
      chosen := [];
      var i := 0;
      while i < |actions|
        invariant 0 <= i <= |actions| && chosen == OfKind(actions[..i], kind)
      {
        assert actions[..i + 1][..i] == actions[..i];
        if kind(actions[i]) {
          chosen := chosen + [actions[i]];
        }
        i := i + 1;
      }
      assert actions[..i] == actions;
    }

    /** applyRolling: deletes, creates, then updates one at a time until one fails. */
    method ApplyRolling(actions: seq<Action>, f: Faults) returns (err: bool)
      requires forall a :: a in actions && a.Update? ==> a.previous.name == a.service.name
      modifies vms
      ensures Result(vms.instances, err) == Rolling(old(vms.instances), actions, f)
    {
      OfKindMeaning(actions, (a: Action) => a.Delete?);
      OfKindMeaning(actions, (a: Action) => a.Create?);
      OfKindMeaning(actions, (a: Action) => a.Update?);
      var deletes := Select(actions, (a: Action) => a.Delete?);
      var unused := ApplyInTurn(deletes, f);
      var creates := Select(actions, (a: Action) => a.Create?);
      err := ApplyInTurn(creates, f);
      var updates := Select(actions, (a: Action) => a.Update?);
      var failed := UpdateOneByOne(updates, f);
      err := err || failed;
    }

    method UpdateOneByOne(updates: seq<Action>, f: Faults) returns (err: bool)
      requires forall a :: a in updates && a.Update? ==> a.previous.name == a.service.name
      modifies vms
      ensures Result(vms.instances, err) == OneByOne(old(vms.instances), updates, f)
    {
      var i := 0;
      while i < |updates|
        invariant 0 <= i <= |updates|
        invariant OneByOne(old(vms.instances), updates, f) == OneByOne(vms.instances, updates[i..], f)
      {
        assert updates[i..][0] == updates[i] && updates[i..][1..] == updates[i + 1..];
        err := Perform(updates[i], f);
        if err {
          return;
        }
        if i < |updates| - 1 && updates[i].service.name in f.pause {
          return true;
        }
        i := i + 1;
      }
      err := false;
    }

    /** Reconcile: plans and applies. Without an error nothing is left to plan. */
    method Reconcile(desired: seq<ServiceConfig>, f: Faults) returns (err: bool)
      requires WellKeyed(vms.instances) && DistinctNames(desired)
      modifies vms
      ensures WellKeyed(vms.instances)
      ensures exists actions :: IsPlan(actions, old(vms.instances), desired) &&
                Result(vms.instances, err) ==
                  if rolling then Rolling(old(vms.instances), actions, f) else InTurn(old(vms.instances), actions, f)
      ensures !err ==> Converged(vms.instances, desired)
      ensures !rolling ==> BestEffort(old(vms.instances), desired, f, vms.instances)
    {
      var actions := Plan(desired);
      PlanMeaning(actions, vms.instances, desired);
      if actions == [] {
        NothingToPlan(vms.instances, desired, actions);
        AllAtOnceIsBestEffort(vms.instances, desired, actions, f);
        NothingRolls(vms.instances, f);
        return false;
      }
      if rolling {
        RollingKeepsKeys(vms.instances, actions, f);
        err := ApplyRolling(actions, f);
      } else {
        AllAtOnceIsBestEffort(vms.instances, desired, actions, f);
        err := ApplyInTurn(actions, f);
      }
      if !err {
        ApplyConverges(old(vms.instances), desired, actions, f, rolling);
      }
    }
  }

  lemma NothingRolls(vms: Vms, f: Faults)
    ensures Rolling(vms, [], f) == InTurn(vms, [], f) == Result(vms, false)
  {
  }

  lemma DeleteOneMore(vms: Vms, names: seq<string>, name: string)
    requires name in vms && forall n :: n in names ==> n in vms
    ensures forall n :: n in names + [name] ==> n in vms
    ensures DeletesFor(vms, names + [name]) == DeletesFor(vms, names) + [Delete(vms[name].config)]
  {
    assert (names + [name])[..|names|] == names;
  }

  lemma {:induction false} InTurnKeepsKeys(vms: Vms, actions: seq<Action>, f: Faults)
    requires WellKeyed(vms)
    ensures WellKeyed(InTurn(vms, actions, f).vms)
  {
    if actions != [] {
      InTurnKeepsKeys(vms, actions[..|actions| - 1], f);
    }
  }

  lemma {:induction false} OneByOneKeepsKeys(vms: Vms, updates: seq<Action>, f: Faults)
    requires WellKeyed(vms)
    ensures WellKeyed(OneByOne(vms, updates, f).vms)
    decreases |updates|
  {
    if updates != [] {
      var a := updates[0];
      var (inst, _) := Effect(Get(vms, a.service.name), a, f);
      OneByOneKeepsKeys(Set(vms, a.service.name, inst), updates[1..], f);
    }
  }

  lemma RollingKeepsKeys(vms: Vms, actions: seq<Action>, f: Faults)
    requires WellKeyed(vms)
    ensures WellKeyed(Rolling(vms, actions, f).vms)
  {
    InTurnKeepsKeys(vms, Deletes(actions), f);
    var deleted := InTurn(vms, Deletes(actions), f);
    InTurnKeepsKeys(deleted.vms, Creates(actions), f);
    OneByOneKeepsKeys(InTurn(deleted.vms, Creates(actions), f).vms, Updates(actions), f);
  }
}
