/** Maximality of one pass, and why repeating a pass moves nothing. */
module SchedulerStability {
  import opened Types
  import opened Ordering
  import opened StorageFit
  import opened Scheduler
  import opened SchedulerProperties

  ghost predicate Proper(s: ServiceConfig) {
    s.vcpus >= 0 && s.memoryMB >= 0 && forall v :: v in s.volumes ==> v.sizeBytes >= 0
  }

  ghost predicate NonNegative(services: seq<ServiceConfig>) {
    forall s :: s in services ==> Proper(s)
  }

  lemma {:induction false} NewBytesNonNegative(service: string, volumes: seq<VolumeConfig>, vtype: VolumeType,
                                               recorded: set<VolumeId>)
    requires forall v :: v in volumes ==> v.sizeBytes >= 0
    ensures NewBytes(service, volumes, vtype, recorded) >= 0
  {
    if volumes != [] {
      assert volumes[0] in volumes;
      NewBytesNonNegative(service, volumes[1..], vtype, recorded);
    }
  }

  lemma {:induction false} NoSuchVolumes(service: string, volumes: seq<VolumeConfig>, vtype: VolumeType,
                                         recorded: set<VolumeId>)
    requires forall v :: v in volumes && v.vtype == vtype ==> VolumeId(service, v.name) in recorded
    ensures NewBytes(service, volumes, vtype, recorded) == 0
  {
    if volumes != [] {
      assert volumes[0] in volumes;
      NoSuchVolumes(service, volumes[1..], vtype, recorded);
    }
  }

  // ------------------------------------------------------------- growth of a run

  ghost predicate Grows(l: Ledger, l': Ledger) {
    && (forall id :: Lookup(l.vcpu, id) <= Lookup(l'.vcpu, id))
    && (forall id :: Lookup(l.mem, id) <= Lookup(l'.mem, id))
    && (forall id :: Lookup(l.local, id) <= Lookup(l'.local, id))
    && (forall id :: id in l.placed ==> id in l'.placed && l.placed[id] <= l'.placed[id])
  }

  /** Every service in `l'` but not in `l` carries the name of one of `services`. */
  ghost predicate AddsOnly(l: Ledger, l': Ledger, services: seq<ServiceConfig>) {
    forall id, c :: PlacedAt(l'.placed, id, c) ==>
      PlacedAt(l.placed, id, c) || exists s :: s in services && s.name == c.name
  }

  lemma EnterGrows(p: Problem, l: Ledger, s: ServiceConfig, d: Decision)
    requires Sound(p, l, s, d) && Sane(p, l) && Proper(s)
    ensures Grows(l, Enter(l, s, d))
  {
    NewBytesNonNegative(s.name, s.volumes, Local, p.res.recorded);
    if d.Go? {
      assert OnNode(p, l, d.node);
    }
  }

  lemma EnterAddsOnly(p: Problem, l: Ledger, s: ServiceConfig, d: Decision)
    requires Sound(p, l, s, d) && Sane(p, l)
    ensures AddsOnly(l, Enter(l, s, d), [s])
  {
    EnterPlaces(p, l, s, d);
    assert s in [s];
  }

  lemma StepGrows(p: Problem, l: Ledger, s: ServiceConfig) returns (d: Decision, l': Ledger)
    requires Sane(p, l) && Proper(s)
    ensures d == p.Decide(l, s) && Sound(p, l, s, d)
    ensures l' == p.Step()(l, s) == Enter(l, s, d)
    ensures Sane(p, l') && Grows(l, l') && AddsOnly(l, l', [s])
  {
    d := p.Decide(l, s);
    l' := Enter(l, s, d);
    DecideIsSound(p, l, s);
    EnterKeepsSane(p, l, s, d);
    EnterGrows(p, l, s, d);
    EnterAddsOnly(p, l, s, d);
  }

  lemma GrowthAddsUp(a: Ledger, b: Ledger, c: Ledger, s: ServiceConfig, services: seq<ServiceConfig>)
    requires Grows(a, b) && Grows(b, c) && AddsOnly(a, b, services) && AddsOnly(b, c, [s]) && s in services
    ensures Grows(a, c) && AddsOnly(a, c, services)
  {
    forall id, x | PlacedAt(c.placed, id, x)
      ensures PlacedAt(a.placed, id, x) || exists t :: t in services && t.name == x.name
    {
      if !PlacedAt(b.placed, id, x) {
        assert s.name == x.name;
      }
    }
  }

  lemma RunGrows(p: Problem, l: Ledger, services: seq<ServiceConfig>)
    requires Sane(p, l) && NonNegative(services)
    ensures Grows(l, p.Run(l, services))
    ensures AddsOnly(l, p.Run(l, services), services)
  {
    var inv := (l': Ledger, rest: seq<ServiceConfig>) =>
      Sane(p, l') && Grows(l, l') && AddsOnly(l, l', services) && forall s :: s in rest ==> s in services;
    forall l', rest: seq<ServiceConfig> | rest != [] && inv(l', rest) ensures inv(p.Step()(l', rest[0]), rest[1..]) {
      var d, l'' := StepGrows(p, l', rest[0]);
      GrowthAddsUp(l, l', l'', rest[0], services);
    }
    FoldKeeps(p.Step(), inv, l, services);
  }

  // ------------------------------------------------------------------ maximality

  ghost predicate AllowedOn(s: ServiceConfig, n: Node) {
    LocalBinding(s).Unbound? || LocalBinding(s) == BoundTo(n.instanceId)
  }

  /** `n` could take `s` on top of what is used there: compute, volume bindings and bytes. */
  ghost predicate HasRoom(res: Reservations, s: ServiceConfig, n: Node, vcpu: int, mem: int, local: int) {
    && vcpu + s.vcpus <= n.capacityVCPUs
    && mem + s.memoryMB <= n.capacityMemMB
    && Bind(s.volumes, n).Some?
    && Lookup(res.localByNode, n.instanceId) + local + NewBytes(s.name, s.volumes, Local, res.recorded)
       <= n.localCapacityBytes
  }

  ghost predicate RoomNow(p: Problem, l: Ledger, s: ServiceConfig, n: Node) {
    var id := n.instanceId;
    HasRoom(p.res, s, n, Lookup(l.vcpu, id), Lookup(l.mem, id), Lookup(l.local, id))
  }

  /** With shared storage off, an unbarred service can go exactly where it is allowed and
      there is room. */
  lemma FeasibleIsRoom(p: Problem, l: Ledger, s: ServiceConfig, n: Node)
    requires n in p.nodes && !p.res.sharedEnabled && p.Barred(s).None?
    ensures p.Ask(l, s).Feasible(n) <==> AllowedOn(s, n) && RoomNow(p, l, s, n)
  {
    LocalBindingMeaning(s);
    NoSuchVolumes(s.name, s.volumes, Shared, p.res.recorded);
  }

  ghost predicate Explained(p: Problem, l: Ledger, s: ServiceConfig, x: Pending) {
    && x.service == s.name
    && match p.Barred(s)
       case Some(reason) => x.reason == reason
       case None => x.reason == NoRoom(s) && forall n :: n in p.nodes && AllowedOn(s, n) ==> !RoomNow(p, l, s, n)
  }

  ghost predicate AllExplained(p: Problem, l: Ledger, pending: seq<Pending>, services: seq<ServiceConfig>) {
    forall x :: x in pending ==> exists s :: s in services && Explained(p, l, s, x)
  }

  lemma ExplainedLater(p: Problem, l: Ledger, l': Ledger, s: ServiceConfig, x: Pending)
    requires Explained(p, l, s, x) && Grows(l, l')
    ensures Explained(p, l', s, x)
  {
    forall n | n in p.nodes && !RoomNow(p, l, s, n) ensures !RoomNow(p, l', s, n) {
      var id := n.instanceId;
      assert Lookup(l.vcpu, id) <= Lookup(l'.vcpu, id);
      assert Lookup(l.mem, id) <= Lookup(l'.mem, id);
      assert Lookup(l.local, id) <= Lookup(l'.local, id);
    }
  }

  lemma WaitIsExplained(p: Problem, l: Ledger, s: ServiceConfig, reason: Reason)
    requires !p.res.sharedEnabled && p.Decide(l, s) == Wait(reason)
    ensures Explained(p, l, s, Pending(s.name, reason))
  {
    if p.Barred(s).None? {
      forall n | n in p.nodes && AllowedOn(s, n) ensures !RoomNow(p, l, s, n) {
        FeasibleIsRoom(p, l, s, n);
      }
    }
  }

  lemma StepExplains(p: Problem, l: Ledger, s: ServiceConfig, d: Decision, l': Ledger, services: seq<ServiceConfig>)
    requires !p.res.sharedEnabled && s in services && d == p.Decide(l, s) && l' == Enter(l, s, d) && Grows(l, l')
    requires AllExplained(p, l, l.pending, services)
    ensures AllExplained(p, l', l'.pending, services)
  {
    forall x | x in l'.pending ensures exists t :: t in services && Explained(p, l', t, x) {
      if x in l.pending {
        var t :| t in services && Explained(p, l, t, x);
        ExplainedLater(p, l, l', t, x);
      } else {
        WaitIsExplained(p, l, s, d.reason);
        ExplainedLater(p, l, l', s, x);
      }
    }
  }

  /** Why a service is pending, told from the published placement alone. */
  ghost predicate Justified(p: Problem, placed: Placement, s: ServiceConfig, x: Pending) {
    && x.service == s.name
    && match p.Barred(s)
       case Some(reason) => x.reason == reason
       case None =>
         && x.reason == NoRoom(s)
         && forall n :: n in p.nodes && AllowedOn(s, n) && n.instanceId in placed ==>
              var there := placed[n.instanceId];
              !HasRoom(p.res, s, n, Vcpus(there), Memory(there), NewLocal(there, p.res.recorded))
  }

  /** Maximality: each pending service either is barred for the reason it reports, or no
      node it is allowed on has room for it even next to the final placement. */
  lemma PendingIsJustified(p: Problem, services: seq<ServiceConfig>)
    requires !p.res.sharedEnabled && NonNegative(services)
    ensures var out := Schedule(p, services);
            && (forall n :: n in p.nodes ==> n.instanceId in out.placed)
            && forall x :: x in out.pending ==> exists s :: s in services && Justified(p, out.placed, s, x)
  {
    var inv := (l: Ledger, rest: seq<ServiceConfig>) =>
      Sane(p, l) && (forall s :: s in rest ==> s in services) && AllExplained(p, l, l.pending, services);
    forall l, rest: seq<ServiceConfig> | rest != [] && inv(l, rest) ensures inv(p.Step()(l, rest[0]), rest[1..]) {
      var d, l' := StepGrows(p, l, rest[0]);
      StepExplains(p, l, rest[0], d, l', services);
    }
    StartIsSane(p);
    SameMembers(services);
    FoldKeeps(p.Step(), inv, Start(p.nodes), InOrder(services));
    var f := Final(p, services);
    SortPermutes(PendingBefore, f.pending);
    SameElements(SortBy(PendingBefore, f.pending), f.pending);
    assert forall n :: n in p.nodes ==> OnNode(p, f, n);
    forall x | x in Schedule(p, services).pending ensures exists s :: s in services && Justified(p, f.placed, s, x) {
      var s :| s in services && Explained(p, f, s, x);
      assert Justified(p, f.placed, s, x);
    }
  }

  // ------------------------------------------------------------- reasons, on the fields

  ghost predicate KeptOn(s: ServiceConfig, node: string) {
    exists v :: v in s.volumes && v.vtype.Local? && v.boundNode == node && node != ""
  }

  ghost predicate KeptApart(s: ServiceConfig) {
    exists a, b :: KeptOn(s, a) && KeptOn(s, b) && a != b
  }

  /** Why `s` waits, as the operator reads it. */
  ghost predicate TellsWhy(p: Problem, s: ServiceConfig, reason: Reason) {
    if KeptApart(s) then reason == BindingConflict
    else if exists v :: v in s.volumes && v.vtype.Shared? then reason == SharedUnavailable
    else if exists n :: KeptOn(s, n) && !Active(p.nodes, n) then reason.NodeUnavailable? && KeptOn(s, reason.bound)
    else reason == if s.volumes != [] then VolumeCapacity else InsufficientCompute
  }

  lemma ReasonTells(p: Problem, placed: Placement, s: ServiceConfig, x: Pending)
    requires !p.res.sharedEnabled && Justified(p, placed, s, x)
    ensures TellsWhy(p, s, x.reason)
  {
    LocalBindingMeaning(s);
    match LocalBinding(s) {
      case Split =>
        var v, w :| v in s.volumes && w in s.volumes && v.vtype == Local && w.vtype == Local
          && v.boundNode != "" && w.boundNode != "" && v.boundNode != w.boundNode;
        assert KeptOn(s, v.boundNode) && KeptOn(s, w.boundNode);
      case _ =>
    }
  }

  /** Each pending service of a pass is told why, in this order: its local volumes are kept on
      two nodes; it has a shared volume; the node that keeps its volumes is not active; and
      otherwise there was no room, for its volumes or for it. */
  lemma PendingTellsWhy(p: Problem, services: seq<ServiceConfig>)
    requires !p.res.sharedEnabled && NonNegative(services)
    ensures forall x :: x in Schedule(p, services).pending ==>
              exists s :: s in services && s.name == x.service && TellsWhy(p, s, x.reason)
  {
    PendingIsJustified(p, services);
    var out := Schedule(p, services);
    forall x | x in out.pending ensures exists s :: s in services && s.name == x.service && TellsWhy(p, s, x.reason) {
      var s :| s in services && Justified(p, out.placed, s, x);
      ReasonTells(p, out.placed, s, x);
    }
  }
}
