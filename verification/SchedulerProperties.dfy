/** What a whole scheduling pass guarantees, whatever it is given. */
module SchedulerProperties {
  import opened Types
  import opened Ordering
  import opened StorageFit
  import opened Scheduler

  type Placement = map<string, seq<ServiceConfig>>

  ghost predicate PlacedAt(placed: Placement, id: string, c: ServiceConfig) {
    id in placed && c in placed[id]
  }

  // --------------------------------------------------------- order independence

  lemma ServiceOrderIsStrict(services: seq<ServiceConfig>)
    requires DistinctNames(services)
    ensures StrictOn(ServiceBefore, services)
  {
    forall x, y | x in services && y in services ensures !(ServiceBefore(x, y) && ServiceBefore(y, x)) {
      LessIsTotal(x.name, y.name);
    }
    forall x, y, z | x in services && y in services && z in services && ServiceBefore(x, y) && ServiceBefore(y, z)
      ensures ServiceBefore(x, z)
    {
      if Less(x.name, y.name) && Less(y.name, z.name) {
        LessIsTransitive(x.name, y.name, z.name);
      }
    }
    forall i, j | 0 <= i < j < |services|
      ensures ServiceBefore(services[i], services[j]) || ServiceBefore(services[j], services[i])
    {
      LessIsTotal(services[i].name, services[j].name);
    }
  }

  ghost predicate SameProblem(p: Problem, p': Problem) {
    multiset(p.nodes) == multiset(p'.nodes) && p.existing == p'.existing && p.res == p'.res
  }

  lemma DecideIgnoresNodeOrder(p: Problem, p': Problem, l: Ledger, service: ServiceConfig)
    requires SameProblem(p, p')
    ensures p.Decide(l, service) == p'.Decide(l, service)
  {
    SameElements(p.nodes, p'.nodes);
    var q := p.Ask(l, service);
    assert q == p'.Ask(l, service) && p.Barred(service) == p'.Barred(service);
    BestIgnoresNodeOrder(q, p.nodes, p'.nodes, Best(q, p.nodes), Best(q, p'.nodes));
  }

  lemma {:induction false} FoldsAgree<L, S>(step: (L, S) -> L, step': (L, S) -> L, l: L, items: seq<S>)
    requires forall l', s :: step(l', s) == step'(l', s)
    ensures Fold(step, l, items) == Fold(step', l, items)
    decreases |items|
  {
    if items != [] {
      FoldsAgree(step, step', step(l, items[0]), items[1..]);
    }
  }

  /** The whole result is a function of the set of services and the set of nodes: any
      listing order of either gives the same placement and the same pending list. */
  lemma OrderIndependent(p: Problem, p': Problem, services: seq<ServiceConfig>, services': seq<ServiceConfig>)
    requires SameProblem(p, p')
    requires DistinctNames(services) && DistinctNames(services') && multiset(services) == multiset(services')
    ensures Schedule(p, services) == Schedule(p', services')
  {
    ServiceOrderIsStrict(services);
    ServiceOrderIsStrict(services');
    SortForgetsOrder(ServiceBefore, services, services');
    assert Start(p.nodes) == Start(p'.nodes) by {
      SameElements(p.nodes, p'.nodes);
    }
    forall l: Ledger, s: ServiceConfig ensures p.Step()(l, s) == p'.Step()(l, s) {
      DecideIgnoresNodeOrder(p, p', l, s);
    }
    FoldsAgree(p.Step(), p'.Step(), Start(p.nodes), InOrder(services));
  }

  // --------------------------------------------------- what the ledger adds up to

  function Vcpus(services: seq<ServiceConfig>): int {
    if services == [] then 0 else Vcpus(services[..|services| - 1]) + services[|services| - 1].vcpus
  }

  function Memory(services: seq<ServiceConfig>): int {
    if services == [] then 0 else Memory(services[..|services| - 1]) + services[|services| - 1].memoryMB
  }

  /** Local bytes of these services that no durable record reserved before the pass. */
  function NewLocal(services: seq<ServiceConfig>, recorded: set<VolumeId>): int {
    if services == [] then 0
    else
      var last := services[|services| - 1];
      NewLocal(services[..|services| - 1], recorded) + NewBytes(last.name, last.volumes, Local, recorded)
  }

  /** The anti-affinity groups of these services. */
  function GroupsOf(services: seq<ServiceConfig>): set<string> {
    set s | s in services && s.antiAffinityGroup != "" :: s.antiAffinityGroup
  }

  lemma GroupsOfAppended(services: seq<ServiceConfig>, s: ServiceConfig)
    ensures GroupsOf(services + [s]) ==
            GroupsOf(services) + if s.antiAffinityGroup != "" then {s.antiAffinityGroup} else {}
  {
    assert forall t :: t in services + [s] <==> t in services || t == s;
  }

  lemma SumsOfAppended(services: seq<ServiceConfig>, s: ServiceConfig, recorded: set<VolumeId>)
    ensures Vcpus(services + [s]) == Vcpus(services) + s.vcpus
    ensures Memory(services + [s]) == Memory(services) + s.memoryMB
    ensures NewLocal(services + [s], recorded) ==
            NewLocal(services, recorded) + NewBytes(s.name, s.volumes, Local, recorded)
  {
    var all := services + [s];
    assert all[..|all| - 1] == services && all[|all| - 1] == s;
  }

  lemma {:induction false} BindKeepsBytes(service: string, volumes: seq<VolumeConfig>, node: Node, vtype: VolumeType,
                                          recorded: set<VolumeId>)
    requires Bind(volumes, node).Some?
    ensures NewBytes(service, Bind(volumes, node).value, vtype, recorded) == NewBytes(service, volumes, vtype, recorded)
  {
    if volumes != [] {
      BindKeepsBytes(service, volumes[1..], node, vtype, recorded);
      var v, rest := BindOne(volumes[0], node).value, Bind(volumes[1..], node).value;
      assert ([v] + rest)[1..] == rest;
    }
  }

  /** `c` is `s` with its volumes bound to `node`, and no retained binding of `s` named
      another node. */
  ghost predicate BoundVersion(s: ServiceConfig, c: ServiceConfig, node: Node) {
    && Bind(s.volumes, node) == Some(c.volumes)
    && c == s.(volumes := c.volumes)
    && (LocalBinding(s).Unbound? || LocalBinding(s) == BoundTo(node.instanceId))
  }

  ghost predicate OnNode(p: Problem, l: Ledger, n: Node) {
    var id := n.instanceId;
    && id in l.placed
    && Lookup(l.vcpu, id) == Vcpus(l.placed[id])
    && Lookup(l.mem, id) == Memory(l.placed[id])
    && Lookup(l.local, id) == NewLocal(l.placed[id], p.res.recorded)
    && id in l.groups && GroupsOf(l.placed[id]) == l.groups[id]
    && (l.placed[id] != [] ==> WithinNode(p.res, l.placed[id], n))
  }

  /** These services fit on `n` together with everything reserved there before the pass. */
  ghost predicate WithinNode(res: Reservations, services: seq<ServiceConfig>, n: Node) {
    && Vcpus(services) <= n.capacityVCPUs
    && Memory(services) <= n.capacityMemMB
    && Lookup(res.localByNode, n.instanceId) + NewLocal(services, res.recorded) <= n.localCapacityBytes
  }

  ghost predicate Sane(p: Problem, l: Ledger) {
    && (forall id :: id in l.placed ==> Active(p.nodes, id))
    && (forall n :: n in p.nodes ==> OnNode(p, l, n))
  }

  ghost predicate ComesFrom(p: Problem, placed: Placement, services: seq<ServiceConfig>) {
    forall n, c :: n in p.nodes && PlacedAt(placed, n.instanceId, c) ==>
      exists s :: s in services && BoundVersion(s, c, n)
  }

  /** All later arguments need to know about a decision. */
  ghost predicate Sound(p: Problem, l: Ledger, s: ServiceConfig, d: Decision) {
    match d
    case Wait(_) => true
    case Go(n, fit) =>
      && n in p.nodes
      && BoundVersion(s, fit.candidate, n)
      && Lookup(l.vcpu, n.instanceId) + s.vcpus <= n.capacityVCPUs
      && Lookup(l.mem, n.instanceId) + s.memoryMB <= n.capacityMemMB
      && (HasShared(s) ==> p.res.sharedEnabled)
      && fit.localDelta == NewBytes(s.name, s.volumes, Local, p.res.recorded)
      && Lookup(p.res.localByNode, n.instanceId) + Lookup(l.local, n.instanceId) + fit.localDelta
         <= n.localCapacityBytes
  }

  lemma DecideIsSound(p: Problem, l: Ledger, s: ServiceConfig)
    ensures Sound(p, l, s, p.Decide(l, s))
  {
    LocalBindingMeaning(s);
  }

  lemma IdsDiffer(nodes: NodeList, a: Node, b: Node)
    requires a in nodes && b in nodes && a != b
    ensures a.instanceId != b.instanceId
  {
    var i :| 0 <= i < |nodes| && nodes[i] == a;
    var j :| 0 <= j < |nodes| && nodes[j] == b;
  }

  /** The books of the chosen node after a placement. */
  lemma EnterKeepsOnNode(p: Problem, l: Ledger, s: ServiceConfig, chosen: Node, fit: Fit)
    requires OnNode(p, l, chosen) && Sound(p, l, s, Go(chosen, fit))
    ensures OnNode(p, Enter(l, s, Go(chosen, fit)), chosen)
  {
    var placed := l.placed[chosen.instanceId];
    SumsOfAppended(placed, fit.candidate, p.res.recorded);
    GroupsOfAppended(placed, fit.candidate);
    BindKeepsBytes(s.name, s.volumes, chosen, Local, p.res.recorded);
  }

  /** The bookkeeping keeps, for every node, the counted vCPUs, memory, local bytes and groups
      equal to what is placed there, and that within the node's capacity. */
  lemma EnterKeepsSane(p: Problem, l: Ledger, s: ServiceConfig, d: Decision)
    requires Sane(p, l) && Sound(p, l, s, d)
    ensures Sane(p, Enter(l, s, d))
  {
    match d
    case Wait(_) =>
    case Go(chosen, fit) =>
      EnterKeepsOnNode(p, l, s, chosen, fit);
      forall n | n in p.nodes && n != chosen ensures OnNode(p, Enter(l, s, d), n) {
        assert OnNode(p, l, n);
        IdsDiffer(p.nodes, n, chosen);
      }
  }

  /** A service of the same anti-affinity group is placed on `n` already. */
  ghost predicate Hosts(l: Ledger, s: ServiceConfig, n: Node) {
    && s.antiAffinityGroup != "" && n.instanceId in l.placed
    && exists c :: c in l.placed[n.instanceId] && c.antiAffinityGroup == s.antiAffinityGroup
  }

  ghost function FreeVcpus(l: Ledger, n: Node): int {
    n.capacityVCPUs - if n.instanceId in l.placed then Vcpus(l.placed[n.instanceId]) else 0
  }

  /** The node of the retained local volumes, or else the one the service was placed on before. */
  ghost predicate Prefers(p: Problem, s: ServiceConfig, id: string) {
    if exists v :: v in s.volumes && v.vtype.Local? && v.boundNode != ""
      then exists v :: v in s.volumes && v.vtype.Local? && v.boundNode == id && id != ""
      else s.name in p.existing && p.existing[s.name] == id
  }

  lemma PreferenceMeaning(p: Problem, l: Ledger, s: ServiceConfig, n: Node)
    requires n in p.nodes && !LocalBinding(s).Split?
    ensures n.instanceId == p.Ask(l, s).preferred <==> Prefers(p, s, n.instanceId)
  {
    LocalBindingMeaning(s);
    var i :| 0 <= i < |p.nodes| && p.nodes[i] == n;
    assert n.instanceId != "";
  }

  /** Told from what is placed so far, why the chosen node comes before another feasible one:
      it hosts no service of the group unless the other does too; then it is the preferred
      one; then it has more free vCPU; then the smaller ID. */
  lemma ChoiceIsLeast(p: Problem, l: Ledger, s: ServiceConfig, n: Node, fit: Fit, m: Node)
    requires Sane(p, l) && p.Decide(l, s) == Go(n, fit)
    requires m in p.nodes && m != n && p.Ask(l, s).Feasible(m)
    ensures Hosts(l, s, n) ==> Hosts(l, s, m)
    ensures Hosts(l, s, n) == Hosts(l, s, m) ==>
              && !Prefers(p, s, m.instanceId)
              && (!Prefers(p, s, n.instanceId) ==>
                    || FreeVcpus(l, n) > FreeVcpus(l, m)
                    || (FreeVcpus(l, n) == FreeVcpus(l, m) && Less(n.instanceId, m.instanceId)))
  {
    var q := p.Ask(l, s);
    assert OnNode(p, l, n) && OnNode(p, l, m);
    assert q.Before(n, m);
    assert q.Conflict(n) == Hosts(l, s, n) && q.Conflict(m) == Hosts(l, s, m);
    PreferenceMeaning(p, l, s, n);
    PreferenceMeaning(p, l, s, m);
    IdsDiffer(p.nodes, n, m);
  }

  lemma RunKeepsSane(p: Problem, l: Ledger, services: seq<ServiceConfig>)
    requires Sane(p, l)
    ensures Sane(p, p.Run(l, services))
  {
    forall l', rest: seq<ServiceConfig> | rest != [] && Sane(p, l') ensures Sane(p, p.Step()(l', rest[0])) {
      DecideIsSound(p, l', rest[0]);
      EnterKeepsSane(p, l', rest[0], p.Decide(l', rest[0]));
    }
    FoldKeeps(p.Step(), (l': Ledger, rest: seq<ServiceConfig>) => Sane(p, l'), l, services);
  }

  lemma EnterPlaces(p: Problem, l: Ledger, s: ServiceConfig, d: Decision)
    requires Sane(p, l) && Sound(p, l, s, d)
    ensures forall id, c :: PlacedAt(Enter(l, s, d).placed, id, c) <==>
              PlacedAt(l.placed, id, c) || (d.Go? && id == d.node.instanceId && c == d.fit.candidate)
  {
    if d.Go? {
      assert OnNode(p, l, d.node);
    }
  }

  lemma EnterComesFrom(p: Problem, l: Ledger, s: ServiceConfig, d: Decision, all: seq<ServiceConfig>)
    requires Sane(p, l) && Sound(p, l, s, d) && ComesFrom(p, l.placed, all) && s in all
    ensures ComesFrom(p, Enter(l, s, d).placed, all)
  {
    EnterPlaces(p, l, s, d);
    forall n, c | n in p.nodes && PlacedAt(Enter(l, s, d).placed, n.instanceId, c)
      ensures exists t :: t in all && BoundVersion(t, c, n)
    {
      assert PlacedAt(l.placed, n.instanceId, c) || (n == d.node && BoundVersion(s, c, n));
    }
  }

  lemma RunComesFrom(p: Problem, l: Ledger, services: seq<ServiceConfig>, all: seq<ServiceConfig>)
    requires Sane(p, l) && ComesFrom(p, l.placed, all) && forall s :: s in services ==> s in all
    ensures ComesFrom(p, p.Run(l, services).placed, all)
  {
    var inv := (l': Ledger, rest: seq<ServiceConfig>) =>
      Sane(p, l') && ComesFrom(p, l'.placed, all) && forall s :: s in rest ==> s in all;
    forall l', rest: seq<ServiceConfig> | rest != [] && inv(l', rest) ensures inv(p.Step()(l', rest[0]), rest[1..]) {
      DecideIsSound(p, l', rest[0]);
      EnterKeepsSane(p, l', rest[0], p.Decide(l', rest[0]));
      EnterComesFrom(p, l', rest[0], p.Decide(l', rest[0]), all);
    }
    FoldKeeps(p.Step(), inv, l, services);
  }

  lemma StartIsSane(p: Problem)
    ensures Sane(p, Start(p.nodes))
  {
  }

  lemma SameMembers(services: seq<ServiceConfig>)
    ensures forall s :: s in InOrder(services) <==> s in services
    ensures multiset(InOrder(services)) == multiset(services)
  {
    SortPermutes(ServiceBefore, services);
    SameElements(InOrder(services), services);
  }

  lemma SortedNamesDiffer(services: seq<ServiceConfig>)
    requires DistinctNames(services)
    ensures DistinctNames(InOrder(services))
  {
    var ordered := InOrder(services);
    SameMembers(services);
    ServiceOrderIsStrict(services);
    SortSorts(ServiceBefore, services);
    forall i, j | 0 <= i < j < |ordered| ensures ordered[i].name != ordered[j].name {
      assert ServiceBefore(ordered[i], ordered[j]);
      LessIsTotal(ordered[i].name, ordered[j].name);
      assert ordered[i] in services && ordered[j] in services;
    }
  }

  /** Capacity and binding: no node is given more vCPU, memory or local bytes than it has
      (retained reservations included), and a service whose local volumes are retained on
      a node goes to that node only. */
  lemma PlacementsRespectNodes(p: Problem, services: seq<ServiceConfig>)
    ensures var placed := Schedule(p, services).placed;
            && (forall id :: id in placed <==> Active(p.nodes, id))
            && ComesFrom(p, placed, services)
            && forall n :: n in p.nodes && placed[n.instanceId] != [] ==> WithinNode(p.res, placed[n.instanceId], n)
  {
    StartIsSane(p);
    RunKeepsSane(p, Start(p.nodes), InOrder(services));
    SameMembers(services);
    RunComesFrom(p, Start(p.nodes), InOrder(services), services);
    assert forall n :: n in p.nodes ==> OnNode(p, Final(p, services), n);
  }

  // ------------------------------------------------------------------ partition

  function Names(services: seq<ServiceConfig>): seq<string> {
    Images((s: ServiceConfig) => s.name, services)
  }

  function PendingNames(pending: seq<Pending>): seq<string> {
    Images((x: Pending) => x.service, pending)
  }

  /** Every placed name with its multiplicity, node by node. */
  function PlacedNames(nodes: seq<Node>, placed: Placement): multiset<string> {
    if nodes == [] then multiset{}
    else (if nodes[0].instanceId in placed then multiset(Names(placed[nodes[0].instanceId])) else multiset{})
         + PlacedNames(nodes[1..], placed)
  }

  lemma {:induction false} PlacedNamesElsewhere(nodes: seq<Node>, placed: Placement, id: string,
                                                list: seq<ServiceConfig>)
    requires forall n :: n in nodes ==> n.instanceId != id
    ensures PlacedNames(nodes, placed[id := list]) == PlacedNames(nodes, placed)
  {
    if nodes != [] {
      PlacedNamesElsewhere(nodes[1..], placed, id, list);
    }
  }

  lemma {:induction false} PlacedNamesGrow(nodes: seq<Node>, placed: Placement, n: Node, c: ServiceConfig)
    requires ValidNodes(nodes) && n in nodes && n.instanceId in placed
    ensures PlacedNames(nodes, placed[n.instanceId := placed[n.instanceId] + [c]]) ==
            PlacedNames(nodes, placed) + multiset{c.name}
  {
    var id := n.instanceId;
    if nodes[0] == n {
      assert Names(placed[id] + [c]) == Names(placed[id]) + [c.name];
      forall m | m in nodes[1..] ensures m.instanceId != id {
        var j :| 0 <= j < |nodes[1..]| && nodes[1..][j] == m;
        assert nodes[j + 1] == m;
      }
      PlacedNamesElsewhere(nodes[1..], placed, id, placed[id] + [c]);
    } else {
      PlacedNamesGrow(nodes[1..], placed, n, c);
      var j :| 0 <= j < |nodes| && nodes[j] == n;
      assert nodes[0].instanceId != id;
    }
  }

  function Accounted(p: Problem, l: Ledger): multiset<string> {
    PlacedNames(p.nodes, l.placed) + multiset(PendingNames(l.pending))
  }

  lemma EnterAccounts(p: Problem, l: Ledger, s: ServiceConfig, d: Decision)
    requires Sane(p, l) && Sound(p, l, s, d)
    ensures Accounted(p, Enter(l, s, d)) == Accounted(p, l) + multiset{s.name}
  {
    match d
    case Wait(reason) =>
      assert PendingNames(Enter(l, s, d).pending) == PendingNames(l.pending) + [s.name];
    case Go(n, fit) =>
      assert OnNode(p, l, n);
      PlacedNamesGrow(p.nodes, l.placed, n, fit.candidate);
  }

  lemma RunAccounts(p: Problem, l: Ledger, services: seq<ServiceConfig>)
    requires Sane(p, l)
    ensures Accounted(p, p.Run(l, services)) == Accounted(p, l) + multiset(Names(services))
  {
    var total := Accounted(p, l) + multiset(Names(services));
    var inv := (l': Ledger, rest: seq<ServiceConfig>) => Sane(p, l')
      && Accounted(p, l') + multiset(Names(rest)) == total;
    forall l', rest: seq<ServiceConfig> | rest != [] && inv(l', rest) ensures inv(p.Step()(l', rest[0]), rest[1..]) {
      DecideIsSound(p, l', rest[0]);
      EnterKeepsSane(p, l', rest[0], p.Decide(l', rest[0]));
      EnterAccounts(p, l', rest[0], p.Decide(l', rest[0]));
      assert Names(rest) == [rest[0].name] + Names(rest[1..]);
    }
    FoldKeeps(p.Step(), inv, l, services);
    assert Names([]) == [];
  }

  lemma {:induction false} NoNamesAtStart(nodes: seq<Node>, placed: Placement)
    requires forall id :: id in placed ==> placed[id] == []
    ensures PlacedNames(nodes, placed) == multiset{}
  {
    if nodes != [] {
      NoNamesAtStart(nodes[1..], placed);
    }
  }

  /** Every service is placed or pending exactly once: nothing is lost or duplicated. */
  lemma EveryServiceOnce(p: Problem, services: seq<ServiceConfig>)
    ensures var out := Schedule(p, services);
            PlacedNames(p.nodes, out.placed) + multiset(PendingNames(out.pending)) == multiset(Names(services))
  {
    StartIsSane(p);
    RunAccounts(p, Start(p.nodes), InOrder(services));
    NoNamesAtStart(p.nodes, Start(p.nodes).placed);
    SameMembers(services);
    BagOfImages((s: ServiceConfig) => s.name, InOrder(services), services);
    SortPermutes(PendingBefore, Final(p, services).pending);
    BagOfImages((x: Pending) => x.service, SortBy(PendingBefore, Final(p, services).pending),
                Final(p, services).pending);
  }
}
