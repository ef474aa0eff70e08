/** Bin-packing placement with retained-volume constraints. The functions say what a
    pass decides; the method follows the loops, maps and sorts that decide it. */
module Scheduler {
  import opened Types
  import opened Ordering
  import opened StorageFit

  datatype Reason =
    | BindingConflict
    | SharedUnavailable
    | NodeUnavailable(bound: string)
    | InsufficientCompute
    | VolumeCapacity

  datatype Pending = Pending(service: string, reason: Reason)

  /** What one pass has decided and used so far. */
  datatype Ledger = Ledger(
    placed: map<string, seq<ServiceConfig>>,
    vcpu: map<string, int>, mem: map<string, int>,
    local: map<string, int>, shared: map<string, int>,
    groups: map<string, set<string>>, pending: seq<Pending>)

  predicate Active(nodes: seq<Node>, id: string) {
    exists n :: n in nodes && n.instanceId == id
  }

  function Start(nodes: seq<Node>): Ledger {
    Ledger(map n | n in nodes :: n.instanceId := [], map[], map[], map[], map[],
           map n | n in nodes :: n.instanceId := {}, [])
  }

  // ------------------------------------------------------------ candidate choice

  /** One service looking for a node: `bound` is "" when no volume fixes the node. */
  datatype Query = Query(service: ServiceConfig, bound: string, preferred: string, ledger: Ledger, res: Reservations)
  {
    predicate Conflict(n: Node) {
      && service.antiAffinityGroup != ""
      && n.instanceId in ledger.groups
      && service.antiAffinityGroup in ledger.groups[n.instanceId]
    }

    function Free(n: Node): int {
      n.capacityVCPUs - Lookup(ledger.vcpu, n.instanceId)
    }

    /** The candidate order: no group conflict, then preferred, then most free vCPU, then ID. */
    predicate Before(a: Node, b: Node) {
      if Conflict(a) != Conflict(b) then !Conflict(a)
      else if (a.instanceId == preferred) != (b.instanceId == preferred) then a.instanceId == preferred
      else if Free(a) != Free(b) then Free(a) > Free(b)
      else Less(a.instanceId, b.instanceId)
    }

    predicate FitsCompute(n: Node) {
      && Lookup(ledger.vcpu, n.instanceId) + service.vcpus <= n.capacityVCPUs
      && Lookup(ledger.mem, n.instanceId) + service.memoryMB <= n.capacityMemMB
    }

    function Fitting(n: Node): Option<Fit> {
      FitStorage(service, n, res, ledger.local, ledger.shared)
    }

    predicate Feasible(n: Node) {
      && (bound == "" || n.instanceId == bound)
      && FitsCompute(n)
      && Fitting(n).Some?
    }

    /** `choice` is the first feasible node in the candidate order, if any is feasible. */
    ghost predicate IsBest(nodes: seq<Node>, choice: Option<Node>) {
      match choice
      case None => forall m :: m in nodes ==> !Feasible(m)
      case Some(n) => n in nodes && Feasible(n) && forall m :: m in nodes && Feasible(m) && m != n ==> Before(n, m)
    }
  }

  lemma BeforeIsStrict(q: Query, nodes: seq<Node>)
    requires ValidNodes(nodes)
    ensures StrictOn((a: Node, b: Node) => q.Before(a, b), nodes)
  {
    forall x, y | x in nodes && y in nodes ensures !(q.Before(x, y) && q.Before(y, x)) {
      LessIsTotal(x.instanceId, y.instanceId);
    }
    forall x, y, z | x in nodes && y in nodes && z in nodes && q.Before(x, y) && q.Before(y, z) ensures q.Before(x, z) {
      if Less(x.instanceId, y.instanceId) && Less(y.instanceId, z.instanceId) {
        LessIsTransitive(x.instanceId, y.instanceId, z.instanceId);
      }
    }
    forall i, j | 0 <= i < j < |nodes| ensures q.Before(nodes[i], nodes[j]) || q.Before(nodes[j], nodes[i]) {
      LessIsTotal(nodes[i].instanceId, nodes[j].instanceId);
    }
  }

  lemma BetterOfTwo(q: Query, nodes: seq<Node>, rest: Option<Node>)
    requires ValidNodes(nodes) && nodes != [] && q.IsBest(nodes[1..], rest)
    ensures var first := q.Feasible(nodes[0]) && (rest.None? || q.Before(nodes[0], rest.value));
            q.IsBest(nodes, if first then Some(nodes[0]) else rest)
  {
    assert forall m :: m in nodes <==> m == nodes[0] || m in nodes[1..];
    if rest.Some? {
      BeforeIsStrict(q, nodes);
      var j :| 0 < j < |nodes| && nodes[j] == rest.value;
      assert q.Before(nodes[0], nodes[j]) || q.Before(nodes[j], nodes[0]);
    }
  }

  function Best(q: Query, nodes: seq<Node>): (choice: Option<Node>)
    requires ValidNodes(nodes)
    ensures q.IsBest(nodes, choice)
  {
    if nodes == [] then None
    else
      var rest := Best(q, nodes[1..]);
      BetterOfTwo(q, nodes, rest);
      if q.Feasible(nodes[0]) && (rest.None? || q.Before(nodes[0], rest.value)) then Some(nodes[0]) else rest
  }

  /** The choice depends on which nodes there are, not on the order they are listed in. */
  lemma BestIgnoresNodeOrder(q: Query, nodes: seq<Node>, nodes': seq<Node>, a: Option<Node>, b: Option<Node>)
    requires ValidNodes(nodes) && multiset(nodes) == multiset(nodes')
    requires q.IsBest(nodes, a) && q.IsBest(nodes', b)
    ensures a == b
  {
    BeforeIsStrict(q, nodes);
    SameElements(nodes, nodes');
  }

  // --------------------------------------------------------------- one pass

  datatype Decision = Go(node: Node, fit: Fit) | Wait(reason: Reason)

  /** The bookkeeping that follows a decision. */
  function Enter(l: Ledger, s: ServiceConfig, d: Decision): Ledger {
    match d
    case Wait(reason) => l.(pending := l.pending + [Pending(s.name, reason)])
    case Go(n, fit) =>
      var id := n.instanceId;
      Ledger(
        l.placed[id := (if id in l.placed then l.placed[id] else []) + [fit.candidate]],
        l.vcpu[id := Lookup(l.vcpu, id) + s.vcpus],
        l.mem[id := Lookup(l.mem, id) + s.memoryMB],
        l.local[id := Lookup(l.local, id) + fit.localDelta],
        if n.sharedBackendId != ""
          then l.shared[n.sharedBackendId := Lookup(l.shared, n.sharedBackendId) + fit.sharedDelta] else l.shared,
        if s.antiAffinityGroup != ""
          then l.groups[id := (if id in l.groups then l.groups[id] else {}) + {s.antiAffinityGroup}]
          else l.groups,
        l.pending)
  }

  datatype Problem = Problem(nodes: NodeList, existing: map<string, string>, res: Reservations)
  {
    function Ask(l: Ledger, service: ServiceConfig): Query {
      var bound := match LocalBinding(service) case BoundTo(n) => n case _ => "";
      var preferred := if bound != "" then bound else if service.name in existing then existing[service.name] else "";
      Query(service, bound, preferred, l, res)
    }

    /** Why a service is refused before any node is looked at. */
    function Barred(service: ServiceConfig): Option<Reason> {
      var binding := LocalBinding(service);
      if binding.Split? then Some(BindingConflict)
      else if HasShared(service) && !res.sharedEnabled then Some(SharedUnavailable)
      else if binding.BoundTo? && !Active(nodes, binding.node) then Some(NodeUnavailable(binding.node))
      else None
    }

    function Decide(l: Ledger, service: ServiceConfig): Decision {
      match Barred(service)
      case Some(reason) => Wait(reason)
      case None =>
        match Best(Ask(l, service), nodes)
        case None => Wait(NoRoom(service))
        case Some(n) => Go(n, Ask(l, service).Fitting(n).value)
    }

    function Step(): (Ledger, ServiceConfig) -> Ledger {
      (l: Ledger, service: ServiceConfig) => Enter(l, service, Decide(l, service))
    }

    function Run(l: Ledger, services: seq<ServiceConfig>): Ledger {
      Fold(Step(), l, services)
    }
  }

  function NoRoom(service: ServiceConfig): Reason {
    if |service.volumes| > 0 then VolumeCapacity else InsufficientCompute
  }

  function Fold<L, S>(step: (L, S) -> L, l: L, items: seq<S>): L
    decreases |items|
  {
    if items == [] then l else Fold(step, step(l, items[0]), items[1..])
  }

  /** Biggest first, then by name. */
  predicate ServiceBefore(a: ServiceConfig, b: ServiceConfig) {
    if a.vcpus != b.vcpus then a.vcpus > b.vcpus else Less(a.name, b.name)
  }

  predicate PendingBefore(a: Pending, b: Pending) {
    Less(a.service, b.service)
  }

  function InOrder(services: seq<ServiceConfig>): seq<ServiceConfig> {
    SortBy(ServiceBefore, services)
  }

  function Final(p: Problem, services: seq<ServiceConfig>): Ledger {
    p.Run(Start(p.nodes), InOrder(services))
  }

  datatype Outcome = Outcome(placed: map<string, seq<ServiceConfig>>, pending: seq<Pending>)

  function Schedule(p: Problem, services: seq<ServiceConfig>): Outcome {
    Outcome(Final(p, services).placed, SortBy(PendingBefore, Final(p, services).pending))
  }

  lemma {:induction false} FoldAppend<L, S>(step: (L, S) -> L, l: L, xs: seq<S>, ys: seq<S>)
    ensures Fold(step, l, xs + ys) == Fold(step, Fold(step, l, xs), ys)
    decreases |xs|
  {
    if xs == [] {
      assert xs + ys == ys;
    } else {
      assert (xs + ys)[0] == xs[0] && (xs + ys)[1..] == xs[1..] + ys;
      FoldAppend(step, step(l, xs[0]), xs[1..], ys);
    }
  }

  /** An invariant that every step hands on holds at the end. */
  lemma {:induction false} FoldKeeps<L(!new), S(!new)>(step: (L, S) -> L, inv: (L, seq<S>) -> bool, l: L, items: seq<S>)
    requires inv(l, items)
    requires forall l', rest :: rest != [] && inv(l', rest) ==> inv(step(l', rest[0]), rest[1..])
    ensures inv(Fold(step, l, items), [])
    decreases |items|
  {
    if items != [] {
      FoldKeeps(step, inv, step(l, items[0]), items[1..]);
    }
  }

  lemma FirstFitIsBest(q: Query, nodes: seq<Node>, candidates: seq<Node>, i: nat)
    requires ValidNodes(nodes) && candidates == SortBy((a: Node, b: Node) => q.Before(a, b), nodes)
    requires i <= |candidates| && forall j :: 0 <= j < i ==> !q.Feasible(candidates[j])
    requires i < |candidates| ==> q.Feasible(candidates[i])
    ensures q.IsBest(nodes, if i < |candidates| then Some(candidates[i]) else None)
  {
    var before := (a: Node, b: Node) => q.Before(a, b);
    BeforeIsStrict(q, nodes);
    SortSorts(before, nodes);
    SameElements(nodes, candidates);
    forall m | m in nodes && q.Feasible(m)
      ensures i < |candidates| && (m == candidates[i] || q.Before(candidates[i], m))
    {
      assert m in candidates;
      var j :| 0 <= j < |candidates| && candidates[j] == m;
      assert i < j ==> before(candidates[i], candidates[j]);
    }
  }

  /** The candidate loop: sort a copy of the nodes and stop at the first that fits. */
  method FirstFit(q: Query, nodes: seq<Node>) returns (chosen: Option<Node>, fit: Fit)
    requires ValidNodes(nodes)
    ensures chosen == Best(q, nodes)
    ensures chosen.Some? ==> q.Fitting(chosen.value) == Some(fit)
  {
    var candidates := SortBy((a: Node, b: Node) => q.Before(a, b), nodes);
    fit := Fit(q.service, 0, 0);
    chosen := None;
    var i := 0;
    while i < |candidates|
      invariant 0 <= i <= |candidates|
      invariant forall j :: 0 <= j < i ==> !q.Feasible(candidates[j])
    {
      var node := candidates[i];
      if !(q.bound != "" && node.instanceId != q.bound) && q.FitsCompute(node) {
        var found := FitStorageLoop(q.service, node, q.res, q.ledger.local, q.ledger.shared);
        if found.Some? {
          chosen, fit := Some(node), found.value;
          break;
        }
      }
      i := i + 1;
    }
    FirstFitIsBest(q, nodes, candidates, i);
    BestIgnoresNodeOrder(q, nodes, nodes, chosen, Best(q, nodes));
  }

  /** The bookkeeping after a node was chosen. */
  method Charge(q: Query, node: Node, fit: Fit) returns (l': Ledger)
    ensures l' == Enter(q.ledger, q.service, Go(node, fit))
  {
    l' := q.ledger;
    var service, id, backend := q.service, node.instanceId, node.sharedBackendId;
    l' := l'.(local := l'.local[id := Lookup(l'.local, id) + fit.localDelta]);
    if backend != "" {
      l' := l'.(shared := l'.shared[backend := Lookup(l'.shared, backend) + fit.sharedDelta]);
    }
    l' := l'.(placed := l'.placed[id := (if id in l'.placed then l'.placed[id] else []) + [fit.candidate]]);
    l' := l'.(vcpu := l'.vcpu[id := Lookup(l'.vcpu, id) + service.vcpus]);
    l' := l'.(mem := l'.mem[id := Lookup(l'.mem, id) + service.memoryMB]);
    if service.antiAffinityGroup != "" {
      l' := l'.(groups :=
                l'.groups[id := (if id in l'.groups then l'.groups[id] else {}) + {service.antiAffinityGroup}]);
    }
  }

  /** The body of the placement loop for one service. */
  method PlaceService(l: Ledger, service: ServiceConfig, p: Problem) returns (l': Ledger)
    ensures l' == p.Step()(l, service)
  {
    l' := l;
    var binding := LocalBinding(service);
    if binding.Split? {
      l' := l'.(pending := l'.pending + [Pending(service.name, BindingConflict)]);
      return;
    }
    if HasShared(service) && !p.res.sharedEnabled {
      l' := l'.(pending := l'.pending + [Pending(service.name, SharedUnavailable)]);
      return;
    }
    var preferred := if service.name in p.existing then p.existing[service.name] else "";
    var bound := "";
    if binding.BoundTo? {
      bound := binding.node;
      LocalBindingMeaning(service);
      preferred := bound;
      if !Active(p.nodes, bound) {
        l' := l'.(pending := l'.pending + [Pending(service.name, NodeUnavailable(bound))]);
        return;
      }
    }
    var q := Query(service, bound, preferred, l, p.res);
    var chosen, fit := FirstFit(q, p.nodes);
    if chosen.None? {
      l' := l'.(pending := l'.pending + [Pending(service.name, NoRoom(service))]);
      return;
    }
    l' := Charge(q, chosen.value, fit);
  }

  /** ScheduleWithStorage: sorts the services, and for each one sorts the candidate nodes
      and takes the first that fits. It decides what `Schedule` says, so taking the first
      fit of a sorted list is the same as taking the least feasible node. */
  method ScheduleWithStorage(services: seq<ServiceConfig>, nodes: seq<Node>, existing: map<string, string>,
                             res: Reservations)
    returns (result: map<string, seq<ServiceConfig>>, pending: seq<Pending>)
    requires ValidNodes(nodes)
    ensures Outcome(result, pending) == Schedule(Problem(nodes, existing, res), services)
  {
    var p := Problem(nodes, existing, res);
    var ordered := SortBy(ServiceBefore, services);
    var l := Start(nodes);
    var k := 0;
    while k < |ordered|
      invariant 0 <= k <= |ordered|
      invariant l == p.Run(Start(nodes), ordered[..k])
    {
      assert ordered[..k + 1] == ordered[..k] + [ordered[k]];
      FoldAppend(p.Step(), Start(nodes), ordered[..k], [ordered[k]]);
      assert Fold(p.Step(), l, [ordered[k]]) == p.Step()(l, ordered[k]);
      l := PlaceService(l, ordered[k], p);
      k := k + 1;
    }
    assert ordered[..k] == ordered;
    return l.placed, SortBy(PendingBefore, l.pending);
  }
}
