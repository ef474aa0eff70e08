/** Once a pass has been published and its new volumes recorded, the next pass on the same
    nodes decides the same thing. */
module SchedulerFixpoint {
  import opened Types
  import opened Ordering
  import opened StorageFit
  import opened Scheduler
  import opened SchedulerProperties
  import opened SchedulerStability

  /** `s2` is what the next pass is given for `s`: the placed form, or `s` unchanged. */
  ghost predicate SettledOne(s: ServiceConfig, s2: ServiceConfig, placed: Placement) {
    && (forall id, c :: PlacedAt(placed, id, c) && c.name == s.name ==> s2 == c)
    && ((forall id, c :: PlacedAt(placed, id, c) ==> c.name != s.name) ==> s2 == s)
  }

  ghost predicate Settled(xs: seq<ServiceConfig>, ys: seq<ServiceConfig>, placed: Placement) {
    |xs| == |ys| && forall i :: 0 <= i < |xs| ==> SettledOne(xs[i], ys[i], placed)
  }

  /** The published placement is what the next pass reads as the existing assignment. */
  ghost predicate Remembered(existing: map<string, string>, placed: Placement) {
    forall id, c :: PlacedAt(placed, id, c) ==> c.name in existing && existing[c.name] == id
  }

  ghost predicate PlacedVolume(placed: Placement, v: VolumeId) {
    exists id, c, w :: PlacedAt(placed, id, c) && w in c.volumes && v == VolumeId(c.name, w.name)
  }

  /** `after` reserves what `before` did plus exactly the newly placed, unrecorded volumes. */
  ghost predicate RecordedAfter(before: Reservations, after: Reservations, placed: Placement, nodes: seq<Node>) {
    && !after.sharedEnabled
    && (forall v :: v in after.recorded <==> v in before.recorded || PlacedVolume(placed, v))
    && (forall n :: n in nodes && n.instanceId in placed ==>
          Lookup(after.localByNode, n.instanceId) ==
            Lookup(before.localByNode, n.instanceId) + NewLocal(placed[n.instanceId], before.recorded))
  }

  // -------------------------------------------------------------- bound services

  lemma {:induction false} BindAgain(volumes: seq<VolumeConfig>, n: Node)
    requires Bind(volumes, n).Some?
    ensures Bind(Bind(volumes, n).value, n) == Bind(volumes, n)
  {
    if volumes != [] {
      BindAgain(volumes[1..], n);
      var v, rest := BindOne(volumes[0], n).value, Bind(volumes[1..], n).value;
      assert ([v] + rest)[1..] == rest;
    }
  }

  /** Binding keeps names and types and is idempotent. */
  lemma BoundVolumes(s: ServiceConfig, c: ServiceConfig, n: Node)
    requires BoundVersion(s, c, n)
    ensures |c.volumes| == |s.volumes|
    ensures forall i :: 0 <= i < |s.volumes| ==>
              c.volumes[i].name == s.volumes[i].name && c.volumes[i].vtype == s.volumes[i].vtype
    ensures forall v :: v in c.volumes && v.vtype == Local ==> v.boundNode == n.instanceId
    ensures Bind(c.volumes, n) == Some(c.volumes)
    ensures HasShared(c) <==> HasShared(s)
    ensures HasLocal(c) <==> HasLocal(s)
  {
    BindAgain(s.volumes, n);
    BoundOneByOne(s.volumes, c.volumes, n);
    SameTypes(s, c, Shared);
    SameTypes(s, c, Local);
  }

  lemma BoundOneByOne(vs: seq<VolumeConfig>, us: seq<VolumeConfig>, n: Node)
    requires Bind(vs, n) == Some(us)
    ensures |us| == |vs|
    ensures forall i :: 0 <= i < |vs| ==> us[i].name == vs[i].name && us[i].vtype == vs[i].vtype
    ensures forall u :: u in us && u.vtype == Local ==> u.boundNode == n.instanceId
  {
    BindMeaning(vs, n);
    forall i | 0 <= i < |vs|
      ensures us[i].name == vs[i].name && us[i].vtype == vs[i].vtype
      ensures (us[i].vtype == Local ==> us[i].boundNode == n.instanceId)
    {
      assert us[i] == BindOne(vs[i], n).value;
    }
  }

  lemma SameTypes(s: ServiceConfig, c: ServiceConfig, vtype: VolumeType)
    requires |c.volumes| == |s.volumes| && forall i :: 0 <= i < |s.volumes| ==> c.volumes[i].vtype == s.volumes[i].vtype
    ensures (exists v :: v in c.volumes && v.vtype == vtype) <==> (exists v :: v in s.volumes && v.vtype == vtype)
  {
    if v :| v in c.volumes && v.vtype == vtype {
      var i :| 0 <= i < |c.volumes| && c.volumes[i] == v;
      assert s.volumes[i] in s.volumes;
    }
    if v :| v in s.volumes && v.vtype == vtype {
      var i :| 0 <= i < |s.volumes| && s.volumes[i] == v;
      assert c.volumes[i] in c.volumes;
    }
  }

  /** A placed service is bound to its node exactly when it has a local volume. */
  lemma BoundForm(s: ServiceConfig, c: ServiceConfig, n: Node)
    requires BoundVersion(s, c, n) && n.instanceId != ""
    ensures LocalBinding(c) == if HasLocal(s) then BoundTo(n.instanceId) else Unbound
    ensures !HasLocal(s) ==> LocalBinding(s) == Unbound
  {
    BoundVolumes(s, c, n);
    LocalBindingMeaning(c);
    LocalBindingMeaning(s);
    assert IsBinding(c, if HasLocal(s) then BoundTo(n.instanceId) else Unbound);
    assert !HasLocal(s) ==> IsBinding(s, Unbound);
  }

  ghost predicate HasLocal(s: ServiceConfig) {
    exists v :: v in s.volumes && v.vtype == Local
  }

  /** Without local or shared volumes, binding and byte counts say nothing. */
  lemma NoVolumesToBind(s: ServiceConfig, n: Node, recorded: set<VolumeId>)
    requires !HasLocal(s) && !HasShared(s)
    ensures Bind(s.volumes, n).Some?
    ensures NewBytes(s.name, s.volumes, Local, recorded) == 0
  {
    BindMeaning(s.volumes, n);
    NoSuchVolumes(s.name, s.volumes, Local, recorded);
  }

  // --------------------------------------------------------------- the replay

  /** The two ledgers agree on everything but the bytes newly reserved. */
  ghost predicate Agree(l: Ledger, l2: Ledger) {
    && l.placed == l2.placed && l.vcpu == l2.vcpu && l.mem == l2.mem
    && l.groups == l2.groups && l.pending == l2.pending
    && forall id :: Lookup(l2.local, id) == 0
  }

  /** The second pass `p2` follows a first pass `p` that ended in `fin`. */
  ghost predicate Follows(p: Problem, p2: Problem, fin: Ledger) {
    && !p.res.sharedEnabled && p2.nodes == p.nodes
    && Sane(p, fin)
    && Remembered(p2.existing, fin.placed)
    && RecordedAfter(p.res, p2.res, fin.placed, p.nodes)
  }

  lemma {:induction false} SameNewBytes(p: Problem, p2: Problem, fin: Ledger, s: ServiceConfig,
                                        volumes: seq<VolumeConfig>, vtype: VolumeType)
    requires Follows(p, p2, fin)
    requires forall id, c :: PlacedAt(fin.placed, id, c) ==> c.name != s.name
    ensures NewBytes(s.name, volumes, vtype, p2.res.recorded) == NewBytes(s.name, volumes, vtype, p.res.recorded)
    decreases |volumes|
  {
    if volumes != [] {
      SameNewBytes(p, p2, fin, s, volumes[1..], vtype);
    }
  }

  /** A service that found no room does not find room in the second pass either. */
  lemma StillNoRoom(p: Problem, p2: Problem, fin: Ledger, l: Ledger, l2: Ledger, s: ServiceConfig, reason: Reason)
    requires Follows(p, p2, fin) && Sane(p, l) && Agree(l, l2) && Grows(l, fin)
    requires p.Decide(l, s) == Wait(reason)
    requires forall id, c :: PlacedAt(fin.placed, id, c) ==> c.name != s.name
    ensures p2.Decide(l2, s) == Wait(reason)
  {
    assert p.Barred(s) == p2.Barred(s);
    if p.Barred(s).None? {
      forall n | n in p.nodes ensures !p2.Ask(l2, s).Feasible(n) {
        FeasibleIsRoom(p, l, s, n);
        FeasibleIsRoom(p2, l2, s, n);
        SameNewBytes(p, p2, fin, s, s.volumes, Local);
        var id := n.instanceId;
        assert OnNode(p, fin, n);
        assert Lookup(l.local, id) <= Lookup(fin.local, id);
      }
    }
  }

  lemma RivalWasFeasible(p: Problem, p2: Problem, fin: Ledger, l: Ledger, l2: Ledger, s: ServiceConfig,
                         c: ServiceConfig, m: Node)
    requires Follows(p, p2, fin) && Agree(l, l2) && Grows(l, fin)
    requires p.Barred(s).None? && p2.Barred(c).None? && m in p.nodes
    requires c == s.(volumes := c.volumes) && !HasLocal(s) && !HasShared(s) && !HasLocal(c) && !HasShared(c)
    requires LocalBinding(s).Unbound? && p2.Ask(l2, c).Feasible(m)
    ensures p.Ask(l, s).Feasible(m)
  {
    FeasibleIsRoom(p, l, s, m);
    FeasibleIsRoom(p2, l2, c, m);
    NoVolumesToBind(s, m, p.res.recorded);
    NoVolumesToBind(c, m, p2.res.recorded);
    assert OnNode(p, fin, m);
    assert Lookup(l.local, m.instanceId) <= Lookup(fin.local, m.instanceId);
  }

  /** A node that beat the others in the first pass beats them in the second, where it is
      the preferred (or bound) node and every other node has at most as much room. */
  lemma StillBest(p: Problem, p2: Problem, fin: Ledger, l: Ledger, l2: Ledger, s: ServiceConfig, n: Node, fit: Fit)
    requires Follows(p, p2, fin) && Sane(p, l) && Agree(l, l2) && Grows(l, fin)
    requires p.Decide(l, s) == Go(n, fit)
    requires PlacedAt(fin.placed, n.instanceId, fit.candidate)
    ensures p2.Decide(l2, fit.candidate) == Go(n, Fit(fit.candidate, 0, 0))
  {
    var c, id := fit.candidate, n.instanceId;
    DecideIsSound(p, l, s);
    BoundVolumes(s, c, n);
    BoundForm(s, c, n);
    var q, q2 := p.Ask(l, s), p2.Ask(l2, c);
    assert p.Barred(s).None? && p2.Barred(c).None?;
    assert q2.preferred == id;
    SecondFit(p, p2, fin, l, l2, s, n, fit);
    FeasibleIsRoom(p2, l2, c, n);
    forall m | m in p2.nodes && q2.Feasible(m) && m != n ensures q2.Before(n, m) {
      assert m.instanceId != id;
      if !HasLocal(s) {
        RivalWasFeasible(p, p2, fin, l, l2, s, c, m);
        assert q.Before(n, m);
      }
    }
    BestIgnoresNodeOrder(q2, p2.nodes, p2.nodes, Best(q2, p2.nodes), Some(n));
  }

  /** In the second pass all volumes of a placed service are recorded, so it asks for no new
      bytes, and its node still holds what the first pass put there. */
  lemma SecondFit(p: Problem, p2: Problem, fin: Ledger, l: Ledger, l2: Ledger, s: ServiceConfig, n: Node, fit: Fit)
    requires Follows(p, p2, fin) && Agree(l, l2) && n in p.nodes
    requires Sound(p, l, s, Go(n, fit)) && PlacedAt(fin.placed, n.instanceId, fit.candidate)
    requires !HasShared(s)
    ensures RoomNow(p2, l2, fit.candidate, n)
    ensures p2.Ask(l2, fit.candidate).Fitting(n) == Some(Fit(fit.candidate, 0, 0))
  {
    var c := fit.candidate;
    BoundVolumes(s, c, n);
    BoundForm(s, c, n);
    forall v | v in c.volumes ensures VolumeId(c.name, v.name) in p2.res.recorded {
      assert PlacedVolume(fin.placed, VolumeId(c.name, v.name));
    }
    NoSuchVolumes(c.name, c.volumes, Local, p2.res.recorded);
    NoSuchVolumes(c.name, c.volumes, Shared, p2.res.recorded);
    assert OnNode(p, fin, n);
  }

  ghost predicate Tracks(p: Problem, p2: Problem, fin: Ledger, l: Ledger, l2: Ledger, rest: seq<ServiceConfig>,
                         rest2: seq<ServiceConfig>) {
    && Sane(p, l) && NonNegative(rest) && DistinctNames(rest)
    && fin == p.Run(l, rest)
    && NamesApart(l.placed, rest)
    && Agree(l, l2)
    && Settled(rest, rest2, fin.placed)
  }

  lemma EnterAgrees(l: Ledger, l2: Ledger, s: ServiceConfig, s2: ServiceConfig, d: Decision, d2: Decision)
    requires Agree(l, l2) && s2.name == s.name && s2.vcpus == s.vcpus && s2.memoryMB == s.memoryMB
    requires s2.antiAffinityGroup == s.antiAffinityGroup
    requires d.Wait? ==> d2 == d
    requires d.Go? ==> d2.Go? && d2.node == d.node && d2.fit.candidate == d.fit.candidate && d2.fit.localDelta == 0
    ensures Agree(Enter(l, s, d), Enter(l2, s2, d2))
  {
    forall id ensures Lookup(Enter(l2, s2, d2).local, id) == 0 {
      assert Lookup(l2.local, id) == 0;
      assert d.Go? ==> Lookup(l2.local, d.node.instanceId) == 0;
    }
  }

  lemma NotPlacedLater(l': Ledger, fin: Ledger, s: ServiceConfig, tail: seq<ServiceConfig>)
    requires AddsOnly(l', fin, tail) && forall t :: t in tail ==> t.name != s.name
    requires forall id, c :: PlacedAt(l'.placed, id, c) ==> c.name != s.name
    ensures forall id, c :: PlacedAt(fin.placed, id, c) ==> c.name != s.name
  {
    forall id, c | PlacedAt(fin.placed, id, c) ensures c.name != s.name {
      if !PlacedAt(l'.placed, id, c) {
        var t :| t in tail && t.name == c.name;
      }
    }
  }

  /** Both passes take the same decision. */
  lemma SameDecision(p: Problem, p2: Problem, fin: Ledger, l: Ledger, l2: Ledger, s: ServiceConfig, s2: ServiceConfig,
                     d: Decision)
    requires Follows(p, p2, fin) && Sane(p, l) && Agree(l, l2) && Grows(l, fin)
    requires d == p.Decide(l, s) && SettledOne(s, s2, fin.placed)
    requires d.Go? ==>
               BoundVersion(s, d.fit.candidate, d.node) && PlacedAt(fin.placed, d.node.instanceId, d.fit.candidate)
    requires d.Wait? ==> forall id, c :: PlacedAt(fin.placed, id, c) ==> c.name != s.name
    ensures p2.Decide(l2, s2) == if d.Go? then Go(d.node, Fit(d.fit.candidate, 0, 0)) else d
    ensures s2 == if d.Go? then d.fit.candidate else s
  {
    match d
    case Wait(reason) => StillNoRoom(p, p2, fin, l, l2, s, reason);
    case Go(n, fit) => StillBest(p, p2, fin, l, l2, s, n, fit);
  }

  lemma RunUnfolds(p: Problem, l: Ledger, rest: seq<ServiceConfig>)
    requires rest != []
    ensures p.Run(l, rest) == p.Run(Enter(l, rest[0], p.Decide(l, rest[0])), rest[1..])
  {
  }

  ghost predicate NamesApart(placed: Placement, services: seq<ServiceConfig>) {
    forall id, c, s :: PlacedAt(placed, id, c) && s in services ==> c.name != s.name
  }

  /** Where one step of the first pass leads: what it adds is still there at the end, and a
      service it leaves pending is nowhere placed at the end. */
  lemma StepIsFinal(p: Problem, fin: Ledger, l: Ledger, rest: seq<ServiceConfig>) returns (d: Decision, l': Ledger)
    requires Sane(p, l) && NonNegative(rest) && DistinctNames(rest) && rest != [] && fin == p.Run(l, rest)
    requires NamesApart(l.placed, rest)
    ensures d == p.Decide(l, rest[0]) && l' == p.Step()(l, rest[0]) == Enter(l, rest[0], d)
    ensures Sane(p, l') && Grows(l, fin) && fin == p.Run(l', rest[1..])
    ensures d.Go? ==>
              BoundVersion(rest[0], d.fit.candidate, d.node) && PlacedAt(fin.placed, d.node.instanceId, d.fit.candidate)
    ensures d.Wait? ==> forall id, c :: PlacedAt(fin.placed, id, c) ==> c.name != rest[0].name
    ensures NamesApart(l'.placed, rest[1..])
  {
    var s, tail := rest[0], rest[1..];
    d, l' := StepGrows(p, l, s);
    RunUnfolds(p, l, rest);
    assert forall t :: t in tail ==> t in rest && t.name != s.name;
    assert forall id, c :: PlacedAt(l.placed, id, c) ==> c.name != s.name;
    StepEndsIn(p, l, s, d, l', fin, tail);
    StepKeepsApart(p, l, s, d, tail);
  }

  lemma StepKeepsApart(p: Problem, l: Ledger, s: ServiceConfig, d: Decision, tail: seq<ServiceConfig>)
    requires Sane(p, l) && Sound(p, l, s, d) && NamesApart(l.placed, tail) && forall t :: t in tail ==> t.name != s.name
    ensures NamesApart(Enter(l, s, d).placed, tail)
  {
    EnterPlaces(p, l, s, d);
  }

  lemma StepEndsIn(p: Problem, l: Ledger, s: ServiceConfig, d: Decision, l': Ledger, fin: Ledger,
                   tail: seq<ServiceConfig>)
    requires Sane(p, l) && Sound(p, l, s, d) && l' == Enter(l, s, d) && Sane(p, l') && Grows(l, l')
    requires NonNegative(tail) && fin == p.Run(l', tail)
    requires forall t :: t in tail ==> t.name != s.name
    requires forall id, c :: PlacedAt(l.placed, id, c) ==> c.name != s.name
    ensures Grows(l, fin)
    ensures d.Go? ==> PlacedAt(fin.placed, d.node.instanceId, d.fit.candidate)
    ensures d.Wait? ==> forall id, c :: PlacedAt(fin.placed, id, c) ==> c.name != s.name
  {
    RunGrows(p, l', tail);
    GrowsAcross(l, l', fin);
    EnterPlaces(p, l, s, d);
    if d.Go? {
      var id := d.node.instanceId;
      assert PlacedAt(l'.placed, id, d.fit.candidate);
      assert l'.placed[id] <= fin.placed[id];
    } else {
      NotPlacedLater(l', fin, s, tail);
    }
  }

  lemma ReplayStep(p: Problem, p2: Problem, fin: Ledger, l: Ledger, l2: Ledger, rest: seq<ServiceConfig>,
                   rest2: seq<ServiceConfig>)
    requires Follows(p, p2, fin) && Tracks(p, p2, fin, l, l2, rest, rest2) && rest != []
    ensures Tracks(p, p2, fin, p.Step()(l, rest[0]), p2.Step()(l2, rest2[0]), rest[1..], rest2[1..])
  {
    var d, l' := StepIsFinal(p, fin, l, rest);
    SameDecision(p, p2, fin, l, l2, rest[0], rest2[0], d);
    EnterAgrees(l, l2, rest[0], rest2[0], d, p2.Decide(l2, rest2[0]));
  }

  lemma GrowsAcross(a: Ledger, b: Ledger, c: Ledger)
    requires Grows(a, b) && Grows(b, c)
    ensures Grows(a, c)
  {
  }

  lemma {:induction false} Replay(p: Problem, p2: Problem, fin: Ledger, l: Ledger, l2: Ledger, rest: seq<ServiceConfig>,
                                  rest2: seq<ServiceConfig>)
    requires Follows(p, p2, fin) && Tracks(p, p2, fin, l, l2, rest, rest2)
    ensures Agree(fin, p2.Run(l2, rest2))
    decreases |rest|
  {
    if rest != [] {
      ReplayStep(p, p2, fin, l, l2, rest, rest2);
      Replay(p, p2, fin, p.Step()(l, rest[0]), p2.Step()(l2, rest2[0]), rest[1..], rest2[1..]);
    }
  }

  // ---------------------------------------------------- sorting the settled list

  ghost predicate Pairwise<T>(rel: (T, T) -> bool, xs: seq<T>, ys: seq<T>) {
    |xs| == |ys| && forall i :: 0 <= i < |xs| ==> rel(xs[i], ys[i])
  }

  lemma {:induction false} InsertPairs<T(!new)>(before: (T, T) -> bool, rel: (T, T) -> bool, x: T, y: T, xs: seq<T>,
                                                ys: seq<T>)
    requires forall a, b, a', b' :: rel(a, b) && rel(a', b') ==> before(a, a') == before(b, b')
    requires rel(x, y) && Pairwise(rel, xs, ys)
    ensures Pairwise(rel, Insert(before, x, xs), Insert(before, y, ys))
    decreases |xs|
  {
    if xs != [] && before(xs[0], x) {
      InsertPairs(before, rel, x, y, xs[1..], ys[1..]);
    }
  }

  lemma {:induction false} SortPairs<T(!new)>(before: (T, T) -> bool, rel: (T, T) -> bool, xs: seq<T>, ys: seq<T>)
    requires forall a, b, a', b' :: rel(a, b) && rel(a', b') ==> before(a, a') == before(b, b')
    requires Pairwise(rel, xs, ys)
    ensures Pairwise(rel, SortBy(before, xs), SortBy(before, ys))
    decreases |xs|
  {
    if xs != [] {
      SortPairs(before, rel, xs[1..], ys[1..]);
      InsertPairs(before, rel, xs[0], ys[0], SortBy(before, xs[1..]), SortBy(before, ys[1..]));
    }
  }

  /** The placed form of a service is bound from it, so it keeps the name and the size the
      services are ordered by. */
  lemma SettledKeepsKey(p: Problem, services: seq<ServiceConfig>, placed: Placement, s: ServiceConfig,
                        s2: ServiceConfig)
    requires DistinctNames(services) && s in services
    requires ComesFrom(p, placed, services) && forall id :: id in placed ==> Active(p.nodes, id)
    requires SettledOne(s, s2, placed)
    ensures s2.name == s.name && s2.vcpus == s.vcpus
  {
    if id, c :| PlacedAt(placed, id, c) && c.name == s.name {
      var n :| n in p.nodes && n.instanceId == id;
      var t :| t in services && BoundVersion(t, c, n);
      assert t == s;
    }
  }

  /** The fixpoint: feed a pass its own result (assignment, recorded volumes, bound
      services) on the same nodes and it returns that result: same placement, same
      pending list, same reasons. */
  lemma PassIsFixpoint(p: Problem, services: seq<ServiceConfig>, p2: Problem, services2: seq<ServiceConfig>)
    requires DistinctNames(services) && NonNegative(services) && !p.res.sharedEnabled
    requires p2.nodes == p.nodes
    requires Remembered(p2.existing, Schedule(p, services).placed)
    requires RecordedAfter(p.res, p2.res, Schedule(p, services).placed, p.nodes)
    requires Settled(services, services2, Schedule(p, services).placed)
    ensures Schedule(p2, services2) == Schedule(p, services)
  {
    var fin, ordered := Final(p, services), InOrder(services);
    var start := Start(p.nodes);
    StartIsSane(p);
    RunKeepsSane(p, start, ordered);
    PlacementsRespectNodes(p, services);
    SameMembers(services);
    SortedNamesDiffer(services);
    SettledInOrder(p, services, services2, fin.placed);
    Replay(p, p2, fin, start, start, ordered, InOrder(services2));
  }

  lemma SettledInOrder(p: Problem, services: seq<ServiceConfig>, services2: seq<ServiceConfig>, placed: Placement)
    requires DistinctNames(services) && Settled(services, services2, placed)
    requires ComesFrom(p, placed, services) && forall id :: id in placed ==> Active(p.nodes, id)
    ensures Settled(InOrder(services), InOrder(services2), placed)
  {
    var rel := (s: ServiceConfig, s2: ServiceConfig) => SettledOne(s, s2, placed) && s.name == s2.name
      && s.vcpus == s2.vcpus;
    forall i | 0 <= i < |services| ensures rel(services[i], services2[i]) {
      SettledKeepsKey(p, services, placed, services[i], services2[i]);
    }
    SortPairs(ServiceBefore, rel, services, services2);
  }
}
