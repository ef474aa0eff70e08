/** After one completed reconcile the next one, on the same desired services and nodes,
    decides the same thing and writes no record, whichever process runs it. */
module SecondPass {
  import opened Types
  import opened StorageFit
  import opened Scheduler
  import opened SchedulerProperties
  import opened SchedulerStability
  import opened SchedulerFixpoint
  import opened VolumeRecords
  import opened RecordBook
  import opened RetainedRecords
  import opened Admission
  import opened NodeConfigs
  import opened AdmissionBound

  /** `later` differs from `book` at most by acknowledgements that released no space: grown
      or newly created volumes that were applied, and failures. */
  ghost predicate Acknowledged(book: Book, later: Book) {
    && later.Keys == book.Keys
    && forall id :: id in book ==>
         && later[id].vtype == book[id].vtype && later[id].boundNode == book[id].boundNode
         && later[id].sharedBackendId == book[id].sharedBackendId
         && later[id].desired == book[id].desired && later[id].generation == book[id].generation
         && Reserve(later[id]) == Reserve(book[id])
  }

  /** An acknowledgement that does not apply a shrink keeps the record's claim. */
  lemma AcknowledgeKeepsClaim(book: Book, id: VolumeId, node: string, o: Observed)
    requires id in book && Acknowledge(book[id], node, o).Some?
    requires o.state.InPlace? ==> book[id].applied <= o.applied
    ensures Acknowledged(book, book[id := Acknowledge(book[id], node, o).value])
  {
  }

  lemma AcknowledgedReserves(book: Book, later: Book, node: string)
    requires Acknowledged(book, later)
    ensures LocalOn(later, node) == LocalOn(book, node)
  {
    var a := map id | id in book && HeldOn(book[id], node) :: Reserve(book[id]);
    var b := map id | id in later && HeldOn(later[id], node) :: Reserve(later[id]);
    assert a == b;
  }

  /** What the second resolve gives a volume: its placed form, or its first resolved form. */
  lemma CarriedAgain(service: string, v: VolumeConfig, v1: VolumeConfig, book: Book, book2: Book)
    requires Carried(service, v, v1, book)
    requires VolumeId(service, v.name) in book ==>
               VolumeId(service, v.name) in book2 && book2[VolumeId(service, v.name)] == book[VolumeId(service, v.name)]
    requires VolumeId(service, v.name) !in book ==> VolumeId(service, v.name) !in book2
    ensures Carried(service, v, v1, book2)
  {
  }

  lemma CarriedPlaced(service: string, v: VolumeConfig, v1: VolumeConfig, c: VolumeConfig, n: Node, book: Book,
                      book2: Book)
    requires Carried(service, v, v1, book) && BindOne(v1, n) == Some(c) && !c.vtype.Shared? && n.instanceId != ""
    requires var id := VolumeId(service, v.name);
             id in book2 && book2[id] == if id in book then book[id] else Created(id, c)
    ensures Carried(service, v, c, book2)
  {
  }

  lemma AcknowledgedCarries(service: string, v: VolumeConfig, v': VolumeConfig, book: Book, later: Book)
    requires Carried(service, v, v', book) && Acknowledged(book, later)
    ensures Carried(service, v, v', later)
  {
  }

  // ------------------------------------------------------- the services it is given

  ghost predicate NoShared(placed: Placement) {
    forall id, c :: PlacedAt(placed, id, c) ==> !HasShared(c)
  }

  lemma PlacedHaveNoShared(p: Problem, ss: seq<ServiceConfig>)
    requires !p.res.sharedEnabled
    ensures NoShared(Schedule(p, ss).placed)
  {
    var inv := (l: Ledger, rest: seq<ServiceConfig>) => Sane(p, l) && NoShared(l.placed);
    forall l, rest: seq<ServiceConfig> | rest != [] && inv(l, rest) ensures inv(p.Step()(l, rest[0]), rest[1..]) {
      var d := p.Decide(l, rest[0]);
      DecideIsSound(p, l, rest[0]);
      EnterKeepsSane(p, l, rest[0], d);
      EnterPlaces(p, l, rest[0], d);
      if d.Go? {
        BoundVolumes(rest[0], d.fit.candidate, d.node);
      }
    }
    StartIsSane(p);
    assert NoShared(Start(p.nodes).placed);
    FoldKeeps(p.Step(), inv, Start(p.nodes), InOrder(ss));
  }

  ghost predicate IsPlaced(placed: Placement, name: string) {
    exists id, c :: PlacedAt(placed, id, c) && c.name == name
  }

  ghost function NextForm(s: ServiceConfig, placed: Placement): (next: ServiceConfig)
    ensures IsPlaced(placed, s.name) ==> exists id :: PlacedAt(placed, id, next) && next.name == s.name
    ensures !IsPlaced(placed, s.name) ==> next == s
  {
    if IsPlaced(placed, s.name) then
      var id, c :| PlacedAt(placed, id, c) && c.name == s.name;
      c
    else s
  }

  lemma NextFormSettles(s: ServiceConfig, placed: Placement)
    requires PlacedApart(placed)
    ensures SettledOne(s, NextForm(s, placed), placed)
  {
    var next := NextForm(s, placed);
    forall id, c | PlacedAt(placed, id, c) && c.name == s.name ensures next == c {
      assert IsPlaced(placed, s.name);
      var id' :| PlacedAt(placed, id', next) && next.name == s.name;
      var i :| 0 <= i < |placed[id]| && placed[id][i] == c;
      var j :| 0 <= j < |placed[id']| && placed[id'][j] == next;
    }
    if !IsPlaced(placed, s.name) {
      assert forall id, c :: PlacedAt(placed, id, c) ==> c.name != s.name;
    }
  }

  // ------------------------------------------------------------------ one completed pass

  /** Everything a completed pass started from and produced. */
  datatype Done = Done(desired: seq<ServiceConfig>, resolved: seq<ServiceConfig>, book: Book, p: Problem,
                       configs: seq<NodeConfig>)
  {
    ghost predicate Valid() {
      && Enriched(desired) && Enriched(resolved) && CarriedServices(desired, resolved, book)
      && Counts(p.res, book) && IsNodeConfigs(configs, Placed())
    }

    ghost function Placed(): Placement {
      Schedule(p, resolved).placed
    }

    ghost function Final(): Book {
      RecordAll(configs, book)
    }

    ghost function Next(): seq<ServiceConfig> {
      seq(|resolved|, i requires 0 <= i < |resolved| => NextForm(resolved[i], Placed()))
    }
  }

  /** A placed service comes from the one service of its name. */
  lemma PlacedSource(p: Problem, ss: seq<ServiceConfig>, placed: Placement, s: ServiceConfig, id: string,
                     c: ServiceConfig) returns (n: Node)
    requires DistinctNames(ss) && s in ss && c.name == s.name && PlacedAt(placed, id, c)
    requires ComesFrom(p, placed, ss) && forall i :: i in placed ==> Active(p.nodes, i)
    ensures n in p.nodes && BoundVersion(s, c, n)
  {
    n :| n in p.nodes && n.instanceId == id;
    var t :| t in ss && BoundVersion(t, c, n);
    assert t == s;
  }

  lemma PlacedIsEveryone(configs: seq<NodeConfig>, placed: Placement, id: string, c: ServiceConfig)
    requires IsNodeConfigs(configs, placed) && PlacedAt(placed, id, c)
    ensures c in Everyone(configs)
  {
    assert NodeConfig(id, placed[id]) in configs;
  }

  /** Where a service that has a placed form was placed, and from what. */
  lemma PlacedFrom(d: Done, s: ServiceConfig) returns (n: Node)
    requires d.Valid() && s in d.resolved && IsPlaced(d.Placed(), s.name)
    ensures n in d.p.nodes && BoundVersion(s, NextForm(s, d.Placed()), n)
    ensures NextForm(s, d.Placed()) in Everyone(d.configs) && !HasShared(NextForm(s, d.Placed()))
  {
    var placed, c := d.Placed(), NextForm(s, d.Placed());
    var id :| PlacedAt(placed, id, c) && c.name == s.name;
    PlacementsRespectNodes(d.p, d.resolved);
    n := PlacedSource(d.p, d.resolved, placed, s, id, c);
    PlacedIsEveryone(d.configs, placed, id, c);
    PlacedHaveNoShared(d.p, d.resolved);
  }

  lemma FinalRecords(d: Done)
    requires d.Valid()
    ensures RecordsOf(Everyone(d.configs), d.book, d.Final())
  {
    ConfigsOfPass(d.p, d.resolved, d.configs);
    RecordAllMeaning(d.configs, d.book);
  }

  lemma EveryoneIsPlaced(d: Done, c: ServiceConfig)
    requires d.Valid() && c in Everyone(d.configs)
    ensures IsPlaced(d.Placed(), c.name) && exists id :: PlacedAt(d.Placed(), id, c)
  {
    var nc :| nc in d.configs && c in nc.services;
    assert PlacedAt(d.Placed(), nc.node, c);
  }

  /** The record the volume has once its service was placed and recorded. */
  ghost predicate RecordedAs(service: string, u: VolumeConfig, book: Book, book2: Book) {
    var id := VolumeId(service, u.name);
    id in book2 && book2[id] == if id in book then book[id] else Created(id, u)
  }

  lemma AllRecorded(c: ServiceConfig, book: Book, book2: Book, ss: set<ServiceConfig>)
    requires c in ss && RecordsOf(ss, book, book2)
    ensures forall u :: u in c.volumes ==> RecordedAs(c.name, u, book, book2)
  {
  }

  lemma PlacedVolumesCarried(s: ServiceConfig, vs1: seq<VolumeConfig>, c: ServiceConfig, n: Node, book: Book,
                             book2: Book)
    requires CarriedAll(s.name, s.volumes, vs1, book) && Bind(vs1, n) == Some(c.volumes)
    requires c.name == s.name && !HasShared(c) && n.instanceId != ""
    requires forall u :: u in c.volumes ==> RecordedAs(c.name, u, book, book2)
    ensures CarriedAll(s.name, s.volumes, c.volumes, book2)
  {
    BindMeaning(vs1, n);
    var name, vs, us := s.name, s.volumes, c.volumes;
    forall j | 0 <= j < |vs| ensures Carried(name, vs[j], us[j], book2) {
      assert Carried(name, vs[j], vs1[j], book) && BindOne(vs1[j], n) == Some(us[j]);
      assert us[j] in us && RecordedAs(name, us[j], book, book2);
      CarriedPlaced(name, vs[j], vs1[j], us[j], n, book, book2);
    }
  }

  lemma PlacedServiceCarried(d: Done, i: nat)
    requires d.Valid() && i < |d.desired| && IsPlaced(d.Placed(), d.desired[i].name)
    ensures d.Next()[i] == d.desired[i].(volumes := d.Next()[i].volumes)
    ensures CarriedAll(d.desired[i].name, d.desired[i].volumes, d.Next()[i].volumes, d.Final())
  {
    var s, s1, c := d.desired[i], d.resolved[i], d.Next()[i];
    var n := PlacedFrom(d, s1);
    FinalRecords(d);
    AllRecorded(c, d.book, d.Final(), Everyone(d.configs));
    PlacedVolumesCarried(s, s1.volumes, c, n, d.book, d.Final());
  }

  lemma WaitingServiceCarried(d: Done, i: nat)
    requires d.Valid() && i < |d.desired| && !IsPlaced(d.Placed(), d.desired[i].name)
    ensures d.Next()[i] == d.desired[i].(volumes := d.Next()[i].volumes)
    ensures CarriedAll(d.desired[i].name, d.desired[i].volumes, d.Next()[i].volumes, d.Final())
  {
    var s, s1 := d.desired[i], d.resolved[i];
    assert s1 == s.(volumes := s1.volumes) && CarriedAll(s.name, s.volumes, s1.volumes, d.book);
    FinalRecords(d);
    forall j | 0 <= j < |s.volumes| ensures Carried(s.name, s.volumes[j], s1.volumes[j], d.Final()) {
      assert Carried(s.name, s.volumes[j], s1.volumes[j], d.book);
      var id := VolumeId(s.name, s.volumes[j].name);
      if id in d.Final() && id !in d.book {
        var c, v :| c in Everyone(d.configs) && v in c.volumes && id == VolumeId(c.name, v.name);
        EveryoneIsPlaced(d, c);
        assert false;
      }
      CarriedAgain(s.name, s.volumes[j], s1.volumes[j], d.book, d.Final());
    }
  }

  /** The next resolve hands over the placed forms and has nothing to write. */
  lemma NextResolve(d: Done, later: Book)
    requires d.Valid() && Acknowledged(d.Final(), later)
    ensures Resolve(d.desired, later) == Some(Resolved(d.Next(), later))
    ensures Settled(d.resolved, d.Next(), d.Placed())
  {
    PlacedNamesDiffer(d.p, d.resolved);
    forall i | 0 <= i < |d.desired|
      ensures d.Next()[i] == d.desired[i].(volumes := d.Next()[i].volumes)
      ensures CarriedAll(d.desired[i].name, d.desired[i].volumes, d.Next()[i].volumes, later)
    {
      var s := d.desired[i];
      if IsPlaced(d.Placed(), s.name) {
        PlacedServiceCarried(d, i);
      } else {
        WaitingServiceCarried(d, i);
      }
      forall j | 0 <= j < |s.volumes| ensures Carried(s.name, s.volumes[j], d.Next()[i].volumes[j], later) {
        AcknowledgedCarries(s.name, s.volumes[j], d.Next()[i].volumes[j], d.Final(), later);
      }
    }
    CarriedServicesResolve(d.desired, d.Next(), later);
    forall i | 0 <= i < |d.resolved| ensures SettledOne(d.resolved[i], d.Next()[i], d.Placed()) {
      NextFormSettles(d.resolved[i], d.Placed());
    }
  }

  lemma NextReservations(d: Done, later: Book, res: Reservations)
    requires d.Valid() && Acknowledged(d.Final(), later) && Counts(res, later)
    ensures RecordedAfter(d.p.res, res, d.Placed(), d.p.nodes)
  {
    FinalRecords(d);
    ReconcileAdmits(d.p, d.resolved, d.book, d.configs);
    forall v ensures v in res.recorded <==> v in d.p.res.recorded || PlacedVolume(d.Placed(), v) {
      RecordedVolume(d, v);
    }
    forall n | n in d.p.nodes
      ensures Lookup(res.localByNode, n.instanceId) ==
              Lookup(d.p.res.localByNode, n.instanceId) + NewLocal(d.Placed()[n.instanceId], d.p.res.recorded)
    {
      AcknowledgedReserves(d.Final(), later, n.instanceId);
    }
  }

  lemma RecordedVolume(d: Done, v: VolumeId)
    requires d.Valid()
    ensures v in d.Final() <==> v in d.book || PlacedVolume(d.Placed(), v)
  {
    FinalRecords(d);
    RecordedIds(Everyone(d.configs), d.book, d.Final());
    PlacedAreEveryone(d.configs, d.Placed(), v);
  }

  lemma PlacedAreEveryone(configs: seq<NodeConfig>, placed: Placement, v: VolumeId)
    requires IsNodeConfigs(configs, placed)
    ensures PlacedVolume(placed, v) <==> VolumeOf(Everyone(configs), v)
  {
    if id, c, w :| PlacedAt(placed, id, c) && w in c.volumes && v == VolumeId(c.name, w.name) {
      assert NodeConfig(id, placed[id]) in configs;
      assert c in Everyone(configs);
    }
    if VolumeOf(Everyone(configs), v) {
      var c, w :| c in Everyone(configs) && w in c.volumes && v == VolumeId(c.name, w.name);
      var nc :| nc in configs && c in nc.services;
      assert PlacedAt(placed, nc.node, c);
    }
  }

  lemma NextAssignment(d: Done)
    requires d.Valid()
    ensures Remembered(Assignment(d.configs), d.Placed())
  {
    ConfigsOfPass(d.p, d.resolved, d.configs);
    AssignmentMeaning(d.configs);
    forall id, c | PlacedAt(d.Placed(), id, c)
      ensures c.name in Assignment(d.configs) && Assignment(d.configs)[c.name] == id
    {
      assert NodeConfig(id, d.Placed()[id]) in d.configs;
    }
  }

  lemma NothingToRecord(d: Done, later: Book)
    requires d.Valid() && Acknowledged(d.Final(), later)
    ensures RecordAll(d.configs, later) == later
  {
    FinalRecords(d);
    ConfigsOfPass(d.p, d.resolved, d.configs);
    RecordAllMeaning(d.configs, later);
    RecordedIds(Everyone(d.configs), d.book, d.Final());
    RecordedOnce(Everyone(d.configs), later, RecordAll(d.configs, later));
  }

  /** The fixpoint of the whole reconcile. A completed pass accepted `desired` into the
      records `book`, placed by `res` and the assignment before, and recorded what it
      placed; since then at most acknowledgements came in that released no space. Then the
      next pass, on the same desired services and nodes and with the published placement
      as the existing one, writes no record and decides the same placement, the same
      pending list and the same node configs. */
  lemma NextPassIsTheSame(desired: seq<ServiceConfig>, loaded: Book, nodes: NodeList, existing: map<string, string>,
                          res: Reservations, first: Resolved<seq<ServiceConfig>>, configs: seq<NodeConfig>, later: Book,
                          res': Reservations, configs': seq<NodeConfig>)
    requires Enriched(desired) && Resolve(desired, loaded) == Some(first) && Counts(res, first.book)
    requires IsNodeConfigs(configs, Schedule(Problem(nodes, existing, res), first.value).placed)
    requires Acknowledged(RecordAll(configs, first.book), later)
    ensures Resolve(desired, later).Some?
    ensures var second := Resolve(desired, later).value;
            && second.book == later
            && (Counts(res', later) ==>
                  && Schedule(Problem(nodes, Assignment(configs), res'), second.value)
                     == Schedule(Problem(nodes, existing, res), first.value)
                  && (IsNodeConfigs(configs',
                                    Schedule(Problem(nodes, Assignment(configs), res'), second.value).placed) ==>
                        configs' == configs && RecordAll(configs', later) == later))
  {
    ResolveMeaning(desired, loaded, first);
    CarriedKeeps(desired, first.value, first.book);
    var d := Done(desired, first.value, first.book, Problem(nodes, existing, res), configs);
    NextResolve(d, later);
    if Counts(res', later) {
      NextReservations(d, later, res');
      NextAssignment(d);
      PassIsFixpoint(d.p, d.resolved, Problem(nodes, Assignment(configs), res'), d.Next());
      if IsNodeConfigs(configs', d.Placed()) {
        NodeConfigsAreUnique(configs, configs', d.Placed());
        NothingToRecord(d, later);
      }
    }
  }

  // ------------------------------------------------------------------ a pass that is skipped

  /** Nothing is lost when a pass is skipped because its inputs have the signature of the last
      completed one: same desired services, same nodes and, once the services are resolved, the
      same records. Records never disappear, so the last pass created none; this one would
      write no record and decide the same placement, pending list and node configs. */
  lemma SkippedPassIsTheSame(desired: seq<ServiceConfig>, loaded: Book, nodes: NodeList, existing: map<string, string>,
                             res: Reservations, first: Resolved<seq<ServiceConfig>>, configs: seq<NodeConfig>,
                             reloaded: Book, second: Resolved<seq<ServiceConfig>>, res': Reservations,
                             configs': seq<NodeConfig>)
    requires Enriched(desired) && Resolve(desired, loaded) == Some(first) && Counts(res, first.book)
    requires IsNodeConfigs(configs, Schedule(Problem(nodes, existing, res), first.value).placed)
    requires Resolve(desired, reloaded) == Some(second) && second.book == first.book
    requires RecordAll(configs, first.book).Keys <= second.book.Keys
    requires Counts(res', second.book)
    ensures Schedule(Problem(nodes, Assignment(configs), res'), second.value) ==
            Schedule(Problem(nodes, existing, res), first.value)
    ensures IsNodeConfigs(configs', Schedule(Problem(nodes, Assignment(configs), res'), second.value).placed) ==>
              configs' == configs && RecordAll(configs', second.book) == second.book
  {
    ResolveMeaning(desired, loaded, first);
    ResolveMeaning(desired, reloaded, second);
    CarriedKeeps(desired, first.value, first.book);
    var d := Done(desired, first.value, first.book, Problem(nodes, existing, res), configs);
    NoNewKeyNoNewRecord(d);
    CarriedServicesResolve(desired, second.value, second.book);
    NextPassIsTheSame(desired, loaded, nodes, existing, res, first, configs, second.book, res', configs');
  }

  lemma NoNewKeyNoNewRecord(d: Done)
    requires d.Valid() && d.Final().Keys <= d.book.Keys
    ensures d.Final() == d.book && Acknowledged(d.Final(), d.book)
  {
    FinalRecords(d);
  }
}
