/** The admission bound over one whole reconcile, and the reconcile itself. */
module AdmissionBound {
  import opened Types
  import opened StorageFit
  import opened Scheduler
  import opened SchedulerProperties
  import opened SchedulerStability
  import opened VolumeRecords
  import opened RecordBook
  import opened RetainedRecords
  import opened Admission
  import opened NodeConfigs

  /** Carrying records over keeps names and sizes. */
  lemma CarriedKeeps(ss: seq<ServiceConfig>, ss': seq<ServiceConfig>, book: Book)
    requires Enriched(ss) && CarriedServices(ss, ss', book)
    ensures Enriched(ss')
  {
    forall s' | s' in ss' ensures Proper(s') && DistinctVolumes(s') {
      var i :| 0 <= i < |ss'| && ss'[i] == s';
      assert ss[i] in ss && CarriedAll(ss[i].name, ss[i].volumes, s'.volumes, book);
      assert forall j :: 0 <= j < |s'.volumes| ==> Carried(ss[i].name, ss[i].volumes[j], s'.volumes[j], book);
    }
  }

  lemma BoundForms(s: ServiceConfig, c: ServiceConfig, n: Node)
    requires BoundVersion(s, c, n) && Proper(s) && DistinctVolumes(s)
    ensures PlacedForm(c, n.instanceId)
  {
    BindMeaning(s.volumes, n);
    forall v | v in c.volumes ensures v.sizeBytes >= 0 && (v.vtype.Local? ==> v.boundNode == n.instanceId) {
      var i :| 0 <= i < |c.volumes| && c.volumes[i] == v;
      assert v == BindOne(s.volumes[i], n).value && s.volumes[i] in s.volumes;
    }
    assert forall i :: 0 <= i < |c.volumes| ==> c.volumes[i].name == s.volumes[i].name;
  }

  /** The configs of a pass hold each service once, in the form its node was given it. */
  lemma ConfigsOfPass(p: Problem, ss: seq<ServiceConfig>, configs: seq<NodeConfig>)
    requires Enriched(ss) && IsNodeConfigs(configs, Schedule(p, ss).placed)
    ensures ConfigsPlaced(configs)
  {
    var placed := Schedule(p, ss).placed;
    PlacementsRespectNodes(p, ss);
    PlacedNamesDiffer(p, ss);
    forall nc, c | nc in configs && c in nc.services ensures PlacedForm(c, nc.node) {
      var n :| n in p.nodes && n.instanceId == nc.node;
      assert PlacedAt(placed, n.instanceId, c);
      var s :| s in ss && BoundVersion(s, c, n);
      BoundForms(s, c, n);
    }
    forall a, b, i, j |
      && 0 <= a < |configs| && 0 <= b < |configs| && 0 <= i < |configs[a].services| && 0 <= j < |configs[b].services|
      && configs[a].services[i].name == configs[b].services[j].name
      ensures a == b && i == j
    {
      assert configs[a] in configs && configs[b] in configs;
      DistinctNodes(configs, placed, a, b);
    }
  }

  lemma DistinctNodes(configs: seq<NodeConfig>, placed: Placement, a: nat, b: nat)
    requires IsNodeConfigs(configs, placed) && a < |configs| && b < |configs|
    ensures configs[a].node == configs[b].node ==> a == b
  {
    Ordering.LessIsTotal(configs[a].node, configs[b].node);
    assert a < b ==> NodeBefore(configs[a], configs[b]);
    assert b < a ==> NodeBefore(configs[b], configs[a]);
  }

  lemma {:induction false} NoConfigFor(configs: seq<NodeConfig>, id: string, recorded: set<VolumeId>)
    requires forall nc :: nc in configs ==> nc.node != id
    ensures NewLocalOn(configs, id, recorded) == 0
  {
    if configs != [] {
      assert configs == configs[..|configs| - 1] + [configs[|configs| - 1]];
      NoConfigFor(configs[..|configs| - 1], id, recorded);
    }
  }

  lemma {:induction false} OneConfigFor(configs: seq<NodeConfig>, k: nat, recorded: set<VolumeId>)
    requires k < |configs| && forall i :: 0 <= i < |configs| && i != k ==> configs[i].node != configs[k].node
    ensures NewLocalOn(configs, configs[k].node, recorded) == NewLocal(configs[k].services, recorded)
  {
    var xs := configs[..|configs| - 1];
    if k == |configs| - 1 {
      NoConfigFor(xs, configs[k].node, recorded);
    } else {
      OneConfigFor(xs, k, recorded);
    }
  }

  lemma NewOnNode(configs: seq<NodeConfig>, placed: Placement, id: string, recorded: set<VolumeId>)
    requires IsNodeConfigs(configs, placed) && id in placed
    ensures NewLocalOn(configs, id, recorded) == NewLocal(placed[id], recorded)
  {
    if placed[id] == [] {
      NoConfigFor(configs, id, recorded);
    } else {
      assert NodeConfig(id, placed[id]) in configs;
      var k :| 0 <= k < |configs| && configs[k] == NodeConfig(id, placed[id]);
      forall i | 0 <= i < |configs| && i != k ensures configs[i].node != configs[k].node {
        DistinctNodes(configs, placed, i, k);
      }
      OneConfigFor(configs, k, recorded);
    }
  }

  /** Reservations grew by exactly what was newly placed, and no node that was given a
      service is promised more than it has: neither all desired sizes on record there nor all
      sizes last applied there exceed its local capacity. */
  ghost predicate Admitted(nodes: NodeList, placed: Placement, book: Book, book': Book) {
    forall n :: n in nodes ==>
      && n.instanceId in placed
      && LocalOn(book', n.instanceId) == LocalOn(book, n.instanceId) + NewLocal(placed[n.instanceId], book.Keys)
      && (placed[n.instanceId] != [] ==>
            && LocalOn(book', n.instanceId) <= n.localCapacityBytes
            && DesiredOn(book', n.instanceId) <= n.localCapacityBytes
            && AppliedOn(book', n.instanceId) <= n.localCapacityBytes)
  }

  /** Admission across a reconcile: `book` is the records after new sizes were accepted. */
  lemma ReconcileAdmits(p: Problem, ss: seq<ServiceConfig>, book: Book, configs: seq<NodeConfig>)
    requires Enriched(ss) && Counts(p.res, book)
    requires IsNodeConfigs(configs, Schedule(p, ss).placed)
    ensures Admitted(p.nodes, Schedule(p, ss).placed, book, RecordAll(configs, book))
  {
    var placed := Schedule(p, ss).placed;
    PlacementsRespectNodes(p, ss);
    ConfigsOfPass(p, ss, configs);
    forall n | n in p.nodes
      ensures n.instanceId in placed
      ensures LocalOn(RecordAll(configs, book), n.instanceId) ==
              LocalOn(book, n.instanceId) + NewLocal(placed[n.instanceId], book.Keys)
      ensures placed[n.instanceId] != [] ==> LocalOn(RecordAll(configs, book), n.instanceId) <= n.localCapacityBytes
      ensures DesiredOn(RecordAll(configs, book), n.instanceId) <= LocalOn(RecordAll(configs, book), n.instanceId)
      ensures AppliedOn(RecordAll(configs, book), n.instanceId) <= LocalOn(RecordAll(configs, book), n.instanceId)
    {
      RecordAllReserves(configs, book, n.instanceId);
      LocalOnCovers(RecordAll(configs, book), n.instanceId);
      NewOnNode(configs, placed, n.instanceId, book.Keys);
      assert Lookup(p.res.localByNode, n.instanceId) == LocalOn(book, n.instanceId);
    }
  }

  /** What the decisions of a pass depend on, besides the placement in force. (The source
      hashes it; equal hashes are taken for equal inputs.) */
  datatype Signature = Signature(revision: string, nodes: seq<Node>, hostIPs: map<string, string>, book: Book)

  datatype Verdict = Failed | Skipped | Decided

  /** The storage part of runReconcile on the loaded records: the edits of the services and
      records, the check whether anything changed since `last`, the placement, the node configs
      and the new records. */
  method ReconcileStorage(pass: Pass, revision: string, nodes: seq<Node>, hostIPs: map<string, string>,
                          last: Option<Signature>, lastPlacement: seq<NodeConfig>, wins: VolumeId -> bool)
    returns (verdict: Verdict, configs: seq<NodeConfig>, pending: seq<Pending>, accepted: Book, placed: Placement)
    requires ValidNodes(nodes) && Enriched(pass.services)
    modifies pass
    ensures !verdict.Failed? ==> Resolve(old(pass.services), old(pass.book)) == Some(Resolved(pass.services, accepted))
    ensures Resolve(old(pass.services), old(pass.book)).Some? && (forall id :: wins(id)) ==> !verdict.Failed?
    ensures verdict.Skipped? ==> pass.book == accepted && configs == []
    ensures verdict.Skipped? ==> last == Some(Signature(revision, nodes, hostIPs, accepted))
    ensures verdict.Decided? ==> last != Some(Signature(revision, nodes, hostIPs, accepted))
    ensures verdict.Decided? ==>
      && (exists res :: Counts(res, accepted) &&
            Outcome(placed, pending) == Schedule(Problem(nodes, Assignment(lastPlacement), res), pass.services))
      && IsNodeConfigs(configs, placed)
      && pass.book == RecordAll(configs, accepted)
      && Admitted(nodes, placed, accepted, pass.book)
  {
    verdict, configs, pending, accepted, placed := Failed, [], [], map[], map[];
    var ok, _ := pass.ApplyExistingVolumeRecords(wins);
    if !ok {
      return;
    }
    accepted := pass.book;
    if last == Some(Signature(revision, nodes, hostIPs, pass.book)) {
      verdict := Skipped;
      return;
    }
    ResolveMeaning(old(pass.services), old(pass.book), Resolved(pass.services, accepted));
    CarriedKeeps(old(pass.services), pass.services, accepted);
    var existing := ReadExistingAssignment(lastPlacement);
    var res := StorageReservations(pass.book);
    var assignments: Placement;
    assignments, pending := ScheduleWithStorage(pass.services, nodes, existing, res);
    placed := assignments;
    configs := BuildNodeConfigs(assignments);
    ok := pass.CreateAssignedVolumeRecords(configs, wins);
    if ok {
      verdict := Decided;
      ReconcileAdmits(Problem(nodes, existing, res), pass.services, accepted, configs);
    }
  }
}
