/** Disks, agents, reports and controllers together: a volume the control plane calls
    applied was really committed on the disk it is bound to. */
module EndToEnd {
  import opened Types
  import opened VolumeMachine
  import R = VolumeRecords

  /** The last size and generation a node's running VM was started with, per volume. */
  type PreparedSet = map<VolumeId, CommitRecord>

  /** One volume of the status an agent builds for `service`: what is desired, overlaid with
      what was prepared, overlaid with the service's volume error. */
  function StatusOf(service: ServiceConfig, v: VolumeConfig, prepared: PreparedSet, error: Option<string>): R.Observed {
    var id := VolumeId(service.name, v.name);
    var seen :=
      if id in prepared
      then R.Observed(id, v.vtype, v.boundNode, v.sharedBackendId, prepared[id].size, prepared[id].generation,
                      R.InPlace, "")
      else R.Observed(id, v.vtype, v.boundNode, v.sharedBackendId, 0, v.resizeGeneration, R.Waiting, "");
    match error
    case None => seen
    case Some(message) => seen.(state := R.Error, lastError := message, generation := v.resizeGeneration)
  }

  datatype DiskKey = DiskKey(node: string, id: VolumeId)

  /** `sent` holds every volume status a node ever put into a heartbeat: an acknowledgement may
      read any of them, however late. */
  datatype World = World(
    disks: map<DiskKey, Sys>, prepared: map<DiskKey, CommitRecord>,
    sent: map<string, set<R.Observed>>, records: R.World)
  {
    function Disk(k: DiskKey): Sys {
      if k in disks then disks[k] else FRESH
    }

    function PreparedOn(node: string): PreparedSet {
      map k | k in prepared && k.node == node :: k.id := prepared[k]
    }

    function Sent(node: string): set<R.Observed> {
      if node in sent then sent[node] else {}
    }
  }

  const START := World(map[], map[], map[], R.EMPTY_WORLD)

  datatype Event =
    | OnDisk(disk: DiskKey, call: VolumeMachine.Event)                       // a call, one of its steps, a crash
    | Attach(disk: DiskKey)                                                  // the VM starts with what Prepare returned
    | Detach(disk: DiskKey)                                                  // the VM is removed
    | Report(node: string, service: ServiceConfig, error: Option<string>)    // a status, from whatever config
    | Control(access: R.Event)                                               // any controller process, any store access

  predicate Legit(w: World, e: Event) {
    match e
    case Control(c) => R.Legit(c) && (c.AckRead? ==> c.o in w.Sent(c.node))
    case _ => true
  }

  function Apply(w: World, e: Event): World {
    match e
    case OnDisk(k, d) => w.(disks := w.disks[k := VolumeMachine.Apply(w.Disk(k), d)])
    case Attach(k) =>
      if w.Disk(k).pc.Done?
        then w.(prepared := w.prepared[k := CommitRecord(w.Disk(k).pc.size, w.Disk(k).pc.generation)]) else w
    case Detach(k) => w.(prepared := w.prepared - {k})
    case Report(node, service, error) =>
      var statuses := set v | v in service.volumes :: StatusOf(service, v, w.PreparedOn(node), error);
      w.(sent := w.sent[node := w.Sent(node) + statuses])
    case Control(c) => w.(records := R.Apply(w.records, c))
  }

  ghost predicate LegitRun(w: World, events: seq<Event>)
    decreases |events|
  {
    events == [] || (Legit(w, events[0]) && LegitRun(Apply(w, events[0]), events[1..]))
  }

  function Run(w: World, events: seq<Event>): World
    decreases |events|
  {
    if events == [] then w else Run(Apply(w, events[0]), events[1..])
  }

  // ------------------------------------------------------------------- invariant

  ghost predicate Committed(w: World, node: string, id: VolumeId, size: int, generation: int) {
    CommitRecord(size, generation) in w.Disk(DiskKey(node, id)).commits
  }

  /** An applied local record names a manifest that its bound node has committed. */
  ghost predicate Vouched(w: World, id: VolumeId, r: R.VolumeRecord) {
    && R.LoadOk(id, r)
    && (r.vtype.Local? && r.state.ResizeApplied? ==> Committed(w, r.boundNode, id, r.desired, r.generation))
  }

  ghost predicate ReportsOk(w: World) {
    forall node, o :: o in w.Sent(node) && o.state.InPlace? ==> Committed(w, node, o.id, o.applied, o.generation)
  }

  ghost predicate Inv(w: World) {
    && (forall k :: VolumeMachine.Inv(w.Disk(k)))
    && (forall k :: k in w.prepared ==> Committed(w, k.node, k.id, w.prepared[k].size, w.prepared[k].generation))
    && ReportsOk(w)
    && R.All(w.records, (id, r) => Vouched(w, id, r))
  }

  ghost predicate CommitsGrow(w: World, w': World) {
    forall k, c :: c in w.Disk(k).commits ==> c in w'.Disk(k).commits
  }

  lemma ApplyGrowsCommits(w: World, e: Event)
    ensures CommitsGrow(w, Apply(w, e))
  {
    forall k, c | c in w.Disk(k).commits ensures c in Apply(w, e).Disk(k).commits {
      if e.OnDisk? && e.disk == k {
        assert w.Disk(k).commits <= VolumeMachine.Apply(w.Disk(k), e.call).commits;
      }
    }
  }

  lemma ReportedWasCommitted(w: World, node: string, service: ServiceConfig, error: Option<string>, v: VolumeConfig)
    requires Inv(w)
    ensures var o := StatusOf(service, v, w.PreparedOn(node), error);
            o.state.InPlace? ==> Committed(w, node, o.id, o.applied, o.generation)
  {
    var id := VolumeId(service.name, v.name);
    if id in w.PreparedOn(node) {
      assert DiskKey(node, id) in w.prepared;
    }
  }

  lemma ApplyKeepsReports(w: World, e: Event)
    requires Inv(w)
    ensures ReportsOk(Apply(w, e))
  {
    var w' := Apply(w, e);
    ApplyGrowsCommits(w, e);
    forall node, o | o in w'.Sent(node) && o.state.InPlace? ensures Committed(w', node, o.id, o.applied, o.generation) {
      if o !in w.Sent(node) {
        var v :| v in e.service.volumes && o == StatusOf(e.service, v, w.PreparedOn(node), e.error);
        ReportedWasCommitted(w, node, e.service, e.error, v);
      }
    }
  }

  lemma ApplyKeepsDisk(w: World, e: Event, k: DiskKey)
    requires VolumeMachine.Inv(w.Disk(k))
    ensures VolumeMachine.Inv(Apply(w, e).Disk(k))
  {
    if e.OnDisk? && e.disk == k {
      VolumeMachine.ApplyKeepsInv(w.Disk(k), e.call);
      assert Apply(w, e).Disk(k) == VolumeMachine.Apply(w.Disk(k), e.call);
    } else {
      assert Apply(w, e).Disk(k) == w.Disk(k);
    }
  }

  lemma ControlKeepsVouched(w: World, c: R.Event)
    requires Inv(w) && Legit(w, Control(c))
    ensures R.All(R.Apply(w.records, c), (id, r) => Vouched(w, id, r))
  {
    R.ApplyKeepsAll(w.records, c, (id, r) => Vouched(w, id, r));
  }

  lemma ApplyKeepsInv(w: World, e: Event)
    requires Inv(w) && Legit(w, e)
    ensures Inv(Apply(w, e))
  {
    var w' := Apply(w, e);
    ApplyGrowsCommits(w, e);
    ApplyKeepsReports(w, e);
    forall k ensures VolumeMachine.Inv(w'.Disk(k)) {
      ApplyKeepsDisk(w, e, k);
    }
    if e.Control? {
      ControlKeepsVouched(w, e.access);
    }
    var before, after := (id, r) => Vouched(w, id, r), (id, r) => Vouched(w', id, r);
    assert R.All(w'.records, before);
    forall id, r | before(id, r) ensures after(id, r) {
    }
    VouchedLater(w'.records, before, after);
  }

  lemma VouchedLater(records: R.World, before: (VolumeId, R.VolumeRecord) -> bool,
                     after: (VolumeId, R.VolumeRecord) -> bool)
    requires R.All(records, before) && forall id, r :: before(id, r) ==> after(id, r)
    ensures R.All(records, after)
  {
  }

  lemma {:induction false} RunKeepsInv(w: World, events: seq<Event>)
    requires Inv(w) && LegitRun(w, events)
    ensures Inv(Run(w, events))
    decreases |events|
  {
    if events != [] {
      ApplyKeepsInv(w, events[0]);
      RunKeepsInv(Apply(w, events[0]), events[1..]);
    }
  }

  /** In every interleaving of controllers, acknowledgements, heartbeats of any age and agent
      prepares with crashes: a local record in state applied with size d and generation g
      implies that the node it is bound to has written a manifest with exactly (d, g). */
  lemma AppliedWasCommitted(events: seq<Event>, id: VolumeId)
    requires LegitRun(START, events)
    requires id in Run(START, events).records.store.cells
    ensures var w := Run(START, events);
            var r := w.records.store.cells[id].value;
            r.vtype.Local? && r.state.ResizeApplied? ==>
              r.applied == r.desired && Committed(w, r.boundNode, id, r.desired, r.generation)
  {
    RunKeepsInv(START, events);
    var w := Run(START, events);
    assert Vouched(w, id, w.records.store.cells[id].value);
  }
}
