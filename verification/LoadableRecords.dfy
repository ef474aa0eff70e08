/** What a reconcile writes is what the record protocol allows to be written, so every record
    it leaves can be loaded again. */
module LoadableRecords {
  import opened Types
  import opened StorageFit
  import opened Scheduler
  import opened SchedulerProperties
  import opened SchedulerFixpoint
  import R = VolumeRecords
  import opened RecordBook
  import opened RetainedRecords
  import opened Admission
  import opened NodeConfigs
  import opened AdmissionBound
  import opened SecondPass

  ghost predicate Loads(book: Book) {
    forall id :: id in book ==> R.LoadOk(id, book[id])
  }

  /** A record under its own key, of a local volume on a node or a shared one on a backend, with
      sizes and a generation that make sense, and applied only at its desired size. */
  predicate Sensible(id: VolumeId, r: R.VolumeRecord) {
    && id == r.id && 0 < r.desired && 0 <= r.applied && 0 < r.generation
    && !r.vtype.Unknown? && (if r.vtype.Local? then r.boundNode else r.sharedBackendId) != ""
    && (r.state.ResizeApplied? ==> r.applied == r.desired)
  }

  /** loadVolumeRecords: one record that cannot be read, or that does not pass the checks, fails
      the whole load. */
  method LoadVolumeRecords(stored: Book, readable: set<VolumeId>) returns (loaded: Option<Book>)
    ensures loaded == if stored.Keys <= readable && Loads(stored) then Some(stored) else None
    ensures loaded.Some? <==> stored.Keys <= readable && forall id :: id in stored ==> Sensible(id, stored[id])
  {
    var records: Book := map[];
    var todo := stored.Keys;
    while todo != {}
      invariant todo <= stored.Keys && records == map id | id in stored && id !in todo :: stored[id]
      invariant records.Keys <= readable && Loads(records)
      decreases |todo|
    {
      var id :| id in todo;
      if id !in readable || !R.LoadOk(id, stored[id]) {
        return None;
      }
      todo, records := todo - {id}, records[id := stored[id]];
    }
    assert records == stored;
    return Some(records);
  }

  /** Sizes are resolved and types known before services are published. */
  ghost predicate Sized(ss: seq<ServiceConfig>) {
    forall s, v :: s in ss && v in s.volumes ==> v.sizeBytes > 0 && !v.vtype.Unknown?
  }

  /** A record that resolving changed was changed by one legitimate resize, and loads. */
  lemma ResolvedLoads(ss: seq<ServiceConfig>, loaded: Book, r: Resolved<seq<ServiceConfig>>)
    requires Enriched(ss) && Sized(ss) && Loads(loaded) && Resolve(ss, loaded) == Some(r)
    ensures Loads(r.book)
    ensures r.book.Keys == loaded.Keys
    ensures forall id :: id in r.book && r.book[id] != loaded[id] ==>
              exists size :: R.Legit(R.Resize(0, id, loaded[id].vtype, size, false))
                && r.book[id] == R.Resized(loaded[id], size)
  {
    ResolveMeaning(ss, loaded, r);
    forall id | id in r.book
      ensures R.LoadOk(id, r.book[id])
      ensures r.book[id] != loaded[id] ==>
                exists size :: R.Legit(R.Resize(0, id, loaded[id].vtype, size, false))
                  && r.book[id] == R.Resized(loaded[id], size)
    {
      if s, v :| s in ss && v in s.volumes && id == VolumeId(s.name, v.name) {
        assert r.book[id] == Accepted(loaded[id], v.sizeBytes);
        assert R.Legit(R.Resize(0, id, loaded[id].vtype, v.sizeBytes, false));
      }
    }
  }

  lemma CarriedIsSized(ss: seq<ServiceConfig>, ss': seq<ServiceConfig>, book: Book)
    requires Sized(ss) && CarriedServices(ss, ss', book)
    ensures Sized(ss')
  {
    forall s', v' | s' in ss' && v' in s'.volumes ensures v'.sizeBytes > 0 && !v'.vtype.Unknown? {
      var i :| 0 <= i < |ss'| && ss'[i] == s';
      assert CarriedAll(ss[i].name, ss[i].volumes, s'.volumes, book);
      var j :| 0 <= j < |s'.volumes| && s'.volumes[j] == v';
      assert Carried(ss[i].name, ss[i].volumes[j], v', book);
      assert ss[i] in ss && ss[i].volumes[j] in ss[i].volumes;
    }
  }

  lemma BoundIsLegit(s: ServiceConfig, c: ServiceConfig, n: Node, v: VolumeConfig)
    requires Bind(s.volumes, n) == Some(c.volumes) && n.instanceId != "" && !HasShared(c) && v in c.volumes
    requires forall u :: u in s.volumes ==> u.sizeBytes > 0 && !u.vtype.Unknown?
    ensures R.Legit(R.Create(0, VolumeId(c.name, v.name), v, false))
  {
    BindMeaning(s.volumes, n);
    var j :| 0 <= j < |c.volumes| && c.volumes[j] == v;
    assert v == BindOne(s.volumes[j], n).value && s.volumes[j] in s.volumes;
  }

  /** A placed volume is local, sized and bound to a node. */
  lemma PlacedIsLegit(p: Problem, ss: seq<ServiceConfig>, placed: Placement, node: string, c: ServiceConfig,
                      v: VolumeConfig)
    requires Sized(ss) && NoShared(placed) && ComesFrom(p, placed, ss)
    requires forall id :: id in placed ==> Active(p.nodes, id)
    requires PlacedAt(placed, node, c) && v in c.volumes
    ensures R.Legit(R.Create(0, VolumeId(c.name, v.name), v, false))
  {
    var n :| n in p.nodes && n.instanceId == node;
    var s :| s in ss && BoundVersion(s, c, n);
    BoundIsLegit(s, c, n, v);
  }

  /** A record that was added was a legitimate creation. */
  ghost predicate Added(book: Book, book': Book, id: VolumeId) {
    id in book' && id !in book ==> exists v :: R.Legit(R.Create(0, id, v, false)) && book'[id] == R.Created(id, v)
  }

  lemma AddedIsLegit(p: Problem, ss: seq<ServiceConfig>, book: Book, configs: seq<NodeConfig>, id: VolumeId)
    requires Enriched(ss) && Sized(ss) && !p.res.sharedEnabled && IsNodeConfigs(configs, Schedule(p, ss).placed)
    ensures Added(book, RecordAll(configs, book), id)
  {
    var book' := RecordAll(configs, book);
    ConfigsOfPass(p, ss, configs);
    RecordAllMeaning(configs, book);
    if id in book' && id !in book {
      var c, v :| c in Everyone(configs) && v in c.volumes && id == VolumeId(c.name, v.name);
      var nc :| nc in configs && c in nc.services;
      PlacementsRespectNodes(p, ss);
      PlacedHaveNoShared(p, ss);
      PlacedIsLegit(p, ss, Schedule(p, ss).placed, nc.node, c, v);
      assert book'[id] == R.Created(id, v);
    }
  }

  lemma AddedLoads(book: Book, book': Book)
    requires Loads(book) && (forall id :: id in book ==> id in book' && book'[id] == book[id])
    requires forall id :: Added(book, book', id)
    ensures Loads(book')
  {
    forall id | id in book' ensures R.LoadOk(id, book'[id]) {
      assert Added(book, book', id);
    }
  }

  /** Every record a reconcile adds is a legitimate creation, every record it changes a
      legitimate resize, and all of them load. */
  lemma ReconcileStoresLoadable(desired: seq<ServiceConfig>, loaded: Book, first: Resolved<seq<ServiceConfig>>,
                                p: Problem, configs: seq<NodeConfig>)
    requires Enriched(desired) && Sized(desired) && Loads(loaded) && Resolve(desired, loaded) == Some(first)
    requires Counts(p.res, first.book) && IsNodeConfigs(configs, Schedule(p, first.value).placed)
    ensures Loads(first.book) && Loads(RecordAll(configs, first.book))
    ensures forall id :: Added(first.book, RecordAll(configs, first.book), id)
  {
    ResolvedLoads(desired, loaded, first);
    ResolveMeaning(desired, loaded, first);
    CarriedKeeps(desired, first.value, first.book);
    CarriedIsSized(desired, first.value, first.book);
    forall id ensures Added(first.book, RecordAll(configs, first.book), id) {
      AddedIsLegit(p, first.value, first.book, configs, id);
    }
    ConfigsOfPass(p, first.value, configs);
    RecordAllMeaning(configs, first.book);
    AddedLoads(first.book, RecordAll(configs, first.book));
  }
}
