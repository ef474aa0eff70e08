/** What a whole reconcile reserves: after placement and record creation every node that
    was given a service still has room for all that is retained on it. */
module Admission {
  import opened Types
  import opened Ordering
  import opened StorageFit
  import opened Scheduler
  import opened SchedulerProperties
  import opened SchedulerStability
  import opened SchedulerFixpoint
  import opened VolumeRecords
  import opened RecordBook

  // ---------------------------------------------------- names of placed services

  /** No two placed services share a name. */
  ghost predicate PlacedApart(placed: Placement) {
    forall id, id', i, j ::
      id in placed && id' in placed && 0 <= i < |placed[id]| && 0 <= j < |placed[id']|
        && placed[id][i].name == placed[id'][j].name
      ==> id == id' && i == j
  }

  lemma EnterKeepsApart(p: Problem, l: Ledger, s: ServiceConfig, d: Decision)
    requires Sane(p, l) && Sound(p, l, s, d) && PlacedApart(l.placed)
    requires forall id, c :: PlacedAt(l.placed, id, c) ==> c.name != s.name
    ensures PlacedApart(Enter(l, s, d).placed)
  {
    if d.Go? {
      assert OnNode(p, l, d.node);
      assert d.fit.candidate.name == s.name;
      AppendKeepsApart(l.placed, d.node.instanceId, d.fit.candidate);
    }
  }

  lemma AppendKeepsApart(placed: Placement, at: string, c: ServiceConfig)
    requires PlacedApart(placed) && at in placed
    requires forall id, t :: PlacedAt(placed, id, t) ==> t.name != c.name
    ensures PlacedApart(placed[at := placed[at] + [c]])
  {
    forall id, i | id in placed && 0 <= i < |placed[id]| ensures placed[id][i].name != c.name {
      assert PlacedAt(placed, id, placed[id][i]);
    }
  }

  /** A pass never places two services of one name. */
  lemma PlacedNamesDiffer(p: Problem, services: seq<ServiceConfig>)
    requires DistinctNames(services)
    ensures PlacedApart(Schedule(p, services).placed)
  {
    var inv := (l: Ledger, rest: seq<ServiceConfig>) =>
      Sane(p, l) && DistinctNames(rest) && NamesApart(l.placed, rest) && PlacedApart(l.placed);
    forall l, rest: seq<ServiceConfig> | rest != [] && inv(l, rest) ensures inv(p.Step()(l, rest[0]), rest[1..]) {
      var d := p.Decide(l, rest[0]);
      DecideIsSound(p, l, rest[0]);
      EnterKeepsSane(p, l, rest[0], d);
      EnterKeepsApart(p, l, rest[0], d);
      StepKeepsApart(p, l, rest[0], d, rest[1..]);
    }
    StartIsSane(p);
    SortedNamesDiffer(services);
    assert PlacedApart(Start(p.nodes).placed);
    assert NamesApart(Start(p.nodes).placed, InOrder(services));
    FoldKeeps(p.Step(), inv, Start(p.nodes), InOrder(services));
  }

  // ------------------------------------------------------------- one placed service

  /** A service as the pass leaves it on node `m`. */
  ghost predicate PlacedForm(c: ServiceConfig, m: string) {
    && DistinctVolumes(c)
    && forall v :: v in c.volumes ==> v.sizeBytes >= 0 && (v.vtype.Local? ==> v.boundNode == m)
  }

  /** `book'` is `book` with a record created for every volume that had none. */
  ghost predicate RecordsFor(service: string, vs: seq<VolumeConfig>, book: Book, book': Book) {
    && (forall k :: k in book ==> k in book' && book'[k] == book[k])
    && (forall v :: v in vs ==> VolumeId(service, v.name) in book')
    && (forall v :: v in vs && VolumeId(service, v.name) !in book ==>
          book'[VolumeId(service, v.name)] == Created(VolumeId(service, v.name), v))
    && (forall k :: k in book' && k !in book ==>
        k.service == service && exists v :: v in vs && k == VolumeId(service, v.name))
  }

  lemma RecordOneMore(service: string, vs: seq<VolumeConfig>, v: VolumeConfig, book: Book, front: Book, book': Book)
    requires RecordsFor(service, vs, book, front) && forall w :: w in vs ==> w.name != v.name
    requires book' == if VolumeId(service, v.name) in front then front
                      else front[VolumeId(service, v.name) := Created(VolumeId(service, v.name), v)]
    ensures RecordsFor(service, vs + [v], book, book')
  {
    var id, all := VolumeId(service, v.name), vs + [v];
    assert forall w :: w in all <==> w in vs || w == v;
    assert id in front <==> id in book;
    forall k | k in book' && k !in book
      ensures k.service == service && exists w :: w in all && k == VolumeId(service, w.name)
    {
      if k != id {
        var w :| w in vs && k == VolumeId(service, w.name);
        assert w in all;
      }
    }
  }

  lemma {:induction false} RecordVolumesMeaning(service: string, vs: seq<VolumeConfig>, book: Book)
    requires DistinctIn(vs)
    ensures RecordsFor(service, vs, book, RecordVolumes(service, vs, book))
  {
    if vs != [] {
      var xs, v := vs[..|vs| - 1], vs[|vs| - 1];
      RecordVolumesMeaning(service, xs, book);
      assert vs == xs + [v];
      assert forall w :: w in xs ==> w.name != v.name;
      RecordOneMore(service, xs, v, book, RecordVolumes(service, xs, book), RecordVolumes(service, vs, book));
    }
  }

  /** One more record adds what its volume newly needs. */
  lemma RecordReserves(service: string, v: VolumeConfig, front: Book, book: Book, m: string, id: string)
    requires v.sizeBytes >= 0 && (v.vtype.Local? ==> v.boundNode == m)
    requires VolumeId(service, v.name) in front <==> VolumeId(service, v.name) in book
    ensures var key := VolumeId(service, v.name);
            LocalOn(if key in front then front else front[key := Created(key, v)], id) ==
            LocalOn(front, id) + if id == m then NewBytes(service, [v], Local, book.Keys) else 0
  {
    var key := VolumeId(service, v.name);
    assert [v][1..] == [] && NewBytes(service, [], Local, book.Keys) == 0;
    LocalOnUpdate(front, key, Created(key, v), id);
  }

  lemma {:induction false} RecordVolumesReserves(service: string, vs: seq<VolumeConfig>, book: Book, m: string,
                                                 id: string)
    requires DistinctIn(vs) && forall v :: v in vs ==> v.sizeBytes >= 0 && (v.vtype.Local? ==> v.boundNode == m)
    ensures LocalOn(RecordVolumes(service, vs, book), id) ==
            LocalOn(book, id) + if id == m then NewBytes(service, vs, Local, book.Keys) else 0
  {
    if vs != [] {
      var xs, v := vs[..|vs| - 1], vs[|vs| - 1];
      var front := RecordVolumes(service, xs, book);
      RecordVolumesReserves(service, xs, book, m, id);
      assert v in vs && vs == xs + [v];
      RecordedBefore(service, xs, v, book);
      NewBytesAppend(service, xs, [v], Local, book.Keys);
      RecordReserves(service, v, front, book, m, id);
    }
  }

  lemma RecordedBefore(service: string, xs: seq<VolumeConfig>, v: VolumeConfig, book: Book)
    requires DistinctIn(xs + [v])
    ensures VolumeId(service, v.name) in RecordVolumes(service, xs, book) <==> VolumeId(service, v.name) in book
  {
    var vs := xs + [v];
    assert forall i :: 0 <= i < |xs| ==> vs[i] == xs[i] && vs[i].name != vs[|xs|].name;
    RecordVolumesMeaning(service, xs, book);
  }

  // ------------------------------------------------------- all placed services

  /** `book'` is `book` with a record created for every volume of `ss` that had none. */
  ghost predicate RecordsOf(ss: set<ServiceConfig>, book: Book, book': Book) {
    && (forall k :: k in book ==> k in book' && book'[k] == book[k])
    && (forall s, v :: s in ss && v in s.volumes ==> VolumeId(s.name, v.name) in book')
    && (forall s, v :: s in ss && v in s.volumes && VolumeId(s.name, v.name) !in book ==>
          book'[VolumeId(s.name, v.name)] == Created(VolumeId(s.name, v.name), v))
    && (forall k :: k in book' && k !in book ==> VolumeOf(ss, k))
  }

  ghost predicate VolumeOf(ss: set<ServiceConfig>, id: VolumeId) {
    exists s, v :: s in ss && v in s.volumes && id == VolumeId(s.name, v.name)
  }

  ghost predicate Strangers(a: set<ServiceConfig>, b: set<ServiceConfig>) {
    forall s, t :: s in a && t in b ==> s.name != t.name
  }

  function Members(ss: seq<ServiceConfig>): set<ServiceConfig> {
    set s | s in ss
  }

  lemma RecordsCompose(a: set<ServiceConfig>, b: set<ServiceConfig>, b0: Book, b1: Book, b2: Book)
    requires RecordsOf(a, b0, b1) && RecordsOf(b, b1, b2) && Strangers(a, b)
    ensures RecordsOf(a + b, b0, b2)
  {
    forall k ensures VolumeOf(a + b, k) <==> VolumeOf(a, k) || VolumeOf(b, k) {
      VolumeOfEither(a, b, k);
    }
    forall s, v | s in b && v in s.volumes ensures VolumeId(s.name, v.name) in b1 ==> VolumeId(s.name, v.name) in b0 {
      NotForStrangers(a, b, b0, b1, s, v);
    }
  }

  lemma VolumeOfEither(a: set<ServiceConfig>, b: set<ServiceConfig>, id: VolumeId)
    ensures VolumeOf(a + b, id) <==> VolumeOf(a, id) || VolumeOf(b, id)
  {
    assert forall s :: s in a + b <==> s in a || s in b;
  }

  lemma NotForStrangers(a: set<ServiceConfig>, b: set<ServiceConfig>, b0: Book, b1: Book, s: ServiceConfig,
                        v: VolumeConfig)
    requires RecordsOf(a, b0, b1) && Strangers(a, b) && s in b
    ensures VolumeId(s.name, v.name) in b1 ==> VolumeId(s.name, v.name) in b0
  {
  }

  lemma RecordedIds(ss: set<ServiceConfig>, book: Book, book': Book)
    requires RecordsOf(ss, book, book')
    ensures forall id :: id in book' <==> id in book || VolumeOf(ss, id)
  {
  }

  lemma RecordedOnce(ss: set<ServiceConfig>, book: Book, book': Book)
    requires RecordsOf(ss, book, book') && forall id :: VolumeOf(ss, id) ==> id in book
    ensures book' == book
  {
    RecordedIds(ss, book, book');
    assert book'.Keys == book.Keys;
  }

  lemma NothingYetRecorded(a: set<ServiceConfig>, b: set<ServiceConfig>, b0: Book, b1: Book)
    requires RecordsOf(a, b0, b1) && Strangers(a, b)
    ensures forall s, v :: s in b && v in s.volumes ==>
              (VolumeId(s.name, v.name) in b1 <==> VolumeId(s.name, v.name) in b0)
  {
  }

  lemma {:induction false} NewBytesFrame(service: string, vs: seq<VolumeConfig>, r: set<VolumeId>, r': set<VolumeId>)
    requires forall v :: v in vs ==> (VolumeId(service, v.name) in r <==> VolumeId(service, v.name) in r')
    ensures NewBytes(service, vs, Local, r) == NewBytes(service, vs, Local, r')
  {
    if vs != [] {
      assert vs[0] in vs;
      NewBytesFrame(service, vs[1..], r, r');
    }
  }

  lemma {:induction false} NewLocalFrame(ss: seq<ServiceConfig>, r: set<VolumeId>, r': set<VolumeId>)
    requires forall s, v :: s in ss && v in s.volumes ==>
               (VolumeId(s.name, v.name) in r <==> VolumeId(s.name, v.name) in r')
    ensures NewLocal(ss, r) == NewLocal(ss, r')
  {
    if ss != [] {
      assert ss[|ss| - 1] in ss;
      NewBytesFrame(ss[|ss| - 1].name, ss[|ss| - 1].volumes, r, r');
      NewLocalFrame(ss[..|ss| - 1], r, r');
    }
  }

  lemma LastStranger(ss: seq<ServiceConfig>)
    requires DistinctNames(ss) && ss != []
    ensures var xs, s := ss[..|ss| - 1], ss[|ss| - 1];
            s in ss && DistinctNames(xs) && (forall t :: t in xs ==> t in ss)
            && Strangers(Members(xs), {s}) && Members(ss) == Members(xs) + {s}
  {
    assert ss == ss[..|ss| - 1] + [ss[|ss| - 1]];
  }

  lemma {:induction false} RecordServicesMeaning(ss: seq<ServiceConfig>, book: Book)
    requires DistinctNames(ss) && forall s :: s in ss ==> DistinctVolumes(s)
    ensures RecordsOf(Members(ss), book, RecordServices(ss, book))
  {
    if ss != [] {
      var xs, s := ss[..|ss| - 1], ss[|ss| - 1];
      LastStranger(ss);
      RecordServicesMeaning(xs, book);
      var front := RecordServices(xs, book);
      RecordVolumesMeaning(s.name, s.volumes, front);
      assert RecordsOf({s}, front, RecordServices(ss, book));
      RecordsCompose(Members(xs), {s}, book, front, RecordServices(ss, book));
    }
  }

  lemma {:induction false} RecordServicesReserves(ss: seq<ServiceConfig>, book: Book, m: string, id: string)
    requires DistinctNames(ss) && forall s :: s in ss ==> PlacedForm(s, m)
    ensures LocalOn(RecordServices(ss, book), id) == LocalOn(book, id) + if id == m then NewLocal(ss, book.Keys) else 0
  {
    if ss != [] {
      var xs, s := ss[..|ss| - 1], ss[|ss| - 1];
      LastStranger(ss);
      RecordServicesReserves(xs, book, m, id);
      RecordServicesMeaning(xs, book);
      var front := RecordServices(xs, book);
      NothingYetRecorded(Members(xs), {s}, book, front);
      NewBytesFrame(s.name, s.volumes, book.Keys, front.Keys);
      RecordVolumesReserves(s.name, s.volumes, front, m, id);
    }
  }

  // ------------------------------------------------------------- all node configs

  ghost predicate ConfigsApart(configs: seq<NodeConfig>) {
    forall a, b, i, j ::
      0 <= a < |configs| && 0 <= b < |configs| && 0 <= i < |configs[a].services| && 0 <= j < |configs[b].services|
      && configs[a].services[i].name == configs[b].services[j].name
      ==> a == b && i == j
  }

  function Everyone(configs: seq<NodeConfig>): set<ServiceConfig> {
    set nc, s | nc in configs && s in nc.services :: s
  }

  ghost predicate ConfigsPlaced(configs: seq<NodeConfig>) {
    ConfigsApart(configs) && forall nc, s :: nc in configs && s in nc.services ==> PlacedForm(s, nc.node)
  }

  function NewLocalOn(configs: seq<NodeConfig>, id: string, recorded: set<VolumeId>): int {
    if configs == [] then 0
    else
      var last := configs[|configs| - 1];
      NewLocalOn(configs[..|configs| - 1], id, recorded)
      + if last.node == id then NewLocal(last.services, recorded) else 0
  }

  lemma LastConfig(configs: seq<NodeConfig>)
    requires ConfigsPlaced(configs) && configs != []
    ensures var xs, nc := configs[..|configs| - 1], configs[|configs| - 1];
            && ConfigsPlaced(xs) && DistinctNames(nc.services)
            && (forall s :: s in nc.services ==> PlacedForm(s, nc.node))
            && Strangers(Everyone(xs), Members(nc.services)) && Everyone(configs) == Everyone(xs) + Members(nc.services)
  {
    var k := |configs| - 1;
    var xs, nc := configs[..k], configs[k];
    assert configs == xs + [nc];
    assert nc in configs;
    LastAreStrangers(configs);
  }

  lemma LastAreStrangers(configs: seq<NodeConfig>)
    requires ConfigsApart(configs) && configs != []
    ensures Strangers(Everyone(configs[..|configs| - 1]), Members(configs[|configs| - 1].services))
  {
    var k := |configs| - 1;
    forall s, t | s in Everyone(configs[..k]) && t in Members(configs[k].services) ensures s.name != t.name {
      var a, i :| 0 <= a < k && 0 <= i < |configs[a].services| && configs[a].services[i] == s;
      var j :| 0 <= j < |configs[k].services| && configs[k].services[j] == t;
    }
  }

  lemma {:induction false} RecordAllMeaning(configs: seq<NodeConfig>, book: Book)
    requires ConfigsPlaced(configs)
    ensures RecordsOf(Everyone(configs), book, RecordAll(configs, book))
  {
    if configs != [] {
      var xs, nc := configs[..|configs| - 1], configs[|configs| - 1];
      LastConfig(configs);
      RecordAllMeaning(xs, book);
      RecordServicesMeaning(nc.services, RecordAll(xs, book));
      RecordsCompose(Everyone(xs), Members(nc.services), book, RecordAll(xs, book), RecordAll(configs, book));
    }
  }

  lemma {:induction false} RecordAllReserves(configs: seq<NodeConfig>, book: Book, id: string)
    requires ConfigsPlaced(configs)
    ensures LocalOn(RecordAll(configs, book), id) == LocalOn(book, id) + NewLocalOn(configs, id, book.Keys)
  {
    if configs != [] {
      var xs, nc := configs[..|configs| - 1], configs[|configs| - 1];
      LastConfig(configs);
      RecordAllReserves(xs, book, id);
      RecordAllMeaning(xs, book);
      var front := RecordAll(xs, book);
      NothingYetRecorded(Everyone(xs), Members(nc.services), book, front);
      NewLocalFrame(nc.services, book.Keys, front.Keys);
      RecordServicesReserves(nc.services, front, nc.node, id);
    }
  }
}
