/** One controller pass over the volume records it loaded: carry retained bindings and new
    sizes into the desired services, count what is reserved, and record newly placed
    volumes. Conditional writes may lose to another process; then the pass gives up. */
module RecordBook {
  import opened Types
  import opened Sums
  import opened VolumeRecords
  import opened StorageFit

  type Book = map<VolumeId, VolumeRecord>

  // ------------------------------------------------- retained records into services

  function WithRecord(v: VolumeConfig, r: VolumeRecord): VolumeConfig {
    v.(boundNode := r.boundNode, sharedBackendId := r.sharedBackendId, resizeGeneration := r.generation)
  }

  datatype Resolved<T> = Resolved(value: T, book: Book)

  /** One volume of applyExistingVolumeRecords; None is an error that ends the pass. */
  function ResolveVolume(service: string, v: VolumeConfig, book: Book): Option<Resolved<VolumeConfig>> {
    var id := VolumeId(service, v.name);
    if id !in book then Some(Resolved(v.(resizeGeneration := 1), book))
    else
      var r := book[id];
      if r.vtype != v.vtype || (r.vtype.Local? && r.boundNode == "")
        || (r.vtype.Shared? && r.sharedBackendId == "") then None
      else if r.desired == v.sizeBytes then Some(Resolved(WithRecord(v, r), book))
      else
        var r' := Resized(r, v.sizeBytes);
        Some(Resolved(WithRecord(v, r'), book[id := r']))
  }

  function ResolveVolumes(service: string, vs: seq<VolumeConfig>, book: Book): Option<Resolved<seq<VolumeConfig>>> {
    if vs == [] then Some(Resolved([], book))
    else
      match ResolveVolumes(service, vs[..|vs| - 1], book)
      case None => None
      case Some(front) =>
        match ResolveVolume(service, vs[|vs| - 1], front.book)
        case None => None
        case Some(last) => Some(Resolved(front.value + [last.value], last.book))
  }

  function Resolve(ss: seq<ServiceConfig>, book: Book): Option<Resolved<seq<ServiceConfig>>> {
    if ss == [] then Some(Resolved([], book))
    else
      match Resolve(ss[..|ss| - 1], book)
      case None => None
      case Some(front) =>
        var s := ss[|ss| - 1];
        match ResolveVolumes(s.name, s.volumes, front.book)
        case None => None
        case Some(last) => Some(Resolved(front.value + [s.(volumes := last.value)], last.book))
  }

  /** The volumes before `at` are carried over. The one at `at` is not: its conditional write was
      lost, or it cannot be carried at all. */
  ghost predicate VolumesStopAt(service: string, vs: seq<VolumeConfig>, loaded: Book, book: Book, at: nat, lost: bool,
                                wins: VolumeId -> bool)
  {
    && at < |vs|
    && ResolveVolumes(service, vs[..at], loaded).Some? && ResolveVolumes(service, vs[..at], loaded).value.book == book
    && (lost <==> ResolveVolume(service, vs[at], book).Some?)
    && (lost ==> !wins(VolumeId(service, vs[at].name)))
  }

  ghost predicate ServicesStopAt(ss: seq<ServiceConfig>, loaded: Book, book: Book, si: nat, vi: nat, lost: bool,
                                 wins: VolumeId -> bool)
  {
    && si < |ss| && Resolve(ss[..si], loaded).Some?
    && VolumesStopAt(ss[si].name, ss[si].volumes, Resolve(ss[..si], loaded).value.book, book, vi, lost, wins)
  }

  lemma {:induction false} VolumesCannotResolve(service: string, vs: seq<VolumeConfig>, book: Book, n: nat)
    requires n <= |vs| && ResolveVolumes(service, vs[..n], book).None?
    ensures ResolveVolumes(service, vs, book).None?
  {
    if n < |vs| {
      assert vs[..|vs| - 1][..n] == vs[..n];
      VolumesCannotResolve(service, vs[..|vs| - 1], book, n);
    } else {
      assert vs[..n] == vs;
    }
  }

  lemma {:induction false} ServicesCannotResolve(ss: seq<ServiceConfig>, book: Book, n: nat)
    requires n <= |ss| && Resolve(ss[..n], book).None?
    ensures Resolve(ss, book).None?
  {
    if n < |ss| {
      assert ss[..|ss| - 1][..n] == ss[..n];
      ServicesCannotResolve(ss[..|ss| - 1], book, n);
    } else {
      assert ss[..n] == ss;
    }
  }

  /** Stopping without a lost write means that the services cannot be resolved at all. */
  lemma StoppedCannotResolve(ss: seq<ServiceConfig>, loaded: Book, book: Book, si: nat, vi: nat, lost: bool,
                             wins: VolumeId -> bool)
    requires ServicesStopAt(ss, loaded, book, si, vi, lost, wins)
    ensures !lost ==> Resolve(ss, loaded).None?
  {
    if !lost {
      var vs, upTo := ss[si].volumes, ss[..si + 1];
      assert vs[..vi + 1][..vi] == vs[..vi] && upTo[..si] == ss[..si];
      VolumesCannotResolve(ss[si].name, vs, Resolve(ss[..si], loaded).value.book, vi + 1);
      ServicesCannotResolve(ss, loaded, si + 1);
    }
  }

  /** The pass in progress: the services it edits and the records it loaded. */
  class Pass {
    var services: seq<ServiceConfig>
    var book: Book

    constructor (desired: seq<ServiceConfig>, loaded: Book)
      ensures services == desired && book == loaded
    {
      services, book := desired, loaded;
    }

    /** A conditional write: another process may have written first. */
    method PutIfUnchanged(id: VolumeId, r: VolumeRecord, wins: VolumeId -> bool) returns (ok: bool)
      modifies this`book
      ensures ok == wins(id) && book == if ok then old(book)[id := r] else old(book)
    {
      ok := wins(id);
      if ok {
        book := book[id := r];
      }
    }

    /** One turn of the inner loop of applyExistingVolumeRecords. */
    method ApplyExistingVolumeRecord(service: string, wanted: VolumeConfig, wins: VolumeId -> bool)
      returns (ok: bool, v: VolumeConfig, ghost lost: bool)
      modifies this`book
      ensures ok ==> ResolveVolume(service, wanted, old(book)) == Some(Resolved(v, book))
      ensures !ok ==> book == old(book) && (lost <==> ResolveVolume(service, wanted, book).Some?)
      ensures lost ==> !ok && !wins(VolumeId(service, wanted.name))
    {
      v, lost := wanted, false;
      var id := VolumeId(service, v.name);
      if id !in book {
        v := v.(resizeGeneration := 1);
        return true, v, false;
      }
      var r := book[id];
      if r.vtype != v.vtype || (r.vtype.Local? && r.boundNode == "") || (r.vtype.Shared? && r.sharedBackendId == "") {
        return false, v, false;
      }
      v := v.(boundNode := r.boundNode, sharedBackendId := r.sharedBackendId, resizeGeneration := r.generation);
      if r.desired == v.sizeBytes {
        return true, v, false;
      }
      r := r.(desired := v.sizeBytes, generation := r.generation + 1, state := ResizePending, lastError := "");
      ok := PutIfUnchanged(id, r, wins);
      lost := !ok;
      v := v.(resizeGeneration := r.generation);
    }

    /** The inner loop; `at` is the volume it stopped at. */
    method ApplyExistingToService(service: string, wanted: seq<VolumeConfig>, wins: VolumeId -> bool)
      returns (ok: bool, volumes: seq<VolumeConfig>, ghost lost: bool, ghost at: nat)
      modifies this`book
      ensures ok ==> ResolveVolumes(service, wanted, old(book)) == Some(Resolved(volumes, book))
      ensures !ok ==> VolumesStopAt(service, wanted, old(book), book, at, lost, wins)
      ensures lost ==> !ok && exists id :: !wins(id)
    {
      volumes, lost, at := wanted, false, 0;
      var vi := 0;
      while vi < |volumes|
        invariant 0 <= vi <= |volumes| == |wanted| && !lost
        invariant volumes[vi..] == wanted[vi..]
        invariant ResolveVolumes(service, wanted[..vi], old(book)) == Some(Resolved(volumes[..vi], book))
      {
        assert volumes[vi] == volumes[vi..][0] == wanted[vi..][0];
        ghost var front, upTo := volumes[..vi], wanted[..vi + 1];
        assert upTo[..vi] == wanted[..vi];
        var v: VolumeConfig;
        ok, v, lost := ApplyExistingVolumeRecord(service, volumes[vi], wins);
        if !ok {
          at := vi;
          return;
        }
        volumes := volumes[vi := v];
        assert volumes[..vi + 1] == front + [v];
        vi := vi + 1;
        assert volumes[vi..] == wanted[vi..];
      }
      assert wanted[..vi] == wanted && volumes[..vi] == volumes;
      ok := true;
    }

    /** applyExistingVolumeRecords: edits the desired services in place. It stops at the first
        volume it cannot carry over, or whose conditional write is lost to another process,
        with the records of all before it updated; no other failure is possible. */
    method ApplyExistingVolumeRecords(wins: VolumeId -> bool) returns (ok: bool, ghost lost: bool)
      modifies this
      ensures ok ==> Resolve(old(services), old(book)) == Some(Resolved(services, book))
      ensures ok <==> Resolve(old(services), old(book)).Some? && !lost
      ensures lost ==> exists id :: !wins(id)
      ensures !ok ==> exists si, vi :: ServicesStopAt(old(services), old(book), book, si, vi, lost, wins)
    {
      ghost var wanted := services;
      lost := false;
      var si := 0;
      while si < |services|
        invariant 0 <= si <= |services| == |wanted| && !lost
        invariant services[si..] == wanted[si..]
        invariant Resolve(wanted[..si], old(book)) == Some(Resolved(services[..si], book))
      {
        assert services[si] == services[si..][0] == wanted[si..][0];
        ghost var front, upTo := services[..si], wanted[..si + 1];
        assert upTo[..si] == wanted[..si];
        var volumes: seq<VolumeConfig>;
        ghost var at: nat;
        ok, volumes, lost, at := ApplyExistingToService(services[si].name, services[si].volumes, wins);
        if !ok {
          assert ServicesStopAt(wanted, old(book), book, si, at, lost, wins);
          StoppedCannotResolve(wanted, old(book), book, si, at, lost, wins);
          return;
        }
        services := services[si := services[si].(volumes := volumes)];
        assert services[..si + 1] == front + [wanted[si].(volumes := volumes)];
        si := si + 1;
        assert services[si..] == wanted[si..];
      }
      assert wanted[..si] == wanted && services[..si] == services;
      ok := true;
    }

    /** The inner loop of createAssignedVolumeRecords; `at` is the volume it stopped at. */
    method CreateForService(service: ServiceConfig, wins: VolumeId -> bool) returns (ok: bool, ghost at: nat)
      modifies this`book
      ensures ok ==> book == RecordVolumes(service.name, service.volumes, old(book))
      ensures !ok ==> at < |service.volumes| && book == RecordVolumes(service.name, service.volumes[..at], old(book))
      ensures !ok ==> var id := VolumeId(service.name, service.volumes[at].name); id !in book && !wins(id)
    {
      var volumes := service.volumes;
      at := 0;
      var vi := 0;
      while vi < |volumes|
        invariant 0 <= vi <= |volumes| && book == RecordVolumes(service.name, volumes[..vi], old(book))
      {
        assert volumes[..vi + 1][..vi] == volumes[..vi];
        var id := VolumeId(service.name, volumes[vi].name);
        if id !in book {
          var v := volumes[vi];
          ok := PutIfUnchanged(id, VolumeRecord(id, v.vtype, v.boundNode, v.sharedBackendId, v.sizeBytes, 0,
                                                Max(1, v.resizeGeneration), ResizePending, ""), wins);
          if !ok {
            at := vi;
            return;
          }
        }
        vi := vi + 1;
      }
      assert volumes[..vi] == volumes;
      ok := true;
    }

    /** createAssignedVolumeRecords */
    method CreateAssignedVolumeRecords(configs: seq<NodeConfig>, wins: VolumeId -> bool) returns (ok: bool)
      modifies this`book
      ensures ok ==> book == RecordAll(configs, old(book))
      ensures !ok ==> exists ni, si, vi :: RecordedUpTo(configs, old(book), book, ni, si, vi, wins)
    {
      ghost var loaded := book;
      var ni := 0;
      while ni < |configs|
        invariant 0 <= ni <= |configs| && book == RecordAll(configs[..ni], loaded)
      {
        var services := configs[ni].services;
        ghost var atNode := book;
        assert configs[..ni + 1][..ni] == configs[..ni];
        var si := 0;
        while si < |services|
          invariant 0 <= si <= |services| && book == RecordServices(services[..si], atNode)
        {
          assert services[..si + 1][..si] == services[..si];
          ghost var at: nat;
          ok, at := CreateForService(services[si], wins);
          if !ok {
            assert RecordedUpTo(configs, loaded, book, ni, si, at, wins);
            return;
          }
          si := si + 1;
        }
        assert services[..si] == services;
        ni := ni + 1;
      }
      assert configs[..ni] == configs;
      return true;
    }
  }

  // ---------------------------------------------------- newly placed volumes recorded

  function RecordVolumes(service: string, vs: seq<VolumeConfig>, book: Book): Book {
    if vs == [] then book
    else
      var front := RecordVolumes(service, vs[..|vs| - 1], book);
      var v := vs[|vs| - 1];
      var id := VolumeId(service, v.name);
      if id in front then front else front[id := Created(id, v)]
  }

  function RecordServices(ss: seq<ServiceConfig>, book: Book): Book {
    if ss == [] then book
    else RecordVolumes(ss[|ss| - 1].name, ss[|ss| - 1].volumes, RecordServices(ss[..|ss| - 1], book))
  }

  /** Records were created for the placed volumes before this one, whose write was lost. */
  ghost predicate RecordedUpTo(configs: seq<NodeConfig>, loaded: Book, book: Book, ni: nat, si: nat, vi: nat,
                               wins: VolumeId -> bool)
  {
    && ni < |configs| && si < |configs[ni].services| && vi < |configs[ni].services[si].volumes|
    && var service := configs[ni].services[si];
    && var before := RecordServices(configs[ni].services[..si], RecordAll(configs[..ni], loaded));
    && book == RecordVolumes(service.name, service.volumes[..vi], before)
    && VolumeId(service.name, service.volumes[vi].name) !in book
    && !wins(VolumeId(service.name, service.volumes[vi].name))
  }

  function RecordAll(configs: seq<NodeConfig>, book: Book): Book {
    if configs == [] then book
    else RecordServices(configs[|configs| - 1].services, RecordAll(configs[..|configs| - 1], book))
  }

  // ---------------------------------------------------------------- reservations

  function Reserve(r: VolumeRecord): int {
    Max(r.desired, r.applied)
  }

  predicate HeldOn(r: VolumeRecord, node: string) {
    r.vtype.Local? && r.boundNode == node
  }

  /** Bytes that the retained local records reserve on a node. */
  ghost function LocalOn(book: Book, node: string): int {
    Sum(map id | id in book && HeldOn(book[id], node) :: Reserve(book[id]))
  }

  /** Adding or replacing one record changes the reservation of its node by its share. */
  lemma LocalOnUpdate(book: Book, id: VolumeId, r: VolumeRecord, node: string)
    ensures LocalOn(book[id := r], node) ==
            LocalOn(book, node) + (if HeldOn(r, node) then Reserve(r) else 0)
            - (if id in book && HeldOn(book[id], node) then Reserve(book[id]) else 0)
  {
    var before := map k | k in book && HeldOn(book[k], node) :: Reserve(book[k]);
    var updated := book[id := r];
    var after := map k | k in updated && HeldOn(updated[k], node) :: Reserve(updated[k]);
    if HeldOn(r, node) {
      assert after == before[id := Reserve(r)];
      SumInsert(before, id, Reserve(r));
    } else if id in before {
      assert after == before - {id};
      SumTakesOut(before, id);
    } else {
      assert after == before;
    }
  }

  /** What the local records of a node want there, and what they last had there. */
  ghost function DesiredOn(book: Book, node: string): int {
    Sum(map id | id in book && book[id].vtype.Local? && book[id].boundNode == node :: book[id].desired)
  }

  ghost function AppliedOn(book: Book, node: string): int {
    Sum(map id | id in book && book[id].vtype.Local? && book[id].boundNode == node :: book[id].applied)
  }

  /** What a node reserves covers both: until a shrink is confirmed, the bytes it has not given
      back yet. */
  lemma LocalOnCovers(book: Book, node: string)
    ensures DesiredOn(book, node) <= LocalOn(book, node) && AppliedOn(book, node) <= LocalOn(book, node)
    ensures LocalOn(book, node) ==
            Sum(map id | id in book && book[id].vtype.Local? && book[id].boundNode == node ::
                  if book[id].applied > book[id].desired then book[id].applied else book[id].desired)
  {
    var held := map id | id in book && HeldOn(book[id], node) :: Reserve(book[id]);
    SumMonotone(map id | id in book && book[id].vtype.Local? && book[id].boundNode == node :: book[id].desired, held);
    SumMonotone(map id | id in book && book[id].vtype.Local? && book[id].boundNode == node :: book[id].applied, held);
    assert held == map id | id in book && book[id].vtype.Local? && book[id].boundNode == node ::
                     if book[id].applied > book[id].desired then book[id].applied else book[id].desired;
  }

  /** `res` counts exactly the records in `book`. */
  ghost predicate Counts(res: Reservations, book: Book) {
    && res.recorded == book.Keys && !res.sharedEnabled
    && forall node :: Lookup(res.localByNode, node) == LocalOn(book, node)
  }

  /** What the records of a shared backend reserve there. */
  ghost function SharedOn(book: Book, backend: string): int {
    Sum(map id | id in book && !book[id].vtype.Local? && book[id].sharedBackendId == backend ::
          if book[id].applied > book[id].desired then book[id].applied else book[id].desired)
  }

  lemma SharedOnInsert(book: Book, id: VolumeId, r: VolumeRecord, backend: string)
    requires id !in book
    ensures SharedOn(book[id := r], backend) ==
            SharedOn(book, backend)
            + if r.vtype.Local? || r.sharedBackendId != backend then 0
              else if r.applied > r.desired then r.applied else r.desired
  {
    var before := map k | k in book && !book[k].vtype.Local? && book[k].sharedBackendId == backend ::
                    if book[k].applied > book[k].desired then book[k].applied else book[k].desired;
    var updated := book[id := r];
    var after := map k | k in updated && !updated[k].vtype.Local? && updated[k].sharedBackendId == backend ::
                   if updated[k].applied > updated[k].desired then updated[k].applied else updated[k].desired;
    if !r.vtype.Local? && r.sharedBackendId == backend {
      var size := if r.applied > r.desired then r.applied else r.desired;
      assert after == before[id := size];
      SumInsert(before, id, size);
    } else {
      assert after == before;
    }
  }

  ghost predicate CountsShared(res: Reservations, book: Book) {
    forall backend :: Lookup(res.sharedByBackend, backend) == SharedOn(book, backend)
  }

  /** The body of the reservation loop. */
  method CountRecord(res: Reservations, id: VolumeId, r: VolumeRecord, ghost seen: Book) returns (res': Reservations)
    requires Counts(res, seen) && CountsShared(res, seen) && id !in seen
    ensures Counts(res', seen[id := r]) && CountsShared(res', seen[id := r])
  {
    var size := r.desired;
    if r.applied > size {
      size := r.applied;
    }
    res' := res.(recorded := res.recorded + {id});
    if r.vtype.Local? {
      res' := res'.(localByNode := res'.localByNode[r.boundNode := Lookup(res'.localByNode, r.boundNode) + size]);
    } else {
      res' := res'.(sharedByBackend :=
                    res'.sharedByBackend[r.sharedBackendId := Lookup(res'.sharedByBackend, r.sharedBackendId) + size]);
    }
    forall node ensures Lookup(res'.localByNode, node) == LocalOn(seen[id := r], node) {
      LocalOnUpdate(seen, id, r, node);
    }
    forall backend ensures Lookup(res'.sharedByBackend, backend) == SharedOn(seen[id := r], backend) {
      SharedOnInsert(seen, id, r, backend);
    }
  }

  /** storageReservations: ranges over the records in any order. */
  method StorageReservations(book: Book) returns (res: Reservations)
    ensures Counts(res, book) && CountsShared(res, book)
    ensures forall node :: Lookup(res.localByNode, node) >= DesiredOn(book, node)
    ensures forall node :: Lookup(res.localByNode, node) >= AppliedOn(book, node)
  {
    res := Reservations(map[], map[], {}, false);
    ghost var seen: Book := map[];
    var todo := book.Keys;
    while todo != {}
      invariant todo <= book.Keys && seen == map id | id in book && id !in todo :: book[id]
      invariant Counts(res, seen) && CountsShared(res, seen)
      decreases |todo|
    {
      var id :| id in todo;
      res := CountRecord(res, id, book[id], seen);
      todo := todo - {id};
      seen := seen[id := book[id]];
    }
    assert seen == book;
    forall node ensures Lookup(res.localByNode, node) >= DesiredOn(book, node)
                ensures Lookup(res.localByNode, node) >= AppliedOn(book, node)
    {
      LocalOnCovers(book, node);
    }
  }
}
