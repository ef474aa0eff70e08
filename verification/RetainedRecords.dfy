/** What carrying the retained volume records into the desired services means, and that doing
    it again changes nothing. */
module RetainedRecords {
  import opened Types
  import opened Ordering
  import opened StorageFit
  import opened Scheduler
  import opened SchedulerProperties
  import opened SchedulerStability
  import opened SchedulerFixpoint
  import opened VolumeRecords
  import opened RecordBook

  /** What the enricher guarantees of published services. */
  ghost predicate Enriched(services: seq<ServiceConfig>) {
    DistinctNames(services) && NonNegative(services) && forall s :: s in services ==> DistinctVolumes(s)
  }

  // ------------------------------------------------------ what resolving records means

  /** The record can be carried over to the volume without a change. */
  predicate Usable(r: VolumeRecord, v: VolumeConfig) {
    && r.vtype == v.vtype && r.desired == v.sizeBytes
    && (r.vtype.Local? ==> r.boundNode != "") && (r.vtype.Shared? ==> r.sharedBackendId != "")
  }

  /** `v'` is the desired volume `v` as `book` retains it. */
  ghost predicate Carried(service: string, v: VolumeConfig, v': VolumeConfig, book: Book) {
    var id := VolumeId(service, v.name);
    && (id in book ==> Usable(book[id], v))
    && v' == if id in book
             then v.(boundNode := book[id].boundNode, sharedBackendId := book[id].sharedBackendId,
                     resizeGeneration := book[id].generation)
             else v.(resizeGeneration := 1)
  }

  ghost predicate CarriedAll(service: string, vs: seq<VolumeConfig>, vs': seq<VolumeConfig>, book: Book) {
    |vs'| == |vs| && forall i :: 0 <= i < |vs| ==> Carried(service, vs[i], vs'[i], book)
  }

  ghost predicate CarriedServices(ss: seq<ServiceConfig>, ss': seq<ServiceConfig>, book: Book) {
    && |ss'| == |ss|
    && forall i :: 0 <= i < |ss| ==>
         ss'[i] == ss[i].(volumes := ss'[i].volumes) && CarriedAll(ss[i].name, ss[i].volumes, ss'[i].volumes, book)
  }

  /** The record after a desired size was accepted. */
  function Accepted(r: VolumeRecord, size: int): VolumeRecord {
    if r.desired == size then r
    else r.(desired := size, generation := r.generation + 1, state := ResizePending, lastError := "")
  }

  ghost predicate AcceptedIn(service: string, vs: seq<VolumeConfig>, book: Book, book': Book) {
    && book'.Keys == book.Keys
    && (forall v :: v in vs && VolumeId(service, v.name) in book ==>
          book'[VolumeId(service, v.name)] == Accepted(book[VolumeId(service, v.name)], v.sizeBytes))
    && (forall id :: id in book && (id.service != service || forall v :: v in vs ==> v.name != id.volume) ==>
        book'[id] == book[id])
  }

  /** `book'` is `book` but for the record `id`. */
  ghost predicate OnlyAt(book: Book, book': Book, id: VolumeId) {
    book'.Keys == book.Keys && forall k :: k in book && k != id ==> book'[k] == book[k]
  }

  lemma CarriedElsewhere(service: string, vs: seq<VolumeConfig>, vs': seq<VolumeConfig>, book: Book, book': Book,
                         name: string)
    requires CarriedAll(service, vs, vs', book) && OnlyAt(book, book', VolumeId(service, name))
    requires forall v :: v in vs ==> v.name != name
    ensures CarriedAll(service, vs, vs', book')
  {
    forall i | 0 <= i < |vs| ensures Carried(service, vs[i], vs'[i], book') {
      assert Carried(service, vs[i], vs'[i], book) && vs[i] in vs;
    }
  }

  lemma AcceptOneMore(service: string, vs: seq<VolumeConfig>, v: VolumeConfig, book: Book, mid: Book, book': Book)
    requires AcceptedIn(service, vs, book, mid) && OnlyAt(mid, book', VolumeId(service, v.name))
    requires forall w :: w in vs ==> w.name != v.name
    requires VolumeId(service, v.name) in mid ==>
               book'[VolumeId(service, v.name)] == Accepted(mid[VolumeId(service, v.name)], v.sizeBytes)
    ensures AcceptedIn(service, vs + [v], book, book')
  {
  }

  lemma ResolveVolumesSplits(service: string, vs: seq<VolumeConfig>, book: Book)
    returns (front: Resolved<seq<VolumeConfig>>, last: Resolved<VolumeConfig>)
    requires vs != [] && ResolveVolumes(service, vs, book).Some?
    ensures ResolveVolumes(service, vs[..|vs| - 1], book) == Some(front)
    ensures ResolveVolume(service, vs[|vs| - 1], front.book) == Some(last)
    ensures ResolveVolumes(service, vs, book).value == Resolved(front.value + [last.value], last.book)
  {
    front := ResolveVolumes(service, vs[..|vs| - 1], book).value;
    last := ResolveVolume(service, vs[|vs| - 1], front.book).value;
  }

  lemma ResolveVolumeMeaning(service: string, v: VolumeConfig, book: Book, last: Resolved<VolumeConfig>)
    requires ResolveVolume(service, v, book) == Some(last)
    ensures Carried(service, v, last.value, last.book)
    ensures OnlyAt(book, last.book, VolumeId(service, v.name))
    ensures VolumeId(service, v.name) in book ==>
              last.book[VolumeId(service, v.name)] == Accepted(book[VolumeId(service, v.name)], v.sizeBytes)
  {
  }

  lemma CarriedAppend(service: string, vs: seq<VolumeConfig>, vs': seq<VolumeConfig>, v: VolumeConfig, v': VolumeConfig,
                      book: Book)
    requires CarriedAll(service, vs, vs', book) && Carried(service, v, v', book)
    ensures CarriedAll(service, vs + [v], vs' + [v'], book)
  {
  }

  lemma {:induction false} ResolveVolumesMeaning(service: string, vs: seq<VolumeConfig>, book: Book,
                                                 r: Resolved<seq<VolumeConfig>>)
    requires DistinctIn(vs) && ResolveVolumes(service, vs, book) == Some(r)
    ensures CarriedAll(service, vs, r.value, r.book)
    ensures AcceptedIn(service, vs, book, r.book)
    decreases |vs|
  {
    if vs != [] {
      var xs, v := vs[..|vs| - 1], vs[|vs| - 1];
      var front, last := ResolveVolumesSplits(service, vs, book);
      ResolveVolumesMeaning(service, xs, book, front);
      ResolveVolumeMeaning(service, v, front.book, last);
      CarriedElsewhere(service, xs, front.value, front.book, last.book, v.name);
      CarriedAppend(service, xs, front.value, v, last.value, last.book);
      AcceptOneMore(service, xs, v, book, front.book, last.book);
      assert vs == xs + [v];
    }
  }

  ghost predicate AcceptedServices(ss: seq<ServiceConfig>, book: Book, book': Book) {
    && book'.Keys == book.Keys
    && (forall s, v :: s in ss && v in s.volumes && VolumeId(s.name, v.name) in book ==>
          book'[VolumeId(s.name, v.name)] == Accepted(book[VolumeId(s.name, v.name)], v.sizeBytes))
    && (forall id :: id in book && (forall s, v :: s in ss && v in s.volumes ==> id != VolumeId(s.name, v.name)) ==>
        book'[id] == book[id])
  }

  /** `book'` is `book` but for records of one service. */
  ghost predicate OnlyOf(book: Book, book': Book, service: string) {
    book'.Keys == book.Keys && forall k :: k in book && k.service != service ==> book'[k] == book[k]
  }

  lemma CarriedInOthers(ss: seq<ServiceConfig>, ss': seq<ServiceConfig>, book: Book, book': Book, name: string)
    requires CarriedServices(ss, ss', book) && OnlyOf(book, book', name) && forall s :: s in ss ==> s.name != name
    ensures CarriedServices(ss, ss', book')
  {
    forall i | 0 <= i < |ss| ensures CarriedAll(ss[i].name, ss[i].volumes, ss'[i].volumes, book') {
      assert CarriedAll(ss[i].name, ss[i].volumes, ss'[i].volumes, book) && ss[i] in ss;
      forall j | 0 <= j < |ss[i].volumes| ensures Carried(ss[i].name, ss[i].volumes[j], ss'[i].volumes[j], book') {
        assert Carried(ss[i].name, ss[i].volumes[j], ss'[i].volumes[j], book);
      }
    }
  }

  lemma AcceptOneService(ss: seq<ServiceConfig>, s: ServiceConfig, book: Book, mid: Book, book': Book)
    requires AcceptedServices(ss, book, mid) && AcceptedIn(s.name, s.volumes, mid, book')
    requires forall t :: t in ss ==> t.name != s.name
    ensures AcceptedServices(ss + [s], book, book')
  {
    var all := ss + [s];
    assert forall t :: t in all <==> t in ss || t == s;
    forall t, v | t in all && v in t.volumes && VolumeId(t.name, v.name) in book
      ensures book'[VolumeId(t.name, v.name)] == Accepted(book[VolumeId(t.name, v.name)], v.sizeBytes)
    {
      assert t == s ==> mid[VolumeId(t.name, v.name)] == book[VolumeId(t.name, v.name)];
    }
    forall id | id in book && (forall t, v :: t in all && v in t.volumes ==> id != VolumeId(t.name, v.name))
      ensures book'[id] == book[id]
    {
      assert mid[id] == book[id];
      assert id.service == s.name ==> forall v :: v in s.volumes ==> v.name != id.volume;
    }
  }

  lemma LastApart(ss: seq<ServiceConfig>)
    requires DistinctNames(ss) && ss != []
    ensures var xs, s := ss[..|ss| - 1], ss[|ss| - 1];
            && ss == xs + [s] && s in ss && DistinctNames(xs)
            && forall t :: t in xs ==> t in ss && t.name != s.name
  {
  }

  lemma ResolveSplits(ss: seq<ServiceConfig>, book: Book)
    returns (front: Resolved<seq<ServiceConfig>>, last: Resolved<seq<VolumeConfig>>)
    requires ss != [] && Resolve(ss, book).Some?
    ensures Resolve(ss[..|ss| - 1], book) == Some(front)
    ensures ResolveVolumes(ss[|ss| - 1].name, ss[|ss| - 1].volumes, front.book) == Some(last)
    ensures Resolve(ss, book).value == Resolved(front.value + [ss[|ss| - 1].(volumes := last.value)], last.book)
  {
    front := Resolve(ss[..|ss| - 1], book).value;
    last := ResolveVolumes(ss[|ss| - 1].name, ss[|ss| - 1].volumes, front.book).value;
  }

  lemma CarriedServicesAppend(ss: seq<ServiceConfig>, ss': seq<ServiceConfig>, s: ServiceConfig,
                              volumes: seq<VolumeConfig>, book: Book)
    requires CarriedServices(ss, ss', book) && CarriedAll(s.name, s.volumes, volumes, book)
    ensures CarriedServices(ss + [s], ss' + [s.(volumes := volumes)], book)
  {
  }

  /** Resolving either fails or hands every volume exactly what its record retains; it
      changes a record only where the desired size differs, by one generation. */
  lemma {:induction false} ResolveMeaning(ss: seq<ServiceConfig>, book: Book, r: Resolved<seq<ServiceConfig>>)
    requires DistinctNames(ss) && (forall s :: s in ss ==> DistinctVolumes(s)) && Resolve(ss, book) == Some(r)
    ensures CarriedServices(ss, r.value, r.book)
    ensures AcceptedServices(ss, book, r.book)
    decreases |ss|
  {
    if ss != [] {
      var xs, s := ss[..|ss| - 1], ss[|ss| - 1];
      LastApart(ss);
      var front, last := ResolveSplits(ss, book);
      ResolveMeaning(xs, book, front);
      ResolveVolumesMeaning(s.name, s.volumes, front.book, last);
      CarriedInOthers(xs, front.value, front.book, last.book, s.name);
      CarriedServicesAppend(xs, front.value, s, last.value, last.book);
      AcceptOneService(xs, s, book, front.book, last.book);
    }
  }

  /** A second resolve finds nothing to change. */
  lemma {:induction false} CarriedResolves(service: string, vs: seq<VolumeConfig>, vs': seq<VolumeConfig>, book: Book)
    requires CarriedAll(service, vs, vs', book)
    ensures ResolveVolumes(service, vs, book) == Some(Resolved(vs', book))
  {
    if vs != [] {
      var k := |vs| - 1;
      CarriedResolves(service, vs[..k], vs'[..k], book);
      assert vs' == vs'[..k] + [vs'[k]];
    }
  }

  lemma {:induction false} CarriedServicesResolve(ss: seq<ServiceConfig>, ss': seq<ServiceConfig>, book: Book)
    requires CarriedServices(ss, ss', book)
    ensures Resolve(ss, book) == Some(Resolved(ss', book))
  {
    if ss != [] {
      var k := |ss| - 1;
      CarriedServicesResolve(ss[..k], ss'[..k], book);
      CarriedResolves(ss[k].name, ss[k].volumes, ss'[k].volumes, book);
      assert ss' == ss'[..k] + [ss'[k]];
    }
  }
}
