/** One controller's acknowledgement pass over what the nodes last reported. */
module Acknowledgement {
  import opened Types
  import opened CasStore
  import opened VolumeRecords

  type Records = Store<VolumeId, VolumeRecord>

  /** How the accesses to one volume record go; a write that lands counts as through even if
      its answer is lost, for nobody looks at the answer. */
  datatype Way = Through | ReadFails | WriteFails

  /** A node's record as the pass meets it: whether it can be read, the volume statuses in it,
      and how the accesses for each of them go. */
  datatype NodeStatus = NodeStatus(readable: bool, node: string, observed: seq<Observed>, ways: nat -> Way)

  datatype Report = Report(node: string, o: Observed, way: Way)

  function ReportsOf(n: NodeStatus): seq<Report> {
    if !n.readable then []
    else seq(|n.observed|, i requires 0 <= i < |n.observed| => Report(n.node, n.observed[i], n.ways(i)))
  }

  function Reports(nodes: seq<NodeStatus>): seq<Report> {
    if nodes == [] then [] else Reports(nodes[..|nodes| - 1]) + ReportsOf(nodes[|nodes| - 1])
  }

  function AckOne(store: Records, r: Report): Records {
    match store.Get(r.o.id)
    case Missing => store
    case Seen(cell) =>
      if !r.way.Through? then store
      else
        match Acknowledge(cell.value, r.node, r.o)
        case None => store
        case Some(next) => store.Put(r.o.id, next)
  }

  function AckAll(store: Records, reports: seq<Report>): Records {
    if reports == [] then store else AckOne(AckAll(store, reports[..|reports| - 1]), reports[|reports| - 1])
  }

  lemma {:induction false} AckAllJoin(store: Records, xs: seq<Report>, ys: seq<Report>)
    ensures AckAll(store, xs + ys) == AckAll(AckAll(store, xs), ys)
  {
    if ys == [] {
      assert xs + ys == xs;
    } else {
      assert (xs + ys)[..|xs + ys| - 1] == xs + ys[..|ys| - 1];
      AckAllJoin(store, xs, ys[..|ys| - 1]);
    }
  }

  class Pass {
    var store: Records

    constructor (records: Records)
      ensures store == records
    {
      store := records;
    }

    /** The body of the innermost loop: the guards in order, then a conditional write. */
    method AcknowledgeVolume(node: string, o: Observed, way: Way)
      modifies this
      ensures store == AckOne(old(store), Report(node, o, way))
    {
      if o.state.Waiting? {
        return;
      }
      var snap := store.Get(o.id);
      if way.ReadFails? || snap.Missing? {
        return;
      }
      var record := snap.cell.value;
      if o.generation != record.generation || o.vtype != record.vtype {
        return;
      }
      match record.vtype {
        case Local =>
          if node != record.boundNode || o.boundNode != record.boundNode {
            return;
          }
        case Shared =>
          if o.sharedBackendId != record.sharedBackendId {
            return;
          }
        case Unknown =>
          return;
      }
      if o.state.InPlace? {
        if o.applied <= 0 || o.applied != record.desired {
          return;
        }
        if record.applied == o.applied && record.state.ResizeApplied? && record.lastError == "" {
          return;
        }
        record := record.(applied := o.applied, state := ResizeApplied, lastError := "");
      } else {
        if record.state.ResizeFailed? && record.lastError == o.lastError {
          return;
        }
        record := record.(state := ResizeFailed, lastError := o.lastError);
      }
      if !way.WriteFails? {
        store := store.PutIf(o.id, snap, record);
      }
    }

    /** acknowledgeVolumeRecords, with no other process writing meanwhile. Only failing to list
        the nodes is an error; a record that cannot be read or written is passed over. */
    method AcknowledgeVolumeRecords(listed: bool, nodes: seq<NodeStatus>) returns (ok: bool)
      modifies this
      ensures ok == listed
      ensures store == if ok then AckAll(old(store), Reports(nodes)) else old(store)
    {
      if !listed {
        return false;
      }
      var ni := 0;
      while ni < |nodes|
        invariant 0 <= ni <= |nodes| && store == AckAll(old(store), Reports(nodes[..ni]))
      {
        ghost var before := store;
        assert nodes[..ni + 1][..ni] == nodes[..ni];
        var observed := if nodes[ni].readable then nodes[ni].observed else [];
        var vi := 0;
        while vi < |observed|
          invariant 0 <= vi <= |observed| && store == AckAll(before, ReportsOf(nodes[ni])[..vi])
        {
          assert ReportsOf(nodes[ni])[..vi + 1][..vi] == ReportsOf(nodes[ni])[..vi];
          AcknowledgeVolume(nodes[ni].node, observed[vi], nodes[ni].ways(vi));
          vi := vi + 1;
        }
        assert ReportsOf(nodes[ni])[..vi] == ReportsOf(nodes[ni]);
        AckAllJoin(old(store), Reports(nodes[..ni]), ReportsOf(nodes[ni]));
        ni := ni + 1;
      }
      assert nodes[..ni] == nodes;
      ok := true;
    }
  }

  // ------------------------------------------------------------- what a pass comes to

  /** The report speaks for this record: same generation and type, from where it is bound, and
      the accesses it leads to go through. */
  predicate SpeaksFor(rep: Report, r: VolumeRecord) {
    && rep.way.Through? && !rep.o.state.Waiting? && rep.o.id == r.id && rep.o.generation == r.generation
    && rep.o.vtype == r.vtype
    && match r.vtype
       case Local => rep.node == r.boundNode && rep.o.boundNode == r.boundNode
       case Shared => rep.o.sharedBackendId == r.sharedBackendId
       case Unknown => false
  }

  /** The report says that the desired size is in place. */
  predicate Confirms(rep: Report, r: VolumeRecord) {
    SpeaksFor(rep, r) && rep.o.state.InPlace? && rep.o.applied == r.desired && rep.o.applied > 0
  }

  predicate Complains(rep: Report, r: VolumeRecord) {
    SpeaksFor(rep, r) && rep.o.state.Error?
  }

  /** The report has something to say about this record. */
  predicate Counts(rep: Report, r: VolumeRecord) {
    Confirms(rep, r) || Complains(rep, r)
  }

  /** What a pass over `reports` makes of `r`. Nobody has anything to say: nothing. Otherwise the
      last who does decides: a complaint marks the record failed with exactly its message, a
      confirmation applied without one; and the applied size is the desired one from the first
      confirmation on. */
  ghost predicate AckedTo(r: VolumeRecord, r': VolumeRecord, reports: seq<Report>) {
    && ((forall rep :: rep in reports ==> !Counts(rep, r)) ==> r' == r)
    && forall i :: 0 <= i < |reports| && IsLastWord(reports, r, i) ==>
         r' == if Complains(reports[i], r)
               then r.(applied := AppliedAfter(r, reports), state := ResizeFailed, lastError := reports[i].o.lastError)
               else r.(applied := r.desired, state := ResizeApplied, lastError := "")
  }

  ghost predicate IsLastWord(reports: seq<Report>, r: VolumeRecord, i: nat)
    requires i < |reports|
  {
    Counts(reports[i], r) && forall j :: i < j < |reports| ==> !Counts(reports[j], r)
  }

  /** There is a last word if there is any. */
  lemma {:induction false} LastWord(reports: seq<Report>, r: VolumeRecord) returns (i: nat)
    requires exists rep :: rep in reports && Counts(rep, r)
    ensures i < |reports| && IsLastWord(reports, r, i)
  {
    var n := |reports| - 1;
    if Counts(reports[n], r) {
      i := n;
    } else {
      assert reports == reports[..n] + [reports[n]];
      i := LastWord(reports[..n], r);
      assert forall j :: i < j < n ==> reports[..n][j] == reports[j];
    }
  }

  ghost function AppliedAfter(r: VolumeRecord, reports: seq<Report>): int {
    if exists rep :: rep in reports && Confirms(rep, r) then r.desired else r.applied
  }

  lemma AckedSize(r: VolumeRecord, mid: VolumeRecord, reports: seq<Report>)
    requires AckedTo(r, mid, reports)
    ensures mid == r.(applied := AppliedAfter(r, reports), state := mid.state, lastError := mid.lastError)
  {
    if exists x :: x in reports && Counts(x, r) {
      var i := LastWord(reports, r);
      assert Confirms(reports[i], r) ==> reports[i] in reports;
    }
  }

  /** A report without anything to say leaves the record and its last word alone. */
  lemma AckedByOthers(r: VolumeRecord, mid: VolumeRecord, reports: seq<Report>, rep: Report)
    requires AckedTo(r, mid, reports) && !Counts(rep, r)
    ensures AckedTo(r, mid, reports + [rep])
  {
    var all := reports + [rep];
    assert forall x :: x in all <==> x in reports || x == rep;
    forall i | 0 <= i < |all| && IsLastWord(all, r, i) ensures i < |reports| && IsLastWord(reports, r, i) {
      assert forall j :: i < j < |reports| ==> all[j] == reports[j];
    }
  }

  lemma AckedByLast(r: VolumeRecord, mid: VolumeRecord, reports: seq<Report>, rep: Report, r': VolumeRecord)
    requires AckedTo(r, mid, reports) && Counts(rep, r)
    requires r' == if Complains(rep, r) then mid.(state := ResizeFailed, lastError := rep.o.lastError)
                   else mid.(applied := r.desired, state := ResizeApplied, lastError := "")
    ensures AckedTo(r, r', reports + [rep])
  {
    var all, n := reports + [rep], |reports|;
    AckedSize(r, mid, reports);
    assert all[n] == rep && rep in all;
    assert forall x :: x in all <==> x in reports || x == rep;
    forall i | 0 <= i < n ensures !IsLastWord(all, r, i) {
      assert Counts(all[n], r);
    }
  }

  lemma AckOneMore(r: VolumeRecord, mid: VolumeRecord, reports: seq<Report>, rep: Report)
    requires AckedTo(r, mid, reports)
    ensures var next := if rep.way.Through? && rep.o.id == r.id then Acknowledge(mid, rep.node, rep.o) else None;
            AckedTo(r, if next.Some? then next.value else mid, reports + [rep])
  {
    AckedSize(r, mid, reports);
    var next := if rep.way.Through? && rep.o.id == r.id then Acknowledge(mid, rep.node, rep.o) else None;
    if Counts(rep, r) {
      AckedByLast(r, mid, reports, rep, if next.Some? then next.value else mid);
    } else {
      AckedByOthers(r, mid, reports, rep);
    }
  }

  /** A pass changes only what reports of the same generation, from where the volume is bound,
      speak for, whatever accesses fail, and the last report that confirms or complains decides
      how it leaves the record. */
  lemma {:induction false} PassAcknowledges(store: Records, reports: seq<Report>)
    requires forall id :: id in store.cells ==> store.cells[id].value.id == id
    ensures AckAll(store, reports).cells.Keys == store.cells.Keys
    ensures forall id :: id in store.cells ==>
              AckedTo(store.cells[id].value, AckAll(store, reports).cells[id].value, reports)
  {
    if reports != [] {
      var front, rep := reports[..|reports| - 1], reports[|reports| - 1];
      PassAcknowledges(store, front);
      assert reports == front + [rep];
      forall id | id in store.cells
        ensures AckedTo(store.cells[id].value, AckAll(store, reports).cells[id].value, reports)
      {
        AckOneMore(store.cells[id].value, AckAll(store, front).cells[id].value, front, rep);
      }
    }
  }
}
