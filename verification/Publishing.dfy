/** The publishing code of one process: its loops issue the store accesses of the publishing
    programs in their order, and a failed access ends them there. */
module Publishing {
  import opened Types
  import opened CasStore
  import opened Pointers

  /** How one try of a pointer update goes: whether the read fails, what the others write to
      the pointer before the conditional write, and how that ends. */
  datatype Try = Try(readFails: bool, others: seq<string>, fate: Fate)

  /** How the accesses of a publishing pass go: what stillLeader answers before each half, the
      writes of the placement and of each node's files, the listing and the deletes of the
      cleanup, and the two pointer updates. */
  datatype Course = Course(
    leads: (bool, bool), fate: Fate, fates: nat -> (Fate, Fate), listed: bool, cleanup: Key -> Fate,
    tries: (seq<Try>, seq<Try>))
  {
    predicate Valid() {
      |tries.0| == |tries.1| == 6
    }

    ghost predicate WritesFine() {
      listed && (forall i :: fates(i).0.Fine? && fates(i).1.Fine?) && forall k :: cleanup(k).Fine?
    }

    /** Nothing goes wrong. */
    ghost predicate Smooth() {
      leads.0 && leads.1 && fate.Fine? && WritesFine() && !Hampered(tries.0) && !Hampered(tries.1)
    }
  }

  /** An access of a pointer update gets no answer, or others write the pointer during each try. */
  ghost predicate Hampered(tries: seq<Try>) {
    (exists t :: t in tries && (t.readFails || !t.fate.Fine?)) || forall t :: t in tries ==> t.others != []
  }

  function Play(s: Store<Pointer, string>, ptr: Pointer, revs: seq<string>): Store<Pointer, string> {
    if revs == [] then s else Play(s, ptr, revs[..|revs| - 1]).Put(ptr, revs[|revs| - 1])
  }

  lemma {:induction false} PlayKeepsHonest(s: Store<Pointer, string>, ptr: Pointer, revs: seq<string>,
                                           snap: Snap<string>)
    requires s.Valid() && s.HonestSnap(ptr, snap)
    ensures Play(s, ptr, revs).Valid() && Play(s, ptr, revs).HonestSnap(ptr, snap)
    ensures forall q :: q != ptr ==> Play(s, ptr, revs).Get(q) == s.Get(q)
  {
    if revs != [] {
      PlayKeepsHonest(s, ptr, revs[..|revs| - 1], snap);
    }
  }

  /** Another process wrote this. */
  ghost predicate OfOthers(snap: Snap<string>, tries: seq<Try>) {
    snap.Seen? && exists t :: t in tries && snap.cell.value in t.others
  }

  /** upsertPointer: tries up to six times. `error` covers a failed access and six conflicts;
      `wrote` tells whether the write of this call went through. */
  method UpsertPointer(store: Store<Pointer, string>, ptr: Pointer, rev: string, tries: seq<Try>)
    returns (store': Store<Pointer, string>, error: bool, wrote: bool)
    requires store.Valid() && |tries| == 6
    ensures store'.Valid()
    ensures !error ==> wrote
    ensures error ==> Hampered(tries)
    ensures wrote ==> ptr in store'.cells && store'.cells[ptr].value == rev
    ensures !wrote ==> store'.Get(ptr) == store.Get(ptr) || OfOthers(store'.Get(ptr), tries)
    ensures forall q :: q != ptr ==> store'.Get(q) == store.Get(q)
  {
    store', wrote := store, false;
    for i := 0 to TRIES
      invariant store'.Valid() && !wrote
      invariant forall j :: 0 <= j < i ==> tries[j].others != []
      invariant store'.Get(ptr) == store.Get(ptr) || OfOthers(store'.Get(ptr), tries)
      invariant forall q :: q != ptr ==> store'.Get(q) == store.Get(q)
    {
      var t := tries[i];
      assert t in tries;
      if t.readFails {
        return store', true, false;
      }
      var snap := store'.Get(ptr);
      PlayKeepsHonest(store', ptr, t.others, snap);
      PlayedLast(store', ptr, t.others);
      store' := Play(store', ptr, t.others);
      if t.fate.Error? {
        return store', true, false;
      }
      if store'.Unchanged(ptr, snap) {
        store' := store'.Put(ptr, rev);
        return store', t.fate.Unknown?, true;
      }
      if t.fate.Unknown? {
        return store', true, false;
      }
    }
    error := true;
  }

  lemma PlayedLast(s: Store<Pointer, string>, ptr: Pointer, revs: seq<string>)
    ensures revs == [] ==> Play(s, ptr, revs) == s
    ensures revs != [] ==>
              revs[|revs| - 1] in revs && Play(s, ptr, revs).Get(ptr).Seen?
                && Play(s, ptr, revs).Get(ptr).cell.value == revs[|revs| - 1]
  {
  }

  /** `made` is `before` and the first so many actions of the program. */
  ghost predicate PrefixMade(before: seq<Action>, made: seq<Action>, program: seq<Action>) {
    exists k :: 0 <= k <= |program| && made == before + program[..k]
  }

  lemma TwoMore(before: seq<Action>, program: seq<Action>, i: nat)
    requires 2 * i + 1 < |program|
    ensures before + program[..2 * i] + [program[2 * i], program[2 * i + 1]] == before + program[..2 * (i + 1)]
    ensures PrefixMade(before, before + program[..2 * i], program)
    ensures PrefixMade(before, before + program[..2 * i] + [program[2 * i]], program)
  {
    assert program[..2 * i] + [program[2 * i]] == program[..2 * i + 1];
    assert before + program[..2 * i] + [program[2 * i]] == before + program[..2 * i + 1];
  }

  lemma PrefixOfWhole(before: seq<Action>, made: seq<Action>, a: seq<Action>, b: seq<Action>)
    ensures PrefixMade(before, made, a) ==> PrefixMade(before, made, a + b)
    ensures PrefixMade(before + a, made, b) ==> PrefixMade(before, made, a + b)
  {
    if PrefixMade(before, made, a) {
      var k :| 0 <= k <= |a| && made == before + a[..k];
      assert (a + b)[..k] == a[..k];
    }
    if PrefixMade(before + a, made, b) {
      var k :| 0 <= k <= |b| && made == before + a + b[..k];
      assert (a + b)[..|a| + k] == a + b[..k];
      assert made == before + (a + b)[..|a| + k];
    }
  }

  lemma NothingMade(before: seq<Action>, program: seq<Action>)
    ensures PrefixMade(before, before, program)
    ensures PrefixMade(before, before + program, program)
  {
    assert program[..|program|] == program && before == before + program[..0];
  }

  class Publisher {
    var objects: map<Key, Object>
    var ptrs: Store<Pointer, string>

    /** The accesses made so far that were answered well, in order. */
    ghost var made: seq<Action>

    constructor ()
      ensures objects == map[] && ptrs == Store(map[], 0) && made == []
    {
      objects, ptrs, made := map[], Store(map[], 0), [];
    }

    /** upsertPointer on the pointers of this store. */
    method Point(ptr: Pointer, rev: string, tries: seq<Try>) returns (ok: bool)
      requires ptrs.Valid() && |tries| == 6
      modifies this
      ensures ptrs.Valid() && objects == old(objects)
      ensures ok ==> ptr in ptrs.cells && ptrs.cells[ptr].value == rev
      ensures !ok ==> Hampered(tries)
      ensures forall q :: q != ptr ==> ptrs.Get(q) == old(ptrs).Get(q)
      ensures made == if ok then old(made) + [Action.Point(ptr, rev)] else old(made)
    {
      var ptrs', error, _ := UpsertPointer(ptrs, ptr, rev, tries);
      ptrs, ok := ptrs', !error;
      if ok {
        made := made + [Action.Point(ptr, rev)];
      }
    }

    /** publishPlacement. Nothing is written without the
        lease, and the pointer is not touched before the revision it names is stored. */
    method PublishPlacement(desired: string, placement: string, course: Course) returns (ok: bool)
      requires ptrs.Valid() && course.Valid()
      modifies this
      ensures ptrs.Valid() && (forall k :: k in old(objects) ==> k in objects)
      ensures course.Smooth() ==> ok
      ensures !course.leads.0 ==> !ok && objects == old(objects) && ptrs == old(ptrs)
      ensures ptrs != old(ptrs) ==>
                PlacementRev(placement) in objects && objects[PlacementRev(placement)] == Placed(desired)
      ensures ok ==> PlacementCurrent in ptrs.cells && ptrs.cells[PlacementCurrent].value == placement
      ensures ok ==> made == old(made) + PlacementProgram(desired, placement)
      ensures !ok ==> PrefixMade(old(made), made, PlacementProgram(desired, placement))
    {
      ghost var program := PlacementProgram(desired, placement);
      NothingMade(made, program);
      if !course.leads.0 {
        return false;
      }
      made := made + [CheckLease];
      ok := PutObject(PlacementRev(placement), Placed(desired), course.fate);
      assert program[..1] == [CheckLease]
             && program[..2] == [CheckLease, Action.PutObject(PlacementRev(placement), Placed(desired))];
      if !ok {
        assert made == old(made) + program[..1];
        return;
      }
      assert made == old(made) + program[..2];
      ok := Point(PlacementCurrent, placement, course.tries.0);
    }

    /** publishRendered. Nothing is written without the lease, and the pointer is not touched
        before the file of every node is stored. */
    method PublishRendered(desired: string, placement: string, rendered: string, nodes: seq<string>, course: Course)
      returns (ok: bool)
      requires ptrs.Valid() && course.Valid()
      modifies this
      ensures ptrs.Valid()
      ensures course.Smooth() ==> ok
      ensures !course.leads.1 ==> !ok && objects == old(objects) && ptrs == old(ptrs)
      ensures ptrs != old(ptrs) ==> forall n :: n in nodes ==>
                NodeFile(rendered, n) in objects && objects[NodeFile(rendered, n)] == Rendered(desired, placement)
      ensures ok ==> RenderedCurrent in ptrs.cells && ptrs.cells[RenderedCurrent].value == rendered
      ensures ok ==> forall n :: LegacyFile(n) in objects <==> n in nodes
      ensures ok ==> made == old(made) + ([CheckLease] + RenderedProgram(desired, placement, rendered, nodes))
      ensures !ok ==> PrefixMade(old(made), made, [CheckLease] + RenderedProgram(desired, placement, rendered, nodes))
    {
      ghost var writes := NodeWrites(rendered, nodes, Rendered(desired, placement));
      ghost var tail := [CleanLegacy(Nodes(nodes)), Action.Point(RenderedCurrent, rendered)];
      ghost var program := RenderedProgram(desired, placement, rendered, nodes);
      NothingMade(made, [CheckLease] + program);
      if !course.leads.1 {
        return false;
      }
      made := made + [CheckLease];
      ok := WriteRendered(desired, placement, rendered, nodes, course);
      PrefixOfWhole(old(made) + [CheckLease], made, writes, tail);
      PrefixOfWhole(old(made), made, [CheckLease], program);
      if !ok {
        return;
      }
      assert tail[..1] == [CleanLegacy(Nodes(nodes))];
      assert made == old(made) + [CheckLease] + writes + tail[..1];
      assert PrefixMade(old(made) + [CheckLease] + writes, made, tail);
      ok := Point(RenderedCurrent, rendered, course.tries.1);
    }

    /** The publishing end of a reconcile: its accesses are those of the pass program, in its
        order, up to the first that fails. */
    method Publish(desired: string, placement: string, rendered: string, nodes: seq<string>, course: Course)
      returns (ok: bool)
      requires ptrs.Valid() && course.Valid()
      modifies this
      ensures ptrs.Valid()
      ensures course.Smooth() ==> ok
      ensures ok ==> made == old(made) + PassProgram(desired, placement, rendered, nodes)
      ensures !ok ==> PrefixMade(old(made), made, PassProgram(desired, placement, rendered, nodes))
    {
      ghost var first, second := PlacementProgram(desired, placement),
        [CheckLease] + RenderedProgram(desired, placement, rendered, nodes);
      assert PassProgram(desired, placement, rendered, nodes) == first + second;
      ok := PublishPlacement(desired, placement, course);
      PrefixOfWhole(old(made), made, first, second);
      if ok {
        ok := PublishRendered(desired, placement, rendered, nodes, course);
        PrefixOfWhole(old(made), made, first, second);
        assert ok ==> made == old(made) + (first + second);
      }
    }

    /** An unconditional write; after `Unknown` the object is there but the caller sees an error. */
    method PutObject(k: Key, o: Object, fate: Fate) returns (ok: bool)
      modifies this`objects, this`made
      ensures ok <==> fate.Fine?
      ensures objects == if fate.Error? then old(objects) else old(objects)[k := o]
      ensures made == if ok then old(made) + [Action.PutObject(k, o)] else old(made)
    {
      ok := fate.Fine?;
      if !fate.Error? {
        objects := objects[k := o];
      }
      if ok {
        made := made + [Action.PutObject(k, o)];
      }
    }

    /** One turn of the writing loop of publishRendered. */
    method WriteNode(rendered: string, node: string, o: Object, fates: (Fate, Fate)) returns (ok: bool)
      modifies this`objects, this`made
      ensures ok <==> fates.0.Fine? && fates.1.Fine?
      ensures ok ==>
                made == old(made) + [Action.PutObject(NodeFile(rendered, node), o),
                                     Action.PutObject(LegacyFile(node), o)]
      ensures !ok ==> made == old(made) || made == old(made) + [Action.PutObject(NodeFile(rendered, node), o)]
      ensures ok ==> objects == old(objects)[NodeFile(rendered, node) := o][LegacyFile(node) := o]
      ensures forall k :: k in old(objects) ==> k in objects
    {
      ok := PutObject(NodeFile(rendered, node), o, fates.0);
      if ok {
        ok := PutObject(LegacyFile(node), o, fates.1);
      }
    }

    /** publishRendered up to its pointer: every node's file and legacy file, then the removal
        of legacy files of other nodes. `course` says how the accesses go. */
    method WriteRendered(desired: string, placement: string, rendered: string, nodes: seq<string>, course: Course)
      returns (ok: bool)
      modifies this`objects, this`made
      ensures course.WritesFine() ==> ok
      ensures ok ==>
                made == old(made) + NodeWrites(rendered, nodes, Rendered(desired, placement))
                        + [CleanLegacy(Nodes(nodes))]
      ensures !ok ==> PrefixMade(old(made), made, NodeWrites(rendered, nodes, Rendered(desired, placement)))
      ensures ok ==> forall n :: n in nodes ==>
                NodeFile(rendered, n) in objects && objects[NodeFile(rendered, n)] == Rendered(desired, placement)
      ensures ok ==> forall n :: LegacyFile(n) in objects <==> n in nodes
      ensures forall k :: k in old(objects) && !k.LegacyFile? ==> k in objects
    {
      var o := Rendered(desired, placement);
      ghost var program := NodeWrites(rendered, nodes, o);
      ProgramLength(rendered, nodes, o);
      var i := 0;
      while i < |nodes|
        invariant 0 <= i <= |nodes| && made == old(made) + program[..2 * i]
        invariant forall j :: 0 <= j < i ==>
                    NodeFile(rendered, nodes[j]) in objects && objects[NodeFile(rendered, nodes[j])] == o
        invariant forall j :: 0 <= j < i ==> LegacyFile(nodes[j]) in objects
        invariant forall k :: k in old(objects) ==> k in objects
      {
        ProgramAt(rendered, nodes, o, i);
        ok := WriteNode(rendered, nodes[i], o, course.fates(i));
        TwoMore(old(made), program, i);
        if !ok {
          return;
        }
        i := i + 1;
      }
      assert program[..2 * i] == program;
      ok := RemoveLegacy(nodes, course.listed, course.cleanup);
    }

    /** Lists the store and deletes the legacy files of nodes that have no config any more, one
        by one until a delete fails. */
    method RemoveLegacy(nodes: seq<string>, listed: bool, cleanup: Key -> Fate) returns (ok: bool)
      modifies this`objects, this`made
      ensures ok <==> listed && forall k :: k in old(objects) && Stale(k, nodes) ==> cleanup(k).Fine?
      ensures made == if ok then old(made) + [CleanLegacy(Nodes(nodes))] else old(made)
      ensures forall k :: k in objects ==> k in old(objects) && objects[k] == old(objects)[k]
      ensures forall k :: k in old(objects) && !Stale(k, nodes) ==> k in objects
      ensures ok ==> forall k :: k in objects ==> !Stale(k, nodes)
    {
      if !listed {
        return false;
      }
      var todo := objects.Keys;
      while todo != {}
        invariant todo <= old(objects).Keys
        invariant forall k :: k in objects ==> k in old(objects) && objects[k] == old(objects)[k]
        invariant forall k :: k in old(objects) && !Stale(k, nodes) ==> k in objects
        invariant forall k :: k in old(objects) && Stale(k, nodes) && k !in todo ==> k !in objects && cleanup(k).Fine?
        invariant made == old(made)
        decreases |todo|
      {
        var k :| k in todo;
        todo := todo - {k};
        if k.LegacyFile? && k.node !in nodes {
          if !cleanup(k).Error? {
            objects := objects - {k};
          }
          if !cleanup(k).Fine? {
            return false;
          }
        }
      }
      ok := true;
      made := made + [CleanLegacy(Nodes(nodes))];
    }
  }

  /** A legacy file of a node that has no config any more. */
  predicate Stale(k: Key, nodes: seq<string>) {
    k.LegacyFile? && k.node !in nodes
  }

  lemma {:induction false} ProgramAt(rendered: string, nodes: seq<string>, o: Object, i: nat)
    requires i < |nodes|
    ensures |NodeWrites(rendered, nodes, o)| == 2 * |nodes|
    ensures NodeWrites(rendered, nodes, o)[2 * i] == Action.PutObject(NodeFile(rendered, nodes[i]), o)
    ensures NodeWrites(rendered, nodes, o)[2 * i + 1] == Action.PutObject(LegacyFile(nodes[i]), o)
  {
    ProgramLength(rendered, nodes, o);
    if i > 0 {
      ProgramAt(rendered, nodes[1..], o, i - 1);
    }
  }

  lemma {:induction false} ProgramLength(rendered: string, nodes: seq<string>, o: Object)
    ensures |NodeWrites(rendered, nodes, o)| == 2 * |nodes|
  {
    if nodes != [] {
      ProgramLength(rendered, nodes[1..], o);
    }
  }
}
