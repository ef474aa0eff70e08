/** Publication: revision objects first, then the pointer that names them. Any number of
    event handlers and controllers publish side by side, and any of them may fail or crash
    between two store accesses. */
module Pointers {
  import opened Types
  import opened CasStore

  datatype Key =
    | DesiredRev(rev: string)
    | PlacementRev(rev: string)
    | NodeFile(rev: string, node: string)
    | LegacyFile(node: string)

  /** What an object refers to. */
  datatype Object = Services | Placed(desired: string) | Rendered(desired: string, placement: string)

  datatype Pointer = DesiredCurrent | PlacementCurrent | RenderedCurrent

  datatype Action =
    | PutObject(key: Key, content: Object)
    | CheckLease
    | CleanLegacy(keep: set<string>)
    | Point(pointer: Pointer, rev: string)

  /** A publisher: what it still has to do, and where its pointer update stands. */
  datatype Proc = Proc(todo: seq<Action>, tries: nat, seen: Option<Snap<string>>, desired: Option<string>)

  /** `passes` is a record of every pass begun: its rendered revision and the nodes that were
      given services. Revision names are never chosen twice. */
  datatype World = World(
    objects: map<Key, Object>, ptrs: Store<Pointer, string>, procs: map<nat, Proc>, passes: map<string, seq<string>>)
  {
    function At(p: nat): Proc {
      if p in procs then procs[p] else IDLE
    }

    function With(p: nat, proc: Proc): World {
      this.(procs := procs[p := proc])
    }
  }

  const IDLE := Proc([], 0, None, None)
  const EMPTY := World(map[], Store(map[], 0), map[], map[])

  /** publishDesiredRevision */
  function DesiredProgram(rev: string): seq<Action> {
    [PutObject(DesiredRev(rev), Services), Point(DesiredCurrent, rev)]
  }

  /** The writing loop of publishRendered. */
  function NodeWrites(rev: string, nodes: seq<string>, o: Object): seq<Action> {
    if nodes == [] then []
    else [PutObject(NodeFile(rev, nodes[0]), o), PutObject(LegacyFile(nodes[0]), o)] + NodeWrites(rev, nodes[1..], o)
  }

  function Nodes(nodes: seq<string>): set<string> {
    set n | n in nodes
  }

  function RenderedProgram(desired: string, placement: string, rendered: string, nodes: seq<string>): seq<Action> {
    NodeWrites(rendered, nodes, Rendered(desired, placement))
    + [CleanLegacy(Nodes(nodes)), Point(RenderedCurrent, rendered)]
  }

  function PlacementProgram(desired: string, placement: string): seq<Action> {
    [CheckLease, PutObject(PlacementRev(placement), Placed(desired)), Point(PlacementCurrent, placement)]
  }

  /** publishPlacement, then publishRendered. */
  function PassProgram(desired: string, placement: string, rendered: string, nodes: seq<string>): seq<Action> {
    PlacementProgram(desired, placement) + [CheckLease] + RenderedProgram(desired, placement, rendered, nodes)
  }

  /** How an access ends; after `Unknown` it went through but the caller sees an error. */
  datatype Fate = Fine | Error | Unknown

  datatype Event =
    | StartDesired(p: nat, rev: string)
    | ReadDesired(p: nat)
    | StartPass(p: nat, placement: string, rendered: string, nodes: seq<string>)
    | Act(p: nat, fate: Fate, gone: set<string>)
    | Crash(p: nat)

  const TRIES := 6

  function DoPoint(w: World, p: nat, fate: Fate): World
    requires w.At(p).todo != [] && w.At(p).todo[0].Point?
  {
    var proc := w.At(p);
    var a := proc.todo[0];
    match proc.seen
    case None =>
      if fate.Fine? && proc.tries < TRIES
        then w.With(p, proc.(seen := Some(w.ptrs.Get(a.pointer))))
        else w.With(p, IDLE)
    case Some(snap) =>
      if fate.Error? then w.With(p, IDLE)
      else
        var ok := w.ptrs.Unchanged(a.pointer, snap);
        var proc' :=
          if fate.Unknown? then IDLE
          else if ok then Proc(proc.todo[1..], 0, None, proc.desired)
          else proc.(tries := proc.tries + 1, seen := None);
        World(w.objects, w.ptrs.PutIf(a.pointer, snap, a.rev), w.procs[p := proc'], w.passes)
  }

  function DoAct(w: World, p: nat, fate: Fate, gone: set<string>): World
    requires w.At(p).todo != []
  {
    var proc := w.At(p);
    var next := if fate.Fine? then proc.(todo := proc.todo[1..]) else IDLE;
    match proc.todo[0]
    case PutObject(key, o) =>
      World(if fate.Error? then w.objects else w.objects[key := o], w.ptrs, w.procs[p := next], w.passes)
    case CheckLease => w.With(p, next)
    case CleanLegacy(keep) =>
      World(w.objects - (set n | n in gone - keep :: LegacyFile(n)), w.ptrs, w.procs[p := next], w.passes)
    case Point(_, _) => DoPoint(w, p, fate)
  }

  function Apply(w: World, e: Event): World {
    match e
    case StartDesired(p, rev) =>
      if w.At(p).todo == [] then w.With(p, Proc(DesiredProgram(rev), 0, None, None)) else w
    case ReadDesired(p) =>
      if w.At(p).todo != [] then w
      else
        (match w.ptrs.Get(DesiredCurrent)
         case Missing => w.With(p, IDLE)
         case Seen(cell) => w.With(p, IDLE.(desired := Some(cell.value))))
    case StartPass(p, placement, rendered, nodes) =>
      if w.At(p).todo == [] && w.At(p).desired.Some? && DesiredRev(w.At(p).desired.value) in w.objects
        && rendered !in w.passes
        then w.With(p, Proc(PassProgram(w.At(p).desired.value, placement, rendered, nodes), 0, None, None))
              .(passes := w.passes[rendered := nodes])
        else w
    case Act(p, fate, gone) => if w.At(p).todo != [] then DoAct(w, p, fate, gone) else w
    case Crash(p) => w.With(p, IDLE)
  }

  function Run(w: World, events: seq<Event>): World
    decreases |events|
  {
    if events == [] then w else Run(Apply(w, events[0]), events[1..])
  }

  // ------------------------------------------------------------------ what must hold

  /** Everything the object refers to is stored. */
  ghost predicate RefsOk(keys: set<Key>, o: Object) {
    match o
    case Services => true
    case Placed(d) => DesiredRev(d) in keys
    case Rendered(d, pl) => DesiredRev(d) in keys && PlacementRev(pl) in keys
  }

  /** The pointer may name `rev`: its object is stored, or all node files of its pass are. */
  ghost predicate TargetOk(st: Stored, pointer: Pointer, rev: string) {
    match pointer
    case DesiredCurrent => DesiredRev(rev) in st.keys
    case PlacementCurrent => PlacementRev(rev) in st.keys
    case RenderedCurrent => rev in st.passes && forall n :: n in st.passes[rev] ==> NodeFile(rev, n) in st.keys
  }

  datatype Stored = Stored(keys: set<Key>, passes: map<string, seq<string>>)
  {
    function With(k: Key): Stored {
      Stored(keys + {k}, passes)
    }
  }

  function StoredIn(w: World): Stored {
    Stored(w.objects.Keys, w.passes)
  }

  ghost predicate ActionOk(st: Stored, a: Action) {
    match a
    case PutObject(_, o) => RefsOk(st.keys, o)
    case Point(ptr, rev) => TargetOk(st, ptr, rev)
    case _ => true
  }

  function After(st: Stored, a: Action): Stored {
    if a.PutObject? then st.With(a.key) else st
  }

  /** Doing `todo` in order, with at least `st` stored, never leaves a reference open. */
  ghost predicate Safe(st: Stored, todo: seq<Action>)
    decreases |todo|
  {
    todo == [] || (ActionOk(st, todo[0]) && Safe(After(st, todo[0]), todo[1..]))
  }

  /** Only legacy files may go. */
  ghost predicate Keeps(st: Stored, st': Stored) {
    && (forall k :: k in st.keys && !k.LegacyFile? ==> k in st'.keys)
    && (forall rev :: rev in st.passes ==> rev in st'.passes && st'.passes[rev] == st.passes[rev])
  }

  ghost predicate Inv(w: World) {
    && (forall k :: k in w.objects ==> RefsOk(w.objects.Keys, w.objects[k]))
    && (forall ptr :: ptr in w.ptrs.cells ==> TargetOk(StoredIn(w), ptr, w.ptrs.cells[ptr].value))
    && (forall p :: Safe(StoredIn(w), w.At(p).todo))
  }

  lemma {:induction false} SafeStays(st: Stored, st': Stored, todo: seq<Action>)
    requires Safe(st, todo) && Keeps(st, st')
    ensures Safe(st', todo)
    decreases |todo|
  {
    if todo != [] {
      SafeStays(After(st, todo[0]), After(st', todo[0]), todo[1..]);
    }
  }

  lemma SafeFirst(st: Stored, a: Action, rest: seq<Action>)
    requires ActionOk(st, a) && Safe(After(st, a), rest)
    ensures Safe(st, [a] + rest)
  {
    assert ([a] + rest)[1..] == rest;
  }

  function WithFiles(st: Stored, rev: string, nodes: seq<string>): Stored {
    Stored(st.keys + (set n | n in nodes :: NodeFile(rev, n)), st.passes)
  }

  lemma {:induction false} NodeWritesAreSafe(st: Stored, rev: string, nodes: seq<string>, o: Object, rest: seq<Action>)
    requires RefsOk(st.keys, o) && Safe(WithFiles(st, rev, nodes), rest)
    ensures Safe(st, NodeWrites(rev, nodes, o) + rest)
    decreases |nodes|
  {
    if nodes == [] {
      assert WithFiles(st, rev, nodes) == st && NodeWrites(rev, nodes, o) + rest == rest;
    } else {
      var a, b, more := PutObject(NodeFile(rev, nodes[0]), o), PutObject(LegacyFile(nodes[0]), o),
        NodeWrites(rev, nodes[1..], o) + rest;
      var st1 := After(st, a);
      var st2 := After(st1, b);
      assert forall n :: n in nodes <==> n == nodes[0] || n in nodes[1..];
      SafeStays(WithFiles(st, rev, nodes), WithFiles(st2, rev, nodes[1..]), rest);
      NodeWritesAreSafe(st2, rev, nodes[1..], o, rest);
      assert NodeWrites(rev, nodes, o) + rest == [a] + ([b] + more);
      SafeFirst(st1, b, more);
      SafeFirst(st, a, [b] + more);
    }
  }

  lemma DesiredProgramIsSafe(st: Stored, rev: string)
    ensures Safe(st, DesiredProgram(rev))
  {
    var put, point := PutObject(DesiredRev(rev), Services), Point(DesiredCurrent, rev);
    SafeFirst(After(st, put), point, []);
    assert [point] + [] == [point];
    SafeFirst(st, put, [point]);
    assert DesiredProgram(rev) == [put] + [point];
  }

  /** A pass is safe from the start, whatever it goes on to write: that is the order of its
      writes. */
  lemma PassProgramIsSafe(st: Stored, desired: string, placement: string, rendered: string, nodes: seq<string>)
    requires DesiredRev(desired) in st.keys && rendered in st.passes && st.passes[rendered] == nodes
    ensures Safe(st, PassProgram(desired, placement, rendered, nodes))
  {
    var o, put := Rendered(desired, placement), PutObject(PlacementRev(placement), Placed(desired));
    var toPlacement, toRendered := Point(PlacementCurrent, placement), Point(RenderedCurrent, rendered);
    var st1 := After(st, put);
    var st2 := WithFiles(st1, rendered, nodes);
    SafeFirst(st2, toRendered, []);
    assert [toRendered] + [] == [toRendered];
    SafeFirst(st2, CleanLegacy(Nodes(nodes)), [toRendered]);
    NodeWritesAreSafe(st1, rendered, nodes, o, [CleanLegacy(Nodes(nodes))] + [toRendered]);
    var tail := RenderedProgram(desired, placement, rendered, nodes);
    assert tail == NodeWrites(rendered, nodes, o) + ([CleanLegacy(Nodes(nodes))] + [toRendered]);
    SafeFirst(st1, CheckLease, tail);
    SafeFirst(st1, toPlacement, [CheckLease] + tail);
    SafeFirst(st, put, [toPlacement] + ([CheckLease] + tail));
    SafeFirst(st, CheckLease, [put] + ([toPlacement] + ([CheckLease] + tail)));
    assert PassProgram(desired, placement, rendered, nodes) ==
           [CheckLease] + ([put] + ([toPlacement] + ([CheckLease] + tail)));
  }

  /** Nothing but legacy files is ever deleted. */
  lemma ApplyKeeps(w: World, e: Event)
    ensures Keeps(StoredIn(w), StoredIn(Apply(w, e)))
  {
  }

  lemma ActIsSafe(w: World, p: nat, fate: Fate, gone: set<string>)
    requires Inv(w) && w.At(p).todo != []
    ensures var w' := DoAct(w, p, fate, gone); Safe(StoredIn(w'), w'.At(p).todo)
  {
    var w', todo := DoAct(w, p, fate, gone), w.At(p).todo;
    assert Safe(StoredIn(w), todo);
    match todo[0]
    case PutObject(k, o) => assert fate.Fine? ==> StoredIn(w') == After(StoredIn(w), todo[0]);
    case CheckLease =>
    case CleanLegacy(keep) => SafeStays(StoredIn(w), StoredIn(w'), todo[1..]);
    case Point(_, _) =>
  }

  lemma ObjectsStayClosed(w: World, e: Event)
    requires Inv(w)
    ensures forall k :: k in Apply(w, e).objects ==> RefsOk(Apply(w, e).objects.Keys, Apply(w, e).objects[k])
    ensures forall ptr :: ptr in Apply(w, e).ptrs.cells ==>
              TargetOk(StoredIn(Apply(w, e)), ptr, Apply(w, e).ptrs.cells[ptr].value)
  {
    var w' := Apply(w, e);
    ApplyKeeps(w, e);
    assert Safe(StoredIn(w), w.At(e.p).todo);
    forall k | k in w'.objects ensures RefsOk(w'.objects.Keys, w'.objects[k]) {
      assert (k in w.objects && w'.objects[k] == w.objects[k]) || RefsOk(w.objects.Keys, w'.objects[k]);
    }
    forall ptr | ptr in w'.ptrs.cells ensures TargetOk(StoredIn(w'), ptr, w'.ptrs.cells[ptr].value) {
      assert TargetOk(StoredIn(w), ptr, w'.ptrs.cells[ptr].value);
    }
  }

  lemma ApplyKeepsInv(w: World, e: Event)
    requires Inv(w)
    ensures Inv(Apply(w, e))
  {
    var w' := Apply(w, e);
    ObjectsStayClosed(w, e);
    ApplyKeeps(w, e);
    forall p ensures Safe(StoredIn(w'), w'.At(p).todo) {
      assert Safe(StoredIn(w), w.At(p).todo);
      SafeStays(StoredIn(w), StoredIn(w'), w.At(p).todo);
      if w'.At(p).todo != w.At(p).todo {
        match e
        case StartDesired(_, rev) => DesiredProgramIsSafe(StoredIn(w'), rev);
        case StartPass(_, placement, rendered, nodes) =>
          PassProgramIsSafe(StoredIn(w'), w.At(p).desired.value, placement, rendered, nodes);
        case Act(_, fate, gone) => ActIsSafe(w, p, fate, gone);
        case ReadDesired(_) =>
        case Crash(_) =>
      }
    }
  }

  lemma {:induction false} RunKeepsInv(w: World, events: seq<Event>)
    requires Inv(w)
    ensures Inv(Run(w, events)) && Keeps(StoredIn(w), StoredIn(Run(w, events)))
    decreases |events|
  {
    if events != [] {
      ApplyKeepsInv(w, events[0]);
      ApplyKeeps(w, events[0]);
      RunKeepsInv(Apply(w, events[0]), events[1..]);
    }
  }

  // -------------------------------------------------------------------- guarantees

  /** No dangling pointer, in any interleaving and after any crash: the desired and placement
      pointers name stored revisions, the rendered pointer names a revision all of whose node
      files are stored, and whatever a stored file or placement refers to is stored too. */
  lemma NoDanglingPointers(events: seq<Event>)
    ensures var w := Run(EMPTY, events);
            && (forall ptr :: ptr in w.ptrs.cells ==> TargetOk(StoredIn(w), ptr, w.ptrs.cells[ptr].value))
            && (forall k :: k in w.objects ==> RefsOk(w.objects.Keys, w.objects[k]))
  {
    RunKeepsInv(EMPTY, events);
  }

  /** A reader that reads a pointer and, any number of steps later, the object it names, finds
      the object, even if the pointer has moved on meanwhile. */
  lemma PointerThenObjectSucceeds(before: seq<Event>, pointer: Pointer, between: seq<Event>)
    requires pointer in Run(EMPTY, before).ptrs.cells
    ensures TargetOk(StoredIn(Run(Run(EMPTY, before), between)), pointer, Run(EMPTY, before).ptrs.cells[pointer].value)
  {
    RunKeepsInv(EMPTY, before);
    RunKeepsInv(Run(EMPTY, before), between);
  }
}
