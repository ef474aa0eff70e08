/** Durable volume records: what controllers and acknowledgements write, in any
    interleaving, through conditional writes. */
module VolumeRecords {
  import opened Types
  import opened CasStore

  datatype ResizeState = ResizePending | ResizeApplied | ResizeFailed

  datatype VolumeRecord = VolumeRecord(
    id: VolumeId, vtype: VolumeType, boundNode: string, sharedBackendId: string,
    desired: int, applied: int, generation: int, state: ResizeState, lastError: string)

  /** What loadVolumeRecords checks of the record stored under `key`. */
  predicate LoadOk(key: VolumeId, r: VolumeRecord) {
    && r.id == key
    && r.desired > 0 && r.generation > 0 && r.applied >= 0
    && (r.state.ResizeApplied? ==> r.applied == r.desired)
    && match r.vtype
       case Local => r.boundNode != ""
       case Shared => r.sharedBackendId != ""
       case Unknown => false
  }

  function Max(a: int, b: int): int {
    if a > b then a else b
  }

  /** The update applyExistingVolumeRecords writes for a new size. */
  function Resized(r: VolumeRecord, size: int): VolumeRecord {
    r.(desired := size, generation := r.generation + 1, state := ResizePending, lastError := "")
  }

  /** The record createAssignedVolumeRecords writes for a placed volume. */
  function Created(id: VolumeId, v: VolumeConfig): VolumeRecord {
    VolumeRecord(id, v.vtype, v.boundNode, v.sharedBackendId, v.sizeBytes, 0, Max(1, v.resizeGeneration),
                 ResizePending, "")
  }

  datatype ObservedState = Waiting | InPlace | Error

  /** One volume in a node's agent status. Its error message stands as it is after being
      shortened and masked, which is how it is compared and stored. */
  datatype Observed = Observed(
    id: VolumeId, vtype: VolumeType, boundNode: string, sharedBackendId: string,
    applied: int, generation: int, state: ObservedState, lastError: string)

  /** What acknowledgeVolumeRecords writes over `r` on seeing `o` in the record of `node`;
      None when it leaves the record alone. */
  function Acknowledge(r: VolumeRecord, node: string, o: Observed): Option<VolumeRecord> {
    if o.state.Waiting? || o.generation != r.generation || o.vtype != r.vtype then None
    else if !(match r.vtype
              case Local => node == r.boundNode && o.boundNode == r.boundNode
              case Shared => o.sharedBackendId == r.sharedBackendId
              case Unknown => false) then None
    else if o.state.InPlace? then
      if o.applied <= 0 || o.applied != r.desired then None
      else if r.applied == o.applied && r.state.ResizeApplied? && r.lastError == "" then None
      else Some(r.(applied := o.applied, state := ResizeApplied, lastError := ""))
    else if r.state.ResizeFailed? && r.lastError == o.lastError then None
    else Some(r.(state := ResizeFailed, lastError := o.lastError))
  }

  // ------------------------------------------------------------------ the protocol

  datatype Intent = Intent(id: VolumeId, seen: Cell<VolumeRecord>, next: VolumeRecord)

  /** A controller process: the records it loaded and the acknowledgement it is about to write. */
  datatype Proc = Proc(loaded: map<VolumeId, Cell<VolumeRecord>>, intent: Option<Intent>)

  datatype World = World(store: Store<VolumeId, VolumeRecord>, procs: map<nat, Proc>)
  {
    function At(p: nat): Proc {
      if p in procs then procs[p] else Proc(map[], None)
    }
  }

  const EMPTY_WORLD := World(Store(map[], 0), map[])

  /** One store access. `lost` says the write went through but its reply did not arrive. */
  datatype Event =
    | Load(p: nat, id: VolumeId)
    | Resize(p: nat, id: VolumeId, vtype: VolumeType, size: int, lost: bool)
    | Create(p: nat, id: VolumeId, volume: VolumeConfig, lost: bool)
    | AckRead(p: nat, node: string, o: Observed)
    | AckWrite(p: nat)
    | Restart(p: nat)

  /** Sizes and types are validated before they reach the controller, and the scheduler
      binds every volume it places. */
  predicate Legit(e: Event) {
    match e
    case Resize(_, _, _, size, _) => size > 0
    case Create(_, _, v, _) =>
      && v.sizeBytes > 0
      && (match v.vtype
          case Local => v.boundNode != ""
          case Shared => v.sharedBackendId != ""
          case Unknown => false)
    case _ => true
  }

  function Apply(w: World, e: Event): World {
    match e
    case Load(p, id) =>
      var proc := w.At(p);
      var loaded := match w.store.Get(id) case Seen(cell) => proc.loaded[id := cell] case Missing => proc.loaded - {id};
      w.(procs := w.procs[p := proc.(loaded := loaded)])
    case Resize(p, id, vtype, size, lost) =>
      var proc := w.At(p);
      if id !in proc.loaded || proc.loaded[id].value.vtype != vtype || proc.loaded[id].value.desired == size then w
      else
        var prev := proc.loaded[id];
        if !w.store.Matches(id, prev.token) then w
        else
          var store' := w.store.Put(id, Resized(prev.value, size));
          World(store', if lost then w.procs else w.procs[p := proc.(loaded := proc.loaded[id := store'.cells[id]])])
    case Create(p, id, v, lost) =>
      var proc := w.At(p);
      if id in proc.loaded || !w.store.Absent(id) then w
      else
        var store' := w.store.Put(id, Created(id, v));
        World(store', if lost then w.procs else w.procs[p := proc.(loaded := proc.loaded[id := store'.cells[id]])])
    case AckRead(p, node, o) =>
      var proc := w.At(p);
      var intent := match w.store.Get(o.id)
                    case Missing => None
                    case Seen(cell) =>
                      match Acknowledge(cell.value, node, o)
                      case None => None
                      case Some(next) => Some(Intent(o.id, cell, next));
      w.(procs := w.procs[p := proc.(intent := intent)])
    case AckWrite(p) =>
      var proc := w.At(p);
      if proc.intent.None? then w
      else
        var i := proc.intent.value;
        World(w.store.PutIf(i.id, Seen(i.seen), i.next), w.procs[p := proc.(intent := None)])
    case Restart(p) => w.(procs := w.procs[p := Proc(map[], None)])
  }

  function Run(w: World, events: seq<Event>): World
    decreases |events|
  {
    if events == [] then w else Run(Apply(w, events[0]), events[1..])
  }

  // ------------------------------------------------------------------- invariants

  /** `next` is what some acknowledgement makes of `prev`. */
  ghost predicate AckOf(prev: VolumeRecord, next: VolumeRecord) {
    exists node, o :: Acknowledge(prev, node, o) == Some(next)
  }

  ghost predicate ProcOk(w: World, p: nat) {
    && (forall id :: id in w.At(p).loaded ==> w.store.Honest(id, w.At(p).loaded[id]))
    && (w.At(p).intent.Some? ==>
          var i := w.At(p).intent.value;
          w.store.Honest(i.id, i.seen) && AckOf(i.seen.value, i.next))
  }

  ghost predicate Inv(w: World) {
    w.store.Valid() && forall p :: ProcOk(w, p)
  }

  lemma ApplyKeepsInv(w: World, e: Event)
    requires Inv(w)
    ensures Inv(Apply(w, e))
  {
    var w' := Apply(w, e);
    forall p ensures ProcOk(w', p) {
      assert ProcOk(w, p) && ProcOk(w, e.p);
    }
  }

  lemma {:induction false} RunKeepsInv(w: World, events: seq<Event>)
    requires Inv(w)
    ensures Inv(Run(w, events))
    decreases |events|
  {
    if events != [] {
      ApplyKeepsInv(w, events[0]);
      RunKeepsInv(Apply(w, events[0]), events[1..]);
    }
  }

  // ---------------------------------------------------- what one access can change

  /** One operation applied to the record `prev`. */
  ghost predicate OneOperation(prev: VolumeRecord, next: VolumeRecord) {
    || next == prev
    || (next.desired != prev.desired && next == Resized(prev, next.desired))
    || AckOf(prev, next)
  }

  /** Every access leaves each stored record alone or applies exactly one operation to the
      value stored at that moment; records appear only as freshly created ones and never
      vanish. Reads that have gone stale cannot undo another process's write. */
  lemma AccessIsOneOperation(w: World, e: Event)
    requires Inv(w)
    ensures var w' := Apply(w, e);
            && (forall id :: id in w.store.cells ==>
                  id in w'.store.cells && OneOperation(w.store.cells[id].value, w'.store.cells[id].value))
            && (forall id :: id in w'.store.cells && id !in w.store.cells ==>
                  e.Create? && e.id == id && w'.store.cells[id].value == Created(id, e.volume))
  {
    assert ProcOk(w, e.p);
  }

  /** What can be said of a record that came after `prev`. */
  ghost predicate Succeeds(prev: VolumeRecord, next: VolumeRecord) {
    && next.id == prev.id && next.vtype == prev.vtype && next.boundNode == prev.boundNode
    && next.sharedBackendId == prev.sharedBackendId
    && prev.generation <= next.generation
    && (prev.generation == next.generation ==> prev.desired == next.desired)
  }

  lemma OperationEvolves(prev: VolumeRecord, next: VolumeRecord)
    requires OneOperation(prev, next)
    ensures Succeeds(prev, next)
    ensures next.generation == prev.generation + if next.desired != prev.desired then 1 else 0
  {
  }

  /** Told on the fields, what one store access may do: a new record holds nothing yet and is
      pending at the volume's size and binding; a new size makes a record pending, with its
      error cleared and its applied size kept; and only otherwise is it marked, applied at
      its desired size or failed with its applied size kept. */
  lemma AccessMarks(w: World, e: Event, id: VolumeId)
    requires Inv(w) && id in Apply(w, e).store.cells
    ensures var next := Apply(w, e).store.cells[id].value;
            id !in w.store.cells ==>
              && e.Create? && next.applied == 0 && next.state.ResizePending? && next.lastError == ""
              && next.desired == e.volume.sizeBytes
              && next.generation >= 1 && next.generation >= e.volume.resizeGeneration
              && (next.generation == 1 || next.generation == e.volume.resizeGeneration)
              && next.id == id && next.vtype == e.volume.vtype && next.boundNode == e.volume.boundNode
              && next.sharedBackendId == e.volume.sharedBackendId
    ensures var next := Apply(w, e).store.cells[id].value;
            id in w.store.cells && next.desired != w.store.cells[id].value.desired ==>
              next.state.ResizePending? && next.lastError == "" && next.applied == w.store.cells[id].value.applied
    ensures var next := Apply(w, e).store.cells[id].value;
            id in w.store.cells && next.desired == w.store.cells[id].value.desired ==>
              || next == w.store.cells[id].value
              || (next.state.ResizeApplied? && next.applied == next.desired && next.lastError == "")
              || (next.state.ResizeFailed? && next.applied == w.store.cells[id].value.applied)
  {
    AccessIsOneOperation(w, e);
  }

  /** Over any run: identity, type and binding of a record never change, the generation never
      goes down, and one generation never stands for two sizes, even if the size returns to
      an earlier value in between. */
  lemma {:induction false} RecordsEvolve(w: World, events: seq<Event>)
    requires Inv(w)
    ensures forall id :: id in w.store.cells ==>
              id in Run(w, events).store.cells
                && Succeeds(w.store.cells[id].value, Run(w, events).store.cells[id].value)
    decreases |events|
  {
    if events != [] {
      var w' := Apply(w, events[0]);
      ApplyKeepsInv(w, events[0]);
      AccessIsOneOperation(w, events[0]);
      RecordsEvolve(w', events[1..]);
      forall id | id in w.store.cells
        ensures id in Run(w, events).store.cells
        ensures Succeeds(w.store.cells[id].value, Run(w, events).store.cells[id].value)
      {
        OperationEvolves(w.store.cells[id].value, w'.store.cells[id].value);
      }
    }
  }

  // --------------------------------------------- properties every record has and keeps

  /** `ok` holds of every record stored, loaded or about to be written. */
  ghost predicate All(w: World, ok: (VolumeId, VolumeRecord) -> bool) {
    && (forall id :: id in w.store.cells ==> ok(id, w.store.cells[id].value))
    && (forall p, id :: id in w.At(p).loaded ==> ok(id, w.At(p).loaded[id].value))
    && (forall p :: w.At(p).intent.Some? ==> ok(w.At(p).intent.value.id, w.At(p).intent.value.next))
  }

  /** `ok` survives the operation `e` performs, on any record. */
  ghost predicate Closed(e: Event, ok: (VolumeId, VolumeRecord) -> bool) {
    && (forall id, r, size :: e.Resize? && size == e.size && ok(id, r) ==> ok(id, Resized(r, size)))
    && (e.Create? ==> ok(e.id, Created(e.id, e.volume)))
    && (e.AckRead? ==> forall r :: ok(e.o.id, r) && Acknowledge(r, e.node, e.o).Some? ==>
        ok(e.o.id, Acknowledge(r, e.node, e.o).value))
  }

  lemma ApplyKeepsAll(w: World, e: Event, ok: (VolumeId, VolumeRecord) -> bool)
    requires All(w, ok) && Closed(e, ok)
    ensures All(Apply(w, e), ok)
  {
    var w' := Apply(w, e);
    forall p ensures w'.At(p).intent.Some? ==> ok(w'.At(p).intent.value.id, w'.At(p).intent.value.next) {
      assert w.At(p).intent.Some? ==> ok(w.At(p).intent.value.id, w.At(p).intent.value.next);
    }
    forall p, id | id in w'.At(p).loaded ensures ok(id, w'.At(p).loaded[id].value) {
      assert id in w.At(p).loaded ==> ok(id, w.At(p).loaded[id].value);
      assert id in w.At(e.p).loaded ==> ok(id, w.At(e.p).loaded[id].value);
    }
  }

  lemma {:induction false} RunKeepsLoadable(w: World, events: seq<Event>)
    requires All(w, LoadOk) && forall e :: e in events ==> Legit(e)
    ensures All(Run(w, events), LoadOk)
    decreases |events|
  {
    if events != [] {
      assert events[0] in events;
      ApplyKeepsAll(w, events[0], LoadOk);
      RunKeepsLoadable(Apply(w, events[0]), events[1..]);
    }
  }

  /** Every record the protocol ever stores passes all the checks made when it is loaded. */
  lemma StoredRecordsLoad(events: seq<Event>)
    requires forall e :: e in events ==> Legit(e)
    ensures var w := Run(EMPTY_WORLD, events);
            forall id :: id in w.store.cells ==> LoadOk(id, w.store.cells[id].value)
  {
    RunKeepsLoadable(EMPTY_WORLD, events);
  }
}
