/** The node registry: every update of a node record is a read, a change made to the copy,
    and a conditional write, tried up to six times. */
module Registry {
  import opened Types
  import opened CasStore

  datatype NodeState = Ready | Draining | Down | Unset

  datatype Resources = Resources(vcpus: int, memoryMB: int)

  datatype StorageResources = StorageResources(localCapacityBytes: int, sharedBackendId: string,
                                               sharedCapacityBytes: int)

  /** `body` stands for everything else an agent reports. */
  datatype AgentStatus = AgentStatus(schemaVersion: int, node: string, body: string)

  datatype NodeRecord = NodeRecord(
    node: string, generation: int, state: NodeState, labels: seq<string>, capacity: Resources, used: Resources,
    hostIP: string, registeredAt: int, lastSeenAt: int, updatedAt: int,
    status: Option<AgentStatus>, storage: StorageResources)

  /** A request that passed its handler's own checks; `generation` names the agent process. */
  datatype Request =
    | Register(node: string, generation: int, state: NodeState, labels: seq<string>, capacity: Resources,
               hostIP: string, storage: StorageResources)
    | Heartbeat(node: string, generation: int, capacity: Resources, used: Resources, hostIP: string,
                status: Option<AgentStatus>, storage: StorageResources)
    | SetState(node: string, state: NodeState)

  predicate Checked(r: Request) {
    match r
    case Register(node, g, _, _, _, _, _) => node != "" && g != 0
    case Heartbeat(node, g, _, _, _, _, _) => node != "" && g != 0
    case SetState(node, state) => node != "" && state != Unset
  }

  datatype Mutated = Kept(record: NodeRecord) | StaleGeneration | BadStatus

  const ZERO := Resources(0, 0)

  function Fresh(node: string): NodeRecord {
    NodeRecord(node, 0, Unset, [], ZERO, ZERO, "", 0, 0, 0, None, StorageResources(0, "", 0))
  }

  /** The mutators of the three handlers; time 0 is the zero time. */
  function Mutate(cur: NodeRecord, r: Request, now: int): Mutated {
    match r
    case Register(node, g, state, labels, capacity, hostIP, storage) =>
      if cur.generation > g then StaleGeneration
      else
        var newer := g > cur.generation;
        Kept(NodeRecord(node, g, if state.Unset? then Ready else state, labels, capacity,
                        if newer then ZERO else cur.used, hostIP,
                        if cur.registeredAt == 0 || newer then now else cur.registeredAt, now, now,
                        if newer then None else cur.status, storage))
    case Heartbeat(node, g, capacity, used, hostIP, status, storage) =>
      if cur.generation > g then StaleGeneration
      else if status.Some?
        && (status.value.schemaVersion <= 0 || (status.value.node != "" && status.value.node != node)) then BadStatus
      else
        Kept(NodeRecord(node, g, if cur.state.Unset? then Ready else cur.state, cur.labels,
                        Resources(if capacity.vcpus > 0 then capacity.vcpus else cur.capacity.vcpus,
                                  if capacity.memoryMB > 0 then capacity.memoryMB else cur.capacity.memoryMB),
                        used, if hostIP != "" then hostIP else cur.hostIP,
                        if cur.registeredAt == 0 then now else cur.registeredAt, now, now, status, storage))
    case SetState(node, state) =>
      Kept(cur.(node := node, generation := if cur.generation == 0 then now else cur.generation,
                registeredAt := if cur.registeredAt == 0 then now else cur.registeredAt,
                state := state, lastSeenAt := now, updatedAt := now))
  }

  /** The record a mutator is given for what was read. */
  function Base(node: string, snap: Snap<NodeRecord>): NodeRecord {
    match snap
    case Missing => Fresh(node)
    case Seen(cell) => cell.value
  }

  const TRIES := 6

  // ------------------------------------------------- handlers running side by side

  datatype Outcome = Stored(record: NodeRecord) | Refused(why: Mutated) | StoreError | TooManyConflicts

  datatype Step = Ready2Read | ReadDone(now: int, snap: Snap<NodeRecord>, next: NodeRecord) | Done(outcome: Outcome)

  /** One handler call: `landed` counts its writes that reached the store. */
  datatype Call = Call(request: Request, tries: nat, step: Step, landed: nat)

  /** `stamps` is a record of the nodes whose record a state change created, with the clock
      sample it used as their generation. */
  datatype World = World(clock: int, store: Store<string, NodeRecord>, calls: map<nat, Call>, stamps: map<string, int>)

  const EMPTY := World(1, Store(map[], 0), map[], map[])

  datatype Event =
    | Tick(d: nat)
    | Arrive(c: nat, request: Request)
    | Read(c: nat, fails: bool)
    | Write(c: nat, lands: bool, answered: bool)

  function DoRead(w: World, c: nat, fails: bool): World
    requires c in w.calls
  {
    var call := w.calls[c];
    var snap := w.store.Get(call.request.node);
    var step :=
      if call.tries == TRIES then Done(TooManyConflicts)
      else if fails then Done(StoreError)
      else
        match Mutate(Base(call.request.node, snap), call.request, w.clock)
        case Kept(next) => ReadDone(w.clock, snap, next)
        case refusal => Done(Refused(refusal));
    w.(calls := w.calls[c := call.(step := step)])
  }

  /** A state change that creates a record stamps it with its clock sample. */
  function Stamped(stamps: map<string, int>, call: Call): map<string, int>
    requires call.step.ReadDone?
  {
    if call.request.SetState? && call.step.snap.Missing? then stamps[call.request.node := call.step.now] else stamps
  }

  /** The write may be lost, or land with its answer lost. */
  function DoWrite(w: World, c: nat, lands: bool, answered: bool): World
    requires c in w.calls && w.calls[c].step.ReadDone?
  {
    var call := w.calls[c];
    var ok := lands && w.store.Unchanged(call.request.node, call.step.snap);
    var call' :=
      if !lands || !answered then call.(step := Done(StoreError))
      else if ok then call.(step := Done(Stored(call.step.next)))
      else call.(step := Ready2Read, tries := call.tries + 1);
    World(w.clock, if ok then w.store.Put(call.request.node, call.step.next) else w.store,
          w.calls[c := call'.(landed := call.landed + if ok then 1 else 0)],
          if ok then Stamped(w.stamps, call) else w.stamps)
  }

  function Apply(w: World, e: Event): World {
    match e
    case Tick(d) => w.(clock := w.clock + d)
    case Arrive(c, r) =>
      if c in w.calls || !Checked(r) then w else w.(calls := w.calls[c := Call(r, 0, Ready2Read, 0)])
    case Read(c, fails) => if c in w.calls && w.calls[c].step.Ready2Read? then DoRead(w, c, fails) else w
    case Write(c, lands, answered) =>
      if c in w.calls && w.calls[c].step.ReadDone? then DoWrite(w, c, lands, answered) else w
  }

  function Run(w: World, events: seq<Event>): World
    decreases |events|
  {
    if events == [] then w else Run(Apply(w, events[0]), events[1..])
  }

  // ------------------------------------------------------------------- invariants

  /** Some request that arrived reported this status as the process of this generation. */
  ghost predicate Reported(w: World, node: string, rec: NodeRecord) {
    rec.status.Some? ==>
      exists c :: c in w.calls && w.calls[c].request.Heartbeat? && w.calls[c].request.node == node
        && w.calls[c].request.generation == rec.generation && w.calls[c].request.status == rec.status
  }

  /** The generation is that of a process that asked. */
  ghost predicate Asked(w: World, node: string, generation: int) {
    exists c :: c in w.calls && !w.calls[c].request.SetState? && w.calls[c].request.node == node
      && w.calls[c].request.generation == generation
  }

  /** Where a generation comes from: a process that asked, or the state change that created
      the record. */
  ghost predicate Origin(w: World, node: string, generation: int) {
    Asked(w, node, generation) || (node in w.stamps && w.stamps[node] == generation)
  }

  /** Where the generation of a record about to be written comes from. */
  ghost predicate NextOrigin(w: World, c: nat)
    requires c in w.calls && w.calls[c].step.ReadDone?
  {
    var call := w.calls[c];
    if call.request.SetState? && call.step.snap.Missing? then call.step.next.generation == call.step.now
    else Origin(w, call.request.node, call.step.next.generation)
  }

  ghost predicate CallOk(w: World, c: nat)
    requires c in w.calls
  {
    var call := w.calls[c];
    && Checked(call.request)
    && call.tries <= TRIES
    && match call.step
       case Ready2Read => call.landed == 0
       case ReadDone(now, snap, next) =>
         && call.landed == 0 && 0 < now && call.tries < TRIES
         && w.store.HonestSnap(call.request.node, snap)
         && Mutate(Base(call.request.node, snap), call.request, now) == Kept(next)
         && next.generation > 0
         && Reported(w, call.request.node, next)
         && NextOrigin(w, c)
       case Done(Stored(_)) => call.landed == 1
       case Done(StoreError) => call.landed <= 1
       case Done(_) => call.landed == 0
  }

  ghost predicate RecordOk(w: World, node: string, rec: NodeRecord) {
    rec.generation > 0 && Reported(w, node, rec) && Origin(w, node, rec.generation)
  }

  ghost predicate StampsOk(w: World) {
    forall node :: node in w.stamps ==> node in w.store.cells && w.stamps[node] <= w.store.cells[node].value.generation
  }

  ghost predicate StoreOk(w: World) {
    && w.store.Valid() && 0 < w.clock && StampsOk(w)
    && forall node :: node in w.store.cells ==> RecordOk(w, node, w.store.cells[node].value)
  }

  ghost predicate Inv(w: World) {
    StoreOk(w) && forall c :: c in w.calls ==> CallOk(w, c)
  }

  /** Requests are remembered. */
  ghost predicate Remembers(w: World, w': World) {
    forall c :: c in w.calls ==> c in w'.calls && w'.calls[c].request == w.calls[c].request
  }

  lemma ReportedStays(w: World, w': World, node: string, rec: NodeRecord)
    requires Remembers(w, w') && Reported(w, node, rec)
    ensures Reported(w', node, rec)
  {
  }

  lemma ApplyRemembers(w: World, e: Event)
    ensures Remembers(w, Apply(w, e))
  {
  }

  /** A mutated record has a status of its own generation, if it has one. */
  lemma MutateReports(w: World, c: nat, cur: NodeRecord, now: int)
    requires c in w.calls && Checked(w.calls[c].request)
    requires Mutate(cur, w.calls[c].request, now).Kept? && Reported(w, w.calls[c].request.node, cur)
    requires 0 < now && 0 <= cur.generation && (cur.generation == 0 ==> cur.status.None?)
    ensures Reported(w, w.calls[c].request.node, Mutate(cur, w.calls[c].request, now).record)
    ensures Mutate(cur, w.calls[c].request, now).record.generation > 0
  {
  }

  lemma OthersStay(w: World, e: Event, c: nat)
    requires Inv(w) && c in w.calls && Apply(w, e).calls[c] == w.calls[c]
    ensures CallOk(Apply(w, e), c)
  {
    ApplyRemembers(w, e);
    assert CallOk(w, c);
    if w.calls[c].step.ReadDone? {
      ReportedStays(w, Apply(w, e), w.calls[c].request.node, w.calls[c].step.next);
    }
  }

  lemma ReadKeepsCall(w: World, c: nat, fails: bool)
    requires Inv(w) && c in w.calls && w.calls[c].step.Ready2Read?
    ensures CallOk(DoRead(w, c, fails), c)
  {
    var w', node := DoRead(w, c, fails), w.calls[c].request.node;
    assert CallOk(w, c);
    if w'.calls[c].step.ReadDone? {
      var cur := Base(node, w.store.Get(node));
      MutateReports(w, c, cur, w.clock);
      ReportedStays(w, w', node, w'.calls[c].step.next);
    }
  }

  /** The write of a call goes through. */
  ghost predicate Lands(w: World, e: Event) {
    && e.Write? && e.c in w.calls && w.calls[e.c].step.ReadDone? && e.lands
    && w.store.Unchanged(w.calls[e.c].request.node, w.calls[e.c].step.snap)
  }

  lemma OnlyLandingChanges(w: World, e: Event)
    ensures !Lands(w, e) ==> Apply(w, e).store == w.store && Apply(w, e).stamps == w.stamps
    ensures Lands(w, e) ==>
              var call := w.calls[e.c];
              && Apply(w, e).store == w.store.Put(call.request.node, call.step.next)
              && Apply(w, e).stamps == Stamped(w.stamps, call)
  {
  }

  lemma RecordStays(w: World, w': World, node: string, rec: NodeRecord)
    requires Remembers(w, w') && RecordOk(w, node, rec)
    requires (node in w.stamps ==> node in w'.stamps && w'.stamps[node] == w.stamps[node])
    ensures RecordOk(w', node, rec)
  {
    ReportedStays(w, w', node, rec);
  }

  /** What a landing write leaves in its own record. */
  lemma LandedRecord(w: World, e: Event)
    requires Inv(w) && Lands(w, e)
    ensures RecordOk(Apply(w, e), w.calls[e.c].request.node, w.calls[e.c].step.next)
    ensures StampsOk(Apply(w, e))
  {
    var w', call := Apply(w, e), w.calls[e.c];
    assert CallOk(w, e.c);
    ApplyRemembers(w, e);
    OnlyLandingChanges(w, e);
    ReportedStays(w, w', call.request.node, call.step.next);
    if call.step.snap.Seen? {
      assert w.store.cells[call.request.node] == call.step.snap.cell;
    } else {
      assert call.request.node !in w.stamps;
    }
  }

  lemma StoreStays(w: World, e: Event)
    requires Inv(w)
    ensures StoreOk(Apply(w, e))
  {
    var w' := Apply(w, e);
    ApplyRemembers(w, e);
    OnlyLandingChanges(w, e);
    if Lands(w, e) {
      LandedRecord(w, e);
    }
    forall node | node in w'.store.cells && (Lands(w, e) ==> node != w.calls[e.c].request.node)
      ensures RecordOk(w', node, w'.store.cells[node].value)
    {
      RecordStays(w, w', node, w.store.cells[node].value);
    }
  }

  lemma ApplyKeepsInv(w: World, e: Event)
    requires Inv(w)
    ensures Inv(Apply(w, e))
  {
    var w' := Apply(w, e);
    StoreStays(w, e);
    forall c | c in w'.calls ensures CallOk(w', c) {
      if c in w.calls && w'.calls[c] == w.calls[c] {
        OthersStay(w, e, c);
      } else if c in w.calls {
        assert CallOk(w, c);
        if e.Read? {
          ReadKeepsCall(w, c, e.fails);
        }
      }
    }
  }

  lemma {:induction false} RunKeepsInv(w: World, events: seq<Event>)
    requires Inv(w)
    ensures Inv(Run(w, events))
    decreases |events|
  {
    if events != [] {
      ApplyKeepsInv(w, events[0]);
      RunKeepsInv(Apply(w, events[0]), events[1..]);
    }
  }

  lemma RunsKeepInv(events: seq<Event>)
    ensures Inv(Run(EMPTY, events))
  {
    RunKeepsInv(EMPTY, events);
  }

  // -------------------------------------------------------------------- guarantees

  /** Refinement: whatever the other handlers did meanwhile, an access that changes the store
      applies its mutator once to the record stored at that moment (a fresh one if there is
      none), and touches no other record. */
  lemma AccessIsOneMutation(w: World, e: Event)
    requires Inv(w) && Apply(w, e).store != w.store
    ensures e.Write? && e.c in w.calls && w.calls[e.c].step.ReadDone?
    ensures var r, w' := w.calls[e.c].request, Apply(w, e);
            && r.node in w'.store.cells
            && Mutate(Base(r.node, w.store.Get(r.node)), r, w.calls[e.c].step.now) == Kept(w'.store.cells[r.node].value)
            && w'.calls[e.c].landed == w.calls[e.c].landed + 1
            && forall node :: node != r.node ==> w'.store.Get(node) == w.store.Get(node)
  {
    assert CallOk(w, e.c);
    WriteReplacesWhatWasRead(w.store, w.calls[e.c].request.node, w.calls[e.c].step.snap);
  }

  // ------------------------------------------------- what each handler sets and keeps

  /** A landing write of the call, over the record there was. */
  ghost predicate Changes(w: World, e: Event, node: string) {
    && Inv(w) && Apply(w, e).store != w.store && e.Write? && e.c in w.calls && w.calls[e.c].request.node == node
    && w.calls[e.c].step.ReadDone?
  }

  /** A register sets what the agent announces; the use and status of an older process are
      dropped, those of the same process are kept. */
  lemma RegisterSets(w: World, e: Event, node: string)
    requires Changes(w, e, node) && w.calls[e.c].request.Register?
    ensures node in Apply(w, e).store.cells
    ensures var r, next := w.calls[e.c].request, Apply(w, e).store.cells[node].value;
            && next.node == node && next.generation == r.generation && next.labels == r.labels
            && next.capacity == r.capacity && next.hostIP == r.hostIP && next.storage == r.storage
            && (r.state != Unset ==> next.state == r.state) && (r.state == Unset ==> next.state == Ready)
            && (node in w.store.cells && w.store.cells[node].value.generation == r.generation ==>
                  next.used == w.store.cells[node].value.used && next.status == w.store.cells[node].value.status)
            && (node in w.store.cells && w.store.cells[node].value.generation < r.generation ==>
                  next.used == Resources(0, 0) && next.status == None)
  {
    AccessIsOneMutation(w, e);
  }

  /** A heartbeat reports use, storage and status. It keeps the state and the labels, so it never
      ends a drain, and an absent capacity or host address keeps the last one. */
  lemma HeartbeatKeeps(w: World, e: Event, node: string)
    requires Changes(w, e, node) && w.calls[e.c].request.Heartbeat?
    ensures node in Apply(w, e).store.cells
    ensures var r, next := w.calls[e.c].request, Apply(w, e).store.cells[node].value;
            && next.node == node && next.generation == r.generation
            && next.used == r.used && next.storage == r.storage && next.status == r.status
            && (node !in w.store.cells ==> next.state == Ready)
            && (node in w.store.cells ==>
                  var cur := w.store.cells[node].value;
                  && (cur.state != Unset ==> next.state == cur.state) && next.labels == cur.labels
                  && next.capacity.vcpus == (if r.capacity.vcpus > 0 then r.capacity.vcpus else cur.capacity.vcpus)
                  && next.capacity.memoryMB ==
                     (if r.capacity.memoryMB > 0 then r.capacity.memoryMB else cur.capacity.memoryMB)
                  && next.hostIP == (if r.hostIP != "" then r.hostIP else cur.hostIP))
  {
    AccessIsOneMutation(w, e);
  }

  /** A state change sets the state alone. */
  lemma SetStateKeeps(w: World, e: Event, node: string)
    requires Changes(w, e, node) && w.calls[e.c].request.SetState?
    ensures node in Apply(w, e).store.cells
    ensures var r, next := w.calls[e.c].request, Apply(w, e).store.cells[node].value;
            && next.state == r.state
            && (node in w.store.cells ==>
                  var cur := w.store.cells[node].value;
                  && next.generation == cur.generation && next.labels == cur.labels && next.capacity == cur.capacity
                  && next.used == cur.used && next.hostIP == cur.hostIP && next.storage == cur.storage
                  && next.status == cur.status)
  {
    AccessIsOneMutation(w, e);
    assert node in w.store.cells ==> RecordOk(w, node, w.store.cells[node].value);
  }

  function StoredGeneration(w: World, node: string): int {
    if node in w.store.cells then w.store.cells[node].value.generation else 0
  }

  /** A try that can read is refused exactly for an older process, or for a status of no known
      schema or of another node; it goes on to its write otherwise. A call has six tries. */
  lemma RefusedExactly(w: World, c: nat)
    requires Inv(w) && c in w.calls && w.calls[c].step.Ready2Read? && w.calls[c].tries < 6
    ensures var r, step := w.calls[c].request, Apply(w, Read(c, false)).calls[c].step;
            var stale := !r.SetState? && r.generation < StoredGeneration(w, r.node);
            && (step == Done(Refused(StaleGeneration)) <==> stale)
            && (step == Done(Refused(BadStatus)) <==>
                  && !stale && r.Heartbeat? && r.status.Some?
                  && (r.status.value.schemaVersion <= 0
                      || (r.status.value.node != "" && r.status.value.node != r.node)))
            && (step.ReadDone? || step == Done(Refused(StaleGeneration)) || step == Done(Refused(BadStatus)))
  {
  }

  /** Nothing but heartbeats of the node lands. */
  ghost predicate OnlyHeartbeats(w: World, events: seq<Event>, node: string)
    decreases |events|
  {
    events == [] ||
    (&& (Changes(w, events[0], node) ==> w.calls[events[0].c].request.Heartbeat?)
     && OnlyHeartbeats(Apply(w, events[0]), events[1..], node))
  }

  /** However many heartbeats come in, of whatever process: a node that an operator drained or
      took down stays so. */
  lemma {:induction false} DrainOutlivesHeartbeats(w: World, events: seq<Event>, node: string)
    requires Inv(w) && node in w.store.cells && w.store.cells[node].value.state != Unset
    requires OnlyHeartbeats(w, events, node)
    ensures node in Run(w, events).store.cells
    ensures Run(w, events).store.cells[node].value.state == w.store.cells[node].value.state
    decreases |events|
  {
    if events != [] {
      var e, w' := events[0], Apply(w, events[0]);
      ApplyKeepsInv(w, e);
      if w'.store != w.store {
        AccessIsOneMutation(w, e);
        if w.calls[e.c].request.node == node {
          HeartbeatKeeps(w, e, node);
        } else {
          assert w'.store.Get(node) == w.store.Get(node);
        }
      }
      DrainOutlivesHeartbeats(w', events[1..], node);
    }
  }

  ghost predicate WellFormed(node: string, rec: NodeRecord) {
    && rec.node == node && rec.state != Unset
    && (rec.status.Some? ==>
          rec.status.value.schemaVersion > 0 && (rec.status.value.node == "" || rec.status.value.node == node))
  }

  /** Over every run a stored record carries its own name and a state, and a status only of a
      known schema and of this node. */
  lemma {:induction false} RecordsAreWellFormed(w: World, events: seq<Event>)
    requires Inv(w) && forall node :: node in w.store.cells ==> WellFormed(node, w.store.cells[node].value)
    ensures forall node :: node in Run(w, events).store.cells ==>
              WellFormed(node, Run(w, events).store.cells[node].value)
    decreases |events|
  {
    if events != [] {
      var e, w' := events[0], Apply(w, events[0]);
      ApplyKeepsInv(w, e);
      forall node | node in w'.store.cells ensures WellFormed(node, w'.store.cells[node].value) {
        if w'.store.Get(node) != w.store.Get(node) {
          ChangedIsWellFormed(w, e, node);
        }
      }
      RecordsAreWellFormed(w', events[1..]);
    }
  }

  lemma ChangedIsWellFormed(w: World, e: Event, node: string)
    requires Inv(w) && Apply(w, e).store.Get(node) != w.store.Get(node)
    requires node in w.store.cells ==> WellFormed(node, w.store.cells[node].value)
    ensures node in Apply(w, e).store.cells && WellFormed(node, Apply(w, e).store.cells[node].value)
  {
    AccessIsOneMutation(w, e);
    assert CallOk(w, e.c);
  }

  /** A call that succeeds wrote exactly once; one that is refused or gives up wrote nothing;
      only after a store error is it unknown. */
  lemma OutcomesCount(events: seq<Event>, c: nat)
    requires c in Run(EMPTY, events).calls && Run(EMPTY, events).calls[c].step.Done?
    ensures match Run(EMPTY, events).calls[c].step.outcome
            case Stored(_) => Run(EMPTY, events).calls[c].landed == 1
            case StoreError => Run(EMPTY, events).calls[c].landed <= 1
            case _ => Run(EMPTY, events).calls[c].landed == 0
  {
    RunsKeepInv(events);
    assert CallOk(Run(EMPTY, events), c);
  }

  lemma StepKeepsGeneration(w: World, e: Event, node: string)
    requires Inv(w) && node in w.store.cells
    ensures node in Apply(w, e).store.cells
    ensures w.store.cells[node].value.generation <= Apply(w, e).store.cells[node].value.generation
  {
    if Apply(w, e).store != w.store {
      AccessIsOneMutation(w, e);
      if node != w.calls[e.c].request.node {
        assert Apply(w, e).store.Get(node) == w.store.Get(node);
      }
    }
  }

  /** A record never disappears and its generation never goes down. */
  lemma {:induction false} GenerationNeverDecreases(w: World, events: seq<Event>, node: string)
    requires Inv(w) && node in w.store.cells
    ensures node in Run(w, events).store.cells
    ensures w.store.cells[node].value.generation <= Run(w, events).store.cells[node].value.generation
    decreases |events|
  {
    if events != [] {
      StepKeepsGeneration(w, events[0], node);
      ApplyKeepsInv(w, events[0]);
      GenerationNeverDecreases(Apply(w, events[0]), events[1..], node);
    }
  }

  /** A stored agent status was reported by a heartbeat of the process whose generation the
      record carries: a newer process never inherits an older one's status. */
  lemma StatusIsOfItsGeneration(events: seq<Event>, node: string)
    requires node in Run(EMPTY, events).store.cells
    ensures var w := Run(EMPTY, events);
            var rec := w.store.cells[node].value;
            rec.status.Some? ==>
              exists c :: c in w.calls && w.calls[c].request.Heartbeat? && w.calls[c].request.node == node
                && w.calls[c].request.generation == rec.generation && w.calls[c].request.status == rec.status
  {
    RunsKeepInv(events);
  }

  /** Once a newer process is stored, no call of an older one changes anything, not even one
      that read the record before. */
  lemma OlderProcessIsFenced(w: World, e: Event)
    requires Inv(w) && e.Write? && e.c in w.calls && !w.calls[e.c].request.SetState?
    requires w.calls[e.c].request.node in w.store.cells
    requires w.calls[e.c].request.generation < w.store.cells[w.calls[e.c].request.node].value.generation
    ensures Apply(w, e).store == w.store
  {
    if Apply(w, e).store != w.store {
      AccessIsOneMutation(w, e);
    }
  }

  /** And it stays so over any run. */
  lemma FencedForever(w: World, events: seq<Event>, e: Event, node: string)
    requires Inv(w) && node in w.store.cells && e.Write?
    requires var w' := Run(w, events);
             e.c in w'.calls && w'.calls[e.c].request.node == node && !w'.calls[e.c].request.SetState?
             && w'.calls[e.c].request.generation < w.store.cells[node].value.generation
    ensures Apply(Run(w, events), e).store == Run(w, events).store
  {
    RunKeepsInv(w, events);
    GenerationNeverDecreases(w, events, node);
    OlderProcessIsFenced(Run(w, events), e);
  }

  // --------------------------------------------- records that a state change created

  /** Over every run, a stored generation is that of a register or heartbeat that arrived for
      the node, or the clock sample of the state change that created the record; and such a
      sample is never undercut. */
  lemma GenerationOrigin(events: seq<Event>, node: string)
    requires node in Run(EMPTY, events).store.cells
    ensures var w := Run(EMPTY, events);
            var generation := w.store.cells[node].value.generation;
            && (Asked(w, node, generation) || (node in w.stamps && generation == w.stamps[node]))
            && (node in w.stamps ==> w.stamps[node] <= generation)
  {
    RunsKeepInv(events);
  }

  /** Only a state change on an absent record enters a sample, and it is its own. */
  lemma StampIsOfItsCreator(w: World, e: Event)
    requires Inv(w) && Apply(w, e).stamps != w.stamps
    ensures e.Write? && e.c in w.calls && w.calls[e.c].request.SetState? && w.calls[e.c].step.ReadDone?
    ensures var node := w.calls[e.c].request.node;
            && node !in w.store.cells
            && Apply(w, e).stamps == w.stamps[node := w.calls[e.c].step.now]
            && node in Apply(w, e).store.cells
            && Apply(w, e).store.cells[node].value.generation == w.calls[e.c].step.now
  {
    assert CallOk(w, e.c);
  }

  /** While no newer process has met such a record, the next try of a process of generation g
      is refused as stale exactly if g is below the sample. */
  lemma StampedRefusesExactly(events: seq<Event>, node: string, c: nat)
    requires var w := Run(EMPTY, events);
             && node in w.stamps && node in w.store.cells && w.store.cells[node].value.generation == w.stamps[node]
             && c in w.calls && w.calls[c].step.Ready2Read? && w.calls[c].tries < TRIES
             && w.calls[c].request.node == node && !w.calls[c].request.SetState?
    ensures var w := Run(EMPTY, events);
            Apply(w, Read(c, false)).calls[c].step == Done(Refused(StaleGeneration)) <==>
              w.calls[c].request.generation < w.stamps[node]
  {
  }

  lemma {:induction false} RunJoin(w: World, a: seq<Event>, b: seq<Event>)
    ensures Run(w, a + b) == Run(Run(w, a), b)
    decreases |a|
  {
    if a == [] {
      assert a + b == b;
    } else {
      assert (a + b)[0] == a[0] && (a + b)[1..] == a[1..] + b;
      RunJoin(Apply(w, a[0]), a[1..], b);
    }
  }

  lemma RunTwo(w: World, a: Event, b: Event)
    ensures Run(w, [a, b]) == Apply(Apply(w, a), b)
  {
    assert [a, b][1..] == [b] && [b][1..] == [];
    assert Run(Apply(w, a), [b]) == Apply(Apply(w, a), b);
  }

  /** A request that arrives at a record of a newer generation is refused at its first read. */
  lemma ArrivesStale(w: World, c: nat, r: Request)
    requires c !in w.calls && Checked(r) && !r.SetState? && r.node in w.store.cells
    requires r.generation < w.store.cells[r.node].value.generation
    ensures var w' := Run(w, [Arrive(c, r), Read(c, false)]);
            && c in w'.calls && w'.calls[c].step == Done(Refused(StaleGeneration))
            && w'.store == w.store && forall d :: d != c && d in w.calls ==> d in w'.calls && w'.calls[d] == w.calls[d]
    ensures forall d :: d != c && d !in w.calls ==> d !in Run(w, [Arrive(c, r), Read(c, false)]).calls
  {
    RunTwo(w, Arrive(c, r), Read(c, false));
    var w1 := Apply(w, Arrive(c, r));
    assert w1.calls[c] == Call(r, 0, Ready2Read, 0);
  }

  /** It happens: a state change creates the record at time `t`; the agent that started before
      can neither register nor send a heartbeat from then on. */
  lemma EarlyStateChangeRefusesRunningAgent(node: string, state: NodeState, t: nat, register: Request,
                                            heartbeat: Request)
    requires node != "" && state != Unset && 0 < t
    requires register.Register? && heartbeat.Heartbeat? && Checked(register) && Checked(heartbeat)
    requires register.node == heartbeat.node == node && register.generation == heartbeat.generation < t
    ensures var events := [Tick(t - 1), Arrive(0, SetState(node, state))] + [Read(0, false), Write(0, true, true)]
                          + [Arrive(1, register), Read(1, false)] + [Arrive(2, heartbeat), Read(2, false)];
            var w := Run(EMPTY, events);
            && {0, 1, 2} <= w.calls.Keys && w.calls[0].step.Done? && w.calls[0].step.outcome.Stored?
            && w.calls[1].step == Done(Refused(StaleGeneration)) && w.calls[2].step == Done(Refused(StaleGeneration))
  {
    var first, second := [Tick(t - 1), Arrive(0, SetState(node, state))], [Read(0, false), Write(0, true, true)];
    var third, fourth := [Arrive(1, register), Read(1, false)], [Arrive(2, heartbeat), Read(2, false)];
    RunTwo(EMPTY, first[0], first[1]);
    var w1 := Run(EMPTY, first);
    assert w1.clock == t && w1.store == EMPTY.store
           && w1.calls == map[0 := Call(SetState(node, state), 0, Ready2Read, 0)];
    RunTwo(w1, second[0], second[1]);
    var w2 := Run(w1, second);
    StateChangeCreates(w1, node, state, t);
    ArrivesStale(w2, 1, register);
    var w3 := Run(w2, third);
    ArrivesStale(w3, 2, heartbeat);
    RunJoin(EMPTY, first, second);
    RunJoin(EMPTY, first + second, third);
    RunJoin(EMPTY, first + second + third, fourth);
  }

  lemma StateChangeCreates(w: World, node: string, state: NodeState, t: nat)
    requires w.clock == t && w.store == EMPTY.store
    requires w.calls == map[0 := Call(SetState(node, state), 0, Ready2Read, 0)]
    ensures var w' := Apply(Apply(w, Read(0, false)), Write(0, true, true));
            && w'.calls.Keys == {0} && w'.calls[0].step.Done? && w'.calls[0].step.outcome.Stored?
            && node in w'.store.cells && w'.store.cells[node].value.generation == t
  {
    var w1 := Apply(w, Read(0, false));
    assert w1.calls[0].step.ReadDone? && w1.calls[0].step.next.generation == t;
  }

  // ------------------------------------------------------------------ the retry loop

  /** A write of some other handler. */
  datatype OtherWrite = OtherWrite(node: string, record: NodeRecord)

  function Play(s: Store<string, NodeRecord>, writes: seq<OtherWrite>): Store<string, NodeRecord> {
    if writes == [] then s
      else Play(s, writes[..|writes| - 1]).Put(writes[|writes| - 1].node, writes[|writes| - 1].record)
  }

  lemma {:induction false} PlayKeepsHonest(s: Store<string, NodeRecord>, writes: seq<OtherWrite>, node: string,
                                           snap: Snap<NodeRecord>)
    requires s.Valid() && s.HonestSnap(node, snap)
    ensures Play(s, writes).Valid() && Play(s, writes).HonestSnap(node, snap)
  {
    if writes != [] {
      PlayKeepsHonest(s, writes[..|writes| - 1], node, snap);
    }
  }

  lemma {:induction false} PlayOn(s: Store<string, NodeRecord>, a: seq<OtherWrite>, b: seq<OtherWrite>)
    ensures Play(s, a + b) == Play(Play(s, a), b)
  {
    if b == [] {
      assert a + b == a;
    } else {
      assert (a + b)[..|a + b| - 1] == a + b[..|b| - 1];
      PlayOn(s, a, b[..|b| - 1]);
    }
  }

  lemma {:induction false} PlayElsewhere(s: Store<string, NodeRecord>, writes: seq<OtherWrite>, node: string)
    requires forall o :: o in writes ==> o.node != node
    ensures Play(s, writes).Get(node) == s.Get(node)
  {
    if writes != [] {
      var n := |writes| - 1;
      assert writes[n] in writes && forall o :: o in writes[..n] ==> o in writes;
      PlayElsewhere(s, writes[..n], node);
    }
  }

  /** How a conditional write ends: it is lost on its way, it lands but its answer is lost, or
      it is answered. */
  datatype Fate = Lost | Unanswered | Answered

  /** One try: what the others write before the read and before the write, the time of the
      read, whether it fails, and how the write ends. */
  datatype Try = Try(beforeRead: seq<OtherWrite>, readFails: bool, now: int, beforeWrite: seq<OtherWrite>, fate: Fate)

  /** Another handler wrote the node's record between the read and the write of this try. */
  ghost predicate Contended(t: Try, node: string) {
    exists o :: o in t.beforeWrite && o.node == node
  }

  class RegistryServer {
    var store: Store<string, NodeRecord>

    constructor ()
      ensures store == Store(map[], 0)
    {
      store := Store(map[], 0);
    }

    /** Other handlers write. */
    method Others(writes: seq<OtherWrite>)
      modifies this
      ensures store == Play(old(store), writes)
    {
      var i := 0;
      while i < |writes|
        invariant 0 <= i <= |writes| && store == Play(old(store), writes[..i])
      {
        assert writes[..i + 1][..i] == writes[..i];
        store := store.Put(writes[i].node, writes[i].record);
        i := i + 1;
      }
      assert writes[..i] == writes;
    }

    /** upsertNodeRecord. `others` is everything the other handlers wrote before the write of
        this call that went through, or during the whole call if none did; `landed` tells
        which. Only after a store error can it have landed without the caller knowing. No outcome
        is without its reason: a store error needs an access without an answer, giving up a
        conflict in every try, and a refusal a record that the mutator refuses. */
    method UpsertNodeRecord(r: Request, tries: seq<Try>)
      returns (outcome: Outcome, ghost others: seq<OtherWrite>, ghost landed: bool)
      requires store.Valid() && |tries| == 6
      modifies this
      ensures store.Valid()
      ensures outcome.Stored? ==> landed && store == Play(old(store), others).Put(r.node, outcome.record)
      ensures landed ==> outcome.Stored? || outcome.StoreError?
      ensures !landed ==> store == Play(old(store), others)
      ensures landed ==> exists now, rec ::
                && Mutate(Base(r.node, Play(old(store), others).Get(r.node)), r, now) == Kept(rec)
                && store == Play(old(store), others).Put(r.node, rec)
      ensures outcome.StoreError? ==> exists t :: t in tries && (t.readFails || !t.fate.Answered?)
      ensures outcome.TooManyConflicts? ==> forall t :: t in tries ==> Contended(t, r.node)
      ensures outcome.Refused? ==> !outcome.why.Kept? && exists now ::
                Mutate(Base(r.node, Play(old(store), others).Get(r.node)), r, now) == outcome.why
    {
      others, landed := [], false;
      ghost var start := store;
      for i := 0 to TRIES
        invariant store.Valid() && store == Play(start, others) && !landed
        invariant forall j :: 0 <= j < i ==> Contended(tries[j], r.node)
      {
        assert tries[i] in tries;
        PlayOn(start, others, tries[i].beforeRead);
        PlayKeepsHonest(store, tries[i].beforeRead, r.node, Missing);
        Others(tries[i].beforeRead);
        others := others + tries[i].beforeRead;
        if tries[i].readFails {
          return StoreError, others, false;
        }
        var snap := store.Get(r.node);
        var current := match snap case Missing => Fresh(r.node) case Seen(cell) => cell.value;
        var mutated := Mutate(current, r, tries[i].now);
        if !mutated.Kept? {
          assert Mutate(Base(r.node, Play(start, others).Get(r.node)), r, tries[i].now) == mutated;
          return Refused(mutated), others, false;
        }
        if !Contended(tries[i], r.node) {
          PlayElsewhere(store, tries[i].beforeWrite, r.node);
        }
        PlayOn(start, others, tries[i].beforeWrite);
        PlayKeepsHonest(store, tries[i].beforeWrite, r.node, snap);
        Others(tries[i].beforeWrite);
        others := others + tries[i].beforeWrite;
        if tries[i].fate.Lost? {
          return StoreError, others, false;
        }
        if store.Unchanged(r.node, snap) {
          WriteReplacesWhatWasRead(store, r.node, snap);
          assert Mutate(Base(r.node, Play(start, others).Get(r.node)), r, tries[i].now) == Kept(mutated.record);
          store := store.Put(r.node, mutated.record);
          return if tries[i].fate.Answered? then Stored(mutated.record) else StoreError, others, true;
        }
        if tries[i].fate.Unanswered? {
          return StoreError, others, false;
        }
      }
      return TooManyConflicts, others, false;
    }
  }
}
