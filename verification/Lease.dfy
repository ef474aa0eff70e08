/** Leader election by a lease in the object store. Controllers are processes on one shared
    monotone clock; a clock sample, a read, a conditional write and its reply are separate
    steps, a write may land long after its sender gave up, and any step may fail. */
module Lease {
  import opened Types
  import opened CasStore

  datatype Lock = Lock(holder: nat, epoch: nat, expires: int, renewed: int)

  const LOCK := "lock"

  /** A conditional write under way: `seen` is what was read. */
  datatype Request = Request(seen: Snap<Lock>, lock: Lock)

  datatype Pc =
    | Idle
    | Sampled                              // renewLeadership: clock read, lock not yet read
    | Waiting(request: Request)            // conditional write sent
    | Answered(request: Request, ok: bool) // its reply has arrived
    | Checking(seen: Snap<Lock>)           // stillLeader: lock read, clock not yet

  /** A controller process: what it believes and where it is. IDs are never reused. */
  datatype Ctl = Ctl(leader: bool, epoch: nat, now: int, pc: Pc)

  /** A stillLeader call that returned true, with its clock sample and the expiry it read. */
  datatype Verdict = Verdict(who: nat, epoch: nat, sample: int, expires: int)

  /** `log` lists every lock ever stored, in order: the token of a lock is its place. */
  datatype World = World(
    clock: int, store: Store<string, Lock>, log: seq<Lock>,
    ctls: map<nat, Ctl>, flight: multiset<Request>, verdicts: seq<Verdict>)
  {
    function At(p: nat): Ctl {
      if p in ctls then ctls[p] else Ctl(false, 0, 0, Idle)
    }

    function With(p: nat, c: Ctl): World {
      this.(ctls := ctls[p := c])
    }
  }

  const EMPTY := World(0, Store(map[], 0), [], map[], multiset{}, [])

  datatype Event =
    | Tick(d: nat)
    | Sample(p: nat)
    | Read(p: nat)
    | Land(request: Request, replied: bool)
    | Reply(p: nat)
    | Fail(p: nat)
    | CheckRead(p: nat)
    | CheckNow(p: nat)

  /** What renewLeadership writes after reading `seen`; None when another holds the lease. */
  function Claim(p: nat, now: int, ttl: int, seen: Snap<Lock>): Option<Lock> {
    match seen
    case Missing => Some(Lock(p, 1, now + ttl, now))
    case Seen(cell) =>
      if cell.value.holder == p then Some(cell.value.(expires := now + ttl, renewed := now))
      else if cell.value.expires < now then Some(Lock(p, cell.value.epoch + 1, now + ttl, now))
      else None
  }

  predicate Renewal(request: Request) {
    request.seen.Seen? && request.seen.cell.value.holder == request.lock.holder
  }

  /** What the controller believes once its write was answered. */
  function Believe(c: Ctl, request: Request, ok: bool): Ctl {
    Ctl(ok, if ok || Renewal(request) then request.lock.epoch else c.epoch, c.now, Idle)
  }

  /** What stillLeader answers on the lock it read, at clock time `now`. */
  predicate Holds(p: nat, c: Ctl, seen: Snap<Lock>, now: int) {
    seen.Seen? && seen.cell.value.holder == p && seen.cell.value.epoch == c.epoch && seen.cell.value.expires > now
  }

  function DoRead(w: World, p: nat, ttl: int): World {
    var seen := w.store.Get(LOCK);
    match Claim(p, w.At(p).now, ttl, seen)
    case None => w.With(p, w.At(p).(leader := false, pc := Idle))
    case Some(lock) =>
      var r := Request(seen, lock);
      w.(ctls := w.ctls[p := w.At(p).(pc := Waiting(r))], flight := w.flight + multiset{r})
  }

  /** The store decides; the sender learns it only if it still waits, and a reply may claim
      a failure even though the write went through. */
  function DoLand(w: World, r: Request, replied: bool): World {
    var p := r.lock.holder;
    var ok := w.store.Unchanged(LOCK, r.seen);
    w.(store := w.store.PutIf(LOCK, r.seen, r.lock),
       log := if ok then w.log + [r.lock] else w.log,
       flight := w.flight - multiset{r},
       ctls := if w.At(p).pc == Waiting(r) then w.ctls[p := w.At(p).(pc := Answered(r, ok && replied))] else w.ctls)
  }

  function DoCheck(w: World, p: nat, seen: Snap<Lock>): World {
    w.(ctls := w.ctls[p := w.At(p).(pc := Idle)],
       verdicts := if Holds(p, w.At(p), seen, w.clock)
                   then w.verdicts + [Verdict(p, w.At(p).epoch, w.clock, seen.cell.value.expires)]
                   else w.verdicts)
  }

  function Apply(w: World, e: Event, ttl: nat -> int): World {
    match e
    case Tick(d) => w.(clock := w.clock + d)
    case Sample(p) =>
      if w.At(p).pc.Idle? then w.With(p, w.At(p).(now := w.clock, pc := Sampled)) else w
    case Read(p) => if w.At(p).pc.Sampled? then DoRead(w, p, ttl(p)) else w
    case Land(r, replied) => if r in w.flight then DoLand(w, r, replied) else w
    case Reply(p) =>
      if w.At(p).pc.Answered? then w.With(p, Believe(w.At(p), w.At(p).pc.request, w.At(p).pc.ok)) else w
    case Fail(p) => w.With(p, w.At(p).(pc := Idle))
    case CheckRead(p) =>
      if w.At(p).pc.Idle? then w.With(p, w.At(p).(pc := Checking(w.store.Get(LOCK)))) else w
    case CheckNow(p) => if w.At(p).pc.Checking? then DoCheck(w, p, w.At(p).pc.seen) else w
  }

  function Run(w: World, events: seq<Event>, ttl: nat -> int): World
    decreases |events|
  {
    if events == [] then w else Run(Apply(w, events[0], ttl), events[1..], ttl)
  }

  ghost predicate Positive(ttl: nat -> int) {
    forall p :: ttl(p) > 0
  }

  // ------------------------------------------------------------------- invariant

  /** One lock after another: renewed by its holder, or taken over after it expired. */
  predicate Follows(a: Lock, b: Lock) {
    || (b.holder == a.holder && b.epoch == a.epoch && a.renewed <= b.renewed)
    || (b.holder != a.holder && b.epoch == a.epoch + 1 && a.expires < b.renewed)
  }

  ghost predicate Chain(log: seq<Lock>, ttl: nat -> int) {
    && (forall i :: 0 <= i < |log| ==> log[i].expires == log[i].renewed + ttl(log[i].holder))
    && (forall i :: 0 < i < |log| ==> Follows(log[i - 1], log[i]))
    && (|log| > 0 ==> log[0].epoch == 1)
  }

  ghost predicate Stored(w: World, seen: Snap<Lock>) {
    seen.Seen? ==> seen.cell.token < |w.log| && w.log[seen.cell.token] == seen.cell.value
  }

  ghost predicate RequestOk(w: World, r: Request, ttl: nat -> int) {
    && Stored(w, r.seen)
    && r.lock.expires == r.lock.renewed + ttl(r.lock.holder)
    && r.lock.renewed <= w.At(r.lock.holder).now
    && match r.seen
       case Missing => r.lock.epoch == 1
       case Seen(cell) => Follows(cell.value, r.lock)
  }

  /** `p` was stored as the holder of `epoch`. */
  ghost predicate Held(log: seq<Lock>, p: nat, epoch: nat) {
    exists lock :: lock in log && lock.holder == p && lock.epoch == epoch
  }

  ghost predicate PcOk(w: World, p: nat) {
    match w.At(p).pc
    case Idle => true
    case Sampled => true
    case Waiting(r) => r.lock.holder == p && Stored(w, r.seen)
    case Answered(r, ok) => r.lock.holder == p && Stored(w, r.seen) && (ok ==> r.lock in w.log)
    case Checking(seen) => Stored(w, seen)
  }

  ghost predicate CtlOk(w: World, p: nat) {
    && w.At(p).now <= w.clock
    && (w.At(p).leader ==> Held(w.log, p, w.At(p).epoch))
    && PcOk(w, p)
  }

  ghost predicate VerdictOk(w: World, v: Verdict) {
    && v.sample < v.expires
    && exists lock :: lock in w.log && lock.holder == v.who && lock.epoch == v.epoch && lock.expires == v.expires
         && lock.renewed <= v.sample
  }

  ghost predicate Current(w: World) {
    && w.store.next == |w.log|
    && w.store.cells == if w.log == [] then map[] else map[LOCK := Cell(|w.log| - 1, w.log[|w.log| - 1])]
  }

  ghost predicate Inv(w: World, ttl: nat -> int) {
    && Current(w)
    && Chain(w.log, ttl)
    && Dated(w)
    && (forall r :: r in w.flight ==> RequestOk(w, r, ttl))
    && (forall p :: CtlOk(w, p))
    && (forall v :: v in w.verdicts ==> VerdictOk(w, v))
  }

  // ---------------------------------------------------------- every step keeps it

  lemma HeldGrows(log: seq<Lock>, log': seq<Lock>, p: nat, epoch: nat)
    requires Held(log, p, epoch) && log <= log'
    ensures Held(log', p, epoch)
  {
    var lock :| lock in log && lock.holder == p && lock.epoch == epoch;
    assert lock in log';
  }

  /** Nothing a controller, request or verdict relies on is lost when the log grows and the
      other processes move on. */
  ghost predicate Later(w: World, w': World) {
    && w.log <= w'.log && w.clock <= w'.clock
    && forall p :: w.At(p).now <= w'.At(p).now
  }

  lemma RequestStays(w: World, w': World, r: Request, ttl: nat -> int)
    requires Later(w, w') && RequestOk(w, r, ttl)
    ensures RequestOk(w', r, ttl)
  {
    assert w.At(r.lock.holder).now <= w'.At(r.lock.holder).now;
  }

  lemma CtlStays(w: World, w': World, p: nat)
    requires Later(w, w') && CtlOk(w, p) && w'.At(p) == w.At(p)
    ensures CtlOk(w', p)
  {
    if w.At(p).leader {
      HeldGrows(w.log, w'.log, p, w.At(p).epoch);
    }
    if w.At(p).pc.Answered? {
      assert w.At(p).pc.ok ==> w.At(p).pc.request.lock in w'.log;
    }
  }

  lemma VerdictStays(w: World, w': World, v: Verdict)
    requires w.log <= w'.log && VerdictOk(w, v)
    ensures VerdictOk(w', v)
  {
    var lock :| lock in w.log && lock.holder == v.who && lock.epoch == v.epoch && lock.expires == v.expires
      && lock.renewed <= v.sample;
    assert lock in w'.log;
  }

  lemma StepOf(w: World, e: Event, ttl: nat -> int, p: nat)
    requires w.At(p).now <= w.clock
    ensures var w' := Apply(w, e, ttl);
            w.log <= w'.log && w.clock <= w'.clock && w.At(p).now <= w'.At(p).now
  {
  }

  lemma ApplyIsLater(w: World, e: Event, ttl: nat -> int)
    requires forall p :: CtlOk(w, p)
    ensures Later(w, Apply(w, e, ttl))
  {
    forall p ensures w.At(p).now <= Apply(w, e, ttl).At(p).now && w.log <= Apply(w, e, ttl).log
      && w.clock <= Apply(w, e, ttl).clock
    {
      assert CtlOk(w, p);
      StepOf(w, e, ttl, p);
    }
    assert CtlOk(w, 0);
    StepOf(w, e, ttl, 0);
  }

  /** The lock read is the last one stored. */
  lemma GetIsLast(w: World, ttl: nat -> int)
    requires Inv(w, ttl)
    ensures Stored(w, w.store.Get(LOCK))
    ensures w.store.Get(LOCK) == if w.log == [] then Missing else Seen(Cell(|w.log| - 1, w.log[|w.log| - 1]))
  {
  }

  /** A claim continues the lock it was made on. */
  lemma ClaimIsOk(w: World, p: nat, ttl: nat -> int)
    requires Inv(w, ttl) && Claim(p, w.At(p).now, ttl(p), w.store.Get(LOCK)).Some?
    ensures RequestOk(w, Request(w.store.Get(LOCK), Claim(p, w.At(p).now, ttl(p), w.store.Get(LOCK)).value), ttl)
  {
    GetIsLast(w, ttl);
    assert w.log != [] ==> w.log[|w.log| - 1].renewed <= w.At(w.log[|w.log| - 1].holder).now;
  }

  /** A conditional write lands only right after the lock it was made on. */
  lemma LandExtendsChain(w: World, r: Request, ttl: nat -> int)
    requires Inv(w, ttl) && RequestOk(w, r, ttl) && w.store.Unchanged(LOCK, r.seen)
    ensures Chain(w.log + [r.lock], ttl)
  {
    GetIsLast(w, ttl);
    var log := w.log + [r.lock];
    forall i | 0 < i < |log| ensures Follows(log[i - 1], log[i]) {
      assert i < |w.log| ==> Follows(w.log[i - 1], w.log[i]);
    }
  }

  /** What a step does to the process that takes it. */
  lemma OwnPlace(w: World, e: Event, ttl: nat -> int, p: nat)
    requires CtlOk(w, p) && Stored(w, w.store.Get(LOCK))
    requires var w' := Apply(w, e, ttl); w.log <= w'.log && w.clock <= w'.clock
    requires Apply(w, e, ttl).At(p) != w.At(p)
    ensures Apply(w, e, ttl).At(p).now <= Apply(w, e, ttl).clock && PcOk(Apply(w, e, ttl), p)
  {
    if e.Land? {
      assert Apply(w, e, ttl).At(p).pc.ok ==> e.request.lock in Apply(w, e, ttl).log;
    }
  }

  lemma OwnBelief(w: World, e: Event, ttl: nat -> int, p: nat)
    requires CtlOk(w, p) && w.log <= Apply(w, e, ttl).log
    ensures Apply(w, e, ttl).At(p).leader ==> Held(Apply(w, e, ttl).log, p, Apply(w, e, ttl).At(p).epoch)
  {
    var w' := Apply(w, e, ttl);
    if e == Reply(p) && w.At(p).pc.Answered? {
      BelieveIsHeld(w, p);
    } else {
      assert w'.At(p).leader ==> w.At(p).leader && w'.At(p).epoch == w.At(p).epoch;
      if w.At(p).leader {
        HeldGrows(w.log, w'.log, p, w.At(p).epoch);
      }
    }
  }

  lemma CtlAfter(w: World, e: Event, ttl: nat -> int, p: nat)
    requires Current(w) && forall p :: CtlOk(w, p)
    ensures CtlOk(Apply(w, e, ttl), p)
  {
    ApplyIsLater(w, e, ttl);
    assert CtlOk(w, p);
    if Apply(w, e, ttl).At(p) == w.At(p) {
      CtlStays(w, Apply(w, e, ttl), p);
    } else {
      OwnPlace(w, e, ttl, p);
      OwnBelief(w, e, ttl, p);
    }
  }

  lemma BelieveIsHeld(w: World, p: nat)
    requires CtlOk(w, p) && w.At(p).pc.Answered?
    ensures var c := Believe(w.At(p), w.At(p).pc.request, w.At(p).pc.ok); c.leader ==> Held(w.log, p, c.epoch)
  {
  }

  lemma VerdictAfter(w: World, e: Event, ttl: nat -> int, v: Verdict)
    requires Inv(w, ttl) && v in Apply(w, e, ttl).verdicts
    ensures VerdictOk(Apply(w, e, ttl), v)
  {
    var w' := Apply(w, e, ttl);
    ApplyIsLater(w, e, ttl);
    if v in w.verdicts {
      VerdictStays(w, w', v);
    } else {
      assert CtlOk(w, e.p);
      var lock := w.At(e.p).pc.seen.cell.value;
      var t := w.At(e.p).pc.seen.cell.token;
      assert w.log[t] == lock;
      assert w.log[t].renewed <= w.At(w.log[t].holder).now;
      assert lock in w'.log;
    }
  }

  ghost predicate Dated(w: World) {
    forall i :: 0 <= i < |w.log| ==> w.log[i].renewed <= w.At(w.log[i].holder).now
  }

  lemma DatedAfter(w: World, w': World)
    requires Dated(w) && Later(w, w')
    requires w'.log == w.log || exists lock: Lock :: w'.log == w.log + [lock] && lock.renewed <= w.At(lock.holder).now
    ensures Dated(w')
  {
    forall i | 0 <= i < |w'.log| ensures w'.log[i].renewed <= w'.At(w'.log[i].holder).now {
      assert w.At(w'.log[i].holder).now <= w'.At(w'.log[i].holder).now;
    }
  }

  predicate Landing(w: World, e: Event) {
    e.Land? && e.request in w.flight && w.store.Unchanged(LOCK, e.request.seen)
  }

  /** Only a landing write touches the store and the log, and it appends to both. */
  lemma LogStep(w: World, e: Event, ttl: nat -> int)
    ensures var w' := Apply(w, e, ttl);
            if Landing(w, e) then w'.log == w.log + [e.request.lock] && w'.store == w.store.Put(LOCK, e.request.lock)
            else w'.log == w.log && w'.store == w.store
  {
  }

  lemma PutIsCurrent(w: World, w': World, lock: Lock)
    requires Current(w) && w'.log == w.log + [lock] && w'.store == w.store.Put(LOCK, lock)
    ensures Current(w')
  {
  }

  lemma LogAfter(w: World, e: Event, ttl: nat -> int)
    requires Inv(w, ttl)
    ensures Current(Apply(w, e, ttl)) && Chain(Apply(w, e, ttl).log, ttl) && Dated(Apply(w, e, ttl))
  {
    var w' := Apply(w, e, ttl);
    ApplyIsLater(w, e, ttl);
    LogStep(w, e, ttl);
    if Landing(w, e) {
      assert RequestOk(w, e.request, ttl);
      LandExtendsChain(w, e.request, ttl);
      PutIsCurrent(w, w', e.request.lock);
    }
    DatedAfter(w, w');
  }

  lemma ApplyKeepsInv(w: World, e: Event, ttl: nat -> int)
    requires Inv(w, ttl)
    ensures Inv(Apply(w, e, ttl), ttl)
  {
    var w' := Apply(w, e, ttl);
    ApplyIsLater(w, e, ttl);
    LogAfter(w, e, ttl);
    forall r | r in w'.flight ensures RequestOk(w', r, ttl) {
      if r in w.flight {
        RequestStays(w, w', r, ttl);
      } else {
        ClaimIsOk(w, e.p, ttl);
        RequestStays(w, w', r, ttl);
      }
    }
    forall p ensures CtlOk(w', p) {
      CtlAfter(w, e, ttl, p);
    }
    forall v | v in w'.verdicts ensures VerdictOk(w', v) {
      VerdictAfter(w, e, ttl, v);
    }
  }

  lemma {:induction false} RunKeepsInv(w: World, events: seq<Event>, ttl: nat -> int)
    requires Inv(w, ttl)
    ensures Inv(Run(w, events, ttl), ttl) && Later(w, Run(w, events, ttl))
    decreases |events|
  {
    if events != [] {
      ApplyKeepsInv(w, events[0], ttl);
      ApplyIsLater(w, events[0], ttl);
      RunKeepsInv(Apply(w, events[0], ttl), events[1..], ttl);
    }
  }
}
