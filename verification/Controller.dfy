/** The controller object: renewLeadership and stillLeader as the source runs them, each a
    sequence of steps of the lease protocol with other processes moving in between. */
module Controller {
  import opened Types
  import opened CasStore
  import opened Lease
  import LeaseSafety

  /** What happens around one renewal: the others' steps before the read and before the
      write lands, and how the two accesses end. */
  datatype Around = Around(beforeRead: seq<Event>, readFails: bool, beforeLand: seq<Event>, fate: Fate)

  /** A write is lost on its way, lands without an answer, or is answered. */
  datatype Fate = Lost | Unanswered | Replied(truthful: bool)

  /** A step of another process or of the clock, or, unless this process has a write under
      way, an old write of its own landing late. */
  predicate Foreign(e: Event, id: nat, writing: bool) {
    match e
    case Tick(_) => true
    case Land(r, _) => !writing || r.lock.holder != id
    case Sample(p) => p != id
    case Read(p) => p != id
    case Reply(p) => p != id
    case Fail(p) => p != id
    case CheckRead(p) => p != id
    case CheckNow(p) => p != id
  }

  ghost predicate AllForeign(events: seq<Event>, id: nat, writing: bool) {
    forall e :: e in events ==> Foreign(e, id, writing)
  }

  lemma ForeignStep(w: World, e: Event, ttl: nat -> int, id: nat)
    requires Foreign(e, id, w.At(id).pc.Waiting?)
    ensures Apply(w, e, ttl).At(id) == w.At(id)
    ensures forall r :: w.At(id).pc == Waiting(r) && r.lock.holder == id && r in w.flight ==>
              r in Apply(w, e, ttl).flight
  {
    ForeignKeepsPlace(w, e, ttl, id);
  }

  lemma ForeignKeepsPlace(w: World, e: Event, ttl: nat -> int, id: nat)
    requires Foreign(e, id, w.At(id).pc.Waiting?)
    ensures Apply(w, e, ttl).At(id) == w.At(id)
  {
  }

  /** A claim is sent, or the lock is another's and the process steps back. */
  lemma ReadDecides(w: World, p: nat, ttl: nat -> int)
    requires w.At(p).pc.Sampled?
    ensures var w', seen := Apply(w, Read(p), ttl), w.store.Get(LOCK);
            match Claim(p, w.At(p).now, ttl(p), seen)
            case None => w'.At(p) == w.At(p).(leader := false, pc := Idle)
            case Some(lock) =>
              w'.At(p) == w.At(p).(pc := Waiting(Request(seen, lock))) && Request(seen, lock) in w'.flight
  {
  }

  /** The store after a conditional write on `r.seen` that ended so. */
  function Landed(store: Store<string, Lock>, r: Request, fate: Fate): Store<string, Lock> {
    if !fate.Lost? && store.Unchanged(LOCK, r.seen) then store.Put(LOCK, r.lock) else store
  }

  class Process {
    const id: nat
    const ttl: nat -> int
    var leader: bool
    var epoch: nat
    var lastInputSignature: string
    var world: World
    ghost var trace: seq<Event>

    /** The world is what the steps traced so far made of the empty store. */
    ghost predicate History()
      reads this
    {
      world == Run(EMPTY, trace, ttl)
    }

    /** The fields are what the protocol says this process believes. */
    ghost predicate Agrees()
      reads this
    {
      world.At(id).leader == leader && world.At(id).epoch == epoch
    }

    ghost predicate Valid()
      reads this
    {
      History() && Agrees() && world.At(id).pc.Idle?
    }

    constructor (name: nat, lease: nat -> int)
      ensures Valid() && !leader && id == name && ttl == lease
    {
      id, ttl := name, lease;
      leader, epoch, lastInputSignature := false, 0, "";
      world, trace := EMPTY, [];
    }

    method Happen(e: Event)
      requires History()
      modifies this`world, this`trace
      ensures History() && trace == old(trace) + [e] && world == Apply(old(world), e, ttl)
    {
      LeaseSafety.RunJoin(EMPTY, trace, [e], ttl);
      assert [e][1..] == [];
      world := Apply(world, e, ttl);
      trace := trace + [e];
    }

    /** Other processes and the clock move on. */
    method Others(events: seq<Event>)
      requires History() && AllForeign(events, id, world.At(id).pc.Waiting?)
      modifies this`world, this`trace
      ensures History() && old(trace) <= trace && world.At(id) == old(world.At(id))
      ensures world == Run(old(world), events, ttl)
      ensures forall r :: world.At(id).pc == Waiting(r) && r.lock.holder == id && r in old(world.flight) ==>
                r in world.flight
    {
      var i := 0;
      while i < |events|
        invariant 0 <= i <= |events| && History() && old(trace) <= trace && world.At(id) == old(world.At(id))
        invariant forall r :: world.At(id).pc == Waiting(r) && r.lock.holder == id && r in old(world.flight) ==>
                    r in world.flight
        invariant world == Run(old(world), events[..i], ttl)
      {
        ForeignStep(world, events[i], ttl, id);
        LeaseSafety.RunJoin(old(world), events[..i], [events[i]], ttl);
        assert events[..i + 1] == events[..i] + [events[i]] && [events[i]][1..] == [];
        Happen(events[i]);
        i := i + 1;
      }
      assert events[..i] == events;
    }

    /** The end of a conditional write: it lands and is answered, or the caller sees an error. */
    method Finish(r: Request, fate: Fate) returns (err: bool, ok: bool)
      requires History() && world.At(id).pc == Waiting(r) && r in world.flight && r.lock.holder == id
      modifies this`world, this`trace
      ensures History() && old(trace) <= trace
      ensures world.At(id) == if err then old(world.At(id)).(pc := Idle) else Believe(old(world.At(id)), r, ok)
      ensures err <==> !fate.Replied?
      ensures !err ==> ok == (old(world).store.Unchanged(LOCK, r.seen) && fate.truthful)
      ensures world.store == Landed(old(world).store, r, fate)
    {
      ok := false;
      match fate {
        case Lost =>
          err := true;
          Happen(Fail(id));
        case Unanswered =>
          err := true;
          Happen(Land(r, true));
          Happen(Fail(id));
        case Replied(truthful) =>
          err, ok := false, world.store.Unchanged(LOCK, r.seen) && truthful;
          Happen(Land(r, truthful));
          Happen(Reply(id));
      }
    }

    /** The clock sample and the read that every renewal begins with. */
    method Begin(around: Around) returns (err: bool, seen: Snap<Lock>)
      requires Valid() && AllForeign(around.beforeRead, id, false)
      modifies this`world, this`trace
      ensures History() && Agrees() && old(trace) <= trace
      ensures err == around.readFails && world.store == AtRead(old(world), around).store
      ensures err ==> world.At(id).pc.Idle?
      ensures !err ==> world == AtRead(old(world), around) && world.At(id).pc.Sampled?
      ensures !err ==> world.At(id).now == old(world).clock
      ensures !err ==> seen == world.store.Get(LOCK)
    {
      Happen(Sample(id));
      Others(around.beforeRead);
      seen := world.store.Get(LOCK);
      err := around.readFails;
      if err {
        Happen(Fail(id));
      }
    }

    /** PutJSONIfAbsent or PutJSONIfMatch of `lock` over what was read. */
    method Put(seen: Snap<Lock>, lock: Lock, around: Around) returns (err: bool, ok: bool)
      requires History() && Agrees() && world.At(id).pc.Sampled? && seen == world.store.Get(LOCK)
      requires Claim(id, world.At(id).now, ttl(id), seen) == Some(lock) && AllForeign(around.beforeLand, id, true)
      modifies this`world, this`trace
      ensures History() && old(trace) <= trace && world.At(id).pc.Idle?
      ensures err <==> !around.fate.Replied?
      ensures world.store == Landed(AtLanding(old(world), around).store, Request(seen, lock), around.fate)
      ensures !err ==> ok == (AtLanding(old(world), around).store.Unchanged(LOCK, seen) && around.fate.truthful)
      ensures err ==> Agrees()
      ensures !err ==>
                && world.At(id).leader == ok
                && world.At(id).epoch == if ok || Renewal(Request(seen, lock)) then lock.epoch else epoch
    {
      ReadDecides(world, id, ttl);
      Happen(Read(id));
      Others(around.beforeLand);
      err, ok := Finish(Request(seen, lock), around.fate);
    }

    // ----------------------------------------------------- what a renewal comes to

    /** The world at the read of a renewal, and at the landing of its write. */
    ghost function AtRead(w: World, around: Around): World {
      Run(Apply(w, Sample(id), ttl), around.beforeRead, ttl)
    }

    ghost function AtLanding(read: World, around: Around): World {
      Run(Apply(read, Read(id), ttl), around.beforeLand, ttl)
    }

    /** The lock that was read is free, this process's own, or expired at the clock sample. */
    predicate MayLead(seen: Snap<Lock>, now: int) {
      seen.Missing? || seen.cell.value.holder == id || seen.cell.value.expires < now
    }

    /** Epochs count changes of the holder. */
    function Wanted(seen: Snap<Lock>, now: int): Lock {
      var epoch :=
        if seen.Missing? then 1
        else if seen.cell.value.holder == id then seen.cell.value.epoch
        else seen.cell.value.epoch + 1;
      Lock(id, epoch, now + ttl(id), now)
    }

    ghost predicate May(w: World, around: Around) {
      MayLead(AtRead(w, around).store.Get(LOCK), w.clock)
    }

    /** Nobody wrote the lock between the read and the landing of the write. */
    ghost predicate Undisturbed(w: World, around: Around) {
      AtLanding(AtRead(w, around), around).store.Unchanged(LOCK, AtRead(w, around).store.Get(LOCK))
    }

    ghost function LockWanted(w: World, around: Around): Lock {
      Wanted(AtRead(w, around).store.Get(LOCK), w.clock)
    }

    ghost function StoreAfter(w: World, around: Around): Store<string, Lock> {
      if around.readFails then AtRead(w, around).store else AfterRead(AtRead(w, around), w.clock, around)
    }

    /** So with nobody in between, a renewal that may lead and is answered truthfully does lead,
        and the lock it wanted is stored; nothing keeps a dead leader's place taken. */
    lemma CalmRenewalLeads(w: World, around: Around)
      requires !around.readFails && around.beforeLand == [] && May(w, around) && !around.fate.Lost?
      ensures Undisturbed(w, around)
      ensures var now := StoreAfter(w, around).Get(LOCK); now.Seen? && now.cell.value == LockWanted(w, around)
    {
      var read := AtRead(w, around);
      assert Apply(read, Read(id), ttl).store == read.store;
    }

    /** The store after the lock was read in the world `read`, with its clock sample `now`. */
    ghost function AfterRead(read: World, now: int, around: Around): Store<string, Lock> {
      var seen := read.store.Get(LOCK);
      if !MayLead(seen, now) then read.store
      else Landed(AtLanding(read, around).store, Request(seen, Wanted(seen, now)), around.fate)
    }

    /** Claims a free or expired lock, renews its own, or steps back from another's. */
    method Contend(seen: Snap<Lock>, around: Around) returns (err: bool)
      requires History() && Agrees() && world.At(id).pc.Sampled? && seen == world.store.Get(LOCK)
      requires AllForeign(around.beforeLand, id, true)
      modifies this`world, this`trace, this`leader, this`epoch
      ensures Valid() && old(trace) <= trace
      ensures err ==> leader == old(leader) && epoch == old(epoch)
      ensures err <==> MayLead(seen, old(world.At(id)).now) && !around.fate.Replied?
      ensures !err && !MayLead(seen, old(world.At(id)).now) ==> !leader
      ensures !err && MayLead(seen, old(world.At(id)).now) ==>
                leader == (AtLanding(old(world), around).store.Unchanged(LOCK, seen) && around.fate.truthful)
      ensures !err && leader ==> epoch == Wanted(seen, old(world.At(id)).now).epoch
      ensures world.store == AfterRead(old(world), old(world.At(id)).now, around)
    {
      var now, ok := world.At(id).now, false;
      if seen.Missing? {
        var lock := Lock(id, 1, now + ttl(id), now);
        err, ok := Put(seen, lock, around);
        if err {
          return;
        }
        if ok {
          leader, epoch := true, lock.epoch;
        } else {
          leader := false;
        }
      } else if seen.cell.value.holder == id {
        var current := seen.cell.value.(expires := now + ttl(id), renewed := now);
        err, ok := Put(seen, current, around);
        if err {
          return;
        }
        leader, epoch := ok, current.epoch;
      } else if seen.cell.value.expires < now {
        var lock := Lock(id, seen.cell.value.epoch + 1, now + ttl(id), now);
        err, ok := Put(seen, lock, around);
        if err {
          return;
        }
        if ok {
          leader, epoch := true, lock.epoch;
        } else {
          leader := false;
        }
      } else {
        err := false;
        ReadDecides(world, id, ttl);
        Happen(Read(id));
        leader := false;
      }
    }

    /** renewLeadership. Whatever others do in between, it is an error exactly if an access got no
        answer; it leads exactly if it may, nobody wrote the lock between its read and its write,
        and it is told so; and the store then holds its lock, in the right epoch. On an error it
        believes what it believed before. */
    method RenewLeadership(around: Around) returns (err: bool)
      requires Valid() && AllForeign(around.beforeRead, id, false) && AllForeign(around.beforeLand, id, true)
      modifies this
      ensures Valid() && old(trace) <= trace
      ensures err ==> leader == old(leader) && epoch == old(epoch)
      ensures err <==> around.readFails || (old(May(world, around)) && !around.fate.Replied?)
      ensures !err ==> leader == (old(May(world, around) && Undisturbed(world, around)) && around.fate.truthful)
      ensures !err && leader ==> epoch == old(LockWanted(world, around)).epoch
      ensures world.store == old(StoreAfter(world, around))
      ensures lastInputSignature == if leader != old(leader) then "" else old(lastInputSignature)
    {
      var wasLeader := leader;
      var seen;
      err, seen := Begin(around);
      if err {
        return;
      }
      err := Contend(seen, around);
      if err {
        return;
      }
      if !wasLeader && leader {
        lastInputSignature := "";
      }
      if wasLeader && !leader {
        lastInputSignature := "";
      }
    }

    /** The world at the clock sample of stillLeader. */
    ghost function AtSample(w: World, beforeSample: seq<Event>): World {
      Run(Apply(w, CheckRead(id), ttl), beforeSample, ttl)
    }

    /** stillLeader: reads the lock, then the clock. A true answer is a verdict of the
        protocol, so what is proved of verdicts holds of it. */
    method StillLeader(readFails: bool, beforeSample: seq<Event>) returns (held: bool)
      requires Valid() && AllForeign(beforeSample, id, false) && Positive(ttl)
      modifies this`world, this`trace
      ensures Valid() && old(trace) <= trace
      ensures held ==> StillHeld()
      ensures world == if readFails then old(world) else Apply(AtSample(old(world), beforeSample), CheckNow(id), ttl)
      ensures held <==> !readFails && var seen := old(world).store.Get(LOCK);
                        && seen.Seen? && seen.cell.value.holder == id && seen.cell.value.epoch == epoch
                        && seen.cell.value.expires > world.clock
    {
      if readFails {
        return false;
      }
      var seen := world.store.Get(LOCK);
      Happen(CheckRead(id));
      Others(beforeSample);
      assert world.At(id).pc == Checking(seen);
      held := seen.Seen? && seen.cell.value.holder == id && seen.cell.value.epoch == epoch
        && seen.cell.value.expires > world.clock;
      if held {
        HeldNow(seen);
      }
      Happen(CheckNow(id));
    }

    /** The store holds the lock for this process and epoch, unexpired now. */
    ghost predicate StillHeld()
      reads this
    {
      var now := world.store.Get(LOCK);
      && now.Seen? && now.cell.value.holder == id && now.cell.value.epoch == epoch
      && now.cell.value.expires > world.clock
      && exists v :: v in world.verdicts && v.who == id && v.epoch == epoch && v.sample == world.clock
    }

    lemma HeldNow(seen: Snap<Lock>)
      requires History() && Agrees() && Positive(ttl)
      requires world.At(id).pc == Checking(seen) && Holds(id, world.At(id), seen, world.clock)
      ensures var w', now := Apply(world, CheckNow(id), ttl), world.store.Get(LOCK);
              && w'.store == world.store && w'.clock == world.clock
              && now.Seen? && now.cell.value.holder == id && now.cell.value.epoch == epoch
              && now.cell.value.expires > world.clock
              && exists v :: v in w'.verdicts && v.who == id && v.epoch == epoch && v.sample == world.clock
    {
      RunKeepsInv(EMPTY, trace, ttl);
      LeaseSafety.TrueMeansHeld(world, id, ttl);
      assert Verdict(id, epoch, world.clock, seen.cell.value.expires) in Apply(world, CheckNow(id), ttl).verdicts;
    }
  }
}
