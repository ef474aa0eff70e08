/** What the lease guarantees over every run, and what it does not. */
module LeaseSafety {
  import opened Types
  import opened CasStore
  import opened Lease

  /** Order along the log: an epoch has one holder, expiries never move back, and a lock of a
      later epoch was claimed after every earlier one had expired. */
  lemma {:induction false} AlongTheChain(log: seq<Lock>, ttl: nat -> int, i: nat, j: nat)
    requires Chain(log, ttl) && Positive(ttl) && i <= j < |log|
    ensures log[i].epoch <= log[j].epoch && log[i].expires <= log[j].expires && log[i].renewed <= log[j].renewed
    ensures log[i].epoch == log[j].epoch ==> log[i].holder == log[j].holder
    ensures log[i].epoch < log[j].epoch ==> log[i].expires < log[j].renewed
    decreases j
  {
    if i < j {
      AlongTheChain(log, ttl, i, j - 1);
      assert Follows(log[j - 1], log[j]) && ttl(log[j].holder) > 0;
    }
  }

  /** Every epoch has exactly one holder, ever. */
  lemma OneHolderPerEpoch(events: seq<Event>, ttl: nat -> int, i: nat, j: nat)
    requires Positive(ttl)
    ensures var w := Run(EMPTY, events, ttl);
            i < |w.log| && j < |w.log| && w.log[i].epoch == w.log[j].epoch ==> w.log[i].holder == w.log[j].holder
  {
    var w := Run(EMPTY, events, ttl);
    RunKeepsInv(EMPTY, events, ttl);
    if i < |w.log| && j < |w.log| {
      AlongTheChain(w.log, ttl, if i <= j then i else j, if i <= j then j else i);
    }
  }

  /** Two controllers that believe they lead, rightly or not, never share an epoch. */
  lemma BelieversDiffer(events: seq<Event>, ttl: nat -> int, p: nat, q: nat)
    requires Positive(ttl) && p != q
    ensures var w := Run(EMPTY, events, ttl);
            w.At(p).leader && w.At(q).leader ==> w.At(p).epoch != w.At(q).epoch
  {
    var w := Run(EMPTY, events, ttl);
    RunKeepsInv(EMPTY, events, ttl);
    assert CtlOk(w, p) && CtlOk(w, q);
    if w.At(p).leader && w.At(q).leader && w.At(p).epoch == w.At(q).epoch {
      var a :| 0 <= a < |w.log| && w.log[a].holder == p && w.log[a].epoch == w.At(p).epoch;
      var b :| 0 <= b < |w.log| && w.log[b].holder == q && w.log[b].epoch == w.At(q).epoch;
      OneHolderPerEpoch(events, ttl, a, b);
    }
  }

  /** The lock changes hands only after it has expired, on the shared clock. */
  lemma TakeoverAfterExpiry(w: World, e: Event, ttl: nat -> int)
    requires Inv(w, ttl) && w.log != []
    ensures var w' := Apply(w, e, ttl);
            var before, after := w.log[|w.log| - 1], w'.log[|w'.log| - 1];
            after.holder != before.holder ==>
              after.epoch == before.epoch + 1 && before.expires < after.renewed <= w.clock
  {
    var w' := Apply(w, e, ttl);
    ApplyKeepsInv(w, e, ttl);
    LogStep(w, e, ttl);
    if Landing(w, e) {
      assert Follows(w'.log[|w.log| - 1], w'.log[|w.log|]);
      assert RequestOk(w, e.request, ttl) && CtlOk(w, e.request.lock.holder);
    }
  }

  /** A stillLeader that returns true: at its clock sample the store still holds the lock for
      this controller and epoch, unexpired, although the lock was read earlier. */
  lemma TrueMeansHeld(w: World, p: nat, ttl: nat -> int)
    requires Inv(w, ttl) && Positive(ttl)
    requires w.At(p).pc.Checking? && Holds(p, w.At(p), w.At(p).pc.seen, w.clock)
    ensures var now := w.store.Get(LOCK);
            && now.Seen? && now.cell.value.holder == p && now.cell.value.epoch == w.At(p).epoch
            && now.cell.value.expires > w.clock
  {
    assert CtlOk(w, p);
    GetIsLast(w, ttl);
    var t, last := w.At(p).pc.seen.cell.token, |w.log| - 1;
    AlongTheChain(w.log, ttl, t, last);
    assert w.log[last].renewed <= w.At(w.log[last].holder).now && CtlOk(w, w.log[last].holder);
  }

  /** The windows from sample to expiry of true answers to different controllers never meet. */
  lemma WindowsAreDisjoint(events: seq<Event>, ttl: nat -> int, a: Verdict, b: Verdict)
    requires Positive(ttl)
    requires a in Run(EMPTY, events, ttl).verdicts && b in Run(EMPTY, events, ttl).verdicts && a.who != b.who
    ensures a.sample < a.expires && b.sample < b.expires && (a.expires < b.sample || b.expires < a.sample)
  {
    var w := Run(EMPTY, events, ttl);
    RunKeepsInv(EMPTY, events, ttl);
    assert VerdictOk(w, a) && VerdictOk(w, b);
    var i :| 0 <= i < |w.log| && w.log[i].holder == a.who && w.log[i].epoch == a.epoch && w.log[i].expires == a.expires
      && w.log[i].renewed <= a.sample;
    var j :| 0 <= j < |w.log| && w.log[j].holder == b.who && w.log[j].epoch == b.epoch && w.log[j].expires == b.expires
      && w.log[j].renewed <= b.sample;
    AlongTheChain(w.log, ttl, if i <= j then i else j, if i <= j then j else i);
  }

  /** The four steps of a renewal that nothing disturbs. */
  function Renewed(w: World, p: nat, r: Request, ttl: nat -> int): World {
    Apply(Apply(Apply(Apply(w, Sample(p), ttl), Read(p), ttl), Land(r, true), ttl), Reply(p), ttl)
  }

  /** An undisturbed renewal on a free, expired or own lock makes the controller leader. */
  lemma UndisturbedRenewalLeads(w: World, p: nat, r: Request, ttl: nat -> int)
    requires w.At(p).pc.Idle? && r.seen == w.store.Get(LOCK) && Claim(p, w.clock, ttl(p), r.seen) == Some(r.lock)
    ensures var w' := Renewed(w, p, r, ttl);
            && w'.At(p) == Ctl(true, r.lock.epoch, w.clock, Idle)
            && w'.store == w.store.Put(LOCK, r.lock) && w'.clock == w.clock
            && forall q :: q != p ==> w'.At(q) == w.At(q)
  {
    var w1 := Apply(w, Sample(p), ttl);
    assert w1.At(p).now == w.clock && w1.store == w.store;
    var w2 := Apply(w1, Read(p), ttl);
    assert w2.At(p).pc == Waiting(r) && r in w2.flight && w2.store == w.store;
    var w3 := Apply(w2, Land(r, true), ttl);
    assert w3.At(p).pc == Answered(r, true);
  }

  lemma RunFour(w: World, a: Event, b: Event, c: Event, d: Event, ttl: nat -> int)
    ensures Run(w, [a, b, c, d], ttl) == Apply(Apply(Apply(Apply(w, a, ttl), b, ttl), c, ttl), d, ttl)
  {
    var w1 := Apply(w, a, ttl);
    var w2 := Apply(w1, b, ttl);
    var w3 := Apply(w2, c, ttl);
    assert [a, b, c, d][1..] == [b, c, d] && [b, c, d][1..] == [c, d] && [c, d][1..] == [d] && [d][1..] == [];
    assert Run(w3, [d], ttl) == Apply(w3, d, ttl);
    assert Run(w2, [c, d], ttl) == Run(w3, [d], ttl);
    assert Run(w1, [b, c, d], ttl) == Run(w2, [c, d], ttl);
  }

  lemma {:induction false} RunJoin(w: World, a: seq<Event>, b: seq<Event>, ttl: nat -> int)
    ensures Run(w, a + b, ttl) == Run(Run(w, a, ttl), b, ttl)
    decreases |a|
  {
    if a == [] {
      assert a + b == b;
    } else {
      assert (a + b)[0] == a[0] && (a + b)[1..] == a[1..] + b;
      RunJoin(Apply(w, a[0], ttl), a[1..], b, ttl);
    }
  }

  lemma RenewalRuns(w: World, p: nat, r: Request, ttl: nat -> int) returns (events: seq<Event>)
    requires w.At(p).pc.Idle? && r.seen == w.store.Get(LOCK) && Claim(p, w.clock, ttl(p), r.seen) == Some(r.lock)
    ensures var w' := Run(w, events, ttl);
            && Timeless(events)
            && w'.At(p) == Ctl(true, r.lock.epoch, w.clock, Idle)
            && w'.store == w.store.Put(LOCK, r.lock) && w'.clock == w.clock
            && forall q :: q != p ==> w'.At(q) == w.At(q)
  {
    events := [Sample(p), Read(p), Land(r, true), Reply(p)];
    UndisturbedRenewalLeads(w, p, r, ttl);
    RunFour(w, Sample(p), Read(p), Land(r, true), Reply(p), ttl);
  }

  lemma ClockRuns(w: World, d: nat, ttl: nat -> int)
    ensures Run(w, [Tick(d)], ttl) == w.(clock := w.clock + d)
  {
    assert [Tick(d)][1..] == [];
  }

  // ------------------------------------------------- when a believer really leads

  /** The last lock stored names `p` and `epoch`. */
  ghost predicate Last(w: World, p: nat, epoch: nat) {
    w.log != [] && w.log[|w.log| - 1].holder == p && w.log[|w.log| - 1].epoch == epoch
  }

  /** A lock that has not expired is still its holder's, in the same epoch. */
  lemma UnexpiredIsLast(w: World, ttl: nat -> int, i: nat)
    requires Inv(w, ttl) && Positive(ttl) && i < |w.log| && w.clock <= w.log[i].expires
    ensures Last(w, w.log[i].holder, w.log[i].epoch)
  {
    var last := |w.log| - 1;
    AlongTheChain(w.log, ttl, i, last);
    assert w.log[last].renewed <= w.At(w.log[last].holder).now && CtlOk(w, w.log[last].holder);
  }

  lemma BelievedEpochWasStored(w: World, ttl: nat -> int, p: nat) returns (i: nat)
    requires Inv(w, ttl) && w.At(p).leader
    ensures i < |w.log| && w.log[i].holder == p && w.log[i].epoch == w.At(p).epoch
  {
    assert CtlOk(w, p);
    i :| 0 <= i < |w.log| && w.log[i].holder == p && w.log[i].epoch == w.At(p).epoch;
  }

  /** A believer really leads while any renewal of its own, plus its time to live, has not
      passed: the last lock is its, and whoever else believes believes in an older epoch. */
  lemma BelieverLeadsWhileUnexpired(events: seq<Event>, ttl: nat -> int, p: nat, i: nat)
    requires Positive(ttl)
    requires var w := Run(EMPTY, events, ttl);
             w.At(p).leader && i < |w.log| && w.log[i].holder == p && w.log[i].epoch == w.At(p).epoch
             && w.clock <= w.log[i].renewed + ttl(p)
    ensures var w := Run(EMPTY, events, ttl);
            Last(w, p, w.At(p).epoch) && forall q :: q != p && w.At(q).leader ==> w.At(q).epoch < w.At(p).epoch
  {
    var w := Run(EMPTY, events, ttl);
    RunKeepsInv(EMPTY, events, ttl);
    UnexpiredIsLast(w, ttl, i);
    forall q | q != p && w.At(q).leader ensures w.At(q).epoch < w.At(p).epoch {
      var j := BelievedEpochWasStored(w, ttl, q);
      AlongTheChain(w.log, ttl, j, |w.log| - 1);
      BelieversDiffer(events, ttl, p, q);
    }
  }

  ghost predicate Timeless(events: seq<Event>) {
    forall e :: e in events ==> !e.Tick?
  }

  lemma {:induction false} TimelessRun(w: World, events: seq<Event>, ttl: nat -> int)
    requires Timeless(events)
    ensures Run(w, events, ttl).clock == w.clock
    decreases |events|
  {
    if events != [] {
      assert events[0] in events;
      TimelessRun(Apply(w, events[0], ttl), events[1..], ttl);
    }
  }

  /** Past the expiry another process can take over at once, and the holder does not notice:
      whatever it believed, it goes on believing. */
  lemma ExpiredCanBeTaken(w: World, ttl: nat -> int, q: nat) returns (events: seq<Event>)
    requires Inv(w, ttl) && w.log != [] && w.log[|w.log| - 1].expires < w.clock && w.log[|w.log| - 1].holder != q
    ensures var w', last := Run(w, events, ttl), w.log[|w.log| - 1];
            && Timeless(events) && Last(w', q, last.epoch + 1)
            && w'.At(q).leader && w'.At(q).epoch == last.epoch + 1
            && forall p :: p != q ==> w'.At(p) == w.At(p)
  {
    var last := w.log[|w.log| - 1];
    var w1 := Apply(w, Fail(q), ttl);
    ApplyKeepsInv(w, Fail(q), ttl);
    GetIsLast(w, ttl);
    var r := Request(w.store.Get(LOCK), Lock(q, last.epoch + 1, w.clock + ttl(q), w.clock));
    var renewal := RenewalRuns(w1, q, r, ttl);
    events := [Fail(q)] + renewal;
    assert events[1..] == renewal;
    RunKeepsInv(w1, renewal, ttl);
    var w' := Run(w1, renewal, ttl);
    assert w'.store.cells[LOCK].value == r.lock;
  }

  /** So the last holder leads exactly while its lock has not expired: just then no steps of
      any processes, short of the clock moving on, can put another lock in its place. */
  lemma SecureExactlyWhileUnexpired(events: seq<Event>, ttl: nat -> int, p: nat, q: nat)
    requires Positive(ttl) && p != q
    requires Run(EMPTY, events, ttl).log != [] && Last(Run(EMPTY, events, ttl), p, Run(EMPTY, events, ttl).At(p).epoch)
    ensures var w := Run(EMPTY, events, ttl);
            (forall more :: Timeless(more) ==> Last(Run(w, more, ttl), p, w.At(p).epoch))
            <==> w.clock <= w.log[|w.log| - 1].expires
  {
    var w := Run(EMPTY, events, ttl);
    RunKeepsInv(EMPTY, events, ttl);
    var last := |w.log| - 1;
    if w.clock <= w.log[last].expires {
      forall more | Timeless(more) ensures Last(Run(w, more, ttl), p, w.At(p).epoch) {
        TimelessRun(w, more, ttl);
        RunKeepsInv(w, more, ttl);
        assert Run(w, more, ttl).log[last] == w.log[last];
        UnexpiredIsLast(Run(w, more, ttl), ttl, last);
      }
    } else {
      var more := ExpiredCanBeTaken(w, ttl, q);
      assert !Last(Run(w, more, ttl), p, w.At(p).epoch);
    }
  }

  /** Belief alone is no lease: while a leader's renewals fail it goes on believing, and
      another may have taken over meanwhile, so both believe at once (in different epochs). */
  lemma BeliefCanBeStale(ttl: nat -> int)
    requires ttl(1) == 30 && ttl(2) == 30
    ensures exists events :: Run(EMPTY, events, ttl).At(1).leader && Run(EMPTY, events, ttl).At(2).leader
  {
    var first := RenewalRuns(EMPTY, 1, Request(Missing, Lock(1, 1, 30, 0)), ttl);
    var w1 := Run(EMPTY, first, ttl);
    ClockRuns(w1, 31, ttl);
    var w2 := w1.(clock := 31);
    assert w1.At(2) == EMPTY.At(2) && w2.At(2) == w1.At(2);
    var second := RenewalRuns(w2, 2, Request(Seen(Cell(0, Lock(1, 1, 30, 0))), Lock(2, 2, 61, 31)), ttl);
    RunJoin(EMPTY, first, [Tick(31)], ttl);
    RunJoin(EMPTY, first + [Tick(31)], second, ttl);
    assert Run(w2, second, ttl).At(1) == w2.At(1) == w1.At(1);
  }
}
