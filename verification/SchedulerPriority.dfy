/** Who is decided first: services with more vCPUs, and among equals the smaller name. What is
    left for the others never changes what they got. */
module SchedulerPriority {
  import opened Types
  import opened Ordering
  import opened StorageFit
  import opened Scheduler
  import opened SchedulerProperties

  predicate Outranks(a: ServiceConfig, b: ServiceConfig) {
    a.vcpus > b.vcpus || (a.vcpus == b.vcpus && Less(a.name, b.name))
  }

  function Only(keep: ServiceConfig -> bool, services: seq<ServiceConfig>): seq<ServiceConfig> {
    if services == [] then []
    else (if keep(services[0]) then [services[0]] else []) + Only(keep, services[1..])
  }

  function Others(keep: ServiceConfig -> bool, services: seq<ServiceConfig>): seq<ServiceConfig> {
    Only((s: ServiceConfig) => !keep(s), services)
  }

  lemma {:induction false} OnlyMembers(keep: ServiceConfig -> bool, services: seq<ServiceConfig>)
    ensures forall s :: s in Only(keep, services) <==> s in services && keep(s)
    ensures DistinctNames(services) ==> DistinctNames(Only(keep, services))
  {
    if services != [] {
      OnlyMembers(keep, services[1..]);
      assert services == [services[0]] + services[1..];
      if DistinctNames(services) {
        forall s | s in services[1..] ensures s.name != services[0].name {
          var j :| 0 <= j < |services[1..]| && services[1..][j] == s;
          assert services[j + 1] == s;
        }
        assert DistinctNames(services[1..]) by {
          assert forall i :: 0 <= i < |services[1..]| ==> services[1..][i] == services[i + 1];
        }
      }
    }
  }

  lemma {:induction false} OnlySplits(keep: ServiceConfig -> bool, services: seq<ServiceConfig>)
    ensures multiset(Only(keep, services)) + multiset(Others(keep, services)) == multiset(services)
  {
    if services != [] {
      OnlySplits(keep, services[1..]);
      assert services == [services[0]] + services[1..];
    }
  }

  ghost predicate Named(services: seq<ServiceConfig>, name: string) {
    exists s :: s in services && s.name == name
  }

  /** `all` repeats what `few` decided and adds to it for `others` only: each node's list goes on
      from where it was, and everyone pending stays pending for the same reason. */
  ghost predicate GoesOn(few: Outcome, all: Outcome, others: seq<ServiceConfig>) {
    && all.placed.Keys == few.placed.Keys
    && (forall id :: id in few.placed ==> few.placed[id] <= all.placed[id])
    && (forall id, i :: id in few.placed && |few.placed[id]| <= i < |all.placed[id]| ==>
          Named(others, all.placed[id][i].name))
    && (forall x :: x in few.pending ==> x in all.pending)
    && (forall x :: x in all.pending ==> x in few.pending || Named(others, x.service))
  }

  ghost predicate LedgerGoesOn(l: Ledger, l': Ledger, others: seq<ServiceConfig>) {
    GoesOn(Outcome(l.placed, l.pending), Outcome(l'.placed, l'.pending), others)
  }

  lemma PlacingGoesOn(few: Placement, placed: Placement, at: string, c: ServiceConfig, pending: seq<Pending>,
                      pending': seq<Pending>, others: seq<ServiceConfig>, s: ServiceConfig)
    requires GoesOn(Outcome(few, pending), Outcome(placed, pending'), others) && at in placed
    requires s in others && s.name == c.name
    ensures GoesOn(Outcome(few, pending), Outcome(placed[at := placed[at] + [c]], pending'), others)
  {
    var placed': Placement := placed[at := placed[at] + [c]];
    forall id: string, i: int | id in few && |few[id]| <= i < |placed'[id]|
      ensures Named(others, placed'[id][i].name)
    {
      if i < |placed[id]| {
        assert placed'[id][i] == placed[id][i];
      }
    }
  }

  lemma EnterGoesOn(p: Problem, l: Ledger, l': Ledger, s: ServiceConfig, d: Decision, others: seq<ServiceConfig>)
    requires Sane(p, l') && Sound(p, l', s, d) && LedgerGoesOn(l, l', others) && s in others
    ensures LedgerGoesOn(l, Enter(l', s, d), others)
  {
    if d.Go? {
      assert OnNode(p, l', d.node);
      PlacingGoesOn(l.placed, l'.placed, d.node.instanceId, d.fit.candidate, l.pending, l'.pending, others, s);
    }
  }

  lemma RunGoesOn(p: Problem, l: Ledger, others: seq<ServiceConfig>)
    requires Sane(p, l)
    ensures LedgerGoesOn(l, p.Run(l, others), others)
  {
    var inv := (l': Ledger, rest: seq<ServiceConfig>) =>
      Sane(p, l') && LedgerGoesOn(l, l', others) && forall s :: s in rest ==> s in others;
    forall l', rest: seq<ServiceConfig> | rest != [] && inv(l', rest) ensures inv(p.Step()(l', rest[0]), rest[1..]) {
      DecideIsSound(p, l', rest[0]);
      EnterKeepsSane(p, l', rest[0], p.Decide(l', rest[0]));
      EnterGoesOn(p, l, l', rest[0], p.Decide(l', rest[0]), others);
    }
    FoldKeeps(p.Step(), inv, l, others);
  }

  ghost predicate AllOutrank(few: seq<ServiceConfig>, rest: seq<ServiceConfig>) {
    forall a, b :: a in few && b in rest ==> Outranks(a, b)
  }

  /** A group that outranks the rest comes first in the order. */
  lemma GroupComesFirst(services: seq<ServiceConfig>, few: seq<ServiceConfig>, rest: seq<ServiceConfig>)
    requires DistinctNames(services) && DistinctNames(few) && DistinctNames(rest)
    requires multiset(services) == multiset(few) + multiset(rest) && AllOutrank(few, rest)
    ensures InOrder(services) == InOrder(few) + InOrder(rest)
  {
    InOrderSorts(services);
    InOrderSorts(few);
    InOrderSorts(rest);
    SortedJoin(InOrder(few), InOrder(rest));
    assert AsymmetricOn(ServiceBefore, InOrder(services)) by {
      ServiceOrderIsStrict(services);
    }
    SortedIsUnique(ServiceBefore, InOrder(services), InOrder(few) + InOrder(rest));
  }

  lemma InOrderSorts(services: seq<ServiceConfig>)
    requires DistinctNames(services)
    ensures Sorted(ServiceBefore, InOrder(services)) && multiset(InOrder(services)) == multiset(services)
    ensures forall s :: s in InOrder(services) <==> s in services
  {
    ServiceOrderIsStrict(services);
    SortSorts(ServiceBefore, services);
    SameMembers(services);
  }

  lemma SortedJoin(xs: seq<ServiceConfig>, ys: seq<ServiceConfig>)
    requires Sorted(ServiceBefore, xs) && Sorted(ServiceBefore, ys) && AllOutrank(xs, ys)
    ensures Sorted(ServiceBefore, xs + ys)
  {
    forall i, j | 0 <= i < j < |xs + ys| ensures ServiceBefore((xs + ys)[i], (xs + ys)[j]) {
      if i < |xs| <= j {
        assert Outranks(xs[i], ys[j - |xs|]);
      }
    }
  }

  lemma SameOthers(few: Outcome, all: Outcome, others: seq<ServiceConfig>, others': seq<ServiceConfig>)
    requires GoesOn(few, all, others) && forall s :: s in others <==> s in others'
    ensures GoesOn(few, all, others')
  {
    forall name | Named(others, name) ensures Named(others', name) {
      var s :| s in others && s.name == name;
      assert s in others';
    }
  }

  lemma FinalSplits(p: Problem, services: seq<ServiceConfig>, few: seq<ServiceConfig>, rest: seq<ServiceConfig>)
    requires InOrder(services) == InOrder(few) + InOrder(rest)
    ensures Final(p, services) == p.Run(Final(p, few), InOrder(rest))
  {
    var start := Start(p.nodes);
    FoldAppend(p.Step(), start, InOrder(few), InOrder(rest));
    assert Final(p, services) == Fold(p.Step(), start, InOrder(few) + InOrder(rest));
    assert Final(p, few) == Fold(p.Step(), start, InOrder(few));
  }

  lemma SplitPass(p: Problem, services: seq<ServiceConfig>, few: seq<ServiceConfig>, rest: seq<ServiceConfig>)
    requires InOrder(services) == InOrder(few) + InOrder(rest) && forall s :: s in InOrder(rest) <==> s in rest
    ensures LedgerGoesOn(Final(p, few), Final(p, services), rest)
  {
    FinalSplits(p, services, few, rest);
    StartIsSane(p);
    RunKeepsSane(p, Start(p.nodes), InOrder(few));
    var l, l' := Final(p, few), Final(p, services);
    RunGoesOn(p, l, InOrder(rest));
    SameOthers(Outcome(l.placed, l.pending), Outcome(l'.placed, l'.pending), InOrder(rest), rest);
  }

  lemma LedgersToOutcomes(p: Problem, services: seq<ServiceConfig>, few: seq<ServiceConfig>, rest: seq<ServiceConfig>)
    requires LedgerGoesOn(Final(p, few), Final(p, services), rest)
    ensures GoesOn(Schedule(p, few), Schedule(p, services), rest)
  {
    var l, l' := Final(p, few), Final(p, services);
    SortedPending(l.pending);
    SortedPending(l'.pending);
    var few', all' := Schedule(p, few), Schedule(p, services);
    assert few'.placed == l.placed && all'.placed == l'.placed;
    assert forall x :: x in few'.pending ==> x in l.pending;
    assert forall x :: x in all'.pending ==> x in l'.pending;
    assert forall x :: x in l'.pending ==> x in all'.pending;
    assert forall x :: x in l.pending ==> x in few'.pending;
  }

  /** Priority: services that outrank all others get, next to them, exactly what they get when
      they are alone: the same nodes, and the same reasons when they wait. */
  lemma HigherRankedDecideFirst(p: Problem, services: seq<ServiceConfig>, keep: ServiceConfig -> bool)
    requires DistinctNames(services)
    requires forall a, b :: a in services && b in services && keep(a) && !keep(b) ==> Outranks(a, b)
    ensures GoesOn(Schedule(p, Only(keep, services)), Schedule(p, services), Others(keep, services))
  {
    var few, rest := Only(keep, services), Others(keep, services);
    OnlyMembers(keep, services);
    OnlyMembers((s: ServiceConfig) => !keep(s), services);
    OnlySplits(keep, services);
    GroupComesFirst(services, few, rest);
    InOrderSorts(rest);
    SplitPass(p, services, few, rest);
    LedgersToOutcomes(p, services, few, rest);
  }

  lemma SortedPending(pending: seq<Pending>)
    ensures forall x :: x in SortBy(PendingBefore, pending) <==> x in pending
  {
    SortPermutes(PendingBefore, pending);
    SameElements(SortBy(PendingBefore, pending), pending);
  }

  /** So bigger services go first: those with more than `k` vCPUs are decided as if the smaller
      ones were not there. */
  lemma BiggerDecideFirst(p: Problem, services: seq<ServiceConfig>, k: int)
    requires DistinctNames(services)
    ensures var bigger := (s: ServiceConfig) => s.vcpus > k;
            GoesOn(Schedule(p, Only(bigger, services)), Schedule(p, services), Others(bigger, services))
  {
    HigherRankedDecideFirst(p, services, (s: ServiceConfig) => s.vcpus > k);
  }

  /** And of equally big ones, those up to a name before those after it. */
  lemma SmallerNamesDecideFirst(p: Problem, services: seq<ServiceConfig>, k: int, name: string)
    requires DistinctNames(services)
    ensures var first := (s: ServiceConfig) => s.vcpus > k || (s.vcpus == k && !Less(name, s.name));
            GoesOn(Schedule(p, Only(first, services)), Schedule(p, services), Others(first, services))
  {
    var first := (s: ServiceConfig) => s.vcpus > k || (s.vcpus == k && !Less(name, s.name));
    forall a, b | a in services && b in services && first(a) && !first(b) ensures Outranks(a, b) {
      if a.vcpus == b.vcpus {
        LessIsTotal(a.name, name);
        if a.name != name {
          LessIsTransitive(a.name, name, b.name);
        }
      }
    }
    HigherRankedDecideFirst(p, services, first);
  }

  // ------------------------------------------------------------------ the pending list

  /** The pending list is in the order of the names, each once. */
  lemma PendingByName(p: Problem, services: seq<ServiceConfig>)
    requires DistinctNames(services)
    ensures var pending := Schedule(p, services).pending;
            forall i, j :: 0 <= i < j < |pending| ==> Less(pending[i].service, pending[j].service)
  {
    var raw := Final(p, services).pending;
    PendingOnce(p, services);
    KeysOrderStrictly(PendingBefore, (x: Pending) => x.service, raw);
    SortSorts(PendingBefore, raw);
  }

  ghost predicate NoneTwice(pending: seq<Pending>) {
    forall i, j :: 0 <= i < j < |pending| ==> pending[i].service != pending[j].service
  }

  ghost predicate NotYet(pending: seq<Pending>, rest: seq<ServiceConfig>) {
    forall x, s :: x in pending && s in rest ==> x.service != s.name
  }

  lemma PendingOnce(p: Problem, services: seq<ServiceConfig>)
    requires DistinctNames(services)
    ensures NoneTwice(Final(p, services).pending)
  {
    var inv := (l: Ledger, rest: seq<ServiceConfig>) => OnceSoFar(l.pending, rest);
    forall l, rest: seq<ServiceConfig> | rest != [] && inv(l, rest) ensures inv(p.Step()(l, rest[0]), rest[1..]) {
      OnceMore(l, rest, p.Decide(l, rest[0]));
    }
    SortedNamesDiffer(services);
    FoldKeeps(p.Step(), inv, Start(p.nodes), InOrder(services));
  }

  ghost predicate OnceSoFar(pending: seq<Pending>, rest: seq<ServiceConfig>) {
    DistinctNames(rest) && NoneTwice(pending) && NotYet(pending, rest)
  }

  lemma OnceMore(l: Ledger, rest: seq<ServiceConfig>, d: Decision)
    requires rest != [] && OnceSoFar(l.pending, rest)
    ensures OnceSoFar(Enter(l, rest[0], d).pending, rest[1..])
  {
    RestDistinct(rest);
    if d.Wait? {
      PendingStaysApart(l.pending, Pending(rest[0].name, d.reason), rest);
    } else {
      assert forall s :: s in rest[1..] ==> s in rest;
    }
  }

  lemma RestDistinct(rest: seq<ServiceConfig>)
    requires rest != [] && DistinctNames(rest)
    ensures DistinctNames(rest[1..]) && forall s :: s in rest[1..] ==> s.name != rest[0].name
  {
    forall s | s in rest[1..] ensures s.name != rest[0].name {
      var j :| 0 <= j < |rest[1..]| && rest[1..][j] == s;
      assert rest[j + 1] == s;
    }
    assert forall i :: 0 <= i < |rest[1..]| ==> rest[1..][i] == rest[i + 1];
  }

  lemma PendingStaysApart(pending: seq<Pending>, x: Pending, rest: seq<ServiceConfig>)
    requires rest != [] && NoneTwice(pending) && NotYet(pending, rest) && x.service == rest[0].name
    requires forall s :: s in rest[1..] ==> s.name != rest[0].name
    ensures NoneTwice(pending + [x]) && NotYet(pending + [x], rest[1..])
  {
    assert rest[0] in rest && forall s :: s in rest[1..] ==> s in rest;
    assert forall i :: 0 <= i < |pending| ==> pending[i] in pending;
  }
}
