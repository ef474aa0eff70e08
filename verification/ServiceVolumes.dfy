/** The volume manager's calls for a whole service: every volume is looked at and the pool's
    capacity checked before any volume is written, then each is prepared in turn. */
module ServiceVolumes {
  import opened Types
  import opened Sums
  import opened VolumeMachine
  import opened VolumeSafety
  import opened VolumeManager
  import opened NodePool

  /** How the writes and commands of a call on one volume go, in turn. */
  type Course = seq<Outcome>

  ghost predicate Separate(dirs: seq<VolumeDir>) {
    forall i, j :: 0 <= i < j < |dirs| ==> dirs[i] != dirs[j]
  }

  /** The directories are what these machines say. */
  ghost predicate Mirror(dirs: seq<VolumeDir>, runs: seq<Sys>)
    reads dirs
  {
    |dirs| == |runs| && forall i :: 0 <= i < |dirs| ==> dirs[i].run == runs[i] && dirs[i].Mirrors()
  }

  /** No call is in progress. */
  ghost predicate Resting(s: Sys) {
    Inv(s) && s.pc.AtRest()
  }

  /** Each course is long enough for a whole call. */
  ghost predicate Whole(courses: seq<Course>) {
    forall i :: 0 <= i < |courses| ==> |courses[i]| >= 13
  }

  ghost predicate AllResting(runs: seq<Sys>) {
    forall i :: 0 <= i < |runs| ==> Resting(runs[i])
  }

  /** The call has been admitted for this volume and has not written it yet. */
  ghost predicate Waiting(before: Sys, w: Want, course: Course, s: Sys) {
    |course| >= 13 && Inv(s) && Ready(before, w, course[0], s)
  }

  ghost predicate WaitingFrom(before: seq<Sys>, wants: seq<Want>, courses: seq<Course>, runs: seq<Sys>, k: nat) {
    |before| == |wants| == |courses| == |runs| && forall i :: k <= i < |runs| ==>
      Waiting(before[i], wants[i], courses[i], runs[i])
  }

  ghost predicate WaitingUpTo(before: seq<Sys>, wants: seq<Want>, courses: seq<Course>, runs: seq<Sys>, k: nat) {
    |before| == |wants| == |courses| == |runs| && forall i :: 0 <= i < k && i < |runs| ==>
      Waiting(before[i], wants[i], courses[i], runs[i])
  }

  /** The volume is exactly as asked. */
  ghost predicate GotIt(before: Sys, w: Want, course: Course, s: Sys) {
    Resting(s) && Ended(before, w, course, Prepared(w.size, w.generation), s)
  }

  /** The call failed on this volume, which may be in the middle of its change. */
  ghost predicate Broke(before: Sys, w: Want, course: Course, s: Sys) {
    Resting(s) && Ended(before, w, course, Failed, s)
  }

  /** The volume is as it was. */
  ghost predicate Untouched(before: Sys, s: Sys) {
    Resting(s) && s.dir == before.dir
  }

  ghost predicate UntouchedFrom(before: seq<Sys>, runs: seq<Sys>, k: nat) {
    |before| == |runs| && forall i :: k <= i < |runs| ==> Untouched(before[i], runs[i])
  }

  ghost predicate GotFirst(before: seq<Sys>, wants: seq<Want>, courses: seq<Course>, runs: seq<Sys>, k: nat) {
    |before| == |wants| == |courses| == |runs| && forall i :: 0 <= i < k && i < |runs| ==>
      GotIt(before[i], wants[i], courses[i], runs[i])
  }

  /** How far a call has come: the first `done` volumes are exactly as asked, the one after may
      be in the middle of its own change, and the rest are as they were. */
  ghost predicate CarriedTo(before: seq<Sys>, wants: seq<Want>, courses: seq<Course>, runs: seq<Sys>, done: nat) {
    && GotFirst(before, wants, courses, runs, done) && done <= |runs|
    && (done < |runs| ==>
        Broke(before[done], wants[done], courses[done], runs[done]) && UntouchedFrom(before, runs, done + 1))
  }

  // ---------------------------------------------------------------- the pool around them

  /** The applied size of every volume that has a manifest. */
  ghost function Applied(runs: seq<Sys>): (sizes: seq<Option<int>>)
    ensures |sizes| == |runs|
  {
    seq(|runs|, i requires 0 <= i < |runs| => AppliedIn(runs[i].dir.manifest))
  }

  function AppliedIn(m: Option<Manifest>): Option<int> {
    match m case None => None case Some(x) => Some(x.applied)
  }

  function Asked(wants: seq<Want>): (sizes: seq<Option<int>>)
    ensures |sizes| == |wants|
  {
    seq(|wants|, i requires 0 <= i < |wants| => Some(wants[i].size))
  }

  /** `others` with these volumes added, as far as they have a size. */
  function With(others: Retained, ids: seq<VolumeId>, sizes: seq<Option<int>>): Retained
    requires |ids| == |sizes|
  {
    if ids == [] then others
    else
      var n := |ids| - 1;
      var front := With(others, ids[..n], sizes[..n]);
      match sizes[n] case None => front case Some(x) => front[ids[n] := x]
  }

  ghost predicate Distinct(ids: seq<VolumeId>) {
    forall i, j :: 0 <= i < j < |ids| ==> ids[i] != ids[j]
  }

  ghost predicate Apart(others: Retained, ids: seq<VolumeId>) {
    Distinct(ids) && forall i :: 0 <= i < |ids| ==> ids[i] !in others
  }

  ghost predicate Holds(m: Retained, id: VolumeId, size: Option<int>) {
    if size.Some? then id in m && m[id] == size.value else id !in m
  }

  /** `m` is `others` and these volumes. */
  ghost predicate IsWith(m: Retained, others: Retained, ids: seq<VolumeId>, sizes: seq<Option<int>>)
    requires |ids| == |sizes|
  {
    && (forall id :: id in others ==> id in m && m[id] == others[id])
    && (forall i :: 0 <= i < |ids| ==> Holds(m, ids[i], sizes[i]))
    && (forall id :: id in m ==> id in others || id in ids)
  }

  lemma WithOneMore(front: Retained, others: Retained, ids: seq<VolumeId>, sizes: seq<Option<int>>, id: VolumeId,
                    size: Option<int>)
    requires |ids| == |sizes| && IsWith(front, others, ids, sizes) && id !in others && id !in ids
    ensures IsWith(match size case None => front case Some(x) => front[id := x], others, ids + [id], sizes + [size])
  {
    var m := match size case None => front case Some(x) => front[id := x];
    forall i | 0 <= i <= |ids| ensures Holds(m, (ids + [id])[i], (sizes + [size])[i]) {
      if i < |ids| {
        assert Holds(front, ids[i], sizes[i]);
      }
    }
  }

  lemma {:induction false} WithMeaning(others: Retained, ids: seq<VolumeId>, sizes: seq<Option<int>>)
    requires |ids| == |sizes| && Apart(others, ids)
    ensures IsWith(With(others, ids, sizes), others, ids, sizes)
  {
    if ids != [] {
      var n := |ids| - 1;
      WithMeaning(others, ids[..n], sizes[..n]);
      assert ids[..n] + [ids[n]] == ids && sizes[..n] + [sizes[n]] == sizes;
      WithOneMore(With(others, ids[..n], sizes[..n]), others, ids[..n], sizes[..n], ids[n], sizes[n]);
    }
  }

  ghost function Desired(ids: seq<VolumeId>, wants: seq<Want>): Retained
    requires |ids| == |wants|
  {
    With(map[], ids, Asked(wants))
  }

  lemma DesiredMeaning(ids: seq<VolumeId>, wants: seq<Want>)
    requires |ids| == |wants| && Distinct(ids)
    ensures Lists(ids, Desired(ids, wants))
    ensures forall i :: 0 <= i < |ids| ==> Desired(ids, wants)[ids[i]] == wants[i].size
  {
    WithMeaning(map[], ids, Asked(wants));
    assert forall i :: 0 <= i < |ids| ==> ids[i] in ids;
  }

  /** The first `k` volumes have the size they asked for, and the others the one they had. */
  ghost predicate SizedUpTo(old': seq<Option<int>>, now: seq<Option<int>>, wants: seq<Want>, k: nat) {
    |old'| == |now| == |wants| && forall i :: 0 <= i < |now| ==>
      now[i] == if i < k then Some(wants[i].size) else old'[i]
  }

  /** What is retained in the pool after a call is what the pool arithmetic says. */
  lemma RetainedIsAfter(others: Retained, ids: seq<VolumeId>, old': seq<Option<int>>, now: seq<Option<int>>,
                        wants: seq<Want>, k: nat)
    requires |ids| == |wants| && Apart(others, ids) && k <= |ids| && SizedUpTo(old', now, wants, k)
    ensures Lists(ids, Desired(ids, wants))
    ensures With(others, ids, now) == After(With(others, ids, old'), ids, Desired(ids, wants), k)
  {
    DesiredMeaning(ids, wants);
    var left, right := With(others, ids, now), After(With(others, ids, old'), ids, Desired(ids, wants), k);
    forall id ensures id in left <==> id in right
              ensures id in left && id in right ==> left[id] == right[id]
    {
      RetainedAt(others, ids, old', now, wants, k, id);
    }
  }

  lemma RetainedAt(others: Retained, ids: seq<VolumeId>, old': seq<Option<int>>, now: seq<Option<int>>,
                   wants: seq<Want>, k: nat, id: VolumeId)
    requires |ids| == |wants| && Apart(others, ids) && k <= |ids| && SizedUpTo(old', now, wants, k)
    requires Lists(ids, Desired(ids, wants))
    ensures var left, right := With(others, ids, now), After(With(others, ids, old'), ids, Desired(ids, wants), k);
            (id in left <==> id in right) && (id in left && id in right ==> left[id] == right[id])
  {
    DesiredMeaning(ids, wants);
    WithMeaning(others, ids, old');
    WithMeaning(others, ids, now);
    AfterMeaning(With(others, ids, old'), ids, Desired(ids, wants), k);
    if i :| 0 <= i < |ids| && ids[i] == id {
      assert id in ids[..k] <==> i < k;
    } else {
      assert id !in ids[..k];
    }
  }

  // ------------------------------------------------------------------------ the calls

  /** readRetained: walks the manifests in the pool. */
  method ReadRetained(others: Retained, ids: seq<VolumeId>, dirs: seq<VolumeDir>, ghost runs: seq<Sys>)
    returns (retained: Retained)
    requires |ids| == |dirs| && Mirror(dirs, runs)
    ensures retained == With(others, ids, Applied(runs))
  {
    retained := others;
    ghost var sizes := Applied(runs);
    for i := 0 to |dirs|
      invariant retained == With(others, ids[..i], sizes[..i])
    {
      assert ids[..i + 1][..i] == ids[..i] && sizes[..i + 1][..i] == sizes[..i];
      assert dirs[i].Mirrors() && sizes[i] == AppliedIn(dirs[i].manifest);
      if dirs[i].manifest.Some? {
        retained := retained[ids[i] := dirs[i].manifest.value.applied];
      }
    }
    assert ids[..|dirs|] == ids && sizes[..|dirs|] == sizes;
  }

  /** desiredLocal, as Preflight collects it. */
  method CollectDesired(ids: seq<VolumeId>, wants: seq<Want>) returns (desired: Retained)
    requires |ids| == |wants|
    ensures desired == Desired(ids, wants)
  {
    desired := map[];
    for i := 0 to |ids|
      invariant desired == With(map[], ids[..i], Asked(wants)[..i])
    {
      assert ids[..i + 1][..i] == ids[..i] && Asked(wants)[..i + 1][..i] == Asked(wants)[..i];
      desired := desired[ids[i] := wants[i].size];
    }
    assert ids[..|ids|] == ids && Asked(wants)[..|ids|] == Asked(wants);
  }

  /** The pool a service's volumes are in: the other volumes, what is configured, what is free,
      and whether its manifests and free space can be read at all. */
  datatype Pool = Pool(others: Retained, capacity: int, available: int, readable: bool)
  {
    ghost predicate Admits(ids: seq<VolumeId>, before: seq<Sys>, wants: seq<Want>)
      requires |ids| == |before| == |wants|
    {
      ids == [] || (readable && Fits(With(others, ids, Applied(before)), Desired(ids, wants), capacity, available))
    }

    ghost predicate Around(ids: seq<VolumeId>) {
      Apart(others, ids) && Sizes(others) && capacity <= MAX_INT64
    }
  }

  /** Every volume is declared well and fits what is retained of it. */
  ghost predicate AllFit(before: seq<Sys>, wants: seq<Want>)
    requires |before| == |wants|
  {
    forall i :: 0 <= i < |wants| ==> Declared(wants[i]) && ExistingOk(before[i].dir, wants[i])
  }

  lemma NoSumIsNegative(others: Retained, ids: seq<VolumeId>, sizes: seq<Option<int>>)
    requires |ids| == |sizes| && Apart(others, ids) && Sizes(others)
    requires forall i :: 0 <= i < |sizes| && sizes[i].Some? ==> 0 <= sizes[i].value
    ensures Sizes(With(others, ids, sizes))
  {
    var m := With(others, ids, sizes);
    WithMeaning(others, ids, sizes);
    forall id | id in m ensures 0 <= m[id] {
      if id !in others {
        var i :| 0 <= i < |ids| && ids[i] == id;
        assert Holds(m, ids[i], sizes[i]);
      }
    }
  }

  lemma NoSizeIsNegative(pool: Pool, ids: seq<VolumeId>, before: seq<Sys>, wants: seq<Want>)
    requires |ids| == |before| == |wants| && pool.Around(ids) && AllFit(before, wants)
    requires AllResting(before)
    ensures Sizes(With(pool.others, ids, Applied(before))) && Sizes(Desired(ids, wants))
  {
    forall i | 0 <= i < |before| && Applied(before)[i].Some? ensures 0 <= Applied(before)[i].value {
      assert Resting(before[i]);
    }
    NoSumIsNegative(pool.others, ids, Applied(before));
    NoSumIsNegative(map[], ids, Asked(wants));
  }

  /** The preflight of this volume finds nothing to object to. */
  ghost predicate LooksGood(before: Sys, w: Want, course: Course) {
    course != [] && Step(Begin(before, w), course[0]).pc.Dispatch?
  }

  ghost predicate AllLookGood(before: seq<Sys>, wants: seq<Want>, courses: seq<Course>) {
    && |before| == |wants| == |courses|
    && forall i :: 0 <= i < |wants| ==> LooksGood(before[i], wants[i], courses[i])
  }

  /** Looks at the volumes in turn, until one is refused. */
  method LookAtAll(dirs: seq<VolumeDir>, wants: seq<Want>, courses: seq<Course>, ghost before: seq<Sys>)
    returns (ok: bool, ghost runs: seq<Sys>)
    requires Separate(dirs) && |dirs| == |wants| == |courses| && Mirror(dirs, before) && AllResting(before)
    requires Whole(courses)
    modifies dirs
    ensures Mirror(dirs, runs) && (ok <==> AllLookGood(before, wants, courses))
    ensures if ok then WaitingFrom(before, wants, courses, runs, 0) else UntouchedFrom(before, runs, 0)
  {
    runs := before;
    var k := 0;
    while k < |dirs|
      invariant 0 <= k <= |dirs| && Mirror(dirs, runs) && WaitingUpTo(before, wants, courses, runs, k)
      invariant forall i :: k <= i < |dirs| ==> runs[i] == before[i]
      invariant forall i :: 0 <= i < k ==> LooksGood(before[i], wants[i], courses[i])
    {
      ok := LookAtOne(dirs, wants, courses, k, before, runs);
      runs := runs[k := dirs[k].run];
      if !ok {
        UntouchedAfterRefusal(before, wants, courses, runs, k);
        runs := AbandonSome(dirs, runs, 0, k);
        return;
      }
      k := k + 1;
    }
    ok := true;
  }

  method LookAtOne(dirs: seq<VolumeDir>, wants: seq<Want>, courses: seq<Course>, k: nat, ghost before: seq<Sys>,
                   ghost runs: seq<Sys>)
    returns (ok: bool)
    requires Separate(dirs) && |dirs| == |wants| == |courses| == |before| && k < |dirs| && Mirror(dirs, runs)
    requires Resting(before[k]) && runs[k] == before[k] && |courses[k]| >= 13
    modifies dirs[k]
    ensures ok <==> LooksGood(before[k], wants[k], courses[k])
    ensures Mirror(dirs, runs[k := dirs[k].run])
    ensures if ok then Waiting(before[k], wants[k], courses[k], dirs[k].run) else Untouched(before[k], dirs[k].run)
  {
    assert dirs[k].Valid();
    ok := dirs[k].Look(wants[k], courses[k][0]);
  }

  /** The machines in a range stop where they are. */
  ghost function Stopped(runs: seq<Sys>, from: nat, to: nat): (stopped: seq<Sys>)
    ensures |stopped| == |runs|
  {
    seq(|runs|, i requires 0 <= i < |runs| => if from <= i < to then VolumeMachine.Apply(runs[i], Crash) else runs[i])
  }

  /** The call ends before these volumes are written. */
  ghost method AbandonSome(dirs: seq<VolumeDir>, runs: seq<Sys>, from: nat, to: nat) returns (runs': seq<Sys>)
    requires Separate(dirs) && Mirror(dirs, runs) && from <= to <= |dirs|
    modifies dirs
    ensures runs' == Stopped(runs, from, to) && Mirror(dirs, runs')
  {
    var k := from;
    while k < to
      invariant from <= k <= to && Mirror(dirs, Stopped(runs, from, k))
    {
      dirs[k].Abandon();
      k := k + 1;
    }
    runs' := Stopped(runs, from, to);
  }

  lemma WaitingStops(before: Sys, w: Want, course: Course, s: Sys)
    requires Waiting(before, w, course, s)
    ensures Untouched(before, VolumeMachine.Apply(s, Crash))
  {
    ApplyKeepsInv(s, Crash);
  }

  lemma UntouchedAfterRefusal(before: seq<Sys>, wants: seq<Want>, courses: seq<Course>, runs: seq<Sys>, k: nat)
    requires WaitingUpTo(before, wants, courses, runs, k) && k < |runs| && AllResting(before)
    requires Untouched(before[k], runs[k])
    requires forall i :: k < i < |runs| ==> runs[i] == before[i]
    ensures UntouchedFrom(before, Stopped(runs, 0, k), 0)
  {
    forall i | 0 <= i < |runs| ensures Untouched(before[i], Stopped(runs, 0, k)[i]) {
      if i < k {
        WaitingStops(before[i], wants[i], courses[i], runs[i]);
      }
    }
  }

  lemma UntouchedAfterBreak(before: seq<Sys>, wants: seq<Want>, courses: seq<Course>, runs: seq<Sys>, k: nat)
    requires WaitingFrom(before, wants, courses, runs, k) && k <= |runs|
    ensures UntouchedFrom(before, Stopped(runs, k, |runs|), k)
  {
    forall i | k <= i < |runs| ensures Untouched(before[i], Stopped(runs, k, |runs|)[i]) {
      WaitingStops(before[i], wants[i], courses[i], runs[i]);
    }
  }

  /** Preflight: refuses before anything is written, for a volume that does not fit its
      declaration or what is retained of it, or for a pool without room. */
  method PreflightService(pool: Pool, ids: seq<VolumeId>, dirs: seq<VolumeDir>, wants: seq<Want>, courses: seq<Course>,
                          ghost before: seq<Sys>)
    returns (ok: bool, ghost runs: seq<Sys>)
    requires Separate(dirs) && |ids| == |dirs| == |wants| == |courses| && Mirror(dirs, before) && AllResting(before)
    requires pool.Around(ids) && Whole(courses)
    modifies dirs
    ensures Mirror(dirs, runs)
    ensures ok <==> AllLookGood(before, wants, courses) && pool.Admits(ids, before, wants)
    ensures if ok then WaitingFrom(before, wants, courses, runs, 0) else UntouchedFrom(before, runs, 0)
    ensures ok ==> AllFit(before, wants)
  {
    ok, runs := LookAtAll(dirs, wants, courses, before);
    if !ok {
      return;
    }
    AdmittedFit(before, wants, courses, runs);
    NoSizeIsNegative(pool, ids, before, wants);
    if |dirs| == 0 {
      return;
    }
    var retained := ReadRetained(pool.others, ids, dirs, runs);
    var desired := CollectDesired(ids, wants);
    if pool.readable {
      ok := CheckCapacity(retained, desired, pool.capacity, pool.available);
    } else {
      ok := false;
    }
    if !ok {
      UntouchedAfterBreak(before, wants, courses, runs, 0);
      runs := AbandonSome(dirs, runs, 0, |dirs|);
    }
  }

  lemma AdmittedFit(before: seq<Sys>, wants: seq<Want>, courses: seq<Course>, runs: seq<Sys>)
    requires WaitingFrom(before, wants, courses, runs, 0)
    ensures AllFit(before, wants) && Applied(runs) == Applied(before)
  {
    forall i | 0 <= i < |runs|
      ensures runs[i].dir == before[i].dir && Declared(wants[i]) && ExistingOk(before[i].dir, wants[i])
    {
      assert Waiting(before[i], wants[i], courses[i], runs[i]);
    }
  }

  /** The loop of Prepare over admitted volumes. */
  method CarryAll(dirs: seq<VolumeDir>, wants: seq<Want>, courses: seq<Course>, ghost before: seq<Sys>,
                  ghost start: seq<Sys>)
    returns (done: nat, ghost runs: seq<Sys>)
    requires Separate(dirs) && Mirror(dirs, start) && WaitingFrom(before, wants, courses, start, 0)
    modifies dirs
    ensures Mirror(dirs, runs) && CarriedTo(before, wants, courses, runs, done)
  {
    done, runs := 0, start;
    while done < |dirs|
      invariant 0 <= done <= |dirs| && Mirror(dirs, runs)
      invariant GotFirst(before, wants, courses, runs, done) && WaitingFrom(before, wants, courses, runs, done)
    {
      var r := CarryOne(dirs, wants, courses, done, before, runs);
      ghost var last := runs;
      runs := runs[done := dirs[done].run];
      if r.Failed? {
        runs := AbandonSome(dirs, runs, done + 1, |dirs|);
        BrokeHere(before, wants, courses, last, dirs[done].run, done);
        return;
      }
      GotOneMore(before, wants, courses, last, dirs[done].run, done);
      done := done + 1;
    }
  }

  lemma GotOneMore(before: seq<Sys>, wants: seq<Want>, courses: seq<Course>, runs: seq<Sys>, s: Sys, k: nat)
    requires GotFirst(before, wants, courses, runs, k) && WaitingFrom(before, wants, courses, runs, k) && k < |runs|
    requires GotIt(before[k], wants[k], courses[k], s)
    ensures GotFirst(before, wants, courses, runs[k := s], k + 1)
    ensures WaitingFrom(before, wants, courses, runs[k := s], k + 1)
  {
  }

  lemma BrokeHere(before: seq<Sys>, wants: seq<Want>, courses: seq<Course>, runs: seq<Sys>, s: Sys, k: nat)
    requires GotFirst(before, wants, courses, runs, k) && WaitingFrom(before, wants, courses, runs, k) && k < |runs|
    requires Broke(before[k], wants[k], courses[k], s)
    ensures CarriedTo(before, wants, courses, Stopped(runs[k := s], k + 1, |runs|), k)
  {
    var runs' := runs[k := s];
    assert WaitingFrom(before, wants, courses, runs', k + 1);
    UntouchedAfterBreak(before, wants, courses, runs', k + 1);
    assert forall i :: 0 <= i <= k ==> Stopped(runs', k + 1, |runs|)[i] == runs'[i];
  }

  method CarryOne(dirs: seq<VolumeDir>, wants: seq<Want>, courses: seq<Course>, k: nat, ghost before: seq<Sys>,
                  ghost runs: seq<Sys>)
    returns (r: Result)
    requires Separate(dirs) && |dirs| == |wants| == |courses| == |before| && k < |dirs| && Mirror(dirs, runs)
    requires Waiting(before[k], wants[k], courses[k], runs[k])
    modifies dirs[k]
    ensures Mirror(dirs, runs[k := dirs[k].run])
    ensures if r.Prepared? then GotIt(before[k], wants[k], courses[k], dirs[k].run)
            else Broke(before[k], wants[k], courses[k], dirs[k].run)
  {
    assert dirs[k].Admitted(before[k], wants[k], courses[k][0]);
    r := dirs[k].Carry(wants[k], before[k], courses[k]);
  }

  // ---------------------------------------------------------------- the pool after a call

  /** What is retained in the pool is what the pool arithmetic says of `done` volumes, or of
      one more, when that one failed after its manifest was written. */
  ghost predicate Between(pool: Pool, ids: seq<VolumeId>, wants: seq<Want>, old': seq<Option<int>>,
                          now: seq<Option<int>>, done: nat)
    requires |ids| == |wants| == |old'| == |now| && Lists(ids, Desired(ids, wants))
  {
    var m, m' := With(pool.others, ids, old'), With(pool.others, ids, now);
    || (done <= |ids| && m' == After(m, ids, Desired(ids, wants), done))
    || (done < |ids| && m' == After(m, ids, Desired(ids, wants), done + 1))
  }

  lemma SizedIsBetween(pool: Pool, ids: seq<VolumeId>, wants: seq<Want>, old': seq<Option<int>>, now: seq<Option<int>>,
                       done: nat)
    requires |ids| == |wants| && Apart(pool.others, ids) && done <= |ids|
    requires SizedUpTo(old', now, wants, done) || (done < |ids| && SizedUpTo(old', now, wants, done + 1))
    ensures Lists(ids, Desired(ids, wants)) && Between(pool, ids, wants, old', now, done)
  {
    if SizedUpTo(old', now, wants, done) {
      RetainedIsAfter(pool.others, ids, old', now, wants, done);
    } else {
      RetainedIsAfter(pool.others, ids, old', now, wants, done + 1);
    }
  }

  lemma SizesAfterCall(before: seq<Sys>, wants: seq<Want>, courses: seq<Course>, runs: seq<Sys>, done: nat)
    requires CarriedTo(before, wants, courses, runs, done)
    ensures SizedUpTo(Applied(before), Applied(runs), wants, done)
            || (done < |runs| && SizedUpTo(Applied(before), Applied(runs), wants, done + 1))
  {
    forall i | 0 <= i < |runs| && i != done
      ensures Applied(runs)[i] == if i < done then Some(wants[i].size) else Applied(before)[i]
    {
      assert i < done ==> GotIt(before[i], wants[i], courses[i], runs[i]);
      assert i > done ==> Untouched(before[i], runs[i]);
    }
  }

  lemma PoolAfterCall(pool: Pool, ids: seq<VolumeId>, wants: seq<Want>, courses: seq<Course>, before: seq<Sys>,
                      runs: seq<Sys>, done: nat)
    requires |ids| == |wants| && pool.Around(ids) && CarriedTo(before, wants, courses, runs, done)
    ensures Lists(ids, Desired(ids, wants)) && Between(pool, ids, wants, Applied(before), Applied(runs), done)
  {
    SizesAfterCall(before, wants, courses, runs, done);
    SizedIsBetween(pool, ids, wants, Applied(before), Applied(runs), done);
  }

  lemma PoolUntouched(pool: Pool, ids: seq<VolumeId>, wants: seq<Want>, before: seq<Sys>, runs: seq<Sys>)
    requires |ids| == |wants| == |before| && pool.Around(ids) && UntouchedFrom(before, runs, 0)
    ensures Lists(ids, Desired(ids, wants)) && Between(pool, ids, wants, Applied(before), Applied(runs), 0)
  {
    DesiredMeaning(ids, wants);
    assert Applied(runs) == Applied(before) by {
      assert forall i :: 0 <= i < |runs| ==> Untouched(before[i], runs[i]);
    }
  }

  /** All of it went through, so the pool is within its capacity. */
  lemma WholeCallFits(pool: Pool, ids: seq<VolumeId>, wants: seq<Want>, before: seq<Sys>, runs: seq<Sys>)
    requires |ids| == |wants| == |before| == |runs| && ids != [] && Lists(ids, Desired(ids, wants))
    requires pool.Admits(ids, before, wants) && Between(pool, ids, wants, Applied(before), Applied(runs), |ids|)
    ensures Sum(With(pool.others, ids, Applied(runs))) <= pool.capacity
  {
    PoolStaysWithinCapacity(With(pool.others, ids, Applied(before)), ids, Desired(ids, wants), pool.capacity,
                            pool.available, |ids|);
  }

  /** Every volume's own call, with its own course, goes through. */
  ghost predicate AllFinish(before: seq<Sys>, wants: seq<Want>, courses: seq<Course>) {
    && |before| == |wants| == |courses|
    && forall i :: 0 <= i < |wants| ==> Steps(Begin(before[i], wants[i]), courses[i]).pc.Done?
  }

  /** A call that finishes was admitted. */
  lemma FinishedLooksGood(before: seq<Sys>, wants: seq<Want>, courses: seq<Course>)
    requires AllFinish(before, wants, courses) && AllResting(before) && Whole(courses)
    ensures AllLookGood(before, wants, courses)
  {
    forall i | 0 <= i < |wants| ensures LooksGood(before[i], wants[i], courses[i]) {
      NextStep(Begin(before[i], wants[i]), courses[i], 0);
      if !LooksGood(before[i], wants[i], courses[i]) {
        EndedAt(Begin(before[i], wants[i]), courses[i], 1);
      }
    }
  }

  lemma CarriedToEnd(before: seq<Sys>, wants: seq<Want>, courses: seq<Course>, runs: seq<Sys>, done: nat)
    requires CarriedTo(before, wants, courses, runs, done)
    ensures done == |runs| <==> AllFinish(before, wants, courses)
  {
    assert forall i :: 0 <= i < done ==> GotIt(before[i], wants[i], courses[i], runs[i]);
  }

  /** For acceptable volumes in a pool with room, a call whose writes and commands succeed
      succeeds. */
  lemma SmoothCallsFinish(before: seq<Sys>, wants: seq<Want>, courses: seq<Course>)
    requires |before| == |wants| == |courses| && AllResting(before) && Whole(courses)
    requires forall i :: 0 <= i < |wants| ==> Smooth(Begin(before[i], wants[i]), courses[i])
    ensures AllFinish(before, wants, courses) <==> forall i :: 0 <= i < |wants| ==> Acceptable(before[i].dir, wants[i])
  {
    forall i | 0 <= i < |wants|
      ensures Steps(Begin(before[i], wants[i]), courses[i]).pc.Done? <==> Acceptable(before[i].dir, wants[i])
    {
      assert Resting(before[i]);
      CompletesExactlyWhenAcceptable(before[i], wants[i], courses[i]);
    }
  }

  /** Prepare for a service, in the order given (declarations are kept sorted by name). If a
      volume does not fit or the pool has no room, nothing is written. Otherwise the volumes
      are carried out in turn until one fails, and the pool is between the states its
      arithmetic speaks of; after the whole call it is within its capacity. */
  method PrepareService(pool: Pool, ids: seq<VolumeId>, dirs: seq<VolumeDir>, wants: seq<Want>, courses: seq<Course>,
                        ghost before: seq<Sys>)
    returns (ok: bool, done: nat, ghost runs: seq<Sys>)
    requires Separate(dirs) && |ids| == |dirs| == |wants| == |courses| && Mirror(dirs, before) && AllResting(before)
    requires pool.Around(ids) && Whole(courses)
    modifies dirs
    ensures Mirror(dirs, runs) && |runs| == |dirs|
    ensures ok <==> AllFinish(before, wants, courses) && pool.Admits(ids, before, wants)
    ensures ok ==> GotFirst(before, wants, courses, runs, |runs|)
    ensures !ok ==> UntouchedFrom(before, runs, 0) || (done < |runs| && CarriedTo(before, wants, courses, runs, done))
    ensures !AllFit(before, wants) || !pool.Admits(ids, before, wants) ==> !ok && UntouchedFrom(before, runs, 0)
    ensures Lists(ids, Desired(ids, wants)) && Between(pool, ids, wants, Applied(before), Applied(runs), done)
    ensures ok && ids != [] ==> Sum(With(pool.others, ids, Applied(runs))) <= pool.capacity
  {
    ok, runs := PreflightService(pool, ids, dirs, wants, courses, before);
    done := 0;
    if AllFinish(before, wants, courses) {
      FinishedLooksGood(before, wants, courses);
    }
    if !ok {
      PoolUntouched(pool, ids, wants, before, runs);
      return;
    }
    done, runs := CarryAll(dirs, wants, courses, before, runs);
    ok := done == |dirs|;
    CarriedToEnd(before, wants, courses, runs, done);
    PoolAfterCall(pool, ids, wants, courses, before, runs, done);
    if ok && |ids| > 0 {
      WholeCallFits(pool, ids, wants, before, runs);
    }
  }
}
