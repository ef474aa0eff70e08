/** What holds over every run of one volume directory, and when an interrupted call can be
    finished by asking again. */
module VolumeSafety {
  import opened Types
  import opened VolumeMachine

  /** Over every run of create, reuse, grow and shrink, interrupted anywhere: the filesystem
      never exceeds its file; without a journal the file has exactly the applied size; mkfs
      runs at most once in the life of the volume, and only on an image this very call
      created, so a volume with a manifest is never formatted again. */
  lemma SafeOverEveryRun(events: seq<Event>)
    ensures var s := Exec(FRESH, events);
            && (s.dir.fs.Some? ==> s.dir.image.Some? && s.dir.fs.value <= s.dir.image.value)
            && (s.dir.manifest.Some? && s.dir.tx.None? ==> s.dir.image == Some(s.dir.manifest.value.applied))
            && s.formats <= 1
            && (s.pc.Format? ==> s.formats == 0 && s.born.image.None? && s.dir.manifest.None?)
  {
    ExecKeepsInv(FRESH, events);
  }

  /** What `Prepare` returns is what the manifest says, and that was the last manifest
      written; the journal is gone and the image has the reported size. */
  lemma ReportIsCommitted(events: seq<Event>)
    ensures var s := Exec(FRESH, events);
            s.pc.Done? ==>
              && s.dir.manifest.Some? && s.dir.tx.None?
              && s.dir.manifest.value.applied == s.pc.size && s.dir.manifest.value.generation == s.pc.generation
              && s.dir.image == Some(s.pc.size)
              && s.commits != [] && s.commits[|s.commits| - 1] == CommitRecord(s.pc.size, s.pc.generation)
  {
    ExecKeepsInv(FRESH, events);
  }

  /** What a caller can check before the call: nothing of the volume exists yet, or it is
      ours and no journal names another size or generation. */
  predicate Acceptable(d: Dir, w: Want) {
    && Declared(w)
    && match d.manifest
       case None => d.image.None?
       case Some(m) =>
         && m.boundNode == w.node
         && (d.tx.Some? ==> d.tx.value.desired == w.size && d.tx.value.generation == w.generation)
  }

  lemma {:induction false} StepsKeepInv(s: Sys, outcomes: seq<Outcome>)
    requires Inv(s)
    ensures Inv(Steps(s, outcomes))
    decreases |outcomes|
  {
    if outcomes != [] {
      ApplyKeepsInv(s, Tick(outcomes[0]));
      StepsKeepInv(Step(s, outcomes[0]), outcomes[1..]);
    }
  }

  lemma {:induction false} StepsAtRest(s: Sys, outcomes: seq<Outcome>)
    requires s.pc.AtRest()
    ensures Steps(s, outcomes) == s
    decreases |outcomes|
  {
    if outcomes != [] {
      StepsAtRest(s, outcomes[1..]);
    }
  }

  // --------------------------------------------------------------- refused calls

  /** A call that is not acceptable changes nothing and never succeeds, however its steps go. */
  lemma UnacceptableIsRefused(s: Sys, w: Want, outcomes: seq<Outcome>)
    requires Inv(s) && s.pc.AtRest() && !Acceptable(s.dir, w)
    ensures var t := Steps(Begin(s, w), outcomes);
            t.dir == s.dir && t.commits == s.commits && t.formats == s.formats && !t.pc.Done?
  {
    var a := Begin(s, w);
    if outcomes != [] {
      var b := Step(a, outcomes[0]);
      assert b.dir == s.dir;
      if b.pc.AtRest() {
        StepsAtRest(b, outcomes[1..]);
      } else if |outcomes| > 1 {
        RefusedAtDispatch(s.dir, w);
        assert outcomes[1..][0] == outcomes[1];
        var c := Step(b, outcomes[1]);
        StepsAtRest(c, outcomes[1..][1..]);
      }
    }
  }

  lemma RefusedAtDispatch(d: Dir, w: Want)
    requires DirOk(d) && !Acceptable(d, w) && Declared(w) && ExistingOk(d, w)
    ensures FirstStep(d, w) == Refused
  {
  }

  /** While a journal exists, the only size and generation not refused are the ones it
      records. */
  lemma JournalPinsTheTarget(s: Sys, w: Want, outcomes: seq<Outcome>)
    requires Inv(s) && s.pc.AtRest() && s.dir.tx.Some?
    requires Steps(Begin(s, w), outcomes).dir != s.dir || Steps(Begin(s, w), outcomes).pc.Done?
    ensures w.size == s.dir.tx.value.desired && w.generation == s.dir.tx.value.generation
  {
    if !Acceptable(s.dir, w) {
      UnacceptableIsRefused(s, w, outcomes);
    }
  }

  /** An image that lost its call before the first manifest stays as it is for ever: no call
      adopts it, formats it or removes it. */
  lemma {:induction false} QuarantineIsPermanent(s: Sys, events: seq<Event>)
    requires Inv(s) && s.dir.image.Some? && s.dir.manifest.None?
    requires s.pc.AtRest() || s.pc.Admit?
    ensures Exec(s, events).dir == s.dir && !Exec(s, events).pc.Done?
    decreases |events|
  {
    if events != [] {
      ApplyKeepsInv(s, events[0]);
      QuarantineIsPermanent(Apply(s, events[0]), events[1..]);
    }
  }

  /** The window is real: die after creating the image file and before the manifest. */
  lemma CreateCrashQuarantines(w: Want)
    requires Declared(w)
    ensures var s := Exec(FRESH, [Call(w), Tick(Ok(0)), Tick(Ok(0)), Tick(Ok(0)), Crash]);
            s.dir.image.Some? && s.dir.manifest.None? && forall w' :: !Acceptable(s.dir, w')
  {
    var s1 := Apply(FRESH, Call(w));
    var s2 := Apply(s1, Tick(Ok(0)));
    var s3 := Apply(s2, Tick(Ok(0)));
    var s4 := Apply(s3, Tick(Ok(0)));
    assert s2.pc == Dispatch && s3.pc == CreateImage && s4.dir.image == Some(0);
    assert Exec(s4, [Crash]) == Apply(s4, Crash);
    assert Exec(s3, [Tick(Ok(0)), Crash]) == Exec(s4, [Crash]);
    assert Exec(s2, [Tick(Ok(0)), Tick(Ok(0)), Crash]) == Exec(s3, [Tick(Ok(0)), Crash]);
    assert Exec(s1, [Tick(Ok(0)), Tick(Ok(0)), Tick(Ok(0)), Crash]) == Exec(s2, [Tick(Ok(0)), Tick(Ok(0)), Crash]);
    assert Exec(FRESH, [Call(w), Tick(Ok(0)), Tick(Ok(0)), Tick(Ok(0)), Crash]) ==
           Exec(s1, [Tick(Ok(0)), Tick(Ok(0)), Tick(Ok(0)), Crash]);
  }

  // ------------------------------------------------------------------ completion

  /** The steps that ask the tools for a minimum size. */
  predicate AsksMinimum(s: Sys) {
    s.pc.Inspect? || (s.pc.Admit? && Shrinks(s))
  }

  /** Every write and command succeeds, and no minimum-size check objects. */
  predicate Smooth(s: Sys, outcomes: seq<Outcome>)
    decreases |outcomes|
  {
    outcomes == [] ||
    (&& outcomes[0].Ok?
     && (AsksMinimum(s) ==> ShrinkFits(s.want, outcomes[0].n))
     && Smooth(Step(s, outcomes[0]), outcomes[1..]))
  }

  function Remaining(pc: Pc): nat {
    match pc
    case Admit => 13
    case Dispatch => 12
    case CreateImage => 4
    case SizeImage => 3
    case Format => 2
    case CommitNew => 1
    case DropStale => 1
    case Journal => 11
    case Check => 10
    case Inspect => 9
    case MarkShrinking => 8
    case ShrinkFs => 7
    case MarkShrunk => 6
    case Cut => 5
    case MarkExtended => 6
    case Extend => 5
    case GrowFs => 4
    case Recheck => 3
    case Commit => 2
    case ClearJournal => 1
    case _ => 0
  }

  /** On the way to completion. */
  ghost predicate OnTrack(s: Sys) {
    && Inv(s)
    && !s.pc.Rest? && !s.pc.Refused?
    && (s.pc.Admit? || s.pc.Dispatch? ==> Acceptable(s.dir, s.want))
    && (s.pc.CreateImage? ==> s.dir.image.None?)
    && (s.pc.Done? ==> s.pc == Done(s.want.size, s.want.generation))
  }

  lemma OneMoreStep(s: Sys, n: nat)
    requires OnTrack(s) && !s.pc.AtRest() && (AsksMinimum(s) ==> ShrinkFits(s.want, n))
    ensures OnTrack(Step(s, Ok(n))) && Remaining(Step(s, Ok(n)).pc) < Remaining(s.pc)
  {
    PerformKeepsInv(s, n);
  }

  lemma {:induction false} SmoothFinishes(s: Sys, outcomes: seq<Outcome>)
    requires OnTrack(s) && Smooth(s, outcomes) && |outcomes| >= Remaining(s.pc)
    ensures var t := Steps(s, outcomes);
            OnTrack(t) && t.want == s.want && t.pc == Done(s.want.size, s.want.generation)
    decreases |outcomes|
  {
    if s.pc.AtRest() {
      StepsAtRest(s, outcomes);
    } else {
      OneMoreStep(s, outcomes[0].n);
      SmoothFinishes(Step(s, outcomes[0]), outcomes[1..]);
    }
  }

  /** Asking again works exactly when the directory is acceptable: then every call whose
      steps succeed ends with the manifest at the wanted size and generation, a file of that
      size, a filesystem within it and no journal; otherwise no call does anything. */
  lemma CompletesExactlyWhenAcceptable(s: Sys, w: Want, outcomes: seq<Outcome>)
    requires Inv(s) && s.pc.AtRest()
    requires Smooth(Begin(s, w), outcomes) && |outcomes| >= 13
    ensures var t := Steps(Begin(s, w), outcomes);
            && (t.pc.Done? <==> Acceptable(s.dir, w))
            && (Acceptable(s.dir, w) ==>
                  && t.dir.manifest == Some(Manifest(Local, w.node, w.size, w.generation))
                  && t.dir.tx.None? && t.dir.image == Some(w.size)
                  && t.dir.fs.Some? && t.dir.fs.value <= w.size)
            && (!Acceptable(s.dir, w) ==> t.dir == s.dir)
  {
    if Acceptable(s.dir, w) {
      SmoothFinishes(Begin(s, w), outcomes);
      StepsKeepOwner(Begin(s, w), outcomes);
    } else {
      UnacceptableIsRefused(s, w, outcomes);
    }
  }

  ghost predicate Owned(s: Sys) {
    && (s.dir.manifest.Some? ==> s.dir.manifest.value.boundNode == s.want.node)
    && (!s.pc.AtRest() && !s.pc.Admit? ==> s.want.vtype == Local)
  }

  lemma {:induction false} StepsKeepOwner(s: Sys, outcomes: seq<Outcome>)
    requires Owned(s)
    ensures Owned(Steps(s, outcomes)) && Steps(s, outcomes).want == s.want
    decreases |outcomes|
  {
    if outcomes != [] {
      StepsKeepOwner(Step(s, outcomes[0]), outcomes[1..]);
    }
  }

  // --------------------------------------------------------- crash and try again

  ghost predicate Resumable(s: Sys) {
    Inv(s) && s.dir.manifest.Some? && Acceptable(s.dir, s.want)
  }

  lemma {:induction false} StepsStayResumable(s: Sys, outcomes: seq<Outcome>)
    requires Resumable(s)
    ensures Resumable(Steps(s, outcomes)) && Steps(s, outcomes).want == s.want
    decreases |outcomes|
  {
    if outcomes != [] {
      ApplyKeepsInv(s, Tick(outcomes[0]));
      StepsStayResumable(Step(s, outcomes[0]), outcomes[1..]);
    }
  }

  /** From every crash point inside a resize, one more call for the same size and generation
      whose steps succeed completes it: after the shrink truncation, after the manifest
      commit, anywhere. */
  lemma CrashedResizeCompletes(s: Sys, w: Want, before: seq<Outcome>, after: seq<Outcome>)
    requires Inv(s) && s.pc.AtRest() && s.dir.manifest.Some? && Acceptable(s.dir, w)
    requires Smooth(Begin(Apply(Steps(Begin(s, w), before), Crash), w), after) && |after| >= 13
    ensures var t := Steps(Begin(Apply(Steps(Begin(s, w), before), Crash), w), after);
            && t.pc == Done(w.size, w.generation)
            && t.dir.manifest == Some(Manifest(Local, w.node, w.size, w.generation))
            && t.dir.tx.None? && t.dir.image == Some(w.size)
            && t.dir.fs.Some? && t.dir.fs.value <= w.size
            && t.formats == 1
  {
    var died := Apply(Steps(Begin(s, w), before), Crash);
    StepsStayResumable(Begin(s, w), before);
    ApplyKeepsInv(Steps(Begin(s, w), before), Crash);
    CompletesExactlyWhenAcceptable(died, w, after);
    SmoothFinishes(Begin(died, w), after);
  }

  // --------------------------------------------------------------- runs cut in two

  lemma StepsOne(s: Sys, o: Outcome)
    ensures Steps(s, [o]) == Step(s, o)
  {
    assert Steps(Step(s, o), [o][1..]) == Step(s, o);
  }

  lemma {:induction false} StepsJoin(s: Sys, a: seq<Outcome>, b: seq<Outcome>)
    ensures Steps(s, a + b) == Steps(Steps(s, a), b)
    decreases |a|
  {
    if a == [] {
      assert a + b == b;
    } else {
      assert (a + b)[0] == a[0] && (a + b)[1..] == a[1..] + b;
      StepsJoin(Step(s, a[0]), a[1..], b);
    }
  }

  lemma NextStep(s: Sys, course: seq<Outcome>, k: nat)
    requires k < |course|
    ensures Steps(s, course[..k + 1]) == Step(Steps(s, course[..k]), course[k])
  {
    assert course[..k + 1] == course[..k] + [course[k]];
    StepsJoin(s, course[..k], [course[k]]);
    StepsOne(Steps(s, course[..k]), course[k]);
  }

  lemma CutAt(s: Sys, course: seq<Outcome>, k: nat, m: nat)
    requires k <= m <= |course|
    ensures Steps(s, course[..m]) == Steps(Steps(s, course[..k]), course[k..m])
  {
    assert course[..m] == course[..k] + course[k..m];
    StepsJoin(s, course[..k], course[k..m]);
  }

  /** A call that has ended stays ended. */
  lemma EndedAt(s: Sys, course: seq<Outcome>, k: nat)
    requires k <= |course| && Steps(s, course[..k]).pc.AtRest()
    ensures Steps(s, course) == Steps(s, course[..k])
  {
    assert course[..|course|] == course;
    CutAt(s, course, k, |course|);
    StepsAtRest(Steps(s, course[..k]), course[k..]);
  }

  // ------------------------------------------- what every resize is preceded by

  /** Before the file, the filesystem or the manifest is touched. */
  predicate Early(pc: Pc) {
    pc.Admit? || pc.Dispatch? || pc.Journal? || pc.Check? || pc.Inspect?
  }

  lemma {:induction false} NeverEarlyAgain(s: Sys, outcomes: seq<Outcome>)
    requires !Early(s.pc)
    ensures !Early(Steps(s, outcomes).pc)
    decreases |outcomes|
  {
    if outcomes != [] {
      NeverEarlyAgain(Step(s, outcomes[0]), outcomes[1..]);
    }
  }

  lemma {:induction false} EarlyChangesNothing(s: Sys, outcomes: seq<Outcome>)
    requires Early(s.pc) && Early(Steps(s, outcomes).pc)
    ensures var t := Steps(s, outcomes);
            t.want == s.want && t.dir.image == s.dir.image && t.dir.fs == s.dir.fs && t.dir.manifest == s.dir.manifest
    decreases |outcomes|
  {
    if outcomes != [] {
      if Early(Step(s, outcomes[0]).pc) {
        EarlyChangesNothing(Step(s, outcomes[0]), outcomes[1..]);
      } else {
        NeverEarlyAgain(Step(s, outcomes[0]), outcomes[1..]);
      }
    }
  }

  /** At step `i` of a call the tools report that the filesystem needs `n` bytes: at the
      preflight, or under the journal after the check. */
  predicate ReportsMinimum(s: Sys, course: seq<Outcome>, i: nat, n: nat) {
    && i < |course| && (course[i] == Ok(n) || course[i] == DoneThenFailed(n))
    && (Steps(s, course[..i]).pc.Admit? || Steps(s, course[..i]).pc.Inspect?)
  }

  /** A shrink that leaves less than 5% above the reported minimum never succeeds, and the
      image, the filesystem and the manifest stay as they were. */
  lemma ShrinkBelowMinimumFails(s: Sys, w: Want, course: seq<Outcome>, i: nat, n: nat)
    requires Inv(s) && s.dir.manifest.Some? && w.size < s.dir.manifest.value.applied
    requires ReportsMinimum(Begin(s, w), course, i, n) && w.size < n + n / 20
    ensures var t := Steps(Begin(s, w), course);
            && !t.pc.Done? && t.dir.manifest == s.dir.manifest
            && t.dir.image == s.dir.image && t.dir.fs == s.dir.fs
  {
    EarlyChangesNothing(Begin(s, w), course[..i]);
    NextStep(Begin(s, w), course, i);
    EndedAt(Begin(s, w), course, i + 1);
  }

  /** A shrink that succeeds has asked for the minimum under the journal, and left 5% above
      it. */
  lemma {:induction false} ShrinkIsMeasured(s: Sys, course: seq<Outcome>) returns (i: nat)
    requires Early(s.pc) && s.dir.manifest.Some? && s.want.size < s.dir.manifest.value.applied
    requires Steps(s, course).pc.Done?
    ensures i < |course| && course[i].Ok? && Steps(s, course[..i]).pc.Inspect?
    ensures s.want.size >= course[i].n + course[i].n / 20
    decreases |course|
  {
    var t := Step(s, course[0]);
    if t.pc.AtRest() {
      StepsAtRest(t, course[1..]);
    }
    if s.pc.Inspect? {
      i := 0;
    } else {
      var j := ShrinkIsMeasured(t, course[1..]);
      i := j + 1;
      assert course[..i][0] == course[0] && course[..i][1..] == course[1..][..j];
    }
  }

  predicate BeforeCheck(pc: Pc) {
    pc.Admit? || pc.Dispatch? || pc.Journal? || pc.Check?
  }

  /** On the way of a resize from its journal to its commit. */
  predicate BeforeRecheck(pc: Pc) {
    || pc.Check? || pc.Inspect? || pc.MarkExtended? || pc.Extend? || pc.GrowFs?
    || pc.MarkShrinking? || pc.ShrinkFs? || pc.MarkShrunk? || pc.Cut? || pc.Recheck?
  }

  /** A resize that succeeds has checked the filesystem before it touched anything. */
  lemma {:induction false} ResizeIsChecked(s: Sys, course: seq<Outcome>) returns (i: nat)
    requires BeforeCheck(s.pc) && s.dir.manifest.Some? && Steps(s, course).pc.Done?
    requires s.dir.manifest.value.applied != s.want.size || s.dir.manifest.value.generation != s.want.generation
    ensures i < |course| && course[i].Ok? && Steps(s, course[..i]).pc.Check?
    ensures var x := Steps(s, course[..i]).dir;
            x.image == s.dir.image && x.fs == s.dir.fs && x.manifest == s.dir.manifest
    decreases |course|
  {
    var t := Step(s, course[0]);
    if t.pc.AtRest() {
      StepsAtRest(t, course[1..]);
    }
    if s.pc.Check? {
      i := 0;
    } else {
      var j := ResizeIsChecked(t, course[1..]);
      i := j + 1;
      assert course[..i][0] == course[0] && course[..i][1..] == course[1..][..j];
    }
  }

  /** And once more before it committed the new size. */
  lemma {:induction false} ResizeIsRechecked(s: Sys, course: seq<Outcome>) returns (i: nat)
    requires BeforeRecheck(s.pc) && Steps(s, course).pc.Done?
    ensures i < |course| && course[i].Ok? && Steps(s, course[..i]).pc.Recheck?
    ensures Steps(s, course[..i]).dir.manifest == s.dir.manifest
    decreases |course|
  {
    var t := Step(s, course[0]);
    if t.pc.AtRest() {
      StepsAtRest(t, course[1..]);
    }
    if s.pc.Recheck? {
      i := 0;
    } else {
      var j := ResizeIsRechecked(t, course[1..]);
      i := j + 1;
      assert course[..i][0] == course[0] && course[..i][1..] == course[1..][..j];
    }
  }

  /** A declaration that is not of a local volume bound to this very node, or not of a positive
      size, changes nothing and never succeeds. */
  lemma MisdeclaredIsRefused(s: Sys, w: Want, course: seq<Outcome>)
    requires Inv(s) && s.pc.AtRest()
    requires w.size <= 0 || w.vtype != Local || w.boundNode == "" || w.boundNode != w.node
    ensures var t := Steps(Begin(s, w), course); t.dir == s.dir && !t.pc.Done?
  {
    UnacceptableIsRefused(s, w, course);
  }

  // ------------------------------------------------------------- what the journal tells

  /** The phase a resize journal carries while the step it announces is under way. */
  ghost predicate PhaseTells(s: Sys) {
    && (s.pc.Check? || s.pc.Inspect? || s.pc.MarkExtended? || s.pc.MarkShrinking? ==>
          s.dir.tx.Some? && s.dir.tx.value.phase == Checking)
    && (s.pc.Extend? || s.pc.GrowFs? ==> s.dir.tx.Some? && s.dir.tx.value.phase == FileExtended)
    && (s.pc.ShrinkFs? || s.pc.MarkShrunk? ==> s.dir.tx.Some? && s.dir.tx.value.phase == FilesystemShrinking)
    && (s.pc.Cut? ==> s.dir.tx.Some? && s.dir.tx.value.phase == FilesystemShrunk)
  }

  lemma StepTells(s: Sys, n: nat)
    requires PcOk(s) && PhaseTells(s) && !s.pc.AtRest()
    ensures PhaseTells(Perform(s, n))
  {
    if s.pc.Dispatch? {
      assert FirstStep(s.dir, s.want).CreateImage? || FirstStep(s.dir, s.want).Journal?
        || FirstStep(s.dir, s.want).DropStale? || FirstStep(s.dir, s.want).AtRest();
    }
  }

  lemma ApplyTells(s: Sys, e: Event)
    requires PcOk(s) && PhaseTells(s)
    ensures PhaseTells(Apply(s, e))
  {
    if e.Tick? && !s.pc.AtRest() && e.outcome.Ok? {
      StepTells(s, e.outcome.n);
    }
  }

  /** Over every run the journal announces a step before it is taken: an operator who finds it
      after a crash reads how far the resize had come. */
  lemma {:induction false} JournalTellsPhase(s: Sys, events: seq<Event>)
    requires Inv(s) && PhaseTells(s)
    ensures PhaseTells(Exec(s, events))
    decreases |events|
  {
    if events != [] {
      ApplyKeepsInv(s, events[0]);
      ApplyTells(s, events[0]);
      JournalTellsPhase(Apply(s, events[0]), events[1..]);
    }
  }
}
