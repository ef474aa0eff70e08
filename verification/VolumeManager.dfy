/** The volume manager's calls on one volume directory, written as the sequence of writes and
    commands they issue. How each one goes is given by the course of the call; the ghost field
    `run` follows the same call on the step machine. */
module VolumeManager {
  import opened Types
  import opened VolumeMachine
  import opened VolumeSafety

  datatype Result = Prepared(size: int, generation: int) | Failed

  class VolumeDir {
    var image: Option<int>
    var fs: Option<int>
    var manifest: Option<Manifest>
    var tx: Option<Tx>
    ghost var run: Sys

    ghost function View(): Dir reads this {
      Dir(image, fs, manifest, tx)
    }

    /** The directory is what the machine says it is. */
    ghost predicate Mirrors() reads this {
      run.dir == View()
    }

    ghost predicate InStep() reads this {
      Mirrors() && Inv(run)
    }

    ghost predicate Valid() reads this {
      InStep() && run.pc.AtRest()
    }

    constructor ()
      ensures Valid() && View() == EMPTY_DIR
    {
      image, fs, manifest, tx := None, None, None, None;
      run := FRESH;
    }

    // -------------------------------------------------- single writes and commands

    ghost method Follow(o: Outcome)
      requires Inv(run) && !run.pc.AtRest()
      requires View() == if o.Happened() then Effect(run, o.Number()) else run.dir
      modifies this`run
      ensures run == Step(old(run), o) && InStep()
    {
      ApplyKeepsInv(run, Tick(o));
      run := Step(run, o);
    }

    /** writeJSONAtomic on the resize journal */
    method WriteJournal(t: Tx, o: Outcome)
      requires InStep() && !run.pc.AtRest() && forall n: nat :: Effect(run, n) == View().(tx := Some(t))
      modifies this
      ensures InStep() && run == Step(old(run), o)
    {
      if o.Happened() {
        tx := Some(t);
      }
      Follow(o);
    }

    method RemoveJournal(o: Outcome)
      requires InStep() && (run.pc.DropStale? || run.pc.ClearJournal?)
      modifies this
      ensures InStep() && run == Step(old(run), o)
    {
      if o.Happened() {
        tx := None;
      }
      Follow(o);
    }

    /** writeJSONAtomic on the manifest */
    method WriteManifest(m: Manifest, o: Outcome)
      requires InStep() && !run.pc.AtRest() && forall n: nat :: Effect(run, n) == View().(manifest := Some(m))
      modifies this
      ensures InStep() && run == Step(old(run), o)
    {
      if o.Happened() {
        manifest := Some(m);
      }
      Follow(o);
    }

    method Truncate(size: int, o: Outcome)
      requires InStep() && !run.pc.AtRest() && forall n: nat :: Effect(run, n) == View().(image := Some(size))
      modifies this
      ensures InStep() && run == Step(old(run), o)
    {
      if o.Happened() {
        image := Some(size);
      }
      Follow(o);
    }

    /** Opening with O_CREATE|O_EXCL: an existing image is never reused. */
    method CreateExclusive(o: Outcome) returns (ok: bool)
      requires InStep() && run.pc.CreateImage?
      modifies this
      ensures InStep() && run == Step(old(run), o)
      ensures ok <==> o.Ok? && old(image).None?
    {
      ok := o.Ok? && image.None?;
      if image.None? && o.Happened() {
        image := Some(0);
      }
      Follow(o);
    }

    /** mkfs.ext4, or resize2fs without a size: the filesystem ends somewhere within the file. */
    method FillFilesystem(o: Outcome)
      requires InStep() && (run.pc.Format? || run.pc.GrowFs?)
      modifies this
      ensures InStep() && run == Step(old(run), o)
    {
      if o.Happened() {
        fs := Some(Min(o.Number(), image.value));
      }
      Follow(o);
    }

    /** resize2fs with a size in whole KiB: the filesystem ends within that size. */
    method ShrinkFilesystem(kib: int, o: Outcome)
      requires InStep() && run.pc.ShrinkFs? && kib == run.want.size / 1024
      modifies this
      ensures InStep() && run == Step(old(run), o)
    {
      if o.Happened() {
        fs := Some(Min(o.Number(), kib * 1024));
      }
      Follow(o);
    }

    /** e2fsck, and the reads at the start of a call: no effect on sizes. */
    method Examine(o: Outcome)
      requires InStep() && !run.pc.AtRest() && forall n: nat :: Effect(run, n) == View()
      modifies this
      ensures InStep() && run == Step(old(run), o) && View() == old(View())
    {
      Follow(o);
    }

    // ------------------------------------------------------------------- the calls

    method CreateSparseImage(size: int, course: seq<Outcome>) returns (ok: bool)
      requires InStep() && run.pc.CreateImage? && size == run.want.size && |course| == 2
      modifies this
      ensures InStep() && run.want == old(run).want && run.born == old(run).born
      ensures run == Steps(old(run), course)
      ensures if ok then run.pc.Format? else run.pc.AtRest() && !run.pc.Done?
    {
      ghost var start := run;
      ok := CreateExclusive(course[0]);
      NextStep(start, course, 0);
      if !ok {
        EndedAt(start, course, 1);
        return;
      }
      Truncate(size, course[1]);
      NextStep(start, course, 1);
      assert course[..2] == course;
      ok := course[1].Ok?;
    }

    /** Journal and check; before a shrink, ask for the minimum size. */
    method BeginResize(w: Want, t: Tx, course: seq<Outcome>) returns (ok: bool, next: nat)
      requires InStep() && run.pc.Journal? && run.want == w && manifest.Some? && |course| >= 3
      requires t == JournalFor(View(), w, Checking)
      modifies this
      ensures InStep() && run.want == w && manifest == old(manifest)
      ensures next <= 3 && run == Steps(old(run), course[..next])
      ensures ok && w.size >= manifest.value.applied ==> next == 2 && run.pc.MarkExtended? && tx == Some(t)
      ensures ok && w.size < manifest.value.applied ==> next == 3 && run.pc.MarkShrinking? && tx == Some(t)
      ensures ok && w.size < manifest.value.applied ==> w.size >= course[2].Number() + course[2].Number() / 20
      ensures !ok ==> run.pc.AtRest() && !run.pc.Done?
    {
      ghost var start := run;
      WriteJournal(t, course[0]);
      NextStep(start, course, 0);
      if !course[0].Ok? {
        return false, 1;
      }
      Examine(course[1]);
      NextStep(start, course, 1);
      if !course[1].Ok? {
        return false, 2;
      }
      if w.size < manifest.value.applied {
        Examine(course[2]);
        NextStep(start, course, 2);
        return course[2].Ok? && w.size >= course[2].Number() + course[2].Number() / 20, 3;
      }
      return true, 2;
    }

    /** Journal, check, change file and filesystem in the safe order, commit, clear. */
    method Resize(w: Want, course: seq<Outcome>) returns (ok: bool)
      requires InStep() && run.pc.Journal? && run.want == w && |course| >= 10
      modifies this
      ensures InStep() && run.pc.AtRest() && run == Steps(old(run), course)
      ensures if ok then run.pc == Done(w.size, w.generation) else !run.pc.Done?
      ensures ok && w.size < old(manifest).value.applied ==> w.size >= course[2].Number() + course[2].Number() / 20
    {
      ghost var start := run;
      var current := manifest.value;
      var direction := if w.size < current.applied then Shrink else Grow;
      var t := Tx(current.applied, w.size, w.generation, direction, Checking);
      var next;
      ok, next := BeginResize(w, t, course);
      if !ok {
        EndedAt(start, course, next);
        return;
      }
      if direction == Shrink {
        ok := ShrinkFile(w, t, course[3..7]);
        CutAt(start, course, 3, 7);
        next := 7;
      } else {
        ok := GrowFile(w, t, course[2..5]);
        CutAt(start, course, 2, 5);
        next := 5;
      }
      if !ok {
        EndedAt(start, course, next);
        return;
      }
      ok := Settle(w, current, course[next..]);
      CutAt(start, course, next, |course|);
      assert course[..|course|] == course;
    }

    /** File first, then the filesystem in it. */
    method GrowFile(w: Want, t: Tx, course: seq<Outcome>) returns (ok: bool)
      requires InStep() && run.pc.MarkExtended? && run.want == w && manifest.Some? && |course| == 3
      requires t == JournalFor(View(), w, Checking)
      modifies this
      ensures InStep() && run.want == w && manifest == old(manifest) && run == Steps(old(run), course)
      ensures if ok then run.pc.Recheck? else run.pc.AtRest() && !run.pc.Done?
    {
      ghost var start := run;
      WriteJournal(t.(phase := FileExtended), course[0]);
      NextStep(start, course, 0);
      if !course[0].Ok? {
        EndedAt(start, course, 1);
        return false;
      }
      Truncate(w.size, course[1]);
      NextStep(start, course, 1);
      if !course[1].Ok? {
        EndedAt(start, course, 2);
        return false;
      }
      FillFilesystem(course[2]);
      NextStep(start, course, 2);
      assert course[..3] == course;
      return course[2].Ok?;
    }

    /** Filesystem first, then the file around it. */
    method ShrinkFile(w: Want, t: Tx, course: seq<Outcome>) returns (ok: bool)
      requires InStep() && run.pc.MarkShrinking? && run.want == w && manifest.Some? && |course| == 4
      requires t == JournalFor(View(), w, Checking)
      modifies this
      ensures InStep() && run.want == w && manifest == old(manifest) && run == Steps(old(run), course)
      ensures if ok then run.pc.Recheck? else run.pc.AtRest() && !run.pc.Done?
    {
      ghost var start := run;
      WriteJournal(t.(phase := FilesystemShrinking), course[0]);
      NextStep(start, course, 0);
      if !course[0].Ok? {
        EndedAt(start, course, 1);
        return false;
      }
      ShrinkFilesystem(w.size / 1024, course[1]);
      NextStep(start, course, 1);
      if !course[1].Ok? {
        EndedAt(start, course, 2);
        return false;
      }
      WriteJournal(t.(phase := FilesystemShrunk), course[2]);
      NextStep(start, course, 2);
      if !course[2].Ok? {
        EndedAt(start, course, 3);
        return false;
      }
      Truncate(w.size, course[3]);
      NextStep(start, course, 3);
      assert course[..4] == course;
      return course[3].Ok?;
    }

    /** Check again, commit the manifest, clear the journal. */
    method Settle(w: Want, current: Manifest, course: seq<Outcome>) returns (ok: bool)
      requires InStep() && run.pc.Recheck? && run.want == w && manifest == Some(current) && |course| >= 3
      modifies this
      ensures InStep() && run.pc.AtRest() && run == Steps(old(run), course)
      ensures if ok then run.pc == Done(w.size, w.generation) else !run.pc.Done?
    {
      ghost var start := run;
      Examine(course[0]);
      NextStep(start, course, 0);
      if !course[0].Ok? {
        EndedAt(start, course, 1);
        return false;
      }
      WriteManifest(current.(applied := w.size, generation := w.generation), course[1]);
      NextStep(start, course, 1);
      if !course[1].Ok? {
        EndedAt(start, course, 2);
        return false;
      }
      RemoveJournal(course[2]);
      NextStep(start, course, 2);
      EndedAt(start, course, 3);
      return course[2].Ok?;
    }

    /** The first use of a volume: image, filesystem, manifest. */
    method CreateVolume(w: Want, course: seq<Outcome>) returns (ok: bool)
      requires InStep() && run.pc.CreateImage? && run.want == w && |course| >= 4
      modifies this
      ensures InStep() && run.pc.AtRest() && run == Steps(old(run), course)
      ensures if ok then run.pc == Done(w.size, w.generation) else !run.pc.Done?
    {
      ghost var start := run;
      ok := CreateSparseImage(w.size, course[..2]);
      if !ok {
        EndedAt(start, course, 2);
        return;
      }
      FillFilesystem(course[2]);
      NextStep(start, course, 2);
      if !course[2].Ok? {
        EndedAt(start, course, 3);
        return false;
      }
      WriteManifest(Manifest(w.vtype, w.node, w.size, w.generation), course[3]);
      NextStep(start, course, 3);
      EndedAt(start, course, 4);
      return course[3].Ok?;
    }

    /** prepareOne: create, reuse or resize. It succeeds exactly when the machine does. */
    method PrepareOne(w: Want, course: seq<Outcome>) returns (r: Result)
      requires InStep() && run.pc.Dispatch? && run.want == w && |course| >= 12
      modifies this
      ensures InStep() && run.pc.AtRest() && run == Steps(old(run), course)
      ensures if r.Prepared? then run.pc == Done(w.size, w.generation) && r == Prepared(w.size, w.generation)
              else !run.pc.Done?
    {
      ghost var start := run;
      Examine(course[0]);
      NextStep(start, course, 0);
      CutAt(start, course, 1, |course|);
      assert course[..|course|] == course;
      if !course[0].Ok? {
        EndedAt(start, course, 1);
        return Failed;
      }
      if manifest.None? {
        var created := CreateVolume(w, course[1..]);
        return if created then Prepared(w.size, w.generation) else Failed;
      }
      var current := manifest.value;
      if !IdentityOk(current, w) {
        EndedAt(start, course, 1);
        return Failed;
      }
      if tx.Some? && current.applied == w.size && current.generation == w.generation {
        if tx.value.desired != current.applied || tx.value.generation != current.generation {
          EndedAt(start, course, 1);
          return Failed;
        }
        RemoveJournal(course[1]);
        NextStep(start, course, 1);
        EndedAt(start, course, 2);
        if !course[1].Ok? {
          return Failed;
        }
      } else if current.applied == w.size && current.generation == w.generation {
        EndedAt(start, course, 1);
      }
      if current.applied != w.size || current.generation != w.generation {
        if tx.Some? {
          var direction := if w.size < current.applied then Shrink else Grow;
          if tx.value.oldSize != current.applied || tx.value.desired != w.size || tx.value.generation != w.generation
            || tx.value.direction != direction {
            EndedAt(start, course, 1);
            return Failed;
          }
        }
        var resized := Resize(w, course[1..]);
        if !resized {
          return Failed;
        }
        return Prepared(manifest.value.applied, manifest.value.generation);
      }
      return Prepared(current.applied, current.generation);
    }

    /** Preflight of this volume: declaration, retained image and shrink feasibility. */
    method Preflight(w: Want, o: Outcome) returns (ok: bool)
      requires InStep() && run.pc.Admit? && run.want == w
      modifies this
      ensures InStep() && run == Step(old(run), o) && run.want == w && View() == old(View())
      ensures ok ==> Declared(w) && ExistingOk(View(), w)
      ensures ok && manifest.Some? && w.size < manifest.value.applied ==> w.size >= o.Number() + o.Number() / 20
      ensures if ok then run.pc.Dispatch? else run.pc.AtRest() && !run.pc.Done?
    {
      Examine(o);
      if !o.Ok? || !Declared(w) || !ExistingOk(Dir(image, fs, manifest, tx), w) {
        return false;
      }
      return manifest.None? || w.size >= manifest.value.applied || ShrinkFits(w, o.Number());
    }

    /** A call for `w` has ended with `r`. */
    ghost predicate Concluded(before: Sys, w: Want, course: seq<Outcome>, r: Result)
      reads this
    {
      Valid() && Ended(before, w, course, r, run)
    }

    /** The call has been admitted and has not written yet. */
    ghost predicate Admitted(before: Sys, w: Want, o: Outcome)
      reads this
    {
      InStep() && Ready(before, w, o, run)
    }

    /** A call begins and looks at this volume. */
    method Look(w: Want, o: Outcome) returns (ok: bool)
      requires Valid()
      modifies this
      ensures View() == old(View())
      ensures ok <==> Step(Begin(old(run), w), o).pc.Dispatch?
      ensures if ok then Admitted(old(run), w, o) else Valid()
    {
      ghost var before := run;
      run := Begin(run, w);
      ApplyKeepsInv(before, Call(w));
      ok := Preflight(w, o);
    }

    /** The writes of an admitted call. */
    method Carry(w: Want, ghost before: Sys, course: seq<Outcome>) returns (r: Result)
      requires |course| >= 13 && Admitted(before, w, course[0])
      modifies this
      ensures Concluded(before, w, course, r)
    {
      NextStep(Begin(before, w), course, 0);
      CutAt(Begin(before, w), course, 1, |course|);
      assert course[..|course|] == course;
      r := PrepareOne(w, course[1..]);
      ConcludeCall(before, w, course);
    }

    /** The call ends before this volume's turn. */
    ghost method Abandon()
      requires Mirrors()
      modifies this`run
      ensures Mirrors() && run == VolumeMachine.Apply(old(run), Crash)
    {
      run := VolumeMachine.Apply(run, Crash);
    }
  }

  /** A call for `w` on `before` that was admitted stands at its first write. */
  ghost predicate Ready(before: Sys, w: Want, o: Outcome, now: Sys) {
    && now.pc.Dispatch? && now.want == w && now.dir == before.dir && Declared(w) && ExistingOk(before.dir, w)
    && Inv(before) && before.pc.AtRest() && now == Step(Begin(before, w), o)
  }

  /** The call asked the tools for the minimum under the journal, and left 5% above it. */
  ghost predicate Measured(s: Sys, w: Want, course: seq<Outcome>) {
    exists i :: 0 <= i < |course| && course[i].Ok? && Steps(s, course[..i]).pc.Inspect?
      && w.size >= course[i].n + course[i].n / 20
  }

  /** What a call for `w` that ended with `r` has made of what it found. */
  ghost predicate Ended(before: Sys, w: Want, course: seq<Outcome>, r: Result, now: Sys) {
    var d := now.dir;
    && now == Steps(Begin(before, w), course) && (r.Prepared? <==> now.pc.Done?)
    && (r.Prepared? ==>
          && r == Prepared(w.size, w.generation) && Acceptable(before.dir, w)
          && d.manifest == Some(Manifest(Local, w.node, w.size, w.generation)) && d.tx.None?
          && d.image == Some(w.size) && d.fs.Some? && d.fs.value <= w.size
          && now.commits != [] && now.commits[|now.commits| - 1] == CommitRecord(w.size, w.generation))
    && (r.Prepared? && before.dir.manifest.Some? && w.size < before.dir.manifest.value.applied ==>
          Measured(Begin(before, w), w, course))
    && (!Acceptable(before.dir, w) ==> d == before.dir)
    && (Acceptable(before.dir, w) && before.dir.manifest.Some? ==> d.manifest.Some? && Acceptable(d, w))
    && (d.manifest == before.dir.manifest || (d.manifest.Some? && d.manifest.value.applied == w.size))
    && now.formats <= 1 && (before.dir.manifest.Some? ==> now.formats == before.formats)
  }

  /** What the course of a call implies for its end. */
  lemma ConcludeCall(before: Sys, w: Want, course: seq<Outcome>)
    requires Inv(before) && before.pc.AtRest()
    ensures var t := Steps(Begin(before, w), course);
            && (t.pc.Done? ==>
                t.dir.manifest.Some? && t.dir.manifest.value.boundNode == w.node && Acceptable(before.dir, w))
            && (t.pc.Done? && before.dir.manifest.Some? && w.size < before.dir.manifest.value.applied ==>
                Measured(Begin(before, w), w, course))
            && (!Acceptable(before.dir, w) ==> t.dir == before.dir)
            && (Acceptable(before.dir, w) && before.dir.manifest.Some? ==> t.dir.manifest.Some? && Acceptable(t.dir, w))
            && (t.dir.manifest == before.dir.manifest
                || (t.dir.manifest.Some? && t.dir.manifest.value.applied == w.size))
  {
    DoneKeepsOwner(before, w, course);
    ManifestIsOldOrNew(Begin(before, w), course);
    var t := Steps(Begin(before, w), course);
    if t.pc.Done? && before.dir.manifest.Some? && w.size < before.dir.manifest.value.applied {
      var i := ShrinkIsMeasured(Begin(before, w), course);
    }
    if !Acceptable(before.dir, w) {
      UnacceptableIsRefused(before, w, course);
    } else if before.dir.manifest.Some? {
      StepsStayResumable(Begin(before, w), course);
    }
  }

  /** A call writes no manifest but one of the size it was asked for. */
  lemma {:induction false} ManifestIsOldOrNew(s: Sys, outcomes: seq<Outcome>)
    ensures Steps(s, outcomes).want == s.want
    ensures var m := Steps(s, outcomes).dir.manifest; m == s.dir.manifest || (m.Some? && m.value.applied == s.want.size)
    decreases |outcomes|
  {
    if outcomes != [] {
      ManifestIsOldOrNew(Step(s, outcomes[0]), outcomes[1..]);
    }
  }

  /** A finished call leaves the manifest under the caller's node. */
  lemma DoneKeepsOwner(before: Sys, w: Want, outcomes: seq<Outcome>)
    requires Inv(before) && before.pc.AtRest()
    ensures var t := Steps(Begin(before, w), outcomes);
            t.pc.Done? ==> t.dir.manifest.Some? && t.dir.manifest.value.boundNode == w.node
  {
    if Acceptable(before.dir, w) {
      StepsKeepOwner(Begin(before, w), outcomes);
    } else {
      UnacceptableIsRefused(before, w, outcomes);
    }
    StepsKeepInv(Begin(before, w), outcomes);
  }
}
