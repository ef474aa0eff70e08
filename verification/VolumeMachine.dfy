/** One volume directory on a host: image file, ext4 inside it, manifest and resize
    journal. `Prepare` on it is a sequence of atomic writes and commands; the process may
    die, or a step may fail, before or after any of them, and the next call may ask for
    anything. */
module VolumeMachine {
  import opened Types

  datatype Direction = Grow | Shrink

  datatype Phase = Checking | FileExtended | FilesystemShrinking | FilesystemShrunk

  datatype Manifest = Manifest(vtype: VolumeType, boundNode: string, applied: int, generation: int)

  datatype Tx = Tx(oldSize: int, desired: int, generation: int, direction: Direction, phase: Phase)

  /** `image` is the file size F, `fs` the ext4 size S inside it. */
  datatype Dir = Dir(image: Option<int>, fs: Option<int>, manifest: Option<Manifest>, tx: Option<Tx>)

  const EMPTY_DIR := Dir(None, None, None, None)

  /** What a call asks for on node `node`. */
  datatype Want = Want(size: int, generation: int, vtype: VolumeType, boundNode: string, node: string)

  /** The next write or command of the call in progress. */
  datatype Pc =
    | Rest                     // no call yet, or the process died
    | Refused                  // the call returned an error
    | Done(size: int, generation: int)
    | Admit                    // Preflight of this volume
    | Dispatch                 // prepareOne reads manifest and journal
    | CreateImage | SizeImage | Format | CommitNew
    | DropStale
    | Journal | Check | Inspect
    | MarkExtended | Extend | GrowFs
    | MarkShrinking | ShrinkFs | MarkShrunk | Cut
    | Recheck | Commit | ClearJournal
  {
    predicate AtRest() {
      Rest? || Refused? || Done?
    }
  }

  datatype CommitRecord = CommitRecord(size: int, generation: int)

  /** A directory with the call running on it. `born` is the directory when the call began;
      `formats` counts mkfs runs and `commits` lists the manifests ever written. */
  datatype Sys = Sys(dir: Dir, pc: Pc, want: Want, born: Dir, formats: nat, commits: seq<CommitRecord>)

  /** How a step went: done, not done, or done but reported (or survived) as a failure. `n`
      is the number the command settles on: a filesystem size, or the minimum size found. */
  datatype Outcome = Ok(n: nat) | NotDone | DoneThenFailed(n: nat)
  {
    predicate Happened() {
      match this case NotDone => false case _ => true
    }

    function Number(): nat {
      match this case Ok(n) => n case DoneThenFailed(n) => n case NotDone => 0
    }
  }

  datatype Event = Call(want: Want) | Tick(outcome: Outcome) | Crash

  function Min(a: int, b: int): int {
    if a < b then a else b
  }

  function DirectionOf(applied: int, size: int): Direction {
    if size < applied then Shrink else Grow
  }

  function JournalFor(d: Dir, w: Want, phase: Phase): Tx
    requires d.manifest.Some?
  {
    Tx(d.manifest.value.applied, w.size, w.generation, DirectionOf(d.manifest.value.applied, w.size), phase)
  }

  /** verifyManifest for a local volume. */
  predicate IdentityOk(m: Manifest, w: Want) {
    m.vtype == w.vtype && (w.vtype == Local ==> m.boundNode == w.node && w.boundNode == w.node)
  }

  /** The declaration checks of Preflight that concern one local volume. */
  predicate Declared(w: Want) {
    w.size > 0 && w.vtype == Local && w.boundNode != "" && w.boundNode == w.node
  }

  /** validateExisting */
  predicate ExistingOk(d: Dir, w: Want) {
    match d.manifest
    case None => d.image.None?
    case Some(m) =>
      && IdentityOk(m, w)
      && d.image.Some?
      && (d.image.value < m.applied ==>
            && d.tx.Some?
            && d.tx.value.direction == Shrink
            && d.tx.value.oldSize == m.applied
            && d.tx.value.desired == w.size
            && d.tx.value.generation == w.generation
            && d.image.value == d.tx.value.desired)
  }

  /** inspectShrinkMinimum: 5% headroom above the reported minimum of `n` bytes. */
  predicate ShrinkFits(w: Want, n: nat) {
    w.size >= n + n / 20
  }

  /** Preflight of one volume; `n` is the minimum size the tools report, if asked. */
  predicate Admitted(d: Dir, w: Want, n: nat) {
    Declared(w) && ExistingOk(d, w) && (d.manifest.Some? && w.size < d.manifest.value.applied ==> ShrinkFits(w, n))
  }

  /** prepareOne up to its first write. */
  function FirstStep(d: Dir, w: Want): Pc {
    match d.manifest
    case None => CreateImage
    case Some(m) =>
      if !IdentityOk(m, w) then Refused
      else if m.applied == w.size && m.generation == w.generation then
        match d.tx
        case None => Done(m.applied, m.generation)
        case Some(t) => if t.desired != m.applied || t.generation != m.generation then Refused else DropStale
      else
        match d.tx
        case None => Journal
        case Some(t) =>
          if t.oldSize != m.applied || t.desired != w.size || t.generation != w.generation
            || t.direction != DirectionOf(m.applied, w.size)
          then Refused else Journal
  }

  /** The step after the current one, if that went well. */
  function NextPc(s: Sys, n: nat): Pc {
    match s.pc
    case Admit => if Admitted(s.dir, s.want, n) then Dispatch else Refused
    case Dispatch => FirstStep(s.dir, s.want)
    case CreateImage => if s.dir.image.Some? then Refused else SizeImage
    case SizeImage => Format
    case Format => CommitNew
    case CommitNew => Done(s.want.size, s.want.generation)
    case DropStale => Done(s.want.size, s.want.generation)
    case Journal => Check
    case Check => if Shrinks(s) then Inspect else MarkExtended
    case Inspect => if ShrinkFits(s.want, n) then MarkShrinking else Refused
    case MarkExtended => Extend
    case Extend => GrowFs
    case GrowFs => Recheck
    case MarkShrinking => ShrinkFs
    case ShrinkFs => MarkShrunk
    case MarkShrunk => Cut
    case Cut => Recheck
    case Recheck => Commit
    case Commit => ClearJournal
    case ClearJournal => Done(s.want.size, s.want.generation)
    case _ => s.pc
  }

  predicate Shrinks(s: Sys) {
    s.dir.manifest.Some? && DirectionOf(s.dir.manifest.value.applied, s.want.size) == Shrink
  }

  /** What the current step does to the directory. */
  function Effect(s: Sys, n: nat): Dir {
    var d, w := s.dir, s.want;
    match s.pc
    case CreateImage => if d.image.Some? then d else d.(image := Some(0))
    case SizeImage => d.(image := Some(w.size))
    case Format => if d.image.Some? then d.(fs := Some(Min(n, d.image.value))) else d
    case CommitNew => d.(manifest := Some(Manifest(w.vtype, w.node, w.size, w.generation)))
    case Commit => if d.manifest.Some?
      then d.(manifest := Some(d.manifest.value.(applied := w.size, generation := w.generation))) else d
    case DropStale => d.(tx := None)
    case ClearJournal => d.(tx := None)
    case Journal => if d.manifest.Some? then d.(tx := Some(JournalFor(d, w, Checking))) else d
    case MarkExtended => if d.manifest.Some? then d.(tx := Some(JournalFor(d, w, FileExtended))) else d
    case MarkShrinking => if d.manifest.Some? then d.(tx := Some(JournalFor(d, w, FilesystemShrinking))) else d
    case MarkShrunk => if d.manifest.Some? then d.(tx := Some(JournalFor(d, w, FilesystemShrunk))) else d
    case Extend => d.(image := Some(w.size))
    case Cut => d.(image := Some(w.size))
    case GrowFs => if d.image.Some? then d.(fs := Some(Min(n, d.image.value))) else d
    case ShrinkFs => d.(fs := Some(Min(n, w.size / 1024 * 1024)))
    case _ => d
  }

  function Perform(s: Sys, n: nat): Sys {
    s.(dir := Effect(s, n),
       pc := NextPc(s, n),
       formats := if s.pc.Format? then s.formats + 1 else s.formats,
       commits := if s.pc.CommitNew?
         || s.pc.Commit? then s.commits + [CommitRecord(s.want.size, s.want.generation)] else s.commits)
  }

  function Step(s: Sys, o: Outcome): Sys {
    if s.pc.AtRest() then s
    else
      match o
      case Ok(n) => Perform(s, n)
      case NotDone => s.(pc := Refused)
      case DoneThenFailed(n) => Perform(s, n).(pc := Refused)
  }

  function Begin(s: Sys, w: Want): Sys {
    s.(pc := Admit, want := w, born := s.dir)
  }

  function Apply(s: Sys, e: Event): Sys {
    match e
    case Call(w) => if s.pc.AtRest() then Begin(s, w) else s
    case Tick(o) => Step(s, o)
    case Crash => s.(pc := Rest)
  }

  function Exec(s: Sys, events: seq<Event>): Sys
    decreases |events|
  {
    if events == [] then s else Exec(Apply(s, events[0]), events[1..])
  }

  function Steps(s: Sys, outcomes: seq<Outcome>): Sys
    decreases |outcomes|
  {
    if outcomes == [] then s else Steps(Step(s, outcomes[0]), outcomes[1..])
  }

  const NOBODY := Want(0, 0, Local, "", "")

  const FRESH := Sys(EMPTY_DIR, Rest, NOBODY, EMPTY_DIR, 0, [])

  // ------------------------------------------------------------------ invariant

  /** Between steps, whatever was interrupted. */
  ghost predicate DirOk(d: Dir) {
    && (d.fs.Some? ==> d.image.Some? && d.fs.value <= d.image.value)
    && (d.manifest.None? ==> d.tx.None?)
    && (d.manifest.Some? ==>
          var m := d.manifest.value;
          && d.image.Some? && d.fs.Some? && m.applied > 0 && m.vtype == Local
          && match d.tx
             case None => d.image.value == m.applied
             case Some(t) =>
               && t.desired > 0
               && if t.desired == m.applied && t.generation == m.generation then d.image.value == m.applied
                  else
                    && t.oldSize == m.applied && t.direction == DirectionOf(m.applied, t.desired)
                    && (d.image.value == m.applied || d.image.value == t.desired))
  }

  /** A resize to `w` is under way: the journal names it and the manifest is still the old one. */
  ghost predicate Resizing(d: Dir, w: Want) {
    && d.manifest.Some? && d.tx.Some?
    && (d.manifest.value.applied != w.size || d.manifest.value.generation != w.generation)
    && d.tx.value == JournalFor(d, w, d.tx.value.phase)
  }

  ghost predicate PcOk(s: Sys) {
    var d, w := s.dir, s.want;
    && (!s.pc.AtRest() && !s.pc.Admit? ==> Declared(w))
    && match s.pc
       case Rest | Refused => true
       case Admit | Dispatch => d == s.born
       case Done(size, g) => d.manifest.Some? && d.tx.None? && size == d.manifest.value.applied
         && g == d.manifest.value.generation
       case CreateImage => d.manifest.None? && d == s.born
       case SizeImage => d.manifest.None? && d.fs.None? && d.image.Some? && s.born.image.None?
       case Format => d.manifest.None? && d.fs.None? && d.image == Some(w.size) && s.born.image.None?
       case CommitNew => d.manifest.None? && d.fs.Some? && d.image == Some(w.size)
       case DropStale => FirstStep(d, w) == DropStale
       case Journal => FirstStep(d, w) == Journal
       case Check | Inspect => Resizing(d, w) && (s.pc.Inspect? ==> Shrinks(s))
       case MarkExtended | Extend => Resizing(d, w) && !Shrinks(s)
       case GrowFs => Resizing(d, w) && !Shrinks(s) && d.image == Some(w.size)
       case MarkShrinking | ShrinkFs => Resizing(d, w) && Shrinks(s)
       case MarkShrunk | Cut => Resizing(d, w) && Shrinks(s) && d.fs.Some? && d.fs.value <= w.size
       case Recheck | Commit => Resizing(d, w) && d.image == Some(w.size)
       case ClearJournal =>
         && d.manifest.Some? && d.manifest.value.applied == w.size && d.manifest.value.generation == w.generation
         && d.image == Some(w.size)
  }

  ghost predicate HistoryOk(s: Sys) {
    && s.formats == (if s.dir.fs.Some? then 1 else 0)
    && (s.dir.manifest.Some? ==>
          s.commits != []
            && s.commits[|s.commits| - 1] ==
                 CommitRecord(s.dir.manifest.value.applied, s.dir.manifest.value.generation))
  }

  ghost predicate Inv(s: Sys) {
    DirOk(s.dir) && PcOk(s) && HistoryOk(s)
  }

  lemma EffectKeepsDir(s: Sys, n: nat)
    requires DirOk(s.dir) && PcOk(s) && !s.pc.AtRest()
    ensures DirOk(Effect(s, n))
  {
  }

  lemma PerformKeepsPc(s: Sys, n: nat)
    requires DirOk(s.dir) && PcOk(s) && !s.pc.AtRest()
    ensures PcOk(Perform(s, n))
  {
  }

  lemma PerformKeepsHistory(s: Sys, n: nat)
    requires Inv(s) && !s.pc.AtRest()
    ensures HistoryOk(Perform(s, n))
  {
  }

  lemma PerformKeepsInv(s: Sys, n: nat)
    requires Inv(s) && !s.pc.AtRest()
    ensures Inv(Perform(s, n))
    ensures Inv(Perform(s, n).(pc := Refused))
  {
    EffectKeepsDir(s, n);
    PerformKeepsPc(s, n);
    PerformKeepsHistory(s, n);
  }

  lemma ApplyKeepsInv(s: Sys, e: Event)
    requires Inv(s)
    ensures Inv(Apply(s, e))
  {
    if e.Tick? && !s.pc.AtRest() && !e.outcome.NotDone? {
      PerformKeepsInv(s, e.outcome.n);
    }
  }

  lemma {:induction false} ExecKeepsInv(s: Sys, events: seq<Event>)
    requires Inv(s)
    ensures Inv(Exec(s, events))
    decreases |events|
  {
    if events != [] {
      ApplyKeepsInv(s, events[0]);
      ExecKeepsInv(Apply(s, events[0]), events[1..]);
    }
  }
}
