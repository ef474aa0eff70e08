/** The watched route directory: documents are staged, renamed into place, and only then are
    stale files removed. Any single file operation may fail. */
module RouteDir {
  import opened Types
  import opened Ordering
  import opened Routes

  type Files = map<string, Route>

  /** Every file is as it was or as it should be. */
  ghost predicate WhollyOldOrNew(old': Files, files: Files, desired: Files) {
    && (forall n :: n in files ==> (n in old' && files[n] == old'[n]) || (n in desired && files[n] == desired[n]))
    && (forall n :: n in old' && n !in files ==> AllRenamed(files, desired))
    && (forall n :: n in old' && n !in files ==> n !in desired && IsRouteFile(n))
  }

  ghost predicate AllRenamed(files: Files, desired: Files) {
    forall n :: n in desired ==> n in files && files[n] == desired[n]
  }

  /** What a completed apply leaves. */
  ghost predicate Synced(old': Files, files: Files, desired: Files, preserveRemotes: bool) {
    forall n ::
      if n in desired then n in files && files[n] == desired[n]
      else if IsRouteFile(n) && !(preserveRemotes && IsRemoteFile(n)) then n !in files
      else (n in files <==> n in old') && (n in files ==> files[n] == old'[n])
  }

  /** Files that are no routes are never touched, and with `remotes` no peer's route goes. */
  ghost predicate Spares(old': Files, files: Files, remotes: bool) {
    && (forall n :: |n| < 5 || n[|n| - 5..] != ".yaml" ==>
          (n in files <==> n in old') && (n in files ==> files[n] == old'[n]))
    && (remotes ==> forall n :: n in old' && "remote-" <= n ==> n in files)
  }

  predicate Stale(n: string, desired: Files, preserveRemotes: bool) {
    IsRouteFile(n) && n !in desired && !(preserveRemotes && IsRemoteFile(n))
  }

  /** Taking stale files away from a directory in which all desired ones are in place. */
  lemma StaleRemoved(before: Files, listed: Files, files: Files, desired: Files, preserveRemotes: bool)
    requires AllRenamed(listed, desired) && WhollyOldOrNew(before, listed, desired)
    requires forall n :: n !in desired ==> (n in listed <==> n in before)
    requires forall n :: n in files ==> n in listed && files[n] == listed[n]
    requires forall n :: n in listed && n !in files ==> Stale(n, desired, preserveRemotes)
    ensures WhollyOldOrNew(before, files, desired) && AllRenamed(files, desired)
    ensures preserveRemotes ==> forall n :: n in before && IsRemoteFile(n) ==> n in files
    ensures (forall n :: n in files ==> !Stale(n, desired, preserveRemotes)) ==>
              Synced(before, files, desired, preserveRemotes)
  {
    assert AllRenamed(files, desired);
    if forall n :: n in files ==> !Stale(n, desired, preserveRemotes) {
      forall n ensures
        if n in desired then n in files && files[n] == desired[n]
        else if IsRouteFile(n) && !(preserveRemotes && IsRemoteFile(n)) then n !in files
        else (n in files <==> n in before) && (n in files ==> files[n] == before[n])
      {
        assert n in files ==> !Stale(n, desired, preserveRemotes);
      }
    }
  }

  class Directory {
    var files: Files
    var stage: Files

    /** `failAt` counts down the file operations; the one that finds it at zero fails. */
    var failAt: int

    constructor (present: Files, fuse: int)
      ensures files == present && stage == map[] && failAt == fuse
    {
      files, stage, failAt := present, map[], fuse;
    }

    method Operation() returns (ok: bool)
      modifies this`failAt
      ensures old(failAt) < 0 ==> ok && failAt < 0
    {
      ok := failAt != 0;
      failAt := failAt - 1;
    }

    /** Writes every document to the staging directory. */
    method StageAll(desired: Files) returns (ok: bool)
      modifies this`stage, this`failAt
      ensures ok ==> forall n :: n in desired ==> n in stage && stage[n] == desired[n]
      ensures old(failAt) < 0 ==> ok && failAt < 0
    {
      var todo := desired.Keys;
      while todo != {}
        invariant todo <= desired.Keys && (old(failAt) < 0 ==> failAt < 0)
        invariant forall n :: n in desired && n !in todo ==> n in stage && stage[n] == desired[n]
        decreases |todo|
      {
        var n :| n in todo;
        ok := Operation();
        if !ok {
          return;
        }
        stage := stage[n := desired[n]];
        todo := todo - {n};
      }
      return true;
    }

    /** Renames every staged document into place. */
    method RenameAll(desired: Files) returns (ok: bool)
      requires forall n :: n in desired ==> n in stage && stage[n] == desired[n]
      modifies this
      ensures forall n :: n in old(files) ==> n in files
      ensures WhollyOldOrNew(old(files), files, desired)
      ensures ok ==> AllRenamed(files, desired) && forall n :: n !in desired ==> (n in files <==> n in old(files))
      ensures old(failAt) < 0 ==> ok && failAt < 0
    {
      var todo := desired.Keys;
      while todo != {}
        invariant todo <= desired.Keys && (old(failAt) < 0 ==> failAt < 0)
        invariant forall n :: n in todo ==> n in stage && stage[n] == desired[n]
        invariant forall n :: n in desired && n !in todo ==> n in files && files[n] == desired[n]
        invariant forall n :: n in old(files) ==> n in files
        invariant forall n :: n in files ==>
                    (n in old(files) && files[n] == old(files)[n]) || (n in desired && files[n] == desired[n])
        decreases |todo|
      {
        var n :| n in todo;
        ok := Operation();
        if !ok {
          return;
        }
        files, stage := files[n := stage[n]], stage - {n};
        todo := todo - {n};
      }
      return true;
    }

    /** Removes route files nobody wants. */
    method RemoveStale(desired: Files, preserveRemotes: bool, ghost before: Files) returns (ok: bool)
      requires AllRenamed(files, desired) && WhollyOldOrNew(before, files, desired)
      requires forall n :: n !in desired ==> (n in files <==> n in before)
      modifies this`files, this`failAt
      ensures WhollyOldOrNew(before, files, desired) && AllRenamed(files, desired)
      ensures preserveRemotes ==> forall n :: n in before && IsRemoteFile(n) ==> n in files
      ensures ok ==> Synced(before, files, desired, preserveRemotes)
      ensures old(failAt) < 0 ==> ok
    {
      var todo := files.Keys;
      ghost var listed := files;
      while todo != {}
        invariant todo <= files.Keys && (old(failAt) < 0 ==> failAt < 0)
        invariant forall n :: n in files ==> n in listed && files[n] == listed[n]
        invariant forall n :: n in listed && n !in files ==> Stale(n, desired, preserveRemotes)
        invariant forall n :: n in files && n !in todo ==> !Stale(n, desired, preserveRemotes)
        decreases |todo|
      {
        var n :| n in todo;
        todo := todo - {n};
        if Stale(n, desired, preserveRemotes) {
          ok := Operation();
          if !ok {
            StaleRemoved(before, listed, files, desired, preserveRemotes);
            return;
          }
          files := files - {n};
        }
      }
      StaleRemoved(before, listed, files, desired, preserveRemotes);
      return true;
    }

    /** apply: a failure at any point leaves every file wholly old or wholly new, and nothing
        is deleted before every desired file is in place. */
    method ApplyRoutes(desired: Files, preserveRemotes: bool) returns (ok: bool)
      requires forall n :: n in desired ==> IsRouteFile(n)
      modifies this
      ensures WhollyOldOrNew(old(files), files, desired) && Spares(old(files), files, preserveRemotes)
      ensures ok ==> Synced(old(files), files, desired, preserveRemotes)
      ensures old(failAt) < 0 ==> ok
      ensures stage == map[]
    {
      ok := StageAll(desired);
      if ok {
        ok := RenameAll(desired);
        if ok {
          ok := RemoveStale(desired, preserveRemotes, old(files));
        }
      }
      stage := map[];
    }

    /** Sync: local routes are strict and touch nothing when they are wrong. */
    method Sync(services: seq<Service>, peers: seq<Peer>) returns (ok: bool)
      modifies this
      ensures RenderLocal(services).Some? <==> Clean(services)
      ensures !Clean(services) ==> !ok && files == old(files)
      ensures Clean(services) ==>
        var desired := Render(services, peers).value.files;
        && WhollyOldOrNew(old(files), files, desired) && Spares(old(files), files, false)
        && (old(failAt) < 0 ==> ok)
        && (ok ==> Synced(old(files), files, desired, false) && HostNamesApart(files))
    {
      RenderLocalMeaning(services);
      var rendered := Render(services, peers);
      if rendered.None? {
        return false;
      }
      OneFilePerHostName(services, peers);
      ok := ApplyRoutes(rendered.value.files, false);
    }

    /** SyncLocal: keeps every remote file, whatever it routes. */
    method SyncLocal(services: seq<Service>) returns (ok: bool)
      modifies this
      ensures RenderLocal(services).Some? <==> Clean(services)
      ensures !Clean(services) ==> !ok && files == old(files)
      ensures Clean(services) ==>
        var desired := RenderLocal(services).value.files;
        && WhollyOldOrNew(old(files), files, desired) && Spares(old(files), files, true)
        && (old(failAt) < 0 ==> ok)
        && (ok ==> Synced(old(files), files, desired, true))
    {
      RenderLocalMeaning(services);
      var rendered := RenderLocal(services);
      if rendered.None? {
        return false;
      }
      LocalIsSound(services);
      ok := ApplyRoutes(rendered.value.files, true);
    }
  }

  /** No two route files serve the same hostname. */
  ghost predicate HostNamesApart(files: Files) {
    forall f, g :: f in files && g in files && IsRouteFile(f) && IsRouteFile(g) && files[f].host == files[g].host ==>
      f == g
  }

  /** After a local sync hostnames are still in one file each exactly when no preserved remote
      file routes a hostname that a local service now claims. */
  lemma LocalSyncKeepsHostNamesApart(old': Files, files: Files, services: seq<Service>)
    requires Clean(services) && HostNamesApart(old') && RenderLocal(services).Some?
    requires Synced(old', files, RenderLocal(services).value.files, true)
    ensures var desired := RenderLocal(services).value.files;
            HostNamesApart(files) <==>
              forall n, f :: n in old' && n !in desired && IsRouteFile(n) && IsRemoteFile(n) && f in desired ==>
                old'[n].host != desired[f].host
  {
    LocalIsSound(services);
    var desired := RenderLocal(services).value.files;
    forall n, f | n in old' && n !in desired && IsRouteFile(n) && IsRemoteFile(n) && f in desired
      && old'[n].host == desired[f].host
      ensures !HostNamesApart(files)
    {
      assert n in files && f in files && files[n].host == files[f].host && n != f;
    }
    forall f | f in files && IsRouteFile(f)
      ensures (f in desired && files[f] == desired[f])
              || (f in old' && f !in desired && IsRemoteFile(f) && files[f] == old'[f])
    {
      assert f in desired || IsRemoteFile(f);
    }
  }

  /** It happens: the service of a preserved remote file has moved here under a new name. */
  lemma LocalSyncCanShareHostName(host: string, address: string)
    requires address != ""
    ensures var before := map[RemoteFileName("web") := Route("web", host, "10.0.0.2", 80)];
            var services := [Service("site", Host(host), address, [PortForward(80, 8080)], 0)];
            && Clean(services) && RenderLocal(services).Some? && HostNamesApart(before)
            && exists files :: Synced(before, files, RenderLocal(services).value.files, true) && !HostNamesApart(files)
  {
    var before := map[RemoteFileName("web") := Route("web", host, "10.0.0.2", 80)];
    var s := Service("site", Host(host), address, [PortForward(80, 8080)], 0);
    var services := [s];
    assert services[..|services| - 1] == [];
    assert RenderLocal([]) == Some(Rendered(map[], map[]));
    RenderLocalMeaning(services);
    var desired := RenderLocal(services).value.files;
    assert desired == map[FileName("site") := Route("site", host, address, 8080)];
    FileNamesAreRouteFiles("site");
    FileNamesAreRouteFiles("web");
    assert RemoteFileName("web")[0] == 'r' && FileName("site")[0] == 's';
    var files := before + desired;
    assert Synced(before, files, desired, true);
    LocalSyncKeepsHostNamesApart(before, files, services);
    assert RemoteFileName("web") in before && FileName("site") in desired;
  }
}
