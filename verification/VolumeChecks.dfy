/** The checks that the enricher, the agent and the guest's init make on a service's volumes.
    `clean` stands for "absolute, and unchanged by path cleaning", which all three use alike. */
module VolumeChecks {
  import opened Types
  import opened Ordering
  import opened VolumeOrder
  import opened VolumeSpecs

  const MAX_VOLUMES := 25
  const RESERVED := ["/proc", "/sys", "/dev", "/run", "/tmp"]

  predicate Lower(c: char) {
    'a' <= c <= 'z' || '0' <= c <= '9'
  }

  /** volumeNamePattern of the enricher. */
  predicate LabelName(n: string) {
    && 1 <= |n| <= 63 && Lower(n[0]) && Lower(n[|n| - 1])
    && forall i :: 0 <= i < |n| ==> Lower(n[i]) || n[i] == '-'
  }

  predicate Alphanumeric(c: char) {
    'a' <= c <= 'z' || 'A' <= c <= 'Z' || '0' <= c <= '9'
  }

  /** componentPattern of the agent, without "..". */
  predicate ComponentName(n: string) {
    && |n| > 0 && Alphanumeric(n[0])
    && (forall i :: 0 <= i < |n| ==> Alphanumeric(n[i]) || n[i] == '.' || n[i] == '_' || n[i] == '-')
    && forall i :: 0 <= i < |n| - 1 ==> !(n[i] == '.' && n[i + 1] == '.')
  }

  /** `child` is strictly inside `parent`. */
  predicate Inside(parent: string, child: string) {
    parent + "/" <= child
  }

  predicate Forbidden(path: string) {
    exists i :: 0 <= i < |RESERVED| && (path == RESERVED[i] || Inside(RESERVED[i], path))
  }

  predicate Overlap(a: string, b: string) {
    a == b || Inside(a, b) || Inside(b, a)
  }

  ghost predicate PathsApart(vs: seq<VolumeConfig>) {
    forall i, j :: 0 <= i < j < |vs| ==> !Overlap(vs[i].mountPath, vs[j].mountPath)
  }

  // ------------------------------------------------------------------- the three checks

  function Declared(specs: seq<VolumeSpec>): seq<VolumeConfig> {
    Images((spec: VolumeSpec) => spec.declared, specs)
  }

  /** validateVolumes of the enricher finds nothing to object to. */
  ghost predicate EnricherAccepts(specs: seq<VolumeSpec>, clean: string -> bool) {
    && |specs| <= MAX_VOLUMES && DistinctIn(Declared(specs)) && PathsApart(Declared(specs))
    && forall spec :: spec in specs ==> DeclaredWell(spec, clean)
  }

  predicate SystemOwned(v: VolumeConfig) {
    v.boundNode != "" || v.sharedBackendId != "" || v.sizeBytes != 0 || v.resizeGeneration != 0
  }

  ghost predicate DeclaredWell(spec: VolumeSpec, clean: string -> bool) {
    var v := spec.declared;
    && LabelName(v.name) && !v.vtype.Unknown? && !SystemOwned(v)
    && clean(v.mountPath) && v.mountPath != "/" && !Inside("/", v.mountPath) && !Forbidden(v.mountPath)
    && (spec.size != "" ==> ParseVolumeSize(spec.size).Some?)
  }

  /** What validateServiceVolumes of the agent accepts. */
  ghost predicate AgentAccepts(vs: seq<VolumeConfig>, clean: string -> bool) {
    && |vs| <= MAX_VOLUMES && DistinctIn(vs) && PathsApart(vs)
    && forall v :: v in vs ==> PreparableVolume(v, clean)
  }

  datatype GuestVolume = GuestVolume(name: string, device: string, mountPath: string, vtype: VolumeType)

  datatype Payload = Payload(version: int, volumes: seq<GuestVolume>)

  const VERSION := 1

  predicate ValidDevice(d: string) {
    |d| == 8 && "/dev/vd" <= d && 'b' <= d[7] <= 'z'
  }

  /** validateGuestVolume */
  predicate ValidGuestVolume(v: GuestVolume, clean: string -> bool) {
    && v.name != "" && ValidDevice(v.device)
    && clean(v.mountPath) && v.mountPath != "/" && !Forbidden(v.mountPath)
    && !v.vtype.Unknown?
  }

  /** What the checking loop of parseVolumePayload accepts. */
  ghost predicate GuestAccepts(vs: seq<GuestVolume>, clean: string -> bool) {
    && (forall v :: v in vs ==> ValidGuestVolume(v, clean))
    && forall i, j :: 0 <= i < j < |vs| ==> vs[i].device != vs[j].device && vs[i].mountPath != vs[j].mountPath
  }

  method MeetsNone(paths: seq<string>, path: string) returns (ok: bool)
    ensures ok <==> forall k :: 0 <= k < |paths| ==> !Overlap(paths[k], path)
  {
    for j := 0 to |paths|
      invariant forall k :: 0 <= k < j ==> !Overlap(paths[k], path)
    {
      if paths[j] == path || Inside(path, paths[j]) || Inside(paths[j], path) {
        return false;
      }
    }
    return true;
  }

  lemma AcceptedSoFar(vs: seq<VolumeConfig>, i: nat)
    requires i < |vs|
    ensures DistinctIn(vs[..i + 1]) <==> DistinctIn(vs[..i]) && forall k :: 0 <= k < i ==> vs[k].name != vs[i].name
    ensures PathsApart(vs[..i + 1]) <==> PathsApart(vs[..i]) && forall k :: 0 <= k < i ==>
              !Overlap(vs[k].mountPath, vs[i].mountPath)
  {
    var before, after := vs[..i], vs[..i + 1];
    assert forall k :: 0 <= k < i ==> before[k] == after[k] == vs[k];
    assert after[i] == vs[i];
    if DistinctIn(after) {
      forall j, k | 0 <= j < k < i ensures before[j].name != before[k].name {
        assert after[j].name != after[k].name;
      }
    }
    if PathsApart(after) {
      forall j, k | 0 <= j < k < i ensures !Overlap(before[j].mountPath, before[k].mountPath) {
        assert !Overlap(after[j].mountPath, after[k].mountPath);
      }
      forall k | 0 <= k < i ensures !Overlap(vs[k].mountPath, vs[i].mountPath) {
        assert !Overlap(after[k].mountPath, after[i].mountPath);
      }
    }
  }

  /** The names and paths of the first `i` volumes. */
  ghost predicate Seen(vs: seq<VolumeConfig>, i: nat, names: set<string>, paths: seq<string>)
    requires i <= |vs|
  {
    && (forall n :: n in names <==> exists k :: 0 <= k < i && vs[k].name == n)
    && |paths| == i && forall k :: 0 <= k < i ==> paths[k] == vs[k].mountPath
  }

  ghost predicate Distinguished(vs: seq<VolumeConfig>) {
    DistinctIn(vs) && PathsApart(vs)
  }

  ghost predicate Newcomer(v: VolumeConfig, names: set<string>, paths: seq<string>) {
    v.name !in names && forall k :: 0 <= k < |paths| ==> !Overlap(paths[k], v.mountPath)
  }

  lemma OneMoreSeen(vs: seq<VolumeConfig>, i: nat, names: set<string>, paths: seq<string>)
    requires i < |vs| && Seen(vs, i, names, paths)
    ensures Seen(vs, i + 1, names + {vs[i].name}, paths + [vs[i].mountPath])
    ensures Distinguished(vs[..i + 1]) <==> Distinguished(vs[..i]) && Newcomer(vs[i], names, paths)
  {
    AcceptedSoFar(vs, i);
    assert (forall k :: 0 <= k < i ==> !Overlap(vs[k].mountPath, vs[i].mountPath)) <==>
           forall k :: 0 <= k < |paths| ==> !Overlap(paths[k], vs[i].mountPath);
  }

  ghost predicate Unobjectionable(specs: seq<VolumeSpec>, i: nat, clean: string -> bool)
    requires i <= |specs|
  {
    Distinguished(Declared(specs)[..i]) && forall k :: 0 <= k < i ==> DeclaredWell(specs[k], clean)
  }

  /** One turn of the loop of validateVolumes. */
  method ObjectionsTo(spec: VolumeSpec, names: set<string>, paths: seq<string>, clean: string -> bool)
    returns (objections: nat)
    ensures objections == 0 <==>
            DeclaredWell(spec, clean) && Newcomer(spec.declared, names, paths)
  {
    objections := 0;
    var v := spec.declared;
    if !LabelName(v.name) {
      objections := objections + 1;
    }
    if v.name in names {
      objections := objections + 1;
    }
    if v.vtype.Unknown? {
      objections := objections + 1;
    }
    if SystemOwned(v) {
      objections := objections + 1;
    }
    if !clean(v.mountPath) {
      objections := objections + 1;
    } else if v.mountPath == "/" || Inside("/", v.mountPath) || Forbidden(v.mountPath) {
      objections := objections + 1;
    }
    var apart := MeetsNone(paths, v.mountPath);
    if !apart {
      objections := objections + 1;
    }
    if spec.size != "" && ParseVolumeSize(spec.size).None? {
      objections := objections + 1;
    }
  }

  /** validateVolumes of the enricher: goes on after an objection and counts them. */
  method ValidateVolumes(specs: seq<VolumeSpec>, clean: string -> bool) returns (objections: nat)
    ensures objections == 0 <==> EnricherAccepts(specs, clean)
  {
    objections := if |specs| > MAX_VOLUMES then 1 else 0;
    var names: set<string> := {};
    var paths: seq<string> := [];
    ghost var vs := Declared(specs);
    for i := 0 to |specs|
      invariant Seen(vs, i, names, paths)
      invariant objections == 0 <==> |specs| <= MAX_VOLUMES && Unobjectionable(specs, i, clean)
    {
      OneMoreSeen(vs, i, names, paths);
      assert vs[i] == specs[i].declared;
      var more := ObjectionsTo(specs[i], names, paths, clean);
      objections := objections + more;
      names, paths := names + {specs[i].declared.name}, paths + [specs[i].declared.mountPath];
    }
    assert vs[..|specs|] == vs;
    assert (forall spec :: spec in specs ==> DeclaredWell(spec, clean)) <==> forall k :: 0 <= k < |specs| ==>
           DeclaredWell(specs[k], clean);
  }

  ghost predicate PreparableVolume(v: VolumeConfig, clean: string -> bool) {
    ComponentName(v.name) && v.sizeBytes > 0 && clean(v.mountPath) && v.mountPath != "/" && !Forbidden(v.mountPath)
  }

  ghost predicate PreparableSoFar(vs: seq<VolumeConfig>, i: nat, clean: string -> bool)
    requires i <= |vs|
  {
    Distinguished(vs[..i]) && forall k :: 0 <= k < i ==> PreparableVolume(vs[k], clean)
  }

  lemma AcceptedPrefix(vs: seq<VolumeConfig>, i: nat, clean: string -> bool)
    requires i <= |vs| && AgentAccepts(vs, clean)
    ensures PreparableSoFar(vs, i, clean)
  {
  }

  /** validateServiceVolumes: stops at the first volume it cannot accept. */
  method ValidateServiceVolumes(vs: seq<VolumeConfig>, clean: string -> bool) returns (ok: bool)
    ensures ok <==> AgentAccepts(vs, clean)
  {
    if |vs| > MAX_VOLUMES {
      return false;
    }
    var names: set<string> := {};
    var paths: seq<string> := [];
    for i := 0 to |vs|
      invariant Seen(vs, i, names, paths)
      invariant PreparableSoFar(vs, i, clean)
    {
      var v := vs[i];
      OneMoreSeen(vs, i, names, paths);
      ghost var acceptable := AgentAccepts(vs, clean);
      if acceptable {
        AcceptedPrefix(vs, i + 1, clean);
      }
      if !ComponentName(v.name) || v.name in names || v.sizeBytes <= 0 {
        return false;
      }
      names := names + {v.name};
      if !clean(v.mountPath) || v.mountPath == "/" || Forbidden(v.mountPath) {
        return false;
      }
      var apart := MeetsNone(paths, v.mountPath);
      if !apart {
        return false;
      }
      paths := paths + [v.mountPath];
    }
    assert vs[..|vs|] == vs;
    return true;
  }

  /** The checks of parseVolumePayload on a payload that was decoded. */
  method ValidatePayload(payload: Payload, clean: string -> bool) returns (ok: bool)
    ensures ok <==> payload.version == 1 && GuestAccepts(payload.volumes, clean)
  {
    if payload.version != VERSION {
      return false;
    }
    var vs := payload.volumes;
    var seenDevices, seenPaths: set<string> := {}, {};
    for i := 0 to |vs|
      invariant seenDevices == set k | 0 <= k < i :: vs[k].device
      invariant seenPaths == set k | 0 <= k < i :: vs[k].mountPath
      invariant forall k :: 0 <= k < i ==> ValidGuestVolume(vs[k], clean)
      invariant forall j, k :: 0 <= j < k < i ==> vs[j].device != vs[k].device && vs[j].mountPath != vs[k].mountPath
    {
      assert vs[i] in vs;
      if !ValidGuestVolume(vs[i], clean) || vs[i].device in seenDevices || vs[i].mountPath in seenPaths {
        return false;
      }
      seenDevices, seenPaths := seenDevices + {vs[i].device}, seenPaths + {vs[i].mountPath};
    }
    return true;
  }

  /** The paths nothing may be mounted on or under. */
  lemma ReservedPaths(path: string)
    ensures Forbidden(path) <==>
              || path == "/proc" || path == "/sys" || path == "/dev" || path == "/run" || path == "/tmp"
              || "/proc/" <= path || "/sys/" <= path || "/dev/" <= path || "/run/" <= path || "/tmp/" <= path
  {
    if path == "/proc" || "/proc/" <= path { assert RESERVED[0] == "/proc"; }
    if path == "/sys" || "/sys/" <= path { assert RESERVED[1] == "/sys"; }
    if path == "/dev" || "/dev/" <= path { assert RESERVED[2] == "/dev"; }
    if path == "/run" || "/run/" <= path { assert RESERVED[3] == "/run"; }
    if path == "/tmp" || "/tmp/" <= path { assert RESERVED[4] == "/tmp"; }
  }

  /** A volume name of an application: 1 to 63 small letters, digits and dashes, and no dash at
      either end. */
  lemma LabelsRead(n: string)
    ensures LabelName(n) <==>
              && n != "" && |n| < 64
              && (forall c :: c in n ==> c == '-' || 'a' <= c <= 'z' || '0' <= c <= '9')
              && !("-" <= n) && n[|n| - 1] != '-'
  {
    if n != "" {
      assert "-" <= n <==> n[0] == '-';
      assert n[|n| - 1] in n && n[0] in n;
      if forall c :: c in n ==> c == '-' || Lower(c) {
        forall i | 0 <= i < |n| ensures Lower(n[i]) || n[i] == '-' {
          assert n[i] in n;
        }
      }
    }
  }

  /** What the agent accepts stays inside its own directory and off the guest's own mounts: at
      most 25 volumes, each of a positive size, with a name that is one plain path component, and
      no two mounted at or inside one another. */
  lemma AcceptedStaysInside(vs: seq<VolumeConfig>, clean: string -> bool)
    requires AgentAccepts(vs, clean)
    ensures |vs| <= 25
    ensures forall v :: v in vs ==> v.sizeBytes > 0 && clean(v.mountPath) && v.mountPath != "/"
    ensures forall v :: v in vs ==> v.mountPath != "/proc" && !("/proc/" <= v.mountPath)
    ensures forall v :: v in vs ==> v.name != "" && '/' !in v.name && v.name != "." && v.name != ".."
    ensures forall i, j :: 0 <= i < |vs| && 0 <= j < |vs| && i != j ==>
              vs[i].name != vs[j].name && vs[i].mountPath != vs[j].mountPath
                && !(vs[i].mountPath + "/" <= vs[j].mountPath)
  {
    forall v | v in vs
      ensures v.mountPath != "/proc" && !("/proc/" <= v.mountPath)
      ensures v.name != "" && '/' !in v.name && v.name != "." && v.name != ".."
    {
      assert PreparableVolume(v, clean);
      ReservedPaths(v.mountPath);
    }
    forall i, j | 0 <= i < |vs| && 0 <= j < |vs| && i != j
      ensures vs[i].name != vs[j].name && !Overlap(vs[i].mountPath, vs[j].mountPath)
    {
      if i < j {
        assert !Overlap(vs[i].mountPath, vs[j].mountPath);
      } else {
        assert !Overlap(vs[j].mountPath, vs[i].mountPath);
      }
    }
  }

  lemma LabelIsComponent(n: string)
    requires LabelName(n)
    ensures ComponentName(n)
  {
  }

  // ------------------------------------------------------------- from enricher to agent

  /** `a` and `b` tell a volume apart from others, and mount it, alike. */
  predicate SameFace(a: VolumeConfig, b: VolumeConfig) {
    a.name == b.name && a.mountPath == b.mountPath && a.vtype == b.vtype
  }

  /** `vs` are `resolved` as the control plane hands them to an agent: bound to a node or
      backend, with a resize generation. */
  ghost predicate SystemFills(resolved: seq<VolumeConfig>, vs: seq<VolumeConfig>) {
    && |vs| == |resolved|
    && forall i :: 0 <= i < |vs| ==> SameFace(resolved[i], vs[i]) && vs[i].sizeBytes == resolved[i].sizeBytes
  }

  /** A resolved volume list holds each declared volume once, in some order. */
  lemma ResolvedComesFrom(specs: seq<VolumeSpec>, defs: VolumeDefaults, clean: string -> bool)
    requires EnricherAccepts(specs, clean) && DefaultsAccepted(defs)
    ensures DistinctIn(Resolved(specs, defs))
    ensures forall v :: v in Resolved(specs, defs) ==>
              v.sizeBytes > 0 && exists spec :: spec in specs && SameFace(spec.declared, v)
  {
    var one := (spec: VolumeSpec) => ResolveOne(spec, defs);
    var unsorted, resolved := Images(one, specs), Resolved(specs, defs);
    forall i, j | 0 <= i < j < |unsorted| ensures unsorted[i].name != unsorted[j].name {
      assert Declared(specs)[i].name != Declared(specs)[j].name;
    }
    NamesOrder(unsorted);
    SortSorts(VolumeBefore, unsorted);
    SameElements(resolved, unsorted);
    forall i, j | 0 <= i < j < |resolved| ensures resolved[i].name != resolved[j].name {
      assert VolumeBefore(resolved[i], resolved[j]);
      LessIsTotal(resolved[i].name, resolved[j].name);
    }
    forall v | v in resolved ensures v.sizeBytes > 0 && exists spec :: spec in specs && SameFace(spec.declared, v) {
      var i :| 0 <= i < |unsorted| && unsorted[i] == v;
      assert DeclaredWell(specs[i], clean);
      SizesArePositive(specs[i], defs);
      assert SameFace(specs[i].declared, v);
    }
  }

  lemma DeclaredPathsApart(specs: seq<VolumeSpec>, a: VolumeSpec, b: VolumeSpec)
    requires PathsApart(Declared(specs)) && a in specs && b in specs && a.declared.name != b.declared.name
    ensures !Overlap(a.declared.mountPath, b.declared.mountPath)
  {
    var vs := Declared(specs);
    var i :| 0 <= i < |specs| && specs[i] == a;
    var j :| 0 <= j < |specs| && specs[j] == b;
    assert vs[i] == a.declared && vs[j] == b.declared;
    assert !Overlap(vs[i].mountPath, vs[j].mountPath) || !Overlap(vs[j].mountPath, vs[i].mountPath);
  }

  /** The enricher promises what the agent demands: volumes it accepted, with sizes and
      defaults resolved and the system's fields filled in by the control plane, pass every
      check of the agent. */
  lemma AgentAcceptsWhatEnricherAccepts(specs: seq<VolumeSpec>, defs: VolumeDefaults, vs: seq<VolumeConfig>,
                                        clean: string -> bool)
    requires EnricherAccepts(specs, clean) && DefaultsAccepted(defs) && SystemFills(Resolved(specs, defs), vs)
    ensures AgentAccepts(vs, clean)
    ensures |vs| == |specs| && forall v :: v in vs ==> LabelName(v.name) && !v.vtype.Unknown?
  {
    var resolved := Resolved(specs, defs);
    ResolvedComesFrom(specs, defs, clean);
    forall i | 0 <= i < |vs| ensures PreparableVolume(vs[i], clean) && LabelName(vs[i].name) && !vs[i].vtype.Unknown? {
      assert resolved[i] in resolved;
      var spec :| spec in specs && SameFace(spec.declared, resolved[i]);
      assert DeclaredWell(spec, clean);
      LabelIsComponent(vs[i].name);
    }
    forall i, j | 0 <= i < j < |vs| ensures !Overlap(vs[i].mountPath, vs[j].mountPath) {
      assert resolved[i] in resolved && resolved[j] in resolved && resolved[i].name != resolved[j].name;
      var a :| a in specs && SameFace(a.declared, resolved[i]);
      var b :| b in specs && SameFace(b.declared, resolved[j]);
      DeclaredPathsApart(specs, a, b);
    }
    assert DistinctIn(vs) by {
      forall i, j | 0 <= i < j < |vs| ensures vs[i].name != vs[j].name {
        assert resolved[i].name != resolved[j].name;
      }
    }
  }
}
