/** Persistent volumes on their way into the guest: the payload in the kernel command line, the
    drive list, and reading the payload back. */
module GuestVolumes {
  import opened Types
  import opened Ordering
  import opened VolumeOrder
  import opened VolumeSpecs
  import opened VolumeChecks
  import opened Base64Url
  import opened KernelArgs

  // ---------------------------------------------------------------------- the payload

  /** A prepared volume of the agent. */
  datatype Prepared = Prepared(logicalId: string, pathOnHost: string, mountPath: string, vtype: VolumeType)

  predicate PreparedBefore(a: Prepared, b: Prepared) {
    Less(a.logicalId, b.logicalId)
  }

  /** guestBlockDevice, for an index below 25. */
  function Device(i: nat): string
    requires i < MAX_VOLUMES
  {
    "/dev/vd" + ['b' + i as char]
  }

  /** The devices the guest accepts are those the agent hands out, /dev/vda being the boot disk. */
  lemma DevicesRead(d: string)
    ensures ValidDevice(d) <==> exists i :: 0 <= i < MAX_VOLUMES && d == Device(i)
    ensures d == "/dev/vda" ==> !ValidDevice(d)
    ensures Device(0) == "/dev/vdb" && Device(24) == "/dev/vdz"
  {
    if ValidDevice(d) {
      var i := d[7] as int - 'b' as int;
      assert d == d[..7] + [d[7]] && d[7] == 'b' + i as char;
      assert d == Device(i);
    }
    forall i | 0 <= i < MAX_VOLUMES && d == Device(i) ensures ValidDevice(d) {
      assert d[7] == 'b' + i as char && d[..7] == "/dev/vd";
    }
  }

  function PayloadFrom(names: seq<string>, mounts: seq<string>, types: seq<VolumeType>): seq<GuestVolume>
    requires |names| == |mounts| == |types| <= MAX_VOLUMES
  {
    seq(|names|, i requires 0 <= i < |names| => GuestVolume(names[i], Device(i), mounts[i], types[i]))
  }

  /** The payload validateVolumeKernelArgs measures: volumes by name. */
  function MeasuredPayload(vs: seq<VolumeConfig>): seq<GuestVolume>
    requires |vs| <= MAX_VOLUMES
  {
    SortKeepsLength(VolumeBefore, vs);
    var sorted := SortBy(VolumeBefore, vs);
    PayloadFrom(Images((v: VolumeConfig) => v.name, sorted), Images((v: VolumeConfig) => v.mountPath, sorted),
                Images((v: VolumeConfig) => v.vtype, sorted))
  }

  /** The payload writeVMConfig writes: prepared volumes by logical ID, named by the last part. */
  function WrittenPayload(prepared: seq<Prepared>): seq<GuestVolume>
    requires |prepared| <= MAX_VOLUMES
  {
    SortKeepsLength(PreparedBefore, prepared);
    var sorted := SortBy(PreparedBefore, prepared);
    PayloadFrom(Images((v: Prepared) => Base(v.logicalId), sorted), Images((v: Prepared) => v.mountPath, sorted),
                Images((v: Prepared) => v.vtype, sorted))
  }

  lemma SortKeepsLength<T>(before: (T, T) -> bool, xs: seq<T>)
    ensures |SortBy(before, xs)| == |xs|
  {
    SortPermutes(before, xs);
    SameElements(SortBy(before, xs), xs);
  }

  /** filepath.Base of a logical ID. */
  function Base(path: string): string {
    if '/' in path then Base(path[SlashAt(path) + 1..]) else path
  }

  function SlashAt(path: string): (i: nat)
    requires '/' in path
    ensures i < |path| && path[i] == '/'
  {
    if path[0] == '/' then 0 else SlashAt(path[1..]) + 1
  }

  lemma {:induction false} BaseIsLastPart(service: string, name: string)
    requires '/' !in name
    ensures Base(service + "/" + name) == name
    decreases |service|
  {
    var path := service + "/" + name;
    assert path[|service|] == '/';
    var i := SlashAt(path);
    if i < |service| {
      assert path[i + 1..] == service[i + 1..] + "/" + name;
      BaseIsLastPart(service[i + 1..], name);
    } else {
      assert forall k :: |service| < k < |path| ==> path[k] == name[k - |service| - 1];
      assert i == |service| && path[i + 1..] == name;
    }
  }

  lemma {:induction false} LessAfterPrefix(p: string, a: string, b: string)
    ensures Less(p + a, p + b) == Less(a, b)
  {
    if p == "" {
      assert p + a == a && p + b == b;
    } else {
      assert (p + a)[1..] == p[1..] + a && (p + b)[1..] == p[1..] + b;
      LessAfterPrefix(p[1..], a, b);
    }
  }

  /** What Prepare returns: the volumes by name, each under its logical ID. */
  function PreparedFor(service: string, vs: seq<VolumeConfig>, paths: string -> string): seq<Prepared> {
    Images((v: VolumeConfig) => Prepared(service + "/" + v.name, paths(v.name), v.mountPath, v.vtype),
           SortBy(VolumeBefore, vs))
  }

  lemma SortedStays(xs: seq<Prepared>)
    requires Sorted(PreparedBefore, xs)
    ensures SortBy(PreparedBefore, xs) == xs
  {
    forall i, j | 0 <= i < j < |xs| ensures xs[i].logicalId != xs[j].logicalId {
      assert PreparedBefore(xs[i], xs[j]);
      LessIsTotal(xs[i].logicalId, xs[j].logicalId);
    }
    KeysOrderStrictly(PreparedBefore, (p: Prepared) => p.logicalId, xs);
    SortSorts(PreparedBefore, xs);
    SortedIsUnique(PreparedBefore, xs, SortBy(PreparedBefore, xs));
  }

  lemma PreparedIsSorted(service: string, vs: seq<VolumeConfig>, paths: string -> string)
    requires DistinctIn(vs)
    ensures Sorted(PreparedBefore, PreparedFor(service, vs, paths))
  {
    NamesOrder(vs);
    SortSorts(VolumeBefore, vs);
    var sorted, prepared := SortBy(VolumeBefore, vs), PreparedFor(service, vs, paths);
    forall i, j | 0 <= i < j < |prepared| ensures PreparedBefore(prepared[i], prepared[j]) {
      assert VolumeBefore(sorted[i], sorted[j]);
      LessAfterPrefix(service + "/", sorted[i].name, sorted[j].name);
    }
  }

  /** What was measured is what is written. */
  lemma SamePayload(service: string, vs: seq<VolumeConfig>, paths: string -> string)
    requires |vs| <= MAX_VOLUMES && DistinctIn(vs) && forall v :: v in vs ==> '/' !in v.name
    ensures |PreparedFor(service, vs, paths)| == |vs|
    ensures WrittenPayload(PreparedFor(service, vs, paths)) == MeasuredPayload(vs)
  {
    SortKeepsLength(VolumeBefore, vs);
    PreparedIsSorted(service, vs, paths);
    var sorted, prepared := SortBy(VolumeBefore, vs), PreparedFor(service, vs, paths);
    SortedStays(prepared);
    SortPermutes(VolumeBefore, vs);
    SameElements(sorted, vs);
    forall i | 0 <= i < |sorted| ensures Base(prepared[i].logicalId) == sorted[i].name {
      assert sorted[i] in vs;
      BaseIsLastPart(service, sorted[i].name);
    }
  }

  /** The payload of accepted volumes passes the guest's checks. */
  lemma GuestAcceptsPayload(vs: seq<VolumeConfig>, clean: string -> bool)
    requires AgentAccepts(vs, clean) && forall v :: v in vs ==> !v.vtype.Unknown?
    ensures GuestAccepts(MeasuredPayload(vs), clean)
  {
    NamesOrder(vs);
    SortSorts(VolumeBefore, vs);
    SortKeepsLength(VolumeBefore, vs);
    var sorted, payload := SortBy(VolumeBefore, vs), MeasuredPayload(vs);
    SameElements(sorted, vs);
    forall g | g in payload ensures ValidGuestVolume(g, clean) {
      var i :| 0 <= i < |payload| && payload[i] == g;
      assert sorted[i] in vs;
    }
    forall i, j | 0 <= i < j < |payload|
      ensures payload[i].device != payload[j].device && payload[i].mountPath != payload[j].mountPath
    {
      assert payload[i].device[7] != payload[j].device[7];
      assert VolumeBefore(sorted[i], sorted[j]);
      LessIsTotal(sorted[i].name, sorted[j].name);
      assert sorted[i] in vs && sorted[j] in vs;
      PathsDiffer(vs, sorted[i], sorted[j]);
    }
  }

  lemma PathsDiffer(vs: seq<VolumeConfig>, a: VolumeConfig, b: VolumeConfig)
    requires PathsApart(vs) && a in vs && b in vs && a.name != b.name
    ensures a.mountPath != b.mountPath
  {
    var i :| 0 <= i < |vs| && vs[i] == a;
    var j :| 0 <= j < |vs| && vs[j] == b;
    assert !Overlap(vs[i].mountPath, vs[j].mountPath) || !Overlap(vs[j].mountPath, vs[i].mountPath);
  }

  // ------------------------------------------------------------------- the command line

  // "firework.volumes64=" and "console=ttyS0 reboot=k panic=1 pci=off"
  const VOLUMES64: Bytes := [102, 105, 114, 101, 119, 111, 114, 107, 46, 118, 111, 108, 117, 109, 101, 115, 54, 52, 61]
  const DEFAULT_ARGS: Bytes := [
    99, 111, 110, 115, 111, 108, 101, 61, 116, 116, 121, 83, 48, 32, 114, 101, 98, 111, 111, 116, 61, 107, 32,
    112, 97, 110, 105, 99, 61, 49, 32, 112, 99, 105, 61, 111, 102, 102]
  const MAX_COMMAND_LINE := 2047

  lemma VolumeArgsRead()
    ensures Text(VOLUMES64) == "firework.volumes64="
    ensures Text(DEFAULT_ARGS) == "console=ttyS0 reboot=k panic=1 pci=off"
  {
  }

  /** The JSON encoding of a payload, and reading it back. */
  datatype Codec = Codec(marshal: Payload -> Bytes, unmarshal: Bytes -> Option<Payload>)
  {
    ghost predicate Faithful() {
      forall p :: unmarshal(marshal(p)) == Some(p)
    }
  }

  function WithPayload(kernelArgs: Bytes, payload: seq<GuestVolume>, codec: Codec): Bytes {
    var args := if kernelArgs == [] then DEFAULT_ARGS else kernelArgs;
    KernelArgs.Insert(args, VOLUMES64 + Encode(codec.marshal(Payload(VERSION, payload))))
  }

  /** validateVolumeKernelArgs: measures the command line; None is an error. */
  method ValidateVolumeKernelArgs(kernelArgs: Bytes, vs: seq<VolumeConfig>, codec: Codec) returns (length: Option<nat>)
    ensures length.Some? <==> |vs| <= 25 && |WithPayload(kernelArgs, MeasuredPayload(vs), codec)| <= 2047
    ensures length.Some? ==> length.value == |WithPayload(kernelArgs, MeasuredPayload(vs), codec)|
  {
    SortKeepsLength(VolumeBefore, vs);
    var volumes := SortBy(VolumeBefore, vs);
    var payload: seq<GuestVolume> := [];
    for i := 0 to |volumes|
      invariant |payload| == i <= MAX_VOLUMES && |volumes| == |vs|
      invariant forall k :: 0 <= k < i ==>
                  payload[k] == GuestVolume(volumes[k].name, Device(k), volumes[k].mountPath, volumes[k].vtype)
    {
      if i >= 25 {
        return None;
      }
      payload := payload + [GuestVolume(volumes[i].name, Device(i), volumes[i].mountPath, volumes[i].vtype)];
    }
    assert payload == MeasuredPayload(vs);
    var args := if kernelArgs == [] then DEFAULT_ARGS else kernelArgs;
    args := InsertKernelArg(args, VOLUMES64 + Encode(codec.marshal(Payload(VERSION, payload))));
    if |args| > MAX_COMMAND_LINE {
      return None;
    }
    return Some(|args|);
  }

  datatype VmConfig = VmConfig(bootArgs: Bytes, drives: seq<string>)

  /** The drives and boot arguments of writeVMConfig; drive 0 is the root file system. */
  function WriteVMConfig(kernelArgs: Bytes, image: string, prepared: seq<Prepared>, codec: Codec): VmConfig
    requires |prepared| <= MAX_VOLUMES
  {
    VmConfig(
      if prepared == [] then (if kernelArgs == [] then DEFAULT_ARGS else kernelArgs)
      else WithPayload(kernelArgs, WrittenPayload(prepared), codec),
      [image] + Images((p: Prepared) => p.pathOnHost, SortBy(PreparedBefore, prepared)))
  }

  /** The device the guest sees drive `k` under. */
  function DeviceOfDrive(k: nat): string
    requires k < 26
  {
    "/dev/vd" + ['a' + k as char]
  }

  function Versioned(p: Option<Payload>): Option<seq<GuestVolume>> {
    if p.Some? && p.value.version == VERSION then Some(p.value.volumes) else None
  }

  predicate CarriesPayload(token: Bytes) {
    VOLUMES64 <= token
  }

  /** parseVolumePayload up to its checks of the volumes: the first token that carries a
      payload, which must be of the version the agent writes. */
  function PayloadOf(tokens: seq<Bytes>, codec: Codec): Option<seq<GuestVolume>> {
    if tokens == [] then Some([])
    else if CarriesPayload(tokens[0]) then
      match Decode(tokens[0][|VOLUMES64|..])
      case None => None
      case Some(data) => Versioned(codec.unmarshal(data))
    else PayloadOf(tokens[1..], codec)
  }

  lemma {:induction false} PayloadFound(front: seq<Bytes>, token: Bytes, rest: seq<Bytes>, codec: Codec)
    requires CarriesPayload(token) && forall t :: t in front ==> !CarriesPayload(t)
    ensures PayloadOf(front + [token] + rest, codec) == PayloadOf([token], codec)
  {
    var all := front + [token] + rest;
    if front == [] {
      assert all[0] == token;
    } else {
      assert front[0] in front && all[0] == front[0] && all[1..] == front[1..] + [token] + rest;
      PayloadFound(front[1..], token, rest, codec);
    }
  }

  lemma PayloadTokenReads(payload: seq<GuestVolume>, codec: Codec)
    requires codec.Faithful()
    ensures var token := VOLUMES64 + Encode(codec.marshal(Payload(VERSION, payload)));
            Token(token) && PayloadOf([token], codec) == Some(payload)
  {
    var token := VOLUMES64 + Encode(codec.marshal(Payload(VERSION, payload)));
    EncodingIsPlain(codec.marshal(Payload(VERSION, payload)));
    forall i | 0 <= i < |token| ensures SpaceWidth(token[i..]) == 0 {
      assert token[i..][0] == token[i];
      assert i >= |VOLUMES64| ==> token[i] in Encode(codec.marshal(Payload(VERSION, payload)));
      assert token[i] < 128 && !AsciiSpace(token[i]);
    }
    assert token[|VOLUMES64|..] == Encode(codec.marshal(Payload(VERSION, payload)));
    RoundTrip(codec.marshal(Payload(VERSION, payload)));
  }

  /** The whole way: for volumes the enricher accepted and resolved, bound by the control plane,
      the command line that a preflight measures is the very one that is written, so it fits
      exactly if it would be accepted; the guest reads the volumes back from it and accepts
      them; and the device of each is the drive its own image was attached as. */
  lemma GuestMountsWhatWasDeclared(service: string, kernelArgs: Bytes, image: string, specs: seq<VolumeSpec>,
                                   defs: VolumeDefaults,
                                   vs: seq<VolumeConfig>, paths: string -> string, clean: string -> bool, codec: Codec,
                                   length: Option<nat>)
    requires EnricherAccepts(specs, clean) && DefaultsAccepted(defs) && SystemFills(Resolved(specs, defs), vs)
    requires specs != [] && codec.Faithful()
    requires forall t :: t in Fields(kernelArgs) ==> !CarriesPayload(t)
    requires length.Some? <==> |WithPayload(kernelArgs, MeasuredPayload(vs), codec)| <= MAX_COMMAND_LINE
    ensures |PreparedFor(service, vs, paths)| == |vs|
    ensures var vm := WriteVMConfig(kernelArgs, image, PreparedFor(service, vs, paths), codec);
            && vm.bootArgs == WithPayload(kernelArgs, MeasuredPayload(vs), codec)
            && (length.Some? <==> |vm.bootArgs| <= MAX_COMMAND_LINE)
            && PayloadOf(Fields(vm.bootArgs), codec) == Some(MeasuredPayload(vs))
            && GuestAccepts(MeasuredPayload(vs), clean)
            && forall i :: 0 <= i < |vs| ==> Attached(vm, vs, paths, MeasuredPayload(vs)[i], i)
  {
    AgentAcceptsWhatEnricherAccepts(specs, defs, vs, clean);
    forall v | v in vs ensures '/' !in v.name {
      assert LabelName(v.name);
    }
    SamePayload(service, vs, paths);
    GuestAcceptsPayload(vs, clean);
    ReadBack(kernelArgs, MeasuredPayload(vs), codec);
    forall i | 0 <= i < |vs|
      ensures Attached(WriteVMConfig(kernelArgs, image, PreparedFor(service, vs, paths), codec), vs, paths,
                       MeasuredPayload(vs)[i], i)
    {
      AttachedInOrder(service, kernelArgs, image, vs, paths, codec, i);
    }
  }

  /** The guest volume `g` is a declared one, on the drive that holds its image. */
  ghost predicate Attached(vm: VmConfig, vs: seq<VolumeConfig>, paths: string -> string, g: GuestVolume, i: nat) {
    && i + 1 < |vm.drives| <= 26
    && g.device == DeviceOfDrive(i + 1)
    && vm.drives[i + 1] == paths(g.name)
    && exists v :: v in vs && v.name == g.name && v.mountPath == g.mountPath && v.vtype == g.vtype
  }

  lemma AttachedInOrder(service: string, kernelArgs: Bytes, image: string, vs: seq<VolumeConfig>,
                        paths: string -> string, codec: Codec, i: nat)
    requires |vs| <= MAX_VOLUMES && DistinctIn(vs) && i < |vs| == |PreparedFor(service, vs, paths)|
    ensures Attached(WriteVMConfig(kernelArgs, image, PreparedFor(service, vs, paths), codec), vs, paths,
                     MeasuredPayload(vs)[i], i)
  {
    PreparedIsSorted(service, vs, paths);
    SortedStays(PreparedFor(service, vs, paths));
    SortPermutes(VolumeBefore, vs);
    var sorted := SortBy(VolumeBefore, vs);
    SameElements(sorted, vs);
    assert sorted[i] in vs;
  }

  // ------------------------------------------------- which command lines are measured

  /** Without volumes the preflight of the VM manager returns before it measures anything. */
  ghost predicate Accepted(kernelArgs: Bytes, vs: seq<VolumeConfig>, codec: Codec) {
    || vs == []
    || (|vs| <= MAX_VOLUMES && |WithPayload(kernelArgs, MeasuredPayload(vs), codec)| <= MAX_COMMAND_LINE)
  }

  /** Preflight of the VM manager, up to the volumes themselves. */
  method PreflightKernelArgs(kernelArgs: Bytes, vs: seq<VolumeConfig>, codec: Codec) returns (ok: bool)
    ensures ok <==> Accepted(kernelArgs, vs, codec)
  {
    if |vs| == 0 {
      return true;
    }
    var length := ValidateVolumeKernelArgs(kernelArgs, vs, codec);
    return length.Some?;
  }

  /** The command line does not keep a service from being started: only an update is preceded
      by a preflight. */
  ghost predicate GoesAhead(update: bool, kernelArgs: Bytes, vs: seq<VolumeConfig>, codec: Codec) {
    update ==> Accepted(kernelArgs, vs, codec)
  }

  function Written(service: string, kernelArgs: Bytes, vs: seq<VolumeConfig>, paths: string -> string,
                   codec: Codec): Bytes
    requires |PreparedFor(service, vs, paths)| <= MAX_VOLUMES
  {
    WriteVMConfig(kernelArgs, "", PreparedFor(service, vs, paths), codec).bootArgs
  }

  /** No command line longer than the limit is ever written for a service, whatever its kernel
      arguments, exactly if it is updated and has volumes. */
  lemma WrittenWithinLimitExactly(service: string, update: bool, vs: seq<VolumeConfig>, paths: string -> string,
                                  codec: Codec)
    requires |vs| <= MAX_VOLUMES && DistinctIn(vs) && forall v :: v in vs ==> '/' !in v.name
    ensures |PreparedFor(service, vs, paths)| == |vs|
    ensures (forall kernelArgs :: GoesAhead(update, kernelArgs, vs, codec) ==>
               |Written(service, kernelArgs, vs, paths, codec)| <= 2047)
            <==> update && vs != []
  {
    SamePayload(service, vs, paths);
    if update && vs != [] {
      forall kernelArgs | GoesAhead(update, kernelArgs, vs, codec)
        ensures |Written(service, kernelArgs, vs, paths, codec)| <= MAX_COMMAND_LINE
      {
      }
    } else {
      UnmeasuredWritesTooLong(service, MAX_COMMAND_LINE + 1, vs, paths, codec);
      assert GoesAhead(update, Letters(MAX_COMMAND_LINE + 1), vs, codec);
    }
  }

  function Letters(n: nat): Bytes {
    seq(n, _ => 97)
  }

  /** Any kernel arguments that fill the limit, without an application separator, are written
      longer than it. */
  lemma UnmeasuredWritesTooLong(service: string, n: nat, vs: seq<VolumeConfig>, paths: string -> string, codec: Codec)
    requires n > MAX_COMMAND_LINE && |vs| <= MAX_VOLUMES
    ensures |PreparedFor(service, vs, paths)| == |vs|
    ensures |Written(service, Letters(n), vs, paths, codec)| > MAX_COMMAND_LINE
  {
    var kernelArgs := Letters(n);
    SortKeepsLength(VolumeBefore, vs);
    forall i | 0 <= i < n ensures SpaceWidth(kernelArgs[i..]) == 0 {
      assert kernelArgs[i..][0] == 97;
    }
    TokenIsOneField(kernelArgs);
    assert kernelArgs[0] != SEPARATOR[0];
    assert SeparatorAt([kernelArgs]) == 1;
  }

  lemma ReadBack(kernelArgs: Bytes, payload: seq<GuestVolume>, codec: Codec)
    requires codec.Faithful() && forall t :: t in Fields(kernelArgs) ==> !CarriesPayload(t)
    ensures PayloadOf(Fields(WithPayload(kernelArgs, payload, codec)), codec) == Some(payload)
  {
    var args := if kernelArgs == [] then DEFAULT_ARGS else kernelArgs;
    var token := VOLUMES64 + Encode(codec.marshal(Payload(VERSION, payload)));
    PayloadTokenReads(payload, codec);
    TokenIsOneField(token);
    InsertSplices(args, token);
    if kernelArgs == [] {
      DefaultArgsHaveNoPayload();
    }
    var parts := Fields(args);
    var i := SeparatorAt(parts);
    assert CarriesPayload(token);
    PayloadFound(parts[..i], token, parts[i..], codec);
  }

  lemma DefaultArgsHaveNoPayload()
    ensures forall t :: t in Fields(DEFAULT_ARGS) ==> !CarriesPayload(t)
  {
    NoByteInFields([], DEFAULT_ARGS, 118);
    assert VOLUMES64[9] == 118;
  }

  /** Fields hold only bytes of the string. */
  lemma {:induction false} NoByteInFields(cur: Bytes, s: Bytes, c: Byte)
    requires c !in cur && c !in s
    ensures forall t :: t in FieldsFrom(cur, s) ==> c !in t
    decreases |s|
  {
    if s != [] {
      if SpaceWidth(s) > 0 {
        NoByteInFields([], s[SpaceWidth(s)..], c);
      } else {
        NoByteInFields(cur + [s[0]], s[1..], c);
      }
    }
  }
}
