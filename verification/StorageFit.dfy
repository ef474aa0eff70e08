/** The storage half of placement: which node a service's volumes may use and how many
    bytes they newly reserve there. */
module StorageFit {
  import opened Types

  datatype Node = Node(
    instanceId: string, capacityVCPUs: int, capacityMemMB: int,
    localCapacityBytes: int, sharedBackendId: string, sharedCapacityBytes: int)

  datatype Reservations = Reservations(
    localByNode: map<string, int>, sharedByBackend: map<string, int>,
    recorded: set<VolumeId>, sharedEnabled: bool)

  type NodeList = nodes: seq<Node> | ValidNodes(nodes)

  datatype Fit = Fit(candidate: ServiceConfig, localDelta: int, sharedDelta: int)

  /** Registry keys are unique and a blank node ID is refused, so these always hold. */
  ghost predicate ValidNodes(nodes: seq<Node>) {
    && (forall i :: 0 <= i < |nodes| ==> nodes[i].instanceId != "")
    && (forall i, j :: 0 <= i < j < |nodes| ==> nodes[i].instanceId != nodes[j].instanceId)
  }

  // ---------------------------------------------------------------- storage fit

  function Bind(volumes: seq<VolumeConfig>, node: Node): Option<seq<VolumeConfig>> {
    if volumes == [] then Some([])
    else
      match BindOne(volumes[0], node)
      case None => None
      case Some(v) =>
        match Bind(volumes[1..], node)
        case None => None
        case Some(rest) => Some([v] + rest)
  }

  function BindOne(v: VolumeConfig, node: Node): Option<VolumeConfig> {
    match v.vtype
    case Local =>
      if node.localCapacityBytes <= 0 || (v.boundNode != "" && v.boundNode != node.instanceId) then None
      else Some(v.(boundNode := node.instanceId))
    case Shared =>
      if node.sharedBackendId == "" || (v.sharedBackendId != "" && v.sharedBackendId != node.sharedBackendId) then None
      else Some(v.(sharedBackendId := node.sharedBackendId))
    case Unknown => Some(v)
  }

  /** Bytes of the given type that no durable record reserves yet. */
  function NewBytes(service: string, volumes: seq<VolumeConfig>, vtype: VolumeType, recorded: set<VolumeId>): int {
    if volumes == [] then 0
    else NewBytesOf(service, volumes[0], vtype, recorded) + NewBytes(service, volumes[1..], vtype, recorded)
  }

  function NewBytesOf(service: string, v: VolumeConfig, vtype: VolumeType, recorded: set<VolumeId>): int {
    if v.vtype == vtype && VolumeId(service, v.name) !in recorded then v.sizeBytes else 0
  }

  function FitStorage(service: ServiceConfig, node: Node, res: Reservations,
                      usedLocal: map<string, int>, usedShared: map<string, int>): Option<Fit>
  {
    match Bind(service.volumes, node)
    case None => None
    case Some(bound) =>
      var localDelta := NewBytes(service.name, service.volumes, Local, res.recorded);
      var sharedDelta := NewBytes(service.name, service.volumes, Shared, res.recorded);
      var local := Lookup(res.localByNode, node.instanceId) + Lookup(usedLocal, node.instanceId) + localDelta;
      var backend := node.sharedBackendId;
      var shared := Lookup(res.sharedByBackend, backend) + Lookup(usedShared, backend) + sharedDelta;
      if local > node.localCapacityBytes then None
      else if sharedDelta > 0 && node.sharedCapacityBytes > 0 && shared > node.sharedCapacityBytes then None
      else Some(Fit(service.(volumes := bound), localDelta, sharedDelta))
  }

  lemma {:induction false} BindAppend(xs: seq<VolumeConfig>, v: VolumeConfig, node: Node)
    ensures Bind(xs + [v], node) ==
            if Bind(xs, node).None? || BindOne(v, node).None? then None
            else Some(Bind(xs, node).value + [BindOne(v, node).value])
  {
    if xs == [] {
      assert xs + [v] == [v] && [v][1..] == [];
      assert Bind([], node) == Some([]);
      if BindOne(v, node).Some? {
        var last := BindOne(v, node).value;
        assert [last] + [] == [] + [last];
      }
    } else {
      assert (xs + [v])[0] == xs[0] && (xs + [v])[1..] == xs[1..] + [v];
      BindAppend(xs[1..], v, node);
      if Bind(xs, node).Some? && BindOne(v, node).Some? {
        var b, rest, last := BindOne(xs[0], node).value, Bind(xs[1..], node).value, BindOne(v, node).value;
        assert [b] + (rest + [last]) == ([b] + rest) + [last];
      }
    }
  }

  lemma {:induction false} BindFailsOnward(xs: seq<VolumeConfig>, ys: seq<VolumeConfig>, node: Node)
    requires Bind(xs, node).None?
    ensures Bind(xs + ys, node).None?
  {
    assert (xs + ys)[0] == xs[0] && (xs + ys)[1..] == xs[1..] + ys;
    if BindOne(xs[0], node).Some? {
      BindFailsOnward(xs[1..], ys, node);
    }
  }

  lemma {:induction false} NewBytesAppend(service: string, xs: seq<VolumeConfig>, ys: seq<VolumeConfig>,
                                          vtype: VolumeType, recorded: set<VolumeId>)
    ensures NewBytes(service, xs + ys, vtype, recorded) ==
            NewBytes(service, xs, vtype, recorded) + NewBytes(service, ys, vtype, recorded)
  {
    if xs == [] {
      assert xs + ys == ys;
    } else {
      assert (xs + ys)[0] == xs[0] && (xs + ys)[1..] == xs[1..] + ys;
      NewBytesAppend(service, xs[1..], ys, vtype, recorded);
    }
  }

  /** What the next volume adds to a binding in progress, or that it ends it. */
  lemma OneMoreVolume(service: ServiceConfig, node: Node, recorded: set<VolumeId>, i: nat)
    requires i < |service.volumes| && Bind(service.volumes[..i], node).Some?
    ensures var vs, v := service.volumes, service.volumes[i];
            && (BindOne(v, node).None? ==> Bind(vs, node).None?)
            && (BindOne(v, node).Some? ==>
                  Bind(vs[..i + 1], node) == Some(Bind(vs[..i], node).value + [BindOne(v, node).value]))
            && forall t :: NewBytes(service.name, vs[..i + 1], t, recorded)
                           == NewBytes(service.name, vs[..i], t, recorded) + NewBytesOf(service.name, v, t, recorded)
  {
    var vs, v := service.volumes, service.volumes[i];
    assert vs[..i + 1] == vs[..i] + [v];
    BindAppend(vs[..i], v, node);
    if BindOne(v, node).None? {
      BindFailsOnward(vs[..i + 1], vs[i + 1..], node);
      assert vs == vs[..i + 1] + vs[i + 1..];
    }
    forall t ensures NewBytes(service.name, vs[..i + 1], t, recorded)
                     == NewBytes(service.name, vs[..i], t, recorded) + NewBytesOf(service.name, v, t, recorded)
    {
      NewBytesAppend(service.name, vs[..i], [v], t, recorded);
      assert [v][1..] == [];
    }
  }

  /** fitStorage: binds a copy of the volumes one by one and adds up what they newly need. */
  method FitStorageLoop(service: ServiceConfig, node: Node, res: Reservations,
                        usedLocal: map<string, int>, usedShared: map<string, int>) returns (fit: Option<Fit>)
    ensures fit == FitStorage(service, node, res, usedLocal, usedShared)
  {
    var volumes := service.volumes;
    var localDelta, sharedDelta := 0, 0;
    var i := 0;
    while i < |volumes|
      invariant 0 <= i <= |volumes| == |service.volumes|
      invariant Bind(service.volumes[..i], node) == Some(volumes[..i])
      invariant volumes[i..] == service.volumes[i..]
      invariant localDelta == NewBytes(service.name, service.volumes[..i], Local, res.recorded)
      invariant sharedDelta == NewBytes(service.name, service.volumes[..i], Shared, res.recorded)
    {
      var v := volumes[i];
      assert v == service.volumes[i];
      OneMoreVolume(service, node, res.recorded, i);
      var id := VolumeId(service.name, v.name);
      match v.vtype {
        case Local =>
          if node.localCapacityBytes <= 0 || (v.boundNode != "" && v.boundNode != node.instanceId) {
            return None;
          }
          v := v.(boundNode := node.instanceId);
          if id !in res.recorded {
            localDelta := localDelta + v.sizeBytes;
          }
        case Shared =>
          if node.sharedBackendId == "" || (v.sharedBackendId != "" && v.sharedBackendId != node.sharedBackendId) {
            return None;
          }
          v := v.(sharedBackendId := node.sharedBackendId);
          if id !in res.recorded {
            sharedDelta := sharedDelta + v.sizeBytes;
          }
        case Unknown =>
      }
      ghost var before := volumes;
      volumes := volumes[i := v];
      assert volumes[..i + 1] == before[..i] + [v];
      assert volumes[i + 1..] == before[i + 1..] == before[i..][1..] == service.volumes[i + 1..];
      i := i + 1;
    }
    assert service.volumes[..i] == service.volumes && volumes[..i] == volumes;
    var local := Lookup(res.localByNode, node.instanceId) + Lookup(usedLocal, node.instanceId) + localDelta;
    if local > node.localCapacityBytes {
      return None;
    }
    if sharedDelta > 0 && node.sharedCapacityBytes > 0 {
      var backend := node.sharedBackendId;
      var shared := Lookup(res.sharedByBackend, backend) + Lookup(usedShared, backend) + sharedDelta;
      if shared > node.sharedCapacityBytes {
        return None;
      }
    }
    return Some(Fit(service.(volumes := volumes), localDelta, sharedDelta));
  }

  /** The node can hold the volume: it has a pool for local ones and is where they are retained;
      for shared ones the same of its backend. */
  predicate MayHold(node: Node, v: VolumeConfig) {
    && (v.vtype.Local? ==> node.localCapacityBytes > 0 && (v.boundNode == "" || v.boundNode == node.instanceId))
    && (v.vtype.Shared? ==>
          node.sharedBackendId != "" && (v.sharedBackendId == "" || v.sharedBackendId == node.sharedBackendId))
  }

  function Held(node: Node, v: VolumeConfig): VolumeConfig {
    v.(boundNode := if v.vtype.Local? then node.instanceId else v.boundNode,
       sharedBackendId := if v.vtype.Shared? then node.sharedBackendId else v.sharedBackendId)
  }

  /** What a binding does: it exists exactly when the node can hold each volume, and then it
      only fills in the binding. */
  lemma {:induction false} BindMeaning(volumes: seq<VolumeConfig>, node: Node)
    ensures Bind(volumes, node).Some? <==> forall i :: 0 <= i < |volumes| ==> BindOne(volumes[i], node).Some?
    ensures Bind(volumes, node).Some? <==> forall i :: 0 <= i < |volumes| ==> MayHold(node, volumes[i])
    ensures Bind(volumes, node).Some? ==>
              && |Bind(volumes, node).value| == |volumes|
              && forall i :: 0 <= i < |volumes| ==>
                   Bind(volumes, node).value[i] == BindOne(volumes[i], node).value == Held(node, volumes[i])
  {
    if volumes != [] {
      BindMeaning(volumes[1..], node);
      assert forall i :: 1 <= i < |volumes| ==> volumes[i] == volumes[1..][i - 1];
    }
  }

  // ------------------------------------------------------------- local binding

  /** The retained local bindings of a service: none, one node, or a conflict. */
  datatype Binding = Unbound | BoundTo(node: string) | Split

  predicate Clash(a: string, b: string) {
    a != "" && b != "" && a != b
  }

  ghost predicate IsBinding(service: ServiceConfig, b: Binding) {
    match b
    case Unbound => forall v :: v in service.volumes && v.vtype == Local ==> v.boundNode == ""
    case BoundTo(n) =>
      && n != ""
      && (exists v :: v in service.volumes && v.vtype == Local && v.boundNode == n)
      && (forall v :: v in service.volumes && v.vtype == Local ==> v.boundNode == "" || v.boundNode == n)
    case Split =>
      exists v, w :: v in service.volumes && w in service.volumes && v.vtype == Local && w.vtype == Local
        && Clash(v.boundNode, w.boundNode)
  }

  function LocalBindingFrom(volumes: seq<VolumeConfig>, bound: string): Binding {
    if volumes == [] then if bound == "" then Unbound else BoundTo(bound)
    else if volumes[0].vtype != Local || volumes[0].boundNode == "" then LocalBindingFrom(volumes[1..], bound)
    else if bound != "" && bound != volumes[0].boundNode then Split
    else LocalBindingFrom(volumes[1..], volumes[0].boundNode)
  }

  function LocalBinding(service: ServiceConfig): Binding {
    LocalBindingFrom(service.volumes, "")
  }

  lemma {:induction false} LocalBindingFromMeaning(volumes: seq<VolumeConfig>, bound: string)
    ensures match LocalBindingFrom(volumes, bound)
            case Unbound => bound == "" && forall v :: v in volumes && v.vtype == Local ==> v.boundNode == ""
            case BoundTo(n) =>
              && n != ""
              && (bound == n || (bound == "" && exists v :: v in volumes && v.vtype == Local && v.boundNode == n))
              && (forall v :: v in volumes && v.vtype == Local ==> v.boundNode == "" || v.boundNode == n)
            case Split =>
              || (exists v :: v in volumes && v.vtype == Local && Clash(v.boundNode, bound))
              || (exists v, w :: v in volumes && w in volumes && v.vtype == Local && w.vtype == Local
                    && Clash(v.boundNode, w.boundNode))
  {
    if volumes != [] {
      var skip := volumes[0].vtype != Local || volumes[0].boundNode == "";
      LocalBindingFromMeaning(volumes[1..], if skip then bound else volumes[0].boundNode);
      assert volumes[0] in volumes;
      assert forall v :: v in volumes <==> v == volumes[0] || v in volumes[1..];
    }
  }

  /** localBinding reports exactly the binding the volumes carry. */
  lemma LocalBindingMeaning(service: ServiceConfig)
    ensures IsBinding(service, LocalBinding(service))
    ensures forall b :: IsBinding(service, b) ==> b == LocalBinding(service)
  {
    LocalBindingFromMeaning(service.volumes, "");
  }

  predicate HasShared(service: ServiceConfig) {
    exists v :: v in service.volumes && v.vtype == Shared
  }
}
