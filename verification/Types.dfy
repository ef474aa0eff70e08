/** Entities shared by the control plane and the agent. */
module Types {

  datatype Option<+T> = None | Some(value: T)

  /** Go map lookup: a missing key reads as the zero value. */
  function Lookup<K>(m: map<K, int>, k: K): int {
    if k in m then m[k] else 0
  }

  /** unicode.IsSpace */
  predicate Space(c: char) {
    || '\t' <= c <= '\r' || c == ' ' || c == '\U{85}' || c == '\U{A0}' || c == '\U{1680}'
    || '\U{2000}' <= c <= '\U{200A}'
    || c == '\U{2028}' || c == '\U{2029}' || c == '\U{202F}' || c == '\U{205F}' || c == '\U{3000}'
  }

  datatype VolumeType = Local | Shared | Unknown

  datatype VolumeConfig = VolumeConfig(
    name: string, vtype: VolumeType, mountPath: string, sizeBytes: int,
    boundNode: string, sharedBackendId: string, resizeGeneration: int)

  /** The logical ID "service/volume". Neither part may hold a slash (the store key
      is refused otherwise), so the pair stands for the joined string. */
  datatype VolumeId = VolumeId(service: string, volume: string)

  datatype NetworkConfig = NetworkConfig(
    iface: string, hostDevName: string, guestMAC: string, guestIP: string)

  datatype PortForward = PortForward(hostPort: int, vmPort: int)

  datatype HealthCheck = HealthCheck(kind: string, port: int, path: string, timing: string)

  /** Links stand for themselves: nothing here looks inside. */
  datatype ServiceConfig = ServiceConfig(
    name: string, image: string, kernel: string, vcpus: int, memoryMB: int,
    kernelArgs: string, network: Option<NetworkConfig>, portForwards: seq<PortForward>,
    antiAffinityGroup: string, volumes: seq<VolumeConfig>,
    healthCheck: Option<HealthCheck>, metadata: map<string, string>, env: map<string, string>,
    links: seq<string>, crossNodeLinks: seq<string>, nodeHostIPEnv: string)

  datatype NodeConfig = NodeConfig(node: string, services: seq<ServiceConfig>)

  ghost predicate DistinctNames(services: seq<ServiceConfig>) {
    forall i, j :: 0 <= i < j < |services| ==> services[i].name != services[j].name
  }

  ghost predicate DistinctIn(volumes: seq<VolumeConfig>) {
    forall i, j :: 0 <= i < j < |volumes| ==> volumes[i].name != volumes[j].name
  }

  ghost predicate DistinctVolumes(service: ServiceConfig) {
    DistinctIn(service.volumes)
  }
}
