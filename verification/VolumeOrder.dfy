/** Volumes by name, the order in which the agent compares, prepares and attaches them. */
module VolumeOrder {
  import opened Types
  import opened Ordering

  predicate VolumeBefore(a: VolumeConfig, b: VolumeConfig) {
    Less(a.name, b.name)
  }

  lemma NamesOrder(volumes: seq<VolumeConfig>)
    requires DistinctIn(volumes)
    ensures StrictOn(VolumeBefore, volumes)
  {
    KeysOrderStrictly(VolumeBefore, (v: VolumeConfig) => v.name, volumes);
  }
}
