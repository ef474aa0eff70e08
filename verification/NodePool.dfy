/** A node's local pool: all retained manifests together against the configured capacity. */
module NodePool {
  import opened Types
  import opened Sums

  /** Applied size of every retained volume under the pool's path. */
  type Retained = map<VolumeId, int>

  const MAX_INT64 := 0x7fff_ffff_ffff_ffff

  ghost predicate Sizes(m: Retained) {
    forall id :: id in m ==> 0 <= m[id]
  }

  function Growth(retained: Retained, desired: Retained): Retained {
    map id | id in desired :: if desired[id] > Lookup(retained, id) then desired[id] - Lookup(retained, id) else 0
  }

  /** What checkCapacity admits: all volumes at their desired sizes fit into the capacity, and
      what has to grow fits into the free space. */
  ghost predicate Fits(retained: Retained, desired: Retained, capacity: int, available: int) {
    Sum(retained + desired) <= capacity && Sum(Growth(retained, desired)) <= available
  }

  lemma {:induction false} SumOfSizes(m: Retained)
    requires Sizes(m)
    ensures 0 <= Sum(m)
    decreases |m|
  {
    if m != map[] {
      var id := Pick(m);
      SumOfSizes(m - {id});
    }
  }

  lemma PartialSum(all: Retained, seen: Retained)
    requires Sizes(all) && seen.Keys <= all.Keys && forall id :: id in seen ==> seen[id] == all[id]
    ensures 0 <= Sum(seen) <= Sum(all)
  {
    SumOfSizes(seen);
    SumMonotone(seen, all);
  }

  /** The reservation loop: ranges over the volumes in any order and stops before the sum
      would leave 64 bits. */
  method SumReserved(all: Retained) returns (reserved: int, overflow: bool)
    requires Sizes(all)
    ensures overflow <==> Sum(all) > MAX_INT64
    ensures !overflow ==> reserved == Sum(all)
  {
    reserved := 0;
    var todo := all.Keys;
    ghost var seen: Retained := map[];
    while todo != {}
      invariant todo <= all.Keys && seen == map id | id in all && id !in todo :: all[id]
      invariant reserved == Sum(seen) <= MAX_INT64
      decreases |todo|
    {
      var id :| id in todo;
      var size := all[id];
      SumInsert(seen, id, size);
      todo, seen := todo - {id}, seen[id := size];
      PartialSum(all, seen);
      if size > 0 && reserved > MAX_INT64 - size {
        return reserved, true;
      }
      reserved := reserved + size;
    }
    assert seen == all;
    return reserved, false;
  }

  method SumGrowth(retained: Retained, desired: Retained) returns (growth: int)
    ensures growth == Sum(Growth(retained, desired))
  {
    growth := 0;
    var todo := desired.Keys;
    ghost var all, seen: Retained := Growth(retained, desired), map[];
    while todo != {}
      invariant todo <= desired.Keys && seen == map id | id in desired && id !in todo :: all[id]
      invariant growth == Sum(seen)
      decreases |todo|
    {
      var id :| id in todo;
      SumInsert(seen, id, all[id]);
      if desired[id] > Lookup(retained, id) {
        growth := growth + desired[id] - Lookup(retained, id);
      }
      todo, seen := todo - {id}, seen[id := all[id]];
    }
    assert seen == all;
  }

  /** checkCapacity */
  method CheckCapacity(retained: Retained, desired: Retained, capacity: int, available: int) returns (ok: bool)
    requires Sizes(retained) && Sizes(desired) && capacity <= MAX_INT64
    ensures ok <==> Fits(retained, desired, capacity, available)
  {
    var reserved, overflow := SumReserved(retained + desired);
    if overflow || reserved > capacity {
      return false;
    }
    var growth := SumGrowth(retained, desired);
    return growth <= available;
  }

  // ------------------------------------------------------- preparing a service's volumes

  /** The volumes of one service in the order they are prepared; a failure stops after `k`. */
  function After(retained: Retained, order: seq<VolumeId>, desired: Retained, k: nat): Retained
    requires k <= |order| && forall id :: id in order ==> id in desired
  {
    if k == 0 then retained
    else
      assert order[k - 1] in order;
      After(retained, order, desired, k - 1)[order[k - 1] := desired[order[k - 1]]]
  }

  ghost predicate Lists(order: seq<VolumeId>, desired: Retained) {
    (forall id :: id in order <==> id in desired) && forall i, j :: 0 <= i < j < |order| ==> order[i] != order[j]
  }

  /** The bytes that the volumes from `k` on have yet to give back. */
  function ToShrink(retained: Retained, order: seq<VolumeId>, desired: Retained, k: nat): int
    requires k <= |order| && forall id :: id in order ==> id in desired
    decreases |order| - k
  {
    if k == |order| then 0
    else
      var id := order[k];
      assert id in order;
      Lookup(retained, id) - desired[id] + ToShrink(retained, order, desired, k + 1)
  }

  lemma {:induction false} AfterMeaning(retained: Retained, order: seq<VolumeId>, desired: Retained, k: nat)
    requires Lists(order, desired) && k <= |order|
    ensures forall id :: id in After(retained, order, desired, k) <==> id in retained || id in order[..k]
    ensures forall id :: id in After(retained, order, desired, k) ==>
              After(retained, order, desired, k)[id] == if id in order[..k] then desired[id] else retained[id]
  {
    if k > 0 {
      AfterMeaning(retained, order, desired, k - 1);
      assert order[..k] == order[..k - 1] + [order[k - 1]];
    }
  }

  lemma AllPrepared(retained: Retained, order: seq<VolumeId>, desired: Retained)
    requires Lists(order, desired)
    ensures After(retained, order, desired, |order|) == retained + desired
  {
    AfterMeaning(retained, order, desired, |order|);
    assert order[..|order|] == order;
  }

  lemma OneMorePrepared(retained: Retained, order: seq<VolumeId>, desired: Retained, k: nat)
    requires Lists(order, desired) && k < |order|
    ensures order[k] in desired
    ensures Sum(After(retained, order, desired, k + 1)) ==
            Sum(After(retained, order, desired, k)) + desired[order[k]] - Lookup(retained, order[k])
  {
    AfterMeaning(retained, order, desired, k);
    assert order[k] in order && order[k] !in order[..k];
    SumInsert(After(retained, order, desired, k), order[k], desired[order[k]]);
  }

  lemma {:induction false} TotalAfter(retained: Retained, order: seq<VolumeId>, desired: Retained, k: nat)
    requires Lists(order, desired) && k <= |order|
    ensures Sum(After(retained, order, desired, k)) == Sum(retained + desired) + ToShrink(retained, order, desired, k)
    decreases |order| - k
  {
    if k == |order| {
      AllPrepared(retained, order, desired);
    } else {
      OneMorePrepared(retained, order, desired, k);
      TotalAfter(retained, order, desired, k + 1);
    }
  }

  /** After an admitted prepare went through, everything retained fits into the capacity. When
      it stops after `k` volumes, that holds exactly if the pool has room for what the rest
      was to give back, so it always does when nothing was to shrink. */
  lemma PoolStaysWithinCapacity(retained: Retained, order: seq<VolumeId>, desired: Retained, capacity: int,
                                available: int, k: nat)
    requires Lists(order, desired) && k <= |order| && Fits(retained, desired, capacity, available)
    ensures k == |order| ==> Sum(After(retained, order, desired, k)) <= capacity
    ensures Sum(After(retained, order, desired, k)) <= capacity <==>
            ToShrink(retained, order, desired, k) <= capacity - Sum(retained + desired)
    ensures (forall id :: id in desired ==> Lookup(retained, id) <= desired[id]) ==>
              Sum(After(retained, order, desired, k)) <= capacity
  {
    TotalAfter(retained, order, desired, k);
    if forall id :: id in desired ==> Lookup(retained, id) <= desired[id] {
      NothingToShrink(retained, order, desired, k);
    }
  }

  lemma {:induction false} NothingToShrink(retained: Retained, order: seq<VolumeId>, desired: Retained, k: nat)
    requires k <= |order| && (forall id :: id in order ==> id in desired)
    requires forall id :: id in desired ==> Lookup(retained, id) <= desired[id]
    ensures ToShrink(retained, order, desired, k) <= 0
    decreases |order| - k
  {
    if k < |order| {
      assert order[k] in order;
      NothingToShrink(retained, order, desired, k + 1);
    }
  }

  /** Nor does an admitted prepare need more new bytes than are free: whichever of its volumes are
      carried out, they take no more than that beyond what they had. */
  lemma NewBytesAreFree(retained: Retained, desired: Retained, capacity: int, available: int, part: Retained)
    requires Fits(retained, desired, capacity, available)
    requires part.Keys <= desired.Keys && forall id :: id in part ==> part[id] == desired[id]
    ensures Sum(part) - Sum(map id | id in part :: Lookup(retained, id)) <= available
  {
    var had := map id | id in part :: Lookup(retained, id);
    var more := map id | id in part :: part[id] - had[id];
    SumOfDifferences(part, had, more);
    SumMonotone(more, Growth(retained, desired));
  }

  /** Otherwise it need not: the first volume has grown into the room the second was to leave,
      and the second fails. */
  lemma PartialPrepareCanExceedCapacity(a: VolumeId, b: VolumeId)
    requires a != b
    ensures var retained, desired := map[a := 10, b := 20], map[a := 20, b := 10];
            Lists([a, b], desired) && Fits(retained, desired, 30, 10) && Sum(After(retained, [a, b], desired, 1)) > 30
  {
    var retained, desired: Retained := map[a := 10, b := 20], map[a := 20, b := 10];
    assert retained + desired == desired;
    SumOfTwo(a, 20, b, 10);
    SumOfTwo(a, 10, b, 0);
    assert Growth(retained, desired) == map[a := 10, b := 0];
    assert After(retained, [a, b], desired, 1) == map[a := 20, b := 20];
    SumOfTwo(a, 20, b, 20);
  }

  lemma SumOfTwo(a: VolumeId, x: int, b: VolumeId, y: int)
    requires a != b
    ensures Sum(map[a := x, b := y]) == x + y
  {
    var empty: Retained := map[];
    SumInsert(empty, a, x);
    SumInsert(empty[a := x], b, y);
    assert empty[a := x][b := y] == map[a := x, b := y];
  }
}
