/** The object store: every write gives the object a new token, and a conditional write
    succeeds only on an absent object or on the token it names (If-None-Match and If-Match,
    sections 13.1.2 and 13.1.1 of RFC 9110). */
module CasStore {

  datatype Cell<+V> = Cell(token: nat, value: V)

  /** What a read returned. */
  datatype Snap<+V> = Missing | Seen(cell: Cell<V>)

  datatype Store<K(==), V> = Store(cells: map<K, Cell<V>>, next: nat)
  {
    ghost predicate Valid() {
      forall k :: k in cells ==> cells[k].token < next
    }

    function Get(k: K): Snap<V> {
      if k in cells then Seen(cells[k]) else Missing
    }

    function Put(k: K, v: V): Store<K, V> {
      Store(cells[k := Cell(next, v)], next + 1)
    }

    predicate Absent(k: K) {
      k !in cells
    }

    predicate Matches(k: K, token: nat) {
      k in cells && cells[k].token == token
    }

    function Delete(k: K): Store<K, V> {
      Store(cells - {k}, next)
    }

    /** The condition a read value was got under: the write that replaces it must find the
        same object again. */
    predicate Unchanged(k: K, snap: Snap<V>) {
      match snap
      case Missing => Absent(k)
      case Seen(cell) => Matches(k, cell.token)
    }

    /** PutIfAbsent or PutIfMatch, according to what was read. */
    function PutIf(k: K, snap: Snap<V>, v: V): Store<K, V> {
      if Unchanged(k, snap) then Put(k, v) else this
    }

    /** `cell` was once the object at `k`, or never conflicts with one: its token is spent,
        and if the object still carries it, the object is `cell`. */
    ghost predicate Honest(k: K, cell: Cell<V>) {
      && cell.token < next
      && (k in cells && cells[k].token == cell.token ==> cells[k] == cell)
    }

    ghost predicate HonestSnap(k: K, snap: Snap<V>) {
      snap.Seen? ==> Honest(k, snap.cell)
    }
  }

  /** No lost update: a conditional write that goes through replaces the very value that was
      read, whatever other writers did in between. */
  lemma WriteReplacesWhatWasRead<K, V>(s: Store<K, V>, k: K, snap: Snap<V>)
    requires s.HonestSnap(k, snap) && s.Unchanged(k, snap)
    ensures s.Get(k) == snap
  {
  }
}
