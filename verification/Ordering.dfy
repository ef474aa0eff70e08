/** The library order and sort the source relies on: byte-wise string comparison and
    a stable sort by a strict order. */
module Ordering {

  predicate Less(a: string, b: string) {
    if |b| == 0 then false
    else if |a| == 0 then true
    else if a[0] != b[0] then a[0] < b[0]
    else Less(a[1..], b[1..])
  }

  lemma {:induction false} LessIsTotal(a: string, b: string)
    ensures a != b ==> Less(a, b) || Less(b, a)
    ensures !(Less(a, b) && Less(b, a))
    ensures !Less(a, a)
  {
    if |a| > 0 && |b| > 0 && a[0] == b[0] {
      LessIsTotal(a[1..], b[1..]);
      assert a == [a[0]] + a[1..] && b == [b[0]] + b[1..];
    }
    if |a| > 0 {
      LessIsTotal(a[1..], a[1..]);
    }
  }

  lemma {:induction false} LessIsTransitive(a: string, b: string, c: string)
    requires Less(a, b) && Less(b, c)
    ensures Less(a, c)
  {
    if |a| > 0 && a[0] == b[0] == c[0] {
      LessIsTransitive(a[1..], b[1..], c[1..]);
    }
  }

  /** `a` comes first at the first place where the two differ, or ends there. */
  ghost predicate DiffersAt(a: string, b: string, k: int) {
    && 0 <= k <= |a| && k < |b| && a[..k] == b[..k]
    && (k == |a| || a[k] < b[k])
  }

  lemma {:induction false} LessAtFirstDifference(a: string, b: string)
    ensures Less(a, b) <==> exists k :: DiffersAt(a, b, k)
  {
    if |a| > 0 && |b| > 0 && a[0] == b[0] {
      LessAtFirstDifference(a[1..], b[1..]);
      if k :| DiffersAt(a[1..], b[1..], k) {
        assert a[..k + 1] == [a[0]] + a[1..][..k] && b[..k + 1] == [b[0]] + b[1..][..k];
        assert DiffersAt(a, b, k + 1);
      }
      if k :| DiffersAt(a, b, k) {
        assert k > 0 && a[1..][..k - 1] == a[..k][1..] && b[1..][..k - 1] == b[..k][1..];
        assert DiffersAt(a[1..], b[1..], k - 1);
      }
    } else if |b| > 0 {
      assert a[..0] == b[..0];
      assert Less(a, b) ==> DiffersAt(a, b, 0);
    }
  }

  ghost predicate Sorted<T>(before: (T, T) -> bool, xs: seq<T>) {
    forall i, j :: 0 <= i < j < |xs| ==> before(xs[i], xs[j])
  }

  ghost predicate AsymmetricOn<T>(before: (T, T) -> bool, xs: seq<T>) {
    forall x, y :: x in xs && y in xs ==> !(before(x, y) && before(y, x))
  }

  /** `before` orders any two different positions of `xs` in exactly one way. */
  ghost predicate StrictOn<T>(before: (T, T) -> bool, xs: seq<T>) {
    && (forall x, y :: x in xs && y in xs ==> !(before(x, y) && before(y, x)))
    && (forall x, y, z :: x in xs && y in xs && z in xs && before(x, y) && before(y, z) ==> before(x, z))
    && (forall i, j :: 0 <= i < j < |xs| ==> before(xs[i], xs[j]) || before(xs[j], xs[i]))
  }

  /** Ordering by distinct string keys is strict. */
  lemma KeysOrderStrictly<T(!new)>(before: (T, T) -> bool, key: T -> string, xs: seq<T>)
    requires forall x, y :: before(x, y) == Less(key(x), key(y))
    requires forall i, j :: 0 <= i < j < |xs| ==> key(xs[i]) != key(xs[j])
    ensures StrictOn(before, xs)
  {
    forall x, y | x in xs && y in xs ensures !(before(x, y) && before(y, x)) {
      LessIsTotal(key(x), key(y));
    }
    forall x, y, z | x in xs && y in xs && z in xs && before(x, y) && before(y, z) ensures before(x, z) {
      LessIsTransitive(key(x), key(y), key(z));
    }
    forall i, j | 0 <= i < j < |xs| ensures before(xs[i], xs[j]) || before(xs[j], xs[i]) {
      LessIsTotal(key(xs[i]), key(xs[j]));
    }
  }

  function Insert<T>(before: (T, T) -> bool, x: T, xs: seq<T>): seq<T> {
    if xs == [] then [x]
    else if before(xs[0], x) then [xs[0]] + Insert(before, x, xs[1..])
    else [x] + xs
  }

  /** sort.SliceStable: elements that compare equal keep their input order. */
  function SortBy<T>(before: (T, T) -> bool, xs: seq<T>): seq<T> {
    if xs == [] then [] else Insert(before, xs[0], SortBy(before, xs[1..]))
  }

  lemma {:induction false} InsertPermutes<T>(before: (T, T) -> bool, x: T, xs: seq<T>)
    ensures multiset(Insert(before, x, xs)) == multiset{x} + multiset(xs)
  {
    if xs != [] && before(xs[0], x) {
      InsertPermutes(before, x, xs[1..]);
      assert xs == [xs[0]] + xs[1..];
    }
  }

  lemma {:induction false} SortPermutes<T>(before: (T, T) -> bool, xs: seq<T>)
    ensures multiset(SortBy(before, xs)) == multiset(xs)
  {
    if xs != [] {
      SortPermutes(before, xs[1..]);
      InsertPermutes(before, xs[0], SortBy(before, xs[1..]));
      assert xs == [xs[0]] + xs[1..];
    }
  }

  lemma {:induction false} InsertSorted<T>(before: (T, T) -> bool, x: T, xs: seq<T>)
    requires Sorted(before, xs)
    requires forall y :: y in xs ==> before(x, y) || before(y, x)
    requires forall y, z :: y in xs && z in xs && before(x, y) && before(y, z) ==> before(x, z)
    ensures Sorted(before, Insert(before, x, xs))
  {
    if xs != [] && before(xs[0], x) {
      InsertSorted(before, x, xs[1..]);
      var rest := Insert(before, x, xs[1..]);
      InsertPermutes(before, x, xs[1..]);
      forall y | y in rest ensures before(xs[0], y) {
        assert y in multiset(rest);
        assert y == x || y in xs[1..];
      }
    } else if xs != [] {
      forall j | 0 <= j < |xs| ensures before(x, xs[j]) {
        assert before(x, xs[0]);
      }
    }
  }

  lemma SamePlaces<T>(before: (T, T) -> bool, xs: seq<T>)
    requires StrictOn(before, xs) && xs != []
    ensures StrictOn(before, xs[1..])
  {
    forall i, j | 0 <= i < j < |xs[1..]| ensures before(xs[1..][i], xs[1..][j]) || before(xs[1..][j], xs[1..][i]) {
      assert xs[1..][i] == xs[i + 1] && xs[1..][j] == xs[j + 1];
    }
  }

  lemma {:induction false} SortSorts<T>(before: (T, T) -> bool, xs: seq<T>)
    requires StrictOn(before, xs)
    ensures Sorted(before, SortBy(before, xs))
    ensures multiset(SortBy(before, xs)) == multiset(xs)
  {
    SortPermutes(before, xs);
    if xs != [] {
      SamePlaces(before, xs);
      SortSorts(before, xs[1..]);
      var rest := SortBy(before, xs[1..]);
      forall y | y in rest ensures y in xs && (before(xs[0], y) || before(y, xs[0])) {
        assert y in multiset(rest);
        var j :| 0 <= j < |xs[1..]| && xs[1..][j] == y;
        assert xs[j + 1] == y;
      }
      InsertSorted(before, xs[0], rest);
    }
  }

  lemma TailBag<T>(before: (T, T) -> bool, xs: seq<T>)
    requires xs != [] && Sorted(before, xs)
    ensures multiset(xs[1..]) == multiset(xs) - multiset{xs[0]}
    ensures Sorted(before, xs[1..])
    ensures AsymmetricOn(before, xs) ==> AsymmetricOn(before, xs[1..])
  {
    assert xs == [xs[0]] + xs[1..];
  }

  lemma SortedHeadsAgree<T>(before: (T, T) -> bool, xs: seq<T>, ys: seq<T>)
    requires Sorted(before, xs) && Sorted(before, ys) && multiset(xs) == multiset(ys) && xs != []
    requires AsymmetricOn(before, xs)
    ensures ys != [] && xs[0] == ys[0]
  {
    assert xs[0] in multiset(xs) && xs[0] in multiset(ys);
    assert ys[0] in multiset(ys) && ys[0] in multiset(xs);
  }

  lemma TailsAgree<T>(before: (T, T) -> bool, xs: seq<T>, ys: seq<T>)
    requires Sorted(before, xs) && Sorted(before, ys) && multiset(xs) == multiset(ys) && xs != []
    requires AsymmetricOn(before, xs)
    ensures ys != [] && xs[0] == ys[0] && multiset(xs[1..]) == multiset(ys[1..])
    ensures Sorted(before, xs[1..]) && Sorted(before, ys[1..]) && AsymmetricOn(before, xs[1..])
  {
    SortedHeadsAgree(before, xs, ys);
    TailBag(before, xs);
    TailBag(before, ys);
  }

  /** A strict order leaves one way to list a given bag of elements. */
  lemma {:induction false} SortedIsUnique<T>(before: (T, T) -> bool, xs: seq<T>, ys: seq<T>)
    requires Sorted(before, xs) && Sorted(before, ys) && multiset(xs) == multiset(ys)
    requires AsymmetricOn(before, xs)
    ensures xs == ys
  {
    if xs == [] {
      assert |multiset(ys)| == |ys|;
    } else {
      TailsAgree(before, xs, ys);
      SortedIsUnique(before, xs[1..], ys[1..]);
      assert xs == [xs[0]] + xs[1..] && ys == [ys[0]] + ys[1..];
    }
  }

  lemma SameElements<T>(xs: seq<T>, ys: seq<T>)
    requires multiset(xs) == multiset(ys)
    ensures |xs| == |ys|
    ensures forall x :: x in xs <==> x in ys
  {
    assert |multiset(xs)| == |xs| && |multiset(ys)| == |ys|;
    assert forall x :: x in xs <==> x in multiset(xs);
    assert forall y :: y in ys <==> y in multiset(ys);
  }

  lemma BagWithout<T>(ys: seq<T>, j: nat)
    requires j < |ys|
    ensures multiset(ys[..j] + ys[j + 1..]) == multiset(ys) - multiset{ys[j]}
  {
    assert ys == ys[..j] + ([ys[j]] + ys[j + 1..]);
  }

  lemma WithoutHead<T>(xs: seq<T>)
    requires xs != []
    ensures multiset(xs[1..]) == multiset(xs) - multiset{xs[0]}
  {
    assert xs == [xs[0]] + xs[1..];
  }

  lemma Find<T>(x: T, ys: seq<T>) returns (j: nat)
    requires x in ys
    ensures j < |ys| && ys[j] == x
  {
    j :| 0 <= j < |ys| && ys[j] == x;
  }

  lemma RemoveFromBag<T>(xs: seq<T>, ys: seq<T>) returns (j: nat)
    requires multiset(xs) == multiset(ys) && xs != []
    ensures j < |ys| && ys[j] == xs[0]
    ensures multiset(xs[1..]) == multiset(ys[..j] + ys[j + 1..])
  {
    SameElements(xs, ys);
    j := Find(xs[0], ys);
    BagWithout(ys, j);
    WithoutHead(xs);
  }

  /** Images of the same bag under a function are the same bag. */
  lemma {:induction false} BagOfImages<T, U>(f: T -> U, xs: seq<T>, ys: seq<T>)
    requires multiset(xs) == multiset(ys)
    ensures multiset(Images(f, xs)) == multiset(Images(f, ys))
    decreases |xs|
  {
    SameElements(xs, ys);
    if xs != [] {
      var j := RemoveFromBag(xs, ys);
      var rest := ys[..j] + ys[j + 1..];
      BagOfImages(f, xs[1..], rest);
      assert Images(f, xs) == [f(xs[0])] + Images(f, xs[1..]);
      assert Images(f, ys) == Images(f, ys[..j]) + [f(ys[j])] + Images(f, ys[j + 1..]);
      assert Images(f, rest) == Images(f, ys[..j]) + Images(f, ys[j + 1..]);
    }
  }

  function Images<T, U>(f: T -> U, xs: seq<T>): seq<U> {
    seq(|xs|, i requires 0 <= i < |xs| => f(xs[i]))
  }

  /** Sorting by a strict order forgets the input order. */
  lemma SortForgetsOrder<T>(before: (T, T) -> bool, xs: seq<T>, ys: seq<T>)
    requires StrictOn(before, xs) && StrictOn(before, ys) && multiset(xs) == multiset(ys)
    ensures SortBy(before, xs) == SortBy(before, ys)
  {
    SortSorts(before, xs);
    SortSorts(before, ys);
    var sx, sy := SortBy(before, xs), SortBy(before, ys);
    assert AsymmetricOn(before, sx) by {
      SameElements(xs, sx);
    }
    SortedIsUnique(before, sx, sy);
  }
}
