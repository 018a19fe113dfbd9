/** Orders shared by the other modules: a stable insertion sort and when its result is unique, sets that remember
    the order of insertion, distinct keys in any order, and strings compared by their UTF-16 code units. */
module Ordering {
  function Insert<T>(x: T, sorted: seq<T>, below: (T, T) -> bool): seq<T> {
    if sorted == [] || !below(sorted[0], x) then [x] + sorted
    else [sorted[0]] + Insert(x, sorted[1..], below)
  }

  function Sorted<T>(xs: seq<T>, below: (T, T) -> bool): seq<T> {
    if xs == [] then [] else Insert(xs[0], Sorted(xs[1..], below), below)
  }

  ghost predicate WeakOrder<T(!new)>(below: (T, T) -> bool) {
    && (forall x, y :: below(x, y) ==> !below(y, x))
    && (forall x, y, z :: below(x, y) && !below(z, y) ==> below(x, z))
  }

  ghost predicate InOrder<T>(xs: seq<T>, below: (T, T) -> bool) {
    xs == [] || (InOrder(xs[1..], below) && forall y :: y in xs[1..] ==> !below(y, xs[0]))
  }

  /** No two different elements tie. */
  ghost predicate NoTies<T>(xs: multiset<T>, below: (T, T) -> bool) {
    forall x, y :: x in xs && y in xs && !below(x, y) && !below(y, x) ==> x == y
  }

  lemma {:induction false} InsertKeeps<T>(x: T, sorted: seq<T>, below: (T, T) -> bool)
    ensures multiset(Insert(x, sorted, below)) == multiset([x]) + multiset(sorted)
  {
    if sorted != [] && below(sorted[0], x) {
      InsertKeeps(x, sorted[1..], below);
      assert sorted == [sorted[0]] + sorted[1..];
    }
  }

  lemma {:induction false} SortedIsPermutation<T>(xs: seq<T>, below: (T, T) -> bool)
    ensures multiset(Sorted(xs, below)) == multiset(xs)
  {
    if xs != [] {
      SortedIsPermutation(xs[1..], below);
      InsertKeeps(xs[0], Sorted(xs[1..], below), below);
      assert xs == [xs[0]] + xs[1..];
    }
  }

  lemma {:induction false} InsertInOrder<T(!new)>(x: T, sorted: seq<T>, below: (T, T) -> bool)
    requires WeakOrder(below) && InOrder(sorted, below)
    ensures InOrder(Insert(x, sorted, below), below)
  {
    var result := Insert(x, sorted, below);
    if sorted == [] || !below(sorted[0], x) {
      assert result[1..] == sorted;
    } else {
      InsertInOrder(x, sorted[1..], below);
      InsertKeeps(x, sorted[1..], below);
      assert result[1..] == Insert(x, sorted[1..], below);
      forall y | y in result[1..] ensures !below(y, sorted[0]) { assert y in multiset(result[1..]); }
    }
  }

  lemma {:induction false} SortedInOrder<T(!new)>(xs: seq<T>, below: (T, T) -> bool)
    requires WeakOrder(below)
    ensures InOrder(Sorted(xs, below), below)
  {
    if xs != [] {
      SortedInOrder(xs[1..], below);
      InsertInOrder(xs[0], Sorted(xs[1..], below), below);
    }
  }

  lemma {:induction false} SameHead<T(!new)>(a: seq<T>, b: seq<T>, below: (T, T) -> bool)
    requires InOrder(a, below) && InOrder(b, below) && a != [] && b != []
    requires multiset(a) == multiset(b) && NoTies(multiset(a), below)
    ensures a[0] == b[0]
  {
    assert a[0] in multiset(b) && b[0] in multiset(a);
    assert a == [a[0]] + a[1..] && b == [b[0]] + b[1..];
    assert a[0] in b[1..] || a[0] == b[0];
    assert b[0] in a[1..] || a[0] == b[0];
  }

  /** Without ties there is one order only. */
  lemma {:induction false} OneOrder<T(!new)>(a: seq<T>, b: seq<T>, below: (T, T) -> bool)
    requires InOrder(a, below) && InOrder(b, below)
    requires multiset(a) == multiset(b) && NoTies(multiset(a), below)
    ensures a == b
  {
    hide NoTies;
    assert |multiset(a)| == |a| && |multiset(b)| == |b|;
    if a != [] {
      SameHead(a, b, below);
      assert a == [a[0]] + a[1..] && b == [b[0]] + b[1..];
      Tails(a[0], a[1..], b[1..]);
      FewerTies(multiset(a), multiset(a[1..]), below);
      OneOrder(a[1..], b[1..], below);
    }
  }

  lemma Tails<T>(x: T, a: seq<T>, b: seq<T>)
    requires multiset([x] + a) == multiset([x] + b)
    ensures multiset(a) == multiset(b)
  {
    assert multiset([x] + a) - multiset{x} == multiset(a);
    assert multiset([x] + b) - multiset{x} == multiset(b);
  }

  lemma FewerTies<T(!new)>(more: multiset<T>, fewer: multiset<T>, below: (T, T) -> bool)
    requires NoTies(more, below) && fewer <= more
    ensures NoTies(fewer, below)
  {
    forall x, y | x in fewer && y in fewer && !below(x, y) && !below(y, x) ensures x == y {
      assert x in more && y in more;
    }
  }

  /** Sorting forgets the order of what it is given. */
  lemma {:induction false} SortIsCanonical<T(!new)>(a: seq<T>, b: seq<T>, below: (T, T) -> bool)
    requires WeakOrder(below) && multiset(a) == multiset(b) && NoTies(multiset(a), below)
    ensures Sorted(a, below) == Sorted(b, below)
  {
    SortedIsPermutation(a, below);
    SortedIsPermutation(b, below);
    SortedInOrder(a, below);
    SortedInOrder(b, below);
    OneOrder(Sorted(a, below), Sorted(b, below), below);
  }

  lemma {:induction false} SortInOrder<T(!new)>(xs: seq<T>, below: (T, T) -> bool)
    requires WeakOrder(below) && InOrder(xs, below)
    ensures Sorted(xs, below) == xs
  {
    if xs != [] { SortInOrder(xs[1..], below); }
  }

  // ---------------------------------------------------------------------------
  // Sets that remember the order of insertion
  // ---------------------------------------------------------------------------

  function Added(list: seq<string>, item: string): seq<string> {
    if item in list then list else list + [item]
  }

  function Unique(list: seq<string>, items: seq<string>): seq<string>
    decreases |items|
  {
    if items == [] then list else Unique(Added(list, items[0]), items[1..])
  }

  ghost predicate Distinct(list: seq<string>) {
    forall i, j :: 0 <= i < j < |list| ==> list[i] != list[j]
  }

  lemma {:induction false} UniqueIsExact(list: seq<string>, items: seq<string>)
    requires Distinct(list)
    ensures Distinct(Unique(list, items)) && list <= Unique(list, items)
    ensures forall x :: x in Unique(list, items) <==> x in list || x in items
    decreases |items|
  {
    if items != [] { UniqueIsExact(Added(list, items[0]), items[1..]); }
  }

  lemma {:induction false} UniqueAppend(list: seq<string>, a: seq<string>, b: seq<string>)
    ensures Unique(list, a + b) == Unique(Unique(list, a), b)
    decreases |a|
  {
    if a == [] {
      assert a + b == b;
    } else {
      assert (a + b)[1..] == a[1..] + b;
      UniqueAppend(Added(list, a[0]), a[1..], b);
    }
  }

  // ---------------------------------------------------------------------------
  // Distinct keys
  // ---------------------------------------------------------------------------

  ghost predicate DistinctBy<T, K>(xs: seq<T>, key: T -> K) {
    forall i, j :: 0 <= i < j < |xs| ==> key(xs[i]) != key(xs[j])
  }

  lemma {:induction false} TwoPlaces<T>(xs: seq<T>, x: T) returns (i: nat, j: nat)
    requires multiset(xs)[x] >= 2
    ensures i < j < |xs| && xs[i] == x == xs[j]
  {
    assert xs == [xs[0]] + xs[1..];
    if xs[0] == x {
      assert x in multiset(xs[1..]);
      i := 0;
      j :| 1 <= j < |xs| && xs[j] == x;
    } else {
      i, j := TwoPlaces(xs[1..], x);
      i, j := i + 1, j + 1;
    }
  }

  lemma CountedTwice<T>(xs: seq<T>, i: nat, j: nat)
    requires i < j < |xs| && xs[i] == xs[j]
    ensures multiset(xs)[xs[i]] >= 2
  {
    assert xs == xs[..j] + [xs[j]] + xs[j + 1..];
    assert xs[i] in multiset(xs[..j]) by { assert xs[..j][i] == xs[i]; }
  }

  /** Distinct keys stay distinct in any other order. */
  lemma DistinctInAnyOrder<T, K>(xs: seq<T>, ys: seq<T>, key: T -> K)
    requires multiset(xs) == multiset(ys) && DistinctBy(xs, key)
    ensures DistinctBy(ys, key)
  {
    forall i: nat, j: nat | i < j < |ys| ensures key(ys[i]) != key(ys[j]) {
      if ys[i] == ys[j] {
        CountedTwice(ys, i, j);
        var k, l := TwoPlaces(xs, ys[i]);
      } else {
        assert ys[i] in multiset(xs) && ys[j] in multiset(xs);
        var k :| 0 <= k < |xs| && xs[k] == ys[i];
        var l :| 0 <= l < |xs| && xs[l] == ys[j];
        assert key(xs[k]) != key(xs[l]);
      }
    }
  }

  // ---------------------------------------------------------------------------
  // Strings
  // ---------------------------------------------------------------------------

  /** Where a character stands among UTF-16 code units: a character above U+FFFF starts with a surrogate, and
      surrogates come before U+E000. */
  function Rank(c: char): int {
    var n := c as int;
    if n < 0xE000 then n else if n < 0x1_0000 then n + 0x10_0000 else n - 0x2000
  }

  predicate Below(a: string, b: string) {
    if b == [] then false
    else if a == [] then true
    else if a[0] != b[0] then Rank(a[0]) < Rank(b[0])
    else Below(a[1..], b[1..])
  }

  lemma {:induction false} OneBelow(a: string, b: string)
    ensures a == b <==> !Below(a, b) && !Below(b, a)
    ensures Below(a, b) ==> !Below(b, a)
  {
    if a != [] && b != [] {
      if a[0] == b[0] {
        OneBelow(a[1..], b[1..]);
        assert a == [a[0]] + a[1..] && b == [b[0]] + b[1..];
      }
    }
  }

  lemma {:induction false} BelowThrough(a: string, b: string, c: string)
    requires Below(a, b) && !Below(c, b)
    ensures Below(a, c)
  {
    if c != [] && a != [] && a[0] == b[0] == c[0] { BelowThrough(a[1..], b[1..], c[1..]); }
  }

  lemma {:induction false} BelowIsOrder()
    ensures WeakOrder(Below)
  {
    forall x: string, y: string | Below(x, y) ensures !Below(y, x) { OneBelow(x, y); }
    forall x: string, y: string, z: string | Below(x, y) && !Below(z, y) ensures Below(x, z) { BelowThrough(x, y, z); }
  }

  lemma NoTiesBelow(xs: multiset<string>)
    ensures NoTies(xs, Below)
  {
    forall x, y | x in xs && y in xs && !Below(x, y) && !Below(y, x) ensures x == y { OneBelow(x, y); }
  }
}
