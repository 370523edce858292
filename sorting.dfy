/**
 * `sortProducts`: a stable sort of a copy of the list by price, ascending
 * for `'priceLowToHigh'`, descending for `'priceHighToLow'`, and no change
 * for any other key. The result of a stable sort is unique (see
 * `StableSortUnique`), so the insertion sort below yields exactly what the
 * engine's `Array.prototype.sort` yields.
 */
module Sorting {
  import opened Sequences
  import opened Catalog

  datatype Direction = LowToHigh | HighToLow

  datatype Option<T> = None | Some(value: T)

  /** The sort direction a `sortBy` value selects, if any. */
  function DirectionOf(sortBy: string): (d: Option<Direction>)
    ensures d == Some(LowToHigh) <==> sortBy == "priceLowToHigh"
    ensures d == Some(HighToLow) <==> sortBy == "priceHighToLow"
  {
    if sortBy == "priceLowToHigh" then Some(LowToHigh)
    else if sortBy == "priceHighToLow" then Some(HighToLow)
    else None
  }

  /**
   * The number the comparator subtracts: `a.price - b.price` is
   * `Rank(a) - Rank(b)` ascending, and `b.price - a.price` is the same
   * difference with ranks `-price` descending.
   */
  function Rank(price: int, dir: Direction): int {
    if dir == LowToHigh then price else -price
  }

  /** Ranks never decrease along `s`. */
  predicate SortedBy(s: seq<Product>, dir: Direction) {
    forall i, j :: 0 <= i < j < |s| ==> Rank(s[i].price, dir) <= Rank(s[j].price, dir)
  }

  /** Entries whose price is `v`, as a value that `Filter` can take. */
  function HasPrice(v: int): Product -> bool {
    (p: Product) => p.price == v
  }

  /** The entries of `s` that cost `v`, in their order in `s`. */
  function PricedAt(s: seq<Product>, v: int): seq<Product> {
    Filter(s, HasPrice(v))
  }

  /** Places `x` after every entry of `s` that does not rank above it. */
  function Insert(x: Product, s: seq<Product>, dir: Direction): seq<Product> {
    if s == [] then [x]
    else if Rank(x.price, dir) < Rank(s[0].price, dir) then [x] + s
    else [s[0]] + Insert(x, s[1..], dir)
  }

  /** The stable sort of `s` in direction `dir`, built by inserting entries left to right. */
  function StableSort(s: seq<Product>, dir: Direction): seq<Product>
    decreases |s|
  {
    if s == [] then []
    else Insert(s[|s| - 1], StableSort(s[..|s| - 1], dir), dir)
  }

  /** What `sortProducts` stores for a given `sortBy`. */
  function SortedFor(products: seq<Product>, sortBy: string): seq<Product> {
    match DirectionOf(sortBy)
    case None => products
    case Some(dir) => StableSort(products, dir)
  }

  lemma {:induction false} InsertPermutes(x: Product, s: seq<Product>, dir: Direction)
    ensures multiset(Insert(x, s, dir)) == multiset(s) + multiset{x}
  {
    if s != [] && Rank(s[0].price, dir) <= Rank(x.price, dir) {
      InsertPermutes(x, s[1..], dir);
      assert s == [s[0]] + s[1..];
    }
  }

  /** The stable sort is a permutation of its input. */
  lemma {:induction false} StableSortPermutes(s: seq<Product>, dir: Direction)
    ensures multiset(StableSort(s, dir)) == multiset(s)
    decreases |s|
  {
    if s != [] {
      var init := s[..|s| - 1];
      StableSortPermutes(init, dir);
      InsertPermutes(s[|s| - 1], StableSort(init, dir), dir);
      assert s == init + [s[|s| - 1]];
    }
  }

  lemma {:induction false} InsertSorted(x: Product, s: seq<Product>, dir: Direction)
    requires SortedBy(s, dir)
    ensures SortedBy(Insert(x, s, dir), dir)
  {
    if s != [] && Rank(s[0].price, dir) <= Rank(x.price, dir) {
      var rest := Insert(x, s[1..], dir);
      InsertSorted(x, s[1..], dir);
      InsertPermutes(x, s[1..], dir);
      forall k | 0 <= k < |rest|
        ensures Rank(s[0].price, dir) <= Rank(rest[k].price, dir)
      {
        assert rest[k] in multiset(rest);
        assert rest[k] == x || rest[k] in s[1..];
      }
    }
  }

  /** A sorted list holds no entry that ranks below its first. */
  lemma NoneBelowHead(s: seq<Product>, dir: Direction, v: int)
    requires s != [] && SortedBy(s, dir)
    requires Rank(v, dir) < Rank(s[0].price, dir)
    ensures PricedAt(s, v) == []
  {
    forall p | p in s
      ensures p.price != v
    {
      var k :| 0 <= k < |s| && s[k] == p;
      assert k == 0 || Rank(s[0].price, dir) <= Rank(s[k].price, dir);
    }
    FilterKeepsNone(s, HasPrice(v));
  }

  /** Inserting `x` appends it to the entries of its price and leaves the other prices alone. */
  lemma {:induction false} InsertPricedAt(x: Product, s: seq<Product>, dir: Direction, v: int)
    requires SortedBy(s, dir)
    ensures PricedAt(Insert(x, s, dir), v) == PricedAt(s, v) + PricedAt([x], v)
  {
    if s == [] {
      assert PricedAt(s, v) == [];
    } else if Rank(x.price, dir) < Rank(s[0].price, dir) {
      InsertFrontPricedAt(x, s, dir, v);
    } else {
      var tail := s[1..];
      assert SortedBy(tail, dir);
      InsertPricedAt(x, tail, dir, v);
      InsertPastHeadPricedAt(x, s, dir, v);
    }
  }

  lemma InsertFrontPricedAt(x: Product, s: seq<Product>, dir: Direction, v: int)
    requires SortedBy(s, dir) && s != [] && Rank(x.price, dir) < Rank(s[0].price, dir)
    ensures PricedAt(Insert(x, s, dir), v) == PricedAt(s, v) + PricedAt([x], v)
  {
    FilterConcat([x], s, HasPrice(v));
    if x.price == v {
      NoneBelowHead(s, dir, v);
    } else {
      PricedAtOther(x, v);
    }
  }

  lemma InsertPastHeadPricedAt(x: Product, s: seq<Product>, dir: Direction, v: int)
    requires s != [] && Rank(s[0].price, dir) <= Rank(x.price, dir)
    requires PricedAt(Insert(x, s[1..], dir), v) == PricedAt(s[1..], v) + PricedAt([x], v)
    ensures PricedAt(Insert(x, s, dir), v) == PricedAt(s, v) + PricedAt([x], v)
  {
  }

  lemma PricedAtOther(x: Product, v: int)
    requires x.price != v
    ensures PricedAt([x], v) == []
  {
    assert !HasPrice(v)(x);
    assert Filter([x], HasPrice(v)) == Filter([x][1..], HasPrice(v));
    assert [x][1..] == [];
  }

  lemma {:induction false} StableSortSorted(s: seq<Product>, dir: Direction)
    ensures SortedBy(StableSort(s, dir), dir)
    decreases |s|
  {
    if s != [] {
      StableSortSorted(s[..|s| - 1], dir);
      InsertSorted(s[|s| - 1], StableSort(s[..|s| - 1], dir), dir);
    }
  }

  /** Stability: for every price, the entries of that price keep their relative order. */
  lemma {:induction false} StableSortStable(s: seq<Product>, dir: Direction, v: int)
    ensures PricedAt(StableSort(s, dir), v) == PricedAt(s, v)
    decreases |s|
  {
    if s != [] {
      var init, last := s[..|s| - 1], s[|s| - 1];
      StableSortStable(init, dir, v);
      StableSortSorted(init, dir);
      InsertPricedAt(last, StableSort(init, dir), dir, v);
      assert init + [last] == s;
      FilterConcat(init, [last], HasPrice(v));
    }
  }

  /** The first entry of a list is among the entries of its own price. */
  lemma HeadIsPricedAt(s: seq<Product>)
    ensures s != [] ==> s[0] in PricedAt(s, s[0].price)
  {
  }

  /**
   * Two lists sorted in the same direction whose entries of each price
   * come in the same order are equal: a stable sort has one possible result.
   */
  lemma {:induction false} StableSortUnique(r1: seq<Product>, r2: seq<Product>, dir: Direction)
    requires SortedBy(r1, dir) && SortedBy(r2, dir)
    requires forall v :: PricedAt(r1, v) == PricedAt(r2, v)
    ensures r1 == r2
    decreases |r1|
  {
    HeadIsPricedAt(r1);
    HeadIsPricedAt(r2);
    if r1 == [] || r2 == [] {
    } else {
      var a, b := r1[0], r2[0];
      assert r1 == [a] + r1[1..] && r2 == [b] + r2[1..];
      if Rank(a.price, dir) < Rank(b.price, dir) {
        NoneBelowHead(r2, dir, a.price);
      } else if Rank(b.price, dir) < Rank(a.price, dir) {
        NoneBelowHead(r1, dir, b.price);
      } else {
        assert a.price == b.price;
        assert PricedAt(r1, a.price)[0] == a;
        assert PricedAt(r2, a.price)[0] == b;
        assert a == b;
        forall v
          ensures PricedAt(r1[1..], v) == PricedAt(r2[1..], v)
        {
          FilterConcat([a], r1[1..], HasPrice(v));
          FilterConcat([a], r2[1..], HasPrice(v));
          var n := |PricedAt([a], v)|;
          assert PricedAt(r1[1..], v) == PricedAt(r1, v)[n..];
          assert PricedAt(r2[1..], v) == PricedAt(r2, v)[n..];
        }
        StableSortUnique(r1[1..], r2[1..], dir);
      }
    }
  }

  /** `r` is the stable sort of `s` exactly when it is sorted and keeps each price's order. */
  lemma StableSortCharacterized(s: seq<Product>, r: seq<Product>, dir: Direction)
    ensures r == StableSort(s, dir) <==> SortedBy(r, dir) && forall v :: PricedAt(r, v) == PricedAt(s, v)
  {
    var t := StableSort(s, dir);
    StableSortSorted(s, dir);
    forall v
      ensures PricedAt(t, v) == PricedAt(s, v)
    {
      StableSortStable(s, dir, v);
    }
    if SortedBy(r, dir) && forall v :: PricedAt(r, v) == PricedAt(s, v) {
      StableSortUnique(r, t, dir);
    }
  }

  /**
   * Where `x` belongs in a sorted list: when every entry before index `j`
   * ranks at most `x` and every entry from `j` on ranks above it, inserting
   * `x` puts it at index `j`.
   */
  lemma {:induction false} InsertAt(x: Product, s: seq<Product>, dir: Direction, j: nat)
    requires j <= |s|
    requires forall k :: 0 <= k < j ==> Rank(s[k].price, dir) <= Rank(x.price, dir)
    requires forall k :: j <= k < |s| ==> Rank(x.price, dir) < Rank(s[k].price, dir)
    ensures Insert(x, s, dir) == s[..j] + [x] + s[j..]
  {
    if s == [] {
    } else if j == 0 {
      assert Rank(x.price, dir) < Rank(s[0].price, dir);
      assert s[..0] + [x] + s[0..] == [x] + s;
    } else {
      var tail := s[1..];
      assert forall k :: 0 <= k < j - 1 ==> Rank(tail[k].price, dir) <= Rank(x.price, dir);
      assert forall k :: j - 1 <= k < |tail| ==> Rank(x.price, dir) < Rank(tail[k].price, dir);
      InsertAt(x, tail, dir, j - 1);
      assert Insert(x, s, dir) == [s[0]] + Insert(x, tail, dir);
      SplitCons(s, x, j);
    }
  }

  lemma SplitCons(s: seq<Product>, x: Product, j: nat)
    requires 0 < j <= |s|
    ensures [s[0]] + (s[1..][..j - 1] + [x] + s[1..][j - 1..]) == s[..j] + [x] + s[j..]
  {
  }

  /**
   * One step of the insertion sort: `a[..i]` is sorted, and `a[i]` moves
   * left past every entry that ranks strictly above it.
   */
  method InsertLast(a: array<Product>, i: nat, dir: Direction)
    requires i < a.Length && SortedBy(a[..i], dir)
    modifies a
    ensures a[..i + 1] == Insert(old(a[i]), old(a[..i]), dir)
    ensures a[i + 1..] == old(a[i + 1..])
  {
    ghost var sorted := a[..i];
    assert SortedBy(sorted, dir);
    var x := a[i];
    var j := i;
    while j > 0 && Rank(x.price, dir) < Rank(a[j - 1].price, dir)
      invariant 0 <= j <= i
      invariant forall k :: 0 <= k < j ==> a[k] == sorted[k]
      invariant forall k :: j < k <= i ==> a[k] == sorted[k - 1]
      invariant forall k :: i < k < a.Length ==> a[k] == old(a[k])
      invariant forall k :: j <= k < i ==> Rank(x.price, dir) < Rank(sorted[k].price, dir)
    {
      a[j] := a[j - 1];
      j := j - 1;
    }
    a[j] := x;
    PlacedIsInserted(sorted, x, j, a[..i + 1], dir);
  }

  /**
   * The array after the shifting loop: the sorted prefix with `x` dropped
   * into index `j`, which is where `Insert` puts it.
   */
  lemma PlacedIsInserted(sorted: seq<Product>, x: Product, j: nat, placed: seq<Product>, dir: Direction)
    requires SortedBy(sorted, dir) && j <= |sorted| && |placed| == |sorted| + 1
    requires forall k :: 0 <= k < j ==> placed[k] == sorted[k]
    requires placed[j] == x
    requires forall k :: j < k < |placed| ==> placed[k] == sorted[k - 1]
    requires j == 0 || Rank(sorted[j - 1].price, dir) <= Rank(x.price, dir)
    requires forall k :: j <= k < |sorted| ==> Rank(x.price, dir) < Rank(sorted[k].price, dir)
    ensures placed == Insert(x, sorted, dir)
  {
    assert forall k :: 0 <= k < j ==> Rank(sorted[k].price, dir) <= Rank(x.price, dir) by {
      if j > 0 {
        assert forall k :: 0 <= k < j ==> Rank(sorted[k].price, dir) <= Rank(sorted[j - 1].price, dir);
      }
    }
    InsertAt(x, sorted, dir, j);
    assert placed == sorted[..j] + [x] + sorted[j..];
  }

  /**
   * The engine's in-place sort of `a[..]` with the comparator
   * `Rank(x) - Rank(y)`, written as an insertion sort over a growing sorted
   * prefix.
   */
  method SortInPlace(a: array<Product>, dir: Direction)
    modifies a
    ensures a[..] == StableSort(old(a[..]), dir)
  {
    ghost var s0 := a[..];
    var i := 0;
    while i < a.Length
      invariant 0 <= i <= a.Length
      invariant a[..i] == StableSort(s0[..i], dir)
      invariant a[i..] == s0[i..]
    {
      StableSortSorted(s0[..i], dir);
      assert a[i] == s0[i];
      InsertLast(a, i, dir);
      assert s0[..i + 1][..i] == s0[..i];
      i := i + 1;
    }
    assert s0[..a.Length] == s0;
  }

  /**
   * `sortProducts` (without the final `setProducts`): copies the list into
   * a fresh array, sorts that for the two price keys, and returns it.
   */
  method SortProducts(products: seq<Product>, sortBy: string) returns (sorted: seq<Product>)
    ensures sorted == SortedFor(products, sortBy)
    ensures multiset(sorted) == multiset(products)
    ensures sortBy == "priceLowToHigh" ==>
      forall i, j :: 0 <= i < j < |sorted| ==> sorted[i].price <= sorted[j].price
    ensures sortBy == "priceHighToLow" ==>
      forall i, j :: 0 <= i < j < |sorted| ==> sorted[i].price >= sorted[j].price
    ensures forall v :: PricedAt(sorted, v) == PricedAt(products, v)
    ensures sortBy != "priceLowToHigh" && sortBy != "priceHighToLow" ==> sorted == products
  {
    var a := new Product[|products|](i requires 0 <= i < |products| => products[i]);
    assert a[..] == products;
    if sortBy == "priceLowToHigh" {
      SortInPlace(a, LowToHigh);
    } else if sortBy == "priceHighToLow" {
      SortInPlace(a, HighToLow);
    }
    sorted := a[..];
    StableSortPermutes(products, LowToHigh);
    StableSortPermutes(products, HighToLow);
    match DirectionOf(sortBy)
    case Some(dir) =>
      StableSortCharacterized(products, sorted, dir);
    case None =>
  }
}
