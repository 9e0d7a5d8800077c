/**
 * The `SORTERS` table of the catalog page and the stable `Array.prototype.sort`
 * it is handed to. Every comparator in the table has the form `key(a) - key(b)`
 * (or a locale comparison, taken here as a comparison of ranks), so sorting with it
 * is a stable sort by an integer key.
 */
module CatalogSort {
  import opened Wrappers
  import opened CatalogProducts

  /** The five entries of `SORTERS`. */
  datatype Sorter = Featured | PriceAsc | PriceDesc | NameAsc | NameDesc

  /** `SORTERS[sort]`: only the five table names select a comparator. */
  function SorterFor(sort: string): (r: Option<Sorter>)
    ensures r.Some? <==> sort in ["featured", "price-asc", "price-desc", "name-asc", "name-desc"]
  {
    if sort == "featured" then Some(Featured)
    else if sort == "price-asc" then Some(PriceAsc)
    else if sort == "price-desc" then Some(PriceDesc)
    else if sort == "name-asc" then Some(NameAsc)
    else if sort == "name-desc" then Some(NameDesc)
    else None
  }

  /** `Number(p.price || 0)`: a missing price sorts as 0. */
  function PriceOrZero(p: Product): int {
    p.price.GetOr(0)
  }

  /**
   * The key each comparator subtracts. `rank` stands for the locale order
   * `localeCompare` uses on titles: `rank(a) < rank(b)` when `a` comes first.
   */
  function Key(sorter: Sorter, rank: string -> int, p: Product): int {
    match sorter
    case Featured => 0
    case PriceAsc => PriceOrZero(p)
    case PriceDesc => -PriceOrZero(p)
    case NameAsc => rank(p.title)
    case NameDesc => -rank(p.title)
  }

  /** The comparator `SORTERS[sort](a, b)`, as a sign. */
  function Compare(sorter: Sorter, rank: string -> int, a: Product, b: Product): (r: int)
    ensures r < 0 <==> Key(sorter, rank, a) < Key(sorter, rank, b)
    ensures r == 0 <==> Key(sorter, rank, a) == Key(sorter, rank, b)
  {
    Key(sorter, rank, a) - Key(sorter, rank, b)
  }

  /**
   * Inserts `x` after every element whose key is at most its own, scanning from the
   * back: the step of a stable insertion sort.
   */
  function Insert(sorted: seq<Product>, x: Product, key: Product -> int): (r: seq<Product>)
    ensures |r| == |sorted| + 1
  {
    if sorted == [] then [x]
    else if key(sorted[|sorted| - 1]) <= key(x) then sorted + [x]
    else Insert(sorted[..|sorted| - 1], x, key) + [sorted[|sorted| - 1]]
  }

  /** A stable sort of `s` by `key`. */
  function SortBy(s: seq<Product>, key: Product -> int): (r: seq<Product>)
    ensures |r| == |s|
  {
    if s == [] then [] else Insert(SortBy(s[..|s| - 1], key), s[|s| - 1], key)
  }

  predicate Sorted(s: seq<Product>, key: Product -> int) {
    forall i, j :: 0 <= i < j < |s| ==> key(s[i]) <= key(s[j])
  }

  lemma {:induction false} InsertSorted(sorted: seq<Product>, x: Product, key: Product -> int)
    requires Sorted(sorted, key)
    ensures Sorted(Insert(sorted, x, key), key)
    ensures forall y :: y in Insert(sorted, x, key) ==> y == x || y in sorted
  {
    if sorted != [] && key(sorted[|sorted| - 1]) > key(x) {
      var init := sorted[..|sorted| - 1];
      InsertSorted(init, x, key);
      var r := Insert(init, x, key);
      forall y | y in r ensures key(y) <= key(sorted[|sorted| - 1]) {
        if y != x {
          var k :| 0 <= k < |init| && init[k] == y;
          assert sorted[k] == y;
        }
      }
    }
  }

  /** The sort yields non-decreasing keys. */
  lemma {:induction false} SortBySorted(s: seq<Product>, key: Product -> int)
    ensures Sorted(SortBy(s, key), key)
  {
    if s != [] {
      SortBySorted(s[..|s| - 1], key);
      InsertSorted(SortBy(s[..|s| - 1], key), s[|s| - 1], key);
    }
  }

  lemma {:induction false} InsertPermutes(sorted: seq<Product>, x: Product, key: Product -> int)
    ensures multiset(Insert(sorted, x, key)) == multiset(sorted) + multiset{x}
  {
    if sorted != [] && key(sorted[|sorted| - 1]) > key(x) {
      var init := sorted[..|sorted| - 1];
      InsertPermutes(init, x, key);
      assert sorted == init + [sorted[|sorted| - 1]];
    }
  }

  /** The sort is a permutation of its input. */
  lemma {:induction false} SortByPermutes(s: seq<Product>, key: Product -> int)
    ensures multiset(SortBy(s, key)) == multiset(s)
  {
    if s != [] {
      SortByPermutes(s[..|s| - 1], key);
      InsertPermutes(SortBy(s[..|s| - 1], key), s[|s| - 1], key);
      assert s == s[..|s| - 1] + [s[|s| - 1]];
    }
  }

  /** The elements of `s` whose key is `k`, in order. */
  function WithKey(s: seq<Product>, key: Product -> int, k: int): seq<Product> {
    if s == [] then []
    else WithKey(s[..|s| - 1], key, k) + (if key(s[|s| - 1]) == k then [s[|s| - 1]] else [])
  }

  lemma {:induction false} WithKeyAppend(a: seq<Product>, b: seq<Product>, key: Product -> int, k: int)
    ensures WithKey(a + b, key, k) == WithKey(a, key, k) + WithKey(b, key, k)
  {
    if b == [] {
      assert a + b == a;
    } else {
      assert (a + b)[..|a + b| - 1] == a + b[..|b| - 1];
      WithKeyAppend(a, b[..|b| - 1], key, k);
    }
  }

  lemma WithKeySingle(x: Product, key: Product -> int, k: int)
    ensures WithKey([x], key, k) == if key(x) == k then [x] else []
  {
    assert [x][..0] == [];
  }

  lemma {:induction false} InsertStable(sorted: seq<Product>, x: Product, key: Product -> int, k: int)
    ensures WithKey(Insert(sorted, x, key), key, k) == WithKey(sorted, key, k) + WithKey([x], key, k)
  {
    if sorted == [] {
      assert Insert(sorted, x, key) == [x];
    } else if key(sorted[|sorted| - 1]) <= key(x) {
      WithKeyAppend(sorted, [x], key, k);
    } else {
      var init, last := sorted[..|sorted| - 1], sorted[|sorted| - 1];
      InsertStable(init, x, key, k);
      InsertStableShift(init, last, x, key, k);
      assert sorted == init + [last];
    }
  }

  /** The step of InsertStable when `x` moves left past `last`, whose key is larger. */
  lemma InsertStableShift(init: seq<Product>, last: Product, x: Product, key: Product -> int, k: int)
    requires key(last) > key(x)
    requires WithKey(Insert(init, x, key), key, k) == WithKey(init, key, k) + WithKey([x], key, k)
    ensures WithKey(Insert(init + [last], x, key), key, k) == WithKey(init + [last], key, k) + WithKey([x], key, k)
  {
    var sorted := init + [last];
    assert sorted[..|sorted| - 1] == init && sorted[|sorted| - 1] == last;
    assert Insert(sorted, x, key) == Insert(init, x, key) + [last];
    WithKeyAppend(Insert(init, x, key), [last], key, k);
    WithKeyAppend(init, [last], key, k);
    WithKeySingle(last, key, k);
    WithKeySingle(x, key, k);
    SwapWhenOneEmpty(WithKey(init, key, k), WithKey([x], key, k), WithKey([last], key, k));
  }

  lemma SwapWhenOneEmpty(a: seq<Product>, b: seq<Product>, c: seq<Product>)
    requires b == [] || c == []
    ensures a + b + c == a + c + b
  {
    if b == [] {
      assert a + b == a && a + c + b == a + c;
    } else {
      assert a + c == a && a + b + c == a + b;
    }
  }

  /** Stability: elements with equal keys keep their input order. */
  lemma {:induction false} SortByStable(s: seq<Product>, key: Product -> int, k: int)
    ensures WithKey(SortBy(s, key), key, k) == WithKey(s, key, k)
  {
    if s != [] {
      var init, last := s[..|s| - 1], s[|s| - 1];
      SortByStable(init, key, k);
      InsertStable(SortBy(init, key), last, key, k);
      assert s == init + [last];
      WithKeyAppend(init, [last], key, k);
    }
  }

  /** With a constant key (the `featured` comparator returns 0) the order is kept. */
  lemma {:induction false} SortByConstantKey(s: seq<Product>, key: Product -> int)
    requires forall p :: key(p) == 0
    ensures SortBy(s, key) == s
  {
    if s != [] {
      SortByConstantKey(s[..|s| - 1], key);
      assert s == s[..|s| - 1] + [s[|s| - 1]];
    }
  }

  /**
   * The list `applyFiltersAndRender` renders: the filtered list, sorted on a copy
   * when `sort` names a table entry and left as it is otherwise.
   */
  function Arrange(items: seq<Product>, sort: string, rank: string -> int): seq<Product> {
    match SorterFor(sort)
    case None => items
    case Some(sorter) => SortBy(items, p => Key(sorter, rank, p))
  }

  /**
   * What the sorters promise: the result is a permutation of the list; `featured` and
   * an unknown sort keep the input order; `price-asc` gives non-decreasing prices and
   * `price-desc` non-increasing ones, a missing price counting as 0.
   */
  lemma ArrangeSound(items: seq<Product>, sort: string, rank: string -> int)
    ensures multiset(Arrange(items, sort, rank)) == multiset(items)
    ensures sort == "featured" || SorterFor(sort).None? ==> Arrange(items, sort, rank) == items
    ensures sort == "price-asc" ==>
              forall i, j :: 0 <= i < j < |items| ==>
                PriceOrZero(Arrange(items, sort, rank)[i]) <= PriceOrZero(Arrange(items, sort, rank)[j])
    ensures sort == "price-desc" ==>
              forall i, j :: 0 <= i < j < |items| ==>
                PriceOrZero(Arrange(items, sort, rank)[i]) >= PriceOrZero(Arrange(items, sort, rank)[j])
  {
    match SorterFor(sort)
    case None =>
    case Some(sorter) =>
      var key := p => Key(sorter, rank, p);
      SortByPermutes(items, key);
      SortBySorted(items, key);
      if sorter == Featured {
        SortByConstantKey(items, key);
      }
  }

  /**
   * Where the insertion lands: after the last element whose key is at most `key(x)`,
   * when every later element has a larger key.
   */
  lemma {:induction false} InsertAt(sorted: seq<Product>, j: nat, x: Product, key: Product -> int)
    requires j <= |sorted| && (j == 0 || key(sorted[j - 1]) <= key(x))
    requires forall k :: j <= k < |sorted| ==> key(sorted[k]) > key(x)
    ensures Insert(sorted, x, key) == sorted[..j] + [x] + sorted[j..]
    decreases |sorted|
  {
    if j < |sorted| {
      var init, last := sorted[..|sorted| - 1], sorted[|sorted| - 1];
      InsertAt(init, j, x, key);
      assert init[..j] == sorted[..j];
      assert sorted[j..] == init[j..] + [last];
    } else {
      assert sorted[..j] == sorted;
    }
  }

  lemma SortByStep(s: seq<Product>, i: nat, key: Product -> int)
    requires i < |s|
    ensures SortBy(s[..i + 1], key) == Insert(SortBy(s[..i], key), s[i], key)
  {
    assert s[..i + 1][..i] == s[..i];
  }

  /** The inner loop of the sort: shifts `a[i]` left past every larger key in `a[..i]`. */
  method InsertLast(a: array<Product>, i: nat, key: Product -> int)
    requires i < a.Length
    modifies a
    ensures a[..i + 1] == Insert(old(a[..i]), old(a[i]), key)
    ensures a[i + 1..] == old(a[i + 1..])
  {
    ghost var sorted := a[..i];
    var x := a[i];
    var j := i;
    while j > 0 && key(a[j - 1]) > key(x)
      invariant 0 <= j <= i
      invariant forall k :: 0 <= k < j ==> a[k] == sorted[k]
      invariant forall k :: j < k <= i ==> a[k] == sorted[k - 1]
      invariant a[i + 1..] == old(a[i + 1..])
      invariant forall k :: j <= k < i ==> key(sorted[k]) > key(x)
    {
      a[j] := a[j - 1];
      j := j - 1;
    }
    a[j] := x;
    assert a[..i + 1] == Insert(sorted, x, key) by {
      InsertAt(sorted, j, x, key);
      ShiftedIsSplice(a[..i + 1], sorted, j, x);
    }
  }

  /** An array prefix that holds `sorted` with `x` written in at `j` is that splice. */
  lemma ShiftedIsSplice(t: seq<Product>, sorted: seq<Product>, j: nat, x: Product)
    requires j <= |sorted| && |t| == |sorted| + 1
    requires forall k :: 0 <= k < j ==> t[k] == sorted[k]
    requires t[j] == x
    requires forall k :: j < k < |t| ==> t[k] == sorted[k - 1]
    ensures t == sorted[..j] + [x] + sorted[j..]
  {
    var r := sorted[..j] + [x] + sorted[j..];
    forall k | 0 <= k < |t| ensures t[k] == r[k] {
      if k > j {
        assert r[k] == sorted[k - 1];
      }
    }
  }

  /** `items.sort(SORTERS[sort])` on the copied array: an insertion sort in place. */
  method SortInPlace(a: array<Product>, key: Product -> int)
    modifies a
    ensures a[..] == SortBy(old(a[..]), key)
  {
    ghost var s := a[..];
    var i := 0;
    while i < a.Length
      invariant 0 <= i <= a.Length
      invariant a[..i] == SortBy(s[..i], key)
      invariant a[i..] == s[i..]
    {
      assert a[i] == s[i];
      InsertLast(a, i, key);
      SortByStep(s, i, key);
      i := i + 1;
    }
    assert a[..] == a[..a.Length];
    assert s == s[..a.Length];
  }
}
