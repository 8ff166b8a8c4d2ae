/**
 * The sorted view of a DataTable (`sortedData` in DataTable.tsx): the rows sorted
 * by one field with the comparator the component hands to `Array.prototype.sort`,
 * which ECMA-262 requires to be a stable sort.
 *
 * Rows are of any type with equality; the value a row holds in a field is read
 * through a total accessor `value(row, key)` with integer results.
 */
module DataTableSort {
  import opened Wrappers

  datatype Direction = Ascending | Descending

  /** The `sortConfig` state when it is not null. */
  datatype SortConfig = SortConfig(key: string, direction: Direction)

  /** `a` may stand before `b` in a table sorted in direction `d`. */
  predicate Precedes(d: Direction, a: int, b: int)
  {
    if d == Ascending then a <= b else a >= b
  }

  /** The comparator passed to `sort`, applied to the two cell values. */
  function Compare(d: Direction, a: int, b: int): (c: int)
    ensures c == -1 || c == 0 || c == 1
    ensures c == 0 <==> a == b
    ensures c <= 0 <==> Precedes(d, a, b)
  {
    if a < b then (if d == Ascending then -1 else 1)
    else if a > b then (if d == Ascending then 1 else -1)
    else 0
  }

  /**
   * The comparator is consistent in the sense ECMA-262 asks of a sort
   * comparator: its sign is antisymmetric and "not after" is transitive,
   * so every stable sort with it has one and the same result.
   */
  lemma CompareIsConsistent(d: Direction, a: int, b: int, c: int)
    ensures Compare(d, a, b) == -Compare(d, b, a)
    ensures Compare(d, a, b) <= 0 && Compare(d, b, c) <= 0 ==> Compare(d, a, c) <= 0
    ensures Compare(d, a, b) == 0 && Compare(d, b, c) == 0 ==> Compare(d, a, c) == 0
  {
  }

  /** Every pair of rows of `t` stands in the order direction `d` asks for. */
  ghost predicate Ordered<R>(t: seq<R>, d: Direction, cell: R -> int)
  {
    forall i, j :: 0 <= i < j < |t| ==> Precedes(d, cell(t[i]), cell(t[j]))
  }

  /** The rows of `s` whose cell equals `v`, in the order of `s`. */
  function WithKey<R>(s: seq<R>, cell: R -> int, v: int): (r: seq<R>)
  {
    if s == [] then []
    else if cell(s[0]) == v then [s[0]] + WithKey(s[1..], cell, v)
    else WithKey(s[1..], cell, v)
  }

  /** Inserts `x` into `t` in front of the first row that does not sort strictly before it. */
  function Insert<R>(x: R, t: seq<R>, d: Direction, cell: R -> int): (r: seq<R>)
    ensures multiset(r) == multiset(t) + multiset{x}
    ensures |r| == |t| + 1
  {
    if t == [] then [x]
    else if Compare(d, cell(x), cell(t[0])) > 0 then
      assert t == [t[0]] + t[1..];
      [t[0]] + Insert(x, t[1..], d, cell)
    else [x] + t
  }

  /** A stable sort of `s` with the comparator on `cell`, in direction `d`. */
  function StableSort<R>(s: seq<R>, d: Direction, cell: R -> int): (r: seq<R>)
    ensures multiset(r) == multiset(s)
    ensures |r| == |s|
  {
    if s == [] then []
    else
      assert s == [s[0]] + s[1..];
      Insert(s[0], StableSort(s[1..], d, cell), d, cell)
  }

  /** The cell a row holds under `key`, as a function of the row. */
  function CellOf<R>(value: (R, string) -> int, key: string): (cell: R -> int)
  {
    (row: R) => value(row, key)
  }

  lemma CellOfApply<R>(value: (R, string) -> int, key: string, row: R)
    ensures CellOf(value, key)(row) == value(row, key)
  {
  }

  /** `sortedData`: the rows as they are when nothing is sorted, otherwise sorted by the key's cells. */
  function SortedData<R>(data: seq<R>, config: Option<SortConfig>, value: (R, string) -> int): (r: seq<R>)
    ensures multiset(r) == multiset(data)
    ensures config.None? ==> r == data
  {
    match config
    case None => data
    case Some(c) => StableSort(data, c.direction, CellOf(value, c.key))
  }

  /** `t` satisfies the definition of a stable sort of `s`. */
  ghost predicate IsStableSortOf<R>(t: seq<R>, s: seq<R>, d: Direction, cell: R -> int)
  {
    && Ordered(t, d, cell)
    && forall v :: WithKey(t, cell, v) == WithKey(s, cell, v)
  }

  lemma {:induction false} WithKeyMember<R>(s: seq<R>, cell: R -> int, v: int, x: R)
    requires x in WithKey(s, cell, v)
    ensures x in s && cell(x) == v
  {
    if s != [] && !(cell(s[0]) == v && x == s[0]) {
      WithKeyMember(s[1..], cell, v, x);
    }
  }

  /** Inserting `x` puts it in front of every row with the same cell. */
  lemma {:induction false} InsertWithKey<R>(x: R, t: seq<R>, d: Direction, cell: R -> int, v: int)
    ensures WithKey(Insert(x, t, d, cell), cell, v)
         == (if cell(x) == v then [x] + WithKey(t, cell, v) else WithKey(t, cell, v))
  {
    var r := Insert(x, t, d, cell);
    if t == [] {
      assert r == [x];
      assert [x][1..] == [];
    } else if Compare(d, cell(x), cell(t[0])) > 0 {
      var rest := Insert(x, t[1..], d, cell);
      assert r == [t[0]] + rest;
      assert r[0] == t[0] && r[1..] == rest;
      InsertWithKey(x, t[1..], d, cell, v);
      assert cell(x) == v ==> cell(t[0]) != v;
    } else {
      assert r == [x] + t;
      assert r[0] == x && r[1..] == t;
    }
  }

  /** A row that may precede `x` and every row of `t` may precede every row of `Insert(x, t)`. */
  lemma InsertBound<R>(y: R, x: R, t: seq<R>, d: Direction, cell: R -> int)
    requires Precedes(d, cell(y), cell(x))
    requires forall k :: 0 <= k < |t| ==> Precedes(d, cell(y), cell(t[k]))
    ensures forall k :: 0 <= k < |Insert(x, t, d, cell)| ==> Precedes(d, cell(y), cell(Insert(x, t, d, cell)[k]))
  {
    var r := Insert(x, t, d, cell);
    forall k | 0 <= k < |r| ensures Precedes(d, cell(y), cell(r[k])) {
      assert r[k] in multiset(r);
      if r[k] != x {
        assert r[k] in multiset(t);
        var j :| 0 <= j < |t| && t[j] == r[k];
      }
    }
  }

  /** `[y] + u` is ordered when `u` is and `y` may precede every row of `u`. */
  lemma OrderedCons<R>(y: R, u: seq<R>, d: Direction, cell: R -> int)
    requires Ordered(u, d, cell)
    requires forall k :: 0 <= k < |u| ==> Precedes(d, cell(y), cell(u[k]))
    ensures Ordered([y] + u, d, cell)
  {
    var r := [y] + u;
    forall i, j | 0 <= i < j < |r| ensures Precedes(d, cell(r[i]), cell(r[j])) {
      assert r[j] == u[j - 1];
      if i > 0 {
        assert r[i] == u[i - 1];
      }
    }
  }

  lemma {:induction false} InsertOrdered<R>(x: R, t: seq<R>, d: Direction, cell: R -> int)
    requires Ordered(t, d, cell)
    ensures Ordered(Insert(x, t, d, cell), d, cell)
  {
    if t == [] {
      assert Insert(x, t, d, cell) == [x];
    } else if Compare(d, cell(x), cell(t[0])) > 0 {
      OrderedTail(t, d, cell);
      InsertOrdered(x, t[1..], d, cell);
      forall k | 0 <= k < |t[1..]| ensures Precedes(d, cell(t[0]), cell(t[1..][k])) {
        assert t[1..][k] == t[k + 1];
      }
      InsertBound(t[0], x, t[1..], d, cell);
      OrderedCons(t[0], Insert(x, t[1..], d, cell), d, cell);
    } else {
      forall k | 0 <= k < |t| ensures Precedes(d, cell(x), cell(t[k])) {
        if k > 0 {
          assert Precedes(d, cell(t[0]), cell(t[k]));
        }
      }
      OrderedCons(x, t, d, cell);
    }
  }

  lemma {:induction false} StableSortOrdered<R>(s: seq<R>, d: Direction, cell: R -> int)
    ensures Ordered(StableSort(s, d, cell), d, cell)
  {
    if s != [] {
      StableSortOrdered(s[1..], d, cell);
      InsertOrdered(s[0], StableSort(s[1..], d, cell), d, cell);
    }
  }

  lemma {:induction false} StableSortWithKey<R>(s: seq<R>, d: Direction, cell: R -> int, v: int)
    ensures WithKey(StableSort(s, d, cell), cell, v) == WithKey(s, cell, v)
  {
    if s != [] {
      StableSortWithKey(s[1..], d, cell, v);
      InsertWithKey(s[0], StableSort(s[1..], d, cell), d, cell, v);
    }
  }

  /** `StableSort` is a stable sort. */
  lemma StableSortIsStableSort<R>(s: seq<R>, d: Direction, cell: R -> int)
    ensures IsStableSortOf(StableSort(s, d, cell), s, d, cell)
  {
    StableSortOrdered(s, d, cell);
    forall v ensures WithKey(StableSort(s, d, cell), cell, v) == WithKey(s, cell, v) {
      StableSortWithKey(s, d, cell, v);
    }
  }

  lemma OrderedTail<R>(t: seq<R>, d: Direction, cell: R -> int)
    requires t != [] && Ordered(t, d, cell)
    ensures Ordered(t[1..], d, cell)
  {
    forall i, j | 0 <= i < j < |t[1..]| ensures Precedes(d, cell(t[1..][i]), cell(t[1..][j])) {
      assert t[1..][i] == t[i + 1] && t[1..][j] == t[j + 1];
    }
  }

  /** A row with cell `v` in an ordered non-empty sequence does not precede its head. */
  lemma HeadPrecedesKey<R>(t: seq<R>, d: Direction, cell: R -> int, v: int)
    requires t != [] && Ordered(t, d, cell) && WithKey(t, cell, v) != []
    ensures Precedes(d, cell(t[0]), v)
  {
    var y := WithKey(t, cell, v)[0];
    WithKeyMember(t, cell, v, y);
    var j :| 0 <= j < |t| && t[j] == y;
    if j > 0 {
      assert Precedes(d, cell(t[0]), cell(t[j]));
    }
  }

  lemma WithKeyOfHead<R>(s: seq<R>, cell: R -> int)
    ensures s != [] ==> WithKey(s, cell, cell(s[0])) == [s[0]] + WithKey(s[1..], cell, cell(s[0]))
  {
  }

  /** Two ordered sequences that agree on every key's rows are equal. */
  lemma {:induction false} OrderedSameKeysEqual<R>(t: seq<R>, u: seq<R>, d: Direction, cell: R -> int)
    requires Ordered(t, d, cell) && Ordered(u, d, cell)
    requires forall v :: WithKey(t, cell, v) == WithKey(u, cell, v)
    ensures t == u
    decreases |t|
  {
    if t == [] || u == [] {
      if t != [] {
        WithKeyOfHead(t, cell);
        assert false;
      } else if u != [] {
        WithKeyOfHead(u, cell);
        assert false;
      }
    } else {
      var k := cell(t[0]);
      assert WithKey(t, cell, k) == [t[0]] + WithKey(t[1..], cell, k);
      HeadPrecedesKey(u, d, cell, k);
      assert WithKey(u, cell, cell(u[0])) == [u[0]] + WithKey(u[1..], cell, cell(u[0]));
      HeadPrecedesKey(t, d, cell, cell(u[0]));
      assert cell(u[0]) == k;
      assert WithKey(u, cell, k) == [u[0]] + WithKey(u[1..], cell, k);
      assert WithKey(t, cell, k) == WithKey(u, cell, k);
      assert t[0] == WithKey(t, cell, k)[0] == WithKey(u, cell, k)[0] == u[0];
      forall v ensures WithKey(t[1..], cell, v) == WithKey(u[1..], cell, v) {
        assert WithKey(t, cell, v) == WithKey(u, cell, v);
        if k == v {
          assert WithKey(t, cell, v) == [t[0]] + WithKey(t[1..], cell, v);
          assert WithKey(u, cell, v) == [u[0]] + WithKey(u[1..], cell, v);
          assert WithKey(t[1..], cell, v) == WithKey(t, cell, v)[1..];
          assert WithKey(u[1..], cell, v) == WithKey(u, cell, v)[1..];
        } else {
          assert WithKey(t, cell, v) == WithKey(t[1..], cell, v);
          assert WithKey(u, cell, v) == WithKey(u[1..], cell, v);
        }
      }
      OrderedTail(t, d, cell);
      OrderedTail(u, d, cell);
      OrderedSameKeysEqual(t[1..], u[1..], d, cell);
      assert t == [t[0]] + t[1..] && u == [u[0]] + u[1..];
    }
  }

  /** Any stable sort of `s` is exactly `StableSort(s)`. */
  lemma StableSortUnique<R>(t: seq<R>, s: seq<R>, d: Direction, cell: R -> int)
    requires IsStableSortOf(t, s, d, cell)
    ensures t == StableSort(s, d, cell)
  {
    StableSortIsStableSort(s, d, cell);
    OrderedSameKeysEqual(t, StableSort(s, d, cell), d, cell);
  }

  /** Sorted ascending the key's cells never decrease; sorted descending they never increase. */
  lemma SortedDataOrder<R>(data: seq<R>, c: SortConfig, value: (R, string) -> int)
    ensures var r := SortedData(data, Some(c), value);
      forall i, j :: 0 <= i < j < |r| ==>
        if c.direction == Ascending then value(r[i], c.key) <= value(r[j], c.key)
        else value(r[i], c.key) >= value(r[j], c.key)
  {
    StableSortOrdered(data, c.direction, CellOf(value, c.key));
  }

  /** Rows with equal cells under the key keep their input order. */
  lemma SortedDataStable<R>(data: seq<R>, c: SortConfig, value: (R, string) -> int, v: int)
    ensures WithKey(SortedData(data, Some(c), value), CellOf(value, c.key), v)
         == WithKey(data, CellOf(value, c.key), v)
  {
    StableSortWithKey(data, c.direction, CellOf(value, c.key), v);
  }

  /** Whatever stable sort the host implements, its result is `SortedData`. */
  lemma SortedDataIsTheStableSort<R>(t: seq<R>, data: seq<R>, c: SortConfig, value: (R, string) -> int)
    requires IsStableSortOf(t, data, c.direction, CellOf(value, c.key))
    ensures t == SortedData(data, Some(c), value)
  {
    StableSortUnique(t, data, c.direction, CellOf(value, c.key));
  }

  /** Sorting the sorted view again by the same configuration changes nothing. */
  lemma SortedDataIdempotent<R>(data: seq<R>, config: Option<SortConfig>, value: (R, string) -> int)
    ensures SortedData(SortedData(data, config, value), config, value) == SortedData(data, config, value)
  {
    if config.Some? {
      var cell := CellOf(value, config.value.key);
      var t := StableSort(data, config.value.direction, cell);
      StableSortOrdered(data, config.value.direction, cell);
      StableSortUnique(t, t, config.value.direction, cell);
    }
  }

  /** The cell the fixture of DataTable.test.tsx:15-19 holds under "name", as a rank. */
  function NameRank(row: int, key: string): (rank: int)
  {
    row
  }

  /** One insertion step of the fixture's sort: `x` lands in front of `t`. */
  lemma InsertInFront(x: int, t: seq<int>, d: Direction)
    requires t != [] && Precedes(d, x, t[0])
    ensures Insert(x, t, d, CellOf(NameRank, "name")) == [x] + t
  {
    CellOfApply(NameRank, "name", x);
    CellOfApply(NameRank, "name", t[0]);
  }

  /** One insertion step of the fixture's sort: `x` moves past the head of `t`. */
  lemma InsertPastHead(x: int, t: seq<int>, d: Direction)
    requires t != [] && !Precedes(d, x, t[0])
    ensures Insert(x, t, d, CellOf(NameRank, "name")) == [t[0]] + Insert(x, t[1..], d, CellOf(NameRank, "name"))
  {
    CellOfApply(NameRank, "name", x);
    CellOfApply(NameRank, "name", t[0]);
  }

  lemma NameSortedTail(d: Direction)
    ensures StableSort([3], d, CellOf(NameRank, "name")) == [3]
    ensures StableSort([2, 3], d, CellOf(NameRank, "name"))
         == Insert(2, [3], d, CellOf(NameRank, "name"))
  {
    assert [3][1..] == [] && [2, 3][1..] == [3];
  }

  /** The three fixture rows sorted by name ascending: Alice first (DataTable.test.tsx:64-71). */
  lemma SortedDataByNameAscending()
    ensures SortedData([1, 2, 3], Some(SortConfig("name", Ascending)), NameRank) == [1, 2, 3]
  {
    NameSortedTail(Ascending);
    InsertInFront(2, [3], Ascending);
    InsertInFront(1, [2, 3], Ascending);
    assert [1, 2, 3][1..] == [2, 3];
  }

  /** The three fixture rows sorted by name descending: Charlie first (DataTable.test.tsx:73-78). */
  lemma SortedDataByNameDescending()
    ensures SortedData([1, 2, 3], Some(SortConfig("name", Descending)), NameRank) == [3, 2, 1]
  {
    NameSortedTail(Descending);
    NameInsertDescending();
    assert [1, 2, 3][1..] == [2, 3];
  }

  lemma NameInsertDescending()
    ensures Insert(2, [3], Descending, CellOf(NameRank, "name")) == [3, 2]
    ensures Insert(1, [3, 2], Descending, CellOf(NameRank, "name")) == [3, 2, 1]
  {
    InsertPastHead(2, [3], Descending);
    assert [3][1..] == [];
    InsertPastHead(1, [3, 2], Descending);
    assert [3, 2][1..] == [2] && [2][1..] == [];
    InsertPastHead(1, [2], Descending);
  }
}
