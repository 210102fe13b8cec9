/** What several modules share: optional values, bounds, ranges of indexes, and picking items by index, sorting. */
module Basics {
  datatype Option<T> = None | Some(value: T)

  function Min(a: int, b: int): int {
    if a <= b then a else b
  }

  function Max(a: int, b: int): int {
    if a <= b then b else a
  }

  lemma SubsetSize<T>(a: set<T>, b: set<T>)
    requires a <= b
    ensures |a| <= |b|
  {
    assert b == a + (b - a);
  }

  // ----- ranges of indexes

  predicate Between(low: int, i: int, high: int) {
    low <= i < high
  }

  function Range(low: int, high: int): set<int> {
    set i | low <= i < high && Between(low, i, high)
  }

  lemma {:induction false} RangeSize(low: int, high: int)
    requires low <= high
    ensures |Range(low, high)| == high - low
    decreases high - low
  {
    if low < high {
      RangeSize(low, high - 1);
      assert Range(low, high) == Range(low, high - 1) + {high - 1};
    } else {
      assert Range(low, high) == {};
    }
  }

  lemma RangeEmpty()
    ensures Range(0, 0) == {}
  {
  }

  lemma RangeNext(n: nat)
    ensures Range(0, n + 1) == Range(0, n) + {n} && n !in Range(0, n)
  {
  }

  // ----- items at chosen indexes

  /** The items at the chosen indexes, in order. */
  function Picked<T>(items: seq<T>, chosen: set<int>): seq<T> {
    if items == [] then []
    else Picked(items[..|items| - 1], chosen) + if |items| - 1 in chosen then [items[|items| - 1]] else []
  }

  lemma {:induction false} PickedHas<T>(items: seq<T>, chosen: set<int>, item: T)
    ensures item in Picked(items, chosen) <==> exists i :: 0 <= i < |items| && i in chosen && items[i] == item
  {
    if items != [] {
      var init := items[..|items| - 1];
      PickedHas(init, chosen, item);
      if item in Picked(init, chosen) {
        var i :| 0 <= i < |init| && i in chosen && init[i] == item;
        assert items[i] == item;
      }
      if i :| 0 <= i < |items| && i in chosen && items[i] == item {
        assert i < |init| ==> init[i] == item;
      }
    }
  }

  /** More items only add to the end of what is picked. */
  lemma {:induction false} PickedGrows<T>(items: seq<T>, more: seq<T>, chosen: set<int>)
    ensures Picked(items, chosen) <= Picked(items + more, chosen)
    decreases |more|
  {
    if more == [] {
      assert items + more == items;
    } else {
      PickedGrows(items, more[..|more| - 1], chosen);
      assert (items + more)[..|items + more| - 1] == items + more[..|more| - 1];
    }
  }

  lemma {:induction false} PickedSize<T>(items: seq<T>, chosen: set<int>)
    ensures |Picked(items, chosen)| == |chosen * Range(0, |items|)|
  {
    hide Range;
    if items == [] {
      RangeEmpty();
      assert chosen * Range(0, 0) == {};
    } else {
      var n := |items| - 1;
      PickedSize(items[..n], chosen);
      RangeNext(n);
      if n in chosen {
        assert chosen * Range(0, n + 1) == chosen * Range(0, n) + {n};
      } else {
        assert chosen * Range(0, n + 1) == chosen * Range(0, n);
      }
    }
  }

  // ----- sorting

  function Flatten<T>(groups: seq<seq<T>>): seq<T> {
    if groups == [] then [] else groups[0] + Flatten(groups[1..])
  }

  lemma {:induction false} FlattenAppend<T>(some: seq<seq<T>>, more: seq<seq<T>>, one: seq<T>)
    ensures Flatten(some + more) == Flatten(some) + Flatten(more) && Flatten([one]) == one
  {
    assert [one][1..] == [];
    if some == [] {
      assert some + more == more;
    } else {
      assert (some + more)[1..] == some[1..] + more;
      FlattenAppend(some[1..], more, one);
    }
  }

  function InsertBy<T>(x: T, sorted: seq<T>, key: T -> int): seq<T> {
    if sorted == [] || key(x) <= key(sorted[0]) then [x] + sorted else [sorted[0]] + InsertBy(x, sorted[1..], key)
  }

  /** A stable sort by an integer key. */
  function SortBy<T>(items: seq<T>, key: T -> int): seq<T> {
    if items == [] then [] else InsertBy(items[0], SortBy(items[1..], key), key)
  }

  predicate SortedBy<T>(items: seq<T>, key: T -> int) {
    forall i, j | 0 <= i < j < |items| :: key(items[i]) <= key(items[j])
  }

  predicate Increasing<T>(items: seq<T>, key: T -> int) {
    forall i, j | 0 <= i < j < |items| :: key(items[i]) < key(items[j])
  }

  lemma {:induction false} InsertedSame<T>(x: T, sorted: seq<T>, key: T -> int)
    ensures multiset(InsertBy(x, sorted, key)) == multiset{x} + multiset(sorted)
  {
    if sorted != [] && key(x) > key(sorted[0]) {
      InsertedSame(x, sorted[1..], key);
      assert sorted == [sorted[0]] + sorted[1..];
    }
  }

  lemma FirstIsLeast<T>(first: T, rest: seq<T>, key: T -> int)
    requires SortedBy(rest, key) && forall y | y in rest :: key(first) <= key(y)
    ensures SortedBy([first] + rest, key)
  {
    forall i | 0 <= i < |rest| ensures key(first) <= key(rest[i]) {
      assert rest[i] in rest;
    }
  }

  lemma {:induction false} InsertedBy<T>(x: T, sorted: seq<T>, key: T -> int)
    requires SortedBy(sorted, key)
    ensures SortedBy(InsertBy(x, sorted, key), key)
  {
    if sorted == [] || key(x) <= key(sorted[0]) {
      FirstIsLeast(x, sorted, key);
    } else {
      InsertedBy(x, sorted[1..], key);
      InsertedSame(x, sorted[1..], key);
      var rest := InsertBy(x, sorted[1..], key);
      forall y | y in rest ensures key(sorted[0]) <= key(y) {
        assert y in multiset(rest);
        assert y == x || y in sorted[1..];
      }
      FirstIsLeast(sorted[0], rest, key);
    }
  }

  lemma {:induction false} SortedSame<T>(items: seq<T>, key: T -> int)
    ensures SortedBy(SortBy(items, key), key) && multiset(SortBy(items, key)) == multiset(items)
  {
    if items != [] {
      SortedSame(items[1..], key);
      InsertedBy(items[0], SortBy(items[1..], key), key);
      InsertedSame(items[0], SortBy(items[1..], key), key);
      assert items == [items[0]] + items[1..];
    }
  }

  lemma SameFirst<T>(a: seq<T>, b: seq<T>, key: T -> int)
    requires SortedBy(a, key) && Increasing(b, key) && multiset(a) == multiset(b) && a != []
    ensures b != [] && a[0] == b[0]
  {
    assert a[0] in multiset(b);
    var i :| 0 <= i < |b| && b[i] == a[0];
    assert b[0] in multiset(a);
    var j :| 0 <= j < |a| && a[j] == b[0];
  }

  lemma RestOf<T>(items: seq<T>)
    requires items != []
    ensures multiset(items[1..]) == multiset(items) - multiset{items[0]}
  {
    assert items == [items[0]] + items[1..];
  }

  /** Different keys leave one order only. */
  lemma {:induction false} OneOrder<T>(a: seq<T>, b: seq<T>, key: T -> int)
    requires SortedBy(a, key) && Increasing(b, key) && multiset(a) == multiset(b)
    ensures a == b
  {
    if a == [] {
      assert |multiset(b)| == |b|;
    } else {
      SameFirst(a, b, key);
      RestOf(a);
      RestOf(b);
      OneOrder(a[1..], b[1..], key);
      assert a == [a[0]] + a[1..] && b == [b[0]] + b[1..];
    }
  }

  lemma SortIs<T>(items: seq<T>, sorted: seq<T>, key: T -> int)
    requires Increasing(sorted, key) && multiset(items) == multiset(sorted)
    ensures SortBy(items, key) == sorted
  {
    SortedSame(items, key);
    OneOrder(SortBy(items, key), sorted, key);
  }
}
