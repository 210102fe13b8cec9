/**
 Coverage selection of the temporal arm: a pool of scored candidates is spread over time buckets, picked
 from round-robin, and ordered by certainty of the match. Also the walk down a memory's lineage to the
 version visible at a cutoff.
 */
module TemporalArm {
  import opened Basics

  datatype Item = Item(definite: bool, proximity: real, offset: real, hit: string)

  const KEEP := 10
  const BUCKETS: nat := 8

  /** `int(x)`: towards zero. */
  function Truncated(x: real): int {
    if x >= 0.0 then x.Floor else -((-x).Floor)
  }

  /** The bucket of an item by its offset into the window. */
  function BucketOf(i: Item, span: real): (b: nat)
    requires span >= 1.0
    ensures b < BUCKETS
  {
    var index := Truncated(i.offset / span * 8.0);
    if index < 0 then 0 else Min(index, BUCKETS - 1)
  }

  lemma Scaled(a: real, b: real, c: real)
    requires c > 0.0
    ensures a <= b ==> a * c <= b * c
    ensures a < b ==> a * c < b * c
  {
  }

  lemma Quotient(a: real, c: real)
    requires c > 0.0
    ensures a / c * c == a
  {
  }

  /** The buckets cut the window into eight equal parts; what lies before or after it goes to the first or the last. */
  lemma BucketsAreEqualParts(i: Item, span: real)
    requires span >= 1.0
    ensures var b := BucketOf(i, span);
      && (i.offset < 0.0 ==> b == 0) && (i.offset >= span ==> b == 7)
      && (0.0 <= i.offset < span ==> PartStart(b, span) <= i.offset < PartStart(b + 1, span))
  {
    hide PartStart;
    var q, b := i.offset / span, BucketOf(i, span);
    Quotient(i.offset, span);
    ShareOf(q, i.offset, span);
    assert b == if Truncated(q * 8.0) < 0 then 0 else Min(Truncated(q * 8.0), BUCKETS - 1);
    if 0.0 <= i.offset < span {
      PartOf(b, q, span);
    }
  }

  lemma ShareOf(q: real, offset: real, span: real)
    requires span >= 1.0 && q * span == offset
    ensures offset < 0.0 <==> q < 0.0
    ensures offset < span <==> q < 1.0
  {
    Scaled(q, 0.0, span);
    Scaled(0.0, q, span);
    Scaled(q, 1.0, span);
    Scaled(1.0, q, span);
    assert 0.0 * span == 0.0 && 1.0 * span == span;
  }

  function PartStart(b: nat, span: real): real {
    b as real / 8.0 * span
  }

  lemma PartOf(b: nat, q: real, span: real)
    requires span >= 1.0 && b as real <= q * 8.0 < (b + 1) as real
    ensures PartStart(b, span) <= q * span < PartStart(b + 1, span)
  {
    Scaled(b as real / 8.0, q, span);
    Scaled(q, (b + 1) as real / 8.0, span);
  }

  /** The items of one bucket, in order. */
  function Queue(items: seq<Item>, span: real, b: nat): seq<Item>
    requires span >= 1.0
  {
    if items == [] then []
    else
      Queue(items[..|items| - 1], span, b)
      + if BucketOf(items[|items| - 1], span) == b then [items[|items| - 1]] else []
  }

  function Queues(pool: seq<Item>, span: real): (q: seq<seq<Item>>)
    requires span >= 1.0
    ensures |q| == BUCKETS && forall b :: 0 <= b < BUCKETS ==> q[b] == Queue(pool, span, b)
  {
    seq(BUCKETS, b requires 0 <= b < BUCKETS => Queue(pool, span, b))
  }

  // ----- rounds

  /** Round `r` over the first `n` buckets. */
  function Round(q: seq<seq<Item>>, r: nat, n: nat): seq<Item>
    requires n <= |q|
  {
    if n == 0 then [] else Round(q, r, n - 1) + if r < |q[n - 1]| then [q[n - 1][r]] else []
  }

  function Rounds(q: seq<seq<Item>>, r: nat): seq<Item> {
    if r == 0 then [] else Rounds(q, r - 1) + Round(q, r - 1, |q|)
  }

  /** What has been picked after `r` full rounds and the first `n` buckets of the next. */
  function Picked(q: seq<seq<Item>>, r: nat, n: nat): seq<Item>
    requires n <= |q|
  {
    Rounds(q, r) + Round(q, r, n)
  }

  function Count(q: seq<seq<Item>>, r: nat, n: nat, b: nat): nat
    requires b < |q|
  {
    Min(if b < n then r + 1 else r, |q[b]|)
  }

  lemma QueueSnoc(items: seq<Item>, i: Item, span: real, b: nat)
    requires span >= 1.0
    ensures Queue(items + [i], span, b) == Queue(items, span, b) + if BucketOf(i, span) == b then [i] else []
  {
    assert (items + [i])[..|items|] == items;
  }

  lemma {:induction false} QueueBuckets(items: seq<Item>, span: real, b: nat)
    requires span >= 1.0
    ensures forall i :: i in Queue(items, span, b) ==> BucketOf(i, span) == b
  {
    hide BucketOf;
    if items != [] {
      QueueBuckets(items[..|items| - 1], span, b);
    }
  }

  lemma PickedNext(q: seq<seq<Item>>, r: nat, n: nat)
    requires n < |q|
    ensures Picked(q, r, n + 1) == Picked(q, r, n) + if r < |q[n]| then [q[n][r]] else []
  {
  }

  lemma PickedRound(q: seq<seq<Item>>, r: nat)
    ensures Picked(q, r + 1, 0) == Picked(q, r, |q|)
  {
  }

  /** From every bucket exactly a prefix has been picked, in order. */
  lemma {:induction false} QueueOfPicked(pool: seq<Item>, span: real, r: nat, n: nat, b: nat)
    requires span >= 1.0 && n <= BUCKETS && b < BUCKETS
    ensures var q := Queues(pool, span); Queue(Picked(q, r, n), span, b) == q[b][..Count(q, r, n, b)]
    decreases r, n
  {
    hide BucketOf, Queue, Picked;
    var q := Queues(pool, span);
    if n > 0 {
      QueueOfPicked(pool, span, r, n - 1, b);
      PickedNext(q, r, n - 1);
      if r < |q[n - 1]| {
        QueueSnoc(Picked(q, r, n - 1), q[n - 1][r], span, b);
        QueueBuckets(pool, span, n - 1);
        assert q[n - 1][r] in q[n - 1];
      } else {
        assert Picked(q, r, n - 1) + [] == Picked(q, r, n - 1);
      }
    } else if r > 0 {
      QueueOfPicked(pool, span, r - 1, BUCKETS, b);
      PickedRound(q, r - 1);
    } else {
      NothingPicked(q);
      QueueOfNothing(span, b);
    }
  }

  lemma NothingPicked(q: seq<seq<Item>>)
    ensures Picked(q, 0, 0) == []
  {
  }

  lemma QueueOfNothing(span: real, b: nat)
    requires span >= 1.0
    ensures Queue([], span, b) == []
  {
  }

  // ----- counting

  function Bag(items: seq<Item>, span: real, upTo: nat): multiset<Item>
    requires span >= 1.0
  {
    if upTo == 0 then multiset{} else Bag(items, span, upTo - 1) + multiset(Queue(items, span, upTo - 1))
  }

  lemma BagStep(items: seq<Item>, span: real, upTo: nat)
    requires span >= 1.0
    ensures Bag(items, span, upTo) ==
      if upTo == 0 then multiset{} else Bag(items, span, upTo - 1) + multiset(Queue(items, span, upTo - 1))
  {
    hide Queue;
  }

  lemma {:induction false} BagSnoc(items: seq<Item>, i: Item, span: real, upTo: nat)
    requires span >= 1.0
    ensures Bag(items + [i], span, upTo) == Bag(items, span, upTo) + if BucketOf(i, span) < upTo then multiset{i} else multiset{}
  {
    hide BucketOf, Queue, Bag;
    if upTo == 0 {
      BagStep(items, span, 0);
      BagStep(items + [i], span, 0);
    } else {
      BagStep(items, span, upTo);
      BagStep(items + [i], span, upTo);
      BagSnoc(items, i, span, upTo - 1);
      QueueSnoc(items, i, span, upTo - 1);
      var before := Queue(items, span, upTo - 1);
      MultisetSnoc(before, i);
      OneMore(Bag(items, span, upTo - 1), multiset(before), multiset{i});
      assert before + [] == before;
    }
  }

  lemma OneMore<T>(a: multiset<T>, b: multiset<T>, c: multiset<T>)
    ensures (a + c) + b == (a + b) + c == a + (b + c)
    ensures a + multiset{} == a
  {
  }

  lemma MultisetSnoc<T>(s: seq<T>, x: T)
    ensures multiset(s + [x]) == multiset(s) + multiset{x}
  {
  }

  lemma {:induction false} BagOfNothing(span: real, upTo: nat)
    requires span >= 1.0
    ensures Bag([], span, upTo) == multiset{}
  {
    if upTo > 0 {
      BagOfNothing(span, upTo - 1);
    }
  }

  /** The buckets together hold every item once. */
  lemma {:induction false} BucketsPartition(items: seq<Item>, span: real)
    requires span >= 1.0
    ensures Bag(items, span, BUCKETS) == multiset(items)
  {
    hide BucketOf, Bag;
    if items == [] {
      BagOfNothing(span, BUCKETS);
    } else {
      var init, last := items[..|items| - 1], items[|items| - 1];
      BucketsPartition(init, span);
      assert items == init + [last];
      BagSnoc(init, last, span, BUCKETS);
    }
  }

  lemma {:induction false} BagGrows(some: seq<Item>, all: seq<Item>, span: real, upTo: nat)
    requires span >= 1.0 && upTo <= BUCKETS
    requires forall b: nat :: b < BUCKETS ==> Queue(some, span, b) <= Queue(all, span, b)
    ensures Bag(some, span, upTo) <= Bag(all, span, upTo)
    ensures (forall b: nat :: b < upTo ==> Queue(some, span, b) == Queue(all, span, b)) ==> Bag(some, span, upTo) == Bag(all, span, upTo)
  {
    hide Queue;
    if upTo > 0 {
      BagGrows(some, all, span, upTo - 1);
      var x, y := Queue(some, span, upTo - 1), Queue(all, span, upTo - 1);
      assert y == x + y[|x|..];
    }
  }

  /** Items taken from bucket `b`. */
  function Share(items: seq<Item>, span: real, b: nat): nat
    requires span >= 1.0
  {
    |Queue(items, span, b)|
  }

  /** No bucket is more than one item ahead of a bucket that still had items. */
  predicate Balanced(some: seq<Item>, pool: seq<Item>, span: real)
    requires span >= 1.0
  {
    forall a, b :: 0 <= a < BUCKETS && 0 <= b < BUCKETS && Share(some, span, b) < Share(pool, span, b) ==>
      Share(some, span, a) <= Share(some, span, b) + 1
  }

  lemma PickedIsSelection(pool: seq<Item>, span: real, r: nat, n: nat)
    requires span >= 1.0 && n <= BUCKETS
    ensures var q := Queues(pool, span); var some := Picked(q, r, n);
      && multiset(some) <= multiset(pool) && |some| <= |pool| && Balanced(some, pool, span)
      && ((forall b :: 0 <= b < BUCKETS ==> |q[b]| <= r) ==> |some| == |pool|)
  {
    hide Picked, Queue, BucketOf, Bag;
    var q := Queues(pool, span);
    var some := Picked(q, r, n);
    forall b: nat | b < BUCKETS ensures Queue(some, span, b) == q[b][..Count(q, r, n, b)] {
      QueueOfPicked(pool, span, r, n, b);
    }
    BucketsPartition(some, span);
    BucketsPartition(pool, span);
    BagGrows(some, pool, span, BUCKETS);
    assert |multiset(some)| == |some| && |multiset(pool)| == |pool|;
    assert multiset(pool) == multiset(some) + (multiset(pool) - multiset(some));
  }

  // ----- certainty

  function OfClass(items: seq<Item>, definite: bool): seq<Item> {
    if items == [] then []
    else OfClass(items[..|items| - 1], definite) + if items[|items| - 1].definite == definite then [items[|items| - 1]] else []
  }

  /** A stable sort by certainty. */
  function ByCertainty(items: seq<Item>): seq<Item> {
    OfClass(items, true) + OfClass(items, false)
  }

  lemma {:induction false} OfClassHas(items: seq<Item>, definite: bool)
    ensures forall n :: 0 <= n < |OfClass(items, definite)| ==> OfClass(items, definite)[n].definite == definite
  {
    if items != [] {
      OfClassHas(items[..|items| - 1], definite);
    }
  }

  lemma {:induction false} ClassesPartition(items: seq<Item>)
    ensures multiset(OfClass(items, true)) + multiset(OfClass(items, false)) == multiset(items)
  {
    if items != [] {
      var init, last := items[..|items| - 1], items[|items| - 1];
      ClassesPartition(init);
      assert items == init + [last];
      MultisetSnoc(init, last);
      OfClassSnoc(init, last);
      MultisetSnoc(OfClass(init, last.definite), last);
    }
  }

  lemma OfClassSnoc(items: seq<Item>, last: Item)
    ensures OfClass(items + [last], last.definite) == OfClass(items, last.definite) + [last]
    ensures OfClass(items + [last], !last.definite) == OfClass(items, !last.definite)
  {
    assert (items + [last])[..|items|] == items;
  }

  lemma {:induction false} QueueAppend(a: seq<Item>, b: seq<Item>, span: real, k: nat)
    requires span >= 1.0
    ensures Queue(a + b, span, k) == Queue(a, span, k) + Queue(b, span, k)
    decreases |b|
  {
    hide BucketOf;
    if b == [] {
      assert a + b == a;
    } else {
      var init, last := b[..|b| - 1], b[|b| - 1];
      QueueAppend(a, init, span, k);
      assert a + b == (a + init) + [last];
      QueueSnoc(a + init, last, span, k);
    }
  }

  lemma {:induction false} SharesOfClasses(items: seq<Item>, span: real, b: nat)
    requires span >= 1.0
    ensures Share(OfClass(items, true), span, b) + Share(OfClass(items, false), span, b) == Share(items, span, b)
  {
    hide BucketOf, Queue, OfClass;
    if items == [] {
      NoClasses();
      QueueOfNothing(span, b);
    } else {
      var init, last := items[..|items| - 1], items[|items| - 1];
      SharesOfClasses(init, span, b);
      assert items == init + [last];
      QueueSnoc(init, last, span, b);
      OfClassSnoc(init, last);
      QueueSnoc(OfClass(init, last.definite), last, span, b);
    }
  }

  lemma NoClasses()
    ensures OfClass([], true) == [] && OfClass([], false) == []
  {
  }

  lemma SortKeeps(items: seq<Item>, pool: seq<Item>, span: real)
    requires span >= 1.0 && Balanced(items, pool, span)
    ensures var sorted := ByCertainty(items);
      && multiset(sorted) == multiset(items) && |sorted| == |items| && Balanced(sorted, pool, span) && DefiniteFirst(sorted)
  {
    hide Queue, BucketOf, OfClass;
    OfClassHas(items, true);
    OfClassHas(items, false);
    ClassesPartition(items);
    var yes, no := OfClass(items, true), OfClass(items, false);
    forall b: nat ensures Share(ByCertainty(items), span, b) == Share(items, span, b) {
      QueueAppend(yes, no, span, b);
      SharesOfClasses(items, span, b);
    }
    assert |multiset(yes) + multiset(no)| == |yes| + |no|;
    assert |multiset(items)| == |items|;
  }

  predicate DefiniteFirst(items: seq<Item>) {
    forall i, j :: 0 <= i < j < |items| && items[j].definite ==> items[i].definite
  }

  /** The queues after some picks, for the loop. */
  predicate Remaining(queues: seq<seq<Item>>, q: seq<seq<Item>>, r: nat, n: nat) {
    |queues| == |q| && forall b :: 0 <= b < |q| ==> queues[b] == q[b][Count(q, r, n, b)..]
  }

  method FillBuckets(pool: seq<Item>, span: real) returns (queues: seq<seq<Item>>)
    requires span >= 1.0
    ensures queues == Queues(pool, span)
  {
    hide BucketOf;
    queues := seq(BUCKETS, _ => []);
    for n := 0 to |pool|
      invariant |queues| == BUCKETS
      invariant forall b: nat :: b < BUCKETS ==> queues[b] == Queue(pool[..n], span, b)
    {
      assert pool[..n + 1][..n] == pool[..n];
      var index := BucketOf(pool[n], span);
      queues := queues[index := queues[index] + [pool[n]]];
    }
    assert pool[..|pool|] == pool;
  }

  lemma RemainingNext(queues: seq<seq<Item>>, q: seq<seq<Item>>, r: nat, n: nat)
    requires n < |q| && Remaining(queues, q, r, n)
    ensures queues[n] != [] <==> r < |q[n]|
    ensures queues[n] != [] ==> queues[n][0] == q[n][r]
    ensures Remaining(if queues[n] != [] then queues[n := queues[n][1..]] else queues, q, r, n + 1)
  {
  }

  lemma RemainingRound(queues: seq<seq<Item>>, q: seq<seq<Item>>, r: nat)
    requires Remaining(queues, q, r, |q|)
    ensures Remaining(queues, q, r + 1, 0)
  {
  }

  /** One round: each bucket that still has items gives its first, until enough is picked. */
  method OneRound(start: seq<seq<Item>>, before: seq<Item>, ghost q: seq<seq<Item>>, ghost r: nat)
    returns (queues: seq<seq<Item>>, picked: seq<Item>, ghost n: nat)
    requires |q| == BUCKETS && |before| < KEEP && before == Picked(q, r, 0) && Remaining(start, q, r, 0)
    ensures n <= BUCKETS && |picked| <= KEEP && picked == Picked(q, r, n) && Remaining(queues, q, r, n)
    ensures n == BUCKETS || |picked| == KEEP
    ensures (exists b :: 0 <= b < |q| && r < |q[b]|) ==> |before| < |picked|
  {
    hide Picked, Remaining;
    queues, picked, n := start, before, 0;
    RemainingLength(queues, q, r, 0);
    for index := 0 to BUCKETS
      invariant |queues| == BUCKETS
      invariant n <= index && |picked| <= KEEP && picked == Picked(q, r, n) && Remaining(queues, q, r, n)
      invariant n == index || |picked| == KEEP
      invariant |before| <= |picked|
      invariant |before| == |picked| ==> forall b :: 0 <= b < index ==> |q[b]| <= r
    {
      if |picked| < KEEP {
        RemainingNext(queues, q, r, index);
        PickedNext(q, r, index);
        n := index + 1;
      }
      if queues[index] != [] && |picked| < KEEP {
        picked := picked + [queues[index][0]];
        queues := queues[index := queues[index][1..]];
      }
    }
  }

  lemma RemainingLength(queues: seq<seq<Item>>, q: seq<seq<Item>>, r: nat, n: nat)
    requires Remaining(queues, q, r, n)
    ensures |queues| == |q|
    ensures n == 0 ==> forall b :: 0 <= b < |q| ==> (queues[b] != [] <==> r < |q[b]|)
  {
  }

  /** Rounds over the buckets until enough is picked or nothing is left. */
  method RoundRobin(pool: seq<Item>, span: real) returns (picked: seq<Item>, ghost r: nat, ghost n: nat)
    requires span >= 1.0
    ensures n <= BUCKETS && picked == Picked(Queues(pool, span), r, n)
    ensures |picked| <= KEEP
    ensures |picked| == KEEP || forall b :: 0 <= b < BUCKETS ==> |Queues(pool, span)[b]| <= r
  {
    hide Queue, Picked, BucketOf, Remaining;
    var queues := FillBuckets(pool, span);
    ghost var q := Queues(pool, span);
    picked, r, n := [], 0, 0;
    NothingPicked(q);
    FirstRemaining(q);
    RemainingLength(queues, q, 0, 0);
    while |picked| < KEEP && exists b :: 0 <= b < |queues| && queues[b] != []
      invariant n <= BUCKETS && |picked| <= KEEP && picked == Picked(q, r, n) && Remaining(queues, q, r, n)
      invariant n == 0 || |picked| == KEEP
      invariant |queues| == |q|
      invariant n == 0 ==> forall b :: 0 <= b < |q| ==> (queues[b] != [] <==> r < |q[b]|)
      decreases KEEP - |picked|
    {
      queues, picked, n := OneRound(queues, picked, q, r);
      if n == BUCKETS {
        PickedRound(q, r);
        RemainingRound(queues, q, r);
        r, n := r + 1, 0;
      }
      RemainingLength(queues, q, r, n);
    }
  }

  lemma FirstRemaining(q: seq<seq<Item>>)
    ensures Remaining(q, q, 0, 0)
  {
  }

  /** The arm keeps ten of the pool, or all of it when it is smaller; no bucket is left behind by more than
      one; definite matches come before possible ones. */
  method SelectCoverage(pool: seq<Item>, span: real) returns (kept: seq<Item>)
    requires span >= 1.0
    ensures |kept| == Min(10, |pool|)
    ensures multiset(kept) <= multiset(pool)
    ensures Balanced(kept, pool, span)
    ensures DefiniteFirst(kept)
    ensures exists r: nat, n: nat :: n <= BUCKETS && kept == ByCertainty(Picked(Queues(pool, span), r, n))
  {
    hide Queue, BucketOf, Picked, ByCertainty, Balanced, DefiniteFirst;
    var picked;
    ghost var r, n;
    picked, r, n := RoundRobin(pool, span);
    PickedIsSelection(pool, span, r, n);
    SortKeeps(picked, pool, span);
    kept := ByCertainty(picked);
  }

  // ----- lineage

  type Links = map<string, Option<string>>

  /** The version `n` supersedes-links down, if the lineage goes that far. */
  function Ancestor(links: Links, id: string, n: nat): Option<string> {
    if n == 0 then Some(id)
    else
      var before := Ancestor(links, id, n - 1);
      if before.Some? && before.value in links then links[before.value] else None
  }

  /** `version` is the nearest version of the lineage that is visible. */
  ghost predicate NearestVisible(links: Links, visible: set<string>, id: string, version: string) {
    exists n: nat :: Ancestor(links, id, n) == Some(version) && version in visible && NoneVisibleBefore(links, visible, id, n)
  }

  ghost predicate NoneVisibleBefore(links: Links, visible: set<string>, id: string, n: nat) {
    forall m: nat :: m < n ==> Ancestor(links, id, m).Some? && Ancestor(links, id, m).value !in visible
  }

  ghost predicate NoneVisible(links: Links, visible: set<string>, id: string) {
    forall m: nat :: Ancestor(links, id, m).Some? ==> Ancestor(links, id, m).value !in visible
  }

  lemma {:induction false} AncestorsStop(links: Links, id: string, n: nat, m: nat)
    requires n <= m && Ancestor(links, id, n).None?
    ensures Ancestor(links, id, m).None?
    decreases m
  {
    if n < m {
      AncestorsStop(links, id, n, m - 1);
    }
  }

  /** A lineage that comes back to an earlier version only repeats what it has shown. */
  lemma {:induction false} CycleRepeats(links: Links, id: string, i: nat, n: nat, m: nat) returns (k: nat)
    requires i < n && Ancestor(links, id, i).Some? && Ancestor(links, id, i) == Ancestor(links, id, n)
    ensures k < n && Ancestor(links, id, k) == Ancestor(links, id, m)
    decreases m
  {
    if m < n {
      k := m;
    } else if m == n {
      k := i;
    } else {
      k := CycleRepeats(links, id, i, n, m - 1);
      if k + 1 == n {
        k := i;
      } else {
        k := k + 1;
      }
    }
  }

  /** The walk ends on every link map, cyclic ones included, at the nearest visible version or nowhere. */
  method AncestorAsOf(id: string, visible: set<string>, links: Links) returns (version: Option<string>)
    ensures version.Some? ==> NearestVisible(links, visible, id, version.value)
    ensures version.None? ==> NoneVisible(links, visible, id)
  {
    hide Ancestor;
    var seen: set<string> := {};
    var current := Some(id);
    ghost var n: nat := 0;
    AncestorZero(links, id);
    while current.Some? && current.value !in seen
      invariant current == Ancestor(links, id, n)
      invariant forall v :: v in seen ==> exists m: nat :: m < n && Ancestor(links, id, m) == Some(v)
      invariant NoneVisibleBefore(links, visible, id, n)
      invariant seen <= links.Keys
      decreases links.Keys - seen, if current.Some? then 1 else 0
    {
      if current.value in visible {
        assert NearestVisible(links, visible, id, current.value);
        return current;
      }
      AncestorNext(links, id, n);
      ghost var was := n;
      assert Ancestor(links, id, was) == Some(current.value);
      if current.value !in links {
        n := n + 1;
        NothingFurther(links, visible, id, n);
        return None;
      }
      seen := seen + {current.value};
      current := links[current.value];
      n := n + 1;
    }
    if current.None? {
      NothingFurther(links, visible, id, n);
    } else {
      ghost var i: nat :| i < n && Ancestor(links, id, i) == Some(current.value);
      forall m: nat | Ancestor(links, id, m).Some? ensures Ancestor(links, id, m).value !in visible {
        var k := CycleRepeats(links, id, i, n, m);
      }
    }
    version := None;
  }

  lemma AncestorZero(links: Links, id: string)
    ensures Ancestor(links, id, 0) == Some(id)
  {
  }

  lemma AncestorNext(links: Links, id: string, n: nat)
    requires Ancestor(links, id, n).Some?
    ensures var v := Ancestor(links, id, n).value; Ancestor(links, id, n + 1) == if v in links then links[v] else None
  {
  }

  lemma NothingFurther(links: Links, visible: set<string>, id: string, n: nat)
    requires Ancestor(links, id, n).None? && NoneVisibleBefore(links, visible, id, n)
    ensures NoneVisible(links, visible, id)
  {
    hide Ancestor;
    forall m: nat | Ancestor(links, id, m).Some? ensures Ancestor(links, id, m).value !in visible {
      if n <= m {
        AncestorsStop(links, id, n, m);
      }
    }
  }
}
