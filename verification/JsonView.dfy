/**
 The reduced view of a JSON array. It is printed as a table when all rows are different, have the same
 columns and come out shorter; otherwise repeated rows are dropped, and of more than fifteen different
 rows the view keeps a head, a tail, the first schema changes and every protected row.
 */
module JsonView {
  import opened Basics
  import opened Text
  import Csv

  type Row = Csv.Row
  type Test = Row -> bool

  const CAP := 15

  // ----- different rows, in order

  function Different(rows: seq<Row>): seq<Row> {
    if rows == [] then []
    else
      var before, last := Different(rows[..|rows| - 1]), rows[|rows| - 1];
      if last in before then before else before + [last]
  }

  lemma {:induction false} DifferentHas(rows: seq<Row>)
    ensures forall r :: r in Different(rows) <==> r in rows
    ensures forall i, j :: 0 <= i < j < |Different(rows)| ==> Different(rows)[i] != Different(rows)[j]
    ensures |Different(rows)| <= |rows|
  {
    if rows != [] {
      DifferentHas(rows[..|rows| - 1]);
      assert rows == rows[..|rows| - 1] + [rows[|rows| - 1]];
    }
  }

  /** Of equal rows the first one stays, where it is. */
  lemma {:induction false} DifferentGrows(rows: seq<Row>, more: seq<Row>)
    ensures Different(rows) <= Different(rows + more)
    decreases |more|
  {
    if more == [] {
      assert rows + more == rows;
    } else {
      DifferentGrows(rows, more[..|more| - 1]);
      assert (rows + more)[..|rows + more| - 1] == rows + more[..|more| - 1];
    }
  }

  predicate AllDifferent(rows: seq<Row>) {
    forall i, j | 0 <= i < j < |rows| :: rows[i] != rows[j]
  }

  lemma {:induction false} DifferentIsAll(rows: seq<Row>)
    ensures |Different(rows)| == |rows| <==> AllDifferent(rows)
    ensures AllDifferent(rows) ==> Different(rows) == rows
  {
    if rows != [] {
      var init, last := rows[..|rows| - 1], rows[|rows| - 1];
      DifferentIsAll(init);
      DifferentHas(init);
      assert rows == init + [last];
      if last in init {
        var i :| 0 <= i < |init| && init[i] == last;
        assert rows[i] == rows[|init|];
      } else if AllDifferent(init) {
        forall i | 0 <= i < |init| ensures rows[i] != last {
          assert init[i] in init;
        }
      }
    }
  }

  // ----- the table

  /** The keys of all rows, each once, in the order in which they come up. */
  ghost predicate AreFields(rows: seq<Row>, fields: seq<string>) {
    Csv.DifferentNames(fields) && forall key :: key in fields <==> exists i :: 0 <= i < |rows| && key in rows[i]
  }

  function Count(rows: seq<Row>, key: string): nat {
    if rows == [] then 0 else Count(rows[..|rows| - 1], key) + if key in rows[|rows| - 1] then 1 else 0
  }

  /** In at least four of five rows. */
  predicate InCore(rows: seq<Row>, key: string) {
    5 * Count(rows, key) >= 4 * Max(|rows|, 1)
  }

  function Core(rows: seq<Row>, fields: seq<string>): seq<string> {
    if fields == [] then []
    else Core(rows, fields[..|fields| - 1]) + if InCore(rows, fields[|fields| - 1]) then [fields[|fields| - 1]] else []
  }

  /** At least fifteen percent shorter. */
  predicate Saves(text: string, raw: string) {
    100 * Utf8Bytes(text) <= 85 * Max(Utf8Bytes(raw), 1)
  }

  /** The table, when it is taken. */
  function TableOf(rows: seq<Row>, fields: seq<string>, raw: string): Option<string> {
    var different := Different(rows);
    var core := Core(different, fields);
    if core != [] && |different| == |rows| && Csv.IsTable(different, core) then
      var text := Csv.GridOut(core, Csv.GridOf(different, core));
      if Saves(text, raw) then Some(text) else None
    else None
  }

  lemma {:induction false} CountAll(rows: seq<Row>, key: string)
    ensures Count(rows, key) <= |rows|
    ensures (forall i | 0 <= i < |rows| :: key in rows[i]) ==> Count(rows, key) == |rows|
  {
    if rows != [] {
      CountAll(rows[..|rows| - 1], key);
    }
  }

  lemma {:induction false} CoreOfAll(rows: seq<Row>, fields: seq<string>)
    requires forall key | key in fields :: InCore(rows, key)
    ensures Core(rows, fields) == fields
  {
    hide InCore;
    if fields != [] {
      var init, last := fields[..|fields| - 1], fields[|fields| - 1];
      assert fields == init + [last];
      CoreOfAll(rows, init);
    }
  }

  lemma {:induction false} CoreIsFields(rows: seq<Row>, fields: seq<string>)
    ensures forall key | key in Core(rows, fields) :: key in fields && InCore(rows, key)
  {
    hide InCore;
    if fields != [] {
      CoreIsFields(rows, fields[..|fields| - 1]);
    }
  }

  lemma SavesExactly(raw: string)
    ensures forall text :: Saves(text, raw) <==> 20 * Utf8Bytes(text) <= 17 * (if raw == "" then 1 else Utf8Bytes(raw))
  {
    hide Utf8Length;
  }

  /** A table is taken exactly when all rows are different, each has all the fields, and the text is at least fifteen
      percent shorter. */
  lemma TableExactly(rows: seq<Row>, fields: seq<string>, raw: string)
    requires AreFields(rows, fields)
    ensures var taken :=
        && fields != [] && AllDifferent(rows) && Csv.IsTable(rows, fields)
        && 20 * Utf8Bytes(Csv.GridOut(fields, Csv.GridOf(rows, fields))) <= 17 * (if raw == "" then 1 else Utf8Bytes(raw));
      TableOf(rows, fields, raw) == if taken then Some(Csv.GridOut(fields, Csv.GridOf(rows, fields))) else None
  {
    hide Saves, Different, Core, Csv.GridOut, Csv.GridOf, Csv.DifferentNames;
    SavesExactly(raw);
    DifferentIsAll(rows);
    CoreIsFields(rows, fields);
    var core := Core(rows, fields);
    if Csv.IsTable(rows, fields) {
      forall key | key in fields ensures InCore(rows, key) {
        FieldsEverywhere(rows, fields, key);
      }
      CoreOfAll(rows, fields);
    }
    if Csv.IsTable(rows, core) && core != [] {
      forall key | key in fields ensures InCore(rows, key) {
        var i :| 0 <= i < |rows| && key in rows[i];
        assert key in Csv.Columns(core);
      }
      CoreOfAll(rows, fields);
    }
  }

  lemma FieldsEverywhere(rows: seq<Row>, fields: seq<string>, key: string)
    requires Csv.IsTable(rows, fields) && key in fields
    ensures InCore(rows, key) <==> rows != []
  {
    var k :| 0 <= k < |fields| && fields[k] == key;
    assert key in Csv.Columns(fields);
    CountAll(rows, key);
  }

  /** A table keeps everything but the kind of a cell: arrays with the same fields and table agree in all cell texts. */
  lemma TableIsLossless(one: seq<Row>, two: seq<Row>, fields: seq<string>, raw: string, other: string)
    requires AreFields(one, fields) && AreFields(two, fields)
    requires TableOf(one, fields, raw).Some? && TableOf(one, fields, raw) == TableOf(two, fields, other)
    ensures Csv.IsTable(one, fields) && Csv.IsTable(two, fields) && Csv.GridOf(one, fields) == Csv.GridOf(two, fields)
  {
    hide TableOf, AreFields, Csv.GridOut, Csv.GridOf, Csv.IsTable, Saves, AllDifferent;
    TableExactly(one, fields, raw);
    TableExactly(two, fields, other);
    Csv.SameTextSameCells(fields, one, two);
  }

  // ----- which rows are kept

  /** Thirty percent of the rows, up to nine. */
  function FirstQuota(count: nat): nat {
    Min(Min((3 * count + 9) / 10, count), 9)
  }

  /** Fifteen percent of the rows, up to what the head leaves of the cap. */
  function LastQuota(count: nat): nat {
    Min(Min((3 * count + 19) / 20, count), CAP - FirstQuota(count))
  }

  /** The head is the least number of rows that makes thirty percent, but never more than nine. */
  lemma FirstQuotaIs(count: nat)
    ensures var k := FirstQuota(count);
      && 0 <= k <= 9 && (k < 9 ==> 10 * k >= 3 * count) && (k > 0 ==> 10 * (k - 1) < 3 * count)
  {
  }

  /** The tail is the least number of rows that makes fifteen percent, but no more than the head leaves of fifteen. */
  lemma LastQuotaIs(count: nat)
    ensures var k, left := LastQuota(count), 15 - FirstQuota(count);
      && 0 <= k <= left && (k < left ==> 20 * k >= 3 * count) && (k > 0 ==> 20 * (k - 1) < 3 * count)
  {
  }

  /** Head and tail. */
  function Ends(count: nat): set<int> {
    Range(0, FirstQuota(count)) + Range(if count > LastQuota(count) then count - LastQuota(count) else 0, count)
  }

  lemma EndsFit(count: nat)
    requires count > CAP
    ensures |Ends(count)| == FirstQuota(count) + LastQuota(count) <= CAP
    ensures Ends(count) <= Range(0, count)
  {
    var head, tail := Range(0, FirstQuota(count)), Range(count - LastQuota(count), count);
    RangeSize(0, FirstQuota(count));
    RangeSize(count - LastQuota(count), count);
    assert head !! tail;
    assert Ends(count) == head + tail;
  }

  /** A row whose keys differ from those of the row before it, outside head and tail. */
  predicate ChangePoint(rows: seq<Row>, i: int) {
    0 < i < |rows| && rows[i].Keys != rows[i - 1].Keys && i !in Ends(|rows|)
  }

  /** Change points before index `i`. */
  function Rank(rows: seq<Row>, i: nat): nat {
    if i == 0 then 0 else Rank(rows, i - 1) + if ChangePoint(rows, i - 1) then 1 else 0
  }

  /** The first change points, as many as the cap leaves room for. */
  function Changes(rows: seq<Row>, upTo: nat): set<int> {
    set i | 0 <= i < upTo && ChangePoint(rows, i) && Rank(rows, i) < CAP - |Ends(|rows|)|
  }

  function ProtectedSet(rows: seq<Row>, protectedRow: Test): set<int> {
    set i | 0 <= i < |rows| && protectedRow(rows[i])
  }

  function Kept(rows: seq<Row>, protectedRow: Test): set<int> {
    Ends(|rows|) + Changes(rows, |rows|) + ProtectedSet(rows, protectedRow)
  }

  lemma ChangesNext(rows: seq<Row>, n: nat)
    ensures Changes(rows, n + 1) ==
      Changes(rows, n) + if ChangePoint(rows, n) && Rank(rows, n) < CAP - |Ends(|rows|)| then {n} else {}
  {
    hide ChangePoint, Ends, Rank;
  }

  lemma {:induction false} ChangesSize(rows: seq<Row>, n: nat)
    requires |Ends(|rows|)| <= CAP
    ensures |Changes(rows, n)| == Min(Rank(rows, n), CAP - |Ends(|rows|)|)
  {
    hide ChangePoint, Ends, Changes;
    if n > 0 {
      ChangesSize(rows, n - 1);
      ChangesNext(rows, n - 1);
      ChangesBefore(rows, n - 1);
    } else {
      NoChangesYet(rows);
    }
  }

  lemma NoChangesYet(rows: seq<Row>)
    ensures Changes(rows, 0) == {}
  {
    hide ChangePoint, Ends, Rank;
  }

  lemma ChangesBefore(rows: seq<Row>, n: nat)
    ensures forall i :: i in Changes(rows, n) ==> 0 <= i < n && ChangePoint(rows, i)
  {
    hide ChangePoint, Ends, Rank;
  }

  /** Without the protected rows the view stays within the cap. */
  lemma KeptFitsCap(rows: seq<Row>, protectedRow: Test)
    requires |rows| > CAP
    ensures |Ends(|rows|) + Changes(rows, |rows|)| <= CAP
    ensures |Kept(rows, protectedRow)| <= CAP + |ProtectedSet(rows, protectedRow)|
    ensures forall i :: i in Kept(rows, protectedRow) ==> 0 <= i < |rows|
  {
    hide ChangePoint, Changes, Rank, FirstQuota, LastQuota;
    EndsFit(|rows|);
    ChangesSize(rows, |rows|);
    ChangesBefore(rows, |rows|);
    var ends, changes := Ends(|rows|), Changes(rows, |rows|);
    assert |ends + changes| <= |ends| + |changes|;
    assert |ends + changes + ProtectedSet(rows, protectedRow)| <= |ends + changes| + |ProtectedSet(rows, protectedRow)|;
  }

  // ----- which rows those are

  /** Among the first or the last. */
  predicate AtAnEnd(count: nat, i: int) {
    0 <= i < count && (i < FirstQuota(count) || i >= count - LastQuota(count))
  }

  /** Outside head and tail, with other keys than the row before it. */
  predicate ChangesKeys(rows: seq<Row>, i: int) {
    0 < i < |rows| && !AtAnEnd(|rows|, i) && rows[i].Keys != rows[i - 1].Keys
  }

  function ChangesBeforeRow(rows: seq<Row>, i: int): set<int> {
    set j | 0 <= j < i && ChangesKeys(rows, j)
  }

  lemma EndsExactly(count: nat, i: int)
    requires count > CAP
    ensures i in Ends(count) <==> AtAnEnd(count, i)
  {
    EndsFit(count);
  }

  lemma {:induction false} RankCounts(rows: seq<Row>, n: nat)
    requires |rows| > CAP
    ensures Rank(rows, n) == |ChangesBeforeRow(rows, n)|
  {
    hide Ends, AtAnEnd;
    if n == 0 {
      assert ChangesBeforeRow(rows, 0) == {};
    } else {
      RankCounts(rows, n - 1);
      EndsExactly(|rows|, n - 1);
      if ChangesKeys(rows, n - 1) {
        assert ChangesBeforeRow(rows, n) == ChangesBeforeRow(rows, n - 1) + {n - 1};
      } else {
        assert ChangesBeforeRow(rows, n) == ChangesBeforeRow(rows, n - 1);
      }
    }
  }

  /**
   A row is kept exactly when it is in the head or the tail, is protected, or changes the keys while head, tail and the
   changes before it do not make up fifteen rows.
   */
  lemma KeptExactly(rows: seq<Row>, protectedRow: Test, i: int)
    requires |rows| > 15
    ensures i in Kept(rows, protectedRow) <==>
      && 0 <= i < |rows|
      && (|| AtAnEnd(|rows|, i) || protectedRow(rows[i])
          || (ChangesKeys(rows, i) && FirstQuota(|rows|) + LastQuota(|rows|) + |ChangesBeforeRow(rows, i)| < 15))
  {
    EndsFit(|rows|);
    EndsExactly(|rows|, i);
    hide Ends, FirstQuota, LastQuota, Rank, AtAnEnd;
    if i >= 0 {
      RankCounts(rows, i);
    }
    ChangesBefore(rows, |rows|);
    hide ChangesBeforeRow;
    assert ChangePoint(rows, i) <==> ChangesKeys(rows, i);
  }

  // ----- the view

  datatype View =
    | Table(text: string, total: nat)
    | Array(body: seq<Row>, total: nat, kept: nat, dropped: nat, duplicates: nat, noted: bool)

  /** The rows of the view, before the note about dropped ones. */
  function Body(rows: seq<Row>, protectedRow: Test): seq<Row> {
    var different := Different(rows);
    if |different| <= CAP then different else Picked(different, Kept(different, protectedRow))
  }

  /** `a` is `b` with some rows left out. */
  predicate Subsequence(a: seq<Row>, b: seq<Row>) {
    a == [] || (b != [] && (Subsequence(a, b[..|b| - 1])
                            || (a[|a| - 1] == b[|b| - 1] && Subsequence(a[..|a| - 1], b[..|b| - 1]))))
  }

  lemma {:induction false} PickedOfDifferent(rows: seq<Row>, chosen: set<int>)
    ensures Subsequence(Picked(Different(rows), chosen), rows)
  {
    if rows != [] {
      var before, last := Different(rows[..|rows| - 1]), rows[|rows| - 1];
      PickedOfDifferent(rows[..|rows| - 1], chosen);
      if last !in before {
        assert Different(rows)[..|before|] == before;
        if |before| in chosen {
          assert Picked(Different(rows), chosen) == Picked(before, chosen) + [last];
          assert (Picked(before, chosen) + [last])[..|Picked(before, chosen)|] == Picked(before, chosen);
        } else {
          assert Picked(Different(rows), chosen) == Picked(before, chosen);
        }
      }
    }
  }

  lemma {:induction false} AllPicked(rows: seq<Row>, chosen: set<int>)
    requires Range(0, |rows|) <= chosen
    ensures Picked(rows, chosen) == rows
  {
    if rows != [] {
      var n := |rows| - 1;
      assert n in Range(0, |rows|);
      assert Range(0, n) <= Range(0, |rows|);
      AllPicked(rows[..n], chosen);
      assert rows == rows[..n] + [rows[n]];
    }
  }

  /** The view is the array with rows left out; every protected row of the array is in it; and it holds at most
      fifteen rows beside the protected ones. */
  lemma ViewKeepsWhatItPromises(rows: seq<Row>, protectedRow: Test)
    ensures Subsequence(Body(rows, protectedRow), rows)
    ensures forall r :: r in rows && protectedRow(r) ==> r in Body(rows, protectedRow)
    ensures |Body(rows, protectedRow)| <= CAP + |ProtectedSet(Different(rows), protectedRow)|
  {
    hide Different, Picked, Changes, Ends, Subsequence;
    var different := Different(rows);
    DifferentHas(rows);
    if |different| <= CAP {
      AllPicked(different, Range(0, |different|));
      PickedOfDifferent(rows, Range(0, |different|));
    } else {
      var chosen := Kept(different, protectedRow);
      PickedOfDifferent(rows, chosen);
      KeptFitsCap(different, protectedRow);
      PickedSize(different, chosen);
      assert chosen * Range(0, |different|) == chosen;
      forall r | r in rows && protectedRow(r) ensures r in Picked(different, chosen) {
        var i :| 0 <= i < |different| && different[i] == r;
        PickedHas(different, chosen, r);
      }
    }
  }

  method Dedupe(rows: seq<Row>) returns (different: seq<Row>)
    ensures different == Different(rows)
  {
    different := [];
    var seen: map<Row, nat> := map[];
    for n := 0 to |rows|
      invariant different == Different(rows[..n])
      invariant forall r :: r in seen <==> r in different
    {
      assert rows[..n + 1][..n] == rows[..n];
      if rows[n] in seen {
        seen := seen[rows[n] := seen[rows[n]] + 1];
        continue;
      }
      seen := seen[rows[n] := 1];
      different := different + [rows[n]];
    }
    assert rows[..|rows|] == rows;
  }

  /** What the scan for changes has kept before index `n`, and the room it has left. */
  predicate Filled(rows: seq<Row>, n: nat, kept: set<int>, slack: int) {
    && kept == Ends(|rows|) + Changes(rows, n)
    && slack == CAP - |Ends(|rows|)| - Min(Rank(rows, n), CAP - |Ends(|rows|)|)
  }

  lemma FilledNext(rows: seq<Row>, n: nat, kept: set<int>, slack: int)
    requires n < |rows| && Filled(rows, n, kept, slack) && slack > 0
    ensures var add := n > 0 && rows[n].Keys != rows[n - 1].Keys && n !in kept;
      Filled(rows, n + 1, if add then kept + {n} else kept, if add then slack - 1 else slack)
  {
    hide Changes, Ends;
    ChangesNext(rows, n);
    NotYetChanged(rows, n);
  }

  /** Schema changes fill what head and tail leave of the cap, until it is used up. */
  method AddChanges(rows: seq<Row>) returns (kept: set<int>)
    requires |rows| > CAP
    ensures kept == Ends(|rows|) + Changes(rows, |rows|)
  {
    hide *;
    EndsFit(|rows|);
    kept := Ends(|rows|);
    var slack := CAP - |kept|;
    FilledFirst(rows);
    var n := 0;
    if slack > 0 {
      var previous: Option<set<string>> := None;
      while n < |rows| && slack > 0
        invariant 0 <= n <= |rows| && 0 <= slack
        invariant Filled(rows, n, kept, slack)
        invariant n == 0 ==> previous.None?
        invariant n > 0 ==> previous == Some(rows[n - 1].Keys)
      {
        FilledNext(rows, n, kept, slack);
        var present := rows[n].Keys;
        if previous.Some? && present != previous.value && n !in kept {
          kept := kept + {n};
          slack := slack - 1;
        }
        previous := Some(present);
        n := n + 1;
      }
    }
    FilledLast(rows, n, kept, slack);
  }

  lemma FilledFirst(rows: seq<Row>)
    requires |Ends(|rows|)| <= CAP
    ensures Filled(rows, 0, Ends(|rows|), CAP - |Ends(|rows|)|)
  {
    hide Ends, Changes;
    NoChangesYet(rows);
  }

  lemma FilledLast(rows: seq<Row>, n: nat, kept: set<int>, slack: int)
    requires n <= |rows| && Filled(rows, n, kept, slack) && (n == |rows| || slack <= 0)
    ensures kept == Ends(|rows|) + Changes(rows, |rows|)
  {
    hide Ends, Changes, Rank;
    NoRoomLeft(rows, n);
  }

  lemma NotYetChanged(rows: seq<Row>, n: nat)
    ensures n !in Changes(rows, n)
  {
    hide ChangePoint, Ends, Rank;
  }

  lemma {:induction false} RankGrows(rows: seq<Row>, m: nat, n: nat)
    requires m <= n
    ensures Rank(rows, m) <= Rank(rows, n)
  {
    hide ChangePoint;
    if m < n {
      RankGrows(rows, m, n - 1);
    }
  }

  lemma NoRoomLeft(rows: seq<Row>, n: nat)
    requires n <= |rows| && (n == |rows| || Rank(rows, n) >= CAP - |Ends(|rows|)|)
    ensures Changes(rows, |rows|) == Changes(rows, n)
  {
    hide ChangePoint, Ends, Rank;
    forall i | i in Changes(rows, |rows|) ensures i < n {
      if n <= i {
        RankGrows(rows, n, i);
      }
    }
  }

  /** How many rows have each key. */
  method CountKeys(rows: seq<Row>, fields: seq<string>) returns (counts: map<string, nat>)
    requires AreFields(rows, fields)
    ensures forall key :: key in counts <==> key in fields
    ensures forall key | key in fields :: counts[key] == Count(rows, key)
  {
    counts := map key | key in fields :: 0;
    for n := 0 to |rows|
      invariant forall key :: key in counts <==> key in fields
      invariant forall key | key in fields :: counts[key] == Count(rows[..n], key)
    {
      assert rows[..n + 1][..n] == rows[..n];
      counts := map key | key in counts :: counts[key] + if key in rows[n] then 1 else 0;
    }
    assert rows[..|rows|] == rows;
  }

  /** The columns that are in enough rows, tried as a table. */
  method TryTable(rows: seq<Row>, different: seq<Row>, fields: seq<string>, raw: string) returns (text: Option<string>)
    requires different == Different(rows) && AreFields(different, fields)
    ensures text == TableOf(rows, fields, raw)
  {
    hide Different, Saves, AreFields, Csv.IsTable, Csv.GridOut, Csv.GridOf;
    var counts := CountKeys(different, fields);
    var core: seq<string> := [];
    for n := 0 to |fields|
      invariant core == Core(different, fields[..n])
    {
      assert fields[..n + 1][..n] == fields[..n];
      if 5 * counts[fields[n]] >= 4 * Max(|different|, 1) {
        core := core + [fields[n]];
      }
    }
    assert fields[..|fields|] == fields;
    text := None;
    if core != [] && |different| == |rows| {
      text := Csv.LosslessCsv(different, core);
      if text.Some? && !Saves(text.value, raw) {
        text := None;
      }
    }
  }

  /** The array, when no table is taken; the closing check never refuses it, since each protected row is kept. */
  method JsonArrayView(rows: seq<Row>, fields: seq<string>, raw: string, protectedRow: Test) returns (view: Option<View>)
    requires AreFields(rows, fields)
    ensures view.Some?
    ensures match TableOf(rows, fields, raw)
      case Some(text) => view.value == Table(text, |rows|)
      case None =>
        && view.value.Array? && view.value.body == Body(rows, protectedRow)
        && var v := view.value;
          v.total == |rows| && v.kept == |v.body| && v.kept + v.dropped == v.total
          && v.duplicates == |rows| - |Different(rows)| <= v.dropped
          && (v.noted <==> |Different(rows)| > CAP && v.dropped > 0)
  {
    hide Different, Picked, Changes, Ends, TableOf, AreFields;
    DifferentHas(rows);
    SameFields(rows, fields);
    var total := |rows|;
    var different := Dedupe(rows);
    var count := |different|;
    var table := TryTable(rows, different, fields, raw);
    if table.Some? {
      return Some(Table(table.value, total));
    }
    if count <= CAP {
      return Some(Array(different, total, count, total - count, total - count, false));
    }
    var chosen := AddChanges(different);
    ghost var without := chosen;
    for n := 0 to count
      invariant chosen == without + set i | 0 <= i < n && protectedRow(different[i])
    {
      if protectedRow(different[n]) {
        chosen := chosen + {n};
      }
    }
    assert chosen == Kept(different, protectedRow);
    var kept := Picked(different, chosen);
    var found := true;
    for n := 0 to count
      invariant found
    {
      PickedHas(different, chosen, different[n]);
      found := found && (protectedRow(different[n]) ==> different[n] in kept);
    }
    KeptSize(different, chosen);
    var dropped := total - |kept|;
    view := if found then Some(Array(kept, total, |kept|, dropped, total - count, dropped > 0)) else None;
  }

  /** Leaving out repeated rows leaves out no field. */
  lemma SameFields(rows: seq<Row>, fields: seq<string>)
    requires AreFields(rows, fields)
    ensures AreFields(Different(rows), fields)
  {
    DifferentHas(rows);
    hide Different;
    var different := Different(rows);
    forall key ensures key in fields <==> exists i :: 0 <= i < |different| && key in different[i] {
      if key in fields {
        var i :| 0 <= i < |rows| && key in rows[i];
        assert rows[i] in different;
        var j :| 0 <= j < |different| && different[j] == rows[i];
        assert key in different[j];
      }
      if i :| 0 <= i < |different| && key in different[i] {
        assert different[i] in rows;
      }
    }
  }

  lemma KeptSize(rows: seq<Row>, chosen: set<int>)
    ensures |Picked(rows, chosen)| <= |rows|
  {
    hide Range;
    PickedSize(rows, chosen);
    RangeSize(0, |rows|);
    SubsetSize(chosen * Range(0, |rows|), Range(0, |rows|));
  }

}
