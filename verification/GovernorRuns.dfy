/**
 Applying the governor's decisions over whole runs: append-once receipts, a minimum distance in events
 between two applications of one action, and the snapshots and compactions that follow.
 */
module GovernorRuns {
  import opened Basics
  import opened Governor

  /** The receipt of an action: one per policy, action and twentieth of the window. */
  datatype Key = Key(policy: string, action: Action, bucket: int)

  datatype Row = Row(key: Key, seqno: Option<int>)

  datatype Effect = Snapshotted | Compacted

  datatype State = State(rows: seq<Row>, effects: seq<Effect>)

  /** One evaluation: the decision, the event it is about, and whether the replay tail is long enough. */
  datatype Input = Input(policy: string, window: int, context: nat, actions: seq<Action>, current: int, hasEvent: bool, due: bool)

  datatype Progress = Progress(state: State, created: bool, applied: seq<Action>)

  function Bucket(window: int, context: nat): int {
    context / Max(1, Ceil(window as real * 0.05))
  }

  /** The least number of tokens, one at least, that makes a twentieth of the window. */
  predicate IsTwentieth(window: int, width: nat) {
    1 <= width && 20 * width >= window && (width > 1 ==> 20 * (width - 1) < window)
  }

  /** A bucket spans a twentieth of the window. */
  lemma BucketIs(window: int, context: nat)
    ensures exists width :: IsTwentieth(window, width) && Bucket(window, context) * width <= context < (Bucket(window, context) + 1) * width
  {
    var c := Ceil(window as real * 0.05);
    var width: nat := Max(1, c);
    assert 20 * c >= window && 20 * (c - 1) < window;
    Divides(context, width);
    assert Bucket(window, context) == context / width;
    assert IsTwentieth(window, width);
  }

  lemma Divides(n: nat, d: nat)
    requires d > 0
    ensures (n / d) * d <= n < (n / d + 1) * d
  {
    assert n == (n / d) * d + n % d;
  }

  function KeyOf(x: Input, a: Action): Key {
    Key(x.policy, a, Bucket(x.window, x.context))
  }

  predicate Recorded(rows: seq<Row>, key: Key) {
    exists n :: 0 <= n < |rows| && rows[n].key == key
  }

  /** The event of the latest row of a policy and action, if that row names one. */
  function LastSeq(rows: seq<Row>, policy: string, a: Action): Option<int> {
    if rows == [] then None
    else
      var last := rows[|rows| - 1];
      if last.key.policy == policy && last.key.action == a then last.seqno
      else LastSeq(rows[..|rows| - 1], policy, a)
  }

  predicate TooSoon(rows: seq<Row>, x: Input, a: Action, interval: int) {
    var last := LastSeq(rows, x.policy, a);
    last.Some? && x.current - last.value < interval
  }

  predicate Skipped(rows: seq<Row>, x: Input, a: Action, interval: int) {
    (a == Snapshot && !x.due) || TooSoon(rows, x, a, interval) || Recorded(rows, KeyOf(x, a))
  }

  function EffectsOf(p: Progress, x: Input, a: Action): seq<Effect> {
    if a == Snapshot && !p.created then [Snapshotted]
    else if a == Compact then
      (if !p.created && (x.due || Snapshotted !in p.state.effects) then [Snapshotted] else []) + [Compacted]
    else []
  }

  function ApplyOne(p: Progress, x: Input, a: Action, interval: int): Progress {
    if Skipped(p.state.rows, x, a, interval) then p
    else
      var effects := EffectsOf(p, x, a);
      Progress(
        State(p.state.rows + [Row(KeyOf(x, a), if x.hasEvent then Some(x.current) else None)], p.state.effects + effects),
        p.created || Snapshotted in effects,
        p.applied + [a])
  }

  function ApplyEach(p: Progress, x: Input, actions: seq<Action>, interval: int): Progress
    decreases |actions|
  {
    if actions == [] then p else ApplyEach(ApplyOne(p, x, actions[0], interval), x, actions[1..], interval)
  }

  function Evaluate(s: State, x: Input, interval: int): Progress {
    ApplyEach(Progress(s, false, []), x, x.actions, interval)
  }

  // ----- runs

  /** Besides evaluations, sessions take snapshots on their own. */
  datatype Step = Evaluation(input: Input) | SnapshotTaken

  function Next(s: State, step: Step, interval: string -> int): State {
    match step
    case Evaluation(x) => Evaluate(s, x, interval(x.policy)).state
    case SnapshotTaken => s.(effects := s.effects + [Snapshotted])
  }

  function Run(s: State, steps: seq<Step>, interval: string -> int): State
    decreases |steps|
  {
    if steps == [] then s else Run(Next(s, steps[0], interval), steps[1..], interval)
  }

  predicate OneReceiptPerKey(rows: seq<Row>) {
    forall i, j :: 0 <= i < j < |rows| ==> rows[i].key != rows[j].key
  }

  /** Each row with an event is far enough from the row of its policy and action before it. */
  ghost predicate Spaced(rows: seq<Row>, interval: string -> int) {
    forall j :: 0 <= j < |rows| ==> FarEnough(rows, j, interval)
  }

  ghost predicate FarEnough(rows: seq<Row>, j: int, interval: string -> int)
    requires 0 <= j < |rows|
  {
    var key := rows[j].key;
    var last := LastSeq(rows[..j], key.policy, key.action);
    rows[j].seqno.Some? && last.Some? ==> rows[j].seqno.value - last.value >= interval(key.policy)
  }

  ghost predicate Inv(s: State, interval: string -> int) {
    OneReceiptPerKey(s.rows) && Spaced(s.rows, interval) && (s.effects != [] ==> s.effects[0] == Snapshotted)
  }

  lemma ApplyOneKeeps(p: Progress, x: Input, a: Action, interval: string -> int)
    requires Inv(p.state, interval) && (p.created ==> Snapshotted in p.state.effects)
    ensures var q := ApplyOne(p, x, a, interval(x.policy)); Inv(q.state, interval) && (q.created ==> Snapshotted in q.state.effects)
  {
    hide KeyOf, EffectsOf;
    var q := ApplyOne(p, x, a, interval(x.policy));
    if !Skipped(p.state.rows, x, a, interval(x.policy)) {
      KeyFields(x, a);
      EffectsStartWithSnapshot(p, x, a);
      RowKeeps(p.state.rows, q.state.rows[|p.state.rows|], x, a, interval);
    }
  }

  lemma KeyFields(x: Input, a: Action)
    ensures KeyOf(x, a).policy == x.policy && KeyOf(x, a).action == a
  {
  }

  lemma EffectsStartWithSnapshot(p: Progress, x: Input, a: Action)
    requires p.created ==> Snapshotted in p.state.effects
    ensures p.state.effects == [] && EffectsOf(p, x, a) != [] ==> EffectsOf(p, x, a)[0] == Snapshotted
  {
  }

  lemma RowKeeps(rows: seq<Row>, row: Row, x: Input, a: Action, interval: string -> int)
    requires OneReceiptPerKey(rows) && Spaced(rows, interval)
    requires row.key == KeyOf(x, a) && (row.seqno.Some? ==> row.seqno.value == x.current)
    requires !TooSoon(rows, x, a, interval(x.policy)) && !Recorded(rows, row.key)
    ensures OneReceiptPerKey(rows + [row]) && Spaced(rows + [row], interval)
  {
    hide KeyOf, LastSeq;
    KeyFields(x, a);
    var more := rows + [row];
    forall j | 0 <= j < |more| ensures FarEnough(more, j, interval) {
      if j < |rows| {
        assert more[..j] == rows[..j] && FarEnough(rows, j, interval);
      } else {
        assert more[..j] == rows;
      }
    }
  }

  lemma {:induction false} ApplyEachKeeps(p: Progress, x: Input, actions: seq<Action>, interval: string -> int)
    requires Inv(p.state, interval) && (p.created ==> Snapshotted in p.state.effects)
    ensures Inv(ApplyEach(p, x, actions, interval(x.policy)).state, interval)
    decreases |actions|
  {
    hide Inv, ApplyOne;
    if actions != [] {
      ApplyOneKeeps(p, x, actions[0], interval);
      ApplyEachKeeps(ApplyOne(p, x, actions[0], interval(x.policy)), x, actions[1..], interval);
    }
  }

  lemma SnapshotKeeps(s: State, interval: string -> int)
    requires Inv(s, interval)
    ensures Inv(s.(effects := s.effects + [Snapshotted]), interval)
  {
  }

  /** Over every run from an empty store: no receipt is ever written twice, applications of one action keep
      their distance, and the first effect is a snapshot, so nothing is compacted before one exists. */
  lemma {:induction false} RunKeeps(s: State, steps: seq<Step>, interval: string -> int)
    requires Inv(s, interval)
    ensures Inv(Run(s, steps, interval), interval)
    decreases |steps|
  {
    hide Inv, ApplyEach;
    if steps != [] {
      match steps[0] {
        case Evaluation(x) => ApplyEachKeeps(Progress(s, false, []), x, x.actions, interval);
        case SnapshotTaken => SnapshotKeeps(s, interval);
      }
      RunKeeps(Next(s, steps[0], interval), steps[1..], interval);
    }
  }

  /** In a store whose rows all name events, any two applications of one action are at least the interval apart. */
  lemma {:induction false} ApplicationsAreApart(rows: seq<Row>, i: nat, j: nat, interval: string -> int)
    requires Spaced(rows, interval) && (forall n :: 0 <= n < |rows| ==> rows[n].seqno.Some?)
    requires i < j < |rows| && rows[i].key.policy == rows[j].key.policy && rows[i].key.action == rows[j].key.action
    requires interval(rows[j].key.policy) >= 0
    ensures rows[j].seqno.value - rows[i].seqno.value >= interval(rows[j].key.policy)
    decreases j
  {
    hide LastSeq;
    var key := rows[j].key;
    LatestRow(rows[..j], key.policy, key.action, i);
    assert FarEnough(rows, j, interval);
    var k :| i <= k < j && rows[..j][k].key.policy == key.policy && rows[..j][k].key.action == key.action
             && LastSeq(rows[..j], key.policy, key.action) == rows[..j][k].seqno;
    assert rows[..j][k] == rows[k];
    if i < k {
      ApplicationsAreApart(rows, i, k, interval);
    }
  }

  lemma {:induction false} LatestRow(rows: seq<Row>, policy: string, a: Action, i: nat)
    requires i < |rows| && rows[i].key.policy == policy && rows[i].key.action == a
    ensures exists k :: i <= k < |rows| && rows[k].key.policy == policy && rows[k].key.action == a && LastSeq(rows, policy, a) == rows[k].seqno
  {
    var init, last := rows[..|rows| - 1], rows[|rows| - 1];
    if last.key.policy == policy && last.key.action == a {
      assert LastSeq(rows, policy, a) == rows[|rows| - 1].seqno;
    } else {
      LatestRow(init, policy, a, i);
      var k :| i <= k < |init| && init[k].key.policy == policy && init[k].key.action == a && LastSeq(init, policy, a) == init[k].seqno;
      assert rows[k] == init[k];
    }
  }

  // ----- one evaluation

  function Snapshots(effects: seq<Effect>): nat {
    if effects == [] then 0 else (if effects[0] == Snapshotted then 1 else 0) + Snapshots(effects[1..])
  }

  lemma {:induction false} SnapshotsAdd(xs: seq<Effect>, ys: seq<Effect>)
    ensures Snapshots(xs + ys) == Snapshots(xs) + Snapshots(ys)
  {
    if xs == [] {
      assert xs + ys == ys;
    } else {
      assert (xs + ys)[1..] == xs[1..] + ys;
      SnapshotsAdd(xs[1..], ys);
    }
  }

  /** How many snapshots an evaluation may still take. */
  function Left(p: Progress): nat {
    if p.created then 0 else 1
  }

  lemma OneSnapshotStep(p: Progress, x: Input, a: Action, interval: int)
    ensures var q := ApplyOne(p, x, a, interval);
      Snapshots(q.state.effects) + Left(q) == Snapshots(p.state.effects) + Left(p)
  {
    hide Skipped;
    SnapshotsAdd(p.state.effects, EffectsOf(p, x, a));
    assert [Snapshotted] + [Compacted] == [Snapshotted, Compacted];
    assert [Snapshotted, Compacted][1..] == [Compacted];
    assert [] + [Compacted] == [Compacted];
  }

  lemma {:induction false} OneSnapshotAtMost(p: Progress, x: Input, actions: seq<Action>, interval: int)
    ensures var q := ApplyEach(p, x, actions, interval);
      Snapshots(q.state.effects) + Left(q) == Snapshots(p.state.effects) + Left(p)
    decreases |actions|
  {
    hide ApplyOne, Snapshots;
    if actions != [] {
      OneSnapshotStep(p, x, actions[0], interval);
      OneSnapshotAtMost(ApplyOne(p, x, actions[0], interval), x, actions[1..], interval);
    }
  }

  /** An evaluation takes at most one snapshot, whatever it applies. */
  lemma EvaluationTakesOneSnapshot(s: State, x: Input, interval: int)
    ensures Snapshots(s.effects) <= Snapshots(Evaluate(s, x, interval).state.effects) <= Snapshots(s.effects) + 1
  {
    hide ApplyEach, Snapshots;
    OneSnapshotAtMost(Progress(s, false, []), x, x.actions, interval);
  }

  // ----- evaluating again

  lemma SkippedStays(p: Progress, x: Input, a: Action, b: Action, interval: int)
    requires Skipped(p.state.rows, x, a, interval)
    ensures Skipped(ApplyOne(p, x, b, interval).state.rows, x, a, interval)
  {
    hide KeyOf, EffectsOf;
    KeyFields(x, b);
    var q := ApplyOne(p, x, b, interval);
    if q != p {
      assert q.state.rows[..|q.state.rows| - 1] == p.state.rows;
      if Recorded(p.state.rows, KeyOf(x, a)) {
        var n :| 0 <= n < |p.state.rows| && p.state.rows[n].key == KeyOf(x, a);
        assert q.state.rows[n].key == KeyOf(x, a);
      }
    }
  }

  lemma NowSkipped(p: Progress, x: Input, a: Action, interval: int)
    ensures Skipped(ApplyOne(p, x, a, interval).state.rows, x, a, interval)
  {
    hide KeyOf, EffectsOf, TooSoon;
    var q := ApplyOne(p, x, a, interval);
    if !Skipped(p.state.rows, x, a, interval) {
      assert q.state.rows[|p.state.rows|].key == KeyOf(x, a);
    }
  }

  lemma {:induction false} AllSkipped(p: Progress, x: Input, actions: seq<Action>, interval: int, a: Action)
    requires a in actions || Skipped(p.state.rows, x, a, interval)
    ensures Skipped(ApplyEach(p, x, actions, interval).state.rows, x, a, interval)
    decreases |actions|
  {
    hide ApplyOne, Skipped;
    if actions != [] {
      if a == actions[0] {
        NowSkipped(p, x, a, interval);
      } else if Skipped(p.state.rows, x, a, interval) {
        SkippedStays(p, x, a, actions[0], interval);
      }
      AllSkipped(ApplyOne(p, x, actions[0], interval), x, actions[1..], interval, a);
    }
  }

  lemma {:induction false} NothingToApply(p: Progress, x: Input, actions: seq<Action>, interval: int)
    requires forall a :: a in actions ==> Skipped(p.state.rows, x, a, interval)
    ensures ApplyEach(p, x, actions, interval) == p
    decreases |actions|
  {
    hide Skipped;
    if actions != [] {
      assert actions[0] in actions;
      NothingToApply(p, x, actions[1..], interval);
    }
  }

  /** Evaluating the same decision again records nothing and does nothing, unless the tail has become due. */
  lemma EvaluateTwice(s: State, x: Input, interval: int, dueAgain: bool)
    requires dueAgain ==> x.due
    ensures var once := Evaluate(s, x, interval).state;
      Evaluate(once, x.(due := dueAgain), interval) == Progress(once, false, [])
  {
    hide ApplyEach, Recorded, TooSoon;
    var once := Evaluate(s, x, interval).state;
    var again := x.(due := dueAgain);
    forall a | a in x.actions ensures Skipped(once.rows, again, a, interval) {
      AllSkipped(Progress(s, false, []), x, x.actions, interval, a);
      DueOnlyMatters(once.rows, x, a, interval, dueAgain);
    }
    NothingToApply(Progress(once, false, []), again, x.actions, interval);
  }

  lemma DueOnlyMatters(rows: seq<Row>, x: Input, a: Action, interval: int, due: bool)
    requires Skipped(rows, x, a, interval) && (due ==> x.due)
    ensures Skipped(rows, x.(due := due), a, interval)
  {
  }

  // ----- what one evaluation does

  /** The latest row of a policy and action. */
  predicate IsLatest(rows: seq<Row>, policy: string, a: Action, n: nat) {
    && n < |rows| && rows[n].key.policy == policy && rows[n].key.action == a
    && forall m | n < m < |rows| :: !(rows[m].key.policy == policy && rows[m].key.action == a)
  }

  /** That row names an event less than the interval ago. */
  predicate AppliedLately(rows: seq<Row>, x: Input, a: Action, interval: int) {
    exists n | 0 <= n < |rows| :: IsLatest(rows, x.policy, a, n) && rows[n].seqno.Some? && x.current - rows[n].seqno.value < interval
  }

  /** What is applied of an action: a snapshot only when the tail is due, nothing too early, nothing twice in a bucket. */
  predicate Allowed(rows: seq<Row>, x: Input, a: Action, interval: int) {
    && (a == Snapshot ==> x.due) && !AppliedLately(rows, x, a, interval)
    && forall n | 0 <= n < |rows| :: rows[n].key != Key(x.policy, a, Bucket(x.window, x.context))
  }

  lemma {:induction false} LastSeqIs(rows: seq<Row>, policy: string, a: Action)
    ensures forall n | 0 <= n < |rows| && IsLatest(rows, policy, a, n) :: LastSeq(rows, policy, a) == rows[n].seqno
    ensures LastSeq(rows, policy, a).Some? ==> exists n | 0 <= n < |rows| :: IsLatest(rows, policy, a, n)
  {
    if rows != [] {
      var init, last := rows[..|rows| - 1], rows[|rows| - 1];
      LastSeqIs(init, policy, a);
      if last.key.policy == policy && last.key.action == a {
        assert IsLatest(rows, policy, a, |init|);
      } else {
        forall n | 0 <= n < |rows| ensures IsLatest(rows, policy, a, n) <==> n < |init| && IsLatest(init, policy, a, n) {}
      }
    }
  }

  lemma LastSeqExactly(rows: seq<Row>, x: Input, a: Action, interval: int)
    ensures TooSoon(rows, x, a, interval) <==> AppliedLately(rows, x, a, interval)
  {
    LastSeqIs(rows, x.policy, a);
  }

  lemma SkippedExactly(rows: seq<Row>, x: Input, a: Action, interval: int)
    ensures Skipped(rows, x, a, interval) <==> !Allowed(rows, x, a, interval)
  {
    hide TooSoon, AppliedLately, Bucket;
    LastSeqExactly(rows, x, a, interval);
  }

  predicate Different(actions: seq<Action>) {
    forall i, j | 0 <= i < j < |actions| :: actions[i] != actions[j]
  }

  /** The actions that may be applied, in their order. */
  function AllowedOf(rows: seq<Row>, x: Input, actions: seq<Action>, interval: int): seq<Action> {
    if actions == [] then []
    else (if Allowed(rows, x, actions[0], interval) then [actions[0]] else []) + AllowedOf(rows, x, actions[1..], interval)
  }

  /** A row of one action does not matter to another. */
  lemma OtherRow(rows: seq<Row>, row: Row, x: Input, a: Action, interval: int)
    requires row.key.action != a
    ensures Skipped(rows + [row], x, a, interval) <==> Skipped(rows, x, a, interval)
  {
    assert (rows + [row])[..|rows|] == rows;
    if n :| 0 <= n < |rows| && rows[n].key == KeyOf(x, a) {
      assert (rows + [row])[n] == rows[n];
    }
    if n :| 0 <= n < |rows + [row]| && (rows + [row])[n].key == KeyOf(x, a) {
      assert n < |rows|;
    }
  }

  lemma {:induction false} OtherRows(rows: seq<Row>, row: Row, x: Input, actions: seq<Action>, interval: int)
    requires row.key.action !in actions
    ensures AllowedOf(rows + [row], x, actions, interval) == AllowedOf(rows, x, actions, interval)
  {
    hide Skipped, Allowed;
    if actions != [] {
      OtherRow(rows, row, x, actions[0], interval);
      SkippedExactly(rows, x, actions[0], interval);
      SkippedExactly(rows + [row], x, actions[0], interval);
      OtherRows(rows, row, x, actions[1..], interval);
    }
  }

  lemma {:induction false} AppliedFrom(p: Progress, x: Input, actions: seq<Action>, interval: int)
    requires Different(actions)
    ensures ApplyEach(p, x, actions, interval).applied == p.applied + AllowedOf(p.state.rows, x, actions, interval)
    decreases |actions|
  {
    hide Skipped, Allowed, EffectsOf, Bucket;
    if actions == [] {
      assert p.applied + [] == p.applied;
    } else {
      var a, rest := actions[0], actions[1..];
      var q := ApplyOne(p, x, a, interval);
      SkippedExactly(p.state.rows, x, a, interval);
      assert Different(rest) && a !in rest;
      AppliedFrom(q, x, rest, interval);
      if !Skipped(p.state.rows, x, a, interval) {
        OtherRows(p.state.rows, q.state.rows[|p.state.rows|], x, rest, interval);
        assert p.applied + [a] + AllowedOf(p.state.rows, x, rest, interval) == p.applied + ([a] + AllowedOf(p.state.rows, x, rest, interval));
      } else {
        assert [] + AllowedOf(p.state.rows, x, rest, interval) == AllowedOf(p.state.rows, x, rest, interval);
      }
    }
  }

  /** Of the actions decided on, exactly those that may be are applied, in their order. */
  lemma AppliedExactly(s: State, x: Input, interval: int)
    requires Different(x.actions)
    ensures Evaluate(s, x, interval).applied == AllowedOf(s.rows, x, x.actions, interval)
  {
    AppliedFrom(Progress(s, false, []), x, x.actions, interval);
  }

  /** The rows of some applications, in order: each names its policy, action and bucket, and the event if there is one. */
  function RowsFor(x: Input, applied: seq<Action>): seq<Row> {
    seq(|applied|, n requires 0 <= n < |applied| =>
      Row(Key(x.policy, applied[n], Bucket(x.window, x.context)), if x.hasEvent then Some(x.current) else None))
  }

  lemma {:induction false} RowsFrom(p: Progress, x: Input, actions: seq<Action>, interval: int)
    ensures var q := ApplyEach(p, x, actions, interval);
      p.applied <= q.applied && q.state.rows == p.state.rows + RowsFor(x, q.applied[|p.applied|..])
    decreases |actions|
  {
    hide Skipped, EffectsOf, Bucket;
    if actions == [] {
      assert RowsFor(x, p.applied[|p.applied|..]) == [];
    } else {
      var r := ApplyOne(p, x, actions[0], interval);
      RowsFrom(r, x, actions[1..], interval);
      var q := ApplyEach(p, x, actions, interval);
      if !Skipped(p.state.rows, x, actions[0], interval) {
        assert q.applied[|p.applied|..] == [actions[0]] + q.applied[|r.applied|..];
      }
    }
  }

  /** One row for each action applied, in order. */
  lemma RowsExactly(s: State, x: Input, interval: int)
    ensures Evaluate(s, x, interval).state.rows == s.rows + RowsFor(x, Evaluate(s, x, interval).applied)
  {
    RowsFrom(Progress(s, false, []), x, x.actions, interval);
  }

  /** What the applied actions of a decision do. */
  function EffectsFor(s: State, x: Input, applied: seq<Action>): seq<Effect> {
    (if Snapshot in applied then [Snapshotted] else [])
    + if Compact in applied then
        (if Snapshot !in applied && (x.due || Snapshotted !in s.effects) then [Snapshotted] else []) + [Compacted]
      else []
  }

  lemma OneEffect(p: Progress, x: Input, a: Action, interval: int)
    ensures var q := ApplyOne(p, x, a, interval);
      && (q.applied == p.applied || q.applied == p.applied + [a])
      && (q.applied == p.applied ==> q == p)
      && (q.applied != p.applied ==>
            && q.created == (p.created || Snapshotted in EffectsOf(p, x, a)) && q.state.effects == p.state.effects + EffectsOf(p, x, a))
  {
    hide Skipped, EffectsOf;
  }

  lemma {:induction false} HandoffsOnly(p: Progress, x: Input, actions: seq<Action>, interval: int)
    requires forall a | a in actions :: a == Handoff || a == HandoffRequired
    ensures var q := ApplyEach(p, x, actions, interval);
      && q.state.effects == p.state.effects && (Snapshot in q.applied <==> Snapshot in p.applied) && (Compact in q.applied <==> Compact in p.applied)
    decreases |actions|
  {
    hide ApplyOne;
    if actions != [] {
      assert actions[0] in actions && forall a | a in actions[1..] :: a in actions;
      OneEffect(p, x, actions[0], interval);
      HandoffsOnly(ApplyOne(p, x, actions[0], interval), x, actions[1..], interval);
    }
  }

  lemma ApplySplit(p: Progress, x: Input, actions: seq<Action>, interval: int)
    requires actions != []
    ensures ApplyEach(p, x, actions, interval) == ApplyEach(ApplyOne(p, x, actions[0], interval), x, actions[1..], interval)
  {
    hide ApplyOne;
  }

  lemma SnapshotFirst(s: State, x: Input, interval: int)
    ensures var p := ApplyOne(Progress(s, false, []), x, Snapshot, interval);
      && (p.applied == [] || p.applied == [Snapshot])
      && p.created == (p.applied == [Snapshot]) && p.state.effects == s.effects + if p.applied == [Snapshot] then [Snapshotted] else []
  {
    hide ApplyOne;
    OneEffect(Progress(s, false, []), x, Snapshot, interval);
    assert s.effects + [] == s.effects;
  }

  lemma CompactSecond(s: State, x: Input, interval: int)
    ensures var p := ApplyOne(Progress(s, false, []), x, Snapshot, interval);
      var q := ApplyOne(p, x, Compact, interval);
      && (Snapshot in q.applied <==> p.applied == [Snapshot]) && q.state.effects == s.effects + EffectsFor(s, x, q.applied)
  {
    hide ApplyOne;
    SnapshotFirst(s, x, interval);
    OneEffect(ApplyOne(Progress(s, false, []), x, Snapshot, interval), x, Compact, interval);
  }

  /**
   An applied snapshot takes one; an applied compaction compacts, after a snapshot of its own when none was taken just
   now and the tail is due or there never was one; the handoffs do nothing further.
   */
  lemma EffectsExactly(s: State, x: Input, interval: int)
    requires x.actions <= [Snapshot, Compact, Handoff, HandoffRequired]
    ensures var q := Evaluate(s, x, interval); q.state.effects == s.effects + EffectsFor(s, x, q.applied)
  {
    hide ApplyOne, ApplyEach;
    var all, start := [Snapshot, Compact, Handoff, HandoffRequired], Progress(s, false, []);
    if x.actions == [] {
      NoActions(start, x, interval);
    } else {
      assert x.actions[0] == all[0];
      ApplySplit(start, x, x.actions, interval);
      SnapshotFirst(s, x, interval);
      var p, rest := ApplyOne(start, x, Snapshot, interval), x.actions[1..];
      if rest == [] {
        NoActions(p, x, interval);
      } else {
        assert rest[0] == x.actions[1] == all[1];
        ApplySplit(p, x, rest, interval);
        CompactSecond(s, x, interval);
        forall a | a in rest[1..] ensures a == Handoff || a == HandoffRequired {
          var n :| 0 <= n < |rest[1..]| && rest[1..][n] == a;
          assert a == x.actions[n + 2] == all[n + 2];
        }
        HandoffsOnly(ApplyOne(p, x, Compact, interval), x, rest[1..], interval);
        EffectsOnly(s, x, ApplyOne(p, x, Compact, interval).applied, Evaluate(s, x, interval).applied);
      }
    }
  }

  lemma NoActions(p: Progress, x: Input, interval: int)
    ensures ApplyEach(p, x, [], interval) == p
  {}

  lemma EffectsOnly(s: State, x: Input, some: seq<Action>, all: seq<Action>)
    requires (Snapshot in some <==> Snapshot in all) && (Compact in some <==> Compact in all)
    ensures EffectsFor(s, x, some) == EffectsFor(s, x, all)
  {}

  // ----- the store

  class Ledger {
    var rows: seq<Row>
    var effects: seq<Effect>

    ghost function Contents(): State
      reads this
    {
      State(rows, effects)
    }

    method FindReceipt(key: Key) returns (found: bool)
      ensures found <==> Recorded(rows, key)
    {
      found := false;
      for n := 0 to |rows|
        invariant found <==> exists k :: 0 <= k < n && rows[k].key == key
      {
        if rows[n].key == key {
          found := true;
        }
      }
    }

    method LastActionSeq(policy: string, a: Action) returns (last: Option<int>)
      ensures last == LastSeq(rows, policy, a)
    {
      var n := |rows|;
      assert rows[..n] == rows;
      while n > 0
        invariant 0 <= n <= |rows| && LastSeq(rows[..n], policy, a) == LastSeq(rows, policy, a)
      {
        assert rows[..n][..n - 1] == rows[..n - 1];
        n := n - 1;
        if rows[n].key.policy == policy && rows[n].key.action == a {
          return rows[n].seqno;
        }
      }
      last := None;
    }

    method RecordAction(key: Key, seqno: Option<int>) returns (created: bool)
      modifies this`rows
      ensures created <==> !old(Recorded(rows, key))
      ensures rows == old(rows) + if created then [Row(key, seqno)] else []
    {
      var found := FindReceipt(key);
      created := !found;
      if created {
        rows := rows + [Row(key, seqno)];
      }
    }

    method EvaluateAndApply(x: Input, interval: int) returns (applied: seq<Action>)
      modifies this
      ensures Contents() == Evaluate(old(Contents()), x, interval).state
      ensures applied == Evaluate(old(Contents()), x, interval).applied
    {
      hide KeyOf, LastSeq, Recorded;
      ghost var start := Progress(State(rows, effects), false, []);
      var created := false;
      applied := [];
      for n := 0 to |x.actions|
        invariant ApplyEach(Progress(State(rows, effects), created, applied), x, x.actions[n..], interval)
                  == ApplyEach(start, x, x.actions, interval)
      {
        var a := x.actions[n];
        ghost var before := Progress(State(rows, effects), created, applied);
        assert x.actions[n..][0] == a && x.actions[n..][1..] == x.actions[n + 1..];
        if a == Snapshot && !x.due {
          assert ApplyOne(before, x, a, interval) == before;
          continue;
        }
        var last := LastActionSeq(x.policy, a);
        if last.Some? && x.current - last.value < interval {
          assert ApplyOne(before, x, a, interval) == before;
          continue;
        }
        var recorded := RecordAction(KeyOf(x, a), if x.hasEvent then Some(x.current) else None);
        if !recorded {
          assert rows == before.state.rows;
          continue;
        }
        if a == Snapshot && !created {
          effects := effects + [Snapshotted];
          created := true;
        } else if a == Compact {
          if !created && (x.due || Snapshotted !in effects) {
            effects := effects + [Snapshotted];
            created := true;
          }
          effects := effects + [Compacted];
        }
        applied := applied + [a];
        EffectsMatch(before, x, a, effects, created);
        assert Progress(State(rows, effects), created, applied) == ApplyOne(before, x, a, interval);
      }
    }
  }

  lemma EffectsMatch(p: Progress, x: Input, a: Action, effects: seq<Effect>, created: bool)
    requires created == (p.created || (a == Snapshot && !p.created)
                         || (a == Compact && !p.created && (x.due || Snapshotted !in p.state.effects)))
    requires effects == (
      if a == Snapshot && !p.created then p.state.effects + [Snapshotted]
      else if a == Compact && created != p.created then p.state.effects + [Snapshotted] + [Compacted]
      else if a == Compact then p.state.effects + [Compacted]
      else p.state.effects)
    ensures effects == p.state.effects + EffectsOf(p, x, a) && created == (p.created || Snapshotted in EffectsOf(p, x, a))
  {
    assert p.state.effects + [Snapshotted] + [Compacted] == p.state.effects + ([Snapshotted] + [Compacted]);
    assert [] + [Compacted] == [Compacted];
  }
}
