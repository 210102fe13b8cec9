/**
 The context governor: limits are checked once when they are configured, turned into four token
 thresholds in ceiling arithmetic, and compared with the context; the actions reached are then applied
 behind append-once receipts and a minimum distance in events. Ratios are exact reals.
 */
module Governor {
  import opened Basics

  datatype Result<T> = Ok(value: T) | Err(error: Error)

  datatype Error = MissingField | BadTokens | BadRatios | NoRoomForHard | InvalidPolicy(hard: int, handoff: int)

  datatype Policy = Policy(
    window: int, snapshotRatio: real, compactRatio: real, handoffRatio: real, hardRatio: real,
    cap: Option<int>, reserve: int, interval: int)

  datatype Thresholds = Thresholds(snapshot: int, compact: int, handoff: int, hard: int)

  function Ceil(x: real): (c: int)
    ensures (c - 1) as real < x <= c as real
  {
    -((-x).Floor)
  }

  // ----- validation

  function HandoffRoom(p: Policy): int {
    Min(Ceil(p.window as real * p.handoffRatio), p.window - p.reserve)
  }

  function HardRoom(p: Policy): int {
    Min(Ceil(p.window as real * p.hardRatio), p.window - p.reserve)
  }

  /** Limits reach a policy only through this check. */
  function ValidateLimits(p: Policy): Result<Policy> {
    if p.cap.None? then Err(MissingField)
    else if p.window <= 0 || p.reserve < 0 || p.reserve >= p.window || p.cap.value <= 0 || p.interval < 0 then Err(BadTokens)
    else if !(0.0 < p.snapshotRatio < p.compactRatio < p.handoffRatio < p.hardRatio <= 1.0) then Err(BadRatios)
    else if Min(p.cap.value, HandoffRoom(p)) >= HardRoom(p) then Err(NoRoomForHard)
    else Ok(p)
  }

  /** The least whole number that is not below. */
  predicate RoundedUp(k: int, x: real) {
    (k - 1) as real < x <= k as real
  }

  lemma CeilIs(k: int, x: real)
    requires RoundedUp(k, x)
    ensures k == Ceil(x)
  {
  }

  /**
   Limits are accepted exactly when the cap is there, the counts are in range, the ratios increase up to one, and the
   recommended handoff, the share of the window or what the reserve leaves of it is below the hard limit.
   */
  lemma AcceptedExactly(p: Policy, handoff: int, hard: int)
    requires RoundedUp(handoff, p.window as real * p.handoffRatio) && RoundedUp(hard, p.window as real * p.hardRatio)
    ensures ValidateLimits(p).Ok? <==>
      && p.cap.Some? && p.window > 0 && 0 <= p.reserve < p.window && p.cap.value > 0 && p.interval >= 0
      && 0.0 < p.snapshotRatio && p.snapshotRatio < p.compactRatio && p.compactRatio < p.handoffRatio
      && p.handoffRatio < p.hardRatio && p.hardRatio <= 1.0
      && (p.cap.value < hard || handoff < hard || p.window - p.reserve < hard)
      && (p.cap.value < p.window - p.reserve || handoff < p.window - p.reserve)
    ensures ValidateLimits(p).Ok? ==> ValidateLimits(p).value == p
  {
    CeilIs(handoff, p.window as real * p.handoffRatio);
    CeilIs(hard, p.window as real * p.hardRatio);
    assert HandoffRoom(p) == Min(handoff, p.window - p.reserve) && HardRoom(p) == Min(hard, p.window - p.reserve);
    hide HandoffRoom, HardRoom, RoundedUp;
  }

  predicate Validated(p: Policy) {
    ValidateLimits(p).Ok?
  }

  // ----- thresholds

  /** The handoff the window allows; the reserve counts only when it is not zero. */
  function Physical(p: Policy): int {
    var room := Ceil(p.window as real * p.handoffRatio);
    if p.reserve != 0 then Min(room, p.window - p.reserve) else room
  }

  function Wanted(p: Policy): int {
    if p.cap.Some? then Min(Physical(p), p.cap.value) else Physical(p)
  }

  function Scale(p: Policy): real {
    if Physical(p) != 0 then Wanted(p) as real / Physical(p) as real else 1.0
  }

  /** A part of the window. */
  function Part(p: Policy, ratio: real): real {
    p.window as real * ratio
  }

  function ScaledCeil(x: real, scale: real): int {
    Ceil(x * scale)
  }

  function SnapshotLevel(p: Policy): int {
    Max(1, ScaledCeil(Part(p, p.snapshotRatio), Scale(p)))
  }

  function CompactLevel(p: Policy): int {
    ScaledCeil(Part(p, p.compactRatio), Scale(p))
  }

  function HardLevel(p: Policy): int {
    var room := Ceil(p.window as real * p.hardRatio);
    if p.reserve != 0 then Min(room, p.window - p.reserve) else room
  }

  function ThresholdsOf(p: Policy): Result<Thresholds> {
    var snapshot := SnapshotLevel(p);
    var compact := Max(snapshot + 1, CompactLevel(p));
    var handoff := Max(compact + 1, Wanted(p));
    var hard := HardLevel(p);
    if hard <= handoff then Err(InvalidPolicy(hard, handoff)) else Ok(Thresholds(snapshot, compact, handoff, hard))
  }

  /** One of two numbers, and at least the other. */
  predicate IsLarger(k: int, a: int, b: int) {
    k >= a && k >= b && (k == a || k == b)
  }

  predicate IsSmaller(k: int, a: int, b: int) {
    k <= a && k <= b && (k == a || k == b)
  }

  /** A share of the window, scaled down as the cap scales the handoff. */
  function ScaledShare(p: Policy, ratio: real, wanted: int, room: int): real
    requires room != 0
  {
    p.window as real * ratio * (wanted as real / room as real)
  }

  /**
   What the thresholds are. `room` is the handoff that the window allows: its share, or what the reserve leaves if that
   is less. The cap scales snapshot and compaction down as it scales the handoff; each level is above the one before.
   */
  lemma ThresholdsExactly(p: Policy, share: int, room: int, wanted: int, snapshot: int, compact: int, hard: int)
    requires RoundedUp(share, p.window as real * p.handoffRatio) && RoundedUp(hard, p.window as real * p.hardRatio)
    requires IsSmaller(room, share, if p.reserve == 0 then share else p.window - p.reserve) && room > 0
    requires IsSmaller(wanted, room, if p.cap.Some? then p.cap.value else room)
    requires RoundedUp(snapshot, ScaledShare(p, p.snapshotRatio, wanted, room)) && RoundedUp(compact, ScaledShare(p, p.compactRatio, wanted, room))
    ensures ThresholdsOf(p).Ok? ==>
      var t := ThresholdsOf(p).value;
      && IsLarger(t.snapshot, 1, snapshot) && IsLarger(t.compact, t.snapshot + 1, compact)
      && IsLarger(t.handoff, t.compact + 1, wanted)
      && IsSmaller(t.hard, hard, if p.reserve == 0 then hard else p.window - p.reserve)
  {
    hide Scale, ScaledCeil, Part, ScaledShare, RoundedUp, Physical, Wanted, HardLevel, Ceil;
    RoomIs(p, share, room, wanted);
    HardIs(p, hard);
    ShareOfRoom(p, room, wanted);
    LevelIs(p, p.snapshotRatio, room, wanted, snapshot);
    LevelIs(p, p.compactRatio, room, wanted, compact);
  }

  lemma ShareOfRoom(p: Policy, room: int, wanted: int)
    requires Physical(p) == room != 0 && Wanted(p) == wanted
    ensures Scale(p) == wanted as real / room as real
  {}

  lemma LevelIs(p: Policy, ratio: real, room: int, wanted: int, level: int)
    requires room != 0 && Scale(p) == wanted as real / room as real && RoundedUp(level, ScaledShare(p, ratio, wanted, room))
    ensures ScaledCeil(Part(p, ratio), Scale(p)) == level
  {
    hide Scale;
    CeilIs(level, ScaledShare(p, ratio, wanted, room));
  }

  lemma RoomIs(p: Policy, share: int, room: int, wanted: int)
    requires RoundedUp(share, p.window as real * p.handoffRatio)
    requires IsSmaller(room, share, if p.reserve == 0 then share else p.window - p.reserve)
    requires IsSmaller(wanted, room, if p.cap.Some? then p.cap.value else room)
    ensures Physical(p) == room && Wanted(p) == wanted
  {
    CeilIs(share, p.window as real * p.handoffRatio);
  }

  lemma HardIs(p: Policy, hard: int)
    requires RoundedUp(hard, p.window as real * p.hardRatio)
    ensures IsSmaller(HardLevel(p), hard, if p.reserve == 0 then hard else p.window - p.reserve)
  {
    CeilIs(hard, p.window as real * p.hardRatio);
  }

  lemma AtMost(w: int, ratio: real)
    requires w >= 0 && ratio <= 1.0
    ensures Ceil(w as real * ratio) <= w
  {
    assert w as real * ratio <= w as real * 1.0;
  }

  lemma AtLeastOne(w: int, ratio: real)
    requires w > 0 && ratio > 0.0
    ensures Ceil(w as real * ratio) >= 1
  {
    assert w as real * ratio > 0.0;
  }

  /** Thresholds that are returned are in order and leave the reserve free. */
  lemma ThresholdsAreOrdered(p: Policy)
    requires Validated(p) && ThresholdsOf(p).Ok?
    ensures var t := ThresholdsOf(p).value; 1 <= t.snapshot < t.compact < t.handoff < t.hard <= p.window - p.reserve
  {
    hide SnapshotLevel, CompactLevel, Wanted;
    SnapshotIsPositive(p);
    AtMost(p.window, p.hardRatio);
  }

  lemma SnapshotIsPositive(p: Policy)
    ensures SnapshotLevel(p) >= 1
  {
    hide Scale;
  }

  /** For validated limits the two ways of capping agree. */
  lemma RoomsAgree(p: Policy)
    requires Validated(p)
    ensures Physical(p) == HandoffRoom(p) >= 1 && HardLevel(p) == HardRoom(p) && 1 <= Wanted(p) < HardLevel(p)
  {
    AtMost(p.window, p.handoffRatio);
    AtMost(p.window, p.hardRatio);
    AtLeastOne(p.window, p.handoffRatio);
  }

  /** Validated limits can still be refused: exactly when a lower level crowds the hard threshold. */
  lemma ThresholdsRaiseExactly(p: Policy)
    requires Validated(p)
    ensures ThresholdsOf(p).Ok? <==> SnapshotLevel(p) + 2 < HardLevel(p) && CompactLevel(p) + 1 < HardLevel(p)
  {
    hide SnapshotLevel, CompactLevel, HardLevel, Wanted;
    RoomsAgree(p);
  }

  lemma ScaledDown(x: real, wanted: int, physical: int)
    requires x <= physical as real && 1 <= wanted <= physical
    ensures x * (wanted as real / physical as real) <= wanted as real
  {
    var scale := wanted as real / physical as real;
    assert scale > 0.0;
    assert x * scale <= physical as real * scale;
    assert physical as real * scale == wanted as real;
  }

  lemma ScaleIs(p: Policy)
    requires Validated(p)
    ensures 1 <= Wanted(p) <= Physical(p) && Scale(p) == Wanted(p) as real / Physical(p) as real
  {
    hide HardLevel, HardRoom, HandoffRoom;
    RoomsAgree(p);
  }

  lemma CeilingFits(x: real, n: int)
    requires x <= n as real
    ensures Ceil(x) <= n
  {
  }

  lemma ScaledFits(p: Policy, x: real)
    requires Validated(p) && x <= Physical(p) as real
    ensures 1 <= Wanted(p) && ScaledCeil(x, Scale(p)) <= Wanted(p)
  {
    hide Ceil, Scale, Physical, Wanted, Validated;
    ScaleIs(p);
    ScaledDown(x, Wanted(p), Physical(p));
    CeilingFits(x * Scale(p), Wanted(p));
  }

  lemma LevelsFit(p: Policy)
    requires Validated(p) && Part(p, p.compactRatio) <= Physical(p) as real
    ensures SnapshotLevel(p) <= Wanted(p) && CompactLevel(p) <= Wanted(p)
  {
    hide Wanted, Physical, Scale, ScaledCeil, Validated, Part;
    RatiosIncrease(p);
    ScaledFits(p, Part(p, p.compactRatio));
    ScaledFits(p, Part(p, p.snapshotRatio));
  }

  lemma RatiosIncrease(p: Policy)
    requires Validated(p)
    ensures Part(p, p.snapshotRatio) <= Part(p, p.compactRatio)
  {
    assert p.window as real * p.snapshotRatio <= p.window as real * p.compactRatio;
  }

  /** When the compact level fits under the physical handoff, rounding lifts the handoff by at most two,
      so a hard threshold three above it is never refused. */
  lemma HandoffIsLiftedByTwo(p: Policy)
    requires Validated(p) && Part(p, p.compactRatio) <= Physical(p) as real
    ensures ThresholdsOf(p).Ok? ==> Wanted(p) <= ThresholdsOf(p).value.handoff <= Wanted(p) + 2
    ensures HardLevel(p) >= Wanted(p) + 3 ==> ThresholdsOf(p).Ok?
  {
    hide SnapshotLevel, CompactLevel, HardLevel, Wanted, Physical, ValidateLimits, Part;
    LevelsFit(p);
  }

  /** The bound of two is met: a cap of one in a window of four. */
  lemma LiftOfTwoHappens()
    ensures var p := Policy(4, 0.25, 0.5, 0.75, 1.0, Some(1), 0, 0);
      Validated(p) && Part(p, p.compactRatio) <= Physical(p) as real
      && ThresholdsOf(p) == Ok(Thresholds(1, 2, 3, 4)) && Wanted(p) == 1
  {
    var p := Policy(4, 0.25, 0.5, 0.75, 1.0, Some(1), 0, 0);
    assert Ceil(4.0 * 0.75) == 3 && Ceil(4.0 * 1.0) == 4;
    assert Physical(p) == 3 && Scale(p) == 1.0 / 3.0;
    assert 4.0 * 0.25 * (1.0 / 3.0) == 1.0 / 3.0;
    assert Ceil(4.0 * 0.25 * Scale(p)) == 1;
    assert 4.0 * 0.5 * (1.0 / 3.0) == 2.0 / 3.0;
    assert Ceil(4.0 * 0.5 * Scale(p)) == 1;
  }

  /** Accepted limits that are refused later: a window of three with a cap of two. */
  lemma ValidatedLimitsCanRaise()
    ensures var p := Policy(3, 0.25, 0.5, 0.75, 1.0, Some(2), 0, 0);
      Validated(p) && ThresholdsOf(p) == Err(InvalidPolicy(3, 3))
  {
    var p := Policy(3, 0.25, 0.5, 0.75, 1.0, Some(2), 0, 0);
    assert Ceil(3.0 * 0.75) == 3 && Ceil(3.0 * 1.0) == 3;
    assert Physical(p) == 3 && Scale(p) == 2.0 / 3.0;
    assert 3.0 * 0.25 * (2.0 / 3.0) == 0.5;
    assert Ceil(3.0 * 0.25 * Scale(p)) == 1;
    assert 3.0 * 0.5 * (2.0 / 3.0) == 1.0;
    assert Ceil(3.0 * 0.5 * Scale(p)) == 1;
  }

  /** With a reserve that pushes the physical handoff below the compact level, no distance helps. */
  lemma LargeReserveRaises()
    ensures var p := Policy(100, 0.5, 0.8, 0.9, 1.0, Some(5), 90, 0);
      Validated(p) && HardLevel(p) >= Wanted(p) + 3 && ThresholdsOf(p) == Err(InvalidPolicy(10, 41))
  {
    var p := Policy(100, 0.5, 0.8, 0.9, 1.0, Some(5), 90, 0);
    assert Ceil(100.0 * 0.9) == 90 && Ceil(100.0 * 1.0) == 100;
    assert Physical(p) == 10 && Scale(p) == 0.5;
    assert Ceil(100.0 * 0.5 * Scale(p)) == 25;
    assert Ceil(100.0 * 0.8 * Scale(p)) == 40;
  }

  // ----- deciding

  datatype Action = Snapshot | Compact | Handoff | HandoffRequired

  const ACTIONS: seq<Action> := [Snapshot, Compact, Handoff, HandoffRequired]

  function ThresholdFor(t: Thresholds, a: Action): int {
    match a
    case Snapshot => t.snapshot
    case Compact => t.compact
    case Handoff => t.handoff
    case HandoffRequired => t.hard
  }

  /** A decision is the prefix of the four actions whose thresholds the context has reached. */
  predicate IsDecision(t: Thresholds, context: int, actions: seq<Action>) {
    actions <= ACTIONS && forall a :: a in actions <==> context >= ThresholdFor(t, a)
  }

  method Decide(p: Policy, context: int) returns (r: Result<seq<Action>>)
    ensures r.Ok? <==> ThresholdsOf(p).Ok?
    ensures r.Ok? ==> IsDecision(ThresholdsOf(p).value, context, r.value)
  {
    hide SnapshotLevel, CompactLevel, HardLevel, Wanted;
    SnapshotIsPositive(p);
    var thresholds := ThresholdsOf(p);
    if thresholds.Err? {
      return Err(thresholds.error);
    }
    var t := thresholds.value;
    var actions: seq<Action> := [];
    for n := 0 to |ACTIONS|
      invariant |actions| <= n && actions == ACTIONS[..|actions|]
      invariant forall k :: 0 <= k < n ==> (k < |actions| <==> context >= ThresholdFor(t, ACTIONS[k]))
    {
      if context >= ThresholdFor(t, ACTIONS[n]) {
        assert n > 0 ==> ThresholdFor(t, ACTIONS[n - 1]) < ThresholdFor(t, ACTIONS[n]);
        actions := actions + [ACTIONS[n]];
      }
    }
    forall a ensures a in actions <==> context >= ThresholdFor(t, a) {
      MemberIndex(actions, a);
    }
    r := Ok(actions);
  }

  /** Reaching a threshold is enough for its action, one token less is not. */
  lemma ReachingIsEnough(t: Thresholds, at: seq<Action>, below: seq<Action>)
    ensures IsDecision(t, t.snapshot, at) ==> Snapshot in at
    ensures IsDecision(t, t.compact, at) ==> Compact in at
    ensures IsDecision(t, t.handoff, at) ==> Handoff in at
    ensures IsDecision(t, t.hard, at) ==> HandoffRequired in at
    ensures IsDecision(t, t.snapshot - 1, below) ==> Snapshot !in below
    ensures IsDecision(t, t.compact - 1, below) ==> Compact !in below
    ensures IsDecision(t, t.handoff - 1, below) ==> Handoff !in below
    ensures IsDecision(t, t.hard - 1, below) ==> HandoffRequired !in below
  {
    assert forall context, a, actions :: IsDecision(t, context, actions) ==> (a in actions <==> context >= ThresholdFor(t, a));
  }

  function IndexOf(a: Action): nat {
    match a
    case Snapshot => 0
    case Compact => 1
    case Handoff => 2
    case HandoffRequired => 3
  }

  lemma MemberIndex(actions: seq<Action>, a: Action)
    requires actions <= ACTIONS
    ensures ACTIONS[IndexOf(a)] == a && (a in actions <==> IndexOf(a) < |actions|)
  {
    assert forall j :: 0 <= j < |actions| ==> IndexOf(actions[j]) == j;
    assert IndexOf(a) < |actions| ==> actions[IndexOf(a)] == a;
  }

  /** More context only adds actions at the end. */
  lemma DecisionGrows(t: Thresholds, less: int, more: int, small: seq<Action>, large: seq<Action>)
    requires less <= more && IsDecision(t, less, small) && IsDecision(t, more, large)
    ensures small <= large
  {
    if |large| < |small| {
      var a := small[|large|];
      assert IndexOf(a) == |large|;
      MemberIndex(small, a);
      MemberIndex(large, a);
    }
  }
}
