/**
 Reciprocal rank fusion of the retrieval arms, and the secondary signals that scale a fused score.
 Scores are exact reals.
 */
module Fusion {
  import opened Basics

  /** Source kind and id. */
  datatype Key = Key(kind: string, id: string)

  datatype Hit = Hit(key: Key, meta: map<string, string>)

  datatype Arm = Arm(name: string, hits: seq<Hit>)

  datatype Fused = Fused(hit: Hit, score: real, ranks: map<string, nat>)

  /** One hit of one arm, at its rank. */
  datatype Seen = Seen(arm: string, rank: nat, hit: Hit)

  function Share(k: nat, rank: nat): real
    requires rank > 0
  {
    1.0 / (k + rank) as real
  }

  predicate Ranked(seen: seq<Seen>) {
    forall n :: 0 <= n < |seen| ==> seen[n].rank > 0
  }

  function ArmSeen(arm: Arm): (s: seq<Seen>)
    ensures Ranked(s)
  {
    seq(|arm.hits|, n requires 0 <= n < |arm.hits| => Seen(arm.name, n + 1, arm.hits[n]))
  }

  function AllSeen(arms: seq<Arm>): (s: seq<Seen>)
    ensures Ranked(s)
  {
    if arms == [] then [] else AllSeen(arms[..|arms| - 1]) + ArmSeen(arms[|arms| - 1])
  }

  // ----- what fusion gives a key

  function Score(seen: seq<Seen>, k: nat, key: Key): real
    requires Ranked(seen)
  {
    if seen == [] then 0.0
    else
      var last := seen[|seen| - 1];
      Score(seen[..|seen| - 1], k, key) + if last.hit.key == key then Share(k, last.rank) else 0.0
  }

  function Ranks(seen: seq<Seen>, key: Key): map<string, nat> {
    if seen == [] then map[]
    else
      var last, before := seen[|seen| - 1], Ranks(seen[..|seen| - 1], key);
      if last.hit.key == key then before[last.arm := last.rank] else before
  }

  /** The first copy of a hit. */
  function First(seen: seq<Seen>, key: Key): Option<Hit> {
    if seen == [] then None
    else
      var before := First(seen[..|seen| - 1], key);
      if before.None? && seen[|seen| - 1].hit.key == key then Some(seen[|seen| - 1].hit) else before
  }

  /** Annotations that only later copies carry. */
  function Extra(seen: seq<Seen>, key: Key): map<string, string> {
    if seen == [] then map[]
    else
      var last, init := seen[|seen| - 1], seen[..|seen| - 1];
      var first := First(init, key);
      if last.hit.key == key && first.Some? then Extra(init, key) + (last.hit.meta - first.value.meta.Keys) else Extra(init, key)
  }

  /** The keys in the order in which the arms show them. */
  function Keys(seen: seq<Seen>): seq<Key> {
    if seen == [] then []
    else
      var before, key := Keys(seen[..|seen| - 1]), seen[|seen| - 1].hit.key;
      if key in before then before else before + [key]
  }

  lemma {:induction false} KeysAreSeen(seen: seq<Seen>)
    ensures forall key :: key in Keys(seen) <==> First(seen, key).Some?
    ensures forall key :: First(seen, key).Some? ==> First(seen, key).value.key == key
    ensures forall i, j :: 0 <= i < j < |Keys(seen)| ==> Keys(seen)[i] != Keys(seen)[j]
  {
    if seen != [] {
      KeysAreSeen(seen[..|seen| - 1]);
    }
  }

  function FusedAt(seen: seq<Seen>, k: nat, key: Key): Fused
    requires Ranked(seen) && First(seen, key).Some?
  {
    var first := First(seen, key).value;
    Fused(Hit(key, first.meta + Extra(seen, key)), Score(seen, k, key), Ranks(seen, key))
  }

  /** The fused hit keeps the first copy's annotations and adds the others'. */
  lemma {:induction false} AnnotationsAreKept(seen: seq<Seen>, k: nat, key: Key)
    requires Ranked(seen) && First(seen, key).Some?
    ensures var meta := FusedAt(seen, k, key).hit.meta;
      && (forall m :: m in First(seen, key).value.meta ==> m in meta && meta[m] == First(seen, key).value.meta[m])
      && (forall n, m :: 0 <= n < |seen| && seen[n].hit.key == key && m in seen[n].hit.meta ==> m in meta)
  {
    var init, last := seen[..|seen| - 1], seen[|seen| - 1];
    ExtraIsApart(seen, key);
    forall n, m | 0 <= n < |seen| && seen[n].hit.key == key && m in seen[n].hit.meta
      ensures m in First(seen, key).value.meta || m in Extra(seen, key)
    {
      EveryAnnotation(seen, key, n, m);
    }
  }

  lemma {:induction false} ExtraIsApart(seen: seq<Seen>, key: Key)
    ensures First(seen, key).Some? ==> Extra(seen, key).Keys !! First(seen, key).value.meta.Keys
    ensures First(seen, key).None? ==> Extra(seen, key) == map[]
  {
    if seen != [] {
      ExtraIsApart(seen[..|seen| - 1], key);
    }
  }

  lemma {:induction false} EveryAnnotation(seen: seq<Seen>, key: Key, n: nat, m: string)
    requires n < |seen| && seen[n].hit.key == key && m in seen[n].hit.meta
    ensures First(seen, key).Some? && (m in First(seen, key).value.meta || m in Extra(seen, key))
  {
    if n < |seen| - 1 {
      EveryAnnotation(seen[..|seen| - 1], key, n, m);
    }
  }

  // ----- the loop

  datatype State = State(
    order: seq<Key>, fused: map<Key, Hit>, scores: map<Key, real>, ranks: map<Key, map<string, nat>>, extra: map<Key, map<string, string>>)

  /** What the dictionaries hold after some hits. */
  ghost predicate Holds(s: State, seen: seq<Seen>, k: nat)
    requires Ranked(seen)
  {
    && s.order == Keys(seen)
    && (forall key :: key in s.fused <==> key in s.order)
    && s.scores.Keys == s.fused.Keys && s.ranks.Keys == s.fused.Keys && s.extra.Keys <= s.fused.Keys
    && forall key :: key in s.fused ==> HoldsAt(s, seen, k, key)
  }

  ghost predicate HoldsAt(s: State, seen: seq<Seen>, k: nat, key: Key)
    requires Ranked(seen) && key in s.fused && key in s.scores && key in s.ranks
  {
    && First(seen, key) == Some(s.fused[key]) && s.scores[key] == Score(seen, k, key) && s.ranks[key] == Ranks(seen, key)
    && (if key in s.extra then s.extra[key] else map[]) == Extra(seen, key)
  }

  lemma NotSeen(seen: seq<Seen>, k: nat, key: Key)
    requires Ranked(seen) && key !in Keys(seen)
    ensures Score(seen, k, key) == 0.0 && Ranks(seen, key) == map[] && Extra(seen, key) == map[] && First(seen, key).None?
  {
    if seen != [] {
      NotSeen(seen[..|seen| - 1], k, key);
    }
  }

  /** One hit entered into the dictionaries. */
  function Enter(s: State, arm: string, rank: nat, hit: Hit, k: nat): State
    requires rank > 0 && (hit.key in s.fused ==> hit.key in s.scores && hit.key in s.ranks)
  {
    var key := hit.key;
    var known := key in s.fused;
    State(
      if known then s.order else s.order + [key],
      if known then s.fused else s.fused[key := hit],
      s.scores[key := (if known then s.scores[key] else 0.0) + Share(k, rank)],
      s.ranks[key := (if known then s.ranks[key] else map[])[arm := rank]],
      if known && exists m :: m in hit.meta && m !in s.fused[key].meta then
        s.extra[key := (if key in s.extra then s.extra[key] else map[]) + (hit.meta - s.fused[key].meta.Keys)]
      else s.extra)
  }

  lemma EnterOther(s: State, seen: seq<Seen>, last: Seen, k: nat, other: Key)
    requires Ranked(seen) && Holds(s, seen, k) && last.rank > 0 && other in s.fused && other != last.hit.key
    ensures Ranked(seen + [last]) && HoldsAt(Enter(s, last.arm, last.rank, last.hit, k), seen + [last], k, other)
  {
    hide Extra, Score, Ranks, First, Keys, Share;
    StepAt(seen, last, k, other);
    assert HoldsAt(s, seen, k, other);
  }

  lemma EnterKnown(s: State, seen: seq<Seen>, last: Seen, k: nat)
    requires Ranked(seen) && Holds(s, seen, k) && last.rank > 0 && last.hit.key in s.fused
    ensures Ranked(seen + [last]) && HoldsAt(Enter(s, last.arm, last.rank, last.hit, k), seen + [last], k, last.hit.key)
  {
    hide Extra, Score, Ranks, First, Keys, Share;
    var key := last.hit.key;
    StepAt(seen, last, k, key);
    assert HoldsAt(s, seen, k, key);
    var more := last.hit.meta - s.fused[key].meta.Keys;
    if forall m :: m in last.hit.meta ==> m in s.fused[key].meta {
      assert more == map[];
      assert Extra(seen, key) + more == Extra(seen, key);
    }
  }

  lemma EnterNew(s: State, seen: seq<Seen>, last: Seen, k: nat)
    requires Ranked(seen) && Holds(s, seen, k) && last.rank > 0 && last.hit.key !in s.fused
    ensures Ranked(seen + [last]) && HoldsAt(Enter(s, last.arm, last.rank, last.hit, k), seen + [last], k, last.hit.key)
  {
    hide Extra, Score, Ranks, First, Keys, Share;
    StepAt(seen, last, k, last.hit.key);
    NotSeen(seen, k, last.hit.key);
  }

  lemma EnterHolds(s: State, seen: seq<Seen>, last: Seen, k: nat)
    requires Ranked(seen) && Holds(s, seen, k) && last.rank > 0
    ensures Ranked(seen + [last]) && Holds(Enter(s, last.arm, last.rank, last.hit, k), seen + [last], k)
  {
    hide Extra, Score, Ranks, First, Keys, HoldsAt, Share;
    KeysStep(seen, last);
    var t := Enter(s, last.arm, last.rank, last.hit, k);
    forall other | other in t.fused ensures HoldsAt(t, seen + [last], k, other) {
      if other != last.hit.key {
        EnterOther(s, seen, last, k, other);
      } else if other in s.fused {
        EnterKnown(s, seen, last, k);
      } else {
        EnterNew(s, seen, last, k);
      }
    }
  }

  lemma KeysStep(seen: seq<Seen>, last: Seen)
    ensures Keys(seen + [last]) == if last.hit.key in Keys(seen) then Keys(seen) else Keys(seen) + [last.hit.key]
  {
    assert (seen + [last])[..|seen|] == seen;
  }

  lemma StepAt(seen: seq<Seen>, last: Seen, k: nat, key: Key)
    requires Ranked(seen) && last.rank > 0
    ensures var more := seen + [last];
      && Ranked(more)
      && Score(more, k, key) == Score(seen, k, key) + (if last.hit.key == key then Share(k, last.rank) else 0.0)
      && Ranks(more, key) == (if last.hit.key == key then Ranks(seen, key)[last.arm := last.rank] else Ranks(seen, key))
      && First(more, key) == (if First(seen, key).None? && last.hit.key == key then Some(last.hit) else First(seen, key))
      && Extra(more, key) == (if last.hit.key == key && First(seen, key).Some? then Extra(seen, key) + (last.hit.meta - First(seen, key).value.meta.Keys)
                              else Extra(seen, key))
  {
    assert (seen + [last])[..|seen|] == seen;
  }

  /** Every key of any arm comes out once, in order of first appearance, with its summed score, its rank in
      each arm and its merged annotations. */
  method RrfFuse(arms: seq<Arm>, k: nat) returns (result: seq<Fused>)
    ensures var seen := AllSeen(arms); var keys := Keys(seen);
      |result| == |keys| && forall n :: 0 <= n < |keys| ==>
        First(seen, keys[n]).Some? && result[n] == FusedAt(seen, k, keys[n])
  {
    hide Extra, Score, Ranks, First, Keys, HoldsAt, Enter;
    var s := State([], map[], map[], map[], map[]);
    ghost var seen: seq<Seen> := [];
    KeysOfNothing();
    for a := 0 to |arms|
      invariant seen == AllSeen(arms[..a]) && Holds(s, seen, k)
    {
      ghost var before := seen;
      for n := 0 to |arms[a].hits|
        invariant Ranked(seen) && seen == before + ArmSeen(arms[a])[..n] && Holds(s, seen, k)
      {
        var hit := arms[a].hits[n];
        EnterHolds(s, seen, Seen(arms[a].name, n + 1, hit), k);
        s := Enter(s, arms[a].name, n + 1, hit, k);
        ghost var last := Seen(arms[a].name, n + 1, hit);
        assert ArmSeen(arms[a])[..n + 1] == ArmSeen(arms[a])[..n] + [last];
        assert before + (ArmSeen(arms[a])[..n] + [last]) == seen + [last];
        seen := seen + [last];
      }
      assert ArmSeen(arms[a])[..|arms[a].hits|] == ArmSeen(arms[a]);
      assert arms[..a + 1][..a] == arms[..a];
    }
    assert arms[..|arms|] == arms;
    result := [];
    for n := 0 to |s.order|
      invariant |result| == n
      invariant forall j :: 0 <= j < n ==> First(seen, s.order[j]).Some? && result[j] == FusedAt(seen, k, s.order[j])
    {
      var key := s.order[n];
      HeldAt(s, seen, k, key);
      KeysAreSeen(seen);
      var meta := s.fused[key].meta + if key in s.extra then s.extra[key] else map[];
      result := result + [Fused(Hit(key, meta), s.scores[key], s.ranks[key])];
    }
  }

  lemma KeysOfNothing()
    ensures Keys([]) == []
  {
  }

  lemma HeldAt(s: State, seen: seq<Seen>, k: nat, key: Key)
    requires Ranked(seen) && Holds(s, seen, k) && key in s.order
    ensures key in s.fused && key in s.scores && key in s.ranks
    ensures First(seen, key) == Some(s.fused[key]) && s.scores[key] == Score(seen, k, key) && s.ranks[key] == Ranks(seen, key)
    ensures (if key in s.extra then s.extra[key] else map[]) == Extra(seen, key)
  {
    hide Extra, Score, Ranks, First, Keys;
    assert HoldsAt(s, seen, k, key);
  }

  // ----- the fused score as a sum over arms

  /** The rank of a key in an arm, zero when the arm does not have it. */
  function RankIn(hits: seq<Hit>, key: Key): nat {
    if hits == [] then 0
    else
      var before := RankIn(hits[..|hits| - 1], key);
      if before == 0 && hits[|hits| - 1].key == key then |hits| else before
  }

  predicate DuplicateFree(hits: seq<Hit>) {
    forall i, j :: 0 <= i < j < |hits| ==> hits[i].key != hits[j].key
  }

  /** What one arm gives a key. */
  function FromArm(hits: seq<Hit>, k: nat, key: Key): real {
    if RankIn(hits, key) == 0 then 0.0 else Share(k, RankIn(hits, key))
  }

  function SumOverArms(arms: seq<Arm>, k: nat, key: Key): real {
    if arms == [] then 0.0 else SumOverArms(arms[..|arms| - 1], k, key) + FromArm(arms[|arms| - 1].hits, k, key)
  }

  lemma {:induction false} ScoreAppend(a: seq<Seen>, b: seq<Seen>, k: nat, key: Key)
    requires Ranked(a) && Ranked(b)
    ensures Ranked(a + b) && Score(a + b, k, key) == Score(a, k, key) + Score(b, k, key)
    decreases |b|
  {
    if b == [] {
      assert a + b == a;
    } else {
      ScoreAppend(a, b[..|b| - 1], k, key);
      assert (a + b)[..|a + b| - 1] == a + b[..|b| - 1];
    }
  }

  lemma {:induction false} RankInIs(hits: seq<Hit>, key: Key)
    ensures RankIn(hits, key) <= |hits|
    ensures RankIn(hits, key) > 0 ==> hits[RankIn(hits, key) - 1].key == key
    ensures RankIn(hits, key) == 0 ==> forall n :: 0 <= n < |hits| ==> hits[n].key != key
  {
    if hits != [] {
      RankInIs(hits[..|hits| - 1], key);
    }
  }

  lemma {:induction false} ArmScore(arm: Arm, k: nat, key: Key)
    requires DuplicateFree(arm.hits)
    ensures Score(ArmSeen(arm), k, key) == FromArm(arm.hits, k, key)
    decreases |arm.hits|
  {
    if arm.hits != [] {
      var n := |arm.hits| - 1;
      var init := arm.(hits := arm.hits[..n]);
      assert ArmSeen(arm)[..n] == ArmSeen(init);
      ArmScore(init, k, key);
      RankInIs(init.hits, key);
      if arm.hits[n].key == key {
        assert forall m :: 0 <= m < n ==> init.hits[m].key != key;
      }
    }
  }

  /** With duplicate-free arms the fused score is the sum of 1/(k + rank) over the arms that have the hit. */
  lemma {:induction false} FusedScoreIsSum(arms: seq<Arm>, k: nat, key: Key)
    requires forall n :: 0 <= n < |arms| ==> DuplicateFree(arms[n].hits)
    ensures Score(AllSeen(arms), k, key) == SumOverArms(arms, k, key)
  {
    hide Score, FromArm, ArmSeen;
    if arms == [] {
      NothingScores(k, key);
    } else {
      var init, last := arms[..|arms| - 1], arms[|arms| - 1];
      FusedScoreIsSum(init, k, key);
      ScoreAppend(AllSeen(init), ArmSeen(last), k, key);
      ArmScore(last, k, key);
    }
  }

  lemma NothingScores(k: nat, key: Key)
    ensures Score([], k, key) == 0.0
  {
  }

  lemma ShareBounds(k: nat, rank: nat)
    requires 0 < rank <= k + 1
    ensures Share(k, rank) > 0.0 && Share(k, rank) <= Share(k, 1) && Share(k, rank) + Share(k, rank) > Share(k, 1)
    ensures 2.0 * Share(k, rank) >= 2.0 / (2 * k + 1) as real
  {
    var top, mine, low := (k + 1) as real, (k + rank) as real, (2 * k + 1) as real;
    Reciprocal(top, mine);
    Reciprocal(mine, low);
    assert 2.0 / low > 1.0 / top by {
      assert low < 2.0 * top;
      Reciprocal2(top, low);
    }
    assert 1.0 / mine + 1.0 / mine >= 1.0 / low + 1.0 / low;
    assert 1.0 / low + 1.0 / low == 2.0 / low;
  }

  lemma Cancel(x: real, y: real, c: real)
    requires c > 0.0
    ensures x * c <= y * c ==> x <= y
    ensures x * c < y * c ==> x < y
  {
  }

  lemma Reciprocal(a: real, b: real)
    requires 0.0 < a <= b
    ensures 0.0 < 1.0 / b <= 1.0 / a
  {
    assert a * b > 0.0;
    assert (1.0 / b) * (a * b) == a && (1.0 / a) * (a * b) == b;
    Cancel(1.0 / b, 1.0 / a, a * b);
  }

  lemma Reciprocal2(top: real, low: real)
    requires 0.0 < low < 2.0 * top
    ensures 2.0 / low > 1.0 / top
  {
    assert low * top > 0.0;
    assert (2.0 / low) * (low * top) == 2.0 * top && (1.0 / top) * (low * top) == low;
    Cancel(1.0 / top, 2.0 / low, low * top);
  }

  lemma {:induction false} SumIsPositive(arms: seq<Arm>, k: nat, key: Key)
    ensures SumOverArms(arms, k, key) >= 0.0
  {
    if arms != [] {
      SumIsPositive(arms[..|arms| - 1], k, key);
    }
  }

  lemma {:induction false} SumHasOne(arms: seq<Arm>, k: nat, key: Key, i: nat)
    requires i < |arms|
    ensures SumOverArms(arms, k, key) >= FromArm(arms[i].hits, k, key)
  {
    var init := arms[..|arms| - 1];
    SumIsPositive(init, k, key);
    if i < |init| {
      SumHasOne(init, k, key, i);
    }
  }

  lemma {:induction false} SumHasTwo(arms: seq<Arm>, k: nat, key: Key, i: nat, j: nat)
    requires i < j < |arms|
    ensures SumOverArms(arms, k, key) >= FromArm(arms[i].hits, k, key) + FromArm(arms[j].hits, k, key)
  {
    var init := arms[..|arms| - 1];
    if j < |init| {
      SumHasTwo(init, k, key, i, j);
    } else {
      SumHasOne(init, k, key, i);
    }
  }

  lemma {:induction false} SumOfOne(arms: seq<Arm>, k: nat, key: Key, i: nat)
    requires i < |arms| && forall n :: 0 <= n < |arms| && n != i ==> RankIn(arms[n].hits, key) == 0
    ensures SumOverArms(arms, k, key) == FromArm(arms[i].hits, k, key)
    decreases |arms|
  {
    hide RankIn;
    var init := arms[..|arms| - 1];
    assert forall n :: 0 <= n < |init| ==> init[n] == arms[n];
    if i < |init| {
      SumOfOne(init, k, key, i);
    } else {
      SumOfNone(init, k, key);
    }
  }

  lemma {:induction false} SumOfNone(arms: seq<Arm>, k: nat, key: Key)
    requires forall n :: 0 <= n < |arms| ==> RankIn(arms[n].hits, key) == 0
    ensures SumOverArms(arms, k, key) == 0.0
  {
    hide RankIn;
    if arms != [] {
      var init := arms[..|arms| - 1];
      assert forall n :: 0 <= n < |init| ==> init[n] == arms[n];
      SumOfNone(init, k, key);
    }
  }

  /** A hit that two arms have among their first k + 1 outranks every hit that one arm alone has. */
  lemma AgreementWins(arms: seq<Arm>, k: nat, two: Key, one: Key, i: nat, j: nat, only: nat)
    requires forall n :: 0 <= n < |arms| ==> DuplicateFree(arms[n].hits)
    requires i < j < |arms| && 0 < RankIn(arms[i].hits, two) <= k + 1 && 0 < RankIn(arms[j].hits, two) <= k + 1
    requires only < |arms| && forall n :: 0 <= n < |arms| && n != only ==> RankIn(arms[n].hits, one) == 0
    ensures Score(AllSeen(arms), k, two) > Score(AllSeen(arms), k, one)
  {
    hide AllSeen, Score, RankIn, SumOverArms, DuplicateFree, Share;
    FusedScoreIsSum(arms, k, two);
    FusedScoreIsSum(arms, k, one);
    SumHasTwo(arms, k, two, i, j);
    SumOfOne(arms, k, one, only);
    TwoSharesBeatOne(k, RankIn(arms[i].hits, two), RankIn(arms[j].hits, two), RankIn(arms[only].hits, one));
  }

  lemma TwoSharesBeatOne(k: nat, r: nat, s: nat, t: nat)
    requires 0 < r <= k + 1 && 0 < s <= k + 1
    ensures Share(k, r) + Share(k, s) > if t == 0 then 0.0 else Share(k, t)
  {
    ShareBounds(k, r);
    ShareBounds(k, s);
    if t > 0 {
      Reciprocal((k + 1) as real, (k + t) as real);
    }
  }

  // ----- boosts

  datatype Signals = Signals(recency: real, temporal: real, support: real)

  function Larger(a: real, b: real): real {
    if a <= b then b else a
  }

  /** Recency by age in days; an unreadable time counts as one half. */
  function Recency(days: Option<real>): (r: real)
    ensures 0.1 <= r <= 1.0
  {
    if days.None? then 0.5
    else
      var age := Larger(0.0, days.value);
      Larger(0.1, 1.0 - age / 365.0)
  }

  function SignalsOf(days: Option<real>, proximity: Option<real>, confirmed: bool): Signals {
    Signals(Recency(days), if proximity.Some? then proximity.value else 0.5, if confirmed then 0.6 else 0.5)
  }

  predicate InRange(s: Signals) {
    0.1 <= s.recency <= 1.0 && 0.0 <= s.temporal <= 1.0 && (s.support == 0.5 || s.support == 0.6)
  }

  /** A product, kept apart so that bounds are drawn from `TimesBounds` alone. */
  function Times(a: real, b: real): real {
    a * b
  }

  function Around(signal: real, weight: real): real {
    1.0 + weight * (signal - 0.5)
  }

  function Factor(s: Signals): real {
    Times(Times(Around(s.recency, 0.2), Around(s.temporal, 0.2)), Around(s.support, 0.1))
  }

  lemma TimesGrows(a: real, b: real, c: real)
    requires a >= 0.0 && b <= c
    ensures Times(a, b) <= Times(a, c) && Times(b, a) <= Times(c, a)
  {
    assert a * (c - b) >= 0.0;
  }

  lemma TimesBounds(a: real, b: real, low: real, high: real, low2: real, high2: real)
    requires 0.0 < low <= a <= high && 0.0 < low2 <= b <= high2
    ensures Times(low, low2) <= Times(a, b) <= Times(high, high2)
  {
    hide Times;
    TimesGrows(low, low2, b);
    TimesGrows(b, low, a);
    TimesGrows(a, b, high2);
    TimesGrows(high2, a, high);
  }

  lemma Corners()
    ensures Times(0.92, 0.9) == 0.828 && Times(1.1, 1.1) == 1.21
    ensures Times(0.828, 1.0) == 0.828 && Times(1.21, 1.01) == 1.2221
  {
  }

  lemma AroundBounds(s: Signals)
    requires InRange(s)
    ensures 0.92 <= Around(s.recency, 0.2) <= 1.1 && 0.9 <= Around(s.temporal, 0.2) <= 1.1
    ensures 1.0 <= Around(s.support, 0.1) <= 1.01
  {
  }

  lemma FactorBounds(s: Signals)
    requires InRange(s)
    ensures 0.828 <= Factor(s) <= 1.2221
  {
    hide Times, Around;
    AroundBounds(s);
    Corners();
    var x, y, z := Around(s.recency, 0.2), Around(s.temporal, 0.2), Around(s.support, 0.1);
    TimesBounds(x, y, 0.92, 1.1, 0.9, 1.1);
    TimesBounds(Times(x, y), z, 0.828, 1.21, 1.0, 1.01);
  }

  lemma SignalsAreInRange(days: Option<real>, proximity: Option<real>, confirmed: bool)
    requires proximity.Some? ==> 0.0 <= proximity.value <= 1.0
    ensures InRange(SignalsOf(days, proximity, confirmed))
  {
  }

  /** Recency falls by one 365th a day from 1 down to 0.1. */
  lemma RecencyExactly(days: real)
    ensures var r := Recency(Some(days));
      && (r == 1.0 <==> days <= 0.0) && (r == 0.1 <==> days >= 328.5)
      && (0.0 <= days <= 328.5 ==> 365.0 * (1.0 - r) == days)
  {
  }

  /** A hit with no age, no proximity and no confirmation keeps its score. */
  lemma NoSignalsNoBoost()
    ensures Factor(SignalsOf(None, None, false)) == 1.0
  {
    assert Around(0.5, 0.2) == 1.0 && Around(0.5, 0.1) == 1.0;
  }

  /** Confirmation, a younger age and more proximity each raise the factor, and nothing else lowers it. */
  lemma SignalsRaise(days: real, older: real, near: real, far: real, confirmed: bool)
    requires 0.0 <= days < older <= 328.5 && 0.0 <= far < near <= 1.0
    ensures var factor := (d: real, p: real, c: bool) => Factor(SignalsOf(Some(d), Some(p), c));
      && factor(days, near, true) > factor(days, near, false)
      && factor(days, near, confirmed) > factor(older, near, confirmed)
      && factor(days, near, confirmed) > factor(days, far, confirmed)
  {
    hide Times;
    RecencyExactly(days);
    RecencyExactly(older);
    var young, aged := Around(Recency(Some(days)), 0.2), Around(Recency(Some(older)), 0.2);
    var close, away := Around(near, 0.2), Around(far, 0.2);
    var support := Around(if confirmed then 0.6 else 0.5, 0.1);
    TimesGrowsStrictly(Times(young, close), 1.0, 1.01);
    TimesPositive(young, close);
    TimesGrowsStrictly(close, aged, young);
    TimesGrowsStrictly(support, Times(aged, close), Times(young, close));
    TimesGrowsStrictly(young, away, close);
    TimesGrowsStrictly(support, Times(young, away), Times(young, close));
  }

  lemma TimesPositive(a: real, b: real)
    requires a > 0.0 && b > 0.0
    ensures Times(a, b) > 0.0
  {}

  lemma TimesGrowsStrictly(a: real, b: real, c: real)
    requires b < c
    ensures a > 0.0 ==> Times(a, b) < Times(a, c) && Times(b, a) < Times(c, a)
  {
    if a > 0.0 {
      assert a * (c - b) > 0.0;
    }
  }

  function Boosted(score: real, s: Signals): real {
    Times(score, Factor(s))
  }

  lemma BoostBounds(score: real, s: Signals)
    requires score >= 0.0 && InRange(s)
    ensures Times(score, 0.828) <= Boosted(score, s) <= Times(score, 1.2221)
  {
    hide Times, Factor;
    FactorBounds(s);
    TimesGrows(score, 0.828, Factor(s));
    TimesGrows(score, Factor(s), 1.2221);
  }

  /** The boosted score of a hit, from the age, the proximity and the authority of its source. */
  method Boost(score: real, days: Option<real>, proximity: Option<real>, confirmed: bool) returns (boosted: real)
    requires score >= 0.0 && (proximity.Some? ==> 0.0 <= proximity.value <= 1.0)
    ensures boosted == Boosted(score, SignalsOf(days, proximity, confirmed))
    ensures Times(score, 0.828) <= boosted <= Times(score, 1.2221)
  {
    hide Times, Factor, SignalsOf;
    var signals := SignalsOf(days, proximity, confirmed);
    SignalsAreInRange(days, proximity, confirmed);
    BoostBounds(score, signals);
    boosted := Boosted(score, signals);
  }

  /** No signals can put a hit with the second score above a hit with the first. */
  ghost predicate NeverSwapped(first: real, second: real) {
    forall s, t :: InRange(s) && InRange(t) ==> Boosted(first, s) >= Boosted(second, t)
  }

  /** Boosts preserve the order of two scores exactly when they differ by at least the factor 1.2221/0.828. */
  lemma BoostsPreserveOrderExactly(first: real, second: real)
    requires first > 0.0 && second > 0.0
    ensures NeverSwapped(first, second) <==> Times(first, 0.828) >= Times(second, 1.2221)
  {
    hide Factor, Times, Boosted;
    var low, high := Signals(0.1, 0.0, 0.5), Signals(1.0, 1.0, 0.6);
    Extremes(first, second, low, high);
    if Times(first, 0.828) >= Times(second, 1.2221) {
      forall s, t | InRange(s) && InRange(t) ensures Boosted(first, s) >= Boosted(second, t) {
        BoostBounds(first, s);
        BoostBounds(second, t);
      }
    }
  }

  lemma Extremes(first: real, second: real, low: Signals, high: Signals)
    requires low == Signals(0.1, 0.0, 0.5) && high == Signals(1.0, 1.0, 0.6)
    ensures InRange(low) && InRange(high)
    ensures Boosted(first, low) == Times(first, 0.828) && Boosted(second, high) == Times(second, 1.2221)
  {
    hide Times;
    Corners();
    assert Around(0.1, 0.2) == 0.92 && Around(0.0, 0.2) == 0.9 && Around(0.5, 0.1) == 1.0;
    assert Around(1.0, 0.2) == 1.1 && Around(0.6, 0.1) == 1.01;
  }

  /** Neighbours in one arm are within that factor, so a boost can flip them. */
  lemma NeighboursCanFlip()
    ensures !NeverSwapped(Share(60, 1), Share(60, 2))
  {
    hide Factor, Boosted;
    assert Share(60, 1) == 1.0 / 61.0 && Share(60, 2) == 1.0 / 62.0;
    BoostsPreserveOrderExactly(Share(60, 1), Share(60, 2));
    assert 1.0 / 61.0 * 0.828 < 1.0 / 62.0 * 1.2221;
  }
}
