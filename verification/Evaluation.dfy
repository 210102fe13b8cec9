/**
 Scoring of extracted candidates against the golds of a labelled corpus. Every example is scored
 twice: over all its predictions and over the ones trusted without review.
 */
module Evaluation {
  import opened Basics
  import opened Evidence

  datatype Gold = Gold(memoryType: string, content: string, quote: string, zone: Zone)

  datatype Prediction = Prediction(memoryType: string, content: string, quote: string, start: nat, end: nat, zone: Zone, status: Status)

  datatype Item = Item(current: string, expected: seq<Gold>, adversarial: bool)

  /** A gold whose quote was located in the example. */
  datatype Span = Span(gold: Gold, start: nat, end: nat)

  datatype Counts = Counts(tp: nat, fp: nat, fn: nat)

  /** The rows a report has: overall, one per memory type, one per evidence zone. */
  datatype Row = Overall | OfType(memoryType: string) | OfZone(zone: Zone)

  datatype Mode = ExactTriple | TypeSpan

  predicate GoldIn(row: Row, g: Gold) {
    match row
    case Overall => true
    case OfType(t) => g.memoryType == t
    case OfZone(z) => g.zone == z
  }

  predicate PredictionIn(row: Row, p: Prediction) {
    match row
    case Overall => true
    case OfType(t) => p.memoryType == t
    case OfZone(z) => p.zone == z
  }

  // ----- greedy matching by type and span

  function LocatedGolds(current: string, golds: seq<Gold>): seq<Span> {
    if golds == [] then []
    else
      var e := LocateEvidence(current, golds[0].quote);
      (if e.Located? then [Span(golds[0], e.start, e.end)] else []) + LocatedGolds(current, golds[1..])
  }

  /** The golds that can be located, in their order, each with the text that it quotes. */
  lemma {:induction false} LocatedGoldsExactly(current: string, golds: seq<Gold>, s: Span)
    ensures s in LocatedGolds(current, golds) <==>
      s.gold in golds && LocateEvidence(current, s.gold.quote).Located? && s.start == LocateEvidence(current, s.gold.quote).start
      && s.end == s.start + |s.gold.quote|
    ensures forall span | span in LocatedGolds(current, golds) :: span.start <= span.end <= |current| && current[span.start..span.end] == span.gold.quote
  {
    hide LocateEvidence;
    if golds != [] {
      assert golds == [golds[0]] + golds[1..];
      LocatedGoldsExactly(current, golds[1..], s);
      if LocateEvidence(current, golds[0].quote).Located? {
        LocatedSpan(current, golds[0].quote);
      }
      if LocateEvidence(current, s.gold.quote).Located? {
        LocatedSpan(current, s.gold.quote);
      }
    }
  }

  lemma {:induction false} LocatedGoldsSplit(current: string, some: seq<Gold>, more: seq<Gold>)
    ensures LocatedGolds(current, some + more) == LocatedGolds(current, some) + LocatedGolds(current, more)
  {
    hide LocateEvidence;
    if some == [] {
      assert some + more == more;
    } else {
      assert (some + more)[1..] == some[1..] + more;
      LocatedGoldsSplit(current, some[1..], more);
    }
  }

  /** Same type, and the overlap is at least half of the shorter span. */
  predicate Match(p: Prediction, s: Span) {
    var overlap := Min(p.end, s.end) - Max(p.start, s.start);
    var shorter := Min(p.end - p.start, s.end - s.start);
    p.memoryType == s.gold.memoryType && shorter > 0 && 2 * overlap >= shorter
  }

  /** The positions that a prediction and a gold share. */
  function Shared(p: Prediction, s: Span): set<int> {
    Range(p.start, p.end) * Range(s.start, s.end)
  }

  lemma SharedSize(p: Prediction, s: Span)
    ensures var low, high := Max(p.start, s.start), Min(p.end, s.end);
      |Shared(p, s)| == if low <= high then high - low else 0
  {
    var low, high := Max(p.start, s.start), Min(p.end, s.end);
    if low <= high {
      assert Shared(p, s) == Range(low, high);
      RangeSize(low, high);
    } else {
      assert Shared(p, s) == {};
    }
  }

  /** A match has the gold's type and shares at least half the positions of one of the two spans, both not empty. */
  lemma MatchExactly(p: Prediction, s: Span)
    ensures Match(p, s) <==>
      && p.memoryType == s.gold.memoryType && p.start < p.end && s.start < s.end
      && (2 * |Shared(p, s)| >= |Range(p.start, p.end)| || 2 * |Shared(p, s)| >= |Range(s.start, s.end)|)
  {
    hide Range, Shared;
    SharedSize(p, s);
    if p.start < p.end && s.start < s.end {
      RangeSize(p.start, p.end);
      RangeSize(s.start, s.end);
    }
  }

  /** Index of the first gold that a prediction matches, or `|golds|`. */
  function FirstMatch(p: Prediction, golds: seq<Span>): (i: nat)
    ensures i <= |golds| && (i < |golds| ==> Match(p, golds[i])) && forall j | 0 <= j < i :: !Match(p, golds[j])
  {
    if golds == [] || Match(p, golds[0]) then 0 else 1 + FirstMatch(p, golds[1..])
  }

  /** The golds left once `p` has consumed the first one it matches. */
  function Consume(p: Prediction, golds: seq<Span>): seq<Span> {
    var i := FirstMatch(p, golds);
    if i == |golds| then golds else golds[..i] + golds[i + 1..]
  }

  function Unclaimed(predicted: seq<Prediction>, golds: seq<Span>): seq<Span>
    decreases |predicted|
  {
    if predicted == [] then golds else Unclaimed(predicted[1..], Consume(predicted[0], golds))
  }

  function Hits(row: Row, predicted: seq<Prediction>, golds: seq<Span>): nat
    decreases |predicted|
  {
    if predicted == [] then 0
    else
      var i := FirstMatch(predicted[0], golds);
      (if i < |golds| && GoldIn(row, golds[i].gold) then 1 else 0) + Hits(row, predicted[1..], Consume(predicted[0], golds))
  }

  function FalseAlarms(row: Row, predicted: seq<Prediction>, golds: seq<Span>): nat
    decreases |predicted|
  {
    if predicted == [] then 0
    else
      var i := FirstMatch(predicted[0], golds);
      (if i == |golds| && PredictionIn(row, predicted[0]) then 1 else 0) + FalseAlarms(row, predicted[1..], Consume(predicted[0], golds))
  }

  function GoldCount(row: Row, golds: seq<Span>): nat {
    if golds == [] then 0 else (if GoldIn(row, golds[0].gold) then 1 else 0) + GoldCount(row, golds[1..])
  }

  function PredictionCount(row: Row, predicted: seq<Prediction>): nat {
    if predicted == [] then 0 else (if PredictionIn(row, predicted[0]) then 1 else 0) + PredictionCount(row, predicted[1..])
  }

  function SpanCounts(row: Row, item: Item, predicted: seq<Prediction>): Counts {
    var golds := LocatedGolds(item.current, item.expected);
    Counts(Hits(row, predicted, golds), FalseAlarms(row, predicted, golds),
           if item.adversarial then 0 else GoldCount(row, Unclaimed(predicted, golds)))
  }

  // ----- what the counts add up to

  lemma {:induction false} GoldCountWithout(row: Row, golds: seq<Span>, i: nat)
    requires i < |golds|
    ensures GoldCount(row, golds) == GoldCount(row, golds[..i] + golds[i + 1..]) + if GoldIn(row, golds[i].gold) then 1 else 0
  {
    if i == 0 {
      assert golds[..0] + golds[1..] == golds[1..];
    } else {
      GoldCountWithout(row, golds[1..], i - 1);
      assert (golds[..i] + golds[i + 1..])[1..] == golds[1..][..i - 1] + golds[1..][i..];
    }
  }

  lemma ConsumeIs(p: Prediction, golds: seq<Span>)
    ensures var i := FirstMatch(p, golds);
      Consume(p, golds) == if i == |golds| then golds else golds[..i] + golds[i + 1..]
  {}

  /** A gold is claimed by a hit or left over, never both and never lost. */
  lemma {:induction false} GoldsAreConserved(row: Row, predicted: seq<Prediction>, golds: seq<Span>)
    ensures Hits(row, predicted, golds) + GoldCount(row, Unclaimed(predicted, golds)) == GoldCount(row, golds)
    decreases |predicted|
  {
    hide Match, Consume, FirstMatch, GoldCount;
    if predicted != [] {
      GoldsAreConserved(row, predicted[1..], Consume(predicted[0], golds));
      var i := FirstMatch(predicted[0], golds);
      ConsumeIs(predicted[0], golds);
      if i < |golds| {
        GoldCountWithout(row, golds, i);
      }
    }
  }

  /** A prediction is a hit or a false alarm; a hit counts under its own type. */
  lemma {:induction false} PredictionsAreConserved(row: Row, predicted: seq<Prediction>, golds: seq<Span>)
    requires !row.OfZone?
    ensures Hits(row, predicted, golds) + FalseAlarms(row, predicted, golds) == PredictionCount(row, predicted)
    decreases |predicted|
  {
    if predicted != [] {
      PredictionsAreConserved(row, predicted[1..], Consume(predicted[0], golds));
    }
  }

  /** On an ordinary example hits and misses add up to the golds that can be located. */
  lemma SpanCountsAddUp(row: Row, item: Item, predicted: seq<Prediction>)
    ensures var c := SpanCounts(row, item, predicted);
      && (!item.adversarial ==> c.tp + c.fn == GoldCount(row, LocatedGolds(item.current, item.expected)))
      && (!row.OfZone? ==> c.tp + c.fp == PredictionCount(row, predicted))
  {
    var golds := LocatedGolds(item.current, item.expected);
    GoldsAreConserved(row, predicted, golds);
    if !row.OfZone? {
      PredictionsAreConserved(row, predicted, golds);
    }
  }

  // ----- fewer predictions

  /** `a` is `b` with some elements left out. */
  predicate Sub<T(==)>(a: seq<T>, b: seq<T>)
    decreases |b|
  {
    a == [] || (b != [] && ((a[0] == b[0] && Sub(a[1..], b[1..])) || Sub(a, b[1..])))
  }

  lemma {:induction false} SubSelf<T>(a: seq<T>)
    ensures Sub(a, a)
  {
    if a != [] {
      SubSelf(a[1..]);
    }
  }

  lemma {:induction false} SubLonger<T>(a: seq<T>, b: seq<T>)
    requires b != [] && Sub(a, b[1..])
    ensures Sub(a, b)
  {}

  /** What one prediction leaves of fewer golds is part of what it leaves of more. */
  lemma {:induction false} ConsumeKeepsSub(p: Prediction, fewer: seq<Span>, more: seq<Span>)
    requires Sub(fewer, more)
    ensures Sub(Consume(p, fewer), Consume(p, more))
    ensures Sub(Consume(p, fewer), more)
    ensures FirstMatch(p, fewer) < |fewer| ==> FirstMatch(p, more) < |more|
    decreases |more|
  {
    if fewer == [] {
    } else {
      ConsumeTail(p, fewer);
      ConsumeTail(p, more);
      if fewer[0] == more[0] && Sub(fewer[1..], more[1..]) {
        ConsumeKeepsSub(p, fewer[1..], more[1..]);
        SubLonger(fewer[1..], more);
      } else {
        ConsumeKeepsSub(p, fewer, more[1..]);
        SubLonger(Consume(p, fewer), more);
      }
    }
  }

  lemma WithoutShift<T>(s: seq<T>, i: nat)
    requires i + 1 < |s|
    ensures s[..i + 1] + s[i + 2..] == [s[0]] + (s[1..][..i] + s[1..][i + 1..])
  {}

  lemma ConsumeTail(p: Prediction, golds: seq<Span>)
    requires golds != []
    ensures Match(p, golds[0]) ==> Consume(p, golds) == golds[1..] && FirstMatch(p, golds) == 0
    ensures !Match(p, golds[0]) ==> Consume(p, golds) == [golds[0]] + Consume(p, golds[1..]) && FirstMatch(p, golds) == 1 + FirstMatch(p, golds[1..])
  {
    hide Match, FirstMatch;
    FirstMatchStep(p, golds);
    var i := FirstMatch(p, golds[1..]);
    if !Match(p, golds[0]) && i < |golds[1..]| {
      WithoutShift(golds, i);
    }
    assert golds[..0] + golds[1..] == golds[1..];
    assert [golds[0]] + golds[1..] == golds;
  }

  lemma FirstMatchStep(p: Prediction, golds: seq<Span>)
    requires golds != []
    ensures FirstMatch(p, golds) == if Match(p, golds[0]) then 0 else 1 + FirstMatch(p, golds[1..])
  {
    hide Match;
  }

  /** The exchange argument: fewer predictions over more golds leave more golds and raise no extra alarm. */
  lemma {:induction false} FewerPredictions(row: Row, some: seq<Prediction>, all: seq<Prediction>, fewer: seq<Span>, more: seq<Span>)
    requires Sub(some, all) && Sub(fewer, more)
    ensures Sub(Unclaimed(all, fewer), Unclaimed(some, more))
    ensures FalseAlarms(row, some, more) <= FalseAlarms(row, all, fewer)
    decreases |all|
  {
    if all != [] {
      ConsumeKeepsSub(all[0], fewer, more);
      if some != [] && some[0] == all[0] && Sub(some[1..], all[1..]) {
        FewerPredictions(row, some[1..], all[1..], Consume(all[0], fewer), Consume(all[0], more));
      } else {
        FewerPredictions(row, some, all[1..], Consume(all[0], fewer), more);
      }
    }
  }

  lemma {:induction false} SubCount(row: Row, fewer: seq<Span>, more: seq<Span>)
    requires Sub(fewer, more)
    ensures GoldCount(row, fewer) <= GoldCount(row, more)
    decreases |more|
  {
    if fewer != [] {
      if fewer[0] == more[0] && Sub(fewer[1..], more[1..]) {
        SubCount(row, fewer[1..], more[1..]);
      } else {
        SubCount(row, fewer, more[1..]);
      }
    }
  }

  predicate NoBetter(c: Counts, d: Counts) {
    c.tp <= d.tp && c.fp <= d.fp && c.fn >= d.fn
  }

  /** Type-span scores of part of the predictions, on every row of the report. */
  lemma SpanCountsAreMonotone(row: Row, item: Item, some: seq<Prediction>, all: seq<Prediction>)
    requires Sub(some, all)
    ensures NoBetter(SpanCounts(row, item, some), SpanCounts(row, item, all))
  {
    var golds := LocatedGolds(item.current, item.expected);
    SubSelf(golds);
    FewerPredictions(row, some, all, golds, golds);
    SubCount(row, Unclaimed(all, golds), Unclaimed(some, golds));
    GoldsAreConserved(row, some, golds);
    GoldsAreConserved(row, all, golds);
  }

  // ----- exact-triple matching

  type Key = (string, string, string)

  function GoldKey(g: Gold): Key { (g.memoryType, g.content, g.quote) }

  function PredictionKey(p: Prediction): Key { (p.memoryType, p.content, p.quote) }

  function Expected(golds: seq<Gold>): map<Key, Gold> {
    if golds == [] then map[]
    else Expected(golds[..|golds| - 1])[GoldKey(golds[|golds| - 1]) := golds[|golds| - 1]]
  }

  function Actual(predicted: seq<Prediction>): map<Key, Prediction> {
    if predicted == [] then map[]
    else Actual(predicted[..|predicted| - 1])[PredictionKey(predicted[|predicted| - 1]) := predicted[|predicted| - 1]]
  }

  function Found(row: Row, e: map<Key, Gold>, a: map<Key, Prediction>): set<Key> {
    set k | k in e && k in a && GoldIn(row, e[k])
  }

  function Missed(row: Row, e: map<Key, Gold>, a: map<Key, Prediction>): set<Key> {
    set k | k in e && k !in a && GoldIn(row, e[k])
  }

  function Extra(row: Row, e: map<Key, Gold>, a: map<Key, Prediction>): set<Key> {
    set k | k in a && k !in e && PredictionIn(row, a[k])
  }

  function ExactCounts(row: Row, item: Item, predicted: seq<Prediction>): Counts {
    var e, a := Expected(item.expected), Actual(predicted);
    Counts(|Found(row, e, a)|, |Extra(row, e, a)|, |Missed(row, e, a)|)
  }

  predicate GoldsKeyed(e: map<Key, Gold>) {
    forall k | k in e :: GoldKey(e[k]) == k
  }

  predicate PredictionsKeyed(a: map<Key, Prediction>, predicted: seq<Prediction>) {
    (forall k | k in a :: PredictionKey(a[k]) == k && a[k] in predicted) && forall p | p in predicted :: PredictionKey(p) in a
  }

  lemma {:induction false} ExpectedIsKeyed(golds: seq<Gold>)
    ensures GoldsKeyed(Expected(golds))
  {
    if golds != [] {
      ExpectedIsKeyed(golds[..|golds| - 1]);
    }
  }

  lemma {:induction false} ActualIsKeyed(predicted: seq<Prediction>)
    ensures PredictionsKeyed(Actual(predicted), predicted)
  {
    if predicted != [] {
      ActualIsKeyed(predicted[..|predicted| - 1]);
      assert predicted == predicted[..|predicted| - 1] + [predicted[|predicted| - 1]];
    }
  }

  lemma {:induction false} SubMembers<T>(a: seq<T>, b: seq<T>)
    requires Sub(a, b)
    ensures forall x | x in a :: x in b
    decreases |b|
  {
    if a != [] {
      assert a == [a[0]] + a[1..] && b == [b[0]] + b[1..];
      if a[0] == b[0] && Sub(a[1..], b[1..]) {
        SubMembers(a[1..], b[1..]);
      } else {
        SubMembers(a, b[1..]);
      }
    }
  }

  /** The zone of a prediction is the zone of its quote, as candidate validation assigns it. */
  predicate ZonesValidated(item: Item, predicted: seq<Prediction>) {
    forall p | p in predicted :: LocateEvidence(item.current, p.quote).Located? && p.zone == LocateEvidence(item.current, p.quote).zone
  }

  /** The expected keys of a row. */
  function ExpectedIn(row: Row, e: map<Key, Gold>): set<Key> {
    set k | k in e && GoldIn(row, e[k])
  }

  /** The predicted keys of a row. */
  function ActualIn(row: Row, a: map<Key, Prediction>): set<Key> {
    set k | k in a && PredictionIn(row, a[k])
  }

  lemma FoundOrMissed(row: Row, e: map<Key, Gold>, a: map<Key, Prediction>)
    ensures |Found(row, e, a)| + |Missed(row, e, a)| == |ExpectedIn(row, e)|
  {
    assert ExpectedIn(row, e) == Found(row, e, a) + Missed(row, e, a);
  }

  lemma FoundOrExtra(row: Row, e: map<Key, Gold>, a: map<Key, Prediction>, predicted: seq<Prediction>)
    requires !row.OfZone? && GoldsKeyed(e) && PredictionsKeyed(a, predicted)
    ensures |Found(row, e, a)| + |Extra(row, e, a)| == |ActualIn(row, a)|
  {
    forall k | k in e && k in a ensures GoldIn(row, e[k]) == PredictionIn(row, a[k]) {
      assert GoldKey(e[k]) == k == PredictionKey(a[k]);
    }
    assert ActualIn(row, a) == Found(row, e, a) + Extra(row, e, a);
  }

  /** Exact-triple scores add up: distinct expected keys are found or missed, distinct predicted keys found or extra. */
  lemma ExactCountsAddUp(row: Row, item: Item, predicted: seq<Prediction>)
    ensures var c := ExactCounts(row, item, predicted);
      && c.tp + c.fn == |ExpectedIn(row, Expected(item.expected))|
      && (!row.OfZone? ==> c.tp + c.fp == |ActualIn(row, Actual(predicted))|)
  {
    hide Found, Missed, Extra, ExpectedIn, ActualIn;
    var e, a := Expected(item.expected), Actual(predicted);
    FoundOrMissed(row, e, a);
    if !row.OfZone? {
      ExpectedIsKeyed(item.expected);
      ActualIsKeyed(predicted);
      FoundOrExtra(row, e, a, predicted);
    }
  }

  lemma ExactCountsAreMonotone(row: Row, item: Item, some: seq<Prediction>, all: seq<Prediction>)
    requires Sub(some, all)
    requires row.OfZone? ==> ZonesValidated(item, all)
    ensures NoBetter(ExactCounts(row, item, some), ExactCounts(row, item, all))
  {
    hide LocateEvidence;
    var e, s, a := Expected(item.expected), Actual(some), Actual(all);
    SubMembers(some, all);
    ActualIsKeyed(some);
    ActualIsKeyed(all);
    forall k | k in s ensures k in a && PredictionIn(row, s[k]) == PredictionIn(row, a[k]) {
      assert s[k] in all && PredictionKey(s[k]) == k;
      assert PredictionKey(a[k]) == k && a[k] in all;
    }
    SubsetSize(Found(row, e, s), Found(row, e, a));
    SubsetSize(Extra(row, e, s), Extra(row, e, a));
    SubsetSize(Missed(row, e, a), Missed(row, e, s));
  }

  // ----- the report

  function CountsOf(mode: Mode, row: Row, item: Item, predicted: seq<Prediction>): Counts {
    if mode.ExactTriple? then ExactCounts(row, item, predicted) else SpanCounts(row, item, predicted)
  }

  function FourZones(prose: Counts, fenced: Counts, quoted: Counts, inline: Counts): Counts {
    Plus(Plus(prose, fenced), Plus(quoted, inline))
  }

  /** The rows of the four zones share out what the overall row counts. */
  lemma ZoneRowsAddUp(mode: Mode, item: Item, predicted: seq<Prediction>)
    ensures CountsOf(mode, Overall, item, predicted)
         == FourZones(CountsOf(mode, OfZone(Prose), item, predicted), CountsOf(mode, OfZone(FencedCode), item, predicted),
                      CountsOf(mode, OfZone(Blockquote), item, predicted), CountsOf(mode, OfZone(InlineCode), item, predicted))
  {
    hide FourZones, ExactCounts, SpanCounts;
    ExactZonesAddUp(item, predicted);
    SpanRowsAddUp(item, predicted);
  }

  lemma SpanRowsAddUp(item: Item, predicted: seq<Prediction>)
    ensures SpanCounts(Overall, item, predicted)
         == FourZones(SpanCounts(OfZone(Prose), item, predicted), SpanCounts(OfZone(FencedCode), item, predicted),
                      SpanCounts(OfZone(Blockquote), item, predicted), SpanCounts(OfZone(InlineCode), item, predicted))
  {
    hide LocatedGolds, Hits, FalseAlarms, GoldCount, Unclaimed;
    var golds := LocatedGolds(item.current, item.expected);
    SpanZonesAddUp(predicted, golds);
    GoldZonesAddUp(Unclaimed(predicted, golds));
  }

  lemma {:induction false} SpanZonesAddUp(predicted: seq<Prediction>, golds: seq<Span>)
    ensures Hits(Overall, predicted, golds)
         == Hits(OfZone(Prose), predicted, golds) + Hits(OfZone(FencedCode), predicted, golds)
          + Hits(OfZone(Blockquote), predicted, golds) + Hits(OfZone(InlineCode), predicted, golds)
    ensures FalseAlarms(Overall, predicted, golds)
         == FalseAlarms(OfZone(Prose), predicted, golds) + FalseAlarms(OfZone(FencedCode), predicted, golds)
          + FalseAlarms(OfZone(Blockquote), predicted, golds) + FalseAlarms(OfZone(InlineCode), predicted, golds)
    decreases |predicted|
  {
    hide FirstMatch, Consume;
    if predicted != [] {
      SpanZonesAddUp(predicted[1..], Consume(predicted[0], golds));
    }
  }

  lemma {:induction false} GoldZonesAddUp(golds: seq<Span>)
    ensures GoldCount(Overall, golds)
         == GoldCount(OfZone(Prose), golds) + GoldCount(OfZone(FencedCode), golds)
          + GoldCount(OfZone(Blockquote), golds) + GoldCount(OfZone(InlineCode), golds)
  {
    if golds != [] {
      GoldZonesAddUp(golds[1..]);
    }
  }

  lemma FourParts<T>(all: set<T>, a: set<T>, b: set<T>, c: set<T>, d: set<T>)
    requires all == a + b + c + d && a !! b && a !! c && a !! d && b !! c && b !! d && c !! d
    ensures |all| == |a| + |b| + |c| + |d|
  {
    assert |a + b| == |a| + |b|;
    assert |a + b + c| == |a + b| + |c|;
  }

  lemma FoundAddUp(e: map<Key, Gold>, a: map<Key, Prediction>)
    ensures |Found(Overall, e, a)| == |Found(OfZone(Prose), e, a)| + |Found(OfZone(FencedCode), e, a)|
                                    + |Found(OfZone(Blockquote), e, a)| + |Found(OfZone(InlineCode), e, a)|
  {
    FourParts(Found(Overall, e, a), Found(OfZone(Prose), e, a), Found(OfZone(FencedCode), e, a),
              Found(OfZone(Blockquote), e, a), Found(OfZone(InlineCode), e, a));
  }

  lemma ExtraAddUp(e: map<Key, Gold>, a: map<Key, Prediction>)
    ensures |Extra(Overall, e, a)| == |Extra(OfZone(Prose), e, a)| + |Extra(OfZone(FencedCode), e, a)|
                                    + |Extra(OfZone(Blockquote), e, a)| + |Extra(OfZone(InlineCode), e, a)|
  {
    FourParts(Extra(Overall, e, a), Extra(OfZone(Prose), e, a), Extra(OfZone(FencedCode), e, a),
              Extra(OfZone(Blockquote), e, a), Extra(OfZone(InlineCode), e, a));
  }

  lemma MissedAddUp(e: map<Key, Gold>, a: map<Key, Prediction>)
    ensures |Missed(Overall, e, a)| == |Missed(OfZone(Prose), e, a)| + |Missed(OfZone(FencedCode), e, a)|
                                     + |Missed(OfZone(Blockquote), e, a)| + |Missed(OfZone(InlineCode), e, a)|
  {
    FourParts(Missed(Overall, e, a), Missed(OfZone(Prose), e, a), Missed(OfZone(FencedCode), e, a),
              Missed(OfZone(Blockquote), e, a), Missed(OfZone(InlineCode), e, a));
  }

  lemma ExactZonesAddUp(item: Item, predicted: seq<Prediction>)
    ensures ExactCounts(Overall, item, predicted)
         == FourZones(ExactCounts(OfZone(Prose), item, predicted), ExactCounts(OfZone(FencedCode), item, predicted),
                      ExactCounts(OfZone(Blockquote), item, predicted), ExactCounts(OfZone(InlineCode), item, predicted))
  {
    hide Expected, Actual, Found, Extra, Missed;
    var e, a := Expected(item.expected), Actual(predicted);
    FoundAddUp(e, a);
    ExtraAddUp(e, a);
    MissedAddUp(e, a);
  }

  function Plus(c: Counts, d: Counts): Counts {
    Counts(c.tp + d.tp, c.fp + d.fp, c.fn + d.fn)
  }

  /** Running counts of one pass: overall, by memory type and by zone. */
  class Tally {
    var totals: Counts
    var byType: map<string, Counts>
    var byZone: map<Zone, Counts>

    constructor ()
      ensures forall row :: At(row) == Counts(0, 0, 0)
    {
      totals, byType, byZone := Counts(0, 0, 0), map[], map[];
    }

    /** Rows that were never touched read as zeros. */
    function At(row: Row): Counts
      reads this
    {
      match row
      case Overall => totals
      case OfType(t) => if t in byType then byType[t] else Counts(0, 0, 0)
      case OfZone(z) => if z in byZone then byZone[z] else Counts(0, 0, 0)
    }

    method Add(memoryType: string, zone: Zone, d: Counts)
      modifies this
      ensures At(Overall) == Plus(old(At(Overall)), d)
      ensures forall t :: At(OfType(t)) == if t == memoryType then Plus(old(At(OfType(t))), d) else old(At(OfType(t)))
      ensures forall z :: At(OfZone(z)) == if z == zone then Plus(old(At(OfZone(z))), d) else old(At(OfZone(z)))
    {
      var t, z := At(OfType(memoryType)), At(OfZone(zone));
      totals := Plus(totals, d);
      byType := byType[memoryType := Plus(t, d)];
      byZone := byZone[zone := Plus(z, d)];
    }

    method Hit(g: Gold)
      modifies this
      ensures forall row :: At(row) == if GoldIn(row, g) then Plus(old(At(row)), Counts(1, 0, 0)) else old(At(row))
    {
      Add(g.memoryType, g.zone, Counts(1, 0, 0));
      forall row ensures At(row) == if GoldIn(row, g) then Plus(old(At(row)), Counts(1, 0, 0)) else old(At(row)) {
        match row case Overall => case OfType(_) => case OfZone(_) =>
      }
    }

    method Miss(g: Gold)
      modifies this
      ensures forall row :: At(row) == if GoldIn(row, g) then Plus(old(At(row)), Counts(0, 0, 1)) else old(At(row))
    {
      Add(g.memoryType, g.zone, Counts(0, 0, 1));
      forall row ensures At(row) == if GoldIn(row, g) then Plus(old(At(row)), Counts(0, 0, 1)) else old(At(row)) {
        match row case Overall => case OfType(_) => case OfZone(_) =>
      }
    }

    method FalseAlarm(p: Prediction)
      modifies this
      ensures forall row :: At(row) == if PredictionIn(row, p) then Plus(old(At(row)), Counts(0, 1, 0)) else old(At(row))
    {
      Add(p.memoryType, p.zone, Counts(0, 1, 0));
      forall row ensures At(row) == if PredictionIn(row, p) then Plus(old(At(row)), Counts(0, 1, 0)) else old(At(row)) {
        match row case Overall => case OfType(_) => case OfZone(_) =>
      }
    }
  }

  method LocateGolds(item: Item) returns (remaining: seq<Span>)
    ensures remaining == LocatedGolds(item.current, item.expected)
  {
    hide LocateEvidence;
    remaining := [];
    for n := 0 to |item.expected|
      invariant remaining + LocatedGolds(item.current, item.expected[n..]) == LocatedGolds(item.current, item.expected)
    {
      assert item.expected[n..][1..] == item.expected[n + 1..];
      var g := item.expected[n];
      var e := LocateEvidence(item.current, g.quote);
      if e.Located? {
        remaining := remaining + [Span(g, e.start, e.end)];
      }
    }
  }

  method FindMatch(p: Prediction, remaining: seq<Span>) returns (index: int)
    ensures index == if FirstMatch(p, remaining) < |remaining| then FirstMatch(p, remaining) else -1
  {
    hide Match;
    for n := 0 to |remaining|
      invariant FirstMatch(p, remaining) == n + FirstMatch(p, remaining[n..])
    {
      assert remaining[n..][0] == remaining[n] && remaining[n..][1..] == remaining[n + 1..];
      if Match(p, remaining[n]) {
        return n;
      }
    }
    return -1;
  }

  /** What one prediction adds to a row. */
  function Gain(row: Row, p: Prediction, golds: seq<Span>): Counts {
    var i := FirstMatch(p, golds);
    if i < |golds| then Counts(if GoldIn(row, golds[i].gold) then 1 else 0, 0, 0)
    else Counts(0, if PredictionIn(row, p) then 1 else 0, 0)
  }

  /** What a list of predictions adds to a row, misses left aside. */
  function Owed(row: Row, predicted: seq<Prediction>, golds: seq<Span>): Counts {
    Counts(Hits(row, predicted, golds), FalseAlarms(row, predicted, golds), 0)
  }

  lemma OwedStep(row: Row, predicted: seq<Prediction>, golds: seq<Span>)
    requires predicted != []
    ensures Owed(row, predicted, golds) == Plus(Gain(row, predicted[0], golds), Owed(row, predicted[1..], Consume(predicted[0], golds)))
  {
    hide Match, GoldIn, PredictionIn, Consume, FirstMatch, Hits, FalseAlarms;
    HitsStep(row, predicted, golds);
    FalseAlarmsStep(row, predicted, golds);
  }

  lemma HitsStep(row: Row, predicted: seq<Prediction>, golds: seq<Span>)
    requires predicted != []
    ensures Hits(row, predicted, golds) == Gain(row, predicted[0], golds).tp + Hits(row, predicted[1..], Consume(predicted[0], golds))
  {
    hide Match, GoldIn, PredictionIn, Consume, FirstMatch;
  }

  lemma FalseAlarmsStep(row: Row, predicted: seq<Prediction>, golds: seq<Span>)
    requires predicted != []
    ensures FalseAlarms(row, predicted, golds) ==
      Gain(row, predicted[0], golds).fp + FalseAlarms(row, predicted[1..], Consume(predicted[0], golds))
    ensures Gain(row, predicted[0], golds).fn == 0
  {
    hide Match, GoldIn, PredictionIn, Consume, FirstMatch;
  }

  lemma PlusAssociates(a: Counts, b: Counts, c: Counts)
    ensures Plus(Plus(a, b), c) == Plus(a, Plus(b, c))
  {
  }

  /** One prediction claims the first gold it matches, or is a false alarm. */
  method Claim(p: Prediction, golds: seq<Span>, tally: Tally) returns (left: seq<Span>, missed: bool)
    modifies tally
    ensures forall row :: tally.At(row) == Plus(old(tally.At(row)), Gain(row, p, golds))
    ensures left == Consume(p, golds) && (missed <==> FirstMatch(p, golds) == |golds|)
  {
    hide Match, FirstMatch, GoldIn, PredictionIn;
    var index := FindMatch(p, golds);
    if index >= 0 {
      tally.Hit(golds[index].gold);
      return golds[..index] + golds[index + 1..], false;
    }
    tally.FalseAlarm(p);
    return golds, true;
  }

  method AccumulateSpans(item: Item, predicted: seq<Prediction>, tally: Tally) returns (falsePositives: nat)
    modifies tally
    ensures forall row :: tally.At(row) == Plus(old(tally.At(row)), SpanCounts(row, item, predicted))
    ensures falsePositives == SpanCounts(Overall, item, predicted).fp
  {
    hide Match, FirstMatch, GoldIn, PredictionIn, LocatedGolds, Consume, Gain, Plus;
    var remaining := LocateGolds(item);
    ghost var golds := remaining;
    falsePositives := 0;
    for n := 0 to |predicted|
      invariant Unclaimed(predicted[n..], remaining) == Unclaimed(predicted, golds)
      invariant forall row ::
        Plus(tally.At(row), Owed(row, predicted[n..], remaining)) == Plus(old(tally.At(row)), Owed(row, predicted, golds))
      invariant falsePositives + FalseAlarms(Overall, predicted[n..], remaining) == FalseAlarms(Overall, predicted, golds)
    {
      var p := predicted[n];
      var rest, more := predicted[n..], predicted[n + 1..];
      assert rest[0] == p && rest[1..] == more;
      ghost var before := remaining;
      label Before:
      var missed;
      remaining, missed := Claim(p, remaining, tally);
      forall row ensures Plus(tally.At(row), Owed(row, more, remaining)) == Plus(old@Before(tally.At(row)), Owed(row, rest, before)) {
        OwedStep(row, rest, before);
        PlusAssociates(old@Before(tally.At(row)), Gain(row, p, before), Owed(row, more, remaining));
      }
      FalseAlarmStep(rest, before);
      if missed {
        falsePositives := falsePositives + 1;
      }
    }
    assert predicted[|predicted|..] == [];
    NothingUnclaimed(remaining);
    forall row
      ensures var done := if item.adversarial then tally.At(row) else Plus(tally.At(row), Counts(0, 0, GoldCount(row, remaining)));
        done == Plus(old(tally.At(row)), SpanCounts(row, item, predicted))
    {
      AllCounted(row, item, predicted, golds, remaining, old(tally.At(row)), tally.At(row));
    }
    if !item.adversarial {
      AccumulateMisses(remaining, tally);
    }
  }

  lemma NothingUnclaimed(golds: seq<Span>)
    ensures Unclaimed([], golds) == golds && forall row :: Hits(row, [], golds) == 0 && FalseAlarms(row, [], golds) == 0
  {
  }

  lemma FalseAlarmStep(predicted: seq<Prediction>, golds: seq<Span>)
    requires predicted != []
    ensures FalseAlarms(Overall, predicted, golds) ==
      FalseAlarms(Overall, predicted[1..], Consume(predicted[0], golds)) + if FirstMatch(predicted[0], golds) == |golds| then 1 else 0
    ensures Unclaimed(predicted, golds) == Unclaimed(predicted[1..], Consume(predicted[0], golds))
  {
    hide Match, GoldIn, Consume, FirstMatch, FalseAlarms;
    FalseAlarmsStep(Overall, predicted, golds);
  }

  lemma AllCounted(row: Row, item: Item, predicted: seq<Prediction>, golds: seq<Span>, remaining: seq<Span>, before: Counts, after: Counts)
    requires golds == LocatedGolds(item.current, item.expected) && remaining == Unclaimed(predicted, golds)
    requires Plus(after, Owed(row, [], remaining)) == Plus(before, Owed(row, predicted, golds))
    ensures var done := if item.adversarial then after else Plus(after, Counts(0, 0, GoldCount(row, remaining)));
      done == Plus(before, SpanCounts(row, item, predicted))
  {
    hide Unclaimed, LocatedGolds, GoldCount;
    NothingUnclaimed(remaining);
  }

  method AccumulateMisses(remaining: seq<Span>, tally: Tally)
    modifies tally
    ensures forall row :: tally.At(row) == Plus(old(tally.At(row)), Counts(0, 0, GoldCount(row, remaining)))
  {
    hide GoldIn;
    for n := 0 to |remaining|
      invariant forall row ::
        Plus(tally.At(row), Counts(0, 0, GoldCount(row, remaining[n..]))) == Plus(old(tally.At(row)), Counts(0, 0, GoldCount(row, remaining)))
    {
      assert remaining[n..][0] == remaining[n] && remaining[n..][1..] == remaining[n + 1..];
      tally.Miss(remaining[n].gold);
    }
  }

  function GoldKeys(row: Row, todo: set<Key>, e: map<Key, Gold>): nat
    requires todo <= e.Keys
  {
    |set k | k in todo && GoldIn(row, e[k])|
  }

  function PredictionKeys(row: Row, todo: set<Key>, a: map<Key, Prediction>): nat
    requires todo <= a.Keys
  {
    |set k | k in todo && PredictionIn(row, a[k])|
  }

  lemma KeyDone(row: Row, todo: set<Key>, key: Key, e: map<Key, Gold>)
    requires key in todo && todo <= e.Keys
    ensures GoldKeys(row, todo, e) == GoldKeys(row, todo - {key}, e) + if GoldIn(row, e[key]) then 1 else 0
  {
    var before, after := set k | k in todo && GoldIn(row, e[k]), set k | k in todo - {key} && GoldIn(row, e[k]);
    assert before == if GoldIn(row, e[key]) then after + {key} else after;
  }

  lemma ExtraKeyDone(row: Row, todo: set<Key>, key: Key, a: map<Key, Prediction>)
    requires key in todo && todo <= a.Keys
    ensures PredictionKeys(row, todo, a) == PredictionKeys(row, todo - {key}, a) + if PredictionIn(row, a[key]) then 1 else 0
  {
    var before, after := set k | k in todo && PredictionIn(row, a[k]), set k | k in todo - {key} && PredictionIn(row, a[k]);
    assert before == if PredictionIn(row, a[key]) then after + {key} else after;
  }

  method AddHits(keys: set<Key>, e: map<Key, Gold>, tally: Tally)
    requires keys <= e.Keys
    modifies tally
    ensures forall row :: tally.At(row) == Plus(old(tally.At(row)), Counts(GoldKeys(row, keys, e), 0, 0))
  {
    hide GoldIn;
    var todo := keys;
    while todo != {}
      invariant todo <= keys
      invariant forall row :: Plus(tally.At(row), Counts(GoldKeys(row, todo, e), 0, 0)) == Plus(old(tally.At(row)), Counts(GoldKeys(row, keys, e), 0, 0))
    {
      var key :| key in todo;
      forall row { KeyDone(row, todo, key, e); }
      hide GoldKeys;
      tally.Hit(e[key]);
      todo := todo - {key};
    }
  }

  method AddMisses(keys: set<Key>, e: map<Key, Gold>, tally: Tally)
    requires keys <= e.Keys
    modifies tally
    ensures forall row :: tally.At(row) == Plus(old(tally.At(row)), Counts(0, 0, GoldKeys(row, keys, e)))
  {
    hide GoldIn;
    var todo := keys;
    while todo != {}
      invariant todo <= keys
      invariant forall row :: Plus(tally.At(row), Counts(0, 0, GoldKeys(row, todo, e))) == Plus(old(tally.At(row)), Counts(0, 0, GoldKeys(row, keys, e)))
    {
      var key :| key in todo;
      forall row { KeyDone(row, todo, key, e); }
      hide GoldKeys;
      tally.Miss(e[key]);
      todo := todo - {key};
    }
  }

  method AddExtras(keys: set<Key>, a: map<Key, Prediction>, tally: Tally) returns (falsePositives: nat)
    requires keys <= a.Keys
    modifies tally
    ensures forall row :: tally.At(row) == Plus(old(tally.At(row)), Counts(0, PredictionKeys(row, keys, a), 0))
    ensures falsePositives == |keys|
  {
    hide PredictionIn;
    var todo := keys;
    falsePositives := 0;
    while todo != {}
      invariant todo <= keys && falsePositives + |todo| == |keys|
      invariant forall row :: Plus(tally.At(row), Counts(0, PredictionKeys(row, todo, a), 0)) == Plus(old(tally.At(row)), Counts(0, PredictionKeys(row, keys, a), 0))
    {
      var key :| key in todo;
      forall row { ExtraKeyDone(row, todo, key, a); }
      hide PredictionKeys;
      tally.FalseAlarm(a[key]);
      todo := todo - {key};
      falsePositives := falsePositives + 1;
    }
  }

  method AccumulateExact(item: Item, predicted: seq<Prediction>, tally: Tally) returns (falsePositives: nat)
    modifies tally
    ensures forall row :: tally.At(row) == Plus(old(tally.At(row)), ExactCounts(row, item, predicted))
    ensures falsePositives == ExactCounts(Overall, item, predicted).fp
  {
    hide GoldIn, PredictionIn, Expected, Actual;
    var expected, actual := Expected(item.expected), Actual(predicted);
    var both, extra, missing := expected.Keys * actual.Keys, actual.Keys - expected.Keys, expected.Keys - actual.Keys;
    AddHits(both, expected, tally);
    falsePositives := AddExtras(extra, actual, tally);
    AddMisses(missing, expected, tally);
    forall row
      ensures ExactCounts(row, item, predicted)
           == Counts(GoldKeys(row, both, expected), PredictionKeys(row, extra, actual), GoldKeys(row, missing, expected))
    {
      RowsOfSets(row, expected, actual);
    }
    AllExtras(expected, actual);
  }

  lemma RowsOfSets(row: Row, e: map<Key, Gold>, a: map<Key, Prediction>)
    ensures GoldKeys(row, e.Keys * a.Keys, e) == |Found(row, e, a)|
    ensures PredictionKeys(row, a.Keys - e.Keys, a) == |Extra(row, e, a)|
    ensures GoldKeys(row, e.Keys - a.Keys, e) == |Missed(row, e, a)|
  {
    assert (set k | k in e.Keys * a.Keys && GoldIn(row, e[k])) == Found(row, e, a);
    assert (set k | k in a.Keys - e.Keys && PredictionIn(row, a[k])) == Extra(row, e, a);
    assert (set k | k in e.Keys - a.Keys && GoldIn(row, e[k])) == Missed(row, e, a);
  }

  lemma AllExtras(e: map<Key, Gold>, a: map<Key, Prediction>)
    ensures Extra(Overall, e, a) == a.Keys - e.Keys
  {}

  method Accumulate(mode: Mode, item: Item, predicted: seq<Prediction>, tally: Tally)
    returns (falsePositives: nat, adversarialFalsePositives: nat)
    modifies tally
    ensures forall row :: tally.At(row) == Plus(old(tally.At(row)), CountsOf(mode, row, item, predicted))
    ensures falsePositives == CountsOf(mode, Overall, item, predicted).fp
    ensures adversarialFalsePositives == if item.adversarial then falsePositives else 0
  {
    hide ExactCounts, SpanCounts;
    match mode {
      case ExactTriple => falsePositives := AccumulateExact(item, predicted, tally);
      case TypeSpan => falsePositives := AccumulateSpans(item, predicted, tally);
    }
    adversarialFalsePositives := if item.adversarial then falsePositives else 0;
  }

  function Trusted(predicted: seq<Prediction>): seq<Prediction> {
    if predicted == [] then []
    else (if predicted[0].status == Auto then [predicted[0]] else []) + Trusted(predicted[1..])
  }

  lemma {:induction false} TrustedIsSub(predicted: seq<Prediction>)
    ensures Sub(Trusted(predicted), predicted)
  {
    if predicted != [] {
      TrustedIsSub(predicted[1..]);
      assert ([predicted[0]] + Trusted(predicted[1..]))[1..] == Trusted(predicted[1..]);
      if predicted[0].status != Auto {
        assert Trusted(predicted) == Trusted(predicted[1..]);
      }
    }
  }

  /** The trusted candidates are exactly the automatic ones, each as often as it was predicted. */
  lemma {:induction false} TrustedAreAuto(predicted: seq<Prediction>, p: Prediction)
    ensures multiset(Trusted(predicted))[p] == if p.status == Auto then multiset(predicted)[p] else 0
  {
    if predicted != [] {
      TrustedAreAuto(predicted[1..], p);
      assert predicted == [predicted[0]] + predicted[1..];
    }
  }

  lemma {:induction false} AllTrusted(predicted: seq<Prediction>)
    requires forall p | p in predicted :: p.status == Auto
    ensures Trusted(predicted) == predicted
  {
    if predicted != [] {
      assert predicted == [predicted[0]] + predicted[1..];
      AllTrusted(predicted[1..]);
    }
  }

  lemma {:induction false} NoneTrusted(predicted: seq<Prediction>)
    requires forall p | p in predicted :: p.status != Auto
    ensures Trusted(predicted) == []
  {
    if predicted != [] {
      assert predicted == [predicted[0]] + predicted[1..];
      NoneTrusted(predicted[1..]);
    }
  }

  lemma CountsAreMonotone(mode: Mode, row: Row, item: Item, some: seq<Prediction>, all: seq<Prediction>)
    requires Sub(some, all) && ZonesValidated(item, all)
    ensures NoBetter(CountsOf(mode, row, item, some), CountsOf(mode, row, item, all))
  {
    hide ZonesValidated, ExactCounts, SpanCounts;
    if mode.ExactTriple? {
      ExactCountsAreMonotone(row, item, some, all);
    } else {
      SpanCountsAreMonotone(row, item, some, all);
    }
  }

  /** What the extractor proposed for an example, with the verifier's answer to each proposal. */
  datatype Proposal = Proposal(candidate: Proposed, verdict: Verdict)

  datatype Example = Example(item: Item, proposals: seq<Proposal>)

  /** The proposals that validate; the others are dropped. */
  function Predictions(current: string, proposals: seq<Proposal>, threshold: real): seq<Prediction> {
    if proposals == [] then []
    else
      var v := ValidateCandidate(proposals[0].candidate, current, threshold, proposals[0].verdict);
      (if v.Valid?
       then [Prediction(v.candidate.memoryType, v.candidate.content, v.candidate.quote, v.start, v.end, v.zone, v.status)]
       else []) + Predictions(current, proposals[1..], threshold)
  }

  /** Exactly the proposals that validate are predictions, with their own texts, their places and the status they got. */
  lemma {:induction false} PredictionsExactly(current: string, proposals: seq<Proposal>, threshold: real, p: Prediction)
    ensures p in Predictions(current, proposals, threshold) <==> exists n :: 0 <= n < |proposals| && PredictedFrom(proposals[n], current, threshold, p)
  {
    hide PredictedFrom;
    if proposals != [] {
      PredictionsExactly(current, proposals[1..], threshold, p);
      FirstPredicted(current, proposals, threshold, p);
      if n :| 0 <= n < |proposals[1..]| && PredictedFrom(proposals[1..][n], current, threshold, p) {
        assert PredictedFrom(proposals[n + 1], current, threshold, p);
      }
      if n :| 0 <= n < |proposals| && PredictedFrom(proposals[n], current, threshold, p) {
        assert n > 0 ==> proposals[n] == proposals[1..][n - 1];
      }
    }
  }

  lemma FirstPredicted(current: string, proposals: seq<Proposal>, threshold: real, p: Prediction)
    requires proposals != []
    ensures p in Predictions(current, proposals, threshold) <==>
      PredictedFrom(proposals[0], current, threshold, p) || p in Predictions(current, proposals[1..], threshold)
  {
    hide LocateEvidence;
    var c := proposals[0].candidate;
    if LocateEvidence(current, c.quote).Located? {
      LocatedSpan(current, c.quote);
    }
  }

  predicate PredictedFrom(q: Proposal, current: string, threshold: real, p: Prediction) {
    var v := ValidateCandidate(q.candidate, current, threshold, q.verdict);
    && v.Valid? && p.memoryType == q.candidate.memoryType && p.content == q.candidate.content && p.quote == q.candidate.quote
    && p.start == v.start && p.end == p.start + |p.quote| && p.zone == v.zone && p.status == v.status
  }

  lemma PredictionsFirst(current: string, proposals: seq<Proposal>, threshold: real)
    requires proposals != []
    ensures Predictions(current, proposals, threshold)
         == Predictions(current, [proposals[0]], threshold) + Predictions(current, proposals[1..], threshold)
    ensures |Predictions(current, [proposals[0]], threshold)| <= 1
  {
    hide ValidateCandidate;
    assert [proposals[0]][1..] == [];
    assert Predictions(current, [], threshold) == [];
  }

  /** Predictions come in the order of the proposals, one at most for each. */
  lemma {:induction false} PredictionsSplit(current: string, some: seq<Proposal>, more: seq<Proposal>, threshold: real)
    ensures Predictions(current, some + more, threshold) == Predictions(current, some, threshold) + Predictions(current, more, threshold)
    ensures |Predictions(current, some, threshold)| <= |some|
  {
    if some == [] {
      assert some + more == more;
    } else {
      PredictionsFirst(current, some, threshold);
      PredictionsFirst(current, some + more, threshold);
      hide Predictions, ValidateCandidate;
      assert (some + more)[1..] == some[1..] + more && (some + more)[0] == some[0];
      PredictionsSplit(current, some[1..], more, threshold);
      var first := Predictions(current, [some[0]], threshold);
      assert first + (Predictions(current, some[1..], threshold) + Predictions(current, more, threshold))
          == first + Predictions(current, some[1..], threshold) + Predictions(current, more, threshold);
    }
  }

  lemma {:induction false} PredictionsAreValidated(item: Item, proposals: seq<Proposal>, threshold: real)
    ensures ZonesValidated(item, Predictions(item.current, proposals, threshold))
  {
    hide LocateEvidence;
    if proposals != [] {
      PredictionsAreValidated(item, proposals[1..], threshold);
    }
  }

  /** The candidates of one pass over an example. */
  function PassOf(e: Example, threshold: real, trustedOnly: bool): seq<Prediction> {
    var predicted := Predictions(e.item.current, e.proposals, threshold);
    if trustedOnly then Trusted(predicted) else predicted
  }

  /** The counts of one pass, summed over a corpus. */
  function CorpusCounts(mode: Mode, row: Row, examples: seq<Example>, threshold: real, trustedOnly: bool): Counts {
    if examples == [] then Counts(0, 0, 0)
    else
      var last := examples[|examples| - 1];
      Plus(CorpusCounts(mode, row, examples[..|examples| - 1], threshold, trustedOnly),
           CountsOf(mode, row, last.item, PassOf(last, threshold, trustedOnly)))
  }

  /** False positives of the trusted pass on adversarial examples. */
  function FalselyTrusted(mode: Mode, examples: seq<Example>, threshold: real): nat {
    if examples == [] then 0
    else
      var last := examples[|examples| - 1];
      FalselyTrusted(mode, examples[..|examples| - 1], threshold)
      + if last.item.adversarial then CountsOf(mode, Overall, last.item, PassOf(last, threshold, true)).fp else 0
  }

  /** Over any corpus the trusted pass finds no more, raises no more false alarms and misses no less, in every row. */
  lemma {:induction false} TrustedPassIsMonotone(mode: Mode, row: Row, examples: seq<Example>, threshold: real)
    ensures NoBetter(CorpusCounts(mode, row, examples, threshold, true), CorpusCounts(mode, row, examples, threshold, false))
    ensures FalselyTrusted(mode, examples, threshold) <= CorpusCounts(mode, Overall, examples, threshold, true).fp
  {
    hide CountsOf, Trusted, Predictions;
    if examples != [] {
      var last := examples[|examples| - 1];
      var predicted := Predictions(last.item.current, last.proposals, threshold);
      TrustedPassIsMonotone(mode, row, examples[..|examples| - 1], threshold);
      PredictionsAreValidated(last.item, last.proposals, threshold);
      TrustedIsSub(predicted);
      CountsAreMonotone(mode, row, last.item, Trusted(predicted), predicted);
    }
  }

  /** All candidates of an example have a status. */
  predicate AllAre(e: Example, threshold: real, status: Status) {
    forall p | p in Predictions(e.item.current, e.proposals, threshold) :: p.status == status
  }

  /** A corpus on which the extractor proposed nothing. */
  function Silent(examples: seq<Example>): seq<Example> {
    if examples == [] then [] else Silent(examples[..|examples| - 1]) + [Example(examples[|examples| - 1].item, [])]
  }

  /** When every candidate is automatic the trusted pass is the whole one. */
  lemma {:induction false} AutoPassIsWhole(mode: Mode, row: Row, examples: seq<Example>, threshold: real)
    requires forall n | 0 <= n < |examples| :: AllAre(examples[n], threshold, Auto)
    ensures CorpusCounts(mode, row, examples, threshold, true) == CorpusCounts(mode, row, examples, threshold, false)
  {
    hide CountsOf, Trusted, Predictions;
    if examples != [] {
      var last := examples[|examples| - 1];
      AutoPassIsWhole(mode, row, examples[..|examples| - 1], threshold);
      AllTrusted(Predictions(last.item.current, last.proposals, threshold));
    }
  }

  /** When every candidate is held back the trusted pass scores like an extractor that proposes nothing. */
  lemma {:induction false} QuarantinedPassIsSilent(mode: Mode, row: Row, examples: seq<Example>, threshold: real)
    requires forall n | 0 <= n < |examples| :: AllAre(examples[n], threshold, Quarantined)
    ensures CorpusCounts(mode, row, examples, threshold, true) == CorpusCounts(mode, row, Silent(examples), threshold, false)
  {
    hide CountsOf, Trusted;
    if examples != [] {
      var init, last := examples[..|examples| - 1], examples[|examples| - 1];
      QuarantinedPassIsSilent(mode, row, init, threshold);
      NoneTrusted(Predictions(last.item.current, last.proposals, threshold));
      assert Silent(examples)[..|Silent(init)|] == Silent(init);
    }
  }

  /** The adversarial examples of a corpus. */
  function Adversarial(examples: seq<Example>): seq<Example> {
    if examples == [] then []
    else Adversarial(examples[..|examples| - 1]) + if examples[|examples| - 1].item.adversarial then [examples[|examples| - 1]] else []
  }

  /** What is falsely trusted is what the trusted pass reports as false on the adversarial examples alone. */
  lemma {:induction false} FalselyTrustedIs(mode: Mode, examples: seq<Example>, threshold: real)
    ensures FalselyTrusted(mode, examples, threshold) == CorpusCounts(mode, Overall, Adversarial(examples), threshold, true).fp
  {
    hide CountsOf, Trusted, Predictions;
    if examples != [] {
      var init, last := examples[..|examples| - 1], examples[|examples| - 1];
      FalselyTrustedIs(mode, init, threshold);
      if last.item.adversarial {
        assert Adversarial(examples)[..|Adversarial(init)|] == Adversarial(init);
      } else {
        assert Adversarial(examples) == Adversarial(init);
      }
    }
  }

  /** Both passes over a corpus. The false-trust counters are counters of the trusted pass. */
  method EvaluateExtractor(mode: Mode, examples: seq<Example>, threshold: real)
    returns (tally: Tally, trusted: Tally, autoTrustedFalse: nat, falseTrusted: nat)
    ensures fresh(tally) && fresh(trusted)
    ensures forall row :: tally.At(row) == CorpusCounts(mode, row, examples, threshold, false)
    ensures forall row :: trusted.At(row) == CorpusCounts(mode, row, examples, threshold, true)
    ensures autoTrustedFalse == trusted.At(Overall).fp && falseTrusted == FalselyTrusted(mode, examples, threshold)
    ensures falseTrusted <= autoTrustedFalse && forall row :: NoBetter(trusted.At(row), tally.At(row))
  {
    hide CountsOf, Trusted, Predictions, CorpusCounts, FalselyTrusted, Plus, NoBetter;
    tally := new Tally();
    trusted := new Tally();
    autoTrustedFalse, falseTrusted := 0, 0;
    forall row, trustedOnly {
      EmptyCorpus(mode, row, threshold, trustedOnly);
    }
    assert examples[..0] == [];
    for n := 0 to |examples|
      invariant fresh(tally) && fresh(trusted) && tally != trusted
      invariant forall row :: tally.At(row) == CorpusCounts(mode, row, examples[..n], threshold, false)
      invariant forall row :: trusted.At(row) == CorpusCounts(mode, row, examples[..n], threshold, true)
      invariant autoTrustedFalse == trusted.At(Overall).fp && falseTrusted == FalselyTrusted(mode, examples[..n], threshold)
    {
      var item := examples[n].item;
      forall row, trustedOnly {
        CorpusStep(mode, row, examples, n, threshold, trustedOnly);
      }
      var predicted := Predictions(item.current, examples[n].proposals, threshold);
      var _, _ := Accumulate(mode, item, predicted, tally);
      var fp, adversarialFp := Accumulate(mode, item, Trusted(predicted), trusted);
      autoTrustedFalse := autoTrustedFalse + fp;
      falseTrusted := falseTrusted + adversarialFp;
    }
    assert examples[..|examples|] == examples;
    forall row {
      TrustedPassIsMonotone(mode, row, examples, threshold);
    }
  }

  lemma EmptyCorpus(mode: Mode, row: Row, threshold: real, trustedOnly: bool)
    ensures CorpusCounts(mode, row, [], threshold, trustedOnly) == Counts(0, 0, 0) && FalselyTrusted(mode, [], threshold) == 0
  {
  }

  lemma CorpusStep(mode: Mode, row: Row, examples: seq<Example>, n: nat, threshold: real, trustedOnly: bool)
    requires n < |examples|
    ensures var counted := CountsOf(mode, row, examples[n].item, PassOf(examples[n], threshold, trustedOnly));
      CorpusCounts(mode, row, examples[..n + 1], threshold, trustedOnly) == Plus(CorpusCounts(mode, row, examples[..n], threshold, trustedOnly), counted)
      && Plus(CorpusCounts(mode, row, examples[..n], threshold, trustedOnly), counted).fp
         == CorpusCounts(mode, row, examples[..n], threshold, trustedOnly).fp + counted.fp
    ensures FalselyTrusted(mode, examples[..n + 1], threshold) == FalselyTrusted(mode, examples[..n], threshold)
      + if examples[n].item.adversarial then CountsOf(mode, Overall, examples[n].item, PassOf(examples[n], threshold, true)).fp else 0
  {
    hide CountsOf, Trusted, Predictions;
    assert examples[..n + 1][..n] == examples[..n];
  }

  /** Recall as reported; 1 when there was nothing to find. */
  function Recall(c: Counts): real {
    if c.tp + c.fn == 0 then 1.0 else c.tp as real / (c.tp + c.fn) as real
  }

  /** Withholding candidates can never raise recall. */
  lemma RecallIsMonotone(c: Counts, d: Counts)
    requires NoBetter(c, d)
    ensures Recall(c) <= Recall(d) <= 1.0
  {
    if d.tp + d.fn > 0 && c.tp + c.fn > 0 {
      var a, b, x, y := c.tp as real, c.fn as real, d.tp as real, d.fn as real;
      CrossMultiply(a, b, x, y);
    }
  }

  lemma CrossMultiply(a: real, b: real, x: real, y: real)
    requires 0.0 <= a <= x && 0.0 <= y <= b && a + b > 0.0 && x + y > 0.0
    ensures a / (a + b) <= x / (x + y) <= 1.0
  {
    var m, n := a + b, x + y;
    Product(a, y, x, b);
    assert a * n == a * x + a * y && x * m == x * a + x * b;
    assert m * n > 0.0;
    Fraction(a, m, n);
    Fraction(x, n, m);
    Scale(a / m, x / n, m * n);
    Fraction(x, n, 1.0);
    Scale(x / n, 1.0, n);
  }

  lemma Product(a: real, y: real, x: real, b: real)
    requires 0.0 <= a <= x && 0.0 <= y <= b
    ensures a * y <= x * b
  {
    assert a * y <= x * y;
    assert x * y <= x * b;
  }

  lemma Fraction(a: real, m: real, n: real)
    requires m > 0.0
    ensures (a / m) * (m * n) == a * n == (a / m) * (n * m)
  {
    assert (a / m) * m == a;
    assert (a / m) * (m * n) == ((a / m) * m) * n;
  }

  lemma Scale(q: real, r: real, d: real)
    requires d > 0.0
    ensures q * d <= r * d ==> q <= r
  {}
}
