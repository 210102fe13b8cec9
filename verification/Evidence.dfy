/**
 Evidence zones and evidence quotes. Every character of an event is prose, blockquote, inline code
 or fenced code; a quoted piece of evidence is trusted only when it is found once and is prose.
 */
module Evidence {
  import opened Text

  datatype Zone = Prose | FencedCode | Blockquote | InlineCode

  /** The open code fence, if any: its character and its length. */
  datatype Fence = Outside | Fenced(mark: char, width: nat)

  // ----- one line

  function Unindented(line: string): string {
    if line != "" && (line[0] == ' ' || line[0] == '\t') then Unindented(line[1..]) else line
  }

  /** How many `c` the text starts with. */
  function Run(s: string, c: char): (n: nat)
    ensures n <= |s| && (forall i | 0 <= i < n :: s[i] == c) && (n < |s| ==> s[n] != c)
  {
    if s != "" && s[0] == c then 1 + Run(s[1..], c) else 0
  }

  /** The fence marker a line starts with: three or more backticks or tildes. */
  function MarkerOf(line: string): Fence {
    var s := Unindented(line);
    if Run(s, '`') >= 3 then Fenced('`', Run(s, '`'))
    else if Run(s, '~') >= 3 then Fenced('~', Run(s, '~'))
    else Outside
  }

  /** Where `width` backticks next occur at or after `from`; `|s|` when they do not. */
  function FindTicks(s: string, width: nat, from: nat): (i: nat)
    requires from <= |s| && width > 0
    ensures from <= i <= |s|
    ensures i < |s| ==> TicksAt(s, i, width)
    ensures forall k | from <= k < i :: !TicksAt(s, k, width)
    decreases |s| - from
  {
    if from == |s| || TicksAt(s, from, width) then from else FindTicks(s, width, from + 1)
  }

  predicate TicksAt(s: string, i: nat, width: nat) {
    i + width <= |s| && forall k | i <= k < i + width :: s[k] == '`'
  }

  lemma TicksAreBackticks(s: string, i: nat, width: nat)
    ensures TicksAt(s, i, width) <==> i + width <= |s| && s[i..i + width] == seq(width, _ => '`')
  {
    if i + width <= |s| {
      assert forall k | i <= k < i + width :: s[k] == s[i..i + width][k - i];
    }
  }

  function Repeat(z: Zone, n: nat): (zones: seq<Zone>)
    ensures |zones| == n && forall i | 0 <= i < n :: zones[i] == z
  {
    seq(n, i => z)
  }

  /** Width of the run of backticks at an index, and where the scan goes on after it. */
  function Width(line: string, index: nat): (width: nat)
    requires index < |line| && line[index] == '`'
    ensures 0 < width && index + width <= |line|
  {
    assert line[index..][0] == '`';
    Run(line[index..], '`')
  }

  function Close(line: string, index: nat): (close: nat)
    requires index < |line| && line[index] == '`'
    ensures index + Width(line, index) <= close <= |line|
    ensures close < |line| ==> close + Width(line, index) <= |line|
  {
    FindTicks(line, Width(line, index), index + Width(line, index))
  }

  /** An unclosed run is skipped; a code span ends after its closing run. */
  function SpanEnd(line: string, index: nat): (end: nat)
    requires index < |line| && line[index] == '`'
    ensures index < end <= |line|
  {
    if Close(line, index) == |line| then index + Width(line, index) else Close(line, index) + Width(line, index)
  }

  /** Zones of the rest of a line from a point where no code span is open. */
  function InlineZones(line: string, index: nat): (zones: seq<Zone>)
    requires index <= |line|
    ensures |zones| == |line| - index
    decreases |line| - index
  {
    if index == |line| then []
    else if line[index] != '`' then [Prose] + InlineZones(line, index + 1)
    else
      var end := SpanEnd(line, index);
      Repeat(if Close(line, index) == |line| then Prose else InlineCode, end - index) + InlineZones(line, end)
  }

  function LineZones(fence: Fence, line: string): (zones: seq<Zone>)
    ensures |zones| == |line|
  {
    if fence.Fenced? || MarkerOf(line).Fenced? then Repeat(FencedCode, |line|)
    else if ">" <= Unindented(line) then Repeat(Blockquote, |line|)
    else InlineZones(line, 0)
  }

  /** The fence in force after a line. */
  function NextFence(fence: Fence, line: string): Fence {
    var marker := MarkerOf(line);
    if fence.Outside? then marker
    else if marker.Fenced? && marker.mark == fence.mark && marker.width >= fence.width then Outside
    else fence
  }

  // ----- a whole text

  function ZonesOfLines(fence: Fence, lines: seq<string>): seq<Zone>
    decreases |lines|
  {
    if lines == [] then []
    else LineZones(fence, lines[0]) + ZonesOfLines(NextFence(fence, lines[0]), lines[1..])
  }

  function FenceAfterLines(fence: Fence, lines: seq<string>): Fence
    decreases |lines|
  {
    if lines == [] then fence else FenceAfterLines(NextFence(fence, lines[0]), lines[1..])
  }

  function Zones(text: string): seq<Zone> {
    ZonesOfLines(Outside, LinesKept(text))
  }

  function FenceAfter(text: string): Fence {
    FenceAfterLines(Outside, LinesKept(text))
  }

  lemma {:induction false} ZonesFromLength(fence: Fence, text: string)
    ensures |ZonesOfLines(fence, LinesKept(text))| == |text|
    decreases |text|
  {
    hide LineZones, NextFence, LineLength;
    if text != "" {
      var n := LineLength(text);
      ZonesFromLength(NextFence(fence, text[..n]), text[n..]);
      assert LinesKept(text)[1..] == LinesKept(text[n..]);
    }
  }

  /** One zone per character. */
  lemma OneZonePerCharacter(text: string)
    ensures |Zones(text)| == |text|
  {
    ZonesFromLength(Outside, text);
  }

  lemma {:induction false} ZonesOfConcatenation(fence: Fence, xs: seq<string>, ys: seq<string>)
    ensures ZonesOfLines(fence, xs + ys) == ZonesOfLines(fence, xs) + ZonesOfLines(FenceAfterLines(fence, xs), ys)
    ensures FenceAfterLines(fence, xs + ys) == FenceAfterLines(FenceAfterLines(fence, xs), ys)
    decreases |xs|
  {
    hide LineZones, NextFence;
    if xs == [] {
      assert xs + ys == ys;
    } else {
      assert (xs + ys)[1..] == xs[1..] + ys;
      ZonesOfConcatenation(NextFence(fence, xs[0]), xs[1..], ys);
    }
  }

  /** At a line boundary the text before matters only through the fence it leaves open. */
  lemma ZonesSplit(a: string, b: string)
    requires LineBoundary(a, b)
    ensures Zones(a + b) == Zones(a) + ZonesOfLines(FenceAfter(a), LinesKept(b))
    ensures FenceAfter(a + b) == FenceAfterLines(FenceAfter(a), LinesKept(b))
  {
    LinesKeptSplit(a, b);
    ZonesOfConcatenation(Outside, LinesKept(a), LinesKept(b));
  }

  /** Outside a fence the zone map is local. */
  lemma ZonesAreLocal(a: string, b: string)
    requires LineBoundary(a, b) && FenceAfter(a) == Outside
    ensures Zones(a + b) == Zones(a) + Zones(b)
  {
    ZonesSplit(a, b);
  }

  // ----- what a code span is

  /** A code span of `line`: equal runs of backticks at both ends and none that long in between. */
  predicate CodeSpan(line: string, start: nat, end: nat, width: nat) {
    && 0 < width && start + 2 * width <= end <= |line|
    && TicksAt(line, start, width) && TicksAt(line, end - width, width) && line[start + width] != '`'
    && forall k | start + width <= k < end - width :: !TicksAt(line, k, width)
  }

  /** A run of backticks that nothing later on the line can close. */
  predicate UnclosedRun(line: string, start: nat, width: nat) {
    && 0 < width && TicksAt(line, start, width)
    && (start + width < |line| ==> line[start + width] != '`')
    && forall k | start + width <= k < |line| :: !TicksAt(line, k, width)
  }

  lemma PlainStep(line: string, index: nat)
    requires index < |line| && line[index] != '`'
    ensures InlineZones(line, index) == [Prose] + InlineZones(line, index + 1)
  {
  }

  lemma TickStep(line: string, index: nat)
    requires index < |line| && line[index] == '`'
    ensures InlineZones(line, index) ==
      Repeat(if Close(line, index) == |line| then Prose else InlineCode, SpanEnd(line, index) - index) + InlineZones(line, SpanEnd(line, index))
  {
    hide Run, FindTicks, TicksAt, Repeat, Width, Close, SpanEnd;
  }

  lemma TickFacts(line: string, index: nat)
    requires index < |line| && line[index] == '`'
    ensures var width, close := Width(line, index), Close(line, index);
      && TicksAt(line, index, width) && (index + width < |line| ==> line[index + width] != '`')
      && (forall k | index + width <= k < close :: !TicksAt(line, k, width))
      && (close < |line| ==> CodeSpan(line, index, close + width, width))
      && (close == |line| ==> UnclosedRun(line, index, width))
  {
    hide Run, FindTicks;
    TicksAreARun(line, index);
  }

  lemma TicksAreARun(line: string, index: nat)
    requires index < |line| && line[index] == '`'
    ensures var width := Run(line[index..], '`');
      && 0 < width && TicksAt(line, index, width)
      && (index + width < |line| ==> line[index + width] != '`')
  {
    var width := Run(line[index..], '`');
    forall k | index <= k < index + width ensures line[k] == '`' {
      assert line[index..][k - index] == line[k];
    }
    assert index + width < |line| ==> line[index..][width] == line[index + width];
  }

  /** A character is inline code just when it lies in a code span that the scan reached. */
  lemma {:induction false} InlineCodeIsASpan(line: string, index: nat, k: nat)
    requires index <= k < |line| && InlineZones(line, index)[k - index] == InlineCode
    ensures exists start, end, width :: index <= start <= k < end && CodeSpan(line, start, end, width)
    decreases |line| - index
  {
    hide *;
    if line[index] != '`' {
      PlainStep(line, index);
      InlineCodeIsASpan(line, index + 1, k);
    } else {
      TickStep(line, index);
      TickFacts(line, index);
      var end := SpanEnd(line, index);
      if k < end {
        SpanEndIs(line, index);
        assert CodeSpan(line, index, end, Width(line, index));
      } else {
        InlineCodeIsASpan(line, end, k);
      }
    }
  }

  lemma SpanEndIs(line: string, index: nat)
    requires index < |line| && line[index] == '`'
    ensures SpanEnd(line, index) == if Close(line, index) == |line| then index + Width(line, index) else Close(line, index) + Width(line, index)
  {
  }

  /** A backtick left as prose belongs to a run that cannot be closed. */
  lemma {:induction false} ProseTicksAreUnclosed(line: string, index: nat, k: nat)
    requires index <= k < |line| && line[k] == '`' && InlineZones(line, index)[k - index] == Prose
    ensures exists start, width :: index <= start <= k < start + width && UnclosedRun(line, start, width)
    decreases |line| - index
  {
    hide *;
    if line[index] != '`' {
      PlainStep(line, index);
      ProseTicksAreUnclosed(line, index + 1, k);
    } else {
      TickStep(line, index);
      TickFacts(line, index);
      SpanEndIs(line, index);
      var end := SpanEnd(line, index);
      if k < end {
        assert UnclosedRun(line, index, Width(line, index));
      } else {
        ProseTicksAreUnclosed(line, end, k);
      }
    }
  }

  // ----- which lines are fenced, and which are quoted

  /** Spaces and tabs up to `i`. */
  predicate Indented(line: string, i: nat) {
    i <= |line| && forall k | 0 <= k < i :: line[k] == ' ' || line[k] == '\t'
  }

  /** After the indentation, `width` marks and then no further one: a fence marker when there are three or more. */
  predicate MarksAt(line: string, i: nat, mark: char, width: nat) {
    && Indented(line, i) && i + width <= |line|
    && (forall k | i <= k < i + width :: line[k] == mark) && (i + width < |line| ==> line[i + width] != mark)
  }

  lemma {:induction false} UnindentedIs(line: string)
    ensures var i := |line| - |Unindented(line)|;
      && 0 <= i && Indented(line, i) && Unindented(line) == line[i..] && (i < |line| ==> line[i] != ' ' && line[i] != '\t')
  {
    if line != "" && (line[0] == ' ' || line[0] == '\t') {
      UnindentedIs(line[1..]);
      var i := |line| - |Unindented(line)|;
      assert line[1..][i - 1..] == line[i..];
      assert forall k | 1 <= k < i :: line[k] == line[1..][k - 1];
    } else {
      assert line[0..] == line;
    }
  }

  lemma {:induction false} SameRun(s: string, mark: char, width: nat)
    requires width <= |s| && (forall k | 0 <= k < width :: s[k] == mark) && (width < |s| ==> s[width] != mark)
    ensures Run(s, mark) == width
  {
    if width > 0 {
      assert forall k | 0 <= k < width - 1 :: s[1..][k] == s[k + 1];
      SameRun(s[1..], mark, width - 1);
    }
  }

  /** A line is a fence marker exactly when three or more backticks, or tildes, are the first thing on it. */
  lemma MarkerExactly(line: string, mark: char, width: nat)
    ensures MarkerOf(line) == Fenced(mark, width) <==>
      (mark == '`' || mark == '~') && width >= 3 && exists i: nat :: MarksAt(line, i, mark, width)
  {
    UnindentedIs(line);
    var s := Unindented(line);
    var at := |line| - |s|;
    if MarkerOf(line) == Fenced(mark, width) {
      assert forall k | at <= k < at + width :: line[k] == s[k - at];
      assert MarksAt(line, at, mark, width);
    }
    if i: nat :| (mark == '`' || mark == '~') && width >= 3 && MarksAt(line, i, mark, width) {
      assert line[i] == mark;
      assert i == at;
      SameRun(s, mark, width);
      OtherRun(s, if mark == '`' then '~' else '`');
    }
  }

  lemma OtherRun(s: string, mark: char)
    requires s != "" && s[0] != mark
    ensures Run(s, mark) == 0
  {}

  /** Line `i` opens a fence that no line before the n-th closes: none has as many or more of the same mark. */
  predicate OpensAt(lines: seq<string>, i: nat, n: nat, mark: char, width: nat)
    requires i < n <= |lines|
  {
    && FenceAfterLines(Outside, lines[..i]) == Outside && MarkerOf(lines[i]) == Fenced(mark, width)
    && forall j | i < j < n :: !(MarkerOf(lines[j]).Fenced? && MarkerOf(lines[j]).mark == mark && MarkerOf(lines[j]).width >= width)
  }

  lemma FenceAfterSnoc(lines: seq<string>, last: string)
    ensures FenceAfterLines(Outside, lines + [last]) == NextFence(FenceAfterLines(Outside, lines), last)
  {
    hide NextFence;
    ZonesOfConcatenation(Outside, lines, [last]);
    assert [last][1..] == [];
  }

  /** A fence is in force exactly from a marker that found none to the next marker that closes it. */
  lemma {:induction false} FenceExactly(lines: seq<string>, n: nat, mark: char, width: nat)
    requires n <= |lines|
    ensures FenceAfterLines(Outside, lines[..n]) == Fenced(mark, width) <==> exists i :: 0 <= i < n && OpensAt(lines, i, n, mark, width)
  {
    hide MarkerOf, FenceAfterLines;
    if n == 0 {
      NoLinesNoFence();
      assert lines[..0] == [];
    } else {
      FenceExactly(lines, n - 1, mark, width);
      assert lines[..n] == lines[..n - 1] + [lines[n - 1]];
      FenceAfterSnoc(lines[..n - 1], lines[n - 1]);
      if FenceAfterLines(Outside, lines[..n]) == Fenced(mark, width) {
        if FenceAfterLines(Outside, lines[..n - 1]) == Outside {
          assert OpensAt(lines, n - 1, n, mark, width);
        } else {
          var i :| 0 <= i < n - 1 && OpensAt(lines, i, n - 1, mark, width);
          assert OpensAt(lines, i, n, mark, width);
        }
      }
      if i :| 0 <= i < n && OpensAt(lines, i, n, mark, width) {
        if i < n - 1 {
          assert OpensAt(lines, i, n - 1, mark, width);
        }
      }
    }
  }

  lemma NoLinesNoFence()
    ensures FenceAfterLines(Outside, []) == Outside
  {}

  /** A marker itself, or after a marker that nothing has closed. */
  predicate InFence(lines: seq<string>, n: nat)
    requires n < |lines|
  {
    || MarkerOf(lines[n]).Fenced?
    || exists i | 0 <= i < n :: MarkerOf(lines[i]).Fenced? && OpensAt(lines, i, n, MarkerOf(lines[i]).mark, MarkerOf(lines[i]).width)
  }

  /** The first thing on the line is a '>'. */
  predicate IsQuote(line: string) {
    exists i | 0 <= i < |line| :: line[i] == '>' && Indented(line, i)
  }

  function Offset(lines: seq<string>, n: nat): nat
    requires n <= |lines|
  {
    if n == 0 then 0 else Offset(lines, n - 1) + |lines[n - 1]|
  }

  lemma {:induction false} ZonesBefore(lines: seq<string>, n: nat)
    requires n <= |lines|
    ensures |ZonesOfLines(Outside, lines[..n])| == Offset(lines, n)
  {
    hide LineZones, NextFence;
    if n > 0 {
      ZonesBefore(lines, n - 1);
      assert lines[..n] == lines[..n - 1] + [lines[n - 1]];
      ZonesOfConcatenation(Outside, lines[..n - 1], [lines[n - 1]]);
      OneLineZones(FenceAfterLines(Outside, lines[..n - 1]), lines[n - 1]);
    } else {
      assert lines[..0] == [];
    }
  }

  lemma OneLineZones(fence: Fence, line: string)
    ensures ZonesOfLines(fence, [line]) == LineZones(fence, line)
  {
    hide LineZones, NextFence;
    assert [line][1..] == [];
    assert ZonesOfLines(fence, [line]) == LineZones(fence, line) + ZonesOfLines(NextFence(fence, line), []);
  }

  lemma QuoteIs(line: string)
    ensures ">" <= Unindented(line) <==> IsQuote(line)
  {
    UnindentedIs(line);
    var at := |line| - |Unindented(line)|;
    if ">" <= Unindented(line) {
      assert line[at] == Unindented(line)[0];
    }
    if i :| 0 <= i < |line| && line[i] == '>' && Indented(line, i) {
      assert i == at;
    }
  }

  lemma LineZoneIs(fence: Fence, line: string, k: nat)
    requires k < |line|
    ensures var z := LineZones(fence, line)[k];
      && (z == FencedCode <==> fence.Fenced? || MarkerOf(line).Fenced?)
      && (z == Blockquote <==> fence == Outside && MarkerOf(line) == Outside && IsQuote(line))
      && (fence == Outside && MarkerOf(line) == Outside && !IsQuote(line) ==> z == InlineZones(line, 0)[k])
  {
    hide MarkerOf, InlineZones, IsQuote;
    QuoteIs(line);
    InlineIsTrusted(line, 0, k);
  }

  lemma {:induction false} InlineIsTrusted(line: string, index: nat, k: nat)
    requires index <= k < |line|
    ensures InlineZones(line, index)[k - index] in {Prose, InlineCode}
    decreases |line| - index
  {
    hide InlineZones, SpanEnd, Close, Width;
    if line[index] != '`' {
      PlainStep(line, index);
      if k > index {
        InlineIsTrusted(line, index + 1, k);
      }
    } else {
      TickStep(line, index);
      if k >= SpanEnd(line, index) {
        InlineIsTrusted(line, SpanEnd(line, index), k);
      }
    }
  }

  /**
   The zone of any character of a text: fenced code exactly on fence markers and between them, blockquote exactly on
   other lines that start with '>', and otherwise what the backticks of its line make of it.
   */
  lemma ZoneExactly(text: string, n: nat, k: nat)
    requires n < |LinesKept(text)| && k < |LinesKept(text)[n]|
    ensures var lines := LinesKept(text);
      && Offset(lines, n) + k < |Zones(text)|
      && var z := Zones(text)[Offset(lines, n) + k];
        && (z == FencedCode <==> InFence(lines, n))
        && (z == Blockquote <==> !InFence(lines, n) && IsQuote(lines[n]))
        && (!InFence(lines, n) && !IsQuote(lines[n]) ==> z == InlineZones(lines[n], 0)[k])
  {
    hide LineZones, InlineZones, MarkerOf, IsQuote, FenceAfterLines, ZonesOfLines, LinesKept, NextFence, OpensAt;
    var lines := LinesKept(text);
    var fence := FenceAfterLines(Outside, lines[..n]);
    assert lines == lines[..n] + ([lines[n]] + lines[n + 1..]);
    ZonesOfConcatenation(Outside, lines[..n], [lines[n]] + lines[n + 1..]);
    ZonesOfConcatenation(fence, [lines[n]], lines[n + 1..]);
    OneLineZones(fence, lines[n]);
    ZonesBefore(lines, n);
    LineZoneIs(fence, lines[n], k);
    FenceOpens(lines, n);
  }

  lemma FenceOpens(lines: seq<string>, n: nat)
    requires n < |lines|
    ensures InFence(lines, n) <==> MarkerOf(lines[n]).Fenced? || FenceAfterLines(Outside, lines[..n]).Fenced?
  {
    hide MarkerOf, FenceAfterLines;
    var fence := FenceAfterLines(Outside, lines[..n]);
    if fence.Fenced? {
      FenceExactly(lines, n, fence.mark, fence.width);
    }
    if i :| 0 <= i < n && MarkerOf(lines[i]).Fenced? && OpensAt(lines, i, n, MarkerOf(lines[i]).mark, MarkerOf(lines[i]).width) {
      FenceExactly(lines, n, MarkerOf(lines[i]).mark, MarkerOf(lines[i]).width);
    }
  }

  // ----- the zone array

  method Fill(zones: array<Zone>, from: nat, to: nat, z: Zone)
    requires from <= to <= zones.Length
    modifies zones
    ensures forall k | 0 <= k < zones.Length :: zones[k] == if from <= k < to then z else old(zones[k])
  {
    for i := from to to
      invariant forall k | 0 <= k < zones.Length :: zones[k] == if from <= k < i then z else old(zones[k])
    {
      zones[i] := z;
    }
  }

  /** The zones of a line from an index on are the tail of the zones found so far. */
  predicate Scanned(line: string, index: nat)
    requires index <= |line|
  {
    InlineZones(line, index) == InlineZones(line, 0)[index..]
  }

  lemma ScanStep(line: string, index: nat)
    requires index < |line| && Scanned(line, index)
    ensures line[index] != '`' ==> InlineZones(line, 0)[index] == Prose && Scanned(line, index + 1)
    ensures line[index] == '`' ==>
      && Scanned(line, SpanEnd(line, index))
      && forall k | index <= k < SpanEnd(line, index) ::
           InlineZones(line, 0)[k] == if Close(line, index) == |line| then Prose else InlineCode
  {
    hide InlineZones, Run, Repeat, Width, Close, SpanEnd;
    var all := InlineZones(line, 0);
    if line[index] != '`' {
      PlainStep(line, index);
      assert all[index..][1..] == all[index + 1..];
      assert all[index] == all[index..][0];
    } else {
      TickStep(line, index);
      var end := SpanEnd(line, index);
      assert all[index..][end - index..] == all[end..];
      forall k | index <= k < end ensures all[k] == if Close(line, index) == |line| then Prose else InlineCode {
        assert all[k] == all[index..][k - index];
      }
    }
  }

  /** Mark the inline code of one line that starts at `offset`; its zones are prose before. */
  method MarkInline(zones: array<Zone>, offset: nat, line: string)
    requires offset + |line| <= zones.Length
    requires forall k | offset <= k < offset + |line| :: zones[k] == Prose
    modifies zones
    ensures forall k | 0 <= k < zones.Length ::
              zones[k] == if offset <= k < offset + |line| then InlineZones(line, 0)[k - offset] else old(zones[k])
  {
    hide Run, InlineZones;
    var index := 0;
    assert Scanned(line, 0);
    while index < |line|
      invariant index <= |line| && Scanned(line, index)
      invariant forall k | 0 <= k < zones.Length ::
                  zones[k] == if offset <= k < offset + index then InlineZones(line, 0)[k - offset] else old(zones[k])
      decreases |line| - index
    {
      ScanStep(line, index);
      if line[index] != '`' {
        index := index + 1;
      } else {
        TicksAreARun(line, index);
        var width := Run(line[index..], '`');
        var close := FindTicks(line, width, index + width);
        if close == |line| {
          index := index + width;
        } else {
          Fill(zones, offset + index, offset + close + width, InlineCode);
          index := close + width;
        }
      }
    }
  }

  method MarkLine(zones: array<Zone>, offset: nat, line: string, fence: Fence)
    requires offset + |line| <= zones.Length
    requires forall k | offset <= k < offset + |line| :: zones[k] == Prose
    modifies zones
    ensures forall k | 0 <= k < zones.Length ::
              zones[k] == if offset <= k < offset + |line| then LineZones(fence, line)[k - offset] else old(zones[k])
  {
    hide MarkerOf, Unindented, InlineZones;
    if fence.Fenced? || MarkerOf(line).Fenced? {
      Fill(zones, offset, offset + |line|, FencedCode);
    } else if ">" <= Unindented(line) {
      Fill(zones, offset, offset + |line|, Blockquote);
    } else {
      MarkInline(zones, offset, line);
    }
  }

  /** What is left to mark, at the start of a line: the zones from `offset` on and the text from there. */
  ghost predicate Remaining(text: string, offset: nat, fence: Fence, lines: seq<string>) {
    && offset <= |text| && |Zones(text)| == |text|
    && LinesKept(text[offset..]) == lines
    && ZonesOfLines(fence, lines) == Zones(text)[offset..]
  }

  lemma RemainingStep(text: string, offset: nat, fence: Fence, lines: seq<string>)
    requires lines != [] && Remaining(text, offset, fence, lines)
    ensures var line := lines[0];
      && offset + |line| <= |text|
      && Remaining(text, offset + |line|, NextFence(fence, line), lines[1..])
      && Zones(text)[offset..offset + |line|] == LineZones(fence, line)
  {
    hide LinesKept, LineZones, NextFence, Zones;
    var line := lines[0];
    var all := Zones(text);
    FirstLineKept(text[offset..]);
    DropDrop(text, offset, |line|);
    DropDrop(all, offset, |line|);
    assert all[offset..][..|line|] == all[offset..offset + |line|];
    assert all[offset..] == LineZones(fence, line) + ZonesOfLines(NextFence(fence, line), lines[1..]);
  }

  method ZoneMap(text: string) returns (zones: array<Zone>)
    ensures fresh(zones) && zones[..] == Zones(text)
  {
    hide *;
    zones := new Zone[|text|](i => Prose);
    var lines := LinesKept(text);
    var offset, fence := 0, Outside;
    RemainingAtStart(text);
    while lines != []
      invariant 0 <= offset <= |text| && Remaining(text, offset, fence, lines)
      invariant zones[..offset] == Zones(text)[..offset]
      invariant forall k | offset <= k < |text| :: zones[k] == Prose
      decreases |lines|
    {
      var line := lines[0];
      ghost var all := Zones(text);
      RemainingStep(text, offset, fence, lines);
      ghost var before := zones[..offset];
      MarkLine(zones, offset, line, fence);
      assert zones[..offset] == before;
      assert zones[offset..offset + |line|] == LineZones(fence, line);
      assert zones[..offset + |line|] == zones[..offset] + zones[offset..offset + |line|];
      assert all[..offset + |line|] == all[..offset] + all[offset..offset + |line|];
      fence, offset, lines := NextFence(fence, line), offset + |line|, lines[1..];
    }
    RemainingAtEnd(text, offset, fence);
    assert zones[..] == zones[..offset];
  }

  lemma RemainingAtStart(text: string)
    ensures Remaining(text, 0, Outside, LinesKept(text)) && |Zones(text)| == |text|
  {
    OneZonePerCharacter(text);
    assert text[0..] == text;
  }

  lemma RemainingAtEnd(text: string, offset: nat, fence: Fence)
    requires Remaining(text, offset, fence, [])
    ensures offset == |text| && Zones(text)[..offset] == Zones(text)
  {
    FirstLineKept(text[offset..]);
  }

  // ----- quoted evidence

  predicate OccursAt(content: string, quote: string, i: nat) {
    i + |quote| <= |content| && content[i..i + |quote|] == quote
  }

  /** Start positions of the leftmost non-overlapping occurrences. */
  function Matches(content: string, quote: string, from: nat): seq<nat>
    requires quote != ""
    decreases |content| - from
  {
    if from + |quote| > |content| then []
    else if OccursAt(content, quote, from) then [from] + Matches(content, quote, from + |quote|)
    else Matches(content, quote, from + 1)
  }

  datatype Evidence = Located(start: nat, end: nat, zone: Zone) | EmptyEvidence | EvidenceNotFound | AmbiguousEvidence

  /** The zone of a span: its one zone, or the least trusted when it crosses zones. */
  function SpanZone(zones: seq<Zone>): Zone
    requires zones != []
  {
    if forall k | 0 <= k < |zones| :: zones[k] == zones[0] then zones[0] else FencedCode
  }

  function LocateEvidence(content: string, quote: string): Evidence {
    if quote == "" then EmptyEvidence
    else
      var matches := Matches(content, quote, 0);
      if matches == [] then EvidenceNotFound
      else if |matches| != 1 then AmbiguousEvidence
      else
        MatchesSound(content, quote, 0);
        OneZonePerCharacter(content);
        var start := matches[0];
        assert OccursAt(content, quote, start);
        Located(start, start + |quote|, SpanZone(Zones(content)[start..start + |quote|]))
  }

  /** Occurrences from `from` on, in order, no two sharing a character. */
  predicate Apart(content: string, quote: string, from: nat, m: seq<nat>) {
    && (forall n | 0 <= n < |m| :: from <= m[n] && OccursAt(content, quote, m[n]))
    && (forall n | 0 < n < |m| :: m[n - 1] + |quote| <= m[n])
  }

  lemma {:induction false} MatchesSound(content: string, quote: string, from: nat)
    requires quote != ""
    ensures Apart(content, quote, from, Matches(content, quote, from))
    decreases |content| - from
  {
    if from + |quote| <= |content| {
      if OccursAt(content, quote, from) {
        var tail := Matches(content, quote, from + |quote|);
        MatchesSound(content, quote, from + |quote|);
        assert Matches(content, quote, from) == [from] + tail;
      } else {
        MatchesSound(content, quote, from + 1);
      }
    }
  }

  /** The first match is the first occurrence, so no occurrence is missed. */
  lemma {:induction false} MatchesComplete(content: string, quote: string, from: nat, i: nat)
    requires quote != "" && from <= i && OccursAt(content, quote, i)
    ensures var m := Matches(content, quote, from); m != [] && m[0] <= i
    decreases |content| - from
  {
    if !OccursAt(content, quote, from) {
      MatchesComplete(content, quote, from + 1, i);
    }
  }

  lemma MatchesTail(content: string, quote: string, from: nat)
    requires quote != "" && Matches(content, quote, from) != []
    ensures var m := Matches(content, quote, from); m[1..] == Matches(content, quote, m[0] + |quote|)
    decreases |content| - from
  {
    if !OccursAt(content, quote, from) {
      MatchesTail(content, quote, from + 1);
    }
  }

  ghost predicate Occurs(content: string, quote: string) {
    exists i: nat :: OccursAt(content, quote, i)
  }

  /** Two occurrences that share no character. */
  ghost predicate OccursTwice(content: string, quote: string) {
    exists i: nat, j: nat :: i + |quote| <= j && OccursAt(content, quote, i) && OccursAt(content, quote, j)
  }

  lemma OutcomeByMatches(content: string, quote: string)
    requires quote != ""
    ensures var n := |Matches(content, quote, 0)|;
      && !LocateEvidence(content, quote).EmptyEvidence?
      && (LocateEvidence(content, quote).EvidenceNotFound? <==> n == 0)
      && (LocateEvidence(content, quote).AmbiguousEvidence? <==> n > 1)
  {
    hide Matches, SpanZone, Zones, OccursAt, Apart;
  }

  lemma SeveralMatches(content: string, quote: string, i: nat, j: nat)
    requires quote != "" && i + |quote| <= j && OccursAt(content, quote, i) && OccursAt(content, quote, j)
    ensures |Matches(content, quote, 0)| > 1
  {
    hide OccursAt, Matches;
    MatchesComplete(content, quote, 0, i);
    MatchesTail(content, quote, 0);
    var m := Matches(content, quote, 0);
    MatchesComplete(content, quote, m[0] + |quote|, j);
  }

  /** Exactly when each outcome is reported. */
  lemma LocateOutcome(content: string, quote: string)
    ensures LocateEvidence(content, quote).EmptyEvidence? <==> quote == ""
    ensures LocateEvidence(content, quote).EvidenceNotFound? <==> quote != "" && !Occurs(content, quote)
    ensures LocateEvidence(content, quote).AmbiguousEvidence? <==> quote != "" && OccursTwice(content, quote)
  {
    hide SpanZone, Zones, Matches, OccursAt, LocateEvidence;
    if quote == "" {
      EmptyQuote(content);
    } else {
      OutcomeByMatches(content, quote);
      var m := Matches(content, quote, 0);
      MatchesSound(content, quote, 0);
      if m != [] {
        assert OccursAt(content, quote, m[0]);
      }
      if Occurs(content, quote) {
        var i: nat :| OccursAt(content, quote, i);
        MatchesComplete(content, quote, 0, i);
      }
      if OccursTwice(content, quote) {
        var i: nat, j: nat :| i + |quote| <= j && OccursAt(content, quote, i) && OccursAt(content, quote, j);
        SeveralMatches(content, quote, i, j);
      }
      if |m| > 1 {
        assert OccursAt(content, quote, m[0]) && OccursAt(content, quote, m[1]) && m[1 - 1] + |quote| <= m[1];
      }
    }
  }

  lemma EmptyQuote(content: string)
    ensures LocateEvidence(content, "") == EmptyEvidence
  {
  }

  /** A located quote is the exact text of its span, and nothing of it repeats outside the span. */
  lemma LocatedSpan(content: string, quote: string)
    requires LocateEvidence(content, quote).Located?
    ensures var e := LocateEvidence(content, quote);
      && e.start < e.end <= |content| && content[e.start..e.end] == quote
      && (forall j: nat | OccursAt(content, quote, j) && j != e.start :: e.start < j < e.end)
  {
    hide SpanZone, Zones;
    var e := LocateEvidence(content, quote);
    MatchesSound(content, quote, 0);
    MatchesTail(content, quote, 0);
    forall j: nat | OccursAt(content, quote, j) && j != e.start
      ensures e.start < j < e.end
    {
      MatchesComplete(content, quote, 0, j);
      if j >= e.end {
        MatchesComplete(content, quote, e.end, j);
      }
    }
  }

  predicate AllIn(content: string, start: nat, end: nat, z: Zone) {
    end <= |Zones(content)| && forall k | start <= k < end :: Zones(content)[k] == z
  }

  /** A span is reported in a zone other than fenced code just when all its characters are in that zone. */
  lemma LocatedZone(content: string, quote: string)
    requires LocateEvidence(content, quote).Located?
    ensures var e := LocateEvidence(content, quote);
      && e.end <= |Zones(content)|
      && (e.zone == Prose <==> AllIn(content, e.start, e.end, Prose))
      && (e.zone == Blockquote <==> AllIn(content, e.start, e.end, Blockquote))
      && (e.zone == InlineCode <==> AllIn(content, e.start, e.end, InlineCode))
  {
    hide Zones, Matches;
    var e := LocateEvidence(content, quote);
    OneZonePerCharacter(content);
    LocatedSpan(content, quote);
    var zones := Zones(content);
    var span := zones[e.start..e.end];
    assert e.zone == SpanZone(span);
    forall k | e.start <= k < e.end ensures zones[k] == span[k - e.start] {}
    forall k | 0 <= k < |span| ensures zones[e.start + k] == span[k] {}
  }

  // ----- initial status of a candidate

  datatype Proposed = Proposed(memoryType: string, content: string, quote: string, confidence: real)

  datatype Verdict = NoVerdict | Holds | Rejected(reason: string)

  datatype Status = Auto | Quarantined

  datatype Rule = UntrustedZone(zone: Zone) | VerifierRejected(reason: string) | BelowThreshold | ExactProse

  datatype Validated =
    | Valid(candidate: Proposed, start: nat, end: nat, zone: Zone, status: Status, rule: Rule)
    | Invalid(why: Evidence)

  function ValidateCandidate(c: Proposed, content: string, threshold: real, verdict: Verdict): Validated {
    var e := LocateEvidence(content, c.quote);
    if !e.Located? then Invalid(e)
    else
      var (status, rule) :=
        if e.zone != Prose then (Quarantined, UntrustedZone(e.zone))
        else if verdict.Rejected? then (Quarantined, VerifierRejected(verdict.reason))
        else if c.confidence < threshold then (Quarantined, BelowThreshold)
        else (Auto, ExactProse);
      Valid(c, e.start, e.end, e.zone, status, rule)
  }

  /** The rule names the first reason that applies: the zone, then the verifier, then the confidence. */
  lemma RuleExactly(c: Proposed, content: string, threshold: real, verdict: Verdict)
    ensures var v, e := ValidateCandidate(c, content, threshold, verdict), LocateEvidence(content, c.quote);
      && (v.Valid? <==> e.Located?) && (v.Invalid? ==> v.why == e)
      && (v.Valid? ==>
            && v.candidate == c && v.start == e.start && v.end == e.end && v.zone == e.zone
            && (v.status == Auto <==> v.rule == ExactProse)
            && (forall z :: v.rule == UntrustedZone(z) <==> z == e.zone != Prose)
            && (forall reason :: v.rule == VerifierRejected(reason) <==> e.zone == Prose && verdict == Rejected(reason))
            && (v.rule == BelowThreshold <==> e.zone == Prose && !verdict.Rejected? && c.confidence < threshold))
  {
    hide LocateEvidence;
  }

  /** The quote's first occurrence is at `i`. */
  predicate FirstAt(content: string, quote: string, i: nat) {
    OccursAt(content, quote, i) && forall j: nat | j < i :: !OccursAt(content, quote, j)
  }

  /** A candidate is trusted without review just when its quote is found once, is prose, is not rejected and is confident. */
  lemma AutoIsUnambiguousProse(c: Proposed, content: string, threshold: real, verdict: Verdict)
    ensures var v := ValidateCandidate(c, content, threshold, verdict);
      (v.Valid? && v.status == Auto) <==>
      && c.quote != "" && !OccursTwice(content, c.quote)
      && (exists i: nat :: FirstAt(content, c.quote, i) && AllIn(content, i, i + |c.quote|, Prose))
      && !verdict.Rejected? && c.confidence >= threshold
  {
    hide Zones, LocateEvidence, AllIn, SpanZone;
    var e := LocateEvidence(content, c.quote);
    LocateOutcome(content, c.quote);
    if e.Located? {
      LocatedSpan(content, c.quote);
      LocatedZone(content, c.quote);
      LocatedIsFirst(content, c.quote);
    }
  }

  lemma LocatedIsFirst(content: string, quote: string)
    requires LocateEvidence(content, quote).Located?
    ensures var e := LocateEvidence(content, quote);
      e.end == e.start + |quote| && FirstAt(content, quote, e.start) && forall i: nat | FirstAt(content, quote, i) :: i == e.start
  {
    LocatedSpan(content, quote);
  }
}
