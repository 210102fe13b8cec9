/**
 Reduced views of command output, line by line: context around salient lines, the run-length collapse of
 repeated lines with its inverse, the head/tail cut, and the final check that protected lines are there.
 */
module Views {
  import opened Basics
  import opened Text
  import Decimal

  type Test = string -> bool

  // ----- lines near a salient line

  /** Index `i` is within the radius of a salient line before `upTo`. */
  predicate Near(lines: seq<string>, salient: Test, radius: nat, upTo: nat, i: int) {
    exists j :: 0 <= j < |lines| && j < upTo && j - radius <= i <= j + radius && salient(lines[j])
  }

  function NearSet(lines: seq<string>, salient: Test, radius: nat, upTo: nat): set<int> {
    set i | 0 <= i < |lines| && Near(lines, salient, radius, upTo, i)
  }

  lemma NearNext(lines: seq<string>, salient: Test, radius: nat, n: nat)
    requires n < |lines|
    ensures NearSet(lines, salient, radius, n + 1) ==
      NearSet(lines, salient, radius, n)
      + if salient(lines[n]) then Range(Max(0, n - radius), Min(|lines|, n + radius + 1)) else {}
  {
    forall i | 0 <= i < |lines|
      ensures Near(lines, salient, radius, n + 1, i) <==>
        Near(lines, salient, radius, n, i) || (salient(lines[n]) && n - radius <= i <= n + radius)
    {
      if Near(lines, salient, radius, n, i) {
        var j :| 0 <= j < |lines| && j < n && j - radius <= i <= j + radius && salient(lines[j]);
        assert Near(lines, salient, radius, n + 1, i);
      }
    }
  }

  /** The lines no further than the radius from a salient line. */
  lemma NearExactly(lines: seq<string>, salient: Test, radius: nat, i: int)
    ensures i in NearSet(lines, salient, radius, |lines|) <==>
      0 <= i < |lines| && exists j :: 0 <= j < |lines| && salient(lines[j]) && i - j <= radius && j - i <= radius
  {
    if 0 <= i < |lines| && Near(lines, salient, radius, |lines|, i) {
      var j :| 0 <= j < |lines| && j < |lines| && j - radius <= i <= j + radius && salient(lines[j]);
    }
    if j :| 0 <= i < |lines| && 0 <= j < |lines| && salient(lines[j]) && i - j <= radius && j - i <= radius {
      assert j - radius <= i <= j + radius;
      assert Near(lines, salient, radius, |lines|, i);
    }
  }

  method SelectedWithContext(lines: seq<string>, salient: Test, radius: nat) returns (kept: seq<string>)
    ensures kept == Picked(lines, NearSet(lines, salient, radius, |lines|))
  {
    var selected: set<int> := {};
    for n := 0 to |lines|
      invariant selected == NearSet(lines, salient, radius, n)
    {
      NearNext(lines, salient, radius, n);
      if salient(lines[n]) {
        selected := selected + Range(Max(0, n - radius), Min(|lines|, n + radius + 1));
      }
    }
    kept := [];
    for n := 0 to |lines|
      invariant kept == Picked(lines[..n], selected)
    {
      assert lines[..n + 1][..n] == lines[..n];
      if n in selected {
        kept := kept + [lines[n]];
      }
    }
    assert lines[..|lines|] == lines;
  }

  // ----- repeated lines

  const BEFORE := "[previous line repeated "
  const AFTER := " more times]"

  function Marker(count: nat): string {
    BEFORE + Decimal.Of(count) + AFTER
  }

  lemma MarkerWords(count: nat)
    ensures Marker(count) == "[previous line repeated " + Decimal.Of(count) + " more times]"
  {
  }

  predicate IsMarker(line: string) {
    |line| > |BEFORE| + |AFTER| && BEFORE <= line && line[|line| - |AFTER|..] == AFTER
    && var middle := line[|BEFORE|..|line| - |AFTER|];
       Decimal.IsNumber(middle) && Decimal.Value(middle) > 0
  }

  function CountOf(line: string): (n: nat)
    requires IsMarker(line)
    ensures n > 0
  {
    Decimal.Value(line[|BEFORE|..|line| - |AFTER|])
  }

  lemma MarkerReads(count: nat)
    requires count > 0
    ensures IsMarker(Marker(count)) && CountOf(Marker(count)) == count
  {
    Decimal.ValueOf(count);
    var line := Marker(count);
    assert line[|BEFORE|..|line| - |AFTER|] == Decimal.Of(count);
    assert line[|line| - |AFTER|..] == AFTER;
  }

  datatype Scan = Scan(kept: seq<string>, previous: Option<string>, repeats: nat, collapsed: nat)

  /** The marker for the repeats seen so far, when there are any. */
  function Flushed(s: Scan): seq<string> {
    if s.repeats > 0 && s.kept != [] then s.kept + [Marker(s.repeats)] else s.kept
  }

  function See(s: Scan, line: string): Scan {
    if s.previous == Some(line) then s.(repeats := s.repeats + 1, collapsed := s.collapsed + 1)
    else s.(kept := Flushed(s) + [line], previous := Some(line), repeats := 0)
  }

  function Scanned(lines: seq<string>): Scan {
    if lines == [] then Scan([], None, 0, 0) else See(Scanned(lines[..|lines| - 1]), lines[|lines| - 1])
  }

  function Collapsed(lines: seq<string>): seq<string> {
    Flushed(Scanned(lines))
  }

  function Repeat(line: string, count: nat): seq<string> {
    seq(count, _ => line)
  }

  /** A marker after a line stands for copies of it. */
  function Expand(kept: seq<string>): seq<string> {
    if kept == [] then []
    else
      var before, last := Expand(kept[..|kept| - 1]), kept[|kept| - 1];
      if IsMarker(last) && before != [] then before + Repeat(before[|before| - 1], CountOf(last)) else before + [last]
  }

  lemma ExpandSnoc(kept: seq<string>, last: string)
    ensures Expand(kept + [last]) ==
      (if IsMarker(last) && Expand(kept) != [] then Expand(kept) + Repeat(Expand(kept)[|Expand(kept)| - 1], CountOf(last))
       else Expand(kept) + [last])
  {
    assert (kept + [last])[..|kept|] == kept;
  }

  /** A line in marker form only ever repeats the line before it. */
  predicate NoFalseMarker(lines: seq<string>) {
    forall i :: 0 < i < |lines| && IsMarker(lines[i]) ==> lines[i] == lines[i - 1]
  }

  /** What the scan has read so far: the kept lines expanded, then the repeats not yet marked. */
  function Read(s: Scan): seq<string> {
    Expand(s.kept) + if s.previous.Some? then Repeat(s.previous.value, s.repeats) else []
  }

  lemma FlushedReads(s: Scan)
    requires s.kept != [] ==> Expand(s.kept) != [] && s.previous == Some(Expand(s.kept)[|Expand(s.kept)| - 1])
    requires s.kept == [] ==> s.previous.None?
    ensures Expand(Flushed(s)) == Read(s)
  {
    hide IsMarker, CountOf, Marker;
    if s.repeats > 0 && s.kept != [] {
      MarkerReads(s.repeats);
      ExpandSnoc(s.kept, Marker(s.repeats));
    }
  }

  ghost predicate Sound(s: Scan, lines: seq<string>) {
    && Read(s) == lines
    && (s.kept == [] <==> lines == [])
    && (lines == [] ==> s.previous.None?)
    && (lines != [] ==> s.previous == Some(lines[|lines| - 1]) && Expand(s.kept) != [] && Expand(s.kept)[|Expand(s.kept)| - 1] == lines[|lines| - 1])
  }

  lemma {:induction false} ScanIsSound(lines: seq<string>)
    requires NoFalseMarker(lines)
    ensures Sound(Scanned(lines), lines)
  {
    hide IsMarker, Expand, Flushed;
    if lines == [] {
      assert Expand([]) == [] by { ExpandNothing(); }
    } else {
      var init, last := lines[..|lines| - 1], lines[|lines| - 1];
      assert lines == init + [last];
      forall i | 0 < i < |init| && IsMarker(init[i]) ensures init[i] == init[i - 1] {
        assert init[i] == lines[i] && init[i - 1] == lines[i - 1];
      }
      ScanIsSound(init);
      SeeIsSound(Scanned(init), init, last);
    }
  }

  lemma ExpandNothing()
    ensures Expand([]) == []
  {
  }

  lemma SeeIsSound(s: Scan, init: seq<string>, last: string)
    requires Sound(s, init) && (init != [] && IsMarker(last) ==> last == init[|init| - 1])
    ensures Sound(See(s, last), init + [last])
  {
    hide IsMarker, Expand;
    if s.previous == Some(last) {
      assert Repeat(last, s.repeats + 1) == Repeat(last, s.repeats) + [last];
    } else {
      hide Flushed;
      FlushedReads(s);
      ExpandSnoc(Flushed(s), last);
      FlushedEmpty(s);
      assert Expand(See(s, last).kept) == init + [last];
    }
  }

  lemma FlushedEmpty(s: Scan)
    ensures Flushed(s) == [] <==> s.kept == []
  {
  }

  lemma {:induction false} ExpandGrows(a: seq<string>, b: seq<string>)
    ensures Expand(a) <= Expand(a + b)
    decreases |b|
  {
    hide IsMarker, CountOf;
    if b == [] {
      assert a + b == a;
    } else {
      var init, last := b[..|b| - 1], b[|b| - 1];
      ExpandGrows(a, init);
      assert a + b == (a + init) + [last];
      ExpandSnoc(a + init, last);
    }
  }

  lemma {:induction false} KeptGrows(lines: seq<string>, n: nat)
    requires n <= |lines|
    ensures Scanned(lines[..n]).kept <= Scanned(lines).kept <= Collapsed(lines)
    decreases |lines|
  {
    hide Marker;
    if n == |lines| {
      assert lines[..n] == lines;
    } else {
      var init := lines[..|lines| - 1];
      assert lines[..n] == init[..n];
      KeptGrows(init, n);
    }
  }

  /** Where a false marker first stands, the expansion puts a copy of the line before it. */
  lemma FalseMarkerShows(lines: seq<string>, i: nat)
    requires 0 < i < |lines| && IsMarker(lines[i]) && lines[i] != lines[i - 1] && NoFalseMarker(lines[..i])
    ensures Expand(Collapsed(lines)) != lines
  {
    hide IsMarker, Expand, Scanned, Flushed, Collapsed;
    var s := Scanned(lines[..i]);
    ScanIsSound(lines[..i]);
    assert lines[..i + 1][..i] == lines[..i];
    ScannedStep(lines, i);
    FlushedReads(s);
    ExpandSnoc(Flushed(s), lines[i]);
    var kept := Scanned(lines[..i + 1]).kept;
    assert Expand(kept) == lines[..i] + Repeat(lines[i - 1], CountOf(lines[i]));
    KeptGrows(lines, i + 1);
    ExpandGrows(kept, Collapsed(lines)[|kept|..]);
    assert kept + Collapsed(lines)[|kept|..] == Collapsed(lines);
    assert Expand(kept)[i] == lines[i - 1];
  }

  lemma ScannedStep(lines: seq<string>, i: nat)
    requires i < |lines|
    ensures Scanned(lines[..i + 1]) == See(Scanned(lines[..i]), lines[i])
  {
    assert lines[..i + 1][..i] == lines[..i];
  }

  /** Expanding the collapsed lines gives the lines back exactly when none of them is a false marker. */
  lemma CollapseIsLosslessExactly(lines: seq<string>)
    ensures Expand(Collapsed(lines)) == lines <==> NoFalseMarker(lines)
  {
    hide IsMarker, Expand, Scanned, Flushed;
    if NoFalseMarker(lines) {
      ScanIsSound(lines);
      FlushedReads(Scanned(lines));
    } else {
      var i := FirstFalseMarker(lines);
      FalseMarkerShows(lines, i);
    }
  }

  lemma {:induction false} FirstFalseMarker(lines: seq<string>) returns (i: nat)
    requires !NoFalseMarker(lines)
    ensures 0 < i < |lines| && IsMarker(lines[i]) && lines[i] != lines[i - 1] && NoFalseMarker(lines[..i])
  {
    hide IsMarker;
    i :| 0 < i < |lines| && IsMarker(lines[i]) && lines[i] != lines[i - 1];
    while !NoFalseMarker(lines[..i])
      invariant 0 < i < |lines| && IsMarker(lines[i]) && lines[i] != lines[i - 1]
      decreases i
    {
      var j :| 0 < j < |lines[..i]| && IsMarker(lines[..i][j]) && lines[..i][j] != lines[..i][j - 1];
      assert lines[..i][j] == lines[j] && lines[..i][j - 1] == lines[j - 1];
      i := j;
    }
  }

  lemma {:induction false} CollapsedLines(lines: seq<string>)
    ensures forall l :: l in lines ==> l in Scanned(lines).kept
    ensures forall l :: l in Scanned(lines).kept ==> l in lines || exists k: nat :: l == Marker(k)
    ensures |Scanned(lines).kept| >= 1 <==> lines != []
    ensures Scanned(lines).previous.Some? ==> Scanned(lines).previous.value in Scanned(lines).kept
  {
    hide Marker;
    if lines != [] {
      var init, last := lines[..|lines| - 1], lines[|lines| - 1];
      assert lines == init + [last];
      CollapsedLines(init);
    }
  }

  // ----- the generic view

  function Cut(lines: seq<string>, head: nat, tail: nat): string
  {
    "[... " + Number(|lines| - head - tail) + " middle lines omitted ...]"
  }

  function Number(n: int): string {
    if n < 0 then "-" + Decimal.Of(-n) else Decimal.Of(n)
  }

  /** The last `tail` lines; with `tail` zero the slice `lines[-0:]` is all of them. */
  function TailOf(lines: seq<string>, tail: nat): seq<string> {
    if tail == 0 || tail >= |lines| then lines else lines[|lines| - tail..]
  }

  /** The note of the cut says how many lines it stands for; the tail is that many of the last lines, or all for zero. */
  lemma CutExactly(lines: seq<string>, head: nat, tail: nat)
    ensures |lines| >= head + tail ==> Cut(lines, head, tail) == "[... " + Decimal.Of(|lines| - head - tail) + " middle lines omitted ...]"
    ensures tail > 0 ==> |TailOf(lines, tail)| == Min(tail, |lines|) && lines[|lines| - |TailOf(lines, tail)|..] == TailOf(lines, tail)
    ensures TailOf(lines, 0) == lines
  {
    assert lines[0..] == lines;
  }

  predicate RepeatAt(lines: seq<string>, i: int)
    requires 0 < i < |lines|
  {
    lines[i] == lines[i - 1]
  }

  /** Where a line repeats the one before it. */
  function RepeatsAt(lines: seq<string>): set<int> {
    set i | 0 < i < |lines| && RepeatAt(lines, i)
  }

  lemma {:induction false} PreviousIs(lines: seq<string>)
    ensures Scanned(lines).previous == if lines == [] then None else Some(lines[|lines| - 1])
  {
    if lines != [] {
      PreviousIs(lines[..|lines| - 1]);
    }
  }

  /** What is counted as collapsed is the lines that repeat the one before them. */
  lemma {:induction false} CollapsedCounts(lines: seq<string>)
    ensures Scanned(lines).collapsed == |RepeatsAt(lines)|
  {
    if lines == [] {
      assert RepeatsAt(lines) == {};
    } else {
      var n := |lines| - 1;
      var init := lines[..n];
      CollapsedCounts(init);
      PreviousIs(init);
      if n > 0 && lines[n] == lines[n - 1] {
        assert RepeatsAt(lines) == RepeatsAt(init) + {n};
      } else {
        assert RepeatsAt(lines) == RepeatsAt(init);
      }
    }
  }

  method CollapseRepeats(lines: seq<string>) returns (all: seq<string>, collapsed: nat)
    ensures all == Collapsed(lines) && collapsed == Scanned(lines).collapsed
  {
    hide Marker, Scanned;
    all := [];
    collapsed := 0;
    var previous: Option<string> := None;
    var repeats := 0;
    ScannedNothing();
    assert lines[..0] == [];
    for n := 0 to |lines|
      invariant Scanned(lines[..n]) == Scan(all, previous, repeats, collapsed)
    {
      ScannedStep(lines, n);
      var line := lines[n];
      if previous == Some(line) {
        repeats := repeats + 1;
        collapsed := collapsed + 1;
        continue;
      }
      if repeats > 0 && all != [] {
        all := all + [Marker(repeats)];
      }
      all := all + [line];
      previous := Some(line);
      repeats := 0;
    }
    assert lines[..|lines|] == lines;
    if repeats > 0 && all != [] {
      all := all + [Marker(repeats)];
    }
  }

  /** The lines that were not seen before, each where it first comes up. */
  function Fresh(lines: seq<string>, seen: seq<string>): seq<string> {
    if lines == [] then []
    else
      var before, last := Fresh(lines[..|lines| - 1], seen), lines[|lines| - 1];
      if last in seen || last in before then before else before + [last]
  }

  lemma {:induction false} FreshExactly(lines: seq<string>, seen: seq<string>)
    ensures forall l :: l in Fresh(lines, seen) <==> l in lines && l !in seen
  {
    if lines != [] {
      FreshExactly(lines[..|lines| - 1], seen);
      assert lines == lines[..|lines| - 1] + [lines[|lines| - 1]];
    }
  }

  lemma {:induction false} FreshGrows(lines: seq<string>, more: seq<string>, seen: seq<string>)
    ensures Fresh(lines, seen) <= Fresh(lines + more, seen)
    ensures |Fresh(lines, seen)| <= |set l | l in Fresh(lines, seen)|
    decreases |lines| + |more|
  {
    if more == [] {
      assert lines + more == lines;
      if lines != [] {
        var init, last := lines[..|lines| - 1], lines[|lines| - 1];
        FreshGrows(init, [], seen);
        var before := Fresh(init, seen);
        if !(last in seen || last in before) {
          assert (set l | l in Fresh(lines, seen)) == (set l | l in before) + {last};
        }
      }
    } else {
      FreshGrows(lines, more[..|more| - 1], seen);
      assert (lines + more)[..|lines + more| - 1] == lines + more[..|more| - 1];
    }
  }

  /** The cut of a long view: head, what was left out, salient lines not yet there, tail. */
  method HeadSalientTail(all: seq<string>, near: seq<string>, head: nat, tail: nat) returns (selected: seq<string>)
    requires |all| > head + tail
    ensures var front := all[..head] + [Cut(all, head, tail)]; selected == front + Fresh(near, front) + TailOf(all, tail)
  {
    hide Cut;
    selected := all[..head] + [Cut(all, head, tail)];
    ghost var front := selected;
    for n := 0 to |near|
      invariant selected == front + Fresh(near[..n], front)
    {
      assert near[..n + 1][..n] == near[..n];
      if near[n] !in selected {
        selected := selected + [near[n]];
      }
    }
    assert near[..|near|] == near;
    selected := selected + TailOf(all, tail);
  }

  lemma CutHolds(all: seq<string>, near: seq<string>, head: nat, tail: nat, selected: seq<string>)
    requires |all| > head + tail && (forall l :: l in near ==> l in all)
    requires var front := all[..head] + [Cut(all, head, tail)]; selected == front + Fresh(near, front) + TailOf(all, tail)
    ensures |selected| > head + |TailOf(all, tail)| && selected[..head] == all[..head] && selected[head] == Cut(all, head, tail)
    ensures selected[|selected| - |TailOf(all, tail)|..] == TailOf(all, tail)
    ensures forall l :: l in near ==> l in selected
    ensures forall l :: l in selected ==> l in all || l == Cut(all, head, tail)
  {
    hide Cut, Fresh;
    FreshExactly(near, all[..head] + [Cut(all, head, tail)]);
  }

  lemma SalientIsNear(all: seq<string>, salient: Test, radius: nat)
    ensures var near := Picked(all, NearSet(all, salient, radius, |all|));
      (forall l :: l in near ==> l in all) && (forall l :: l in all && salient(l) ==> l in near)
  {
    hide Picked;
    var chosen := NearSet(all, salient, radius, |all|);
    forall l ensures l in Picked(all, chosen) ==> l in all {
      PickedHas(all, chosen, l);
    }
    forall l | l in all && salient(l) ensures l in Picked(all, chosen) {
      var i :| 0 <= i < |all| && all[i] == l;
      assert Near(all, salient, radius, |all|, i);
      PickedHas(all, chosen, l);
    }
  }

  /** A short view is the collapsed lines. A longer one keeps its head and its tail, and every salient source
      line is in it; nothing is in it that is not a source line, a repeat marker or the note of the cut. */
  method GenericView(lines: seq<string>, salient: Test, head: nat, tail: nat, context: nat)
    returns (selected: seq<string>, collapsed: nat)
    ensures collapsed == Scanned(lines).collapsed
    ensures |Collapsed(lines)| <= head + tail ==> selected == Collapsed(lines)
    ensures |Collapsed(lines)| > head + tail ==>
      var all := Collapsed(lines);
      var front := all[..head] + [Cut(all, head, tail)];
      selected == front + Fresh(Picked(all, NearSet(all, salient, context, |all|)), front) + TailOf(all, tail)
    ensures |Collapsed(lines)| > head + tail ==>
      var all := Collapsed(lines);
      |selected| > head + |TailOf(all, tail)| && selected[..head] == all[..head] && selected[head] == Cut(all, head, tail)
      && selected[|selected| - |TailOf(all, tail)|..] == TailOf(all, tail)
    ensures forall l :: l in lines && salient(l) ==> l in selected
    ensures forall l :: l in selected ==> l in lines || (exists k: nat :: l == Marker(k)) || l == Cut(Collapsed(lines), head, tail)
  {
    hide Marker, Scanned, Cut, TailOf, Collapsed;
    var all;
    all, collapsed := CollapseRepeats(lines);
    CollapsedIsLines(lines);
    if |all| <= head + tail {
      return all, collapsed;
    }
    var near := SelectedWithContext(all, salient, context);
    SalientIsNear(all, salient, context);
    selected := HeadSalientTail(all, near, head, tail);
    CutHolds(all, near, head, tail, selected);
  }

  /** Collapsing keeps every line and adds nothing but markers. */
  lemma CollapsedIsLines(lines: seq<string>)
    ensures forall l :: l in lines ==> l in Collapsed(lines)
    ensures forall l :: l in Collapsed(lines) ==> l in lines || exists k: nat :: l == Marker(k)
  {
    hide Marker, Scanned;
    CollapsedLines(lines);
  }

  lemma ScannedNothing()
    ensures Scanned([]) == Scan([], None, 0, 0)
  {
  }

  // ----- protected lines

  const PROTECTED := "[protected lines]"

  function Required(lines: seq<string>, protectedLine: Test): seq<string> {
    if lines == [] then []
    else
      Required(lines[..|lines| - 1], protectedLine)
      + if lines[|lines| - 1] != "" && protectedLine(lines[|lines| - 1]) then [lines[|lines| - 1]] else []
  }

  function Missing(required: seq<string>, present: seq<string>): seq<string> {
    if required == [] then []
    else
      Missing(required[..|required| - 1], present)
      + if required[|required| - 1] !in present then [required[|required| - 1]] else []
  }

  function Enforced(body: string, lines: seq<string>, protectedLine: Test): string {
    var missing := Missing(Required(lines, protectedLine), Lines(body));
    if missing == [] then body else Join([body, PROTECTED] + missing, "\n")
  }

  lemma RequiredSnoc(lines: seq<string>, last: string, protectedLine: Test)
    ensures Required(lines + [last], protectedLine)
         == Required(lines, protectedLine) + if last != "" && protectedLine(last) then [last] else []
  {
    assert (lines + [last])[..|lines|] == lines;
  }

  /** Required and missing lines keep the order of the source. */
  lemma {:induction false} RequiredSplit(some: seq<string>, more: seq<string>, protectedLine: Test)
    ensures Required(some + more, protectedLine) == Required(some, protectedLine) + Required(more, protectedLine)
  {
    if more == [] {
      assert some + more == some;
    } else {
      var init, last := more[..|more| - 1], more[|more| - 1];
      RequiredSplit(some, init, protectedLine);
      RequiredSnoc(some + init, last, protectedLine);
      RequiredSnoc(init, last, protectedLine);
      hide Required;
      assert some + more == some + init + [last] && more == init + [last];
      var one := if last != "" && protectedLine(last) then [last] else [];
      assert Required(some, protectedLine) + Required(init, protectedLine) + one
          == Required(some, protectedLine) + (Required(init, protectedLine) + one);
    }
  }

  lemma {:induction false} MissingSplit(some: seq<string>, more: seq<string>, present: seq<string>)
    ensures Missing(some + more, present) == Missing(some, present) + Missing(more, present)
  {
    if more == [] {
      assert some + more == some;
    } else {
      MissingSplit(some, more[..|more| - 1], present);
      assert (some + more)[..|some + more| - 1] == some + more[..|more| - 1];
    }
  }

  lemma JoinTwo(a: string, b: string, rest: seq<string>)
    requires rest != []
    ensures Join([a, b] + rest, "\n") == a + "\n" + b + "\n" + Join(rest, "\n")
  {
    assert ([a, b] + rest)[1..] == [b] + rest && ([b] + rest)[1..] == rest;
    assert a + "\n" + (b + "\n" + Join(rest, "\n")) == a + "\n" + b + "\n" + Join(rest, "\n");
  }

  /** A view that holds all protected lines stays as it is; otherwise those it lacks follow under a heading. */
  lemma EnforcedWords(body: string, lines: seq<string>, protectedLine: Test)
    ensures var missing := Missing(Required(lines, protectedLine), Lines(body));
      if forall l :: l in lines && l != "" && protectedLine(l) ==> l in Lines(body) then Enforced(body, lines, protectedLine) == body
      else Enforced(body, lines, protectedLine) == body + "\n" + "[protected lines]" + "\n" + Join(missing, "\n")
  {
    hide Lines, Required, Missing;
    RequiredHas(lines, protectedLine);
    MissingHas(Required(lines, protectedLine), Lines(body));
    var missing := Missing(Required(lines, protectedLine), Lines(body));
    if missing == [] {
      forall l | l in lines && l != "" && protectedLine(l) ensures l in Lines(body) {
        assert l in Required(lines, protectedLine);
        assert l !in missing;
      }
    } else {
      assert missing[0] in missing;
      JoinTwo(body, PROTECTED, missing);
    }
  }

  lemma {:induction false} RequiredHas(lines: seq<string>, protectedLine: Test)
    ensures forall l :: l in Required(lines, protectedLine) <==> l in lines && l != "" && protectedLine(l)
  {
    if lines != [] {
      var init, last := lines[..|lines| - 1], lines[|lines| - 1];
      assert lines == init + [last];
      RequiredHas(init, protectedLine);
    }
  }

  lemma {:induction false} MissingHas(required: seq<string>, present: seq<string>)
    ensures forall l :: l in Missing(required, present) <==> l in required && l !in present
  {
    if required != [] {
      var init, last := required[..|required| - 1], required[|required| - 1];
      assert required == init + [last];
      MissingHas(init, present);
    }
  }

  // A line end between two texts.

  lemma {:induction false} LineLengthAtEnd(a: string, b: string)
    requires a != ""
    ensures LineLength(a) < |a| ==> LineLength(a + "\n" + b) == LineLength(a) && BareLength(a + "\n" + b) == BareLength(a)
    ensures LineLength(a) == |a| ==>
      BareLength(a + "\n" + b) == BareLength(a) && |a| <= LineLength(a + "\n" + b) <= |a| + 1
  {
    var s := a + "\n" + b;
    assert s[1..] == a[1..] + "\n" + b;
    if !IsBreak(a[0]) && |a| > 1 {
      LineLengthAtEnd(a[1..], b);
    } else if |a| == 1 && !IsBreak(a[0]) {
      assert s[1] == '\n';
    }
  }

  /** The first line of a longer text whose first line ends before `n`. */
  lemma FirstLine(s: string, a: string)
    requires s != "" && a != "" && BareLength(s) == BareLength(a) && a <= s
    ensures Lines(s) == [a[..BareLength(a)]] + Lines(s[LineLength(s)..])
    ensures Lines(a) == [a[..BareLength(a)]] + Lines(a[LineLength(a)..])
  {
    hide LineLength, BareLength;
    assert s[..BareLength(a)] == a[..BareLength(a)];
  }

  /** Text after a line end leaves the lines before it alone and comes after them. */
  lemma {:induction false} LinesBefore(a: string, b: string) returns (middle: seq<string>)
    ensures Lines(a + "\n" + b) == Lines(a) + middle + Lines(b)
    ensures forall l :: l in middle ==> l == ""
    decreases |a|
  {
    hide *;
    var s := a + "\n" + b;
    EmptyLineThenText(b);
    if a == "" {
      middle := [""];
      assert s == "\n" + b;
      NoLines(a);
    } else {
      var n := LineLength(a);
      LineLengthAtEnd(a, b);
      FirstLine(s, a);
      var first := [a[..BareLength(a)]];
      if n < |a| {
        assert s[n..] == a[n..] + "\n" + b;
        middle := LinesBefore(a[n..], b);
        assert first + (Lines(a[n..]) + middle + Lines(b)) == (first + Lines(a[n..])) + middle + Lines(b);
      } else {
        NoLines(a[n..]);
        if LineLength(s) == |a| {
          assert s[|a|..] == "\n" + b;
          middle := [""];
        } else {
          assert s[|a| + 1..] == b;
          middle := [];
        }
      }
    }
  }

  lemma EmptyLineThenText(b: string)
    ensures Lines("\n" + b) == [""] + Lines(b)
  {
    assert "\n" + b == "" + "\n" + b;
    LineThenText("", b);
  }

  lemma NoLines(s: string)
    requires s == ""
    ensures Lines(s) == []
  {
  }

  /** Every protected source line is a line of the result, and no line of the view is lost. */
  lemma ProtectedLinesArePresent(body: string, lines: seq<string>, protectedLine: Test)
    requires forall l | l in lines :: OneLine(l)
    ensures forall l :: l in lines && l != "" && protectedLine(l) ==> l in Lines(Enforced(body, lines, protectedLine))
    ensures Lines(body) <= Lines(Enforced(body, lines, protectedLine))
  {
    hide Lines, OneLine, Join;
    var required := Required(lines, protectedLine);
    var missing := Missing(required, Lines(body));
    RequiredHas(lines, protectedLine);
    MissingHas(required, Lines(body));
    if missing != [] {
      var extra := [PROTECTED] + missing;
      HeadingIsOneLine();
      assert extra[|extra| - 1] == missing[|missing| - 1] && missing[|missing| - 1] in missing;
      LinesOfJoin(extra);
      var middle := LinesBefore(body, Join(extra, "\n"));
      JoinPair(body, extra);
      assert [body, PROTECTED] + missing == [body] + extra;
      assert Lines(Enforced(body, lines, protectedLine)) == Lines(body) + middle + extra;
    }
  }

  lemma JoinPair(body: string, extra: seq<string>)
    requires extra != []
    ensures Join([body] + extra, "\n") == body + "\n" + Join(extra, "\n")
  {
    assert ([body] + extra)[1..] == extra;
  }

  lemma HeadingIsOneLine()
    ensures OneLine(PROTECTED)
  {
  }

  lemma {:induction false} LineIsContained(s: string, line: string)
    requires line in Lines(s) && line != ""
    ensures Contains(s, line)
    decreases |s|
  {
    hide Contains, LineLength, BareLength;
    if line == s[..BareLength(s)] {
      assert s[0..0 + |line|] == line;
      ContainsAt(s, line, 0);
    } else {
      LineIsContained(s[LineLength(s)..], line);
      ContainsSuffix(s, line, LineLength(s));
    }
  }

  /** The closing check never refuses a view: each required line is found. */
  method EnforceProtectedLines(body: string, lines: seq<string>, protectedLine: Test) returns (result: Option<string>)
    requires forall l | l in lines :: OneLine(l)
    ensures result == Some(Enforced(body, lines, protectedLine))
  {
    hide Lines, Join, Contains, OneLine;
    var required: seq<string> := [];
    for n := 0 to |lines|
      invariant required == Required(lines[..n], protectedLine)
    {
      assert lines[..n + 1][..n] == lines[..n];
      if lines[n] != "" && protectedLine(lines[n]) {
        required := required + [lines[n]];
      }
    }
    assert lines[..|lines|] == lines;
    if required == [] {
      return Some(body);
    }
    var present := Lines(body);
    var missing: seq<string> := [];
    for n := 0 to |required|
      invariant missing == Missing(required[..n], present)
    {
      assert required[..n + 1][..n] == required[..n];
      if required[n] !in present {
        missing := missing + [required[n]];
      }
    }
    assert required[..|required|] == required;
    var text := body;
    if missing != [] {
      text := Join([body, PROTECTED] + missing, "\n");
    }
    ProtectedLinesArePresent(body, lines, protectedLine);
    RequiredHas(lines, protectedLine);
    var found := true;
    for n := 0 to |required|
      invariant found
    {
      assert required[n] in required;
      LineIsContained(text, required[n]);
      found := found && Contains(text, required[n]);
    }
    result := if found then Some(text) else None;
  }
}
