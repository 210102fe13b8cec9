/**
 Text of protected list blocks: one entry per line. Closing a task removes its line, undoing the
 closure brings it back; a block change adds an entry and reverting it removes the entry again.
 */
module Blocks {
  import opened Text

  /** What a block line stands for: its entry without bullet, normalised. */
  function Key(line: string): string {
    Normalized(Strip(RemovePrefix(Strip(line), "- ")))
  }

  function Others(lines: seq<string>, target: string): seq<string> {
    if lines == [] then []
    else (if Key(lines[0]) != target then [lines[0]] else []) + Others(lines[1..], target)
  }

  predicate Present(lines: seq<string>, target: string) {
    exists i | 0 <= i < |lines| :: Key(lines[i]) == target
  }

  /** The block without the lines of one entry. */
  function Without(content: string, entry: string): string {
    Join(Others(Lines(content), Normalized(entry)), "\n")
  }

  /** The block with one entry put back, unless it is there. */
  function WithAgain(content: string, entry: string): string {
    if Present(Lines(content), Normalized(entry)) then content
    else Join(Lines(content) + ["- " + entry], "\n")
  }

  function Bare(line: string): string {
    Strip(RemovePrefix(Strip(line), "- "))
  }

  /** Merge a marker or a requested change into a block. */
  function Merged(current: string, content: string, replace: bool): string {
    if replace then content
    else if exists i | 0 <= i < |Lines(current)| ::
              Bare(Lines(current)[i]) != "" && FoldText(Bare(Lines(current)[i])) == FoldText(content) then current
    else if StripRight(current) == "" then "- " + content
    else StripRight(current) + "\n" + ("- " + content)
  }

  /** A line that says the content already, whatever its case. */
  predicate Says(current: string, content: string) {
    exists l | l in Lines(current) :: Bare(l) != "" && FoldText(Bare(l)) == FoldText(content)
  }

  /** A replacement is the content. A merge into a list leaves a block that says it, and else adds one bullet at the end. */
  lemma MergedExactly(current: string, content: string)
    ensures Merged(current, content, true) == content
    ensures Says(current, content) ==> Merged(current, content, false) == current
    ensures !Says(current, content) && StripRight(current) == "" ==> Merged(current, content, false) == "- " + content
    ensures !Says(current, content) && StripRight(current) != "" ==>
      Merged(current, content, false) == StripRight(current) + "\n" + "- " + content
  {
    hide Lines, Bare, FoldText, StripRight;
    if Says(current, content) {
      var l :| l in Lines(current) && Bare(l) != "" && FoldText(Bare(l)) == FoldText(content);
      var i :| 0 <= i < |Lines(current)| && Lines(current)[i] == l;
    } else {
      assert forall i | 0 <= i < |Lines(current)| :: Lines(current)[i] in Lines(current);
      assert StripRight(current) + "\n" + ("- " + content) == StripRight(current) + "\n" + "- " + content;
    }
  }

  // ----- rows: the non-blank lines

  function Flush(line: string): seq<string> {
    if Blank(line) then [] else [line]
  }

  /** Non-blank lines of `line + s`, reading character by character. */
  function Scan(line: string, s: string): seq<string>
    decreases |s|
  {
    if s == "" then Flush(line)
    else if IsBreak(s[0]) then Flush(line) + Scan("", s[1..])
    else Scan(line + [s[0]], s[1..])
  }

  function Rows(content: string): seq<string> {
    Scan("", content)
  }

  function NonBlank(lines: seq<string>): seq<string> {
    if lines == [] then [] else Flush(lines[0]) + NonBlank(lines[1..])
  }

  lemma {:induction false} ScanOneLine(line: string, s: string, rest: string)
    requires OneLine(s)
    ensures Scan(line, s + rest) == Scan(line + s, rest)
    decreases |s|
  {
    hide IsBreak, Blank;
    if s == "" {
      assert s + rest == rest && line + s == line;
    } else {
      assert s[0] in s;
      assert OneLine(s[1..]) by {
        forall c | c in s[1..] ensures !IsBreak(c) {
          assert c in s;
        }
      }
      assert (s + rest)[1..] == s[1..] + rest;
      ScanOneLine(line + [s[0]], s[1..], rest);
      assert line + [s[0]] + s[1..] == line + s;
    }
  }

  lemma {:induction false} ScanBreak(line: string, a: string, c: char, b: string)
    requires IsBreak(c)
    ensures Scan(line, a + [c] + b) == Scan(line, a) + Scan("", b)
    decreases |a|
  {
    hide IsBreak, Blank;
    var s := a + [c] + b;
    if a == "" {
      assert s[0] == c && s[1..] == b;
    } else {
      assert s[1..] == a[1..] + [c] + b;
      if IsBreak(a[0]) {
        ScanBreak("", a[1..], c, b);
      } else {
        ScanBreak(line + [a[0]], a[1..], c, b);
      }
    }
  }

  lemma RowsOfNothing()
    ensures Rows("") == [] && NonBlank([]) == []
    ensures forall line :: NonBlank([line]) == Flush(line)
  {
    forall line ensures NonBlank([line]) == Flush(line) {
      assert [line][1..] == [];
    }
  }

  /** Splitting into lines and reading character by character see the same non-blank lines. */
  lemma {:induction false} RowsAreLines(content: string)
    ensures Rows(content) == NonBlank(Lines(content))
    decreases |content|
  {
    hide IsBreak, Blank, Scan, Lines, NonBlank, Flush, BareLength, LineLength;
    RowsOfNothing();
    LinesStep(content);
    if content == "" {
      NoRows();
    } else {
      var n, m := BareLength(content), LineLength(content);
      RowsStep(content);
      RowsAreLines(content[m..]);
      NonBlankSplit([content[..n]], Lines(content[m..]));
      OneRow(content[..n]);
    }
  }

  lemma NoRows()
    ensures NonBlank([]) == []
  {
  }

  lemma OneRow(line: string)
    ensures NonBlank([line]) == Flush(line)
  {
    hide Flush;
    assert [line][1..] == [];
  }

  lemma LinesStep(content: string)
    ensures Lines(content) == if content == "" then [] else [content[..BareLength(content)]] + Lines(content[LineLength(content)..])
  {
    hide BareLength, LineLength;
  }

  /** The first line of a text makes the first row, unless it is blank. */
  lemma RowsStep(content: string)
    requires content != ""
    ensures Rows(content) == Flush(content[..BareLength(content)]) + Rows(content[LineLength(content)..])
  {
    hide *;
    var n, m := BareLength(content), LineLength(content);
    var line, end := content[..n], content[n..];
    LineEnd(content);
    BareLineIsOneLine(content);
    AfterLine(line, end, m - n);
    ScanOneLine("", line, end);
    assert content == line + end && "" + line == line;
    assert end[m - n..] == content[m..];
    RowsAre(content);
    RowsAre(content[m..]);
  }

  lemma RowsAre(content: string)
    ensures Rows(content) == Scan("", content)
  {
    hide Scan;
  }

  lemma BareLineIsOneLine(content: string)
    ensures OneLine(content[..BareLength(content)])
  {
    hide IsBreak, BareLength;
  }

  lemma {:induction false} NonBlankSplit(xs: seq<string>, ys: seq<string>)
    ensures NonBlank(xs + ys) == NonBlank(xs) + NonBlank(ys)
  {
    hide Flush;
    if xs == [] {
      assert xs + ys == ys;
    } else {
      assert (xs + ys)[1..] == xs[1..] + ys;
      NonBlankSplit(xs[1..], ys);
    }
  }

  lemma {:induction false} LineEnd(s: string)
    requires s != ""
    ensures var n, m := BareLength(s), LineLength(s);
      && n <= m <= n + 2 && (m == n ==> n == |s|) && (forall i | n <= i < m :: IsBreak(s[i]))
  {
    if !IsBreak(s[0]) && |s| > 1 {
      LineEnd(s[1..]);
    }
  }

  /** A line end, one or two characters, flushes the line. */
  lemma AfterLine(line: string, rest: string, k: nat)
    requires k <= 2 && k <= |rest| && (forall i | 0 <= i < k :: IsBreak(rest[i])) && (k == 0 ==> rest == "")
    ensures Scan(line, rest) == Flush(line) + Scan("", rest[k..])
  {
    hide *;
    if k == 0 {
      assert rest[0..] == "";
      ScanEnd(line);
      ScanEnd("");
      FlushNothing();
    } else {
      ScanAtBreak(line, rest);
      if k == 2 {
        assert rest[1..][1..] == rest[2..];
        ScanAtBreak("", rest[1..]);
        FlushNothing();
      }
    }
  }

  lemma ScanEnd(line: string)
    ensures Scan(line, "") == Flush(line)
  {
  }

  lemma ScanAtBreak(line: string, s: string)
    requires s != "" && IsBreak(s[0])
    ensures Scan(line, s) == Flush(line) + Scan("", s[1..])
  {
    hide IsBreak, Flush;
  }

  lemma FlushNothing()
    ensures Flush("") == []
  {
  }

  // ----- rows of joined and filtered lines

  lemma {:induction false} RowsOfJoin(lines: seq<string>)
    requires forall l | l in lines :: OneLine(l)
    ensures Rows(Join(lines, "\n")) == NonBlank(lines)
  {
    hide IsBreak, Flush, Scan;
    RowsOfNothing();
    if lines != [] {
      var line, rest := lines[0], lines[1..];
      assert line in lines;
      RowsOfLine(line);
      if rest == [] {
        assert lines == [line];
      } else {
        NewlineBreaks();
        assert Join(lines, "\n") == line + ['\n'] + Join(rest, "\n");
        ScanBreak("", line, '\n', Join(rest, "\n"));
        RowsOfJoin(rest);
      }
    }
  }

  lemma NewlineBreaks()
    ensures IsBreak('\n')
  {}

  lemma RowsOfLine(line: string)
    requires OneLine(line)
    ensures Rows(line) == Flush(line)
  {
    ScanOneLine("", line, "");
    assert line + "" == line && "" + line == line;
  }

  lemma {:induction false} OthersSplit(xs: seq<string>, ys: seq<string>, target: string)
    ensures Others(xs + ys, target) == Others(xs, target) + Others(ys, target)
  {
    hide Key;
    if xs == [] {
      assert xs + ys == ys;
    } else {
      assert (xs + ys)[1..] == xs[1..] + ys;
      OthersSplit(xs[1..], ys, target);
    }
  }

  lemma {:induction false} OthersNonBlank(lines: seq<string>, target: string)
    ensures NonBlank(Others(lines, target)) == Others(NonBlank(lines), target)
  {
    hide Key, Blank;
    if lines != [] {
      OthersNonBlank(lines[1..], target);
      OthersSplit(Flush(lines[0]), NonBlank(lines[1..]), target);
      NonBlankSplit(if Key(lines[0]) != target then [lines[0]] else [], Others(lines[1..], target));
      RowsOfNothing();
      OthersOfLine(lines[0], target);
    }
  }

  lemma OthersOfLine(line: string, target: string)
    ensures Others([line], target) == if Key(line) != target then [line] else []
    ensures Others([], target) == []
  {
    hide Key;
    assert [line][1..] == [];
  }

  lemma {:induction false} OthersAreLines(lines: seq<string>, target: string)
    ensures forall l | l in Others(lines, target) :: l in lines && Key(l) != target
  {
    hide Key;
    if lines != [] {
      OthersAreLines(lines[1..], target);
    }
  }

  lemma {:induction false} OthersOfAbsent(lines: seq<string>, target: string)
    ensures !Present(lines, target) <==> Others(lines, target) == lines
    ensures !Present(lines, target) <==> |Others(lines, target)| == |lines|
    ensures |Others(lines, target)| <= |lines|
  {
    hide Key;
    if lines != [] {
      OthersOfAbsent(lines[1..], target);
      assert lines == [lines[0]] + lines[1..];
      assert Present(lines, target) <==> Key(lines[0]) == target || Present(lines[1..], target) by {
        assert forall i | 0 <= i < |lines[1..]| :: lines[1..][i] == lines[i + 1];
      }
    }
  }

  lemma RowsWithout(content: string, entry: string)
    ensures Rows(Without(content, entry)) == Others(Rows(content), Normalized(entry))
  {
    hide Normalized, Rows, OneLine, Lines;
    var lines, target := Lines(content), Normalized(entry);
    LinesAreOneLine(content);
    OthersAreLines(lines, target);
    RowsOfJoin(Others(lines, target));
    OthersNonBlank(lines, target);
    RowsAreLines(content);
  }

  // ----- keys

  lemma {:induction false} StripRightAppend(p: string, e: string)
    requires !Blank(e)
    ensures StripRight(p + e) == p + StripRight(e)
    decreases |e|
  {
    hide IsSpace;
    assert (p + e)[|p + e| - 1] == e[|e| - 1];
    if IsSpace(e[|e| - 1]) {
      assert (p + e)[..|p + e| - 1] == p + e[..|e| - 1];
      assert e == e[..|e| - 1] + [e[|e| - 1]];
      StripRightAppend(p, e[..|e| - 1]);
    }
  }

  lemma StripRightIsStrip(e: string)
    ensures Normalized(StripRight(e)) == Normalized(e)
  {
    hide Normalized;
    var t := StripRight(e);
    NormalizedPadded("", t, e[|t|..]);
    assert e == "" + t + e[|t|..];
  }

  /** A bulleted entry stands for that entry. */
  lemma KeyOfBullet(entry: string)
    requires !Blank(entry)
    ensures Key("- " + entry) == Normalized(entry)
  {
    hide Normalized, Blank;
    var line := "- " + entry;
    assert StripLeft(line) == line;
    StripRightAppend("- ", entry);
    assert Strip(line) == "- " + StripRight(entry);
    assert RemovePrefix(Strip(line), "- ") == StripRight(entry);
    NormalizedStrip(StripRight(entry));
    StripRightIsStrip(entry);
  }

  lemma {:induction false} StripOfBlank(line: string)
    requires Blank(line)
    ensures Strip(line) == ""
  {
    hide IsSpace;
    if line != "" {
      assert line[0] in line;
      StripOfBlank(line[1..]);
    }
  }

  lemma KeyOfBlank(line: string)
    requires Blank(line)
    ensures Key(line) == ""
  {
    hide Normalized;
    StripOfBlank(line);
    NormalizedBlank("");
  }

  lemma {:induction false} PresentInRows(lines: seq<string>, target: string)
    requires target != ""
    ensures Present(NonBlank(lines), target) <==> Present(lines, target)
  {
    hide Key, Blank;
    OthersNonBlank(lines, target);
    OthersOfAbsent(lines, target);
    OthersOfAbsent(NonBlank(lines), target);
    if Present(lines, target) {
      var i :| 0 <= i < |lines| && Key(lines[i]) == target;
      if Blank(lines[i]) {
        KeyOfBlank(lines[i]);
      } else {
        KeptRow(lines, i);
      }
    }
  }

  lemma {:induction false} KeptRow(lines: seq<string>, i: nat)
    requires i < |lines| && !Blank(lines[i])
    ensures lines[i] in NonBlank(lines)
  {
    hide Blank;
    if i > 0 {
      KeptRow(lines[1..], i - 1);
    }
  }

  // ----- closing a task and undoing it

  predicate Entry(entry: string) {
    OneLine(entry) && !Blank(entry)
  }

  /** The open tasks of a block, as normalised entries. */
  function OpenTasks(content: string): set<string> {
    set i | 0 <= i < |Rows(content)| :: Key(Rows(content)[i])
  }

  lemma RowsWithAgain(content: string, entry: string)
    requires Entry(entry)
    ensures Rows(WithAgain(content, entry)) ==
      if Normalized(entry) in OpenTasks(content) then Rows(content) else Rows(content) + ["- " + entry]
    ensures Key("- " + entry) == Normalized(entry) != ""
  {
    hide Normalized, Rows, Lines, Key, Blank, IsBreak;
    var lines, target := Lines(content), Normalized(entry);
    KeyOfBullet(entry);
    NormalizedBlank(entry);
    RowsAreLines(content);
    PresentInRows(lines, target);
    if target !in OpenTasks(content) {
      LinesAreOneLine(content);
      BulletIsOneLine(entry);
      RowsOfJoin(lines + ["- " + entry]);
      NonBlankSplit(lines, ["- " + entry]);
      RowsOfNothing();
    }
  }

  lemma BulletIsOneLine(entry: string)
    requires Entry(entry)
    ensures OneLine("- " + entry) && Flush("- " + entry) == ["- " + entry]
  {
    assert ("- " + entry)[0] == '-';
  }

  /** Undoing a closure restores the set of open tasks, and every other row keeps its text and its place. */
  lemma ApplyThenUndo(content: string, entry: string)
    requires Entry(entry)
    ensures var after := WithAgain(Without(content, entry), entry);
      && OpenTasks(after) == OpenTasks(content) + {Normalized(entry)}
      && Others(Rows(after), Normalized(entry)) == Others(Rows(content), Normalized(entry))
  {
    hide Normalized, Rows, WithAgain, Without, Key, Entry;
    var target := Normalized(entry);
    var rows := Rows(content);
    var others := Others(rows, target);
    var last := ["- " + entry];
    RowsWithout(content, entry);
    RowsWithAgain(Without(content, entry), entry);
    OthersAreLines(rows, target);
    OthersOfAbsent(others, target);
    OthersSplit(others, last, target);
    OthersOfLine("- " + entry, target);
    OthersKeys(rows, target);
    KeysOfSnoc(others, "- " + entry);
  }

  function Keys(rows: seq<string>): set<string> {
    set i | 0 <= i < |rows| :: Key(rows[i])
  }

  lemma {:induction false} OthersKeys(rows: seq<string>, target: string)
    ensures Keys(Others(rows, target)) == Keys(rows) - {target}
  {
    hide Key;
    OthersAreLines(rows, target);
    forall i | 0 <= i < |rows| && Key(rows[i]) != target ensures Key(rows[i]) in Keys(Others(rows, target)) {
      OthersKeep(rows, target, i);
    }
  }

  lemma {:induction false} OthersKeep(rows: seq<string>, target: string, i: nat)
    requires i < |rows| && Key(rows[i]) != target
    ensures rows[i] in Others(rows, target)
  {
    hide Key;
    if i > 0 {
      OthersKeep(rows[1..], target, i - 1);
    }
  }

  lemma KeysOfSnoc(rows: seq<string>, row: string)
    ensures Keys(rows + [row]) == Keys(rows) + {Key(row)}
  {
    hide Key;
    var all := rows + [row];
    assert all[|rows|] == row;
    forall i | 0 <= i < |rows| ensures all[i] == rows[i] {}
  }

  /** Undoing twice adds no second copy: the block is the same text. */
  lemma UndoTwice(content: string, entry: string)
    requires Entry(entry)
    ensures WithAgain(WithAgain(content, entry), entry) == WithAgain(content, entry)
    ensures Present(Lines(WithAgain(content, entry)), Normalized(entry))
  {
    hide Normalized, Rows, Key, Entry, Lines, Join;
    var once := WithAgain(content, entry);
    RowsWithAgain(content, entry);
    KeysOfSnoc(Rows(content), "- " + entry);
    RowsAreLines(once);
    PresentInRows(Lines(once), Normalized(entry));
  }

  // ----- requesting a block change and reverting it

  function Trimmed(rows: seq<string>): (t: seq<string>)
    ensures |t| == |rows|
  {
    seq(|rows|, i requires 0 <= i < |rows| => Strip(rows[i]))
  }

  /** The rows without the whitespace around them. */
  function Items(content: string): seq<string> {
    Trimmed(Rows(content))
  }

  lemma TrimmedSplit(xs: seq<string>, ys: seq<string>)
    ensures Trimmed(xs + ys) == Trimmed(xs) + Trimmed(ys)
  {
    hide Strip;
  }

  lemma BlankAppend(line: string, c: char)
    requires IsSpace(c)
    ensures Blank(line + [c]) == Blank(line)
  {
    hide IsSpace;
    forall d | d in line ensures d in line + [c] {}
  }

  lemma StripAppendSpace(line: string, c: char)
    requires IsSpace(c)
    ensures Trimmed(Flush(line + [c])) == Trimmed(Flush(line))
  {
    hide IsSpace, Blank, StripLeft, StripRight;
    BlankAppend(line, c);
    if !Blank(line) {
      StripLeftAppend(line, c);
      StripRightSpace(StripLeft(line), c);
    }
  }

  lemma StripRightSpace(t: string, c: char)
    requires IsSpace(c)
    ensures StripRight(t + [c]) == StripRight(t)
  {
    hide IsSpace;
    assert (t + [c])[..|t|] == t;
  }

  lemma {:induction false} StripLeftAppend(line: string, c: char)
    requires !Blank(line)
    ensures StripLeft(line + [c]) == StripLeft(line) + [c]
  {
    hide IsSpace;
    assert line != "" && (line + [c])[0] == line[0];
    if IsSpace(line[0]) {
      assert (line + [c])[1..] == line[1..] + [c];
      assert line == [line[0]] + line[1..];
      StripLeftAppend(line[1..], c);
    }
  }

  lemma {:induction false} ScanBlank(line: string, w: string)
    requires Blank(w)
    ensures Trimmed(Scan(line, w)) == Trimmed(Flush(line))
    decreases |w|
  {
    hide IsBreak, IsSpace, Strip;
    if w != "" {
      assert w[0] in w;
      assert Blank(w[1..]) by {
        forall c | c in w[1..] ensures c in w {}
      }
      if IsBreak(w[0]) {
        ScanBlank("", w[1..]);
        assert Scan(line, w) == Flush(line) + Scan("", w[1..]);
      } else {
        ScanBlank(line + [w[0]], w[1..]);
        StripAppendSpace(line, w[0]);
      }
    }
  }

  /** Trailing whitespace adds no item. */
  lemma {:induction false} ScanTrailing(line: string, a: string, w: string)
    requires Blank(w)
    ensures Trimmed(Scan(line, a + w)) == Trimmed(Scan(line, a))
    decreases |a|
  {
    hide IsBreak, Blank, Strip;
    if a == "" {
      assert a + w == w;
      ScanBlank(line, w);
    } else {
      assert (a + w)[1..] == a[1..] + w;
      if IsBreak(a[0]) {
        ScanTrailing("", a[1..], w);
        TrimmedSplit(Flush(line), Scan("", a[1..] + w));
        TrimmedSplit(Flush(line), Scan("", a[1..]));
      } else {
        ScanTrailing(line + [a[0]], a[1..], w);
      }
    }
  }

  lemma ItemsOfStripped(content: string)
    ensures Items(StripRight(content)) == Items(content)
  {
    hide Scan, Trimmed, StripRight, Blank;
    var w := StripRightParts(content);
    ScanTrailing("", StripRight(content), w);
  }

  /** Merging appends exactly the rows of the bulleted entry. */
  lemma ItemsOfAppended(current: string, content: string)
    ensures var appended := if StripRight(current) == "" then "- " + content else StripRight(current) + "\n" + ("- " + content);
      Items(appended) == Items(current) + Items("- " + content)
  {
    hide Scan, Trimmed, StripRight, Blank;
    ItemsOfStripped(current);
    var base := StripRight(current);
    if base == "" {
      NoItems();
    } else {
      NewlineBreaks();
      assert base + "\n" + ("- " + content) == base + ['\n'] + ("- " + content);
      ScanBreak("", base, '\n', "- " + content);
      TrimmedSplit(Rows(base), Rows("- " + content));
    }
  }

  lemma NoItems()
    ensures Items("") == []
  {}

  lemma KeyOfStrip(line: string)
    ensures Key(Strip(line)) == Key(line)
  {
    hide Normalized, RemovePrefix;
    StripTwice(line);
  }

  lemma StripTwice(line: string)
    ensures Strip(Strip(line)) == Strip(line)
  {
    hide IsSpace, Blank;
    var t := StripLeft(line);
    var u := StripRight(t);
    assert u != "" ==> u[0] == t[0];
    assert StripLeft(u) == u;
    assert StripRight(u) == u;
  }

  lemma {:induction false} OthersTrimmed(rows: seq<string>, target: string)
    ensures Others(Trimmed(rows), target) == Trimmed(Others(rows, target))
  {
    hide Key, Strip;
    if rows != [] {
      var head := if Key(rows[0]) != target then [rows[0]] else [];
      KeyOfStrip(rows[0]);
      assert Trimmed(rows)[1..] == Trimmed(rows[1..]);
      OthersTrimmed(rows[1..], target);
      TrimmedSplit(head, Others(rows[1..], target));
      assert Trimmed(head) == if Key(rows[0]) != target then [Strip(rows[0])] else [];
    }
  }

  lemma PresentItems(content: string, target: string)
    ensures Present(Items(content), target) <==> target in OpenTasks(content)
  {
    hide Key, Rows, Strip;
    forall i | 0 <= i < |Rows(content)| ensures Key(Items(content)[i]) == Key(Rows(content)[i]) {
      KeyOfStrip(Rows(content)[i]);
    }
  }

  lemma {:induction false} FirstLineOf(content: string) returns (a: string, c: char, b: string)
    requires !OneLine(content)
    ensures content == a + [c] + b && OneLine(a) && IsBreak(c)
  {
    hide IsBreak;
    var n := BareLength(content);
    assert n < |content| by {
      assert n == |content| ==> forall d | d in content :: !IsBreak(d);
    }
    a, c, b := content[..n], content[n], content[n + 1..];
  }

  /** The first row of an entry of several lines is not the entry, so reverting leaves it behind. */
  lemma SeveralLinesRemain(content: string)
    requires content != "" && Strip(content) == content && !OneLine(content)
    ensures Others(Items("- " + content), Normalized(content)) != []
  {
    hide Normalized, Key, IsBreak, IsSpace, Others, Blank;
    var a, c, b := FirstLineOf(content);
    var target := Normalized(content);
    EndsAreSolid(content);
    BreakIsSpace(c);
    SolidParts(content, a, c, b);
    KeyOfBullet(a);
    FewerWords(content, a, c, b);
    FirstRow(content, a, c, b);
    var row := "- " + a;
    KeyOfStrip(row);
    OthersSplit([Strip(row)], Trimmed(Rows(b)), target);
    OthersOfLine(Strip(row), target);
  }

  lemma FirstRow(content: string, a: string, c: char, b: string)
    requires content == a + [c] + b && OneLine(a) && IsBreak(c) && !Blank(a)
    ensures Items("- " + content) == [Strip("- " + a)] + Trimmed(Rows(b))
  {
    hide IsBreak, Strip, Scan;
    var row := "- " + a;
    assert "- " + content == row + [c] + b;
    ScanBreak("", row, c, b);
    BulletIsOneLine(a);
    RowsOfLine(row);
    TrimmedSplit([row], Rows(b));
  }

  lemma EndsAreSolid(content: string)
    requires content != "" && Strip(content) == content
    ensures !IsSpace(content[0]) && !IsSpace(content[|content| - 1])
  {
    hide IsSpace, Blank;
    assert |StripLeft(content)| == |content|;
    assert StripLeft(content) == content[0..];
  }

  lemma SolidParts(content: string, a: string, c: char, b: string)
    requires content == a + [c] + b && IsSpace(c) && !IsSpace(content[0]) && !IsSpace(content[|content| - 1])
    ensures !Blank(a) && !Blank(b)
  {
    hide IsSpace;
    assert content[|a|] == c;
    assert a != "" && b != "";
    assert a[0] in a && b[|b| - 1] in b;
    assert content[0] == a[0] && content[|content| - 1] == b[|b| - 1];
  }

  lemma FewerWords(content: string, a: string, c: char, b: string)
    requires content == a + [c] + b && IsSpace(c) && !Blank(b)
    ensures Normalized(a) != Normalized(content)
  {
    hide Normalized, Words, IsSpace, Blank;
    FoldAppend(a + [c], b);
    FoldAppend(a, [c]);
    FoldKeepsSpaces(c);
    assert FoldText([c]) == [Fold(c)];
    WordsSplit(FoldText(a), Fold(c), FoldText(b));
    BlankFold(b);
    WordsOfBlank(FoldText(b));
    WordsOfNormalized(a);
    WordsOfNormalized(content);
  }

  lemma OneLineVanishes(content: string)
    requires content != "" && Strip(content) == content && OneLine(content)
    ensures Others(Items("- " + content), Normalized(content)) == []
  {
    hide Normalized, Key, IsSpace, Strip;
    var row := "- " + content;
    assert !Blank(content) by {
      EndsAreSolid(content);
      assert content[0] in content;
    }
    KeyOfBullet(content);
    BulletIsOneLine(content);
    RowsOfLine(row);
    KeyOfStrip(row);
    assert Items(row) == [Strip(row)];
    OthersOfLine(Strip(row), Normalized(content));
  }

  lemma DuplicateIsPresent(current: string, content: string, i: nat)
    requires i < |Lines(current)| && Bare(Lines(current)[i]) != "" && FoldText(Bare(Lines(current)[i])) == FoldText(content)
    requires content != "" && Strip(content) == content
    ensures Normalized(content) in OpenTasks(current)
  {
    hide Lines, Rows, Strip, RemovePrefix;
    var line := Lines(current)[i];
    assert Key(line) == Normalized(content);
    assert Normalized(content) != "" by {
      NormalizedBlank(content);
      EndsAreSolid(content);
      assert content[0] in content;
    }
    PresentInRows(Lines(current), Normalized(content));
    RowsAreLines(current);
  }

  /**
   Applying a requested change to a list block and reverting it restores the block's items exactly when
   the request is one line and no earlier line stood for the same entry.
   */
  lemma RevertRestoresExactly(current: string, content: string)
    requires content != "" && Strip(content) == content
    ensures Items(Without(Merged(current, content, false), content)) == Items(current)
       <==> OneLine(content) && Normalized(content) !in OpenTasks(current)
  {
    hide Normalized, Key, Rows, Lines, Strip, Without, OneLine, Trimmed, StripRight, Present, OpenTasks, Others;
    var target := Normalized(content);
    var items, added := Items(current), Items("- " + content);
    var merged := Merged(current, content, false);
    RowsWithout(merged, content);
    OthersTrimmed(Rows(merged), target);
    OthersOfAbsent(items, target);
    PresentItems(current, target);
    if i: nat :| i < |Lines(current)| && Bare(Lines(current)[i]) != "" && FoldText(Bare(Lines(current)[i])) == FoldText(content) {
      DuplicateIsPresent(current, content, i);
    } else {
      ItemsOfAppended(current, content);
      OthersSplit(items, added, target);
      if OneLine(content) {
        OneLineVanishes(content);
      } else {
        SeveralLinesRemain(content);
        OthersHaveNone(added, target);
        NothingLeftOver(items, Others(added, target), target);
      }
    }
  }

  lemma OthersHaveNone(lines: seq<string>, target: string)
    ensures !Present(Others(lines, target), target)
  {
    hide Key;
    OthersAreLines(lines, target);
  }

  lemma NothingLeftOver(items: seq<string>, extra: seq<string>, target: string)
    requires extra != [] && !Present(extra, target)
    ensures Others(items, target) + extra != items
  {
    hide Key;
    OthersAreLines(items, target);
    OthersOfAbsent(items, target);
    var all := Others(items, target) + extra;
    forall i | 0 <= i < |all| ensures Key(all[i]) != target {
      if i < |Others(items, target)| {
        assert all[i] in Others(items, target);
      } else {
        assert all[i] == extra[i - |Others(items, target)|];
      }
    }
  }
}
