/**
 The tabular view of a JSON array, and the reader that recovers every cell from it: the quoting rules of
 section 2 of RFC 4180 with LF as the record break, a break at the end being significant.
 */
module Csv {
  import opened Basics
  import opened Text

  /** A JSON value: a string is written as it is, anything else as its encoding. */
  datatype Value = Str(text: string) | Other(encoded: string)

  type Row = map<string, Value>

  function CellText(v: Value): string {
    match v
    case Str(text) => text
    case Other(encoded) => encoded
  }

  // ----- printing

  predicate IsSpecial(c: char) {
    c == ',' || c == '"' || c == '\n'
  }

  predicate NeedsQuotes(cell: string) {
    exists k :: 0 <= k < |cell| && IsSpecial(cell[k])
  }

  function Escape(cell: string): string {
    Replace(cell, "\"", "\"\"")
  }

  function CellOut(cell: string): string {
    if NeedsQuotes(cell) then "\"" + Escape(cell) + "\"" else cell
  }

  function CellsOut(cells: seq<string>): seq<string> {
    seq(|cells|, k requires 0 <= k < |cells| => CellOut(cells[k]))
  }

  function RecordOut(cells: seq<string>): string {
    Join(CellsOut(cells), ",")
  }

  function RecordsOut(grid: seq<seq<string>>): seq<string> {
    seq(|grid|, k requires 0 <= k < |grid| => RecordOut(grid[k]))
  }

  /** The header is written without quotes. */
  function Header(core: seq<string>): string {
    Join(core, ",")
  }

  function GridOut(core: seq<string>, grid: seq<seq<string>>): string {
    Join([Header(core)] + RecordsOut(grid), "\n")
  }

  // ----- reading

  datatype Parsed<T> = Failed | Parsed(value: T, rest: string)

  /** The cell after an opening quote; a doubled quote stands for one. */
  function ParseQuoted(s: string): (p: Parsed<string>)
    ensures p.Parsed? ==> |p.rest| < |s|
  {
    if s == "" then Failed
    else if s[0] != '"' then
      var p := ParseQuoted(s[1..]);
      if p.Failed? then Failed else Parsed([s[0]] + p.value, p.rest)
    else if |s| > 1 && s[1] == '"' then
      var p := ParseQuoted(s[2..]);
      if p.Failed? then Failed else Parsed("\"" + p.value, p.rest)
    else Parsed("", s[1..])
  }

  predicate AtEnd(s: string) {
    s == "" || s[0] == ',' || s[0] == '\n'
  }

  function ParseBare(s: string): (p: Parsed<string>)
    ensures p.Parsed? ==> |p.rest| <= |s|
  {
    if AtEnd(s) then Parsed("", s)
    else if s[0] == '"' then Failed
    else
      var p := ParseBare(s[1..]);
      if p.Failed? then Failed else Parsed([s[0]] + p.value, p.rest)
  }

  function ParseCell(s: string): (p: Parsed<string>)
    ensures p.Parsed? ==> |p.rest| <= |s|
  {
    if s != "" && s[0] == '"' then ParseQuoted(s[1..]) else ParseBare(s)
  }

  function ParseRecord(s: string): (p: Parsed<seq<string>>)
    ensures p.Parsed? ==> |p.rest| <= |s|
    decreases |s|
  {
    var cell := ParseCell(s);
    if cell.Failed? || !AtEnd(cell.rest) then Failed
    else if cell.rest == "" || cell.rest[0] == '\n' then Parsed([cell.value], cell.rest)
    else
      var more := ParseRecord(cell.rest[1..]);
      if more.Failed? then Failed else Parsed([cell.value] + more.value, more.rest)
  }

  /** Records, each after its break. */
  function ParseBody(s: string): Option<seq<seq<string>>>
    decreases |s|
  {
    if s == "" then Some([])
    else if s[0] != '\n' then None
    else
      var record := ParseRecord(s[1..]);
      if record.Failed? then None
      else
        var more := ParseBody(record.rest);
        if more.None? then None else Some([record.value] + more.value)
  }

  function ParseGrid(text: string, header: string): Option<seq<seq<string>>> {
    if header <= text then ParseBody(text[|header|..]) else None
  }

  // ----- the round trip

  lemma {:induction false} QuotedBack(cell: string, tail: string)
    requires tail == "" || tail[0] != '"'
    ensures ParseQuoted(Escape(cell) + "\"" + tail) == Parsed(cell, tail)
  {
    var s := Escape(cell) + "\"" + tail;
    if cell == "" {
      assert s[1..] == tail;
    } else {
      QuotedBack(cell[1..], tail);
      var more := Escape(cell[1..]) + "\"" + tail;
      if cell[0] == '"' {
        assert Escape(cell) == "\"\"" + Escape(cell[1..]);
        assert s[2..] == more;
      } else {
        assert Escape(cell) == [cell[0]] + Escape(cell[1..]);
        assert s[1..] == more;
      }
      assert [cell[0]] + cell[1..] == cell;
    }
  }

  lemma {:induction false} BareBack(cell: string, tail: string)
    requires !NeedsQuotes(cell) && AtEnd(tail)
    ensures ParseBare(cell + tail) == Parsed(cell, tail)
  {
    if cell == "" {
      assert cell + tail == tail;
    } else {
      assert !IsSpecial(cell[0]);
      forall k | 0 <= k < |cell[1..]| ensures !IsSpecial(cell[1..][k]) {
        assert cell[1..][k] == cell[k + 1];
      }
      BareBack(cell[1..], tail);
      assert (cell + tail)[1..] == cell[1..] + tail;
      assert [cell[0]] + cell[1..] == cell;
    }
  }

  lemma CellBack(cell: string, tail: string)
    requires AtEnd(tail)
    ensures ParseCell(CellOut(cell) + tail) == Parsed(cell, tail)
  {
    hide ParseQuoted, ParseBare, Escape;
    var s := CellOut(cell) + tail;
    if NeedsQuotes(cell) {
      assert s[0] == '"' && s[1..] == Escape(cell) + "\"" + tail;
      QuotedBack(cell, tail);
    } else {
      BareBack(cell, tail);
      if cell != "" {
        assert !IsSpecial(cell[0]) && s[0] == cell[0];
      }
    }
  }

  lemma {:induction false} RecordBack(cells: seq<string>, tail: string)
    requires cells != [] && (tail == "" || tail[0] == '\n')
    ensures ParseRecord(RecordOut(cells) + tail) == Parsed(cells, tail)
    decreases |cells|
  {
    hide ParseCell, CellOut;
    var s := RecordOut(cells) + tail;
    if |cells| == 1 {
      assert CellsOut(cells) == [CellOut(cells[0])] && cells == [cells[0]];
      CellBack(cells[0], tail);
    } else {
      var more := RecordOut(cells[1..]) + tail;
      assert CellsOut(cells)[1..] == CellsOut(cells[1..]);
      assert s == CellOut(cells[0]) + ("," + more);
      CellBack(cells[0], "," + more);
      assert ("," + more)[1..] == more;
      RecordBack(cells[1..], tail);
      assert [cells[0]] + cells[1..] == cells;
    }
  }

  /** The records of a grid, each after its break. */
  function Body(grid: seq<seq<string>>): string {
    if grid == [] then "" else "\n" + RecordOut(grid[0]) + Body(grid[1..])
  }

  lemma {:induction false} JoinIsBody(first: string, grid: seq<seq<string>>)
    ensures Join([first] + RecordsOut(grid), "\n") == first + Body(grid)
    decreases |grid|
  {
    hide RecordOut;
    if grid != [] {
      JoinIsBody(RecordOut(grid[0]), grid[1..]);
      assert ([first] + RecordsOut(grid))[1..] == RecordsOut(grid);
      assert RecordsOut(grid) == [RecordOut(grid[0])] + RecordsOut(grid[1..]);
    }
  }

  lemma {:induction false} BodyBack(grid: seq<seq<string>>)
    requires forall k :: 0 <= k < |grid| ==> grid[k] != []
    ensures ParseBody(Body(grid)) == Some(grid)
    decreases |grid|
  {
    hide RecordOut, ParseRecord;
    if grid != [] {
      var s := Body(grid);
      assert s[1..] == RecordOut(grid[0]) + Body(grid[1..]);
      RecordBack(grid[0], Body(grid[1..]));
      BodyBack(grid[1..]);
      assert [grid[0]] + grid[1..] == grid;
    }
  }

  /** Every grid of cell texts is read back from its rendering. */
  lemma GridRoundTrip(core: seq<string>, grid: seq<seq<string>>)
    requires forall k :: 0 <= k < |grid| ==> grid[k] != []
    ensures ParseGrid(GridOut(core, grid), Header(core)) == Some(grid)
  {
    hide Body, RecordsOut, ParseBody, Header;
    JoinIsBody(Header(core), grid);
    BodyBack(grid);
    assert (Header(core) + Body(grid))[|Header(core)|..] == Body(grid);
  }

  // ----- rows of JSON values

  function Columns(core: seq<string>): set<string> {
    set k | 0 <= k < |core| :: core[k]
  }

  predicate IsTable(rows: seq<Row>, core: seq<string>) {
    forall k :: 0 <= k < |rows| ==> rows[k].Keys == Columns(core)
  }

  function CellsOf(row: Row, core: seq<string>): seq<string>
    requires row.Keys == Columns(core)
  {
    seq(|core|, k requires 0 <= k < |core| => CellText(row[core[k]]))
  }

  function GridOf(rows: seq<Row>, core: seq<string>): seq<seq<string>>
    requires IsTable(rows, core)
  {
    seq(|rows|, k requires 0 <= k < |rows| => CellsOf(rows[k], core))
  }

  /** The loops of the printer: a row with a missing or an extra key ends it without a view. */
  method LosslessCsv(rows: seq<Row>, core: seq<string>) returns (text: Option<string>)
    ensures text.Some? <==> IsTable(rows, core)
    ensures text.Some? ==> text.value == GridOut(core, GridOf(rows, core))
  {
    hide Join, CellOut, CellText;
    var rendered := [Join(core, ",")];
    for n := 0 to |rows|
      invariant IsTable(rows[..n], core)
      invariant rendered == [Header(core)] + RecordsOut(GridOf(rows[..n], core))
    {
      var row := rows[n];
      if row.Keys != Columns(core) {
        return None;
      }
      var cells: seq<string> := [];
      for k := 0 to |core|
        invariant cells == CellsOut(CellsOf(row, core)[..k])
      {
        assert core[k] in Columns(core);
        var cell := CellText(row[core[k]]);
        assert CellsOf(row, core)[..k + 1] == CellsOf(row, core)[..k] + [cell];
        cells := cells + [CellOut(cell)];
      }
      assert CellsOf(row, core)[..|core|] == CellsOf(row, core);
      rendered := rendered + [Join(cells, ",")];
      assert rows[..n + 1] == rows[..n] + [row];
      assert GridOf(rows[..n + 1], core) == GridOf(rows[..n], core) + [CellsOf(row, core)];
    }
    assert rows[..|rows|] == rows;
    text := Some(Join(rendered, "\n"));
  }

  /** What the view determines: two tables under one header print alike exactly when all their cell texts agree. */
  lemma SameTextSameCells(core: seq<string>, one: seq<Row>, two: seq<Row>)
    requires core != [] && IsTable(one, core) && IsTable(two, core)
    ensures GridOut(core, GridOf(one, core)) == GridOut(core, GridOf(two, core)) <==> GridOf(one, core) == GridOf(two, core)
  {
    hide GridOut, ParseGrid;
    GridRoundTrip(core, GridOf(one, core));
    GridRoundTrip(core, GridOf(two, core));
  }

  /** A string and a number with the same text share a cell. */
  lemma StringAndNumberPrintAlike()
    ensures var s, n := [map["a" := Str("1")]], [map["a" := Other("1")]];
      s != n && IsTable(s, ["a"]) && IsTable(n, ["a"]) && GridOf(s, ["a"]) == GridOf(n, ["a"])
  {
    var s, n := [map["a" := Str("1")]], [map["a" := Other("1")]];
    var core := ["a"];
    forall key ensures key in Columns(core) <==> key == "a" {
      assert core[0] == "a";
    }
    assert s[0]["a"] != n[0]["a"];
    assert CellsOf(s[0], core) == ["1"] && CellsOf(n[0], core) == ["1"];
    assert GridOf(s, core) == [CellsOf(s[0], core)] && GridOf(n, core) == [CellsOf(n[0], core)];
  }

  // ----- what the header determines

  predicate NoComma(s: string) {
    forall k :: 0 <= k < |s| ==> s[k] != ','
  }

  /** Where the first comma is; the length when there is none. */
  function FirstComma(s: string): (k: nat)
    ensures k <= |s| && (forall j :: 0 <= j < k ==> s[j] != ',') && (k < |s| ==> s[k] == ',')
  {
    if s == "" || s[0] == ',' then 0 else 1 + FirstComma(s[1..])
  }

  lemma HeaderSplits(core: seq<string>)
    requires |core| > 1
    ensures Header(core) == core[0] + "," + Header(core[1..])
  {
  }

  lemma HeaderOfOne(name: string)
    ensures Header([name]) == name
  {
  }

  /** Column lists without a comma in a name have the same header only when they are the same. */
  lemma {:induction false} PlainHeadersAreInjective(a: seq<string>, b: seq<string>)
    requires a != [] && b != [] && (forall k :: 0 <= k < |a| ==> NoComma(a[k])) && (forall k :: 0 <= k < |b| ==> NoComma(b[k]))
    ensures Header(a) == Header(b) <==> a == b
    decreases |a|
  {
    hide Header;
    assert NoComma(a[0]) && NoComma(b[0]);
    FirstNameShows(a);
    FirstNameShows(b);
    if Header(a) == Header(b) {
      assert a[0] == b[0];
      if |a| > 1 && |b| > 1 {
        HeaderSplits(a);
        HeaderSplits(b);
        SameTail(a[0], Header(a[1..]), Header(b[1..]));
        PlainHeadersAreInjective(a[1..], b[1..]);
        assert a == [a[0]] + a[1..] && b == [b[0]] + b[1..];
      } else {
        assert |a| == |b| == 1;
        assert a == [a[0]] && b == [b[0]];
      }
    }
  }

  lemma SameTail(name: string, a: string, b: string)
    requires name + "," + a == name + "," + b
    ensures a == b
  {
    assert a == (name + "," + a)[|name| + 1..];
    assert b == (name + "," + b)[|name| + 1..];
  }

  /** A first name without a comma is what stands before the first comma. */
  lemma FirstNameShows(core: seq<string>)
    requires core != [] && NoComma(core[0])
    ensures var h := Header(core); core[0] == h[..FirstComma(h)] && (FirstComma(h) < |h| <==> |core| > 1)
  {
    hide Header;
    var h, k := Header(core), FirstComma(Header(core));
    if |core| > 1 {
      HeaderSplits(core);
      assert h[|core[0]|] == ',';
      forall j | 0 <= j < |core[0]| ensures h[j] != ',' {
        assert h[j] == core[0][j];
      }
      assert k == |core[0]| && h[..k] == core[0];
    } else {
      assert core == [core[0]];
      HeaderOfOne(core[0]);
      assert h[..|h|] == h;
    }
  }

  /** Keys of a row are different. */
  predicate DifferentNames(core: seq<string>) {
    forall i, j :: 0 <= i < j < |core| ==> core[i] != core[j]
  }

  /** Another list of different columns has the same header. */
  ghost predicate SharesHeader(core: seq<string>) {
    exists other :: other != [] && DifferentNames(other) && other != core && Header(other) == Header(core)
  }

  /** The same text before and after its one comma. */
  predicate Doubled(name: string) {
    var k := FirstComma(name);
    k < |name| && name[..k] == name[k + 1..]
  }

  lemma OneCommaOnly(name: string, j: nat)
    requires Doubled(name) && j < |name| && name[j] == ','
    ensures j == FirstComma(name)
  {
    var k := FirstComma(name);
    forall i | k < i < |name| ensures name[i] != ',' {
      assert name[k + 1..][i - k - 1] == name[i] && name[..k][i - k - 1] == name[i - k - 1];
    }
  }

  /** Two or more columns cannot print as a doubled name unless two of them are the same. */
  lemma DoubledOnlyByTwins(name: string, other: seq<string>)
    requires Doubled(name) && |other| > 1 && Header(other) == name
    ensures !DifferentNames(other)
  {
    hide Header, Doubled;
    var rest := other[1..];
    HeaderSplits(other);
    assert name[|other[0]|] == ',';
    OneCommaOnly(name, |other[0]|);
    Halves(name, other[0], Header(rest));
    if |rest| > 1 {
      HeaderSplits(rest);
      var j := |other[0]| + 1 + |rest[0]|;
      assert Header(rest)[|rest[0]|] == ',' && name[j] == ',';
      OneCommaOnly(name, j);
    } else {
      assert rest == [rest[0]];
      HeaderOfOne(rest[0]);
      assert other[0] == other[1];
    }
  }

  lemma Halves(name: string, left: string, right: string)
    requires Doubled(name) && name == left + "," + right && |left| == FirstComma(name)
    ensures left == right
  {
    assert name[..|left|] == left && name[|left| + 1..] == right;
  }

  lemma CommaInside(name: string)
    ensures NoComma(name) <==> FirstComma(name) == |name|
  {
    assert FirstComma(name) < |name| ==> name[FirstComma(name)] == ',';
  }

  /** A list of columns shares its header with another one exactly when it has two columns or more, or one whose
      name has a comma and is not the same text twice around it. */
  lemma HeaderIsSharedExactly(core: seq<string>)
    requires core != [] && DifferentNames(core)
    ensures SharesHeader(core) <==> |core| > 1 || (!NoComma(core[0]) && !Doubled(core[0]))
  {
    hide Header, Doubled, DifferentNames, NoComma;
    CommaInside(core[0]);
    if |core| > 1 {
      HeaderOfOne(Header(core));
      OneIsDifferent(Header(core));
      assert [Header(core)] != core;
    } else {
      var name, k := core[0], FirstComma(core[0]);
      assert core == [name];
      HeaderOfOne(name);
      if k < |name| && !Doubled(name) {
        var other := [name[..k], name[k + 1..]];
        HeaderSplits(other);
        assert other[1..] == [name[k + 1..]];
        HeaderOfOne(name[k + 1..]);
        assert name == name[..k] + "," + name[k + 1..];
        PartsDiffer(name);
        assert other != core;
      } else {
        forall other | other != [] && DifferentNames(other) && Header(other) == Header(core) ensures other == core {
          OnlyItself(name, other);
        }
      }
    }
  }

  lemma OneIsDifferent(name: string)
    ensures DifferentNames([name])
  {
  }

  lemma PartsDiffer(name: string)
    requires FirstComma(name) < |name| && !Doubled(name)
    ensures DifferentNames([name[..FirstComma(name)], name[FirstComma(name) + 1..]])
  {
  }

  lemma OnlyItself(name: string, other: seq<string>)
    requires other != [] && DifferentNames(other) && Header(other) == name
    requires NoComma(name) || Doubled(name)
    ensures other == [name]
  {
    hide Header, Doubled, DifferentNames;
    if |other| > 1 {
      HeaderSplits(other);
      assert name[|other[0]|] == ',';
      DoubledOnlyByTwins(name, other);
    } else {
      assert other == [other[0]];
      HeaderOfOne(other[0]);
    }
  }

  /** One column and two with one header. */
  lemma HeadersPrintAlike()
    ensures Header(["a,b"]) == Header(["a", "b"])
  {
    assert ["a", "b"][1..] == ["b"];
  }
}
