/**
 Operations on strings, those of Python's `str`: `sep.join`, substring search, `str.replace`,
 whitespace, line splitting and the word-wise normal form used to compare block entries.
 Case folding is ASCII; the whitespace and line-boundary sets are complete. Bytes are those of UTF-8.
 */
module Text {

  // ----- slices

  lemma DropDrop<T>(s: seq<T>, i: nat, j: nat)
    requires i + j <= |s|
    ensures s[i..][j..] == s[i + j..]
  {}

  // ----- characters

  /** `str.isspace` for one character */
  predicate IsSpace(c: char) {
    var n := c as int;
    9 <= n <= 13 || 28 <= n <= 32 || n == 0x85 || n == 0xA0 || n == 0x1680 || 0x2000 <= n <= 0x200A
    || n == 0x2028 || n == 0x2029 || n == 0x202F || n == 0x205F || n == 0x3000
  }

  /** The characters that Python's `str.isspace` accepts, one by one. */
  lemma SpacesAre(c: char)
    ensures IsSpace(c) <==> c as int in {
      0x09, 0x0A, 0x0B, 0x0C, 0x0D, 0x1C, 0x1D, 0x1E, 0x1F, 0x20, 0x85, 0xA0, 0x1680, 0x2000, 0x2001, 0x2002, 0x2003, 0x2004,
      0x2005, 0x2006, 0x2007, 0x2008, 0x2009, 0x200A, 0x2028, 0x2029, 0x202F, 0x205F, 0x3000}
  {
  }

  function Fold(c: char): char {
    if 'A' <= c <= 'Z' then (c as int + 32) as char else c
  }

  /** Folding makes the capital letters small and leaves everything else as it is. */
  lemma FoldExactly(i: nat, c: char)
    requires i < 26
    ensures Fold("ABCDEFGHIJKLMNOPQRSTUVWXYZ"[i]) == "abcdefghijklmnopqrstuvwxyz"[i]
    ensures c !in "ABCDEFGHIJKLMNOPQRSTUVWXYZ" ==> Fold(c) == c
  {
    var capitals := "ABCDEFGHIJKLMNOPQRSTUVWXYZ";
    if 'A' <= c <= 'Z' {
      var k := c as int - 'A' as int;
      assert capitals[k] == c;
    }
  }

  function FoldText(s: string): (t: string)
    ensures |t| == |s|
  {
    seq(|s|, i requires 0 <= i < |s| => Fold(s[i]))
  }

  /** `sep.join(parts)` */
  function Join(parts: seq<string>, sep: string): string {
    if parts == [] then ""
    else if |parts| == 1 then parts[0]
    else parts[0] + sep + Join(parts[1..], sep)
  }

  lemma {:induction false} JoinSnoc(parts: seq<string>, sep: string, last: string)
    requires parts != []
    ensures Join(parts + [last], sep) == Join(parts, sep) + sep + last
  {
    if |parts| == 1 {
      assert (parts + [last])[1..] == [last];
    } else {
      JoinSnoc(parts[1..], sep, last);
      assert (parts + [last])[1..] == parts[1..] + [last];
    }
  }

  /** Joining a prefix of the parts gives a prefix of the joined text. */
  lemma {:induction false} JoinPrefix(parts: seq<string>, sep: string, k: nat)
    requires k <= |parts|
    ensures Join(parts[..k], sep) <= Join(parts, sep)
  {
    if k == 0 || k == |parts| {
      assert parts[..k] == if k == 0 then [] else parts;
    } else if k == 1 {
      assert parts[..1] == [parts[0]];
    } else {
      JoinPrefix(parts[1..], sep, k - 1);
      assert parts[..k][1..] == parts[1..][..k - 1];
    }
  }

  /** `s.split("/")`: the segments of a path. */
  function Segments(s: string): (p: seq<string>)
    ensures p != []
  {
    if s == "" then [""]
    else
      var rest := Segments(s[1..]);
      if s[0] == '/' then [""] + rest else [[s[0]] + rest[0]] + rest[1..]
  }

  /** `needle in s` */
  predicate Contains(s: string, needle: string)
    requires needle != ""
  {
    |needle| <= |s| && (needle <= s || Contains(s[1..], needle))
  }

  /** A needle is contained exactly when it stands somewhere. */
  lemma {:induction false} ContainsExactly(s: string, needle: string)
    requires needle != ""
    ensures Contains(s, needle) <==> exists i | 0 <= i <= |s| :: needle <= s[i..]
  {
    if i :| 0 <= i <= |s| && needle <= s[i..] {
      ContainsAt(s, needle, i);
    }
    if Contains(s, needle) {
      if needle <= s {
        assert s[0..] == s;
      } else {
        ContainsExactly(s[1..], needle);
        var i :| 0 <= i <= |s[1..]| && needle <= s[1..][i..];
        assert s[1..][i..] == s[i + 1..];
      }
    }
  }

  lemma {:induction false} ContainsAt(s: string, needle: string, i: nat)
    requires needle != "" && i + |needle| <= |s| && s[i..i + |needle|] == needle
    ensures Contains(s, needle)
  {
    if i > 0 {
      assert s[1..][i - 1..i - 1 + |needle|] == s[i..i + |needle|];
      ContainsAt(s[1..], needle, i - 1);
    } else {
      assert s[..|needle|] == needle;
    }
  }

  /** `s.replace(old, new)`: every leftmost non-overlapping occurrence. */
  function Replace(s: string, old_: string, new_: string): string
    requires old_ != ""
  {
    if |s| < |old_| then s
    else if old_ <= s then new_ + Replace(s[|old_|..], old_, new_)
    else [s[0]] + Replace(s[1..], old_, new_)
  }

  lemma {:induction false} ReplaceAbsent(s: string, old_: string, new_: string)
    requires old_ != "" && !Contains(s, old_)
    ensures Replace(s, old_, new_) == s
  {
    if |s| >= |old_| {
      ReplaceAbsent(s[1..], old_, new_);
    }
  }

  lemma {:induction false} ContainsSuffix(s: string, needle: string, k: nat)
    requires needle != "" && k <= |s| && Contains(s[k..], needle)
    ensures Contains(s, needle)
    decreases k
  {
    if k > 0 {
      assert s[1..][k - 1..] == s[k..];
      ContainsSuffix(s[1..], needle, k - 1);
    } else {
      assert s[0..] == s;
    }
  }

  // ----- lines

  /** A character at which `str.splitlines` ends a line. */
  predicate IsBreak(c: char) {
    var n := c as int;
    10 <= n <= 13 || 28 <= n <= 30 || n == 0x85 || n == 0x2028 || n == 0x2029
  }

  /** The line boundaries of Python's `str.splitlines`, one by one. */
  lemma BreaksAre(c: char)
    ensures IsBreak(c) <==> c as int in {0x0A, 0x0B, 0x0C, 0x0D, 0x1C, 0x1D, 0x1E, 0x85, 0x2028, 0x2029}
  {
  }

  /** Length of the first line with its line end; CR LF is one line end. */
  function LineLength(s: string): (n: nat)
    requires s != ""
    ensures 0 < n <= |s|
  {
    if IsBreak(s[0]) then (if s[0] == '\r' && |s| > 1 && s[1] == '\n' then 2 else 1)
    else if |s| == 1 then 1
    else 1 + LineLength(s[1..])
  }

  /** A line ends after its first line boundary; a carriage return and the line feed after it are one. */
  lemma {:induction false} LineLengthExactly(s: string)
    requires s != ""
    ensures var n := LineLength(s);
      && (forall i | 0 <= i < n - 1 :: !IsBreak(s[i]) || (s[i] == '\r' && i == n - 2 && s[i + 1] == '\n'))
      && (n < |s| ==> IsBreak(s[n - 1]) && !(s[n - 1] == '\r' && s[n] == '\n'))
  {
    if !IsBreak(s[0]) && |s| > 1 {
      LineLengthExactly(s[1..]);
      var n := LineLength(s);
      assert forall i | 1 <= i < |s| :: s[i] == s[1..][i - 1];
    }
  }


  /** `s.splitlines(keepends=True)` */
  function LinesKept(s: string): seq<string> {
    if s == "" then [] else [s[..LineLength(s)]] + LinesKept(s[LineLength(s)..])
  }

  lemma FirstLineKept(s: string)
    ensures LinesKept(s) == [] <==> s == ""
    ensures LinesKept(s) != [] ==>
      var line := LinesKept(s)[0];
      0 < |line| <= |s| && line == s[..|line|] && LinesKept(s)[1..] == LinesKept(s[|line|..])
  {}

  /** `a + b` starts a new line where `b` starts. */
  predicate LineBoundary(a: string, b: string) {
    a == "" || b == "" || (IsBreak(a[|a| - 1]) && !(a[|a| - 1] == '\r' && b[0] == '\n'))
  }

  lemma {:induction false} LineLengthAppend(a: string, b: string)
    requires a != "" && LineBoundary(a, b)
    ensures LineLength(a + b) == LineLength(a)
  {
    if |a| > 1 {
      assert (a + b)[1..] == a[1..] + b;
      LineLengthAppend(a[1..], b);
    } else {
      assert b == "" ==> a + b == a;
    }
  }

  /** Lines split independently on both sides of a line boundary. */
  lemma {:induction false} LinesKeptSplit(a: string, b: string)
    requires LineBoundary(a, b)
    ensures LinesKept(a + b) == LinesKept(a) + LinesKept(b)
    decreases |a|
  {
    if a == "" {
      assert a + b == b;
    } else {
      var n := LineLength(a);
      LineLengthAppend(a, b);
      assert (a + b)[..n] == a[..n];
      assert (a + b)[n..] == a[n..] + b;
      LinesKeptSplit(a[n..], b);
    }
  }

  // ----- words

  /** Length of the word at the start of `s`. */
  function WordLength(s: string): (n: nat)
    ensures n <= |s| && (forall i | 0 <= i < n :: !IsSpace(s[i])) && (n < |s| ==> IsSpace(s[n]))
  {
    if s == "" || IsSpace(s[0]) then 0 else 1 + WordLength(s[1..])
  }

  /** `s.split()` */
  function Words(s: string): seq<string> {
    if s == "" then []
    else if IsSpace(s[0]) then Words(s[1..])
    else
      var n := WordLength(s);
      [s[..n]] + Words(s[n..])
  }

  // ----- lines without their ends

  /** Length of the first line without its line end. */
  function BareLength(s: string): (n: nat)
    ensures n <= |s| && (forall i | 0 <= i < n :: !IsBreak(s[i])) && (n < |s| ==> IsBreak(s[n]))
  {
    if s == "" || IsBreak(s[0]) then 0 else 1 + BareLength(s[1..])
  }

  /** `s.splitlines()` */
  function Lines(s: string): seq<string> {
    if s == "" then [] else [s[..BareLength(s)]] + Lines(s[LineLength(s)..])
  }

  predicate OneLine(s: string) {
    forall c | c in s :: !IsBreak(c)
  }

  predicate Blank(s: string) {
    forall c | c in s :: IsSpace(c)
  }

  function StripLeft(s: string): (t: string)
    ensures |t| <= |s| && s[|s| - |t|..] == t && Blank(s[..|s| - |t|]) && (t != "" ==> !IsSpace(t[0]))
  {
    if s != "" && IsSpace(s[0]) then
      assert s == [s[0]] + s[1..];
      var t := StripLeft(s[1..]);
      assert s[..|s| - |t|] == [s[0]] + s[1..][..|s| - 1 - |t|];
      t
    else s
  }

  /** What is stripped is whitespace, and all of it. */
  lemma StripLeftIs(s: string)
    ensures var i := |s| - |StripLeft(s)|;
      StripLeft(s) == s[i..] && (forall k | 0 <= k < i :: IsSpace(s[k])) && (i < |s| ==> !IsSpace(s[i]))
  {
    hide IsSpace;
    var i := |s| - |StripLeft(s)|;
    assert forall k | 0 <= k < i :: s[k] in s[..i];
    assert i < |s| ==> s[i] == StripLeft(s)[0];
  }

  /** The first thing on a line, whitespace aside, is `head`. */
  predicate StartsAfterSpace(s: string, head: string) {
    exists i | 0 <= i <= |s| :: head <= s[i..] && forall k | 0 <= k < i :: IsSpace(s[k])
  }

  lemma StripLeftStarts(s: string, head: string)
    requires head != "" && !IsSpace(head[0])
    ensures head <= StripLeft(s) <==> StartsAfterSpace(s, head)
  {
    hide IsSpace;
    StripLeftIs(s);
    var at := |s| - |StripLeft(s)|;
    if i :| 0 <= i <= |s| && head <= s[i..] && forall k | 0 <= k < i :: IsSpace(s[k]) {
      assert s[i] == s[i..][0] == head[0];
      assert i == at;
    }
  }

  function StripRight(s: string): (t: string)
    ensures t <= s && Blank(s[|t|..]) && (t != "" ==> !IsSpace(t[|t| - 1]))
  {
    if s != "" && IsSpace(s[|s| - 1]) then
      var t := StripRight(s[..|s| - 1]);
      assert s[|t|..] == s[..|s| - 1][|t|..] + [s[|s| - 1]];
      t
    else s
  }

  /** `s.strip()` */
  function Strip(s: string): string {
    StripRight(StripLeft(s))
  }

  /** `s.removeprefix(prefix)` */
  function RemovePrefix(s: string, prefix: string): string {
    if prefix <= s then s[|prefix|..] else s
  }

  /** The prefix goes, the rest stays, be it empty; without the prefix nothing changes. */
  lemma RemovePrefixExactly(s: string, prefix: string, rest: string)
    ensures RemovePrefix(prefix + rest, prefix) == rest
    ensures !(prefix <= s) ==> RemovePrefix(s, prefix) == s
  {
    assert (prefix + rest)[|prefix|..] == rest;
  }

  /** Words in lower case, separated by single spaces. */
  function Normalized(s: string): string {
    Join(Words(FoldText(s)), " ")
  }

  lemma {:induction false} LinesAreOneLine(s: string)
    ensures forall l | l in Lines(s) :: OneLine(l)
    decreases |s|
  {
    hide IsBreak;
    if s != "" {
      LinesAreOneLine(s[LineLength(s)..]);
      assert OneLine(s[..BareLength(s)]);
    }
  }

  lemma {:induction false} LineOfText(line: string, tail: string)
    requires OneLine(line)
    ensures LineLength(line + "\n" + tail) == |line| + 1 && BareLength(line + "\n" + tail) == |line|
  {
    var s := line + "\n" + tail;
    if line == "" {
    } else {
      assert line[0] in line;
      forall c | c in line[1..] ensures c in line {
        var i :| 0 <= i < |line[1..]| && line[1..][i] == c;
        assert line[i + 1] == c;
      }
      LineOfText(line[1..], tail);
      assert s[1..] == line[1..] + "\n" + tail;
    }
  }

  lemma LineThenText(line: string, tail: string)
    requires OneLine(line)
    ensures Lines(line + "\n" + tail) == [line] + Lines(tail)
  {
    hide LineLength, BareLength, IsBreak;
    LineOfText(line, tail);
    var s := line + "\n" + tail;
    assert s[..|line|] == line && s[|line| + 1..] == tail;
  }

  lemma {:induction false} SingleLine(line: string)
    requires OneLine(line) && line != ""
    ensures LineLength(line) == |line| && BareLength(line) == |line|
  {
    hide IsBreak;
    assert line[0] in line;
    if |line| > 1 {
      forall c | c in line[1..] ensures c in line {
        var i :| 0 <= i < |line[1..]| && line[1..][i] == c;
        assert line[i + 1] == c;
      }
      SingleLine(line[1..]);
    }
  }

  /** Lines joined by line ends are those lines, when the last is not empty. */
  lemma {:induction false} LinesOfJoin(parts: seq<string>)
    requires parts != [] && parts[|parts| - 1] != "" && forall p | p in parts :: OneLine(p)
    ensures Lines(Join(parts, "\n")) == parts
    decreases |parts|
  {
    hide OneLine, LineLength, BareLength;
    assert parts[0] in parts;
    if |parts| == 1 {
      SingleLine(parts[0]);
      assert parts[0][..|parts[0]|] == parts[0];
      assert Lines(parts[0]) == [parts[0]] + Lines(parts[0][|parts[0]|..]);
    } else {
      LineThenText(parts[0], Join(parts[1..], "\n"));
      LinesOfJoin(parts[1..]);
      assert Join(parts, "\n") == parts[0] + "\n" + Join(parts[1..], "\n");
    }
  }

  lemma FoldKeepsSpaces(c: char)
    ensures IsSpace(Fold(c)) == IsSpace(c)
  {}

  lemma FoldAppend(a: string, b: string)
    ensures FoldText(a + b) == FoldText(a) + FoldText(b)
  {}

  lemma BlankFold(s: string)
    ensures Blank(FoldText(s)) == Blank(s)
  {
    hide IsSpace, Fold;
    forall i | 0 <= i < |s| ensures IsSpace(FoldText(s)[i]) == IsSpace(s[i]) {
      FoldKeepsSpaces(s[i]);
    }
    forall c | c in s ensures exists i | 0 <= i < |s| :: FoldText(s)[i] == Fold(c) && s[i] == c {}
    if Blank(FoldText(s)) {
      forall c | c in s ensures IsSpace(c) {
        var i :| 0 <= i < |s| && s[i] == c;
        assert FoldText(s)[i] in FoldText(s);
      }
    }
  }

  lemma {:induction false} WordsAfterBlank(w: string, s: string)
    requires Blank(w)
    ensures Words(w + s) == Words(s)
  {
    hide IsSpace;
    if w == "" {
      assert w + s == s;
    } else {
      assert w[0] in w;
      assert (w + s)[1..] == w[1..] + s;
      WordsAfterBlank(w[1..], s);
    }
  }

  lemma {:induction false} WordsBeforeBlank(s: string, w: string)
    requires Blank(w)
    ensures Words(s + w) == Words(s)
    decreases |s|
  {
    hide IsSpace;
    if s == "" {
      assert s + w == w == w + "";
      WordsAfterBlank(w, "");
    } else if IsSpace(s[0]) {
      assert (s + w)[1..] == s[1..] + w;
      WordsBeforeBlank(s[1..], w);
    } else {
      var n := WordLength(s);
      assert w != "" ==> w[0] in w;
      WordLengthOf(s + w, n);
      assert (s + w)[..n] == s[..n] && (s + w)[n..] == s[n..] + w;
      WordsBeforeBlank(s[n..], w);
    }
  }

  /** A word ends at the first whitespace. */
  lemma {:induction false} WordLengthOf(s: string, n: nat)
    requires n <= |s| && (forall i | 0 <= i < n :: !IsSpace(s[i])) && (n < |s| ==> IsSpace(s[n]))
    ensures WordLength(s) == n
  {
    hide IsSpace;
    if n > 0 {
      WordLengthOf(s[1..], n - 1);
    }
  }

  lemma StripLeftParts(s: string) returns (a: string)
    ensures Blank(a) && s == a + StripLeft(s)
  {
    hide *;
    a := s[..|s| - |StripLeft(s)|];
  }

  lemma StripRightParts(s: string) returns (b: string)
    ensures Blank(b) && s == StripRight(s) + b
  {
    hide *;
    b := s[|StripRight(s)|..];
  }

  lemma StripParts(s: string) returns (a: string, b: string)
    ensures Blank(a) && Blank(b) && s == a + Strip(s) + b
  {
    hide Blank, StripLeft, StripRight;
    a := StripLeftParts(s);
    b := StripRightParts(StripLeft(s));
    assert a + (Strip(s) + b) == a + Strip(s) + b;
  }

  lemma BlankIsStripped(s: string)
    ensures Blank(s) <==> Strip(s) == ""
  {
    hide IsSpace;
    var t := StripLeft(s);
    assert t != "" ==> t[0] in s[|s| - |t|..];
    var a, b := StripParts(s);
  }

  lemma NormalizedStrip(s: string)
    ensures Normalized(Strip(s)) == Normalized(s)
  {
    hide Blank, Strip, Words, FoldText;
    var a, b := StripParts(s);
    NormalizedPadded(a, Strip(s), b);
  }

  lemma NormalizedPadded(a: string, s: string, b: string)
    requires Blank(a) && Blank(b)
    ensures Normalized(a + s + b) == Normalized(s)
  {
    hide Blank, Words;
    FoldAppend(a + s, b);
    FoldAppend(a, s);
    BlankFold(a);
    BlankFold(b);
    WordsBeforeBlank(FoldText(a) + FoldText(s), FoldText(b));
    WordsAfterBlank(FoldText(a), FoldText(s));
  }

  lemma {:induction false} WordsOfBlank(s: string)
    ensures Words(s) == [] <==> Blank(s)
    decreases |s|
  {
    hide IsSpace;
    if s != "" {
      if IsSpace(s[0]) {
        WordsOfBlank(s[1..]);
        assert s == [s[0]] + s[1..];
      } else {
        assert s[0] in s;
      }
    }
  }

  lemma JoinNonempty(parts: seq<string>, sep: string)
    requires parts != [] && parts[0] != ""
    ensures Join(parts, sep) != ""
  {}

  lemma {:induction false} WordsNonempty(s: string)
    ensures forall w | w in Words(s) :: w != ""
    decreases |s|
  {
    hide IsSpace;
    if s != "" {
      if IsSpace(s[0]) {
        WordsNonempty(s[1..]);
      } else {
        WordsNonempty(s[WordLength(s)..]);
      }
    }
  }

  lemma NormalizedBlank(s: string)
    ensures Normalized(s) == "" <==> Blank(s)
  {
    hide IsSpace;
    BlankFold(s);
    WordsOfBlank(FoldText(s));
    WordsNonempty(FoldText(s));
    if !Blank(s) {
      var ws := Words(FoldText(s));
      assert ws[0] in ws;
      JoinNonempty(ws, " ");
    }
  }

  lemma {:induction false} WordsSplit(x: string, c: char, y: string)
    requires IsSpace(c)
    ensures Words(x + [c] + y) == Words(x) + Words(y)
    decreases |x|
  {
    hide IsSpace;
    var s := x + [c] + y;
    if x == "" {
      assert s[0] == c && s[1..] == y;
    } else if IsSpace(x[0]) {
      assert s[1..] == x[1..] + [c] + y;
      WordsSplit(x[1..], c, y);
    } else {
      var n := WordLength(x);
      WordLengthOf(s, n);
      assert s[..n] == x[..n] && s[n..] == x[n..] + [c] + y;
      WordsSplit(x[n..], c, y);
    }
  }

  predicate IsWord(w: string) {
    w != "" && forall i | 0 <= i < |w| :: !IsSpace(w[i])
  }

  lemma {:induction false} WordsAreWords(s: string)
    ensures forall w | w in Words(s) :: IsWord(w)
    decreases |s|
  {
    hide IsSpace;
    if s != "" {
      if IsSpace(s[0]) {
        WordsAreWords(s[1..]);
      } else {
        WordsAreWords(s[WordLength(s)..]);
        assert IsWord(s[..WordLength(s)]);
      }
    }
  }

  lemma {:induction false} WordsOfJoin(ws: seq<string>)
    requires forall w | w in ws :: IsWord(w)
    ensures Words(Join(ws, " ")) == ws
  {
    hide IsSpace;
    if ws != [] {
      var w, rest := ws[0], ws[1..];
      assert w in ws;
      WordLengthOf(w, |w|);
      assert w[..|w|] == w && w[|w|..] == "";
      assert Words(w) == [w];
      if rest == [] {
        assert ws == [w];
      } else {
        SpaceIsSpace();
        WordsSplit(w, ' ', Join(rest, " "));
        assert Join(ws, " ") == w + [' '] + Join(rest, " ");
        WordsOfJoin(rest);
      }
    }
  }

  lemma SpaceIsSpace()
    ensures IsSpace(' ')
  {}

  /** The normal form keeps exactly the folded words, so equal normal forms have equal words. */
  lemma WordsOfNormalized(s: string)
    ensures Words(Normalized(s)) == Words(FoldText(s))
  {
    hide Words, FoldText, Join, IsWord;
    WordsAreWords(FoldText(s));
    WordsOfJoin(Words(FoldText(s)));
  }

  lemma BreakIsSpace(c: char)
    requires IsBreak(c)
    ensures IsSpace(c)
  {}

  // ----- bytes

  function Utf8Length(c: char): nat {
    var n := c as int;
    if n < 0x80 then 1 else if n < 0x800 then 2 else if n < 0x10000 then 3 else 4
  }

  /** One byte up to 7F, two up to 7FF, three up to FFFF, and four beyond. */
  lemma Utf8LengthExactly(c: char)
    ensures (Utf8Length(c) == 1 <==> c as int <= 0x7F) && (Utf8Length(c) == 2 <==> 0x80 <= c as int <= 0x7FF)
    ensures (Utf8Length(c) == 3 <==> 0x800 <= c as int <= 0xFFFF) && (Utf8Length(c) == 4 <==> 0x10000 <= c as int)
  {
  }

  lemma {:induction false} Utf8BytesAdd(a: string, c: char)
    ensures Utf8Bytes(a + [c]) == Utf8Bytes(a) + Utf8Length(c) && Utf8Bytes("") == 0
  {
    hide Utf8Length;
    if a == "" {
      assert [c][1..] == "";
      assert a + [c] == [c];
    } else {
      assert (a + [c])[1..] == a[1..] + [c];
      Utf8BytesAdd(a[1..], c);
    }
  }

  function Utf8Bytes(s: string): nat {
    if s == "" then 0 else Utf8Length(s[0]) + Utf8Bytes(s[1..])
  }
}
