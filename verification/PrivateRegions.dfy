/**
 Removal of `<private ...> ... </private>` regions before anything is stored. The scanner keeps a
 cursor and a nesting depth; its meaning is a parse of the text into plain characters and
 (nested) regions.
 */
module PrivateRegions {
  import opened Basics
  import opened Text

  const MARKER := "[PRIVATE CONTENT OMITTED]"

  datatype Tag = NoTag | Open(len: nat) | Close(len: nat)

  // ----- tags

  /** Does `s` start with `name`, ignoring case? */
  predicate Named(s: string, name: string) {
    |name| <= |s| && FoldText(s[..|name|]) == name
  }

  /** Number of leading whitespace characters. */
  function Spaces(s: string): (n: nat)
    ensures n <= |s|
  {
    if s != "" && IsSpace(s[0]) then 1 + Spaces(s[1..]) else 0
  }

  /** Length up to and including the first '>' outside quotes; the whole text when there is none. */
  function AttributesLength(s: string, quote: char, quoted: bool): (n: nat)
    ensures n <= |s|
  {
    if s == "" then 0
    else if quoted then 1 + AttributesLength(s[1..], quote, s[0] != quote)
    else if s[0] == '\'' || s[0] == '"' then 1 + AttributesLength(s[1..], s[0], true)
    else if s[0] == '>' then 1
    else 1 + AttributesLength(s[1..], quote, false)
  }

  predicate NameEnds(s: string, n: nat) {
    n >= |s| || IsSpace(s[n]) || s[n] == '>'
  }

  /** The private tag at the start of `s`, with its length. */
  function TagOf(s: string): (tag: Tag)
    ensures !tag.NoTag? ==> 0 < tag.len <= |s|
  {
    if Named(s, "</private") && NameEnds(s, 9) then
      var n := 9 + Spaces(s[9..]);
      if n < |s| && s[n] == '>' then Close(n + 1) else NoTag
    else if Named(s, "<private") && NameEnds(s, 8) then Open(8 + AttributesLength(s[8..], '"', false))
    else NoTag
  }

  /** The two tag names exclude each other. */
  lemma CloseIsNotOpen(s: string)
    requires Named(s, "<private")
    ensures !Named(s, "</private")
  {
    assert |s| >= 9 ==> FoldText(s[..9])[1] == FoldText(s[..8])[1];
  }

  lemma TagStartsWithAngle(s: string)
    requires !TagOf(s).NoTag?
    ensures s[0] == '<'
  {
    if Named(s, "</private") {
      assert FoldText(s[..9])[0] == Fold(s[0]) == '<';
    } else {
      assert FoldText(s[..8])[0] == Fold(s[0]) == '<';
    }
  }

  // ----- which texts are tags

  /** A text starts with an opening tag exactly when the name is there and ends there. */
  lemma OpensExactly(s: string)
    ensures TagOf(s).Open? <==> |s| >= 8 && FoldText(s[..8]) == "<private" && (|s| == 8 || IsSpace(s[8]) || s[8] == '>')
  {
    hide FoldText, IsSpace, AttributesLength;
    if Named(s, "<private") {
      CloseIsNotOpen(s);
    }
  }

  /** Whitespace from the n-th character up to a '>' at the k-th. */
  predicate ClosedAt(s: string, n: nat, k: nat) {
    n <= k < |s| && s[k] == '>' && forall i | n <= i < k :: IsSpace(s[i])
  }

  lemma {:induction false} SpacesEndAt(s: string, k: nat)
    ensures Spaces(s) == k && k < |s| && s[k] == '>' <==> ClosedAt(s, 0, k)
  {
    if s != "" && IsSpace(s[0]) && k > 0 {
      SpacesEndAt(s[1..], k - 1);
      if ClosedAt(s, 0, k) {
        assert forall i | 0 <= i < k - 1 :: s[1..][i] == s[i + 1];
      }
      if ClosedAt(s[1..], 0, k - 1) {
        assert forall i | 1 <= i < k :: s[i] == s[1..][i - 1];
      }
    }
  }

  /** A text starts with a closing tag of length k + 1 exactly when it is the name, whitespace, and '>' at k. */
  lemma ClosesExactly(s: string, k: nat)
    ensures TagOf(s) == Close(k + 1) <==> |s| >= 9 && FoldText(s[..9]) == "</private" && ClosedAt(s, 9, k)
  {
    hide FoldText, IsSpace, AttributesLength;
    if |s| >= 9 && k >= 9 {
      SpacesEndAt(s[9..], k - 9);
      assert ClosedAt(s, 9, k) <==> ClosedAt(s[9..], 0, k - 9) by {
        assert forall i | 9 <= i < |s| :: s[9..][i - 9] == s[i];
        assert forall i | 0 <= i < |s| - 9 :: s[9..][i] == s[9 + i];
      }
    }
  }

  /** The quote that is open before the n-th character, counted from the start. */
  function QuoteBefore(s: string, n: nat): Option<char>
    requires n <= |s|
  {
    if n == 0 then None
    else
      var before, c := QuoteBefore(s, n - 1), s[n - 1];
      match before
      case Some(q) => if c == q then None else before
      case None => if c == '\'' || c == '"' then Some(c) else None
  }

  /** A '>' that stands in no quotes. */
  predicate EndsAttributes(s: string, i: nat) {
    i < |s| && s[i] == '>' && QuoteBefore(s, i) == None
  }

  lemma {:induction false} AttributesFrom(s: string, m: nat, quote: char)
    requires m <= |s| && forall i | 0 <= i < m :: !EndsAttributes(s, i)
    requires QuoteBefore(s, m).Some? ==> QuoteBefore(s, m) == Some(quote)
    ensures var n := m + AttributesLength(s[m..], quote, QuoteBefore(s, m).Some?);
      && n <= |s| && (forall i | 0 <= i < n - 1 :: !EndsAttributes(s, i))
      && (n < |s| ==> n > 0 && EndsAttributes(s, n - 1))
    decreases |s| - m
  {
    if m < |s| {
      var quoted, rest := QuoteBefore(s, m).Some?, s[m..];
      assert rest[0] == s[m] && rest[1..] == s[m + 1..];
      if !EndsAttributes(s, m) {
        AttributesFrom(s, m + 1, if !quoted && (s[m] == '\'' || s[m] == '"') then s[m] else quote);
      }
    }
  }

  /** An opening tag ends at the first '>' after its name that stands in no quotes, or runs to the end. */
  lemma OpeningTagEnds(s: string)
    requires TagOf(s).Open?
    ensures var attributes, n := s[8..], TagOf(s).len - 8;
      && 0 <= n <= |attributes| && (forall i | 0 <= i < n - 1 :: !EndsAttributes(attributes, i))
      && (n < |attributes| ==> n > 0 && EndsAttributes(attributes, n - 1))
  {
    hide FoldText, IsSpace, AttributesLength, EndsAttributes, QuoteBefore;
    assert s[8..][0..] == s[8..];
    NoQuoteYet(s[8..]);
    AttributesFrom(s[8..], 0, '"');
  }

  lemma NoQuoteYet(s: string)
    ensures QuoteBefore(s, 0) == None
  {}

  method SkipSpaces(value: string, start: nat) returns (cursor: nat)
    requires start <= |value|
    ensures cursor == start + Spaces(value[start..]) <= |value|
  {
    hide IsSpace;
    cursor := start;
    while cursor < |value| && IsSpace(value[cursor])
      invariant start <= cursor <= |value|
      invariant Spaces(value[start..]) == cursor - start + Spaces(value[cursor..])
    {
      assert value[cursor..][1..] == value[cursor + 1..];
      cursor := cursor + 1;
    }
  }

  method SkipAttributes(value: string, start: nat) returns (cursor: nat)
    requires start <= |value|
    ensures cursor == start + AttributesLength(value[start..], '"', false) <= |value|
  {
    cursor := start;
    var quoted, quote := false, '"';
    while cursor < |value|
      invariant start <= cursor <= |value|
      invariant AttributesLength(value[start..], '"', false) == cursor - start + AttributesLength(value[cursor..], quote, quoted)
    {
      var c := value[cursor];
      assert value[cursor..][1..] == value[cursor + 1..];
      if quoted {
        if c == quote { quoted := false; }
      } else if c == '\'' || c == '"' {
        quoted, quote := true, c;
      } else if c == '>' {
        return cursor + 1;
      }
      cursor := cursor + 1;
    }
  }

  lemma NameAt(value: string, start: nat, name: string)
    requires start <= |value|
    ensures Named(value[start..], name) <==> start + |name| <= |value| && FoldText(value[start..start + |name|]) == name
  {
    hide FoldText;
    assert start + |name| <= |value| ==> value[start..start + |name|] == value[start..][..|name|];
  }

  method PrivateTagAt(value: string, start: nat) returns (tag: Tag)
    requires start < |value|
    ensures tag == TagOf(value[start..])
  {
    hide FoldText, Named, IsSpace, Spaces, AttributesLength;
    ghost var s := value[start..];
    var closing := start + 9 <= |value| && FoldText(value[start..start + 9]) == "</private";
    var opening := start + 8 <= |value| && FoldText(value[start..start + 8]) == "<private";
    NameAt(value, start, "</private");
    NameAt(value, start, "<private");
    NamedFits(s);
    if opening {
      CloseIsNotOpen(s);
    }
    if !closing && !opening {
      return NoTag;
    }
    var nameEnd := start + if closing then 9 else 8;
    if nameEnd < |value| && !(IsSpace(value[nameEnd]) || value[nameEnd] == '>') {
      return NoTag;
    }
    if closing {
      var cursor := SkipSpaces(value, nameEnd);
      assert value[nameEnd..] == s[9..];
      return if cursor < |value| && value[cursor] == '>' then Close(cursor + 1 - start) else NoTag;
    }
    var end := SkipAttributes(value, nameEnd);
    assert value[nameEnd..] == s[8..];
    return Open(end - start);
  }

  lemma NamedFits(s: string)
    ensures Named(s, "</private") ==> |s| >= 9
    ensures Named(s, "<private") ==> |s| >= 8
  {
  }

  // ----- the grammar

  /** A region keeps its tags; `closing` is empty when the text ended inside the region. */
  datatype Node = Plain(c: char) | Region(opening: string, body: seq<Node>, closing: string)

  /** The content of a region from some point on, how much text it took, and the closing tag. */
  datatype Rest = Rest(nodes: seq<Node>, next: nat, closing: string)

  /** A region and the length of its text. */
  datatype Sized = Sized(node: Node, len: nat)

  function RegionAt(s: string): (r: Sized)
    requires TagOf(s).Open?
    ensures r.node.Region? && 0 < r.len <= |s|
    decreases |s|, 0
  {
    var n := TagOf(s).len;
    var inner := Inside(s[n..]);
    Sized(Region(s[..n], inner.nodes, inner.closing), n + inner.next)
  }

  /** The content of a region whose opening tag has been read, up to its own closing tag. */
  function Inside(s: string): (r: Rest)
    ensures r.next <= |s|
    decreases |s|, 1
  {
    if s == "" then Rest([], 0, "")
    else
      match TagOf(s)
      case NoTag =>
        var r := Inside(s[1..]);
        Rest([Plain(s[0])] + r.nodes, 1 + r.next, r.closing)
      case Open(_) =>
        var region := RegionAt(s);
        var r := Inside(s[region.len..]);
        Rest([region.node] + r.nodes, region.len + r.next, r.closing)
      case Close(n) => Rest([], n, s[..n])
  }

  /** A whole text: a closing tag without its opening tag is plain text. */
  function Parse(s: string): seq<Node>
    decreases |s|
  {
    if s == "" then []
    else if TagOf(s).Open? then [RegionAt(s).node] + Parse(s[RegionAt(s).len..])
    else [Plain(s[0])] + Parse(s[1..])
  }

  /** The text a parse came from. */
  function Source(nodes: seq<Node>): string {
    if nodes == [] then "" else NodeSource(nodes[0]) + Source(nodes[1..])
  }

  function NodeSource(node: Node): string {
    match node
    case Plain(c) => [c]
    case Region(opening, body, closing) => opening + Source(body) + closing
  }

  /** Outside text, with one marker per outermost region. */
  function Redacted(nodes: seq<Node>): string {
    if nodes == [] then ""
    else (if nodes[0].Plain? then [nodes[0].c] else MARKER) + Redacted(nodes[1..])
  }

  /** All regions, nested ones included. */
  function Regions(nodes: seq<Node>): nat {
    if nodes == [] then 0
    else (if nodes[0].Plain? then 0 else 1 + Regions(nodes[0].body)) + Regions(nodes[1..])
  }

  lemma SourceBase()
    ensures Source([]) == ""
    ensures forall c :: NodeSource(Plain(c)) == [c]
  {}

  lemma SourceSplit(first: Node, rest: seq<Node>)
    ensures Source([first] + rest) == NodeSource(first) + Source(rest)
  {
    assert ([first] + rest)[1..] == rest;
  }

  lemma InsideUnfold(s: string)
    ensures s == "" ==> Inside(s) == Rest([], 0, "")
    ensures s != "" && TagOf(s).NoTag? ==>
      var r := Inside(s[1..]);
      Inside(s) == Rest([Plain(s[0])] + r.nodes, 1 + r.next, r.closing)
    ensures s != "" && TagOf(s).Open? ==>
      var r := Inside(s[RegionAt(s).len..]);
      Inside(s) == Rest([RegionAt(s).node] + r.nodes, RegionAt(s).len + r.next, r.closing)
    ensures s != "" && TagOf(s).Close? ==> Inside(s) == Rest([], TagOf(s).len, s[..TagOf(s).len])
  {
    hide TagOf, RegionAt;
  }

  /** No character is lost or invented inside a region. */
  lemma {:induction false} InsideKeepsText(s: string)
    ensures var r := Inside(s); Source(r.nodes) + r.closing == s[..r.next]
    ensures Inside(s).closing == "" ==> Inside(s).next == |s|
    decreases |s|, 1
  {
    hide *;
    InsideUnfold(s);
    SourceBase();
    if s != "" {
      match TagOf(s)
      case NoTag =>
        var r := Inside(s[1..]);
        InsideKeepsText(s[1..]);
        SourceSplit(Plain(s[0]), r.nodes);
        assert s[..1 + r.next] == [s[0]] + s[1..][..r.next];
      case Open(_) =>
        var region := RegionAt(s);
        var r := Inside(s[region.len..]);
        RegionKeepsText(s);
        InsideKeepsText(s[region.len..]);
        SourceSplit(region.node, r.nodes);
        assert s[..region.len + r.next] == s[..region.len] + s[region.len..][..r.next];
      case Close(n) =>
    }
  }

  lemma {:induction false} RegionKeepsText(s: string)
    requires TagOf(s).Open?
    ensures var r := RegionAt(s); NodeSource(r.node) == s[..r.len]
    ensures RegionAt(s).node.closing == "" ==> RegionAt(s).len == |s|
    decreases |s|, 0
  {
    hide TagOf, Inside;
    var n := TagOf(s).len;
    InsideKeepsText(s[n..]);
    assert s[..n] + s[n..][..Inside(s[n..]).next] == s[..n + Inside(s[n..]).next];
  }

  /** No character is lost or invented by the parse. */
  lemma {:induction false} ParseKeepsText(s: string)
    ensures Source(Parse(s)) == s
    decreases |s|
  {
    hide TagOf, Source, NodeSource, RegionAt;
    SourceBase();
    if s != "" {
      if TagOf(s).Open? {
        var n := RegionAt(s).len;
        RegionKeepsText(s);
        ParseKeepsText(s[n..]);
        SourceSplit(RegionAt(s).node, Parse(s[n..]));
        assert s == s[..n] + s[n..];
      } else {
        ParseKeepsText(s[1..]);
        SourceSplit(Plain(s[0]), Parse(s[1..]));
      }
    }
  }

  /** Only the last outermost region can be unclosed: it runs to the end of the text. */
  lemma {:induction false} OnlyLastRegionIsUnclosed(s: string, k: nat)
    requires k < |Parse(s)| && Parse(s)[k].Region? && Parse(s)[k].closing == ""
    ensures k == |Parse(s)| - 1
    decreases |s|
  {
    hide TagOf, RegionAt;
    if TagOf(s).Open? {
      if k == 0 {
        RegionKeepsText(s);
        assert s[RegionAt(s).len..] == "";
      } else {
        OnlyLastRegionIsUnclosed(s[RegionAt(s).len..], k - 1);
      }
    } else {
      OnlyLastRegionIsUnclosed(s[1..], k - 1);
    }
  }

  // ----- the scanner

  /** Where `depth` nested regions, all open, end. */
  function Exit(s: string, depth: nat): (n: nat)
    ensures n <= |s|
    decreases depth
  {
    if depth == 0 then 0
    else
      var n := Inside(s).next;
      n + Exit(s[n..], depth - 1)
  }

  /** How many further regions open before that. */
  function Opened(s: string, depth: nat): nat
    decreases depth
  {
    if depth == 0 then 0
    else Regions(Inside(s).nodes) + Opened(s[Inside(s).next..], depth - 1)
  }

  lemma RegionsEmpty()
    ensures Regions([]) == 0
  {}

  lemma RegionsSplit(first: Node, rest: seq<Node>)
    ensures Regions([first] + rest) == (if first.Plain? then 0 else 1 + Regions(first.body)) + Regions(rest)
  {
    assert ([first] + rest)[1..] == rest;
  }

  lemma {:induction false} ExitAtEnd(depth: nat)
    ensures Exit("", depth) == 0 && Opened("", depth) == 0
  {
    if depth > 0 {
      ExitAtEnd(depth - 1);
      assert ""[0..] == "";
    }
  }

  /** One step of the inner loop: read a character, open a level, or close one. */
  lemma ExitStep(s: string, depth: nat)
    requires s != "" && depth > 0
    ensures TagOf(s).NoTag? ==> Exit(s, depth) == 1 + Exit(s[1..], depth) && Opened(s, depth) == Opened(s[1..], depth)
    ensures TagOf(s).Open? ==>
      var n := TagOf(s).len;
      Exit(s, depth) == n + Exit(s[n..], depth + 1) && Opened(s, depth) == 1 + Opened(s[n..], depth + 1)
    ensures TagOf(s).Close? ==>
      var n := TagOf(s).len;
      Exit(s, depth) == n + Exit(s[n..], depth - 1) && Opened(s, depth) == Opened(s[n..], depth - 1)
  {
    hide TagOf, Inside, Regions;
    InsideUnfold(s);
    RegionsEmpty();
    match TagOf(s)
    case NoTag =>
      var r := Inside(s[1..]);
      RegionsSplit(Plain(s[0]), r.nodes);
      DropDrop(s, 1, r.next);
    case Open(n) =>
      var inner := Inside(s[n..]);
      var m := RegionAt(s).len;
      RegionsSplit(RegionAt(s).node, Inside(s[m..]).nodes);
      DropDrop(s, n, inner.next);
      DropDrop(s, m, Inside(s[m..]).next);
    case Close(n) =>
  }

  lemma ExitOne(s: string)
    ensures Exit(s, 1) == Inside(s).next && Opened(s, 1) == Regions(Inside(s).nodes)
  {}

  lemma ExitZero(s: string)
    ensures Exit(s, 0) == 0 && Opened(s, 0) == 0
  {}

  method SkipRegion(value: string, start: nat) returns (cursor: nat, inner: nat)
    requires start <= |value|
    ensures cursor == start + Inside(value[start..]).next
    ensures inner == Regions(Inside(value[start..]).nodes)
  {
    hide *;
    cursor, inner := start, 0;
    var depth := 1;
    ExitOne(value[start..]);
    while cursor < |value| && depth > 0
      invariant start <= cursor <= |value|
      invariant start + Inside(value[start..]).next == cursor + Exit(value[cursor..], depth)
      invariant Regions(Inside(value[start..]).nodes) == inner + Opened(value[cursor..], depth)
      decreases |value| - cursor
    {
      ExitStep(value[cursor..], depth);
      var nested := NoTag;
      if value[cursor] == '<' {
        nested := PrivateTagAt(value, cursor);
      } else if !TagOf(value[cursor..]).NoTag? {
        TagStartsWithAngle(value[cursor..]);
        assert false;
      }
      assert nested == TagOf(value[cursor..]);
      match nested
      case NoTag =>
        DropDrop(value, cursor, 1);
        cursor := cursor + 1;
      case Open(n) =>
        DropDrop(value, cursor, n);
        cursor, depth, inner := cursor + n, depth + 1, inner + 1;
      case Close(n) =>
        DropDrop(value, cursor, n);
        cursor, depth := cursor + n, depth - 1;
    }
    if depth > 0 {
      assert value[cursor..] == "";
      ExitAtEnd(depth);
    } else {
      ExitZero(value[cursor..]);
    }
  }

  lemma {:induction false} RedactedSplit(s: string)
    ensures s == "" ==> Redacted(Parse(s)) == "" && Regions(Parse(s)) == 0
    ensures s != "" && TagOf(s).Open? ==>
      var rest := Parse(s[RegionAt(s).len..]);
      Redacted(Parse(s)) == MARKER + Redacted(rest) && Regions(Parse(s)) == 1 + Regions(RegionAt(s).node.body) + Regions(rest)
    ensures s != "" && !TagOf(s).Open? ==>
      Redacted(Parse(s)) == [s[0]] + Redacted(Parse(s[1..])) && Regions(Parse(s)) == Regions(Parse(s[1..]))
  {
    hide TagOf, RegionAt;
    if s != "" {
      assert TagOf(s).Open? ==> Parse(s)[1..] == Parse(s[RegionAt(s).len..]);
      assert !TagOf(s).Open? ==> Parse(s)[1..] == Parse(s[1..]);
    }
  }

  lemma RegionIsInside(s: string)
    requires TagOf(s).Open?
    ensures var n := TagOf(s).len; RegionAt(s).len == n + Inside(s[n..]).next && RegionAt(s).node.body == Inside(s[n..]).nodes
  {}

  method RemovePrivateRegions(value: string) returns (output: string, count: nat)
    ensures output == Redacted(Parse(value))
    ensures count == Regions(Parse(value))
  {
    hide *;
    output, count := "", 0;
    var cursor := 0;
    assert value[0..] == value;
    while cursor < |value|
      invariant cursor <= |value|
      invariant Redacted(Parse(value)) == output + Redacted(Parse(value[cursor..]))
      invariant Regions(Parse(value)) == count + Regions(Parse(value[cursor..]))
      decreases |value| - cursor
    {
      ghost var s := value[cursor..];
      RedactedSplit(s);
      var tag := NoTag;
      if value[cursor] == '<' {
        tag := PrivateTagAt(value, cursor);
      } else if TagOf(s).Open? {
        TagStartsWithAngle(s);
        assert false;
      }
      if !tag.Open? {
        DropDrop(value, cursor, 1);
        output, cursor := output + [value[cursor]], cursor + 1;
      } else {
        DropDrop(value, cursor, tag.len);
        var next, nested := SkipRegion(value, cursor + tag.len);
        RegionIsInside(s);
        DropDrop(value, cursor, RegionAt(s).len);
        output, count, cursor := output + MARKER, count + 1 + nested, next;
      }
    }
    assert value[cursor..] == "";
    RedactedSplit("");
  }

  // ----- a second pass changes nothing

  /** No opening tag starts anywhere in `s`. */
  predicate OpensNothing(s: string) {
    s == "" || (!TagOf(s).Open? && OpensNothing(s[1..]))
  }

  /** Output before the first marker is input. */
  lemma {:induction false} PlainOutputIsInput(s: string, w: string)
    requires '[' !in w && w <= Redacted(Parse(s))
    ensures w <= s
    ensures w == Redacted(Parse(s)) ==> w == s
    decreases |s|
  {
    hide Parse, Redacted, TagOf, RegionAt;
    RedactedSplit(s);
    if s != "" {
      if w != "" {
        assert w[0] in w;
        assert w[0] == Redacted(Parse(s))[0];
        PlainOutputIsInput(s[1..], w[1..]);
        assert s == [s[0]] + s[1..];
      }
    }
  }

  lemma NamedHasNoBracket(s: string)
    requires Named(s, "<private")
    ensures '[' !in s[..8]
  {
    forall i | 0 <= i < 8 ensures s[i] != '[' {
      assert FoldText(s[..8])[i] == Fold(s[i]);
    }
  }

  /** An opening tag at the front of the output that starts with an input character is in the input. */
  lemma OutputTagIsInputTag(s: string)
    requires s != "" && !TagOf(s).Open?
    ensures !TagOf(Redacted(Parse(s))).Open?
  {
    var r := Redacted(Parse(s));
    if TagOf(r).Open? {
      NamedHasNoBracket(r);
      var w := if |r| == 8 then r else r[..9];
      assert '[' !in w by {
        assert |r| > 8 ==> w == r[..8] + [r[8]];
        assert r == r[..8] || |r| > 8;
      }
      PlainOutputIsInput(s, w);
      assert s[..8] == r[..8];
      CloseIsNotOpen(s);
    }
  }

  lemma MarkerHasNoAngle(k: nat)
    requires k < |MARKER|
    ensures MARKER[k] != '<'
  {
    assert '<' !in MARKER;
  }

  lemma {:induction false} MarkerOpensNothing(rest: string, k: nat)
    requires k <= |MARKER| && OpensNothing(rest)
    ensures OpensNothing(MARKER[k..] + rest)
    decreases |MARKER| - k
  {
    hide TagOf;
    var s := MARKER[k..] + rest;
    if k == |MARKER| {
      assert s == rest;
    } else {
      MarkerOpensNothing(rest, k + 1);
      assert s[1..] == MARKER[k + 1..] + rest;
      MarkerHasNoAngle(k);
      if !TagOf(s).NoTag? {
        TagStartsWithAngle(s);
      }
    }
  }

  lemma {:induction false} OutputOpensNothing(s: string)
    ensures OpensNothing(Redacted(Parse(s)))
    decreases |s|
  {
    if s != "" {
      RedactedSplit(s);
      if TagOf(s).Open? {
        var rest := s[RegionAt(s).len..];
        OutputOpensNothing(rest);
        MarkerOpensNothing(Redacted(Parse(rest)), 0);
        assert MARKER[0..] == MARKER;
      } else {
        OutputOpensNothing(s[1..]);
        OutputTagIsInputTag(s);
        assert Redacted(Parse(s))[1..] == Redacted(Parse(s[1..]));
      }
    }
  }

  lemma {:induction false} NothingToRemove(s: string)
    requires OpensNothing(s)
    ensures Redacted(Parse(s)) == s && Regions(Parse(s)) == 0
  {
    if s != "" {
      NothingToRemove(s[1..]);
      RedactedSplit(s);
      assert Parse(s)[1..] == Parse(s[1..]);
    }
  }

  /** Redacting the output again returns it unchanged and finds no region. */
  lemma RemovalIsIdempotent(s: string)
    ensures var r := Redacted(Parse(s)); Redacted(Parse(r)) == r && Regions(Parse(r)) == 0
  {
    OutputOpensNothing(s);
    NothingToRemove(Redacted(Parse(s)));
  }
}
