/**
 Tags in the final message of an assistant: a strict line grammar outside fences and quotes, and their
 materialisation into append-only ledgers, where replaying an event changes nothing. Identifiers are
 positions in the ledgers; which texts only link to an audit entry is given.
 */
module Finalization {
  import opened Basics
  import opened Text

  datatype Kind = Goal | Decision | Fact | Constraint | Todo | Preference | Failure | Lesson

  datatype Status = Confirmed | Rejected | Deferred

  datatype Tag = Tag(kind: Kind, status: Status, text: string)

  function KindName(k: Kind): string {
    match k
    case Goal => "GOAL"
    case Decision => "DECISION"
    case Fact => "FACT"
    case Constraint => "CONSTRAINT"
    case Todo => "TODO"
    case Preference => "PREFERENCE"
    case Failure => "FAILURE"
    case Lesson => "LESSON"
  }

  const KINDS: seq<Kind> := [Goal, Decision, Fact, Constraint, Todo, Preference, Failure, Lesson]

  function StatusName(s: Status): string {
    match s
    case Confirmed => "CONFIRMED"
    case Rejected => "REJECTED"
    case Deferred => "DEFERRED"
  }

  const STATUSES: seq<Status> := [Confirmed, Rejected, Deferred]

  // ----- the tag grammar

  function KindHead(k: Kind): string {
    "[" + KindName(k) + "] "
  }

  function StatusHead(s: Status): string {
    StatusName(s) + ": "
  }

  /** The tag as its line. */
  function Render(t: Tag): string {
    KindHead(t.kind) + StatusHead(t.status) + t.text
  }

  function FindKind(line: string, n: nat): Option<Kind>
    decreases |KINDS| - n
  {
    if n >= |KINDS| then None else if KindHead(KINDS[n]) <= line then Some(KINDS[n]) else FindKind(line, n + 1)
  }

  function FindStatus(line: string, n: nat): Option<Status>
    decreases |STATUSES| - n
  {
    if n >= |STATUSES| then None else if StatusHead(STATUSES[n]) <= line then Some(STATUSES[n]) else FindStatus(line, n + 1)
  }

  /** Text begins and ends with a character that is not whitespace. */
  predicate IsTagText(text: string) {
    text != "" && !IsSpace(text[0]) && !IsSpace(text[|text| - 1])
  }

  function ParseTag(line: string): Option<Tag> {
    var kind := FindKind(line, 0);
    if kind.None? || !(KindHead(kind.value) <= line) then None
    else
      var rest := line[|KindHead(kind.value)|..];
      var status := FindStatus(rest, 0);
      if status.None? || !(StatusHead(status.value) <= rest) then None
      else
        var text := rest[|StatusHead(status.value)|..];
        if IsTagText(text) then Some(Tag(kind.value, status.value, text)) else None
  }

  lemma KindHeadsDiffer(a: Kind, b: Kind, x: string, y: string)
    requires KindHead(a) + x == KindHead(b) + y
    ensures a == b
  {
    var s, t := KindHead(a) + x, KindHead(b) + y;
    assert s[1] == KindName(a)[0] && t[1] == KindName(b)[0];
    assert s[3] == KindName(a)[2] && t[3] == KindName(b)[2];
  }

  lemma StatusHeadsDiffer(a: Status, b: Status, x: string, y: string)
    requires StatusHead(a) + x == StatusHead(b) + y
    ensures a == b
  {
    var s, t := StatusHead(a) + x, StatusHead(b) + y;
    assert s[0] == StatusName(a)[0] && t[0] == StatusName(b)[0];
  }

  lemma FindKindStep(line: string, n: nat)
    requires n < |KINDS|
    ensures FindKind(line, n) == if KindHead(KINDS[n]) <= line then Some(KINDS[n]) else FindKind(line, n + 1)
  {
    hide KindHead;
  }

  lemma HeadOfLine(line: string, k: Kind, n: Kind, rest: string)
    requires line == KindHead(k) + rest && KindHead(n) <= line
    ensures k == n
  {
    hide KindHead;
    assert line == KindHead(n) + line[|KindHead(n)|..];
    KindHeadsDiffer(k, n, rest, line[|KindHead(n)|..]);
  }

  lemma {:induction false} FindKindOf(m: nat, rest: string, n: nat)
    requires n <= m < |KINDS|
    ensures FindKind(KindHead(KINDS[m]) + rest, n) == Some(KINDS[m])
    decreases m - n
  {
    hide *;
    var line := KindHead(KINDS[m]) + rest;
    FindKindStep(line, n);
    if KindHead(KINDS[n]) <= line {
      HeadOfLine(line, KINDS[m], KINDS[n], rest);
    } else {
      FindKindOf(m, rest, n + 1);
    }
  }

  lemma FindStatusStep(line: string, n: nat)
    requires n < |STATUSES|
    ensures FindStatus(line, n) == if StatusHead(STATUSES[n]) <= line then Some(STATUSES[n]) else FindStatus(line, n + 1)
  {
    hide StatusHead;
  }

  lemma HeadOfRest(line: string, s: Status, t: Status, rest: string)
    requires line == StatusHead(s) + rest && StatusHead(t) <= line
    ensures s == t
  {
    hide StatusHead;
    assert line == StatusHead(t) + line[|StatusHead(t)|..];
    StatusHeadsDiffer(s, t, rest, line[|StatusHead(t)|..]);
  }

  lemma {:induction false} FindStatusOf(m: nat, rest: string, n: nat)
    requires n <= m < |STATUSES|
    ensures FindStatus(StatusHead(STATUSES[m]) + rest, n) == Some(STATUSES[m])
    decreases m - n
  {
    hide *;
    var line := StatusHead(STATUSES[m]) + rest;
    FindStatusStep(line, n);
    if StatusHead(STATUSES[n]) <= line {
      HeadOfRest(line, STATUSES[m], STATUSES[n], rest);
    } else {
      FindStatusOf(m, rest, n + 1);
    }
  }

  function KindIndex(k: Kind): (n: nat)
    ensures n < |KINDS| && KINDS[n] == k
  {
    match k
    case Goal => 0
    case Decision => 1
    case Fact => 2
    case Constraint => 3
    case Todo => 4
    case Preference => 5
    case Failure => 6
    case Lesson => 7
  }

  function StatusIndex(s: Status): (n: nat)
    ensures n < |STATUSES| && STATUSES[n] == s
  {
    match s
    case Confirmed => 0
    case Rejected => 1
    case Deferred => 2
  }

  /** The text of a tag is not empty and has no whitespace around it. */
  lemma TagTextExactly(text: string)
    ensures IsTagText(text) <==> text != "" && Strip(text) == text
  {
    hide IsSpace;
    var left := StripLeft(text);
    if text != "" && Strip(text) == text {
      assert |StripRight(left)| <= |left| <= |text|;
      assert left == text[0..] == text;
    }
  }

  lemma HeadWords(k: Kind, s: Status)
    ensures KindHead(k) == match k
      case Goal => "[GOAL] " case Decision => "[DECISION] " case Fact => "[FACT] " case Constraint => "[CONSTRAINT] "
      case Todo => "[TODO] " case Preference => "[PREFERENCE] " case Failure => "[FAILURE] " case Lesson => "[LESSON] "
    ensures StatusHead(s) == match s case Confirmed => "CONFIRMED: " case Rejected => "REJECTED: " case Deferred => "DEFERRED: "
  {
  }

  /** A tag's line is its bracketed kind, its status, a colon, and its text. */
  lemma TagWords(t: Tag)
    ensures Render(t) ==
      (match t.kind
       case Goal => "[GOAL] " case Decision => "[DECISION] " case Fact => "[FACT] " case Constraint => "[CONSTRAINT] "
       case Todo => "[TODO] " case Preference => "[PREFERENCE] " case Failure => "[FAILURE] " case Lesson => "[LESSON] ")
      + (match t.status case Confirmed => "CONFIRMED: " case Rejected => "REJECTED: " case Deferred => "DEFERRED: ")
      + t.text
  {
    hide KindHead, StatusHead;
    HeadWords(t.kind, t.status);
  }

  /** A line is read as a tag exactly when it is that tag's own line. */
  lemma TagLineExactly(line: string, t: Tag)
    ensures ParseTag(line) == Some(t) <==> line == Render(t) && t.text != "" && Strip(t.text) == t.text
  {
    TagTextExactly(t.text);
    hide KindHead, StatusHead, FindKind, FindStatus, IsTagText, Strip;
    if line == Render(t) {
      var rest := StatusHead(t.status) + t.text;
      assert line == KindHead(t.kind) + rest;
      FindKindOf(KindIndex(t.kind), rest, 0);
      FindStatusOf(StatusIndex(t.status), t.text, 0);
      assert line[|KindHead(t.kind)|..] == rest;
      assert rest[|StatusHead(t.status)|..] == t.text;
    }
  }

  // ----- classifying a message

  const FENCES: (string, string) := ("```", "~~~")

  /** The fence marker a line starts with. */
  function MarkerOf(line: string): Option<string> {
    var stripped := StripLeft(line);
    if FENCES.0 <= stripped then Some(FENCES.0) else if FENCES.1 <= stripped then Some(FENCES.1) else None
  }

  predicate LooksLikeTag(line: string) {
    exists k | k in KINDS :: Contains(line, "[" + KindName(k) + "]")
  }

  predicate Quoted(line: string) {
    ">" <= StripLeft(line)
  }

  lemma MarksAreNoSpace()
    ensures !IsSpace('`') && !IsSpace('~') && !IsSpace('>')
  {}

  lemma OneMarker(s: string)
    ensures !("```" <= s && "~~~" <= s)
  {
    assert "```" <= s ==> s[0] == '`';
    assert "~~~" <= s ==> s[0] == '~';
  }

  /** A fence marker is three backticks or three tildes at the start of a line, a quote a '>' there; spaces aside. */
  lemma MarkersExactly(line: string, m: string)
    ensures MarkerOf(line) == Some(m) <==> (m == "```" || m == "~~~") && StartsAfterSpace(line, m)
    ensures Quoted(line) <==> StartsAfterSpace(line, ">")
  {
    hide IsSpace, StripLeft, StartsAfterSpace;
    MarksAreNoSpace();
    StripLeftStarts(line, "```");
    StripLeftStarts(line, "~~~");
    StripLeftStarts(line, ">");
    OneMarker(StripLeft(line));
  }

  lemma Bracketed(k: Kind)
    ensures k in KINDS
    ensures "[" + KindName(k) + "]" == match k
      case Goal => "[GOAL]" case Decision => "[DECISION]" case Fact => "[FACT]" case Constraint => "[CONSTRAINT]"
      case Todo => "[TODO]" case Preference => "[PREFERENCE]" case Failure => "[FAILURE]" case Lesson => "[LESSON]"
  {
    assert KINDS[KindIndex(k)] == k;
  }

  /** Looking like a tag takes one of the eight bracketed words, anywhere on the line. */
  lemma LookalikesAre(line: string)
    ensures LooksLikeTag(line) <==>
      || Contains(line, "[GOAL]") || Contains(line, "[DECISION]") || Contains(line, "[FACT]") || Contains(line, "[CONSTRAINT]")
      || Contains(line, "[TODO]") || Contains(line, "[PREFERENCE]") || Contains(line, "[FAILURE]") || Contains(line, "[LESSON]")
  {
    hide Contains, KindName, KINDS;
    Bracketed(Goal);
    Bracketed(Decision);
    Bracketed(Fact);
    Bracketed(Constraint);
    Bracketed(Todo);
    Bracketed(Preference);
    Bracketed(Failure);
    Bracketed(Lesson);
    if LooksLikeTag(line) {
      var k :| k in KINDS && Contains(line, "[" + KindName(k) + "]");
      Bracketed(k);
    }
  }

  function Toggle(fence: Option<string>, line: string): Option<string> {
    var marker := MarkerOf(line);
    if marker.None? then fence else if fence.None? then marker else if marker == fence then None else fence
  }

  /** The fence that is open before line `n`. */
  function FenceBefore(lines: seq<string>, n: nat): Option<string>
    requires n <= |lines|
  {
    if n == 0 then None else Toggle(FenceBefore(lines, n - 1), lines[n - 1])
  }

  datatype Place = Nothing | Excluded | Malformed | Valid(tag: Tag)

  const MAX_TEXT := 2000

  function PlaceOf(line: string, fence: Option<string>): Place {
    if MarkerOf(line).Some? || !LooksLikeTag(line) then Nothing
    else if fence.Some? || Quoted(line) then Excluded
    else
      var tag := ParseTag(line);
      if tag.None? || |tag.value.text| > MAX_TEXT then Malformed else Valid(tag.value)
  }

  datatype Classes = Classes(valid: seq<Tag>, malformed: seq<string>, excluded: seq<string>)

  function Placed(c: Classes, line: string, place: Place): Classes {
    match place
    case Nothing => c
    case Excluded => c.(excluded := c.excluded + [line])
    case Malformed => c.(malformed := c.malformed + [line])
    case Valid(tag) => c.(valid := c.valid + [tag])
  }

  function Classified(lines: seq<string>, n: nat): Classes
    requires n <= |lines|
  {
    if n == 0 then Classes([], [], [])
    else
      Placed(Classified(lines, n - 1), lines[n - 1], PlaceOf(lines[n - 1], FenceBefore(lines, n - 1)))
  }

  /** A fence is open exactly from a marker that found none open to the next line with the same marker. */
  lemma {:induction false} FenceIsOpenExactly(lines: seq<string>, n: nat, m: string)
    requires n <= |lines|
    ensures FenceBefore(lines, n) == Some(m) <==> exists i :: 0 <= i < n && OpensAt(lines, i, n, m)
  {
    hide MarkerOf;
    if n > 0 {
      FenceIsOpenExactly(lines, n - 1, m);
      if FenceBefore(lines, n) == Some(m) {
        if FenceBefore(lines, n - 1).None? {
          assert OpensAt(lines, n - 1, n, m);
        } else {
          var i :| 0 <= i < n - 1 && OpensAt(lines, i, n - 1, m);
          assert OpensAt(lines, i, n, m);
        }
      }
      if i :| 0 <= i < n && OpensAt(lines, i, n, m) {
        if i < n - 1 {
          assert OpensAt(lines, i, n - 1, m);
        }
      }
    }
  }

  /** Line `i` opens the fence `m`, and no line up to `n` closes it. */
  predicate OpensAt(lines: seq<string>, i: nat, n: nat, m: string)
    requires i < n <= |lines|
  {
    FenceBefore(lines, i).None? && MarkerOf(lines[i]) == Some(m) && forall j :: i < j < n ==> MarkerOf(lines[j]) != Some(m)
  }

  /** The valid tags are exactly those that stand as a line of their own, written out in full, outside fences;
      and each line that looks like a tag and is no fence marker is in exactly one class. */
  lemma {:induction false} ClassesAreExact(lines: seq<string>, n: nat)
    requires n <= |lines|
    ensures forall t :: t in Classified(lines, n).valid ==> exists i :: 0 <= i < n && IsValidAt(lines, i, t)
    ensures forall i, t :: 0 <= i < n && IsValidAt(lines, i, t) ==> t in Classified(lines, n).valid
    ensures var c := Classified(lines, n); |c.valid| + |c.malformed| + |c.excluded| == Lookalikes(lines, n)
  {
    hide PlaceOf, LooksLikeTag, MarkerOf, IsValidAt, FenceBefore;
    if n > 0 {
      ClassesAreExact(lines, n - 1);
      PlaceIsValid(lines, n - 1);
    }
  }

  predicate IsValidAt(lines: seq<string>, i: nat, t: Tag)
    requires i < |lines|
  {
    lines[i] == Render(t) && IsTagText(t.text) && |t.text| <= 2000 && FenceBefore(lines, i).None?
  }

  /** A line that looks like a tag and is no fence marker. */
  predicate IsLookalike(line: string) {
    MarkerOf(line).None? && LooksLikeTag(line)
  }

  /** A lookalike inside a fence or behind a quote mark. */
  predicate IsExcludedAt(lines: seq<string>, i: nat)
    requires i < |lines|
  {
    IsLookalike(lines[i]) && (FenceBefore(lines, i).Some? || Quoted(lines[i]))
  }

  /** A lookalike outside fences and quotes that is not the line of a tag of allowed length. */
  ghost predicate IsMalformedAt(lines: seq<string>, i: nat)
    requires i < |lines|
  {
    IsLookalike(lines[i]) && FenceBefore(lines, i).None? && !Quoted(lines[i]) && forall t :: !IsValidAt(lines, i, t)
  }

  lemma PlaceOfOthers(lines: seq<string>, i: nat)
    requires i < |lines|
    ensures var place := PlaceOf(lines[i], FenceBefore(lines, i));
      (place == Excluded <==> IsExcludedAt(lines, i)) && (place == Malformed <==> IsMalformedAt(lines, i))
  {
    hide ParseTag, Render, IsTagText, MarkerOf, LooksLikeTag, FenceBefore, Quoted, IsValidAt;
    PlaceIsValid(lines, i);
  }

  /** Reading on only adds to the ends of the three classes: each keeps the order of the lines. */
  lemma ClassesGrow(lines: seq<string>, n: nat)
    requires n < |lines|
    ensures var c, d := Classified(lines, n), Classified(lines, n + 1);
      && c.valid <= d.valid && c.malformed <= d.malformed && c.excluded <= d.excluded
      && |d.valid| + |d.malformed| + |d.excluded| <= |c.valid| + |c.malformed| + |c.excluded| + 1
  {
    ClassifiedNext(lines, n);
    hide Classified, PlaceOf;
    PlacedGrows(Classified(lines, n), lines[n], PlaceOf(lines[n], FenceBefore(lines, n)));
  }

  lemma ClassifiedNext(lines: seq<string>, n: nat)
    requires n < |lines|
    ensures Classified(lines, n + 1) == Placed(Classified(lines, n), lines[n], PlaceOf(lines[n], FenceBefore(lines, n)))
  {
    hide PlaceOf, Placed, FenceBefore;
  }

  lemma PlacedGrows(c: Classes, line: string, place: Place)
    ensures var d := Placed(c, line, place);
      && c.valid <= d.valid && c.malformed <= d.malformed && c.excluded <= d.excluded
      && |d.valid| + |d.malformed| + |d.excluded| <= |c.valid| + |c.malformed| + |c.excluded| + 1
  {
  }

  /** The other two classes, line by line: exactly the excluded and the malformed lookalikes. */
  lemma {:induction false} OtherClassesAreExact(lines: seq<string>, n: nat)
    requires n <= |lines|
    ensures forall l :: l in Classified(lines, n).excluded <==> exists i :: 0 <= i < n && lines[i] == l && IsExcludedAt(lines, i)
    ensures forall l :: l in Classified(lines, n).malformed <==> exists i :: 0 <= i < n && lines[i] == l && IsMalformedAt(lines, i)
  {
    hide PlaceOf, LooksLikeTag, MarkerOf, IsExcludedAt, IsMalformedAt, FenceBefore;
    if n > 0 {
      OtherClassesAreExact(lines, n - 1);
      PlaceOfOthers(lines, n - 1);
    }
  }

  function Lookalikes(lines: seq<string>, n: nat): nat
    requires n <= |lines|
  {
    if n == 0 then 0
    else Lookalikes(lines, n - 1) + if IsLookalike(lines[n - 1]) then 1 else 0
  }

  /** A written tag starts no fence and no quote, and looks like a tag. */
  lemma RenderedLine(t: Tag)
    ensures MarkerOf(Render(t)).None? && LooksLikeTag(Render(t)) && !Quoted(Render(t))
  {
    hide Contains, KindName, StatusHead;
    var line, head := Render(t), "[" + KindName(t.kind) + "]";
    assert line[0] == '[' && StripLeft(line) == line;
    assert line[0..0 + |head|] == head;
    ContainsAt(line, head, 0);
    assert KINDS[KindIndex(t.kind)] in KINDS;
  }

  lemma PlaceIsValid(lines: seq<string>, i: nat)
    requires i < |lines|
    ensures var place := PlaceOf(lines[i], FenceBefore(lines, i));
      && (forall t :: place == Valid(t) <==> IsValidAt(lines, i, t))
      && (place == Nothing <==> MarkerOf(lines[i]).Some? || !LooksLikeTag(lines[i]))
  {
    hide ParseTag, Render, IsTagText, MarkerOf, LooksLikeTag, FenceBefore, Quoted;
    forall t ensures ParseTag(lines[i]) == Some(t) <==> lines[i] == Render(t) && IsTagText(t.text) {
      TagTextExactly(t.text);
      TagLineExactly(lines[i], t);
    }
    forall t ensures MarkerOf(Render(t)).None? && LooksLikeTag(Render(t)) && !Quoted(Render(t)) {
      RenderedLine(t);
    }
  }

  /** One line of the loop: its class and the fence after it. */
  method ClassifyLine(c: Classes, fence: Option<string>, line: string) returns (next: Classes, open: Option<string>)
    ensures next == Placed(c, line, PlaceOf(line, fence)) && open == Toggle(fence, line)
  {
    hide LooksLikeTag, ParseTag, MarkerOf;
    next, open := c, fence;
    var stripped := StripLeft(line);
    var marker := MarkerOf(line);
    if marker.Some? {
      if fence.None? {
        open := marker;
      } else if marker == fence {
        open := None;
      }
      return;
    }
    if !LooksLikeTag(line) {
      return;
    }
    if fence.Some? || ">" <= stripped {
      next := c.(excluded := c.excluded + [line]);
      return;
    }
    var tag := ParseTag(line);
    if tag.None? || |tag.value.text| > MAX_TEXT {
      next := c.(malformed := c.malformed + [line]);
      return;
    }
    next := c.(valid := c.valid + [tag.value]);
  }

  method ClassifyFinalizationText(content: string) returns (c: Classes)
    ensures c == Classified(Lines(content), |Lines(content)|)
  {
    hide Lines, Placed, PlaceOf, Toggle;
    var lines := Lines(content);
    c := Classes([], [], []);
    var fence: Option<string> := None;
    for n := 0 to |lines|
      invariant c == Classified(lines, n) && fence == FenceBefore(lines, n)
    {
      c, fence := ClassifyLine(c, fence, lines[n]);
    }
  }
}
