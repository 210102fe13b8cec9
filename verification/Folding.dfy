/**
 Cross-event verbatim folding of the resume transcript. A body that repeats an earlier body of
 at least 240 characters carries a pointer to the earlier event instead of the repeated text.
 */
module Folding {
  import opened Text
  import Decimal

  const FOLD_MIN_CHARS := 240

  datatype View = View(id: string, level: string, content: string)
  datatype Event = Event(id: string, ordinal: nat, kind: string, role: string, files: seq<string>, content: string)

  /** One event already rendered: its id and the text that later events may repeat. */
  datatype Body = Body(id: string, text: string)

  function Pointer(id: string): string {
    "<folded: identical to " + id + ">"
  }

  /**
   The representation an event is rendered from: a tool output shows its compact view once none
   of its files is active, everything else shows its canonical content. `key` is the
   normalisation of a file name, `views` the stored compact views.
   */
  function EventBody(e: Event, active: set<string>, key: string -> string, views: map<string, View>): (string, string) {
    if e.kind == "tool_output" && (forall f | f in e.files :: key(f) !in active) && e.id in views then
      (views[e.id].content, "derived-" + views[e.id].level + ":" + views[e.id].id)
    else
      (e.content, "canonical-verbatim")
  }

  function Frame(e: Event, content: string, representation: string): string {
    var files := if e.files != [] then " files=" + Join(e.files, ",") else "";
    "<event id=" + e.id + " seq=" + Decimal.Of(e.ordinal) + " kind=" + e.kind + " role=" + (if e.role == "" then "none" else e.role) + files
    + " representation=" + representation + ">\n" + content + "\n</event>"
  }

  function FoldStep(text: string, earlier: Body): string {
    if |earlier.text| >= FOLD_MIN_CHARS && Contains(text, earlier.text)
    then Replace(text, earlier.text, Pointer(earlier.id))
    else text
  }

  /** The earlier bodies are tried oldest first, each on the result of the one before. */
  function FoldBody(text: string, corpus: seq<Body>): string {
    if corpus == [] then text
    else FoldStep(FoldBody(text, corpus[..|corpus| - 1]), corpus[|corpus| - 1])
  }

  /** Resolve the pointers again, newest earlier body first. */
  function UnfoldBody(text: string, corpus: seq<Body>): string
    decreases |corpus|
  {
    if corpus == [] then text
    else
      var last := corpus[|corpus| - 1];
      UnfoldBody(Replace(text, Pointer(last.id), last.text), corpus[..|corpus| - 1])
  }

  function FoldAll(bodies: seq<Body>): (folded: seq<Body>)
    ensures |folded| == |bodies|
  {
    seq(|bodies|, i requires 0 <= i < |bodies| => Body(bodies[i].id, FoldBody(bodies[i].text, bodies[..i])))
  }

  /** A reader that sees only the folded texts, in order. */
  function UnfoldAll(folded: seq<Body>): (bodies: seq<Body>)
    ensures |bodies| == |folded|
  {
    if folded == [] then []
    else
      var earlier := UnfoldAll(folded[..|folded| - 1]);
      var last := folded[|folded| - 1];
      earlier + [Body(last.id, UnfoldBody(last.text, earlier))]
  }

  // ----- one replacement and its inverse

  /** The shape of a pointer: one '<', at the front, and one '>', at the end. */
  predicate Bracketed(p: string) {
    |p| >= 2 && p[0] == '<' && p[|p| - 1] == '>' &&
    (forall i | 0 < i < |p| :: p[i] != '<') && (forall i | 0 <= i < |p| - 1 :: p[i] != '>')
  }

  predicate BracketFree(id: string) {
    '<' !in id && '>' !in id
  }

  lemma PointerIsBracketed(id: string)
    requires BracketFree(id)
    ensures Bracketed(Pointer(id))
  {
    var head := "<folded: identical to ";
    var p := Pointer(id);
    assert p == head + id + ">";
    forall i | 0 <= i < |p|
      ensures i > 0 ==> p[i] != '<'
      ensures i < |p| - 1 ==> p[i] != '>'
    {
      if |head| <= i < |p| - 1 {
        assert p[i] == id[i - |head|];
      }
    }
  }

  lemma PointersDiffer(a: string, b: string)
    requires Pointer(a) == Pointer(b)
    ensures a == b
  {
    var head := "<folded: identical to ";
    assert Pointer(a)[|head|..|Pointer(a)| - 1] == a;
    assert Pointer(b)[|head|..|Pointer(b)| - 1] == b;
  }

  /** Two pointer shapes starting at the same place are the same pointer. */
  lemma SameStart(t: string, p: string, q: string)
    requires Bracketed(p) && Bracketed(q) && p <= t && q <= t
    ensures p == q
  {
    var k := if |p| <= |q| then |p| - 1 else |q| - 1;
    assert p[k] == t[k] == q[k];
  }

  /** A '<'-free start of the folded text lies before the first inserted pointer. */
  lemma {:induction false} PlainStart(s: string, b: string, p: string, w: string)
    requires b != "" && Bracketed(p) && '<' !in w && w <= Replace(s, b, p)
    ensures w <= s
  {
    assert b <= s ==> w == "" by {
      assert w != "" ==> w[0] in w;
    }
    if w != "" && |s| >= |b| {
      assert w[1..] <= Replace(s[1..], b, p);
      PlainStart(s[1..], b, p, w[1..]);
      assert s == [s[0]] + s[1..];
    }
  }

  /** Folding never creates a pointer other than the one it inserts. */
  lemma {:induction false} NoNewPointer(s: string, b: string, p: string, q: string)
    requires b != "" && Bracketed(p) && Bracketed(q) && p != q && !Contains(s, q)
    ensures !Contains(Replace(s, b, p), q)
  {
    if |s| >= |b| {
      var t := Replace(s, b, p);
      if b <= s {
        var rest := Replace(s[|b|..], b, p);
        if Contains(s[|b|..], q) {
          ContainsSuffix(s, q, |b|);
        }
        NoNewPointer(s[|b|..], b, p, q);
        assert t == p + rest;
        NotInside(p, rest, q, 0);
      } else {
        NoNewPointer(s[1..], b, p, q);
        if q <= t {
          FrontIsOld(s, b, p, q);
        }
        assert t[1..] == Replace(s[1..], b, p);
      }
    }
  }

  /** `q` does not start inside `p` from position `i` on, so it is in `p + rest` only if in `rest`. */
  lemma {:induction false} NotInside(p: string, rest: string, q: string, i: nat)
    requires Bracketed(p) && Bracketed(q) && p != q && i <= |p| && !Contains(rest, q)
    ensures !Contains((p + rest)[i..], q)
    decreases |p| - i
  {
    var t := (p + rest)[i..];
    if i == |p| {
      assert t == rest;
    } else {
      NotInside(p, rest, q, i + 1);
      assert t[1..] == (p + rest)[i + 1..];
      if q <= t {
        assert t[0] == p[i] == q[0];
        if i == 0 {
          SameStart(t, p, q);
        }
      }
    }
  }

  /** A pointer at the front of an unreplaced first character was there before. */
  lemma FrontIsOld(s: string, b: string, p: string, q: string)
    requires b != "" && Bracketed(p) && Bracketed(q) && |s| >= |b| && !(b <= s) && q <= Replace(s, b, p)
    ensures q <= s
  {
    assert q == [s[0]] + q[1..];
    assert q[1..] <= Replace(s[1..], b, p);
    PlainStart(s[1..], b, p, q[1..]);
    assert s == [s[0]] + s[1..];
  }

  lemma {:induction false} ReplaceUndone(s: string, b: string, p: string)
    requires b != "" && Bracketed(p) && !Contains(s, p)
    ensures Replace(Replace(s, b, p), p, b) == s
  {
    if |s| < |b| {
      ReplaceAbsent(s, p, b);
    } else if b <= s {
      var rest := Replace(s[|b|..], b, p);
      if Contains(s[|b|..], p) {
        ContainsSuffix(s, p, |b|);
      }
      ReplaceUndone(s[|b|..], b, p);
      assert (p + rest)[|p|..] == rest;
      assert s == b + s[|b|..];
    } else {
      var rest := Replace(s[1..], b, p);
      ReplaceUndone(s[1..], b, p);
      if p <= [s[0]] + rest {
        FrontIsOld(s, b, p, p);
      }
      assert ([s[0]] + rest)[1..] == rest;
      if |[s[0]] + rest| < |p| {
        ReplaceAbsent([s[0]] + rest, p, b);
        ReplaceAbsent(rest, p, b);
      }
    }
  }

  // ----- when the replacement cannot be undone

  /** How many places `q` starts at. */
  function At(x: string, q: string): nat {
    if x == "" then 0 else (if q <= x then 1 else 0) + At(x[1..], q)
  }

  function Opens(x: string): nat {
    if x == "" then 0 else (if x[0] == '<' then 1 else 0) + Opens(x[1..])
  }

  lemma {:induction false} AtIsContained(x: string, q: string)
    requires q != ""
    ensures At(x, q) > 0 <==> Contains(x, q)
  {
    if x != "" {
      AtIsContained(x[1..], q);
      if |x| < |q| {
        assert |x[1..]| < |q|;
      }
    }
  }

  /** Nothing bracketed starts in a text without '<'. */
  lemma {:induction false} AtAfterPlain(w: string, rest: string, q: string)
    requires '<' !in w && Bracketed(q)
    ensures At(w + rest, q) == At(rest, q) && Opens(w + rest) == Opens(rest)
  {
    if w == "" {
      assert w + rest == rest;
    } else {
      assert w[0] in w && (w + rest)[0] == w[0] && (w + rest)[1..] == w[1..] + rest;
      AtAfterPlain(w[1..], rest, q);
    }
  }

  /** A pointer shape counts once, and only for itself. */
  lemma AtAfterPointer(p: string, rest: string, q: string)
    requires Bracketed(p) && Bracketed(q)
    ensures At(p + rest, q) == (if p == q then 1 else 0) + At(rest, q) && Opens(p + rest) == 1 + Opens(rest)
  {
    var x := p + rest;
    assert x[0] == '<' && x[1..] == p[1..] + rest;
    assert '<' !in p[1..] by {
      forall c | c in p[1..] ensures c != '<' {
        var i :| 0 <= i < |p[1..]| && p[1..][i] == c;
        assert p[i + 1] == c;
      }
    }
    AtAfterPlain(p[1..], rest, q);
    if q <= x {
      SameStart(x, p, q);
    }
  }

  /** Removing pointers leaves a start without '<' where it is. */
  lemma {:induction false} StartStays(x: string, p: string, b: string, w: string)
    requires Bracketed(p) && '<' !in w && w <= x
    ensures w <= Replace(x, p, b)
  {
    if w != "" && |x| >= |p| {
      assert w[0] in w && !(p <= x);
      StartStays(x[1..], p, b, w[1..]);
      assert w == [w[0]] + w[1..];
    }
  }

  lemma BracketedTail(q: string)
    requires Bracketed(q)
    ensures q == "<" + q[1..] && '<' !in q[1..] && q[1..] != "" && q[1..][|q| - 2] == '>'
  {
    forall c | c in q[1..] ensures c != '<' {
      var i :| 0 <= i < |q[1..]| && q[1..][i] == c;
      assert q[i + 1] == c;
    }
  }

  /** Replacing a pointer by plain text takes one '<' away for each, and no other pointer. */
  lemma {:induction false} PointersRemoved(x: string, p: string, b: string, q: string)
    requires Bracketed(p) && Bracketed(q) && '<' !in b
    ensures Opens(Replace(x, p, b)) + At(x, p) == Opens(x)
    ensures p != q ==> At(Replace(x, p, b), q) >= At(x, q)
  {
    hide Bracketed;
    PointerIsSome(p);
    if |x| < |p| {
      TooShort(x, p);
    } else if p <= x {
      var rest := x[|p|..];
      PointersRemoved(rest, p, b, q);
      assert x == p + rest;
      AtAfterPointer(p, rest, p);
      AtAfterPointer(p, rest, q);
      AtAfterPlain(b, Replace(rest, p, b), q);
    } else {
      PointersRemoved(x[1..], p, b, q);
      var r := [x[0]] + Replace(x[1..], p, b);
      assert r[1..] == Replace(x[1..], p, b);
      if q <= x {
        BracketedTail(q);
        StartStays(x[1..], p, b, q[1..]);
        assert q == [x[0]] + q[1..];
      }
    }
  }

  lemma {:induction false} TooShort(x: string, p: string)
    requires |x| < |p|
    ensures At(x, p) == 0
  {
    if x != "" {
      TooShort(x[1..], p);
    }
  }

  /** Plain text that is not inside `w` does not start in `w` when `w` ends with '>'. */
  lemma {:induction false} EndStays(s: string, b: string, p: string, w: string)
    requires b != "" && '>' !in b && w <= s && (w != "" ==> w[|w| - 1] == '>' && !Contains(w, b))
    ensures w <= Replace(s, b, p)
  {
    if w != "" && |s| >= |b| {
      NotAtFront(s, b, w);
      EndStays(s[1..], b, p, w[1..]);
      assert w == [w[0]] + w[1..];
    }
  }

  lemma NotAtFront(s: string, b: string, w: string)
    requires b != "" && '>' !in b && w != "" && w <= s && w[|w| - 1] == '>' && !Contains(w, b)
    ensures !(b <= s)
    ensures |w| > 1 ==> w[1..][|w| - 2] == '>' && !Contains(w[1..], b)
  {
    if |b| > |w| {
      assert b[|w| - 1] in b;
      assert b[|w| - 1] != w[|w| - 1];
    } else {
      assert w[..|b|] == s[..|b|];
    }
  }

  /** Inserting a pointer for plain text adds one '<' and one pointer for each, and takes no pointer away. */
  lemma {:induction false} PointersInserted(s: string, b: string, p: string, q: string)
    requires Bracketed(p) && Bracketed(q) && BracketFree(b) && b != "" && !Contains(q, b)
    ensures var r := Replace(s, b, p);
      Opens(r) >= Opens(s) && At(r, q) >= At(s, q) + if p == q then Opens(r) - Opens(s) else 0
  {
    hide Bracketed, Contains;
    if |s| >= |b| {
      if b <= s {
        var rest := s[|b|..];
        PointersInserted(rest, b, p, q);
        assert s == b + rest;
        AtAfterPlain(b, rest, q);
        AtAfterPointer(p, Replace(rest, b, p), q);
      } else {
        PointersInserted(s[1..], b, p, q);
        var r := [s[0]] + Replace(s[1..], b, p);
        assert r[1..] == Replace(s[1..], b, p);
        if q <= s {
          BracketedTail(q);
          NotInTail(q, b);
          EndStays(s[1..], b, p, q[1..]);
          assert q == [s[0]] + q[1..];
        }
      }
    }
  }

  lemma NotInTail(q: string, b: string)
    requires b != "" && !Contains(q, b) && q != ""
    ensures !Contains(q[1..], b)
  {
  }

  /** One replacement of plain text by a pointer is undone exactly when the pointer was not there before. */
  lemma ReplaceUndoneExactly(s: string, b: string, p: string)
    requires b != "" && Bracketed(p) && BracketFree(b) && !Contains(p, b)
    ensures Replace(Replace(s, b, p), p, b) == s <==> !Contains(s, p)
  {
    hide Bracketed, Contains;
    var r := Replace(s, b, p);
    PointersInserted(s, b, p, p);
    PointersRemoved(r, p, b, p);
    PointerIsSome(p);
    AtIsContained(s, p);
    if !Contains(s, p) {
      ReplaceUndone(s, b, p);
    }
  }

  lemma PointerIsSome(p: string)
    requires Bracketed(p)
    ensures p != ""
  {
  }

  // ----- a whole transcript

  predicate DistinctIds(bodies: seq<Body>) {
    forall i, j | 0 <= i < j < |bodies| :: bodies[i].id != bodies[j].id
  }

  /** No text quotes the pointer of an event before it. Quoting its own or a later one does no harm. */
  predicate QuotesNoEarlier(bodies: seq<Body>) {
    forall i, j | 0 <= j < i < |bodies| :: !Contains(bodies[i].text, Pointer(bodies[j].id))
  }

  /** What the assembler's inputs look like: distinct bracket-free ids, no quoted pointer of an earlier event. */
  predicate Foldable(bodies: seq<Body>) {
    && DistinctIds(bodies)
    && (forall i | 0 <= i < |bodies| :: BracketFree(bodies[i].id))
    && QuotesNoEarlier(bodies)
  }

  /** After folding through `corpus`, pointers to ids outside `corpus` are still absent. */
  lemma {:induction false} FoldKeepsOthersOut(text: string, corpus: seq<Body>, id: string)
    requires forall i | 0 <= i < |corpus| :: BracketFree(corpus[i].id) && corpus[i].id != id
    requires BracketFree(id) && !Contains(text, Pointer(id))
    ensures !Contains(FoldBody(text, corpus), Pointer(id))
  {
    if corpus != [] {
      var init, last := corpus[..|corpus| - 1], corpus[|corpus| - 1];
      FoldKeepsOthersOut(text, init, id);
      PointerIsBracketed(id);
      PointerIsBracketed(last.id);
      if Pointer(last.id) == Pointer(id) {
        PointersDiffer(last.id, id);
      }
      if |last.text| >= FOLD_MIN_CHARS {
        NoNewPointer(FoldBody(text, init), last.text, Pointer(last.id), Pointer(id));
      }
    }
  }

  lemma {:induction false} FoldBodyUndone(text: string, corpus: seq<Body>)
    requires DistinctIds(corpus)
    requires forall i | 0 <= i < |corpus| :: BracketFree(corpus[i].id) && !Contains(text, Pointer(corpus[i].id))
    ensures UnfoldBody(FoldBody(text, corpus), corpus) == text
  {
    if corpus != [] {
      var init, last := corpus[..|corpus| - 1], corpus[|corpus| - 1];
      var before := FoldBody(text, init);
      FoldKeepsOthersOut(text, init, last.id);
      PointerIsBracketed(last.id);
      if |last.text| >= FOLD_MIN_CHARS && Contains(before, last.text) {
        ReplaceUndone(before, last.text, Pointer(last.id));
      } else {
        ReplaceAbsent(before, Pointer(last.id), last.text);
      }
      assert Replace(FoldBody(text, corpus), Pointer(last.id), last.text) == before;
      FoldBodyUndone(text, init);
    }
  }

  lemma FoldableInit(bodies: seq<Body>)
    requires bodies != [] && Foldable(bodies)
    ensures Foldable(bodies[..|bodies| - 1])
  {
    hide Contains, Pointer;
  }

  lemma FoldAllInit(bodies: seq<Body>)
    requires bodies != []
    ensures FoldAll(bodies)[..|bodies| - 1] == FoldAll(bodies[..|bodies| - 1])
  {
    hide FoldBody;
    var init := bodies[..|bodies| - 1];
    forall i | 0 <= i < |init| ensures bodies[..i] == init[..i] {}
  }

  lemma LastBodyUndone(bodies: seq<Body>)
    requires bodies != [] && Foldable(bodies)
    ensures var n := |bodies| - 1;
      UnfoldBody(FoldBody(bodies[n].text, bodies[..n]), bodies[..n]) == bodies[n].text
  {
    hide Contains, Pointer, FoldBody, UnfoldBody;
    FoldBodyUndone(bodies[|bodies| - 1].text, bodies[..|bodies| - 1]);
  }

  /** Folding is lossless: a reader of the folded texts recovers every body. */
  lemma {:induction false} FoldingIsLossless(bodies: seq<Body>)
    requires Foldable(bodies)
    ensures UnfoldAll(FoldAll(bodies)) == bodies
  {
    if bodies != [] {
      var n := |bodies| - 1;
      var folded := FoldAll(bodies);
      FoldableInit(bodies);
      FoldAllInit(bodies);
      FoldingIsLossless(bodies[..n]);
      LastBodyUndone(bodies);
      assert UnfoldAll(folded) == bodies[..n] + [Body(folded[n].id, UnfoldBody(folded[n].text, bodies[..n]))];
    }
  }

  /** A body that quotes the pointer of an earlier event is unfolded into that event. */
  lemma QuotedPointerIsNotRecovered()
    ensures exists bodies: seq<Body> ::
              DistinctIds(bodies) && (forall b | b in bodies :: BracketFree(b.id)) && UnfoldAll(FoldAll(bodies)) != bodies
  {
    var bodies := [Body("a", "x"), Body("b", Pointer("a"))];
    var folded := FoldAll(bodies);
    assert bodies[..1] == [Body("a", "x")] && bodies[..0] == [] && bodies[..1][..0] == [];
    assert folded[0].text == FoldBody("x", []);
    assert folded[1].text == FoldStep(FoldBody(Pointer("a"), []), Body("a", "x"));
    assert folded == bodies;
    assert folded[..1][..0] == [];
    assert UnfoldAll(folded[..1]) == [Body("a", "x")];
    assert Replace(Pointer("a"), Pointer("a"), "x") == "x" + Replace("", Pointer("a"), "x");
    assert [Body("a", "x")][..0] == [];
    assert UnfoldBody(Pointer("a"), [Body("a", "x")]) == "x";
    assert UnfoldAll(folded)[1].text == "x";
    assert |UnfoldAll(folded)[1].text| != |bodies[1].text|;
  }

  // ----- the rendered transcript

  // ----- exactly when a body is recovered

  /** Earlier bodies of plain text, none of the long ones part of a pointer. */
  predicate PlainCorpus(corpus: seq<Body>) {
    && DistinctIds(corpus)
    && (forall i | 0 <= i < |corpus| :: BracketFree(corpus[i].id) && BracketFree(corpus[i].text))
    && (forall i, j | 0 <= i < |corpus| && 0 <= j < |corpus| && |corpus[j].text| >= FOLD_MIN_CHARS ::
          !Contains(Pointer(corpus[i].id), corpus[j].text))
  }

  /** Pointers of a corpus in a text. */
  function Pointers(x: string, corpus: seq<Body>): nat {
    if corpus == [] then 0
    else Pointers(x, corpus[..|corpus| - 1]) + At(x, Pointer(corpus[|corpus| - 1].id))
  }

  lemma {:induction false} PointersGrow(x: string, y: string, corpus: seq<Body>, k: int, more: nat)
    requires forall i | 0 <= i < |corpus| ::
      At(y, Pointer(corpus[i].id)) >= At(x, Pointer(corpus[i].id)) + if i == k then more else 0
    ensures Pointers(y, corpus) >= Pointers(x, corpus) + if 0 <= k < |corpus| then more else 0
  {
    hide At, Pointer;
    if corpus != [] {
      var init := corpus[..|corpus| - 1];
      assert forall i | 0 <= i < |init| :: init[i] == corpus[i];
      PointersGrow(x, y, init, k, more);
    }
  }

  lemma StepPointers(x: string, corpus: seq<Body>, k: nat, i: nat)
    requires PlainCorpus(corpus) && k < |corpus| && i < |corpus|
    ensures var y, q := FoldStep(x, corpus[k]), Pointer(corpus[i].id);
      Opens(y) >= Opens(x) && At(y, q) >= At(x, q) + if i == k then Opens(y) - Opens(x) else 0
  {
    hide Contains, At, Opens, Pointer, Replace, Bracketed;
    PointerIsBracketed(corpus[i].id);
    PointerIsBracketed(corpus[k].id);
    if |corpus[k].text| >= FOLD_MIN_CHARS && Contains(x, corpus[k].text) {
      PointersInserted(x, corpus[k].text, Pointer(corpus[k].id), Pointer(corpus[i].id));
    }
  }

  /** Folding adds a pointer of the corpus for every '<' it adds. */
  lemma {:induction false} FoldAddsPointers(text: string, corpus: seq<Body>, k: nat)
    requires PlainCorpus(corpus) && k <= |corpus|
    ensures var y := FoldBody(text, corpus[..k]); Opens(y) >= Opens(text) && Pointers(y, corpus) >= Pointers(text, corpus) + (Opens(y) - Opens(text))
  {
    hide FoldStep, At, Opens, PlainCorpus, Pointers;
    if k > 0 {
      FoldAddsPointers(text, corpus, k - 1);
      var x := FoldBody(text, corpus[..k - 1]);
      assert corpus[..k][..k - 1] == corpus[..k - 1];
      var y := FoldStep(x, corpus[k - 1]);
      forall i: nat | i < |corpus|
        ensures Opens(y) >= Opens(x) && At(y, Pointer(corpus[i].id)) >= At(x, Pointer(corpus[i].id)) + if i == k - 1 then Opens(y) - Opens(x) else 0
      {
        StepPointers(x, corpus, k - 1, i);
      }
      StepPointers(x, corpus, k - 1, k - 1);
      PointersGrow(x, y, corpus, k - 1, Opens(y) - Opens(x));
    } else {
      assert corpus[..0] == [];
    }
  }

  lemma PlainInit(corpus: seq<Body>)
    requires PlainCorpus(corpus) && corpus != []
    ensures PlainCorpus(corpus[..|corpus| - 1])
  {
    hide Contains, Pointer;
  }

  /** Unfolding takes away a '<' for every pointer of the corpus. */
  lemma {:induction false} UnfoldRemovesPointers(x: string, corpus: seq<Body>)
    requires PlainCorpus(corpus)
    ensures Opens(UnfoldBody(x, corpus)) + Pointers(x, corpus) <= Opens(x)
    decreases |corpus|
  {
    hide At, Opens, Replace, Bracketed, Contains, PlainCorpus;
    if corpus != [] {
      var init, last := corpus[..|corpus| - 1], corpus[|corpus| - 1];
      var p := Pointer(last.id);
      var y := Replace(x, p, last.text);
      PlainInit(corpus);
      forall i: nat | i < |init| ensures At(y, Pointer(init[i].id)) >= At(x, Pointer(init[i].id)) {
        OtherPointerStays(x, corpus, i);
      }
      PointersGrow(x, y, init, -1, 0);
      LastPointerGoes(x, corpus);
      UnfoldRemovesPointers(y, init);
    }
  }

  lemma OtherPointerStays(x: string, corpus: seq<Body>, i: nat)
    requires PlainCorpus(corpus) && i < |corpus| - 1
    ensures var last := corpus[|corpus| - 1];
      At(Replace(x, Pointer(last.id), last.text), Pointer(corpus[i].id)) >= At(x, Pointer(corpus[i].id))
  {
    hide At, Replace, Bracketed, Contains, Pointer;
    var last := corpus[|corpus| - 1];
    PointerIsBracketed(last.id);
    PointerIsBracketed(corpus[i].id);
    if Pointer(last.id) == Pointer(corpus[i].id) {
      PointersDiffer(last.id, corpus[i].id);
    }
    PointersRemoved(x, Pointer(last.id), last.text, Pointer(corpus[i].id));
  }

  lemma LastPointerGoes(x: string, corpus: seq<Body>)
    requires PlainCorpus(corpus) && corpus != []
    ensures var last := corpus[|corpus| - 1];
      Opens(Replace(x, Pointer(last.id), last.text)) + At(x, Pointer(last.id)) == Opens(x)
  {
    hide At, Opens, Replace, Bracketed, Contains, Pointer;
    var last := corpus[|corpus| - 1];
    PointerIsBracketed(last.id);
    PointersRemoved(x, Pointer(last.id), last.text, Pointer(last.id));
  }

  lemma {:induction false} NoneCounted(x: string, corpus: seq<Body>, i: nat)
    requires Pointers(x, corpus) == 0 && i < |corpus|
    ensures !Contains(x, Pointer(corpus[i].id))
  {
    hide At, Contains;
    if i == |corpus| - 1 {
      AtIsContained(x, Pointer(corpus[i].id));
    } else {
      NoneCounted(x, corpus[..|corpus| - 1], i);
    }
  }

  /** Over earlier bodies of plain text a body is recovered exactly when it quotes none of their pointers. */
  lemma BodyIsRecoveredExactly(text: string, corpus: seq<Body>)
    requires PlainCorpus(corpus)
    ensures UnfoldBody(FoldBody(text, corpus), corpus) == text <==> forall i | 0 <= i < |corpus| :: !Contains(text, Pointer(corpus[i].id))
  {
    hide FoldBody, UnfoldBody, Opens, Pointers, Contains;
    assert corpus[..|corpus|] == corpus;
    FoldAddsPointers(text, corpus, |corpus|);
    UnfoldRemovesPointers(FoldBody(text, corpus), corpus);
    if UnfoldBody(FoldBody(text, corpus), corpus) == text {
      forall i | 0 <= i < |corpus| ensures !Contains(text, Pointer(corpus[i].id)) {
        NoneCounted(text, corpus, i);
      }
    }
    if forall i | 0 <= i < |corpus| :: !Contains(text, Pointer(corpus[i].id)) {
      FoldBodyUndone(text, corpus);
    }
  }

  lemma PlainQuotesNothing(text: string, id: string)
    requires BracketFree(text) && BracketFree(id)
    ensures !Contains(text, Pointer(id))
  {
    hide Bracketed, Contains;
    PointerIsBracketed(id);
    assert text + "" == text;
    AtAfterPlain(text, "", Pointer(id));
    AtIsContained(text, Pointer(id));
  }

  lemma PlainIsFoldable(bodies: seq<Body>)
    requires PlainCorpus(bodies)
    ensures Foldable(bodies)
  {
    hide Contains;
    forall i, j | 0 <= j < i < |bodies| ensures !Contains(bodies[i].text, Pointer(bodies[j].id)) {
      PlainQuotesNothing(bodies[i].text, bodies[j].id);
    }
  }

  /** A transcript whose bodies before the last are plain text is recovered exactly when the last one quotes no
      pointer of theirs. */
  lemma FoldingIsLosslessExactly(bodies: seq<Body>)
    requires bodies != [] && PlainCorpus(bodies[..|bodies| - 1])
    ensures UnfoldAll(FoldAll(bodies)) == bodies <==>
      forall i | 0 <= i < |bodies| - 1 :: !Contains(bodies[|bodies| - 1].text, Pointer(bodies[i].id))
  {
    hide PlainCorpus, FoldBody, UnfoldBody, Contains, Foldable;
    var n := |bodies| - 1;
    var init, folded := bodies[..n], FoldAll(bodies);
    PlainIsFoldable(init);
    FoldingIsLossless(init);
    FoldAllInit(bodies);
    BodyIsRecoveredExactly(bodies[n].text, init);
    assert UnfoldAll(folded) == init + [Body(folded[n].id, UnfoldBody(folded[n].text, init))];
    assert bodies == init + [bodies[n]];
    assert forall i | 0 <= i < n :: init[i] == bodies[i];
  }

  function Bodies(events: seq<Event>, active: set<string>, key: string -> string, views: map<string, View>): (bodies: seq<Body>)
    ensures |bodies| == |events|
  {
    seq(|events|, i requires 0 <= i < |events| => Body(events[i].id, EventBody(events[i], active, key, views).0))
  }

  /** One framed event, folded against everything rendered before it. */
  function Part(e: Event, corpus: seq<Body>, active: set<string>, key: string -> string, views: map<string, View>): string {
    var (body, representation) := EventBody(e, active, key, views);
    var folded := FoldBody(body, corpus);
    Frame(e, folded, if folded != body then representation + "+folded" else representation)
  }

  function Parts(events: seq<Event>, active: set<string>, key: string -> string, views: map<string, View>): (parts: seq<string>)
    ensures |parts| == |events|
  {
    var bodies := Bodies(events, active, key, views);
    seq(|events|, i requires 0 <= i < |events| => Part(events[i], bodies[..i], active, key, views))
  }

  function Render(events: seq<Event>, active: set<string>, key: string -> string, views: map<string, View>): string {
    Join(Parts(events, active, key, views), "\n\n")
  }

  // ----- what a rendered event says

  /** A tool output shows its compact view exactly when it has one and no file of it is active; all else is verbatim. */
  lemma EventBodyExactly(e: Event, active: set<string>, key: string -> string, views: map<string, View>)
    ensures var quiet := !exists f :: f in e.files && key(f) in active;
      && (e.kind == "tool_output" && quiet && e.id in views ==>
            EventBody(e, active, key, views) == (views[e.id].content, "derived-" + views[e.id].level + ":" + views[e.id].id))
      && (e.kind != "tool_output" || !quiet || e.id !in views ==> EventBody(e, active, key, views) == (e.content, "canonical-verbatim"))
  {
  }

  /** The frame of an event, with and without a role and files. */
  lemma FrameWords(e: Event, content: string, representation: string)
    ensures var head := "<event id=" + e.id + " seq=" + Decimal.Of(e.ordinal) + " kind=" + e.kind + " role=";
      var role, files := if e.role == "" then "none" else e.role, Join(e.files, ",");
      && (e.files == [] ==>
            Frame(e, content, representation) == head + role + "" + " representation=" + representation + ">\n" + content + "\n</event>")
      && (e.files != [] ==>
            Frame(e, content, representation)
            == head + role + (" files=" + files) + " representation=" + representation + ">\n" + content + "\n</event>")
  {
    hide Join;
  }

  lemma {:induction false} ReplaceOpens(s: string, b: string, p: string)
    requires b != "" && Bracketed(p) && BracketFree(b)
    ensures Contains(s, b) ==> Opens(Replace(s, b, p)) > Opens(s)
    ensures Opens(Replace(s, b, p)) >= Opens(s)
  {
    hide Bracketed;
    if |s| >= |b| {
      if b <= s {
        var rest := s[|b|..];
        ReplaceOpens(rest, b, p);
        assert s == b + rest;
        OpensOf(b, rest);
        OpensOf(p, Replace(rest, b, p));
        PlainOpens(b);
        BracketedOpens(p);
      } else {
        ReplaceOpens(s[1..], b, p);
        OpensOf([s[0]], s[1..]);
        OpensOf([s[0]], Replace(s[1..], b, p));
        assert s == [s[0]] + s[1..];
      }
    }
  }

  lemma {:induction false} OpensOf(x: string, y: string)
    ensures Opens(x + y) == Opens(x) + Opens(y)
  {
    if x == "" {
      assert x + y == y;
    } else {
      assert (x + y)[1..] == x[1..] + y;
      OpensOf(x[1..], y);
    }
  }

  lemma {:induction false} PlainOpens(b: string)
    requires '<' !in b
    ensures Opens(b) == 0
  {
    if b != "" {
      PlainOpens(b[1..]);
    }
  }

  lemma BracketedOpens(p: string)
    requires Bracketed(p)
    ensures Opens(p) >= 1
  {
  }

  /** A body of 240 characters or more that stands in the text. */
  predicate Repeats(text: string, earlier: Body) {
    |earlier.text| >= 240 && Contains(text, earlier.text)
  }

  lemma {:induction false} FoldCounts(text: string, corpus: seq<Body>, k: nat)
    requires PlainCorpus(corpus) && k <= |corpus|
    ensures var y := FoldBody(text, corpus[..k]);
      && Opens(y) >= Opens(text)
      && (Opens(y) == Opens(text) ==> y == text && forall i | 0 <= i < k :: !Repeats(text, corpus[i]))
      && (Opens(y) > Opens(text) ==> exists i | 0 <= i < k :: Repeats(text, corpus[i]))
  {
    hide Contains, Opens, Bracketed;
    if k == 0 {
      assert corpus[..0] == [];
    } else {
      FoldCounts(text, corpus, k - 1);
      var x, c := FoldBody(text, corpus[..k - 1]), corpus[k - 1];
      assert corpus[..k][..k - 1] == corpus[..k - 1];
      assert FoldBody(text, corpus[..k]) == FoldStep(x, c);
      PointerIsBracketed(c.id);
      hide FoldBody;
      if |c.text| >= 240 {
        ReplaceOpens(x, c.text, Pointer(c.id));
      }
      hide PlainCorpus, Pointer;
    }
  }

  /**
   An event is marked as folded exactly when its text repeats the whole text, 240 characters or more, of an event
   before it, as long as those are plain text; otherwise it stands as it is.
   */
  lemma FoldedExactly(
      events: seq<Event>, active: set<string>, key: string -> string, views: map<string, View>, i: nat)
    requires i < |events| && PlainCorpus(Bodies(events, active, key, views)[..i])
    ensures var e, part := events[i], Parts(events, active, key, views)[i];
      var (body, representation) := EventBody(e, active, key, views);
      var corpus := Bodies(events, active, key, views)[..i];
      && (forall j | 0 <= j < i :: corpus[j] == Body(events[j].id, EventBody(events[j], active, key, views).0))
      && ((forall j | 0 <= j < i :: !Repeats(body, corpus[j])) ==> part == Frame(e, body, representation))
      && ((exists j | 0 <= j < i :: Repeats(body, corpus[j])) ==>
            FoldBody(body, corpus) != body && part == Frame(e, FoldBody(body, corpus), representation + "+folded"))
  {
    hide EventBody, Frame, FoldBody, Repeats, PlainCorpus;
    var corpus := Bodies(events, active, key, views)[..i];
    FoldCounts(EventBody(events[i], active, key, views).0, corpus, i);
    assert corpus[..i] == corpus;
  }

  method FoldAgainst(body: string, corpus: seq<Body>) returns (folded: string)
    ensures folded == FoldBody(body, corpus)
  {
    folded := body;
    for k := 0 to |corpus|
      invariant folded == FoldBody(body, corpus[..k])
    {
      assert corpus[..k + 1][..k] == corpus[..k];
      if |corpus[k].text| >= FOLD_MIN_CHARS && Contains(folded, corpus[k].text) {
        folded := Replace(folded, corpus[k].text, Pointer(corpus[k].id));
      }
    }
    assert corpus[..|corpus|] == corpus;
  }

  method RenderTranscript(events: seq<Event>, active: set<string>, key: string -> string, views: map<string, View>)
    returns (text: string)
    ensures text == Render(events, active, key, views)
  {
    hide EventBody, FoldBody, Frame;
    var corpus: seq<Body> := [];
    var parts: seq<string> := [];
    ghost var bodies := Bodies(events, active, key, views);
    ghost var all := Parts(events, active, key, views);
    for n := 0 to |events|
      invariant corpus == bodies[..n]
      invariant parts == all[..n]
    {
      var (body, representation) := EventBody(events[n], active, key, views);
      var folded := FoldAgainst(body, corpus);
      if folded != body {
        representation := representation + "+folded";
      }
      parts := parts + [Frame(events[n], folded, representation)];
      assert parts[n] == Part(events[n], bodies[..n], active, key, views) == all[n];
      corpus := corpus + [Body(events[n].id, body)];
    }
    assert parts == all;
    text := Join(parts, "\n\n");
  }

  /** Adding later events never changes how the earlier ones rendered. */
  lemma RenderIsPrefixMonotone(events: seq<Event>, active: set<string>, key: string -> string, views: map<string, View>, k: nat)
    requires k <= |events|
    ensures Render(events[..k], active, key, views) <= Render(events, active, key, views)
  {
    var all := Parts(events, active, key, views);
    var bodies := Bodies(events, active, key, views);
    assert Bodies(events[..k], active, key, views) == bodies[..k];
    forall i | 0 <= i < k ensures bodies[..k][..i] == bodies[..i] {}
    assert Parts(events[..k], active, key, views) == all[..k];
    JoinPrefix(all, "\n\n", k);
  }
}
