/**
 Replay of the event tail onto a snapshot, and the lexical index that is rebuilt at its end and read
 back when a packet looks memories up by query terms.
 */
module Replay {
  import opened Basics
  import opened Text
  import opened Transcript

  datatype Block = Block(
    id: string, branch: string, name: string, content: string, version: nat, sources: seq<string>, supersedes: Option<string>, createdAt: string)

  datatype Memory = Memory(
    id: string, branch: string, createdAt: string, version: nat, memoryType: string, summary: string, content: string,
    files: seq<string>, sources: seq<string>, derivedBy: string)

  datatype IndexEntry = IndexEntry(id: string, memoryType: string, summary: string, files: seq<string>, sources: seq<string>)

  datatype TimelineEntry = TimelineEntry(ordinal: nat, id: string, time: string, kind: string, role: string, preview: string, files: seq<string>)

  /** `recent` are the transcript events carried along, each id once, in the order in which the ids came. */
  datatype State = State(
    blocks: map<string, Block>, memories: map<string, Memory>, index: map<string, IndexEntry>,
    timeline: map<string, TimelineEntry>, recent: seq<Event>, lexical: map<string, set<string>>)

  const RECENT_GROUP_LIMIT := 32

  type Terms = string -> set<string>

  function GetOr<T>(o: Option<T>, default: T): T {
    if o.Some? then o.value else default
  }

  // ----- one event

  function Preview(content: string): string {
    var flat := Join(Words(content), " ");
    if |flat| <= 160 then flat else flat[..160]
  }

  function MemoryKey(e: Event): string
    requires e.payload.DerivePayload?
  {
    GetOr(e.payload.derivation.memoryId, "replay:" + e.id)
  }

  function MemoryOf(e: Event): Memory
    requires e.payload.DerivePayload?
  {
    var d := e.payload.derivation;
    Memory(GetOr(d.id, MemoryKey(e)), GetOr(d.branch, e.branch), GetOr(d.createdAt, e.time), GetOr(d.version, 1),
           d.memoryType, d.summary, d.content, d.files, d.sources, e.id)
  }

  function IndexOf(key: string, m: Memory): IndexEntry {
    IndexEntry(key, m.memoryType, m.summary, m.files, m.sources)
  }

  predicate WritesBlock(e: Event, name: string) {
    e.kind == "memory_block" && e.payload.BlockPayload? && e.payload.block == name && name != ""
  }

  predicate Derives(e: Event) {
    e.kind == "state" && e.payload.DerivePayload?
  }

  function WithBlock(s: State, e: Event): State
    requires e.payload.BlockPayload?
  {
    var name := e.payload.block;
    var previous := if name in s.blocks then Some(s.blocks[name]) else None;
    s.(blocks := s.blocks[name := Block(
      "replay:" + e.id, e.branch, name, e.content,
      (if previous.Some? then previous.value.version else 0) + 1, [e.id],
      if previous.Some? then Some(previous.value.id) else None, e.time)])
  }

  /** A superseded memory leaves the memories and the index before the new one enters. */
  function WithMemory(s: State, e: Event): State
    requires e.payload.DerivePayload?
  {
    var gone := if e.payload.derivation.supersedes.Some? && e.payload.derivation.supersedes.value != ""
                then {e.payload.derivation.supersedes.value} else {};
    var key, m := MemoryKey(e), MemoryOf(e);
    s.(memories := (s.memories - gone)[key := m], index := (s.index - gone)[key := IndexOf(key, m)])
  }

  function WithTimeline(s: State, e: Event): State {
    s.(timeline := s.timeline[e.id := TimelineEntry(e.ordinal, e.id, e.time, e.kind, e.role, Preview(e.content), e.files)])
  }

  /** An id that is already there keeps its place. */
  function Upserted(recent: seq<Event>, e: Event): seq<Event> {
    if recent == [] then [e]
    else if recent[0].id == e.id then [e] + recent[1..]
    else [recent[0]] + Upserted(recent[1..], e)
  }

  function WithRecent(s: State, e: Event): State {
    if InTranscript(e) then s.(recent := Upserted(s.recent, e)) else s
  }

  function Apply(s: State, e: Event): State {
    var t := WithRecent(WithTimeline(s, e), e);
    if e.kind == "memory_block" && e.payload.BlockPayload? && e.payload.block != "" then WithBlock(t, e)
    else if Derives(e) then WithMemory(t, e)
    else t
  }

  function ApplyAll(s: State, events: seq<Event>): State
    decreases |events|
  {
    if events == [] then s else ApplyAll(Apply(s, events[0]), events[1..])
  }

  // ----- the lexical index

  function MemoryText(m: Memory): string {
    m.summary + "\n" + m.content + "\n" + Join(m.files, " ")
  }

  function MemoryTerms(memories: map<string, Memory>, terms: Terms): set<string> {
    set id, term | id in memories && term in terms(MemoryText(memories[id])) :: term
  }

  function Holders(memories: map<string, Memory>, terms: Terms, term: string): set<string> {
    set id | id in memories && term in terms(MemoryText(memories[id]))
  }

  /** Every term of any memory, with the memories whose text has it. */
  function Lexical(memories: map<string, Memory>, terms: Terms): map<string, set<string>> {
    map term | term in MemoryTerms(memories, terms) :: Holders(memories, terms, term)
  }

  function Replayed(s: State, events: seq<Event>, terms: Terms): State {
    var t := ApplyAll(s, events);
    t.(recent := Recent(t.recent, RECENT_GROUP_LIMIT), lexical := Lexical(t.memories, terms))
  }

  // ----- composition

  lemma {:induction false} ApplyAllSplit(s: State, xs: seq<Event>, ys: seq<Event>)
    ensures ApplyAll(s, xs + ys) == ApplyAll(ApplyAll(s, xs), ys)
    decreases |xs|
  {
    hide Apply;
    if xs == [] {
      assert xs + ys == ys;
    } else {
      assert (xs + ys)[1..] == xs[1..] + ys;
      ApplyAllSplit(Apply(s, xs[0]), xs[1..], ys);
    }
  }

  /** A state with other recent events and another index. */
  function Other(s: State, recent: seq<Event>, lexical: map<string, set<string>>): State {
    s.(recent := recent, lexical := lexical)
  }

  lemma ShownBeside(s: State, e: Event, r: seq<Event>, l: map<string, set<string>>)
    ensures WithRecent(WithTimeline(Other(s, r, l), e), e)
         == Other(WithRecent(WithTimeline(s, e), e), if InTranscript(e) then Upserted(r, e) else r, l)
  {
    hide Preview, Upserted, InTranscript;
  }

  lemma WrittenBeside(s: State, e: Event, r: seq<Event>, l: map<string, set<string>>)
    ensures e.payload.BlockPayload? ==> WithBlock(Other(s, r, l), e) == Other(WithBlock(s, e), r, l)
    ensures e.payload.DerivePayload? ==> WithMemory(Other(s, r, l), e) == Other(WithMemory(s, e), r, l)
  {
    hide MemoryOf, MemoryKey, IndexOf;
  }

  lemma ApplyBeside(s: State, e: Event, r: seq<Event>, l: map<string, set<string>>)
    ensures Apply(Other(s, r, l), e) == Other(Apply(s, e), if InTranscript(e) then Upserted(r, e) else r, l)
  {
    hide WithRecent, WithTimeline, WithBlock, WithMemory, Upserted, InTranscript, Other;
    ShownBeside(s, e, r, l);
    WrittenBeside(WithRecent(WithTimeline(s, e), e), e, if InTranscript(e) then Upserted(r, e) else r, l);
  }

  lemma {:induction false} ApplyAllBeside(s: State, events: seq<Event>, r: seq<Event>, l: map<string, set<string>>)
    ensures var with := ApplyAll(Other(s, r, l), events); with == Other(ApplyAll(s, events), with.recent, l)
    decreases |events|
  {
    hide Apply, InTranscript, Upserted;
    if events != [] {
      ApplyBeside(s, events[0], r, l);
      ApplyAllBeside(Apply(s, events[0]), events[1..], if InTranscript(events[0]) then Upserted(r, events[0]) else r, l);
    }
  }

  /** A snapshot taken anywhere gives the same state beside the recent events: replay composes, index included. */
  lemma ReplayComposes(s: State, xs: seq<Event>, ys: seq<Event>, terms: Terms)
    ensures Replayed(Replayed(s, xs, terms), ys, terms).(recent := []) == Replayed(s, xs + ys, terms).(recent := [])
  {
    hide Lexical, Recent;
    ApplyAllSplit(s, xs, ys);
    var t := ApplyAll(s, xs);
    ApplyAllBeside(t, ys, Recent(t.recent, RECENT_GROUP_LIMIT), Lexical(t.memories, terms));
  }

  lemma {:induction false} UpsertedNew(recent: seq<Event>, e: Event)
    requires forall i | 0 <= i < |recent| :: recent[i].id != e.id
    ensures Upserted(recent, e) == recent + [e]
  {
    if recent != [] {
      UpsertedNew(recent[1..], e);
    }
  }

  /** An event that was carried already takes the place of its earlier version; a new one goes to the end. */
  lemma {:induction false} UpsertedExactly(recent: seq<Event>, e: Event, n: nat)
    requires n <= |recent| && (forall i | 0 <= i < n :: recent[i].id != e.id) && (n < |recent| ==> recent[n].id == e.id)
    ensures Upserted(recent, e) == if n < |recent| then recent[n := e] else recent + [e]
  {
    if n > 0 {
      var rest := recent[1..];
      UpsertedExactly(rest, e, n - 1);
      assert recent == [recent[0]] + rest;
      assert n < |recent| ==> recent[n := e] == [recent[0]] + rest[n - 1 := e];
    }
  }

  lemma {:induction false} RecentOfLog(s: State, events: seq<Event>)
    requires Log(s.recent + events)
    ensures ApplyAll(s, events).recent == s.recent + Spoken(events)
    decreases |events|
  {
    hide Apply, InTranscript, Log;
    if events == [] {
      assert s.recent + [] == s.recent;
    } else {
      var init, last := events[..|events| - 1], events[|events| - 1];
      assert events == init + [last];
      ApplyAllSplit(s, init, [last]);
      assert [last][1..] == [];
      assert s.recent + events == (s.recent + init) + [last];
      LogInit(s.recent + init, last);
      RecentOfLog(s, init);
      var t := ApplyAll(s, init);
      SpokenIn(init);
      UpsertedNew(t.recent, last);
      ApplyBeside(t, last, t.recent, t.lexical);
      assert Other(t, t.recent, t.lexical) == t;
      assert s.recent + Spoken(init) + [] == s.recent + Spoken(init);
      assert s.recent + (Spoken(init) + [last]) == s.recent + Spoken(init) + [last];
    }
  }

  lemma LogInit(events: seq<Event>, last: Event)
    requires Log(events + [last])
    ensures Log(events) && forall e | e in events :: e.id != last.id
  {
    var all := events + [last];
    assert forall i | 0 <= i < |events| :: all[i] == events[i];
    assert all[|events|] == last;
  }

  /** What a replay carries along, for events in the order of the log. */
  lemma RecentOfReplayed(s: State, events: seq<Event>, terms: Terms)
    requires Log(s.recent + events)
    ensures Replayed(s, events, terms).recent == Recent(s.recent + events, RECENT_GROUP_LIMIT)
  {
    hide Log, Recent, Lexical, ApplyAll;
    RecentOfLog(s, events);
    LogInOrder(s.recent + events);
    RecentOfSpoken(s.recent, events, RECENT_GROUP_LIMIT);
  }

  /**
   Replaying a tail onto any snapshot is replaying the whole log, for every tail, exactly when no call that the
   snapshot left behind still waits for an output under its name.
   */
  lemma ReplayComposesExactly(s: State, xs: seq<Event>, terms: Terms)
    requires Log(s.recent + xs)
    ensures (forall ys | Log(s.recent + xs + ys) :: Replayed(Replayed(s, xs, terms), ys, terms) == Replayed(s, xs + ys, terms))
       <==> NoneMissing(s.recent + xs, 32)
  {
    hide Log, Recent, Replayed, NoneMissing;
    var z := s.recent + xs;
    RecentGoesOnExactly(z, RECENT_GROUP_LIMIT);
    forall ys | Log(z + ys)
      ensures Replayed(Replayed(s, xs, terms), ys, terms) == Replayed(s, xs + ys, terms)
         <==> Recent(Recent(z, RECENT_GROUP_LIMIT) + ys, RECENT_GROUP_LIMIT) == Recent(z + ys, RECENT_GROUP_LIMIT)
    {
      ReplayComposes(s, xs, ys, terms);
      RecentOfReplayed(s, xs, terms);
      RecentIsLog(z, ys, RECENT_GROUP_LIMIT);
      RecentOfReplayed(Replayed(s, xs, terms), ys, terms);
      assert s.recent + (xs + ys) == z + ys;
      RecentOfReplayed(s, xs + ys, terms);
    }
  }

  // ----- what a replay leaves

  /** The index describes exactly the memories. */
  predicate Coherent(s: State) {
    s.index.Keys == s.memories.Keys && forall id | id in s.memories :: s.index[id] == IndexOf(id, s.memories[id])
  }

  lemma WithMemoryKeepsCoherence(s: State, e: Event)
    requires Coherent(s) && e.payload.DerivePayload?
    ensures Coherent(WithMemory(s, e))
  {
    hide MemoryOf, MemoryKey, IndexOf;
  }

  lemma ApplyKeepsCoherence(s: State, e: Event)
    requires Coherent(s)
    ensures Coherent(Apply(s, e))
  {
    var t := WithRecent(WithTimeline(s, e), e);
    assert t.memories == s.memories && t.index == s.index;
    hide WithRecent, WithTimeline, IndexOf;
    if Derives(e) {
      WithMemoryKeepsCoherence(t, e);
    }
    hide WithMemory;
  }

  lemma {:induction false} ReplayKeepsCoherence(s: State, events: seq<Event>, terms: Terms)
    requires Coherent(s)
    ensures Coherent(Replayed(s, events, terms))
    decreases |events|
  {
    hide Lexical, Recent, Apply, IndexOf;
    if events != [] {
      ApplyKeepsCoherence(s, events[0]);
      ReplayKeepsCoherence(Apply(s, events[0]), events[1..], terms);
    }
  }

  /** What an event does to one memory id. */
  datatype Touch = Untouched | Removed | Written(memory: Memory)

  function TouchOf(e: Event, id: string): Touch {
    if !Derives(e) then Untouched
    else if MemoryKey(e) == id then Written(MemoryOf(e))
    else if id != "" && e.payload.derivation.supersedes == Some(id) then Removed
    else Untouched
  }

  /** The last thing that happened to an id. */
  function LastTouch(events: seq<Event>, id: string): Touch {
    if events == [] then Untouched
    else
      var last := TouchOf(events[|events| - 1], id);
      if last.Untouched? then LastTouch(events[..|events| - 1], id) else last
  }

  lemma TouchDecides(s: State, e: Event, id: string)
    ensures match TouchOf(e, id)
      case Written(m) => id in Apply(s, e).memories && Apply(s, e).memories[id] == m
      case Removed => id !in Apply(s, e).memories
      case Untouched => (id in Apply(s, e).memories <==> id in s.memories) && (id in s.memories ==> Apply(s, e).memories[id] == s.memories[id])
  {
    hide Preview, MemoryOf, IndexOf;
  }

  /** A memory is live after a replay exactly as the last event that wrote or superseded it says. */
  lemma {:induction false} LastEventDecides(s: State, events: seq<Event>, terms: Terms, id: string)
    ensures var after := Replayed(s, events, terms).memories;
      match LastTouch(events, id)
      case Written(m) => id in after && after[id] == m
      case Removed => id !in after
      case Untouched => (id in after <==> id in s.memories) && (id in s.memories ==> after[id] == s.memories[id])
    decreases |events|
  {
    hide Apply, TouchOf, Lexical;
    if events != [] {
      var init, last := events[..|events| - 1], events[|events| - 1];
      assert events == init + [last];
      ApplyAllSplit(s, init, [last]);
      assert [last][1..] == [];
      LastEventDecides(s, init, terms, id);
      TouchDecides(ApplyAll(s, init), last, id);
    }
  }

  function Writes(events: seq<Event>, name: string): nat {
    if events == [] then 0 else (if WritesBlock(events[0], name) then 1 else 0) + Writes(events[1..], name)
  }

  function VersionOf(s: State, name: string): nat {
    if name in s.blocks then s.blocks[name].version else 0
  }

  lemma ApplyCounts(s: State, e: Event, name: string)
    ensures VersionOf(Apply(s, e), name) == VersionOf(s, name) + if WritesBlock(e, name) then 1 else 0
  {
    hide Preview, MemoryOf, IndexOf, Upserted, InTranscript;
  }

  /** A block's version counts its updates. */
  lemma {:induction false} VersionsCountUpdates(s: State, events: seq<Event>, terms: Terms, name: string)
    ensures VersionOf(Replayed(s, events, terms), name) == VersionOf(s, name) + Writes(events, name)
    decreases |events|
  {
    hide Lexical, Recent, Apply, WritesBlock;
    if events != [] {
      ApplyCounts(s, events[0], name);
      VersionsCountUpdates(Apply(s, events[0]), events[1..], terms, name);
    }
  }

  /** The memory that a derivation event describes: what the event says, and where it says nothing the event's own. */
  lemma MemoryExactly(e: Event)
    requires e.payload.DerivePayload?
    ensures var d, m, key := e.payload.derivation, MemoryOf(e), MemoryKey(e);
      && key == (match d.memoryId case Some(id) => id case None => "replay:" + e.id)
      && m.memoryType == d.memoryType && m.summary == d.summary && m.content == d.content && m.files == d.files
      && m.sources == d.sources && m.derivedBy == e.id
      && m.id == (match d.id case Some(id) => id case None => key)
      && m.branch == (match d.branch case Some(b) => b case None => e.branch)
      && m.createdAt == (match d.createdAt case Some(time) => time case None => e.time)
      && m.version == (match d.version case Some(v) => v case None => 1)
    ensures forall key, m :: IndexOf(key, m).id == key && IndexOf(key, m).memoryType == m.memoryType && IndexOf(key, m).summary == m.summary
                             && IndexOf(key, m).files == m.files && IndexOf(key, m).sources == m.sources
  {
  }

  /** Only a derivation event of the state touches a memory: it removes what it supersedes, and writes its own. */
  lemma TouchExactly(e: Event, id: string)
    ensures var derives := e.kind == "state" && e.payload.DerivePayload?;
      && (TouchOf(e, id).Written? <==> derives && MemoryKey(e) == id)
      && (TouchOf(e, id).Removed? <==> derives && MemoryKey(e) != id && id != "" && e.payload.derivation.supersedes == Some(id))
      && (TouchOf(e, id).Written? ==> TouchOf(e, id).memory == MemoryOf(e))
  {
    hide MemoryOf;
  }

  /** The text a memory is found by: its summary, its content and its files. */
  lemma MemoryTextWords(m: Memory)
    ensures MemoryText(m) == m.summary + ("\n" + (m.content + ("\n" + Join(m.files, " "))))
  {
    hide Join;
  }

  /** The last event with an id. */
  function LastOf(events: seq<Event>, id: string): Option<nat> {
    if events == [] then None
    else if events[|events| - 1].id == id then Some(|events| - 1)
    else LastOf(events[..|events| - 1], id)
  }

  lemma ApplyShows(s: State, e: Event, id: string)
    ensures var after := Apply(s, e).timeline;
      if e.id == id then
        id in after && after[id] == TimelineEntry(e.ordinal, e.id, e.time, e.kind, e.role, Preview(e.content), e.files)
      else
        (id in after <==> id in s.timeline) && (id in s.timeline ==> after[id] == s.timeline[id])
  {
    var shown := WithTimeline(s, e);
    var t := WithRecent(shown, e);
    assert t.timeline == shown.timeline;
    hide Preview, WithRecent, Derives;
    assert e.payload.BlockPayload? ==> WithBlock(t, e).timeline == t.timeline;
    assert e.payload.DerivePayload? ==> WithMemory(t, e).timeline == t.timeline;
    hide WithBlock, WithMemory;
  }

  /** The timeline has every event replayed, as its last occurrence says, with a preview of its content. */
  lemma {:induction false} TimelineIsLog(s: State, events: seq<Event>, terms: Terms, id: string)
    ensures var after := Replayed(s, events, terms).timeline;
      match LastOf(events, id)
      case None => (id in after <==> id in s.timeline) && (id in s.timeline ==> after[id] == s.timeline[id])
      case Some(n) =>
        && n < |events| && id in after
        && var e := events[n]; after[id] == TimelineEntry(e.ordinal, id, e.time, e.kind, e.role, Preview(e.content), e.files)
    decreases |events|
  {
    hide Apply, Preview, Lexical, Recent;
    if events != [] {
      var init, last := events[..|events| - 1], events[|events| - 1];
      assert events == init + [last];
      TimelineIsLog(s, init, terms, id);
      ApplyAllSplit(s, init, [last]);
      assert [last][1..] == [];
      ApplyShows(ApplyAll(s, init), last, id);
    }
  }

  /** A preview is the words of the content, single-spaced, and no more than 160 characters of them. */
  lemma PreviewExactly(content: string)
    ensures var p, flat := Preview(content), Join(Words(content), " ");
      p <= flat && |p| <= 160 && (|p| < 160 ==> p == flat)
  {
    hide Join, Words;
  }

  /** The last event that writes a block. */
  function LastWrite(events: seq<Event>, name: string): Option<nat> {
    if events == [] then None
    else if WritesBlock(events[|events| - 1], name) then Some(|events| - 1)
    else LastWrite(events[..|events| - 1], name)
  }

  lemma ApplyWrites(s: State, e: Event, name: string)
    ensures var after := Apply(s, e).blocks;
      if WritesBlock(e, name) then
        && name in after
        && after[name] == Block("replay:" + e.id, e.branch, name, e.content, VersionOf(s, name) + 1, [e.id],
                                if name in s.blocks then Some(s.blocks[name].id) else None, e.time)
      else
        (name in after <==> name in s.blocks) && (name in s.blocks ==> after[name] == s.blocks[name])
  {
    hide Preview, MemoryOf, IndexOf, Upserted, InTranscript;
  }

  /** After a replay a block is what the last event that writes it says, and supersedes what the write before it left. */
  lemma {:induction false} LastWriteDecides(s: State, events: seq<Event>, terms: Terms, name: string)
    ensures var after := Replayed(s, events, terms).blocks;
      match LastWrite(events, name)
      case None => (name in after <==> name in s.blocks) && (name in s.blocks ==> after[name] == s.blocks[name])
      case Some(n) =>
        && n < |events| && name in after
        && var e := events[n];
          after[name] == Block("replay:" + e.id, e.branch, name, e.content, VersionOf(s, name) + Writes(events, name), [e.id],
                               match LastWrite(events[..n], name)
                               case Some(m) => if m < n then Some("replay:" + events[m].id) else None
                               case None => if name in s.blocks then Some(s.blocks[name].id) else None,
                               e.time)
    decreases |events|
  {
    hide Apply, WritesBlock, Lexical, Recent;
    if events != [] {
      var init, last := events[..|events| - 1], events[|events| - 1];
      assert events == init + [last];
      LastWriteDecides(s, init, terms, name);
      ApplyAllSplit(s, init, [last]);
      assert [last][1..] == [];
      ApplyWrites(ApplyAll(s, init), last, name);
      VersionsCountUpdates(s, init, terms, name);
      WritesSnoc(init, last, name);
      var before := LastWrite(init, name);
      if before.Some? {
        assert events[before.value] == init[before.value] && events[..before.value] == init[..before.value];
      }
    }
  }

  lemma {:induction false} WritesSnoc(events: seq<Event>, last: Event, name: string)
    ensures Writes(events + [last], name) == Writes(events, name) + if WritesBlock(last, name) then 1 else 0
  {
    hide WritesBlock;
    if events == [] {
      assert [last][1..] == [];
    } else {
      assert (events + [last])[1..] == events[1..] + [last];
      WritesSnoc(events[1..], last, name);
    }
  }

  // ----- looking a query up

  /** The ids a packet considers for a query. */
  function Candidates(s: State, query: string, terms: Terms): set<string> {
    if query != "" && s.lexical != map[] then
      set term, id | term in terms(query) && term in s.lexical && id in s.lexical[term] && id in s.memories :: id
    else s.memories.Keys
  }

  /** The memories whose text shares a term with the query. */
  function Sharing(s: State, query: string, terms: Terms): set<string> {
    set id | id in s.memories && terms(query) * terms(MemoryText(s.memories[id])) != {}
  }

  /** Without a query all memories are considered; with one, never anything but memories. */
  lemma CandidatesAreMemories(s: State, query: string, terms: Terms)
    ensures Candidates(s, "", terms) == s.memories.Keys
    ensures Candidates(s, query, terms) <= s.memories.Keys
  {
  }

  /** Through a rebuilt index that is not empty, a query finds exactly the memories that share a term with it. */
  lemma LookupIsExact(s: State, query: string, terms: Terms)
    requires s.lexical == Lexical(s.memories, terms) && query != "" && s.lexical != map[]
    ensures Candidates(s, query, terms) == Sharing(s, query, terms)
  {
    forall id | id in Sharing(s, query, terms) ensures id in Candidates(s, query, terms) {
      var term :| term in terms(query) * terms(MemoryText(s.memories[id]));
      assert term in MemoryTerms(s.memories, terms);
      assert id in s.lexical[term];
    }
    forall id | id in Candidates(s, query, terms) ensures id in Sharing(s, query, terms) {
      var term :| term in terms(query) && term in s.lexical && id in s.lexical[term];
      assert term in terms(query) * terms(MemoryText(s.memories[id]));
    }
  }

  /** An empty index is taken for a missing one: then the lookup is exact only if there are no memories at all. */
  lemma LookupIsExactUnlessIndexIsEmpty(s: State, query: string, terms: Terms)
    requires s.lexical == Lexical(s.memories, terms) && query != ""
    ensures Candidates(s, query, terms) == Sharing(s, query, terms) <==> s.lexical != map[] || s.memories == map[]
  {
    if s.lexical != map[] {
      LookupIsExact(s, query, terms);
    } else {
      assert Sharing(s, query, terms) == {} by {
        forall id | id in s.memories ensures terms(query) * terms(MemoryText(s.memories[id])) == {} {
          NoTerms(s, terms, id);
        }
      }
      assert s.memories.Keys == {} <==> s.memories == map[];
    }
  }

  lemma NoTerms(s: State, terms: Terms, id: string)
    requires id in s.memories && Lexical(s.memories, terms) == map[]
    ensures terms(MemoryText(s.memories[id])) == {}
  {
    forall term | term in terms(MemoryText(s.memories[id])) ensures term in Lexical(s.memories, terms) {
      assert term in MemoryTerms(s.memories, terms);
    }
    assert forall term :: term !in terms(MemoryText(s.memories[id]));
  }

  // ----- the loops

  method RebuildIndex(memories: map<string, Memory>, terms: Terms) returns (lexical: map<string, set<string>>)
    ensures lexical == Lexical(memories, terms)
  {
    hide MemoryText;
    lexical := map[];
    var todo := memories.Keys;
    while todo != {}
      invariant todo <= memories.Keys
      invariant lexical == Lexical(memories - todo, terms)
    {
      var id :| id in todo;
      ghost var done := memories - todo;
      lexical := AddTerms(lexical, id, terms(MemoryText(memories[id])));
      todo := todo - {id};
      assert memories - todo == done[id := memories[id]];
      IndexOneMore(done, id, memories[id], terms);
    }
    assert memories - {} == memories;
  }

  /** Add one memory under each of its terms. */
  function Added(lexical: map<string, set<string>>, id: string, own: set<string>): map<string, set<string>> {
    map term | term in lexical.Keys + own ::
      (if term in lexical then lexical[term] else {}) + (if term in own then {id} else {})
  }

  lemma IndexOneMore(done: map<string, Memory>, id: string, m: Memory, terms: Terms)
    requires id !in done
    ensures Lexical(done[id := m], terms) == Added(Lexical(done, terms), id, terms(MemoryText(m)))
  {
    hide MemoryText;
    var more := done[id := m];
    var own := terms(MemoryText(m));
    forall term ensures term in MemoryTerms(more, terms) <==> term in MemoryTerms(done, terms) || term in own {
      if term in own {
        assert more[id] == m;
      }
      if term in MemoryTerms(done, terms) {
        var other :| other in done && term in terms(MemoryText(done[other]));
        assert more[other] == done[other];
      }
    }
    forall term ensures Holders(more, terms, term) == Holders(done, terms, term) + if term in own then {id} else {} {}
    forall term | term !in MemoryTerms(done, terms) ensures Holders(done, terms, term) == {} {
      forall other | other in done ensures term !in terms(MemoryText(done[other])) {}
    }
  }

  lemma AddedNone(lexical: map<string, set<string>>, id: string)
    ensures Added(lexical, id, {}) == lexical
  {
    var same := Added(lexical, id, {});
    forall term | term in lexical ensures same[term] == lexical[term] {
      assert lexical[term] + {} == lexical[term];
    }
  }

  method AddTerms(lexical: map<string, set<string>>, id: string, own: set<string>) returns (result: map<string, set<string>>)
    ensures result == Added(lexical, id, own)
  {
    result := lexical;
    var todo := own;
    assert own - todo == {};
    AddedNone(lexical, id);
    while todo != {}
      invariant todo <= own
      invariant result == Added(lexical, id, own - todo)
    {
      var term :| term in todo;
      result := result[term := (if term in result then result[term] else {}) + {id}];
      todo := todo - {term};
    }
    assert own - todo == own;
  }

  method ReplayEvents(s: State, events: seq<Event>, terms: Terms) returns (result: State)
    ensures result == Replayed(s, events, terms)
  {
    hide Lexical, Recent, Preview, MemoryOf, IndexOf, Upserted;
    result := s;
    for n := 0 to |events|
      invariant ApplyAll(result, events[n..]) == ApplyAll(s, events)
    {
      var e := events[n];
      assert events[n..][0] == e && events[n..][1..] == events[n + 1..];
      result := WithRecent(WithTimeline(result, e), e);
      if e.kind == "memory_block" {
        if e.payload.BlockPayload? && e.payload.block != "" {
          result := WithBlock(result, e);
        }
      } else if Derives(e) {
        result := WithMemory(result, e);
      }
    }
    var recent := RecentComplete(result.recent, RECENT_GROUP_LIMIT);
    var lexical := RebuildIndex(result.memories, terms);
    result := result.(recent := recent, lexical := lexical);
  }
}
