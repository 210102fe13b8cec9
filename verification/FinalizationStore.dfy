/**
 The store behind the finalization ledgers: a record or a rejection is found or appended after the checks on
 its event and memory, and materialising events goes through their tags in order.
 */
module FinalizationStore {
  import opened Basics
  import opened Text
  import opened Finalization
  import opened FinalizationLedger

  datatype Error = UnknownEvent | OutsideBranch | NotTrusted | UnknownMemory | MemoryOutsideBranch | LinkChanged

  datatype Result<T> = Ok(value: T) | Err(error: Error)

  /** The first check of `record_finalization` that fails. */
  function Refusal(s: State, log: Log, event: string, branch: string, t: Tag, memory: Option<nat>): Option<Error> {
    if event !in log then Some(UnknownEvent)
    else if log[event].branch != branch then Some(OutsideBranch)
    else if !log[event].trusted then Some(NotTrusted)
    else if memory.Some? && memory.value >= |s.memories| then Some(UnknownMemory)
    else if memory.Some? && s.memories[memory.value].branch != branch then Some(MemoryOutsideBranch)
    else
      var prior := FindRecord(s.records, event, t);
      FoundRecord(s.records, event, t);
      if prior.Some? && s.records[prior.value].memory != memory then Some(LinkChanged) else None
  }

  /**
   A record is accepted exactly for a trusted event of its branch, with a memory of that branch or none, and not when
   the same record is there with another memory; what is refused first is named.
   */
  lemma RefusalExactly(s: State, log: Log, event: string, branch: string, t: Tag, memory: Option<nat>)
    ensures var r := Refusal(s, log, event, branch, t, memory);
      && (r == Some(UnknownEvent) <==> event !in log)
      && (r == Some(OutsideBranch) <==> event in log && log[event].branch != branch)
      && (r == Some(NotTrusted) <==> event in log && log[event].branch == branch && !log[event].trusted)
      && (r == Some(UnknownMemory) <==>
            event in log && log[event].branch == branch && log[event].trusted && memory.Some? && memory.value >= |s.memories|)
      && (r == Some(MemoryOutsideBranch) <==>
            && event in log && log[event].branch == branch && log[event].trusted
            && memory.Some? && memory.value < |s.memories| && s.memories[memory.value].branch != branch)
    ensures Refusal(s, log, event, branch, t, memory).None? ==>
      && event in log && log[event].branch == branch && log[event].trusted
      && (memory.Some? ==> memory.value < |s.memories| && s.memories[memory.value].branch == branch)
    ensures OneRowPerKey(s) ==>
      (Refusal(s, log, event, branch, t, memory) == Some(LinkChanged) ==> exists r :: r in s.records && IsRecordOf(r, event, t) && r.memory != memory)
      && (Refusal(s, log, event, branch, t, memory).None? ==> forall r :: r in s.records && IsRecordOf(r, event, t) ==> r.memory == memory)
  {
    hide FindRecord, Audit;
    FoundRecord(s.records, event, t);
    var prior := FindRecord(s.records, event, t);
    if prior.Some? {
      assert s.records[prior.value] in s.records;
    }
    if OneRowPerKey(s) {
      forall r, q | r in s.records && q in s.records && IsRecordOf(r, event, t) && IsRecordOf(q, event, t) ensures r == q {
        var i :| 0 <= i < |s.records| && s.records[i] == r;
        var j :| 0 <= j < |s.records| && s.records[j] == q;
        OneRecord(s, event, t, i, j);
      }
    }
  }

  lemma OneRecord(s: State, event: string, t: Tag, i: nat, j: nat)
    requires OneRowPerKey(s) && i < |s.records| && j < |s.records|
    requires IsRecordOf(s.records[i], event, t) && IsRecordOf(s.records[j], event, t)
    ensures i == j
  {
    hide Audit;
  }

  /** The plan while its parts are being collected. */
  method Collect(content: string, link: LinkTest) returns (plan: Plan)
    ensures plan == PlanOf(content, link)
  {
    hide Lines, Classified, Render, Contradictory;
    var c := ClassifyFinalizationText(content);
    var items: seq<Item> := [];
    for n := 0 to |c.malformed|
      invariant items == Items("malformed_finalization", c.malformed[..n])
    {
      items := items + [Item("malformed_finalization", c.malformed[n])];
    }
    assert c.malformed[..|c.malformed|] == c.malformed;
    ghost var malformed := items;
    var unique: seq<Tag> := [];
    for n := 0 to |c.valid|
      invariant items == malformed + Items("non_standalone_text", Rendered(Linking(c.valid[..n], link)))
      invariant unique == Standing(c.valid[..n], link)
    {
      var tag := c.valid[n];
      assert c.valid[..n + 1][..n] == c.valid[..n];
      if link(tag.text) {
        items := items + [Item("non_standalone_text", Render(tag))];
        continue;
      }
      if tag !in unique {
        unique := unique + [tag];
      }
    }
    assert c.valid[..|c.valid|] == c.valid;
    var contradictory := FindContradiction(unique);
    if contradictory {
      plan := Plan(items + Items("contradictory_statuses", Rendered(unique)), []);
    } else {
      plan := Plan(items, unique);
    }
  }

  datatype TagKey = TagKey(kind: Kind, text: string)

  /** Two statuses for one kind and text. */
  method FindContradiction(tags: seq<Tag>) returns (found: bool)
    ensures found <==> Contradictory(tags)
  {
    var statuses: map<TagKey, set<Status>> := map[];
    for n := 0 to |tags|
      invariant Tracks(statuses, tags[..n])
    {
      var key := TagKey(tags[n].kind, tags[n].text);
      var before := if key in statuses then statuses[key] else {};
      TracksNext(statuses, tags, n);
      statuses := statuses[key := before + {tags[n].status}];
    }
    assert tags[..|tags|] == tags;
    found := exists k :: k in statuses && exists a, b :: a in statuses[k] && b in statuses[k] && a != b;
    TwoStatuses(tags);
    forall k, s ensures (k in statuses && s in statuses[k]) <==> Seen(tags, k, s) {
      assert TracksAt(statuses, tags, k, s);
    }
    if found {
      var k :| k in statuses && exists a, b :: a in statuses[k] && b in statuses[k] && a != b;
      var a, b :| a in statuses[k] && b in statuses[k] && a != b;
      assert Seen(tags, k, a) && Seen(tags, k, b);
    }
  }

  /** The statuses met so far for each kind and text. */
  ghost predicate Tracks(statuses: map<TagKey, set<Status>>, tags: seq<Tag>) {
    forall k, s :: TracksAt(statuses, tags, k, s)
  }

  predicate TracksAt(statuses: map<TagKey, set<Status>>, tags: seq<Tag>, k: TagKey, s: Status) {
    (k in statuses && s in statuses[k]) <==> Seen(tags, k, s)
  }

  lemma TracksNext(statuses: map<TagKey, set<Status>>, tags: seq<Tag>, n: nat)
    requires n < |tags| && Tracks(statuses, tags[..n])
    ensures var key := TagKey(tags[n].kind, tags[n].text);
      Tracks(statuses[key := (if key in statuses then statuses[key] else {}) + {tags[n].status}], tags[..n + 1])
  {
    hide Seen;
    var key := TagKey(tags[n].kind, tags[n].text);
    var before := if key in statuses then statuses[key] else {};
    var after := statuses[key := before + {tags[n].status}];
    var more := tags[..n + 1];
    forall k, s ensures TracksAt(after, more, k, s) {
      SeenNext(tags, n, k, s);
      assert TracksAt(statuses, tags[..n], k, s);
    }
    assert Tracks(after, tags[..n + 1]);
  }

  predicate Seen(tags: seq<Tag>, key: TagKey, s: Status) {
    exists n :: 0 <= n < |tags| && tags[n] == Tag(key.kind, s, key.text)
  }

  lemma SeenNext(tags: seq<Tag>, n: nat, key: TagKey, s: Status)
    requires n < |tags|
    ensures Seen(tags[..n + 1], key, s) <==> Seen(tags[..n], key, s) || (key == TagKey(tags[n].kind, tags[n].text) && s == tags[n].status)
  {
    if Seen(tags[..n], key, s) {
      var m :| 0 <= m < n && tags[..n][m] == Tag(key.kind, s, key.text);
      assert tags[..n + 1][m] == tags[..n][m];
    }
    if key == TagKey(tags[n].kind, tags[n].text) && s == tags[n].status {
      assert tags[..n + 1][n] == Tag(key.kind, s, key.text);
    }
    if Seen(tags[..n + 1], key, s) {
      var m :| 0 <= m < n + 1 && tags[..n + 1][m] == Tag(key.kind, s, key.text);
      assert m < n ==> tags[..n][m] == tags[..n + 1][m];
    }
  }

  lemma TwoStatuses(tags: seq<Tag>)
    ensures Contradictory(tags) <==> exists k, a, b :: Seen(tags, k, a) && Seen(tags, k, b) && a != b
  {
    if Contradictory(tags) {
      var i, j :| 0 <= i < j < |tags| && Contradict(tags[i], tags[j]);
      var k := TagKey(tags[i].kind, tags[i].text);
      assert Seen(tags, k, tags[i].status) && Seen(tags, k, tags[j].status);
    }
    if k, a, b :| Seen(tags, k, a) && Seen(tags, k, b) && a != b {
      var i :| 0 <= i < |tags| && tags[i] == Tag(k.kind, a, k.text);
      var j :| 0 <= j < |tags| && tags[j] == Tag(k.kind, b, k.text);
      assert i < j ==> Contradict(tags[i], tags[j]);
      assert j < i ==> Contradict(tags[j], tags[i]);
    }
  }

  class Store {
    const log: Log
    var records: seq<Record>
    var quarantine: seq<Quarantined>
    var memories: seq<Memory>

    ghost function Contents(): State
      reads this
    {
      State(records, quarantine, memories)
    }

    /** Append one rejection, or return the row that already says it. */
    method QuarantineFinalization(event: string, i: Item) returns (r: Result<nat>)
      modifies this`quarantine
      ensures r.Err? <==> event !in log
      ensures r.Err? ==> r.error == UnknownEvent && quarantine == old(quarantine)
      ensures r.Ok? ==> (Contents(), r.value) == EnsureItem(old(Contents()), event, i)
    {
      if event !in log {
        return Err(UnknownEvent);
      }
      assert quarantine[..0] == [];
      for n := 0 to |quarantine|
        invariant quarantine == old(quarantine) && FindItem(quarantine[..n], event, i).None?
      {
        assert quarantine[..n + 1][..n] == quarantine[..n];
        if quarantine[n] == Quarantined(event, i.reason, i.raw) {
          assert quarantine == quarantine[..n + 1] + quarantine[n + 1..];
          FindItemStays(quarantine[..n + 1], quarantine[n + 1..], event, i);
          return Ok(n);
        }
      }
      assert quarantine[..|quarantine|] == quarantine;
      quarantine := quarantine + [Quarantined(event, i.reason, i.raw)];
      r := Ok(|quarantine| - 1);
    }

    /** The row of a tag, if it has one. */
    method Lookup(event: string, t: Tag) returns (prior: Option<nat>)
      ensures prior == FindRecord(records, event, t)
    {
      assert records[..0] == [];
      for n := 0 to |records|
        invariant FindRecord(records[..n], event, t).None?
      {
        assert records[..n + 1][..n] == records[..n];
        if IsRecordOf(records[n], event, t) {
          assert records == records[..n + 1] + records[n + 1..];
          FindRecordStays(records[..n + 1], records[n + 1..], event, t);
          return Some(n);
        }
      }
      assert records[..|records|] == records;
      prior := None;
    }

    method RecordFinalization(event: string, branch: string, t: Tag, memory: Option<nat>) returns (r: Result<nat>)
      modifies this`records
      ensures r.Err? <==> Refusal(old(Contents()), log, event, branch, t, memory).Some?
      ensures r.Err? ==> r.error == Refusal(old(Contents()), log, event, branch, t, memory).value && records == old(records)
      ensures r.Ok? ==> var prior := FindRecord(old(records), event, t);
        && r.value == (if prior.Some? then prior.value else |old(records)|)
        && records == old(records) + if prior.Some? then [] else [Record(event, branch, t.kind, t.status, Audit(t), memory)]
    {
      hide FindRecord, Audit;
      if event !in log {
        return Err(UnknownEvent);
      }
      if log[event].branch != branch {
        return Err(OutsideBranch);
      }
      if !log[event].trusted {
        return Err(NotTrusted);
      }
      if memory.Some? && memory.value >= |memories| {
        return Err(UnknownMemory);
      }
      if memory.Some? && memories[memory.value].branch != branch {
        return Err(MemoryOutsideBranch);
      }
      var prior := Lookup(event, t);
      FoundRecord(records, event, t);
      if prior.Some? {
        if records[prior.value].memory != memory {
          return Err(LinkChanged);
        }
        return Ok(prior.value);
      }
      records := records + [Record(event, branch, t.kind, t.status, Audit(t), memory)];
      r := Ok(|records| - 1);
    }

    method QuarantineAll(event: string, items: seq<Item>) returns (ids: seq<nat>)
      requires event in log
      modifies this`quarantine
      ensures (Contents(), ids) == EnsureItems(old(Contents()), event, items)
    {
      hide EnsureItem;
      ids := [];
      for n := 0 to |items|
        invariant (Contents(), ids) == EnsureItems(old(Contents()), event, items[..n])
      {
        assert items[..n + 1][..n] == items[..n];
        var r := QuarantineFinalization(event, items[n]);
        ids := ids + [r.value];
      }
      assert items[..|items|] == items;
    }

    /** A tag that has its record keeps it; a new one is recorded, with a memory when it is confirmed. None of
        the refusals of `RecordFinalization` can happen here. */
    method MaterializeTag(event: string, t: Tag) returns (id: nat, memory: Option<nat>)
      requires event in log && log[event].trusted
      modifies this`records, this`memories
      ensures (Contents(), id) == EnsureTag(old(Contents()), event, log[event].branch, t)
      ensures id < |records| && memory == records[id].memory
    {
      hide Audit, FindRecord;
      var prior := Lookup(event, t);
      FoundRecord(records, event, t);
      if prior.Some? {
        return prior.value, records[prior.value].memory;
      }
      memory := None;
      if t.status.Confirmed? {
        memories := memories + [Memory(event, log[event].branch, t.kind, t.text)];
        memory := Some(|memories| - 1);
      }
      var r := RecordFinalization(event, log[event].branch, t, memory);
      id := r.value;
      assert !t.status.Confirmed? ==> memories == old(memories) + [];
      assert Contents() == EnsureTag(old(Contents()), event, log[event].branch, t).0;
    }

    method MaterializeFinalizations(events: seq<string>, link: LinkTest) returns (results: seq<Outcome>)
      requires Logged(events, log)
      modifies this
      ensures (Contents(), results) == Materialized(old(Contents()), log, events, link)
    {
      hide Step;
      results := [];
      for n := 0 to |events|
        invariant Logged(events[..n], log)
        invariant (Contents(), results) == Materialized(old(Contents()), log, events[..n], link)
      {
        assert events[..n + 1][..n] == events[..n];
        var result := MaterializeEvent(events[n], link);
        results := results + [result];
      }
      assert events[..|events|] == events;
    }

    method MaterializeEvent(event: string, link: LinkTest) returns (o: Outcome)
      requires event in log
      modifies this
      ensures (Contents(), o) == Step(old(Contents()), log, event, link)
    {
      hide PlanOf, EnsureItems, EnsureTag;
      if !log[event].trusted {
        return Outcome(event, [], [], [], false);
      }
      var plan := Collect(log[event].content, link);
      var quarantined := QuarantineAll(event, plan.items);
      ghost var q := Contents();
      var ids: seq<nat>, linked: seq<nat> := [], [];
      for n := 0 to |plan.tags|
        invariant (Contents(), ids) == EnsureTags(q, event, log[event].branch, plan.tags[..n])
        invariant forall k :: 0 <= k < |ids| ==> ids[k] < |records|
        invariant linked == Linked(records, ids)
      {
        assert plan.tags[..n + 1][..n] == plan.tags[..n];
        ghost var before, given := records, ids;
        EnsureTagFinds(Contents(), event, log[event].branch, plan.tags[n]);
        var id, memory := MaterializeTag(event, plan.tags[n]);
        assert before <= records;
        LinkedStays(before, records, given);
        if memory.Some? {
          linked := linked + [memory.value];
        }
        ids := ids + [id];
        assert ids[..|ids| - 1] == given;
      }
      assert plan.tags[..|plan.tags|] == plan.tags;
      o := Outcome(event, ids, linked, quarantined, true);
    }
  }
}
