/**
 Materialising the tags of final assistant messages into append-only ledgers of records, quarantined lines
 and memories, and replaying it.
 */
module FinalizationLedger {
  import opened Basics
  import opened Text
  import opened Finalization

  type LinkTest = string -> bool

  /** An event as it was stored; whether its origin is a trusted assistant Stop is given. */
  datatype Event = Event(branch: string, trusted: bool, content: string)

  type Log = map<string, Event>

  datatype Record = Record(event: string, branch: string, kind: Kind, status: Status, content: string, memory: Option<nat>)

  datatype Quarantined = Quarantined(event: string, reason: string, raw: string)

  datatype Memory = Memory(event: string, branch: string, kind: Kind, content: string)

  /** Identifiers are positions. */
  datatype State = State(records: seq<Record>, quarantine: seq<Quarantined>, memories: seq<Memory>)

  datatype Outcome = Outcome(event: string, records: seq<nat>, memories: seq<nat>, quarantine: seq<nat>, eligible: bool)

  // ----- what a message asks for

  datatype Item = Item(reason: string, raw: string)

  datatype Plan = Plan(items: seq<Item>, tags: seq<Tag>)

  function Linking(tags: seq<Tag>, link: LinkTest): seq<Tag> {
    if tags == [] then []
    else Linking(tags[..|tags| - 1], link) + if link(tags[|tags| - 1].text) then [tags[|tags| - 1]] else []
  }

  /** The tags that stand for themselves, each once. */
  function Standing(tags: seq<Tag>, link: LinkTest): seq<Tag> {
    if tags == [] then []
    else
      var before, last := Standing(tags[..|tags| - 1], link), tags[|tags| - 1];
      if link(last.text) || last in before then before else before + [last]
  }

  predicate Contradict(a: Tag, b: Tag) {
    a.kind == b.kind && a.text == b.text && a.status != b.status
  }

  predicate Contradictory(tags: seq<Tag>) {
    exists i, j :: 0 <= i < j < |tags| && Contradict(tags[i], tags[j])
  }

  function Items(reason: string, raws: seq<string>): seq<Item> {
    seq(|raws|, n requires 0 <= n < |raws| => Item(reason, raws[n]))
  }

  function Rendered(tags: seq<Tag>): seq<string> {
    seq(|tags|, n requires 0 <= n < |tags| => Render(tags[n]))
  }

  function PlanOf(content: string, link: LinkTest): Plan {
    var c := Classified(Lines(content), |Lines(content)|);
    var standing := Standing(c.valid, link);
    var items := Items("malformed_finalization", c.malformed) + Items("non_standalone_text", Rendered(Linking(c.valid, link)));
    if Contradictory(standing) then Plan(items + Items("contradictory_statuses", Rendered(standing)), [])
    else Plan(items, standing)
  }

  /** What a record says, with its status in front unless it is confirmed. */
  function Audit(t: Tag): string {
    if t.status.Confirmed? then t.text else "[" + StatusName(t.status) + "] " + t.text
  }

  function TextOf(r: Record): string {
    var head := "[" + StatusName(r.status) + "] ";
    if r.status.Confirmed? || !(head <= r.content) then r.content else r.content[|head|..]
  }

  // ----- what a plan is

  /** Two tags of a message that stand for themselves give one text two statuses. */
  predicate Disputed(tags: seq<Tag>, link: LinkTest) {
    exists a, b | a in tags && b in tags :: !link(a.text) && !link(b.text) && a.kind == b.kind && a.text == b.text && a.status != b.status
  }

  predicate EachOnce(tags: seq<Tag>) {
    forall i, j | 0 <= i < j < |tags| :: tags[i] != tags[j]
  }

  lemma {:induction false} StandingExactly(tags: seq<Tag>, link: LinkTest)
    ensures forall t :: t in Standing(tags, link) <==> t in tags && !link(t.text)
    ensures EachOnce(Standing(tags, link))
  {
    if tags != [] {
      StandingExactly(tags[..|tags| - 1], link);
      assert tags == tags[..|tags| - 1] + [tags[|tags| - 1]];
    }
  }

  /** The tags of a longer message begin with those of its first lines. */
  lemma {:induction false} StandingGrows(tags: seq<Tag>, more: seq<Tag>, link: LinkTest)
    ensures Standing(tags, link) <= Standing(tags + more, link)
    decreases |more|
  {
    if more == [] {
      assert tags + more == tags;
    } else {
      StandingGrows(tags, more[..|more| - 1], link);
      assert (tags + more)[..|tags + more| - 1] == tags + more[..|more| - 1];
    }
  }

  lemma {:induction false} LinkingExactly(tags: seq<Tag>, link: LinkTest)
    ensures forall t :: t in Linking(tags, link) <==> t in tags && link(t.text)
  {
    if tags != [] {
      LinkingExactly(tags[..|tags| - 1], link);
      assert tags == tags[..|tags| - 1] + [tags[|tags| - 1]];
    }
  }

  lemma {:induction false} LinkingSplit(tags: seq<Tag>, more: seq<Tag>, link: LinkTest)
    ensures Linking(tags + more, link) == Linking(tags, link) + Linking(more, link)
    decreases |more|
  {
    if more == [] {
      assert tags + more == tags;
    } else {
      LinkingSplit(tags, more[..|more| - 1], link);
      assert (tags + more)[..|tags + more| - 1] == tags + more[..|more| - 1];
    }
  }

  lemma ContradictoryExactly(tags: seq<Tag>, link: LinkTest)
    ensures Contradictory(Standing(tags, link)) <==> Disputed(tags, link)
  {
    StandingExactly(tags, link);
    hide Standing;
    var standing := Standing(tags, link);
    if i, j :| 0 <= i < j < |standing| && Contradict(standing[i], standing[j]) {
      assert standing[i] in tags && standing[j] in tags;
    }
    if a, b :| a in tags && b in tags && !link(a.text) && !link(b.text) && a.kind == b.kind && a.text == b.text && a.status != b.status {
      assert a in standing && b in standing;
      var i :| 0 <= i < |standing| && standing[i] == a;
      var j :| 0 <= j < |standing| && standing[j] == b;
      assert Contradict(standing[i], standing[j]) && Contradict(standing[j], standing[i]);
      assert i < j || j < i;
    }
  }

  lemma ItemsExactly(reason: string, raws: seq<string>, i: Item)
    ensures i in Items(reason, raws) <==> i.reason == reason && i.raw in raws
  {
    if i.reason == reason && i.raw in raws {
      var n :| 0 <= n < |raws| && raws[n] == i.raw;
      assert Items(reason, raws)[n] == i;
    }
  }

  lemma RenderedExactly(tags: seq<Tag>, raw: string)
    ensures raw in Rendered(tags) <==> exists t :: t in tags && Render(t) == raw
  {
    hide Render;
    if t :| t in tags && Render(t) == raw {
      var n :| 0 <= n < |tags| && tags[n] == t;
      assert Rendered(tags)[n] == raw;
    }
  }

  /**
   What a message asks for. Its valid tags that stand for themselves become records, each once, unless two of them
   dispute a text; rejected are its malformed lines, the tags that only link, and all the standing tags of a dispute.
   */
  lemma PlanExactly(content: string, link: LinkTest)
    ensures var c, plan := Classified(Lines(content), |Lines(content)|), PlanOf(content, link);
      && (forall t :: t in plan.tags <==> t in c.valid && !link(t.text) && !Disputed(c.valid, link))
      && EachOnce(plan.tags)
      && (forall i :: i in plan.items <==>
            || (i.reason == "malformed_finalization" && i.raw in c.malformed)
            || (i.reason == "non_standalone_text" && exists t :: t in c.valid && link(t.text) && Render(t) == i.raw)
            || (i.reason == "contradictory_statuses" && Disputed(c.valid, link)
                && exists t :: t in c.valid && !link(t.text) && Render(t) == i.raw))
  {
    hide Classified, Lines, Render, Standing, Linking, Items, Rendered, Contradictory, Disputed;
    var c, plan := Classified(Lines(content), |Lines(content)|), PlanOf(content, link);
    StandingExactly(c.valid, link);
    LinkingExactly(c.valid, link);
    ContradictoryExactly(c.valid, link);
    forall i ensures i in plan.items <==>
            || (i.reason == "malformed_finalization" && i.raw in c.malformed)
            || (i.reason == "non_standalone_text" && exists t :: t in c.valid && link(t.text) && Render(t) == i.raw)
            || (i.reason == "contradictory_statuses" && Disputed(c.valid, link)
                && exists t :: t in c.valid && !link(t.text) && Render(t) == i.raw)
    {
      ItemsExactly("malformed_finalization", c.malformed, i);
      ItemsExactly("non_standalone_text", Rendered(Linking(c.valid, link)), i);
      ItemsExactly("contradictory_statuses", Rendered(Standing(c.valid, link)), i);
      RenderedExactly(Linking(c.valid, link), i.raw);
      RenderedExactly(Standing(c.valid, link), i.raw);
    }
  }

  /** Rejections come in this order: malformed lines, linking tags, disputed tags; each as the message has them. */
  lemma PlanInOrder(content: string, link: LinkTest)
    ensures var c, items := Classified(Lines(content), |Lines(content)|), PlanOf(content, link).items;
      var m, n := |c.malformed|, |Linking(c.valid, link)|;
      && m + n <= |items|
      && (forall i | 0 <= i < m :: items[i] == Item("malformed_finalization", c.malformed[i]))
      && (forall i | 0 <= i < n :: items[m + i] == Item("non_standalone_text", Render(Linking(c.valid, link)[i])))
      && (forall i | m + n <= i < |items| :: |items| == m + n + |Standing(c.valid, link)|
            && items[i] == Item("contradictory_statuses", Render(Standing(c.valid, link)[i - m - n])))
  {
    hide Classified, Lines, Render, Standing, Linking, Contradictory;
  }

  /** What is stored of a tag: its text, with the status in front when it is not confirmed. */
  lemma AuditWords(t: Tag)
    ensures Audit(t) == (match t.status case Confirmed => "" case Rejected => "[REJECTED] " case Deferred => "[DEFERRED] ") + t.text
  {
  }

  // ----- the ledgers

  predicate IsRecordOf(r: Record, event: string, t: Tag) {
    r.event == event && r.kind == t.kind && r.status == t.status && r.content == Audit(t)
  }

  function FindRecord(records: seq<Record>, event: string, t: Tag): Option<nat> {
    if records == [] then None
    else
      var before := FindRecord(records[..|records| - 1], event, t);
      if before.Some? then before else if IsRecordOf(records[|records| - 1], event, t) then Some(|records| - 1) else None
  }

  function FindItem(quarantine: seq<Quarantined>, event: string, i: Item): Option<nat> {
    if quarantine == [] then None
    else
      var before := FindItem(quarantine[..|quarantine| - 1], event, i);
      if before.Some? then before
      else if quarantine[|quarantine| - 1] == Quarantined(event, i.reason, i.raw) then Some(|quarantine| - 1) else None
  }

  function EnsureItem(s: State, event: string, i: Item): (State, nat) {
    var prior := FindItem(s.quarantine, event, i);
    if prior.Some? then (s, prior.value)
    else (s.(quarantine := s.quarantine + [Quarantined(event, i.reason, i.raw)]), |s.quarantine|)
  }

  function EnsureItems(s: State, event: string, items: seq<Item>): (State, seq<nat>) {
    if items == [] then (s, [])
    else
      var before := EnsureItems(s, event, items[..|items| - 1]);
      var last := EnsureItem(before.0, event, items[|items| - 1]);
      (last.0, before.1 + [last.1])
  }

  /** A confirmed tag also becomes a memory; the others leave no memory behind. */
  function EnsureTag(s: State, event: string, branch: string, t: Tag): (State, nat) {
    var prior := FindRecord(s.records, event, t);
    if prior.Some? then (s, prior.value)
    else
      var memory := if t.status.Confirmed? then Some(|s.memories|) else None;
      (State(
         s.records + [Record(event, branch, t.kind, t.status, Audit(t), memory)], s.quarantine,
         s.memories + if t.status.Confirmed? then [Memory(event, branch, t.kind, t.text)] else []),
       |s.records|)
  }

  function EnsureTags(s: State, event: string, branch: string, tags: seq<Tag>): (State, seq<nat>) {
    if tags == [] then (s, [])
    else
      var before := EnsureTags(s, event, branch, tags[..|tags| - 1]);
      var last := EnsureTag(before.0, event, branch, tags[|tags| - 1]);
      (last.0, before.1 + [last.1])
  }

  /** The memories linked by some records. */
  function Linked(records: seq<Record>, ids: seq<nat>): seq<nat>
    requires forall n :: 0 <= n < |ids| ==> ids[n] < |records|
  {
    if ids == [] then []
    else
      var last := records[ids[|ids| - 1]];
      Linked(records, ids[..|ids| - 1]) + if last.memory.Some? then [last.memory.value] else []
  }

  /** The memories of an outcome are those of its records, in their order. */
  lemma {:induction false} LinkedSplit(records: seq<Record>, some: seq<nat>, more: seq<nat>)
    requires (forall n :: 0 <= n < |some| ==> some[n] < |records|) && forall n :: 0 <= n < |more| ==> more[n] < |records|
    ensures Linked(records, some + more) == Linked(records, some) + Linked(records, more)
    ensures |more| == 1 ==> Linked(records, more) == match records[more[0]].memory case Some(m) => [m] case None => []
    decreases |more|
  {
    if more == [] {
      assert some + more == some;
    } else {
      LinkedSplit(records, some, more[..|more| - 1]);
      assert (some + more)[..|some + more| - 1] == some + more[..|more| - 1];
    }
  }

  predicate Extends(s: State, t: State) {
    s.records <= t.records && s.quarantine <= t.quarantine && s.memories <= t.memories
  }

  lemma {:induction false} FindRecordStays(records: seq<Record>, more: seq<Record>, event: string, t: Tag)
    requires FindRecord(records, event, t).Some?
    ensures FindRecord(records + more, event, t) == FindRecord(records, event, t)
    decreases |more|
  {
    if more == [] {
      assert records + more == records;
    } else {
      FindRecordStays(records, more[..|more| - 1], event, t);
      assert (records + more)[..|records + more| - 1] == records + more[..|more| - 1];
    }
  }

  lemma {:induction false} FindItemStays(quarantine: seq<Quarantined>, more: seq<Quarantined>, event: string, i: Item)
    requires FindItem(quarantine, event, i).Some?
    ensures FindItem(quarantine + more, event, i) == FindItem(quarantine, event, i)
    decreases |more|
  {
    if more == [] {
      assert quarantine + more == quarantine;
    } else {
      FindItemStays(quarantine, more[..|more| - 1], event, i);
      assert (quarantine + more)[..|quarantine + more| - 1] == quarantine + more[..|more| - 1];
    }
  }

  lemma {:induction false} FoundRecord(records: seq<Record>, event: string, t: Tag)
    ensures match FindRecord(records, event, t)
      case Some(n) => n < |records| && IsRecordOf(records[n], event, t)
      case None => forall n :: 0 <= n < |records| ==> !IsRecordOf(records[n], event, t)
  {
    if records != [] {
      FoundRecord(records[..|records| - 1], event, t);
    }
  }

  lemma {:induction false} FoundItem(quarantine: seq<Quarantined>, event: string, i: Item)
    ensures match FindItem(quarantine, event, i)
      case Some(n) => n < |quarantine| && quarantine[n] == Quarantined(event, i.reason, i.raw)
      case None => forall n :: 0 <= n < |quarantine| ==> quarantine[n] != Quarantined(event, i.reason, i.raw)
  {
    if quarantine != [] {
      FoundItem(quarantine[..|quarantine| - 1], event, i);
    }
  }

  // ----- what is there stays there

  predicate ItemsFound(s: State, event: string, items: seq<Item>, ids: seq<nat>) {
    |ids| == |items| && forall n :: 0 <= n < |items| ==> FindItem(s.quarantine, event, items[n]) == Some(ids[n])
  }

  predicate TagsFound(s: State, event: string, tags: seq<Tag>, ids: seq<nat>) {
    |ids| == |tags| && forall n :: 0 <= n < |tags| ==> FindRecord(s.records, event, tags[n]) == Some(ids[n])
  }

  lemma ItemsStayFound(s: State, t: State, event: string, items: seq<Item>, ids: seq<nat>)
    requires ItemsFound(s, event, items, ids) && Extends(s, t)
    ensures ItemsFound(t, event, items, ids)
  {
    hide FindItem;
    var more := t.quarantine[|s.quarantine|..];
    assert t.quarantine == s.quarantine + more;
    forall n | 0 <= n < |items| ensures FindItem(t.quarantine, event, items[n]) == Some(ids[n]) {
      FindItemStays(s.quarantine, more, event, items[n]);
    }
  }

  lemma TagsStayFound(s: State, t: State, event: string, tags: seq<Tag>, ids: seq<nat>)
    requires TagsFound(s, event, tags, ids) && Extends(s, t)
    ensures TagsFound(t, event, tags, ids)
  {
    hide FindRecord;
    var more := t.records[|s.records|..];
    assert t.records == s.records + more;
    forall n | 0 <= n < |tags| ensures FindRecord(t.records, event, tags[n]) == Some(ids[n]) {
      FindRecordStays(s.records, more, event, tags[n]);
    }
  }

  lemma EnsureItemFinds(s: State, event: string, i: Item)
    ensures var r := EnsureItem(s, event, i);
      Extends(s, r.0) && r.0.records == s.records && r.0.memories == s.memories && FindItem(r.0.quarantine, event, i) == Some(r.1)
  {
    var r := EnsureItem(s, event, i);
    if FindItem(s.quarantine, event, i).None? {
      assert r.0.quarantine[..|s.quarantine|] == s.quarantine;
    }
  }

  lemma {:induction false} EnsureItemsFinds(s: State, event: string, items: seq<Item>)
    ensures var r := EnsureItems(s, event, items);
      Extends(s, r.0) && r.0.records == s.records && r.0.memories == s.memories && ItemsFound(r.0, event, items, r.1)
  {
    hide EnsureItem, FindItem;
    if items != [] {
      var init, last := items[..|items| - 1], items[|items| - 1];
      EnsureItemsFinds(s, event, init);
      var before := EnsureItems(s, event, init);
      EnsureItemFinds(before.0, event, last);
      ItemsStayFound(before.0, EnsureItem(before.0, event, last).0, event, init, before.1);
      var r := EnsureItems(s, event, items);
      forall n | 0 <= n < |items| ensures FindItem(r.0.quarantine, event, items[n]) == Some(r.1[n]) {
        assert n < |init| ==> items[n] == init[n] && r.1[n] == before.1[n];
      }
    }
  }

  lemma {:induction false} EnsureItemsAgain(s: State, event: string, items: seq<Item>, ids: seq<nat>)
    requires ItemsFound(s, event, items, ids)
    ensures EnsureItems(s, event, items) == (s, ids)
  {
    hide FindItem;
    if items != [] {
      var init, last := items[..|items| - 1], items[|items| - 1];
      EnsureItemsAgain(s, event, init, ids[..|init|]);
      assert ids == ids[..|init|] + [ids[|init|]];
    }
  }

  lemma EnsureTagFinds(s: State, event: string, branch: string, t: Tag)
    ensures var r := EnsureTag(s, event, branch, t);
      Extends(s, r.0) && r.0.quarantine == s.quarantine && FindRecord(r.0.records, event, t) == Some(r.1)
  {
    var r := EnsureTag(s, event, branch, t);
    if FindRecord(s.records, event, t).None? {
      assert r.0.records[..|s.records|] == s.records;
    }
  }

  lemma {:induction false} EnsureTagsFinds(s: State, event: string, branch: string, tags: seq<Tag>)
    ensures var r := EnsureTags(s, event, branch, tags);
      Extends(s, r.0) && r.0.quarantine == s.quarantine && TagsFound(r.0, event, tags, r.1)
  {
    hide EnsureTag, FindRecord;
    if tags != [] {
      var init, last := tags[..|tags| - 1], tags[|tags| - 1];
      EnsureTagsFinds(s, event, branch, init);
      var before := EnsureTags(s, event, branch, init);
      EnsureTagFinds(before.0, event, branch, last);
      TagsStayFound(before.0, EnsureTag(before.0, event, branch, last).0, event, init, before.1);
      var r := EnsureTags(s, event, branch, tags);
      forall n | 0 <= n < |tags| ensures FindRecord(r.0.records, event, tags[n]) == Some(r.1[n]) {
        assert n < |init| ==> tags[n] == init[n] && r.1[n] == before.1[n];
      }
    }
  }

  lemma {:induction false} EnsureTagsAgain(s: State, event: string, branch: string, tags: seq<Tag>, ids: seq<nat>)
    requires TagsFound(s, event, tags, ids)
    ensures EnsureTags(s, event, branch, tags) == (s, ids)
  {
    hide FindRecord, Audit;
    if tags != [] {
      var init, last := tags[..|tags| - 1], tags[|tags| - 1];
      EnsureTagsAgain(s, event, branch, init, ids[..|init|]);
      assert ids == ids[..|init|] + [ids[|init|]];
    }
  }

  lemma IdsAreInside(s: State, event: string, tags: seq<Tag>, ids: seq<nat>)
    requires TagsFound(s, event, tags, ids)
    ensures forall n :: 0 <= n < |ids| ==> ids[n] < |s.records|
  {
    hide FindRecord;
    forall n | 0 <= n < |ids| ensures ids[n] < |s.records| {
      FoundRecord(s.records, event, tags[n]);
    }
  }

  lemma {:induction false} LinkedStays(a: seq<Record>, b: seq<Record>, ids: seq<nat>)
    requires a <= b && forall n :: 0 <= n < |ids| ==> ids[n] < |a|
    ensures Linked(a, ids) == Linked(b, ids)
    decreases |ids|
  {
    if ids != [] {
      LinkedStays(a, b, ids[..|ids| - 1]);
    }
  }

  // ----- one event

  function Step(s: State, log: Log, event: string, link: LinkTest): (State, Outcome)
    requires event in log
  {
    if !log[event].trusted then (s, Outcome(event, [], [], [], false))
    else
      var plan := PlanOf(log[event].content, link);
      var q := EnsureItems(s, event, plan.items);
      var r := EnsureTags(q.0, event, log[event].branch, plan.tags);
      EnsureTagsFinds(q.0, event, log[event].branch, plan.tags);
      IdsAreInside(r.0, event, plan.tags, r.1);
      (r.0, Outcome(event, r.1, Linked(r.0.records, r.1), q.1, true))
  }

  /** The ledgers hold everything the event asks for, under the ids of the outcome. */
  predicate Done(s: State, log: Log, event: string, link: LinkTest, o: Outcome)
    requires event in log
  {
    if !log[event].trusted then o == Outcome(event, [], [], [], false)
    else
      var plan := PlanOf(log[event].content, link);
      && o.event == event && o.eligible && ItemsFound(s, event, plan.items, o.quarantine) && TagsFound(s, event, plan.tags, o.records)
      && (forall n :: 0 <= n < |o.records| ==> o.records[n] < |s.records|) && o.memories == Linked(s.records, o.records)
  }

  lemma StepIsDone(s: State, log: Log, event: string, link: LinkTest)
    requires event in log
    ensures var r := Step(s, log, event, link); Extends(s, r.0) && Done(r.0, log, event, link, r.1)
  {
    hide PlanOf, EnsureItems, EnsureTags, Linked, ItemsFound, TagsFound;
    if log[event].trusted {
      var plan := PlanOf(log[event].content, link);
      EnsureItemsFinds(s, event, plan.items);
      var q := EnsureItems(s, event, plan.items);
      EnsureTagsFinds(q.0, event, log[event].branch, plan.tags);
      var r := EnsureTags(q.0, event, log[event].branch, plan.tags);
      ItemsStayFound(q.0, r.0, event, plan.items, q.1);
      IdsAreInside(r.0, event, plan.tags, r.1);
    }
  }

  lemma DoneStays(s: State, t: State, log: Log, event: string, link: LinkTest, o: Outcome)
    requires event in log && Done(s, log, event, link, o) && Extends(s, t)
    ensures Done(t, log, event, link, o)
  {
    hide PlanOf, Linked, ItemsFound, TagsFound;
    if log[event].trusted {
      var plan := PlanOf(log[event].content, link);
      ItemsStayFound(s, t, event, plan.items, o.quarantine);
      TagsStayFound(s, t, event, plan.tags, o.records);
      LinkedStays(s.records, t.records, o.records);
    }
  }

  lemma DoneAgain(s: State, log: Log, event: string, link: LinkTest, o: Outcome)
    requires event in log && Done(s, log, event, link, o)
    ensures Step(s, log, event, link) == (s, o)
  {
    hide PlanOf, Linked, ItemsFound, TagsFound, EnsureItems, EnsureTags;
    if log[event].trusted {
      var plan := PlanOf(log[event].content, link);
      EnsureItemsAgain(s, event, plan.items, o.quarantine);
      EnsureTagsAgain(s, event, log[event].branch, plan.tags, o.records);
    }
  }

  lemma EnsureItemAdds(s: State, event: string, i: Item)
    ensures forall q :: q in EnsureItem(s, event, i).0.quarantine <==> q in s.quarantine || q == Quarantined(event, i.reason, i.raw)
  {
    hide FindItem;
    FoundItem(s.quarantine, event, i);
    var prior := FindItem(s.quarantine, event, i);
    assert prior.Some? ==> s.quarantine[prior.value] in s.quarantine;
  }

  lemma {:induction false} EnsureItemsAdds(s: State, event: string, items: seq<Item>)
    ensures forall q :: q in EnsureItems(s, event, items).0.quarantine <==> q in s.quarantine || (q.event == event && Item(q.reason, q.raw) in items)
  {
    hide EnsureItem;
    if items != [] {
      var init, last := items[..|items| - 1], items[|items| - 1];
      assert items == init + [last];
      EnsureItemsAdds(s, event, init);
      EnsureItemAdds(EnsureItems(s, event, init).0, event, last);
    }
  }

  lemma EnsureTagAdds(s: State, event: string, branch: string, t: Tag)
    ensures var u := EnsureTag(s, event, branch, t).0;
      && (forall r :: r in s.records ==> r in u.records)
      && (forall r :: r in u.records ==> r in s.records || (r.branch == branch && IsRecordOf(r, event, t)))
      && exists r :: r in u.records && IsRecordOf(r, event, t)
  {
    hide FindRecord, Audit;
    FoundRecord(s.records, event, t);
    var u := EnsureTag(s, event, branch, t).0;
    var prior := FindRecord(s.records, event, t);
    if prior.Some? {
      assert s.records[prior.value] in u.records;
    } else {
      assert IsRecordOf(u.records[|s.records|], event, t);
    }
  }

  lemma {:induction false} EnsureTagsAdds(s: State, event: string, branch: string, tags: seq<Tag>)
    ensures var u := EnsureTags(s, event, branch, tags).0;
      && (forall r :: r in s.records ==> r in u.records)
      && (forall r :: r in u.records ==> r in s.records || (r.branch == branch && exists t :: t in tags && IsRecordOf(r, event, t)))
      && (forall t :: t in tags ==> exists r :: r in u.records && IsRecordOf(r, event, t))
  {
    hide EnsureTag, IsRecordOf;
    if tags != [] {
      var init, last := tags[..|tags| - 1], tags[|tags| - 1];
      assert tags == init + [last];
      EnsureTagsAdds(s, event, branch, init);
      EnsureTagAdds(EnsureTags(s, event, branch, init).0, event, branch, last);
    }
  }

  /** What one event adds to the ledgers: nothing when it is not trusted, otherwise exactly what its message asks for. */
  lemma StepAddsExactly(s: State, log: Log, event: string, link: LinkTest)
    requires event in log
    ensures var t, plan := Step(s, log, event, link).0, PlanOf(log[event].content, link);
      if !log[event].trusted then t == s
      else
        && (forall q :: q in t.quarantine <==> q in s.quarantine || (q.event == event && Item(q.reason, q.raw) in plan.items))
        && (forall r :: r in s.records ==> r in t.records)
        && (forall r :: r in t.records ==>
              r in s.records || (r.branch == log[event].branch && exists tag :: tag in plan.tags && IsRecordOf(r, event, tag)))
        && (forall tag :: tag in plan.tags ==> exists r :: r in t.records && IsRecordOf(r, event, tag))
  {
    hide PlanOf, EnsureItems, EnsureTags, IsRecordOf, Linked;
    if log[event].trusted {
      var plan := PlanOf(log[event].content, link);
      EnsureItemsFinds(s, event, plan.items);
      EnsureItemsAdds(s, event, plan.items);
      var q := EnsureItems(s, event, plan.items).0;
      EnsureTagsFinds(q, event, log[event].branch, plan.tags);
      EnsureTagsAdds(q, event, log[event].branch, plan.tags);
    }
  }

  // ----- runs

  predicate Logged(events: seq<string>, log: Log) {
    forall n :: 0 <= n < |events| ==> events[n] in log
  }

  function Materialized(s: State, log: Log, events: seq<string>, link: LinkTest): (State, seq<Outcome>)
    requires Logged(events, log)
  {
    if events == [] then (s, [])
    else
      var before := Materialized(s, log, events[..|events| - 1], link);
      var last := Step(before.0, log, events[|events| - 1], link);
      (last.0, before.1 + [last.1])
  }

  lemma {:induction false} AllDone(s: State, log: Log, events: seq<string>, link: LinkTest)
    requires Logged(events, log)
    ensures var r := Materialized(s, log, events, link);
      Extends(s, r.0) && |r.1| == |events| && forall n :: 0 <= n < |events| ==> Done(r.0, log, events[n], link, r.1[n])
  {
    hide Step, Done;
    if events != [] {
      var init, last := events[..|events| - 1], events[|events| - 1];
      AllDone(s, log, init, link);
      var before := Materialized(s, log, init, link);
      StepIsDone(before.0, log, last, link);
      var r := Materialized(s, log, events, link);
      forall n | 0 <= n < |events| ensures Done(r.0, log, events[n], link, r.1[n]) {
        if n < |init| {
          DoneStays(before.0, r.0, log, init[n], link, before.1[n]);
        }
      }
    }
  }

  /** Once events are materialised, replaying any of them, in any order and number and however much later,
      changes no ledger and returns the same ids. */
  lemma {:induction false} ReplayChangesNothing(
      s: State, log: Log, events: seq<string>, later: State, again: seq<string>, link: LinkTest)
    requires Logged(events, log) && Logged(again, log) && Extends(Materialized(s, log, events, link).0, later)
    requires forall n :: 0 <= n < |again| ==> again[n] in events
    ensures var first, replay := Materialized(s, log, events, link), Materialized(later, log, again, link);
      && replay.0 == later && |replay.1| == |again| && |first.1| == |events|
      && forall n, m :: 0 <= n < |again| && 0 <= m < |events| && again[n] == events[m] ==> replay.1[n] == first.1[m]
    decreases |again|
  {
    hide Step, Done;
    AllDone(s, log, events, link);
    var first := Materialized(s, log, events, link);
    if again != [] {
      var init, last := again[..|again| - 1], again[|again| - 1];
      ReplayChangesNothing(s, log, events, later, init, link);
      forall m | 0 <= m < |events| && events[m] == last ensures Step(later, log, last, link) == (later, first.1[m]) {
        DoneStays(first.0, later, log, last, link, first.1[m]);
        DoneAgain(later, log, last, link, first.1[m]);
      }
      assert again[|again| - 1] in events;
      var m :| 0 <= m < |events| && events[m] == last;
      var replay := Materialized(later, log, again, link);
      forall n, k | 0 <= n < |again| && 0 <= k < |events| && again[n] == events[k] ensures replay.1[n] == first.1[k] {
        if n < |init| {
          assert replay.1[n] == Materialized(later, log, init, link).1[n];
          assert init[n] == events[k];
        }
      }
    }
  }

  // ----- what every run keeps

  predicate OneRowPerKey(s: State) {
    && (forall i, j :: 0 <= i < j < |s.records| ==> !SameKey(s.records[i], s.records[j]))
    && (forall i, j :: 0 <= i < j < |s.quarantine| ==> s.quarantine[i] != s.quarantine[j])
  }

  predicate SameKey(a: Record, b: Record) {
    a.event == b.event && a.kind == b.kind && a.status == b.status && a.content == b.content
  }

  /** A record was asked for by its event, and is linked to its own memory exactly when it is confirmed. */
  ghost predicate RecordIsSound(s: State, log: Log, link: LinkTest, r: Record) {
    && r.event in log && log[r.event].trusted && r.branch == log[r.event].branch
    && (exists t :: t in PlanOf(log[r.event].content, link).tags && IsRecordOf(r, r.event, t))
    && (r.memory.Some? <==> r.status.Confirmed?)
    && (r.memory.Some? ==> r.memory.value < |s.memories| && s.memories[r.memory.value] == Memory(r.event, r.branch, r.kind, r.content))
  }

  predicate HasLink(records: seq<Record>, m: nat) {
    exists n :: 0 <= n < |records| && records[n].memory == Some(m)
  }

  predicate LinksAreOneToOne(records: seq<Record>, memories: seq<Memory>) {
    && (forall i, j :: 0 <= i < j < |records| && records[i].memory.Some? ==> records[i].memory != records[j].memory)
    && (forall m: nat :: m < |memories| ==> HasLink(records, m))
  }

  ghost predicate Inv(s: State, log: Log, link: LinkTest) {
    && OneRowPerKey(s) && LinksAreOneToOne(s.records, s.memories)
    && forall n :: 0 <= n < |s.records| ==> RecordIsSound(s, log, link, s.records[n])
  }

  lemma EnsureItemKeeps(s: State, log: Log, link: LinkTest, event: string, i: Item)
    requires Inv(s, log, link)
    ensures Inv(EnsureItem(s, event, i).0, log, link)
  {
    hide FindItem, PlanOf, IsRecordOf;
    FoundItem(s.quarantine, event, i);
    var t := EnsureItem(s, event, i).0;
    assert t.records == s.records && t.memories == s.memories;
    assert OneRowPerKey(t);
    forall n | 0 <= n < |t.records| ensures RecordIsSound(t, log, link, t.records[n]) {
      assert RecordIsSound(s, log, link, s.records[n]);
    }
  }

  lemma {:induction false} EnsureItemsKeeps(s: State, log: Log, link: LinkTest, event: string, items: seq<Item>)
    requires Inv(s, log, link)
    ensures Inv(EnsureItems(s, event, items).0, log, link)
  {
    hide Inv, EnsureItem;
    if items != [] {
      EnsureItemsKeeps(s, log, link, event, items[..|items| - 1]);
      EnsureItemKeeps(EnsureItems(s, event, items[..|items| - 1]).0, log, link, event, items[|items| - 1]);
    }
  }

  lemma EnsureTagKeeps(s: State, log: Log, link: LinkTest, event: string, t: Tag)
    requires Inv(s, log, link) && event in log && log[event].trusted && t in PlanOf(log[event].content, link).tags
    ensures Inv(EnsureTag(s, event, log[event].branch, t).0, log, link)
  {
    hide FindRecord, PlanOf, OneRowPerKey, LinksAreOneToOne, RecordIsSound;
    FoundRecord(s.records, event, t);
    if FindRecord(s.records, event, t).None? {
      var u := EnsureTag(s, event, log[event].branch, t).0;
      NewRowIsNew(s, u, event, log[event].branch, t);
      NewLink(s, u, log, link, event, t);
      forall n | 0 <= n < |u.records| ensures RecordIsSound(u, log, link, u.records[n]) {
        if n < |s.records| {
          RecordStaysSound(s, u, log, link, s.records[n]);
        } else {
          NewRowIsSound(s, u, log, link, event, t);
        }
      }
    }
  }

  predicate IsNewRow(s: State, u: State, event: string, branch: string, t: Tag) {
    FindRecord(s.records, event, t).None? && u == EnsureTag(s, event, branch, t).0
  }

  lemma NewRowIsNew(s: State, u: State, event: string, branch: string, t: Tag)
    requires OneRowPerKey(s) && IsNewRow(s, u, event, branch, t)
    ensures OneRowPerKey(u)
  {
    hide FindRecord, Audit;
    FoundRecord(s.records, event, t);
  }

  lemma RecordStaysSound(s: State, u: State, log: Log, link: LinkTest, r: Record)
    requires RecordIsSound(s, log, link, r) && s.memories <= u.memories
    ensures RecordIsSound(u, log, link, r)
  {
    hide PlanOf, Audit;
  }

  lemma NewRowIsSound(s: State, u: State, log: Log, link: LinkTest, event: string, t: Tag)
    requires event in log && log[event].trusted && t in PlanOf(log[event].content, link).tags
    requires IsNewRow(s, u, event, log[event].branch, t)
    ensures RecordIsSound(u, log, link, u.records[|s.records|])
  {
    hide PlanOf, FindRecord;
    assert IsRecordOf(u.records[|s.records|], event, t);
  }

  lemma NewLink(s: State, u: State, log: Log, link: LinkTest, event: string, t: Tag)
    requires Inv(s, log, link) && event in log && IsNewRow(s, u, event, log[event].branch, t)
    ensures LinksAreOneToOne(u.records, u.memories)
  {
    hide PlanOf, FindRecord, Audit, OneRowPerKey;
    forall n | 0 <= n < |s.records| && s.records[n].memory.Some? ensures s.records[n].memory.value < |s.memories| {
      assert RecordIsSound(s, log, link, s.records[n]);
    }
    forall i, j | 0 <= i < j < |u.records| && u.records[i].memory.Some? ensures u.records[i].memory != u.records[j].memory {
      assert u.records[i] == s.records[i];
      if j < |s.records| {
        assert u.records[j] == s.records[j];
      } else {
        assert u.records[j].memory.Some? ==> u.records[j].memory.value == |s.memories|;
      }
    }
    forall m: nat | m < |u.memories| ensures HasLink(u.records, m) {
      if m < |s.memories| {
        assert HasLink(s.records, m);
        var n :| 0 <= n < |s.records| && s.records[n].memory == Some(m);
        assert u.records[n].memory == Some(m);
      } else {
        assert u.records[|s.records|].memory == Some(m);
      }
    }
  }

  lemma {:induction false} EnsureTagsKeeps(s: State, log: Log, link: LinkTest, event: string, tags: seq<Tag>)
    requires Inv(s, log, link) && event in log && log[event].trusted
    requires forall n :: 0 <= n < |tags| ==> tags[n] in PlanOf(log[event].content, link).tags
    ensures Inv(EnsureTags(s, event, log[event].branch, tags).0, log, link)
  {
    hide Inv, EnsureTag, PlanOf;
    if tags != [] {
      EnsureTagsKeeps(s, log, link, event, tags[..|tags| - 1]);
      EnsureTagKeeps(EnsureTags(s, event, log[event].branch, tags[..|tags| - 1]).0, log, link, event, tags[|tags| - 1]);
    }
  }

  lemma StepKeeps(s: State, log: Log, link: LinkTest, event: string)
    requires Inv(s, log, link) && event in log
    ensures Inv(Step(s, log, event, link).0, log, link)
  {
    hide Inv, EnsureItems, EnsureTags, PlanOf, Linked;
    if log[event].trusted {
      var plan := PlanOf(log[event].content, link);
      EnsureItemsKeeps(s, log, link, event, plan.items);
      EnsureTagsKeeps(EnsureItems(s, event, plan.items).0, log, link, event, plan.tags);
    }
  }

  /** Over every run the ledgers hold one row per key, each record was asked for by its trusted event, and
      confirmed records and memories correspond one to one. */
  lemma {:induction false} RunKeeps(s: State, log: Log, events: seq<string>, link: LinkTest)
    requires Inv(s, log, link) && Logged(events, log)
    ensures Inv(Materialized(s, log, events, link).0, log, link)
  {
    hide Inv, Step;
    if events != [] {
      RunKeeps(s, log, events[..|events| - 1], link);
      StepKeeps(Materialized(s, log, events[..|events| - 1], link).0, log, link, events[|events| - 1]);
    }
  }

  lemma TextIsTagText(r: Record, t: Tag)
    requires IsRecordOf(r, r.event, t)
    ensures TextOf(r) == t.text
  {
  }

  /** No event ever holds records with two statuses for one kind and text. */
  lemma OneStatusPerText(s: State, log: Log, link: LinkTest, i: nat, j: nat)
    requires Inv(s, log, link) && i < |s.records| && j < |s.records|
    requires s.records[i].event == s.records[j].event && s.records[i].kind == s.records[j].kind
    requires TextOf(s.records[i]) == TextOf(s.records[j])
    ensures s.records[i].status == s.records[j].status
  {
    hide PlanOf, TextOf, IsRecordOf, OneRowPerKey, LinksAreOneToOne;
    var a, b := s.records[i], s.records[j];
    assert RecordIsSound(s, log, link, a) && RecordIsSound(s, log, link, b);
    var t :| t in PlanOf(log[a.event].content, link).tags && IsRecordOf(a, a.event, t);
    var u :| u in PlanOf(log[a.event].content, link).tags && IsRecordOf(b, b.event, u);
    TextIsTagText(a, t);
    TextIsTagText(b, u);
    TagOfRecord(a, t);
    TagOfRecord(b, u);
    PlanIsConsistent(log[a.event].content, link, t, u);
  }

  lemma TagOfRecord(r: Record, t: Tag)
    requires IsRecordOf(r, r.event, t)
    ensures t.kind == r.kind && t.status == r.status
  {
  }

  lemma PlanIsConsistent(content: string, link: LinkTest, t: Tag, u: Tag)
    requires t in PlanOf(content, link).tags && u in PlanOf(content, link).tags && t.kind == u.kind && t.text == u.text
    ensures t.status == u.status
  {
    hide Standing, Linking, Classified, Lines;
    var tags := PlanOf(content, link).tags;
    var i :| 0 <= i < |tags| && tags[i] == t;
    var j :| 0 <= j < |tags| && tags[j] == u;
    assert !Contradictory(tags);
    assert i < j ==> !Contradict(tags[i], tags[j]);
    assert j < i ==> !Contradict(tags[j], tags[i]);
  }

  // ----- the stored content

  function Mark(s: Status): string {
    "[" + StatusName(s) + "] "
  }

  /** A confirmed text that is written like another tag with its status in front. */
  predicate ReadsLike(confirmed: Status, text: string, other: Status, otherText: string) {
    confirmed.Confirmed? && text == Mark(other) + otherText
  }

  /** Tags with different statuses are stored alike exactly when the confirmed one's text reads like the other. */
  lemma AuditsCoincideExactly(a: Tag, b: Tag)
    requires a.status != b.status
    ensures Audit(a) == Audit(b) <==> ReadsLike(a.status, a.text, b.status, b.text) || ReadsLike(b.status, b.text, a.status, a.text)
  {
    assert Mark(Rejected)[1] == 'R' && Mark(Deferred)[1] == 'D';
    assert !a.status.Confirmed? ==> Audit(a)[1] == Mark(a.status)[1];
    assert !b.status.Confirmed? ==> Audit(b)[1] == Mark(b.status)[1];
  }

  /** The same for records of a ledger: contents with different statuses coincide exactly under that condition. */
  lemma ContentsCoincideExactly(s: State, log: Log, link: LinkTest, i: nat, j: nat)
    requires Inv(s, log, link) && i < |s.records| && j < |s.records| && s.records[i].status != s.records[j].status
    ensures var a, b := s.records[i], s.records[j];
      a.content == b.content <==> ReadsLike(a.status, TextOf(a), b.status, TextOf(b)) || ReadsLike(b.status, TextOf(b), a.status, TextOf(a))
  {
    hide PlanOf, TextOf, OneRowPerKey, LinksAreOneToOne, Audit, ReadsLike;
    var a, b := s.records[i], s.records[j];
    assert RecordIsSound(s, log, link, a) && RecordIsSound(s, log, link, b);
    var t :| t in PlanOf(log[a.event].content, link).tags && IsRecordOf(a, a.event, t);
    var u :| u in PlanOf(log[b.event].content, link).tags && IsRecordOf(b, b.event, u);
    TextIsTagText(a, t);
    TextIsTagText(b, u);
    AuditsCoincideExactly(t, u);
  }

  // ----- and it does happen

  /** A message of two tag lines: a confirmed text that reads like the second line's tag. */
  function TwoLines(k: Kind, other: Status, text: string): string {
    Render(Tag(k, Confirmed, Mark(other) + text)) + "\n" + Render(Tag(k, other, text))
  }

  predicate FitsTwice(other: Status, text: string, link: LinkTest) {
    && !other.Confirmed? && IsTagText(text) && OneLine(text) && |Mark(other) + text| <= MAX_TEXT
    && !link(text) && !link(Mark(other) + text)
  }

  lemma RenderedIsOneLine(t: Tag)
    requires OneLine(t.text)
    ensures OneLine(Render(t)) && Render(t) != ""
  {
    hide IsBreak;
    HeadsAreOneLine(t.kind, t.status);
    OneLineAppend(KindHead(t.kind), StatusHead(t.status));
    OneLineAppend(KindHead(t.kind) + StatusHead(t.status), t.text);
  }

  predicate Printable(s: string) {
    forall i :: 0 <= i < |s| ==> ' ' <= s[i] <= '~'
  }

  lemma PrintableIsOneLine(s: string)
    requires Printable(s)
    ensures OneLine(s)
  {
  }

  lemma HeadsAreOneLine(k: Kind, s: Status)
    ensures OneLine(KindHead(k)) && OneLine(StatusHead(s)) && OneLine(Mark(s))
  {
    hide OneLine, IsBreak;
    assert Printable(KindName(k)) && Printable(StatusName(s));
    PrintableIsOneLine(KindHead(k));
    PrintableIsOneLine(StatusHead(s));
    PrintableIsOneLine(Mark(s));
  }

  lemma OneLineAppend(a: string, b: string)
    requires OneLine(a) && OneLine(b)
    ensures OneLine(a + b)
  {
    hide IsBreak;
  }

  lemma MarkedIsTagText(s: Status, text: string)
    requires IsTagText(text)
    ensures IsTagText(Mark(s) + text)
  {
    var all := Mark(s) + text;
    assert all[0] == '[' && all[|all| - 1] == text[|text| - 1];
  }

  lemma LinesOfTwo(k: Kind, other: Status, text: string)
    requires OneLine(text)
    ensures Lines(TwoLines(k, other, text)) == [Render(Tag(k, Confirmed, Mark(other) + text)), Render(Tag(k, other, text))]
  {
    hide Lines, OneLine, Render, Mark;
    var a, b := Render(Tag(k, Confirmed, Mark(other) + text)), Render(Tag(k, other, text));
    HeadsAreOneLine(k, other);
    OneLineAppend(Mark(other), text);
    RenderedIsOneLine(Tag(k, Confirmed, Mark(other) + text));
    RenderedIsOneLine(Tag(k, other, text));
    assert [a, b][1..] == [b];
    assert Join([b], "\n") == b;
    assert Join([a, b], "\n") == a + "\n" + b;
    LinesOfJoin([a, b]);
  }

  lemma ValidLine(lines: seq<string>, n: nat, t: Tag)
    requires n < |lines| && IsValidAt(lines, n, t)
    ensures FenceBefore(lines, n + 1).None?
    ensures var before := Classified(lines, n); Classified(lines, n + 1) == before.(valid := before.valid + [t])
  {
    hide Render, PlaceOf, MarkerOf, LooksLikeTag, Quoted, IsTagText;
    PlaceIsValid(lines, n);
    RenderedLine(t);
  }

  lemma NoLinesYet(lines: seq<string>)
    ensures FenceBefore(lines, 0).None? && Classified(lines, 0) == Classes([], [], [])
  {
  }

  lemma ClassesOfTwo(k: Kind, other: Status, text: string, link: LinkTest)
    requires FitsTwice(other, text, link)
    ensures var a, b := Tag(k, Confirmed, Mark(other) + text), Tag(k, other, text);
      Classified([Render(a), Render(b)], 2) == Classes([a, b], [], [])
  {
    hide Render, IsTagText, OneLine, Classified, FenceBefore, Mark;
    var a, b := Tag(k, Confirmed, Mark(other) + text), Tag(k, other, text);
    var lines := [Render(a), Render(b)];
    MarkedIsTagText(other, text);
    NoLinesYet(lines);
    ValidLine(lines, 0, a);
    ValidLine(lines, 1, b);
    assert [a] + [b] == [a, b];
  }

  lemma StandingOfTwo(a: Tag, b: Tag, link: LinkTest)
    requires a != b && !link(a.text) && !link(b.text)
    ensures Standing([a, b], link) == [a, b]
  {
    assert [a, b][..1] == [a] && [a][..0] == [];
    assert Standing([a], link) == [a];
  }

  lemma PlanOfTwo(k: Kind, other: Status, text: string, link: LinkTest)
    requires FitsTwice(other, text, link)
    ensures PlanOf(TwoLines(k, other, text), link).tags == [Tag(k, Confirmed, Mark(other) + text), Tag(k, other, text)]
  {
    hide Lines, Classified, Standing, Linking, Render, IsTagText, OneLine, Mark, TwoLines;
    var a, b := Tag(k, Confirmed, Mark(other) + text), Tag(k, other, text);
    LinesOfTwo(k, other, text);
    ClassesOfTwo(k, other, text, link);
    StandingOfTwo(a, b, link);
    MarkIsText(other);
    assert |a.text| > |b.text|;
    assert !Contradictory([a, b]);
  }

  lemma MarkIsText(s: Status)
    ensures Mark(s) != ""
  {
  }

  /** One trusted message with those two lines leaves both records, from any ledger: different statuses, one
      stored content. */
  lemma ContentsCanCoincide(s: State, log: Log, event: string, link: LinkTest, k: Kind, other: Status, text: string)
    requires event in log && log[event].trusted && log[event].content == TwoLines(k, other, text) && FitsTwice(other, text, link)
    ensures var records := Step(s, log, event, link).0.records;
      exists i, j :: 0 <= i < |records| && 0 <= j < |records| && records[i].event == event == records[j].event && records[i].kind == k == records[j].kind
        && records[i].status == Confirmed && records[j].status == other && records[i].content == records[j].content
  {
    hide PlanOf, Step, TwoLines, FindRecord, ItemsFound, Linked, FitsTwice;
    var a, b := Tag(k, Confirmed, Mark(other) + text), Tag(k, other, text);
    var r := Step(s, log, event, link);
    StepIsDone(s, log, event, link);
    PlanOfTwo(k, other, text, link);
    var tags := PlanOf(log[event].content, link).tags;
    assert tags[0] == a && tags[1] == b;
    FoundRecord(r.0.records, event, a);
    FoundRecord(r.0.records, event, b);
    NotConfirmed(other, text, link);
    var i, j := r.1.records[0], r.1.records[1];
    assert IsRecordOf(r.0.records[i], event, a) && IsRecordOf(r.0.records[j], event, b);
  }

  lemma NotConfirmed(other: Status, text: string, link: LinkTest)
    requires FitsTwice(other, text, link)
    ensures !other.Confirmed? && Audit(Tag(Fact, Confirmed, Mark(other) + text)) == Audit(Tag(Fact, other, text))
  {
  }
}
