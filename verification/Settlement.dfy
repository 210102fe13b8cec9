/**
 Settlement of task closures and requested block changes: the candidate ledger with its statuses,
 the append-once receipts, and the block texts, driven by the reconciler, by undo, by contesting
 markers and by manual settlement.
 */
module Settlement {
  import opened Basics
  import opened Text
  import opened Blocks

  datatype Status = Pending | Applied | Reverted | Contested

  datatype Actor = System | Operator | Agent

  datatype Kind = TaskClosure | BlockChange

  /** The internal event a candidate is anchored to; it is appended once per key. */
  datatype Source = Completion(entry: string, evidence: string) | ChangeRequest(event: string, block: string)

  /** One candidate per source event, kind and text. */
  datatype Id = Id(kind: Kind, source: Source, content: string)

  datatype Transition = Transition(from: Status, to: Status, actor: Actor)

  datatype Strength = Strong | Medium | Weak

  datatype Receipt =
    | ClosureApplied(id: Id) | ClosureReverted(id: Id)
    | ChangeApplied(id: Id) | ChangeReverted(id: Id)
    | Requested(id: Id, to: Status, actor: Actor)

  /**
   `events` holds the text recorded by the first event of each source, `receipts` what a receipt
   recorded: the block text before a change was applied, nothing for the others.
   */
  datatype State = State(
    blocks: map<string, string>, ledger: map<Id, seq<Transition>>, events: map<Source, string>, receipts: map<Receipt, string>,
    closureFlag: bool, delegation: bool)

  datatype Error = UnknownCandidate | IllegalTransition | DelegationRequired | EntryNotPresent | InvalidRequest | NothingToRevert

  datatype Result = Ok(state: State) | Err(error: Error)

  const OPEN_TASKS := "open_tasks"

  predicate ReplaceBlock(name: string) {
    name == "goal" || name == "instructions"
  }

  /** The allowed status changes. */
  predicate Flow(from: Status, to: Status) {
    match from
    case Pending => to == Applied || to == Contested
    case Applied => to == Reverted || to == Contested
    case _ => false
  }

  function StatusOf(history: seq<Transition>): Status {
    if history == [] then Pending else history[|history| - 1].to
  }

  function TextOf(s: State, name: string): string {
    if name in s.blocks then s.blocks[name] else ""
  }

  // ----- the ledger's primitives

  function Once(s: State, receipt: Receipt, value: string): State {
    if receipt in s.receipts then s else s.(receipts := s.receipts[receipt := value])
  }

  function Recorded(s: State, source: Source, text: string): State {
    if source in s.events then s else s.(events := s.events[source := text])
  }

  function Created(s: State, id: Id): State {
    if id in s.ledger then s else s.(ledger := s.ledger[id := []])
  }

  /** Idempotent on repeats, refuses whatever the flow does not allow. */
  function SettleCandidate(s: State, id: Id, to: Status, actor: Actor): Result {
    if id !in s.ledger then Err(UnknownCandidate)
    else
      var current := StatusOf(s.ledger[id]);
      if current == to then Ok(s)
      else if actor == Agent && !s.delegation then Err(DelegationRequired)
      else if !Flow(current, to) then Err(IllegalTransition)
      else Ok(s.(ledger := s.ledger[id := s.ledger[id] + [Transition(current, to, actor)]]))
  }

  function SetBlock(s: State, name: string, content: string): State {
    s.(blocks := s.blocks[name := content])
  }

  // ----- closing, undoing, contesting

  /** Remove the entry's line and mark the candidate applied; refused when the line is not there. */
  function ApplyClosure(s: State, entry: string, id: Id, actor: Actor): Result {
    if OPEN_TASKS !in s.blocks || !Present(Lines(s.blocks[OPEN_TASKS]), Normalized(entry)) then Err(EntryNotPresent)
    else SettleCandidate(SetBlock(Once(s, ClosureApplied(id), ""), OPEN_TASKS, Without(s.blocks[OPEN_TASKS], entry)), id, Applied, actor)
  }

  function UndoClosure(s: State, id: Id, actor: Actor): Result {
    if id !in s.ledger || id.kind != TaskClosure then Err(UnknownCandidate)
    else
      match SettleCandidate(Once(s, ClosureReverted(id), ""), id, Reverted, actor)
      case Err(e) => Err(e)
      case Ok(t) =>
        if Present(Lines(TextOf(t, OPEN_TASKS)), Normalized(id.content)) then Ok(t)
        else Ok(SetBlock(t, OPEN_TASKS, WithAgain(TextOf(t, OPEN_TASKS), id.content)))
  }

  predicate Reasserted(s: State, entry: string, id: Id) {
    id in s.ledger && id.kind == TaskClosure && StatusOf(s.ledger[id]) == Applied && Normalized(id.content) == Normalized(entry)
  }

  /** Every applied closure of the entry becomes contested. */
  function Contest(s: State, entry: string): State {
    s.(ledger := map id | id in s.ledger ::
         if Reasserted(s, entry, id) then s.ledger[id] + [Transition(Applied, Contested, System)] else s.ledger[id])
  }

  // ----- reconciliation

  datatype Detection = Detection(entry: string, evidence: string, strength: Strength)

  function SourceOf(d: Detection): Source {
    Completion(Normalized(d.entry), d.evidence)
  }

  function IdOf(d: Detection): Id {
    Id(TaskClosure, SourceOf(d), d.entry)
  }

  predicate AutoApplyAllowed(s: State, strength: Strength) {
    strength == Strong || (strength == Medium && s.closureFlag)
  }

  /** Record a detection, find or create its candidate, and close the task when that is automatic. */
  function Detect(s: State, d: Detection): State {
    var id := IdOf(d);
    var t := Created(Recorded(s, SourceOf(d), d.entry), id);
    if StatusOf(t.ledger[id]) != Pending || !AutoApplyAllowed(t, d.strength) then t
    else
      match ApplyClosure(t, d.entry, id, System)
      case Ok(u) => u
      case Err(_) => t
  }

  function DetectAll(s: State, detections: seq<Detection>): State
    decreases |detections|
  {
    if detections == [] then s else DetectAll(Detect(s, detections[0]), detections[1..])
  }

  /** Closures whose evidence no longer exists are reverted before anything is detected. */
  function Invalidate(s: State, id: Id): State {
    if id in s.ledger && id.kind == TaskClosure && StatusOf(s.ledger[id]) == Applied then
      match UndoClosure(s, id, System)
      case Ok(t) => t
      case Err(_) => s
    else s
  }

  function InvalidateAll(s: State, ids: seq<Id>): State
    decreases |ids|
  {
    if ids == [] then s else InvalidateAll(Invalidate(s, ids[0]), ids[1..])
  }

  function Reconcile(s: State, invalidated: seq<Id>, detections: seq<Detection>): State {
    DetectAll(InvalidateAll(s, invalidated), detections)
  }

  // ----- markers and requests

  /** A marker in a user message: merged into the block; a re-added task contests its closures. */
  function Mark(s: State, name: string, content: string): State {
    var merged := Merged(TextOf(s, name), content, ReplaceBlock(name));
    if name in s.blocks && merged == s.blocks[name] then s
    else if name == OPEN_TASKS then Contest(SetBlock(s, name, merged), content)
    else SetBlock(s, name, merged)
  }

  /** A marker whose text is a question only requests the change. */
  function Request(s: State, event: string, name: string, content: string): State {
    var source := ChangeRequest(event, name);
    Created(Recorded(s, source, content), Id(BlockChange, source, content))
  }

  // ----- manual settlement

  function SettleTaskClosure(s: State, id: Id, to: Status, actor: Actor): Result
    requires id in s.ledger
  {
    match to
    case Applied => ApplyClosure(s, if id.source in s.events then s.events[id.source] else id.content, id, actor)
    case Reverted => UndoClosure(s, id, actor)
    case _ => SettleCandidate(s, id, Contested, actor)
  }

  /** What a block-change candidate proposes: the text of its request event. */
  function Proposed(s: State, id: Id): string {
    if id.source in s.events then s.events[id.source] else id.content
  }

  function BlockOf(id: Id): string {
    match id.source
    case ChangeRequest(_, block) => block
    case Completion(_, _) => OPEN_TASKS
  }

  function Written(s: State, name: string, content: string): State {
    if content != TextOf(s, name) then SetBlock(s, name, content) else s
  }

  function SettleBlockChange(s: State, id: Id, to: Status, actor: Actor): Result {
    var name := BlockOf(id);
    var current := TextOf(s, name);
    match to
    case Applied =>
      SettleCandidate(Written(Once(s, ChangeApplied(id), current), name, Merged(current, Proposed(s, id), ReplaceBlock(name))), id, Applied, actor)
    case Reverted =>
      if ChangeApplied(id) !in s.receipts then Err(NothingToRevert)
      else
        var restored := if ReplaceBlock(name) then s.receipts[ChangeApplied(id)] else Without(current, Proposed(s, id));
        SettleCandidate(Written(Once(s, ChangeReverted(id), ""), name, restored), id, Reverted, actor)
    case _ => SettleCandidate(s, id, Contested, actor)
  }

  /** The manual verbs; a repeat is answered before any side effect. */
  function Settle(s: State, id: Id, to: Status, reason: string, agent: bool): Result {
    var actor := if agent then Agent else Operator;
    if to == Pending || Blank(reason) then Err(InvalidRequest)
    else if id !in s.ledger then Err(UnknownCandidate)
    else
      var current := StatusOf(s.ledger[id]);
      if current == to then Ok(s)
      else if !Flow(current, to) then Err(IllegalTransition)
      else if agent && !s.delegation then Err(DelegationRequired)
      else
        var t := Once(s, Requested(id, to, actor), "");
        if id.kind == TaskClosure then SettleTaskClosure(t, id, to, actor) else SettleBlockChange(t, id, to, actor)
  }

  // ----- runs

  datatype Action =
    | DoReconcile(invalidated: seq<Id>, detections: seq<Detection>)
    | DoUndo(id: Id)
    | DoContest(entry: string)
    | DoSettle(id: Id, to: Status, reason: string, agent: bool)
    | DoMark(name: string, content: string)
    | DoRequest(event: string, name: string, content: string)
    | DoEdit(name: string, content: string)
    | DoPolicy(closureFlag: bool, delegation: bool)

  /** A refused action is rolled back. */
  function OrElse(r: Result, s: State): State {
    if r.Ok? then r.state else s
  }

  function Step(s: State, a: Action): State {
    match a
    case DoReconcile(invalidated, detections) => Reconcile(s, invalidated, detections)
    case DoUndo(id) => OrElse(UndoClosure(s, id, System), s)
    case DoContest(entry) => Contest(s, entry)
    case DoSettle(id, to, reason, agent) => OrElse(Settle(s, id, to, reason, agent), s)
    case DoMark(name, content) => Mark(s, name, content)
    case DoRequest(event, name, content) => Request(s, event, name, content)
    case DoEdit(name, content) => SetBlock(s, name, content)
    case DoPolicy(closureFlag, delegation) => s.(closureFlag := closureFlag, delegation := delegation)
  }

  function Run(s: State, actions: seq<Action>): State
    decreases |actions|
  {
    if actions == [] then s else Run(Step(s, actions[0]), actions[1..])
  }

  // ----- the invariant

  /** Each status change starts where the one before ended and follows the flow. */
  predicate Chain(h: seq<Transition>) {
    forall i | 0 <= i < |h| :: Flow(h[i].from, h[i].to) && h[i].from == StatusOf(h[..i])
  }

  predicate EverApplied(h: seq<Transition>) {
    exists i | 0 <= i < |h| :: h[i].to == Applied
  }

  /** The receipts say of a candidate what its history says. */
  predicate ReceiptsAgree(s: State, id: Id)
    requires id in s.ledger
  {
    var h := s.ledger[id];
    && id.source in s.events
    && (id.kind == TaskClosure ==> (ClosureApplied(id) in s.receipts <==> EverApplied(h)))
    && (id.kind == TaskClosure ==> (ClosureReverted(id) in s.receipts <==> StatusOf(h) == Reverted))
    && (id.kind == BlockChange ==> (ChangeApplied(id) in s.receipts <==> EverApplied(h)))
    && (id.kind == BlockChange ==> (ChangeReverted(id) in s.receipts <==> StatusOf(h) == Reverted))
  }

  predicate Known(s: State, r: Receipt) {
    r.id in s.ledger
  }

  predicate Inv(s: State) {
    && (forall id | id in s.ledger :: Chain(s.ledger[id]) && ReceiptsAgree(s, id))
    && (forall r | r in s.receipts :: Known(s, r))
  }

  /** Ledger, events and receipts are append-only. */
  predicate Grows(s: State, t: State) {
    && (forall id | id in s.ledger :: id in t.ledger && s.ledger[id] <= t.ledger[id])
    && (forall source | source in s.events :: source in t.events && t.events[source] == s.events[source])
    && (forall r | r in s.receipts :: r in t.receipts && t.receipts[r] == s.receipts[r])
  }

  lemma GrowsTwice(s: State, t: State, u: State)
    requires Grows(s, t) && Grows(t, u)
    ensures Grows(s, u)
  {}

  /** A history has at most two entries: pending, applied, then reverted or contested. */
  lemma ChainIsShort(h: seq<Transition>)
    requires Chain(h)
    ensures |h| <= 2
    ensures |h| >= 1 ==> h[0].from == Pending
    ensures |h| == 2 ==> h[0].to == Applied && h[1].from == Applied
    ensures EverApplied(h) <==> h != [] && h[0].to == Applied
    ensures StatusOf(h) == Applied ==> |h| == 1
  {
    assert |h| >= 1 ==> h[..0] == [];
    assert |h| >= 2 ==> h[..1][0] == h[0];
    assert |h| >= 3 ==> h[..2][1] == h[1] && Flow(h[2].from, h[2].to);
  }

  lemma ChainGrows(h: seq<Transition>, to: Status, actor: Actor)
    requires Chain(h) && Flow(StatusOf(h), to)
    ensures Chain(h + [Transition(StatusOf(h), to, actor)])
    ensures EverApplied(h + [Transition(StatusOf(h), to, actor)]) <==> EverApplied(h) || to == Applied
  {
    var g := h + [Transition(StatusOf(h), to, actor)];
    forall i | 0 <= i < |g| ensures Flow(g[i].from, g[i].to) && g[i].from == StatusOf(g[..i]) {
      if i < |h| {
        assert g[..i] == h[..i] && g[i] == h[i];
      } else {
        assert g[..i] == h;
      }
    }
    assert g[|h|].to == to;
    assert forall i | 0 <= i < |h| :: g[i] == h[i];
  }

  /** One candidate moves on; receipts are only added, and only its own. */
  predicate Moves(s: State, t: State, id: Id) {
    && id in s.ledger && t.ledger.Keys == s.ledger.Keys && t.events == s.events
    && (forall other | other in s.ledger && other != id :: t.ledger[other] == s.ledger[other])
    && s.ledger[id] <= t.ledger[id]
    && (forall r | r in s.receipts :: r in t.receipts && t.receipts[r] == s.receipts[r])
    && (forall r | r in t.receipts :: r in s.receipts || r.id == id)
  }

  lemma MoveKeeps(s: State, t: State, id: Id)
    requires Inv(s) && Moves(s, t, id) && Chain(t.ledger[id]) && ReceiptsAgree(t, id)
    ensures Inv(t) && Grows(s, t)
  {
    hide Chain, EverApplied;
    forall other | other in t.ledger ensures Chain(t.ledger[other]) && ReceiptsAgree(t, other) {
      if other != id {
        assert ReceiptsAgree(s, other);
      }
    }
  }

  /** The receipt that goes with a status change. */
  function ReceiptFor(id: Id, to: Status): Receipt {
    if id.kind == TaskClosure then (if to == Applied then ClosureApplied(id) else ClosureReverted(id))
    else (if to == Applied then ChangeApplied(id) else ChangeReverted(id))
  }

  /** A candidate is applied or reverted, with its receipt. */
  ghost predicate Gains(s: State, t: State, id: Id, to: Status, actor: Actor) {
    && id in s.ledger && t.events == s.events
    && t.ledger == s.ledger[id := s.ledger[id] + [Transition(StatusOf(s.ledger[id]), to, actor)]]
    && (exists value :: t.receipts == Once(s, ReceiptFor(id, to), value).receipts)
  }

  lemma GainAgrees(s: State, t: State, id: Id, to: Status, actor: Actor)
    requires Inv(s) && Gains(s, t, id, to, actor) && (to == Applied || to == Reverted) && Flow(StatusOf(s.ledger[id]), to)
    ensures Chain(t.ledger[id]) && ReceiptsAgree(t, id)
  {
    hide Chain, EverApplied;
    assert ReceiptsAgree(s, id);
    ChainGrows(s.ledger[id], to, actor);
    ChainIsShort(s.ledger[id]);
  }

  lemma GainKeeps(s: State, t: State, id: Id, to: Status, actor: Actor)
    requires Inv(s) && Gains(s, t, id, to, actor) && (to == Applied || to == Reverted) && Flow(StatusOf(s.ledger[id]), to)
    ensures Inv(t) && Grows(s, t) && StatusOf(t.ledger[id]) == to
  {
    hide Chain, EverApplied, ReceiptsAgree, Inv, Grows, Flow;
    GainAgrees(s, t, id, to, actor);
    assert Moves(s, t, id);
    MoveKeeps(s, t, id);
  }

  lemma ApplyKeeps(s: State, entry: string, id: Id, actor: Actor)
    requires Inv(s) && id in s.ledger && id.kind == TaskClosure && StatusOf(s.ledger[id]) == Pending
    ensures var r := ApplyClosure(s, entry, id, actor); r.Ok? ==> Inv(r.state) && Grows(s, r.state) && StatusOf(r.state.ledger[id]) == Applied
  {
    hide Inv, Grows, Present, Lines, Normalized, Without;
    var r := ApplyClosure(s, entry, id, actor);
    if r.Ok? {
      assert r.state.receipts == Once(s, ReceiptFor(id, Applied), "").receipts;
      GainKeeps(s, r.state, id, Applied, actor);
    }
  }

  lemma UndoKeeps(s: State, id: Id, actor: Actor)
    requires Inv(s)
    ensures var r := UndoClosure(s, id, actor); r.Ok? ==> Inv(r.state) && Grows(s, r.state) && StatusOf(r.state.ledger[id]) == Reverted
  {
    hide Inv, Grows, Present, Lines, Normalized, WithAgain;
    var r := UndoClosure(s, id, actor);
    if r.Ok? {
      if StatusOf(s.ledger[id]) == Reverted {
        RevertedHasReceipt(s, id);
        OtherFields(s, r.state);
      } else {
        assert r.state.receipts == Once(s, ReceiptFor(id, Reverted), "").receipts;
        GainKeeps(s, r.state, id, Reverted, actor);
      }
    }
  }

  lemma RevertedHasReceipt(s: State, id: Id)
    requires Inv(s) && id in s.ledger && StatusOf(s.ledger[id]) == Reverted
    ensures ReceiptFor(id, Reverted) in s.receipts
  {
    hide Chain, EverApplied;
    assert ReceiptsAgree(s, id);
  }

  lemma ContestOneKeeps(s: State, id: Id, actor: Actor)
    requires Inv(s)
    ensures var r := SettleCandidate(s, id, Contested, actor); r.Ok? ==> Inv(r.state) && Grows(s, r.state)
  {
    hide Chain, EverApplied;
    var r := SettleCandidate(s, id, Contested, actor);
    if r.Ok? && StatusOf(s.ledger[id]) != Contested {
      assert ReceiptsAgree(s, id);
      ChainGrows(s.ledger[id], Contested, actor);
      MoveKeeps(s, r.state, id);
    }
  }

  lemma ContestKeeps(s: State, entry: string)
    requires Inv(s)
    ensures Inv(Contest(s, entry)) && Grows(s, Contest(s, entry))
  {
    hide Chain, EverApplied, Normalized;
    var t := Contest(s, entry);
    forall id | id in t.ledger ensures Chain(t.ledger[id]) && ReceiptsAgree(t, id) {
      assert ReceiptsAgree(s, id);
      if Reasserted(s, entry, id) {
        ChainGrows(s.ledger[id], Contested, System);
      }
    }
  }

  /** Text of blocks and policy are no part of the invariant. */
  lemma OtherFields(s: State, t: State)
    requires Inv(s) && t.ledger == s.ledger && t.events == s.events && t.receipts == s.receipts
    ensures Inv(t) && Grows(s, t)
  {
    hide Chain, EverApplied;
    forall id | id in t.ledger ensures ReceiptsAgree(t, id) {
      assert ReceiptsAgree(s, id);
    }
  }

  lemma RecordedKeeps(s: State, source: Source, text: string)
    requires Inv(s)
    ensures var t := Recorded(s, source, text); Inv(t) && Grows(s, t) && source in t.events && t.ledger == s.ledger
  {
    hide Inv, Grows, Recorded;
    RecordedFacts(s, source, text);
    MoreEventsKeep(s, Recorded(s, source, text));
  }

  lemma RecordedFacts(s: State, source: Source, text: string)
    ensures var t := Recorded(s, source, text);
      && t.ledger == s.ledger && t.receipts == s.receipts && t.blocks == s.blocks && source in t.events && Grows(s, t)
  {
  }

  lemma MoreEventsKeep(s: State, t: State)
    requires Inv(s) && t.ledger == s.ledger && t.receipts == s.receipts && s.events.Keys <= t.events.Keys
    ensures Inv(t)
  {
    hide Chain, ReceiptsAgree;
    forall id | id in t.ledger ensures ReceiptsAgree(t, id) {
      StillAgree(s, t, id);
    }
    forall r | r in t.receipts ensures Known(t, r) {
      assert Known(s, r);
    }
  }

  lemma StillAgree(s: State, t: State, id: Id)
    requires id in s.ledger && ReceiptsAgree(s, id)
    requires t.ledger == s.ledger && t.receipts == s.receipts && s.events.Keys <= t.events.Keys
    ensures ReceiptsAgree(t, id)
  {
    hide EverApplied, StatusOf;
  }

  /** A new candidate has no receipt yet. */
  lemma NewKeeps(s: State, id: Id)
    requires Inv(s) && id.source in s.events
    ensures var t := Created(s, id); Inv(t) && Grows(s, t) && id in t.ledger
  {
    hide EverApplied;
    var t := Created(s, id);
    if id !in s.ledger {
      assert forall r | r in s.receipts :: Known(s, r);
      assert !EverApplied([]) by { NothingApplied(); }
      forall other | other in t.ledger ensures Chain(t.ledger[other]) && ReceiptsAgree(t, other) {
        if other != id {
          assert ReceiptsAgree(s, other);
        }
      }
    }
  }

  lemma NothingApplied()
    ensures !EverApplied([])
  {}

  lemma CreatedKeeps(s: State, source: Source, text: string, id: Id)
    requires Inv(s) && id.source == source
    ensures var t := Created(Recorded(s, source, text), id);
      Inv(t) && Grows(s, t) && id in t.ledger && source in t.events
  {
    hide Inv, Grows;
    var u := Recorded(s, source, text);
    RecordedKeeps(s, source, text);
    NewKeeps(u, id);
    GrowsTwice(s, u, Created(u, id));
  }

  lemma DetectKeeps(s: State, d: Detection)
    requires Inv(s)
    ensures Inv(Detect(s, d)) && Grows(s, Detect(s, d)) && IdOf(d) in Detect(s, d).ledger
  {
    hide Inv, Grows, ApplyClosure, Normalized, SourceOf;
    CreatedKeeps(s, SourceOf(d), d.entry, IdOf(d));
    var t := Created(Recorded(s, SourceOf(d), d.entry), IdOf(d));
    if StatusOf(t.ledger[IdOf(d)]) == Pending {
      ApplyKeeps(t, d.entry, IdOf(d), System);
      var r := ApplyClosure(t, d.entry, IdOf(d), System);
      if r.Ok? {
        GrowsTwice(s, t, r.state);
        GrowsKeepsId(t, r.state, IdOf(d));
      }
    }
  }

  lemma GrowsKeepsId(s: State, t: State, id: Id)
    requires Grows(s, t) && id in s.ledger
    ensures id in t.ledger && s.ledger[id] <= t.ledger[id]
  {}

  lemma GrowsSelf(s: State)
    ensures Grows(s, s)
  {}

  lemma {:induction false} DetectAllKeeps(s: State, detections: seq<Detection>)
    requires Inv(s)
    ensures Inv(DetectAll(s, detections)) && Grows(s, DetectAll(s, detections))
    decreases |detections|
  {
    hide Inv, Grows, Detect;
    GrowsSelf(s);
    if detections != [] {
      var t := Detect(s, detections[0]);
      DetectKeeps(s, detections[0]);
      DetectAllKeeps(t, detections[1..]);
      GrowsTwice(s, t, DetectAll(t, detections[1..]));
    }
  }

  lemma {:induction false} InvalidateAllKeeps(s: State, ids: seq<Id>)
    requires Inv(s)
    ensures Inv(InvalidateAll(s, ids)) && Grows(s, InvalidateAll(s, ids))
    decreases |ids|
  {
    hide Inv, Grows, UndoClosure;
    GrowsSelf(s);
    if ids != [] {
      var t := Invalidate(s, ids[0]);
      UndoKeeps(s, ids[0], System);
      InvalidateAllKeeps(t, ids[1..]);
      GrowsTwice(s, t, InvalidateAll(t, ids[1..]));
    }
  }

  lemma MarkKeeps(s: State, name: string, content: string)
    requires Inv(s)
    ensures Inv(Mark(s, name, content)) && Grows(s, Mark(s, name, content))
  {
    hide Inv, Grows, Contest, Merged;
    GrowsSelf(s);
    var t := SetBlock(s, name, Merged(TextOf(s, name), content, ReplaceBlock(name)));
    OtherFields(s, t);
    ContestKeeps(t, content);
    GrowsTwice(s, t, Contest(t, content));
  }

  lemma RequestedKeeps(s: State, id: Id, to: Status, actor: Actor)
    requires Inv(s) && id in s.ledger
    ensures var t := Once(s, Requested(id, to, actor), ""); Inv(t) && Grows(s, t) && t.ledger == s.ledger
  {
    hide Inv, Grows, Once, Moves, ReceiptsAgree, Chain;
    var t := Once(s, Requested(id, to, actor), "");
    OnceMoves(s, id, to, actor);
    RequestAgrees(s, id, to, actor);
    MoveKeeps(s, t, id);
  }

  lemma OnceMoves(s: State, id: Id, to: Status, actor: Actor)
    requires Inv(s) && id in s.ledger
    ensures var t := Once(s, Requested(id, to, actor), ""); Moves(s, t, id) && t.ledger == s.ledger && Chain(t.ledger[id])
  {
    hide Chain, ReceiptsAgree;
  }

  lemma RequestAgrees(s: State, id: Id, to: Status, actor: Actor)
    requires Inv(s) && id in s.ledger
    ensures ReceiptsAgree(Once(s, Requested(id, to, actor), ""), id)
  {
    hide EverApplied, StatusOf, Chain;
    assert ReceiptsAgree(s, id);
  }

  lemma ApplyChangeKeeps(s: State, id: Id, actor: Actor)
    requires Inv(s) && id in s.ledger && id.kind == BlockChange && Flow(StatusOf(s.ledger[id]), Applied)
    ensures var r := SettleBlockChange(s, id, Applied, actor); r.Ok? ==> Inv(r.state) && Grows(s, r.state) && StatusOf(r.state.ledger[id]) == Applied
  {
    hide Inv, Grows, Merged, Without, Written, BlockOf, Proposed;
    var r := SettleBlockChange(s, id, Applied, actor);
    if r.Ok? {
      WrittenOnly(Once(s, ChangeApplied(id), TextOf(s, BlockOf(id))), BlockOf(id), Merged(TextOf(s, BlockOf(id)), Proposed(s, id), ReplaceBlock(BlockOf(id))));
      assert r.state.receipts == Once(s, ReceiptFor(id, Applied), TextOf(s, BlockOf(id))).receipts;
      GainKeeps(s, r.state, id, Applied, actor);
    }
  }

  lemma RevertChangeKeeps(s: State, id: Id, actor: Actor)
    requires Inv(s) && id in s.ledger && id.kind == BlockChange && Flow(StatusOf(s.ledger[id]), Reverted)
    ensures var r := SettleBlockChange(s, id, Reverted, actor); r.Ok? ==> Inv(r.state) && Grows(s, r.state) && StatusOf(r.state.ledger[id]) == Reverted
  {
    hide Inv, Grows, Merged, Without, Written, BlockOf, Proposed;
    var r := SettleBlockChange(s, id, Reverted, actor);
    if r.Ok? {
      var restored := if ReplaceBlock(BlockOf(id)) then s.receipts[ChangeApplied(id)] else Without(TextOf(s, BlockOf(id)), Proposed(s, id));
      WrittenOnly(Once(s, ChangeReverted(id), ""), BlockOf(id), restored);
      assert r.state.receipts == Once(s, ReceiptFor(id, Reverted), "").receipts;
      GainKeeps(s, r.state, id, Reverted, actor);
    }
  }

  lemma BlockChangeKeeps(s: State, id: Id, to: Status, actor: Actor)
    requires Inv(s) && id in s.ledger && id.kind == BlockChange && Flow(StatusOf(s.ledger[id]), to)
    ensures var r := SettleBlockChange(s, id, to, actor); r.Ok? ==> Inv(r.state) && Grows(s, r.state) && StatusOf(r.state.ledger[id]) == to
  {
    hide Inv, Grows, Merged, Without, Written, BlockOf, Proposed, Once, SettleCandidate, StatusOf;
    match to {
      case Applied => ApplyChangeKeeps(s, id, actor);
      case Reverted => RevertChangeKeeps(s, id, actor);
      case Contested =>
        ContestOneKeeps(s, id, actor);
        SettledStatus(s, id, Contested, actor);
      case Pending => NothingFlowsBack(StatusOf(s.ledger[id]));
    }
  }

  lemma SettledStatus(s: State, id: Id, to: Status, actor: Actor)
    ensures var r := SettleCandidate(s, id, to, actor); r.Ok? ==> id in r.state.ledger && StatusOf(r.state.ledger[id]) == to
  {
    hide Flow;
  }

  lemma NothingFlowsBack(from: Status)
    ensures !Flow(from, Pending)
  {
  }

  lemma WrittenOnly(s: State, name: string, content: string)
    ensures var t := Written(s, name, content);
      && t.ledger == s.ledger && t.events == s.events && t.receipts == s.receipts && t.delegation == s.delegation
      && TextOf(t, name) == content
  {}

  lemma SettleKeeps(s: State, id: Id, to: Status, reason: string, agent: bool)
    requires Inv(s)
    ensures var r := Settle(s, id, to, reason, agent);
      r.Ok? ==> Inv(r.state) && Grows(s, r.state) && id in r.state.ledger && StatusOf(r.state.ledger[id]) == to
  {
    hide Inv, Grows, ApplyClosure, UndoClosure, SettleBlockChange, Once, Blank;
    GrowsSelf(s);
    var r := Settle(s, id, to, reason, agent);
    if r.Ok? && StatusOf(s.ledger[id]) != to {
      var actor := if agent then Agent else Operator;
      var t := Once(s, Requested(id, to, actor), "");
      RequestedKeeps(s, id, to, actor);
      match id.kind {
        case TaskClosure =>
          match to {
            case Applied => ApplyKeeps(t, if id.source in t.events then t.events[id.source] else id.content, id, actor);
            case Reverted => UndoKeeps(t, id, actor);
            case _ => ContestOneKeeps(t, id, actor);
          }
        case BlockChange => BlockChangeKeeps(t, id, to, actor);
      }
      GrowsTwice(s, t, r.state);
      GrowsKeepsId(s, r.state, id);
    }
  }

  lemma StepKeeps(s: State, a: Action)
    requires Inv(s)
    ensures Inv(Step(s, a)) && Grows(s, Step(s, a))
  {
    hide Inv, Grows, UndoClosure, Contest, Settle, Mark, SetBlock;
    GrowsSelf(s);
    match a
    case DoReconcile(invalidated, detections) =>
      var t := InvalidateAll(s, invalidated);
      InvalidateAllKeeps(s, invalidated);
      DetectAllKeeps(t, detections);
      GrowsTwice(s, t, DetectAll(t, detections));
    case DoUndo(id) => UndoKeeps(s, id, System);
    case DoContest(entry) => ContestKeeps(s, entry);
    case DoSettle(id, to, reason, agent) => SettleKeeps(s, id, to, reason, agent);
    case DoMark(name, content) => MarkKeeps(s, name, content);
    case DoRequest(event, name, content) => CreatedKeeps(s, ChangeRequest(event, name), content, Id(BlockChange, ChangeRequest(event, name), content));
    case DoEdit(name, content) => EditKeeps(s, name, content);
    case DoPolicy(closureFlag, delegation) => OtherFields(s, s.(closureFlag := closureFlag, delegation := delegation));
  }

  lemma EditKeeps(s: State, name: string, content: string)
    requires Inv(s)
    ensures Inv(SetBlock(s, name, content)) && Grows(s, SetBlock(s, name, content))
  {
    hide Inv, Grows;
    OtherFields(s, SetBlock(s, name, content));
  }

  /** Over every run the ledger stays consistent and append-only. */
  lemma {:induction false} RunKeeps(s: State, actions: seq<Action>)
    requires Inv(s)
    ensures Inv(Run(s, actions)) && Grows(s, Run(s, actions))
    decreases |actions|
  {
    hide Inv, Grows, Step;
    GrowsSelf(s);
    if actions != [] {
      var t := Step(s, actions[0]);
      StepKeeps(s, actions[0]);
      RunKeeps(t, actions[1..]);
      GrowsTwice(s, t, Run(t, actions[1..]));
    }
  }

  lemma Initially(blocks: map<string, string>, closureFlag: bool, delegation: bool)
    ensures Inv(State(blocks, map[], map[], map[], closureFlag, delegation))
  {}

  // ----- consume once

  predicate Final(status: Status) {
    status == Reverted || status == Contested
  }

  /**
   Over every interleaving: a candidate is applied at most once, by anyone, and once it is reverted
   or contested nothing moves it again.
   */
  lemma ConsumeOnce(s: State, before: seq<Action>, after: seq<Action>, id: Id)
    requires Inv(s) && id in Run(s, before).ledger
    ensures var t, u := Run(s, before), Run(Run(s, before), after);
      && id in u.ledger && t.ledger[id] <= u.ledger[id] && Chain(u.ledger[id])
      && (forall i, j | 0 <= i < |u.ledger[id]| && 0 <= j < |u.ledger[id]| && u.ledger[id][i].to == Applied && u.ledger[id][j].to == Applied :: i == j)
      && (Final(StatusOf(t.ledger[id])) ==> u.ledger[id] == t.ledger[id])
  {
    hide Run, Grows;
    var t := Run(s, before);
    var u := Run(t, after);
    RunKeeps(s, before);
    RunKeeps(t, after);
    GrowsKeepsId(t, u, id);
    hide Inv;
    ChainsOf(t, id);
    ChainsOf(u, id);
    var h, g := t.ledger[id], u.ledger[id];
    ChainIsShort(h);
    ChainIsShort(g);
    FinalIsLast(h, g);
    OneApplication(g);
  }

  lemma ChainsOf(s: State, id: Id)
    requires Inv(s) && id in s.ledger
    ensures Chain(s.ledger[id])
  {}

  lemma FinalIsLast(h: seq<Transition>, g: seq<Transition>)
    requires Chain(g) && h <= g
    ensures Final(StatusOf(h)) ==> g == h
  {
    ChainIsShort(g);
    assert |h| >= 1 ==> h[0] == g[0];
  }

  lemma OneApplication(g: seq<Transition>)
    requires Chain(g)
    ensures forall i, j | 0 <= i < |g| && 0 <= j < |g| && g[i].to == Applied && g[j].to == Applied :: i == j
  {
    ChainIsShort(g);
    assert |g| == 2 ==> g[..1][0] == g[0] && Flow(g[1].from, g[1].to);
  }

  // ----- repeating a settled transition

  /** A manual verb that succeeded is answered the second time without touching anything. */
  lemma SettleTwice(s: State, id: Id, to: Status, reason: string, agent: bool)
    requires Inv(s) && Settle(s, id, to, reason, agent).Ok?
    ensures var t := Settle(s, id, to, reason, agent).state; Settle(t, id, to, reason, agent) == Ok(t)
  {
    SettleKeeps(s, id, to, reason, agent);
    hide Inv, Grows, Once, SettleTaskClosure, SettleBlockChange, Blank;
  }

  /** Undoing a reverted closure again changes nothing exactly when its entry is still in the block. */
  lemma RepeatedUndoExactly(s: State, id: Id, actor: Actor)
    requires Inv(s) && id in s.ledger && id.kind == TaskClosure && StatusOf(s.ledger[id]) == Reverted && Entry(id.content)
    ensures UndoClosure(s, id, actor) == Ok(s) <==> Present(Lines(TextOf(s, OPEN_TASKS)), Normalized(id.content))
  {
    hide Inv, WithAgain, Lines, Normalized, Present;
    RevertedHasReceipt(s, id);
    UndoTwice(TextOf(s, OPEN_TASKS), id.content);
  }

  /** What an undo that goes through leaves behind. */
  lemma UndoEffect(s: State, id: Id, actor: Actor)
    requires UndoClosure(s, id, actor).Ok?
    ensures var t := UndoClosure(s, id, actor).state;
      TextOf(t, OPEN_TASKS) == WithAgain(TextOf(s, OPEN_TASKS), id.content) && id in t.ledger && id.kind == TaskClosure
  {
    hide Lines, Normalized, Flow, Join, Present, SettleCandidate;
    SettleKeepsBlocks(Once(s, ClosureReverted(id), ""), id, Reverted, actor);
  }

  lemma SettleKeepsBlocks(s: State, id: Id, to: Status, actor: Actor)
    ensures var r := SettleCandidate(s, id, to, actor); r.Ok? ==> id in r.state.ledger && r.state.blocks == s.blocks
  {
    hide Flow, StatusOf;
  }

  lemma AppliesFromPending(s: State, id: Id, actor: Actor)
    requires id in s.ledger && StatusOf(s.ledger[id]) == Pending && (actor != Agent || s.delegation)
    ensures SettleCandidate(s, id, Applied, actor) == Ok(s.(ledger := s.ledger[id := s.ledger[id] + [Transition(Pending, Applied, actor)]]))
  {
    hide StatusOf;
  }

  /** What a closure that goes through leaves behind, and when it goes through. */
  lemma ApplyEffect(s: State, entry: string, id: Id, actor: Actor)
    requires id in s.ledger && StatusOf(s.ledger[id]) == Pending && (actor != Agent || s.delegation)
    ensures var r := ApplyClosure(s, entry, id, actor);
      && (r.Ok? <==> OPEN_TASKS in s.blocks && Present(Lines(s.blocks[OPEN_TASKS]), Normalized(entry)))
      && (r.Ok? ==>
        && r.state.ledger == s.ledger[id := s.ledger[id] + [Transition(Pending, Applied, actor)]]
        && r.state.events == s.events && r.state.delegation == s.delegation && r.state.closureFlag == s.closureFlag
        && r.state.blocks == s.blocks[OPEN_TASKS := Without(s.blocks[OPEN_TASKS], entry)])
  {
    hide Lines, Normalized, Without, Present, SettleCandidate, StatusOf;
    if OPEN_TASKS in s.blocks {
      AppliesFromPending(SetBlock(Once(s, ClosureApplied(id), ""), OPEN_TASKS, Without(s.blocks[OPEN_TASKS], entry)), id, actor);
    }
  }

  /** Right after an undo a second one changes nothing. */
  lemma UndoIsIdempotent(s: State, id: Id, actor: Actor)
    requires Inv(s) && Entry(id.content) && UndoClosure(s, id, actor).Ok?
    ensures var t := UndoClosure(s, id, actor).state; UndoClosure(t, id, actor) == Ok(t)
  {
    hide Inv, WithAgain, Lines, Normalized, Present, Grows, UndoClosure, Entry, TextOf, StatusOf;
    var t := UndoClosure(s, id, actor).state;
    UndoKeeps(s, id, actor);
    UndoEffect(s, id, actor);
    UndoTwice(TextOf(s, OPEN_TASKS), id.content);
    RepeatedUndoExactly(t, id, actor);
  }

  // ----- reconciling again

  /** Nothing is left to do for a detection. */
  predicate Handled(s: State, d: Detection) {
    && SourceOf(d) in s.events && IdOf(d) in s.ledger
    && (StatusOf(s.ledger[IdOf(d)]) == Pending && AutoApplyAllowed(s, d.strength) ==>
          OPEN_TASKS !in s.blocks || !Present(Lines(s.blocks[OPEN_TASKS]), Normalized(d.entry)))
  }

  lemma HandledStays(s: State, d: Detection)
    requires Handled(s, d)
    ensures Detect(s, d) == s
  {
    hide Present, Lines, Normalized, Without;
  }

  lemma DetectHandles(s: State, d: Detection)
    ensures Handled(Detect(s, d), d)
  {
    hide Present, Lines, Normalized, Without, ApplyClosure, Created, Recorded, StatusOf;
    var t := Created(Recorded(s, SourceOf(d), d.entry), IdOf(d));
    CreatedFacts(s, SourceOf(d), d.entry, IdOf(d));
    if StatusOf(t.ledger[IdOf(d)]) == Pending {
      AppliedIsSettled(t.ledger[IdOf(d)]);
      ApplyEffect(t, d.entry, IdOf(d), System);
    }
  }

  /** What one detection can change: the ledger, and the block by closing its own entry. */
  lemma DetectEffect(s: State, e: Detection)
    ensures var t := Detect(s, e);
      && t.closureFlag == s.closureFlag && t.delegation == s.delegation
      && (t.blocks == s.blocks
          || (OPEN_TASKS in s.blocks && t.blocks == s.blocks[OPEN_TASKS := Without(s.blocks[OPEN_TASKS], e.entry)]))
  {
    hide Present, Lines, Normalized, Without, ApplyClosure, Created, Recorded, StatusOf;
    var t := Created(Recorded(s, SourceOf(e), e.entry), IdOf(e));
    CreatedFacts(s, SourceOf(e), e.entry, IdOf(e));
    if StatusOf(t.ledger[IdOf(e)]) == Pending {
      AppliedIsSettled(t.ledger[IdOf(e)]);
      ApplyEffect(t, e.entry, IdOf(e), System);
    }
  }

  /** Detections only close tasks, so what was handled stays handled. */
  lemma DetectKeepsHandled(s: State, d: Detection, e: Detection)
    requires Inv(s) && Handled(s, d) && Entry(d.entry)
    ensures Handled(Detect(s, e), d)
  {
    DetectKeeps(s, e);
    DetectEffect(s, e);
    NormalizedBlank(d.entry);
    GrowsKeepsId(s, Detect(s, e), IdOf(d));
    SourceStays(s, Detect(s, e), SourceOf(d));
    hide Inv, Lines, Normalized, Without, Present, Detect, Grows, Entry, SourceOf;
    if OPEN_TASKS in s.blocks && !Present(Lines(s.blocks[OPEN_TASKS]), Normalized(d.entry)) {
      StillAbsent(s.blocks[OPEN_TASKS], e.entry, Normalized(d.entry));
    }
    PendingOnlyBefore(s.ledger[IdOf(d)], Detect(s, e).ledger[IdOf(d)]);
    ChainsOf(Detect(s, e), IdOf(d));
  }

  lemma SourceStays(s: State, t: State, source: Source)
    requires Grows(s, t) && source in s.events
    ensures source in t.events
  {}

  lemma PendingOnlyBefore(h: seq<Transition>, g: seq<Transition>)
    requires h <= g
    ensures Chain(g) && StatusOf(g) == Pending ==> h == [] == g
  {
    if Chain(g) {
      ChainIsShort(g);
      assert |g| == 2 ==> Flow(g[1].from, g[1].to);
      assert |g| == 1 ==> Flow(g[0].from, g[0].to);
    }
  }

  lemma StillAbsent(content: string, entry: string, target: string)
    requires target != "" && !Present(Lines(content), target)
    ensures !Present(Lines(Without(content, entry)), target)
  {
    hide Lines, Normalized, Key, Rows, Without, Others;
    RowsAreLines(content);
    PresentInRows(Lines(content), target);
    RowsWithout(content, entry);
    OthersAreLines(Rows(content), Normalized(entry));
    RowsAreLines(Without(content, entry));
    PresentInRows(Lines(Without(content, entry)), target);
  }

  lemma {:induction false} DetectAllKeepsHandled(s: State, d: Detection, detections: seq<Detection>)
    requires Inv(s) && Handled(s, d) && Entry(d.entry)
    ensures Handled(DetectAll(s, detections), d)
    decreases |detections|
  {
    hide Inv, Handled, Detect, Entry;
    if detections != [] {
      DetectKeeps(s, detections[0]);
      DetectKeepsHandled(s, d, detections[0]);
      DetectAllKeepsHandled(Detect(s, detections[0]), d, detections[1..]);
    }
  }

  lemma {:induction false} DetectAllHandles(s: State, detections: seq<Detection>)
    requires Inv(s) && forall d | d in detections :: Entry(d.entry)
    ensures forall d | d in detections :: Handled(DetectAll(s, detections), d)
    decreases |detections|
  {
    hide Inv, Handled, Detect, Entry;
    if detections != [] {
      var first, rest := detections[0], detections[1..];
      var t := Detect(s, first);
      DetectKeeps(s, first);
      DetectHandles(s, first);
      DetectAllKeepsHandled(t, first, rest);
      DetectAllHandles(t, rest);
      forall d | d in detections ensures Handled(DetectAll(s, detections), d) {
        assert d == first || d in rest;
      }
    }
  }

  lemma {:induction false} NothingToDetect(s: State, detections: seq<Detection>)
    requires forall d | d in detections :: Handled(s, d)
    ensures DetectAll(s, detections) == s
    decreases |detections|
  {
    hide Handled, Detect;
    if detections != [] {
      HandledStays(s, detections[0]);
      NothingToDetect(s, detections[1..]);
    }
  }

  /** Reconciling twice on the same detections changes nothing the second time. */
  lemma ReconcileTwice(s: State, invalidated: seq<Id>, detections: seq<Detection>)
    requires Inv(s) && forall d | d in detections :: Entry(d.entry)
    ensures var t := Reconcile(s, invalidated, detections); Reconcile(t, [], detections) == t
  {
    hide Inv, Handled, Entry;
    InvalidateAllKeeps(s, invalidated);
    DetectAllHandles(InvalidateAll(s, invalidated), detections);
    NothingToDetect(Reconcile(s, invalidated, detections), detections);
  }

  // ----- which detections close a task

  /** No candidate yet, or one that nobody has settled. */
  predicate Undecided(s: State, id: Id) {
    id in s.ledger ==> StatusOf(s.ledger[id]) == Pending
  }

  predicate IsOpen(s: State, entry: string) {
    OPEN_TASKS in s.blocks && Present(Lines(s.blocks[OPEN_TASKS]), Normalized(entry))
  }

  /** Strong evidence closes an open task by itself, medium evidence only under the policy's flag, weak never. */
  lemma DetectionClosesExactly(s: State, d: Detection)
    requires Undecided(s, IdOf(d))
    ensures var t := Detect(s, d);
      var closes := IsOpen(s, d.entry) && (d.strength == Strong || (d.strength == Medium && s.closureFlag));
      && IdOf(d) in t.ledger && StatusOf(t.ledger[IdOf(d)]) == (if closes then Applied else Pending)
      && t.blocks == (if closes then s.blocks[OPEN_TASKS := Without(s.blocks[OPEN_TASKS], d.entry)] else s.blocks)
  {
    hide Present, Lines, Normalized, Without, ApplyClosure, Created, Recorded, SourceOf, IdOf;
    var t := Created(Recorded(s, SourceOf(d), d.entry), IdOf(d));
    CreatedFacts(s, SourceOf(d), d.entry, IdOf(d));
    AppliedIsSettled(t.ledger[IdOf(d)]);
    ApplyEffect(t, d.entry, IdOf(d), System);
  }

  lemma DetectTouchesOnly(s: State, d: Detection, id: Id)
    requires id != IdOf(d)
    ensures var t := Detect(s, d);
      (id in t.ledger <==> id in s.ledger) && (id in s.ledger ==> t.ledger[id] == s.ledger[id])
  {
    hide Present, Lines, Normalized, Without, ApplyClosure, StatusOf;
    var t := Created(Recorded(s, SourceOf(d), d.entry), IdOf(d));
    if StatusOf(t.ledger[IdOf(d)]) == Pending {
      ApplyEffect(t, d.entry, IdOf(d), System);
    }
  }

  lemma StillClosed(s: State, d: Detection, entry: string)
    requires Entry(entry) && !IsOpen(s, entry)
    ensures !IsOpen(Detect(s, d), entry)
  {
    hide Present, Lines, Normalized, Without, Detect;
    DetectEffect(s, d);
    NormalizedBlank(entry);
    if OPEN_TASKS in s.blocks {
      StillAbsent(s.blocks[OPEN_TASKS], d.entry, Normalized(entry));
    }
  }

  lemma ClosedIsGone(s: State, d: Detection)
    requires Entry(d.entry) && Undecided(s, IdOf(d)) && (d.strength == Strong || (d.strength == Medium && s.closureFlag))
    ensures !IsOpen(Detect(s, d), d.entry)
  {
    hide Present, Lines, Normalized, Without, Detect, StatusOf;
    DetectionClosesExactly(s, d);
    if IsOpen(s, d.entry) {
      WithoutIsAbsent(s.blocks[OPEN_TASKS], d.entry);
    }
  }

  lemma WithoutIsAbsent(content: string, entry: string)
    requires Entry(entry)
    ensures !Present(Lines(Without(content, entry)), Normalized(entry))
  {
    hide Lines, Normalized, Rows, Without, Others, Key;
    NormalizedBlank(entry);
    RowsWithout(content, entry);
    OthersHaveNone(Rows(content), Normalized(entry));
    RowsAreLines(Without(content, entry));
    PresentInRows(Lines(Without(content, entry)), Normalized(entry));
  }

  lemma {:induction false} AllStillClosed(s: State, detections: seq<Detection>, entry: string)
    requires Entry(entry) && !IsOpen(s, entry)
    ensures !IsOpen(DetectAll(s, detections), entry)
    decreases |detections|
  {
    hide Detect, IsOpen, Entry;
    if detections != [] {
      StillClosed(s, detections[0], entry);
      AllStillClosed(Detect(s, detections[0]), detections[1..], entry);
    }
  }

  /** One detection more, for a candidate that nobody has settled. */
  lemma UndecidedAfter(s: State, d: Detection, id: Id)
    requires Undecided(s, id)
    ensures var t := Detect(s, d);
      && t.closureFlag == s.closureFlag
      && (Undecided(t, id)
          || (IdOf(d) == id && IsOpen(s, d.entry) && (d.strength == Strong || (d.strength == Medium && s.closureFlag))))
  {
    hide Detect, StatusOf, IsOpen;
    DetectEffect(s, d);
    if IdOf(d) == id {
      DetectionClosesExactly(s, d);
    } else {
      DetectTouchesOnly(s, d, id);
    }
  }

  /** A candidate that detections applied had evidence strong enough, and its task was open. */
  lemma {:induction false} AppliedByEvidence(s: State, detections: seq<Detection>, id: Id)
    requires Undecided(s, id) && Entry(id.content)
    requires var u := DetectAll(s, detections); id in u.ledger && StatusOf(u.ledger[id]) == Applied
    ensures IsOpen(s, id.content)
    ensures exists d :: d in detections && IdOf(d) == id && (d.strength == Strong || (d.strength == Medium && s.closureFlag))
    decreases |detections|
  {
    hide Detect, StatusOf, IsOpen, Entry;
    if detections != [] {
      var first, rest := detections[0], detections[1..];
      assert first in detections;
      UndecidedAfter(s, first, id);
      if Undecided(Detect(s, first), id) {
        AppliedByEvidence(Detect(s, first), rest, id);
        if !IsOpen(s, id.content) {
          StillClosed(s, first, id.content);
        }
        assert forall d | d in rest :: d in detections;
      }
    }
  }

  /** Evidence strong enough leaves no open task behind. */
  lemma {:induction false} EvidenceCloses(s: State, detections: seq<Detection>, d: Detection)
    requires d in detections && Entry(d.entry) && Undecided(s, IdOf(d))
    requires d.strength == Strong || (d.strength == Medium && s.closureFlag)
    ensures !IsOpen(DetectAll(s, detections), d.entry)
    decreases |detections|
  {
    hide Detect, StatusOf, IsOpen, Entry;
    var first, rest := detections[0], detections[1..];
    UndecidedAfter(s, first, IdOf(d));
    if first == d || !Undecided(Detect(s, first), IdOf(d)) {
      ClosedIsGone(s, first);
      AllStillClosed(Detect(s, first), rest, d.entry);
    } else {
      EvidenceCloses(Detect(s, first), rest, d);
    }
  }

  lemma {:induction false} NothingClosed(s: State, detections: seq<Detection>)
    requires forall d | d in detections :: d.strength == Weak || (d.strength == Medium && !s.closureFlag)
    ensures DetectAll(s, detections).blocks == s.blocks
    decreases |detections|
  {
    hide Detect, StatusOf, IsOpen;
    if detections != [] {
      var first, rest := detections[0], detections[1..];
      assert first in detections && forall d | d in rest :: d in detections;
      DetectEffect(s, first);
      WeakClosesNothing(s, first);
      NothingClosed(Detect(s, first), rest);
    }
  }

  lemma WeakClosesNothing(s: State, d: Detection)
    requires d.strength == Weak || (d.strength == Medium && !s.closureFlag)
    ensures Detect(s, d).blocks == s.blocks
  {
    hide Present, Lines, Normalized, Without;
  }

  /**
   A reconciliation follows the policy: what it applied had strong evidence, or medium evidence under the flag; what
   had such evidence is closed; weak evidence, and medium evidence without the flag, changes no block.
   */
  lemma ReconcileFollowsPolicy(s: State, invalidated: seq<Id>, detections: seq<Detection>)
    requires forall d | d in detections :: Entry(d.entry)
    ensures var t, u := InvalidateAll(s, invalidated), Reconcile(s, invalidated, detections);
      && (forall id: Id | Entry(id.content) && Undecided(t, id) && id in u.ledger && StatusOf(u.ledger[id]) == Applied ::
            IsOpen(t, id.content)
            && exists d :: d in detections && IdOf(d) == id && (d.strength == Strong || (d.strength == Medium && s.closureFlag)))
      && (forall d | d in detections && Undecided(t, IdOf(d)) && (d.strength == Strong || (d.strength == Medium && s.closureFlag)) ::
            !IsOpen(u, d.entry))
      && ((forall d | d in detections :: d.strength == Weak || (d.strength == Medium && !s.closureFlag)) ==> u.blocks == t.blocks)
  {
    hide Entry, Undecided, DetectAll, InvalidateAll, IsOpen, StatusOf, IdOf;
    var t, u := InvalidateAll(s, invalidated), Reconcile(s, invalidated, detections);
    InvalidateKeepsFlags(s, invalidated);
    forall id: Id | Entry(id.content) && Undecided(t, id) && id in u.ledger && StatusOf(u.ledger[id]) == Applied
      ensures IsOpen(t, id.content)
        && exists d :: d in detections && IdOf(d) == id && (d.strength == Strong || (d.strength == Medium && s.closureFlag))
    {
      AppliedByEvidence(t, detections, id);
    }
    forall d | d in detections && Undecided(t, IdOf(d)) && (d.strength == Strong || (d.strength == Medium && s.closureFlag))
      ensures !IsOpen(u, d.entry)
    {
      EvidenceCloses(t, detections, d);
    }
    if forall d | d in detections :: d.strength == Weak || (d.strength == Medium && !s.closureFlag) {
      NothingClosed(t, detections);
    }
  }

  lemma {:induction false} InvalidateKeepsFlags(s: State, ids: seq<Id>)
    ensures InvalidateAll(s, ids).closureFlag == s.closureFlag
    decreases |ids|
  {
    hide Present, Lines, Normalized, WithAgain, StatusOf;
    if ids != [] {
      InvalidateKeepsFlags(Invalidate(s, ids[0]), ids[1..]);
    }
  }

  // ----- what the other steps do

  /** The last status change of a candidate went to `to`. */
  predicate StandsAt(s: State, id: Id, to: Status) {
    id in s.ledger && s.ledger[id] != [] && s.ledger[id][|s.ledger[id]| - 1].to == to
  }

  /** Contesting an entry takes back exactly the applied closures of that entry, whatever its case and spacing. */
  lemma ContestExactly(s: State, entry: string)
    ensures var t := Contest(s, entry);
      && t.ledger.Keys == s.ledger.Keys && t == s.(ledger := t.ledger)
      && forall id | id in s.ledger ::
           t.ledger[id] == if id.kind == TaskClosure && StandsAt(s, id, Applied) && Normalized(id.content) == Normalized(entry)
                           then s.ledger[id] + [Transition(Applied, Contested, System)] else s.ledger[id]
  {
    hide Normalized;
  }

  /** Evidence that is gone takes back exactly an applied closure: it is reverted, and its entry is open again. */
  lemma InvalidateExactly(s: State, id: Id)
    ensures var t := Invalidate(s, id);
      if id.kind == TaskClosure && StandsAt(s, id, Applied) then
        && t.ledger == s.ledger[id := s.ledger[id] + [Transition(Applied, Reverted, System)]]
        && TextOf(t, OPEN_TASKS) == WithAgain(TextOf(s, OPEN_TASKS), id.content)
      else t == s
  {
    hide Lines, Normalized, Present, WithAgain;
    if id in s.ledger && id.kind == TaskClosure && StatusOf(s.ledger[id]) == Applied {
      UndoEffect(s, id, System);
    }
  }

  /**
   A marker for the goal or the instructions replaces the text; for another block it is merged in. A merge that changes
   the open tasks contests the closures of the entry; nothing else touches a candidate or another block.
   */
  lemma MarkExactly(s: State, name: string, content: string)
    ensures var t := Mark(s, name, content);
      && (name == "goal" || name == "instructions" ==> TextOf(t, name) == content && t.ledger == s.ledger)
      && (name != "goal" && name != "instructions" ==> TextOf(t, name) == Merged(TextOf(s, name), content, false))
      && (name == "open_tasks" && (name !in s.blocks || TextOf(t, name) != s.blocks[name]) ==> t.ledger == Contest(s, content).ledger)
      && (name != "open_tasks" || (name in s.blocks && TextOf(t, name) == s.blocks[name]) ==> t.ledger == s.ledger)
      && (forall other | other != name :: TextOf(t, other) == TextOf(s, other))
      && t.events == s.events && t.receipts == s.receipts
  {
    hide Merged, Contest;
    var current := TextOf(s, name);
    MergedReplaces(current, content);
    var merged := Merged(current, content, ReplaceBlock(name));
    ContestExactly(SetBlock(s, name, merged), content);
    ContestIgnoresBlocks(s, name, merged, content);
  }

  lemma ContestIgnoresBlocks(s: State, name: string, text: string, entry: string)
    ensures Contest(SetBlock(s, name, text), entry).ledger == Contest(s, entry).ledger
  {
    hide Normalized, StatusOf;
  }

  lemma MergedReplaces(current: string, content: string)
    ensures Merged(current, content, true) == content
  {}

  lemma MoveExactly(s: State, id: Id, to: Status, actor: Actor)
    requires id in s.ledger && Flow(StatusOf(s.ledger[id]), to) && (actor != Agent || s.delegation)
    ensures var r := SettleCandidate(s, id, to, actor);
      r.Ok? && r.state == s.(ledger := s.ledger[id := s.ledger[id] + [Transition(StatusOf(s.ledger[id]), to, actor)]])
  {}

  lemma SettleClosureExactly(s: State, id: Id, to: Status, actor: Actor)
    requires id in s.ledger && id.kind == TaskClosure && to != Pending && Flow(StatusOf(s.ledger[id]), to) && (actor != Agent || s.delegation)
    ensures var r := SettleTaskClosure(s, id, to, actor);
      && (r.Err? ==> r.error == EntryNotPresent)
      && (r.Ok? ==> r.state.ledger == s.ledger[id := s.ledger[id] + [Transition(StatusOf(s.ledger[id]), to, actor)]])
  {
    hide SettleCandidate, Flow, StatusOf, Lines, Normalized, Present, Without, WithAgain;
    match to
    case Applied =>
      var entry := if id.source in s.events then s.events[id.source] else id.content;
      if OPEN_TASKS in s.blocks {
        MoveExactly(SetBlock(Once(s, ClosureApplied(id), ""), OPEN_TASKS, Without(s.blocks[OPEN_TASKS], entry)), id, Applied, actor);
      }
    case Reverted => MoveExactly(Once(s, ClosureReverted(id), ""), id, Reverted, actor);
    case _ => MoveExactly(s, id, Contested, actor);
  }

  lemma SettleChangeExactly(s: State, id: Id, to: Status, actor: Actor)
    requires id in s.ledger && to != Pending && Flow(StatusOf(s.ledger[id]), to) && (actor != Agent || s.delegation)
    ensures var r := SettleBlockChange(s, id, to, actor);
      && (r.Err? ==> r.error == NothingToRevert)
      && (r.Ok? ==> r.state.ledger == s.ledger[id := s.ledger[id] + [Transition(StatusOf(s.ledger[id]), to, actor)]])
  {
    hide SettleCandidate, Flow, StatusOf, Merged, Without, BlockOf, Proposed, TextOf;
    var name := BlockOf(id);
    var current := TextOf(s, name);
    match to
    case Applied => MoveExactly(Written(Once(s, ChangeApplied(id), current), name, Merged(current, Proposed(s, id), ReplaceBlock(name))), id, Applied, actor);
    case Reverted =>
      if ChangeApplied(id) in s.receipts {
        var restored := if ReplaceBlock(name) then s.receipts[ChangeApplied(id)] else Without(current, Proposed(s, id));
        MoveExactly(Written(Once(s, ChangeReverted(id), ""), name, restored), id, Reverted, actor);
      }
    case _ => MoveExactly(s, id, Contested, actor);
  }

  lemma FlowIs(current: Status, to: Status)
    ensures Flow(current, to) <==>
      || (current == Pending && to == Applied) || (current == Applied && to == Reverted)
      || ((current == Pending || current == Applied) && to == Contested)
  {}

  /** The manual verbs refuse in this order; what they let through ends at the status asked for, by the one who asked. */
  lemma SettleExactly(s: State, id: Id, to: Status, reason: string, agent: bool)
    ensures var r := Settle(s, id, to, reason, agent);
      if to == Pending || Strip(reason) == "" then r == Err(InvalidRequest)
      else if id !in s.ledger then r == Err(UnknownCandidate)
      else
        var h := s.ledger[id];
        var current := if h == [] then Pending else h[|h| - 1].to;
        if current == to then r == Ok(s)
        else if !((current == Pending && to == Applied) || (current == Applied && to == Reverted)
                  || ((current == Pending || current == Applied) && to == Contested)) then r == Err(IllegalTransition)
        else if agent && !s.delegation then r == Err(DelegationRequired)
        else
          && (r.Err? ==> r.error == EntryNotPresent || r.error == NothingToRevert)
          && (r.Ok? ==> r.state.ledger == s.ledger[id := h + [Transition(current, to, if agent then Agent else Operator)]])
  {
    hide Blank, Strip, Flow, SettleTaskClosure, SettleBlockChange;
    BlankIsStripped(reason);
    if to != Pending && id in s.ledger {
      var current, actor := StatusOf(s.ledger[id]), if agent then Agent else Operator;
      FlowIs(current, to);
      if Flow(current, to) && (!agent || s.delegation) {
        var t := Once(s, Requested(id, to, actor), "");
        if id.kind == TaskClosure {
          SettleClosureExactly(t, id, to, actor);
        } else {
          SettleChangeExactly(t, id, to, actor);
        }
      }
    }
  }

  // ----- what comes back

  /** The detection closes its task. */
  predicate Closes(s: State, d: Detection) {
    var id, t := IdOf(d), Detect(s, d);
    (id in s.ledger ==> StatusOf(s.ledger[id]) == Pending) && id in t.ledger && StatusOf(t.ledger[id]) == Applied
  }

  lemma ClosedBy(s: State, d: Detection)
    requires Closes(s, d)
    ensures var t := Detect(s, d);
      && Present(Lines(TextOf(s, OPEN_TASKS)), Normalized(d.entry))
      && TextOf(t, OPEN_TASKS) == Without(TextOf(s, OPEN_TASKS), d.entry) && t.delegation == s.delegation && IdOf(d) in t.ledger
  {
    hide Present, Lines, Normalized, Without, ApplyClosure, Created, Recorded, SourceOf, IdOf;
    var t := Created(Recorded(s, SourceOf(d), d.entry), IdOf(d));
    CreatedFacts(s, SourceOf(d), d.entry, IdOf(d));
    ApplyEffect(t, d.entry, IdOf(d), System);
  }

  lemma CreatedFacts(s: State, source: Source, text: string, id: Id)
    ensures var t := Created(Recorded(s, source, text), id);
      && t.blocks == s.blocks && t.delegation == s.delegation && t.closureFlag == s.closureFlag
      && id in t.ledger && t.ledger[id] == (if id in s.ledger then s.ledger[id] else []) && source in t.events
  {
    var u := Recorded(s, source, text);
    assert source in u.events && u.ledger == s.ledger;
    hide Recorded;
  }

  lemma AppliedIsSettled(h: seq<Transition>)
    ensures StatusOf(h + [Transition(Pending, Applied, System)]) == Applied
  {}

  lemma UndoGoesThrough(s: State, id: Id, actor: Actor)
    requires id in s.ledger && id.kind == TaskClosure && StatusOf(s.ledger[id]) == Applied && (actor != Agent || s.delegation)
    ensures UndoClosure(s, id, actor).Ok?
  {
    hide Present, Lines, Normalized, WithAgain;
  }

  /**
   An automatic closure and its undo, by whoever: the open tasks are the same set and the other rows keep
   text and order.
   */
  lemma ClosureUndone(s: State, d: Detection, actor: Actor)
    requires Entry(d.entry) && (actor != Agent || s.delegation) && Closes(s, d)
    ensures var r := UndoClosure(Detect(s, d), IdOf(d), actor);
      && r.Ok?
      && OpenTasks(TextOf(r.state, OPEN_TASKS)) == OpenTasks(TextOf(s, OPEN_TASKS))
      && Others(Rows(TextOf(r.state, OPEN_TASKS)), Normalized(d.entry)) == Others(Rows(TextOf(s, OPEN_TASKS)), Normalized(d.entry))
  {
    hide Lines, Normalized, Without, Present, OpenTasks, Others, Rows, WithAgain, UndoClosure, Detect, TextOf, Entry, SourceOf;
    var text := TextOf(s, OPEN_TASKS);
    ClosedBy(s, d);
    UndoGoesThrough(Detect(s, d), IdOf(d), actor);
    UndoEffect(Detect(s, d), IdOf(d), actor);
    ApplyThenUndo(text, d.entry);
    PresentIsOpen(text, d.entry);
  }

  lemma PresentIsOpen(content: string, entry: string)
    requires Entry(entry)
    ensures Present(Lines(content), Normalized(entry)) ==> OpenTasks(content) + {Normalized(entry)} == OpenTasks(content)
  {
    hide Lines, Normalized, Rows, Key;
    NormalizedBlank(entry);
    RowsAreLines(content);
    PresentInRows(Lines(content), Normalized(entry));
  }

  lemma ChangeEffect(s: State, id: Id, to: Status, actor: Actor)
    requires SettleBlockChange(s, id, to, actor).Ok?
    ensures var t := SettleBlockChange(s, id, to, actor).state;
      var name := BlockOf(id);
      && (to == Applied && ChangeApplied(id) !in s.receipts ==>
            ChangeApplied(id) in t.receipts && t.receipts[ChangeApplied(id)] == TextOf(s, name))
      && (to == Applied ==> TextOf(t, name) == Merged(TextOf(s, name), Proposed(s, id), ReplaceBlock(name)))
      && (to == Reverted && ReplaceBlock(name) ==> ChangeApplied(id) in s.receipts && TextOf(t, name) == s.receipts[ChangeApplied(id)])
      && (to == Reverted && !ReplaceBlock(name) ==> TextOf(t, name) == Without(TextOf(s, name), Proposed(s, id)))
  {
    hide Merged, Without, BlockOf, Proposed, Written;
    var name := BlockOf(id);
    var current := TextOf(s, name);
    WrittenOnly(Once(s, ChangeApplied(id), current), name, Merged(current, Proposed(s, id), ReplaceBlock(name)));
    if to == Reverted {
      WrittenOnly(Once(s, ChangeReverted(id), ""), name,
                  if ReplaceBlock(name) then s.receipts[ChangeApplied(id)] else Without(current, Proposed(s, id)));
    }
  }

  lemma SettleIsChange(s: State, id: Id, to: Status, reason: string, agent: bool)
    requires Settle(s, id, to, reason, agent).Ok? && StatusOf(s.ledger[id]) != to && id.kind == BlockChange
    ensures var actor := if agent then Agent else Operator;
      Settle(s, id, to, reason, agent) == SettleBlockChange(Once(s, Requested(id, to, actor), ""), id, to, actor)
  {
    hide Blank, Flow, SettleBlockChange, SettleTaskClosure, StatusOf;
  }

  lemma NoteKeeps(s: State, id: Id, to: Status, actor: Actor)
    ensures var u := Once(s, Requested(id, to, actor), "");
      && (forall name :: TextOf(u, name) == TextOf(s, name)) && Proposed(u, id) == Proposed(s, id)
      && (ChangeApplied(id) in u.receipts <==> ChangeApplied(id) in s.receipts)
      && (ChangeApplied(id) in s.receipts ==> u.receipts[ChangeApplied(id)] == s.receipts[ChangeApplied(id)])
  {}

  /** The block texts and receipts of a manual block-change verb. */
  lemma SettledText(s: State, id: Id, to: Status, reason: string, agent: bool)
    requires Settle(s, id, to, reason, agent).Ok? && StatusOf(s.ledger[id]) != to && id.kind == BlockChange
    ensures var t := Settle(s, id, to, reason, agent).state;
      var name := BlockOf(id);
      && (to == Applied && ChangeApplied(id) !in s.receipts ==>
            ChangeApplied(id) in t.receipts && t.receipts[ChangeApplied(id)] == TextOf(s, name))
      && (to == Applied ==> TextOf(t, name) == Merged(TextOf(s, name), Proposed(s, id), ReplaceBlock(name)))
      && (to == Reverted && ReplaceBlock(name) ==> ChangeApplied(id) in s.receipts && TextOf(t, name) == s.receipts[ChangeApplied(id)])
      && (to == Reverted && !ReplaceBlock(name) ==> TextOf(t, name) == Without(TextOf(s, name), Proposed(s, id)))
  {
    SettleIsChange(s, id, to, reason, agent);
    hide Settle, Merged, Without, BlockOf, SettleBlockChange, TextOf, Proposed, Once;
    var actor := if agent then Agent else Operator;
    NoteKeeps(s, id, to, actor);
    ChangeEffect(Once(s, Requested(id, to, actor), ""), id, to, actor);
  }

  /** Reverting a change of a replace-mode block brings back its earlier text, whatever happened in between. */
  lemma ReplaceRevertIsLossless(s: State, id: Id, reason: string, agent: bool, between: seq<Action>, reason': string, agent': bool)
    requires Inv(s) && id in s.ledger && id.kind == BlockChange && ReplaceBlock(BlockOf(id)) && StatusOf(s.ledger[id]) == Pending
    requires Settle(s, id, Applied, reason, agent).Ok?
    requires var u := Run(Settle(s, id, Applied, reason, agent).state, between);
      Settle(u, id, Reverted, reason', agent').Ok? && id in u.ledger && StatusOf(u.ledger[id]) == Applied
    ensures var u := Run(Settle(s, id, Applied, reason, agent).state, between);
      TextOf(Settle(u, id, Reverted, reason', agent').state, BlockOf(id)) == TextOf(s, BlockOf(id))
  {
    var t := Settle(s, id, Applied, reason, agent).state;
    var u := Run(t, between);
    PendingHasNoReceipt(s, id);
    SettleKeeps(s, id, Applied, reason, agent);
    RunKeeps(t, between);
    hide Inv, Settle, Run, BlockOf, TextOf, ReplaceBlock;
    SettledText(s, id, Applied, reason, agent);
    SettledText(u, id, Reverted, reason', agent');
  }

  lemma PendingHasNoReceipt(s: State, id: Id)
    requires Inv(s) && id in s.ledger && id.kind == BlockChange && StatusOf(s.ledger[id]) == Pending
    ensures ChangeApplied(id) !in s.receipts
  {
    assert ReceiptsAgree(s, id);
    ChainIsShort(s.ledger[id]);
  }

  /**
   Applying and reverting a change of a list block restores its items exactly when the proposal is one
   line that no earlier line stood for.
   */
  lemma ListRevertRestoresExactly(s: State, id: Id, reason: string, agent: bool, reason': string, agent': bool)
    requires Inv(s) && id in s.ledger && id.kind == BlockChange && !ReplaceBlock(BlockOf(id)) && StatusOf(s.ledger[id]) == Pending
    requires Proposed(s, id) != "" && Strip(Proposed(s, id)) == Proposed(s, id)
    requires Settle(s, id, Applied, reason, agent).Ok?
    requires Settle(Settle(s, id, Applied, reason, agent).state, id, Reverted, reason', agent').Ok?
    ensures var t := Settle(s, id, Applied, reason, agent).state;
      var u := Settle(t, id, Reverted, reason', agent').state;
      var name := BlockOf(id);
      Items(TextOf(u, name)) == Items(TextOf(s, name))
      <==> OneLine(Proposed(s, id)) && Normalized(Proposed(s, id)) !in OpenTasks(TextOf(s, name))
  {
    var t := Settle(s, id, Applied, reason, agent).state;
    SettleKeeps(s, id, Applied, reason, agent);
    ProposalStays(s, t, id);
    hide Inv, Settle, BlockOf, TextOf, ReplaceBlock, Items, OneLine, Normalized, OpenTasks, Merged, Without, Strip, Proposed, Grows;
    SettledText(s, id, Applied, reason, agent);
    SettledText(t, id, Reverted, reason', agent');
    RevertRestoresExactly(TextOf(s, BlockOf(id)), Proposed(s, id));
  }

  lemma ProposalStays(s: State, t: State, id: Id)
    requires Inv(s) && Grows(s, t) && id in s.ledger
    ensures Proposed(t, id) == Proposed(s, id)
  {
    hide Chain, EverApplied;
    assert ReceiptsAgree(s, id);
  }

  // ----- questions

  /** The text of the first question about a block in an event. */
  function FirstRequest(actions: seq<Action>, event: string, name: string): Option<string>
    decreases |actions|
  {
    if actions == [] then None
    else if actions[0].DoRequest? && actions[0].event == event && actions[0].name == name then Some(actions[0].content)
    else FirstRequest(actions[1..], event, name)
  }

  lemma ClosureKeepsEvents(s: State, entry: string, id: Id, actor: Actor)
    ensures var r := ApplyClosure(s, entry, id, actor); r.Ok? ==> r.state.events == s.events
  {
    hide Present, Lines, Normalized, Without, SettleCandidate;
    if OPEN_TASKS in s.blocks {
      SettleKeepsEvents(SetBlock(Once(s, ClosureApplied(id), ""), OPEN_TASKS, Without(s.blocks[OPEN_TASKS], entry)), id, Applied, actor);
    }
  }

  lemma DetectLeavesRequests(s: State, d: Detection, source: Source)
    requires source.ChangeRequest?
    ensures source in Detect(s, d).events <==> source in s.events
  {
    hide ApplyClosure, StatusOf;
    ClosureKeepsEvents(Created(Recorded(s, SourceOf(d), d.entry), IdOf(d)), d.entry, IdOf(d), System);
  }

  lemma SettleKeepsEvents(s: State, id: Id, to: Status, actor: Actor)
    ensures var r := SettleCandidate(s, id, to, actor); r.Ok? ==> r.state.events == s.events
  {
    hide Flow, StatusOf;
  }

  lemma {:induction false} DetectAllLeavesRequests(s: State, detections: seq<Detection>, source: Source)
    requires source.ChangeRequest?
    ensures source in DetectAll(s, detections).events <==> source in s.events
    decreases |detections|
  {
    hide Detect;
    if detections != [] {
      DetectLeavesRequests(s, detections[0], source);
      DetectAllLeavesRequests(Detect(s, detections[0]), detections[1..], source);
    }
  }

  lemma UndoKeepsEvents(s: State, id: Id, actor: Actor)
    ensures var r := UndoClosure(s, id, actor); r.Ok? ==> r.state.events == s.events
  {
    hide Present, Lines, Normalized, WithAgain, SettleCandidate;
    SettleKeepsEvents(Once(s, ClosureReverted(id), ""), id, Reverted, actor);
  }

  lemma {:induction false} InvalidateAllKeepsEvents(s: State, ids: seq<Id>)
    ensures InvalidateAll(s, ids).events == s.events
    decreases |ids|
  {
    hide UndoClosure, StatusOf;
    if ids != [] {
      UndoKeepsEvents(s, ids[0], System);
      InvalidateAllKeepsEvents(Invalidate(s, ids[0]), ids[1..]);
    }
  }

  lemma ClosureVerbKeepsEvents(s: State, id: Id, to: Status, actor: Actor)
    requires id in s.ledger
    ensures var r := SettleTaskClosure(s, id, to, actor); r.Ok? ==> r.state.events == s.events
  {
    hide Present, Lines, Normalized, Without, UndoClosure, SettleCandidate;
    UndoKeepsEvents(s, id, actor);
    SettleKeepsEvents(s, id, Contested, actor);
    var entry := if id.source in s.events then s.events[id.source] else id.content;
    SettleKeepsEvents(SetBlock(Once(s, ClosureApplied(id), ""), OPEN_TASKS, Without(TextOf(s, OPEN_TASKS), entry)), id, Applied, actor);
  }

  lemma ChangeVerbKeepsEvents(s: State, id: Id, to: Status, actor: Actor)
    ensures var r := SettleBlockChange(s, id, to, actor); r.Ok? ==> r.state.events == s.events
  {
    hide Merged, Without, Proposed, BlockOf, SettleCandidate, Written;
    var name := BlockOf(id);
    var merged := Merged(TextOf(s, name), Proposed(s, id), ReplaceBlock(name));
    WrittenKeepsEvents(Once(s, ChangeApplied(id), TextOf(s, name)), name, merged);
    SettleKeepsEvents(Written(Once(s, ChangeApplied(id), TextOf(s, name)), name, merged), id, Applied, actor);
    if ChangeApplied(id) in s.receipts {
      var restored := if ReplaceBlock(name) then s.receipts[ChangeApplied(id)] else Without(TextOf(s, name), Proposed(s, id));
      WrittenKeepsEvents(Once(s, ChangeReverted(id), ""), name, restored);
      SettleKeepsEvents(Written(Once(s, ChangeReverted(id), ""), name, restored), id, Reverted, actor);
    }
    SettleKeepsEvents(s, id, Contested, actor);
  }

  lemma WrittenKeepsEvents(s: State, name: string, content: string)
    ensures Written(s, name, content).events == s.events
  {
  }

  lemma ManualKeepsEvents(s: State, id: Id, to: Status, reason: string, agent: bool)
    ensures var r := Settle(s, id, to, reason, agent); r.Ok? ==> r.state.events == s.events
  {
    hide Blank, Flow, StatusOf, SettleTaskClosure, SettleBlockChange;
    var actor := if agent then Agent else Operator;
    var t := Once(s, Requested(id, to, actor), "");
    if id in s.ledger {
      ClosureVerbKeepsEvents(t, id, to, actor);
    }
    ChangeVerbKeepsEvents(t, id, to, actor);
  }

  lemma MarkKeepsEvents(s: State, name: string, content: string)
    ensures Mark(s, name, content).events == s.events
  {
    hide Merged, Reasserted;
  }

  /** Only a question about the block appends its request event. */
  lemma StepRequests(s: State, a: Action, event: string, name: string)
    requires ChangeRequest(event, name) !in s.events
    ensures var source, first := ChangeRequest(event, name), FirstRequest([a], event, name);
      && (source in Step(s, a).events <==> first.Some?)
      && (first.Some? ==> Step(s, a).events[source] == first.value)
  {
    hide UndoClosure, Mark, Settle, DetectAll, InvalidateAll, Contest, Created, SetBlock;
    var source := ChangeRequest(event, name);
    assert [a][1..] == [];
    match a
    case DoReconcile(invalidated, detections) =>
      InvalidateAllKeepsEvents(s, invalidated);
      DetectAllLeavesRequests(InvalidateAll(s, invalidated), detections, source);
    case DoUndo(id) => UndoKeepsEvents(s, id, System);
    case DoContest(entry) => ContestKeepsEvents(s, entry);
    case DoSettle(id, to, reason, agent) => ManualKeepsEvents(s, id, to, reason, agent);
    case DoMark(block, content) => MarkKeepsEvents(s, block, content);
    case DoRequest(e, block, content) => CreatedKeepsEvents(Recorded(s, ChangeRequest(e, block), content), Id(BlockChange, ChangeRequest(e, block), content));
    case DoEdit(block, content) => EditKeepsEvents(s, block, content);
    case DoPolicy(_, _) =>
  }

  lemma ContestKeepsEvents(s: State, entry: string)
    ensures Contest(s, entry).events == s.events
  {
    hide Reasserted;
  }

  lemma CreatedKeepsEvents(s: State, id: Id)
    ensures Created(s, id).events == s.events
  {
  }

  lemma EditKeepsEvents(s: State, name: string, content: string)
    ensures SetBlock(s, name, content).events == s.events
  {
  }

  /** A request event holds the text of the first question, however many follow. */
  lemma {:induction false} RequestHoldsFirst(s: State, actions: seq<Action>, event: string, name: string)
    requires Inv(s) && ChangeRequest(event, name) !in s.events
    ensures var source, first := ChangeRequest(event, name), FirstRequest(actions, event, name);
      && (source in Run(s, actions).events <==> first.Some?)
      && (first.Some? ==> Run(s, actions).events[source] == first.value)
    decreases |actions|
  {
    hide Inv, Step, Grows;
    if actions != [] {
      var t, source := Step(s, actions[0]), ChangeRequest(event, name);
      StepRequests(s, actions[0], event, name);
      StepKeeps(s, actions[0]);
      assert [actions[0]][1..] == [];
      if source in t.events {
        RunKeeps(t, actions[1..]);
        EventStays(t, Run(t, actions[1..]), source);
      } else {
        RequestHoldsFirst(t, actions[1..], event, name);
      }
    }
  }

  lemma EventStays(s: State, t: State, source: Source)
    requires Grows(s, t) && source in s.events
    ensures source in t.events && t.events[source] == s.events[source]
  {
  }

  /** Questions about one block in one event share the request: over every run, a candidate proposes its own
      text exactly when that was the first one asked. */
  lemma ProposesOwnTextExactly(s: State, actions: seq<Action>, event: string, name: string, content: string)
    requires Inv(s) && ChangeRequest(event, name) !in s.events
    requires Id(BlockChange, ChangeRequest(event, name), content) in Run(s, actions).ledger
    ensures Proposed(Run(s, actions), Id(BlockChange, ChangeRequest(event, name), content)) == content
      <==> FirstRequest(actions, event, name) == Some(content)
  {
    hide Run, Grows, Chain, EverApplied;
    var id, t := Id(BlockChange, ChangeRequest(event, name), content), Run(s, actions);
    RunKeeps(s, actions);
    RequestHoldsFirst(s, actions, event, name);
    assert ReceiptsAgree(t, id);
  }

  /** The second of two questions proposes the first one's text. */
  lemma SecondQuestionProposesFirst(s: State, event: string, name: string, first: string, second: string)
    requires ChangeRequest(event, name) !in s.events
    ensures var t := Request(Request(s, event, name, first), event, name, second);
      var id := Id(BlockChange, ChangeRequest(event, name), second);
      id in t.ledger && Proposed(t, id) == first
  {}

  // ----- a detection whose candidate is settled for good

  /** After an undo or a contest, at any later point of any run, the same detection changes no block, whatever
      its strength: `open_tasks` keeps the entry. */
  lemma FinalDetectionIsInert(s: State, actions: seq<Action>, d: Detection)
    requires Inv(s) && IdOf(d) in s.ledger && Final(StatusOf(s.ledger[IdOf(d)]))
    ensures var t := Run(s, actions); Detect(t, d) == t && Reconcile(t, [], [d]) == t
  {
    hide Run, Grows, Chain, StatusOf, Present, Lines, Normalized, ApplyClosure, Inv;
    var id, t := IdOf(d), Run(s, actions);
    assert Run(s, []) == s by { NothingRun(s); }
    ConsumeOnce(s, [], actions, id);
    RunKeeps(s, actions);
    SourceIsRecorded(t, id);
    AlreadyThere(t, d);
    OneDetection(t, d);
  }

  lemma OneDetection(s: State, d: Detection)
    ensures Reconcile(s, [], [d]) == Detect(s, d)
  {
    hide Detect;
    assert [d][1..] == [];
    assert DetectAll(Detect(s, d), []) == Detect(s, d);
  }

  lemma NothingRun(s: State)
    ensures Run(s, []) == s
  {
  }

  lemma SourceIsRecorded(s: State, id: Id)
    requires Inv(s) && id in s.ledger
    ensures id.source in s.events
  {
    hide Chain, EverApplied;
    assert ReceiptsAgree(s, id);
  }

  lemma AlreadyThere(s: State, d: Detection)
    requires IdOf(d) in s.ledger && SourceOf(d) in s.events && StatusOf(s.ledger[IdOf(d)]) != Pending
    ensures Detect(s, d) == s
  {
    hide StatusOf, ApplyClosure, Normalized;
  }
}
