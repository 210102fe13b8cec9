/**
 The settlement store: fields that the reconciler and the manual verbs update step by step inside
 transactions. Every method is the step of the same name in Settlement.
 */
module Ledger {
  import opened Text
  import opened Blocks
  import opened Settlement

  datatype Outcome = Done | Failed(error: Error)

  /** A verb did what its specification says, or left everything as it was. */
  ghost predicate Atomic(r: Result, before: State, after: State, o: Outcome) {
    match r
    case Ok(t) => o == Done && after == t
    case Err(e) => o == Failed(e) && after == before
  }

  class Store {
    var blocks: map<string, string>
    var ledger: map<Id, seq<Transition>>
    var events: map<Source, string>
    var receipts: map<Receipt, string>
    var closureFlag: bool
    var delegation: bool

    constructor (blocks: map<string, string>, closureFlag: bool, delegation: bool)
      ensures View() == State(blocks, map[], map[], map[], closureFlag, delegation) && Inv(View())
    {
      this.blocks, this.closureFlag, this.delegation := blocks, closureFlag, delegation;
      ledger, events, receipts := map[], map[], map[];
      new;
      Initially(blocks, closureFlag, delegation);
    }

    function View(): State
      reads this
    {
      State(blocks, ledger, events, receipts, closureFlag, delegation)
    }

    /** The end of a transaction that raised. */
    method Rollback(s: State)
      modifies this
      ensures View() == s
    {
      blocks, ledger, events, receipts, closureFlag, delegation := s.blocks, s.ledger, s.events, s.receipts, s.closureFlag, s.delegation;
    }

    method AppendOnce(receipt: Receipt, value: string)
      modifies `receipts
      ensures View() == Once(old(View()), receipt, value)
    {
      if receipt !in receipts {
        receipts := receipts[receipt := value];
      }
    }

    method SetActiveBlock(name: string, content: string)
      modifies `blocks
      ensures View() == SetBlock(old(View()), name, content)
    {
      blocks := blocks[name := content];
    }

    method Transit(id: Id, to: Status, actor: Actor) returns (o: Outcome)
      modifies `ledger
      ensures Atomic(SettleCandidate(old(View()), id, to, actor), old(View()), View(), o)
    {
      if id !in ledger {
        return Failed(UnknownCandidate);
      }
      var current := StatusOf(ledger[id]);
      if current == to {
        return Done;
      }
      if actor == Agent && !delegation {
        return Failed(DelegationRequired);
      }
      if !Flow(current, to) {
        return Failed(IllegalTransition);
      }
      ledger := ledger[id := ledger[id] + [Transition(current, to, actor)]];
      return Done;
    }

    method CloseTask(entry: string, id: Id, actor: Actor) returns (o: Outcome)
      modifies this
      ensures Atomic(ApplyClosure(old(View()), entry, id, actor), old(View()), View(), o)
    {
      hide Lines, Normalized, Others, Present, StatusOf, Flow;
      var before := View();
      if OPEN_TASKS !in blocks {
        return Failed(EntryNotPresent);
      }
      var lines := Lines(blocks[OPEN_TASKS]);
      var target := Normalized(entry);
      var remaining := Others(lines, target);
      if |remaining| == |lines| {
        OthersOfAbsent(lines, target);
        return Failed(EntryNotPresent);
      }
      OthersOfAbsent(lines, target);
      AppendOnce(ClosureApplied(id), "");
      SetActiveBlock(OPEN_TASKS, Join(remaining, "\n"));
      o := Transit(id, Applied, actor);
      if o.Failed? {
        Rollback(before);
      }
    }

    method UndoTask(id: Id, actor: Actor) returns (o: Outcome)
      modifies this
      ensures Atomic(UndoClosure(old(View()), id, actor), old(View()), View(), o)
    {
      hide Lines, Normalized, Present, StatusOf, Flow, Join;
      var before := View();
      if id !in ledger || id.kind != TaskClosure {
        return Failed(UnknownCandidate);
      }
      AppendOnce(ClosureReverted(id), "");
      o := Transit(id, Reverted, actor);
      if o.Failed? {
        Rollback(before);
        return;
      }
      var lines := if OPEN_TASKS in blocks then Lines(blocks[OPEN_TASKS]) else [];
      NoLines();
      if !Present(lines, Normalized(id.content)) {
        SetActiveBlock(OPEN_TASKS, Join(lines + ["- " + id.content], "\n"));
      }
    }

    method ContestReasserted(entry: string) returns (contested: set<Id>)
      modifies `ledger
      ensures View() == Contest(old(View()), entry)
      ensures forall id :: id in contested <==> Reasserted(old(View()), entry, id)
    {
      hide Reasserted;
      ghost var before := View();
      contested := {};
      var todo := ledger.Keys;
      var start := View();
      while todo != {}
        invariant todo <= before.ledger.Keys == ledger.Keys
        invariant forall id | id in ledger ::
          ledger[id] == if id in contested then before.ledger[id] + [Transition(Applied, Contested, System)] else before.ledger[id]
        invariant forall id :: id in contested <==> id in ledger && id !in todo && Reasserted(before, entry, id)
      {
        var id :| id in todo;
        todo := todo - {id};
        if Reasserted(start, entry, id) {
          ledger := ledger[id := ledger[id] + [Transition(Applied, Contested, System)]];
          contested := contested + {id};
        }
      }
      OnlyKnown(before, entry);
    }

    method DetectOne(d: Detection)
      modifies this
      ensures View() == Detect(old(View()), d)
    {
      hide ApplyClosure, Normalized, StatusOf;
      var source, id := SourceOf(d), IdOf(d);
      if source !in events {
        events := events[source := d.entry];
      }
      if id !in ledger {
        ledger := ledger[id := []];
      }
      if StatusOf(ledger[id]) != Pending || !AutoApplyAllowed(View(), d.strength) {
        return;
      }
      var _ := CloseTask(d.entry, id, System);
    }

    method RunReconciler(invalidated: seq<Id>, detections: seq<Detection>)
      modifies this
      ensures View() == Reconcile(old(View()), invalidated, detections)
    {
      hide Detect, UndoClosure;
      ghost var before := View();
      for n := 0 to |invalidated|
        invariant InvalidateAll(View(), invalidated[n..]) == InvalidateAll(before, invalidated)
      {
        assert invalidated[n..][0] == invalidated[n] && invalidated[n..][1..] == invalidated[n + 1..];
        var id := invalidated[n];
        if id in ledger && id.kind == TaskClosure && StatusOf(ledger[id]) == Applied {
          var _ := UndoTask(id, System);
        }
      }
      ghost var swept := View();
      for n := 0 to |detections|
        invariant DetectAll(View(), detections[n..]) == DetectAll(swept, detections)
      {
        assert detections[n..][0] == detections[n] && detections[n..][1..] == detections[n + 1..];
        DetectOne(detections[n]);
      }
    }

    method ApplyChange(id: Id, actor: Actor) returns (o: Outcome)
      modifies this
      ensures Atomic(SettleBlockChange(old(View()), id, Applied, actor), old(View()), View(), o)
    {
      hide Merged, BlockOf, Proposed, StatusOf, Flow, TextOf;
      var before := View();
      var name := BlockOf(id);
      var current := TextOf(before, name);
      var merged := Merged(current, Proposed(before, id), ReplaceBlock(name));
      AppendOnce(ChangeApplied(id), current);
      SameText(before, View(), name);
      if merged != current {
        SetActiveBlock(name, merged);
      }
      o := Transit(id, Applied, actor);
      if o.Failed? {
        Rollback(before);
      }
    }

    method RevertChange(id: Id, actor: Actor) returns (o: Outcome)
      modifies this
      ensures Atomic(SettleBlockChange(old(View()), id, Reverted, actor), old(View()), View(), o)
    {
      hide Without, BlockOf, Proposed, StatusOf, Flow, TextOf;
      var before := View();
      if ChangeApplied(id) !in receipts {
        return Failed(NothingToRevert);
      }
      var name := BlockOf(id);
      var current := TextOf(before, name);
      var restored := if ReplaceBlock(name) then receipts[ChangeApplied(id)] else Without(current, Proposed(before, id));
      AppendOnce(ChangeReverted(id), "");
      SameText(before, View(), name);
      if restored != current {
        SetActiveBlock(name, restored);
      }
      o := Transit(id, Reverted, actor);
      if o.Failed? {
        Rollback(before);
      }
    }

    method SettleManually(id: Id, to: Status, reason: string, agent: bool) returns (o: Outcome)
      modifies this
      ensures Atomic(Settle(old(View()), id, to, reason, agent), old(View()), View(), o)
    {
      hide ApplyClosure, UndoClosure, SettleBlockChange, SettleCandidate, StatusOf, Flow, Blank;
      var before := View();
      var actor := if agent then Agent else Operator;
      if to == Pending || Blank(reason) {
        return Failed(InvalidRequest);
      }
      if id !in ledger {
        return Failed(UnknownCandidate);
      }
      var current := StatusOf(ledger[id]);
      if current == to {
        return Done;
      }
      if !Flow(current, to) {
        return Failed(IllegalTransition);
      }
      if agent && !delegation {
        return Failed(DelegationRequired);
      }
      AppendOnce(Requested(id, to, actor), "");
      if id.kind == TaskClosure {
        if to == Applied {
          o := CloseTask(if id.source in events then events[id.source] else id.content, id, actor);
        } else if to == Reverted {
          o := UndoTask(id, actor);
        } else {
          o := Transit(id, Contested, actor);
        }
      } else {
        if to == Applied {
          o := ApplyChange(id, actor);
        } else if to == Reverted {
          o := RevertChange(id, actor);
        } else {
          ContestedChange(View(), id, actor);
          o := Transit(id, Contested, actor);
        }
      }
      if o.Failed? {
        Rollback(before);
      }
    }
  }

  lemma ContestedChange(s: State, id: Id, actor: Actor)
    ensures SettleBlockChange(s, id, Contested, actor) == SettleCandidate(s, id, Contested, actor)
  {}

  lemma OnlyKnown(s: State, entry: string)
    ensures forall id | Reasserted(s, entry, id) :: id in s.ledger
  {}

  lemma SameText(s: State, t: State, name: string)
    ensures s.blocks == t.blocks ==> TextOf(t, name) == TextOf(s, name)
  {}

  lemma NoLines()
    ensures Lines("") == []
  {}
}
