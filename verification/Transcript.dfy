/**
 Interaction groups: every tool output is paired with its call, outputs without one are left out, and
 only the last groups of a log are carried along in a snapshot.
 */
module Transcript {
  import opened Basics

  /** A memory as its derivation event describes it; absent keys are filled in by the replay. */
  datatype Derivation = Derivation(
    memoryId: Option<string>, id: Option<string>, supersedes: Option<string>, branch: Option<string>, createdAt: Option<string>,
    version: Option<nat>, memoryType: string, summary: string, content: string, files: seq<string>, sources: seq<string>)

  datatype Payload = NoPayload | BlockPayload(block: string) | DerivePayload(derivation: Derivation)

  /** `call` is the name by which a tool call and its output refer to each other, empty when there is none. */
  datatype Event = Event(
    id: string, ordinal: nat, time: string, kind: string, role: string, branch: string,
    content: string, files: seq<string>, call: string, payload: Payload)

  /** A call with its output, or any other event alone. */
  datatype Group = Group(head: Event, output: Option<Event>)

  predicate InTranscript(e: Event) {
    e.kind in {"message", "tool_call", "tool_output", "artifact"}
  }

  /** A transcript shows messages, tool calls, tool outputs and artifacts, and no other events. */
  lemma ShownKinds(e: Event)
    ensures InTranscript(e) <==> e.kind == "message" || e.kind == "tool_call" || e.kind == "tool_output" || e.kind == "artifact"
  {
  }

  predicate Open(g: Group) {
    g.head.kind == "tool_call" && g.output.None?
  }

  /** Open, and called by that name if one is asked for. */
  predicate Waits(g: Group, name: Option<string>) {
    Open(g) && (name.Some? ==> g.head.call == name.value)
  }

  function Newest(gs: seq<Group>, name: Option<string>): Option<nat> {
    if gs == [] then None
    else if Waits(gs[|gs| - 1], name) then Some(|gs| - 1)
    else Newest(gs[..|gs| - 1], name)
  }

  /** The group an output joins: the newest open call of its name, otherwise the newest open call. */
  function Joined(gs: seq<Group>, output: Event): Option<nat> {
    var named := if output.call != "" then Newest(gs, Some(output.call)) else None;
    if named.Some? then named else Newest(gs, None)
  }

  lemma {:induction false} NewestIs(gs: seq<Group>, name: Option<string>)
    ensures match Newest(gs, name)
      case None => forall k | 0 <= k < |gs| :: !Waits(gs[k], name)
      case Some(n) => n < |gs| && Waits(gs[n], name) && forall k | n < k < |gs| :: !Waits(gs[k], name)
  {
    hide Waits;
    if gs != [] {
      NewestIs(gs[..|gs| - 1], name);
    }
  }

  lemma JoinedIs(gs: seq<Group>, output: Event)
    ensures match Joined(gs, output)
      case None => forall k | 0 <= k < |gs| :: !Open(gs[k])
      case Some(n) => n < |gs| && Open(gs[n])
  {
    NewestIs(gs, Some(output.call));
    NewestIs(gs, None);
  }

  /** An output joins the newest open call that has its name, and where no open call has it the newest open call. */
  lemma JoinedExactly(gs: seq<Group>, output: Event, n: nat)
    ensures var named := output.call != "" && exists k :: 0 <= k < |gs| && Open(gs[k]) && gs[k].head.call == output.call;
      Joined(gs, output) == Some(n) <==>
        && n < |gs| && Open(gs[n]) && (named ==> gs[n].head.call == output.call)
        && forall k | n < k < |gs| :: Open(gs[k]) ==> named && gs[k].head.call != output.call
  {
    hide Newest, Open;
    NewestIs(gs, Some(output.call));
    NewestIs(gs, None);
    assert forall k | 0 <= k < |gs| :: Waits(gs[k], None) <==> Open(gs[k]);
    assert forall k | 0 <= k < |gs| :: Waits(gs[k], Some(output.call)) <==> Open(gs[k]) && gs[k].head.call == output.call;
  }

  function Step(gs: seq<Group>, e: Event): seq<Group> {
    if !InTranscript(e) then gs
    else if e.kind != "tool_output" then gs + [Group(e, None)]
    else
      JoinedIs(gs, e);
      var n := Joined(gs, e);
      if n.Some? then gs[n.value := Group(gs[n.value].head, Some(e))] else gs
  }

  function GroupsFrom(gs: seq<Group>, events: seq<Event>): seq<Group>
    decreases |events|
  {
    if events == [] then gs else GroupsFrom(Step(gs, events[0]), events[1..])
  }

  function Groups(events: seq<Event>): seq<Group> {
    GroupsFrom([], events)
  }

  // ----- in the order of the log

  function Ordinal(e: Event): int {
    e.ordinal
  }

  function SortByOrdinal(events: seq<Event>): seq<Event> {
    SortBy(events, Ordinal)
  }

  function Members(g: Group): seq<Event> {
    [g.head] + if g.output.Some? then [g.output.value] else []
  }

  function Lists(gs: seq<Group>): seq<seq<Event>> {
    seq(|gs|, i requires 0 <= i < |gs| => SortByOrdinal(Members(gs[i])))
  }

  function MemberLists(gs: seq<Group>): seq<seq<Event>> {
    seq(|gs|, i requires 0 <= i < |gs| => Members(gs[i]))
  }

  function Earliest(events: seq<Event>): int {
    if events == [] then 0
    else if |events| == 1 then events[0].ordinal
    else Min(events[0].ordinal, Earliest(events[1..]))
  }

  function InteractionGroups(events: seq<Event>): seq<seq<Event>> {
    SortBy(Lists(Groups(events)), Earliest)
  }

  function Last<T>(items: seq<T>, limit: int): seq<T> {
    if limit <= 0 then [] else if |items| <= limit then items else items[|items| - limit..]
  }

  /** The events of the last groups. */
  function Recent(events: seq<Event>, limit: int): seq<Event> {
    SortByOrdinal(Flatten(Last(InteractionGroups(events), limit)))
  }

  // ----- a log is in order

  predicate InOrder(events: seq<Event>) {
    Increasing(events, Ordinal)
  }

  /** The events of all groups, group by group. */
  function Flat(gs: seq<Group>): seq<Event> {
    if gs == [] then [] else Flat(gs[..|gs| - 1]) + Members(gs[|gs| - 1])
  }

  /** Each group's call precedes its output, and the groups are in the order of their first events. */
  predicate Ordered(gs: seq<Group>) {
    && (forall i, j | 0 <= i < j < |gs| :: gs[i].head.ordinal < gs[j].head.ordinal)
    && (forall i | 0 <= i < |gs| && gs[i].output.Some? :: gs[i].head.ordinal < gs[i].output.value.ordinal)
  }

  predicate Before(gs: seq<Group>, events: seq<Event>) {
    forall i, j | 0 <= i < |gs| && 0 <= j < |events| :: gs[i].head.ordinal < events[j].ordinal
  }

  lemma {:induction false} GroupsAreOrdered(gs: seq<Group>, events: seq<Event>)
    requires Ordered(gs) && Before(gs, events) && InOrder(events)
    ensures Ordered(GroupsFrom(gs, events))
    decreases |events|
  {
    hide Joined;
    if events != [] {
      var e := events[0];
      JoinedIs(gs, e);
      var next := Step(gs, e);
      assert Before(next, events[1..]);
      assert Ordered(next);
      GroupsAreOrdered(next, events[1..]);
    }
  }

  lemma ListsAreGroups(gs: seq<Group>)
    requires Ordered(gs)
    ensures Lists(gs) == MemberLists(gs) && SortBy(Lists(gs), Earliest) == Lists(gs)
  {
    hide SortBy;
    forall i | 0 <= i < |gs| ensures SortByOrdinal(Members(gs[i])) == Members(gs[i]) && Earliest(Members(gs[i])) == gs[i].head.ordinal {
      SortIs(Members(gs[i]), Members(gs[i]), Ordinal);
    }
    hide Members, Earliest, SortByOrdinal;
    SortIs(Lists(gs), Lists(gs), Earliest);
  }

  // ----- the events that stay

  function Drop(gs: seq<Group>, n: nat): seq<Group> {
    if n <= |gs| then gs[n..] else []
  }

  /** The group an event goes to. */
  function Lands(gs: seq<Group>, e: Event): Option<nat> {
    if !InTranscript(e) then None else if e.kind != "tool_output" then Some(|gs|) else Joined(gs, e)
  }

  /** The events that go to a group from the n-th on. */
  function Kept(gs: seq<Group>, events: seq<Event>, n: nat): seq<Event>
    decreases |events|
  {
    if events == [] then []
    else
      var at := Lands(gs, events[0]);
      (if at.Some? && at.value >= n then [events[0]] else []) + Kept(Step(gs, events[0]), events[1..], n)
  }

  lemma NewestOfDropped(gs: seq<Group>, n: nat, name: Option<string>)
    requires n <= |gs|
    ensures var all, late := Newest(gs, name), Newest(gs[n..], name);
      late == if all.Some? && all.value >= n then Some(all.value - n) else None
  {
    hide Waits;
    NewestIs(gs, name);
    NewestIs(gs[n..], name);
    var all, late := Newest(gs, name), Newest(gs[n..], name);
    if all.Some? && all.value >= n {
      assert gs[n..][all.value - n] == gs[all.value];
    }
    if late.Some? {
      assert gs[n..][late.value] == gs[late.value + n];
    }
  }

  /** An event that goes to a later group goes there without the earlier ones, too. */
  lemma KeptEvent(gs: seq<Group>, e: Event, n: nat)
    ensures var at := Lands(gs, e);
      if at.Some? && at.value >= n then Drop(Step(gs, e), n) == Step(Drop(gs, n), e)
      else Drop(Step(gs, e), n) == Drop(gs, n)
  {
    hide Newest, Waits;
    JoinedIs(gs, e);
    if n <= |gs| {
      NewestOfDropped(gs, n, Some(e.call));
      NewestOfDropped(gs, n, None);
    }
  }

  /** The groups of the events that stay are the groups that stay. */
  lemma {:induction false} KeptGroups(gs: seq<Group>, events: seq<Event>, n: nat)
    ensures GroupsFrom(Drop(gs, n), Kept(gs, events, n)) == Drop(GroupsFrom(gs, events), n)
    decreases |events|
  {
    hide Step, Lands, Drop;
    if events != [] {
      var e, rest := events[0], events[1..];
      var kept := Kept(Step(gs, e), rest, n);
      KeptEvent(gs, e, n);
      KeptGroups(Step(gs, e), rest, n);
      var at := Lands(gs, e);
      if at.Some? && at.value >= n {
        assert ([e] + kept)[1..] == kept;
      } else {
        assert [] + kept == kept;
      }
    }
  }

  lemma InOrderCons(e: Event, rest: seq<Event>, some: seq<Event>)
    requires InOrder([e] + rest) && InOrder(some) && forall x | x in some :: x in rest
    ensures InOrder([e] + some)
  {
    forall i | 0 <= i < |some| ensures e.ordinal < some[i].ordinal {
      assert some[i] in rest;
      var j :| 0 <= j < |rest| && rest[j] == some[i];
      assert ([e] + rest)[0] == e && ([e] + rest)[j + 1] == some[i];
    }
  }

  lemma InOrderTail(e: Event, rest: seq<Event>)
    requires InOrder([e] + rest)
    ensures InOrder(rest)
  {
    assert forall i | 0 <= i < |rest| :: ([e] + rest)[i + 1] == rest[i];
  }

  lemma {:induction false} KeptIsInOrder(gs: seq<Group>, events: seq<Event>, n: nat, later: seq<Event>)
    requires InOrder(events + later)
    ensures InOrder(Kept(gs, events, n) + later)
    ensures forall e | e in Kept(gs, events, n) :: e in events
    decreases |events|
  {
    hide Step, Lands, InOrder;
    if events != [] {
      var e, rest := events[0], events[1..];
      assert events + later == [e] + (rest + later);
      InOrderTail(e, rest + later);
      KeptIsInOrder(Step(gs, e), rest, n, later);
      var kept := Kept(Step(gs, e), rest, n);
      InOrderCons(e, rest + later, kept + later);
      assert [] + kept == kept;
      assert [e] + kept + later == [e] + (kept + later);
      assert events == [e] + rest;
    } else {
      assert [] + later == later;
    }
  }

  lemma FlatSnoc(gs: seq<Group>, g: Group)
    ensures Flat(gs + [g]) == Flat(gs) + Members(g)
  {
    assert (gs + [g])[..|gs|] == gs;
  }

  lemma {:induction false} FlatUpdated(gs: seq<Group>, n: nat, e: Event)
    requires n < |gs| && gs[n].output.None?
    ensures multiset(Flat(gs[n := Group(gs[n].head, Some(e))])) == multiset(Flat(gs)) + multiset{e}
  {
    hide Flat;
    var init, last := gs[..|gs| - 1], gs[|gs| - 1];
    var answered := Group(gs[n].head, Some(e));
    assert gs == init + [last];
    FlatSnoc(init, last);
    if n < |init| {
      FlatUpdated(init, n, e);
      assert gs[n := answered] == init[n := answered] + [last];
      FlatSnoc(init[n := answered], last);
    } else {
      assert gs[n := answered] == init + [answered];
      FlatSnoc(init, answered);
      assert Members(answered) == Members(last) + [e];
    }
  }

  lemma FlatStep(gs: seq<Group>, e: Event)
    ensures multiset(Flat(Step(gs, e))) == multiset(Flat(gs)) + if Lands(gs, e).Some? then multiset{e} else multiset{}
  {
    hide Joined;
    JoinedIs(gs, e);
    var at := Lands(gs, e);
    if at.Some? && e.kind == "tool_output" {
      FlatUpdated(gs, at.value, e);
    } else if at.Some? {
      assert (gs + [Group(e, None)])[..|gs|] == gs;
    }
  }

  /** Nothing is lost and nothing doubled: the groups that stay hold the events that stay. */
  lemma {:induction false} KeptIsFlat(gs: seq<Group>, events: seq<Event>, n: nat)
    ensures multiset(Flat(Drop(GroupsFrom(gs, events), n))) == multiset(Flat(Drop(gs, n))) + multiset(Kept(gs, events, n))
    decreases |events|
  {
    hide Step, Lands, Drop, Flat;
    if events != [] {
      var e, rest := events[0], events[1..];
      KeptEvent(gs, e, n);
      KeptIsFlat(Step(gs, e), rest, n);
      FlatStep(Drop(gs, n), e);
      KeptLands(gs, e, n);
      var kept := Kept(Step(gs, e), rest, n);
      assert multiset([e] + kept) == multiset{e} + multiset(kept);
      assert [] + kept == kept;
    }
  }

  lemma KeptLands(gs: seq<Group>, e: Event, n: nat)
    ensures Lands(gs, e).Some? && Lands(gs, e).value >= n ==> Lands(Drop(gs, n), e).Some?
  {
    hide Waits, Newest;
    JoinedIs(gs, e);
    JoinedIs(Drop(gs, n), e);
    if n <= |gs| && Lands(gs, e).Some? && Lands(gs, e).value < |gs| && Lands(gs, e).value >= n {
      assert Drop(gs, n)[Lands(gs, e).value - n] == gs[Lands(gs, e).value];
    }
  }

  function Cut(gs: seq<Group>, limit: nat): nat {
    if |gs| <= limit then 0 else |gs| - limit
  }

  lemma {:induction false} FlattenSnoc<T>(groups: seq<seq<T>>, last: seq<T>)
    ensures Flatten(groups + [last]) == Flatten(groups) + last
  {
    if groups == [] {
      assert groups + [last] == [last];
    } else {
      assert (groups + [last])[1..] == groups[1..] + [last];
      FlattenSnoc(groups[1..], last);
    }
  }

  lemma {:induction false} FlattenIsFlat(gs: seq<Group>)
    ensures Flatten(seq(|gs|, i requires 0 <= i < |gs| => Members(gs[i]))) == Flat(gs)
  {
    hide Members;
    if gs != [] {
      var init, last := gs[..|gs| - 1], gs[|gs| - 1];
      FlattenIsFlat(init);
      var lists := seq(|init|, i requires 0 <= i < |init| => Members(init[i]));
      assert seq(|gs|, i requires 0 <= i < |gs| => Members(gs[i])) == lists + [Members(last)];
      FlattenSnoc(lists, Members(last));
    }
  }

  lemma InteractionGroupsAre(events: seq<Event>)
    requires InOrder(events)
    ensures InteractionGroups(events) == MemberLists(Groups(events))
  {
    GroupsAreOrdered([], events);
    hide Ordered, GroupsFrom;
    ListsAreGroups(Groups(events));
  }

  lemma LastLists(gs: seq<Group>, limit: nat)
    ensures Last(MemberLists(gs), limit) == MemberLists(Drop(gs, Cut(gs, limit)))
  {
    hide Members;
  }

  /** What is carried along is what goes to the last groups, in the order of the log. */
  lemma RecentIsKept(events: seq<Event>, limit: nat)
    requires InOrder(events)
    ensures Recent(events, limit) == Kept([], events, Cut(Groups(events), limit))
  {
    hide Step, Lands, Flat, Members, Kept, Ordered, Lists, InteractionGroups, Last;
    var gs := Groups(events);
    var n := Cut(gs, limit);
    InteractionGroupsAre(events);
    LastLists(gs, limit);
    FlattenIsFlat(Drop(gs, n));
    KeptIsFlat([], events, n);
    assert multiset(Flat(Drop([], n))) == multiset{} by {
      assert Drop([], n) == [];
      EmptyFlat();
    }
    assert events + [] == events;
    KeptIsInOrder([], events, n, []);
    assert Kept([], events, n) + [] == Kept([], events, n);
    SortIs(Flat(Drop(gs, n)), Kept([], events, n), Ordinal);
  }

  lemma EmptyFlat()
    ensures Flat([]) == []
  {
  }

  /** The events carried along form exactly the last groups: calls with their outputs, and no output without its call. */
  lemma RecentIsComplete(events: seq<Event>, limit: nat)
    requires InOrder(events)
    ensures Groups(Recent(events, limit)) == Drop(Groups(events), Cut(Groups(events), limit))
    ensures InOrder(Recent(events, limit)) && forall e | e in Recent(events, limit) :: e in events
    ensures multiset(Recent(events, limit)) == multiset(Flat(Groups(Recent(events, limit))))
  {
    hide Step, Lands, Flat, Recent, Kept;
    var n := Cut(Groups(events), limit);
    RecentIsKept(events, limit);
    KeptGroups([], events, n);
    assert Drop([], n) == [];
    KeptIsFlat([], events, n);
    EmptyFlat();
    assert events + [] == events;
    KeptIsInOrder([], events, n, []);
    assert Recent(events, limit) + [] == Recent(events, limit);
  }

  // ----- going on from what is carried along

  lemma {:induction false} GroupsFromSplit(gs: seq<Group>, xs: seq<Event>, ys: seq<Event>)
    ensures GroupsFrom(gs, xs + ys) == GroupsFrom(GroupsFrom(gs, xs), ys)
    decreases |xs|
  {
    hide Step;
    if xs == [] {
      assert xs + ys == ys;
    } else {
      assert (xs + ys)[1..] == xs[1..] + ys;
      GroupsFromSplit(Step(gs, xs[0]), xs[1..], ys);
    }
  }

  predicate WaitsByName(g: Group) {
    Open(g) && g.head.call != ""
  }

  /** No call among the first n groups still waits for an output under its name. */
  predicate NoneByName(gs: seq<Group>, n: nat) {
    forall k | 0 <= k < n && k < |gs| :: !WaitsByName(gs[k])
  }

  /** Calls without a name that were dropped are never missed: only an output that joins nothing else would have joined them. */
  lemma DropIsHarmless(gs: seq<Group>, e: Event, n: nat)
    requires n <= |gs| && NoneByName(gs, n)
    ensures n <= |Step(gs, e)| && NoneByName(Step(gs, e), n)
    ensures Drop(Step(gs, e), n) == Step(Drop(gs, n), e)
  {
    hide Newest;
    JoinedIs(gs, e);
    NewestIs(gs, Some(e.call));
    NewestIs(gs, None);
    NewestOfDropped(gs, n, Some(e.call));
    NewestOfDropped(gs, n, None);
  }

  lemma {:induction false} DropsAreHarmless(gs: seq<Group>, events: seq<Event>, n: nat)
    requires n <= |gs| && NoneByName(gs, n)
    ensures n <= |GroupsFrom(gs, events)| && Drop(GroupsFrom(gs, events), n) == GroupsFrom(Drop(gs, n), events)
    decreases |events|
  {
    hide Step, Drop, NoneByName;
    if events != [] {
      DropIsHarmless(gs, events[0], n);
      DropsAreHarmless(Step(gs, events[0]), events[1..], n);
    }
  }

  lemma {:induction false} GroupsGrow(gs: seq<Group>, events: seq<Event>)
    ensures |GroupsFrom(gs, events)| >= |gs|
    decreases |events|
  {
    hide Joined;
    if events != [] {
      JoinedIs(gs, events[0]);
      GroupsGrow(Step(gs, events[0]), events[1..]);
    }
  }

  /** Two logs carry the same events along exactly when their last groups are the same. */
  lemma SameRecentExactly(a: seq<Event>, b: seq<Event>, limit: nat)
    requires InOrder(a) && InOrder(b)
    ensures Recent(a, limit) == Recent(b, limit)
       <==> Drop(Groups(a), Cut(Groups(a), limit)) == Drop(Groups(b), Cut(Groups(b), limit))
  {
    InteractionGroupsAre(a);
    InteractionGroupsAre(b);
    hide GroupsFrom, Cut, Drop, InOrder, MemberLists, InteractionGroups, Last, Flatten;
    LastLists(Groups(a), limit);
    LastLists(Groups(b), limit);
    RecentIsComplete(a, limit);
    RecentIsComplete(b, limit);
  }

  lemma CutTwice(gs: seq<Group>, all: seq<Group>, limit: nat)
    requires |gs| <= |all|
    ensures var rest := Drop(all, Cut(gs, limit)); Drop(rest, Cut(rest, limit)) == Drop(all, Cut(all, limit))
  {
    var n := Cut(gs, limit);
    DropDrop(all, n, Cut(Drop(all, n), limit));
  }

  lemma DropDrop(gs: seq<Group>, m: nat, n: nat)
    requires m + n <= |gs|
    ensures Drop(Drop(gs, m), n) == Drop(gs, m + n)
  {}

  /** Distinct ids in the order of the log. */
  predicate Log(events: seq<Event>) {
    InOrder(events) && forall i, j | 0 <= i < j < |events| :: events[i].id != events[j].id
  }

  /** The groups after the first n, gone on with, and the groups gone on with, after the first n. */
  predicate Agree(gs: seq<Group>, n: nat, later: seq<Event>, limit: nat) {
    var rest, all := GroupsFrom(Drop(gs, n), later), GroupsFrom(gs, later);
    Drop(rest, Cut(rest, limit)) == Drop(all, Cut(all, limit))
  }

  lemma ContinuedIs(events: seq<Event>, later: seq<Event>, limit: nat)
    requires InOrder(events + later)
    ensures Recent(Recent(events, limit) + later, limit) == Recent(events + later, limit)
       <==> Agree(Groups(events), Cut(Groups(events), limit), later, limit)
  {
    var n := Cut(Groups(events), limit);
    assert InOrder(events) by {
      assert forall i | 0 <= i < |events| :: (events + later)[i] == events[i];
    }
    RecentIsKept(events, limit);
    RecentIsComplete(events, limit);
    KeptIsInOrder([], events, n, later);
    hide GroupsFrom, Cut, Drop, InOrder, Recent, Kept;
    SameRecentExactly(Recent(events, limit) + later, events + later, limit);
    GroupsFromSplit([], events, later);
    GroupsFromSplit([], Recent(events, limit), later);
  }

  // ----- a named call that was dropped is missed

  function Longest(events: seq<Event>): nat {
    if events == [] then 0 else Max(|events[0].id|, Longest(events[1..]))
  }

  lemma {:induction false} LongestIs(events: seq<Event>)
    ensures forall e | e in events :: |e.id| <= Longest(events)
  {
    if events != [] {
      LongestIs(events[1..]);
      assert events == [events[0]] + events[1..];
    }
  }

  /** A further tool event of a log. */
  function Further(events: seq<Event>, kind: string, call: string): Event {
    Event(seq(Longest(events) + 1, _ => 'e'), if events == [] then 0 else events[|events| - 1].ordinal + 1,
          "", kind, "", "", "", [], call, NoPayload)
  }

  lemma StillLog(events: seq<Event>, kind: string, call: string)
    requires Log(events)
    ensures Log(events + [Further(events, kind, call)])
  {
    LongestIs(events);
    var e := Further(events, kind, call);
    forall i | 0 <= i < |events| ensures events[i].id != e.id && events[i].ordinal < e.ordinal {
      assert events[i] in events;
    }
  }

  function Waiting(gs: seq<Group>, name: string): nat {
    if gs == [] then 0 else Waiting(gs[..|gs| - 1], name) + if Waits(gs[|gs| - 1], Some(name)) then 1 else 0
  }

  lemma {:induction false} WaitingLess(gs: seq<Group>, k: nat, e: Event, name: string)
    requires k < |gs| && Waits(gs[k], Some(name))
    ensures Waiting(gs[k := Group(gs[k].head, Some(e))], name) < Waiting(gs, name)
  {
    var m := |gs| - 1;
    var next := gs[k := Group(gs[k].head, Some(e))];
    if k < m {
      assert next[..m] == gs[..m][k := Group(gs[k].head, Some(e))];
      WaitingLess(gs[..m], k, e, name);
    } else {
      assert next[..m] == gs[..m];
    }
  }

  lemma TwoSteps(gs: seq<Group>, a: Event, b: Event)
    ensures GroupsFrom(gs, [a, b]) == Step(Step(gs, a), b)
  {
    hide Step;
    assert [a, b][1..] == [b] && [b][1..] == [];
    assert GroupsFrom(Step(gs, a), [b]) == GroupsFrom(Step(Step(gs, a), b), []);
  }

  lemma CallTaken(gs: seq<Group>, call: Event, output: Event)
    requires call.kind == "tool_call" && call.call == ""
    requires output.kind == "tool_output" && output.call != ""
    ensures var last := GroupsFrom(gs, [call, output]);
      && |last| == |gs| + 1
      && last[|gs|] == Group(call, if exists j :: 0 <= j < |gs| && Waits(gs[j], Some(output.call)) then None else Some(output))
  {
    TwoSteps(gs, call, output);
    var next := gs + [Group(call, None)];
    assert Step(gs, call) == next;
    NewestIs(next, Some(output.call));
    NewestIs(next, None);
    hide Newest;
    if j :| 0 <= j < |gs| && Waits(gs[j], Some(output.call)) {
      assert next[j] == gs[j];
      assert Newest(next, Some(output.call)).value < |gs|;
    } else {
      assert forall j | 0 <= j < |next| :: !Waits(next[j], Some(output.call));
      assert Open(next[|gs|]);
    }
  }

  /** An output that a dropped call waits for takes a newer call once that call is gone. */
  lemma MissedCall(gs: seq<Group>, n: nat, k: nat, call: Event, output: Event, limit: nat)
    requires k < n <= |gs| && WaitsByName(gs[k]) && limit > 0
    requires call.kind == "tool_call" && call.call == ""
    requires output.kind == "tool_output" && output.call == gs[k].head.call
    requires forall j | n <= j < |gs| :: !Waits(gs[j], Some(output.call))
    ensures !Agree(gs, n, [call, output], limit)
  {
    hide GroupsFrom;
    CallTaken(gs, call, output);
    CallTaken(gs[n..], call, output);
    assert Waits(gs[k], Some(output.call));
    var rest, all := GroupsFrom(Drop(gs, n), [call, output]), GroupsFrom(gs, [call, output]);
    var a, b := Drop(rest, Cut(rest, limit)), Drop(all, Cut(all, limit));
    assert a[|a| - 1] == Group(call, Some(output)) && b[|b| - 1] == Group(call, None);
  }

  lemma OutputKept(gs: seq<Group>, n: nat, j: nat, o: Event)
    requires n <= j < |gs| && o.kind == "tool_output" && o.call != "" && Waits(gs[j], Some(o.call))
    ensures var next := Step(gs, o);
      && |next| == |gs| && next[..n] == gs[..n]
      && Drop(next, n) == Step(Drop(gs, n), o)
      && Waiting(next[n..], o.call) < Waiting(gs[n..], o.call)
  {
    hide Newest, Waiting;
    NewestIs(gs, Some(o.call));
    KeptEvent(gs, o, n);
    var at := Joined(gs, o).value;
    assert gs[n..][at - n] == gs[at];
    WaitingLess(gs[n..], at - n, o, o.call);
    assert Step(gs, o)[n..] == gs[n..][at - n := Group(gs[at].head, Some(o))];
  }

  lemma AgreeLater(gs: seq<Group>, n: nat, e: Event, later: seq<Event>, limit: nat)
    requires Drop(Step(gs, e), n) == Step(Drop(gs, n), e)
    ensures Agree(gs, n, [e] + later, limit) == Agree(Step(gs, e), n, later, limit)
  {
    hide Step, Drop, Cut;
    assert ([e] + later)[1..] == later;
  }

  /** Outputs for the calls that were kept under that name first, then the one for the dropped call. */
  lemma {:induction false} MissedByTail(events: seq<Event>, gs: seq<Group>, n: nat, k: nat, limit: nat) returns (later: seq<Event>)
    requires Log(events) && k < n <= |gs| && WaitsByName(gs[k]) && limit > 0
    ensures Log(events + later) && !Agree(gs, n, later, limit)
    decreases Waiting(gs[n..], gs[k].head.call)
  {
    hide Step, GroupsFrom, Waits, Drop, Agree, Log, Waiting;
    var name := gs[k].head.call;
    if j :| n <= j < |gs| && Waits(gs[j], Some(name)) {
      var o := Further(events, "tool_output", name);
      StillLog(events, "tool_output", name);
      OutputKept(gs, n, j, o);
      var next := Step(gs, o);
      assert next[k] == next[..n][k] == gs[..n][k] == gs[k];
      var rest := MissedByTail(events + [o], next, n, k, limit);
      later := [o] + rest;
      AgreeLater(gs, n, o, rest, limit);
      assert events + later == events + [o] + rest;
    } else {
      var call := Further(events, "tool_call", "");
      StillLog(events, "tool_call", "");
      var o := Further(events + [call], "tool_output", name);
      StillLog(events + [call], "tool_output", name);
      later := [call, o];
      assert events + later == events + [call] + [o];
      MissedCall(gs, n, k, call, o, limit);
    }
  }

  /** The calls left behind when only the last `limit` groups of the events are carried along. */
  predicate NoneMissing(events: seq<Event>, limit: nat) {
    NoneByName(Groups(events), Cut(Groups(events), limit))
  }

  /**
   Going on from what was carried along is the same as going on from the whole log, for every continuation, exactly
   when no call left behind still waits for an output under its name.
   */
  lemma RecentGoesOnExactly(events: seq<Event>, limit: nat)
    requires Log(events) && limit > 0
    ensures (forall later | Log(events + later) :: Recent(Recent(events, limit) + later, limit) == Recent(events + later, limit))
       <==> NoneMissing(events, limit)
  {
    hide Log, GroupsFrom, Agree, Recent, Drop;
    var gs := Groups(events);
    var n := Cut(gs, limit);
    if NoneMissing(events, limit) {
      forall later | Log(events + later)
        ensures Recent(Recent(events, limit) + later, limit) == Recent(events + later, limit)
      {
        DropsAgree(gs, n, later, limit);
        LogInOrder(events + later);
        ContinuedIs(events, later, limit);
      }
    } else {
      var k :| 0 <= k < n && k < |gs| && WaitsByName(gs[k]);
      var later := MissedByTail(events, gs, n, k, limit);
      LogInOrder(events + later);
      ContinuedIs(events, later, limit);
    }
  }

  lemma LogInOrder(events: seq<Event>)
    requires Log(events)
    ensures InOrder(events)
  {}

  lemma DropsAgree(gs: seq<Group>, n: nat, later: seq<Event>, limit: nat)
    requires n == Cut(gs, limit) && NoneByName(gs, n)
    ensures Agree(gs, n, later, limit)
  {
    hide GroupsFrom, Drop, NoneByName;
    DropsAreHarmless(gs, later, n);
    GroupsGrow(gs, later);
    CutTwice(gs, GroupsFrom(gs, later), limit);
  }

  lemma {:induction false} HeadsOnly(gs: seq<Group>, others: seq<Event>)
    requires forall e | e in others :: InTranscript(e) && e.kind != "tool_output"
    ensures var all := GroupsFrom(gs, others); |all| == |gs| + |others| && all[..|gs|] == gs
    decreases |others|
  {
    hide InTranscript;
    if others != [] {
      var next := gs + [Group(others[0], None)];
      HeadsOnly(next, others[1..]);
      assert GroupsFrom(gs, others)[..|gs|] == GroupsFrom(gs, others)[..|next|][..|gs|] == next[..|gs|];
    }
  }

  /** It happens: a named call that runs while `limit` other messages come in is left behind. */
  lemma LongCallIsLeftBehind(call: Event, others: seq<Event>, limit: nat)
    requires call.kind == "tool_call" && call.call != "" && |others| >= limit
    requires forall e | e in others :: InTranscript(e) && e.kind != "tool_output"
    ensures !NoneMissing([call] + others, limit)
  {
    GroupsFromSplit([], [call], others);
    OneStep([], call);
    var one := [Group(call, None)];
    assert Groups([call]) == one;
    hide GroupsFrom, InTranscript;
    HeadsOnly(one, others);
    var gs := Groups([call] + others);
    assert gs[0] == gs[..1][0] == one[0];
    assert WaitsByName(gs[0]);
  }

  // ----- the loops

  function Spoken(events: seq<Event>): seq<Event> {
    if events == [] then []
    else Spoken(events[..|events| - 1]) + if InTranscript(events[|events| - 1]) then [events[|events| - 1]] else []
  }

  lemma GroupsSnoc(events: seq<Event>, e: Event)
    ensures Groups(events + [e]) == Step(Groups(events), e)
  {
    GroupsFromSplit([], events, [e]);
    OneStep(Groups(events), e);
  }

  lemma {:induction false} SpokenIn(events: seq<Event>)
    ensures forall e | e in Spoken(events) :: e in events && InTranscript(e)
  {
    if events != [] {
      SpokenIn(events[..|events| - 1]);
    }
  }

  lemma {:induction false} SpokenInOrder(front: seq<Event>, events: seq<Event>)
    requires InOrder(front + events)
    ensures InOrder(front + Spoken(events))
  {
    if events == [] {
      assert front + [] == front;
    } else {
      var init, last := events[..|events| - 1], events[|events| - 1];
      assert front + events == (front + init) + [last];
      assert InOrder(front + init) && forall i | 0 <= i < |front + init| :: (front + init)[i].ordinal < last.ordinal by {
        assert forall i | 0 <= i < |front + init| :: (front + events)[i] == (front + init)[i];
        assert (front + events)[|front + init|] == last;
      }
      SpokenInOrder(front, init);
      SpokenIn(init);
      assert front + (Spoken(init) + [last]) == (front + Spoken(init)) + [last];
      assert Spoken(init) + [] == Spoken(init);
      forall i | 0 <= i < |front + Spoken(init)| ensures (front + Spoken(init))[i].ordinal < last.ordinal {
        assert (front + Spoken(init))[i] in front + init;
      }
    }
  }

  lemma RecentOfSpoken(front: seq<Event>, events: seq<Event>, limit: nat)
    requires InOrder(front + events)
    ensures Recent(front + Spoken(events), limit) == Recent(front + events, limit)
  {
    SpokenInOrder(front, events);
    hide InOrder, Recent, Spoken, Drop, Cut;
    SameRecentExactly(front + Spoken(events), front + events, limit);
    GroupsFromSplit([], front, Spoken(events));
    GroupsFromSplit([], front, events);
    SpokenGoesOn(Groups(front), events);
  }

  lemma {:induction false} SpokenGoesOn(gs: seq<Group>, events: seq<Event>)
    ensures GroupsFrom(gs, Spoken(events)) == GroupsFrom(gs, events)
  {
    if events != [] {
      var init, last := events[..|events| - 1], events[|events| - 1];
      SpokenGoesOn(gs, init);
      assert events == init + [last];
      GroupsFromSplit(gs, init, [last]);
      GroupsFromSplit(gs, Spoken(init), [last]);
      OneStep(GroupsFrom(gs, init), last);
      hide GroupsFrom;
      assert Spoken(init) + [] == Spoken(init);
    }
  }

  lemma GroupsOfSpoken(events: seq<Event>)
    ensures Groups(Spoken(events)) == Groups(events) && forall e | e in Spoken(events) :: InTranscript(e)
  {
    SpokenGoesOn([], events);
    SpokenIn(events);
  }

  lemma OneStep(gs: seq<Group>, e: Event)
    ensures GroupsFrom(gs, [e]) == Step(gs, e)
  {
    hide Step;
    assert GroupsFrom(gs, [e]) == GroupsFrom(Step(gs, e), []);
  }

  /** What is carried along, gone on with, is a log again. */
  lemma RecentIsLog(events: seq<Event>, later: seq<Event>, limit: nat)
    requires Log(events + later)
    ensures Log(events) && Log(Recent(events, limit) + later)
  {
    assert forall i | 0 <= i < |events| :: (events + later)[i] == events[i];
    RecentIsKept(events, limit);
    RecentIsComplete(events, limit);
    KeptIsInOrder([], events, Cut(Groups(events), limit), later);
    hide Recent, Kept, InOrder, Groups, GroupsFrom;
    SomeOfLog(events + later, Recent(events, limit) + later);
  }

  lemma SomeOfLog(events: seq<Event>, some: seq<Event>)
    requires Log(events) && InOrder(some) && forall e | e in some :: e in events
    ensures Log(some)
  {
    forall i, j | 0 <= i < j < |some| ensures some[i].id != some[j].id {
      assert some[i] in events && some[j] in events && some[i].ordinal < some[j].ordinal;
    }
  }

  /** A group by the places of its events in the transcript. */
  datatype Slot = Slot(head: nat, output: Option<nat>)

  /** Slots of events before n, in order of their heads; an output comes after its call and is in one slot only. */
  predicate Placed(t: seq<Event>, n: nat, slots: seq<Slot>) {
    && n <= |t|
    && (forall j | 0 <= j < |slots| :: slots[j].head < n && t[slots[j].head].kind != "tool_output")
    && (forall i, j | 0 <= i < j < |slots| :: slots[i].head < slots[j].head)
    && (forall j | 0 <= j < |slots| && slots[j].output.Some? ::
          slots[j].head < slots[j].output.value < n && t[slots[j].output.value].kind == "tool_output")
    && (forall i, j | 0 <= i < j < |slots| && slots[i].output.Some? :: slots[i].output != slots[j].output)
  }

  predicate HasHead(slots: seq<Slot>, i: nat) {
    exists j :: 0 <= j < |slots| && slots[j].head == i
  }

  predicate HasOutput(slots: seq<Slot>, i: nat) {
    exists j :: 0 <= j < |slots| && slots[j].output == Some(i)
  }

  predicate Covers(t: seq<Event>, n: nat, slots: seq<Slot>)
    requires n <= |t|
  {
    forall i | 0 <= i < n && t[i].kind != "tool_output" :: HasHead(slots, i)
  }

  function GroupsOf(t: seq<Event>, n: nat, slots: seq<Slot>): seq<Group>
    requires Placed(t, n, slots)
  {
    seq(|slots|, j requires 0 <= j < |slots| =>
      Group(t[slots[j].head], if slots[j].output.Some? then Some(t[slots[j].output.value]) else None))
  }

  /** The calls of a name, or all of them, answered or not. */
  function Calls(t: seq<Event>, n: nat, slots: seq<Slot>, name: Option<string>): seq<nat>
    requires Placed(t, n, slots)
  {
    if slots == [] then []
    else
      var last := t[slots[|slots| - 1].head];
      Calls(t, n, slots[..|slots| - 1], name)
      + if last.kind == "tool_call" && (name.Some? ==> last.call == name.value) then [slots[|slots| - 1].head] else []
  }

  function LastFree(candidates: seq<nat>, consumed: set<nat>): Option<nat> {
    if candidates == [] then None
    else if candidates[|candidates| - 1] !in consumed then Some(candidates[|candidates| - 1])
    else LastFree(candidates[..|candidates| - 1], consumed)
  }

  function HeadAt(slots: seq<Slot>, k: Option<nat>): Option<nat> {
    if k.Some? && k.value < |slots| then Some(slots[k.value].head) else None
  }

  /** The consumed calls are those with an output. */
  predicate Consumes(slots: seq<Slot>, consumed: set<nat>) {
    forall j | 0 <= j < |slots| :: slots[j].head in consumed <==> slots[j].output.Some?
  }

  lemma PlacedInit(t: seq<Event>, n: nat, slots: seq<Slot>)
    requires Placed(t, n, slots) && slots != []
    ensures var init := slots[..|slots| - 1];
      && Placed(t, n, init) && GroupsOf(t, n, slots) == GroupsOf(t, n, init) + [GroupsOf(t, n, slots)[|init|]]
      && |GroupsOf(t, n, init)| == |init|
      && GroupsOf(t, n, slots)[|init|].head == t[slots[|init|].head]
      && GroupsOf(t, n, slots)[|init|].output.Some? == slots[|init|].output.Some?
  {}

  lemma NewestSnoc(gs: seq<Group>, g: Group, name: Option<string>)
    ensures Newest(gs + [g], name) == if Waits(g, name) then Some(|gs|) else Newest(gs, name)
  {
    assert (gs + [g])[..|gs|] == gs;
  }

  lemma LastFreeSnoc(candidates: seq<nat>, last: nat, consumed: set<nat>)
    ensures LastFree(candidates + [last], consumed) == if last !in consumed then Some(last) else LastFree(candidates, consumed)
  {
    assert (candidates + [last])[..|candidates|] == candidates;
  }

  lemma {:induction false} LastFreeIsNewest(t: seq<Event>, n: nat, slots: seq<Slot>, name: Option<string>, consumed: set<nat>)
    requires Placed(t, n, slots) && Consumes(slots, consumed)
    ensures LastFree(Calls(t, n, slots, name), consumed) == HeadAt(slots, Newest(GroupsOf(t, n, slots), name))
  {
    if slots != [] {
      var init, last := slots[..|slots| - 1], slots[|slots| - 1];
      PlacedInit(t, n, slots);
      CallsLast(t, n, slots, name);
      hide Placed, GroupsOf, Newest, LastFree, Calls;
      LastFreeIsNewest(t, n, init, name, consumed);
      NewestSnoc(GroupsOf(t, n, init), GroupsOf(t, n, slots)[|init|], name);
      NewestIs(GroupsOf(t, n, init), name);
      LastFreeSnoc(Calls(t, n, init, name), last.head, consumed);
      assert Calls(t, n, init, name) + [] == Calls(t, n, init, name);
    }
  }

  lemma CallsLast(t: seq<Event>, n: nat, slots: seq<Slot>, name: Option<string>)
    requires Placed(t, n, slots) && slots != []
    ensures var init, head := slots[..|slots| - 1], slots[|slots| - 1].head;
      && Placed(t, n, init) && head < |t|
      && Calls(t, n, slots, name)
         == Calls(t, n, init, name) + if t[head].kind == "tool_call" && (name.Some? ==> t[head].call == name.value) then [head] else []
  {}

  lemma {:induction false} CallsSame(t: seq<Event>, n: nat, slots: seq<Slot>, m: nat, others: seq<Slot>, name: Option<string>)
    requires Placed(t, n, slots) && Placed(t, m, others)
    requires |slots| == |others| && forall j | 0 <= j < |slots| :: slots[j].head == others[j].head
    ensures Calls(t, n, slots, name) == Calls(t, m, others, name)
  {
    if slots == [] {
      assert others == [];
    } else {
      CallsLast(t, n, slots, name);
      CallsLast(t, m, others, name);
      hide Placed, Calls;
      CallsSame(t, n, slots[..|slots| - 1], m, others[..|slots| - 1], name);
    }
  }

  function Get<K, V>(index: map<K, seq<V>>, key: K): seq<V> {
    if key in index then index[key] else []
  }

  /** Calls are listed under their name, if they have one. */
  ghost predicate Listed(t: seq<Event>, n: nat, slots: seq<Slot>, byName: map<string, seq<nat>>, all: seq<nat>)
    requires Placed(t, n, slots)
  {
    && all == Calls(t, n, slots, None)
    && forall name :: name != "" ==> Get(byName, name) == Calls(t, n, slots, Some(name))
  }

  /** An output's parent is its call; every other event is its own. */
  predicate Linked(parents: seq<nat>, slots: seq<Slot>) {
    && (forall j | 0 <= j < |slots| && slots[j].output.Some? && slots[j].output.value < |parents| ::
          parents[slots[j].output.value] == slots[j].head)
    && (forall i | 0 <= i < |parents| && !HasOutput(slots, i) :: parents[i] == i)
  }

  /** What the pairing loop keeps: the slots so far, seen through its tables. */
  ghost predicate Paired(t: seq<Event>, n: nat, slots: seq<Slot>, byName: map<string, seq<nat>>, all: seq<nat>, consumed: set<nat>,
                         matched: set<nat>, parents: seq<nat>)
  {
    && Placed(t, n, slots) && Covers(t, n, slots) && GroupsOf(t, n, slots) == Groups(t[..n])
    && Listed(t, n, slots, byName, all) && Consumes(slots, consumed) && (forall i | i in consumed :: i < n)
    && (forall i: nat :: i in matched <==> HasOutput(slots, i))
    && |parents| == |t| && Linked(parents, slots)
  }

  lemma HeadPlaced(t: seq<Event>, n: nat, slots: seq<Slot>)
    requires n < |t| && t[n].kind != "tool_output" && Placed(t, n, slots) && Covers(t, n, slots)
    ensures var next := slots + [Slot(n, None)];
      && Placed(t, n + 1, next) && Covers(t, n + 1, next) && Placed(t, n + 1, slots)
      && (forall i: nat :: HasOutput(next, i) <==> HasOutput(slots, i))
  {
    var next := slots + [Slot(n, None)];
    assert next[|slots|].head == n;
    forall i | HasHead(slots, i) ensures HasHead(next, i) {
      var j :| 0 <= j < |slots| && slots[j].head == i;
      assert next[j].head == i;
    }
    forall i: nat ensures HasOutput(next, i) <==> HasOutput(slots, i) {
      if j :| 0 <= j < |slots| && slots[j].output == Some(i) {
        assert next[j] == slots[j];
      }
    }
  }

  lemma HeadStep(t: seq<Event>, n: nat, slots: seq<Slot>)
    requires n < |t| && InTranscript(t[n]) && t[n].kind != "tool_output"
    requires Placed(t, n, slots) && Covers(t, n, slots) && GroupsOf(t, n, slots) == Groups(t[..n])
    ensures var next := slots + [Slot(n, None)];
      && Placed(t, n + 1, next) && Covers(t, n + 1, next) && GroupsOf(t, n + 1, next) == Groups(t[..n + 1])
      && (forall i: nat :: HasOutput(next, i) <==> HasOutput(slots, i))
      && (forall name :: Calls(t, n + 1, next, name) == Calls(t, n, slots, name)
                         + if t[n].kind == "tool_call" && (name.Some? ==> t[n].call == name.value) then [n] else [])
  {
    hide Groups, Covers, HasOutput;
    var next := slots + [Slot(n, None)];
    assert t[..n + 1] == t[..n] + [t[n]];
    GroupsSnoc(t[..n], t[n]);
    HeadPlaced(t, n, slots);
    assert GroupsOf(t, n + 1, next) == GroupsOf(t, n, slots) + [Group(t[n], None)];
    hide Placed, GroupsOf;
    assert next[..|slots|] == slots;
    forall name ensures Calls(t, n + 1, slots, name) == Calls(t, n, slots, name) {
      CallsSame(t, n + 1, slots, n, slots, name);
    }
  }

  lemma OutputAdded(slots: seq<Slot>, k: nat, n: nat)
    requires k < |slots| && slots[k].output.None?
    ensures forall i: nat :: HasOutput(slots[k := Slot(slots[k].head, Some(n))], i) <==> HasOutput(slots, i) || i == n
  {
    var next := slots[k := Slot(slots[k].head, Some(n))];
    forall i: nat ensures HasOutput(next, i) <==> HasOutput(slots, i) || i == n {
      assert next[k].output == Some(n);
      if j :| 0 <= j < |slots| && slots[j].output == Some(i) {
        assert next[j] == slots[j];
      }
      if j :| 0 <= j < |slots| && next[j].output == Some(i) && j != k {
        assert next[j] == slots[j];
      }
    }
  }

  lemma OutputPlaced(t: seq<Event>, n: nat, slots: seq<Slot>, k: nat)
    requires n < |t| && t[n].kind == "tool_output" && k < |slots| && slots[k].output.None?
    requires Placed(t, n, slots) && Covers(t, n, slots)
    ensures var next := slots[k := Slot(slots[k].head, Some(n))];
      Placed(t, n + 1, next) && Covers(t, n + 1, next)
  {
    var next := slots[k := Slot(slots[k].head, Some(n))];
    forall i | HasHead(slots, i) ensures HasHead(next, i) {
      var j :| 0 <= j < |slots| && slots[j].head == i;
      assert next[j].head == i;
    }
  }

  lemma OutputGroups(t: seq<Event>, n: nat, slots: seq<Slot>, k: nat)
    requires n < |t| && k < |slots| && Placed(t, n, slots) && Placed(t, n + 1, slots[k := Slot(slots[k].head, Some(n))])
    ensures GroupsOf(t, n + 1, slots[k := Slot(slots[k].head, Some(n))]) == GroupsOf(t, n, slots)[k := Group(t[slots[k].head], Some(t[n]))]
  {}

  lemma GroupAt(t: seq<Event>, n: nat, slots: seq<Slot>, k: nat)
    requires k < |slots| && Placed(t, n, slots)
    ensures |GroupsOf(t, n, slots)| == |slots| && slots[k].head < |t|
    ensures GroupsOf(t, n, slots)[k].head == t[slots[k].head] && (GroupsOf(t, n, slots)[k].output.None? <==> slots[k].output.None?)
  {}

  lemma OutputStep(t: seq<Event>, n: nat, slots: seq<Slot>, k: nat)
    requires n < |t| && InTranscript(t[n]) && t[n].kind == "tool_output"
    requires Placed(t, n, slots) && Covers(t, n, slots) && GroupsOf(t, n, slots) == Groups(t[..n])
    requires Joined(GroupsOf(t, n, slots), t[n]) == Some(k) && k < |slots|
    ensures var next := slots[k := Slot(slots[k].head, Some(n))];
      && slots[k].output.None?
      && Placed(t, n + 1, next) && Covers(t, n + 1, next) && GroupsOf(t, n + 1, next) == Groups(t[..n + 1])
      && (forall i: nat :: HasOutput(next, i) <==> HasOutput(slots, i) || i == n)
      && (forall name :: Calls(t, n + 1, next, name) == Calls(t, n, slots, name))
  {
    hide Groups, Joined, HasOutput, Covers, Placed, GroupsOf;
    var next := slots[k := Slot(slots[k].head, Some(n))];
    assert t[..n + 1] == t[..n] + [t[n]];
    GroupsSnoc(t[..n], t[n]);
    JoinedIs(GroupsOf(t, n, slots), t[n]);
    GroupAt(t, n, slots, k);
    OutputPlaced(t, n, slots, k);
    OutputAdded(slots, k, n);
    OutputGroups(t, n, slots, k);
    forall name ensures Calls(t, n + 1, next, name) == Calls(t, n, slots, name) {
      CallsSame(t, n + 1, next, n, slots, name);
    }
  }

  lemma OrphanStep(t: seq<Event>, n: nat, slots: seq<Slot>)
    requires n < |t| && InTranscript(t[n]) && t[n].kind == "tool_output"
    requires Placed(t, n, slots) && Covers(t, n, slots) && GroupsOf(t, n, slots) == Groups(t[..n])
    requires Joined(GroupsOf(t, n, slots), t[n]) == None
    ensures Placed(t, n + 1, slots) && Covers(t, n + 1, slots) && GroupsOf(t, n + 1, slots) == Groups(t[..n + 1])
    ensures forall name :: Calls(t, n + 1, slots, name) == Calls(t, n, slots, name)
  {
    hide Groups, Joined;
    assert t[..n + 1] == t[..n] + [t[n]];
    GroupsSnoc(t[..n], t[n]);
    forall name ensures Calls(t, n + 1, slots, name) == Calls(t, n, slots, name) {
      CallsSame(t, n + 1, slots, n, slots, name);
    }
  }

  /** Every parent is a root. */
  predicate Rooted(parents: seq<nat>) {
    forall i | 0 <= i < |parents| :: parents[i] < |parents| && parents[parents[i]] == parents[i]
  }

  method Find(parents: array<nat>, index: nat) returns (root: nat)
    requires Rooted(parents[..]) && index < parents.Length
    modifies parents
    ensures root == parents[index] && parents[..] == old(parents[..])
  {
    root := index;
    while parents[root] != root
      invariant root < parents.Length && parents[root] == parents[index]
      invariant parents[..] == old(parents[..])
      decreases if parents[root] == root then 0 else 1
    {
      assert parents[parents[root]] == parents[root] by {
        assert parents[..][parents[..][root]] == parents[..][root];
      }
      parents[root] := parents[parents[root]];
      root := parents[root];
    }
  }

  method Union(parents: array<nat>, left: nat, right: nat)
    requires Rooted(parents[..]) && left < parents.Length && right < parents.Length
    modifies parents
    ensures parents[..] == old(parents[..][parents[right] := parents[left]])
  {
    var leftRoot := Find(parents, left);
    var rightRoot := Find(parents, right);
    if leftRoot != rightRoot {
      parents[rightRoot] := leftRoot;
    }
  }

  method NewestFree(candidates: seq<nat>, consumed: set<nat>) returns (found: Option<nat>)
    ensures found == LastFree(candidates, consumed)
  {
    var n := |candidates|;
    assert candidates[..n] == candidates;
    while n > 0
      invariant 0 <= n <= |candidates| && LastFree(candidates[..n], consumed) == LastFree(candidates, consumed)
    {
      assert candidates[..n][..n - 1] == candidates[..n - 1];
      if candidates[n - 1] !in consumed {
        return Some(candidates[n - 1]);
      }
      n := n - 1;
    }
    found := None;
  }

  lemma ListedHead(t: seq<Event>, n: nat, slots: seq<Slot>, byName: map<string, seq<nat>>, all: seq<nat>)
    requires n < |t| && InTranscript(t[n]) && t[n].kind != "tool_output"
    requires Placed(t, n, slots) && Listed(t, n, slots, byName, all)
    requires var next := slots + [Slot(n, None)];
      && Placed(t, n + 1, next)
      && (forall name :: Calls(t, n + 1, next, name) == Calls(t, n, slots, name)
                         + if t[n].kind == "tool_call" && (name.Some? ==> t[n].call == name.value) then [n] else [])
    ensures var isCall, name := t[n].kind == "tool_call", t[n].call;
      Listed(t, n + 1, slots + [Slot(n, None)], if isCall && name != "" then byName[name := Get(byName, name) + [n]] else byName,
             if isCall then all + [n] else all)
  {
    hide Placed, Calls;
    var next := slots + [Slot(n, None)];
    assert forall name :: Calls(t, n, slots, name) + [] == Calls(t, n, slots, name);
  }

  lemma PairedHead(t: seq<Event>, n: nat, slots: seq<Slot>, byName: map<string, seq<nat>>, all: seq<nat>, consumed: set<nat>,
                   matched: set<nat>, parents: seq<nat>)
    requires Paired(t, n, slots, byName, all, consumed, matched, parents)
    requires n < |t| && InTranscript(t[n]) && t[n].kind != "tool_output"
    ensures var isCall, name := t[n].kind == "tool_call", t[n].call;
      Paired(t, n + 1, slots + [Slot(n, None)], if isCall && name != "" then byName[name := Get(byName, name) + [n]] else byName,
             if isCall then all + [n] else all, consumed, matched, parents)
  {
    hide Placed, Covers, GroupsOf, Groups, Calls, HasOutput, Linked, Consumes, Listed;
    HeadStep(t, n, slots);
    ListedHead(t, n, slots, byName, all);
    HeadLinked(slots, Slot(n, None), consumed, parents);
  }

  lemma HeadLinked(slots: seq<Slot>, s: Slot, consumed: set<nat>, parents: seq<nat>)
    requires Linked(parents, slots) && Consumes(slots, consumed) && s.output.None? && s.head !in consumed
    requires forall i: nat :: HasOutput(slots + [s], i) <==> HasOutput(slots, i)
    ensures Linked(parents, slots + [s]) && Consumes(slots + [s], consumed)
  {
    hide HasOutput;
  }

  lemma PairedOutput(t: seq<Event>, n: nat, slots: seq<Slot>, byName: map<string, seq<nat>>, all: seq<nat>, consumed: set<nat>,
                     matched: set<nat>, parents: seq<nat>, k: nat)
    requires Paired(t, n, slots, byName, all, consumed, matched, parents)
    requires n < |t| && InTranscript(t[n]) && t[n].kind == "tool_output"
    requires Joined(GroupsOf(t, n, slots), t[n]) == Some(k) && k < |slots|
    ensures var head := slots[k].head;
      Paired(t, n + 1, slots[k := Slot(head, Some(n))], byName, all, consumed + {head}, matched + {n}, parents[n := head])
  {
    hide Placed, Covers, GroupsOf, Groups, Calls, Joined, HasOutput, Linked, Consumes, Listed;
    OutputStep(t, n, slots, k);
    LinkedOutput(t, n, slots, parents, k);
    ConsumesOutput(t, n, slots, consumed, k);
    ListedSame(t, n, slots, n + 1, slots[k := Slot(slots[k].head, Some(n))], byName, all);
  }

  lemma ListedSame(t: seq<Event>, n: nat, slots: seq<Slot>, m: nat, others: seq<Slot>, byName: map<string, seq<nat>>, all: seq<nat>)
    requires Placed(t, n, slots) && Placed(t, m, others) && Listed(t, n, slots, byName, all)
    requires forall name :: Calls(t, m, others, name) == Calls(t, n, slots, name)
    ensures Listed(t, m, others, byName, all)
  {
    hide Placed, Calls, Get;
  }

  lemma LinkedOutput(t: seq<Event>, n: nat, slots: seq<Slot>, parents: seq<nat>, k: nat)
    requires Placed(t, n, slots) && Linked(parents, slots) && n < |parents| && k < |slots| && slots[k].output.None?
    requires var next := slots[k := Slot(slots[k].head, Some(n))]; forall i: nat :: HasOutput(next, i) <==> HasOutput(slots, i) || i == n
    ensures Linked(parents[n := slots[k].head], slots[k := Slot(slots[k].head, Some(n))])
  {
    hide HasOutput;
  }

  lemma ConsumesOutput(t: seq<Event>, n: nat, slots: seq<Slot>, consumed: set<nat>, k: nat)
    requires Placed(t, n, slots) && Consumes(slots, consumed) && k < |slots|
    ensures Consumes(slots[k := Slot(slots[k].head, Some(n))], consumed + {slots[k].head})
    ensures slots[k].head < n
  {}

  lemma PairedOrphan(t: seq<Event>, n: nat, slots: seq<Slot>, byName: map<string, seq<nat>>, all: seq<nat>, consumed: set<nat>,
                     matched: set<nat>, parents: seq<nat>)
    requires Paired(t, n, slots, byName, all, consumed, matched, parents)
    requires n < |t| && InTranscript(t[n]) && t[n].kind == "tool_output"
    requires Joined(GroupsOf(t, n, slots), t[n]) == None
    ensures Paired(t, n + 1, slots, byName, all, consumed, matched, parents)
  {
    hide Placed, Covers, GroupsOf, Groups, Calls, Joined, HasOutput, Linked, Consumes, Listed;
    OrphanStep(t, n, slots);
    ListedSame(t, n, slots, n + 1, slots, byName, all);
  }

  /** The tables give the call that the output joins. */
  lemma PairedCall(t: seq<Event>, n: nat, slots: seq<Slot>, byName: map<string, seq<nat>>, all: seq<nat>, consumed: set<nat>,
                   matched: set<nat>, parents: seq<nat>, e: Event)
    requires Paired(t, n, slots, byName, all, consumed, matched, parents)
    ensures var named := if e.call != "" then LastFree(Get(byName, e.call), consumed) else None;
      var k := Joined(GroupsOf(t, n, slots), e);
      && (if named.Some? then named else LastFree(all, consumed)) == HeadAt(slots, k)
      && (k.Some? ==> k.value < |slots|)
  {
    LastFreeIsNewest(t, n, slots, Some(e.call), consumed);
    LastFreeIsNewest(t, n, slots, None, consumed);
    JoinedIs(GroupsOf(t, n, slots), e);
    NewestIs(GroupsOf(t, n, slots), Some(e.call));
    hide Placed, Covers, Groups, Calls, Newest;
  }

  lemma RootedByLinks(t: seq<Event>, n: nat, slots: seq<Slot>, parents: seq<nat>)
    requires Placed(t, n, slots) && |parents| == |t| && Linked(parents, slots)
    ensures Rooted(parents)
    ensures forall i | n <= i < |t| :: parents[i] == i
    ensures forall j | 0 <= j < |slots| :: parents[slots[j].head] == slots[j].head
  {
    forall i: nat | i < |t| && HasOutput(slots, i) ensures i < n && t[i].kind == "tool_output" {
      var j :| 0 <= j < |slots| && slots[j].output == Some(i);
    }
  }

  /** Pair every output with the newest call that it can have, and note so in the parents. */
  method PairOutputs(t: seq<Event>, parents: array<nat>) returns (matched: set<nat>, ghost slots: seq<Slot>)
    requires forall e | e in t :: InTranscript(e)
    requires parents.Length == |t| && forall i | 0 <= i < |t| :: parents[i] == i
    modifies parents
    ensures Placed(t, |t|, slots) && Covers(t, |t|, slots) && GroupsOf(t, |t|, slots) == Groups(t)
    ensures forall i: nat :: i in matched <==> HasOutput(slots, i)
    ensures Linked(parents[..], slots)
  {
    hide Placed, Covers, GroupsOf, Groups, Linked, HasOutput, Listed, Consumes;
    var byName: map<string, seq<nat>> := map[];
    var all: seq<nat> := [];
    var consumed: set<nat> := {};
    matched, slots := {}, [];
    NothingPaired(t, parents[..]);
    for n := 0 to |t|
      invariant Paired(t, n, slots, byName, all, consumed, matched, parents[..])
    {
      var e := t[n];
      RootedByLinks(t, n, slots, parents[..]);
      if e.kind != "tool_output" {
        PairedHead(t, n, slots, byName, all, consumed, matched, parents[..]);
        if e.kind == "tool_call" {
          if e.call != "" {
            byName := byName[e.call := Get(byName, e.call) + [n]];
          }
          all := all + [n];
        }
        slots := slots + [Slot(n, None)];
      } else {
        PairedCall(t, n, slots, byName, all, consumed, matched, parents[..], e);
        var call: Option<nat> := None;
        if e.call != "" {
          call := NewestFree(Get(byName, e.call), consumed);
        }
        if call.None? {
          call := NewestFree(all, consumed);
        }
        if call.Some? {
          ghost var k := Joined(GroupsOf(t, n, slots), e).value;
          PairedOutput(t, n, slots, byName, all, consumed, matched, parents[..], k);
          consumed, matched := consumed + {call.value}, matched + {n};
          Union(parents, call.value, n);
          slots := slots[k := Slot(slots[k].head, Some(n))];
        } else {
          PairedOrphan(t, n, slots, byName, all, consumed, matched, parents[..]);
        }
      }
    }
    assert t[..|t|] == t;
  }

  lemma NothingPaired(t: seq<Event>, parents: seq<nat>)
    requires |parents| == |t| && forall i | 0 <= i < |t| :: parents[i] == i
    ensures Paired(t, 0, [], map[], [], {}, {}, parents)
  {
    assert t[..0] == [];
  }

  /** The events of a slot among the first n. */
  function MembersBefore(t: seq<Event>, n: nat, s: Slot): seq<Event> {
    (if s.head < |t| then [t[s.head]] else [])
    + if s.output.Some? && s.output.value < n && s.output.value < |t| then [t[s.output.value]] else []
  }

  /** What the gathering loop keeps: the slots whose head was seen, in order, with the events seen so far. */
  predicate Gathered(t: seq<Event>, n: nat, slots: seq<Slot>, grouped: map<nat, seq<Event>>, roots: seq<nat>) {
    && |roots| <= |slots|
    && (forall j | 0 <= j < |roots| :: roots[j] == slots[j].head && roots[j] < n)
    && (forall j | |roots| <= j < |slots| :: slots[j].head >= n)
    && grouped.Keys == (set root | root in roots)
    && (forall j | 0 <= j < |roots| :: Get(grouped, roots[j]) == MembersBefore(t, n, slots[j]))
  }

  lemma GatheredOrphan(t: seq<Event>, n: nat, slots: seq<Slot>, grouped: map<nat, seq<Event>>, roots: seq<nat>)
    requires n < |t| && Placed(t, |t|, slots) && Gathered(t, n, slots, grouped, roots)
    requires t[n].kind == "tool_output" && !HasOutput(slots, n)
    ensures Gathered(t, n + 1, slots, grouped, roots)
  {
    forall j | 0 <= j < |slots| ensures slots[j].head != n && MembersBefore(t, n + 1, slots[j]) == MembersBefore(t, n, slots[j]) {
      SameMembers(t, n, slots[j]);
    }
    hide Placed, MembersBefore, HasOutput, Get;
  }

  lemma NextHead(t: seq<Event>, n: nat, slots: seq<Slot>, grouped: map<nat, seq<Event>>, roots: seq<nat>)
    requires n < |t| && Placed(t, |t|, slots) && Covers(t, |t|, slots) && Gathered(t, n, slots, grouped, roots)
    requires t[n].kind != "tool_output"
    ensures n !in grouped && |roots| < |slots| && slots[|roots|].head == n
    ensures MembersBefore(t, n + 1, slots[|roots|]) == [t[n]]
    ensures forall j | 0 <= j < |slots| :: slots[j].output != Some(n)
  {
    assert HasHead(slots, n);
    var j :| 0 <= j < |slots| && slots[j].head == n;
    assert slots[|roots|].head >= n;
  }

  lemma SameMembers(t: seq<Event>, n: nat, s: Slot)
    requires s.output != Some(n)
    ensures MembersBefore(t, n + 1, s) == MembersBefore(t, n, s)
  {}

  lemma RootsAdded(grouped: map<nat, seq<Event>>, roots: seq<nat>, n: nat, members: seq<Event>)
    requires grouped.Keys == (set root | root in roots)
    ensures grouped[n := members].Keys == (set root | root in roots + [n])
  {}

  lemma HeadMembers(t: seq<Event>, n: nat, slots: seq<Slot>, grouped: map<nat, seq<Event>>, roots: seq<nat>)
    requires n < |t| && Gathered(t, n, slots, grouped, roots) && |roots| < |slots| && n !in grouped
    requires MembersBefore(t, n + 1, slots[|roots|]) == [t[n]]
    requires forall j | 0 <= j < |slots| :: slots[j].output != Some(n)
    ensures var after := roots + [n];
      forall i | 0 <= i < |after| :: Get(grouped[n := [t[n]]], after[i]) == MembersBefore(t, n + 1, slots[i])
  {
    hide MembersBefore;
    var after := roots + [n];
    forall i | 0 <= i < |after| ensures Get(grouped[n := [t[n]]], after[i]) == MembersBefore(t, n + 1, slots[i]) {
      if i < |roots| {
        SameMembers(t, n, slots[i]);
        assert roots[i] in grouped.Keys;
      }
    }
  }

  lemma GatheredHead(t: seq<Event>, n: nat, slots: seq<Slot>, grouped: map<nat, seq<Event>>, roots: seq<nat>)
    requires n < |t| && Placed(t, |t|, slots) && Covers(t, |t|, slots) && Gathered(t, n, slots, grouped, roots)
    requires t[n].kind != "tool_output"
    ensures n !in grouped && Gathered(t, n + 1, slots, grouped[n := Get(grouped, n) + [t[n]]], roots + [n])
  {
    NextHead(t, n, slots, grouped, roots);
    assert forall j | |roots| < j < |slots| :: slots[j].head > slots[|roots|].head;
    hide Placed, Covers, MembersBefore;
    assert Get(grouped, n) + [t[n]] == [t[n]];
    HeadMembers(t, n, slots, grouped, roots);
    RootsAdded(grouped, roots, n, [t[n]]);
    hide Get;
  }

  lemma GatheredOutput(t: seq<Event>, n: nat, slots: seq<Slot>, grouped: map<nat, seq<Event>>, roots: seq<nat>, k: nat)
    requires n < |t| && Placed(t, |t|, slots) && Gathered(t, n, slots, grouped, roots)
    requires t[n].kind == "tool_output" && k < |slots| && slots[k].output == Some(n)
    ensures var root := slots[k].head;
      root in grouped && Gathered(t, n + 1, slots, grouped[root := Get(grouped, root) + [t[n]]], roots)
  {
    assert slots[k].head < n;
    assert k < |roots| && roots[k] == slots[k].head;
    assert forall j | 0 <= j < |slots| :: slots[j].head != n && (j != k ==> slots[j].output != Some(n) && slots[j].head != slots[k].head);
    hide Placed;
    OutputMembers(t, n, slots, grouped, roots, k);
    hide MembersBefore, Get;
  }

  lemma OutputMembers(t: seq<Event>, n: nat, slots: seq<Slot>, grouped: map<nat, seq<Event>>, roots: seq<nat>, k: nat)
    requires n < |t| && Gathered(t, n, slots, grouped, roots) && k < |roots| && slots[k].output == Some(n)
    requires forall j | 0 <= j < |slots| && j != k :: slots[j].output != Some(n) && slots[j].head != slots[k].head
    ensures roots[k] in grouped
    ensures var next := grouped[roots[k] := Get(grouped, roots[k]) + [t[n]]];
      next.Keys == grouped.Keys && forall i | 0 <= i < |roots| :: Get(next, roots[i]) == MembersBefore(t, n + 1, slots[i])
  {
    assert roots[k] in grouped.Keys;
    var next := grouped[roots[k] := Get(grouped, roots[k]) + [t[n]]];
    forall i | 0 <= i < |roots| ensures Get(next, roots[i]) == MembersBefore(t, n + 1, slots[i]) {
      assert Get(grouped, roots[i]) == MembersBefore(t, n, slots[i]);
      if i != k {
        SameMembers(t, n, slots[i]);
      }
    }
  }

  lemma LaterHead(t: seq<Event>, n: nat, slots: seq<Slot>, grouped: map<nat, seq<Event>>, roots: seq<nat>)
    requires Gathered(t, n, slots, grouped, roots) && |roots| < |slots|
    ensures slots[|roots|].head >= n
  {}

  lemma AllGathered(t: seq<Event>, slots: seq<Slot>, grouped: map<nat, seq<Event>>, roots: seq<nat>)
    requires Placed(t, |t|, slots) && Gathered(t, |t|, slots, grouped, roots)
    ensures |roots| == |slots|
    ensures Lists(GroupsOf(t, |t|, slots)) == seq(|roots|, i requires 0 <= i < |roots| => SortByOrdinal(Get(grouped, roots[i])))
  {
    hide SortByOrdinal;
    var n: nat := |t|;
    if |roots| < |slots| {
      LaterHead(t, n, slots, grouped, roots);
      assert false;
    }
    forall j | 0 <= j < |slots| ensures Members(GroupsOf(t, |t|, slots)[j]) == MembersBefore(t, |t|, slots[j]) {}
  }

  /** The pairing, then the events gathered under their roots, each group and all groups sorted. */
  method GroupInteractions(events: seq<Event>) returns (groups: seq<seq<Event>>)
    ensures groups == InteractionGroups(events)
  {
    hide Placed, Covers, GroupsOf, Groups, Linked, Gathered, Lists, Spoken;
    var t := Spoken(events);
    GroupsOfSpoken(events);
    var parents := new nat[|t|](i => i);
    var matched, slots := PairOutputs(t, parents);
    var grouped: map<nat, seq<Event>> := map[];
    var roots: seq<nat> := [];
    NothingGathered(t, slots);
    ghost var links := parents[..];
    for n := 0 to |t|
      invariant parents[..] == links
      invariant Gathered(t, n, slots, grouped, roots)
    {
      if t[n].kind == "tool_output" && n !in matched {
        GatheredOrphan(t, n, slots, grouped, roots);
        continue;
      }
      RootedByLinks(t, |t|, slots, parents[..]);
      var root := Find(parents, n);
      RootOf(t, n, slots, links);
      if t[n].kind == "tool_output" {
        ghost var k :| 0 <= k < |slots| && slots[k].output == Some(n);
        GatheredOutput(t, n, slots, grouped, roots, k);
      } else {
        GatheredHead(t, n, slots, grouped, roots);
      }
      if root !in grouped {
        roots := roots + [root];
      }
      grouped := grouped[root := Get(grouped, root) + [t[n]]];
    }
    AllGathered(t, slots, grouped, roots);
    groups := SortBy(seq(|roots|, i requires 0 <= i < |roots| => SortByOrdinal(Get(grouped, roots[i]))), Earliest);
  }

  lemma NothingGathered(t: seq<Event>, slots: seq<Slot>)
    ensures Gathered(t, 0, slots, map[], [])
  {}

  lemma RootOf(t: seq<Event>, n: nat, slots: seq<Slot>, parents: seq<nat>)
    requires Placed(t, |t|, slots) && Linked(parents, slots) && |parents| == |t| && n < |t|
    ensures t[n].kind != "tool_output" ==> parents[n] == n
    ensures forall k | 0 <= k < |slots| && slots[k].output == Some(n) :: parents[n] == slots[k].head
  {
    if HasOutput(slots, n) {
      var j :| 0 <= j < |slots| && slots[j].output == Some(n);
    }
  }

  /** The events of the last groups, gathered and sorted. */
  method RecentComplete(events: seq<Event>, limit: int) returns (recent: seq<Event>)
    ensures recent == Recent(events, limit)
  {
    if limit <= 0 {
      return [];
    }
    var groups := GroupInteractions(events);
    recent := SortByOrdinal(Flatten(Last(groups, limit)));
  }
}
