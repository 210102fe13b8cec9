/**
 Installing and removing command hooks in a host's settings: a map from event names to lists of handler
 groups, edited in place. Which commands are ours, and which handlers mention an agent, are given.
 */
module Hooks {
  import opened Basics

  datatype Handler = Handler(command: Option<string>, rest: string)

  /** A group with a handler list, or anything else a host may have put there. */
  datatype Group = Group(hooks: seq<Handler>, matcher: Option<string>, rest: string) | Raw(value: string)

  datatype Entry = Groups(groups: seq<Group>) | NotAList(value: string)

  type Container = map<string, Entry>
  type OwnTest = string -> bool
  type HandlerTest = Handler -> bool

  predicate IsOwn(h: Handler, own: OwnTest) {
    h.command.Some? && own(h.command.value)
  }

  // ----- removing our handlers

  function Foreign(hooks: seq<Handler>, own: OwnTest): seq<Handler> {
    if hooks == [] then []
    else Foreign(hooks[..|hooks| - 1], own) + if IsOwn(hooks[|hooks| - 1], own) then [] else [hooks[|hooks| - 1]]
  }

  function Own(hooks: seq<Handler>, own: OwnTest): seq<Handler> {
    if hooks == [] then []
    else Own(hooks[..|hooks| - 1], own) + if IsOwn(hooks[|hooks| - 1], own) then [hooks[|hooks| - 1]] else []
  }

  function StripGroup(g: Group, own: OwnTest): Group {
    if g.Group? then g.(hooks := Foreign(g.hooks, own)) else g
  }

  predicate GroupHasOwn(g: Group, own: OwnTest) {
    g.Group? && Own(g.hooks, own) != []
  }

  predicate HasOwn(groups: seq<Group>, own: OwnTest) {
    exists n :: 0 <= n < |groups| && GroupHasOwn(groups[n], own)
  }

  predicate IsEmptied(g: Group) {
    g.Group? && g.hooks == []
  }

  predicate HasEmpty(groups: seq<Group>) {
    exists n :: 0 <= n < |groups| && IsEmptied(groups[n])
  }

  function StripAll(groups: seq<Group>, own: OwnTest): seq<Group> {
    seq(|groups|, n requires 0 <= n < |groups| => StripGroup(groups[n], own))
  }

  function NotEmptied(groups: seq<Group>): seq<Group> {
    if groups == [] then []
    else NotEmptied(groups[..|groups| - 1]) + if IsEmptied(groups[|groups| - 1]) then [] else [groups[|groups| - 1]]
  }

  /** What is left of an event's groups, and nothing when stripping empties the list. */
  function StripEntry(e: Entry, own: OwnTest): Option<Entry> {
    if e.Groups? && HasOwn(e.groups, own) then
      var kept := NotEmptied(StripAll(e.groups, own));
      if kept == [] then None else Some(Groups(kept))
    else Some(e)
  }

  function Stripped(c: Container, own: OwnTest): Container {
    map k | k in c && StripEntry(c[k], own).Some? :: StripEntry(c[k], own).value
  }

  // ----- installing

  function NewHandler(command: string): Handler {
    Handler(Some(command), "timeout 30")
  }

  function NewGroup(command: string, matcher: Option<string>): Group {
    Group([NewHandler(command)], matcher, "")
  }

  /** The groups of an event, none when it is absent. */
  function GroupsAt(c: Container, k: string): seq<Group> {
    if k in c && c[k].Groups? then c[k].groups else []
  }

  predicate Refuses(c: Container, events: map<string, Option<string>>) {
    exists k :: k in events && k in c && c[k].NotAList?
  }

  function Added(c: Container, command: string, events: map<string, Option<string>>): Container {
    map k | k in c.Keys + events.Keys ::
      if k in events then Groups(GroupsAt(c, k) + [NewGroup(command, events[k])]) else c[k]
  }

  /** The container after an installation, or nothing when a desired event is not a list. */
  function Merged(c: Container, own: OwnTest, command: string, events: map<string, Option<string>>): Option<Container> {
    var s := Stripped(c, own);
    if Refuses(s, events) then None else Some(Added(s, command, events))
  }

  // ----- which handlers are ours

  lemma CountSnoc(hooks: seq<Handler>, last: Handler, h: Handler)
    ensures multiset(hooks + [last])[h] == multiset(hooks)[h] + if last == h then 1 else 0
  {}

  /** Ours are exactly the handlers whose command we own, the others stay; both keep their order and number. */
  lemma {:induction false} OwnExactly(hooks: seq<Handler>, own: OwnTest, h: Handler)
    ensures multiset(Own(hooks, own))[h] == if h.command.Some? && own(h.command.value) then multiset(hooks)[h] else 0
    ensures multiset(Foreign(hooks, own))[h] == if h.command.Some? && own(h.command.value) then 0 else multiset(hooks)[h]
  {
    if hooks != [] {
      var init, last := hooks[..|hooks| - 1], hooks[|hooks| - 1];
      OwnExactly(init, own, h);
      OwnLast(init, last, own);
      assert hooks == init + [last];
      CountSnoc(init, last, h);
      CountSnoc(Own(init, own), last, h);
      CountSnoc(Foreign(init, own), last, h);
      hide Own, Foreign;
    }
  }

  lemma OwnLast(hooks: seq<Handler>, last: Handler, own: OwnTest)
    ensures Own(hooks + [last], own) == if IsOwn(last, own) then Own(hooks, own) + [last] else Own(hooks, own)
    ensures Foreign(hooks + [last], own) == if IsOwn(last, own) then Foreign(hooks, own) else Foreign(hooks, own) + [last]
  {
    assert (hooks + [last])[..|hooks|] == hooks;
  }

  lemma {:induction false} OwnSplit(some: seq<Handler>, more: seq<Handler>, own: OwnTest)
    ensures Own(some + more, own) == Own(some, own) + Own(more, own)
    ensures Foreign(some + more, own) == Foreign(some, own) + Foreign(more, own)
  {
    hide IsOwn;
    if more == [] {
      assert some + more == some;
    } else {
      OwnSplit(some, more[..|more| - 1], own);
      assert (some + more)[..|some + more| - 1] == some + more[..|more| - 1];
    }
  }

  /** What an installation adds: the command alone, with its timeout of thirty seconds, under its matcher if it has one. */
  lemma NewGroupWords(command: string, matcher: Option<string>)
    ensures NewGroup(command, matcher) == Group([Handler(Some(command), "timeout " + "30")], matcher, "")
  {
    assert "timeout " + "30" == "timeout 30";
  }

  // ----- lemmas about lists of groups

  lemma {:induction false} ForeignHasNoOwn(hooks: seq<Handler>, own: OwnTest)
    ensures Own(Foreign(hooks, own), own) == [] && Foreign(Foreign(hooks, own), own) == Foreign(hooks, own)
  {
    if hooks != [] {
      ForeignHasNoOwn(hooks[..|hooks| - 1], own);
      var rest := Foreign(hooks[..|hooks| - 1], own);
      if !IsOwn(hooks[|hooks| - 1], own) {
        assert Foreign(hooks, own)[..|rest|] == rest;
      } else {
        assert Foreign(hooks, own) == rest;
      }
    }
  }

  lemma {:induction false} NoOwnMeansAllForeign(hooks: seq<Handler>, own: OwnTest)
    ensures Own(hooks, own) == [] <==> Foreign(hooks, own) == hooks
    ensures |Own(hooks, own)| + |Foreign(hooks, own)| == |hooks|
  {
    if hooks != [] {
      NoOwnMeansAllForeign(hooks[..|hooks| - 1], own);
      assert hooks == hooks[..|hooks| - 1] + [hooks[|hooks| - 1]];
    }
  }

  lemma StripGroupTwice(g: Group, own: OwnTest)
    ensures !GroupHasOwn(StripGroup(g, own), own) && StripGroup(StripGroup(g, own), own) == StripGroup(g, own)
    ensures !GroupHasOwn(g, own) <==> StripGroup(g, own) == g
  {
    if g.Group? {
      ForeignHasNoOwn(g.hooks, own);
      NoOwnMeansAllForeign(g.hooks, own);
    }
  }

  lemma StripAllAppend(a: seq<Group>, b: seq<Group>, own: OwnTest)
    ensures StripAll(a + b, own) == StripAll(a, own) + StripAll(b, own)
  {
  }

  lemma StripAllIsIdentity(groups: seq<Group>, own: OwnTest)
    ensures !HasOwn(groups, own) <==> StripAll(groups, own) == groups
  {
    hide StripGroup, GroupHasOwn;
    forall n | 0 <= n < |groups| ensures !GroupHasOwn(groups[n], own) <==> StripAll(groups, own)[n] == groups[n] {
      StripGroupTwice(groups[n], own);
    }
    if n :| 0 <= n < |groups| && GroupHasOwn(groups[n], own) {
      assert StripAll(groups, own)[n] != groups[n];
    }
  }

  lemma StripAllTwice(groups: seq<Group>, own: OwnTest)
    ensures !HasOwn(StripAll(groups, own), own)
  {
    hide StripGroup, GroupHasOwn;
    forall n | 0 <= n < |groups| ensures !GroupHasOwn(StripAll(groups, own)[n], own) {
      StripGroupTwice(groups[n], own);
    }
  }

  lemma {:induction false} NotEmptiedAppend(a: seq<Group>, g: Group)
    ensures NotEmptied(a + [g]) == NotEmptied(a) + if IsEmptied(g) then [] else [g]
  {
    assert (a + [g])[..|a|] == a;
  }

  lemma {:induction false} NotEmptiedHas(groups: seq<Group>)
    ensures forall g :: g in NotEmptied(groups) <==> g in groups && !(g.Group? && g.hooks == [])
    ensures |NotEmptied(groups)| <= |groups|
  {
    if groups != [] {
      NotEmptiedHas(groups[..|groups| - 1]);
      assert groups == groups[..|groups| - 1] + [groups[|groups| - 1]];
    }
  }

  lemma {:induction false} ShorterWhenEmptied(groups: seq<Group>)
    requires HasEmpty(groups)
    ensures |NotEmptied(groups)| < |groups|
  {
    var init, last := groups[..|groups| - 1], groups[|groups| - 1];
    if IsEmptied(last) {
      NotEmptiedHas(init);
    } else {
      var n :| 0 <= n < |groups| && IsEmptied(groups[n]);
      assert IsEmptied(init[n]);
      ShorterWhenEmptied(init);
    }
  }

  lemma {:induction false} NotEmptiedIsIdentity(groups: seq<Group>)
    ensures NotEmptied(groups) == groups <==> !HasEmpty(groups)
  {
    if HasEmpty(groups) {
      ShorterWhenEmptied(groups);
    } else if groups != [] {
      var init, last := groups[..|groups| - 1], groups[|groups| - 1];
      forall n | 0 <= n < |init| ensures !IsEmptied(init[n]) {
        assert init[n] == groups[n];
      }
      NotEmptiedIsIdentity(init);
      assert !IsEmptied(last) && groups == init + [last];
    }
  }

  /** The foreign side of an event: groups without our handlers, and without groups left empty. */
  function ForeignGroups(groups: seq<Group>, own: OwnTest): seq<Group> {
    NotEmptied(StripAll(groups, own))
  }

  function OwnHandlers(groups: seq<Group>, own: OwnTest): seq<Handler> {
    if groups == [] then []
    else
      OwnHandlers(groups[..|groups| - 1], own)
      + if groups[|groups| - 1].Group? then Own(groups[|groups| - 1].hooks, own) else []
  }

  lemma {:induction false} NoOwnHandlers(groups: seq<Group>, own: OwnTest)
    requires !HasOwn(groups, own)
    ensures OwnHandlers(groups, own) == []
  {
    if groups != [] {
      var init := groups[..|groups| - 1];
      forall n | 0 <= n < |init| ensures !GroupHasOwn(init[n], own) {
        assert init[n] == groups[n];
      }
      NoOwnHandlers(init, own);
      assert !GroupHasOwn(groups[|groups| - 1], own);
    }
  }

  /** Dropping emptied groups leaves no own handler where there was none. */
  lemma NotEmptiedHasNoOwn(groups: seq<Group>, own: OwnTest)
    requires !HasOwn(groups, own)
    ensures !HasOwn(NotEmptied(groups), own)
  {
    hide GroupHasOwn, IsEmptied;
    NotEmptiedHas(groups);
    forall n | 0 <= n < |NotEmptied(groups)| ensures !GroupHasOwn(NotEmptied(groups)[n], own) {
      var g := NotEmptied(groups)[n];
      assert g in NotEmptied(groups);
      var m :| 0 <= m < |groups| && groups[m] == g;
    }
  }

  /** What stripping leaves at an event has none of our handlers and the same foreign side. */
  lemma StrippedAt(c: Container, own: OwnTest, k: string)
    ensures var gs, s := GroupsAt(c, k), GroupsAt(Stripped(c, own), k);
      && s == (if HasOwn(gs, own) then ForeignGroups(gs, own) else gs)
      && !HasOwn(s, own) && ForeignGroups(s, own) == ForeignGroups(gs, own)
      && (HasEmpty(s) <==> !HasOwn(gs, own) && HasEmpty(gs))
  {
    hide StripAll, HasOwn, HasEmpty, NotEmptied;
    var gs, s := GroupsAt(c, k), GroupsAt(Stripped(c, own), k);
    NothingOwn(own);
    if HasOwn(gs, own) {
      StripAllTwice(gs, own);
      NotEmptiedHasNoOwn(StripAll(gs, own), own);
      StripAllIsIdentity(ForeignGroups(gs, own), own);
      NotEmptiedTwice(StripAll(gs, own));
    }
  }

  lemma NothingOwn(own: OwnTest)
    ensures !HasOwn([], own) && !HasEmpty([]) && NotEmptied([]) == []
  {
  }

  lemma NotEmptiedTwice(groups: seq<Group>)
    ensures !HasEmpty(NotEmptied(groups)) && NotEmptied(NotEmptied(groups)) == NotEmptied(groups)
  {
    NotEmptiedHas(groups);
    forall n | 0 <= n < |NotEmptied(groups)| ensures !IsEmptied(NotEmptied(groups)[n]) {
      assert NotEmptied(groups)[n] in NotEmptied(groups);
    }
    NotEmptiedIsIdentity(NotEmptied(groups));
  }

  lemma NewGroupIsOwn(command: string, matcher: Option<string>, own: OwnTest)
    requires own(command)
    ensures GroupHasOwn(NewGroup(command, matcher), own) && Own(NewGroup(command, matcher).hooks, own) == [NewHandler(command)]
    ensures IsEmptied(StripGroup(NewGroup(command, matcher), own))
  {
    var hooks := [NewHandler(command)];
    assert hooks[..0] == [];
    assert Own(hooks, own) == [NewHandler(command)];
    assert Foreign(hooks, own) == [];
  }

  /** An own group at the end adds one own handler and nothing foreign. */
  lemma WithNewGroup(groups: seq<Group>, command: string, matcher: Option<string>, own: OwnTest)
    requires own(command)
    ensures var all := groups + [NewGroup(command, matcher)];
      && HasOwn(all, own) && ForeignGroups(all, own) == ForeignGroups(groups, own)
      && OwnHandlers(all, own) == OwnHandlers(groups, own) + [NewHandler(command)]
  {
    hide GroupHasOwn, IsEmptied, StripGroup, Own, NewGroup;
    var g := NewGroup(command, matcher);
    var all := groups + [g];
    NewGroupIsGroup(command, matcher);
    NewGroupIsOwn(command, matcher, own);
    assert all[|groups|] == g && all[..|groups|] == groups;
    StripAllAppend(groups, [g], own);
    assert StripAll([g], own) == [StripGroup(g, own)];
    NotEmptiedAppend(StripAll(groups, own), StripGroup(g, own));
  }

  lemma NewGroupIsGroup(command: string, matcher: Option<string>)
    ensures NewGroup(command, matcher).Group?
  {
  }

  // ----- what an installation does

  /** Installing is a reconciliation: at every event our handlers are exactly the desired one, the foreign
      groups keep content and order, and events that were not ours and are not desired stay as they are. */
  lemma InstallIsAReconciliation(c: Container, own: OwnTest, command: string, events: map<string, Option<string>>, k: string)
    requires own(command) && Merged(c, own, command, events).Some?
    ensures var after := Merged(c, own, command, events).value;
      && OwnHandlers(GroupsAt(after, k), own) == (if k in events then [NewHandler(command)] else [])
      && (k in events ==> k in after && after[k].Groups? && after[k].groups[|after[k].groups| - 1] == NewGroup(command, events[k]))
      && ForeignGroups(GroupsAt(after, k), own) == ForeignGroups(GroupsAt(c, k), own)
  {
    hide HasOwn, ForeignGroups, OwnHandlers, Stripped, NewGroup;
    var s := Stripped(c, own);
    StrippedAt(c, own, k);
    NoOwnHandlers(GroupsAt(s, k), own);
    if k in events {
      WithNewGroup(GroupsAt(s, k), command, events[k], own);
    }
  }

  lemma InstallLeavesTheRest(c: Container, own: OwnTest, command: string, events: map<string, Option<string>>, k: string)
    requires Merged(c, own, command, events).Some?
    requires k !in events && !HasOwn(GroupsAt(c, k), own)
    ensures var after := Merged(c, own, command, events).value; (k in after <==> k in c) && (k in c ==> after[k] == c[k])
  {
    hide HasOwn;
  }

  /** A refused installation is one whose desired event holds something else than a list. */
  lemma InstallRefusesExactly(c: Container, own: OwnTest, command: string, events: map<string, Option<string>>)
    ensures Merged(c, own, command, events).None? <==> exists k :: k in events && k in c && c[k].NotAList?
  {
    hide HasOwn, StripAll, NotEmptied;
    forall k ensures k in Stripped(c, own) && Stripped(c, own)[k].NotAList? <==> k in c && c[k].NotAList? {}
    if Refuses(Stripped(c, own), events) {
      var k :| k in events && k in Stripped(c, own) && Stripped(c, own)[k].NotAList?;
      assert k in c && c[k].NotAList?;
    }
    if k :| k in events && k in c && c[k].NotAList? {
      assert k in Stripped(c, own) && Stripped(c, own)[k].NotAList?;
    }
  }

  /** No desired event holds, next to no handler of ours, a group with an empty handler list. */
  predicate Repeatable(c: Container, own: OwnTest, events: map<string, Option<string>>) {
    forall k :: k in events && HasEmpty(GroupsAt(c, k)) ==> HasOwn(GroupsAt(c, k), own)
  }

  lemma MergedAgainAt(c: Container, own: OwnTest, command: string, events: map<string, Option<string>>, k: string)
    requires own(command) && Merged(c, own, command, events).Some? && k in events
    ensures var after := Merged(c, own, command, events).value;
      var again := Stripped(after, own);
      && (k in again ==> again[k].Groups?)
      && (GroupsAt(again, k) + [NewGroup(command, events[k])] == GroupsAt(after, k) <==>
          (HasEmpty(GroupsAt(c, k)) ==> HasOwn(GroupsAt(c, k), own)))
  {
    hide HasOwn, HasEmpty, StripAll, NotEmptied, NewGroup, Stripped;
    var s := Stripped(c, own);
    var g := GroupsAt(s, k);
    var after := Merged(c, own, command, events).value;
    StrippedAt(c, own, k);
    WithNewGroup(g, command, events[k], own);
    StrippedAt(after, own, k);
    StripAllIsIdentity(g, own);
    NotEmptiedIsIdentity(g);
    StrippedKeepsLists(after, own, k);
    SameBefore(GroupsAt(Stripped(after, own), k), g, NewGroup(command, events[k]));
  }

  lemma StrippedKeepsLists(c: Container, own: OwnTest, k: string)
    ensures k in Stripped(c, own) ==> k in c && (Stripped(c, own)[k].Groups? <==> c[k].Groups?)
  {
    hide HasOwn, StripAll, NotEmptied;
  }

  lemma SameBefore(a: seq<Group>, b: seq<Group>, g: Group)
    ensures a + [g] == b + [g] <==> a == b
  {
    assert (a + [g])[..|a + [g]| - 1] == a;
    assert (b + [g])[..|b + [g]| - 1] == b;
  }

  lemma UndesiredAgain(c: Container, own: OwnTest, command: string, events: map<string, Option<string>>, k: string)
    requires Merged(c, own, command, events).Some? && k !in events
    ensures var after := Merged(c, own, command, events).value;
      (k in Stripped(after, own) <==> k in after) && (k in after ==> Stripped(after, own)[k] == after[k])
  {
    hide HasOwn, HasEmpty, StripAll, NotEmptied, ForeignGroups;
    StrippedAt(c, own, k);
  }

  /** Installing twice is installing once exactly when no desired event holds an empty group of its own. */
  lemma InstallTwiceExactly(c: Container, own: OwnTest, command: string, events: map<string, Option<string>>)
    requires own(command) && Merged(c, own, command, events).Some?
    ensures var after := Merged(c, own, command, events).value;
      Merged(after, own, command, events) == Some(after) <==> Repeatable(c, own, events)
  {
    hide HasOwn, HasEmpty, Stripped, NewGroup;
    var after := Merged(c, own, command, events).value;
    var s := Stripped(after, own);
    forall k | k in events
      ensures (k in s ==> s[k].Groups?)
      ensures GroupsAt(s, k) + [NewGroup(command, events[k])] == GroupsAt(after, k) <==> (HasEmpty(GroupsAt(c, k)) ==> HasOwn(GroupsAt(c, k), own))
    {
      MergedAgainAt(c, own, command, events, k);
    }
    var again := Merged(after, own, command, events);
    assert again.Some?;
    forall k ensures k !in events ==> (k in again.value <==> k in after) && (k in after ==> again.value[k] == after[k]) {
      if k !in events {
        UndesiredAgain(c, own, command, events, k);
      }
    }
    if Repeatable(c, own, events) {
      forall k | k in after ensures k in again.value && again.value[k] == after[k] {
        assert k in events ==> after[k] == Groups(GroupsAt(after, k));
        assert k in events ==> again.value[k] == Groups(GroupsAt(s, k) + [NewGroup(command, events[k])]);
      }
      assert again.value.Keys == after.Keys;
      assert again.value == after;
    } else {
      var k :| k in events && HasEmpty(GroupsAt(c, k)) && !HasOwn(GroupsAt(c, k), own);
      assert again.value[k] != after[k];
    }
  }

  /** A foreign group with an empty list survives the first installation and not the second. */
  lemma EmptyForeignGroupIsLost(command: string)
    ensures var own: OwnTest := text => text == command;
      var c: Container := map["Stop" := Groups([Group([], None, "")])];
      var events := map["Stop" := None];
      && Merged(c, own, command, events).Some?
      && Merged(Merged(c, own, command, events).value, own, command, events) != Merged(c, own, command, events)
  {
    hide Stripped, Added;
    var own: OwnTest := text => text == command;
    var c: Container := map["Stop" := Groups([Group([], None, "")])];
    var events := map["Stop" := None];
    InstallRefusesExactly(c, own, command, events);
    assert HasEmpty(GroupsAt(c, "Stop")) by { assert IsEmptied(c["Stop"].groups[0]); }
    assert !HasOwn(GroupsAt(c, "Stop"), own);
    assert !Repeatable(c, own, events);
    InstallTwiceExactly(c, own, command, events);
  }

  // ----- removing an agent's hooks

  function Without(hooks: seq<Handler>, hit: HandlerTest): seq<Handler> {
    if hooks == [] then []
    else Without(hooks[..|hooks| - 1], hit) + if hit(hooks[|hooks| - 1]) then [] else [hooks[|hooks| - 1]]
  }

  /** The handlers of all groups, in order. */
  function HandlersOf(groups: seq<Group>): seq<Handler> {
    if groups == [] then []
    else HandlersOf(groups[..|groups| - 1]) + if groups[|groups| - 1].Group? then groups[|groups| - 1].hooks else []
  }

  lemma {:induction false} WithoutExactly(hooks: seq<Handler>, hit: HandlerTest, h: Handler)
    ensures multiset(Without(hooks, hit))[h] == if hit(h) then 0 else multiset(hooks)[h]
  {
    if hooks != [] {
      var init, last := hooks[..|hooks| - 1], hooks[|hooks| - 1];
      WithoutExactly(init, hit, h);
      assert hooks == init + [last];
      CountSnoc(init, last, h);
      CountSnoc(Without(init, hit), last, h);
    }
  }

  lemma {:induction false} WithoutSplit(some: seq<Handler>, more: seq<Handler>, hit: HandlerTest)
    ensures Without(some + more, hit) == Without(some, hit) + Without(more, hit)
    ensures |Without(some, hit)| == |some| ==> Without(some, hit) == some
    ensures |Without(some, hit)| <= |some|
  {
    WithoutNone(some, hit);
    if more == [] {
      assert some + more == some;
    } else {
      WithoutSplit(some, more[..|more| - 1], hit);
      assert (some + more)[..|some + more| - 1] == some + more[..|more| - 1];
    }
  }

  lemma WithoutLast(hooks: seq<Handler>, last: Handler, hit: HandlerTest)
    ensures Without(hooks + [last], hit) == if hit(last) then Without(hooks, hit) else Without(hooks, hit) + [last]
  {
    assert (hooks + [last])[..|hooks|] == hooks;
  }

  lemma WithoutNothing(hit: HandlerTest)
    ensures Without([], hit) == []
  {}

  lemma {:induction false} WithoutNone(hooks: seq<Handler>, hit: HandlerTest)
    ensures |Without(hooks, hit)| <= |hooks|
    ensures |Without(hooks, hit)| == |hooks| ==> Without(hooks, hit) == hooks
  {
    hide Without;
    if hooks == [] {
      WithoutNothing(hit);
    } else {
      var init, last := hooks[..|hooks| - 1], hooks[|hooks| - 1];
      assert hooks == init + [last];
      WithoutNone(init, hit);
      WithoutLast(init, last, hit);
    }
  }

  /** What a removal leaves of a group: a group that loses its last handler goes. */
  function GroupLeft(g: Group, hit: HandlerTest): seq<Group> {
    if g.Raw? || |Without(g.hooks, hit)| == |g.hooks| then [g]
    else if Without(g.hooks, hit) == [] then []
    else [g.(hooks := Without(g.hooks, hit))]
  }

  predicate Touches(groups: seq<Group>, hit: HandlerTest) {
    exists n :: 0 <= n < |groups| && groups[n].Group? && |Without(groups[n].hooks, hit)| != |groups[n].hooks|
  }

  function GroupsLeft(groups: seq<Group>, hit: HandlerTest): seq<Group> {
    if groups == [] then [] else GroupsLeft(groups[..|groups| - 1], hit) + GroupLeft(groups[|groups| - 1], hit)
  }

  /** A removal takes exactly the handlers that hit; all others stay, in their order. */
  lemma {:induction false} RemovalTakesExactly(groups: seq<Group>, hit: HandlerTest)
    ensures HandlersOf(GroupsLeft(groups, hit)) == Without(HandlersOf(groups), hit)
  {
    if groups != [] {
      var init, last := groups[..|groups| - 1], groups[|groups| - 1];
      RemovalTakesExactly(init, hit);
      var hooks := if last.Group? then last.hooks else [];
      WithoutSplit(HandlersOf(init), hooks, hit);
      WithoutSplit(hooks, [], hit);
      GroupLeftHandlers(GroupsLeft(init, hit), last, hit);
      hide Without, GroupLeft;
    }
  }

  lemma GroupLeftHandlers(before: seq<Group>, g: Group, hit: HandlerTest)
    ensures HandlersOf(before + GroupLeft(g, hit)) == HandlersOf(before) + Without(if g.Group? then g.hooks else [], hit)
  {
    var hooks := if g.Group? then g.hooks else [];
    WithoutNone(hooks, hit);
    var left := GroupLeft(g, hit);
    assert Without([], hit) == [];
    if left == [] {
      assert before + left == before;
      assert HandlersOf(before) + [] == HandlersOf(before);
    } else {
      assert left == [left[0]];
      assert (before + left)[..|before|] == before;
    }
  }

  predicate EntryStays(e: Entry, hit: HandlerTest) {
    e.NotAList? || GroupsLeft(e.groups, hit) != [] || !Touches(e.groups, hit)
  }

  function Removed(c: Container, hit: HandlerTest): Container {
    map k | k in c && EntryStays(c[k], hit) :: if c[k].Groups? then Groups(GroupsLeft(c[k].groups, hit)) else c[k]
  }

  lemma {:induction false} NothingLeftOut(groups: seq<Group>, hit: HandlerTest)
    requires !Touches(groups, hit)
    ensures GroupsLeft(groups, hit) == groups
  {
    hide Without;
    if groups != [] {
      var init, last := groups[..|groups| - 1], groups[|groups| - 1];
      forall n | 0 <= n < |init| && init[n].Group? ensures |Without(init[n].hooks, hit)| == |init[n].hooks| {
        assert groups[n] == init[n];
      }
      NothingLeftOut(init, hit);
      assert groups == init + [last];
    }
  }

  lemma NewGroupLeft(groups: seq<Group>, command: string, matcher: Option<string>, hit: HandlerTest)
    requires hit(NewHandler(command)) && !Touches(groups, hit)
    ensures GroupsLeft(groups + [NewGroup(command, matcher)], hit) == groups
    ensures Touches(groups + [NewGroup(command, matcher)], hit)
  {
    var g := NewGroup(command, matcher);
    var all := groups + [g];
    assert g.hooks[..0] == [];
    assert Without(g.hooks, hit) == [];
    assert all[..|groups|] == groups && all[|groups|] == g;
    NothingLeftOut(groups, hit);
  }

  /** Where nothing of ours was installed, removing what an installation added restores the settings
      exactly when no desired event held an empty list: such an event disappears. */
  lemma RemoveUndoesInstallExactly(
      c: Container, own: OwnTest, command: string, events: map<string, Option<string>>, hit: HandlerTest)
    requires Merged(c, own, command, events).Some? && hit(NewHandler(command))
    requires forall k :: k in c ==> !HasOwn(GroupsAt(c, k), own) && !Touches(GroupsAt(c, k), hit)
    ensures Removed(Merged(c, own, command, events).value, hit) == c <==> forall k :: k in events ==> k !in c || c[k] != Groups([])
  {
    hide HasOwn, Touches, GroupsLeft, NewGroup;
    StripNothing(c, own);
    var after := Added(c, command, events);
    var back := Removed(after, hit);
    forall k ensures k in back <==> (k in c && !(k in events && c[k] == Groups([])))
             ensures k in back ==> k in c && back[k] == c[k]
    {
      if k in events {
        NoneTouched(hit);
        NewGroupLeft(GroupsAt(c, k), command, events[k], hit);
      } else if k in c {
        NothingLeftOut(GroupsAt(c, k), hit);
      }
    }
    if k :| k in events && k in c && c[k] == Groups([]) {
      assert k !in back;
    } else {
      assert back.Keys == c.Keys;
    }
  }

  lemma NoneTouched(hit: HandlerTest)
    ensures !Touches([], hit)
  {
  }

  lemma StripNothing(c: Container, own: OwnTest)
    requires forall k :: k in c ==> !HasOwn(GroupsAt(c, k), own)
    ensures Stripped(c, own) == c
  {
    hide HasOwn;
    forall k | k in c ensures StripEntry(c[k], own) == Some(c[k]) {
      assert !HasOwn(GroupsAt(c, k), own);
    }
  }

  // ----- the settings file

  method StripGroups(groups: seq<Group>, own: OwnTest) returns (left: Option<Entry>)
    ensures left == StripEntry(Groups(groups), own)
  {
    hide GroupHasOwn, StripGroup, IsEmptied;
    var stripped: seq<Group> := [];
    var changed := false;
    for n := 0 to |groups|
      invariant |stripped| == n
      invariant forall k :: 0 <= k < n ==> stripped[k] == StripGroup(groups[k], own)
      invariant changed <==> exists k :: 0 <= k < n && GroupHasOwn(groups[k], own)
    {
      StripGroupTwice(groups[n], own);
      var kept := StripGroup(groups[n], own);
      if kept != groups[n] {
        changed := true;
      }
      stripped := stripped + [kept];
    }
    assert stripped == StripAll(groups, own);
    if !changed {
      return Some(Groups(groups));
    }
    var rest: seq<Group> := [];
    for n := 0 to |stripped|
      invariant rest == NotEmptied(stripped[..n])
    {
      assert stripped[..n + 1][..n] == stripped[..n];
      if !IsEmptied(stripped[n]) {
        rest := rest + [stripped[n]];
      }
    }
    assert stripped[..|stripped|] == stripped;
    left := if rest == [] then None else Some(Groups(rest));
  }

  class Settings {
    var content: Container

    method StripOwnHandlers(own: OwnTest)
      modifies this
      ensures content == Stripped(old(content), own)
    {
      hide StripEntry;
      var todo := content.Keys;
      ghost var before := content;
      while todo != {}
        invariant todo <= before.Keys
        invariant forall k :: k in content <==> k in before && (k in todo || StripEntry(before[k], own).Some?)
        invariant forall k :: k in content ==> content[k] == (if k in todo then before[k] else StripEntry(before[k], own).value)
      {
        var key :| key in todo;
        var left := StripAt(content[key], own);
        if left.Some? {
          content := content[key := left.value];
        } else {
          content := content - {key};
        }
        todo := todo - {key};
      }
      assert content == Stripped(before, own);
    }

    /** The settings are written back only when no desired event is refused. */
    method MergeCommandHooks(own: OwnTest, command: string, events: map<string, Option<string>>) returns (ok: bool)
      modifies this
      ensures ok <==> Merged(old(content), own, command, events).Some?
      ensures content == if ok then Merged(old(content), own, command, events).value else old(content)
    {
      hide Stripped, NewGroup;
      var file := content;
      StripOwnHandlers(own);
      ghost var s := content;
      var todo := events.Keys;
      while todo != {}
        invariant todo <= events.Keys
        invariant forall k :: k in content <==> k in s || k in events.Keys - todo
        invariant forall k :: k in content ==>
          content[k] == (if k in events.Keys - todo then Groups(GroupsAt(s, k) + [NewGroup(command, events[k])]) else s[k])
        invariant forall k :: k in events.Keys - todo && k in s ==> s[k].Groups?
      {
        var event :| event in todo;
        if event in content && content[event].NotAList? {
          content := file;
          return false;
        }
        content := content[event := Groups(GroupsAt(content, event) + [NewGroup(command, events[event])])];
        todo := todo - {event};
      }
      assert content == Added(s, command, events);
      ok := true;
    }

    method RemoveCommandHooks(hit: HandlerTest) returns (removed: bool)
      modifies this
      ensures content == Removed(old(content), hit)
      ensures removed <==> exists k :: k in old(content) && Touches(GroupsAt(old(content), k), hit)
    {
      hide Touches, GroupsLeft;
      removed := false;
      ghost var before := content;
      var todo := content.Keys;
      NoneTouched(hit);
      while todo != {}
        invariant todo <= before.Keys
        invariant forall k :: k in content <==> k in before && (k in todo || EntryStays(before[k], hit))
        invariant forall k :: k in content ==>
          content[k] == (if k in todo || before[k].NotAList? then before[k] else Groups(GroupsLeft(before[k].groups, hit)))
        invariant removed <==> exists k :: k in before.Keys - todo && Touches(GroupsAt(before, k), hit)
      {
        var event :| event in todo;
        assert content[event] == before[event];
        ghost var was := removed;
        if content[event].Groups? {
          var left, touched := RemoveFromGroups(content[event].groups, hit);
          removed := removed || touched;
          if left != [] || !touched {
            content := content[event := Groups(left)];
          } else {
            content := content - {event};
          }
        }
        assert removed <==> was || Touches(GroupsAt(before, event), hit);
        todo := todo - {event};
      }
      assert content == Removed(before, hit);
    }
  }

  method StripAt(e: Entry, own: OwnTest) returns (left: Option<Entry>)
    ensures left == StripEntry(e, own)
  {
    if e.NotAList? {
      return Some(e);
    }
    left := StripGroups(e.groups, own);
  }

  method RemoveFromGroups(groups: seq<Group>, hit: HandlerTest) returns (left: seq<Group>, touched: bool)
    ensures left == GroupsLeft(groups, hit) && (touched <==> Touches(groups, hit))
  {
    hide Without;
    left := [];
    touched := false;
    for n := 0 to |groups|
      invariant left == GroupsLeft(groups[..n], hit)
      invariant touched <==> exists k :: 0 <= k < n && groups[k].Group? && |Without(groups[k].hooks, hit)| != |groups[k].hooks|
    {
      assert groups[..n + 1][..n] == groups[..n];
      var group := groups[n];
      if group.Raw? {
        left := left + [group];
        continue;
      }
      var kept := Without(group.hooks, hit);
      if |kept| == |group.hooks| {
        left := left + [group];
        continue;
      }
      touched := true;
      if kept != [] {
        left := left + [group.(hooks := kept)];
      }
    }
    assert groups[..|groups|] == groups;
  }
}
