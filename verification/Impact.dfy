/**
 The code graph: how a call is resolved to a symbol, and which symbols a change reaches through resolved
 calls taken backwards.
 */
module Impact {
  import opened Basics

  type Id = string

  datatype Symbol = Symbol(id: Id, name: string, qualifiedName: string, mod: string)

  datatype Kind = Calls | Imports

  datatype Edge = Edge(source: Id, target: string, kind: Kind, resolved: bool)

  /** A call in the body of a symbol: the caller, its module, the dotted name called. */
  datatype Call = Call(source: Id, mod: string, called: string)

  /** An import statement of a module, leading dots included. */
  datatype Import = Import(mod: string, name: string)

  /** What the syntax tree of a file holds. */
  datatype Parsed = Parsed(symbols: seq<Symbol>, calls: seq<Call>, imports: seq<Import>)

  /** A source file; nothing is parsed when its text is no valid program. */
  datatype File = File(path: string, modified: int, size: nat, parsed: Option<Parsed>)

  type Symbols = map<Id, Symbol>

  // ----- resolving calls

  /** The part of a dotted name after its last dot. */
  function Short(called: string): string {
    if called == "" then ""
    else if called[|called| - 1] == '.' then ""
    else Short(called[..|called| - 1]) + [called[|called| - 1]]
  }

  /** The short name is what follows the last dot, or the whole name. */
  lemma {:induction false} ShortExactly(called: string, name: string)
    ensures name == Short(called) <==>
      (forall i | 0 <= i < |name| :: name[i] != '.') && (name == called || exists front :: called == front + "." + name)
  {
    if called != "" {
      var init, last := called[..|called| - 1], called[|called| - 1];
      assert called == init + [last];
      if last == '.' {
        assert called == init + "." + "";
        assert name == called ==> name[|name| - 1] == '.';
        forall front | called == front + "." + name ensures name == "" || name[|name| - 1] == '.' {
          assert name != "" ==> called[|called| - 1] == name[|name| - 1];
        }
      } else if name != "" {
        var shorter := name[..|name| - 1];
        assert name == shorter + [name[|name| - 1]];
        ShortExactly(init, shorter);
        if front :| called == front + "." + name {
          assert init == front + "." + shorter && last == name[|name| - 1];
        }
        if front :| init == front + "." + shorter && last == name[|name| - 1] {
          assert called == front + "." + name;
        }
        assert Short(called) == Short(init) + [last];
        assert name == Short(called) ==> shorter == Short(init) by {
          assert (Short(init) + [last])[..|Short(init)|] == Short(init);
        }
      } else {
        forall front: string ensures called != front + "." + name {
          assert |front + "." + name| == |front| + 1 && (front + "." + name)[|front|] == '.';
        }
      }
    }
  }

  function Named(symbols: Symbols, name: string): set<Id> {
    set id | id in symbols && symbols[id].name == name
  }

  function NamedIn(symbols: Symbols, mod: string, name: string): set<Id> {
    set id | id in symbols && symbols[id].name == name && symbols[id].mod == mod
  }

  /** The only symbol of that name in the module, or else the only one anywhere. */
  ghost predicate Means(symbols: Symbols, mod: string, name: string, id: Id) {
    || NamedIn(symbols, mod, name) == {id}
    || (NamedIn(symbols, mod, name) == {} && Named(symbols, name) == {id})
  }

  /** A name means a symbol that has it and is the only one of its module to have it, or else the only one at all. */
  lemma MeansExactly(symbols: Symbols, mod: string, name: string, id: Id)
    ensures Means(symbols, mod, name, id) <==>
      && id in symbols && symbols[id].name == name
      && (|| (symbols[id].mod == mod && forall x :: x in symbols && symbols[x].name == name && symbols[x].mod == mod ==> x == id)
          || (forall x :: x in symbols && symbols[x].name == name ==> x == id && symbols[x].mod != mod))
  {
    if NamedIn(symbols, mod, name) == {id} {
      assert id in NamedIn(symbols, mod, name);
      forall x | x in symbols && symbols[x].name == name && symbols[x].mod == mod ensures x == id {
        assert x in NamedIn(symbols, mod, name);
      }
    }
    if Named(symbols, name) == {id} {
      assert id in Named(symbols, name);
      if NamedIn(symbols, mod, name) == {} {
        forall x | x in symbols && symbols[x].name == name ensures x == id && symbols[x].mod != mod {
          assert x in Named(symbols, name);
          assert x !in NamedIn(symbols, mod, name);
        }
      }
    }
    if id in symbols && symbols[id].name == name && symbols[id].mod == mod
      && forall x :: x in symbols && symbols[x].name == name && symbols[x].mod == mod ==> x == id {
      assert NamedIn(symbols, mod, name) == {id};
    }
    if id in symbols && symbols[id].name == name && forall x :: x in symbols && symbols[x].name == name ==> x == id && symbols[x].mod != mod {
      assert NamedIn(symbols, mod, name) == {} && Named(symbols, name) == {id};
    }
  }

  ghost predicate EdgeFor(symbols: Symbols, call: Call, e: Edge) {
    && e.source == call.source && e.kind == Calls
    && (e.resolved <==> exists id :: Means(symbols, call.mod, Short(call.called), id))
    && (e.resolved ==> Means(symbols, call.mod, Short(call.called), e.target))
    && (!e.resolved ==> e.target == "external:" + call.called)
  }

  // ----- imports

  function WithoutDots(name: string): string {
    if name != "" && name[0] == '.' then WithoutDots(name[1..]) else name
  }

  lemma {:induction false} WithoutDotsExactly(name: string, rest: string)
    ensures rest == WithoutDots(name) <==>
      && |rest| <= |name| && name[|name| - |rest|..] == rest && (rest != "" ==> rest[0] != '.')
      && forall k | 0 <= k < |name| - |rest| :: name[k] == '.'
  {
    if name != "" && name[0] == '.' {
      WithoutDotsExactly(name[1..], rest);
      if |rest| < |name| {
        assert name[1..][|name| - 1 - |rest|..] == name[|name| - |rest|..];
        assert forall k | 1 <= k < |name| - |rest| :: name[k] == name[1..][k - 1];
      } else if |rest| == |name| {
        assert name[0..] == name;
      }
    } else if |rest| <= |name| {
      assert name[0..] == name;
    }
  }

  /** The module itself, or one inside it. */
  predicate Provides(mod: string, name: string) {
    mod == WithoutDots(name) || WithoutDots(name) + "." <= mod
  }

  function Modules(symbols: Symbols): set<string> {
    set id | id in symbols :: symbols[id].mod
  }

  function Providers(symbols: Symbols, name: string): set<string> {
    set m | m in Modules(symbols) && Provides(m, name)
  }

  /** An import leads to some indexed module that provides the name, or to an external one. */
  ghost predicate ImportFor(symbols: Symbols, i: Import, e: Edge) {
    var providers := Providers(symbols, i.name);
    && e.source == "module:" + i.mod && e.kind == Imports
    && (providers != {} ==> e.resolved && exists m :: m in providers && e.target == "module:" + m)
    && (providers == {} ==> e.target == "module:" + "external-module:" + i.name
                            && (e.resolved <==> "external-module:" + i.name in Modules(symbols)))
  }

  lemma OnlyMember<T>(s: set<T>, x: T)
    requires x in s && |s| == 1
    ensures s == {x}
  {
    forall y | y in s ensures y == x {
      if y != x {
        assert {x, y} <= s;
        SubsetSize({x, y}, s);
      }
    }
  }

  /** A name means at most one symbol, and an indexed one. */
  lemma NameMeansOne(symbols: Symbols, mod: string, name: string, a: Id, b: Id)
    requires Means(symbols, mod, name, a) && Means(symbols, mod, name, b)
    ensures a == b && a in symbols
  {
    assert a in NamedIn(symbols, mod, name) + Named(symbols, name);
    assert {a} == {b} ==> a in {b};
  }

  // ----- reachability

  /** `b` calls `a`. */
  predicate CalledBy(edges: seq<Edge>, a: Id, b: Id) {
    exists n :: 0 <= n < |edges| && IsCall(edges[n], a, b)
  }

  predicate IsCall(e: Edge, a: Id, b: Id) {
    e.kind == Calls && e.resolved && e.target == a && e.source == b
  }

  /** A chain of callers from the root: each symbol is called by the next. */
  predicate Chain(edges: seq<Edge>, root: Id, p: seq<Id>) {
    p != [] && p[0] == root && forall n :: 0 <= n < |p| - 1 ==> CalledBy(edges, p[n], p[n + 1])
  }

  /** `x` is reached by a chain of `n` calls. */
  ghost predicate ReachedBy(edges: seq<Edge>, root: Id, x: Id, n: nat) {
    exists p :: Chain(edges, root, p) && |p| == n + 1 && p[n] == x
  }

  /** The length of the shortest chain to `x` is `n`. */
  ghost predicate AtDistance(edges: seq<Edge>, root: Id, x: Id, n: nat) {
    ReachedBy(edges, root, x, n) && forall m: nat :: m < n ==> !ReachedBy(edges, root, x, m)
  }

  function Sources(edges: seq<Edge>): set<Id> {
    set n | 0 <= n < |edges| :: edges[n].source
  }

  function Callers(edges: seq<Edge>, of: set<Id>): set<Id> {
    set a, b | a in of && b in Sources(edges) && CalledBy(edges, a, b) :: b
  }

  lemma CallersHas(edges: seq<Edge>, of: set<Id>, b: Id)
    ensures b in Callers(edges, of) <==> exists a :: a in of && CalledBy(edges, a, b)
  {
    if a :| a in of && CalledBy(edges, a, b) {
      var n :| 0 <= n < |edges| && IsCall(edges[n], a, b);
      assert edges[n].source in Sources(edges);
    }
  }

  /** The symbols within `n` calls of the root. */
  function Within(edges: seq<Edge>, root: Id, n: nat): set<Id> {
    if n == 0 then {root} else Within(edges, root, n - 1) + Callers(edges, Within(edges, root, n - 1))
  }

  lemma {:induction false} WithinGrows(edges: seq<Edge>, root: Id, m: nat, n: nat)
    requires m <= n
    ensures Within(edges, root, m) <= Within(edges, root, n)
  {
    if m < n {
      WithinGrows(edges, root, m, n - 1);
    }
  }

  lemma {:induction false} ReachedIsWithin(edges: seq<Edge>, root: Id, p: seq<Id>)
    requires Chain(edges, root, p)
    ensures p[|p| - 1] in Within(edges, root, |p| - 1)
    decreases |p|
  {
    hide CalledBy, Callers;
    if |p| > 1 {
      var init := p[..|p| - 1];
      ReachedIsWithin(edges, root, init);
      assert CalledBy(edges, p[|p| - 2], p[|p| - 1]);
      CallersHas(edges, Within(edges, root, |p| - 2), p[|p| - 1]);
    }
  }

  lemma {:induction false} WithinIsReached(edges: seq<Edge>, root: Id, x: Id, n: nat) returns (m: nat)
    requires x in Within(edges, root, n)
    ensures m <= n && ReachedBy(edges, root, x, m)
    decreases n
  {
    hide CalledBy, Callers;
    if n == 0 {
      assert Chain(edges, root, [root]);
      m := 0;
    } else if x in Within(edges, root, n - 1) {
      m := WithinIsReached(edges, root, x, n - 1);
    } else {
      CallersHas(edges, Within(edges, root, n - 1), x);
      var a :| a in Within(edges, root, n - 1) && CalledBy(edges, a, x);
      var k := WithinIsReached(edges, root, a, n - 1);
      var p :| Chain(edges, root, p) && |p| == k + 1 && p[k] == a;
      var q := p + [x];
      forall i | 0 <= i < |q| - 1 ensures CalledBy(edges, q[i], q[i + 1]) {
        assert i < |p| - 1 ==> CalledBy(edges, p[i], p[i + 1]);
      }
      assert Chain(edges, root, q) && q[k + 1] == x;
      m := k + 1;
    }
  }

  /** Within reach is the same as having a chain no longer than that. */
  lemma WithinExactly(edges: seq<Edge>, root: Id, x: Id, n: nat)
    ensures x in Within(edges, root, n) <==> exists m: nat :: m <= n && ReachedBy(edges, root, x, m)
  {
    hide Within, Chain;
    if x in Within(edges, root, n) {
      var m := WithinIsReached(edges, root, x, n);
    }
    if m: nat :| m <= n && ReachedBy(edges, root, x, m) {
      var p :| Chain(edges, root, p) && |p| == m + 1 && p[m] == x;
      ReachedIsWithin(edges, root, p);
      WithinGrows(edges, root, m, n);
    }
  }

  lemma LevelIsDistance(edges: seq<Edge>, root: Id, x: Id, n: nat)
    ensures x in Within(edges, root, n + 1) - Within(edges, root, n) <==> AtDistance(edges, root, x, n + 1)
  {
    hide Within, ReachedBy;
    WithinExactly(edges, root, x, n);
    WithinExactly(edges, root, x, n + 1);
  }

  /** Once nothing new is found, nothing new is found further out. */
  lemma {:induction false} WithinSettles(edges: seq<Edge>, root: Id, m: nat, n: nat)
    requires m <= n && Callers(edges, Within(edges, root, m)) <= Within(edges, root, m)
    ensures Within(edges, root, n) == Within(edges, root, m)
    decreases n
  {
    hide Callers;
    if m < n {
      WithinSettles(edges, root, m, n - 1);
    }
  }

  /** The last level of what is within `n`. */
  function Frontier(edges: seq<Edge>, root: Id, n: nat): set<Id> {
    if n == 0 then {root} else Within(edges, root, n) - Within(edges, root, n - 1)
  }

  /** Expanding only the last level finds everything new. */
  lemma FrontierIsEnough(edges: seq<Edge>, root: Id, n: nat)
    ensures var all := Within(edges, root, n); Callers(edges, Frontier(edges, root, n)) - all == Callers(edges, all) - all
  {
    hide Callers, CalledBy;
    var all, frontier := Within(edges, root, n), Frontier(edges, root, n);
    forall x ensures x in Callers(edges, frontier) - all <==> x in Callers(edges, all) - all {
      CallersHas(edges, frontier, x);
      CallersHas(edges, all, x);
      if n > 0 {
        CallersHas(edges, Within(edges, root, n - 1), x);
      }
    }
  }

  lemma {:induction false} WithinIsIndexed(edges: seq<Edge>, symbols: Symbols, root: Id, n: nat)
    requires root in symbols && CallersAreIndexed(edges, symbols)
    ensures Within(edges, root, n) <= symbols.Keys
  {
    if n > 0 {
      WithinIsIndexed(edges, symbols, root, n - 1);
    }
  }

  predicate CallersAreIndexed(edges: seq<Edge>, symbols: Symbols) {
    forall n :: 0 <= n < |edges| && edges[n].kind == Calls ==>
      edges[n].source in symbols && (edges[n].resolved ==> edges[n].target in symbols)
  }

  // ----- the index

  datatype Error = NegativeDepth | NotUnique

  datatype Result<T> = Ok(value: T) | Err(error: Error)

  /** The symbols by distance, and all of them together. */
  datatype Report = Report(root: Id, levels: seq<seq<Symbol>>, affected: set<Id>)

  function Matching(symbols: Symbols, query: string): set<Id> {
    set id | id in symbols && (symbols[id].qualifiedName == query || symbols[id].name == query)
  }

  // ----- the files

  function Stats(files: seq<File>): seq<(string, int, nat)> {
    seq(|files|, n requires 0 <= n < |files| => (files[n].path, files[n].modified, files[n].size))
  }

  function Added(symbols: Symbols, found: seq<Symbol>): Symbols {
    if found == [] then symbols else Added(symbols, found[..|found| - 1])[found[|found| - 1].id := found[|found| - 1]]
  }

  function Last(files: seq<File>): File
    requires files != []
  {
    files[|files| - 1]
  }

  /** The symbols of all files; of two with one id the later one. */
  function SymbolsOf(files: seq<File>): Symbols {
    if files == [] then map[]
    else
      var before := SymbolsOf(files[..|files| - 1]);
      if Last(files).parsed.Some? then Added(before, Last(files).parsed.value.symbols) else before
  }

  function CallsOf(files: seq<File>): seq<Call> {
    if files == [] then []
    else CallsOf(files[..|files| - 1]) + if Last(files).parsed.Some? then Last(files).parsed.value.calls else []
  }

  function ImportsOf(files: seq<File>): seq<Import> {
    if files == [] then []
    else ImportsOf(files[..|files| - 1]) + if Last(files).parsed.Some? then Last(files).parsed.value.imports else []
  }

  function ErrorsOf(files: seq<File>): seq<string> {
    if files == [] then []
    else ErrorsOf(files[..|files| - 1]) + if Last(files).parsed.None? then [Last(files).path] else []
  }

  /** What the syntax tree gives: calls stand in the bodies of the symbols found beside them. */
  predicate CallsStandInSymbols(f: File) {
    f.parsed.Some? ==>
      forall n :: 0 <= n < |f.parsed.value.calls| ==> Declares(f.parsed.value.symbols, f.parsed.value.calls[n].source)
  }

  predicate Declares(found: seq<Symbol>, id: Id) {
    exists m :: 0 <= m < |found| && found[m].id == id
  }

  /** The index of a list of files: all their symbols, one edge for each call and then one for each import. */
  ghost predicate IsIndex(files: seq<File>, symbols: Symbols, edges: seq<Edge>) {
    var calls, imports := CallsOf(files), ImportsOf(files);
    && symbols == SymbolsOf(files) && |edges| == |calls| + |imports|
    && (forall n :: 0 <= n < |calls| ==> EdgeFor(symbols, calls[n], edges[n]))
    && (forall n :: 0 <= n < |imports| ==> ImportFor(symbols, imports[n], edges[|calls| + n]))
  }

  /** A call in the body of `b` whose name means `a`. */
  ghost predicate CallMeans(symbols: Symbols, call: Call, a: Id, b: Id) {
    call.source == b && Means(symbols, call.mod, Short(call.called), a)
  }

  /** In an index one symbol calls another exactly when some call in its body means the other; imports do not matter. */
  lemma CalledExactly(files: seq<File>, symbols: Symbols, edges: seq<Edge>, a: Id, b: Id)
    requires IsIndex(files, symbols, edges)
    ensures CalledBy(edges, a, b) <==> exists n :: 0 <= n < |CallsOf(files)| && CallMeans(symbols, CallsOf(files)[n], a, b)
  {
    hide Means, Short, CallsOf, ImportsOf, SymbolsOf;
    var calls, imports := CallsOf(files), ImportsOf(files);
    forall n | |calls| <= n < |edges| ensures edges[n].kind == Imports {
      assert ImportFor(symbols, imports[n - |calls|], edges[|calls| + (n - |calls|)]);
    }
    if n :| 0 <= n < |edges| && IsCall(edges[n], a, b) {
      assert EdgeFor(symbols, calls[n], edges[n]);
      assert CallMeans(symbols, calls[n], a, b);
    }
    if n :| 0 <= n < |calls| && CallMeans(symbols, calls[n], a, b) {
      assert EdgeFor(symbols, calls[n], edges[n]);
      NameMeansOne(symbols, calls[n].mod, Short(calls[n].called), a, edges[n].target);
      assert 0 <= n < |edges| && IsCall(edges[n], a, b);
      assert CalledBy(edges, a, b);
      assert CallMeans(symbols, CallsOf(files)[n], a, b);
      assert exists k :: 0 <= k < |CallsOf(files)| && CallMeans(symbols, CallsOf(files)[k], a, b);
    }
  }

  /** A module provides a name when it is the module of that name, or lies inside it. */
  lemma ProvidesExactly(mod: string, name: string)
    ensures Provides(mod, name) <==> mod == WithoutDots(name) || exists inner :: mod == WithoutDots(name) + "." + inner
  {
    var front := WithoutDots(name) + ".";
    if front <= mod {
      assert mod == front + mod[|front|..];
    }
  }

  /** Calls and imports that resolve to nothing are marked as external, under the name they were written with. */
  lemma ExternalsAreMarked(symbols: Symbols, call: Call, i: Import, e: Edge, f: Edge)
    requires EdgeFor(symbols, call, e) && ImportFor(symbols, i, f)
    ensures (forall id :: !Means(symbols, call.mod, Short(call.called), id)) ==> e == Edge(call.source, "external:" + call.called, Calls, false)
    ensures (forall m :: m in Modules(symbols) ==> !Provides(m, i.name)) ==>
      && f.source == "module:" + i.mod && f.target == "module:external-module:" + i.name && f.kind == Imports
      && (f.resolved <==> exists id :: id in symbols && symbols[id].mod == "external-module:" + i.name)
    ensures forall m :: m in Modules(symbols) && Provides(m, i.name) ==>
      f.resolved && exists n :: n in Modules(symbols) && Provides(n, i.name) && f == Edge("module:" + i.mod, "module:" + n, Imports, true)
  {
    hide Means, Short, Provides;
    assert "module:" + "external-module:" + i.name == "module:external-module:" + i.name;
    forall m | m in Modules(symbols) && Provides(m, i.name)
      ensures f.resolved && exists n :: n in Modules(symbols) && Provides(n, i.name) && f == Edge("module:" + i.mod, "module:" + n, Imports, true)
    {
      assert m in Providers(symbols, i.name);
    }
  }

  /** No file has changed under the same path, time and size. */
  predicate Unforged(before: seq<File>, after: seq<File>) {
    forall i, j | 0 <= i < |before| && 0 <= j < |after| ::
      before[i].path == after[j].path && before[i].modified == after[j].modified && before[i].size == after[j].size ==> before[i] == after[j]
  }

  lemma SameStatsSameFiles(before: seq<File>, after: seq<File>)
    requires Unforged(before, after) && Stats(before) == Stats(after)
    ensures before == after
  {
    assert |Stats(before)| == |before| && |Stats(after)| == |after|;
    forall n | 0 <= n < |before| ensures before[n] == after[n] {
      assert Stats(before)[n] == Stats(after)[n];
    }
  }

  lemma {:induction false} AddedHas(symbols: Symbols, found: seq<Symbol>)
    ensures forall id :: id in Added(symbols, found) <==> id in symbols || Declares(found, id)
    ensures (forall id :: id in symbols ==> symbols[id].id == id) ==> forall id :: id in Added(symbols, found) ==> Added(symbols, found)[id].id == id
  {
    if found != [] {
      var init, last := found[..|found| - 1], found[|found| - 1];
      AddedHas(symbols, init);
      forall id ensures Declares(found, id) <==> Declares(init, id) || id == last.id {
        if m :| 0 <= m < |init| && init[m].id == id {
          assert found[m].id == id;
        }
        if m :| 0 <= m < |found| && found[m].id == id && m < |init| {
          assert init[m].id == id;
        }
        assert found[|init|] == last;
      }
    }
  }

  /** Every caller is an indexed symbol, under its own id. */
  lemma {:induction false} CallersAreSymbols(files: seq<File>)
    requires forall n | 0 <= n < |files| :: CallsStandInSymbols(files[n])
    ensures forall n | 0 <= n < |CallsOf(files)| :: CallsOf(files)[n].source in SymbolsOf(files)
    ensures forall id :: id in SymbolsOf(files) ==> SymbolsOf(files)[id].id == id
  {
    if files != [] {
      var init := files[..|files| - 1];
      CallersAreSymbols(init);
      if Last(files).parsed.Some? {
        AddedHas(SymbolsOf(init), Last(files).parsed.value.symbols);
        assert CallsStandInSymbols(Last(files));
        hide Added, Declares;
      }
    }
  }

  // ----- what the files hold

  lemma FilesSnoc(files: seq<File>, f: File)
    ensures CallsOf(files + [f]) == CallsOf(files) + CallsOf([f]) && ImportsOf(files + [f]) == ImportsOf(files) + ImportsOf([f])
    ensures ErrorsOf(files + [f]) == ErrorsOf(files) + ErrorsOf([f])
  {
    OneFile(f);
    assert (files + [f])[..|files|] == files;
  }

  lemma NoFiles()
    ensures CallsOf([]) == [] && ImportsOf([]) == [] && ErrorsOf([]) == []
  {}

  /** Calls, imports and errors come from all files, in order: those of the parsed ones, and the paths of the others. */
  lemma {:induction false} FilesSplit(some: seq<File>, more: seq<File>)
    ensures CallsOf(some + more) == CallsOf(some) + CallsOf(more) && ImportsOf(some + more) == ImportsOf(some) + ImportsOf(more)
    ensures ErrorsOf(some + more) == ErrorsOf(some) + ErrorsOf(more)
  {
    hide CallsOf, ImportsOf, ErrorsOf;
    if more == [] {
      NoFiles();
      assert some + more == some;
      assert CallsOf(some) + [] == CallsOf(some) && ImportsOf(some) + [] == ImportsOf(some) && ErrorsOf(some) + [] == ErrorsOf(some);
    } else {
      var init, last := more[..|more| - 1], more[|more| - 1];
      FilesSplit(some, init);
      FilesSnoc(some + init, last);
      FilesSnoc(init, last);
      assert some + more == some + init + [last] && more == init + [last];
      assert CallsOf(some) + CallsOf(init) + CallsOf([last]) == CallsOf(some) + (CallsOf(init) + CallsOf([last]));
      assert ImportsOf(some) + ImportsOf(init) + ImportsOf([last]) == ImportsOf(some) + (ImportsOf(init) + ImportsOf([last]));
      assert ErrorsOf(some) + ErrorsOf(init) + ErrorsOf([last]) == ErrorsOf(some) + (ErrorsOf(init) + ErrorsOf([last]));
    }
  }

  lemma OneFile(f: File)
    ensures CallsOf([f]) == (match f.parsed case Some(p) => p.calls case None => [])
    ensures ImportsOf([f]) == (match f.parsed case Some(p) => p.imports case None => [])
    ensures ErrorsOf([f]) == (match f.parsed case Some(p) => [] case None => [f.path])
    ensures SymbolsOf([f]) == (match f.parsed case Some(p) => Added(map[], p.symbols) case None => map[])
  {
    assert [f][..0] == [];
  }

  lemma {:induction false} AddedTo(symbols: Symbols, found: seq<Symbol>)
    ensures Added(symbols, found) == symbols + Added(map[], found)
  {
    if found != [] {
      AddedTo(symbols, found[..|found| - 1]);
    }
  }

  /** The symbols of a later file take the place of earlier ones of the same id. */
  lemma {:induction false} SymbolsSplit(some: seq<File>, more: seq<File>)
    ensures SymbolsOf(some + more) == SymbolsOf(some) + SymbolsOf(more)
  {
    hide Added;
    if more == [] {
      assert some + more == some;
    } else {
      var init := more[..|more| - 1];
      SymbolsSplit(some, init);
      assert (some + more)[..|some + more| - 1] == some + init;
      assert Last(some + more) == Last(more);
      if Last(more).parsed.Some? {
        var found := Last(more).parsed.value.symbols;
        AddedTo(SymbolsOf(some + init), found);
        AddedTo(SymbolsOf(init), found);
      }
    }
  }

  /** Within a file the last declaration of an id counts. */
  lemma {:induction false} AddedExactly(found: seq<Symbol>, m: nat)
    requires m < |found| && forall k | m < k < |found| :: found[k].id != found[m].id
    ensures found[m].id in Added(map[], found) && Added(map[], found)[found[m].id] == found[m]
    ensures Added(map[], found).Keys == set k | 0 <= k < |found| :: found[k].id
  {
    AddedKeys(found);
    if m < |found| - 1 {
      AddedExactly(found[..|found| - 1], m);
    }
  }

  lemma {:induction false} AddedKeys(found: seq<Symbol>)
    ensures Added(map[], found).Keys == set k | 0 <= k < |found| :: found[k].id
  {
    if found != [] {
      var init := found[..|found| - 1];
      AddedKeys(init);
      assert (set k | 0 <= k < |found| :: found[k].id) == (set k | 0 <= k < |init| :: init[k].id) + {found[|init|].id};
    }
  }

  /** A query that is no id means a symbol when that one alone has it as its name or its qualified name. */
  lemma MatchingExactly(symbols: Symbols, query: string, id: Id)
    ensures Matching(symbols, query) == {id} <==>
      && id in symbols && (symbols[id].name == query || symbols[id].qualifiedName == query)
      && forall x :: x in symbols && (symbols[x].name == query || symbols[x].qualifiedName == query) ==> x == id
  {
    if Matching(symbols, query) == {id} {
      assert id in Matching(symbols, query);
      forall x | x in symbols && (symbols[x].name == query || symbols[x].qualifiedName == query) ensures x == id {
        assert x in Matching(symbols, query);
      }
    }
  }

  class CodeIndex {
    var symbols: Symbols
    var edges: seq<Edge>
    var parseErrors: seq<string>
    var fileCount: nat
    var fingerprint: seq<(string, int, nat)>

    /** The files of the last build that was carried out. */
    ghost var built: seq<File>

    ghost predicate Valid()
      reads this
    {
      && fingerprint == Stats(built) && fileCount == |built| && parseErrors == ErrorsOf(built)
      && IsIndex(built, symbols, edges)
      && (forall id :: id in symbols ==> symbols[id].id == id) && CallersAreIndexed(edges, symbols)
    }

    constructor ()
      ensures Valid() && built == []
    {
      symbols, edges, parseErrors, fileCount, fingerprint, built := map[], [], [], 0, [], [];
    }

    /** Without force an unchanged fingerprint leaves the index as it is, and that is the index of the files as
        long as none changed under the same time and size. */
    method Build(files: seq<File>, force: bool)
      requires Valid() && forall n | 0 <= n < |files| :: CallsStandInSymbols(files[n])
      modifies this
      ensures Valid()
      ensures force || Stats(files) != old(fingerprint) ==> built == files
      ensures !force && Stats(files) == old(fingerprint) ==> unchanged(this)
      ensures force || Unforged(old(built), files) ==> IsIndex(files, symbols, edges)
    {
      hide SymbolsOf, CallsOf, ImportsOf, ErrorsOf, EdgeFor, ImportFor, CallsStandInSymbols, Unforged;
      var current := Stats(files);
      if !force && current == fingerprint {
        if Unforged(built, files) {
          SameStatsSameFiles(built, files);
        }
        return;
      }
      var found, calls, imports, errors := ReadFiles(files);
      CallersAreSymbols(files);
      var linked := Connect(found, calls, imports);
      symbols, edges, parseErrors := found, linked, errors;
      fileCount, fingerprint, built := |files|, current, files;
    }

    method Resolve(query: string) returns (r: Result<Id>)
      requires Valid()
      ensures r.Ok? ==> r.value in symbols
      ensures query in symbols ==> r == Ok(query)
      ensures query !in symbols ==> (r.Ok? <==> |Matching(symbols, query)| == 1) && (r.Ok? ==> Matching(symbols, query) == {r.value})
    {
      if query in symbols {
        return Ok(query);
      }
      var matches := Matching(symbols, query);
      if |matches| != 1 {
        return Err(NotUnique);
      }
      var id :| id in matches;
      OnlyMember(matches, id);
      r := Ok(id);
    }

    /** Level i holds exactly the symbols at distance i + 1; the affected symbols are exactly those other than
        the root that a chain of at most `depth` resolved calls reaches, through cycles or not. */
    method Impact(query: string, depth: int) returns (r: Result<Report>)
      requires Valid()
      ensures r == Err(NegativeDepth) <==> depth < 0
      ensures r == Err(NotUnique) <==> depth >= 0 && query !in symbols && |Matching(symbols, query)| != 1
      ensures r.Ok? ==> var report := r.value;
        && report.root in symbols && |report.levels| <= depth
        && (forall i :: 0 <= i < |report.levels| ==> report.levels[i] != [] && IsLevel(symbols, edges, report.root, report.levels[i], i + 1))
        && (forall x :: x in report.affected <==> x != report.root && exists n: nat :: n <= depth && ReachedBy(edges, report.root, x, n))
        && report.affected <= symbols.Keys
      ensures r.Ok? && |r.value.levels| < depth ==>
        forall x :: x in r.value.affected || x == r.value.root <==> Reached(edges, r.value.root, x)
    {
      hide Within, Callers, ReachedBy, CallersAreIndexed, Explored, IsLevel, Lists;
      if depth < 0 {
        return Err(NegativeDepth);
      }
      var found := Resolve(query);
      if found.Err? {
        return Err(NotUnique);
      }
      var root := found.value;
      var levels: seq<seq<Symbol>> := [];
      var seen, frontier := {root}, {root};
      var done := false;
      ExploreRoot(symbols, edges, root);
      while |levels| < depth && !done
        invariant |levels| <= depth
        invariant Explored(symbols, edges, root, levels, seen)
        invariant !done ==> frontier == Frontier(edges, root, |levels|)
        invariant done ==> Callers(edges, seen) <= seen
        decreases depth - |levels|, !done
      {
        var next := Callers(edges, frontier) - seen;
        NextIsNew(symbols, edges, root, levels, seen, next);
        if next == {} {
          done := true;
        } else {
          var level := Lookup(next);
          ExploreLevel(symbols, edges, root, levels, seen, next, level);
          levels := levels + [level];
          seen := seen + next;
          frontier := next;
        }
      }
      Conclude(symbols, edges, root, levels, seen, depth);
      r := Ok(Report(root, levels, seen - {root}));
    }

    /** The symbols of a set of ids. */
    method Lookup(ids: set<Id>) returns (level: seq<Symbol>)
      requires Valid() && ids <= symbols.Keys
      ensures |level| == |ids| && Lists(symbols, level, ids)
    {
      level := [];
      var todo := ids;
      while todo != {}
        invariant todo <= ids && |level| + |todo| == |ids|
        invariant forall x :: x in ids && x !in todo ==> exists k :: 0 <= k < |level| && level[k] == symbols[x] && level[k].id == x
        invariant forall k :: 0 <= k < |level| ==> level[k].id in ids && level[k].id !in todo
      {
        var id :| id in todo;
        ghost var before := level;
        level := level + [symbols[id]];
        todo := todo - {id};
        assert level[|before|] == symbols[id];
        forall x | x in ids && x !in todo ensures exists k :: 0 <= k < |level| && level[k] == symbols[x] && level[k].id == x {
          if x != id {
            var k :| 0 <= k < |before| && before[k] == symbols[x] && before[k].id == x;
            assert level[k] == before[k];
          }
        }
      }
    }
  }

  ghost predicate Lists(symbols: Symbols, level: seq<Symbol>, ids: set<Id>) {
    forall x :: x in ids <==> x in symbols && exists k :: 0 <= k < |level| && level[k] == symbols[x] && level[k].id == x
  }

  /** A level lists exactly the symbols at a distance. */
  ghost predicate IsLevel(symbols: Symbols, edges: seq<Edge>, root: Id, level: seq<Symbol>, distance: nat) {
    forall x :: AtDistance(edges, root, x, distance) <==> x in symbols && exists k :: 0 <= k < |level| && level[k] == symbols[x] && level[k].id == x
  }

  ghost predicate Reached(edges: seq<Edge>, root: Id, x: Id) {
    exists n: nat :: ReachedBy(edges, root, x, n)
  }

  /** The levels found so far are those up to their number, and everything on them has been seen. */
  ghost predicate Explored(symbols: Symbols, edges: seq<Edge>, root: Id, levels: seq<seq<Symbol>>, seen: set<Id>) {
    && root in symbols && CallersAreIndexed(edges, symbols)
    && seen == Within(edges, root, |levels|)
    && forall i :: 0 <= i < |levels| ==> levels[i] != [] && IsLevel(symbols, edges, root, levels[i], i + 1)
  }

  lemma ExploreRoot(symbols: Symbols, edges: seq<Edge>, root: Id)
    requires root in symbols && CallersAreIndexed(edges, symbols)
    ensures Explored(symbols, edges, root, [], {root})
  {
  }

  lemma NextIsNew(symbols: Symbols, edges: seq<Edge>, root: Id, levels: seq<seq<Symbol>>, seen: set<Id>, next: set<Id>)
    requires Explored(symbols, edges, root, levels, seen)
    requires next == Callers(edges, Frontier(edges, root, |levels|)) - seen
    ensures next == Within(edges, root, |levels| + 1) - seen && next <= symbols.Keys
    ensures next == {} ==> Callers(edges, seen) <= seen
  {
    hide Callers, IsLevel, CallersAreIndexed;
    FrontierIsEnough(edges, root, |levels|);
    WithinIsIndexed(edges, symbols, root, |levels| + 1);
    assert next == Callers(edges, seen) - seen;
    forall x | next == {} && x in Callers(edges, seen) ensures x in seen {
      assert x !in next;
    }
  }

  lemma ExploreLevel(
      symbols: Symbols, edges: seq<Edge>, root: Id, levels: seq<seq<Symbol>>, seen: set<Id>, next: set<Id>, level: seq<Symbol>)
    requires Explored(symbols, edges, root, levels, seen)
    requires next == Within(edges, root, |levels| + 1) - seen && next != {} && next <= symbols.Keys
    requires |level| == |next| && Lists(symbols, level, next)
    ensures Explored(symbols, edges, root, levels + [level], seen + next)
    ensures next == Frontier(edges, root, |levels| + 1)
  {
    hide Within, IsLevel, Lists, CallersAreIndexed;
    LevelOf(symbols, edges, root, level, next, |levels|);
    WithinGrows(edges, root, |levels|, |levels| + 1);
    assert seen + next == Within(edges, root, |levels| + 1);
  }

  lemma Conclude(symbols: Symbols, edges: seq<Edge>, root: Id, levels: seq<seq<Symbol>>, seen: set<Id>, depth: nat)
    requires Explored(symbols, edges, root, levels, seen) && |levels| <= depth
    requires |levels| == depth || Callers(edges, seen) <= seen
    ensures forall i :: 0 <= i < |levels| ==> levels[i] != [] && IsLevel(symbols, edges, root, levels[i], i + 1)
    ensures forall x :: x in seen <==> exists n: nat :: n <= depth && ReachedBy(edges, root, x, n)
    ensures root in seen && seen <= symbols.Keys
    ensures |levels| < depth ==> forall x :: x in seen <==> Reached(edges, root, x)
  {
    hide Within, Callers, ReachedBy, IsLevel, CallersAreIndexed, Reached;
    WithinGrows(edges, root, 0, |levels|);
    RootIsWithin(edges, root);
    WithinIsIndexed(edges, symbols, root, |levels|);
    if |levels| < depth {
      WithinSettles(edges, root, |levels|, depth);
      SettledIsAll(edges, root, |levels|);
    }
    forall x ensures x in seen <==> exists n: nat :: n <= depth && ReachedBy(edges, root, x, n) {
      WithinExactly(edges, root, x, depth);
    }
  }

  lemma RootIsWithin(edges: seq<Edge>, root: Id)
    ensures Within(edges, root, 0) == {root}
  {
  }

  lemma LevelOf(symbols: Symbols, edges: seq<Edge>, root: Id, level: seq<Symbol>, ids: set<Id>, n: nat)
    requires ids == Within(edges, root, n + 1) - Within(edges, root, n) && ids <= symbols.Keys
    requires Lists(symbols, level, ids)
    ensures IsLevel(symbols, edges, root, level, n + 1)
  {
    hide Within, AtDistance;
    forall x ensures AtDistance(edges, root, x, n + 1) <==> x in ids {
      LevelIsDistance(edges, root, x, n);
    }
  }

  /** When a level comes out empty, everything that can be reached has been. */
  lemma SettledIsAll(edges: seq<Edge>, root: Id, n: nat)
    requires Callers(edges, Within(edges, root, n)) <= Within(edges, root, n)
    ensures forall x :: x in Within(edges, root, n) <==> Reached(edges, root, x)
  {
    hide Within, Callers, ReachedBy;
    forall x ensures x in Within(edges, root, n) <==> Reached(edges, root, x) {
      WithinExactly(edges, root, x, n);
      if m: nat :| ReachedBy(edges, root, x, m) {
        WithinExactly(edges, root, x, n + m);
        WithinSettles(edges, root, n, n + m);
      }
    }
  }

  method ResolveCall(symbols: Symbols, call: Call) returns (e: Edge)
    ensures EdgeFor(symbols, call, e) && (e.resolved ==> e.target in symbols)
  {
    var short := Short(call.called);
    var here := NamedIn(symbols, call.mod, short);
    var candidates := if here != {} then here else Named(symbols, short);
    if |candidates| == 1 {
      var id :| id in candidates;
      OnlyMember(candidates, id);
      assert Means(symbols, call.mod, short, id);
      e := Edge(call.source, id, Calls, true);
    } else {
      forall id ensures !Means(symbols, call.mod, short, id) {
        assert here == {id} ==> |here| == 1;
        assert Named(symbols, short) == {id} ==> |Named(symbols, short)| == 1;
      }
      e := Edge(call.source, "external:" + call.called, Calls, false);
    }
  }

  /** Everything the files declare, in order. */
  method ReadFiles(files: seq<File>) returns (symbols: Symbols, calls: seq<Call>, imports: seq<Import>, errors: seq<string>)
    ensures symbols == SymbolsOf(files) && errors == ErrorsOf(files)
    ensures calls == CallsOf(files) && imports == ImportsOf(files)
  {
    symbols, calls, imports, errors := map[], [], [], [];
    for n := 0 to |files|
      invariant symbols == SymbolsOf(files[..n]) && errors == ErrorsOf(files[..n])
      invariant calls == CallsOf(files[..n]) && imports == ImportsOf(files[..n])
    {
      assert files[..n + 1][..n] == files[..n];
      match files[n].parsed {
        case None => errors := errors + [files[n].path];
        case Some(parsed) =>
          symbols := Added(symbols, parsed.symbols);
          calls, imports := calls + parsed.calls, imports + parsed.imports;
      }
    }
    assert files[..|files|] == files;
  }

  /** One edge for each call, then one for each import. */
  method Connect(symbols: Symbols, calls: seq<Call>, imports: seq<Import>) returns (edges: seq<Edge>)
    requires forall n | 0 <= n < |calls| :: calls[n].source in symbols
    ensures |edges| == |calls| + |imports| && CallersAreIndexed(edges, symbols)
    ensures forall n :: 0 <= n < |calls| ==> EdgeFor(symbols, calls[n], edges[n])
    ensures forall n :: 0 <= n < |imports| ==> ImportFor(symbols, imports[n], edges[|calls| + n])
  {
    edges := [];
    for n := 0 to |calls|
      invariant |edges| == n && CallersAreIndexed(edges, symbols)
      invariant forall k :: 0 <= k < n ==> EdgeFor(symbols, calls[k], edges[k])
    {
      var edge := ResolveCall(symbols, calls[n]);
      edges := edges + [edge];
    }
    for n := 0 to |imports|
      invariant |edges| == |calls| + n && CallersAreIndexed(edges, symbols)
      invariant forall k :: 0 <= k < |calls| ==> EdgeFor(symbols, calls[k], edges[k])
      invariant forall k :: 0 <= k < n ==> ImportFor(symbols, imports[k], edges[|calls| + k])
    {
      var edge := ResolveImport(symbols, imports[n]);
      edges := edges + [edge];
    }
  }

  method ResolveImport(symbols: Symbols, i: Import) returns (e: Edge)
    ensures ImportFor(symbols, i, e)
  {
    var modules := Modules(symbols);
    var providers := Providers(symbols, i.name);
    var target := "external-module:" + i.name;
    if providers != {} {
      target :| target in providers;
    }
    e := Edge("module:" + i.mod, "module:" + target, Imports, target in modules);
  }
}
