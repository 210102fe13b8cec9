/**
 Fingerprints of project files through a cache keyed by size and modification time. A path leads, through
 links or directly, to a regular file inside or outside the project; the hash of what is there is given.
 */
module HashCache {
  import opened Basics
  import opened Text

  /** Size and modification time. */
  datatype Stat = Stat(size: nat, mtime: int)

  /** A regular file: its canonical path in the project, its stat and the hash of its content. */
  datatype File = File(canonical: string, stat: Stat, hash: string)

  /** Where a path leads. A look at the stat cannot tell inside from outside. */
  datatype Place = Inside(file: File) | Outside(stat: Stat)

  type World = map<string, Place>

  datatype Entry = Entry(stat: Stat, hash: string)

  type Entries = map<string, Entry>

  function StatOf(p: Place): Stat {
    match p
    case Inside(f) => f.stat
    case Outside(stat) => stat
  }

  // ----- fingerprints

  /** What an uncached look adds: files outside the project are skipped. */
  function Hashed(hashes: map<string, string>, world: World, path: string): map<string, string> {
    if path in world && world[path].Inside? then hashes[world[path].file.canonical := world[path].file.hash] else hashes
  }

  /** The hashes of the selected paths, under their canonical names. */
  function Fingerprint(world: World, paths: seq<string>): map<string, string> {
    if paths == [] then map[] else Hashed(Fingerprint(world, paths[..|paths| - 1]), world, paths[|paths| - 1])
  }

  /** Relative, and without a parent segment: only such a path is looked up in the cache. */
  predicate Plain(path: string) {
    !("/" <= path) && ".." !in Segments(path)
  }

  /** Two dots that fill a segment. */
  predicate ParentAt(path: string, i: nat) {
    && i + 2 <= |path| && path[i] == '.' && path[i + 1] == '.'
    && (i > 0 ==> path[i - 1] == '/') && (i + 2 < |path| ==> path[i + 2] == '/')
  }

  lemma {:induction false} FirstSegment(path: string)
    ensures var first := Segments(path)[0];
      && first <= path && (|first| < |path| ==> path[|first|] == '/') && (forall i | 0 <= i < |first| :: path[i] != '/')
      && Segments(path) == [first] + (if |first| < |path| then Segments(path[|first| + 1..]) else [])
  {
    if path != "" && path[0] != '/' {
      FirstSegment(path[1..]);
      var rest := Segments(path[1..]);
      assert rest == [rest[0]] + rest[1..];
    }
  }

  lemma ParentShift(path: string, n: nat)
    requires 0 < n <= |path| && path[n - 1] == '/'
    ensures forall i: nat :: ParentAt(path[n..], i) <==> ParentAt(path, n + i)
  {
    var rest := path[n..];
    forall i: nat ensures ParentAt(rest, i) <==> ParentAt(path, n + i) {
      assert forall k | 0 <= k < |rest| :: rest[k] == path[n + k];
    }
  }

  lemma ParentInFirst(path: string, first: string)
    requires first <= path && (|first| < |path| ==> path[|first|] == '/') && forall i | 0 <= i < |first| :: path[i] != '/'
    ensures forall i: nat :: i <= |first| && ParentAt(path, i) <==> i == 0 && first == ".."
  {
    forall i: nat ensures i <= |first| && ParentAt(path, i) <==> i == 0 && first == ".." {
      if i <= |first| && ParentAt(path, i) {
        assert i == 0;
        assert |first| == 2;
      }
    }
  }

  lemma {:induction false} ParentsExactly(path: string)
    ensures ".." in Segments(path) <==> exists i: nat :: ParentAt(path, i)
    decreases |path|
  {
    FirstSegment(path);
    var first := Segments(path)[0];
    ParentInFirst(path, first);
    assert first == ".." ==> ParentAt(path, 0);
    if |first| < |path| {
      var n := |first| + 1;
      ParentShift(path, n);
      ParentsExactly(path[n..]);
      hide Segments, ParentAt;
      assert ".." in Segments(path) <==> first == ".." || ".." in Segments(path[n..]);
      if i: nat :| ParentAt(path[n..], i) {
        assert ParentAt(path, n + i);
      }
      if i: nat :| ParentAt(path, i) {
        if i >= n {
          var k: nat := i - n;
          assert ParentAt(path, n + k);
          assert ParentAt(path[n..], k);
        } else {
          assert i <= |first|;
        }
      }
    } else {
      hide Segments;
      if i: nat :| ParentAt(path, i) {
        assert i <= |first|;
      }
    }
  }

  /** Plain paths are those that do not start at the root and nowhere go up. */
  lemma PlainExactly(path: string)
    ensures Plain(path) <==> (path == "" || path[0] != '/') && !exists i: nat :: ParentAt(path, i)
  {
    ParentsExactly(path);
    hide Segments, ParentAt;
    assert "/" <= path <==> path != "" && path[0] == '/';
  }

  /** A plain path with a cached entry of the same stat, wherever it leads. */
  predicate Hit(entries: Entries, world: World, path: string) {
    Plain(path) && path in world && path in entries && entries[path].stat == StatOf(world[path])
  }

  datatype Scan = Scan(hashes: map<string, string>, entries: Entries)

  /** The cache answers before it is asked whether the path leads outside. */
  function Look(s: Scan, world: World, path: string): Scan {
    if Hit(s.entries, world, path) then s.(hashes := s.hashes[path := s.entries[path].hash])
    else if path !in world || world[path].Outside? then s
    else
      var f := world[path].file;
      Scan(s.hashes[f.canonical := f.hash],
           if f.canonical == path then s.entries[path := Entry(f.stat, f.hash)] else s.entries)
  }

  function Scanned(entries: Entries, world: World, paths: seq<string>): Scan {
    if paths == [] then Scan(map[], entries)
    else Look(Scanned(entries, world, paths[..|paths| - 1]), world, paths[|paths| - 1])
  }

  // ----- what the cache relies on

  /** Every cached entry was once a canonical file with that stat and hash. */
  ghost predicate Witnessed(entries: Entries, history: seq<World>) {
    forall path :: path in entries ==> SeenIn(history, path, entries[path])
  }

  predicate SeenIn(history: seq<World>, path: string, e: Entry) {
    exists n :: 0 <= n < |history| && path in history[n] && history[n][path] == Inside(File(path, e.stat, e.hash))
  }

  /** The path was canonical in a world of the history, and still has the size and time it had there. */
  predicate OnceCanonical(past: World, world: World, path: string) {
    path in past && path in world && past[path].Inside? && past[path].file.canonical == path
    && StatOf(past[path]) == StatOf(world[path])
  }

  /** A plain path that was canonical and has kept its size and time is still there, inside, with its content. */
  ghost predicate Honest(history: seq<World>, world: World) {
    forall n, path :: 0 <= n < |history| && Plain(path) && OnceCanonical(history[n], world, path) ==> world[path] == history[n][path]
  }

  lemma {:induction false} ScanIsExact(entries: Entries, history: seq<World>, world: World, paths: seq<string>)
    requires Witnessed(entries, history) && Honest(history, world)
    ensures var s := Scanned(entries, world, paths);
      s.hashes == Fingerprint(world, paths) && Witnessed(s.entries, history + [world])
  {
    hide Plain, Look, Hashed;
    if paths == [] {
      forall path | path in entries ensures SeenIn(history + [world], path, entries[path]) {
        assert SeenIn(history, path, entries[path]);
        var n :| 0 <= n < |history| && path in history[n] && history[n][path] == Inside(File(path, entries[path].stat, entries[path].hash));
        assert (history + [world])[n] == history[n];
      }
    } else {
      var init, path := paths[..|paths| - 1], paths[|paths| - 1];
      ScanIsExact(entries, history, world, init);
      LookIsExact(Scanned(entries, world, init), history, world, path);
    }
  }

  /** What a hit answers is what is there. */
  lemma HitIsTrue(entries: Entries, history: seq<World>, world: World, path: string)
    requires Witnessed(entries, history + [world]) && Honest(history, world) && Hit(entries, world, path)
    ensures world[path] == Inside(File(path, entries[path].stat, entries[path].hash))
  {
    hide Plain;
    var all := history + [world];
    assert SeenIn(all, path, entries[path]);
    var n :| 0 <= n < |all| && path in all[n] && all[n][path] == Inside(File(path, entries[path].stat, entries[path].hash));
    if n < |history| {
      assert all[n] == history[n] && OnceCanonical(history[n], world, path);
    }
  }

  lemma LookIsExact(s: Scan, history: seq<World>, world: World, path: string)
    requires Witnessed(s.entries, history + [world]) && Honest(history, world)
    ensures var t := Look(s, world, path);
      t.hashes == Hashed(s.hashes, world, path) && Witnessed(t.entries, history + [world])
  {
    hide Plain, Honest;
    var t, all := Look(s, world, path), history + [world];
    if Hit(s.entries, world, path) {
      HitIsTrue(s.entries, history, world, path);
    } else if path in world && world[path].Inside? {
      var f := world[path].file;
      if f.canonical == path {
        assert all[|history|] == world;
        assert SeenIn(all, path, Entry(f.stat, f.hash));
      }
      forall other | other in t.entries ensures SeenIn(all, other, t.entries[other]) {
        assert other in s.entries && t.entries[other] == s.entries[other] ==> SeenIn(all, other, s.entries[other]);
      }
    }
  }

  // ----- over a whole history

  /** A fingerprint taken of a world, of some paths. */
  datatype Taken = Taken(world: World, paths: seq<string>)

  function Worlds(taken: seq<Taken>): seq<World> {
    seq(|taken|, n requires 0 <= n < |taken| => taken[n].world)
  }

  /** The entries stored after a history of fingerprints, starting from none. */
  function Stored(taken: seq<Taken>): Entries {
    if taken == [] then map[]
    else Scanned(Stored(taken[..|taken| - 1]), taken[|taken| - 1].world, taken[|taken| - 1].paths).entries
  }

  ghost predicate HonestHistory(taken: seq<Taken>) {
    forall n :: 0 <= n < |taken| ==> Honest(Worlds(taken[..n]), taken[n].world)
  }

  lemma {:induction false} StoredIsWitnessed(taken: seq<Taken>)
    requires HonestHistory(taken)
    ensures Witnessed(Stored(taken), Worlds(taken))
  {
    hide Scanned;
    if taken != [] {
      var init, last := taken[..|taken| - 1], taken[|taken| - 1];
      forall n | 0 <= n < |init| ensures Honest(Worlds(init[..n]), init[n].world) {
        assert init[..n] == taken[..n];
      }
      StoredIsWitnessed(init);
      assert taken[..|taken| - 1] == init;
      ScanIsExact(Stored(init), Worlds(init), last.world, last.paths);
      assert Worlds(taken) == Worlds(init) + [last.world];
    }
  }

  /** As long as no canonical file changes its content, or leaves the project, under the same size and time, a
      cached fingerprint is the uncached one, at any point of any history. */
  lemma CachedFingerprintIsExact(taken: seq<Taken>, world: World, paths: seq<string>)
    requires HonestHistory(taken) && Honest(Worlds(taken), world)
    ensures Scanned(Stored(taken), world, paths).hashes == Fingerprint(world, paths)
  {
    StoredIsWitnessed(taken);
    ScanIsExact(Stored(taken), Worlds(taken), world, paths);
  }

  /** For one path the cached fingerprint is right exactly when the cache misses or its entry still tells the
      truth: the path leads to the file of that name, inside, with that content. */
  lemma CachedHashIsRightExactly(entries: Entries, world: World, path: string)
    ensures Scanned(entries, world, [path]).hashes == Fingerprint(world, [path]) <==>
      (Hit(entries, world, path) ==> world[path] == Inside(File(path, entries[path].stat, entries[path].hash)))
  {
    hide Plain;
    assert [path][..0] == [];
    assert Scanned(entries, world, []) == Scan(map[], entries) && Fingerprint(world, []) == map[];
    var cached, plain := Scanned(entries, world, [path]).hashes, Fingerprint(world, [path]);
    assert plain == Hashed(map[], world, path);
    if Hit(entries, world, path) {
      assert cached == map[path := entries[path].hash];
      if world[path].Inside? {
        assert plain == map[world[path].file.canonical := world[path].file.hash];
        assert cached == plain ==> path in plain && plain[path] == cached[path];
      } else {
        assert plain == map[] && path in cached;
      }
    }
  }

  /** A cached file that is moved out of the project and linked back keeps its size and time: the cache goes on
      answering for it, where an uncached fingerprint skips it. */
  lemma MovedAndLinkedBack(path: string, stat: Stat, hash: string)
    requires Plain(path)
    ensures var before: World := map[path := Inside(File(path, stat, hash))];
      var after: World := map[path := Outside(stat)];
      var taken := [Taken(before, [path])];
      && HonestHistory(taken) && !Honest(Worlds(taken), after)
      && Scanned(Stored(taken), after, [path]).hashes == map[path := hash] && Fingerprint(after, [path]) == map[]
  {
    hide Plain;
    var before: World := map[path := Inside(File(path, stat, hash))];
    var after: World := map[path := Outside(stat)];
    var taken := [Taken(before, [path])];
    assert taken[..0] == [] && [path][..0] == [];
    assert Worlds(taken) == [before] && Worlds([]) == [];
    assert OnceCanonical(Worlds(taken)[0], after, path);
    assert Scanned(map[], before, []) == Scan(map[], map[]);
    assert Stored(taken) == map[path := Entry(stat, hash)];
    assert Scanned(Stored(taken), after, []) == Scan(map[], Stored(taken));
    assert Fingerprint(after, []) == map[];
  }

  // ----- the cache

  class Cache {
    var store: Entries
    var loaded: Option<Entries>
    var updates: Entries

    constructor (store: Entries)
      ensures this.store == store && loaded == None && updates == map[]
    {
      this.store := store;
      loaded := None;
      updates := map[];
    }

    /** The entries as read so far, with everything recorded since. */
    ghost function Contents(): Entries
      reads this
    {
      if loaded.Some? then loaded.value else store
    }

    /** What was recorded is what the cache has beyond the store. */
    ghost predicate Valid()
      reads this
    {
      (loaded.None? ==> updates == map[]) && Contents() == store + updates
    }

    method Lookup(path: string, stat: Stat) returns (hash: Option<string>)
      requires Valid()
      modifies this`loaded
      ensures Valid() && Contents() == old(Contents())
      ensures hash == if path in Contents() && Contents()[path].stat == stat then Some(Contents()[path].hash) else None
    {
      if loaded.None? {
        loaded := Some(store);
      }
      var entries := loaded.value;
      hash := if path in entries && entries[path].stat == stat then Some(entries[path].hash) else None;
    }

    method Record(path: string, stat: Stat, hash: string)
      requires Valid()
      modifies this
      ensures Valid() && Contents() == old(Contents())[path := Entry(stat, hash)]
      ensures updates == old(updates)[path := Entry(stat, hash)]
    {
      if loaded.None? {
        loaded := Some(store);
      }
      loaded := Some(loaded.value[path := Entry(stat, hash)]);
      updates := updates[path := Entry(stat, hash)];
    }

    /** After a flush the store holds exactly what the cache holds, and there is nothing left to write. */
    method Flush()
      requires Valid()
      modifies this`store, this`updates
      ensures Valid() && Contents() == old(Contents()) == store && updates == map[]
    {
      if updates != map[] {
        store := store + updates;
        updates := map[];
      }
    }
  }

  method FingerprintProject(world: World, paths: seq<string>, cache: Cache) returns (hashes: map<string, string>)
    requires cache.Valid()
    modifies cache
    ensures cache.Valid()
    ensures Scan(hashes, cache.Contents()) == Scanned(old(cache.Contents()), world, paths)
  {
    hide Plain;
    hashes := map[];
    for n := 0 to |paths|
      invariant cache.Valid()
      invariant Scan(hashes, cache.Contents()) == Scanned(old(cache.Contents()), world, paths[..n])
    {
      assert paths[..n + 1][..n] == paths[..n];
      var path := paths[n];
      if Plain(path) {
        if path !in world {
          continue;
        }
        var cached := cache.Lookup(path, StatOf(world[path]));
        if cached.Some? {
          hashes := hashes[path := cached.value];
          continue;
        }
      }
      if path !in world || world[path].Outside? {
        continue;
      }
      var f := world[path].file;
      hashes := hashes[f.canonical := f.hash];
      if f.canonical == path {
        cache.Record(path, f.stat, f.hash);
      }
    }
    assert paths[..|paths|] == paths;
  }
}
