/**
 Evidence that an open task is done: how a path named by a task matches a written file, how a command it
 quotes matches a command that was run, and which tool event is reported for which task.
 */
module Detection {
  import opened Basics
  import opened Text

  // ----- paths

  function Slashed(s: string): (t: string)
    ensures |t| == |s|
  {
    seq(|s|, n requires 0 <= n < |s| => if s[n] == '\\' then '/' else s[n])
  }

  /** Paths are compared with forward slashes throughout; a path without a backslash is left as it is. */
  lemma SlashedExactly(s: string, t: string)
    requires |t| == |s|
    ensures t == Slashed(s) <==> forall n | 0 <= n < |s| :: t[n] != '\\' && (s[n] != '\\' ==> t[n] == s[n]) && (s[n] == '\\' ==> t[n] == '/')
  {
  }

  /** `s.lstrip("./")`: every dot and slash at the start. */
  function Undotted(s: string): (t: string)
    ensures |t| <= |s| && (|t| == |s| ==> t == s)
  {
    if s != "" && (s[0] == '.' || s[0] == '/') then Undotted(s[1..]) else s
  }

  lemma {:induction false} UndottedIsEnd(s: string)
    ensures EndsWith(s, Undotted(s))
  {
    if s != "" && (s[0] == '.' || s[0] == '/') {
      UndottedIsEnd(s[1..]);
      var t := Undotted(s[1..]);
      assert s[1..][|s| - 1 - |t|..] == s[|s| - |t|..];
    } else {
      assert s[0..] == s;
    }
  }

  function EntryPath(path: string): string {
    Undotted(FoldText(Slashed(path)))
  }

  function FilePath(file: string): string {
    FoldText(Slashed(file))
  }

  predicate EndsWith(s: string, t: string) {
    |t| <= |s| && s[|s| - |t|..] == t
  }

  predicate PathMatches(path: string, file: string) {
    var entry, event := EntryPath(path), FilePath(file);
    entry != "" && EndsAtSegment(event, entry)
  }

  predicate EndsAtSegment(event: string, entry: string) {
    EndsWith(event, entry)
    && var boundary := |event| - |entry| - 1;
       boundary < 0 || event[boundary] == '/'
  }

  lemma {:induction false} JoinSegments(s: string)
    ensures Join(Segments(s), "/") == s
  {
    if s != "" {
      var rest := Segments(s[1..]);
      JoinSegments(s[1..]);
      if s[0] == '/' {
        assert ([""] + rest)[1..] == rest;
      } else {
        assert ([[s[0]] + rest[0]] + rest[1..])[1..] == rest[1..];
      }
    }
  }

  function Prepend(c: char, rest: seq<string>): seq<string>
    requires rest != []
  {
    if c == '/' then [""] + rest else [[c] + rest[0]] + rest[1..]
  }

  lemma SegmentsStep(s: string)
    requires s != ""
    ensures Segments(s) == Prepend(s[0], Segments(s[1..]))
  {
  }

  lemma PrependAppend(c: char, a: seq<string>, b: seq<string>)
    requires a != []
    ensures Prepend(c, a + b) == Prepend(c, a) + b
  {
    assert (a + b)[1..] == a[1..] + b;
  }

  lemma {:induction false} SegmentsSplit(a: string, b: string)
    ensures Segments(a + "/" + b) == Segments(a) + Segments(b)
  {
    hide Segments, Prepend;
    var s := a + "/" + b;
    SegmentsStep(s);
    if a == "" {
      assert s[1..] == b;
      NoSegments(b);
    } else {
      assert s[1..] == a[1..] + "/" + b;
      SegmentsSplit(a[1..], b);
      SegmentsStep(a);
      PrependAppend(a[0], Segments(a[1..]), Segments(b));
    }
  }

  lemma NoSegments(b: string)
    ensures Segments("") == [""] && Prepend('/', Segments(b)) == [""] + Segments(b)
  {
  }

  lemma {:induction false} JoinAppend(a: seq<string>, b: seq<string>, sep: string)
    requires a != [] && b != []
    ensures Join(a + b, sep) == Join(a, sep) + sep + Join(b, sep)
    decreases |b|
  {
    hide Join;
    if |b| == 1 {
      assert b == [b[0]];
      JoinOne(b[0], sep);
      JoinSnoc(a, sep, b[0]);
    } else {
      var init, last := b[..|b| - 1], b[|b| - 1];
      JoinAppend(a, init, sep);
      JoinSnoc(a + init, sep, last);
      JoinSnoc(init, sep, last);
      assert a + b == (a + init) + [last] && b == init + [last];
    }
  }

  lemma JoinOne(s: string, sep: string)
    ensures Join([s], sep) == s
  {
  }

  predicate SuffixOf<T(==)>(a: seq<T>, b: seq<T>) {
    |a| <= |b| && b[|b| - |a|..] == a
  }

  lemma SuffixOfAppend<T>(a: seq<T>, b: seq<T>)
    ensures SuffixOf(b, a + b)
  {
  }

  lemma EndsAtSegmentAfter(front: string, entry: string)
    ensures EndsAtSegment(front + "/" + entry, entry)
  {
    var event := front + "/" + entry;
    assert event[|event| - |entry|..] == entry && event[|front|] == '/';
  }

  lemma EndsAtSegmentParts(event: string, entry: string) returns (front: string)
    requires EndsAtSegment(event, entry)
    ensures event == entry || event == front + "/" + entry
  {
    var boundary := |event| - |entry| - 1;
    front := if boundary >= 0 then event[..boundary] else "";
    if boundary < 0 {
      assert event[0..] == event;
    } else {
      assert event == event[..boundary] + [event[boundary]] + event[boundary + 1..];
    }
  }

  lemma SuffixOfSegments(event: string, entry: string) returns (front: seq<string>)
    requires SuffixOf(Segments(entry), Segments(event))
    ensures event == entry || (front != [] && event == Join(front, "/") + "/" + entry)
  {
    hide Segments, Join;
    var e, f := Segments(entry), Segments(event);
    JoinSegments(entry);
    JoinSegments(event);
    front := f[..|f| - |e|];
    assert f == front + e;
    if front == [] {
      assert f == e;
    } else {
      JoinAppend(front, e, "/");
    }
  }

  lemma EndsAtSegmentExactly(event: string, entry: string)
    ensures EndsAtSegment(event, entry) <==> SuffixOf(Segments(entry), Segments(event))
  {
    hide *;
    if EndsAtSegment(event, entry) {
      var front := EndsAtSegmentParts(event, entry);
      if event == entry {
        SuffixOfAppend([], Segments(entry));
        assert [] + Segments(entry) == Segments(entry);
      } else {
        SegmentsSplit(front, entry);
        SuffixOfAppend(Segments(front), Segments(entry));
      }
    }
    if SuffixOf(Segments(entry), Segments(event)) {
      var front := SuffixOfSegments(event, entry);
      if event == entry {
        EndsAtItself(entry);
      } else {
        EndsAtSegmentAfter(Join(front, "/"), entry);
      }
    }
  }

  lemma EndsAtItself(entry: string)
    ensures EndsAtSegment(entry, entry)
  {
    assert entry[0..] == entry;
  }

  /** A named path matches a file exactly when its segments are the last segments of the file's. */
  lemma PathMatchesBySegments(path: string, file: string)
    ensures PathMatches(path, file) <==> EntryPath(path) != "" && SuffixOf(Segments(EntryPath(path)), Segments(FilePath(file)))
  {
    hide EndsAtSegment, SuffixOf, Segments, EntryPath, FilePath;
    EndsAtSegmentExactly(FilePath(file), EntryPath(path));
  }

  /** A path matches itself exactly when the dots and slashes taken off its front end at a segment. */
  lemma PathMatchesItselfExactly(path: string)
    ensures var whole, entry := FilePath(path), EntryPath(path);
      PathMatches(path, path) <==> entry != "" && (entry == whole || whole[|whole| - |entry| - 1] == '/')
  {
    hide FoldText, Slashed, Undotted;
    var whole, entry := FilePath(path), EntryPath(path);
    UndottedIsEnd(whole);
    assert |whole| == |entry| ==> whole[0..] == whole;
  }

  /** So a task that names a path with a leading dot, a file or a directory, never has that path as evidence:
      no file whose last segments are the dotted name matches, wherever it lies. */
  lemma DottedNamesNeverMatch(path: string, file: string)
    requires EndsAtSegment(FilePath(file), "." + EntryPath(path))
    ensures !PathMatches(path, file)
  {
    hide FoldText, Slashed, Undotted;
    var entry, event := EntryPath(path), FilePath(file);
    var boundary := |event| - |entry| - 1;
    assert event[boundary..] == "." + entry;
    assert event[boundary] == '.';
  }

  /** `.eslintrc.json` in any directory is a file of that kind. */
  lemma DotfileInDirectory(directory: string, name: string)
    requires name != "" && name[0] != '.' && name[0] != '/' && name[0] != '\\'
    ensures !PathMatches("." + name, directory + "/." + name) && !PathMatches("./." + name, directory + "/." + name)
  {
    hide Undotted;
    var entry := FilePath(name);
    assert FilePath(directory + "/." + name) == FilePath(directory) + "/" + ("." + entry);
    assert FilePath("." + name) == "." + entry && FilePath("./." + name) == "./." + entry;
    UndottedNames(entry);
    EndsAtSegmentAfter(FilePath(directory), "." + entry);
    DottedNamesNeverMatch("." + name, directory + "/." + name);
    DottedNamesNeverMatch("./." + name, directory + "/." + name);
  }

  lemma UndottedFront(s: string)
    requires s != ""
    ensures Undotted(s) == if s[0] == '.' || s[0] == '/' then Undotted(s[1..]) else s
  {
  }

  lemma UndottedDrop(front: string, s: string)
    requires front == "." || front == "/"
    ensures Undotted(front + s) == Undotted(s)
  {
    hide Undotted;
    assert (front + s)[0] == front[0] && (front + s)[1..] == s;
    UndottedFront(front + s);
  }

  lemma UndottedNames(entry: string)
    requires entry != "" && entry[0] != '.' && entry[0] != '/'
    ensures Undotted("." + entry) == entry && Undotted("./." + entry) == entry
  {
    hide Undotted;
    UndottedFront(entry);
    UndottedDrop(".", entry);
    UndottedDrop("/", "." + entry);
    UndottedDrop(".", "/" + ("." + entry));
    assert "./." + entry == "." + ("/" + ("." + entry));
  }

  // ----- commands

  function Flat(s: string): string {
    Join(Words(s), " ")
  }

  predicate CommandMatches(quoted: string, ran: string) {
    var text, command := Flat(ran), Flat(quoted);
    text == command || command + " " <= text
  }

  lemma FlatWords(s: string)
    ensures Words(Flat(s)) == Words(s)
  {
    hide Words, Join, IsWord;
    WordsAreWords(s);
    WordsOfJoin(Words(s));
  }

  /** A quoted command matches exactly when its words are the first words of what was run. */
  lemma CommandMatchesByWords(quoted: string, ran: string)
    requires Words(quoted) != []
    ensures CommandMatches(quoted, ran) <==> Words(quoted) <= Words(ran)
  {
    hide Words, Join;
    var q, r := Words(quoted), Words(ran);
    FlatWords(quoted);
    FlatWords(ran);
    if Flat(quoted) + " " <= Flat(ran) {
      var tail := Flat(ran)[|Flat(quoted)| + 1..];
      SpaceIsSpace();
      WordsSplit(Flat(quoted), ' ', tail);
      assert Flat(ran) == Flat(quoted) + [' '] + tail;
    }
    if q <= r {
      var more := r[|q|..];
      assert r == q + more;
      if more == [] {
        assert r == q;
      } else {
        JoinAppend(q, more, " ");
      }
    }
  }

  // ----- detection

  /** A hook delivery of a tool call, oldest first. */
  datatype Event = Event(seqno: nat, id: string, failed: bool, writes: bool, files: seq<string>, command: string)

  /** A task: its entry, the place and id of the event that admitted it, the paths it names when it asks for
      something to be written, the commands it quotes. */
  datatype Task = Task(entry: string, anchor: Option<(nat, string)>, deletes: bool, paths: seq<string>, commands: seq<string>)

  datatype Evidence = Evidence(event: string, isFile: bool, detail: string)

  datatype Detection = Detection(entry: string, anchor: string, evidence: Evidence)

  predicate Touches(path: string, e: Event) {
    exists n :: 0 <= n < |e.files| && PathMatches(path, e.files[n])
  }

  /** The first detail of a list that fits. */
  function FirstFit(details: seq<string>, fits: string -> bool): Option<string> {
    if details == [] then None else if fits(details[0]) then Some(details[0]) else FirstFit(details[1..], fits)
  }

  /** What one event shows for a task: a written file before a command. */
  function Shows(t: Task, after: nat, e: Event): Option<Evidence> {
    if e.seqno <= after || e.failed then None
    else
      var path := if e.writes then FirstFit(t.paths, p => Touches(p, e)) else None;
      if path.Some? then Some(Evidence(e.id, true, path.value))
      else
        var command := if e.command != "" then FirstFit(t.commands, c => CommandMatches(c, e.command)) else None;
        if command.Some? then Some(Evidence(e.id, false, command.value)) else None
  }

  function FirstEvidence(t: Task, after: nat, events: seq<Event>): Option<Evidence> {
    if events == [] then None
    else if Shows(t, after, events[0]).Some? then Shows(t, after, events[0])
    else FirstEvidence(t, after, events[1..])
  }

  predicate Candidate(t: Task) {
    !t.deletes && t.anchor.Some?
  }

  function Detected(tasks: seq<Task>, events: seq<Event>): seq<Detection> {
    if tasks == [] then []
    else
      var before, t := Detected(tasks[..|tasks| - 1], events), tasks[|tasks| - 1];
      if !Candidate(t) then before
      else
        var evidence := FirstEvidence(t, t.anchor.value.0, events);
        if evidence.None? then before else before + [Detection(t.entry, t.anchor.value.1, evidence.value)]
  }

  /** An event that counts for a task: later than its admission, not a failure, and either a write of a path it
      names or a run of a command it quotes. */
  predicate Supports(t: Task, e: Event, ev: Evidence) {
    && t.anchor.Some? && e.seqno > t.anchor.value.0 && !e.failed && ev.event == e.id
    && (ev.isFile ==> e.writes && ev.detail in t.paths && Touches(ev.detail, e))
    && (!ev.isFile ==> ev.detail in t.commands && e.command != "" && CommandMatches(ev.detail, e.command))
  }

  lemma {:induction false} FirstFitIs(details: seq<string>, fits: string -> bool)
    ensures match FirstFit(details, fits)
      case Some(d) => d in details && fits(d)
      case None => forall d :: d in details ==> !fits(d)
  {
    if details != [] {
      FirstFitIs(details[1..], fits);
      assert details == [details[0]] + details[1..];
    }
  }

  lemma ShowsIs(t: Task, e: Event)
    requires t.anchor.Some?
    ensures match Shows(t, t.anchor.value.0, e)
      case Some(ev) => Supports(t, e, ev)
      case None => forall ev :: !Supports(t, e, ev)
  {
    hide Touches, CommandMatches, FirstFit;
    FirstFitIs(t.paths, p => Touches(p, e));
    FirstFitIs(t.commands, c => CommandMatches(c, e.command));
  }

  /** Some file of the event is what the path names. */
  predicate Wrote(e: Event, path: string) {
    e.writes && exists f | f in e.files :: PathMatches(path, f)
  }

  predicate Ran(e: Event, command: string) {
    e.command != "" && CommandMatches(command, e.command)
  }

  /** The first path of a task that an event wrote, or the first command that it ran. */
  predicate FirstWritten(t: Task, e: Event, path: string) {
    exists k | 0 <= k < |t.paths| :: t.paths[k] == path && Wrote(e, path) && forall j | 0 <= j < k :: !Wrote(e, t.paths[j])
  }

  predicate FirstRan(t: Task, e: Event, command: string) {
    exists k | 0 <= k < |t.commands| :: t.commands[k] == command && Ran(e, command) && forall j | 0 <= j < k :: !Ran(e, t.commands[j])
  }

  lemma {:induction false} FirstFitExactly(details: seq<string>, fits: string -> bool, d: string)
    ensures FirstFit(details, fits) == Some(d) <==>
      exists k :: 0 <= k < |details| && details[k] == d && fits(d) && forall j | 0 <= j < k :: !fits(details[j])
  {
    if details != [] {
      var rest := details[1..];
      FirstFitExactly(rest, fits, d);
      if k :| 0 <= k < |rest| && rest[k] == d && fits(d) && forall j | 0 <= j < k :: !fits(rest[j]) {
        assert details[k + 1] == d;
        assert !fits(details[0]) ==> forall j | 0 <= j < k + 1 :: !fits(details[j]) by {
          assert forall j | 1 <= j < k + 1 :: details[j] == rest[j - 1];
        }
      }
      if k :| 0 <= k < |details| && details[k] == d && fits(d) && forall j | 0 <= j < k :: !fits(details[j]) {
        if k > 0 {
          assert rest[k - 1] == d && forall j | 0 <= j < k - 1 :: rest[j] == details[j + 1];
        } else {
          assert details[0] == d;
        }
      }
    }
  }

  /**
   What one event shows: nothing before the task's admission or after a failure; the first path that it wrote; and only
   when it wrote none of them the first command that it ran.
   */
  lemma ShowsExactly(t: Task, after: nat, e: Event, ev: Evidence)
    ensures Shows(t, after, e) == Some(ev) <==>
      && e.seqno > after && !e.failed && ev.event == e.id
      && (if ev.isFile then FirstWritten(t, e, ev.detail) else FirstRan(t, e, ev.detail) && forall p | p in t.paths :: !Wrote(e, p))
  {
    hide PathMatches, CommandMatches, FirstFit;
    FirstFitExactly(t.paths, p => Touches(p, e), ev.detail);
    FirstFitExactly(t.commands, c => CommandMatches(c, e.command), ev.detail);
    FirstFitIs(t.paths, p => Touches(p, e));
    forall p ensures Wrote(e, p) <==> e.writes && Touches(p, e) {
      if n :| 0 <= n < |e.files| && PathMatches(p, e.files[n]) {
        assert e.files[n] in e.files;
      }
    }
  }

  /** Reports come in the order of the tasks, one at most for each. */
  lemma {:induction false} DetectedSplit(some: seq<Task>, more: seq<Task>, events: seq<Event>)
    ensures Detected(some + more, events) == Detected(some, events) + Detected(more, events)
    ensures |more| == 1 ==> |Detected(more, events)| <= 1
    decreases |more|
  {
    hide FirstEvidence;
    if more == [] {
      assert some + more == some;
    } else {
      var init, last := more[..|more| - 1], more[|more| - 1];
      assert (some + more)[..|some + more| - 1] == some + init && (some + more)[|some + more| - 1] == last;
      DetectedSplit(some, init, events);
    }
  }

  ghost predicate NoneBefore(t: Task, events: seq<Event>, n: nat)
    requires n <= |events|
  {
    forall m, ev :: 0 <= m < n ==> !Supports(t, events[m], ev)
  }

  /** A task is reported exactly when it is not a deletion, its admission is known, and some event after it
      supports it; what is reported is the earliest such event. */
  lemma {:induction false} DetectionIsJustified(tasks: seq<Task>, events: seq<Event>)
    ensures forall d :: d in Detected(tasks, events) <==> exists n :: 0 <= n < |tasks| && Reports(tasks[n], events, d)
  {
    hide FirstEvidence, Reports;
    if tasks != [] {
      var init, t := tasks[..|tasks| - 1], tasks[|tasks| - 1];
      DetectionIsJustified(init, events);
      forall d ensures d in Detected(tasks, events) <==> d in Detected(init, events) || Reports(t, events, d) {
        ReportsIs(t, events, d);
      }
      forall d ensures d in Detected(tasks, events) <==> exists n :: 0 <= n < |tasks| && Reports(tasks[n], events, d) {
        if d in Detected(init, events) {
          var n :| 0 <= n < |init| && Reports(init[n], events, d);
          assert Reports(tasks[n], events, d);
        }
        if n :| 0 <= n < |tasks| && Reports(tasks[n], events, d) {
          assert n < |init| ==> Reports(init[n], events, d);
        }
      }
    }
  }

  /** What the earliest supporting event of a task says. */
  ghost predicate Reports(t: Task, events: seq<Event>, d: Detection) {
    && !t.deletes && t.anchor.Some? && d.entry == t.entry && d.anchor == t.anchor.value.1
    && exists n :: 0 <= n < |events| && Shows(t, t.anchor.value.0, events[n]) == Some(d.evidence)
         && Supports(t, events[n], d.evidence) && NoneBefore(t, events, n)
  }

  lemma {:induction false} FirstShown(t: Task, events: seq<Event>) returns (n: nat)
    requires t.anchor.Some?
    ensures n <= |events| && NoneBefore(t, events, n)
    ensures n < |events| ==> Shows(t, t.anchor.value.0, events[n]).Some? && FirstEvidence(t, t.anchor.value.0, events) == Shows(t, t.anchor.value.0, events[n])
    ensures n == |events| ==> FirstEvidence(t, t.anchor.value.0, events).None?
    decreases |events|
  {
    hide Shows, Supports;
    if events == [] {
      n := 0;
    } else {
      ShowsIs(t, events[0]);
      if Shows(t, t.anchor.value.0, events[0]).Some? {
        n := 0;
      } else {
        var m := FirstShown(t, events[1..]);
        if m < |events[1..]| {
          assert events[1..][m] == events[m + 1];
        }
        NoneBeforeNext(t, events, m);
        n := m + 1;
      }
    }
  }

  lemma NoneBeforeNext(t: Task, events: seq<Event>, m: nat)
    requires events != [] && m <= |events| - 1 && (forall ev :: !Supports(t, events[0], ev)) && NoneBefore(t, events[1..], m)
    ensures NoneBefore(t, events, m + 1)
  {
    hide Supports;
    forall k, ev | 0 <= k < m + 1 ensures !Supports(t, events[k], ev) {
      if k > 0 {
        assert events[k] == events[1..][k - 1];
      }
    }
  }

  lemma ReportsIs(t: Task, events: seq<Event>, d: Detection)
    ensures Reports(t, events, d) <==>
      Candidate(t) && d.entry == t.entry && d.anchor == t.anchor.value.1
      && FirstEvidence(t, t.anchor.value.0, events) == Some(d.evidence)
  {
    hide FirstEvidence, Shows, Supports, NoneBefore;
    if Candidate(t) {
      var n := FirstShown(t, events);
      if n < |events| {
        ShowsIs(t, events[n]);
      }
      forall m | 0 <= m < |events| && NoneBefore(t, events, m) && Shows(t, t.anchor.value.0, events[m]).Some? ensures m == n {
        ShowsIs(t, events[m]);
        NoneBeforeIs(t, events, n);
        NoneBeforeIs(t, events, m);
      }
    }
  }

  lemma NoneBeforeIs(t: Task, events: seq<Event>, n: nat)
    requires n <= |events| && NoneBefore(t, events, n)
    ensures forall m, ev :: 0 <= m < n ==> !Supports(t, events[m], ev)
  {
  }

  // ----- the scan

  /** The events after a point of the log. */
  function After(events: seq<Event>, low: nat): seq<Event> {
    if events == [] then []
    else (if events[0].seqno > low then [events[0]] else []) + After(events[1..], low)
  }

  lemma {:induction false} EarlierEventsDoNotMatter(t: Task, after: nat, events: seq<Event>, low: nat)
    requires low <= after
    ensures FirstEvidence(t, after, After(events, low)) == FirstEvidence(t, after, events)
  {
    hide Touches, CommandMatches, FirstFit;
    if events != [] {
      EarlierEventsDoNotMatter(t, after, events[1..], low);
      if events[0].seqno > low {
        var rest := After(events[1..], low);
        assert ([events[0]] + rest)[1..] == rest;
      } else {
        assert After(events, low) == After(events[1..], low);
      }
    }
  }

  method ScanTask(t: Task, after: nat, events: seq<Event>) returns (evidence: Option<Evidence>)
    ensures evidence == FirstEvidence(t, after, events)
  {
    hide PathMatches, CommandMatches, Touches;
    for n := 0 to |events|
      invariant FirstEvidence(t, after, events) == FirstEvidence(t, after, events[n..])
    {
      var e := events[n];
      assert events[n..][0] == e && events[n..][1..] == events[n + 1..];
      if e.seqno <= after || e.failed {
        continue;
      }
      if t.paths != [] && e.writes {
        var path := FindFit(t.paths, p => Touches(p, e));
        if path.Some? {
          return Some(Evidence(e.id, true, path.value));
        }
      }
      if t.commands != [] && e.command != "" {
        var command := FindFit(t.commands, c => CommandMatches(c, e.command));
        if command.Some? {
          return Some(Evidence(e.id, false, command.value));
        }
      }
    }
    evidence := None;
  }

  method FindFit(details: seq<string>, fits: string -> bool) returns (found: Option<string>)
    ensures found == FirstFit(details, fits)
  {
    for n := 0 to |details|
      invariant FirstFit(details, fits) == FirstFit(details[n..], fits)
    {
      assert details[n..][0] == details[n] && details[n..][1..] == details[n + 1..];
      if fits(details[n]) {
        return Some(details[n]);
      }
    }
    found := None;
  }

  /** The scan reads only the events after the earliest admission of a candidate. */
  method DetectCompletions(tasks: seq<Task>, events: seq<Event>) returns (detections: seq<Detection>)
    ensures detections == Detected(tasks, events)
  {
    hide FirstEvidence, After;
    var low: nat, any := 0, false;
    for n := 0 to |tasks|
      invariant forall k :: 0 <= k < n && Candidate(tasks[k]) ==> any && low <= tasks[k].anchor.value.0
      invariant any ==> exists k :: 0 <= k < n && Candidate(tasks[k])
    {
      if Candidate(tasks[n]) && (!any || tasks[n].anchor.value.0 < low) {
        low, any := tasks[n].anchor.value.0, true;
      }
    }
    var recent := After(events, low);
    detections := [];
    for n := 0 to |tasks|
      invariant detections == Detected(tasks[..n], events)
    {
      assert tasks[..n + 1][..n] == tasks[..n];
      if Candidate(tasks[n]) {
        var after := tasks[n].anchor.value.0;
        EarlierEventsDoNotMatter(tasks[n], after, events, low);
        var evidence := ScanTask(tasks[n], after, recent);
        if evidence.Some? {
          detections := detections + [Detection(tasks[n].entry, tasks[n].anchor.value.1, evidence.value)];
        }
      }
    }
    assert tasks[..|tasks|] == tasks;
  }
}
