/**
 The retry ledger of failed projections: an append-only log in which each target has numbered failure
 episodes, at most one of them open.
 */
module Episodes {
  import Decimal

  datatype Target = Target(system: string, kind: string, id: string)

  datatype Entry = Failure(key: string, target: Target, error: string) | Recovery(key: string, target: Target)

  /** A receipt per episode and direction: each event is appended once. */
  datatype Receipt = FailureReceipt(key: string) | RecoveryReceipt(key: string)

  datatype State = State(log: seq<Entry>, receipts: set<Receipt>, errors: seq<string>)

  function Base(t: Target): string {
    t.system + ":" + t.kind + ":" + t.id
  }

  /** Key of the n-th episode of a base, counting from one. */
  function Episode(base: string, n: nat): string {
    if n <= 1 then base else base + "#" + Decimal.Of(n)
  }

  predicate Belongs(key: string, base: string) {
    key == base || base + "#" <= key
  }

  function FailureKeys(log: seq<Entry>, base: string): seq<string> {
    if log == [] then []
    else
      var init, last := log[..|log| - 1], log[|log| - 1];
      FailureKeys(init, base) + if last.Failure? && Belongs(last.key, base) then [last.key] else []
  }

  function Recovered(log: seq<Entry>): set<string> {
    set e | e in log && e.Recovery? :: e.key
  }

  function Unrecovered(keys: seq<string>, recovered: set<string>): seq<string> {
    if keys == [] then []
    else
      var init, last := keys[..|keys| - 1], keys[|keys| - 1];
      Unrecovered(init, recovered) + if last !in recovered then [last] else []
  }

  /** The key a failure is recorded under: the open episode's, or the next one. */
  function EpisodeKey(log: seq<Entry>, base: string): string {
    var keys := FailureKeys(log, base);
    var pending := Unrecovered(keys, Recovered(log));
    if pending != [] then pending[|pending| - 1]
    else
      var generations := |set k | k in keys|;
      if generations == 0 then base else base + "#" + Decimal.Of(generations + 1)
  }

  function AppendOnce(s: State, receipt: Receipt, e: Entry): State {
    if receipt in s.receipts then s else s.(log := s.log + [e], receipts := s.receipts + {receipt})
  }

  function Noted(s: State, message: string): State {
    if message in s.errors then s else s.(errors := s.errors + [message])
  }

  function Record(s: State, t: Target, error: string): State {
    var key := EpisodeKey(s.log, Base(t));
    Noted(AppendOnce(s, FailureReceipt(key), Failure(key, t, error)), t.system + ": " + error)
  }

  function Recover(s: State, failure: Entry): State {
    AppendOnce(s, RecoveryReceipt(failure.key), Recovery(failure.key, failure.target))
  }

  /** The failures not yet recovered, oldest first. */
  function Pending(log: seq<Entry>, recovered: set<string>): seq<Entry> {
    if log == [] then []
    else
      var init, last := log[..|log| - 1], log[|log| - 1];
      Pending(init, recovered) + if last.Failure? && last.key !in recovered then [last] else []
  }

  function PendingOf(s: State): seq<Entry> {
    Pending(s.log, Recovered(s.log))
  }

  /** One attempt to repeat a projection. */
  datatype Attempt = Repaired | NotRepaired | Raised(message: string)

  function RetryOne(s: State, failure: Entry, attempt: Entry -> Attempt): State {
    match attempt(failure)
    case Repaired => Recover(s, failure)
    case NotRepaired => s
    case Raised(message) => Noted(s, failure.target.system + ": " + message)
  }

  function RetryAll(s: State, failures: seq<Entry>, attempt: Entry -> Attempt): State
    decreases |failures|
  {
    if failures == [] then s else RetryAll(RetryOne(s, failures[0], attempt), failures[1..], attempt)
  }

  function Retry(s: State, attempt: Entry -> Attempt): State {
    RetryAll(s, PendingOf(s), attempt)
  }

  function Failed(failures: seq<Entry>, attempt: Entry -> Attempt): seq<Entry> {
    if failures == [] then []
    else (if attempt(failures[0]).Repaired? then [] else [failures[0]]) + Failed(failures[1..], attempt)
  }

  // ----- keys of different targets

  /** No base is another one followed by '#': the keys of one target are never taken for another's. */
  predicate Independent(bases: set<string>) {
    forall a, b | a in bases && b in bases && a != b :: !(a + "#" <= b)
  }

  lemma EpisodeBelongs(base: string, n: nat)
    ensures Belongs(Episode(base, n), base)
  {}

  lemma PrefixOfPrefix(p: string, q: string, s: string)
    requires p <= s && q <= s && |p| <= |q|
    ensures p <= q
  {}

  /** A key that belongs to two bases shows that one of them extends the other by '#'. */
  lemma SharedKey(a: string, b: string, n: nat)
    requires Belongs(Episode(b, n), a)
    ensures a == b || a + "#" <= b || b + "#" <= a
  {
    var key := Episode(b, n);
    if n > 1 {
      assert key == (b + "#") + Decimal.Of(n);
      assert b <= key && b + "#" <= key;
      if key != a {
        assert a <= key by {
          assert a <= a + "#";
        }
        if |a| < |b| {
          PrefixOfPrefix(a + "#", b, key);
        } else if |a| == |b| {
          PrefixOfPrefix(a, b, key);
        } else {
          PrefixOfPrefix(b + "#", a, key);
        }
      }
    }
  }

  lemma OwnKeysOnly(bases: set<string>, a: string, b: string, n: nat)
    requires Independent(bases) && a in bases && b in bases && a != b
    ensures !Belongs(Episode(b, n), a)
  {
    if Belongs(Episode(b, n), a) {
      SharedKey(a, b, n);
    }
  }

  lemma EpisodesDiffer(base: string, m: nat, n: nat)
    requires 1 <= m < n
    ensures Episode(base, m) != Episode(base, n)
  {
    if m == 1 {
      assert |Episode(base, n)| > |base|;
    } else if Episode(base, m) == Episode(base, n) {
      assert Episode(base, m)[|base| + 1..] == Decimal.Of(m);
      assert Episode(base, n)[|base| + 1..] == Decimal.Of(n);
      Decimal.Injective(m, n);
    }
  }

  predicate NoColon(s: string) {
    forall i | 0 <= i < |s| :: s[i] != ':'
  }

  lemma SameFront(a: string, b: string, x: string, y: string)
    requires NoColon(a) && NoColon(b) && a + ":" + x == b + ":" + y
    ensures a == b && x == y
  {
    var s := a + ":" + x;
    assert s[|a|] == ':' && s[|b|] == ':';
    assert (forall i | 0 <= i < |a| :: s[i] == a[i]) && (forall i | 0 <= i < |b| :: s[i] == b[i]);
    assert |a| == |b|;
    assert a == s[..|a|] && b == s[..|b|] && x == s[|a| + 1..] && y == s[|b| + 1..];
  }

  /** Different targets have different bases, as systems and kinds hold no colon; ids may. */
  lemma BasesDiffer(t: Target, u: Target)
    requires NoColon(t.system) && NoColon(t.kind) && NoColon(u.system) && NoColon(u.kind)
    ensures Base(t) == Base(u) <==> t == u
  {
    if Base(t) == Base(u) {
      assert Base(t) == t.system + ":" + (t.kind + ":" + t.id) && Base(u) == u.system + ":" + (u.kind + ":" + u.id);
      SameFront(t.system, u.system, t.kind + ":" + t.id, u.kind + ":" + u.id);
      SameFront(t.kind, u.kind, t.id, u.id);
    }
  }

  predicate NoRepeats(messages: seq<string>) {
    forall i, j | 0 <= i < j < |messages| :: messages[i] != messages[j]
  }

  /** A failure, and an attempt that raises, leaves its message once, after the earlier ones. */
  lemma MessagesAreKeptOnce(s: State, t: Target, error: string, failure: Entry, attempt: Entry -> Attempt)
    requires NoRepeats(s.errors)
    ensures var u := Record(s, t, error);
      && NoRepeats(u.errors) && s.errors <= u.errors
      && (forall m :: m in u.errors <==> m in s.errors || m == t.system + ": " + error)
    ensures var u, a := RetryOne(s, failure, attempt), attempt(failure);
      && NoRepeats(u.errors) && s.errors <= u.errors
      && (forall m :: m in u.errors <==> m in s.errors || (a.Raised? && m == failure.target.system + ": " + a.message))
  {
    hide EpisodeKey;
  }

  // ----- the ledger invariant

  /** The first `n` episode keys of a base. */
  function Episodes(base: string, n: nat): (keys: seq<string>)
    ensures |keys| == n
  {
    seq(n, i requires 0 <= i < n => Episode(base, i + 1))
  }

  /** The target's failures are episodes 1 to n in order, and all but the last are recovered. */
  predicate Numbered(log: seq<Entry>, base: string, n: nat) {
    && FailureKeys(log, base) == Episodes(base, n)
    && (forall i | 1 <= i < n :: Episode(base, i) in Recovered(log))
  }

  function Count(log: seq<Entry>, base: string): nat {
    |FailureKeys(log, base)|
  }

  function Failures(log: seq<Entry>): set<string> {
    set e | e in log && e.Failure? :: e.key
  }

  predicate AllNumbered(log: seq<Entry>, bases: set<string>) {
    forall base | base in bases :: Numbered(log, base, Count(log, base))
  }

  predicate Owned(log: seq<Entry>, bases: set<string>) {
    forall e | e in log && e.Failure? :: Base(e.target) in bases && Belongs(e.key, Base(e.target))
  }

  /** A receipt exists for exactly the events of the log, and only failures were recovered. */
  ghost predicate Receipted(s: State) {
    && (forall key :: FailureReceipt(key) in s.receipts <==> key in Failures(s.log))
    && (forall key :: RecoveryReceipt(key) in s.receipts <==> key in Recovered(s.log))
    && Recovered(s.log) <= Failures(s.log)
  }

  predicate DistinctKeys(log: seq<Entry>) {
    forall i, j | 0 <= i < j < |log| && log[i].Failure? && log[j].Failure? :: log[i].key != log[j].key
  }

  ghost predicate Ledger(s: State, bases: set<string>) {
    Independent(bases) && AllNumbered(s.log, bases) && Owned(s.log, bases) && Receipted(s) && DistinctKeys(s.log)
  }

  lemma {:induction false} FailureKeysAreFailures(log: seq<Entry>, base: string)
    ensures forall k :: k in FailureKeys(log, base) <==> k in Failures(log) && Belongs(k, base)
  {
    if log != [] {
      var init, last := log[..|log| - 1], log[|log| - 1];
      FailureKeysAreFailures(init, base);
      assert log == init + [last];
    }
  }

  lemma EpisodesDistinct(base: string, n: nat)
    ensures forall i, j | 0 <= i < j < n :: Episodes(base, n)[i] != Episodes(base, n)[j]
  {
    forall i, j | 0 <= i < j < n ensures Episodes(base, n)[i] != Episodes(base, n)[j] {
      EpisodesDiffer(base, i + 1, j + 1);
    }
  }

  lemma {:induction false} DistinctCount(keys: seq<string>)
    requires forall i, j | 0 <= i < j < |keys| :: keys[i] != keys[j]
    ensures |set k | k in keys| == |keys|
  {
    if keys != [] {
      var init, last := keys[..|keys| - 1], keys[|keys| - 1];
      DistinctCount(init);
      assert keys == init + [last];
      assert (set k | k in keys) == (set k | k in init) + {last};
    }
  }

  lemma {:induction false} UnrecoveredLast(keys: seq<string>, recovered: set<string>)
    requires forall i | 0 <= i < |keys| - 1 :: keys[i] in recovered
    ensures Unrecovered(keys, recovered) == if keys != [] && keys[|keys| - 1] !in recovered then [keys[|keys| - 1]] else []
  {
    if keys != [] {
      UnrecoveredLast(keys[..|keys| - 1], recovered);
    }
  }

  /** Of several open keys a failure joins the one that was opened last. */
  lemma {:induction false} LastOpenIsJoined(log: seq<Entry>, base: string, n: nat)
    requires n < |FailureKeys(log, base)| && FailureKeys(log, base)[n] !in Recovered(log)
    requires forall i | n < i < |FailureKeys(log, base)| :: FailureKeys(log, base)[i] in Recovered(log)
    ensures EpisodeKey(log, base) == FailureKeys(log, base)[n]
  {
    hide FailureKeys, Recovered;
    LastUnrecovered(FailureKeys(log, base), Recovered(log), n);
  }

  lemma {:induction false} LastUnrecovered(keys: seq<string>, recovered: set<string>, n: nat)
    requires n < |keys| && keys[n] !in recovered && forall i | n < i < |keys| :: keys[i] in recovered
    ensures Unrecovered(keys, recovered) != [] && Unrecovered(keys, recovered)[|Unrecovered(keys, recovered)| - 1] == keys[n]
  {
    if n < |keys| - 1 {
      LastUnrecovered(keys[..|keys| - 1], recovered, n);
    }
  }

  /** Which key a failure gets: the open episode's, otherwise the next number. */
  lemma EpisodeKeyIs(log: seq<Entry>, base: string, n: nat)
    requires Numbered(log, base, n)
    ensures EpisodeKey(log, base) == if n > 0 && Episode(base, n) !in Recovered(log) then Episode(base, n) else Episode(base, n + 1)
  {
    hide FailureKeys, Recovered;
    var keys := FailureKeys(log, base);
    forall i | 0 <= i < |keys| - 1 ensures keys[i] in Recovered(log) {
      assert keys[i] == Episode(base, i + 1);
    }
    UnrecoveredLast(keys, Recovered(log));
    EpisodesDistinct(base, n);
    DistinctCount(keys);
  }

  lemma NumberIsNew(base: string, n: nat)
    ensures Episode(base, n + 1) !in Episodes(base, n)
  {
    hide Episode;
    forall i | 0 <= i < n ensures Episodes(base, n)[i] != Episode(base, n + 1) {
      EpisodesDiffer(base, i + 1, n + 1);
    }
  }

  /** A new episode key was never used. */
  lemma NextKeyIsFresh(s: State, bases: set<string>, base: string)
    requires Ledger(s, bases) && base in bases
    ensures Episode(base, Count(s.log, base) + 1) !in Failures(s.log)
  {
    var n := Count(s.log, base);
    assert Numbered(s.log, base, n);
    hide FailureKeys, Recovered, Failures, Ledger, Belongs, Episode, Episodes;
    FailureKeysAreFailures(s.log, base);
    EpisodeBelongs(base, n + 1);
    NumberIsNew(base, n);
  }

  lemma Initially(bases: set<string>)
    requires Independent(bases)
    ensures Ledger(State([], {}, []), bases)
  {
    forall base | base in bases ensures Numbered([], base, 0) {
      assert Episodes(base, 0) == [];
    }
  }

  // ----- one failure

  lemma AppendedSets(log: seq<Entry>, e: Entry)
    ensures Failures(log + [e]) == if e.Failure? then Failures(log) + {e.key} else Failures(log)
    ensures Recovered(log + [e]) == if e.Recovery? then Recovered(log) + {e.key} else Recovered(log)
  {
    assert e in log + [e];
    assert forall x :: x in log + [e] <==> x in log || x == e;
  }

  lemma AppendedKeys(log: seq<Entry>, e: Entry, base: string)
    ensures FailureKeys(log + [e], base) == FailureKeys(log, base) + if e.Failure? && Belongs(e.key, base) then [e.key] else []
  {
    hide Belongs;
    assert (log + [e])[..|log|] == log;
  }

  predicate Open(s: State, base: string) {
    var n := Count(s.log, base);
    n > 0 && Episode(base, n) !in Recovered(s.log)
  }

  /** Recording joins the open episode, or opens the next one with a key never used before. */
  lemma RecordOutcome(s: State, bases: set<string>, t: Target, error: string)
    requires Ledger(s, bases) && Base(t) in bases
    ensures var u, n := Record(s, t, error), Count(s.log, Base(t));
      && (Open(s, Base(t)) ==> u.log == s.log && u.receipts == s.receipts)
      && (!Open(s, Base(t)) ==>
            && Episode(Base(t), n + 1) !in Failures(s.log)
            && u.log == s.log + [Failure(Episode(Base(t), n + 1), t, error)]
            && u.receipts == s.receipts + {FailureReceipt(Episode(Base(t), n + 1))})
  {
    hide Recovered, EpisodeKey;
    var base := Base(t);
    var n := Count(s.log, base);
    assert Numbered(s.log, base, n);
    EpisodeKeyIs(s.log, base, n);
    NextKeyIsFresh(s, bases, base);
    if Open(s, base) {
      FailureKeysAreFailures(s.log, base);
      assert Episodes(base, n)[n - 1] == Episode(base, n);
      assert Episode(base, n) in FailureKeys(s.log, base);
    }
  }

  lemma NumberedNext(log: seq<Entry>, base: string, n: nat, e: Entry)
    requires Numbered(log, base, n) && (n > 0 ==> Episode(base, n) in Recovered(log))
    requires e.Failure? && e.key == Episode(base, n + 1)
    ensures Numbered(log + [e], base, n + 1)
  {
    hide Recovered, Episode, Belongs;
    AppendedKeys(log, e, base);
    AppendedSets(log, e);
    EpisodeBelongs(base, n + 1);
    assert Episodes(base, n) + [Episode(base, n + 1)] == Episodes(base, n + 1);
  }

  lemma NumberedSame(log: seq<Entry>, base: string, n: nat, e: Entry)
    requires Numbered(log, base, n) && (e.Failure? ==> !Belongs(e.key, base))
    ensures Numbered(log + [e], base, n)
  {
    hide Episode, Belongs;
    AppendedKeys(log, e, base);
    AppendedSets(log, e);
    hide Recovered;
  }

  lemma FailureReceipted(s: State, u: State, e: Entry)
    requires Receipted(s) && e.Failure? && u.log == s.log + [e] && u.receipts == s.receipts + {FailureReceipt(e.key)}
    ensures Receipted(u)
  {
    AppendedSets(s.log, e);
    hide Failures, Recovered;
  }

  lemma RecoveryReceipted(s: State, u: State, e: Entry)
    requires Receipted(s) && e.Recovery? && e.key in Failures(s.log) && u.log == s.log + [e] && u.receipts == s.receipts + {RecoveryReceipt(e.key)}
    ensures Receipted(u)
  {
    AppendedSets(s.log, e);
    hide Failures, Recovered;
  }

  lemma NextNumbered(log: seq<Entry>, bases: set<string>, base: string, e: Entry)
    requires Independent(bases) && AllNumbered(log, bases) && base in bases && e.Failure?
    requires e.key == Episode(base, Count(log, base) + 1)
    requires Count(log, base) > 0 ==> Episode(base, Count(log, base)) in Recovered(log)
    ensures AllNumbered(log + [e], bases)
  {
    hide Recovered, Independent, Belongs, FailureKeys;
    forall b | b in bases ensures Numbered(log + [e], b, Count(log + [e], b)) {
      if b == base {
        NumberedNext(log, base, Count(log, base), e);
      } else {
        OwnKeysOnly(bases, b, base, Count(log, base) + 1);
        NumberedSame(log, b, Count(log, b), e);
      }
    }
  }

  /** In every reachable state the failure keys of each target are numbered from one, all but the last recovered. */
  lemma RecordKeeps(s: State, bases: set<string>, t: Target, error: string)
    requires Ledger(s, bases) && Base(t) in bases
    ensures Ledger(Record(s, t, error), bases)
  {
    RecordOutcome(s, bases, t, error);
    hide Independent, Record, Base, AllNumbered, Failures, Recovered, Belongs, Episode, Receipted;
    var u := Record(s, t, error);
    if Open(s, Base(t)) {
      SameLedger(s, u);
    } else {
      var n := Count(s.log, Base(t));
      var e := Failure(Episode(Base(t), n + 1), t, error);
      NextNumbered(s.log, bases, Base(t), e);
      EpisodeBelongs(Base(t), n + 1);
      FailureReceipted(s, u, e);
      StillDistinct(s.log, e);
    }
  }

  lemma StillDistinct(log: seq<Entry>, e: Entry)
    requires DistinctKeys(log) && (e.Failure? ==> e.key !in Failures(log))
    ensures DistinctKeys(log + [e])
  {
    forall i | 0 <= i < |log| && log[i].Failure? ensures log[i].key in Failures(log) {
      assert log[i] in log;
    }
  }

  lemma SameLedger(s: State, u: State)
    requires Receipted(s) && u.log == s.log && u.receipts == s.receipts
    ensures Receipted(u)
  {}

  // ----- one recovery

  lemma RecoverKeeps(s: State, bases: set<string>, f: Entry)
    requires Ledger(s, bases) && f in s.log && f.Failure?
    ensures Ledger(Recover(s, f), bases)
    ensures Recovered(Recover(s, f).log) == Recovered(s.log) + {f.key}
    ensures PendingOf(Recover(s, f)) == Except(PendingOf(s), {f.key})
    ensures forall e | e in s.log :: e in Recover(s, f).log
  {
    hide Independent, Belongs, Base, Pending, Except;
    var e := Recovery(f.key, f.target);
    var u := Recover(s, f);
    assert f.key in Failures(s.log);
    AppendedSets(s.log, e);
    PendingExcept(s.log, Recovered(s.log), {f.key});
    if RecoveryReceipt(f.key) in s.receipts {
      assert Recovered(s.log) + {f.key} == Recovered(s.log);
    } else {
      SameNumbers(s.log, bases, e);
      RecoveryReceipted(s, u, e);
      StillDistinct(s.log, e);
      PendingSame(s.log, e, Recovered(u.log));
    }
    hide Failures, Recovered, Numbered, Receipted;
  }

  lemma SameNumbers(log: seq<Entry>, bases: set<string>, e: Entry)
    requires AllNumbered(log, bases) && e.Recovery?
    ensures AllNumbered(log + [e], bases)
  {
    hide FailureKeys, Recovered;
    forall b | b in bases ensures Numbered(log + [e], b, Count(log + [e], b)) {
      NumberedSame(log, b, Count(log, b), e);
    }
  }

  lemma {:induction false} PendingSame(log: seq<Entry>, e: Entry, recovered: set<string>)
    requires e.Recovery?
    ensures Pending(log + [e], recovered) == Pending(log, recovered)
  {
    assert (log + [e])[..|log|] == log;
  }

  function Except(entries: seq<Entry>, keys: set<string>): seq<Entry> {
    if entries == [] then []
    else
      var init, last := entries[..|entries| - 1], entries[|entries| - 1];
      Except(init, keys) + if last.key !in keys then [last] else []
  }

  lemma ExceptSnoc(entries: seq<Entry>, e: Entry, keys: set<string>)
    ensures Except(entries + [e], keys) == Except(entries, keys) + if e.key !in keys then [e] else []
  {
    assert (entries + [e])[..|entries|] == entries;
  }

  lemma {:induction false} PendingExcept(log: seq<Entry>, recovered: set<string>, more: set<string>)
    ensures Pending(log, recovered + more) == Except(Pending(log, recovered), more)
  {
    if log != [] {
      var init, last := log[..|log| - 1], log[|log| - 1];
      PendingExcept(init, recovered, more);
      ExceptSnoc(Pending(init, recovered), last, more);
      PendingLast(log, recovered);
      PendingLast(log, recovered + more);
      hide Pending, Except;
      assert Pending(init, recovered) + [] == Pending(init, recovered);
      assert Except(Pending(init, recovered), more) + [] == Except(Pending(init, recovered), more);
    }
  }

  lemma PendingLast(log: seq<Entry>, recovered: set<string>)
    requires log != []
    ensures var last := log[|log| - 1];
      Pending(log, recovered) == Pending(log[..|log| - 1], recovered) + if last.Failure? && last.key !in recovered then [last] else []
  {}

  // ----- retry

  /** What `retry` relies on: the listed failures are in the log and have different keys. */
  predicate Distinct(failures: seq<Entry>) {
    forall i, j | 0 <= i < j < |failures| :: failures[i].key != failures[j].key
  }

  predicate Logged(log: seq<Entry>, failures: seq<Entry>) {
    forall f | f in failures :: f in log && f.Failure?
  }

  function RepairedKeys(failures: seq<Entry>, attempt: Entry -> Attempt): set<string> {
    set f | f in failures && attempt(f).Repaired? :: f.key
  }

  lemma {:induction false} ExceptTwice(entries: seq<Entry>, a: set<string>, b: set<string>)
    ensures Except(Except(entries, a), b) == Except(entries, a + b)
  {
    if entries != [] {
      var init, last := entries[..|entries| - 1], entries[|entries| - 1];
      ExceptTwice(init, a, b);
      ExceptSnoc(Except(init, a), last, b);
      assert Except(init, a) + [] == Except(init, a) && Except(init, a + b) + [] == Except(init, a + b);
    }
  }

  lemma {:induction false} ExceptNothing(entries: seq<Entry>)
    ensures Except(entries, {}) == entries
  {
    if entries != [] {
      ExceptNothing(entries[..|entries| - 1]);
      assert entries == entries[..|entries| - 1] + [entries[|entries| - 1]];
    }
  }

  lemma RetryOneKeeps(s: State, bases: set<string>, f: Entry, attempt: Entry -> Attempt)
    requires Ledger(s, bases) && f in s.log && f.Failure?
    ensures var u := RetryOne(s, f, attempt);
      && Ledger(u, bases) && (forall e | e in s.log :: e in u.log)
      && PendingOf(u) == Except(PendingOf(s), if attempt(f).Repaired? then {f.key} else {})
  {
    hide Independent, AllNumbered, Owned, Recover, PendingOf, DistinctKeys;
    ExceptNothing(PendingOf(s));
    if attempt(f).Repaired? {
      RecoverKeeps(s, bases, f);
    } else {
      SamePending(s, RetryOne(s, f, attempt));
      hide Failures, Recovered;
    }
  }

  lemma SamePending(s: State, u: State)
    requires u.log == s.log
    ensures PendingOf(u) == PendingOf(s)
  {}

  lemma {:induction false} RetryAllKeeps(s: State, bases: set<string>, failures: seq<Entry>, attempt: Entry -> Attempt)
    requires Ledger(s, bases) && Logged(s.log, failures)
    ensures var u := RetryAll(s, failures, attempt);
      && Ledger(u, bases)
      && PendingOf(u) == Except(PendingOf(s), RepairedKeys(failures, attempt))
    decreases |failures|
  {
    hide Ledger, PendingOf, RetryOne, Except;
    if failures == [] {
      ExceptNothing(PendingOf(s));
      assert RepairedKeys(failures, attempt) == {};
    } else {
      var f, rest := failures[0], failures[1..];
      assert f in failures;
      RetryOneKeeps(s, bases, f, attempt);
      var t := RetryOne(s, f, attempt);
      RetryAllKeeps(t, bases, rest, attempt);
      var one := if attempt(f).Repaired? then {f.key} else {};
      ExceptTwice(PendingOf(s), one, RepairedKeys(rest, attempt));
      RepairedSplit(failures, attempt);
    }
  }

  lemma RepairedSplit(failures: seq<Entry>, attempt: Entry -> Attempt)
    requires failures != []
    ensures RepairedKeys(failures, attempt)
         == (if attempt(failures[0]).Repaired? then {failures[0].key} else {}) + RepairedKeys(failures[1..], attempt)
  {
    assert failures == [failures[0]] + failures[1..];
    forall f | f in failures ensures f == failures[0] || f in failures[1..] {}
  }

  /** Removing the repaired keys leaves exactly the items whose attempt failed. */
  lemma {:induction false} ExceptIsFailed(failures: seq<Entry>, attempt: Entry -> Attempt)
    requires Distinct(failures)
    ensures Except(failures, RepairedKeys(failures, attempt)) == Failed(failures, attempt)
  {
    if failures == [] {
    } else {
      var init, last := failures[..|failures| - 1], failures[|failures| - 1];
      ExceptIsFailed(init, attempt);
      FailedSnoc(init, last, attempt);
      assert failures == init + [last];
      var keys := RepairedKeys(failures, attempt);
      forall i | 0 <= i < |init| ensures init[i].key in keys <==> init[i].key in RepairedKeys(init, attempt) {
        assert init[i] == failures[i];
        if init[i].key in keys {
          var f :| f in failures && attempt(f).Repaired? && f.key == init[i].key;
          var j :| 0 <= j < |failures| && failures[j] == f;
          assert i == j;
        }
      }
      ExceptAgree(init, keys, RepairedKeys(init, attempt));
      LastRepaired(failures, attempt);
    }
  }

  lemma LastRepaired(failures: seq<Entry>, attempt: Entry -> Attempt)
    requires failures != [] && Distinct(failures)
    ensures var last := failures[|failures| - 1]; last.key in RepairedKeys(failures, attempt) <==> attempt(last).Repaired?
  {
    var last := failures[|failures| - 1];
    if last.key in RepairedKeys(failures, attempt) {
      var f :| f in failures && attempt(f).Repaired? && f.key == last.key;
      var j :| 0 <= j < |failures| && failures[j] == f;
      assert j == |failures| - 1;
    } else {
      assert last in failures;
    }
  }

  lemma {:induction false} ExceptAgree(entries: seq<Entry>, a: set<string>, b: set<string>)
    requires forall i | 0 <= i < |entries| :: entries[i].key in a <==> entries[i].key in b
    ensures Except(entries, a) == Except(entries, b)
  {
    if entries != [] {
      ExceptAgree(entries[..|entries| - 1], a, b);
    }
  }

  lemma {:induction false} FailedSnoc(xs: seq<Entry>, x: Entry, attempt: Entry -> Attempt)
    ensures Failed(xs + [x], attempt) == Failed(xs, attempt) + if attempt(x).Repaired? then [] else [x]
  {
    if xs != [] {
      FailedSnoc(xs[1..], x, attempt);
      assert (xs + [x])[1..] == xs[1..] + [x];
    }
  }

  lemma {:induction false} PendingIsLogged(log: seq<Entry>, recovered: set<string>)
    ensures Logged(log, Pending(log, recovered))
  {
    if log != [] {
      PendingIsLogged(log[..|log| - 1], recovered);
    }
  }

  lemma {:induction false} PendingIsDistinct(log: seq<Entry>, recovered: set<string>)
    requires DistinctKeys(log)
    ensures Distinct(Pending(log, recovered))
  {
    if log != [] {
      var init, last := log[..|log| - 1], log[|log| - 1];
      var pending := Pending(init, recovered);
      PendingIsDistinct(init, recovered);
      PendingIsLogged(init, recovered);
      forall i | 0 <= i < |pending| && last.Failure? ensures pending[i].key != last.key {
        assert pending[i] in init;
        var j :| 0 <= j < |init| && init[j] == pending[i];
        assert log[j] == init[j];
      }
    }
  }

  /** A retry repairs what it can: exactly the items whose attempt failed stay pending, in their order. */
  lemma RetryLeavesExactlyTheFailed(s: State, bases: set<string>, attempt: Entry -> Attempt)
    requires Ledger(s, bases)
    ensures Ledger(Retry(s, attempt), bases)
    ensures PendingOf(Retry(s, attempt)) == Failed(PendingOf(s), attempt)
  {
    PendingIsLogged(s.log, Recovered(s.log));
    PendingIsDistinct(s.log, Recovered(s.log));
    hide Ledger, PendingOf, RetryAll, Except, Failed;
    var pending := PendingOf(s);
    PendingOfIs(s);
    RetryAllKeeps(s, bases, pending, attempt);
    ExceptIsFailed(pending, attempt);
  }

  lemma PendingOfIs(s: State)
    ensures PendingOf(s) == Pending(s.log, Recovered(s.log))
  {}

  /** When everything is repaired nothing is pending, and no target has an open episode. */
  lemma NothingPendingMeansAllClosed(s: State, bases: set<string>, base: string)
    requires Ledger(s, bases) && base in bases && PendingOf(s) == []
    ensures !Open(s, base)
  {
    var n := Count(s.log, base);
    assert Numbered(s.log, base, n);
    if n > 0 {
      FailureKeysAreFailures(s.log, base);
      assert Episodes(base, n)[n - 1] == Episode(base, n);
      assert Episode(base, n) in FailureKeys(s.log, base);
      var e :| e in s.log && e.Failure? && e.key == Episode(base, n);
      NotPendingIsRecovered(s.log, Recovered(s.log), e);
    }
  }

  lemma {:induction false} NotPendingIsRecovered(log: seq<Entry>, recovered: set<string>, e: Entry)
    requires Pending(log, recovered) == [] && e in log && e.Failure?
    ensures e.key in recovered
  {
    var init, last := log[..|log| - 1], log[|log| - 1];
    assert log == init + [last];
    if e != last {
      NotPendingIsRecovered(init, recovered, e);
    }
  }

  // ----- runs

  datatype Action = DoRecord(target: Target, error: string) | DoRetry(attempt: Entry -> Attempt)

  function Step(s: State, a: Action): State {
    match a
    case DoRecord(t, error) => Record(s, t, error)
    case DoRetry(attempt) => Retry(s, attempt)
  }

  function Run(s: State, actions: seq<Action>): State
    decreases |actions|
  {
    if actions == [] then s else Run(Step(s, actions[0]), actions[1..])
  }

  predicate Within(actions: seq<Action>, bases: set<string>) {
    forall i | 0 <= i < |actions| && actions[i].DoRecord? :: Base(actions[i].target) in bases
  }

  /** The ledger invariant holds in every reachable state. */
  lemma {:induction false} RunKeeps(s: State, bases: set<string>, actions: seq<Action>)
    requires Ledger(s, bases) && Within(actions, bases)
    ensures Ledger(Run(s, actions), bases)
    decreases |actions|
  {
    hide Ledger, Record, Retry, Base;
    if actions != [] {
      match actions[0] {
        case DoRecord(t, error) => RecordKeeps(s, bases, t, error);
        case DoRetry(attempt) => RetryLeavesExactlyTheFailed(s, bases, attempt);
      }
      RunKeeps(Step(s, actions[0]), bases, actions[1..]);
    }
  }

  function Start(): State {
    State([], {}, [])
  }

  /** Every run of a set of targets keeps the numbering exactly when no base extends another one by '#'. */
  lemma NumberedInEveryRunExactly(targets: set<Target>)
    ensures var bases := set t | t in targets :: Base(t);
      (forall actions | Within(actions, bases) :: AllNumbered(Run(Start(), actions).log, bases)) <==> Independent(bases)
  {
    hide AllNumbered, Run, Base;
    var bases := set t | t in targets :: Base(t);
    if Independent(bases) {
      Initially(bases);
      forall actions | Within(actions, bases) ensures AllNumbered(Run(Start(), actions).log, bases) {
        RunKeeps(Start(), bases, actions);
      }
    } else {
      var a, b :| a in bases && b in bases && a != b && a + "#" <= b;
      var t :| t in targets && Base(t) == b;
      OneFailureBreaks(bases, a, t);
      assert Within([DoRecord(t, "")], bases);
    }
  }

  lemma OneFailureBreaks(bases: set<string>, a: string, t: Target)
    requires a in bases && a != Base(t) && a + "#" <= Base(t)
    ensures !AllNumbered(Run(Start(), [DoRecord(t, "")]).log, bases)
  {
    hide Base, EpisodeKey;
    var actions := [DoRecord(t, "")];
    var e := Failure(Base(t), t, "");
    FirstKey(Base(t));
    assert Run(Start(), actions) == Step(Start(), actions[0]);
    assert Run(Start(), actions).log == [] + [e];
    AppendedKeys([], e, a);
    assert Episodes(a, 1)[0] == a && [Base(t)][0] == Base(t);
  }

  lemma FirstKey(base: string)
    ensures EpisodeKey([], base) == base
  {
    assert (set k | k in FailureKeys([], base)) == {};
  }

  // ----- which failures leave no entry, for any targets

  lemma RecordKeepsReceipts(s: State, t: Target, error: string)
    requires Receipted(s)
    ensures Receipted(Record(s, t, error))
  {
    hide Receipted, EpisodeKey, Base;
    var key := EpisodeKey(s.log, Base(t));
    var u := Record(s, t, error);
    if FailureReceipt(key) in s.receipts {
      SameLedger(s, u);
    } else {
      FailureReceipted(s, u, Failure(key, t, error));
    }
  }

  lemma RetryOneKeepsReceipts(s: State, f: Entry, attempt: Entry -> Attempt)
    requires Receipted(s) && f in s.log && f.Failure?
    ensures var u := RetryOne(s, f, attempt); Receipted(u) && forall e | e in s.log :: e in u.log
  {
    hide Receipted;
    var u := RetryOne(s, f, attempt);
    assert f.key in Failures(s.log);
    if attempt(f).Repaired? && RecoveryReceipt(f.key) !in s.receipts {
      RecoveryReceipted(s, u, Recovery(f.key, f.target));
    } else {
      SameLedger(s, u);
    }
  }

  lemma {:induction false} RetryAllKeepsReceipts(s: State, failures: seq<Entry>, attempt: Entry -> Attempt)
    requires Receipted(s) && Logged(s.log, failures)
    ensures Receipted(RetryAll(s, failures, attempt))
    decreases |failures|
  {
    hide Receipted, RetryOne;
    if failures != [] {
      assert failures[0] in failures;
      RetryOneKeepsReceipts(s, failures[0], attempt);
      RetryAllKeepsReceipts(RetryOne(s, failures[0], attempt), failures[1..], attempt);
    }
  }

  /** Receipts agree with the log in every run, whatever the targets. */
  lemma {:induction false} RunKeepsReceipts(s: State, actions: seq<Action>)
    requires Receipted(s)
    ensures Receipted(Run(s, actions))
    decreases |actions|
  {
    hide Receipted, Record, RetryAll;
    if actions != [] {
      match actions[0] {
        case DoRecord(t, error) => RecordKeepsReceipts(s, t, error);
        case DoRetry(attempt) =>
          PendingIsLogged(s.log, Recovered(s.log));
          RetryAllKeepsReceipts(s, PendingOf(s), attempt);
      }
      RunKeepsReceipts(Step(s, actions[0]), actions[1..]);
    }
  }

  /** Some failure kept under a key that belongs to the base is not recovered. */
  predicate OpenUnder(log: seq<Entry>, base: string) {
    exists k | k in Failures(log) :: Belongs(k, base) && k !in Recovered(log)
  }

  /** The key that the number of keys used so far leads to. */
  function NextKey(log: seq<Entry>, base: string): string {
    var keys := FailureKeys(log, base);
    Episode(base, |set k | k in keys| + 1)
  }

  lemma {:induction false} UnrecoveredIs(keys: seq<string>, recovered: set<string>)
    ensures var pending := Unrecovered(keys, recovered);
      && (forall k | k in pending :: k in keys && k !in recovered)
      && (pending == [] ==> forall k | k in keys :: k in recovered)
  {
    if keys != [] {
      UnrecoveredIs(keys[..|keys| - 1], recovered);
      assert keys == keys[..|keys| - 1] + [keys[|keys| - 1]];
    }
  }

  lemma KeyIsUsedExactly(log: seq<Entry>, base: string)
    ensures EpisodeKey(log, base) in Failures(log) <==> OpenUnder(log, base) || NextKey(log, base) in Failures(log)
  {
    hide FailureKeys, Recovered, Failures, Unrecovered, Belongs;
    var keys := FailureKeys(log, base);
    var pending := Unrecovered(keys, Recovered(log));
    FailureKeysAreFailures(log, base);
    UnrecoveredIs(keys, Recovered(log));
    if pending != [] {
      assert pending[|pending| - 1] in pending;
    }
  }

  /**
   After any run a failure adds no entry exactly when some failure under its base is still open, its own or that of
   a target extending it by '#', or the next number is taken by such a target.
   */
  lemma NoEntryExactly(actions: seq<Action>, t: Target, error: string)
    ensures var s := Run(Start(), actions);
      Record(s, t, error).log == s.log <==> OpenUnder(s.log, Base(t)) || NextKey(s.log, Base(t)) in Failures(s.log)
  {
    hide Run, EpisodeKey, Base, OpenUnder, NextKey;
    RunKeepsReceipts(Start(), actions);
    var s := Run(Start(), actions);
    KeyIsUsedExactly(s.log, Base(t));
    hide Failures, Recovered;
  }

  /** While one target's first failure is open, another's is lost exactly when the open one's base is the same or extends it by '#'. */
  lemma LostExactlyWhenDependent(open: Target, t: Target, first: string, second: string)
    ensures var s := Record(Start(), open, first);
      Record(s, t, second).log == s.log <==> Belongs(Base(open), Base(t))
  {
    hide Belongs, Base, EpisodeKey, NextKey;
    var actions := [DoRecord(open, first)];
    var s := Record(Start(), open, first);
    assert Run(Start(), actions) == Step(Start(), actions[0]);
    FirstKey(Base(open));
    var e := Failure(Base(open), open, first);
    assert s.log == [] + [e];
    NoEntryExactly(actions, t, second);
    AppendedSets([], e);
    AppendedKeys([], e, Base(t));
    if !Belongs(Base(open), Base(t)) {
      NothingUsed(s.log, Base(t));
      OwnBaseBelongs(Base(t));
    }
  }

  lemma NothingUsed(log: seq<Entry>, base: string)
    requires FailureKeys(log, base) == []
    ensures NextKey(log, base) == base
  {
    assert (set k | k in FailureKeys(log, base)) == {};
  }

  lemma OwnBaseBelongs(base: string)
    ensures Belongs(base, base)
  {}

  lemma RecoveredLog(t: Target, error: string)
    ensures var s := Run(Start(), [DoRecord(t, error), DoRetry(_ => Repaired)]);
      s.log == [Failure(Base(t), t, error), Recovery(Base(t), t)] && PendingOf(s) == []
  {
    hide Base, EpisodeKey;
    var repair := (_: Entry) => Repaired;
    var actions := [DoRecord(t, error), DoRetry(repair)];
    var f := Failure(Base(t), t, error);
    FirstKey(Base(t));
    var s := Record(Start(), t, error);
    assert Run(Start(), actions) == Run(s, actions[1..]) == Step(s, actions[1]);
    assert s.log == [f] && [f][..0] == [];
    assert Recovered([f]) == {};
    assert Pending([f], {}) == Pending([f][..0], {}) + [f];
    assert PendingOf(s) == [f];
    assert RetryAll(s, [f], repair) == Recover(s, f);
    var u := Recover(s, f);
    assert u.log == [f, Recovery(f.key, t)];
    assert Recovery(f.key, t) in u.log && f.key in Recovered(u.log);
    assert u.log[..1] == [f];
    assert Pending(u.log, Recovered(u.log)) == Pending(u.log[..1], Recovered(u.log)) + [];
    assert Pending([f], Recovered(u.log)) == Pending([f][..0], Recovered(u.log)) + [];
  }

  lemma SecondKey(log: seq<Entry>, base: string, key: string)
    requires FailureKeys(log, base) == [key]
    ensures NextKey(log, base) == base + "#2"
  {
    hide FailureKeys;
    assert (set k | k in [key]) == {key};
    assert Decimal.Of(2) == "2";
  }

  /** Nothing needs to be open: a recovered first failure of "x#2" hides the first failure of "x". */
  lemma RecoveredNeighbourHides(t: Target, neighbour: Target, first: string, second: string)
    requires Base(neighbour) == Base(t) + "#2"
    ensures var s := Run(Start(), [DoRecord(neighbour, first), DoRetry(_ => Repaired)]);
      PendingOf(s) == [] && Record(s, t, second).log == s.log
  {
    RecoveredLog(neighbour, first);
    var actions := [DoRecord(neighbour, first), DoRetry(_ => Repaired)];
    var s := Run(Start(), actions);
    NoEntryExactly(actions, t, second);
    var key := Base(neighbour);
    var f, r := Failure(key, neighbour, first), Recovery(key, neighbour);
    hide Base, Run, PendingOf, Record, NextKey, FailureKeys, OpenUnder;
    assert s.log == [f] + [r] && [f] == [] + [f];
    AppendedKeys([], f, Base(t));
    AppendedKeys([f], r, Base(t));
    NoKeys(Base(t));
    SecondKey(s.log, Base(t), key);
    assert f in s.log;
  }

  lemma NoKeys(base: string)
    ensures FailureKeys([], base) == []
  {}

  // ----- the manager

  class FailureManager {
    var log: seq<Entry>
    var receipts: set<Receipt>
    var pluginErrors: seq<string>

    constructor ()
      ensures View() == State([], {}, [])
    {
      log, receipts, pluginErrors := [], {}, [];
    }

    function View(): State
      reads this
    {
      State(log, receipts, pluginErrors)
    }

    method RecordFailure(t: Target, error: string)
      modifies this
      ensures View() == Record(old(View()), t, error)
    {
      var key := EpisodeKey(log, Base(t));
      if FailureReceipt(key) !in receipts {
        log, receipts := log + [Failure(key, t, error)], receipts + {FailureReceipt(key)};
      }
      Note(t.system + ": " + error);
    }

    method Note(message: string)
      modifies `pluginErrors
      ensures View() == Noted(old(View()), message)
    {
      if message !in pluginErrors {
        pluginErrors := pluginErrors + [message];
      }
    }

    method RecoverFailure(failure: Entry)
      modifies this
      ensures View() == Recover(old(View()), failure)
    {
      if RecoveryReceipt(failure.key) !in receipts {
        log, receipts := log + [Recovery(failure.key, failure.target)], receipts + {RecoveryReceipt(failure.key)};
      }
    }

    /** Every listed failure is attempted once, and counted once. */
    method RetryPending(attempt: Entry -> Attempt) returns (pending: nat, recovered: nat, failed: nat)
      modifies this
      ensures View() == Retry(old(View()), attempt)
      ensures pending == |PendingOf(old(View()))| == recovered + failed
      ensures failed == |Failed(PendingOf(old(View())), attempt)|
    {
      hide PendingOf, Recover, Noted;
      ghost var before := View();
      var failures := PendingOf(View());
      pending, recovered, failed := 0, 0, 0;
      for n := 0 to |failures|
        invariant RetryAll(View(), failures[n..], attempt) == RetryAll(before, failures, attempt)
        invariant pending == n == recovered + failed
        invariant failed + |Failed(failures[n..], attempt)| == |Failed(failures, attempt)|
      {
        var failure := failures[n];
        assert failures[n..][0] == failure && failures[n..][1..] == failures[n + 1..];
        pending := pending + 1;
        match attempt(failure) {
          case Repaired =>
            RecoverFailure(failure);
            recovered := recovered + 1;
          case NotRepaired =>
            failed := failed + 1;
          case Raised(message) =>
            Note(failure.target.system + ": " + message);
            failed := failed + 1;
        }
      }
    }
  }
}
