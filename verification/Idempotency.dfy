/**
 * The idempotency store: a table behind one lock, one further lock per key, and the interleavings
 * of any number of threads running `IdempotencyStore.run`.
 */
module Idempotency {
  import opened Common

  type Value = string

  datatype Entry = Entry(key: string, fingerprint: string, value: Value, expiresAt: real)

  // ----- The table, in insertion order -----

  function Live(entries: seq<Entry>, now: real): (rest: seq<Entry>)
    ensures |rest| <= |entries|
    ensures forall k :: 0 <= k < |rest| ==> rest[k] in entries && rest[k].expiresAt > now
  {
    if entries == [] then []
    else if entries[0].expiresAt <= now then Live(entries[1..], now)
    else [entries[0]] + Live(entries[1..], now)
  }

  function Lookup(entries: seq<Entry>, key: string): (r: Option<Entry>)
    ensures r.Some? ==> r.value in entries && r.value.key == key
    ensures r.None? <==> Absent(entries, key)
  {
    if entries == [] then None
    else if entries[0].key == key then Some(entries[0])
    else Lookup(entries[1..], key)
  }

  predicate Absent(entries: seq<Entry>, key: string) {
    forall k :: 0 <= k < |entries| ==> entries[k].key != key
  }

  /** Assignment to a key: in place if it is there, at the end otherwise. */
  function Set(entries: seq<Entry>, entry: Entry): seq<Entry> {
    if entries == [] then [entry]
    else if entries[0].key == entry.key then [entry] + entries[1..]
    else [entries[0]] + Set(entries[1..], entry)
  }

  /** The first entry with the earliest expiry, which is what `min` picks. */
  function Oldest(entries: seq<Entry>): (i: nat)
    requires entries != []
    ensures i < |entries|
    ensures forall k :: 0 <= k < i ==> entries[i].expiresAt < entries[k].expiresAt
    ensures forall k :: i <= k < |entries| ==> entries[i].expiresAt <= entries[k].expiresAt
  {
    if |entries| == 1 then 0
    else
      var r := Oldest(entries[1..]) + 1;
      if entries[0].expiresAt <= entries[r].expiresAt then 0 else r
  }

  function DropAt(entries: seq<Entry>, i: nat): (rest: seq<Entry>)
    requires i < |entries|
    ensures |rest| == |entries| - 1
  {
    entries[..i] + entries[i + 1..]
  }

  /** Dropping the earliest expiry while there are too many. */
  function Trim(entries: seq<Entry>, maxEntries: nat): (rest: seq<Entry>)
    ensures |rest| <= maxEntries
    ensures |entries| <= maxEntries ==> rest == entries
  {
    if |entries| <= maxEntries then entries else Trim(DropAt(entries, Oldest(entries)), maxEntries)
  }

  function Stored(entries: seq<Entry>, maxEntries: nat, entry: Entry): seq<Entry> {
    Trim(Set(entries, entry), maxEntries)
  }

  lemma {:induction false} SetAbsent(entries: seq<Entry>, entry: Entry)
    requires Absent(entries, entry.key)
    ensures Set(entries, entry) == entries + [entry]
  {
    if entries != [] {
      assert entries[0].key != entry.key;
      assert Absent(entries[1..], entry.key) by {
        assert forall k :: 0 <= k < |entries| - 1 ==> entries[1..][k] == entries[k + 1];
      }
      SetAbsent(entries[1..], entry);
      assert [entries[0]] + (entries[1..] + [entry]) == entries + [entry];
    }
  }

  /** The last entry, if no other expires later, is the last one a trim would drop. */
  lemma {:induction false} NewestSurvivesTrim(entries: seq<Entry>, maxEntries: nat)
    requires entries != [] && maxEntries >= 1
    requires forall k :: 0 <= k < |entries| ==> entries[k].expiresAt <= entries[|entries| - 1].expiresAt
    ensures var rest := Trim(entries, maxEntries);
            rest != [] && rest[|rest| - 1] == entries[|entries| - 1]
    decreases |entries|
  {
    if |entries| > maxEntries {
      var i := Oldest(entries);
      assert i < |entries| - 1;
      NewestSurvivesTrim(DropAt(entries, i), maxEntries);
    }
  }

  /** Every trimmed entry was already there. */
  lemma {:induction false} TrimKeeps(entries: seq<Entry>, maxEntries: nat, e: Entry)
    requires e in Trim(entries, maxEntries)
    ensures e in entries
    decreases |entries|
  {
    if |entries| > maxEntries {
      TrimKeeps(DropAt(entries, Oldest(entries)), maxEntries, e);
    }
  }

  class IdempotencyStore {
    const ttl: real
    const maxEntries: nat
    var entries: seq<Entry>

    constructor (ttl: real, maxEntries: nat)
      requires 1.0 <= ttl <= 86400.0
      ensures this.ttl == ttl && this.maxEntries == maxEntries && entries == []
    {
      this.ttl, this.maxEntries := ttl, maxEntries;
      entries := [];
    }

    /** `_purge_locked`. */
    method PurgeLocked(now: real)
      modifies this
      ensures entries == Live(old(entries), now)
    {
      var kept: seq<Entry> := [];
      assert entries[0..] == entries;
      for i := 0 to |entries|
        invariant entries == old(entries) && kept + Live(entries[i..], now) == Live(entries, now)
      {
        assert entries[i..][1..] == entries[i + 1..];
        if entries[i].expiresAt > now {
          ghost var rest := Live(entries[i + 1..], now);
          assert kept + ([entries[i]] + rest) == kept + [entries[i]] + rest;
          kept := kept + [entries[i]];
        }
      }
      assert entries[|entries|..] == [] && kept + [] == kept;
      entries := kept;
    }

    /** `_trim_locked`: a `min` over the table, then a deletion, while the table is too large. */
    method TrimLocked()
      modifies this
      ensures entries == Trim(old(entries), maxEntries)
    {
      while |entries| > maxEntries
        invariant Trim(entries, maxEntries) == Trim(old(entries), maxEntries)
        decreases |entries|
      {
        var oldest := 0;
        for k := 1 to |entries|
          invariant oldest < k
          invariant forall j :: 0 <= j < oldest ==> entries[oldest].expiresAt < entries[j].expiresAt
          invariant forall j :: oldest <= j < k ==> entries[oldest].expiresAt <= entries[j].expiresAt
        {
          if entries[k].expiresAt < entries[oldest].expiresAt {
            oldest := k;
          }
        }
        assert oldest == Oldest(entries);
        entries := DropAt(entries, oldest);
      }
    }

    /** The first critical section: purge, and refuse a key in use for another request. */
    method Enter(key: string, fingerprint: string, now: real) returns (conflict: bool)
      modifies this
      ensures entries == Live(old(entries), now)
      ensures conflict <==> Conflicts(entries, key, fingerprint)
    {
      PurgeLocked(now);
      var entry := Lookup(entries, key);
      conflict := entry.Some? && entry.value.fingerprint != fingerprint;
    }

    /** The second critical section, under the key lock: purge and look again. */
    method Recheck(key: string, now: real) returns (entry: Option<Entry>)
      modifies this
      ensures entries == Live(old(entries), now) && entry == Lookup(entries, key)
    {
      PurgeLocked(now);
      entry := Lookup(entries, key);
    }

    /** The last critical section: store the result of the operation, then trim. */
    method Finish(key: string, fingerprint: string, value: Value, now: real)
      modifies this
      ensures entries == Stored(old(entries), maxEntries, Entry(key, fingerprint, value, now + ttl))
    {
      entries := Set(entries, Entry(key, fingerprint, value, now + ttl));
      TrimLocked();
    }
  }

  predicate Conflicts(entries: seq<Entry>, key: string, fingerprint: string) {
    var entry := Lookup(entries, key);
    entry.Some? && entry.value.fingerprint != fingerprint
  }

  // ----- Threads -----

  datatype Outcome = Returned(value: Value) | Conflict | OperationFailed | InvalidArguments

  /** Where a thread stands in `run`; every critical section under the table lock is one step. */
  datatype Phase =
    | Fresh
    | Waiting                      // for the lock of its key
    | Holding                      // the key lock; about to look at the table again
    | Running                      // the operation
    | Storing(value: Value)        // the operation returned
    | Leaving(outcome: Outcome)    // about to release the key lock
    | Done(outcome: Outcome)

  datatype Thread = Thread(key: string, fingerprint: string, phase: Phase) {
    predicate HoldsKey() {
      phase.Holding? || phase.Running? || phase.Storing? || phase.Leaving?
    }

    /** From the start of the operation until its result is stored. */
    predicate InOperation() {
      phase.Running? || phase.Storing?
    }
  }

  datatype Config = Config(ttl: real, maxEntries: nat)

  /** `produced`: what operations have returned, with the key and fingerprint they ran under. */
  datatype State = State(entries: seq<Entry>, threads: seq<Thread>, owner: map<string, nat>, now: real,
                         produced: set<(string, string, Value)>)

  /** A scheduled step: which thread, when, and what its operation does if it is running. */
  datatype Move = Move(thread: nat, at: real, operation: Option<Value>)

  predicate Enabled(s: State, m: Move) {
    && m.thread < |s.threads| && s.now <= m.at
    && !s.threads[m.thread].phase.Done?
    && (s.threads[m.thread].phase.Waiting? ==> s.threads[m.thread].key !in s.owner)
  }

  function Step(cfg: Config, s: State, m: Move): State
    requires Enabled(s, m)
  {
    var i, th := m.thread, s.threads[m.thread];
    var live := Live(s.entries, m.at);
    var at := s.(now := m.at);
    var goto := (phase: Phase) => at.(threads := s.threads[i := th.(phase := phase)]);
    match th.phase
    case Fresh =>
      if th.key == "" || th.fingerprint == "" then goto(Done(InvalidArguments))
      else if Conflicts(live, th.key, th.fingerprint) then goto(Done(Conflict)).(entries := live)
      else goto(Waiting).(entries := live)
    case Waiting => goto(Holding).(owner := s.owner[th.key := i])
    case Holding =>
      var found := Lookup(live, th.key);
      if found.None? then goto(Running).(entries := live)
      else if found.value.fingerprint != th.fingerprint then goto(Leaving(Conflict)).(entries := live)
      else goto(Leaving(Returned(found.value.value))).(entries := live)
    case Running =>
      if m.operation.None? then goto(Leaving(OperationFailed))
      else goto(Storing(m.operation.value)).(produced := s.produced + {(th.key, th.fingerprint, m.operation.value)})
    case Storing(value) =>
      var entry := Entry(th.key, th.fingerprint, value, m.at + cfg.ttl);
      goto(Leaving(Returned(value))).(entries := Stored(s.entries, cfg.maxEntries, entry))
    case Leaving(outcome) => goto(Done(outcome)).(owner := s.owner - {th.key})
    case Done(_) => s
  }

  ghost predicate Initial(s: State) {
    && s.entries == [] && s.owner == map[] && s.produced == {}
    && forall i :: 0 <= i < |s.threads| ==> s.threads[i].phase.Fresh?
  }

  ghost predicate IsRun(cfg: Config, run: seq<State>, moves: seq<Move>) {
    && |run| == |moves| + 1 && Initial(run[0])
    && forall k :: 0 <= k < |moves| ==> TakesStep(cfg, run, moves, k)
  }

  ghost predicate TakesStep(cfg: Config, run: seq<State>, moves: seq<Move>, k: nat) {
    k < |moves| && k + 1 < |run| && Enabled(run[k], moves[k]) && run[k + 1] == Step(cfg, run[k], moves[k])
  }

  // ----- What every interleaving keeps -----

  ghost predicate Owns(threads: seq<Thread>, i: nat, key: string) {
    i < |threads| && threads[i].key == key && threads[i].HoldsKey()
  }

  /** A key lock is held by exactly the thread that owns it. */
  ghost predicate LocksAreExclusive(s: State) {
    && (forall key :: key in s.owner ==> Owns(s.threads, s.owner[key], key))
    && (forall i :: 0 <= i < |s.threads| && s.threads[i].HoldsKey() ==>
          s.threads[i].key in s.owner && s.owner[s.threads[i].key] == i)
  }

  /** While an operation for a key runs, the table has no entry for it. */
  ghost predicate OperationsAreUncached(s: State) {
    forall i :: 0 <= i < |s.threads| && s.threads[i].InOperation() ==> Absent(s.entries, s.threads[i].key)
  }

  ghost predicate HasProduced(s: State, key: string, fingerprint: string, value: Value) {
    (key, fingerprint, value) in s.produced
  }

  /** What is stored or handed out was produced under the same key and fingerprint. */
  ghost predicate ValuesAreGenuine(s: State) {
    && (forall k :: 0 <= k < |s.entries| ==>
          HasProduced(s, s.entries[k].key, s.entries[k].fingerprint, s.entries[k].value))
    && (forall i :: 0 <= i < |s.threads| ==> ThreadIsGenuine(s, s.threads[i]))
  }

  ghost predicate ThreadIsGenuine(s: State, th: Thread) {
    match th.phase
    case Storing(v) => HasProduced(s, th.key, th.fingerprint, v)
    case Leaving(Returned(v)) => HasProduced(s, th.key, th.fingerprint, v)
    case Done(Returned(v)) => HasProduced(s, th.key, th.fingerprint, v)
    case _ => true
  }

  ghost predicate TableIsBounded(cfg: Config, s: State) {
    && |s.entries| <= cfg.maxEntries
    && forall k :: 0 <= k < |s.entries| ==> s.entries[k].expiresAt <= s.now + cfg.ttl
  }

  ghost predicate Invariant(cfg: Config, s: State) {
    LocksAreExclusive(s) && OperationsAreUncached(s) && ValuesAreGenuine(s) && TableIsBounded(cfg, s)
  }

  lemma LocksStep(cfg: Config, s: State, m: Move)
    requires LocksAreExclusive(s) && Enabled(s, m)
    ensures LocksAreExclusive(Step(cfg, s, m))
  {
    hide Live, Lookup, Stored, Conflicts;
    var s' := Step(cfg, s, m);
    var i := m.thread;
    assert forall j :: 0 <= j < |s.threads| && j != i ==> s'.threads[j] == s.threads[j];
    assert s'.threads[i].key == s.threads[i].key;
    assert forall key :: key in s.owner && s.owner[key] != i ==> Owns(s'.threads, s.owner[key], key);
  }

  lemma AbsentAfter(entries: seq<Entry>, rest: seq<Entry>, key: string)
    requires Absent(entries, key) && forall k :: 0 <= k < |rest| ==> rest[k] in entries || rest[k].key != key
    ensures Absent(rest, key)
  {
  }

  lemma StoredMembers(entries: seq<Entry>, maxEntries: nat, entry: Entry)
    requires Absent(entries, entry.key)
    ensures var rest := Stored(entries, maxEntries, entry);
            forall k :: 0 <= k < |rest| ==> rest[k] in entries || rest[k] == entry
  {
    SetAbsent(entries, entry);
    var rest := Stored(entries, maxEntries, entry);
    forall k | 0 <= k < |rest| ensures rest[k] in entries || rest[k] == entry {
      TrimKeeps(entries + [entry], maxEntries, rest[k]);
    }
  }

  /** Where the entries of the next table come from. */
  lemma EntriesStep(cfg: Config, s: State, m: Move)
    requires OperationsAreUncached(s) && Enabled(s, m)
    ensures var s', th := Step(cfg, s, m), s.threads[m.thread];
            forall k :: 0 <= k < |s'.entries| ==>
              s'.entries[k] in s.entries
              || (th.phase.Storing? && s'.entries[k] == Entry(th.key, th.fingerprint, th.phase.value, m.at + cfg.ttl))
  {
    hide Conflicts, Stored;
    var th := s.threads[m.thread];
    if th.phase.Storing? {
      StoredMembers(s.entries, cfg.maxEntries, Entry(th.key, th.fingerprint, th.phase.value, m.at + cfg.ttl));
    }
  }

  lemma UncachedStep(cfg: Config, s: State, m: Move)
    requires LocksAreExclusive(s) && OperationsAreUncached(s) && Enabled(s, m)
    ensures OperationsAreUncached(Step(cfg, s, m))
  {
    hide Conflicts, Stored, Live;
    EntriesStep(cfg, s, m);
    var s' := Step(cfg, s, m);
    forall i | 0 <= i < |s'.threads| && s'.threads[i].InOperation() ensures Absent(s'.entries, s'.threads[i].key) {
      if i != m.thread {
        assert s'.threads[i] == s.threads[i];
        AbsentAfter(s.entries, s'.entries, s.threads[i].key);
      }
    }
  }

  lemma GenuineStep(cfg: Config, s: State, m: Move)
    requires OperationsAreUncached(s) && ValuesAreGenuine(s) && Enabled(s, m)
    ensures ValuesAreGenuine(Step(cfg, s, m))
  {
    hide Conflicts, Stored, OperationsAreUncached;
    EntriesStep(cfg, s, m);
    var s', th := Step(cfg, s, m), s.threads[m.thread];
    assert ThreadIsGenuine(s, th);
    assert s.produced <= s'.produced;
    assert forall e :: e in s.entries ==> HasProduced(s, e.key, e.fingerprint, e.value);
    forall i | 0 <= i < |s'.threads| ensures ThreadIsGenuine(s', s'.threads[i]) {
      if i != m.thread {
        assert s'.threads[i] == s.threads[i] && ThreadIsGenuine(s, s.threads[i]);
      }
    }
  }

  lemma BoundStep(cfg: Config, s: State, m: Move)
    requires OperationsAreUncached(s) && TableIsBounded(cfg, s) && Enabled(s, m)
    ensures TableIsBounded(cfg, Step(cfg, s, m))
  {
    hide Conflicts, OperationsAreUncached;
    EntriesStep(cfg, s, m);
    assert forall e :: e in s.entries ==> e.expiresAt <= s.now + cfg.ttl;
  }

  lemma {:induction false} EveryRunKeepsTheInvariant(cfg: Config, run: seq<State>, moves: seq<Move>, k: nat)
    requires IsRun(cfg, run, moves) && k < |run|
    ensures Invariant(cfg, run[k])
  {
    if k > 0 {
      EveryRunKeepsTheInvariant(cfg, run, moves, k - 1);
      var s, m := run[k - 1], moves[k - 1];
      assert TakesStep(cfg, run, moves, k - 1);
      LocksStep(cfg, s, m);
      UncachedStep(cfg, s, m);
      GenuineStep(cfg, s, m);
      BoundStep(cfg, s, m);
    }
  }

  /** Two operations for one key never overlap, in any state of any interleaving. */
  lemma OperationsForAKeyNeverOverlap(cfg: Config, run: seq<State>, moves: seq<Move>, k: nat, i: nat, j: nat)
    requires IsRun(cfg, run, moves) && k < |run| && i < j < |run[k].threads|
    requires run[k].threads[i].InOperation() && run[k].threads[j].InOperation()
    ensures run[k].threads[i].key != run[k].threads[j].key
  {
    EveryRunKeepsTheInvariant(cfg, run, moves, k);
  }

  /** An operation starts only when the table holds no live entry for its key. */
  lemma OperationsStartUncached(cfg: Config, run: seq<State>, moves: seq<Move>, k: nat)
    requires IsRun(cfg, run, moves) && k < |moves| && TakesStep(cfg, run, moves, k)
    requires var i := moves[k].thread; !run[k].threads[i].phase.Running? && run[k + 1].threads[i].phase.Running?
    ensures var key := run[k].threads[moves[k].thread].key;
            forall e :: e in run[k].entries && e.key == key ==> e.expiresAt <= moves[k].at
  {
    var s, m := run[k], moves[k];
    assert TakesStep(cfg, run, moves, k);
    assert s.threads[m.thread].phase.Holding?;
    forall e | e in s.entries && e.key == s.threads[m.thread].key ensures e.expiresAt <= m.at {
      if e.expiresAt > m.at {
        LiveKeeps(s.entries, m.at, e);
      }
    }
  }

  lemma {:induction false} LiveKeeps(entries: seq<Entry>, now: real, e: Entry)
    requires e in entries && e.expiresAt > now
    ensures e in Live(entries, now)
  {
    if entries[0] != e {
      assert e in entries[1..];
      LiveKeeps(entries[1..], now, e);
    }
  }

  /** Every value a thread returns was produced by an operation under its own key and fingerprint. */
  lemma ReturnedValuesAreProduced(cfg: Config, run: seq<State>, moves: seq<Move>, k: nat, i: nat)
    requires IsRun(cfg, run, moves) && k < |run| && i < |run[k].threads|
    requires run[k].threads[i].phase.Done? && run[k].threads[i].phase.outcome.Returned?
    ensures var th := run[k].threads[i]; (th.key, th.fingerprint, th.phase.outcome.value) in run[k].produced
  {
    EveryRunKeepsTheInvariant(cfg, run, moves, k);
    assert ThreadIsGenuine(run[k], run[k].threads[i]);
  }

  lemma NewEntrySurvives(entries: seq<Entry>, maxEntries: nat, entry: Entry)
    requires Absent(entries, entry.key) && maxEntries >= 1
    requires forall k :: 0 <= k < |entries| ==> entries[k].expiresAt <= entry.expiresAt
    ensures entry in Stored(entries, maxEntries, entry) && |Stored(entries, maxEntries, entry)| <= maxEntries
  {
    SetAbsent(entries, entry);
    NewestSurvivesTrim(entries + [entry], maxEntries);
  }

  /** A stored result survives its own trim, and the table never exceeds its bound. */
  lemma StoredResultSurvives(cfg: Config, run: seq<State>, moves: seq<Move>, k: nat)
    requires IsRun(cfg, run, moves) && k < |moves| && cfg.maxEntries >= 1 && cfg.ttl >= 0.0
    requires TakesStep(cfg, run, moves, k) && run[k].threads[moves[k].thread].phase.Storing?
    ensures var th := run[k].threads[moves[k].thread];
            Entry(th.key, th.fingerprint, th.phase.value, moves[k].at + cfg.ttl) in run[k + 1].entries
    ensures |run[k + 1].entries| <= cfg.maxEntries
  {
    hide Stored, Live, LocksAreExclusive, ValuesAreGenuine;
    EveryRunKeepsTheInvariant(cfg, run, moves, k);
    var s, m := run[k], moves[k];
    var th := s.threads[m.thread];
    var entry := Entry(th.key, th.fingerprint, th.phase.value, m.at + cfg.ttl);
    assert TakesStep(cfg, run, moves, k);
    NewEntrySurvives(s.entries, cfg.maxEntries, entry);
  }

  // ----- What a thread finds -----

  ghost predicate UniqueKeys(entries: seq<Entry>) {
    forall j, k :: 0 <= j < k < |entries| ==> entries[j].key != entries[k].key
  }

  ghost predicate SortedByExpiry(entries: seq<Entry>) {
    forall j, k :: 0 <= j < k < |entries| ==> entries[j].expiresAt <= entries[k].expiresAt
  }

  lemma {:induction false} LookupFinds(entries: seq<Entry>, e: Entry)
    requires UniqueKeys(entries) && e in entries
    ensures Lookup(entries, e.key) == Some(e)
  {
    if entries[0] != e {
      var k :| 0 <= k < |entries| && entries[k] == e;
      assert entries[0].key != entries[k].key && entries[1..][k - 1] == e;
      LookupFinds(entries[1..], e);
    }
  }

  /** The unexpired entries of a table whose expiries are in order are its end. */
  lemma {:induction false} LiveIsASuffix(entries: seq<Entry>, now: real) returns (d: nat)
    requires SortedByExpiry(entries)
    ensures d <= |entries| && Live(entries, now) == entries[d..]
    ensures d > 0 ==> entries[d - 1].expiresAt <= now
  {
    if entries == [] {
      d := 0;
    } else if entries[0].expiresAt <= now {
      var r := LiveIsASuffix(entries[1..], now);
      d := r + 1;
      assert entries[1..][r..] == entries[d..];
    } else {
      d := 0;
      AllLive(entries, now);
    }
  }

  lemma {:induction false} AllLive(entries: seq<Entry>, now: real)
    requires forall k :: 0 <= k < |entries| ==> entries[k].expiresAt > now
    ensures Live(entries, now) == entries
  {
    if entries != [] {
      AllLive(entries[1..], now);
    }
  }

  lemma SuffixIsSorted(entries: seq<Entry>, d: nat)
    requires SortedByExpiry(entries) && d <= |entries|
    ensures SortedByExpiry(entries[d..])
  {
  }

  lemma FirstIsOldest(entries: seq<Entry>)
    requires SortedByExpiry(entries) && entries != []
    ensures Oldest(entries) == 0 && DropAt(entries, 0) == entries[1..]
  {
  }

  /** A trim of such a table keeps its end. */
  lemma {:induction false} TrimIsASuffix(entries: seq<Entry>, maxEntries: nat)
    requires SortedByExpiry(entries)
    ensures Trim(entries, maxEntries) == entries[if |entries| > maxEntries then |entries| - maxEntries else 0..]
    decreases |entries|
  {
    hide SortedByExpiry, Oldest;
    if |entries| > maxEntries {
      FirstIsOldest(entries);
      SuffixIsSorted(entries, 1);
      var rest := entries[1..];
      TrimIsASuffix(rest, maxEntries);
      if |rest| > maxEntries {
        assert rest[|rest| - maxEntries..] == entries[|entries| - maxEntries..];
      }
    }
  }

  /** Everything that was stored before state `k`, in order. */
  ghost function StoredBy(cfg: Config, run: seq<State>, moves: seq<Move>, k: nat): seq<Entry>
    requires IsRun(cfg, run, moves) && k < |run|
  {
    if k == 0 then []
    else
      assert TakesStep(cfg, run, moves, k - 1);
      var th, m := run[k - 1].threads[moves[k - 1].thread], moves[k - 1];
      StoredBy(cfg, run, moves, k - 1)
      + if th.phase.Storing? then [Entry(th.key, th.fingerprint, th.phase.value, m.at + cfg.ttl)] else []
  }

  /** The table is the end of what was stored; what it lost has expired, or as many entries as it may hold follow. */
  ghost predicate HoldsTheEnd(cfg: Config, log: seq<Entry>, entries: seq<Entry>, now: real, d: nat) {
    && d <= |log| && entries == log[d..] && SortedByExpiry(log)
    && (forall k :: 0 <= k < |log| ==> log[k].expiresAt <= now + cfg.ttl)
    && (forall k :: 0 <= k < d ==> log[k].expiresAt <= now || |log| - k > cfg.maxEntries)
  }

  lemma PurgedHoldsTheEnd(cfg: Config, log: seq<Entry>, entries: seq<Entry>, now: real, later: real, d: nat)
    returns (d': nat)
    requires HoldsTheEnd(cfg, log, entries, now, d) && now <= later
    ensures HoldsTheEnd(cfg, log, Live(entries, later), later, d')
  {
    hide SortedByExpiry, Live;
    SuffixIsSorted(log, d);
    var r := LiveIsASuffix(entries, later);
    d' := d + r;
    assert log[d..][r..] == log[d'..];
    if r > 0 {
      assert log[d' - 1] == entries[r - 1];
    }
  }

  lemma LaterIsSorted(log: seq<Entry>, entry: Entry)
    requires SortedByExpiry(log) && forall k :: 0 <= k < |log| ==> log[k].expiresAt <= entry.expiresAt
    ensures SortedByExpiry(log + [entry])
  {
  }

  lemma GrownHoldsTheEnd(cfg: Config, log: seq<Entry>, entries: seq<Entry>, now: real, later: real, d: nat,
                         entry: Entry)
    returns (d': nat)
    requires HoldsTheEnd(cfg, log, entries, now, d) && now <= later
    requires Absent(entries, entry.key) && entry.expiresAt == later + cfg.ttl
    ensures HoldsTheEnd(cfg, log + [entry], Stored(entries, cfg.maxEntries, entry), later, d')
  {
    hide Trim, Absent, Set, SortedByExpiry;
    SetAbsent(entries, entry);
    var log', grown := log + [entry], entries + [entry];
    LaterIsSorted(log, entry);
    SuffixIsSorted(log', d);
    assert grown == log'[d..];
    TrimIsASuffix(grown, cfg.maxEntries);
    var r := if |grown| > cfg.maxEntries then |grown| - cfg.maxEntries else 0;
    d' := d + r;
    assert grown[r..] == log'[d'..];
  }

  /** In every run. */
  lemma {:induction false} TableHoldsTheEnd(cfg: Config, run: seq<State>, moves: seq<Move>, k: nat) returns (d: nat)
    requires IsRun(cfg, run, moves) && k < |run|
    ensures HoldsTheEnd(cfg, StoredBy(cfg, run, moves, k), run[k].entries, run[k].now, d)
  {
    hide HoldsTheEnd, Invariant, Live, Stored, Conflicts, LocksAreExclusive, ValuesAreGenuine, TableIsBounded;
    if k == 0 {
      d := 0;
      EmptyHoldsTheEnd(cfg, run[0].now);
    } else {
      d := TableHoldsTheEnd(cfg, run, moves, k - 1);
      EveryRunIsUncached(cfg, run, moves, k - 1);
      assert TakesStep(cfg, run, moves, k - 1);
      var s, m := run[k - 1], moves[k - 1];
      var th, log := s.threads[m.thread], StoredBy(cfg, run, moves, k - 1);
      if th.phase.Storing? {
        d := GrownHoldsTheEnd(cfg, log, s.entries, s.now, m.at, d,
                              Entry(th.key, th.fingerprint, th.phase.value, m.at + cfg.ttl));
      } else {
        assert log + [] == log;
        if run[k].entries == s.entries {
          HoldsTheEndLater(cfg, log, s.entries, s.now, m.at, d);
        } else {
          d := PurgedHoldsTheEnd(cfg, log, s.entries, s.now, m.at, d);
        }
      }
    }
  }

  lemma EmptyHoldsTheEnd(cfg: Config, now: real)
    ensures HoldsTheEnd(cfg, [], [], now, 0)
  {
  }

  lemma HoldsTheEndLater(cfg: Config, log: seq<Entry>, entries: seq<Entry>, now: real, later: real, d: nat)
    requires HoldsTheEnd(cfg, log, entries, now, d) && now <= later
    ensures HoldsTheEnd(cfg, log, entries, later, d)
  {
  }

  lemma EveryRunIsUncached(cfg: Config, run: seq<State>, moves: seq<Move>, k: nat)
    requires IsRun(cfg, run, moves) && k < |run|
    ensures OperationsAreUncached(run[k])
  {
    EveryRunKeepsTheInvariant(cfg, run, moves, k);
  }

  /** What a lookup among the unexpired entries finds. */
  lemma LookupLive(entries: seq<Entry>, key: string, now: real)
    requires UniqueKeys(entries)
    ensures forall e :: e in entries && e.key == key && e.expiresAt > now ==> Lookup(Live(entries, now), key) == Some(e)
    ensures forall e :: Lookup(Live(entries, now), key) == Some(e) ==>
              e in entries && e.key == key && e.expiresAt > now
  {
    forall e | e in entries && e.key == key && e.expiresAt > now ensures Lookup(Live(entries, now), key) == Some(e) {
      LiveKeeps(entries, now, e);
      LiveKeepsUnique(entries, now);
      LookupFinds(Live(entries, now), e);
    }
  }

  lemma {:induction false} LiveKeepsUnique(entries: seq<Entry>, now: real)
    requires UniqueKeys(entries)
    ensures UniqueKeys(Live(entries, now))
  {
    if entries != [] {
      LiveKeepsUnique(entries[1..], now);
      var rest := Live(entries[1..], now);
      forall k | 0 <= k < |rest| ensures entries[0].key != rest[k].key {
        var j :| 0 <= j < |entries[1..]| && entries[1..][j] == rest[k];
        assert entries[j + 1] == rest[k];
      }
    }
  }

  /** A table entry that is not expired, for the key of a thread. */
  ghost predicate Serves(s: State, at: real, key: string, e: Entry) {
    e in s.entries && e.key == key && e.expiresAt > at
  }

  /**
   * What a critical section of a thread finds in the table of that moment decides where the thread goes: into a
   * conflict exactly when an unexpired entry of its key has another fingerprint, away with the stored value and no
   * operation exactly when such an entry has its own, and into its operation exactly when there is none.
   */
  lemma FoundDecides(cfg: Config, run: seq<State>, moves: seq<Move>, k: nat)
    requires IsRun(cfg, run, moves) && k < |moves| && TakesStep(cfg, run, moves, k)
    ensures var s, at, th := run[k], moves[k].at, run[k].threads[moves[k].thread];
            var next := run[k + 1].threads[moves[k].thread].phase;
            && (th.phase.Fresh? ==>
                  && (next == Done(InvalidArguments) <==> th.key == "" || th.fingerprint == "")
                  && (next == Done(Conflict) <==>
                        th.key != "" && th.fingerprint != ""
                        && exists e :: Serves(s, at, th.key, e) && e.fingerprint != th.fingerprint)
                  && (next in {Done(InvalidArguments), Done(Conflict), Waiting}))
            && (th.phase.Holding? ==>
                  && (next == Leaving(Conflict) <==>
                        exists e :: Serves(s, at, th.key, e) && e.fingerprint != th.fingerprint)
                  && (forall v :: next == Leaving(Returned(v)) <==>
                        exists e :: Serves(s, at, th.key, e) && e.fingerprint == th.fingerprint && e.value == v)
                  && (next == Running <==> !exists e :: Serves(s, at, th.key, e)))
            && (next == Running ==> th.phase.Holding? || th.phase.Running?)
  {
    hide Live, Lookup, HoldsTheEnd, Stored, Absent;
    var s, at, th := run[k], moves[k].at, run[k].threads[moves[k].thread];
    KeysAreUnique(cfg, run, moves, k);
    LookupLive(s.entries, th.key, at);
    var found := Lookup(Live(s.entries, at), th.key);
    assert found.Some? ==> Serves(s, at, th.key, found.value);
    assert forall e :: Serves(s, at, th.key, e) ==> found == Some(e);
  }

  lemma {:induction false} KeysAreUnique(cfg: Config, run: seq<State>, moves: seq<Move>, k: nat)
    requires IsRun(cfg, run, moves) && k < |run|
    ensures UniqueKeys(run[k].entries)
  {
    hide Live, Stored, Conflicts, UniqueKeys;
    if k == 0 {
      assert UniqueKeys([]) by { NoKeys(); }
    } else {
      KeysAreUnique(cfg, run, moves, k - 1);
      EveryRunIsUncached(cfg, run, moves, k - 1);
      assert TakesStep(cfg, run, moves, k - 1);
      var s, m := run[k - 1], moves[k - 1];
      var th := s.threads[m.thread];
      if th.phase.Storing? {
        StoredKeepsUnique(s.entries, cfg.maxEntries, Entry(th.key, th.fingerprint, th.phase.value, m.at + cfg.ttl));
      } else if run[k].entries != s.entries {
        LiveKeepsUnique(s.entries, m.at);
      }
    }
  }

  lemma NoKeys()
    ensures UniqueKeys([])
  {
  }

  lemma StoredKeepsUnique(entries: seq<Entry>, maxEntries: nat, entry: Entry)
    requires UniqueKeys(entries) && Absent(entries, entry.key)
    ensures UniqueKeys(Stored(entries, maxEntries, entry))
  {
    SetAbsent(entries, entry);
    TrimKeepsUnique(entries + [entry], maxEntries);
  }

  lemma {:induction false} TrimKeepsUnique(entries: seq<Entry>, maxEntries: nat)
    requires UniqueKeys(entries)
    ensures UniqueKeys(Trim(entries, maxEntries))
    decreases |entries|
  {
    if |entries| > maxEntries {
      TrimKeepsUnique(DropAt(entries, Oldest(entries)), maxEntries);
    }
  }

  lemma {:induction false} LogGrows(cfg: Config, run: seq<State>, moves: seq<Move>, k: nat, l: nat)
    requires IsRun(cfg, run, moves) && k <= l < |run|
    ensures StoredBy(cfg, run, moves, k) <= StoredBy(cfg, run, moves, l)
    decreases l
  {
    if k < l {
      LogGrows(cfg, run, moves, k, l - 1);
    }
  }

  /**
   * A retry gets the stored result: a thread that looks again under the key and fingerprint of a result stored
   * before leaves with its value and calls no operation, until the result expires or as many results as the table
   * holds have been stored behind it.
   */
  lemma RetryGetsTheStoredResult(cfg: Config, run: seq<State>, moves: seq<Move>, k: nat, l: nat)
    requires IsRun(cfg, run, moves) && k < l < |moves| && TakesStep(cfg, run, moves, k) && TakesStep(cfg, run, moves, l)
    requires run[k].threads[moves[k].thread].phase.Storing? && run[l].threads[moves[l].thread].phase.Holding?
    requires var first, again := run[k].threads[moves[k].thread], run[l].threads[moves[l].thread];
             first.key == again.key && first.fingerprint == again.fingerprint
    requires moves[l].at < moves[k].at + cfg.ttl
    requires |StoredBy(cfg, run, moves, l)| - |StoredBy(cfg, run, moves, k)| <= cfg.maxEntries
    ensures run[l + 1].threads[moves[l].thread].phase == Leaving(Returned(run[k].threads[moves[k].thread].phase.value))
    ensures run[l + 1].produced == run[l].produced
  {
    hide Serves, HoldsTheEnd, Step, StoredBy;
    var first := run[k].threads[moves[k].thread];
    var e := Entry(first.key, first.fingerprint, first.phase.value, moves[k].at + cfg.ttl);
    StoredIsLogged(cfg, run, moves, k);
    LogGrows(cfg, run, moves, k + 1, l);
    var p := |StoredBy(cfg, run, moves, k)|;
    assert StoredBy(cfg, run, moves, l)[p] == StoredBy(cfg, run, moves, k + 1)[p] == e;
    LoggedIsHeld(cfg, run, moves, l, p);
    ServesEntry(run[l], moves[l].at, e);
    FoundDecides(cfg, run, moves, l);
    RecheckProducesNothing(cfg, run, moves, l);
  }

  lemma StoredIsLogged(cfg: Config, run: seq<State>, moves: seq<Move>, k: nat)
    requires IsRun(cfg, run, moves) && k < |moves| && TakesStep(cfg, run, moves, k)
    requires run[k].threads[moves[k].thread].phase.Storing?
    ensures var th := run[k].threads[moves[k].thread];
            StoredBy(cfg, run, moves, k + 1) == StoredBy(cfg, run, moves, k)
              + [Entry(th.key, th.fingerprint, th.phase.value, moves[k].at + cfg.ttl)]
  {
  }

  lemma RecheckProducesNothing(cfg: Config, run: seq<State>, moves: seq<Move>, l: nat)
    requires l < |moves| && TakesStep(cfg, run, moves, l) && run[l].threads[moves[l].thread].phase.Holding?
    ensures run[l + 1].produced == run[l].produced
  {
    hide Live, Lookup;
  }

  /** An unexpired result with fewer results behind it than the table holds is in the table. */
  lemma LoggedIsHeld(cfg: Config, run: seq<State>, moves: seq<Move>, l: nat, p: nat)
    requires IsRun(cfg, run, moves) && l < |run| && p < |StoredBy(cfg, run, moves, l)|
    requires StoredBy(cfg, run, moves, l)[p].expiresAt > run[l].now
    requires |StoredBy(cfg, run, moves, l)| - p <= cfg.maxEntries
    ensures StoredBy(cfg, run, moves, l)[p] in run[l].entries
  {
    hide StoredBy, IsRun, SortedByExpiry;
    var log := StoredBy(cfg, run, moves, l);
    var d := TableHoldsTheEnd(cfg, run, moves, l);
    assert log[d..][p - d] == log[p];
  }

  lemma ServesEntry(s: State, at: real, e: Entry)
    requires e in s.entries && e.expiresAt > at
    ensures Serves(s, at, e.key, e)
  {
  }
}
