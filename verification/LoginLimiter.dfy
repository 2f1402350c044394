/** The bounded limiter of login failures: a sliding window per key, the least recently used key evicted when full. */
module LoginLimiter {

  datatype Entry = Entry(key: string, attempts: seq<real>)

  datatype Config = Config(limit: nat, window: real, maxKeys: nat)

  ghost predicate ValidConfig(c: Config) {
    c.limit >= 1 && c.window > 0.0 && c.maxKeys >= 1
  }

  // ----- Specification: the ordered map, oldest use first -----

  function Find(entries: seq<Entry>, key: string): (attempts: seq<real>)
    ensures !Tracks(entries, key) ==> attempts == []
  {
    if entries == [] then []
    else if entries[0].key == key then entries[0].attempts
    else
      assert Tracks(entries[1..], key) ==> Tracks(entries, key);
      Find(entries[1..], key)
  }

  predicate Tracks(entries: seq<Entry>, key: string) {
    exists i :: 0 <= i < |entries| && entries[i].key == key
  }

  function Without(entries: seq<Entry>, key: string): (rest: seq<Entry>)
    ensures |rest| <= |entries|
  {
    if entries == [] then []
    else if entries[0].key == key then entries[1..]
    else [entries[0]] + Without(entries[1..], key)
  }

  /** `popleft` while the oldest attempt is at or before the cutoff. */
  function Prune(attempts: seq<real>, cutoff: real): seq<real> {
    if attempts != [] && attempts[0] <= cutoff then Prune(attempts[1..], cutoff) else attempts
  }

  /** The entries other than the key's own, after making room for a new one. */
  function Others(c: Config, entries: seq<Entry>, key: string): seq<Entry> {
    if Tracks(entries, key) then Without(entries, key)
    else if |entries| >= c.maxKeys && entries != [] then entries[1..]
    else entries
  }

  /** `_active`: the key becomes the most recently used, with its attempts inside the window. */
  function Touched(c: Config, entries: seq<Entry>, key: string, now: real): seq<Entry> {
    Others(c, entries, key) + [Entry(key, Prune(Find(entries, key), now - c.window))]
  }

  datatype Op = Allow(key: string, now: real) | RecordFailure(key: string, now: real) | Clear(key: string)

  function Step(c: Config, entries: seq<Entry>, op: Op): seq<Entry> {
    match op
    case Allow(key, now) => Touched(c, entries, key, now)
    case RecordFailure(key, now) =>
      Others(c, entries, key) + [Entry(key, Prune(Find(entries, key), now - c.window) + [now])]
    case Clear(key) => Without(entries, key)
  }

  // ----- The limiter -----

  class LoginRateLimiter {
    const config: Config
    var entries: seq<Entry>

    constructor (config: Config)
      requires ValidConfig(config)
      ensures this.config == config && entries == []
    {
      this.config := config;
      entries := [];
    }

    method Active(key: string, now: real) returns (attempts: seq<real>)
      modifies this
      ensures entries == Touched(config, old(entries), key, now)
      ensures attempts == Prune(Find(old(entries), key), now - config.window)
    {
      attempts := Find(entries, key);
      if !Tracks(entries, key) {
        if |entries| >= config.maxKeys && entries != [] {
          entries := entries[1..];
        }
      } else {
        entries := Without(entries, key);
      }
      var cutoff := now - config.window;
      while attempts != [] && attempts[0] <= cutoff
        invariant Prune(attempts, cutoff) == Prune(Find(old(entries), key), cutoff)
        decreases |attempts|
      {
        attempts := attempts[1..];
      }
      entries := entries + [Entry(key, attempts)];
    }

    method Allows(key: string, now: real) returns (allowed: bool)
      modifies this
      ensures entries == Step(config, old(entries), Allow(key, now))
      ensures allowed <==> |Prune(Find(old(entries), key), now - config.window)| < config.limit
    {
      var attempts := Active(key, now);
      allowed := |attempts| < config.limit;
    }

    method Record(key: string, now: real)
      modifies this
      ensures entries == Step(config, old(entries), RecordFailure(key, now))
    {
      var attempts := Active(key, now);
      var last := |entries| - 1;
      entries := entries[..last] + [Entry(key, attempts + [now])];
    }

    method Forget(key: string)
      modifies this
      ensures entries == Step(config, old(entries), Clear(key))
    {
      entries := Without(entries, key);
    }
  }

  // ----- Runs -----

  function At(c: Config, run: seq<Op>, k: nat): seq<Entry>
    requires k <= |run|
  {
    if k == 0 then [] else Step(c, At(c, run, k - 1), run[k - 1])
  }

  predicate AllowedAt(c: Config, run: seq<Op>, k: nat)
    requires k < |run| && run[k].Allow?
  {
    |Prune(Find(At(c, run, k), run[k].key), run[k].now - c.window)| < c.limit
  }

  /** The clock never goes backwards. */
  ghost predicate Monotone(run: seq<Op>) {
    forall i, j :: 0 <= i < j < |run| && !run[i].Clear? && !run[j].Clear? ==> run[i].now <= run[j].now
  }

  /** The failures recorded for a key since it was last not tracked: never seen, cleared or evicted. */
  function Failures(c: Config, run: seq<Op>, k: nat, key: string): seq<real>
    requires k <= |run|
  {
    if k == 0 || !Tracks(At(c, run, k), key) then []
    else if run[k - 1].RecordFailure? && run[k - 1].key == key then Failures(c, run, k - 1, key) + [run[k - 1].now]
    else Failures(c, run, k - 1, key)
  }

  /** Those later than `cutoff`. */
  function Later(times: seq<real>, cutoff: real): seq<real> {
    if times == [] then []
    else (if times[0] > cutoff then [times[0]] else []) + Later(times[1..], cutoff)
  }

  ghost predicate DistinctKeys(entries: seq<Entry>) {
    forall i, j :: 0 <= i < j < |entries| ==> entries[i].key != entries[j].key
  }

  ghost predicate Sorted(times: seq<real>) {
    forall i, j :: 0 <= i < j < |times| ==> times[i] <= times[j]
  }

  // ----- Lists -----

  lemma {:induction false} WithoutMembers(entries: seq<Entry>, key: string)
    requires DistinctKeys(entries)
    ensures forall e :: e in Without(entries, key) <==> e in entries && e.key != key
    ensures Tracks(entries, key) <==> |Without(entries, key)| < |entries|
  {
    if entries != [] {
      assert entries == [entries[0]] + entries[1..];
      assert forall i :: 1 <= i < |entries| ==> entries[i] == entries[1..][i - 1];
      if entries[0].key != key {
        WithoutMembers(entries[1..], key);
      }
    }
  }

  lemma {:induction false} WithoutIs(entries: seq<Entry>, key: string)
    requires DistinctKeys(entries)
    ensures DistinctKeys(Without(entries, key)) && !Tracks(Without(entries, key), key)
    ensures forall e :: e in Without(entries, key) <==> e in entries && e.key != key
    ensures Tracks(entries, key) <==> |Without(entries, key)| < |entries|
  {
    WithoutMembers(entries, key);
    var rest := Without(entries, key);
    assert forall i :: 0 <= i < |rest| ==> rest[i] in rest;
    if entries != [] && entries[0].key != key {
      WithoutIs(entries[1..], key);
      var tail := Without(entries[1..], key);
      assert rest == [entries[0]] + tail;
      forall i | 0 <= i < |tail| ensures tail[i].key != entries[0].key {
        assert tail[i] in entries[1..];
      }
    }
  }

  lemma {:induction false} FindIs(entries: seq<Entry>, e: Entry)
    requires DistinctKeys(entries) && e in entries
    ensures Find(entries, e.key) == e.attempts && Tracks(entries, e.key)
  {
    var i :| 0 <= i < |entries| && entries[i] == e;
    if entries[0].key != e.key {
      assert e == entries[1..][i - 1];
      FindIs(entries[1..], e);
    }
  }

  lemma {:induction false} PruneIsLater(times: seq<real>, cutoff: real)
    requires Sorted(times)
    ensures Prune(times, cutoff) == Later(times, cutoff)
  {
    if times != [] && times[0] <= cutoff {
      PruneIsLater(times[1..], cutoff);
      var rest := Later(times[1..], cutoff);
      assert [] + rest == rest;
      assert Later(times, cutoff) == rest;
      assert Prune(times, cutoff) == Prune(times[1..], cutoff);
    } else {
      assert forall i :: 0 <= i < |times| ==> times[0] <= times[i];
      AllLater(times, cutoff);
    }
  }

  lemma {:induction false} AllLater(times: seq<real>, cutoff: real)
    requires forall i :: 0 <= i < |times| ==> times[i] > cutoff
    ensures Later(times, cutoff) == times
  {
    if times != [] {
      AllLater(times[1..], cutoff);
    }
  }

  lemma {:induction false} LaterTwice(times: seq<real>, first: real, second: real)
    requires first <= second
    ensures Later(Later(times, first), second) == Later(times, second)
  {
    if times != [] {
      LaterTwice(times[1..], first, second);
      var rest := Later(times[1..], first);
      assert ([times[0]] + rest)[1..] == rest && [] + rest == rest;
      assert [] + Later(rest, second) == Later(rest, second);
    }
  }

  lemma {:induction false} LaterAppends(times: seq<real>, time: real, cutoff: real)
    ensures Later(times + [time], cutoff) == Later(times, cutoff) + (if time > cutoff then [time] else [])
  {
    if times == [] {
      assert [] + [time] == [time] && [time][1..] == [];
    } else {
      assert (times + [time])[1..] == times[1..] + [time];
      LaterAppends(times[1..], time, cutoff);
    }
  }

  lemma {:induction false} PruneKeeps(times: seq<real>, cutoff: real)
    ensures exists n: nat :: n <= |times| && Prune(times, cutoff) == times[n..]
  {
    if times != [] && times[0] <= cutoff {
      PruneKeeps(times[1..], cutoff);
      var n: nat :| n <= |times[1..]| && Prune(times[1..], cutoff) == times[1..][n..];
      assert times[1..][n..] == times[n + 1..];
    } else {
      assert times[0..] == times;
    }
  }

  // ----- One operation -----

  /** The entry an operation leaves for its key. */
  function Own(c: Config, entries: seq<Entry>, op: Op): Entry
    requires !op.Clear?
  {
    var attempts := Prune(Find(entries, op.key), op.now - c.window);
    Entry(op.key, if op.Allow? then attempts else attempts + [op.now])
  }

  lemma StepIs(c: Config, entries: seq<Entry>, op: Op)
    ensures Step(c, entries, op)
         == if op.Clear? then Without(entries, op.key) else Others(c, entries, op.key) + [Own(c, entries, op)]
  {
  }

  /** The table stays within its bound; other entries are kept as they are or evicted. */
  lemma StepEntries(c: Config, entries: seq<Entry>, op: Op)
    requires ValidConfig(c) && DistinctKeys(entries) && |entries| <= c.maxKeys
    ensures var next := Step(c, entries, op);
            && DistinctKeys(next) && |next| <= c.maxKeys
            && forall e :: e in next ==>
                 (e in entries && e.key != op.key) || (!op.Clear? && e == Own(c, entries, op))
  {
    hide Step, Own, Prune, Find, Without;
    StepIs(c, entries, op);
    WithoutIs(entries, op.key);
    if !op.Clear? {
      OthersAre(c, entries, op.key);
      OwnKey(c, entries, op);
      var others, own := Others(c, entries, op.key), Own(c, entries, op);
      assert forall i :: 0 <= i < |others| ==> others[i] in others;
    }
  }

  lemma OthersAre(c: Config, entries: seq<Entry>, key: string)
    requires ValidConfig(c) && DistinctKeys(entries) && |entries| <= c.maxKeys
    ensures var others := Others(c, entries, key);
            && DistinctKeys(others) && |others| < c.maxKeys
            && forall e :: e in others ==> e in entries && e.key != key
  {
    hide Without;
    WithoutIs(entries, key);
  }

  /** No operation so far happened after `now`. */
  ghost predicate NotBefore(run: seq<Op>, k: nat, now: real)
    requires k <= |run|
  {
    forall i :: 0 <= i < k && !run[i].Clear? ==> run[i].now <= now
  }

  /** From any later instant, an entry's attempts look like all the failures of its key. */
  ghost predicate Faithful(c: Config, run: seq<Op>, k: nat, e: Entry)
    requires k <= |run|
  {
    && Sorted(e.attempts)
    && forall now :: NotBefore(run, k, now) ==>
         && (forall i :: 0 <= i < |e.attempts| ==> e.attempts[i] <= now)
         && Later(e.attempts, now - c.window) == Later(Failures(c, run, k, e.key), now - c.window)
  }

  ghost predicate Sound(c: Config, run: seq<Op>, k: nat)
    requires k <= |run|
  {
    var entries := At(c, run, k);
    && DistinctKeys(entries) && |entries| <= c.maxKeys
    && forall e :: e in entries ==> Faithful(c, run, k, e)
  }

  lemma NotBeforeShorter(run: seq<Op>, k: nat, now: real)
    requires k < |run| && NotBefore(run, k + 1, now)
    ensures NotBefore(run, k, now)
  {
  }

  lemma OtherStaysFaithful(c: Config, run: seq<Op>, k: nat, e: Entry)
    requires k < |run| && Sound(c, run, k) && Sorted(e.attempts)
    requires e in At(c, run, k) && e.key != run[k].key && e in At(c, run, k + 1) && DistinctKeys(At(c, run, k + 1))
    ensures Faithful(c, run, k + 1, e)
  {
    hide At, Later, NotBefore;
    FindIs(At(c, run, k), e);
    FindIs(At(c, run, k + 1), e);
    assert Faithful(c, run, k, e);
    assert Failures(c, run, k + 1, e.key) == Failures(c, run, k, e.key);
    var next: nat := k + 1;
    forall now | NotBefore(run, next, now)
      ensures forall i :: 0 <= i < |e.attempts| ==> e.attempts[i] <= now
      ensures Later(e.attempts, now - c.window) == Later(Failures(c, run, k + 1, e.key), now - c.window)
    {
      NotBeforeShorter(run, k, now);
    }
  }

  /** What the entry of an untracked or a tracked key looks like just before an operation on it. */
  lemma AttemptsBefore(c: Config, run: seq<Op>, k: nat, key: string, now: real)
    requires k <= |run| && Sound(c, run, k) && NotBefore(run, k, now)
    ensures var attempts := Find(At(c, run, k), key);
            && Sorted(attempts) && (forall i :: 0 <= i < |attempts| ==> attempts[i] <= now)
            && Later(attempts, now - c.window) == Later(Failures(c, run, k, key), now - c.window)
  {
    hide At, Later, NotBefore;
    var entries := At(c, run, k);
    if Tracks(entries, key) {
      var i :| 0 <= i < |entries| && entries[i].key == key;
      FindIs(entries, entries[i]);
      assert Faithful(c, run, k, entries[i]);
    }
  }

  /** Pruning to one window and appending `now` changes nothing for later windows. */
  lemma LaterWindows(attempts: seq<real>, before: seq<real>, cut: real, now: real, later: real)
    requires Sorted(attempts) && cut <= later && Later(attempts, cut) == Later(before, cut)
    ensures var pruned := Prune(attempts, cut);
            && Later(pruned, later) == Later(before, later)
            && Later(pruned + [now], later) == Later(before + [now], later)
  {
    hide Later, Prune;
    PruneIsLater(attempts, cut);
    LaterTwice(attempts, cut, later);
    LaterTwice(before, cut, later);
    LaterAppends(Prune(attempts, cut), now, later);
    LaterAppends(before, now, later);
  }

  lemma PrunedStaysSorted(attempts: seq<real>, cut: real, now: real)
    requires Sorted(attempts) && forall i :: 0 <= i < |attempts| ==> attempts[i] <= now
    ensures var pruned := Prune(attempts, cut);
            && Sorted(pruned) && Sorted(pruned + [now]) && forall i :: 0 <= i < |pruned| ==> pruned[i] <= now
  {
    hide Prune;
    PruneKeeps(attempts, cut);
    var n: nat :| n <= |attempts| && Prune(attempts, cut) == attempts[n..];
    assert forall i :: 0 <= i < |attempts[n..]| ==> attempts[n..][i] == attempts[n + i];
  }

  lemma OwnIsSorted(c: Config, entries: seq<Entry>, op: Op)
    requires !op.Clear? && Sorted(Find(entries, op.key))
    requires var attempts := Find(entries, op.key); forall i :: 0 <= i < |attempts| ==> attempts[i] <= op.now
    ensures var own := Own(c, entries, op).attempts;
            Sorted(own) && forall i :: 0 <= i < |own| ==> own[i] <= op.now
  {
    hide Find, Prune, Sorted;
    PrunedStaysSorted(Find(entries, op.key), op.now - c.window, op.now);
  }

  lemma OwnIsFaithful(c: Config, run: seq<Op>, k: nat)
    requires ValidConfig(c) && k < |run| && Monotone(run) && Sound(c, run, k) && !run[k].Clear?
    requires Tracks(At(c, run, k + 1), run[k].key)
    ensures Faithful(c, run, k + 1, Own(c, At(c, run, k), run[k]))
  {
    hide At, Later, Prune, Find, Sound, Tracks, NotBefore;
    var op, e := run[k], Own(c, At(c, run, k), run[k]);
    NothingWasLater(run, k);
    AttemptsBefore(c, run, k, op.key, op.now);
    OwnIsSorted(c, At(c, run, k), op);
    var next: nat := k + 1;
    forall now | NotBefore(run, next, now)
      ensures forall i :: 0 <= i < |e.attempts| ==> e.attempts[i] <= now
      ensures Later(e.attempts, now - c.window) == Later(Failures(c, run, k + 1, op.key), now - c.window)
    {
      LastIsNotAfter(run, k, now);
      LaterWindows(Find(At(c, run, k), op.key), Failures(c, run, k, op.key), op.now - c.window, op.now, now - c.window);
    }
  }

  lemma NothingWasLater(run: seq<Op>, k: nat)
    requires k < |run| && Monotone(run) && !run[k].Clear?
    ensures NotBefore(run, k, run[k].now)
  {
  }

  lemma LastIsNotAfter(run: seq<Op>, k: nat, now: real)
    requires k < |run| && !run[k].Clear? && NotBefore(run, k + 1, now)
    ensures run[k].now <= now
  {
  }

  lemma {:induction false} RunsAreSound(c: Config, run: seq<Op>, k: nat)
    requires ValidConfig(c) && Monotone(run) && k <= |run|
    ensures Sound(c, run, k)
  {
    hide Step, Own, Faithful, Failures;
    if k > 0 {
      RunsAreSound(c, run, k - 1);
      var before, op := At(c, run, k - 1), run[k - 1];
      StepEntries(c, before, op);
      forall e | e in At(c, run, k) ensures Faithful(c, run, k, e) {
        if e in before && e.key != op.key {
          EntriesAreSorted(c, run, k - 1, e);
          OtherStaysFaithful(c, run, k - 1, e);
        } else {
          OwnKey(c, before, op);
          FindIs(At(c, run, k), e);
          OwnIsFaithful(c, run, k - 1);
        }
      }
    }
  }

  lemma EntriesAreSorted(c: Config, run: seq<Op>, k: nat, e: Entry)
    requires k <= |run| && Sound(c, run, k) && e in At(c, run, k)
    ensures Sorted(e.attempts)
  {
  }

  lemma OwnKey(c: Config, entries: seq<Entry>, op: Op)
    ensures !op.Clear? ==> Own(c, entries, op).key == op.key
  {
  }

  /** A login is allowed exactly when fewer than `limit` failures, of those recorded for the key since it was last
      untracked, are later than the start of the window. */
  lemma AllowedExactlyBelowLimit(c: Config, run: seq<Op>, k: nat)
    requires ValidConfig(c) && Monotone(run) && k < |run| && run[k].Allow?
    ensures AllowedAt(c, run, k)
       <==> |Later(Failures(c, run, k, run[k].key), run[k].now - c.window)| < c.limit
  {
    hide At, Later, Prune, Find, Sound;
    RunsAreSound(c, run, k);
    assert NotBefore(run, k, run[k].now);
    AttemptsBefore(c, run, k, run[k].key, run[k].now);
    PruneIsLater(Find(At(c, run, k), run[k].key), run[k].now - c.window);
  }

  lemma KeyCountIsBounded(c: Config, run: seq<Op>, k: nat)
    requires ValidConfig(c) && Monotone(run) && k <= |run|
    ensures |At(c, run, k)| <= c.maxKeys
  {
    RunsAreSound(c, run, k);
  }

  // ----- Which keys stay tracked -----

  /** The keys other than `key` that operations `from` to `k` used. */
  function OthersUsed(run: seq<Op>, from: nat, k: nat, key: string): set<string>
    requires k <= |run|
  {
    set i | from <= i < k && !run[i].Clear? && run[i].key != key :: run[i].key
  }

  /** `key` is tracked, and every entry used more recently belongs to `used`. */
  predicate KeptWith(entries: seq<Entry>, key: string, used: set<string>) {
    entries != [] && (if entries[0].key == key then Within(entries[1..], used) else KeptWith(entries[1..], key, used))
  }

  predicate Within(entries: seq<Entry>, used: set<string>) {
    forall i :: 0 <= i < |entries| ==> entries[i].key in used
  }

  lemma {:induction false} KeptIsTracked(entries: seq<Entry>, key: string, used: set<string>)
    requires KeptWith(entries, key, used)
    ensures Tracks(entries, key)
  {
    if entries[0].key != key {
      KeptIsTracked(entries[1..], key, used);
      var i :| 0 <= i < |entries[1..]| && entries[1..][i].key == key;
      assert entries[i + 1].key == key;
    }
  }

  lemma {:induction false} KeptGrows(entries: seq<Entry>, key: string, used: set<string>, e: Entry)
    requires KeptWith(entries, key, used)
    ensures KeptWith(entries + [e], key, used + {e.key})
  {
    assert (entries + [e])[1..] == entries[1..] + [e];
    if entries[0].key != key {
      KeptGrows(entries[1..], key, used, e);
    }
  }

  lemma {:induction false} KeptWithMore(entries: seq<Entry>, key: string, used: set<string>, more: set<string>)
    requires KeptWith(entries, key, used) && used <= more
    ensures KeptWith(entries, key, more)
  {
    if entries[0].key != key {
      KeptWithMore(entries[1..], key, used, more);
    }
  }

  lemma {:induction false} KeptWithout(entries: seq<Entry>, key: string, used: set<string>, other: string)
    requires KeptWith(entries, key, used) && other != key
    ensures KeptWith(Without(entries, other), key, used)
  {
    if entries[0].key == key {
      WithinWithout(entries[1..], used, other);
    } else if entries[0].key != other {
      KeptWithout(entries[1..], key, used, other);
    }
  }

  lemma {:induction false} WithinWithout(entries: seq<Entry>, used: set<string>, other: string)
    requires Within(entries, used)
    ensures Within(Without(entries, other), used)
  {
    if entries != [] && entries[0].key != other {
      WithinWithout(entries[1..], used, other);
    }
  }

  lemma {:induction false} KeptIsLast(entries: seq<Entry>, key: string, attempts: seq<real>)
    requires !Tracks(entries, key)
    ensures KeptWith(entries + [Entry(key, attempts)], key, {})
  {
    if entries == [] {
      assert entries + [Entry(key, attempts)] == [Entry(key, attempts)];
    } else {
      assert entries[0].key != key;
      assert forall i :: 0 <= i < |entries[1..]| ==> entries[1..][i] == entries[i + 1];
      assert (entries + [Entry(key, attempts)])[1..] == entries[1..] + [Entry(key, attempts)];
      KeptIsLast(entries[1..], key, attempts);
    }
  }

  /** Distinct keys from a set are no more than the set. */
  lemma {:induction false} WithinIsSmall(entries: seq<Entry>, used: set<string>)
    requires DistinctKeys(entries) && Within(entries, used)
    ensures |entries| <= |used|
  {
    if entries != [] {
      var rest := entries[1..];
      assert forall i :: 0 <= i < |rest| ==> rest[i] == entries[i + 1];
      WithinIsSmall(rest, used - {entries[0].key});
      assert entries[0].key in used;
    }
  }

  lemma KeptStep(c: Config, entries: seq<Entry>, op: Op, key: string, used: set<string>)
    requires ValidConfig(c) && DistinctKeys(entries) && |entries| <= c.maxKeys
    requires KeptWith(entries, key, used) && op.key != key && (op.Clear? || |used + {op.key}| < c.maxKeys)
    ensures KeptWith(Step(c, entries, op), key, if op.Clear? then used else used + {op.key})
  {
    hide Step, Own, KeptWith, Without, DistinctKeys;
    StepIs(c, entries, op);
    KeptWithout(entries, key, used, op.key);
    if !op.Clear? {
      OwnKey(c, entries, op);
      if !Tracks(entries, op.key) && |entries| >= c.maxKeys {
        KeptWhenEvicting(c, entries, key, used, op.key);
      }
      KeptGrows(Others(c, entries, op.key), key, used, Own(c, entries, op));
    }
  }

  /** With fewer than `maxKeys` others in use, the key is not the one evicted. */
  lemma KeptWhenEvicting(c: Config, entries: seq<Entry>, key: string, used: set<string>, other: string)
    requires ValidConfig(c) && DistinctKeys(entries) && |entries| == c.maxKeys && !Tracks(entries, other)
    requires KeptWith(entries, key, used) && |used + {other}| < c.maxKeys
    ensures KeptWith(entries[1..], key, used)
  {
    if entries[0].key == key {
      var all := entries[1..] + [Entry(other, [])];
      assert forall i :: 0 <= i < |entries[1..]| ==> all[i] == entries[i + 1];
      WithinIsSmall(all, used + {other});
      assert false;
    }
  }

  /** Operation `j` used the key, and it was not cleared before step `k`. */
  ghost predicate UsedAndNotCleared(run: seq<Op>, j: nat, k: nat, key: string)
    requires j < k <= |run|
  {
    !run[j].Clear? && run[j].key == key && forall i :: j < i < k && run[i].Clear? ==> run[i].key != key
  }

  lemma {:induction false} KeptSinceUse(c: Config, run: seq<Op>, j: nat, k: nat, key: string)
    requires ValidConfig(c) && Monotone(run) && j < k <= |run| && UsedAndNotCleared(run, j, k, key)
    requires |OthersUsed(run, j, k, key)| < c.maxKeys
    ensures KeptWith(At(c, run, k), key, OthersUsed(run, j, k, key))
  {
    hide KeptWith, Step, Own, Sound, OthersUsed;
    var op, entries := run[k - 1], At(c, run, k - 1);
    RunsAreSound(c, run, k - 1);
    SoundTable(c, run, k - 1);
    OthersUsedStep(run, j, k, key);
    if op.key == key {
      StepIs(c, entries, op);
      OthersAre(c, entries, key);
      OthersUntracked(c, entries, key);
      OwnKey(c, entries, op);
      KeptIsLast(Others(c, entries, key), key, Own(c, entries, op).attempts);
      KeptWithMore(At(c, run, k), key, {}, OthersUsed(run, j, k, key));
    } else {
      var used := OthersUsed(run, j, k - 1, key);
      FewerOthers(used, OthersUsed(run, j, k, key));
      KeptSinceUse(c, run, j, k - 1, key);
      KeptStep(c, entries, op, key, used);
    }
  }

  lemma SoundTable(c: Config, run: seq<Op>, k: nat)
    requires k <= |run| && Sound(c, run, k)
    ensures DistinctKeys(At(c, run, k)) && |At(c, run, k)| <= c.maxKeys
  {
  }

  lemma OthersUntracked(c: Config, entries: seq<Entry>, key: string)
    requires ValidConfig(c) && DistinctKeys(entries) && |entries| <= c.maxKeys
    ensures !Tracks(Others(c, entries, key), key)
  {
    hide Others;
    OthersAre(c, entries, key);
    var others := Others(c, entries, key);
    assert forall i :: 0 <= i < |others| ==> others[i] in others;
  }

  lemma FewerOthers(fewer: set<string>, more: set<string>)
    requires fewer <= more
    ensures |fewer| <= |more|
  {
    if fewer != more {
      assert more == fewer + (more - fewer);
    }
  }

  lemma OthersUsedStep(run: seq<Op>, j: nat, k: nat, key: string)
    requires j < k <= |run|
    ensures OthersUsed(run, j, k, key)
         == OthersUsed(run, j, k - 1, key)
            + (if run[k - 1].Clear? || run[k - 1].key == key then {} else {run[k - 1].key})
  {
  }

  /** A key once used is still tracked while it is not cleared and fewer than `maxKeys` other keys are used. */
  lemma RecentKeysAreTracked(c: Config, run: seq<Op>, j: nat, k: nat, key: string)
    requires ValidConfig(c) && Monotone(run) && j < k <= |run| && UsedAndNotCleared(run, j, k, key)
    requires |OthersUsed(run, j, k, key)| < c.maxKeys
    ensures Tracks(At(c, run, k), key)
  {
    KeptSinceUse(c, run, j, k, key);
    KeptIsTracked(At(c, run, k), key, OthersUsed(run, j, k, key));
  }

  /** Until then every failure recorded for it counts. */
  lemma {:induction false} FailuresAreRemembered(c: Config, run: seq<Op>, j: nat, k: nat)
    requires ValidConfig(c) && Monotone(run) && j < k <= |run| && run[j].RecordFailure?
    requires UsedAndNotCleared(run, j, k, run[j].key) && |OthersUsed(run, j, k, run[j].key)| < c.maxKeys
    ensures run[j].now in Failures(c, run, k, run[j].key)
  {
    hide At, OthersUsed;
    RecentKeysAreTracked(c, run, j, k, run[j].key);
    if j < k - 1 {
      OthersUsedStep(run, j, k, run[j].key);
      FewerOthers(OthersUsed(run, j, k - 1, run[j].key), OthersUsed(run, j, k, run[j].key));
      FailuresAreRemembered(c, run, j, k - 1);
    }
  }

  /** Clearing a key drops its failures, so its next login is allowed, and leaves every other key as it is. */
  lemma ClearForgetsOnlyItsKey(c: Config, run: seq<Op>, k: nat)
    requires ValidConfig(c) && Monotone(run) && k < |run| && run[k].Clear?
    ensures !Tracks(At(c, run, k + 1), run[k].key) && Failures(c, run, k + 1, run[k].key) == []
    ensures forall other :: other != run[k].key ==>
              && (Tracks(At(c, run, k + 1), other) <==> Tracks(At(c, run, k), other))
              && Failures(c, run, k + 1, other) == Failures(c, run, k, other)
    ensures k + 1 < |run| && run[k + 1].Allow? && run[k + 1].key == run[k].key ==> AllowedAt(c, run, k + 1)
  {
    hide Sound;
    RunsAreSound(c, run, k);
    SoundTable(c, run, k);
    var before, after := At(c, run, k), At(c, run, k + 1);
    WithoutIs(before, run[k].key);
    forall other | other != run[k].key ensures Tracks(after, other) <==> Tracks(before, other) {
      SameTracking(before, after, run[k].key, other);
    }
  }

  lemma SameTracking(before: seq<Entry>, after: seq<Entry>, key: string, other: string)
    requires other != key && forall e :: e in after <==> e in before && e.key != key
    ensures Tracks(after, other) <==> Tracks(before, other)
  {
    if Tracks(before, other) {
      var i :| 0 <= i < |before| && before[i].key == other;
      assert before[i] in after;
    }
    if Tracks(after, other) {
      var i :| 0 <= i < |after| && after[i].key == other;
      assert after[i] in before;
    }
  }
}
