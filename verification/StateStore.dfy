/** The bounded, expiring store of sanitized response state, and its refinement of the put history. */
module StateStore {
  import opened Common
  import opened Contracts

  datatype Record = Record(responseId: string, tenant: string, text: string, tainted: bool,
                           modalities: set<Modality>, selector: string, target: string,
                           version: int, expiresAt: real)

  datatype StateError = StateUnavailable | InvalidState

  type Key = (string, string)

  function KeyOf(r: Record): Key {
    (r.tenant, r.responseId)
  }

  // ----- Ordered-map operations -----

  function Without(records: seq<Record>, key: Key): (rest: seq<Record>)
    ensures |rest| <= |records|
  {
    if records == [] then []
    else if KeyOf(records[0]) == key then Without(records[1..], key)
    else [records[0]] + Without(records[1..], key)
  }

  function Live(records: seq<Record>, now: real): (rest: seq<Record>)
    ensures |rest| <= |records|
  {
    if records == [] then []
    else if records[0].expiresAt <= now then Live(records[1..], now)
    else [records[0]] + Live(records[1..], now)
  }

  function Find(records: seq<Record>, key: Key): (r: Option<Record>)
    ensures r.Some? ==> r.value in records && KeyOf(r.value) == key
    ensures r.None? ==> forall x :: x in records ==> KeyOf(x) != key
  {
    if records == [] then None
    else if KeyOf(records[0]) == key then Some(records[0])
    else Find(records[1..], key)
  }

  ghost predicate DistinctKeys(records: seq<Record>) {
    forall i, j :: 0 <= i < j < |records| ==> KeyOf(records[i]) != KeyOf(records[j])
  }

  ghost predicate ExpiryOrdered(records: seq<Record>) {
    forall i, j :: 0 <= i < j < |records| ==> records[i].expiresAt <= records[j].expiresAt
  }

  lemma {:induction false} WithoutMembers(records: seq<Record>, key: Key)
    ensures forall r :: r in Without(records, key) <==> r in records && KeyOf(r) != key
  {
    if records != [] {
      WithoutMembers(records[1..], key);
      assert records == [records[0]] + records[1..];
    }
  }

  lemma {:induction false} LiveMembers(records: seq<Record>, now: real)
    ensures forall r :: r in Live(records, now) <==> r in records && r.expiresAt > now
  {
    if records != [] {
      LiveMembers(records[1..], now);
      assert records == [records[0]] + records[1..];
    }
  }

  lemma {:induction false} WithoutConcat(a: seq<Record>, b: seq<Record>, key: Key)
    ensures Without(a + b, key) == Without(a, key) + Without(b, key)
  {
    if a == [] {
      assert a + b == b;
    } else {
      assert (a + b)[1..] == a[1..] + b;
      WithoutConcat(a[1..], b, key);
    }
  }

  lemma {:induction false} WithoutKeeps(records: seq<Record>, key: Key)
    requires DistinctKeys(records) && ExpiryOrdered(records)
    ensures DistinctKeys(Without(records, key)) && ExpiryOrdered(Without(records, key))
  {
    if records != [] {
      WithoutKeeps(records[1..], key);
      var rest := Without(records[1..], key);
      forall k | 0 <= k < |rest|
        ensures KeyOf(records[0]) != KeyOf(rest[k]) && records[0].expiresAt <= rest[k].expiresAt
      {
        WithoutMembers(records[1..], key);
        assert rest[k] in rest;
        var j :| 1 <= j < |records| && records[j] == rest[k];
      }
    }
  }

  lemma {:induction false} WithoutAbsent(records: seq<Record>, key: Key)
    requires forall k :: 0 <= k < |records| ==> KeyOf(records[k]) != key
    ensures Without(records, key) == records
  {
    if records != [] {
      WithoutAbsent(records[1..], key);
    }
  }

  lemma {:induction false} WithoutOne(records: seq<Record>, key: Key)
    requires DistinctKeys(records)
    ensures |Without(records, key)| >= |records| - 1
  {
    if records == [] {
    } else if KeyOf(records[0]) == key {
      WithoutAbsent(records[1..], key);
    } else {
      WithoutOne(records[1..], key);
    }
  }

  /** In an expiry-ordered store the expired records are a prefix. */
  lemma {:induction false} LiveIsSuffix(records: seq<Record>, now: real) returns (cut: nat)
    requires ExpiryOrdered(records)
    ensures cut <= |records| && Live(records, now) == records[cut..]
    ensures forall k :: 0 <= k < cut ==> records[k].expiresAt <= now
  {
    if records == [] {
      cut := 0;
    } else if records[0].expiresAt <= now {
      cut := LiveIsSuffix(records[1..], now);
      assert forall k :: 1 <= k <= cut ==> records[k] == records[1..][k - 1];
      cut := cut + 1;
    } else {
      AllLive(records, now);
      cut := 0;
    }
  }

  lemma {:induction false} AllLive(records: seq<Record>, now: real)
    requires forall r :: r in records ==> r.expiresAt > now
    ensures Live(records, now) == records
  {
    if records != [] {
      AllLive(records[1..], now);
    }
  }

  // ----- The history of puts -----

  /** What a store without bound and without expiry would hold: the latest put of every key, oldest first. */
  ghost function Unbounded(log: seq<Record>): seq<Record> {
    if log == [] then []
    else
      var r := log[|log| - 1];
      Without(Unbounded(log[..|log| - 1]), KeyOf(r)) + [r]
  }

  ghost predicate IsLatest(log: seq<Record>, i: nat, key: Key) {
    i < |log| && KeyOf(log[i]) == key && forall j :: i < j < |log| ==> KeyOf(log[j]) != key
  }

  /** The distinct keys put after position `i`. */
  ghost function KeysSince(log: seq<Record>, i: nat): set<Key> {
    set j | i < j < |log| :: KeyOf(log[j])
  }

  /** `r` is the latest put of its key, still alive, and fewer than `maxEntries` other keys were put since. */
  ghost predicate Answers(log: seq<Record>, maxEntries: nat, key: Key, selector: string, now: real, r: Record) {
    exists i: nat :: IsLatest(log, i, key) && log[i] == r && r.selector == selector
             && now < r.expiresAt && |KeysSince(log, i)| < maxEntries
  }

  ghost function KeySet(records: seq<Record>): set<Key> {
    set r | r in records :: KeyOf(r)
  }

  lemma {:induction false} DistinctKeysCount(records: seq<Record>)
    requires DistinctKeys(records)
    ensures |KeySet(records)| == |records|
  {
    if records != [] {
      DistinctKeysCount(records[1..]);
      assert KeySet(records) == {KeyOf(records[0])} + KeySet(records[1..]);
      forall r | r in records[1..] ensures KeyOf(r) != KeyOf(records[0]) {
      }
    }
  }

  lemma {:induction false} UnboundedShape(log: seq<Record>)
    requires ExpiryOrdered(log)
    ensures DistinctKeys(Unbounded(log)) && ExpiryOrdered(Unbounded(log))
    ensures forall r :: r in Unbounded(log) ==> r in log
  {
    if log != [] {
      var before, r := log[..|log| - 1], log[|log| - 1];
      UnboundedShape(before);
      var rest := Without(Unbounded(before), KeyOf(r));
      WithoutKeeps(Unbounded(before), KeyOf(r));
      WithoutMembers(Unbounded(before), KeyOf(r));
      forall k | 0 <= k < |rest| ensures rest[k].expiresAt <= r.expiresAt && KeyOf(rest[k]) != KeyOf(r) {
        assert rest[k] in rest && rest[k] in before;
      }
    }
  }

  /** Where the latest put of a key sits in the unbounded store: exactly the later distinct keys follow it. */
  lemma {:induction false} PositionOfLatest(log: seq<Record>, i: nat) returns (p: nat)
    requires i < |log| && IsLatest(log, i, KeyOf(log[i]))
    ensures p < |Unbounded(log)| && Unbounded(log)[p] == log[i]
    ensures KeySet(Unbounded(log)[p + 1..]) == KeysSince(log, i)
    decreases |log|
  {
    var before, r := log[..|log| - 1], log[|log| - 1];
    if i == |log| - 1 {
      p := |Unbounded(log)| - 1;
    } else {
      assert IsLatest(before, i, KeyOf(before[i]));
      var q := PositionOfLatest(before, i);
      p := PositionAfterPut(Unbounded(before), q, r);
      KeysAfterPut(Unbounded(before)[q + 1..], r);
      KeysSinceGrows(before, r, i);
      assert log == before + [r];
    }
  }

  lemma PositionAfterPut(u: seq<Record>, q: nat, r: Record) returns (p: nat)
    requires q < |u| && KeyOf(u[q]) != KeyOf(r)
    ensures var next := Without(u, KeyOf(r)) + [r];
            p + 1 < |next| && next[p] == u[q] && next[p + 1..] == Without(u[q + 1..], KeyOf(r)) + [r]
  {
    var key := KeyOf(r);
    assert u == u[..q] + ([u[q]] + u[q + 1..]);
    WithoutConcat(u[..q], [u[q]] + u[q + 1..], key);
    assert ([u[q]] + u[q + 1..])[1..] == u[q + 1..];
    p := |Without(u[..q], key)|;
    assert Without(u, key) == Without(u[..q], key) + ([u[q]] + Without(u[q + 1..], key));
  }

  lemma KeysSinceGrows(log: seq<Record>, r: Record, i: nat)
    requires i < |log|
    ensures KeysSince(log + [r], i) == KeysSince(log, i) + {KeyOf(r)}
  {
    var next := log + [r];
    assert KeyOf(next[|log|]) in KeysSince(next, i);
    forall k | k in KeysSince(log, i) ensures k in KeysSince(next, i) {
      var j :| i < j < |log| && KeyOf(log[j]) == k;
      assert next[j] == log[j];
    }
  }

  lemma KeysAfterPut(records: seq<Record>, r: Record)
    ensures KeySet(Without(records, KeyOf(r)) + [r]) == KeySet(records) + {KeyOf(r)}
  {
    var next := Without(records, KeyOf(r)) + [r];
    WithoutMembers(records, KeyOf(r));
    forall k | k in KeySet(records) ensures k in KeySet(next) {
      var x :| x in records && KeyOf(x) == k;
      assert k == KeyOf(r) || x in next;
    }
    assert r in next;
  }

  lemma {:induction false} LatestExists(log: seq<Record>, r: Record) returns (i: nat)
    requires r in log
    ensures IsLatest(log, i, KeyOf(r))
  {
    var last := |log| - 1;
    if KeyOf(log[last]) == KeyOf(r) {
      i := last;
    } else {
      i := LatestExists(log[..last], r);
    }
  }

  /**
   * The store holds the newest part of the unbounded store: what it dropped is expired, or it is full.
   */
  ghost predicate Refines(records: seq<Record>, log: seq<Record>, maxEntries: nat, clock: real) {
    var u := Unbounded(log);
    && ExpiryOrdered(log)
    && |records| <= |u| && |records| <= maxEntries
    && records == u[|u| - |records|..]
    && (|records| < maxEntries ==> forall k :: 0 <= k < |u| - |records| ==> u[k].expiresAt <= clock)
  }

  lemma SuffixOrdered(u: seq<Record>, d: nat)
    requires d <= |u| && DistinctKeys(u) && ExpiryOrdered(u)
    ensures DistinctKeys(u[d..]) && ExpiryOrdered(u[d..])
  {
    assert forall i :: 0 <= i < |u| - d ==> u[d..][i] == u[d + i];
  }

  lemma PurgeRefines(records: seq<Record>, log: seq<Record>, maxEntries: nat, clock: real, now: real)
    requires Refines(records, log, maxEntries, clock) && clock <= now
    ensures Refines(Live(records, now), log, maxEntries, now)
  {
    var u := Unbounded(log);
    var d := |u| - |records|;
    UnboundedShape(log);
    SuffixOrdered(u, d);
    var cut := LiveIsSuffix(records, now);
    assert u[d..][cut..] == u[d + cut..];
    if cut > 0 {
      assert u[d].expiresAt <= now;
      assert forall k :: d <= k < d + cut ==> u[k] == records[k - d];
    }
  }

  /** The newest `maxEntries` records. */
  function Newest(records: seq<Record>, maxEntries: nat): seq<Record> {
    if |records| > maxEntries then records[|records| - maxEntries..] else records
  }

  /** Insert at the end, then trim from the front. */
  function Insert(records: seq<Record>, maxEntries: nat, r: Record): seq<Record> {
    Newest(Without(records, KeyOf(r)) + [r], maxEntries)
  }

  lemma InsertRefines(records: seq<Record>, log: seq<Record>, maxEntries: nat, clock: real, r: Record)
    requires Refines(records, log, maxEntries, clock) && maxEntries >= 1
    requires forall k :: 0 <= k < |log| ==> log[k].expiresAt <= r.expiresAt
    ensures Refines(Insert(records, maxEntries, r), log + [r], maxEntries, clock)
  {
    hide Unbounded, Without;
    var u, key := Unbounded(log), KeyOf(r);
    var d := |u| - |records|;
    var front := Without(u[..d], key);
    var next := Insert(records, maxEntries, r);
    var u' := UnboundedAfter(log, r, d);
    assert next == u'[|u'| - |next|..];
    UnboundedShape(log);
    SuffixOrdered(u, d);
    WithoutOne(records, key);
    if |next| < maxEntries {
      assert |records| < maxEntries && |u'| - |next| == |front|;
      WithoutMembers(u[..d], key);
      forall k | 0 <= k < |front| ensures u'[k].expiresAt <= clock {
        assert u'[k] == front[k] && front[k] in front;
      }
    }
  }

  lemma UnboundedAfter(log: seq<Record>, r: Record, d: nat) returns (u': seq<Record>)
    requires d <= |Unbounded(log)|
    ensures u' == Unbounded(log + [r])
    ensures u' == Without(Unbounded(log)[..d], KeyOf(r)) + (Without(Unbounded(log)[d..], KeyOf(r)) + [r])
  {
    u' := Unbounded(log + [r]);
    var u := Unbounded(log);
    assert (log + [r])[..|log|] == log;
    assert u == u[..d] + u[d..];
    WithoutConcat(u[..d], u[d..], KeyOf(r));
  }

  /** A lookup in a purged store finds exactly what the history says it should. */
  lemma LookupMatchesHistory(records: seq<Record>, log: seq<Record>, maxEntries: nat, key: Key, selector: string,
                             now: real)
    requires Refines(records, log, maxEntries, now) && forall r :: r in records ==> r.expiresAt > now
    ensures forall r :: Answers(log, maxEntries, key, selector, now, r)
                   <==> Find(records, key) == Some(r) && r.selector == selector
  {
    forall r ensures Answers(log, maxEntries, key, selector, now, r)
                <==> Find(records, key) == Some(r) && r.selector == selector
    {
      if Answers(log, maxEntries, key, selector, now, r) {
        HistoryIsFound(records, log, maxEntries, key, now, r);
      }
      if Find(records, key) == Some(r) && r.selector == selector {
        FoundIsInHistory(records, log, maxEntries, key, r);
      }
    }
  }

  lemma HistoryIsFound(records: seq<Record>, log: seq<Record>, maxEntries: nat, key: Key, now: real, r: Record)
    requires Refines(records, log, maxEntries, now) && now < r.expiresAt
    requires exists i: nat :: IsLatest(log, i, key) && log[i] == r && |KeysSince(log, i)| < maxEntries
    ensures Find(records, key) == Some(r)
  {
    var i: nat :| IsLatest(log, i, key) && log[i] == r && |KeysSince(log, i)| < maxEntries;
    var u := Unbounded(log);
    UnboundedShape(log);
    var p := PositionOfLatest(log, i);
    DistinctKeysCount(u[p + 1..]);
    var d := |u| - |records|;
    assert records[p - d] == r;
    var found := Find(records, key);
    assert found.Some?;
    var q :| 0 <= q < |records| && records[q] == found.value;
    assert u[d + q] == found.value && u[d + (p - d)] == r;
  }

  lemma FoundIsInHistory(records: seq<Record>, log: seq<Record>, maxEntries: nat, key: Key, r: Record)
    requires ExpiryOrdered(log) && |records| <= |Unbounded(log)| && |records| <= maxEntries
    requires records == Unbounded(log)[|Unbounded(log)| - |records|..] && Find(records, key) == Some(r)
    ensures exists i: nat :: IsLatest(log, i, key) && log[i] == r && |KeysSince(log, i)| < maxEntries
  {
    var u := Unbounded(log);
    UnboundedShape(log);
    var d := |u| - |records|;
    var q :| 0 <= q < |records| && records[q] == r;
    assert u[d + q] == r;
    var i := LatestExists(log, r);
    var p := PositionOfLatest(log, i);
    assert p == d + q;
    DistinctKeysCount(u[p + 1..]);
  }

  // ----- The store -----

  class GatewayStateStore {
    const ttl: real
    const maxEntries: nat
    var records: seq<Record>
    /** Every successful put since the last clear, and the latest clock reading. */
    ghost var log: seq<Record>
    ghost var clock: real

    ghost predicate Valid()
      reads this
    {
      && maxEntries >= 1 && ttl >= 1.0
      && Refines(records, log, maxEntries, clock)
      && forall k :: 0 <= k < |log| ==> log[k].expiresAt <= clock + ttl
    }

    constructor (ttl: real, maxEntries: nat, ghost now: real)
      requires 1.0 <= ttl <= 86400.0 && 1 <= maxEntries <= 100_000
      ensures Valid() && this.ttl == ttl && this.maxEntries == maxEntries
      ensures records == [] && log == [] && clock == now
    {
      this.ttl, this.maxEntries := ttl, maxEntries;
      records, log, clock := [], [], now;
      new;
      assert Unbounded(log) == [];
    }

    method PurgeExpired(now: real)
      requires Valid() && clock <= now
      modifies this
      ensures Valid() && clock == now && log == old(log)
      ensures records == Live(old(records), now)
    {
      hide Refines;
      ghost var before := records;
      var kept: seq<Record> := [];
      for i := 0 to |records|
        invariant records == before && kept + Live(before[i..], now) == Live(before, now)
      {
        assert before[i..][1..] == before[i + 1..];
        if records[i].expiresAt > now {
          kept := kept + [records[i]];
        }
      }
      assert before[|before|..] == [] && kept == Live(before, now);
      PurgeRefines(records, log, maxEntries, clock, now);
      records := kept;
      clock := now;
    }

    /** Drops the oldest records while there are too many. */
    method Trim()
      modifies `records
      ensures records == Newest(old(records), maxEntries)
    {
      ghost var grown := records;
      while |records| > maxEntries
        invariant |records| <= |grown| && records == grown[|grown| - |records|..]
        invariant |records| >= maxEntries || records == grown
      {
        records := records[1..];
      }
    }

    /** `put`: the stored record is the newest of the history; invalid arguments change nothing. */
    method Put(responseId: string, tenant: string, selector: string, text: string, tainted: bool,
               modalities: set<Modality>, target: string, version: int, now: real)
      returns (r: Result<Record, StateError>)
      requires Valid() && clock <= now
      modifies this
      ensures Valid()
      ensures r.Ok? <==> (IsResponseId(responseId) && IsResponseId(selector) && IsTenantId(tenant)
                          && IsTargetId(target) && version >= 0 && |text| <= MAX_TEXT
                          && tainted == (modalities != {}))
      ensures r.Ok? ==> clock == now && log == old(log) + [r.value]
      ensures r.Ok? ==> r.value == Record(responseId, tenant, text, tainted, modalities, selector, target,
                                          version, now + ttl)
      ensures r.Err? ==> r.error == InvalidState && records == old(records) && log == old(log) && clock == old(clock)
    {
      hide Refines, Unbounded, Matches, Without, Live;
      if !IsResponseId(responseId) || !IsResponseId(selector) || !IsTenantId(tenant) || !IsTargetId(target)
         || version < 0 || |text| > MAX_TEXT || tainted != (modalities != {}) {
        return Err(InvalidState);
      }
      PurgeExpired(now);
      var record := Record(responseId, tenant, text, tainted, modalities, selector, target, version, now + ttl);
      InsertRefines(records, log, maxEntries, now, record);
      records := Without(records, KeyOf(record)) + [record];
      Trim();
      log := log + [record];
      r := Ok(record);
    }

    /** `resolve` answers from the history of puts; it may purge but never loses an answer. */
    method Resolve(responseId: string, tenant: string, selector: string, now: real)
      returns (r: Result<Record, StateError>)
      requires Valid() && clock <= now
      modifies this
      ensures Valid() && log == old(log) && clock >= old(clock) && clock <= now
      ensures forall x :: r == Ok(x) <==>
                IsResponseId(responseId) && IsResponseId(selector) && IsTenantId(tenant)
                && Answers(log, maxEntries, (tenant, responseId), selector, now, x)
      ensures r.Err? ==> r.error == StateUnavailable
    {
      if !IsResponseId(responseId) || !IsResponseId(selector) || !IsTenantId(tenant) {
        return Err(StateUnavailable);
      }
      LiveMembers(records, now);
      PurgeExpired(now);
      LookupMatchesHistory(records, log, maxEntries, (tenant, responseId), selector, now);
      var found := Find(records, (tenant, responseId));
      if found.None? || found.value.selector != selector {
        return Err(StateUnavailable);
      }
      r := Ok(found.value);
    }

    method Clear()
      requires Valid()
      modifies this
      ensures Valid() && records == [] && log == [] && clock == old(clock)
    {
      records, log := [], [];
    }
  }
}
