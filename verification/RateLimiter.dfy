/**
 * The credential-and-route token bucket that forgets idle keys, against a bucket that never forgets.
 */
module RateLimiter {

  type Key = (string, string)

  datatype Bucket = Bucket(tokens: real, updatedAt: real, lastSeen: real)

  datatype Config = Config(capacity: real, refill: real, maxKeys: nat, idleTtl: real) {
    predicate Ok() {
      capacity >= 1.0 && refill > 0.0 && maxKeys >= 1 && idleTtl > 0.0
    }
  }

  datatype Verdict = Granted | Limited | TableFull | BadRequest

  datatype Request = Request(selector: string, route: string, cost: real, now: real) {
    function Key(): Key {
      (selector, route)
    }
  }

  // ----- Request syntax -----

  predicate IsSelector(s: string) {
    1 <= |s| <= 32
    && forall k :: 0 <= k < |s| ==> 'a' <= s[k] <= 'z' || 'A' <= s[k] <= 'Z' || '0' <= s[k] <= '9' || s[k] in "_-"
  }

  predicate IsRoute(s: string) {
    2 <= |s| <= 128 && s[0] == '/'
    && forall k :: 1 <= k < |s| ==> 'a' <= s[k] <= 'z' || '0' <= s[k] <= '9' || s[k] in "/_-"
  }

  predicate WellFormed(cfg: Config, r: Request) {
    IsSelector(r.selector) && IsRoute(r.route) && 0.0 < r.cost <= cfg.capacity
  }

  // ----- The limiter -----

  function Min(a: real, b: real): real {
    if a <= b then a else b
  }

  function Elapsed(from: real, to: real): real {
    if to >= from then to - from else 0.0
  }

  /** The tokens of a bucket after refilling up to `now`. */
  function Level(cfg: Config, b: Bucket, now: real): real {
    Min(cfg.capacity, b.tokens + Elapsed(b.updatedAt, now) * cfg.refill)
  }

  function Kept(cfg: Config, buckets: map<Key, Bucket>, now: real): map<Key, Bucket> {
    map k | k in buckets && buckets[k].lastSeen > now - cfg.idleTtl :: buckets[k]
  }

  /** Refill, then take `cost` tokens if they are there. */
  function Draw(cfg: Config, buckets: map<Key, Bucket>, r: Request): (map<Key, Bucket>, bool) {
    var level := if r.Key() in buckets then Level(cfg, buckets[r.Key()], r.now) else cfg.capacity;
    if level < r.cost then (buckets[r.Key() := Bucket(level, r.now, r.now)], false)
    else (buckets[r.Key() := Bucket(level - r.cost, r.now, r.now)], true)
  }

  /** `CredentialRouteRateLimiter.allow`; only `Granted` answers true. */
  function Allow(cfg: Config, buckets: map<Key, Bucket>, r: Request): (map<Key, Bucket>, Verdict) {
    if !WellFormed(cfg, r) then (buckets, BadRequest)
    else
      var kept := Kept(cfg, buckets, r.now);
      if r.Key() !in kept && |kept| >= cfg.maxKeys then (kept, TableFull)
      else
        var (next, granted) := Draw(cfg, kept, r);
        (next, if granted then Granted else Limited)
  }

  class CredentialRouteRateLimiter {
    const cfg: Config
    var buckets: map<Key, Bucket>

    constructor (cfg: Config)
      requires cfg.Ok()
      ensures this.cfg == cfg && buckets == map[]
    {
      this.cfg := cfg;
      buckets := map[];
    }

    /** `_purge_idle`: collect the idle keys, then delete them one by one. */
    method PurgeIdle(now: real)
      modifies this
      ensures buckets == Kept(cfg, old(buckets), now)
    {
      var cutoff := now - cfg.idleTtl;
      var expired := set k | k in buckets && buckets[k].lastSeen <= cutoff;
      while expired != {}
        invariant expired <= buckets.Keys
        invariant forall k :: k in expired ==> k in old(buckets) && old(buckets)[k].lastSeen <= cutoff
        invariant forall k :: k in buckets <==> k in old(buckets) && (k in expired || old(buckets)[k].lastSeen > cutoff)
        invariant forall k :: k in buckets ==> buckets[k] == old(buckets)[k]
        decreases |expired|
      {
        var k :| k in expired;
        buckets := buckets - {k};
        expired := expired - {k};
      }
      assert buckets == Kept(cfg, old(buckets), now);
    }

    method AllowRequest(r: Request) returns (verdict: Verdict)
      modifies this
      ensures (buckets, verdict) == Allow(cfg, old(buckets), r)
    {
      if !WellFormed(cfg, r) {
        return BadRequest;
      }
      PurgeIdle(r.now);
      var bucket := Bucket(cfg.capacity, r.now, r.now);
      if r.Key() !in buckets {
        if |buckets| >= cfg.maxKeys {
          return TableFull;
        }
      } else {
        bucket := Bucket(Level(cfg, buckets[r.Key()], r.now), r.now, r.now);
      }
      if bucket.tokens < r.cost {
        buckets := buckets[r.Key() := bucket];
        return Limited;
      }
      buckets := buckets[r.Key() := bucket.(tokens := bucket.tokens - r.cost)];
      verdict := Granted;
    }
  }

  // ----- Runs, beside a limiter that never purges -----

  /** Both limiters after a run; the ideal one does not see what was refused for lack of room. */
  datatype State = State(buckets: map<Key, Bucket>, ideal: map<Key, Bucket>, verdicts: seq<Verdict>, wished: seq<bool>)

  function Next(cfg: Config, s: State, r: Request): State {
    var (buckets, verdict) := Allow(cfg, s.buckets, r);
    if verdict in {BadRequest, TableFull} then State(buckets, s.ideal, s.verdicts + [verdict], s.wished + [false])
    else
      var (ideal, granted) := Draw(cfg, s.ideal, r);
      State(buckets, ideal, s.verdicts + [verdict], s.wished + [granted])
  }

  function After(cfg: Config, run: seq<Request>): (s: State)
    ensures |s.verdicts| == |s.wished| == |run|
  {
    if run == [] then State(map[], map[], [], []) else Next(cfg, After(cfg, run[..|run| - 1]), run[|run| - 1])
  }

  ghost predicate ClockOrdered(run: seq<Request>) {
    forall i, j :: 0 <= i < j < |run| ==> run[i].now <= run[j].now
  }

  lemma {:induction false} KeyCountIsBounded(cfg: Config, run: seq<Request>)
    requires cfg.Ok()
    ensures |After(cfg, run).buckets| <= cfg.maxKeys
  {
    if run != [] {
      KeyCountIsBounded(cfg, run[..|run| - 1]);
      var before, r := After(cfg, run[..|run| - 1]).buckets, run[|run| - 1];
      var kept := Kept(cfg, before, r.now);
      SubmapIsSmaller(kept, before);
      assert r.Key() in kept ==> kept.Keys + {r.Key()} == kept.Keys;
      var next := Draw(cfg, kept, r).0;
      assert next.Keys == kept.Keys + {r.Key()};
      assert |next| == |next.Keys| && |kept| == |kept.Keys|;
    }
  }

  lemma SubmapIsSmaller(small: map<Key, Bucket>, large: map<Key, Bucket>)
    requires small.Keys <= large.Keys
    ensures |small| <= |large|
  {
    SubsetIsSmaller(small.Keys, large.Keys);
    assert |small| == |small.Keys| && |large| == |large.Keys|;
  }

  lemma {:induction false} SubsetIsSmaller(small: set<Key>, large: set<Key>)
    requires small <= large
    ensures |small| <= |large|
  {
    if small != {} {
      var k :| k in small;
      SubsetIsSmaller(small - {k}, large - {k});
    }
  }

  predicate IsSound(cfg: Config, b: Bucket, now: real) {
    0.0 <= b.tokens <= cfg.capacity && b.updatedAt <= now && b.lastSeen == b.updatedAt
  }

  /** The purging limiter holds the same buckets, except some that would be full again anyway. */
  ghost predicate Forgets(cfg: Config, s: State, now: real) {
    && (forall k :: k in s.ideal ==> IsSound(cfg, s.ideal[k], now))
    && (forall k :: k in s.buckets ==> k in s.ideal && s.buckets[k] == s.ideal[k])
    && (forall k :: k in s.ideal && k !in s.buckets ==> Level(cfg, s.ideal[k], now) == cfg.capacity)
  }

  ghost predicate Agrees(s: State) {
    |s.verdicts| == |s.wished|
    && forall i :: 0 <= i < |s.wished| && s.verdicts[i] !in {BadRequest, TableFull} ==>
         (s.verdicts[i].Granted? <==> s.wished[i])
  }

  /** If an idle key has time to refill completely, forgetting it is invisible. */
  predicate IdleRefills(cfg: Config) {
    cfg.idleTtl * cfg.refill >= cfg.capacity
  }

  lemma MoreTimeMoreTokens(cfg: Config, b: Bucket, t: real, now: real)
    requires cfg.Ok() && b.updatedAt <= t <= now
    ensures Level(cfg, b, t) <= Level(cfg, b, now) <= Level(cfg, b, t) + (now - t) * cfg.refill
  {
    assert (now - b.updatedAt) * cfg.refill == (t - b.updatedAt) * cfg.refill + (now - t) * cfg.refill;
    assert (now - t) * cfg.refill >= 0.0;
  }

  lemma IdleBucketIsFull(cfg: Config, b: Bucket, now: real)
    requires cfg.Ok() && IdleRefills(cfg) && b.tokens >= 0.0 && b.updatedAt <= now - cfg.idleTtl
    ensures Level(cfg, b, now) == cfg.capacity
  {
    assert (now - b.updatedAt) * cfg.refill
        == cfg.idleTtl * cfg.refill + (now - b.updatedAt - cfg.idleTtl) * cfg.refill;
    assert (now - b.updatedAt - cfg.idleTtl) * cfg.refill >= 0.0;
  }

  lemma ForgetsLater(cfg: Config, s: State, t: real, now: real)
    requires cfg.Ok() && Forgets(cfg, s, t) && t <= now
    ensures Forgets(cfg, s, now)
  {
    forall k | k in s.ideal && k !in s.buckets ensures Level(cfg, s.ideal[k], now) == cfg.capacity {
      MoreTimeMoreTokens(cfg, s.ideal[k], t, now);
    }
  }

  lemma ForgetsPurged(cfg: Config, s: State, now: real)
    requires cfg.Ok() && IdleRefills(cfg) && Forgets(cfg, s, now)
    ensures Forgets(cfg, s.(buckets := Kept(cfg, s.buckets, now)), now)
  {
    hide IdleRefills, Level;
    var kept := Kept(cfg, s.buckets, now);
    forall k | k in s.ideal && k !in kept ensures Level(cfg, s.ideal[k], now) == cfg.capacity {
      if k in s.buckets {
        IdleBucketIsFull(cfg, s.ideal[k], now);
      }
    }
  }

  lemma ForgetsStep(cfg: Config, s: State, r: Request)
    requires cfg.Ok() && IdleRefills(cfg) && Forgets(cfg, s, r.now) && Agrees(s)
    ensures Forgets(cfg, Next(cfg, s, r), r.now) && Agrees(Next(cfg, s, r))
  {
    if WellFormed(cfg, r) {
      hide WellFormed, IdleRefills;
      ForgetsPurged(cfg, s, r.now);
      var kept := Kept(cfg, s.buckets, r.now);
      if r.Key() in kept || |kept| < cfg.maxKeys {
        DrawsAgree(cfg, s.(buckets := kept), r);
      }
    }
  }

  lemma DrawsAgree(cfg: Config, s: State, r: Request)
    requires cfg.Ok() && Forgets(cfg, s, r.now) && 0.0 < r.cost
    ensures Draw(cfg, s.buckets, r).1 == Draw(cfg, s.ideal, r).1
    ensures Forgets(cfg, s.(buckets := Draw(cfg, s.buckets, r).0, ideal := Draw(cfg, s.ideal, r).0), r.now)
  {
    var k := r.Key();
    if k in s.ideal {
      assert Elapsed(s.ideal[k].updatedAt, r.now) * cfg.refill >= 0.0;
    }
  }

  lemma {:induction false} EveryRunForgets(cfg: Config, run: seq<Request>, now: real)
    requires cfg.Ok() && IdleRefills(cfg) && ClockOrdered(run) && (run != [] ==> run[|run| - 1].now <= now)
    ensures Forgets(cfg, After(cfg, run), now) && Agrees(After(cfg, run))
  {
    if run != [] {
      hide Forgets, Next, IdleRefills;
      var r := run[|run| - 1];
      EveryRunForgets(cfg, run[..|run| - 1], r.now);
      ForgetsStep(cfg, After(cfg, run[..|run| - 1]), r);
      ForgetsLater(cfg, After(cfg, run), r.now, now);
    }
  }

  // ----- What a window can admit -----

  /** The total cost granted to `key` within `[from, to]`. */
  function Admitted(run: seq<Request>, verdicts: seq<Verdict>, key: Key, from: real, to: real): real
    requires |verdicts| == |run|
  {
    if run == [] then 0.0
    else
      var n := |run| - 1;
      Admitted(run[..n], verdicts[..n], key, from, to)
      + if verdicts[n].Granted? && run[n].Key() == key && from <= run[n].now <= to then run[n].cost else 0.0
  }

  function IdealLevel(cfg: Config, s: State, key: Key, now: real): real {
    if key in s.ideal then Level(cfg, s.ideal[key], now) else cfg.capacity
  }

  lemma WindowsGrow(refill: real, from: real, now: real)
    requires refill > 0.0 && from <= now
    ensures refill * (now - from) >= 0.0
  {
  }

  /** What was admitted since `from`, plus what is left, is within the budget. */
  lemma {:induction false} BudgetHolds(cfg: Config, run: seq<Request>, key: Key, from: real, now: real)
    requires cfg.Ok() && IdleRefills(cfg) && ClockOrdered(run) && from <= now
    requires run != [] ==> run[|run| - 1].now <= now
    ensures Admitted(run, After(cfg, run).verdicts, key, from, now) + IdealLevel(cfg, After(cfg, run), key, now)
         <= cfg.capacity + cfg.refill * (now - from)
  {
    hide IdleRefills, Forgets, Next, Level, IdealLevel, Agrees;
    WindowsGrow(cfg.refill, from, now);
    if run == [] {
      LevelAtMostCapacity(cfg, After(cfg, run), key, now);
    } else {
      var n := |run| - 1;
      var r, before, s := run[n], After(cfg, run[..n]), After(cfg, run);
      VerdictsAppend(cfg, before, r);
      if r.now < from {
        AdmittedBefore(run, s.verdicts, key, from, now);
        LevelAtMostCapacity(cfg, s, key, now);
      } else {
        BudgetHolds(cfg, run[..n], key, from, r.now);
        WindowEnd(run[..n], before.verdicts, key, from, r.now, now);
        AdmittedLast(run, s.verdicts, key, from, now);
        EveryRunForgets(cfg, run[..n], r.now);
        BudgetOfLast(cfg, before, r, key, from, now, Admitted(run[..n], before.verdicts, key, from, now));
      }
    }
  }

  /** The budget after one more request within the window. */
  lemma BudgetOfLast(cfg: Config, before: State, r: Request, key: Key, from: real, now: real, admitted: real)
    requires cfg.Ok() && IdleRefills(cfg) && from <= r.now <= now && Forgets(cfg, before, r.now) && Agrees(before)
    requires admitted + IdealLevel(cfg, before, key, r.now) <= cfg.capacity + cfg.refill * (r.now - from)
    ensures var s := Next(cfg, before, r);
            admitted + Charge(r, s, key) + IdealLevel(cfg, s, key, now) <= cfg.capacity + cfg.refill * (now - from)
  {
    hide IdleRefills, Forgets, Next, Level;
    VerdictsAppend(cfg, before, r);
    ForgetsStep(cfg, before, r);
    BudgetStep(cfg, before, r, key);
    LevelLater(cfg, Next(cfg, before, r), key, r.now, now);
    BudgetSum(cfg.refill, from, r.now, now);
    var s := Next(cfg, before, r);
    AddUp(admitted, Charge(r, s, key), IdealLevel(cfg, before, key, r.now), IdealLevel(cfg, s, key, r.now),
          IdealLevel(cfg, s, key, now), cfg.capacity, cfg.refill * (r.now - from), cfg.refill * (now - r.now));
  }

  lemma AddUp(admitted: real, charge: real, l0: real, l1: real, l2: real, capacity: real, w0: real, w1: real)
    requires admitted + l0 <= capacity + w0 && l1 + charge <= l0 && l2 <= l1 + w1
    ensures admitted + charge + l2 <= capacity + (w0 + w1)
  {
  }

  lemma BudgetSum(refill: real, from: real, t: real, now: real)
    ensures refill * (now - from) == refill * (t - from) + refill * (now - t)
  {
  }

  lemma LevelAtMostCapacity(cfg: Config, s: State, key: Key, now: real)
    ensures IdealLevel(cfg, s, key, now) <= cfg.capacity
  {
  }

  lemma VerdictsAppend(cfg: Config, s: State, r: Request)
    ensures var next := Next(cfg, s, r);
            |next.verdicts| == |s.verdicts| + 1 && next.verdicts[..|s.verdicts|] == s.verdicts
  {
  }

  lemma AdmittedLast(run: seq<Request>, verdicts: seq<Verdict>, key: Key, from: real, to: real)
    requires run != [] && |verdicts| == |run| && from <= run[|run| - 1].now <= to
    ensures var n := |run| - 1;
            Admitted(run, verdicts, key, from, to) == Admitted(run[..n], verdicts[..n], key, from, to)
              + if verdicts[n].Granted? && run[n].Key() == key then run[n].cost else 0.0
  {
  }

  lemma LevelLater(cfg: Config, s: State, key: Key, t: real, now: real)
    requires cfg.Ok() && t <= now && Forgets(cfg, s, t)
    ensures IdealLevel(cfg, s, key, now) <= IdealLevel(cfg, s, key, t) + cfg.refill * (now - t)
  {
    assert cfg.refill * (now - t) >= 0.0;
    if key in s.ideal {
      MoreTimeMoreTokens(cfg, s.ideal[key], t, now);
    }
  }

  /** What the last request of a state took from `key`. */
  function Charge(r: Request, s: State, key: Key): real
    requires s.verdicts != []
  {
    if s.verdicts[|s.verdicts| - 1].Granted? && r.Key() == key then r.cost else 0.0
  }

  /** One request: whatever is granted is taken from the ideal bucket. */
  lemma BudgetStep(cfg: Config, s: State, r: Request, key: Key)
    requires cfg.Ok() && IdleRefills(cfg) && Forgets(cfg, s, r.now) && Agrees(s)
    ensures IdealLevel(cfg, Next(cfg, s, r), key, r.now) + Charge(r, Next(cfg, s, r), key)
         <= IdealLevel(cfg, s, key, r.now)
  {
    ForgetsStep(cfg, s, r);
    hide IdleRefills, WellFormed, Kept;
    var next := Next(cfg, s, r);
    assert next.verdicts[|s.verdicts|].Granted? ==> next.wished[|s.wished|];
    if r.Key() == key && r.Key() in next.ideal {
      assert Elapsed(r.now, r.now) * cfg.refill == 0.0;
    }
  }

  lemma {:induction false} AdmittedBefore(run: seq<Request>, verdicts: seq<Verdict>, key: Key, from: real, to: real)
    requires |verdicts| == |run| && ClockOrdered(run) && (run != [] ==> run[|run| - 1].now < from)
    ensures Admitted(run, verdicts, key, from, to) == 0.0
  {
    if run != [] {
      AdmittedBefore(run[..|run| - 1], verdicts[..|run| - 1], key, from, to);
    }
  }

  lemma {:induction false} WindowEnd(run: seq<Request>, verdicts: seq<Verdict>, key: Key, from: real, t: real, to: real)
    requires |verdicts| == |run| && t <= to && forall i :: 0 <= i < |run| ==> run[i].now <= t
    ensures Admitted(run, verdicts, key, from, to) == Admitted(run, verdicts, key, from, t)
  {
    if run != [] {
      WindowEnd(run[..|run| - 1], verdicts[..|run| - 1], key, from, t, to);
    }
  }

  /** In any window, the cost granted to one key is at most the capacity plus what the window refills. */
  ghost predicate WindowBounded(cfg: Config, run: seq<Request>) {
    forall key, from, to :: from <= to ==>
      Admitted(run, After(cfg, run).verdicts, key, from, to) <= cfg.capacity + cfg.refill * (to - from)
  }

  lemma {:induction false} WindowsAreBounded(cfg: Config, run: seq<Request>, key: Key, from: real, to: real)
    requires cfg.Ok() && IdleRefills(cfg) && ClockOrdered(run) && from <= to
    ensures Admitted(run, After(cfg, run).verdicts, key, from, to) <= cfg.capacity + cfg.refill * (to - from)
  {
    if run == [] || run[|run| - 1].now <= to {
      BudgetHolds(cfg, run, key, from, to);
      EveryRunForgets(cfg, run, to);
      var s := After(cfg, run);
      if key in s.ideal {
        assert Elapsed(s.ideal[key].updatedAt, to) * cfg.refill >= 0.0;
      }
    } else {
      var n := |run| - 1;
      assert After(cfg, run).verdicts[..n] == After(cfg, run[..n]).verdicts;
      WindowsAreBounded(cfg, run[..n], key, from, to);
    }
  }

  // ----- What a window must admit -----

  /** The window from `at` on holds no more than what is left: everything else of its budget has been granted. */
  ghost predicate IsBackedBy(cfg: Config, run: seq<Request>, verdicts: seq<Verdict>, key: Key, level: real, at: real,
                             now: real)
    requires |verdicts| == |run|
  {
    at <= now && level >= cfg.capacity + cfg.refill * (now - at) - Admitted(run, verdicts, key, at, now)
  }

  ghost predicate CostsArePositive(run: seq<Request>, verdicts: seq<Verdict>)
    requires |verdicts| == |run|
  {
    forall i :: 0 <= i < |run| && verdicts[i].Granted? ==> run[i].cost > 0.0
  }

  lemma {:induction false} AdmittedIsPositive(run: seq<Request>, verdicts: seq<Verdict>, key: Key, from: real, to: real)
    requires |verdicts| == |run| && CostsArePositive(run, verdicts)
    ensures Admitted(run, verdicts, key, from, to) >= 0.0
  {
    if run != [] {
      AdmittedIsPositive(run[..|run| - 1], verdicts[..|run| - 1], key, from, to);
    }
  }

  lemma {:induction false} EveryRunGrantsCost(cfg: Config, run: seq<Request>)
    ensures CostsArePositive(run, After(cfg, run).verdicts)
  {
    hide WellFormed, Kept, Draw;
    if run != [] {
      var n := |run| - 1;
      EveryRunGrantsCost(cfg, run[..n]);
      VerdictsAppend(cfg, After(cfg, run[..n]), run[n]);
      GrantCosts(cfg, After(cfg, run[..n]), run[n]);
    }
  }

  lemma GrantCosts(cfg: Config, s: State, r: Request)
    ensures Next(cfg, s, r).verdicts[|s.verdicts|].Granted? ==> r.cost > 0.0
  {
    hide Kept, Draw;
  }

  /** The tokens of a key now: a full bucket if the limiter holds none. */
  function RealLevel(cfg: Config, buckets: map<Key, Bucket>, key: Key, now: real): real {
    if key in buckets then Level(cfg, buckets[key], now) else cfg.capacity
  }

  /** A full bucket is backed by the window that begins now. */
  lemma FullIsBacked(cfg: Config, run: seq<Request>, verdicts: seq<Verdict>, key: Key, level: real, now: real)
    requires |verdicts| == |run| && CostsArePositive(run, verdicts) && level >= cfg.capacity
    ensures IsBackedBy(cfg, run, verdicts, key, level, now, now)
  {
    AdmittedIsPositive(run, verdicts, key, now, now);
  }

  /** Refilled up to a later time. */
  lemma LaterIsBacked(cfg: Config, run: seq<Request>, verdicts: seq<Verdict>, key: Key, b: Bucket, at: real, t: real,
                      now: real) returns (at': real)
    requires cfg.Ok() && |verdicts| == |run| && CostsArePositive(run, verdicts) && b.updatedAt <= t <= now
    requires forall i :: 0 <= i < |run| ==> run[i].now <= t
    requires IsBackedBy(cfg, run, verdicts, key, Level(cfg, b, t), at, t)
    ensures IsBackedBy(cfg, run, verdicts, key, Level(cfg, b, now), at', now)
  {
    hide CostsArePositive, Admitted;
    if Level(cfg, b, now) >= cfg.capacity {
      at' := now;
      FullIsBacked(cfg, run, verdicts, key, Level(cfg, b, now), now);
    } else {
      at' := at;
      WindowEnd(run, verdicts, key, at, t, now);
      BudgetSum(cfg.refill, at, t, now);
      BudgetSum(cfg.refill, b.updatedAt, t, now);
    }
  }

  ghost predicate UpdatedBy(s: State, now: real) {
    forall k :: k in s.buckets ==> s.buckets[k].updatedAt <= now
  }

  lemma UpdatedStep(cfg: Config, s: State, r: Request)
    requires UpdatedBy(s, r.now)
    ensures UpdatedBy(Next(cfg, s, r), r.now)
  {
    hide WellFormed, Level;
  }

  /** What one request makes of the bucket of a key, at its own time. */
  lemma StepIsBacked(cfg: Config, run: seq<Request>, r: Request, key: Key, at: real) returns (at': real)
    requires cfg.Ok() && CostsArePositive(run, After(cfg, run).verdicts)
    requires CostsArePositive(run + [r], After(cfg, run + [r]).verdicts)
    requires UpdatedBy(After(cfg, run), r.now)
    requires var s := After(cfg, run);
             IsBackedBy(cfg, run, s.verdicts, key, RealLevel(cfg, s.buckets, key, r.now), at, r.now)
    ensures var s := After(cfg, run + [r]);
            IsBackedBy(cfg, run + [r], s.verdicts, key, RealLevel(cfg, s.buckets, key, r.now), at', r.now)
  {
    hide WellFormed, Admitted, CostsArePositive, IsBackedBy;
    var before, s := After(cfg, run), After(cfg, run + [r]);
    assert (run + [r])[..|run|] == run && s == Next(cfg, before, r);
    VerdictsAppend(cfg, before, r);
    at' := at;
    if RealLevel(cfg, s.buckets, key, r.now) >= cfg.capacity {
      at' := r.now;
      FullIsBacked(cfg, run + [r], s.verdicts, key, RealLevel(cfg, s.buckets, key, r.now), r.now);
    } else {
      Drained(cfg, before, r, key);
      StillBacked(cfg, run, before.verdicts, r, s.verdicts, key, RealLevel(cfg, before.buckets, key, r.now),
                  RealLevel(cfg, s.buckets, key, r.now), at);
    }
  }

  /** A bucket that is not full has lost exactly what the request was granted. */
  lemma Drained(cfg: Config, s: State, r: Request, key: Key)
    requires cfg.Ok() && UpdatedBy(s, r.now)
    requires RealLevel(cfg, Next(cfg, s, r).buckets, key, r.now) < cfg.capacity
    ensures RealLevel(cfg, Next(cfg, s, r).buckets, key, r.now) >= RealLevel(cfg, s.buckets, key, r.now)
              - if Next(cfg, s, r).verdicts[|s.verdicts|].Granted? && r.Key() == key then r.cost else 0.0
  {
    hide WellFormed;
    assert Elapsed(r.now, r.now) * cfg.refill == 0.0;
  }

  lemma StillBacked(cfg: Config, run: seq<Request>, verdicts: seq<Verdict>, r: Request, verdicts': seq<Verdict>,
                    key: Key, level: real, level': real, at: real)
    requires |verdicts| == |run| && |verdicts'| == |run| + 1 && verdicts'[..|run|] == verdicts
    requires IsBackedBy(cfg, run, verdicts, key, level, at, r.now)
    requires level' >= level - if verdicts'[|run|].Granted? && r.Key() == key then r.cost else 0.0
    ensures IsBackedBy(cfg, run + [r], verdicts', key, level', at, r.now)
  {
    var next := run + [r];
    assert next[..|run|] == run;
    AdmittedLast(next, verdicts', key, at, r.now);
  }

  /** In every run, whatever the configuration, every bucket is backed by some window. */
  lemma {:induction false} EveryLevelIsBacked(cfg: Config, run: seq<Request>, key: Key, now: real) returns (at: real)
    requires cfg.Ok() && ClockOrdered(run) && (run != [] ==> run[|run| - 1].now <= now)
    ensures var s := After(cfg, run);
            IsBackedBy(cfg, run, s.verdicts, key, RealLevel(cfg, s.buckets, key, now), at, now)
    ensures UpdatedBy(After(cfg, run), now)
    decreases |run|
  {
    hide IsBackedBy, RealLevel, Next, CostsArePositive, ClockOrdered, UpdatedBy;
    var s := After(cfg, run);
    EveryRunGrantsCost(cfg, run);
    if run == [] {
      NothingHeld(cfg, key, now);
      at := now;
      FullIsBacked(cfg, run, s.verdicts, key, cfg.capacity, now);
    } else {
      var n := |run| - 1;
      var r := run[n];
      OrderedPrefix(run);
      at := EveryLevelIsBacked(cfg, run[..n], key, r.now);
      EveryRunGrantsCost(cfg, run[..n]);
      assert run[..n] + [r] == run;
      at := StepIsBacked(cfg, run[..n], r, key, at);
      UpdatedStep(cfg, After(cfg, run[..n]), r);
      UpdatedLater(s, r.now, now);
      at := RealLevelLater(cfg, run, s, key, at, r.now, now);
    }
  }

  lemma NothingHeld(cfg: Config, key: Key, now: real)
    ensures RealLevel(cfg, map[], key, now) == cfg.capacity && UpdatedBy(State(map[], map[], [], []), now)
  {
  }

  lemma OrderedPrefix(run: seq<Request>)
    requires ClockOrdered(run) && run != []
    ensures var n := |run| - 1;
            && ClockOrdered(run[..n]) && (run[..n] != [] ==> run[..n][n - 1].now <= run[n].now)
            && forall i :: 0 <= i < |run| ==> run[i].now <= run[n].now
  {
  }

  lemma UpdatedLater(s: State, t: real, now: real)
    requires UpdatedBy(s, t) && t <= now
    ensures UpdatedBy(s, now)
  {
  }

  lemma RealLevelLater(cfg: Config, run: seq<Request>, s: State, key: Key, at: real, t: real, now: real)
    returns (at': real)
    requires cfg.Ok() && |s.verdicts| == |run| && CostsArePositive(run, s.verdicts) && UpdatedBy(s, t) && t <= now
    requires forall i :: 0 <= i < |run| ==> run[i].now <= t
    requires IsBackedBy(cfg, run, s.verdicts, key, RealLevel(cfg, s.buckets, key, t), at, t)
    ensures IsBackedBy(cfg, run, s.verdicts, key, RealLevel(cfg, s.buckets, key, now), at', now)
  {
    hide IsBackedBy, Level, CostsArePositive;
    if key in s.buckets {
      at' := LaterIsBacked(cfg, run, s.verdicts, key, s.buckets[key], at, t, now);
    } else {
      at' := now;
      FullIsBacked(cfg, run, s.verdicts, key, cfg.capacity, now);
    }
  }

  /** The request leaves the window from `from` on within its budget. */
  ghost predicate FitsWindow(cfg: Config, run: seq<Request>, r: Request, from: real) {
    Admitted(run, After(cfg, run).verdicts, r.Key(), from, r.now) + r.cost <= cfg.capacity + cfg.refill * (r.now - from)
  }

  ghost predicate FitsEveryWindow(cfg: Config, run: seq<Request>, r: Request) {
    forall from :: from <= r.now ==> FitsWindow(cfg, run, r, from)
  }

  lemma OrderedBefore(run: seq<Request>, r: Request)
    requires ClockOrdered(run + [r])
    ensures ClockOrdered(run) && (run != [] ==> run[|run| - 1].now <= r.now)
  {
    assert forall i :: 0 <= i < |run| ==> (run + [r])[i] == run[i];
    assert (run + [r])[|run|] == r;
  }

  lemma BackedAffords(cfg: Config, run: seq<Request>, r: Request, level: real, at: real)
    requires IsBackedBy(cfg, run, After(cfg, run).verdicts, r.Key(), level, at, r.now)
    requires FitsEveryWindow(cfg, run, r)
    ensures level >= r.cost
  {
    hide After, Admitted;
    assert FitsWindow(cfg, run, r, at);
  }

  /** A request is limited only when some window would exceed its budget, whatever the configuration. */
  lemma LimitedOnlyForAWindow(cfg: Config, run: seq<Request>, r: Request)
    requires cfg.Ok() && ClockOrdered(run + [r]) && FitsEveryWindow(cfg, run, r)
    ensures !Next(cfg, After(cfg, run), r).verdicts[|run|].Limited?
  {
    hide ClockOrdered, FitsEveryWindow, After, Next, RealLevel, IsBackedBy, UpdatedBy;
    OrderedBefore(run, r);
    var at := EveryLevelIsBacked(cfg, run, r.Key(), r.now);
    var s := After(cfg, run);
    BackedAffords(cfg, run, r, RealLevel(cfg, s.buckets, r.Key(), r.now), at);
    KeptLevel(cfg, s, r);
  }

  lemma KeptLevel(cfg: Config, s: State, r: Request)
    requires RealLevel(cfg, s.buckets, r.Key(), r.now) >= r.cost
    ensures !Next(cfg, s, r).verdicts[|s.verdicts|].Limited?
  {
    hide WellFormed, Level;
    if WellFormed(cfg, r) {
      CostFits(cfg, r);
    }
  }

  lemma CostFits(cfg: Config, r: Request)
    requires WellFormed(cfg, r)
    ensures r.cost <= cfg.capacity
  {
  }

  lemma GrantedFits(cfg: Config, run: seq<Request>, r: Request, from: real)
    requires cfg.Ok() && IdleRefills(cfg) && ClockOrdered(run + [r]) && from <= r.now
    requires Next(cfg, After(cfg, run), r).verdicts[|run|].Granted?
    ensures FitsWindow(cfg, run, r, from)
  {
    hide Next, Admitted, IdleRefills, ClockOrdered;
    var s, next := After(cfg, run), run + [r];
    assert next[..|run|] == run && After(cfg, next) == Next(cfg, s, r);
    VerdictsAppend(cfg, s, r);
    AdmittedLast(next, After(cfg, next).verdicts, r.Key(), from, r.now);
    WindowsAreBounded(cfg, next, r.Key(), from, r.now);
  }

  /** The keys seen within the idle TTL. */
  function ActiveKeys(cfg: Config, buckets: map<Key, Bucket>, now: real): set<Key> {
    set k | k in buckets && now < buckets[k].lastSeen + cfg.idleTtl
  }

  lemma RefusedOutright(cfg: Config, s: State, r: Request)
    ensures var verdict, active := Next(cfg, s, r).verdicts[|s.verdicts|], ActiveKeys(cfg, s.buckets, r.now);
            && (verdict == BadRequest <==> !WellFormed(cfg, r))
            && (verdict == TableFull <==> WellFormed(cfg, r) && r.Key() !in active && |active| >= cfg.maxKeys)
  {
    hide WellFormed, Draw;
    var kept := Kept(cfg, s.buckets, r.now);
    assert kept.Keys == ActiveKeys(cfg, s.buckets, r.now);
    assert |kept| == |kept.Keys|;
  }

  /**
   * Where idle keys have time to refill, a well-formed request is granted exactly when no window is left beyond its
   * budget, unless it finds the table full of other keys that are active.
   */
  lemma GrantedExactlyWhenItFits(cfg: Config, run: seq<Request>, r: Request)
    requires cfg.Ok() && IdleRefills(cfg) && ClockOrdered(run + [r])
    ensures var verdict := Next(cfg, After(cfg, run), r).verdicts[|run|];
            var active := ActiveKeys(cfg, After(cfg, run).buckets, r.now);
            && (verdict == BadRequest <==> !WellFormed(cfg, r))
            && (verdict == TableFull <==> WellFormed(cfg, r) && r.Key() !in active && |active| >= cfg.maxKeys)
            && (verdict !in {BadRequest, TableFull} ==> (verdict.Granted? <==> FitsEveryWindow(cfg, run, r)))
  {
    hide WellFormed, Next, IdleRefills, FitsWindow, ClockOrdered, After, ActiveKeys;
    RefusedOutright(cfg, After(cfg, run), r);
    VerdictsAppend(cfg, After(cfg, run), r);
    var verdict := Next(cfg, After(cfg, run), r).verdicts[|run|];
    if FitsEveryWindow(cfg, run, r) {
      LimitedOnlyForAWindow(cfg, run, r);
    }
    if verdict.Granted? {
      forall from | from <= r.now ensures FitsWindow(cfg, run, r, from) {
        GrantedFits(cfg, run, r, from);
      }
    }
  }

  // ----- Exactly when -----

  /** A full bucket is emptied, forgotten the moment it turns idle, and emptied again. */
  function DoubleSpend(cfg: Config): seq<Request> {
    [Request("a", "/a", cfg.capacity, 0.0), Request("a", "/a", cfg.capacity, cfg.idleTtl)]
  }

  lemma SpendRequestIsWellFormed(cfg: Config, now: real)
    requires cfg.Ok()
    ensures WellFormed(cfg, Request("a", "/a", cfg.capacity, now))
  {
  }

  /** A request for everything, by a key the purging limiter has just forgotten. */
  lemma SpendAll(cfg: Config, s: State, r: Request)
    requires cfg.Ok() && WellFormed(cfg, r) && r.cost == cfg.capacity && Kept(cfg, s.buckets, r.now) == map[]
    ensures var next := Next(cfg, s, r);
            && next.buckets == map[r.Key() := Bucket(0.0, r.now, r.now)]
            && next.verdicts == s.verdicts + [Granted]
            && next.wished == s.wished + [IdealLevel(cfg, s, r.Key(), r.now) >= cfg.capacity]
            && (r.Key() !in s.ideal ==> next.ideal == s.ideal[r.Key() := Bucket(0.0, r.now, r.now)])
  {
    hide WellFormed, Kept, Level;
  }

  lemma DoubleSpendIsGranted(cfg: Config)
    requires cfg.Ok()
    ensures ClockOrdered(DoubleSpend(cfg))
    ensures After(cfg, DoubleSpend(cfg)).verdicts == [Granted, Granted]
    ensures !IdleRefills(cfg) ==> After(cfg, DoubleSpend(cfg)).wished == [true, false]
  {
    hide WellFormed, Next, Level;
    var run := DoubleSpend(cfg);
    var s0, s1 := State(map[], map[], [], []), After(cfg, run[..1]);
    SpendRequestIsWellFormed(cfg, 0.0);
    SpendRequestIsWellFormed(cfg, cfg.idleTtl);
    assert run[..1] == [run[0]] && run[..1][..0] == [];
    assert After(cfg, []) == s0 && s1 == Next(cfg, s0, run[0]);
    SpendAll(cfg, s0, run[0]);
    SpendAll(cfg, s1, run[1]);
    assert After(cfg, run) == Next(cfg, s1, run[1]);
    SpentLevel(cfg);
  }

  lemma SpentLevel(cfg: Config)
    requires cfg.Ok()
    ensures Level(cfg, Bucket(0.0, 0.0, 0.0), cfg.idleTtl) == Min(cfg.capacity, cfg.idleTtl * cfg.refill)
  {
  }

  lemma DoubleSpendExceeds(cfg: Config)
    requires cfg.Ok() && !IdleRefills(cfg)
    ensures !WindowBounded(cfg, DoubleSpend(cfg))
  {
    hide After;
    var run := DoubleSpend(cfg);
    DoubleSpendIsGranted(cfg);
    var verdicts := [Granted, Granted];
    assert run[..1] == [run[0]] && verdicts[..1] == [Granted] && run[..1][..0] == [] && verdicts[..1][..0] == [];
    assert Admitted([], [], ("a", "/a"), 0.0, cfg.idleTtl) == 0.0;
    assert Admitted(run[..1], verdicts[..1], ("a", "/a"), 0.0, cfg.idleTtl) == cfg.capacity;
    assert Admitted(run, verdicts, ("a", "/a"), 0.0, cfg.idleTtl) == cfg.capacity + cfg.capacity;
    assert cfg.refill * (cfg.idleTtl - 0.0) == cfg.idleTtl * cfg.refill;
  }

  /**
   * Forgetting idle keys is invisible, and every window is bounded, exactly when an idle key has
   * had the time to refill: idle TTL times refill rate at least the capacity.
   */
  lemma PurgingIsInvisibleExactlyWhenIdleRefills(cfg: Config)
    requires cfg.Ok()
    ensures (forall run :: ClockOrdered(run) ==> Agrees(After(cfg, run))) <==> IdleRefills(cfg)
    ensures (forall run :: ClockOrdered(run) ==> WindowBounded(cfg, run)) <==> IdleRefills(cfg)
  {
    if IdleRefills(cfg) {
      forall run: seq<Request> | ClockOrdered(run) ensures Agrees(After(cfg, run)) && WindowBounded(cfg, run) {
        EveryRunForgets(cfg, run, if run == [] then 0.0 else run[|run| - 1].now);
        forall key, from, to | from <= to
          ensures Admitted(run, After(cfg, run).verdicts, key, from, to) <= cfg.capacity + cfg.refill * (to - from)
        {
          WindowsAreBounded(cfg, run, key, from, to);
        }
      }
    } else {
      DoubleSpendIsGranted(cfg);
      DoubleSpendExceeds(cfg);
      var s := After(cfg, DoubleSpend(cfg));
      assert s.verdicts[1] == Granted && !s.wished[1];
    }
  }
}
