/** Choosing one provider among the candidates of a route. */
module ProviderSelection {
  import opened Common

  datatype Strategy = Priority | Fallback | Health | Cost

  datatype Candidate = Candidate(id: string, enabled: bool, capabilities: set<string>, priority: int, healthy: bool,
                                 cost: real)

  // ----- The order of keys -----

  /** String comparison by code point. */
  predicate Before(a: string, b: string) {
    b != "" && (a == "" || a[0] < b[0] || (a[0] == b[0] && Before(a[1..], b[1..])))
  }

  lemma {:induction false} BeforeIsTotal(a: string, b: string)
    ensures a == b || Before(a, b) || Before(b, a)
    ensures !(Before(a, b) && Before(b, a)) && !Before(a, a)
  {
    if a != "" && b != "" && a[0] == b[0] {
      BeforeIsTotal(a[1..], b[1..]);
      assert a == [a[0]] + a[1..] && b == [b[0]] + b[1..];
    }
    if a != "" {
      BeforeItself(a);
    }
  }

  lemma {:induction false} BeforeItself(a: string)
    ensures !Before(a, a)
  {
    if a != "" {
      BeforeItself(a[1..]);
    }
  }

  lemma {:induction false} BeforeIsTransitive(a: string, b: string, c: string)
    requires Before(a, b) && Before(b, c)
    ensures Before(a, c)
  {
    if a != "" && a[0] == b[0] == c[0] {
      BeforeIsTransitive(a[1..], b[1..], c[1..]);
    }
  }

  predicate RankedBefore(strategy: Strategy, a: Candidate, b: Candidate) {
    var tie := a.priority < b.priority || (a.priority == b.priority && Before(a.id, b.id));
    match strategy
    case Cost => a.cost < b.cost || (a.cost == b.cost && tie)
    case Health => (a.healthy && !b.healthy) || (a.healthy == b.healthy && tie)
    case _ => tie
  }

  lemma RankIsTotal(strategy: Strategy, a: Candidate, b: Candidate)
    ensures a.id != b.id ==> RankedBefore(strategy, a, b) || RankedBefore(strategy, b, a)
    ensures !(RankedBefore(strategy, a, b) && RankedBefore(strategy, b, a))
  {
    hide Before;
    BeforeIsTotal(a.id, b.id);
  }

  // ----- Selection -----

  predicate IsEligible(c: Candidate, required: string) {
    c.enabled && c.healthy && required in c.capabilities
  }

  function Eligible(candidates: seq<Candidate>, required: string): seq<Candidate> {
    if candidates == [] then []
    else (if IsEligible(candidates[0], required) then [candidates[0]] else []) + Eligible(candidates[1..], required)
  }

  /** The first of the least. */
  function Least(strategy: Strategy, candidates: seq<Candidate>): Candidate
    requires candidates != []
    decreases |candidates|
  {
    if |candidates| == 1 then candidates[0]
    else
      var rest := Least(strategy, candidates[1..]);
      if RankedBefore(strategy, rest, candidates[0]) then rest else candidates[0]
  }

  /** `select_provider`. */
  function Select(candidates: seq<Candidate>, required: string, strategy: Strategy): Option<Candidate> {
    var eligible := Eligible(candidates, required);
    if eligible == [] then None else Some(Least(strategy, eligible))
  }

  lemma {:induction false} EligibleMembers(candidates: seq<Candidate>, required: string)
    ensures forall c :: c in Eligible(candidates, required) <==> c in candidates && IsEligible(c, required)
  {
    if candidates != [] {
      EligibleMembers(candidates[1..], required);
      assert candidates == [candidates[0]] + candidates[1..];
    }
  }

  lemma {:induction false} LeastIsLeast(strategy: Strategy, candidates: seq<Candidate>)
    requires candidates != []
    ensures Least(strategy, candidates) in candidates
    ensures forall c :: c in candidates ==> !RankedBefore(strategy, c, Least(strategy, candidates))
    decreases |candidates|
  {
    hide RankedBefore;
    var first, rest := candidates[0], candidates[1..];
    assert candidates == [first] + rest;
    RankIsTotal(strategy, first, first);
    if rest != [] {
      LeastIsLeast(strategy, rest);
      var least := Least(strategy, rest);
      RankIsTotal(strategy, first, least);
      if !RankedBefore(strategy, least, first) {
        forall c | c in rest ensures !RankedBefore(strategy, c, first) {
          NotBeforeEither(strategy, c, least, first);
        }
      }
    }
  }

  /** Nothing that is not before `b` is before an `a` that `b` is not before. */
  lemma NotBeforeEither(strategy: Strategy, c: Candidate, b: Candidate, a: Candidate)
    requires !RankedBefore(strategy, c, b) && !RankedBefore(strategy, b, a)
    ensures !RankedBefore(strategy, c, a)
  {
    hide Before;
    BeforeIsTotal(a.id, b.id);
    BeforeIsTotal(b.id, c.id);
    BeforeIsTotal(a.id, c.id);
    if Before(c.id, a.id) && Before(a.id, b.id) {
      BeforeIsTransitive(c.id, a.id, b.id);
    }
  }

  /** A candidate is found exactly when one is eligible, and then it is eligible and none ranks before it. */
  lemma SelectionIsLeast(candidates: seq<Candidate>, required: string, strategy: Strategy)
    ensures Select(candidates, required, strategy).Some? <==> exists c :: c in candidates && IsEligible(c, required)
    ensures var chosen := Select(candidates, required, strategy);
            chosen.Some? ==>
              && chosen.value in candidates && IsEligible(chosen.value, required)
              && forall c :: c in candidates && IsEligible(c, required) ==> !RankedBefore(strategy, c, chosen.value)
  {
    hide RankedBefore, IsEligible;
    EligibleMembers(candidates, required);
    var eligible := Eligible(candidates, required);
    if eligible != [] {
      assert eligible[0] in candidates && IsEligible(eligible[0], required);
      LeastIsLeast(strategy, eligible);
    }
  }

  ghost predicate DistinctIds(candidates: seq<Candidate>) {
    forall a, b :: a in candidates && b in candidates && a.id == b.id ==> a == b
  }

  /** With distinct ids the choice depends only on which candidates there are, not on their order or repetition. */
  lemma SelectionIgnoresOrder(candidates: seq<Candidate>, others: seq<Candidate>, required: string, strategy: Strategy)
    requires DistinctIds(candidates) && forall c :: c in candidates <==> c in others
    ensures Select(candidates, required, strategy) == Select(others, required, strategy)
  {
    hide RankedBefore, IsEligible, Select;
    SelectionIsLeast(candidates, required, strategy);
    SelectionIsLeast(others, required, strategy);
    var a, b := Select(candidates, required, strategy), Select(others, required, strategy);
    if a.Some? && b.Some? {
      RankIsTotal(strategy, a.value, b.value);
    }
  }

  ghost predicate AlikeButForIds(candidates: seq<Candidate>) {
    forall a, b :: a in candidates && b in candidates ==>
      a.priority == b.priority && a.cost == b.cost && a.healthy == b.healthy
  }

  /** Where candidates differ in nothing a strategy looks at, all strategies choose alike. */
  lemma {:induction false} StrategyMakesNoDifference(candidates: seq<Candidate>, a: Strategy, b: Strategy)
    requires candidates != [] && AlikeButForIds(candidates)
    ensures Least(a, candidates) == Least(b, candidates)
    decreases |candidates|
  {
    hide Before;
    if |candidates| > 1 {
      assert candidates == [candidates[0]] + candidates[1..];
      StrategyMakesNoDifference(candidates[1..], a, b);
      LeastIsLeast(b, candidates[1..]);
    }
  }

  /**
   * What each strategy is for: the cheapest by cost, the smallest priority otherwise and among equals, and then the
   * first id; health decides nothing, since only healthy candidates are eligible.
   */
  lemma StrategiesChoose(candidates: seq<Candidate>, required: string, strategy: Strategy, c: Candidate)
    requires c in candidates && IsEligible(c, required)
    ensures var r := Select(candidates, required, strategy);
            && r.Some?
            && (strategy.Cost? ==> r.value.cost <= c.cost)
            && (!strategy.Cost? || r.value.cost == c.cost ==>
                  r.value.priority <= c.priority
                  && (r.value.priority == c.priority ==> r.value.id == c.id || Before(r.value.id, c.id)))
  {
    hide Before, Select;
    SelectionIsLeast(candidates, required, strategy);
    var r := Select(candidates, required, strategy).value;
    assert !RankedBefore(strategy, c, r);
    BeforeIsTotal(c.id, r.id);
  }
}
