/**
 * The two separately written resolvers from a model to its provider: automatic selection when a snapshot is
 * built, and the provider lookup when a request is sent.
 */
module ModelResolver {
  import opened Common
  import opened Json
  import opened ProviderSelection

  /** A registry entry, as validated when the capability registry is built. */
  datatype Model = Model(id: string, providerId: Option<string>, profileId: Option<string>, aliases: seq<string>)

  /** The parts of a snapshot body the resolvers read. Providers and routing profiles are not validated. */
  datatype Snapshot = Snapshot(models: seq<Model>, providers: Json, profiles: Json)

  /** A lookup is refused, or a value that cannot be hashed stops it with a type error. */
  datatype Failure = Unavailable | TypeError

  // ----- Shared vocabulary of the two -----

  predicate IsProfileInUse(profile: Json) {
    profile.Obj? && profile.Get("enabled") != Bool(false)
  }

  /** `next(... for item in items if ...)` over the profiles in use, and over those with a given id. */
  function FirstInUse(profiles: seq<Json>): (r: Option<Json>)
    ensures r.Some? ==> r.value.Obj? && r.value in profiles
  {
    if profiles == [] then None
    else if IsProfileInUse(profiles[0]) then Some(profiles[0])
    else FirstInUse(profiles[1..])
  }

  function FirstWithId(profiles: seq<Json>, id: Json): (r: Option<Json>)
    ensures r.Some? ==> r.value.Obj? && r.value in profiles && r.value.Get("id") == id
  {
    if profiles == [] then None
    else if profiles[0].Obj? && profiles[0].Get("id") == id then Some(profiles[0])
    else FirstWithId(profiles[1..], id)
  }

  function Strings(items: seq<Json>): set<string> {
    set i | 0 <= i < |items| && items[i].Str? :: items[i].text
  }

  function Single(id: Option<string>): set<string> {
    if id.Some? then {id.value} else {}
  }

  predicate IsEnabledLlm(provider: Json) {
    provider.Obj? && provider.Get("kind") == Str("llm") && provider.Get("enabled") == Bool(true)
  }

  function ItemsOf(value: Json): seq<Json> {
    if value.List? then value.items else []
  }

  // ----- Automatic selection -----

  function EnabledIds(providers: seq<Json>): set<string> {
    set i | 0 <= i < |providers| && IsEnabledLlm(providers[i]) && providers[i].Get("id").Str?
      :: providers[i].Get("id").text
  }

  /** The provider ids that automatic selection reads for a model; a missing profile id compares as null. */
  function AutoIds(m: Model, profiles: seq<Json>): set<string> {
    var default := FirstInUse(profiles);
    var routeId :=
      if m.profileId.Some? then Str(m.profileId.value)
      else if default.Some? then default.value.Get("id")
      else Null;
    var route := FirstWithId(profiles, routeId);
    if route.Some? && route.value.Get("llm_provider_ids").List? then Strings(route.value.Get("llm_provider_ids").items)
    else Single(m.providerId)
  }

  predicate Qualifies(s: Snapshot, m: Model, public: seq<string>) {
    m.id in public && !(AutoIds(m, ItemsOf(s.profiles)) !! EnabledIds(ItemsOf(s.providers)))
  }

  function FirstQualifying(s: Snapshot, models: seq<Model>, public: seq<string>): Option<string>
    decreases |models|
  {
    if models == [] then None
    else if Qualifies(s, models[0], public) then Some(models[0].id)
    else FirstQualifying(s, models[1..], public)
  }

  /** `_auto_model_for_snapshot`: the first public model with an enabled provider. */
  method AutoModel(s: Snapshot, public: seq<string>) returns (model: Option<string>)
    ensures model == if s.providers.List? then FirstQualifying(s, s.models, public) else None
  {
    if !s.providers.List? {
      return None;
    }
    var profiles := if s.profiles.List? then s.profiles.items else [];
    var enabled := EnabledIds(s.providers.items);
    assert s.models[0..] == s.models;
    for k := 0 to |s.models|
      invariant FirstQualifying(s, s.models, public) == FirstQualifying(s, s.models[k..], public)
    {
      assert s.models[k..][1..] == s.models[k + 1..];
      var m := s.models[k];
      if m.id in public {
        var ids := AutoIds(m, profiles);
        if !(ids !! enabled) {
          return Some(m.id);
        }
      }
    }
    return None;
  }

  // ----- The lookup at request time -----

  predicate Answers(m: Model, target: string) {
    m.id == target || target in m.aliases
  }

  function Matching(models: seq<Model>, target: string): seq<Model> {
    if models == [] then []
    else (if Answers(models[0], target) then [models[0]] else []) + Matching(models[1..], target)
  }

  /** The effective profile id: the model's own, else that of the first profile in use. */
  function ProfileId(m: Model, profiles: Json): Json {
    if m.profileId.Some? then Str(m.profileId.value)
    else if profiles.List? && FirstInUse(profiles.items).Some? then FirstInUse(profiles.items).value.Get("id")
    else Null
  }

  function Profile(m: Model, profiles: Json): Option<Json> {
    var id := ProfileId(m, profiles);
    if id.Str? && profiles.List? then FirstWithId(profiles.items, id) else None
  }

  function RouteIds(m: Model, profiles: Json): set<string> {
    var profile := Profile(m, profiles);
    if profile.Some? && profile.value.Get("llm_provider_ids").List? then
      Strings(profile.value.Get("llm_provider_ids").items)
    else Single(m.providerId)
  }

  /** The strategy is looked up in a set of names. */
  predicate HashableStrategy(m: Model, profiles: Json) {
    var profile := Profile(m, profiles);
    profile.Some? ==> Hashable(profile.value.Get("strategy"))
  }

  function StrategyOf(m: Model, profiles: Json): Strategy {
    var profile := Profile(m, profiles);
    if profile.None? then Priority
    else
      var name := profile.value.Get("strategy");
      if name == Str("fallback") then Fallback
      else if name == Str("health") then Health
      else if name == Str("cost") then Cost
      else Priority
  }

  predicate Named(provider: Json) {
    provider.Obj? && provider.Get("id").Str?
  }

  predicate Serves(provider: Json, ids: set<string>) {
    IsEnabledLlm(provider) && Named(provider) && provider.Get("id").text in ids
  }

  function Serving(providers: seq<Json>, ids: set<string>): (r: seq<Json>)
    ensures forall i :: 0 <= i < |r| ==> Named(r[i]) && Serves(r[i], ids) && r[i] in providers
  {
    if providers == [] then []
    else (if Serves(providers[0], ids) then [providers[0]] else []) + Serving(providers[1..], ids)
  }

  /** `frozenset(capabilities or ["text"])`; nothing when a member cannot be hashed or the value not iterated. */
  function Capabilities(provider: Json): Option<set<string>>
    requires provider.Obj?
  {
    var value := provider.Get("capabilities");
    match value
    case Null => Some({"text"})
    case Bool(b) => if b then None else Some({"text"})
    case Int(n) => if n != 0 then None else Some({"text"})
    case Float(x) => if IsZero(x) then Some({"text"}) else None
    case Str(text) => Some(if text == "" then {"text"} else set c | c in text :: [c])
    case List(items) =>
      if items == [] then Some({"text"})
      else if exists i :: 0 <= i < |items| && !Hashable(items[i]) then None
      else Some(Strings(items))
    case Obj(fields) => Some(if fields.Keys == {} then {"text"} else fields.Keys)
  }

  /** Health and cost are not in the snapshot: every candidate gets the same. */
  function CandidateOf(provider: Json): Candidate
    requires Named(provider) && Capabilities(provider).Some?
  {
    var capabilities := Capabilities(provider).value;
    Candidate(provider.Get("id").text, provider.Get("enabled") == Bool(true), capabilities, 0, true, 0.0)
  }

  function Candidates(providers: seq<Json>): Option<seq<Candidate>>
    requires forall i :: 0 <= i < |providers| ==> Named(providers[i])
  {
    if providers == [] then Some([])
    else
      assert Named(providers[0]);
      var rest := Candidates(providers[1..]);
      if Capabilities(providers[0]).None? || rest.None? then None
      else Some([CandidateOf(providers[0])] + rest.value)
  }

  predicate FilledIn(provider: Json, key: string)
    requires provider.Obj?
  {
    provider.Get(key).Str? && provider.Get(key).text != ""
  }

  predicate Complete(provider: Json)
    requires provider.Obj?
  {
    FilledIn(provider, "catalog_id") && FilledIn(provider, "protocol")
    && FilledIn(provider, "endpoint") && FilledIn(provider, "model_id")
  }

  /** The chosen provider, after the candidates are built. */
  function Chosen(serving: seq<Json>, strategy: Strategy): Result<Json, Failure>
    requires forall i :: 0 <= i < |serving| ==> Named(serving[i])
  {
    var candidates := Candidates(serving);
    if candidates.None? then Err(TypeError)
    else
      var chosen := Select(candidates.value, "text", strategy);
      if chosen.None? then Err(Unavailable)
      else
        var provider := FirstWithId(serving, Str(chosen.value.id));
        if provider.Some? && Complete(provider.value) then Ok(provider.value) else Err(Unavailable)
  }

  /** Every provider's id is looked up in a set. */
  predicate UnhashableId(providers: seq<Json>) {
    exists i :: 0 <= i < |providers| && providers[i].Obj? && !Hashable(providers[i].Get("id"))
  }

  /** `_provider_for_target`. */
  function ProviderForTarget(s: Snapshot, target: string): Result<Json, Failure> {
    var matches := Matching(s.models, target);
    if !s.providers.List? || |matches| != 1 then Err(Unavailable)
    else if UnhashableId(s.providers.items) then Err(TypeError)
    else
      var serving := Serving(s.providers.items, RouteIds(matches[0], s.profiles));
      if serving == [] then Err(Unavailable)
      else if !HashableStrategy(matches[0], s.profiles) then Err(TypeError)
      else Chosen(serving, StrategyOf(matches[0], s.profiles))
  }

  // ----- What a snapshot must satisfy for the two to agree -----

  function Names(m: Model): seq<string> {
    [m.id] + m.aliases
  }

  /** The capability registry refuses two equal names, of one model or of two. */
  ghost predicate UniqueNames(models: seq<Model>) {
    forall i, j, a, b
      | 0 <= i < |models| && 0 <= j < |models| && 0 <= a < |Names(models[i])| && 0 <= b < |Names(models[j])|
      :: Names(models[i])[a] == Names(models[j])[b] ==> i == j && a == b
  }

  ghost predicate StringIds(items: seq<Json>) {
    forall i :: 0 <= i < |items| && items[i].Obj? ==> items[i].Get("id").Str?
  }

  ghost predicate HashableStrategies(profiles: seq<Json>) {
    forall i :: 0 <= i < |profiles| && profiles[i].Obj? ==> Hashable(profiles[i].Get("strategy"))
  }

  ghost predicate AllReady(providers: seq<Json>) {
    forall i :: 0 <= i < |providers| && IsEnabledLlm(providers[i]) ==> Ready(providers[i])
  }

  /** An enabled provider that can serve text and is filled in. */
  ghost predicate Ready(provider: Json) {
    && provider.Obj? && Complete(provider) && Capabilities(provider).Some? && "text" in Capabilities(provider).value
  }

  ghost predicate Wellformed(s: Snapshot) {
    && UniqueNames(s.models)
    && (s.profiles.List? ==> StringIds(s.profiles.items) && HashableStrategies(s.profiles.items))
    && (s.providers.List? ==> StringIds(s.providers.items) && AllReady(s.providers.items))
  }

  // ----- Agreement -----

  lemma {:induction false} FirstWithIdIs(profiles: seq<Json>, id: Json)
    ensures FirstWithId(profiles, id).None? ==> forall p :: p in profiles && p.Obj? ==> p.Get("id") != id
  {
    if profiles != [] {
      FirstWithIdIs(profiles[1..], id);
      assert profiles == [profiles[0]] + profiles[1..];
    }
  }

  /** Both read the same provider ids for a model when profile ids are strings. */
  lemma SameRoute(m: Model, profiles: Json)
    requires profiles.List? ==> StringIds(profiles.items)
    ensures AutoIds(m, ItemsOf(profiles)) == RouteIds(m, profiles)
  {
    if profiles.List? {
      FirstWithIdIs(profiles.items, Null);
    }
  }

  lemma {:induction false} ServingMembers(providers: seq<Json>, ids: set<string>)
    ensures forall p :: p in Serving(providers, ids) <==> p in providers && Serves(p, ids)
  {
    if providers != [] {
      ServingMembers(providers[1..], ids);
      assert providers == [providers[0]] + providers[1..];
    }
  }

  lemma SomeoneServes(providers: seq<Json>, ids: set<string>)
    ensures Serving(providers, ids) != [] <==> !(ids !! EnabledIds(providers))
  {
    ServingMembers(providers, ids);
    var serving := Serving(providers, ids);
    if serving != [] {
      assert serving[0] in serving;
      var i :| 0 <= i < |providers| && providers[i] == serving[0];
      assert providers[i].Get("id").text in EnabledIds(providers);
    }
    if !(ids !! EnabledIds(providers)) {
      var id :| id in ids && id in EnabledIds(providers);
      var i :| 0 <= i < |providers| && IsEnabledLlm(providers[i]) && providers[i].Get("id").Str?
               && providers[i].Get("id").text == id;
      assert providers[i] in serving;
    }
  }

  /** Exactly the model is found under any of its names. */
  lemma {:induction false} NamesAreFound(models: seq<Model>, i: nat, target: string)
    requires UniqueNames(models) && i < |models| && target in Names(models[i])
    ensures Matching(models, target) == [models[i]]
  {
    var a :| 0 <= a < |Names(models[i])| && Names(models[i])[a] == target;
    forall j | 0 <= j < |models| ensures Answers(models[j], target) <==> j == i {
      AnswersByName(models[j], target);
    }
    OnlyMatch(models, i, target);
  }

  lemma AnswersByName(m: Model, target: string)
    ensures Answers(m, target) <==> exists b :: 0 <= b < |Names(m)| && Names(m)[b] == target
  {
    if target in m.aliases {
      var b :| 0 <= b < |m.aliases| && m.aliases[b] == target;
      assert Names(m)[b + 1] == target;
    }
    if m.id == target {
      assert Names(m)[0] == target;
    }
  }

  lemma {:induction false} OnlyMatch(models: seq<Model>, i: nat, target: string)
    requires i < |models| && forall j :: 0 <= j < |models| ==> (Answers(models[j], target) <==> j == i)
    ensures Matching(models, target) == [models[i]]
    decreases i
  {
    if i == 0 {
      NoMatch(models[1..], target);
    } else {
      OnlyMatch(models[1..], i - 1, target);
    }
  }

  lemma {:induction false} NoMatch(models: seq<Model>, target: string)
    requires forall j :: 0 <= j < |models| ==> !Answers(models[j], target)
    ensures Matching(models, target) == []
  {
    if models != [] {
      NoMatch(models[1..], target);
    }
  }

  /** Ready providers become eligible candidates, one each, under their ids. */
  lemma {:induction false} ReadyCandidates(providers: seq<Json>)
    requires forall i :: 0 <= i < |providers| ==> Named(providers[i])
    requires forall i :: 0 <= i < |providers| ==> IsEnabledLlm(providers[i]) && Ready(providers[i])
    ensures var c := Candidates(providers);
            && c.Some? && |c.value| == |providers|
            && forall i :: 0 <= i < |providers| ==>
                 c.value[i].id == providers[i].Get("id").text && IsEligible(c.value[i], "text")
  {
    hide Complete, Capabilities;
    if providers != [] {
      ReadyCandidates(providers[1..]);
    }
  }

  lemma StrategyIsHashable(m: Model, profiles: Json)
    requires profiles.List? ==> HashableStrategies(profiles.items)
    ensures HashableStrategy(m, profiles)
  {
    var profile := Profile(m, profiles);
    if profile.Some? {
      var i :| 0 <= i < |profiles.items| && profiles.items[i] == profile.value;
    }
  }

  /** A model that automatic selection would take is served at request time, and one that it passes over is not. */
  lemma QualifiedIsServed(s: Snapshot, i: nat, target: string)
    requires Wellformed(s) && s.providers.List? && i < |s.models| && target in Names(s.models[i])
    ensures var m, r := s.models[i], ProviderForTarget(s, target);
            && (r.Ok? <==> !(AutoIds(m, ItemsOf(s.profiles)) !! EnabledIds(s.providers.items)))
            && (r.Err? ==> r.error == Unavailable)
            && (r.Ok? ==> r.value in s.providers.items && Serves(r.value, RouteIds(m, s.profiles)))
  {
    hide RouteIds, AutoIds, EnabledIds, Complete, Capabilities, Serving, UniqueNames, HashableStrategy;
    var m, providers := s.models[i], s.providers.items;
    var ids := RouteIds(m, s.profiles);
    NamesAreFound(s.models, i, target);
    SameRoute(m, s.profiles);
    StrategyIsHashable(m, s.profiles);
    SomeoneServes(providers, ids);
    ServingMembers(providers, ids);
    var serving := Serving(providers, ids);
    if serving != [] {
      forall j | 0 <= j < |serving|
        ensures IsEnabledLlm(serving[j]) && Named(serving[j]) && Ready(serving[j])
      {
        assert serving[j] in providers;
      }
      ReadyCandidates(serving);
      ChosenIsReady(serving, StrategyOf(m, s.profiles), ids);
    }
  }

  lemma ChosenIsReady(serving: seq<Json>, strategy: Strategy, ids: set<string>)
    requires serving != [] && forall j :: 0 <= j < |serving| ==> Serves(serving[j], ids)
    requires forall j :: 0 <= j < |serving| ==> Named(serving[j]) && Ready(serving[j])
    ensures var c := Candidates(serving);
            && c.Some?
            && var chosen := Select(c.value, "text", strategy);
            && chosen.Some?
            && var p := FirstWithId(serving, Str(chosen.value.id));
            p.Some? && p.value in serving && Complete(p.value)
  {
    hide Select, Complete, Capabilities, IsEligible, Candidates;
    ReadyCandidates(serving);
    var c := Candidates(serving).value;
    SelectionIsLeast(c, "text", strategy);
    assert c[0] in c && IsEligible(c[0], "text");
    var chosen := Select(c, "text", strategy).value;
    var j :| 0 <= j < |c| && c[j] == chosen;
    FirstWithIdIs(serving, Str(chosen.id));
    assert serving[j] in serving && serving[j].Get("id") == Str(chosen.id);
  }

  /** Every name of a model, its id or an alias, reaches the same provider. */
  lemma AliasesShareAProvider(s: Snapshot, i: nat, alias: string)
    requires UniqueNames(s.models) && i < |s.models| && alias in s.models[i].aliases
    ensures ProviderForTarget(s, alias) == ProviderForTarget(s, s.models[i].id)
  {
    hide UniqueNames;
    assert Names(s.models[i])[0] == s.models[i].id;
    NamesAreFound(s.models, i, alias);
    NamesAreFound(s.models, i, s.models[i].id);
  }

  lemma {:induction false} FirstQualifyingIs(s: Snapshot, models: seq<Model>, public: seq<string>) returns (i: nat)
    ensures i <= |models| && forall j :: 0 <= j < i ==> !Qualifies(s, models[j], public)
    ensures FirstQualifying(s, models, public) == if i == |models| then None else Some(models[i].id)
    ensures i < |models| ==> Qualifies(s, models[i], public)
    decreases |models|
  {
    hide Qualifies;
    if models == [] || Qualifies(s, models[0], public) {
      i := 0;
    } else {
      var r := FirstQualifyingIs(s, models[1..], public);
      i := r + 1;
    }
  }

  /** What `AutoModel` returns. */
  function AutoModelOf(s: Snapshot, public: seq<string>): Option<string> {
    if s.providers.List? then FirstQualifying(s, s.models, public) else None
  }

  /**
   * Automatic selection returns the first public model, in registry order, that the lookup serves at request time,
   * with an enabled provider of that model's route; it returns none exactly when the lookup refuses every public one.
   */
  lemma ResolversAgree(s: Snapshot, public: seq<string>)
    requires Wellformed(s)
    ensures forall model :: AutoModelOf(s, public) == Some(model) ==> exists i :: FirstServed(s, public, i, model)
    ensures (AutoModelOf(s, public) == None
             <==> forall i :: 0 <= i < |s.models| && s.models[i].id in public ==>
                    ProviderForTarget(s, s.models[i].id).Err?)
  {
    hide ProviderForTarget, RouteIds, AutoIds, EnabledIds, UniqueNames, FirstQualifying;
    if s.providers.List? {
      var i := FirstQualifyingIs(s, s.models, public);
      forall j | 0 <= j < |s.models|
        ensures s.models[j].id in public
            ==> (Qualifies(s, s.models[j], public) <==> ProviderForTarget(s, s.models[j].id).Ok?)
      {
        assert s.models[j].id in Names(s.models[j]) by { assert Names(s.models[j])[0] == s.models[j].id; }
        QualifiedIsServed(s, j, s.models[j].id);
      }
      if i < |s.models| {
        assert s.models[i].id in Names(s.models[i]) by { assert Names(s.models[i])[0] == s.models[i].id; }
        QualifiedIsServed(s, i, s.models[i].id);
        assert FirstServed(s, public, i, s.models[i].id);
      }
    } else {
      NoProvidersNoService(s);
    }
  }

  lemma NoProvidersNoService(s: Snapshot)
    requires !s.providers.List?
    ensures forall target :: ProviderForTarget(s, target).Err?
  {
  }

  /** Model `i` is `model`, served by an enabled provider of its route; no public model before it is served. */
  ghost predicate FirstServed(s: Snapshot, public: seq<string>, i: int, model: string) {
    && 0 <= i < |s.models| && s.models[i].id == model && model in public
    && var r := ProviderForTarget(s, model);
    && r.Ok? && Serves(r.value, RouteIds(s.models[i], s.profiles))
    && forall j :: 0 <= j < i && s.models[j].id in public ==> ProviderForTarget(s, s.models[j].id).Err?
  }

  // ----- The choice does not depend on how the snapshot lists its providers -----

  ghost predicate DistinctProviderIds(providers: seq<Json>) {
    forall p, q :: p in providers && q in providers && Named(p) && Named(q) && p.Get("id") == q.Get("id") ==> p == q
  }

  lemma {:induction false} CandidatesAre(providers: seq<Json>)
    requires forall i :: 0 <= i < |providers| ==> Named(providers[i])
    ensures var c := Candidates(providers);
            && (c.None? <==> exists i :: 0 <= i < |providers| && Capabilities(providers[i]).None?)
            && (c.Some? ==> |c.value| == |providers|
                            && forall i :: 0 <= i < |providers| ==> c.value[i] == CandidateOf(providers[i]))
  {
    hide Capabilities, CandidateOf, Named;
    if providers != [] {
      CandidatesAre(providers[1..]);
      assert forall i :: 1 <= i < |providers| ==> providers[i] == providers[1..][i - 1];
      assert providers == [providers[0]] + providers[1..];
    }
  }

  ghost predicate SameMembers<T(!new)>(a: seq<T>, b: seq<T>) {
    forall x :: x in a <==> x in b
  }

  lemma SameServing(providers: seq<Json>, others: seq<Json>, ids: set<string>)
    requires SameMembers(providers, others)
    ensures SameMembers(Serving(providers, ids), Serving(others, ids))
  {
    ServingMembers(providers, ids);
    ServingMembers(others, ids);
  }

  /** Candidates of one list are candidates of any list with the same providers. */
  lemma CandidatesIncluded(serving: seq<Json>, others: seq<Json>)
    requires SameMembers(serving, others)
    requires forall i :: 0 <= i < |serving| ==> Named(serving[i])
    requires forall i :: 0 <= i < |others| ==> Named(others[i])
    requires Candidates(others).Some?
    ensures Candidates(serving).Some?
    ensures forall c :: c in Candidates(serving).value ==> c in Candidates(others).value
  {
    hide Capabilities, CandidateOf, Candidates;
    CandidatesAre(serving);
    CandidatesAre(others);
    forall i | 0 <= i < |serving| ensures Capabilities(serving[i]).Some? {
      assert serving[i] in others;
      var j :| 0 <= j < |others| && others[j] == serving[i];
    }
    forall c | c in Candidates(serving).value ensures c in Candidates(others).value {
      var i :| 0 <= i < |serving| && Candidates(serving).value[i] == c;
      assert serving[i] in others;
      var j :| 0 <= j < |others| && others[j] == serving[i];
      assert Candidates(others).value[j] == c;
    }
  }

  lemma DistinctCandidates(serving: seq<Json>)
    requires forall i :: 0 <= i < |serving| ==> Named(serving[i])
    requires DistinctProviderIds(serving) && Candidates(serving).Some?
    ensures DistinctIds(Candidates(serving).value)
  {
    hide Capabilities, Candidates;
    CandidatesAre(serving);
    var c := Candidates(serving).value;
    forall a, b | a in c && b in c && a.id == b.id ensures a == b {
      var i :| 0 <= i < |c| && c[i] == a;
      var j :| 0 <= j < |c| && c[j] == b;
      assert serving[i].Get("id") == serving[j].Get("id");
    }
  }

  lemma SameFirstWithId(serving: seq<Json>, others: seq<Json>, id: Json)
    requires SameMembers(serving, others) && DistinctProviderIds(serving) && id.Str?
    ensures FirstWithId(serving, id) == FirstWithId(others, id)
  {
    FirstWithIdIs(serving, id);
    FirstWithIdIs(others, id);
  }

  lemma SameChoice(serving: seq<Json>, others: seq<Json>, strategy: Strategy)
    requires SameMembers(serving, others) && DistinctProviderIds(serving)
    requires forall i :: 0 <= i < |serving| ==> Named(serving[i])
    requires forall i :: 0 <= i < |others| ==> Named(others[i])
    ensures Chosen(serving, strategy) == Chosen(others, strategy)
  {
    hide Complete, Capabilities, Candidates, Select, Named;
    if Candidates(others).Some? {
      CandidatesIncluded(serving, others);
    }
    if Candidates(serving).Some? {
      CandidatesIncluded(others, serving);
      DistinctCandidates(serving);
      SelectionIgnoresOrder(Candidates(serving).value, Candidates(others).value, "text", strategy);
      var chosen := Select(Candidates(serving).value, "text", strategy);
      if chosen.Some? {
        SameFirstWithId(serving, others, Str(chosen.value.id));
      }
    }
  }

  /** With distinct provider ids, relisting the providers changes no lookup, whether it succeeds or fails. */
  lemma ProviderOrderIsIrrelevant(s: Snapshot, relisted: seq<Json>, target: string)
    requires s.providers.List? && SameMembers(s.providers.items, relisted) && DistinctProviderIds(s.providers.items)
    ensures ProviderForTarget(s, target) == ProviderForTarget(s.(providers := List(relisted)), target)
  {
    hide RouteIds, StrategyOf, HashableStrategy, Complete, Capabilities, Candidates, Select, Serving, Matching, Named;
    var items, matches := s.providers.items, Matching(s.models, target);
    SameUnhashable(items, relisted);
    if |matches| == 1 {
      var ids := RouteIds(matches[0], s.profiles);
      SameServing(items, relisted, ids);
      ServingMembers(items, ids);
      var serving, others := Serving(items, ids), Serving(relisted, ids);
      SameChoice(serving, others, StrategyOf(matches[0], s.profiles));
      assert serving == [] <==> others == [] by {
        SameEmptiness(serving, others);
      }
    }
  }

  lemma SameEmptiness<T(!new)>(a: seq<T>, b: seq<T>)
    requires SameMembers(a, b)
    ensures a == [] <==> b == []
  {
    if a != [] {
      assert a[0] in b;
    }
    if b != [] {
      assert b[0] in a;
    }
  }

  lemma SameUnhashable(items: seq<Json>, relisted: seq<Json>)
    requires SameMembers(items, relisted)
    ensures UnhashableId(items) <==> UnhashableId(relisted)
  {
    hide Hashable;
    assert forall i :: 0 <= i < |items| ==> items[i] in relisted;
    assert forall i :: 0 <= i < |relisted| ==> relisted[i] in items;
  }

  /** The strategy a routing profile names never changes the provider: candidates carry no cost, priority or health. */
  lemma StrategyIsIrrelevant(serving: seq<Json>, a: Strategy, b: Strategy)
    requires forall i :: 0 <= i < |serving| ==> Named(serving[i])
    ensures Chosen(serving, a) == Chosen(serving, b)
  {
    hide Capabilities, Complete, Candidates, RankedBefore;
    CandidatesAre(serving);
    var candidates := Candidates(serving);
    if candidates.Some? {
      EligibleMembers(candidates.value, "text");
      var eligible := Eligible(candidates.value, "text");
      if eligible != [] {
        StrategyMakesNoDifference(eligible, a, b);
      }
    }
  }

  // ----- When the lookup raises -----

  /** The model at `i` and no other answers to the target. */
  ghost predicate OnlyAnswers(models: seq<Model>, i: int, target: string) {
    0 <= i < |models| && forall j :: 0 <= j < |models| ==> (Answers(models[j], target) <==> j == i)
  }

  /** An id that cannot be hashed, or a provider that serves while the strategy or its capabilities cannot. */
  ghost predicate FaultyRoute(m: Model, providers: seq<Json>, profiles: Json) {
    || UnhashableId(providers)
    || exists k :: 0 <= k < |providers| && Serves(providers[k], RouteIds(m, profiles))
                && (!HashableStrategy(m, profiles) || Capabilities(providers[k]).None?)
  }

  ghost predicate FaultyRouting(s: Snapshot, target: string) {
    s.providers.List?
    && exists i :: OnlyAnswers(s.models, i, target) && FaultyRoute(s.models[i], s.providers.items, s.profiles)
  }

  lemma {:induction false} MatchesExist(models: seq<Model>, target: string)
    ensures Matching(models, target) != [] <==> exists j :: 0 <= j < |models| && Answers(models[j], target)
  {
    if models != [] {
      MatchesExist(models[1..], target);
      if exists j :: 1 <= j < |models| && Answers(models[j], target) {
        var j :| 1 <= j < |models| && Answers(models[j], target);
        assert models[1..][j - 1] == models[j];
      }
    }
  }

  lemma {:induction false} SingleMatch(models: seq<Model>, target: string)
    requires |Matching(models, target)| == 1
    ensures exists i :: OnlyAnswers(models, i, target) && Matching(models, target) == [models[i]]
  {
    if Answers(models[0], target) {
      MatchesExist(models[1..], target);
      forall j | 1 <= j < |models| ensures !Answers(models[j], target) {
        assert models[1..][j - 1] == models[j];
      }
      assert OnlyAnswers(models, 0, target);
    } else {
      SingleMatch(models[1..], target);
      var i :| OnlyAnswers(models[1..], i, target) && Matching(models[1..], target) == [models[1..][i]];
      forall j | 0 <= j < |models| ensures Answers(models[j], target) <==> j == i + 1 {
        assert j > 0 ==> models[j] == models[1..][j - 1];
      }
      assert OnlyAnswers(models, i + 1, target);
    }
  }

  lemma {:induction false} CandidatesRaise(serving: seq<Json>)
    requires forall i :: 0 <= i < |serving| ==> Named(serving[i])
    ensures Candidates(serving).None? <==> exists p :: p in serving && p.Obj? && Capabilities(p).None?
  {
    hide Capabilities;
    if serving != [] {
      CandidatesRaise(serving[1..]);
      assert serving == [serving[0]] + serving[1..];
      assert Named(serving[0]);
    }
  }

  /** The lookup raises exactly when a value it has to hash or to iterate is of the wrong kind, and it gets that far. */
  lemma LookupRaisesExactly(s: Snapshot, target: string)
    ensures ProviderForTarget(s, target) == Err(TypeError) <==> FaultyRouting(s, target)
  {
    hide RouteIds, HashableStrategy, Capabilities, Serves, UnhashableId, StrategyOf, Select, Complete;
    if s.providers.List? {
      var providers := s.providers.items;
      if |Matching(s.models, target)| == 1 {
        SingleMatch(s.models, target);
        var i :| OnlyAnswers(s.models, i, target) && Matching(s.models, target) == [s.models[i]];
        var ids := RouteIds(s.models[i], s.profiles);
        var serving := Serving(providers, ids);
        ServingMembers(providers, ids);
        CandidatesRaise(serving);
        assert serving != [] <==> exists k :: 0 <= k < |providers| && Serves(providers[k], ids) by {
          if serving != [] { assert serving[0] in providers; }
        }
        FaultyRouteRead(s.models[i], providers, s.profiles, serving);
        assert FaultyRouting(s, target) <==> FaultyRoute(s.models[i], providers, s.profiles);
      } else if FaultyRouting(s, target) {
        var i :| OnlyAnswers(s.models, i, target);
        OnlyMatch(s.models, i, target);
      }
    }
  }

  lemma FaultyRouteRead(m: Model, providers: seq<Json>, profiles: Json, serving: seq<Json>)
    requires forall p :: p in serving <==> p in providers && Serves(p, RouteIds(m, profiles))
    ensures FaultyRoute(m, providers, profiles)
       <==> UnhashableId(providers)
            || (serving != [] && !HashableStrategy(m, profiles))
            || exists p :: p in serving && p.Obj? && Capabilities(p).None?
  {
    hide RouteIds, HashableStrategy, Capabilities, UnhashableId;
    var ids := RouteIds(m, profiles);
    if serving != [] {
      assert serving[0] in serving;
      var k :| 0 <= k < |providers| && providers[k] == serving[0];
      assert Serves(providers[k], ids);
    }
    if exists p :: p in serving && p.Obj? && Capabilities(p).None? {
      var p :| p in serving && p.Obj? && Capabilities(p).None?;
      var k :| 0 <= k < |providers| && providers[k] == p;
      assert Serves(providers[k], ids);
    }
  }
}
