/** The provider of a request, said over the snapshot: which profile is in force, who can serve, and who comes first. */
module ProviderLookup {
  import opened Common
  import opened Json
  import opened ModelResolver
  import opened ProviderSelection

  // ----- The profile in force -----

  /** The first profile that is not switched off. */
  ghost predicate IsDefault(profiles: seq<Json>, i: int) {
    && 0 <= i < |profiles| && IsOn(profiles[i]) && forall j :: 0 <= j < i ==> !IsOn(profiles[j])
  }

  ghost predicate IsOn(profile: Json) {
    profile.Obj? && ("enabled" in profile.fields ==> profile.fields["enabled"] != Bool(false))
  }

  /** The first profile with this id. */
  ghost predicate IsNamed(profiles: seq<Json>, i: int, id: Json) {
    && 0 <= i < |profiles| && profiles[i].Obj? && profiles[i].Get("id") == id
    && forall j :: 0 <= j < i ==> !(profiles[j].Obj? && profiles[j].Get("id") == id)
  }

  /** The profile a model names, else the default one; an id that is no string, or that nobody has, gives none. */
  ghost predicate IsInForce(m: Model, profiles: Json, i: int) {
    && profiles.List?
    && exists id: string :: IsNamed(profiles.items, i, Str(id))
         && if m.profileId.Some? then id == m.profileId.value
            else exists d :: IsDefault(profiles.items, d) && profiles.items[d].Get("id") == Str(id)
  }

  /** The profile in force lists the providers of its models. */
  ghost predicate IsListing(m: Model, profiles: Json, i: int) {
    IsInForce(m, profiles, i) && profiles.items[i].Get("llm_provider_ids").List?
  }

  /** The ids a model may be served by: those that such a profile lists, without one the model's own provider. */
  ghost predicate MayServe(m: Model, profiles: Json, id: string) {
    || (exists i :: IsListing(m, profiles, i) && Str(id) in profiles.items[i].Get("llm_provider_ids").items)
    || (m.providerId == Some(id) && forall i :: !IsListing(m, profiles, i))
  }

  lemma {:induction false} FirstInUseExactly(profiles: seq<Json>)
    ensures var r := FirstInUse(profiles);
            && (r.Some? <==> exists i :: IsDefault(profiles, i))
            && forall i :: IsDefault(profiles, i) ==> r == Some(profiles[i])
  {
    if profiles != [] {
      var rest := profiles[1..];
      FirstInUseExactly(rest);
      assert forall j :: 0 <= j < |rest| ==> rest[j] == profiles[j + 1];
      if IsOn(profiles[0]) {
        assert IsDefault(profiles, 0);
      } else {
        forall i ensures IsDefault(profiles, i) <==> IsDefault(rest, i - 1) {
          assert 1 <= i < |profiles| ==> profiles[i] == rest[i - 1];
        }
        if exists i :: IsDefault(rest, i) {
          var i :| IsDefault(rest, i);
          assert IsDefault(profiles, i + 1);
        }
      }
    }
  }

  lemma {:induction false} FirstWithIdExactly(profiles: seq<Json>, id: Json)
    ensures var r := FirstWithId(profiles, id);
            && (r.Some? <==> exists i :: IsNamed(profiles, i, id))
            && forall i :: IsNamed(profiles, i, id) ==> r == Some(profiles[i])
  {
    if profiles != [] {
      var rest := profiles[1..];
      FirstWithIdExactly(rest, id);
      assert forall j :: 0 <= j < |rest| ==> rest[j] == profiles[j + 1];
      if profiles[0].Obj? && profiles[0].Get("id") == id {
        assert IsNamed(profiles, 0, id);
      } else {
        forall i ensures IsNamed(profiles, i, id) <==> IsNamed(rest, i - 1, id) {
          assert 1 <= i < |profiles| ==> profiles[i] == rest[i - 1];
        }
        if exists i :: IsNamed(rest, i, id) {
          var i :| IsNamed(rest, i, id);
          assert IsNamed(profiles, i + 1, id);
        }
      }
    }
  }

  /** The profile that is looked up is the one in force. */
  lemma ProfileExactly(m: Model, profiles: Json)
    ensures var r := Profile(m, profiles);
            && (r.Some? <==> exists i :: IsInForce(m, profiles, i))
            && forall i :: IsInForce(m, profiles, i) ==> r == Some(profiles.items[i])
  {
    hide FirstInUse, FirstWithId;
    if profiles.List? {
      FirstInUseExactly(profiles.items);
      FirstWithIdExactly(profiles.items, ProfileId(m, profiles));
      if Profile(m, profiles).Some? {
        var id := ProfileId(m, profiles);
        var i :| IsNamed(profiles.items, i, id);
        if m.profileId.None? {
          var d :| IsDefault(profiles.items, d);
          assert profiles.items[d].Get("id") == Str(id.text);
        }
        assert IsInForce(m, profiles, i);
      }
    }
  }

  lemma StringsExactly(items: seq<Json>, id: string)
    ensures id in Strings(items) <==> Str(id) in items
  {
    if Str(id) in items {
      var i :| 0 <= i < |items| && items[i] == Str(id);
      assert items[i].Str? && items[i].text == id;
    }
  }

  /** The route of a model holds exactly the ids it may be served by. */
  lemma RouteExactly(m: Model, profiles: Json, id: string)
    ensures id in RouteIds(m, profiles) <==> MayServe(m, profiles, id)
  {
    hide Profile, IsDefault, Strings;
    ProfileExactly(m, profiles);
    var profile := Profile(m, profiles);
    if profile.Some? {
      var i :| IsInForce(m, profiles, i);
      var listed := profiles.items[i].Get("llm_provider_ids");
      if listed.List? {
        assert IsListing(m, profiles, i);
        StringsExactly(listed.items, id);
      }
      assert forall j :: IsListing(m, profiles, j) ==> profiles.items[j] == profile.value;
    }
  }

  // ----- Who can serve -----

  /** A provider that offers text: it says so, or it says nothing at all. A plain string is read letter by letter. */
  predicate OffersText(provider: Json)
    requires provider.Obj?
  {
    match provider.Get("capabilities")
    case Null => true
    case Bool(b) => !b
    case Int(n) => n == 0
    case Float(x) => x == 0 || x == MINUS_ZERO
    case Str(s) => s == ""
    case List(items) =>
      items == [] || (Str("text") in items && forall i :: 0 <= i < |items| ==> !items[i].List? && !items[i].Obj?)
    case Obj(fields) => fields.Keys == {} || "text" in fields
  }

  lemma OffersExactly(provider: Json)
    requires provider.Obj?
    ensures OffersText(provider) <==> Capabilities(provider).Some? && "text" in Capabilities(provider).value
  {
    assert |"text"| == 4;
  }

  /** An enabled language model on the route. */
  ghost predicate IsOnRoute(m: Model, profiles: Json, provider: Json) {
    && provider.Obj? && provider.Get("kind") == Str("llm") && provider.Get("enabled") == Bool(true)
    && provider.Get("id").Str? && MayServe(m, profiles, provider.Get("id").text)
  }

  lemma OnRouteExactly(m: Model, profiles: Json, provider: Json)
    ensures Serves(provider, RouteIds(m, profiles)) <==> IsOnRoute(m, profiles, provider)
  {
    hide RouteIds, MayServe;
    if provider.Obj? && provider.Get("id").Str? {
      RouteExactly(m, profiles, provider.Get("id").text);
    }
  }

  // ----- Who serves -----

  /** The least id among the providers on the route that offer text. */
  ghost predicate IsLeastId(m: Model, s: Snapshot, id: string)
    requires s.providers.List?
  {
    && (exists p :: p in s.providers.items && IsOnRoute(m, s.profiles, p) && OffersText(p) && p.Get("id") == Str(id))
    && forall p :: p in s.providers.items && IsOnRoute(m, s.profiles, p) && OffersText(p) ==>
         p.Get("id").text == id || Before(id, p.Get("id").text)
  }

  /** The first provider on the route with this id. */
  ghost predicate IsFirstOnRoute(m: Model, s: Snapshot, id: string, k: int)
    requires s.providers.List?
  {
    var providers := s.providers.items;
    && 0 <= k < |providers| && IsOnRoute(m, s.profiles, providers[k]) && providers[k].Get("id") == Str(id)
    && forall j :: 0 <= j < k ==> !(IsOnRoute(m, s.profiles, providers[j]) && providers[j].Get("id") == Str(id))
  }

  /** Catalogue entry, protocol, endpoint and model name are filled in. */
  predicate IsFilledIn(provider: Json) {
    && provider.Obj?
    && forall key :: key in {"catalog_id", "protocol", "endpoint", "model_id"} ==>
         provider.Get(key).Str? && provider.Get(key).text != ""
  }

  /** Under the least id that offers text, the first provider on the route, filled in. */
  ghost predicate IsProviderOf(s: Snapshot, m: Model, provider: Json)
    requires s.providers.List?
  {
    exists k, id :: IsLeastId(m, s, id) && IsFirstOnRoute(m, s, id, k)
      && provider == s.providers.items[k] && IsFilledIn(provider)
  }

  /** The provider of the only model that answers to the target. */
  ghost predicate IsServedBy(s: Snapshot, target: string, provider: Json) {
    && s.providers.List?
    && exists i :: OnlyAnswers(s.models, i, target) && !FaultyRoute(s.models[i], s.providers.items, s.profiles)
         && IsProviderOf(s, s.models[i], provider)
  }

  lemma {:induction false} ServingFirst(providers: seq<Json>, ids: set<string>, id: string, k: int)
    requires 0 <= k < |providers| && Serves(providers[k], ids) && providers[k].Get("id") == Str(id)
    requires forall j :: 0 <= j < k ==> !(Serves(providers[j], ids) && providers[j].Get("id") == Str(id))
    ensures FirstWithId(Serving(providers, ids), Str(id)) == Some(providers[k])
    decreases k
  {
    hide Serves;
    var rest := Serving(providers[1..], ids);
    assert Serves(providers[0], ids) ==> Named(providers[0]) by { ServesNamed(providers[0], ids); }
    ServesNamed(providers[k], ids);
    if k > 0 {
      ServingFirst(providers[1..], ids, id, k - 1);
      if Serves(providers[0], ids) {
        assert ([providers[0]] + rest)[1..] == rest;
      } else {
        assert [] + rest == rest;
      }
    } else {
      assert ([providers[0]] + rest)[0] == providers[0];
    }
  }

  lemma ServesNamed(provider: Json, ids: set<string>)
    ensures Serves(provider, ids) ==> Named(provider)
  {
  }

  lemma {:induction false} FirstServing(providers: seq<Json>, ids: set<string>, id: string) returns (k: int)
    requires exists p :: p in providers && Serves(p, ids) && p.Get("id") == Str(id)
    ensures 0 <= k < |providers| && Serves(providers[k], ids) && providers[k].Get("id") == Str(id)
    ensures forall j :: 0 <= j < k ==> !(Serves(providers[j], ids) && providers[j].Get("id") == Str(id))
  {
    if Serves(providers[0], ids) && providers[0].Get("id") == Str(id) {
      k := 0;
    } else {
      assert providers == [providers[0]] + providers[1..];
      var r := FirstServing(providers[1..], ids, id);
      k := r + 1;
    }
  }

  lemma FilledInExactly(provider: Json)
    requires provider.Obj?
    ensures Complete(provider) <==> IsFilledIn(provider)
  {
  }

  /** Without prices and health in the snapshot the choice is the least id that offers text. */
  lemma ChoiceExactly(serving: seq<Json>, strategy: Strategy)
    requires forall i :: 0 <= i < |serving| ==> Named(serving[i]) && IsEnabledLlm(serving[i])
    requires Candidates(serving).Some?
    ensures var r := Select(Candidates(serving).value, "text", strategy);
            && (r.Some? <==> exists p :: p in serving && p.Obj? && OffersText(p))
            && (r.Some? ==>
                  && (exists p :: p in serving && p.Obj? && OffersText(p) && p.Get("id") == Str(r.value.id))
                  && forall p :: p in serving && p.Obj? && OffersText(p) ==>
                       p.Get("id").Str? && (p.Get("id").text == r.value.id || Before(r.value.id, p.Get("id").text)))
  {
    hide Candidates, Select, Before, Capabilities, OffersText;
    CandidatesAre(serving);
    var c := Candidates(serving).value;
    SelectionIsLeast(c, "text", strategy);
    var r := Select(c, "text", strategy);
    forall i | 0 <= i < |serving|
      ensures IsEligible(c[i], "text") <==> OffersText(serving[i])
      ensures IsEligible(c[i], "text") ==> r.Some? && (c[i].id == r.value.id || Before(r.value.id, c[i].id))
    {
      OffersExactly(serving[i]);
      if IsEligible(c[i], "text") {
        StrategiesChoose(c, "text", strategy, c[i]);
        var k :| 0 <= k < |c| && c[k] == r.value;
      }
    }
    if r.Some? {
      var k :| 0 <= k < |c| && c[k] == r.value;
      assert serving[k] in serving && OffersText(serving[k]);
    }
  }

  lemma OnRouteIsNamed(m: Model, profiles: Json, provider: Json)
    ensures IsOnRoute(m, profiles, provider) ==> Named(provider) && IsEnabledLlm(provider)
  {
  }

  lemma MembersAreOnRoute(m: Model, s: Snapshot)
    requires s.providers.List?
    ensures var serving := Serving(s.providers.items, RouteIds(m, s.profiles));
            forall p :: p in serving <==> p in s.providers.items && IsOnRoute(m, s.profiles, p)
  {
    hide Serving, RouteIds, IsOnRoute, Serves;
    ServingMembers(s.providers.items, RouteIds(m, s.profiles));
    forall p ensures Serves(p, RouteIds(m, s.profiles)) <==> IsOnRoute(m, s.profiles, p) {
      OnRouteExactly(m, s.profiles, p);
    }
  }

  /** The id that is chosen is the least one, if any offers text. */
  lemma ChosenIsLeast(m: Model, s: Snapshot, strategy: Strategy)
    requires s.providers.List?
    requires Candidates(Serving(s.providers.items, RouteIds(m, s.profiles))).Some?
    ensures var r := Select(Candidates(Serving(s.providers.items, RouteIds(m, s.profiles))).value, "text", strategy);
            && (r.Some? ==> IsLeastId(m, s, r.value.id))
            && (r.None? ==> forall id :: !IsLeastId(m, s, id))
  {
    hide Candidates, Select, Serving, RouteIds, IsOnRoute, OffersText, Before;
    MembersAreOnRoute(m, s);
    var serving := Serving(s.providers.items, RouteIds(m, s.profiles));
    forall p | p in serving ensures Named(p) && IsEnabledLlm(p) {
      OnRouteIsNamed(m, s.profiles, p);
    }
    assert forall i :: 0 <= i < |serving| ==> serving[i] in serving;
    ChoiceExactly(serving, strategy);
  }

  lemma LeastIsUnique(m: Model, s: Snapshot, a: string, b: string)
    requires s.providers.List? && IsLeastId(m, s, a) && IsLeastId(m, s, b)
    ensures a == b
  {
    hide Before, OffersText, MayServe;
    BeforeIsTotal(a, b);
  }

  /** The provider found under an id is the first on the route that has it. */
  lemma FoundIsFirst(m: Model, s: Snapshot, id: string)
    requires s.providers.List? && IsLeastId(m, s, id)
    ensures var r := FirstWithId(Serving(s.providers.items, RouteIds(m, s.profiles)), Str(id));
            && (exists k :: IsFirstOnRoute(m, s, id, k))
            && forall k :: IsFirstOnRoute(m, s, id, k) ==> r == Some(s.providers.items[k])
  {
    hide Serving, RouteIds, Serves, IsOnRoute, OffersText, Before, FirstWithId;
    var providers, ids := s.providers.items, RouteIds(m, s.profiles);
    forall p ensures Serves(p, ids) <==> IsOnRoute(m, s.profiles, p) {
      OnRouteExactly(m, s.profiles, p);
    }
    forall p: Json | IsOnRoute(m, s.profiles, p) ensures p.Obj? {
      OnRouteIsNamed(m, s.profiles, p);
    }
    var k := FirstServing(providers, ids, id);
    assert IsFirstOnRoute(m, s, id, k);
    forall j | IsFirstOnRoute(m, s, id, j)
      ensures FirstWithId(Serving(providers, ids), Str(id)) == Some(providers[j])
    {
      ServingFirst(providers, ids, id, j);
    }
  }

  /** The lookup past its checks: the least id that offers text, the first provider under it, and that one filled in. */
  lemma ChosenExactly(s: Snapshot, m: Model, strategy: Strategy, provider: Json)
    requires s.providers.List?
    requires var serving := Serving(s.providers.items, RouteIds(m, s.profiles));
             Candidates(serving).Some? && forall i :: 0 <= i < |serving| ==> Named(serving[i])
    ensures Chosen(Serving(s.providers.items, RouteIds(m, s.profiles)), strategy) == Ok(provider)
       <==> IsProviderOf(s, m, provider)
  {
    hide Candidates, Select, Serving, RouteIds, Complete, IsFilledIn, FirstWithId, IsLeastId, IsOnRoute;
    var serving := Serving(s.providers.items, RouteIds(m, s.profiles));
    ChosenIsLeast(m, s, strategy);
    var chosen := Select(Candidates(serving).value, "text", strategy);
    if chosen.Some? {
      var id := chosen.value.id;
      FoundIsFirst(m, s, id);
      var k :| IsFirstOnRoute(m, s, id, k);
      OnRouteIsNamed(m, s.profiles, s.providers.items[k]);
      FilledInExactly(s.providers.items[k]);
      forall other | IsLeastId(m, s, other) ensures other == id {
        LeastIsUnique(m, s, id, other);
      }
    }
  }

  /** The exact outcome of the lookup: who serves a target, and that nobody does when it neither serves nor raises. */
  lemma ServesExactly(s: Snapshot, target: string, provider: Json)
    ensures ProviderForTarget(s, target) == Ok(provider) <==> IsServedBy(s, target, provider)
    ensures ProviderForTarget(s, target) == Err(TypeError) <==> FaultyRouting(s, target)
  {
    hide Candidates, Serving, RouteIds, Chosen, IsProviderOf, FaultyRoute;
    LookupRaisesExactly(s, target);
    if s.providers.List? {
      if |Matching(s.models, target)| == 1 {
        SingleMatch(s.models, target);
        var i :| OnlyAnswers(s.models, i, target) && Matching(s.models, target) == [s.models[i]];
        AnsweredExactly(s, target, i, provider);
      } else if IsServedBy(s, target, provider) {
        var i :| OnlyAnswers(s.models, i, target);
        OnlyMatch(s.models, i, target);
      }
    }
  }

  lemma AnsweredExactly(s: Snapshot, target: string, i: nat, provider: Json)
    requires s.providers.List? && OnlyAnswers(s.models, i, target) && Matching(s.models, target) == [s.models[i]]
    ensures ProviderForTarget(s, target) == Ok(provider) <==> IsServedBy(s, target, provider)
  {
    hide Candidates, RouteIds, Chosen, IsProviderOf, FaultyRoute, Matching;
    var m, providers := s.models[i], s.providers.items;
    var serving := Serving(providers, RouteIds(m, s.profiles));
    assert forall j :: OnlyAnswers(s.models, j, target) ==> j == i;
    ServingMembers(providers, RouteIds(m, s.profiles));
    FaultyRouteRead(m, providers, s.profiles, serving);
    CandidatesRaise(serving);
    if Candidates(serving).Some? {
      ChosenExactly(s, m, StrategyOf(m, s.profiles), provider);
    } else {
      assert Chosen(serving, StrategyOf(m, s.profiles)).Err? by { RaisingChoice(serving, StrategyOf(m, s.profiles)); }
    }
    if serving == [] {
      NobodyServes(s, m);
    }
  }

  lemma RaisingChoice(serving: seq<Json>, strategy: Strategy)
    requires (forall i :: 0 <= i < |serving| ==> Named(serving[i])) && Candidates(serving).None?
    ensures Chosen(serving, strategy).Err?
  {
  }

  lemma NobodyServes(s: Snapshot, m: Model)
    requires s.providers.List? && Serving(s.providers.items, RouteIds(m, s.profiles)) == []
    ensures forall provider :: !IsProviderOf(s, m, provider)
  {
    hide Serving, RouteIds, IsOnRoute, OffersText, Before;
    MembersAreOnRoute(m, s);
  }
}
