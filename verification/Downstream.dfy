/**
 * The downstream of the gateway as it is deployed: a sealed request is checked, its provider is looked up in the
 * snapshot, and the backend built for that provider answers; and exactly which requests make that call raise.
 */
module Downstream {
  import opened Common
  import opened Contracts
  import opened Faults
  import opened Gate
  import opened Json
  import opened Normalizer
  import opened Preparation
  import opened Receipts
  import opened Sealing
  import opened StateStore
  import opened Text
  import opened Transaction
  import Chat = ChatTranslation
  import Guarding
  import Resolver = ModelResolver

  // ----- Generation options; nothing stands for the `invalid_request` error -----

  datatype Options = Options(instructions: Option<string>, format: Option<Json>, cap: Option<int>) {
    predicate Specified() {
      instructions.Some? || format.Some? || cap.Some?
    }
  }

  const OPTION_KEYS :=
    {"model", "input", "stream", "reasoning_effort", "instructions", "text", "max_output_tokens"}

  /** `responses_generation_options`. */
  function GenerationOptions(payload: Json): Option<Options>
    requires payload.Obj?
  {
    var instructions, text, cap := payload.Get("instructions"), payload.Get("text"), payload.Get("max_output_tokens");
    if !(payload.fields.Keys <= OPTION_KEYS)
       || ("instructions" in payload.fields && !instructions.Str?)
       || ("max_output_tokens" in payload.fields && !(cap.Int? && cap.number > 0))
       || ("text" in payload.fields
           && !(text.Obj? && text.fields.Keys == {"format"} && text.Get("format").Obj?
                && Chat.IsJsonFormat(text.Get("format").fields)))
    then None
    else
      Some(Options(if instructions.Str? then Some(instructions.text) else None,
                   if text.Obj? then Some(text.Get("format")) else None,
                   if cap.Int? then Some(cap.number) else None))
  }

  // ----- Up to the backend -----

  /** The body of the snapshot the downstream was built with. */
  datatype Body = Body(routing: Resolver.Snapshot, defaults: Json)

  /** The effort a request asks for, or the snapshot's default; null leaves it to the provider. */
  function Effort(body: Body, payload: Json): Json
    requires payload.Obj?
  {
    var own := payload.Get("reasoning_effort");
    var effort := if own.Null? && body.defaults.Obj? then body.defaults.Get("reasoning_effort") else own;
    if effort == Str("provider_default") then Null else effort
  }

  const EFFORTS := {Str("low"), Str("medium"), Str("high")}

  datatype Section = Raises | Refuses | Reaches(provider: Json, options: Options)

  /** `invoke` between the replay guard and the backend. */
  function UpToBackend(body: Body, target: string, payload: Json): Section
    requires payload.Obj?
  {
    var options := GenerationOptions(payload);
    if options.None? then Refuses
    else
      match Resolver.ProviderForTarget(body.routing, target)
      case Err(Unavailable) => Refuses
      case Err(TypeError) => Section.Raises
      case Ok(provider) =>
        var effort := Effort(body, payload);
        if effort.Null? then Reaches(provider, options.value)
        else if !Hashable(effort) then Section.Raises
        else if effort !in EFFORTS then Refuses
        else Reaches(WithEffort(provider, effort), options.value)
  }

  function WithEffort(provider: Json, effort: Json): Json {
    if provider.Obj? then Obj(provider.fields["reasoning_effort" := effort]) else provider
  }

  // ----- The backend -----

  /** Type and value errors of the factory are refusals; any other error is not caught. */
  datatype Backend = Built(takesOptions: bool) | Unbuildable | BuildRaises

  /** An analysis that cannot be written into the response body raises as well. */
  datatype Analysis = Analyzed(text: string) | Unsuccessful | AnalysisRaises

  /** What the backends do: one built for a provider's configuration, then its answer. */
  datatype Host = Host(build: Json -> Backend, analysis: Analysis, responseId: string)

  /** Some input text at any depth is not blank. */
  predicate HoldsText(value: Json)
    decreases value
  {
    match value
    case List(items) => exists i :: 0 <= i < |items| && HoldsText(items[i])
    case Obj(fields) =>
      (Obj(fields).Get("type") == Str("input_text") && Obj(fields).Get("text").Str?
       && Strip(Obj(fields).Get("text").text) != "")
      || exists key :: key in fields && HoldsText(fields[key])
    case _ => false
  }

  /** `_text_from_responses_payload` is not empty. */
  predicate HasPrompt(payload: Json)
    requires payload.Obj?
  {
    var input := payload.Get("input");
    if input.Str? then Strip(input.text) != "" else HoldsText(input)
  }

  /** `invoke` from the backend on. */
  function FromBackend(host: Host, payload: Json, provider: Json, options: Options): ProviderAnswer
    requires payload.Obj?
  {
    match host.build(provider)
    case Unbuildable => Failed
    case BuildRaises => ProviderAnswer.Raised
    case Built(takesOptions) =>
      if !HasPrompt(payload) || (options.Specified() && !takesOptions) then Failed
      else
        match host.analysis
        case AnalysisRaises => ProviderAnswer.Raised
        case Unsuccessful => Failed
        case Analyzed(text) =>
          if text == "" then Failed else Answered(host.responseId, payload.Get("stream") == Bool(true))
  }

  function AnswerTo(body: Body, host: Host, request: Sealed): ProviderAnswer
    requires request.payload.Obj?
  {
    match UpToBackend(body, request.binding.target, request.payload)
    case Raises => ProviderAnswer.Raised
    case Refuses => Failed
    case Reaches(provider, options) => FromBackend(host, request.payload, provider, options)
  }

  /** The answer to a sealed request by a guard that holds `used`. */
  function AnswerAfter(body: Body, host: Host, used: map<Digest, real>, maxEntries: nat, request: Sealed, now: real)
    : ProviderAnswer
    requires request.payload.Obj?
  {
    if Consume(used, maxEntries, request.receipt, now).1.Consumed? then AnswerTo(body, host, request)
    else RejectedByGuard
  }

  class ProviderResponsesDownstream {
    const body: Body
    const crypto: Crypto
    const digests: Digests
    const replayGuard: ReceiptReplayGuard

    constructor (body: Body, crypto: Crypto, digests: Digests, replayGuard: ReceiptReplayGuard)
      ensures this.body == body && this.crypto == crypto && this.digests == digests
      ensures this.replayGuard == replayGuard
    {
      this.body, this.crypto, this.digests, this.replayGuard := body, crypto, digests, replayGuard;
    }

    /**
     * `invoke`: a receipt is used up by every request whose seal holds, even one that is refused or raises
     * afterwards, and by no other.
     */
    method Invoke(request: Sealed, host: Host, now: real) returns (answer: ProviderAnswer)
      requires request.payload.Obj?
      modifies replayGuard
      ensures var sealed := VerifySeal(crypto, digests, request, now).None?;
              && replayGuard.used == (if sealed then
                   Consume(old(replayGuard.used), replayGuard.maxEntries, request.receipt, now).0
                 else old(replayGuard.used))
              && answer == (if sealed then
                   AnswerAfter(body, host, old(replayGuard.used), replayGuard.maxEntries, request, now)
                 else RejectedByGuard)
    {
      hide VerifySeal, Consume, GenerationOptions, Resolver.ProviderForTarget, HasPrompt;
      if VerifySeal(crypto, digests, request, now).Some? {
        return RejectedByGuard;
      }
      var verdict := replayGuard.ConsumeReceipt(request.receipt, now);
      if !verdict.Consumed? {
        return RejectedByGuard;
      }
      var options := GenerationOptions(request.payload);
      if options.None? {
        return Failed;
      }
      var found := Resolver.ProviderForTarget(body.routing, request.binding.target);
      if found.Err? {
        return if found.error.TypeError? then ProviderAnswer.Raised else Failed;
      }
      var provider := found.value;
      var effort := request.payload.Get("reasoning_effort");
      if effort.Null? && body.defaults.Obj? {
        effort := body.defaults.Get("reasoning_effort");
      }
      if effort == Str("provider_default") {
        effort := Null;
      }
      if !effort.Null? {
        if !Hashable(effort) {
          return ProviderAnswer.Raised;
        }
        if effort !in EFFORTS {
          return Failed;
        }
        provider := WithEffort(provider, effort);
      }
      answer := FromBackend(host, request.payload, provider, options.value);
    }
  }

  // ----- Which requests are answered, and how -----

  lemma FoundIsObject(routing: Resolver.Snapshot, target: string)
    ensures var r := Resolver.ProviderForTarget(routing, target); r.Ok? ==> r.value.Obj?
  {
  }

  /** The configuration the backend is built from: that of the provider found, with the effort in force, if any. */
  ghost predicate IsConfigured(body: Body, target: string, payload: Json, config: Json)
    requires payload.Obj?
  {
    var found, effort := Resolver.ProviderForTarget(body.routing, target), Effort(body, payload);
    && found.Ok? && found.value.Obj?
    && (effort.Null? || effort in {Str("low"), Str("medium"), Str("high")})
    && config == if effort.Null? then found.value else Obj(found.value.fields["reasoning_effort" := effort])
  }

  /** The options of a request: nothing but the known fields, each of its kind, and each handed on as it is. */
  ghost predicate AreOptions(payload: Json, options: Options)
    requires payload.Obj?
  {
    var fields := payload.fields;
    && (forall key :: key in fields ==> key in OPTION_KEYS)
    && ("instructions" in fields <==> options.instructions.Some?)
    && (options.instructions.Some? ==> fields["instructions"] == Str(options.instructions.value))
    && ("max_output_tokens" in fields <==> options.cap.Some?)
    && (options.cap.Some? ==> options.cap.value > 0 && fields["max_output_tokens"] == Int(options.cap.value))
    && ("text" in fields <==> options.format.Some?)
    && (options.format.Some? ==>
          && fields["text"] == Obj(map["format" := options.format.value])
          && options.format.value.Obj? && Chat.IsJsonFormat(options.format.value.fields))
  }

  lemma OptionsExactly(payload: Json, options: Options)
    requires payload.Obj?
    ensures GenerationOptions(payload) == Some(options) <==> AreOptions(payload, options)
  {
    hide Chat.IsJsonFormat;
    var text := payload.Get("text");
    if text.Obj? && text.fields.Keys == {"format"} {
      assert text.fields == map["format" := text.Get("format")];
    }
  }

  lemma ReachesExactly(body: Body, target: string, payload: Json, config: Json, options: Options)
    requires payload.Obj?
    ensures UpToBackend(body, target, payload) == Reaches(config, options)
       <==> AreOptions(payload, options) && IsConfigured(body, target, payload, config)
  {
    hide Resolver.ProviderForTarget, AreOptions, GenerationOptions;
    FoundIsObject(body.routing, target);
    OptionsExactly(payload, options);
  }

  /**
   * A sealed request is answered exactly when its options are, its model has a provider, its effort is one of three,
   * the backend built for that configuration takes its options, it has a prompt, and the analysis says something.
   */
  lemma AnswersExactly(body: Body, host: Host, request: Sealed, id: string, stream: bool)
    requires request.payload.Obj?
    ensures AnswerTo(body, host, request) == Answered(id, stream)
       <==> HasPrompt(request.payload) && host.analysis.Analyzed? && host.analysis.text != ""
            && id == host.responseId && stream == (request.payload.Get("stream") == Bool(true))
            && exists config, options ::
                 AreOptions(request.payload, options)
                 && IsConfigured(body, request.binding.target, request.payload, config)
                 && host.build(config).Built? && (options.Specified() ==> host.build(config).takesOptions)
  {
    hide UpToBackend, AreOptions, IsConfigured, HasPrompt;
    forall config, options
      ensures UpToBackend(body, request.binding.target, request.payload) == Reaches(config, options)
         <==> AreOptions(request.payload, options)
              && IsConfigured(body, request.binding.target, request.payload, config)
    {
      ReachesExactly(body, request.binding.target, request.payload, config, options);
    }
  }

  // ----- Which prompts are empty -----

  lemma TextItemHolds(text: string)
    ensures HoldsText(TextItem(text)) <==> Strip(text) != ""
  {
    hide Strip;
    var item := TextItem(text);
    assert |"type"| == 4 && |"text"| == 4 && "type"[1] == 'y' && "text"[1] == 'e';
    assert item.Get("type") == Str("input_text") && item.Get("text") == Str(text);
    assert forall key :: key in item.fields ==> !HoldsText(item.fields[key]);
  }

  lemma MediaItemHolds(part: Part)
    requires part.MediaPart? && MediaItem(part).Some?
    ensures !HoldsText(MediaItem(part).value)
  {
    hide Strip;
    var item := MediaItem(part).value;
    assert |"type"| == 4 && |"image_url"| == 9 && |"file_data"| == 9;
    assert |"input_image"| == 11 && |"input_file"| == 10 && |"input_text"| == 10;
    assert "input_file"[6] == 'f' && "input_text"[6] == 't';
    assert item.Get("type") != Str("input_text");
    assert forall key :: key in item.fields ==> !HoldsText(item.fields[key]);
  }

  /** Some text is not blank. */
  ghost predicate SaysAnything(content: seq<Part>) {
    exists i :: 0 <= i < |content| && content[i].TextPart? && Strip(content[i].text) != ""
  }

  lemma ListHolds(items: seq<Json>)
    requires items != []
    ensures HoldsText(List(items)) <==> HoldsText(items[0]) || HoldsText(List(items[1..]))
  {
    var others := items[1..];
    assert forall i :: 0 <= i < |others| ==> others[i] == items[i + 1];
    if HoldsText(List(others)) {
      var i :| 0 <= i < |others| && HoldsText(others[i]);
      assert HoldsText(items[i + 1]);
    }
  }

  lemma FirstSays(content: seq<Part>)
    requires content != []
    ensures SaysAnything(content)
       <==> (content[0].TextPart? && Strip(content[0].text) != "") || SaysAnything(content[1..])
  {
    hide Strip;
    var rest := content[1..];
    assert forall i :: 1 <= i < |content| ==> content[i] == rest[i - 1];
    if SaysAnything(rest) {
      var i :| 0 <= i < |rest| && rest[i].TextPart? && Strip(rest[i].text) != "";
      assert content[i + 1] == rest[i];
    }
  }

  lemma {:induction false} ItemsHold(content: seq<Part>)
    requires ContentItems(content).Some?
    ensures HoldsText(List(ContentItems(content).value)) <==> SaysAnything(content)
  {
    hide Strip, MediaItem, TextItem, SaysAnything;
    if content == [] {
      assert !SaysAnything([]) by { NothingSaid(); }
    } else {
      ItemsHold(content[1..]);
      if content[0].TextPart? {
        TextItemHolds(content[0].text);
      } else {
        MediaItemHolds(content[0]);
      }
      var items := ContentItems(content).value;
      assert items[1..] == ContentItems(content[1..]).value;
      ListHolds(items);
      FirstSays(content);
    }
  }

  lemma NothingSaid()
    ensures !SaysAnything([])
  {
  }

  /** A rebuilt input has a prompt exactly when one of its texts is not blank; media alone are never enough. */
  lemma RebuiltHasPrompt(content: seq<Part>)
    requires RebuiltInput(content).Some?
    ensures HoldsText(RebuiltInput(content).value) <==> SaysAnything(content)
  {
    hide Strip, ContentItems, SaysAnything;
    ItemsHold(content);
    var items := ContentItems(content).value;
    var message := RebuiltInput(content).value.items[0];
    assert |"type"| == 4 && |"role"| == 4 && |"content"| == 7 && "type"[0] == 't' && "role"[0] == 'r';
    assert |"message"| == 7 && |"input_text"| == 10;
    assert message.Get("type") == Str("message") && message.fields["content"] == List(items);
    assert forall key :: key in message.fields && key != "content" ==> message.fields[key].Str?;
    assert HoldsText(message) <==> HoldsText(List(items)) by {
      if HoldsText(message) {
        var key :| key in message.fields && HoldsText(message.fields[key]);
        assert key == "content";
      }
      if HoldsText(List(items)) {
        assert HoldsText(message.fields["content"]);
      }
    }
    assert RebuiltInput(content).value.items == [message];
    if HoldsText(message) {
      assert HoldsText(RebuiltInput(content).value.items[0]);
    }
  }

  /** A text item that is not blank. */
  predicate IsPrompt(value: Json) {
    && value.Obj? && value.Get("type") == Str("input_text") && value.Get("text").Str?
    && Strip(value.Get("text").text) != ""
  }

  lemma {:induction false} FoundIsHeld(value: Json, path: seq<Guarding.Path>)
    requires Guarding.Found(value, path).Some? && IsPrompt(Guarding.Found(value, path).value)
    ensures HoldsText(value)
    decreases path
  {
    hide Strip;
    if path != [] {
      match path[0]
      case Item(i) => FoundIsHeld(value.items[i], path[1..]);
      case Field(key) => FoundIsHeld(value.fields[key], path[1..]);
    }
  }

  lemma {:induction false} HeldIsFound(value: Json) returns (path: seq<Guarding.Path>)
    requires HoldsText(value)
    ensures Guarding.Found(value, path).Some? && IsPrompt(Guarding.Found(value, path).value)
    decreases value
  {
    hide Strip;
    path := [];
    if value.List? {
      var i :| 0 <= i < |value.items| && HoldsText(value.items[i]);
      var rest := HeldIsFound(value.items[i]);
      path := [Guarding.Item(i)] + rest;
      assert path[1..] == rest;
    } else if !IsPrompt(value) {
      var key :| key in value.fields && HoldsText(value.fields[key]);
      var rest := HeldIsFound(value.fields[key]);
      path := [Guarding.Field(key)] + rest;
      assert path[1..] == rest;
    }
  }

  /** A request has a prompt exactly when its input is a text that is not blank or holds such a text item somewhere. */
  lemma PromptAtAnyDepth(payload: Json)
    requires payload.Obj?
    ensures HasPrompt(payload)
       <==> (payload.Get("input").Str? && Strip(payload.Get("input").text) != "")
            || exists path :: Guarding.Found(payload.Get("input"), path).Some?
                              && IsPrompt(Guarding.Found(payload.Get("input"), path).value)
  {
    hide Strip, Guarding.Found;
    var input := payload.Get("input");
    if input.Str? {
      forall path ensures Guarding.Found(input, path).None? || !IsPrompt(Guarding.Found(input, path).value) {
        NothingInAText(input, path);
      }
    } else {
      if HoldsText(input) {
        var path := HeldIsFound(input);
      }
      if path: seq<Guarding.Path> :| Guarding.Found(input, path).Some? && IsPrompt(Guarding.Found(input, path).value) {
        FoundIsHeld(input, path);
      }
    }
  }

  lemma NothingInAText(value: Json, path: seq<Guarding.Path>)
    requires value.Str?
    ensures Guarding.Found(value, path).None? || !IsPrompt(Guarding.Found(value, path).value)
  {
  }

  // ----- Which requests raise -----

  const CONVERSATION_KEYS := {"previous_response_id", "conversation"}

  /** The request as it was received, without what continues a conversation. */
  function Detached(payload: Json): Json
    requires payload.Obj?
  {
    Obj(payload.fields - CONVERSATION_KEYS)
  }

  /**
   * A request whose options are accepted, for a model whose lookup raises, or whose provider is found while the
   * effort it asks for, or the default it leaves in force, is a list or an object.
   */
  ghost predicate FaultyDelivery(body: Body, payload: Json) {
    && payload.Obj? && payload.Get("model").Str? && GenerationOptions(Detached(payload)).Some?
    && var target := payload.Get("model").text;
    || Resolver.FaultyRouting(body.routing, target)
    || (Resolver.ProviderForTarget(body.routing, target).Ok? && !Hashable(Effort(body, payload)))
  }

  /** What a sealed request keeps of the one it was planned for. */
  lemma PlanKeepsFields(world: World, registry: Registry, payload: Json, state: Option<Record>,
                        environment: nat -> MediaScript, nonce: string, times: Times)
    requires OrdersLocators(world.text)
    requires PlanRequest(world, registry, payload, state, environment, nonce, times).Send?
    ensures var request := PlanRequest(world, registry, payload, state, environment, nonce, times).request;
            && payload.Obj? && request.payload.Obj? && payload.Get("model") == Str(request.binding.target)
            && request.payload.fields.Keys == Detached(payload).fields.Keys
            && forall key :: key in request.payload.fields.Keys && key != "input" ==>
                 request.payload.fields[key] == payload.fields[key]
  {
    hide Normalize, Prepare, VerifySeal, Sign, Verify, RebuiltInput, CheckState;
    var plan := PlanRequest(world, registry, payload, state, environment, nonce, times);
    var scripts := ScriptsFor(environment, plan.n.request.content);
    NormalizedSteps(world.locators, payload, state);
    MediaPassesOnlyAsVerifiedPdf(world.text, registry, plan.n.request, scripts, times.gated);
    assert BuildDownstream(payload, plan.n, plan.p) == Some(plan.request.payload);
  }

  lemma SameOptions(a: Json, b: Json)
    requires a.Obj? && b.Obj? && a.fields.Keys == b.fields.Keys
    requires forall key :: key in a.fields.Keys && key != "input" ==> a.fields[key] == b.fields[key]
    ensures GenerationOptions(a) == GenerationOptions(b)
    ensures a.Get("reasoning_effort") == b.Get("reasoning_effort")
  {
    hide Chat.IsJsonFormat;
    KeysAreNotInput();
  }

  lemma KeysAreNotInput()
    ensures "input" !in {"instructions", "text", "max_output_tokens", "reasoning_effort", "model"}
    ensures "reasoning_effort" !in CONVERSATION_KEYS
  {
    assert |"input"| == 5 && |"instructions"| == 12 && |"text"| == 4 && |"max_output_tokens"| == 17;
    assert |"reasoning_effort"| == 16 && |"model"| == 5 && "input"[0] == 'i' && "model"[0] == 'm';
    assert |"previous_response_id"| == 20 && |"conversation"| == 12;
  }

  /** Up to the backend a sealed request raises exactly when the request as received was faulty. */
  lemma SealedRaisesExactly(world: World, registry: Registry, payload: Json, state: Option<Record>,
                            environment: nat -> MediaScript, nonce: string, times: Times, body: Body)
    requires OrdersLocators(world.text)
    requires PlanRequest(world, registry, payload, state, environment, nonce, times).Send?
    ensures var request := PlanRequest(world, registry, payload, state, environment, nonce, times).request;
            && request.payload.Obj?
            && (UpToBackend(body, request.binding.target, request.payload).Raises? <==> FaultyDelivery(body, payload))
  {
    hide PlanRequest, Resolver.ProviderForTarget, Resolver.FaultyRouting, GenerationOptions;
    var request := PlanRequest(world, registry, payload, state, environment, nonce, times).request;
    PlanKeepsFields(world, registry, payload, state, environment, nonce, times);
    SameOptions(request.payload, Detached(payload));
    KeysAreNotInput();
    Resolver.LookupRaisesExactly(body.routing, request.binding.target);
    assert Effort(body, request.payload) == Effort(body, payload);
  }

  /** The backend is reached, and building it or its analysis raises. */
  predicate BackendFails(body: Body, host: Host, request: Sealed)
    requires request.payload.Obj?
  {
    match UpToBackend(body, request.binding.target, request.payload)
    case Reaches(provider, options) => FromBackend(host, request.payload, provider, options).Raised?
    case _ => false
  }

  /**
   * A whole transaction on this downstream ends in an uncaught error exactly for the requests that escape before the
   * provider is called, and for those that are sent with a fresh receipt and are faulty, or meet a failing backend.
   */
  lemma EndsUncaughtExactly(world: World, registry: Registry, payload: Json, state: Option<Record>,
                            environment: nat -> MediaScript, nonce: string, times: Times, body: Body, host: Host,
                            used: map<Digest, real>, maxEntries: nat, provider: ProviderAnswer)
    requires OrdersLocators(world.text)
    requires var plan := PlanRequest(world, registry, payload, state, environment, nonce, times);
             plan.Send? && plan.request.payload.Obj? ==>
               provider == AnswerAfter(body, host, used, maxEntries, plan.request, times.guarded)
    ensures var plan := PlanRequest(world, registry, payload, state, environment, nonce, times);
            && (plan.Send? ==> plan.request.payload.Obj?)
            && (EndsUncaught(plan, provider) <==>
                  (PlanEscapes(world, registry, payload, state, environment, times)
                   || (plan.Send? && Consume(used, maxEntries, plan.request.receipt, times.guarded).1.Consumed?
                       && (FaultyDelivery(body, payload) || BackendFails(body, host, plan.request)))))
  {
    hide PlanRequest, UpToBackend, FromBackend, FaultyDelivery, PlanEscapes, Consume;
    PlanEscapesExactly(world, registry, payload, state, environment, nonce, times);
    if PlanRequest(world, registry, payload, state, environment, nonce, times).Send? {
      SealedRaisesExactly(world, registry, payload, state, environment, nonce, times, body);
    }
  }

  // ----- A request that does -----

  /** One provider with everything filled in, for the only model. */
  function OneProvider(): Body {
    var provider := map["id" := Str("p"), "kind" := Str("llm"), "enabled" := Bool(true), "catalog_id" := Str("c"),
                        "protocol" := Str("c"), "endpoint" := Str("c"), "model_id" := Str("c")];
    Body(Resolver.Snapshot([Resolver.Model("m", Some("p"), None, [])], List([Obj(provider)]), Null), Null)
  }

  lemma OneProviderServes()
    ensures Resolver.ProviderForTarget(OneProvider().routing, "m").Ok?
  {
    hide Resolver.ProviderForTarget;
    var routing := OneProvider().routing;
    var provider := routing.providers.items[0];
    assert |"id"| == 2 && |"kind"| == 4 && |"enabled"| == 7 && |"catalog_id"| == 10 && |"protocol"| == 8;
    assert |"endpoint"| == 8 && |"model_id"| == 8 && |"capabilities"| == 12;
    assert "protocol"[0] == 'p' && "endpoint"[0] == 'e' && "model_id"[0] == 'm';
    assert provider.Get("id") == Str("p") && provider.Get("kind") == Str("llm");
    assert provider.Get("enabled") == Bool(true) && provider.Get("capabilities") == Null;
    assert provider.Get("catalog_id") == provider.Get("protocol") == Str("c");
    assert provider.Get("endpoint") == provider.Get("model_id") == Str("c");
    assert Resolver.Names(routing.models[0]) == ["m"];
    assert "p" in Resolver.EnabledIds(routing.providers.items);
    Resolver.QualifiedIsServed(routing, 0, "m");
  }

  function ListEffort(): Json {
    Obj(map["model" := Str("m"), "input" := Str("hi"), "reasoning_effort" := List([Str("low")])])
  }

  lemma ListEffortFields()
    ensures ListEffort().Get("model") == Str("m") && ListEffort().Get("input") == Str("hi")
    ensures ListEffort().Get("reasoning_effort") == List([Str("low")])
    ensures ReachesInput(ListEffort(), None) && !NamesMedia(ListEffort().fields) && !StartsAsMediaData("hi")
    ensures GenerationOptions(Detached(ListEffort())).Some?
  {
    hide StartsAsMediaData;
    KeysAreNotInput();
    ShortTextsAreNoMedia();
    var effort := List([Str("low")]);
    assert !ContainsMedia(effort) by {
      assert !ContainsMedia(effort.items[0]);
    }
    assert |"type"| == 4 && |"conversation"| == 12;
    assert |"image_url"| == 9 && |"file_data"| == 9 && |"file_id"| == 7 && |"file_url"| == 8 && |"asset_id"| == 8;
    assert Detached(ListEffort()).fields.Keys <= OPTION_KEYS;
  }

  lemma ShortTextsAreNoMedia()
    ensures !StartsAsMediaData("hi") && !StartsAsMediaData("low") && !StartsAsMediaData("m")
  {
    assert |"hi"| == 2 && |"low"| == 3 && |"m"| == 1;
  }

  /** The times let the gate's receipt and the sealed one live. */
  predicate Prompt(times: Times) {
    && times.at.gateSigned.Floor <= times.at.gateChecked.Floor <= times.at.gateSigned.Floor + DEFAULT_TTL
    && times.at.sealedAt.Floor <= times.guarded.Floor <= times.at.sealedAt.Floor + DEFAULT_TTL
  }

  lemma ListEffortIsSent(world: World, environment: nat -> MediaScript, nonce: string, times: Times)
    requires Lawful(world) && IsNonce(nonce) && Prompt(times)
    ensures var registry := map["m" := Capability({}, None, false)];
            PlanRequest(world, registry, ListEffort(), None, environment, nonce, times).Send?
  {
    hide Normalize, Prepare, Seal, VerifySeal, CodecRoundTrips, NamesMedia, StartsAsMediaData;
    var registry: Registry := map["m" := Capability({}, None, false)];
    var payload, content := ListEffort(), [TextPart("hi")];
    ListEffortFields();
    assert "hi"[0] == 'h' && "hi"[1] == 'i' && |"hi"| == 2;
    TextNormalizes(world.locators, payload, "hi");
    TextIsPrepared(world.text, registry, times.gated, "hi");
    var n := Normalized(PrepareRequest(content, "m", ErrorScreenshot), false, None);
    var p := Prepared("m", NonVision, Passthrough, content, "hi");
    assert !HasMedia(content) && ScriptsFor(environment, content) == [];
    SealsWhileGateReceiptLives(world, registry, payload, None, [], times.gated, n, p, nonce, times.at);
    GuardAcceptsExactlyCleanRequests(world, registry, payload, None, [], times.gated, n, p, nonce, times.at,
                                     times.guarded);
    assert CleanRequest(payload, n, p.action) by {
      assert ForwardedStrings(payload, n) == ["hi"];
    }
  }

  /** A reasoning effort given as a list: accepted, sealed, approved by the guard, and ended by the downstream. */
  lemma ListEffortEndsUncaught(world: World, environment: nat -> MediaScript, nonce: string, times: Times,
                               body: Body, host: Host, maxEntries: nat)
    requires Lawful(world) && IsNonce(nonce) && Prompt(times) && maxEntries >= 1
    requires Resolver.ProviderForTarget(body.routing, "m").Ok?
    ensures var registry := map["m" := Capability({}, None, false)];
            var plan := PlanRequest(world, registry, ListEffort(), None, environment, nonce, times);
            && plan.Send? && plan.request.payload.Obj?
            && AnswerAfter(body, host, map[], maxEntries, plan.request, times.guarded).Raised?
  {
    hide PlanRequest, VerifySeal, CodecRoundTrips, UpToBackend, Resolver.ProviderForTarget, GenerationOptions;
    hide Resolver.FaultyRouting;
    var registry: Registry := map["m" := Capability({}, None, false)];
    ListEffortFields();
    ListEffortIsSent(world, environment, nonce, times);
    SealedRaisesExactly(world, registry, ListEffort(), None, environment, nonce, times, body);
  }

  // ----- What nonces are for -----

  /** One request of a run, in the order in which the guard sees them. */
  datatype Call = Call(registry: Registry, payload: Json, state: Option<Record>, environment: nat -> MediaScript,
                       nonce: string, times: Times)

  function PlanOf(world: World, c: Call): Plan
    requires OrdersLocators(world.text)
  {
    PlanRequest(world, c.registry, c.payload, c.state, c.environment, c.nonce, c.times)
  }

  /** The guard's table after a run of requests: those that were sent have reached it. */
  function UsedAfter(world: World, maxEntries: nat, calls: seq<Call>): map<Digest, real>
    requires OrdersLocators(world.text)
  {
    if |calls| == 0 then map[]
    else
      var before, last := UsedAfter(world, maxEntries, calls[..|calls| - 1]), calls[|calls| - 1];
      var plan := PlanOf(world, last);
      if plan.Send? then Consume(before, maxEntries, plan.request.receipt, last.times.guarded).0 else before
  }

  /** SHA-256 over the canonical JSON of a payload and its nonce, taken to be injective in the nonce. */
  ghost predicate TellsNonces(digests: Digests) {
    forall a, b, m, n :: digests.payload(a, m) == digests.payload(b, n) ==> m == n
  }

  ghost predicate DistinctNonces(calls: seq<Call>) {
    forall i, j :: 0 <= i < j < |calls| ==> calls[i].nonce != calls[j].nonce
  }

  /** The receipt of a sent request was signed for the digest of its payload and its own nonce, and still lives. */
  lemma SentIsSigned(world: World, c: Call)
    requires Lawful(world) && PlanOf(world, c).Send?
    ensures var request, sealedAt := PlanOf(world, c).request, c.times.at.sealedAt;
            && request.payload.Obj? && request.nonce == c.nonce && c.payload.Obj?
            && request.binding.outputDigest == world.digests.payload(request.payload, c.nonce)
            && request.binding.inputDigest == world.digests.raw(c.payload)
            && request.receipt == Sign(world.crypto, request.binding, DEFAULT_TTL, sealedAt)
            && sealedAt.Floor <= c.times.guarded.Floor <= sealedAt.Floor + DEFAULT_TTL
  {
    hide Normalize, Prepare, Sign, Verify, BuildDownstream, CheckState, CodecRoundTrips;
    var request := PlanOf(world, c).request;
    NormalizedSteps(world.locators, c.payload, c.state);
    SignThenVerify(world.crypto, request.binding, DEFAULT_TTL, c.times.at.sealedAt, request.binding, c.times.guarded);
  }

  /** Requests sent with different nonces carry different receipts. */
  lemma SentReceiptsDiffer(world: World, a: Call, b: Call)
    requires Lawful(world) && TellsNonces(world.digests) && a.nonce != b.nonce
    requires PlanOf(world, a).Send? && PlanOf(world, b).Send?
    ensures PlanOf(world, a).request.receipt != PlanOf(world, b).request.receipt
  {
    hide PlanOf, Sign, CodecRoundTrips;
    SentIsSigned(world, a);
    SentIsSigned(world, b);
    SameReceiptExactly(world.crypto, PlanOf(world, a).request.binding, PlanOf(world, b).request.binding, DEFAULT_TTL,
                       a.times.at.sealedAt, b.times.at.sealedAt);
  }

  lemma {:induction false} UsedWereSent(world: World, maxEntries: nat, calls: seq<Call>, d: Digest)
    requires OrdersLocators(world.text) && d in UsedAfter(world, maxEntries, calls)
    ensures exists i :: 0 <= i < |calls| && PlanOf(world, calls[i]).Send?
                     && d == Sha256(PlanOf(world, calls[i]).request.receipt)
    decreases |calls|
  {
    hide PlanOf;
    var before, last := calls[..|calls| - 1], calls[|calls| - 1];
    if d in UsedAfter(world, maxEntries, before) {
      UsedWereSent(world, maxEntries, before, d);
      var i :| 0 <= i < |before| && PlanOf(world, before[i]).Send?
               && d == Sha256(PlanOf(world, before[i]).request.receipt);
      assert before[i] == calls[i];
    } else {
      assert calls[|calls| - 1] == last;
    }
  }

  lemma OnlyTheGuardRejects(body: Body, host: Host, request: Sealed)
    requires request.payload.Obj?
    ensures !AnswerTo(body, host, request).RejectedByGuard?
  {
    hide UpToBackend, HasPrompt;
  }

  /**
   * In a run whose requests have different nonces the guard takes none of them for a replay: it refuses a request
   * that was sealed and sent exactly when its table is full of receipts younger than their retention.
   */
  lemma FreshNoncesAreNeverReplays(world: World, maxEntries: nat, calls: seq<Call>, i: nat, body: Body, host: Host)
    requires Lawful(world) && TellsNonces(world.digests) && DistinctNonces(calls)
    requires i < |calls| && PlanOf(world, calls[i]).Send?
    ensures var used, now := UsedAfter(world, maxEntries, calls[..i]), calls[i].times.guarded;
            var request := PlanOf(world, calls[i]).request;
            && request.payload.Obj?
            && !Consume(used, maxEntries, request.receipt, now).1.Replayed?
            && (AnswerAfter(body, host, used, maxEntries, request, now).RejectedByGuard?
                <==> |Held(used, now)| >= maxEntries)
  {
    hide PlanOf, AnswerTo, CodecRoundTrips, OrdersLocators, TellsNonces;
    var used, request := UsedAfter(world, maxEntries, calls[..i]), PlanOf(world, calls[i]).request;
    SentIsSigned(world, calls[i]);
    OnlyTheGuardRejects(body, host, request);
    if Sha256(request.receipt) in used {
      UsedWereSent(world, maxEntries, calls[..i], Sha256(request.receipt));
      var j :| 0 <= j < i && PlanOf(world, calls[..i][j]).Send?
               && Sha256(request.receipt) == Sha256(PlanOf(world, calls[..i][j]).request.receipt);
      SentReceiptsDiffer(world, calls[j], calls[i]);
    }
  }

  /** Right after one request another is a replay exactly when both sealed the same binding within the same second. */
  lemma ReplayedExactly(world: World, maxEntries: nat, a: Call, b: Call)
    requires Lawful(world) && maxEntries >= 1 && PlanOf(world, a).Send? && PlanOf(world, b).Send?
    ensures var used := UsedAfter(world, maxEntries, [a]);
            var verdict := Consume(used, maxEntries, PlanOf(world, b).request.receipt, b.times.guarded).1;
            verdict.Replayed? <==> (PlanOf(world, a).request.binding == PlanOf(world, b).request.binding
                                    && a.times.at.sealedAt.Floor == b.times.at.sealedAt.Floor)
  {
    hide PlanOf, Sign, CodecRoundTrips, OrdersLocators;
    SentIsSigned(world, a);
    SentIsSigned(world, b);
    var sent := PlanOf(world, a).request;
    SameReceiptExactly(world.crypto, sent.binding, PlanOf(world, b).request.binding, DEFAULT_TTL,
                       a.times.at.sealedAt, b.times.at.sealedAt);
    assert [a][..0] == [] && UsedAfter(world, maxEntries, [a][..0]) == map[];
    assert Held(map[], a.times.guarded) == map[];
    assert UsedAfter(world, maxEntries, [a]) == map[Sha256(sent.receipt) := a.times.guarded + RETENTION];
  }
}
