/** Building, sealing and re-checking the downstream request. */
module Sealing {
  import opened Common
  import opened Contracts
  import opened Gate
  import opened Json
  import opened Normalizer
  import opened Preparation
  import opened Receipts
  import opened StateStore
  import opened Text

  // ----- The downstream payload -----

  /** `_media_part_to_response`; only normalized base64 media can be forwarded. */
  function MediaItem(part: Part): Option<Json>
    requires part.MediaPart?
  {
    if !part.source.Base64Source? then None
    else if part.kind.Image? then
      var mime := if part.mime.Some? && part.mime.value != "" then part.mime.value else "image/png";
      Some(Obj(map["type" := Str("input_image"), "image_url" := Str("data:" + mime + ";base64," + part.source.data)]))
    else
      Some(Obj(map["type" := Str("input_file"), "file_data" := Str("data:application/pdf;base64," + part.source.data)]))
  }

  function ContentItem(part: Part): Option<Json> {
    if part.TextPart? then Some(TextItem(part.text)) else MediaItem(part)
  }

  function TextItem(text: string): Json {
    Obj(map["type" := Str("input_text"), "text" := Str(text)])
  }

  function ContentItems(content: seq<Part>): Option<seq<Json>> {
    if content == [] then Some([])
    else
      var item, rest := ContentItem(content[0]), ContentItems(content[1..]);
      if item.None? || rest.None? then None else Some([item.value] + rest.value)
  }

  /** `_rebuilt_input`. */
  function RebuiltInput(content: seq<Part>): Option<Json> {
    var items := ContentItems(content);
    if items.None? || content == [] then None
    else Some(List([Obj(map["type" := Str("message"), "role" := Str("user"), "content" := List(items.value)])]))
  }

  /** `_rebuilt_input` as the code runs it: items are appended one by one. */
  method RebuildInput(content: seq<Part>) returns (r: Option<Json>)
    ensures r == RebuiltInput(content)
  {
    var items: seq<Json> := [];
    assert content[0..] == content;
    assert forall rest: seq<Json> :: [] + rest == rest;
    for i := 0 to |content|
      invariant var rest := ContentItems(content[i..]);
                ContentItems(content) == if rest.None? then None else Some(items + rest.value)
    {
      assert content[i..][1..] == content[i + 1..];
      var item := ContentItem(content[i]);
      if item.None? {
        return None;
      }
      ghost var rest := ContentItems(content[i + 1..]);
      assert rest.Some? ==> items + ([item.value] + rest.value) == items + [item.value] + rest.value;
      items := items + [item.value];
    }
    assert items + [] == items;
    if items == [] {
      return None;
    }
    r := Some(List([Obj(map["type" := Str("message"), "role" := Str("user"), "content" := List(items)])]));
  }

  /** Without media and without previous state the request is copied; otherwise its input is rebuilt. */
  predicate CopiesInput(n: Normalized) {
    !n.inputHadMedia && n.previous.None?
  }

  /** `_build_downstream_payload`. */
  function BuildDownstream(payload: Json, n: Normalized, p: Prepared): (r: Option<Json>)
    requires payload.Obj?
    ensures r.Some? ==> r.value.Obj?
  {
    if CopiesInput(n) then
      Some(Obj((payload.fields - {"previous_response_id", "conversation"})["model" := Str(p.target)]))
    else
      var input := RebuiltInput(p.content);
      if input.None? then None
      else
        var kept := payload.fields - {"model", "input", "previous_response_id", "conversation"};
        Some(Obj(kept["model" := Str(p.target)]["input" := input.value]))
  }

  // ----- Sealing -----

  /** SHA-256 over canonical JSON, for payloads and for the gate's own request and content. */
  datatype Digests = Digests(payload: (Json, string) -> string, raw: Json -> string, request: PrepareRequest -> string,
                             content: seq<Part> -> string)

  datatype Sealed = Sealed(binding: Binding, payload: Json, receipt: string, nonce: string)

  function CapabilityName(state: CapabilityState): string {
    match state
    case Vision => "vision"
    case NonVision => "non_vision"
    case Unknown => "unknown"
    case Stale => "stale"
  }

  function ActionName(action: Action): string {
    if action.Passthrough? then "passthrough" else "converted"
  }

  const DEFAULT_TTL := 30

  /** The binding and receipt the gate signs in `_ready`. */
  function GateBinding(digests: Digests, request: PrepareRequest, p: Prepared): Binding {
    Binding(p.target, CapabilityName(p.capability), digests.request(request), digests.content(p.content),
            ActionName(p.action))
  }

  /** Clock readings of one request, in order. */
  datatype Instants = Instants(gateSigned: real, gateChecked: real, sealedAt: real)

  /** The sealing section of `invoke`: check the gate's receipt, rebuild the payload, sign it with a fresh nonce. */
  function Seal(crypto: Crypto, digests: Digests, payload: Json, n: Normalized, p: Prepared, nonce: string,
                at: Instants): Option<Sealed>
    requires payload.Obj?
  {
    var gateBinding := GateBinding(digests, n.request, p);
    var gateReceipt := Sign(crypto, gateBinding, DEFAULT_TTL, at.gateSigned);
    if Verify(crypto, gateReceipt, gateBinding, at.gateChecked).Err? then None
    else
      var downstream := BuildDownstream(payload, n, p);
      if downstream.None? then None
      else
        var binding := Binding(p.target, CapabilityName(p.capability), digests.raw(payload),
                               digests.payload(downstream.value, nonce), ActionName(p.action));
        Some(Sealed(binding, downstream.value, Sign(crypto, binding, DEFAULT_TTL, at.sealedAt), nonce))
  }

  // ----- The independent guard -----

  datatype GuardError =
    | InvalidNonce | DigestMismatch | NoValidReceipt | InexactCapability | ForbiddenAction | BoundaryMismatch
    | TargetMismatch | ServerSideState | ServerSideConversation | MediaForNonVision

  predicate IsNonce(s: string) {
    IsTokenText(s, 16, 64)
  }

  /** `_verify_seal` at clock reading `now`: the first check that fails, if any. */
  function VerifySeal(crypto: Crypto, digests: Digests, s: Sealed, now: real): Option<GuardError>
    requires s.payload.Obj?
  {
    if !IsNonce(s.nonce) then Some(InvalidNonce)
    else if digests.payload(s.payload, s.nonce) != s.binding.outputDigest then Some(DigestMismatch)
    else if Verify(crypto, s.receipt, s.binding, now).Err? then Some(NoValidReceipt)
    else if s.binding.capability !in {"non_vision", "vision"} then Some(InexactCapability)
    else if s.binding.action !in {"passthrough", "converted"} then Some(ForbiddenAction)
    else if s.binding.action == "converted" && s.binding.capability != "non_vision" then Some(BoundaryMismatch)
    else if s.payload.Get("model") != Str(s.binding.target) then Some(TargetMismatch)
    else if !s.payload.Get("previous_response_id").Null? then Some(ServerSideState)
    else if !s.payload.Get("conversation").Null? then Some(ServerSideConversation)
    else if s.binding.capability == "non_vision" && ContainsMedia(s.payload) then Some(MediaForNonVision)
    else None
  }

  // ----- What the guard sees in a sealed payload -----

  /** The strings of the user message that reach the provider in a passthrough. */
  function ForwardedStrings(payload: Json, n: Normalized): seq<string>
    requires payload.Obj?
  {
    if CopiesInput(n) then MessageStrings(payload.Get("input")) else Texts(n.request.content)
  }

  lemma TextItemContains(text: string)
    ensures ContainsMedia(TextItem(text)) <==> StartsAsMediaData(text)
  {
    var item := TextItem(text);
    PlainWords();
    assert item.fields["text"] == Str(text) && item.fields["type"] == Str("input_text");
    if ContainsMedia(item) {
      var key :| key in item.fields && ContainsMedia(item.fields[key]);
      assert key == "text";
    }
    if StartsAsMediaData(text) {
      assert ContainsMedia(item.fields["text"]);
    }
  }

  lemma {:induction false} TextItemsContain(content: seq<Part>)
    requires !HasMedia(content)
    ensures ContentItems(content).Some?
    ensures (exists i :: 0 <= i < |ContentItems(content).value| && ContainsMedia(ContentItems(content).value[i]))
       <==> !NoneStartsAsMedia(Texts(content))
  {
    hide ContainsMedia, StartsAsMediaData;
    if content != [] {
      assert !content[0].MediaPart?;
      var rest := content[1..];
      assert !HasMedia(rest) by {
        assert forall i :: 0 <= i < |rest| ==> rest[i] == content[i + 1];
      }
      TextItemsContain(rest);
      TextItemContains(content[0].text);
      FirstOrRest(content[0].text, Texts(rest));
      var items := ContentItems(content).value;
      assert items[0] == TextItem(content[0].text);
      assert forall i :: 1 <= i < |items| ==> items[i] == ContentItems(rest).value[i - 1];
      if exists i :: 0 <= i < |ContentItems(rest).value| && ContainsMedia(ContentItems(rest).value[i]) {
        var i :| 0 <= i < |ContentItems(rest).value| && ContainsMedia(ContentItems(rest).value[i]);
        assert ContainsMedia(items[i + 1]);
      }
    }
  }

  /** A user message contains media exactly when one of its items does. */
  lemma MessageContains(items: seq<Json>)
    ensures var message := Obj(map["type" := Str("message"), "role" := Str("user"), "content" := List(items)]);
            ContainsMedia(message) <==> exists i :: 0 <= i < |items| && ContainsMedia(items[i])
  {
    hide StartsAsMediaData;
    var message := Obj(map["type" := Str("message"), "role" := Str("user"), "content" := List(items)]);
    PlainWords();
    assert message.fields["type"] == Str("message") && message.fields["role"] == Str("user");
    assert message.fields["content"] == List(items);
    assert !NamesMedia(message.fields);
    if ContainsMedia(message) {
      var key :| key in message.fields && ContainsMedia(message.fields[key]);
      assert key == "content";
    }
    if ContainsMedia(List(items)) {
      assert ContainsMedia(message.fields["content"]);
    }
  }

  /** The rebuilt input contains media exactly when one of its texts starts as media data. */
  lemma RebuiltContains(content: seq<Part>)
    requires !HasMedia(content) && content != []
    ensures RebuiltInput(content).Some?
    ensures ContainsMedia(RebuiltInput(content).value) <==> !NoneStartsAsMedia(Texts(content))
  {
    hide StartsAsMediaData, NoneStartsAsMedia, NamesMedia, ContentItems;
    TextItemsContain(content);
    var items := ContentItems(content).value;
    MessageContains(items);
    var input := RebuiltInput(content).value;
    assert input.items == [input.items[0]];
    if ContainsMedia(input.items[0]) {
      assert ContainsMedia(input);
    }
  }

  /** Seen as one object, a downstream payload adds only its input to what the raw payload itself names. */
  lemma PayloadContains(payload: Json, downstream: Json, target: string)
    requires payload.Obj? && downstream.Obj? && "input" in downstream.fields
    requires forall key :: key in downstream.fields && key !in {"input", "model"} ==>
               key in payload.fields && downstream.fields[key] == payload.fields[key]
    requires forall key :: key in payload.fields ==>
               key in downstream.fields || key in {"previous_response_id", "conversation"}
    requires downstream.Get("model") == Str(target) && !StartsAsMediaData(target)
    requires forall key :: key in payload.fields && key != "input" ==> !ContainsMedia(payload.fields[key])
    ensures ContainsMedia(downstream) <==> NamesMedia(payload.fields) || ContainsMedia(downstream.fields["input"])
  {
    assert NamesMedia(downstream.fields) <==> NamesMedia(payload.fields);
    if ContainsMedia(downstream.fields["input"]) {
      assert ContainsMedia(downstream);
    }
    if ContainsMedia(downstream) && !NamesMedia(downstream.fields) {
      var key :| key in downstream.fields && ContainsMedia(downstream.fields[key]);
      assert key == "model" || key == "input";
    }
  }

  /** Everything one request needs from its environment besides the registry and the clock. */
  datatype World = World(locators: Locators, text: TextEnv, crypto: Crypto, digests: Digests)

  ghost predicate Lawful(world: World) {
    OrdersLocators(world.text) && CodecRoundTrips(world.crypto)
  }

  /** A request that was normalized and prepared. */
  ghost predicate PreparedFrom(world: World, registry: Registry, payload: Json, state: Option<Record>,
                               scripts: seq<MediaScript>, now: real, n: Normalized, p: Prepared)
    requires OrdersLocators(world.text)
  {
    && payload.Obj? && Normalize(world.locators, payload, state) == Ok(n)
    && |scripts| == MediaCount(n.request.content)
    && Prepare(world.text, registry, n.request, scripts, now) == Ready(p)
  }

  /** Every string the guard will read was there for the caller to see. */
  predicate CleanRequest(payload: Json, n: Normalized, action: Action)
    requires payload.Obj?
  {
    !NamesMedia(payload.fields) && (action.Converted? || NoneStartsAsMedia(ForwardedStrings(payload, n)))
  }

  lemma InputOfDownstream(world: World, registry: Registry, payload: Json, state: Option<Record>,
                          scripts: seq<MediaScript>, now: real, n: Normalized, p: Prepared)
    requires OrdersLocators(world.text) && PreparedFrom(world, registry, payload, state, scripts, now, n, p)
    requires p.capability.NonVision?
    ensures var d := BuildDownstream(payload, n, p);
            && d.Some? && d.value.Obj? && "input" in d.value.fields
            && (ContainsMedia(d.value.fields["input"])
                <==> !p.action.Converted? && !NoneStartsAsMedia(ForwardedStrings(payload, n)))
  {
    hide Normalize, SelectCurrent, CurrentContent, ContainsMedia, StartsAsMediaData, NoneStartsAsMedia, MessageStrings;
    MediaPassesOnlyAsVerifiedPdf(world.text, registry, n.request, scripts, now);
    NormalizedContent(world.locators, payload, state);
    NormalizedSteps(world.locators, payload, state);
    if CopiesInput(n) {
      InputMedia(world.locators, payload.fields["input"]);
    } else {
      if p.action.Converted? {
        ConvertedIsSafeText(world.text, registry, n.request, scripts, now);
        OneString(p.text);
        assert Texts(p.content) == [p.text];
      } else {
        assert p.content == n.request.content;
      }
      RebuiltContains(p.content);
    }
  }

  /** What the downstream payload keeps of the raw one. */
  lemma DownstreamFields(payload: Json, n: Normalized, p: Prepared)
    requires payload.Obj? && BuildDownstream(payload, n, p).Some?
    requires "input" in payload.fields
    ensures var d := BuildDownstream(payload, n, p).value;
            && d.Obj? && "input" in d.fields && d.Get("model") == Str(p.target)
            && d.Get("previous_response_id").Null? && d.Get("conversation").Null?
            && (forall key :: key in d.fields && key !in {"input", "model"} ==>
                  key in payload.fields && d.fields[key] == payload.fields[key])
            && (forall key :: key in payload.fields ==>
                  key in d.fields || key in {"previous_response_id", "conversation"})
  {
  }

  /**
   * The only check of the independent guard that a sealed request can fail while its receipt lives
   * is the one for media, and it fails exactly for the requests that are not clean.
   */
  lemma GuardAcceptsExactlyCleanRequests(world: World, registry: Registry, payload: Json, state: Option<Record>,
                                         scripts: seq<MediaScript>, gateNow: real, n: Normalized, p: Prepared,
                                         nonce: string, at: Instants, now: real)
    requires Lawful(world) && PreparedFrom(world, registry, payload, state, scripts, gateNow, n, p)
    requires IsNonce(nonce) && Seal(world.crypto, world.digests, payload, n, p, nonce, at).Some?
    requires at.sealedAt.Floor <= now.Floor <= at.sealedAt.Floor + DEFAULT_TTL
    ensures var s := Seal(world.crypto, world.digests, payload, n, p, nonce, at).value;
            && s.payload.Obj?
            && VerifySeal(world.crypto, world.digests, s, now)
               == if p.capability.Vision? || CleanRequest(payload, n, p.action) then None else Some(MediaForNonVision)
  {
    hide Normalize, Prepare, BuildDownstream, Verify, Sign, ContainsMedia, NamesMedia, StartsAsMediaData;
    hide NoneStartsAsMedia, ForwardedStrings;
    var s := Seal(world.crypto, world.digests, payload, n, p, nonce, at).value;
    MediaPassesOnlyAsVerifiedPdf(world.text, registry, n.request, scripts, gateNow);
    SignThenVerify(world.crypto, s.binding, DEFAULT_TTL, at.sealedAt, s.binding, now);
    NormalizedSteps(world.locators, payload, state);
    DownstreamFields(payload, n, p);
    if p.action.Converted? {
      ConvertedIsSafeText(world.text, registry, n.request, scripts, gateNow);
    }
    if p.capability.NonVision? {
      InputOfDownstream(world, registry, payload, state, scripts, gateNow, n, p);
      PayloadContains(payload, s.payload, p.target);
    }
  }

  /** Sealing itself fails only when the gate's own receipt is no longer valid. */
  lemma SealsWhileGateReceiptLives(world: World, registry: Registry, payload: Json, state: Option<Record>,
                                   scripts: seq<MediaScript>, gateNow: real, n: Normalized, p: Prepared,
                                   nonce: string, at: Instants)
    requires Lawful(world) && PreparedFrom(world, registry, payload, state, scripts, gateNow, n, p)
    ensures Seal(world.crypto, world.digests, payload, n, p, nonce, at).Some?
       <==> at.gateSigned.Floor <= at.gateChecked.Floor <= at.gateSigned.Floor + DEFAULT_TTL
  {
    var binding := GateBinding(world.digests, n.request, p);
    SignThenVerify(world.crypto, binding, DEFAULT_TTL, at.gateSigned, binding, at.gateChecked);
    NormalizedContent(world.locators, payload, state);
    if !CopiesInput(n) {
      PreparedIsForwardable(world, registry, n.request, scripts, gateNow, p);
    }
  }

  lemma PreparedIsForwardable(world: World, registry: Registry, request: PrepareRequest, scripts: seq<MediaScript>,
                              now: real, p: Prepared)
    requires OrdersLocators(world.text) && request.content != [] && |scripts| == MediaCount(request.content)
    requires Prepare(world.text, registry, request, scripts, now) == Ready(p)
    ensures RebuiltInput(p.content).Some?
  {
    if Modalities(request.content) == {} || p.action.Converted? {
      assert !HasMedia(p.content);
    } else {
      VisionKeepsShape(request.content, scripts);
    }
    ItemsExist(p.content);
  }

  lemma {:induction false} ItemsExist(content: seq<Part>)
    requires forall i :: 0 <= i < |content| && content[i].MediaPart? ==> content[i].source.Base64Source?
    ensures ContentItems(content).Some?
  {
    if content != [] {
      assert content[0].MediaPart? ==> content[0].source.Base64Source?;
      ItemsExist(content[1..]);
    }
  }
}
