/**
 * Exactly which requests end in an uncaught error instead of a refusal, with some that do; and a request that is
 * sealed and then refused by the guard.
 */
module Faults {
  import opened Common
  import opened Contracts
  import opened Gate
  import opened GateOutcomes
  import opened Json
  import opened Normalizer
  import opened Preparation
  import opened ReadBack
  import opened Receipts
  import opened Sealing
  import opened StateStore
  import opened Text
  import opened Transaction

  // ----- Normalization -----

  predicate IsItem(item: Json, kind: string, allowed: set<string>) {
    && item.Obj? && item.Get("type") == Str(kind) && item.fields.Keys <= allowed && !HasProviderId(item)
  }

  /** A text beyond the contract's length. */
  predicate FaultyText(item: Json) {
    && item.Obj? && item.Get("type") == Str("input_text") && item.fields.Keys == {"type", "text"}
    && item.Get("text").Str? && |item.Get("text").text| > MAX_TEXT
  }

  /** A URL that cannot be split, or one that is split but does not fit the contract. */
  predicate FaultyUrl(env: Locators, url: string) {
    && !("data:" <= url)
    && (env.url(url).UrlUnparsable? || (env.url(url).UrlAccepted? && (|url| > 2048 || !("https://" <= url))))
  }

  /** Decodable data in an encoding beyond the contract's length. */
  predicate OverlongData(env: Locators, locator: string, types: seq<string>) {
    var data := DataUri(env, locator, types);
    data.Ok? && |data.value.1| > MAX_BASE64
  }

  /** An image with a detail that is a list or an object, with over-long data, or with a faulty URL. */
  predicate FaultyImage(env: Locators, item: Json) {
    && IsItem(item, "input_image", {"type", "image_url", "asset_id", "detail", "file_id", "file_url"})
    && var detail, locator := item.Get("detail"), item.Get("image_url");
    || !Hashable(detail)
    || ((detail.Null? || detail in {Str("auto"), Str("low"), Str("high")})
        && item.Get("asset_id").Null? && locator.Str?
        && (FaultyUrl(env, locator.text)
            || ("data:" <= locator.text && OverlongData(env, locator.text, IMAGE_TYPES))))
  }

  /** A file whose locator is accepted and whose name or data is beyond the contract's length. */
  predicate FaultyFile(env: Locators, item: Json) {
    && IsItem(item, "input_file", {"type", "file_data", "asset_id", "filename", "file_id", "file_url"})
    && (item.Get("filename").Null? || item.Get("filename").Str?)
    && var asset, locator, name := item.Get("asset_id"), item.Get("file_data"), item.Get("filename");
       var overlong := name.Str? && |name.text| > 255;
    || (asset.Str? && IsAssetId(asset.text) && locator.Null? && overlong)
    || (asset.Null? && locator.Str? && DataUri(env, locator.text, ["application/pdf"]).Ok?
        && (overlong || OverlongData(env, locator.text, ["application/pdf"])))
  }

  predicate Faulty(env: Locators, item: Json) {
    FaultyText(item) || FaultyImage(env, item) || FaultyFile(env, item)
  }

  lemma {:induction false} DataUriNeverEscapes(env: Locators, value: string, allowed: seq<string>)
    ensures DataUri(env, value, allowed) != Err(Escapes)
  {
    if allowed != [] {
      DataUriNeverEscapes(env, value, allowed[1..]);
    }
  }

  lemma FaultyImageEscapes(env: Locators, item: Json)
    requires item.Obj? && item.Get("type") == Str("input_image")
    ensures ImagePart(env, item) == Err(Escapes) <==> FaultyImage(env, item)
  {
    hide DataUri, HasProviderId, IsAssetId;
    var locator := item.Get("image_url");
    if locator.Str? {
      DataUriNeverEscapes(env, locator.text, ["image/png", "image/jpeg", "image/webp"]);
    }
  }

  lemma FaultyFileEscapes(env: Locators, item: Json)
    requires item.Obj? && item.Get("type") == Str("input_file")
    ensures PdfPart(env, item) == Err(Escapes) <==> FaultyFile(env, item)
  {
    hide DataUri, HasProviderId, IsAssetId;
    var locator := item.Get("file_data");
    if locator.Str? {
      DataUriNeverEscapes(env, locator.text, ["application/pdf"]);
    }
  }

  lemma FaultyItemEscapes(env: Locators, item: Json)
    ensures ContentPart(env, item) == Err(Escapes) <==> Faulty(env, item)
  {
    hide ImagePart, PdfPart, HasProviderId, IsAssetId, FaultyUrl, DataUri;
    KindsDiffer();
    if item.Obj? && item.Get("type") == Str("input_image") {
      FaultyImageEscapes(env, item);
    } else if item.Obj? && item.Get("type") == Str("input_file") {
      FaultyFileEscapes(env, item);
    }
  }

  /** Items are read in order, so the first that is not accepted decides. */
  predicate FaultyContent(env: Locators, content: Json) {
    match content
    case Str(text) => |text| > MAX_TEXT
    case List(items) =>
      exists i :: 0 <= i < |items| && Faulty(env, items[i])
               && forall j :: 0 <= j < i ==> ContentPart(env, items[j]).Ok?
    case _ => false
  }

  lemma {:induction false} FaultyItemsEscape(env: Locators, items: seq<Json>)
    ensures ContentParts(env, items) == Err(Escapes) <==> FaultyContent(env, List(items))
  {
    hide ContentPart, Faulty;
    if items != [] {
      FaultyItemEscapes(env, items[0]);
      FaultyItemsEscape(env, items[1..]);
      var rest := items[1..];
      assert forall i :: 1 <= i < |items| ==> items[i] == rest[i - 1];
      if FaultyContent(env, List(rest)) && ContentPart(env, items[0]).Ok? {
        var i :| 0 <= i < |rest| && Faulty(env, rest[i]) && forall j :: 0 <= j < i ==> ContentPart(env, rest[j]).Ok?;
        assert Faulty(env, items[i + 1]);
        assert forall j :: 0 <= j < i + 1 ==> ContentPart(env, items[j]).Ok?;
      }
      if FaultyContent(env, List(items)) && !Faulty(env, items[0]) {
        var i :| 0 <= i < |items| && Faulty(env, items[i]) && forall j :: 0 <= j < i ==> ContentPart(env, items[j]).Ok?;
        assert Faulty(env, rest[i - 1]);
        assert forall j :: 0 <= j < i - 1 ==> ContentPart(env, rest[j]).Ok? by {
          assert forall j :: 0 <= j < i - 1 ==> rest[j] == items[j + 1];
        }
      }
    }
  }

  lemma FaultyContentEscapes(env: Locators, content: Json)
    ensures CurrentContent(env, content) == Err(Escapes) <==> FaultyContent(env, content)
  {
    hide ContentPart, Faulty;
    if content.List? {
      FaultyItemsEscape(env, content.items);
    }
  }

  /** The current message, among a history free of media, has a type or a status that is a list or an object. */
  predicate FaultyMessage(input: Json) {
    && input.List? && LastUser(input.items).Some?
    && var last := LastUser(input.items).value;
       var message := input.items[last];
    && (forall k :: 0 <= k < |input.items| && k != last ==> !ContainsMedia(input.items[k]))
    && message.fields.Keys <= {"id", "type", "status", "role", "content"}
    && (!Hashable(message.Get("type"))
        || (message.Get("type") in {Null, Str("message")} && !Hashable(message.Get("status"))
            && (message.Get("id").Null? || message.Get("id").Str?)))
  }

  lemma FaultyMessageEscapes(input: Json)
    ensures SelectCurrent(input) == Err(Escapes) <==> FaultyMessage(input)
  {
    hide ContainsMedia;
  }

  /** The checks before the input is read. */
  predicate ReachesInput(payload: Json, state: Option<Record>) {
    && payload.Obj? && payload.Get("conversation").Null? && "input" in payload.fields
    && (if payload.Get("previous_response_id").Null? then state.None?
        else payload.Get("previous_response_id").Str? && state.Some?
             && state.value.responseId == payload.Get("previous_response_id").text)
    && forall key :: key in payload.fields && key != "input" ==> !ContainsMedia(payload.fields[key])
  }

  /** What in a request leaves the normalizer as an uncaught error. */
  predicate FaultyRequest(env: Locators, payload: Json, state: Option<Record>) {
    && ReachesInput(payload, state)
    && var input := payload.fields["input"];
    || FaultyMessage(input)
    || (SelectCurrent(input).Ok? && FaultyContent(env, SelectCurrent(input).value))
  }

  /** A request escapes normalization exactly when its first flaw is a value too long or one that cannot be hashed. */
  lemma EscapesExactlyWhenFaulty(env: Locators, payload: Json, state: Option<Record>)
    ensures Normalize(env, payload, state) == Err(Escapes) <==> FaultyRequest(env, payload, state)
  {
    hide SelectCurrent, CurrentContent, FaultyMessage, FaultyContent, ContainsMedia, IsTargetId, Modalities;
    if ReachesInput(payload, state) {
      FaultyMessageEscapes(payload.fields["input"]);
      if SelectCurrent(payload.fields["input"]).Ok? {
        FaultyContentEscapes(env, SelectCurrent(payload.fields["input"]).value);
      }
    }
  }

  // ----- The transaction -----

  /** The request is faulty, or it is accepted, its state allows it to go on, and the gate raises. */
  predicate PlanEscapes(world: World, registry: Registry, payload: Json, state: Option<Record>,
                         environment: nat -> MediaScript, times: Times) {
    || FaultyRequest(world.locators, payload, state)
    || (var normalized := Normalize(world.locators, payload, state);
        && normalized.Ok? && CheckState(registry, normalized.value, times.checked).None?
        && var request := normalized.value.request;
        FaultyPreparation(registry, request, ScriptsFor(environment, request.content), times.gated))
  }

  /** `Invoke` ends in an uncaught error exactly when the plan for its state is this one. */
  lemma PlanEscapesExactly(world: World, registry: Registry, payload: Json, state: Option<Record>,
                           environment: nat -> MediaScript, nonce: string, times: Times)
    requires OrdersLocators(world.text)
    ensures PlanRequest(world, registry, payload, state, environment, nonce, times) == Stop(ValidationEscaped)
       <==> PlanEscapes(world, registry, payload, state, environment, times)
  {
    hide Normalize, CheckState, Prepare, Seal, VerifySeal, FaultyRequest, FaultyPreparation;
    EscapesExactlyWhenFaulty(world.locators, payload, state);
    var normalized := Normalize(world.locators, payload, state);
    if normalized.Ok? {
      var request := normalized.value.request;
      CrashesExactlyWhenFaulty(world.text, registry, request, ScriptsFor(environment, request.content), times.gated);
    }
  }

  // ----- Requests that do -----

  /** Input text beyond the contract's length, whatever else the request holds. */
  lemma OverlongInputEscapes(env: Locators, text: string)
    requires |text| > MAX_TEXT
    ensures Normalize(env, Obj(map["model" := Str("m"), "input" := Str(text)]), None) == Err(Escapes)
  {
    var payload := Obj(map["model" := Str("m"), "input" := Str(text)]);
    PlainModel(payload, Str(text));
    assert FaultyRequest(env, payload, None);
    EscapesExactlyWhenFaulty(env, payload, None);
  }

  /** A request for model `m` with nothing but its input. */
  lemma PlainModel(payload: Json, input: Json)
    requires payload == Obj(map["model" := Str("m"), "input" := input])
    ensures ReachesInput(payload, None) && payload.Get("input") == input && payload.Get("model") == Str("m")
  {
    hide ContainsMedia, StartsAsMediaData;
    assert |"model"| == 5 && |"input"| == 5 && "model"[0] == 'm' && "input"[0] == 'i';
    assert |"conversation"| == 12 && |"previous_response_id"| == 20;
    ModelIsNoMedia();
  }

  lemma ModelIsNoMedia()
    ensures !ContainsMedia(Str("m"))
  {
    assert |"m"| == 1;
  }

  lemma JoinOfTwo(a: string, b: string)
    ensures Join("\n", [a, b]) == a + "\n" + b
  {
    assert [a, b][1..] == [b];
  }

  function Letters(n: nat): string {
    seq(n, _ => 'a')
  }

  /** Two text parts, each within the contract, whose join is not. */
  lemma TwoLongTextsEscape(world: World, environment: nat -> MediaScript, nonce: string, times: Times)
    requires OrdersLocators(world.text)
    ensures RebuiltInput([TextPart(Letters(150_000)), TextPart(Letters(150_000))]).Some?
    ensures var long := TextPart(Letters(150_000));
            var payload := Obj(map["model" := Str("m"), "input" := RebuiltInput([long, long]).value]);
            var registry := map["m" := Capability({}, None, false)];
            PlanRequest(world, registry, payload, None, environment, nonce, times) == Stop(ValidationEscaped)
  {
    var long := TextPart(Letters(150_000));
    var content := [long, long];
    var registry: Registry := map["m" := Capability({}, None, false)];
    RebuiltReadsBack(world.locators, content);
    AllText(content);
    var payload := Obj(map["model" := Str("m"), "input" := RebuiltInput(content).value]);
    PlainModel(payload, RebuiltInput(content).value);
    LongJoin(content);
    TwoTextsNormalize(world.locators, payload, content);
    assert FaultyPreparation(registry, PrepareRequest(content, "m", ErrorScreenshot), ScriptsFor(environment, content),
                             times.gated);
    PlanEscapesExactly(world, registry, payload, None, environment, nonce, times);
  }

  lemma AllText(content: seq<Part>)
    requires |content| == 2 && content[0].TextPart? && content[1].TextPart?
    ensures AllForwarded(content) == content && Modalities(content) == {} && !HasMedia(content)
    ensures Texts(content) == [content[0].text, content[1].text]
  {
    var first, second := content[0], content[1];
    assert content == [first, second] && content[1..] == [second] && [second][1..] == [];
    assert Texts([second]) == [second.text] + Texts([]) == [second.text];
    assert AllForwarded([second]) == [second] + AllForwarded([]) == [second];
    assert Texts(content) == [first.text] + [second.text] && AllForwarded(content) == [first] + [second];
  }

  lemma LongJoin(content: seq<Part>)
    requires content == [TextPart(Letters(150_000)), TextPart(Letters(150_000))]
    ensures |JoinText(content)| > MAX_TEXT
  {
    var long := Letters(150_000);
    AllText(content);
    JoinOfTwo(long, long);
    var joined := long + "\n" + long;
    assert joined[0] == 'a' && joined[|joined| - 1] == 'a';
    StripTrimmed(joined);
  }

  lemma TwoTextsNormalize(env: Locators, payload: Json, content: seq<Part>)
    requires ReachesInput(payload, None) && payload.Get("model") == Str("m") && |content| == 2
    requires SelectCurrent(payload.Get("input")).Ok? && Modalities(content) == {} && !HasMedia(content)
    requires CurrentContent(env, SelectCurrent(payload.Get("input")).value) == Ok(content)
    ensures Normalize(env, payload, None) == Ok(Normalized(PrepareRequest(content, "m", ErrorScreenshot), false, None))
  {
    hide ContainsMedia, SelectCurrent, CurrentContent;
    assert IsTargetId("m");
    assert [] + content == content;
  }

  // ----- A request that is sealed and then refused -----

  const MEDIA_LIKE := "data:image/"

  /** A request for model `m` whose input is one text. */
  lemma TextNormalizes(env: Locators, payload: Json, text: string)
    requires ReachesInput(payload, None) && payload.Get("model") == Str("m") && payload.Get("input") == Str(text)
    requires 1 <= |text| <= MAX_TEXT
    ensures Normalize(env, payload, None)
         == Ok(Normalized(PrepareRequest([TextPart(text)], "m", ErrorScreenshot), false, None))
  {
    hide ContainsMedia;
    assert IsTargetId("m");
    var content := [TextPart(text)];
    assert [] + content == content && !HasMedia(content);
  }

  lemma TextIsPrepared(env: TextEnv, registry: Registry, now: real, text: string)
    requires OrdersLocators(env) && registry == map["m" := Capability({}, None, false)]
    requires Trimmed(text) && 1 <= |text| <= MAX_TEXT
    ensures Prepare(env, registry, PrepareRequest([TextPart(text)], "m", ErrorScreenshot), [], now)
         == Ready(Prepared("m", NonVision, Passthrough, [TextPart(text)], text))
  {
    var content := [TextPart(text)];
    assert Texts(content) == [text] by { assert content[1..] == []; }
    assert Join("\n", [text]) == text;
    StripTrimmed(text);
    assert !HasMedia(content) && MediaCount(content) == 0;
  }

  /** A text that starts like media data, to a model without vision: prepared, sealed, and refused by the guard. */
  lemma MediaLikeTextIsRefused(world: World, nonce: string, at: Instants, gateNow: real, now: real)
    requires Lawful(world) && IsNonce(nonce)
    requires at.gateSigned.Floor <= at.gateChecked.Floor <= at.gateSigned.Floor + DEFAULT_TTL
    requires at.sealedAt.Floor <= now.Floor <= at.sealedAt.Floor + DEFAULT_TTL
    ensures var payload := Obj(map["model" := Str("m"), "input" := Str(MEDIA_LIKE)]);
            var registry := map["m" := Capability({}, None, false)];
            var n := Normalized(PrepareRequest([TextPart(MEDIA_LIKE)], "m", ErrorScreenshot), false, None);
            var p := Prepared("m", NonVision, Passthrough, [TextPart(MEDIA_LIKE)], MEDIA_LIKE);
            && PreparedFrom(world, registry, payload, None, [], gateNow, n, p)
            && var s := Seal(world.crypto, world.digests, payload, n, p, nonce, at);
            && s.Some? && s.value.payload.Obj?
            && VerifySeal(world.crypto, world.digests, s.value, now) == Some(MediaForNonVision)
  {
    hide Normalize, Prepare, Seal, VerifySeal, CodecRoundTrips, NamesMedia;
    var payload := Obj(map["model" := Str("m"), "input" := Str(MEDIA_LIKE)]);
    var registry: Registry := map["m" := Capability({}, None, false)];
    var n := Normalized(PrepareRequest([TextPart(MEDIA_LIKE)], "m", ErrorScreenshot), false, None);
    var p := Prepared("m", NonVision, Passthrough, [TextPart(MEDIA_LIKE)], MEDIA_LIKE);
    PlainModel(payload, Str(MEDIA_LIKE));
    assert MEDIA_LIKE[0] == 'd' && MEDIA_LIKE[10] == '/' && |MEDIA_LIKE| == 11;
    TextNormalizes(world.locators, payload, MEDIA_LIKE);
    TextIsPrepared(world.text, registry, gateNow, MEDIA_LIKE);
    SealsWhileGateReceiptLives(world, registry, payload, None, [], gateNow, n, p, nonce, at);
    GuardAcceptsExactlyCleanRequests(world, registry, payload, None, [], gateNow, n, p, nonce, at, now);
    assert !CleanRequest(payload, n, p.action) by {
      assert ForwardedStrings(payload, n) == [MEDIA_LIKE] && StartsAsMediaData([MEDIA_LIKE][0]);
    }
  }
}
