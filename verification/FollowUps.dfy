/**
 * What a request sends and what is remembered of it: the input that reaches the provider reads back as what was
 * prepared, its texts are what is stored, and a follow-up sends them again in front of its own.
 */
module FollowUps {
  import opened Common
  import opened Contracts
  import opened Gate
  import opened GateOutcomes
  import opened Json
  import opened Normalizer
  import opened Preparation
  import opened ReadBack
  import opened Receipts
  import opened Sanitizer
  import opened Sealing
  import opened StateStore
  import opened Text
  import opened Transaction

  // ----- Which states may be continued -----

  /** The state policy lets a request go on exactly when its state is untainted or its target serves all of it. */
  lemma ContinuesExactly(registry: Registry, n: Normalized, now: real)
    ensures var target, r := n.request.target, CheckState(registry, n, now);
            var tainted := n.previous.Some? && n.previous.value.tainted;
            var held := if n.previous.Some? then n.previous.value.modalities else {};
            && (r.None? <==> !tainted || ServesMedia(registry, target, held, now))
            && (r == Some(TargetUnknown) <==> tainted && target !in registry)
            && (r == Some(TargetStale) <==> tainted && target in registry && !IsFresh(registry, target, now))
            && (tainted && IsFresh(registry, target, now) ==>
                  var sees := registry[target].modalities;
                  && (r == Some(TaintedNonVision) <==> sees == {})
                  && (r == Some(TaintedUnsupported) <==> sees != {} && !(held <= sees))
                  && (r == Some(PdfUnverified) <==>
                        sees != {} && held <= sees && Pdf in held && !registry[target].pdfVerified))
  {
  }

  // ----- Which requests are sent -----

  /** The gate's own receipt is still valid when it is checked, and the sealed one when the guard reads it. */
  predicate SealsInTime(at: Instants) {
    at.gateSigned.Floor <= at.gateChecked.Floor <= at.gateSigned.Floor + DEFAULT_TTL
  }

  predicate GuardedInTime(times: Times) {
    times.at.sealedAt.Floor <= times.guarded.Floor <= times.at.sealedAt.Floor + DEFAULT_TTL
  }

  /** The gate prepares `p` for the accepted request `n`. */
  ghost predicate IsPrepared(world: World, registry: Registry, n: Normalized, environment: nat -> MediaScript,
                             now: real, p: Prepared)
    requires OrdersLocators(world.text)
  {
    var scripts := ScriptsFor(environment, n.request.content);
    IsConverted(world.text, registry, n.request, scripts, now, p)
    || IsPassedThrough(registry, n.request, scripts, now, p)
  }

  /**
   * A request is sent exactly when it is accepted, its state may be continued, the gate prepares it, both receipts
   * live and the guard finds no media in it; otherwise the first of these that fails is what it is refused for.
   */
  lemma SendsExactly(world: World, registry: Registry, payload: Json, state: Option<Record>,
                     environment: nat -> MediaScript, nonce: string, times: Times)
    requires Lawful(world)
    ensures var plan := PlanRequest(world, registry, payload, state, environment, nonce, times);
            match Normalize(world.locators, payload, state)
            case Err(Escapes) => plan == Stop(ValidationEscaped)
            case Err(Rejected(code)) => plan == Stop(Refused(NotNormalized(code)))
            case Ok(n) =>
              var policy, scripts := CheckState(registry, n, times.checked), ScriptsFor(environment, n.request.content);
              && payload.Obj?
              && (policy.Some? ==> plan == Stop(Refused(StatePolicy(policy.value))))
              && (policy.None? ==>
                    && (forall f :: plan == Stop(Refused(GateBlocked(f))) <==>
                          IsBlocked(world.text, registry, n.request, scripts, times.gated, f))
                    && (forall p :: IsPrepared(world, registry, n, environment, times.gated, p) ==>
                          var accepted := IsNonce(nonce) && GuardedInTime(times)
                                          && (p.capability.Vision? || CleanRequest(payload, n, p.action));
                          if !SealsInTime(times.at) then plan == Stop(Refused(SealingFailed))
                          else if !accepted then plan == Stop(Refused(GuardRejected))
                          else plan.Send? && plan.n == n && plan.p == p)
                    && (plan.Send? ==> IsPrepared(world, registry, n, environment, times.gated, plan.p)))
  {
    hide Normalize, CheckState, Prepare, Seal, VerifySeal, CleanRequest, IsBlocked, IsPrepared, CodecRoundTrips;
    var normalized := Normalize(world.locators, payload, state);
    if normalized.Ok? {
      var n, scripts := normalized.value, ScriptsFor(environment, normalized.value.request.content);
      NormalizedSteps(world.locators, payload, state);
      if CheckState(registry, n, times.checked).None? {
        PreparesExactly(world.text, registry, n.request, scripts, times.gated);
        IsPreparedReads(world, registry, n, environment, times.gated);
        if Prepare(world.text, registry, n.request, scripts, times.gated).Ready? {
          var p := Prepare(world.text, registry, n.request, scripts, times.gated).prepared;
          SealsWhileGateReceiptLives(world, registry, payload, state, scripts, times.gated, n, p, nonce, times.at);
          if SealsInTime(times.at) {
            GuardDecides(world, registry, payload, state, scripts, times, n, p, nonce);
          }
        }
      }
    }
  }

  /**
   * What the two receipts of a request vouch for: both for its target, for the capability it was prepared under and for
   * what was done; the gate's for the digests of its own request and content, the sealed one for those of the payload
   * as received and of the payload sent, with the nonce.
   */
  lemma ReceiptsVouchFor(crypto: Crypto, digests: Digests, payload: Json, n: Normalized, p: Prepared, nonce: string,
                         at: Instants)
    requires payload.Obj? && p.capability in {Vision, NonVision}
    requires Seal(crypto, digests, payload, n, p, nonce, at).Some?
    ensures var gate, s := GateBinding(digests, n.request, p), Seal(crypto, digests, payload, n, p, nonce, at).value;
            && gate.target == p.target == s.binding.target && gate.action == s.binding.action
            && gate.capability == s.binding.capability
            && (s.binding.action == "converted" <==> p.action.Converted?)
            && (s.binding.capability == "vision" <==> p.capability.Vision?)
            && s.binding.action in {"passthrough", "converted"} && s.binding.capability in {"vision", "non_vision"}
            && gate.inputDigest == digests.request(n.request) && gate.outputDigest == digests.content(p.content)
            && s.binding.inputDigest == digests.raw(payload)
            && s.binding.outputDigest == digests.payload(s.payload, nonce)
            && s.receipt == Sign(crypto, s.binding, DEFAULT_TTL, at.sealedAt)
  {
    hide Sign, Verify, BuildDownstream;
    assert |"vision"| == 6 && |"non_vision"| == 10 && |"passthrough"| == 11 && |"converted"| == 9;
  }

  lemma IsPreparedReads(world: World, registry: Registry, n: Normalized, environment: nat -> MediaScript, now: real)
    requires OrdersLocators(world.text)
    ensures var r := Prepare(world.text, registry, n.request, ScriptsFor(environment, n.request.content), now);
            forall p :: r == Ready(p) <==> IsPrepared(world, registry, n, environment, now, p)
  {
    hide Prepare, IsConverted, IsPassedThrough, IsBlocked;
    PreparesExactly(world.text, registry, n.request, ScriptsFor(environment, n.request.content), now);
  }

  lemma GuardDecides(world: World, registry: Registry, payload: Json, state: Option<Record>, scripts: seq<MediaScript>,
                     times: Times, n: Normalized, p: Prepared, nonce: string)
    requires Lawful(world) && PreparedFrom(world, registry, payload, state, scripts, times.gated, n, p)
    requires Seal(world.crypto, world.digests, payload, n, p, nonce, times.at).Some?
    ensures var s := Seal(world.crypto, world.digests, payload, n, p, nonce, times.at).value;
            && s.payload.Obj?
            && (VerifySeal(world.crypto, world.digests, s, times.guarded).None?
                <==> IsNonce(nonce) && GuardedInTime(times)
                     && (p.capability.Vision? || CleanRequest(payload, n, p.action)))
  {
    hide Normalize, Prepare, CleanRequest, CodecRoundTrips, BuildDownstream, ContainsMedia;
    var s := Seal(world.crypto, world.digests, payload, n, p, nonce, times.at).value;
    SignThenVerify(world.crypto, s.binding, DEFAULT_TTL, times.at.sealedAt, s.binding, times.guarded);
    if IsNonce(nonce) && GuardedInTime(times) {
      GuardAcceptsExactlyCleanRequests(world, registry, payload, state, scripts, times.gated, n, p, nonce, times.at,
                                       times.guarded);
    }
  }

  // ----- What is sent -----

  lemma {:induction false} ForwardedTexts(content: seq<Part>)
    ensures Texts(AllForwarded(content)) == Texts(content)
    ensures !HasMedia(content) ==> AllForwarded(content) == content
  {
    if content != [] {
      var rest := content[1..];
      ForwardedTexts(rest);
      if !HasMedia(content) {
        assert !content[0].MediaPart?;
        assert !HasMedia(rest) by {
          assert forall i :: 0 <= i < |rest| ==> rest[i] == content[i + 1];
        }
      }
    }
  }

  /** A text-only request is prepared as it is. */
  lemma TextIsPreparedAsItIs(env: TextEnv, registry: Registry, request: PrepareRequest, scripts: seq<MediaScript>,
                             now: real)
    requires OrdersLocators(env) && |scripts| == MediaCount(request.content) && !HasMedia(request.content)
    requires Prepare(env, registry, request, scripts, now).Ready?
    ensures Prepare(env, registry, request, scripts, now).prepared.content == request.content
  {
    PreparesExactly(env, registry, request, scripts, now);
  }

  lemma CopyKeepsInput(payload: Json, n: Normalized, p: Prepared)
    requires payload.Obj? && "input" in payload.fields && CopiesInput(n)
    ensures BuildDownstream(payload, n, p).value.Get("input") == payload.fields["input"]
  {
    assert |"input"| == 5 && |"model"| == 5 && "input"[0] == 'i' && "model"[0] == 'm';
    assert |"previous_response_id"| == 20 && |"conversation"| == 12;
  }

  lemma CopiedOrRebuilt(payload: Json, n: Normalized, p: Prepared)
    requires payload.Obj? && !CopiesInput(n) && BuildDownstream(payload, n, p).Some?
    ensures RebuiltInput(p.content) == Some(BuildDownstream(payload, n, p).value.Get("input"))
  {
    hide RebuiltInput;
  }

  /** The input of every request that is sent reads back as the content that was prepared for it. */
  lemma SentReadsBack(world: World, registry: Registry, payload: Json, state: Option<Record>,
                      environment: nat -> MediaScript, nonce: string, times: Times)
    requires OrdersLocators(world.text)
    requires PlanRequest(world, registry, payload, state, environment, nonce, times).Send?
    requires forall k :: AcquiresBase64(world.locators, ScriptsFor(environment, k))
    requires state.Some? ==> |state.value.text| <= MAX_TEXT
    ensures var plan := PlanRequest(world, registry, payload, state, environment, nonce, times);
            && plan.request.payload.Obj?
            && var input := plan.request.payload.Get("input");
            && SelectCurrent(input).Ok?
            && CurrentContent(world.locators, SelectCurrent(input).value) == Ok(AllForwarded(plan.p.content))
  {
    hide Normalize, Prepare, VerifySeal, Sign, Verify, RebuiltInput, CheckState, SelectCurrent, CurrentContent;
    hide AllForwarded, AcquiresBase64;
    var plan := PlanRequest(world, registry, payload, state, environment, nonce, times);
    var scripts := ScriptsFor(environment, plan.n.request.content);
    NormalizedSteps(world.locators, payload, state);
    NormalizedContent(world.locators, payload, state);
    assert BuildDownstream(payload, plan.n, plan.p) == Some(plan.request.payload);
    if CopiesInput(plan.n) {
      TextIsPreparedAsItIs(world.text, registry, plan.n.request, scripts, times.gated);
      ForwardedTexts(plan.p.content);
      CopyKeepsInput(payload, plan.n, plan.p);
      assert forall parts: seq<Part> :: [] + parts == parts;
    } else {
      CopiedOrRebuilt(payload, plan.n, plan.p);
      PreparedReadsBack(world, registry, payload, state, scripts, times.gated, plan.n, plan.p);
    }
  }

  // ----- What is remembered -----

  lemma ConvertedText(world: World, registry: Registry, request: PrepareRequest, scripts: seq<MediaScript>, now: real)
    requires OrdersLocators(world.text) && |scripts| == MediaCount(request.content)
    requires var r := Prepare(world.text, registry, request, scripts, now); r.Ready? && r.prepared.action.Converted?
    ensures var p := Prepare(world.text, registry, request, scripts, now).prepared;
            Strip(Join("\n", Texts(p.content))) == p.text
  {
    hide Prepare, CleanedTexts, Sanitize, FirstFails, AllSucceed;
    PreparesExactly(world.text, registry, request, scripts, now);
    var p := Prepare(world.text, registry, request, scripts, now).prepared;
    var context :| Cleans(world.text, request, scripts, context) && p.content == [TextPart(context.structured)]
                   && p.text == context.structured;
    CleanedIsTrimmed(world.text, request, scripts, context);
    assert Texts(p.content) == [p.text] by { assert p.content[1..] == []; }
    StripTrimmed(p.text);
  }

  lemma CleanedIsTrimmed(env: TextEnv, request: PrepareRequest, scripts: seq<MediaScript>, context: ConvertedContext)
    requires OrdersLocators(env) && Cleans(env, request, scripts, context)
    ensures Trimmed(context.structured)
  {
    hide Sanitize, Trimmed, AllBlocks, AllOcrTexts, AllDescriptions, Join, Strip, Texts;
    var text := Strip(Join("\n", Texts(request.content)));
    var blocks := (if text == "" then [] else [text]) + AllBlocks(request.profile, scripts, 0);
    SanitizedIsSafe(env.uni, Join("\n\n", blocks), env.order(ForbiddenLocators(scripts)), MAX_TEXT);
  }

  /**
   * The text that is remembered of a request is the stripped line-feed join of the texts that the provider was sent;
   * for a conversion it is the converted text itself.
   */
  lemma RememberedIsSent(world: World, registry: Registry, payload: Json, state: Option<Record>,
                         environment: nat -> MediaScript, nonce: string, times: Times, c: Commit, responseId: string,
                         subject: Subject, version: int)
    requires OrdersLocators(world.text)
    requires PlanRequest(world, registry, payload, state, environment, nonce, times).Send?
    requires forall k :: AcquiresBase64(world.locators, ScriptsFor(environment, k))
    requires state.Some? ==> |state.value.text| <= MAX_TEXT
    requires var plan := PlanRequest(world, registry, payload, state, environment, nonce, times);
             Summarizes(c, responseId, subject, payload, plan, version)
    ensures var plan := PlanRequest(world, registry, payload, state, environment, nonce, times);
            && plan.request.payload.Obj?
            && var sent := SelectCurrent(plan.request.payload.Get("input"));
            && sent.Ok? && CurrentContent(world.locators, sent.value).Ok?
            && c.text == Strip(Join("\n", Texts(CurrentContent(world.locators, sent.value).value)))
            && (plan.p.action.Converted? ==> c.text == plan.p.text)
  {
    hide Normalize, Prepare, VerifySeal, Seal, CheckState, SelectCurrent, CurrentContent, AllForwarded;
    hide AcquiresBase64, Strip, Join, Texts;
    var plan := PlanRequest(world, registry, payload, state, environment, nonce, times);
    SentReadsBack(world, registry, payload, state, environment, nonce, times);
    ForwardedTexts(plan.p.content);
    if plan.p.action.Converted? {
      ConvertedText(world, registry, plan.n.request, ScriptsFor(environment, plan.n.request.content), times.gated);
    }
  }

  // ----- What a follow-up sends -----

  /**
   * A follow-up without media sends the remembered text in front of its own message; one whose media pass sends it in
   * front of them, and keeps every text.
   */
  lemma FollowUpSendsTheRemembered(world: World, registry: Registry, payload: Json, state: Option<Record>,
                                   environment: nat -> MediaScript, nonce: string, times: Times)
    requires OrdersLocators(world.text) && state.Some? && 0 < |state.value.text| <= MAX_TEXT
    requires PlanRequest(world, registry, payload, state, environment, nonce, times).Send?
    requires forall k :: AcquiresBase64(world.locators, ScriptsFor(environment, k))
    ensures var plan := PlanRequest(world, registry, payload, state, environment, nonce, times);
            && payload.Obj? && plan.request.payload.Obj?
            && var asked, sent := SelectCurrent(payload.Get("input")), SelectCurrent(plan.request.payload.Get("input"));
            && asked.Ok? && CurrentContent(world.locators, asked.value).Ok?
            && sent.Ok? && CurrentContent(world.locators, sent.value).Ok?
            && var own, content := CurrentContent(world.locators, asked.value).value,
                                   CurrentContent(world.locators, sent.value).value;
            && (!HasMedia(own) ==> content == [TextPart(state.value.text)] + own)
            && (plan.p.action.Passthrough? ==> Texts(content) == [state.value.text] + Texts(own))
  {
    hide Normalize, Prepare, VerifySeal, Seal, CheckState, SelectCurrent, CurrentContent, AllForwarded;
    hide AcquiresBase64;
    var plan := PlanRequest(world, registry, payload, state, environment, nonce, times);
    var scripts := ScriptsFor(environment, plan.n.request.content);
    NormalizedSteps(world.locators, payload, state);
    NormalizedContent(world.locators, payload, state);
    SentReadsBack(world, registry, payload, state, environment, nonce, times);
    ForwardedTexts(plan.p.content);
    if !HasMedia(plan.n.request.content) {
      TextIsPreparedAsItIs(world.text, registry, plan.n.request, scripts, times.gated);
    } else if plan.p.action.Passthrough? {
      PassedKeepsTexts(world.text, registry, plan.n.request, scripts, times.gated);
    }
  }

  lemma PassedKeepsTexts(env: TextEnv, registry: Registry, request: PrepareRequest, scripts: seq<MediaScript>,
                         now: real)
    requires OrdersLocators(env) && |scripts| == MediaCount(request.content)
    requires var r := Prepare(env, registry, request, scripts, now); r.Ready? && r.prepared.action.Passthrough?
    ensures Texts(Prepare(env, registry, request, scripts, now).prepared.content) == Texts(request.content)
  {
    hide Prepare, IsConverted, MediaCount, AllFit, Texts;
    PreparesExactly(env, registry, request, scripts, now);
    var p := Prepare(env, registry, request, scripts, now).prepared;
    ConvertedIsConverted(env, registry, request, scripts, now, p);
    SameTexts(request.content, p.content);
  }

  lemma ConvertedIsConverted(env: TextEnv, registry: Registry, request: PrepareRequest, scripts: seq<MediaScript>,
                             now: real, p: Prepared)
    requires OrdersLocators(env)
    ensures IsConverted(env, registry, request, scripts, now, p) ==> p.action.Converted?
  {
    hide Cleans, MustConvert, AllSucceed;
  }

  lemma {:induction false} SameTexts(a: seq<Part>, b: seq<Part>)
    requires |a| == |b| && forall i :: 0 <= i < |a| ==> if a[i].TextPart? then b[i] == a[i] else b[i].MediaPart?
    ensures Texts(a) == Texts(b)
  {
    if a != [] {
      SameTexts(a[1..], b[1..]);
    }
  }
}
