/** `prepare_for_model`: one capability decision, then passthrough, conversion, or a block. */
module Preparation {
  import opened Common
  import opened Contracts
  import opened Gate
  import opened Sanitizer
  import opened Text

  datatype Action = Passthrough | Converted

  /** The payload handed to the transaction; the target is the requested one. */
  datatype Prepared = Prepared(target: string, capability: CapabilityState, action: Action, content: seq<Part>,
                               text: string)

  /** `Crashed`: a contract validation error that the gate does not catch. */
  datatype GateOutcome = Blocked(failure: GateFailure) | Ready(prepared: Prepared) | Crashed

  // ----- Normalizing passed-through media -----

  datatype VisionContent = Parts(parts: seq<Part>) | NotAcquired | Oversized

  function AcquiredPart(part: Part, acquired: Acquired): Part
    requires part.MediaPart?
  {
    MediaPart(part.kind, Base64Source(acquired.encoded), None, Some(acquired.mime))
  }

  predicate FitsContract(acquired: Acquired) {
    |acquired.encoded| <= MAX_BASE64 && |acquired.mime| <= 100
  }

  /** `_normalize_vision_content`: every media part becomes bounded base64, text parts stay. */
  function NormalizeVision(content: seq<Part>, scripts: seq<MediaScript>): VisionContent
    requires |scripts| == MediaCount(content)
  {
    if content == [] then Parts([])
    else if content[0].TextPart? then Front(content[0], NormalizeVision(content[1..], scripts))
    else if scripts[0].acquired.None? then NotAcquired
    else if !FitsContract(scripts[0].acquired.value) then Oversized
    else Front(AcquiredPart(content[0], scripts[0].acquired.value), NormalizeVision(content[1..], scripts[1..]))
  }

  function Front(part: Part, rest: VisionContent): VisionContent {
    After([part], rest)
  }

  function After(parts: seq<Part>, rest: VisionContent): VisionContent {
    if rest.Parts? then Parts(parts + rest.parts) else rest
  }

  /** `_normalize_vision_content` as it runs: parts are appended until an acquisition fails. */
  method NormalizeVisionContent(content: seq<Part>, scripts: seq<MediaScript>) returns (r: VisionContent)
    requires |scripts| == MediaCount(content)
    ensures r == NormalizeVision(content, scripts)
  {
    var parts: seq<Part> := [];
    var used := 0;
    assert content[0..] == content && scripts[0..] == scripts;
    assert forall rest: seq<Part> :: [] + rest == rest;
    for i := 0 to |content|
      invariant used <= |scripts| && |scripts[used..]| == MediaCount(content[i..])
      invariant NormalizeVision(content, scripts) == After(parts, NormalizeVision(content[i..], scripts[used..]))
    {
      assert content[i..][1..] == content[i + 1..];
      var part := content[i];
      if part.MediaPart? {
        assert scripts[used..][1..] == scripts[used + 1..];
        if scripts[used].acquired.None? {
          return NotAcquired;
        }
        if !FitsContract(scripts[used].acquired.value) {
          return Oversized;
        }
        part := AcquiredPart(part, scripts[used].acquired.value);
        used := used + 1;
      }
      AfterAssociates(parts, part, NormalizeVision(content[i + 1..], scripts[used..]));
      parts := parts + [part];
    }
    assert parts + [] == parts;
    r := Parts(parts);
  }

  lemma AfterAssociates(parts: seq<Part>, part: Part, rest: VisionContent)
    ensures After(parts, Front(part, rest)) == After(parts + [part], rest)
  {
    if rest.Parts? {
      assert parts + ([part] + rest.parts) == parts + [part] + rest.parts;
    }
  }

  /** Normalization changes where media comes from, never what the content is made of. */
  lemma {:induction false} VisionKeepsShape(content: seq<Part>, scripts: seq<MediaScript>)
    requires |scripts| == MediaCount(content) && NormalizeVision(content, scripts).Parts?
    ensures var parts := NormalizeVision(content, scripts).parts;
            && |parts| == |content|
            && (forall i :: 0 <= i < |content| && content[i].TextPart? ==> parts[i] == content[i])
            && (forall i :: 0 <= i < |content| && content[i].MediaPart? ==>
                  parts[i].MediaPart? && parts[i].kind == content[i].kind && parts[i].source.Base64Source?)
  {
    if content != [] {
      var rest := if content[0].TextPart? then scripts else scripts[1..];
      VisionKeepsShape(content[1..], rest);
      var parts := NormalizeVision(content, scripts).parts;
      assert parts[1..] == NormalizeVision(content[1..], rest).parts;
      assert forall i :: 1 <= i < |content| ==> content[i] == content[1..][i - 1] && parts[i] == parts[1..][i - 1];
    }
  }

  lemma SameShapeSameModalities(content: seq<Part>, parts: seq<Part>)
    requires |parts| == |content|
    requires forall i :: 0 <= i < |content| && content[i].TextPart? ==> parts[i] == content[i]
    requires forall i :: 0 <= i < |content| && content[i].MediaPart? ==>
               parts[i].MediaPart? && parts[i].kind == content[i].kind
    ensures Modalities(parts) == Modalities(content)
  {
    forall m | m in Modalities(parts) ensures m in Modalities(content) {
      var i :| 0 <= i < |parts| && parts[i].MediaPart? && parts[i].kind == m;
      assert content[i].MediaPart?;
    }
    forall m | m in Modalities(content) ensures m in Modalities(parts) {
      var i :| 0 <= i < |content| && content[i].MediaPart? && content[i].kind == m;
      assert parts[i].MediaPart?;
    }
  }

  // ----- The gate -----

  function Finish(target: string, capability: CapabilityState, action: Action, content: seq<Part>,
                  text: string): GateOutcome {
    if |text| > MAX_TEXT then Crashed else Ready(Prepared(target, capability, action, content, text))
  }

  function Convert(env: TextEnv, request: PrepareRequest, scripts: seq<MediaScript>): GateOutcome
    requires OrdersLocators(env) && |scripts| == MediaCount(request.content)
  {
    match Extract(env, request.content, request.profile, scripts)
    case Err(failure) => Blocked(failure)
    case Ok(context) => Finish(request.target, NonVision, Converted, [TextPart(context.structured)], context.structured)
  }

  /** `prepare_for_model` at clock reading `now`. */
  function Prepare(env: TextEnv, registry: Registry, request: PrepareRequest, scripts: seq<MediaScript>,
                   now: real): GateOutcome
    requires OrdersLocators(env) && |scripts| == MediaCount(request.content)
  {
    var state := Resolve(registry, request.target, now);
    var wanted := Modalities(request.content);
    if state.Unknown? then Blocked(CapabilityUnknown)
    else if state.Stale? then Blocked(CapabilityStale)
    else if wanted == {} then Finish(request.target, state, Passthrough, request.content, JoinText(request.content))
    else if state.Vision? && !registry[request.target].SupportsAll(wanted) then Blocked(UnsupportedModality)
    else if state.Vision? && wanted == {Pdf} && registry[request.target].pdfVerified then
      match NormalizeVision(request.content, scripts)
      case NotAcquired => Blocked(AcquisitionFailed)
      case Oversized => Crashed
      case Parts(parts) => Finish(request.target, Vision, Passthrough, parts, JoinText(request.content))
    else Convert(env, request, scripts)
  }

  /** A fresh vision target whose registered modalities include `wanted`, and which is PDF-verified if needed. */
  predicate ServesMedia(registry: Registry, target: string, wanted: set<Modality>, now: real) {
    && Resolve(registry, target, now).Vision?
    && registry[target].SupportsAll(wanted)
    && (Pdf in wanted ==> registry[target].pdfVerified)
  }

  /**
   * The gate lets media through only for requests whose media are all PDF, to a fresh vision target
   * verified for PDF; every other prepared payload is text only.
   */
  lemma MediaPassesOnlyAsVerifiedPdf(env: TextEnv, registry: Registry, request: PrepareRequest,
                                     scripts: seq<MediaScript>,
                                     now: real)
    requires OrdersLocators(env) && |scripts| == MediaCount(request.content)
    requires Prepare(env, registry, request, scripts, now).Ready?
    ensures var p := Prepare(env, registry, request, scripts, now).prepared;
            && p.target == request.target && p.capability in {Vision, NonVision}
            && (Modalities(p.content) == {} || Modalities(p.content) == {Pdf} == Modalities(request.content))
            && (Modalities(p.content) != {} ==>
                  p.capability.Vision? && p.action.Passthrough? && ServesMedia(registry, request.target, {Pdf}, now))
  {
    var p := Prepare(env, registry, request, scripts, now).prepared;
    if Modalities(request.content) == {} {
    } else if p.action.Passthrough? {
      VisionKeepsShape(request.content, scripts);
      SameShapeSameModalities(request.content, p.content);
    } else {
      assert !HasMedia(p.content);
    }
  }

  /** A converted payload is one sanitized text for the non-vision boundary, and it never starts as media data. */
  lemma ConvertedIsSafeText(env: TextEnv, registry: Registry, request: PrepareRequest, scripts: seq<MediaScript>,
                            now: real)
    requires OrdersLocators(env) && |scripts| == MediaCount(request.content)
    requires var r := Prepare(env, registry, request, scripts, now); r.Ready? && r.prepared.action.Converted?
    ensures var p := Prepare(env, registry, request, scripts, now).prepared;
            && p.capability.NonVision? && p.content == [TextPart(p.text)] && !StartsAsMediaData(p.text)
            && forall l :: l in env.order(ForbiddenLocators(scripts)) ==> !Contains(p.text, l)
  {
    hide Extract, NormalizeVision, StartsAsMediaData, MediaCount;
    StructuredIsSafe(env, request.content, request.profile, scripts);
  }

  /** A blocked request hands out nothing, whatever failed: only a conversion that succeeded in full is prepared. */
  lemma FailuresLeaveNothingPrepared(env: TextEnv, registry: Registry, request: PrepareRequest,
                                     scripts: seq<MediaScript>,
                                     now: real)
    requires OrdersLocators(env) && |scripts| == MediaCount(request.content)
    requires Prepare(env, registry, request, scripts, now).Ready?
    ensures var p := Prepare(env, registry, request, scripts, now).prepared;
            && (p.action.Converted? ==>
                  forall i :: 0 <= i < |scripts| ==> MediaSucceeds(request.profile, scripts[i]))
            && (p.action.Passthrough? && HasMedia(request.content) ==>
                  forall i :: 0 <= i < |scripts| ==> scripts[i].acquired.Some?)
  {
    ExtractionSucceeds(env, request.content, request.profile, scripts);
    if NormalizeVision(request.content, scripts).Parts? {
      AllAcquired(request.content, scripts);
    }
  }

  lemma {:induction false} AllAcquired(content: seq<Part>, scripts: seq<MediaScript>)
    requires |scripts| == MediaCount(content) && NormalizeVision(content, scripts).Parts?
    ensures forall i :: 0 <= i < |scripts| ==> scripts[i].acquired.Some?
  {
    if content == [] {
    } else if content[0].TextPart? {
      AllAcquired(content[1..], scripts);
    } else {
      AllAcquired(content[1..], scripts[1..]);
      assert forall i :: 1 <= i < |scripts| ==> scripts[i] == scripts[1..][i - 1];
    }
  }
}
