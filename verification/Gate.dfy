/** The fail-closed pre-request gate: capability resolution, media conversion, and the prepared payload. */
module Gate {
  import opened Common
  import opened Text
  import opened Contracts
  import opened Sanitizer

  // ----- Capabilities -----

  datatype Capability = Capability(modalities: set<Modality>, expiresAt: Option<real>, pdfVerified: bool) {
    predicate SupportsAll(wanted: set<Modality>) {
      wanted <= modalities
    }

    predicate IsStale(now: real) {
      expiresAt.Some? && expiresAt.value <= now
    }
  }

  type Registry = map<string, Capability>

  datatype CapabilityState = Vision | NonVision | Unknown | Stale

  /** `CapabilityRegistry.resolve`: only exact registered identifiers, and stale before anything else. */
  function Resolve(registry: Registry, target: string, now: real): CapabilityState {
    if target !in registry then Unknown
    else if registry[target].IsStale(now) then Stale
    else if registry[target].modalities != {} then Vision
    else NonVision
  }

  // ----- What the environment answers -----

  datatype BackendStatus = Success | NoText | Failure

  /** A backend call: its answer, or an exception. */
  datatype Answer = Answer(status: BackendStatus, text: Option<string>) | Raised

  datatype Acquired = Acquired(encoded: string, mime: string, kind: Modality, filename: Option<string>,
                               locators: seq<string>)

  /** One rendered page: whether it could be stored, and what the two backends say about it. */
  datatype PageScript = PageScript(number: nat, stored: bool, ocr: Answer, vision: Answer)

  /** A clean-up verified, refused by the workspace itself, or stopped by any other exception. */
  datatype Cleanup = Verified | Unverified | Raises

  /** Everything the environment does for one media item; an image has the single page `single`. */
  datatype MediaScript = MediaScript(acquired: Option<Acquired>, created: bool, stored: bool,
                                     rendered: Option<seq<PageScript>>, single: PageScript, cleanup: Cleanup)

  datatype GateFailure =
    | CapabilityUnknown | CapabilityStale | UnsupportedModality
    | AcquisitionFailed | WorkspaceFailed | ConversionFailed | PdfRenderFailed
    | OcrFailed | RecognitionInsufficient | VisionFailed | CleanupFailed
    | SanitizationFailed | MediaRequired
    | PreprocessingFailed  // any other exception out of the conversion

  // ----- Converting one media item -----

  datatype Sections = Sections(ocr: seq<string>, descriptions: seq<string>, converted: seq<string>) {
    function Then(next: Sections): Sections {
      Sections(ocr + next.ocr, descriptions + next.descriptions, converted + next.converted)
    }
  }

  const NO_SECTIONS := Sections([], [], [])

  function Decimal(n: nat): string {
    if n < 10 then [('0' as int + n) as char] else Decimal(n / 10) + Decimal(n % 10)
  }

  function Label(index: nat, kind: Modality, page: PageScript): string {
    "Media " + Decimal(index) + if kind.Pdf? then " page " + Decimal(page.number) else ""
  }

  function OcrText(page: PageScript): string {
    if page.ocr.Answer? && page.ocr.text.Some? && page.ocr.text.value != "" then page.ocr.text.value
    else "No text detected."
  }

  function Description(page: PageScript): string {
    if page.vision.Answer? && page.vision.text.Some? then Strip(page.vision.text.value) else ""
  }

  function PageFailure(profile: Profile, kind: Modality, page: PageScript): Option<GateFailure> {
    if kind.Pdf? && !page.stored then Some(ConversionFailed)
    else if page.ocr.Raised? then Some(ConversionFailed)
    else if page.ocr.status.Failure? then Some(OcrFailed)
    else if page.ocr.status.NoText? then Some(RecognitionInsufficient)
    else if !profile.Generic? then None
    else if page.vision.Raised? then Some(ConversionFailed)
    else if page.vision.status.Failure? then Some(VisionFailed)
    else None
  }

  function PageSections(profile: Profile, index: nat, kind: Modality, page: PageScript): Sections {
    var heading := Label(index, kind, page);
    var ocr := "[" + heading + " OCR]\n" + OcrText(page);
    if profile.Generic? && Description(page) != "" then
      Sections([OcrText(page)], [Description(page)], [ocr, "[" + heading + " Vision]\n" + Description(page)])
    else Sections([OcrText(page)], [], [ocr])
  }

  function ReadPages(profile: Profile, index: nat, kind: Modality, pages: seq<PageScript>)
    : Result<Sections, GateFailure>
  {
    if pages == [] then Ok(NO_SECTIONS)
    else
      var failure := PageFailure(profile, kind, pages[0]);
      if failure.Some? then Err(failure.value)
      else Chain(PageSections(profile, index, kind, pages[0]), ReadPages(profile, index, kind, pages[1..]))
  }

  function Chain(first: Sections, rest: Result<Sections, GateFailure>): Result<Sections, GateFailure> {
    if rest.Err? then rest else Ok(first.Then(rest.value))
  }

  /** `_backend_pages`. */
  function BackendPages(kind: Modality, script: MediaScript): Result<seq<PageScript>, GateFailure> {
    if kind.Image? then Ok([script.single])
    else if script.rendered.None? || script.rendered.value == [] then Err(PdfRenderFailed)
    else Ok(script.rendered.value)
  }

  /** What happens while the workspace is open. */
  function ReadMedia(profile: Profile, index: nat, kind: Modality, script: MediaScript): Result<Sections, GateFailure> {
    if !script.stored then Err(ConversionFailed)
    else
      var pages := BackendPages(kind, script);
      if pages.Err? then Err(pages.error) else ReadPages(profile, index, kind, pages.value)
  }

  /** One media item from acquisition to cleanup; a failed cleanup hides any earlier failure. */
  function ConvertMedia(profile: Profile, index: nat, script: MediaScript): Result<Sections, GateFailure> {
    if script.acquired.None? then Err(AcquisitionFailed)
    else if !script.created then Err(WorkspaceFailed)
    else if script.cleanup.Unverified? then Err(CleanupFailed)
    else if script.cleanup.Raises? then Err(PreprocessingFailed)
    else ReadMedia(profile, index, script.acquired.value.kind, script)
  }

  function ConvertAll(profile: Profile, scripts: seq<MediaScript>, from: nat): Result<Sections, GateFailure>
    requires from <= |scripts|
    decreases |scripts| - from
  {
    if from == |scripts| then Ok(NO_SECTIONS)
    else
      var one := ConvertMedia(profile, from + 1, scripts[from]);
      if one.Err? then one else Chain(one.value, ConvertAll(profile, scripts, from + 1))
  }

  /** The locators the converted text must not contain, in acquisition order. */
  function ForbiddenLocators(scripts: seq<MediaScript>): seq<string> {
    if scripts == [] then [] else LocatorsOf(scripts[0]) + ForbiddenLocators(scripts[1..])
  }

  function LocatorsOf(script: MediaScript): seq<string> {
    if script.acquired.None? then []
    else
      var name := script.acquired.value.filename;
      script.acquired.value.locators + if name.Some? && name.value != "" then [name.value] else []
  }

  /** Unicode tables, and the order in which the normalized locators are tried. */
  datatype TextEnv = TextEnv(uni: Unicode, order: seq<string> -> seq<string>)

  ghost predicate OrdersLocators(env: TextEnv) {
    forall raw :: "" !in env.order(raw)
  }

  datatype ConvertedContext = ConvertedContext(ocrText: string, description: string, structured: string,
                                               modalities: seq<Modality>)

  function JoinText(content: seq<Part>): string {
    Strip(Join("\n", Texts(content)))
  }

  function Kinds(scripts: seq<MediaScript>): seq<Modality>
    requires forall i :: 0 <= i < |scripts| ==> scripts[i].acquired.Some?
  {
    seq(|scripts|, i requires 0 <= i < |scripts| => scripts[i].acquired.value.kind)
  }

  /** The three sanitizer calls that close the conversion. */
  function Conclude(env: TextEnv, text: string, sections: Sections, locators: seq<string>, kinds: seq<Modality>)
    : Result<ConvertedContext, GateFailure>
    requires OrdersLocators(env)
  {
    var clean := (s: string) => Sanitize(env.uni, s, env.order(locators), MAX_TEXT);
    var ocr := clean(Join("\n", sections.ocr));
    var description := if sections.descriptions == [] then Ok("") else clean(Join("\n", sections.descriptions));
    var structured := clean(Join("\n\n", (if text == "" then [] else [text]) + sections.converted));
    if ocr.Err? || description.Err? || structured.Err? then Err(SanitizationFailed)
    else Ok(ConvertedContext(ocr.value, description.value, structured.value, kinds))
  }

  function MediaCount(content: seq<Part>): nat {
    if content == [] then 0 else (if content[0].MediaPart? then 1 else 0) + MediaCount(content[1..])
  }

  /** `extract_context`: the environment has one script for each media part. */
  function Extract(env: TextEnv, content: seq<Part>, profile: Profile, scripts: seq<MediaScript>)
    : Result<ConvertedContext, GateFailure>
    requires OrdersLocators(env) && |scripts| == MediaCount(content)
  {
    if scripts == [] then Err(MediaRequired)
    else
      var sections := ConvertAll(profile, scripts, 0);
      if sections.Err? then Err(sections.error)
      else
        ConvertedHaveKinds(profile, scripts, 0);
        Conclude(env, JoinText(content), sections.value, ForbiddenLocators(scripts), Kinds(scripts))
  }

  lemma {:induction false} ConvertedHaveKinds(profile: Profile, scripts: seq<MediaScript>, from: nat)
    requires from <= |scripts| && ConvertAll(profile, scripts, from).Ok?
    ensures forall i :: from <= i < |scripts| ==> scripts[i].acquired.Some?
    decreases |scripts| - from
  {
    if from < |scripts| {
      ConvertedHaveKinds(profile, scripts, from + 1);
    }
  }

  // ----- Workspaces -----

  datatype WorkspaceEvent = Opened(media: nat) | Closed(media: nat, verified: bool)

  /** The workspaces created and cleaned up while converting the media from position `from` on. */
  function Workspaces(profile: Profile, scripts: seq<MediaScript>, from: nat): seq<WorkspaceEvent>
    requires from <= |scripts|
    decreases |scripts| - from
  {
    if from == |scripts| then []
    else
      WorkspaceOf(from, scripts[from])
      + if ConvertMedia(profile, from + 1, scripts[from]).Err? then [] else Workspaces(profile, scripts, from + 1)
  }

  function WorkspaceOf(media: nat, script: MediaScript): seq<WorkspaceEvent> {
    if script.acquired.None? || !script.created then [] else [Opened(media), Closed(media, script.cleanup.Verified?)]
  }

  /** `extract_context` as it runs, with the log of its workspaces. */
  method ExtractContext(env: TextEnv, content: seq<Part>, profile: Profile, scripts: seq<MediaScript>)
    returns (r: Result<ConvertedContext, GateFailure>, log: seq<WorkspaceEvent>)
    requires OrdersLocators(env) && |scripts| == MediaCount(content)
    ensures r == Extract(env, content, profile, scripts)
    ensures log == Workspaces(profile, scripts, 0)
  {
    log := [];
    if |scripts| == 0 {
      return Err(MediaRequired), log;
    }
    var sections := NO_SECTIONS;
    var locators: seq<string> := [];
    var kinds: seq<Modality> := [];
    StartsEmpty(ConvertAll(profile, scripts, 0));
    for i := 0 to |scripts|
      invariant Converted(profile, scripts, i, sections, locators, kinds, log)
    {
      var result, events := ConvertItem(profile, i, scripts[i]);
      ConvertedStep(profile, scripts, i, sections, locators, kinds, log);
      log := log + events;
      if result.Err? {
        return Err(result.error), log;
      }
      locators := locators + LocatorsOf(scripts[i]);
      kinds := kinds + [scripts[i].acquired.value.kind];
      sections := sections.Then(result.value);
    }
    ConvertedEnd(profile, scripts, sections, locators, kinds, log);
    r := Conclude(env, JoinText(content), sections, locators, kinds);
  }

  /** Progress of the loop: the first `i` media are converted, the others are still to come. */
  ghost predicate Converted(profile: Profile, scripts: seq<MediaScript>, i: nat, sections: Sections,
                            locators: seq<string>, kinds: seq<Modality>, log: seq<WorkspaceEvent>)
    requires i <= |scripts|
  {
    && (forall k :: 0 <= k < i ==> scripts[k].acquired.Some?) && kinds == Kinds(scripts[..i])
    && ForbiddenLocators(scripts) == locators + ForbiddenLocators(scripts[i..])
    && ConvertAll(profile, scripts, 0) == Chain(sections, ConvertAll(profile, scripts, i))
    && Workspaces(profile, scripts, 0) == log + Workspaces(profile, scripts, i)
  }

  lemma ConvertedStep(profile: Profile, scripts: seq<MediaScript>, i: nat, sections: Sections,
                      locators: seq<string>, kinds: seq<Modality>, log: seq<WorkspaceEvent>)
    requires i < |scripts| && Converted(profile, scripts, i, sections, locators, kinds, log)
    ensures var one := ConvertMedia(profile, i + 1, scripts[i]);
            var log' := log + WorkspaceOf(i, scripts[i]);
            if one.Err? then ConvertAll(profile, scripts, 0) == one && Workspaces(profile, scripts, 0) == log'
            else Converted(profile, scripts, i + 1, sections.Then(one.value), locators + LocatorsOf(scripts[i]),
                           kinds + [scripts[i].acquired.value.kind], log')
  {
    var one := ConvertMedia(profile, i + 1, scripts[i]);
    WorkspacesStep(profile, scripts, i, log);
    if one.Ok? {
      ChainAssociates(sections, one.value, ConvertAll(profile, scripts, i + 1));
      LocatorsStep(scripts, i, locators);
      KindsStep(scripts, i);
    }
  }

  lemma WorkspacesStep(profile: Profile, scripts: seq<MediaScript>, i: nat, log: seq<WorkspaceEvent>)
    requires i < |scripts|
    ensures log + Workspaces(profile, scripts, i)
         == log + WorkspaceOf(i, scripts[i])
            + if ConvertMedia(profile, i + 1, scripts[i]).Err? then [] else Workspaces(profile, scripts, i + 1)
  {
  }

  lemma KindsStep(scripts: seq<MediaScript>, i: nat)
    requires i < |scripts| && forall k :: 0 <= k <= i ==> scripts[k].acquired.Some?
    ensures Kinds(scripts[..i + 1]) == Kinds(scripts[..i]) + [scripts[i].acquired.value.kind]
  {
  }

  lemma LocatorsStep(scripts: seq<MediaScript>, i: nat, locators: seq<string>)
    requires i < |scripts|
    ensures locators + ForbiddenLocators(scripts[i..])
         == locators + LocatorsOf(scripts[i]) + ForbiddenLocators(scripts[i + 1..])
  {
    assert scripts[i..][0] == scripts[i] && scripts[i..][1..] == scripts[i + 1..];
  }

  lemma ConvertedEnd(profile: Profile, scripts: seq<MediaScript>, sections: Sections, locators: seq<string>,
                     kinds: seq<Modality>, log: seq<WorkspaceEvent>)
    requires Converted(profile, scripts, |scripts|, sections, locators, kinds, log)
    ensures kinds == Kinds(scripts) && locators == ForbiddenLocators(scripts)
    ensures ConvertAll(profile, scripts, 0) == Ok(sections) && Workspaces(profile, scripts, 0) == log
  {
    assert scripts[..|scripts|] == scripts;
    assert sections.Then(NO_SECTIONS) == sections;
  }

  /** One media item: acquire, open a workspace, read, always clean up, then report. */
  method ConvertItem(profile: Profile, media: nat, script: MediaScript)
    returns (r: Result<Sections, GateFailure>, events: seq<WorkspaceEvent>)
    ensures r == ConvertMedia(profile, media + 1, script)
    ensures events == WorkspaceOf(media, script)
  {
    if script.acquired.None? {
      return Err(AcquisitionFailed), [];
    }
    if !script.created {
      return Err(WorkspaceFailed), [];
    }
    events := [Opened(media)];
    r := ReadMediaItem(profile, media + 1, script.acquired.value.kind, script);
    events := events + [Closed(media, script.cleanup.Verified?)];
    if script.cleanup.Unverified? {
      r := Err(CleanupFailed);
    } else if script.cleanup.Raises? {
      r := Err(PreprocessingFailed);
    }
  }

  lemma ChainAssociates(a: Sections, b: Sections, rest: Result<Sections, GateFailure>)
    ensures Chain(a, Chain(b, rest)) == Chain(a.Then(b), rest)
  {
    if rest.Ok? {
      assert a.ocr + (b.ocr + rest.value.ocr) == a.ocr + b.ocr + rest.value.ocr;
      assert a.descriptions + (b.descriptions + rest.value.descriptions)
          == a.descriptions + b.descriptions + rest.value.descriptions;
      assert a.converted + (b.converted + rest.value.converted) == a.converted + b.converted + rest.value.converted;
    }
  }

  /** The loop over the pages of one item. */
  method ReadMediaItem(profile: Profile, index: nat, kind: Modality, script: MediaScript)
    returns (r: Result<Sections, GateFailure>)
    ensures r == ReadMedia(profile, index, kind, script)
  {
    if !script.stored {
      return Err(ConversionFailed);
    }
    var rendered := BackendPages(kind, script);
    if rendered.Err? {
      return Err(rendered.error);
    }
    var pages := rendered.value;
    var sections := NO_SECTIONS;
    assert pages[0..] == pages;
    StartsEmpty(ReadPages(profile, index, kind, pages));
    for j := 0 to |pages|
      invariant ReadPages(profile, index, kind, pages) == Chain(sections, ReadPages(profile, index, kind, pages[j..]))
    {
      assert pages[j..][1..] == pages[j + 1..];
      var failure := PageFailure(profile, kind, pages[j]);
      if failure.Some? {
        return Err(failure.value);
      }
      var page := PageSections(profile, index, kind, pages[j]);
      ChainAssociates(sections, page, ReadPages(profile, index, kind, pages[j + 1..]));
      sections := sections.Then(page);
    }
    assert sections.Then(NO_SECTIONS) == sections;
    r := Ok(sections);
  }

  lemma StartsEmpty(rest: Result<Sections, GateFailure>)
    ensures Chain(NO_SECTIONS, rest) == rest
  {
    if rest.Ok? {
      assert [] + rest.value.ocr == rest.value.ocr;
      assert [] + rest.value.descriptions == rest.value.descriptions;
      assert [] + rest.value.converted == rest.value.converted;
    }
  }

  /** The media whose workspace exists after the first `k` events. */
  ghost function StillOpen(log: seq<WorkspaceEvent>, k: nat): set<nat>
    requires k <= |log|
  {
    set j | 0 <= j < k && log[j].Opened? && (forall c :: 0 <= c < k && log[c].Closed? ==> log[c].media != log[j].media)
          :: log[j].media
  }

  ghost predicate NoEventTwice(log: seq<WorkspaceEvent>) {
    forall j, k :: 0 <= j < k < |log| && log[j].Opened? == log[k].Opened? ==> log[j].media != log[k].media
  }

  ghost predicate PairedFrom(log: seq<WorkspaceEvent>, from: nat) {
    && |log| % 2 == 0
    && (forall k :: 0 <= k < |log| / 2 ==> log[2 * k] == Opened(from + k))
    && (forall k :: 0 <= k < |log| / 2 ==> log[2 * k + 1].Closed? && log[2 * k + 1].media == from + k)
  }

  lemma {:induction false} WorkspacesArePaired(profile: Profile, scripts: seq<MediaScript>, from: nat)
    requires from <= |scripts|
    ensures PairedFrom(Workspaces(profile, scripts, from), from)
    decreases |scripts| - from
  {
    var log := Workspaces(profile, scripts, from);
    if |log| > 2 {
      WorkspacesArePaired(profile, scripts, from + 1);
      PairInFront(Opened(from), Closed(from, scripts[from].cleanup.Verified?),
                  Workspaces(profile, scripts, from + 1), from);
    }
  }

  lemma PairInFront(a: WorkspaceEvent, b: WorkspaceEvent, rest: seq<WorkspaceEvent>, from: nat)
    requires a == Opened(from) && b.Closed? && b.media == from && PairedFrom(rest, from + 1)
    ensures PairedFrom([a, b] + rest, from)
  {
    var log := [a, b] + rest;
    forall k | 0 < k < |log| / 2 ensures log[2 * k] == Opened(from + k) {
      assert log[2 * k] == rest[2 * (k - 1)];
    }
    forall k | 0 < k < |log| / 2 ensures log[2 * k + 1].Closed? && log[2 * k + 1].media == from + k {
      assert log[2 * k + 1] == rest[2 * (k - 1) + 1];
    }
  }

  /**
   * Whatever fails, every workspace that was created is cleaned up exactly once, before the next
   * one is created, and none is left at the end.
   */
  lemma WorkspaceDiscipline(profile: Profile, scripts: seq<MediaScript>)
    ensures var log := Workspaces(profile, scripts, 0);
            NoEventTwice(log) && StillOpen(log, |log|) == {} && forall k :: 0 <= k <= |log| ==> |StillOpen(log, k)| <= 1
  {
    var log := Workspaces(profile, scripts, 0);
    WorkspacesArePaired(profile, scripts, 0);
    assert NoEventTwice(log) by {
      forall j, k | 0 <= j < k < |log| && log[j].Opened? == log[k].Opened? ensures log[j].media != log[k].media {
        EventAt(log, j);
        EventAt(log, k);
      }
    }
    forall k | 0 <= k <= |log| ensures |StillOpen(log, k)| <= 1 && (k == |log| ==> StillOpen(log, k) == {}) {
      OnlyTheLastIsOpen(log, k);
    }
  }

  lemma EventAt(log: seq<WorkspaceEvent>, j: nat)
    requires PairedFrom(log, 0) && j < |log|
    ensures log[j].media == j / 2 && (log[j].Opened? <==> j % 2 == 0)
  {
    assert log[2 * (j / 2)] == Opened(0 + j / 2) && log[2 * (j / 2) + 1].media == 0 + j / 2;
  }

  lemma OnlyTheLastIsOpen(log: seq<WorkspaceEvent>, k: nat)
    requires PairedFrom(log, 0) && k <= |log|
    ensures StillOpen(log, k) <= {k / 2} && |StillOpen(log, k)| <= 1
    ensures k == |log| ==> StillOpen(log, k) == {}
  {
    forall m | m in StillOpen(log, k) ensures m == k / 2 && k % 2 == 1 {
      var j :| 0 <= j < k && log[j].Opened? && log[j].media == m
             && forall c :: 0 <= c < k && log[c].Closed? ==> log[c].media != m;
      EventAt(log, j);
      if j + 1 < k {
        EventAt(log, j + 1);
      }
    }
    SubsetOfOne(StillOpen(log, k), k / 2);
  }

  lemma SubsetOfOne(s: set<nat>, x: nat)
    requires s <= {x}
    ensures |s| <= 1
  {
    if s != {} {
      assert s == {x};
    }
  }

  lemma EventsAreLater(profile: Profile, scripts: seq<MediaScript>, from: nat, e: WorkspaceEvent)
    requires from <= |scripts| && e.media < from
    ensures e !in Workspaces(profile, scripts, from)
  {
    hide Workspaces;
    WorkspacesArePaired(profile, scripts, from);
    var log := Workspaces(profile, scripts, from);
    forall k | 0 <= k < |log| ensures log[k].media >= from {
      assert log[2 * (k / 2)] == Opened(from + k / 2) && log[2 * (k / 2) + 1].media == from + k / 2;
    }
  }

  /** The log at `from`: the events of that item, and those of the next ones if it succeeds. */
  lemma EventsStep(profile: Profile, scripts: seq<MediaScript>, from: nat, e: WorkspaceEvent)
    requires from < |scripts|
    ensures e in Workspaces(profile, scripts, from)
       <==> e in WorkspaceOf(from, scripts[from])
            || (ConvertMedia(profile, from + 1, scripts[from]).Ok? && e in Workspaces(profile, scripts, from + 1))
  {
    hide ConvertMedia;
  }

  /** An event of item `i` is logged exactly when the item is reached and the event is one of its own. */
  lemma {:induction false} EventIsLogged(profile: Profile, scripts: seq<MediaScript>, from: nat, e: WorkspaceEvent)
    requires from <= e.media < |scripts|
    ensures e in Workspaces(profile, scripts, from)
       <==> e in WorkspaceOf(e.media, scripts[e.media])
            && forall j :: from <= j < e.media ==> ConvertMedia(profile, j + 1, scripts[j]).Ok?
    decreases |scripts| - from
  {
    hide ConvertMedia, Workspaces;
    EventsStep(profile, scripts, from, e);
    if from < e.media {
      EventIsLogged(profile, scripts, from + 1, e);
    } else {
      EventsAreLater(profile, scripts, from + 1, e);
    }
  }

  // ----- When a conversion succeeds, and what it then contains -----

  predicate PageSucceeds(profile: Profile, kind: Modality, page: PageScript) {
    && (kind.Pdf? ==> page.stored)
    && page.ocr.Answer? && page.ocr.status.Success?
    && (profile.Generic? ==> page.vision.Answer? && !page.vision.status.Failure?)
  }

  /** No step of the environment failed for this media item. */
  predicate MediaSucceeds(profile: Profile, script: MediaScript) {
    && script.acquired.Some? && script.created && script.stored && script.cleanup.Verified?
    && var kind := script.acquired.value.kind;
    if kind.Image? then PageSucceeds(profile, kind, script.single)
    else script.rendered.Some? && script.rendered.value != []
         && forall j :: 0 <= j < |script.rendered.value| ==> PageSucceeds(profile, kind, script.rendered.value[j])
  }

  function Pages(script: MediaScript): seq<PageScript>
    requires script.acquired.Some?
  {
    if script.acquired.value.kind.Image? then [script.single]
    else if script.rendered.Some? then script.rendered.value else []
  }

  lemma {:induction false} PagesSucceed(profile: Profile, index: nat, kind: Modality, pages: seq<PageScript>)
    ensures var r := ReadPages(profile, index, kind, pages);
            && (r.Ok? <==> forall j :: 0 <= j < |pages| ==> PageSucceeds(profile, kind, pages[j]))
            && (r.Ok? ==> r.value.ocr == PageTexts(pages))
  {
    if pages != [] {
      PagesSucceed(profile, index, kind, pages[1..]);
      assert PageSucceeds(profile, kind, pages[0]) <==> PageFailure(profile, kind, pages[0]).None?;
      assert forall j :: 1 <= j < |pages| ==> pages[j] == pages[1..][j - 1];
    }
  }

  function PageTexts(pages: seq<PageScript>): seq<string> {
    seq(|pages|, j requires 0 <= j < |pages| => OcrText(pages[j]))
  }

  lemma MediaConverts(profile: Profile, index: nat, script: MediaScript)
    ensures ConvertMedia(profile, index, script).Ok? <==> MediaSucceeds(profile, script)
    ensures MediaSucceeds(profile, script) ==>
              ConvertMedia(profile, index, script).value.ocr == PageTexts(Pages(script))
  {
    if script.acquired.Some? {
      PagesSucceed(profile, index, script.acquired.value.kind, Pages(script));
      if script.acquired.value.kind.Image? {
        assert Pages(script)[0] == script.single;
      }
    }
  }

  /** The OCR texts of all pages of all media, in media order and page order. */
  function AllOcrTexts(scripts: seq<MediaScript>): seq<string>
    requires forall i :: 0 <= i < |scripts| ==> scripts[i].acquired.Some?
  {
    if scripts == [] then [] else PageTexts(Pages(scripts[0])) + AllOcrTexts(scripts[1..])
  }

  predicate IsDescribed(profile: Profile, page: PageScript) {
    profile.Generic? && Description(page) != ""
  }

  /** The descriptions of the pages that have one, in page order. */
  function PageDescriptions(profile: Profile, pages: seq<PageScript>): seq<string> {
    if pages == [] then []
    else
      (if IsDescribed(profile, pages[0]) then [Description(pages[0])] else []) + PageDescriptions(profile, pages[1..])
  }

  function AllDescriptions(profile: Profile, scripts: seq<MediaScript>): seq<string>
    requires forall i :: 0 <= i < |scripts| ==> scripts[i].acquired.Some?
  {
    if scripts == [] then []
    else PageDescriptions(profile, Pages(scripts[0])) + AllDescriptions(profile, scripts[1..])
  }

  /** The blocks for the model in page order: what is read on a page, then what is seen on it, under its label. */
  function PageBlocks(profile: Profile, index: nat, kind: Modality, pages: seq<PageScript>): seq<string> {
    if pages == [] then []
    else
      ["[" + Label(index, kind, pages[0]) + " OCR]\n" + OcrText(pages[0])]
      + (if IsDescribed(profile, pages[0])
         then ["[" + Label(index, kind, pages[0]) + " Vision]\n" + Description(pages[0])] else [])
      + PageBlocks(profile, index, kind, pages[1..])
  }

  /** The blocks of all media in media order; media are numbered from `from + 1`. */
  function AllBlocks(profile: Profile, scripts: seq<MediaScript>, from: nat): seq<string>
    requires forall i :: 0 <= i < |scripts| ==> scripts[i].acquired.Some?
    decreases |scripts|
  {
    if scripts == [] then []
    else
      PageBlocks(profile, from + 1, scripts[0].acquired.value.kind, Pages(scripts[0]))
      + AllBlocks(profile, scripts[1..], from + 1)
  }

  lemma {:induction false} PagesInOrder(profile: Profile, index: nat, kind: Modality, pages: seq<PageScript>)
    requires ReadPages(profile, index, kind, pages).Ok?
    ensures var r := ReadPages(profile, index, kind, pages).value;
            r.converted == PageBlocks(profile, index, kind, pages) && r.descriptions == PageDescriptions(profile, pages)
  {
    hide Label, OcrText, Description, PageFailure;
    if pages != [] {
      PagesInOrder(profile, index, kind, pages[1..]);
    }
  }

  lemma MediaInOrder(profile: Profile, index: nat, script: MediaScript)
    requires ConvertMedia(profile, index, script).Ok?
    ensures script.acquired.Some?
    ensures var r := ConvertMedia(profile, index, script).value;
            && r.converted == PageBlocks(profile, index, script.acquired.value.kind, Pages(script))
            && r.descriptions == PageDescriptions(profile, Pages(script))
  {
    hide PageBlocks, PageDescriptions, ReadPages;
    PagesInOrder(profile, index, script.acquired.value.kind, Pages(script));
  }

  /** A workspace is opened for exactly the media reached and acquired, and its clean-up is logged as it went. */
  lemma WorkspacesAreLogged(profile: Profile, scripts: seq<MediaScript>, i: nat)
    requires i < |scripts|
    ensures var log := Workspaces(profile, scripts, 0);
            var created := scripts[i].acquired.Some? && scripts[i].created
                           && forall j :: 0 <= j < i ==> MediaSucceeds(profile, scripts[j]);
            && (Opened(i) in log <==> created)
            && (Closed(i, true) in log <==> created && scripts[i].cleanup.Verified?)
            && (Closed(i, false) in log <==> created && !scripts[i].cleanup.Verified?)
  {
    hide ConvertMedia, MediaSucceeds, Workspaces;
    EventIsLogged(profile, scripts, 0, Opened(i));
    EventIsLogged(profile, scripts, 0, Closed(i, true));
    EventIsLogged(profile, scripts, 0, Closed(i, false));
    forall j | 0 <= j < i ensures ConvertMedia(profile, j + 1, scripts[j]).Ok? <==> MediaSucceeds(profile, scripts[j]) {
      MediaConverts(profile, j + 1, scripts[j]);
    }
  }

  lemma {:induction false} AllConvert(profile: Profile, scripts: seq<MediaScript>, from: nat)
    requires from <= |scripts|
    ensures ConvertAll(profile, scripts, from).Ok?
       <==> forall i :: from <= i < |scripts| ==> MediaSucceeds(profile, scripts[i])
    decreases |scripts| - from
  {
    hide ConvertMedia, MediaSucceeds;
    if from < |scripts| {
      AllConvert(profile, scripts, from + 1);
      MediaConverts(profile, from + 1, scripts[from]);
    }
  }

  lemma {:induction false} TextsInOrder(profile: Profile, scripts: seq<MediaScript>, from: nat)
    requires from <= |scripts| && ConvertAll(profile, scripts, from).Ok?
    requires forall i :: 0 <= i < |scripts| ==> scripts[i].acquired.Some?
    ensures ConvertAll(profile, scripts, from).value.ocr == AllOcrTexts(scripts[from..])
    ensures ConvertAll(profile, scripts, from).value.descriptions == AllDescriptions(profile, scripts[from..])
    ensures ConvertAll(profile, scripts, from).value.converted == AllBlocks(profile, scripts[from..], from)
    decreases |scripts| - from
  {
    hide ConvertMedia, MediaSucceeds, PageTexts, PageBlocks, PageDescriptions, Pages;
    if from < |scripts| {
      TextsInOrder(profile, scripts, from + 1);
      MediaConverts(profile, from + 1, scripts[from]);
      MediaInOrder(profile, from + 1, scripts[from]);
      assert scripts[from..][1..] == scripts[from + 1..];
    }
  }

  /** The texts of a conversion are the sanitized joins of what was read and seen, page after page. */
  ghost predicate CleanedTexts(env: TextEnv, profile: Profile, scripts: seq<MediaScript>, text: string,
                               context: ConvertedContext)
    requires OrdersLocators(env) && forall i :: 0 <= i < |scripts| ==> scripts[i].acquired.Some?
  {
    var locators := env.order(ForbiddenLocators(scripts));
    var descriptions := AllDescriptions(profile, scripts);
    var blocks := (if text == "" then [] else [text]) + AllBlocks(profile, scripts, 0);
    && Sanitize(env.uni, Join("\n", AllOcrTexts(scripts)), locators, MAX_TEXT) == Ok(context.ocrText)
    && (if descriptions == [] then context.description == ""
        else Sanitize(env.uni, Join("\n", descriptions), locators, MAX_TEXT) == Ok(context.description))
    && Sanitize(env.uni, Join("\n\n", blocks), locators, MAX_TEXT) == Ok(context.structured)
  }

  /**
   * A conversion that returns normally had every step of every media item succeed, every cleanup
   * included. It then lists modalities, OCR texts, descriptions and the blocks for the model in media and page
   * order, behind the text of the request. Any failed step blocks it.
   */
  lemma ExtractionSucceeds(env: TextEnv, content: seq<Part>, profile: Profile, scripts: seq<MediaScript>)
    requires OrdersLocators(env) && |scripts| == MediaCount(content)
    ensures var r := Extract(env, content, profile, scripts);
            var allSucceed := scripts != [] && forall i :: 0 <= i < |scripts| ==> MediaSucceeds(profile, scripts[i]);
            && (r.Ok? ==> allSucceed && |r.value.modalities| == |scripts|
                          && forall i :: 0 <= i < |scripts| ==>
                               r.value.modalities[i] == scripts[i].acquired.value.kind)
            && (r.Ok? ==> CleanedTexts(env, profile, scripts, JoinText(content), r.value))
            && (r.Err? && allSucceed ==> r.error == SanitizationFailed)
  {
    hide AllOcrTexts, AllDescriptions, AllBlocks, Sanitize, JoinText;
    AllConvert(profile, scripts, 0);
    assert scripts[0..] == scripts;
    if ConvertAll(profile, scripts, 0).Ok? {
      ConvertedHaveKinds(profile, scripts, 0);
      TextsInOrder(profile, scripts, 0);
    }
  }

  /** In the text for the model, no forbidden locator or media data survives. */
  lemma StructuredIsSafe(env: TextEnv, content: seq<Part>, profile: Profile, scripts: seq<MediaScript>)
    requires OrdersLocators(env) && |scripts| == MediaCount(content)
    requires Extract(env, content, profile, scripts).Ok?
    ensures var s := Extract(env, content, profile, scripts).value.structured;
            && !StartsAsMediaData(s) && |s| <= MAX_TEXT
            && forall l :: l in env.order(ForbiddenLocators(scripts)) ==> !Contains(s, l)
  {
    var sections := ConvertAll(profile, scripts, 0).value;
    var text := JoinText(content);
    var raw := Join("\n\n", (if text == "" then [] else [text]) + sections.converted);
    SanitizedIsSafe(env.uni, raw, env.order(ForbiddenLocators(scripts)), MAX_TEXT);
  }
}
