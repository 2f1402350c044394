/**
 * What the gate answers, over the request, the registry and what the environment did: where every text that was read
 * or seen ends up, which failure blocks a request, and which requests are prepared and how.
 */
module GateOutcomes {
  import opened Common
  import opened Contracts
  import opened Gate
  import opened Preparation
  import opened Sanitizer
  import opened Text

  // ----- Numbers in labels -----

  ghost function ReadDecimal(s: string): nat
    requires forall k :: 0 <= k < |s| ==> '0' <= s[k] <= '9'
  {
    if s == "" then 0 else ReadDecimal(s[..|s| - 1]) * 10 + (s[|s| - 1] as nat - '0' as nat)
  }

  /** The decimal digits of a number, without leading zeros. */
  ghost predicate IsNumeral(s: string, n: nat) {
    && s != "" && (|s| > 1 ==> s[0] != '0')
    && (forall k :: 0 <= k < |s| ==> '0' <= s[k] <= '9')
    && ReadDecimal(s) == n
  }

  lemma {:induction false} DecimalReadsBack(n: nat)
    ensures IsNumeral(Decimal(n), n)
    ensures n > 0 ==> Decimal(n)[0] != '0'
  {
    if n >= 10 {
      DecimalReadsBack(n / 10);
      var front, last := Decimal(n / 10), Decimal(n % 10);
      assert |last| == 1 && (front + last)[..|front|] == front;
    } else {
      assert Decimal(n)[..0] == "";
    }
  }

  // ----- Every page in its place -----

  /** A page, the number of its media item, and what kind of item that is. */
  datatype Place = Place(media: nat, kind: Modality, page: PageScript)

  ghost predicate AllAcquired(scripts: seq<MediaScript>) {
    forall i :: 0 <= i < |scripts| ==> scripts[i].acquired.Some?
  }

  ghost function PlacesOf(media: nat, kind: Modality, pages: seq<PageScript>): seq<Place> {
    if pages == [] then [] else [Place(media, kind, pages[0])] + PlacesOf(media, kind, pages[1..])
  }

  /** The pages of all media, media numbered from `from + 1`. */
  ghost function AllPlaces(scripts: seq<MediaScript>, from: nat): seq<Place>
    requires AllAcquired(scripts)
    decreases |scripts|
  {
    if scripts == [] then []
    else
      PlacesOf(from + 1, scripts[0].acquired.value.kind, Pages(scripts[0])) + AllPlaces(scripts[1..], from + 1)
  }

  /** The backend read something on the page. */
  predicate WasRead(page: PageScript, t: string) {
    page.ocr.Answer? && page.ocr.text == Some(t) && t != ""
  }

  /** The vision backend saw something on the page, `t` being its text without the blanks around it. */
  predicate WasSeen(profile: Profile, page: PageScript, t: string) {
    profile.Generic? && page.vision.Answer? && page.vision.text.Some? && t == Strip(page.vision.text.value) && t != ""
  }

  /** What was read on a page, or the placeholder when nothing was. */
  ghost predicate TellsWhatWasRead(page: PageScript, entry: string) {
    && (forall t :: WasRead(page, t) ==> entry == t)
    && ((forall t :: !WasRead(page, t)) ==> entry == "No text detected.")
  }

  /** The label of a page: its media number, and for a PDF its page number too. */
  ghost predicate IsLabel(place: Place, heading: string) {
    exists n, m :: IsNumeral(n, place.media) && IsNumeral(m, place.page.number)
                && heading == if place.kind.Pdf? then "Media " + n + " page " + m else "Media " + n
  }

  /** A block for the model: the label, what kind of block it is, and behind a line feed the text. */
  ghost predicate IsBlock(place: Place, kind: string, text: string, block: string) {
    exists heading :: IsLabel(place, heading) && block == "[" + heading + " " + kind + "]\n" + text
  }

  lemma LabelIsLabel(place: Place)
    ensures IsLabel(place, Label(place.media, place.kind, place.page))
  {
    DecimalReadsBack(place.media);
    DecimalReadsBack(place.page.number);
    var n, m := Decimal(place.media), Decimal(place.page.number);
    assert "Media " + n + "" == "Media " + n && "Media " + n + (" page " + m) == "Media " + n + " page " + m;
  }

  /** What a page contributes: one OCR text, one OCR block, and a description with its block if something was seen. */
  ghost predicate Contributes(profile: Profile, place: Place, texts: seq<string>, seen: seq<string>,
                              blocks: seq<string>) {
    && |texts| == 1 && TellsWhatWasRead(place.page, texts[0])
    && 1 <= |blocks| && IsBlock(place, "OCR", texts[0], blocks[0])
    && (if exists t :: WasSeen(profile, place.page, t) then
          |seen| == 1 && WasSeen(profile, place.page, seen[0])
          && |blocks| == 2 && IsBlock(place, "Vision", seen[0], blocks[1])
        else |seen| == 0 && |blocks| == 1)
  }

  /** Texts, descriptions and blocks are those that the pages contribute one after the other. */
  ghost predicate ContributeInOrder(profile: Profile, places: seq<Place>, texts: seq<string>, seen: seq<string>,
                                    blocks: seq<string>)
    decreases |places|
  {
    if places == [] then texts == [] && seen == [] && blocks == []
    else
      exists d, b :: 0 <= d <= |seen| && 0 <= b <= |blocks| && |texts| > 0
                  && Contributes(profile, places[0], texts[..1], seen[..d], blocks[..b])
                  && ContributeInOrder(profile, places[1..], texts[1..], seen[d..], blocks[b..])
  }

  function SeenOn(profile: Profile, page: PageScript): seq<string> {
    if IsDescribed(profile, page) then [Description(page)] else []
  }

  function BlocksOn(profile: Profile, place: Place): seq<string> {
    ["[" + Label(place.media, place.kind, place.page) + " OCR]\n" + OcrText(place.page)]
    + if IsDescribed(profile, place.page)
      then ["[" + Label(place.media, place.kind, place.page) + " Vision]\n" + Description(place.page)] else []
  }

  lemma OcrBlockIsBlock(place: Place, text: string)
    ensures IsBlock(place, "OCR", text, "[" + Label(place.media, place.kind, place.page) + " OCR]\n" + text)
  {
    hide Label, IsLabel;
    LabelIsLabel(place);
    var heading := Label(place.media, place.kind, place.page);
    assert "[" + heading + " " + "OCR" + "]\n" + text == "[" + heading + " OCR]\n" + text;
  }

  lemma VisionBlockIsBlock(place: Place, text: string)
    ensures IsBlock(place, "Vision", text, "[" + Label(place.media, place.kind, place.page) + " Vision]\n" + text)
  {
    hide Label, IsLabel;
    LabelIsLabel(place);
    var heading := Label(place.media, place.kind, place.page);
    assert "[" + heading + " " + "Vision" + "]\n" + text == "[" + heading + " Vision]\n" + text;
  }

  lemma OcrTextTells(page: PageScript)
    ensures TellsWhatWasRead(page, OcrText(page))
  {
    if page.ocr.Answer? && page.ocr.text.Some? && page.ocr.text.value != "" {
      assert WasRead(page, page.ocr.text.value);
    }
  }

  lemma DescribedIsSeen(profile: Profile, page: PageScript)
    ensures IsDescribed(profile, page) <==> WasSeen(profile, page, Description(page))
    ensures forall t :: WasSeen(profile, page, t) ==> t == Description(page)
  {
    hide Strip;
  }

  lemma PageContributes(profile: Profile, place: Place)
    ensures Contributes(profile, place, [OcrText(place.page)], SeenOn(profile, place.page), BlocksOn(profile, place))
  {
    hide OcrText, Description, Label, IsDescribed, WasSeen, TellsWhatWasRead, IsBlock;
    OcrTextTells(place.page);
    OcrBlockIsBlock(place, OcrText(place.page));
    DescribedIsSeen(profile, place.page);
    VisionBlockIsBlock(place, Description(place.page));
  }

  lemma PlaceInFront(profile: Profile, place: Place, places: seq<Place>, texts: seq<string>, seen: seq<string>,
                     blocks: seq<string>)
    requires ContributeInOrder(profile, places, texts, seen, blocks)
    ensures ContributeInOrder(profile, [place] + places, [OcrText(place.page)] + texts,
                              SeenOn(profile, place.page) + seen, BlocksOn(profile, place) + blocks)
  {
    hide OcrText, SeenOn, BlocksOn, Contributes;
    PageContributes(profile, place);
    var s, b := SeenOn(profile, place.page), BlocksOn(profile, place);
    assert ([place] + places)[1..] == places;
    assert ([OcrText(place.page)] + texts)[..1] == [OcrText(place.page)];
    assert ([OcrText(place.page)] + texts)[1..] == texts;
    assert (s + seen)[..|s|] == s && (s + seen)[|s|..] == seen;
    assert (b + blocks)[..|b|] == b && (b + blocks)[|b|..] == blocks;
  }

  lemma PagesStep(profile: Profile, index: nat, kind: Modality, pages: seq<PageScript>)
    requires pages != []
    ensures var rest, place := pages[1..], Place(index, kind, pages[0]);
            && PlacesOf(index, kind, pages) == [place] + PlacesOf(index, kind, rest)
            && PageTexts(pages) == [OcrText(place.page)] + PageTexts(rest)
            && PageDescriptions(profile, pages) == SeenOn(profile, place.page) + PageDescriptions(profile, rest)
            && PageBlocks(profile, index, kind, pages)
               == BlocksOn(profile, place) + PageBlocks(profile, index, kind, rest)
  {
    hide OcrText, Label, Description, IsDescribed;
  }

  lemma Associates<T>(a: seq<T>, b: seq<T>, c: seq<T>)
    ensures a + b + c == a + (b + c)
  {
  }

  lemma {:induction false} PagesContribute(profile: Profile, index: nat, kind: Modality, pages: seq<PageScript>,
                                           places: seq<Place>, texts: seq<string>, seen: seq<string>,
                                           blocks: seq<string>)
    requires ContributeInOrder(profile, places, texts, seen, blocks)
    ensures ContributeInOrder(profile, PlacesOf(index, kind, pages) + places, PageTexts(pages) + texts,
                              PageDescriptions(profile, pages) + seen, PageBlocks(profile, index, kind, pages) + blocks)
    decreases pages
  {
    hide ContributeInOrder, OcrText, SeenOn, BlocksOn, PlacesOf, PageTexts, PageDescriptions, PageBlocks;
    if pages == [] {
      NoPages(profile, index, kind, places, texts, seen, blocks);
    } else {
      var rest, place := pages[1..], Place(index, kind, pages[0]);
      PagesContribute(profile, index, kind, rest, places, texts, seen, blocks);
      PlaceInFront(profile, place, PlacesOf(index, kind, rest) + places, PageTexts(rest) + texts,
                   PageDescriptions(profile, rest) + seen, PageBlocks(profile, index, kind, rest) + blocks);
      PagesStep(profile, index, kind, pages);
      Associates([place], PlacesOf(index, kind, rest), places);
      Associates([OcrText(place.page)], PageTexts(rest), texts);
      Associates(SeenOn(profile, place.page), PageDescriptions(profile, rest), seen);
      Associates(BlocksOn(profile, place), PageBlocks(profile, index, kind, rest), blocks);
    }
  }

  lemma NoPages(profile: Profile, index: nat, kind: Modality, places: seq<Place>, texts: seq<string>,
                seen: seq<string>, blocks: seq<string>)
    ensures PlacesOf(index, kind, []) + places == places && PageTexts([]) + texts == texts
    ensures PageDescriptions(profile, []) + seen == seen && PageBlocks(profile, index, kind, []) + blocks == blocks
  {
  }

  /** Every text, description and block of a conversion is what its page, in its place, contributes. */
  lemma {:induction false} EveryPageContributes(profile: Profile, scripts: seq<MediaScript>, from: nat)
    requires AllAcquired(scripts)
    ensures ContributeInOrder(profile, AllPlaces(scripts, from), AllOcrTexts(scripts),
                              AllDescriptions(profile, scripts), AllBlocks(profile, scripts, from))
    decreases |scripts|
  {
    hide PageTexts, PageDescriptions, PageBlocks, PlacesOf, Pages;
    if scripts != [] {
      EveryPageContributes(profile, scripts[1..], from + 1);
      PagesContribute(profile, from + 1, scripts[0].acquired.value.kind, Pages(scripts[0]),
                      AllPlaces(scripts[1..], from + 1), AllOcrTexts(scripts[1..]),
                      AllDescriptions(profile, scripts[1..]), AllBlocks(profile, scripts[1..], from + 1));
    }
  }

  /** The pages in front of a media item. */
  ghost function PagesBefore(scripts: seq<MediaScript>, i: nat): nat
    requires AllAcquired(scripts) && i <= |scripts|
  {
    if i == 0 then 0 else PagesBefore(scripts, i - 1) + |Pages(scripts[i - 1])|
  }

  lemma {:induction false} PlacesAt(index: nat, kind: Modality, pages: seq<PageScript>, j: nat)
    ensures |PlacesOf(index, kind, pages)| == |pages|
    ensures j < |pages| ==> PlacesOf(index, kind, pages)[j] == Place(index, kind, pages[j])
    decreases pages
  {
    if pages != [] {
      PlacesAt(index, kind, pages[1..], if j > 0 then j - 1 else 0);
    }
  }

  lemma {:induction false} PagesBeforeStep(scripts: seq<MediaScript>, i: nat)
    requires AllAcquired(scripts) && 0 < i <= |scripts|
    ensures PagesBefore(scripts, i) == |Pages(scripts[0])| + PagesBefore(scripts[1..], i - 1)
  {
    hide Pages;
    if i > 1 {
      PagesBeforeStep(scripts, i - 1);
      assert scripts[1..][i - 2] == scripts[i - 1];
    }
  }

  /** Page `j` of medium `i` has its place behind all pages of the media before and the pages before it. */
  lemma {:induction false} PageHasItsPlace(scripts: seq<MediaScript>, from: nat, i: nat, j: nat)
    requires AllAcquired(scripts) && i < |scripts| && j < |Pages(scripts[i])|
    ensures PagesBefore(scripts, i) + j < |AllPlaces(scripts, from)|
    ensures AllPlaces(scripts, from)[PagesBefore(scripts, i) + j]
         == Place(from + i + 1, scripts[i].acquired.value.kind, Pages(scripts[i])[j])
    decreases i
  {
    hide Pages;
    PlacesAt(from + 1, scripts[0].acquired.value.kind, Pages(scripts[0]), j);
    if i > 0 {
      PageHasItsPlace(scripts[1..], from + 1, i - 1, j);
      PagesBeforeStep(scripts, i);
    }
  }

  // ----- Locators -----

  /** Every locator and non-empty file name that was acquired is forbidden, and nothing else. */
  lemma {:induction false} ForbiddenAreAcquired(scripts: seq<MediaScript>, l: string)
    ensures l in ForbiddenLocators(scripts)
       <==> exists i :: 0 <= i < |scripts| && scripts[i].acquired.Some?
                     && var a := scripts[i].acquired.value; l in a.locators || (l != "" && a.filename == Some(l))
  {
    if scripts != [] {
      ForbiddenAreAcquired(scripts[1..], l);
      assert forall i :: 1 <= i < |scripts| ==> scripts[i] == scripts[1..][i - 1];
      assert scripts[0] == scripts[0];
    }
  }

  // ----- What blocks a conversion -----

  /** The failure of one page and its cause. */
  predicate PageFails(profile: Profile, kind: Modality, page: PageScript, f: GateFailure) {
    var stored, wasRead := kind.Pdf? ==> page.stored, page.ocr.Answer? && page.ocr.status.Success?;
    match f
    case ConversionFailed => !stored || page.ocr.Raised? || (wasRead && profile.Generic? && page.vision.Raised?)
    case OcrFailed => stored && page.ocr.Answer? && page.ocr.status.Failure?
    case RecognitionInsufficient => stored && page.ocr.Answer? && page.ocr.status.NoText?
    case VisionFailed => stored && wasRead && profile.Generic? && page.vision.Answer? && page.vision.status.Failure?
    case _ => false
  }

  /** The failure of the first page that does not succeed. */
  ghost predicate PagesFail(profile: Profile, kind: Modality, pages: seq<PageScript>, f: GateFailure) {
    exists j: nat :: FailsAt(profile, kind, pages, j, f)
  }

  /** The failure of one media item and its cause; a clean-up that fails hides whatever failed before. */
  ghost predicate MediaFails(profile: Profile, script: MediaScript, f: GateFailure) {
    var isOpen := script.acquired.Some? && script.created;
    match f
    case AcquisitionFailed => script.acquired.None?
    case WorkspaceFailed => script.acquired.Some? && !script.created
    case CleanupFailed => isOpen && script.cleanup.Unverified?
    case PreprocessingFailed => isOpen && script.cleanup.Raises?
    case _ =>
      && isOpen && script.cleanup.Verified?
      && var kind := script.acquired.value.kind;
      || (f.ConversionFailed? && !script.stored)
      || (f.PdfRenderFailed? && script.stored && kind.Pdf? && (script.rendered.None? || script.rendered.value == []))
      || (script.stored && PagesFail(profile, kind, Pages(script), f))
  }

  /** The failure of the first media item that does not succeed. */
  ghost predicate FirstFails(profile: Profile, scripts: seq<MediaScript>, f: GateFailure) {
    exists i :: 0 <= i < |scripts| && MediaFails(profile, scripts[i], f)
             && forall j :: 0 <= j < i ==> MediaSucceeds(profile, scripts[j])
  }

  lemma PageFailsExactly(profile: Profile, kind: Modality, page: PageScript, f: GateFailure)
    ensures PageFailure(profile, kind, page) == Some(f) <==> PageFails(profile, kind, page, f)
    ensures PageFailure(profile, kind, page).None? <==> PageSucceeds(profile, kind, page)
  {
  }

  /** Page `j` is the first that does not succeed. */
  predicate FailsAt(profile: Profile, kind: Modality, pages: seq<PageScript>, j: nat, f: GateFailure) {
    && j < |pages| && PageFails(profile, kind, pages[j], f)
    && forall i :: 0 <= i < j ==> PageSucceeds(profile, kind, pages[i])
  }

  lemma FailsAtNext(profile: Profile, kind: Modality, pages: seq<PageScript>, j: nat, f: GateFailure)
    requires pages != []
    ensures FailsAt(profile, kind, pages, j + 1, f)
       <==> PageSucceeds(profile, kind, pages[0]) && FailsAt(profile, kind, pages[1..], j, f)
  {
    hide PageFails, PageSucceeds;
    var rest := pages[1..];
    assert forall i :: 0 <= i < |rest| ==> rest[i] == pages[i + 1];
    assert forall i :: 0 < i < |pages| ==> pages[i] == rest[i - 1];
  }

  lemma PagesFailStep(profile: Profile, kind: Modality, pages: seq<PageScript>, f: GateFailure)
    requires pages != []
    ensures PagesFail(profile, kind, pages, f)
       <==> PageFails(profile, kind, pages[0], f)
            || (PageSucceeds(profile, kind, pages[0]) && PagesFail(profile, kind, pages[1..], f))
  {
    hide PageFails, PageSucceeds, FailsAt;
    FailsAtFirst(profile, kind, pages, f);
    assert FailsAt(profile, kind, pages, 0, f) ==> PagesFail(profile, kind, pages, f);
    if PagesFail(profile, kind, pages, f) {
      var j: nat :| FailsAt(profile, kind, pages, j, f);
      if j > 0 {
        FailsAtNext(profile, kind, pages, j - 1, f);
        assert FailsAt(profile, kind, pages[1..], j - 1, f);
      }
    }
    if PagesFail(profile, kind, pages[1..], f) {
      var j: nat :| FailsAt(profile, kind, pages[1..], j, f);
      FailsAtNext(profile, kind, pages, j, f);
    }
  }

  lemma FailsAtFirst(profile: Profile, kind: Modality, pages: seq<PageScript>, f: GateFailure)
    requires pages != []
    ensures FailsAt(profile, kind, pages, 0, f) <==> PageFails(profile, kind, pages[0], f)
  {
    hide PageFails;
  }

  lemma {:induction false} PagesFailExactly(profile: Profile, index: nat, kind: Modality, pages: seq<PageScript>,
                                            f: GateFailure)
    ensures ReadPages(profile, index, kind, pages) == Err(f) <==> PagesFail(profile, kind, pages, f)
    decreases pages
  {
    hide PageFailure, PageFails, PageSucceeds, PageSections;
    if pages != [] {
      hide PagesFail;
      PagesFailExactly(profile, index, kind, pages[1..], f);
      PagesFailStep(profile, kind, pages, f);
      PageFailsExactly(profile, kind, pages[0], f);
    }
  }

  lemma MediaFailsExactly(profile: Profile, index: nat, script: MediaScript, f: GateFailure)
    ensures ConvertMedia(profile, index, script) == Err(f) <==> MediaFails(profile, script, f)
  {
    hide ReadPages;
    if script.acquired.Some? {
      var kind := script.acquired.value.kind;
      PagesFailExactly(profile, index, kind, Pages(script), f);
    }
  }

  lemma {:induction false} FirstFailsExactly(profile: Profile, scripts: seq<MediaScript>, from: nat, f: GateFailure)
    requires from <= |scripts|
    ensures ConvertAll(profile, scripts, from) == Err(f)
       <==> exists i :: from <= i < |scripts| && MediaFails(profile, scripts[i], f)
                     && forall j :: from <= j < i ==> MediaSucceeds(profile, scripts[j])
    decreases |scripts| - from
  {
    hide ConvertMedia, MediaFails, MediaSucceeds;
    if from < |scripts| {
      FirstFailsExactly(profile, scripts, from + 1, f);
      MediaFailsExactly(profile, from + 1, scripts[from], f);
      MediaConverts(profile, from + 1, scripts[from]);
    }
  }

  // ----- Which media pass the gate -----

  /** Data and type that the contract admits. */
  predicate IsBounded(acquired: Acquired) {
    |acquired.encoded| <= 2_796_204 && |acquired.mime| <= 100
  }

  /** The first acquisition that fails or does not fit the contract succeeds and does not fit. */
  predicate OversizedFirst(scripts: seq<MediaScript>) {
    exists i :: 0 <= i < |scripts| && scripts[i].acquired.Some? && !IsBounded(scripts[i].acquired.value)
             && forall j :: 0 <= j < i ==> scripts[j].acquired.Some? && IsBounded(scripts[j].acquired.value)
  }

  predicate AllFit(scripts: seq<MediaScript>) {
    forall i :: 0 <= i < |scripts| ==> scripts[i].acquired.Some? && IsBounded(scripts[i].acquired.value)
  }

  lemma OversizedStep(scripts: seq<MediaScript>)
    requires scripts != []
    ensures var first := scripts[0].acquired;
            && (OversizedFirst(scripts) <==>
                  first.Some? && (!IsBounded(first.value) || OversizedFirst(scripts[1..])))
            && (AllFit(scripts) <==> first.Some? && IsBounded(first.value) && AllFit(scripts[1..]))
  {
    hide IsBounded;
    var rest := scripts[1..];
    assert forall i :: 1 <= i < |scripts| ==> scripts[i] == rest[i - 1];
    if OversizedFirst(rest) && scripts[0].acquired.Some? && IsBounded(scripts[0].acquired.value) {
      var i :| 0 <= i < |rest| && rest[i].acquired.Some? && !IsBounded(rest[i].acquired.value)
               && forall j :: 0 <= j < i ==> rest[j].acquired.Some? && IsBounded(rest[j].acquired.value);
      assert scripts[i + 1].acquired.Some? && !IsBounded(scripts[i + 1].acquired.value);
    }
    if OversizedFirst(scripts) && IsBounded(scripts[0].acquired.value) {
      var i :| 0 <= i < |scripts| && scripts[i].acquired.Some? && !IsBounded(scripts[i].acquired.value)
               && forall j :: 0 <= j < i ==> scripts[j].acquired.Some? && IsBounded(scripts[j].acquired.value);
      assert rest[i - 1].acquired.Some? && !IsBounded(rest[i - 1].acquired.value);
      assert forall j :: 0 <= j < i - 1 ==> rest[j] == scripts[j + 1];
    }
  }

  lemma {:induction false} OversizedExactly(content: seq<Part>, scripts: seq<MediaScript>)
    requires |scripts| == MediaCount(content)
    ensures NormalizeVision(content, scripts).Oversized? <==> OversizedFirst(scripts)
    ensures NormalizeVision(content, scripts).Parts? <==> AllFit(scripts)
  {
    if content == [] {
    } else if content[0].TextPart? {
      OversizedExactly(content[1..], scripts);
    } else {
      hide OversizedFirst, AllFit;
      assert scripts[0].acquired.Some? ==>
               (FitsContract(scripts[0].acquired.value) <==> IsBounded(scripts[0].acquired.value));
      hide IsBounded, FitsContract;
      OversizedStep(scripts);
      OversizedExactly(content[1..], scripts[1..]);
    }
  }

  /** The one case in which media pass the gate. */
  predicate PassesPdf(registry: Registry, request: PrepareRequest, now: real) {
    Modalities(request.content) == {Pdf} && ServesMedia(registry, request.target, {Pdf}, now)
  }

  /** What makes the gate raise while it builds the prepared payload. */
  predicate FaultyPreparation(registry: Registry, request: PrepareRequest, scripts: seq<MediaScript>, now: real) {
    var state := Resolve(registry, request.target, now);
    && (state.Vision? || state.NonVision?)
    && if Modalities(request.content) == {} then |JoinText(request.content)| > MAX_TEXT
       else
         PassesPdf(registry, request, now)
         && (OversizedFirst(scripts) || (AllFit(scripts) && |JoinText(request.content)| > MAX_TEXT))
  }

  /** The gate raises exactly for texts that are too long together, and for acquired media beyond the contract that
      pass it; a conversion never does. */
  lemma CrashesExactlyWhenFaulty(env: TextEnv, registry: Registry, request: PrepareRequest, scripts: seq<MediaScript>,
                                 now: real)
    requires OrdersLocators(env) && |scripts| == MediaCount(request.content)
    ensures Prepare(env, registry, request, scripts, now) == Crashed
       <==> FaultyPreparation(registry, request, scripts, now)
  {
    hide Extract, NormalizeVision, JoinText, OversizedFirst, AllFit;
    OversizedExactly(request.content, scripts);
    ConversionFits(env, request, scripts);
  }

  lemma ConversionFits(env: TextEnv, request: PrepareRequest, scripts: seq<MediaScript>)
    requires OrdersLocators(env) && |scripts| == MediaCount(request.content)
    ensures Convert(env, request, scripts) != Crashed
  {
    hide Extract;
    if Extract(env, request.content, request.profile, scripts).Ok? {
      StructuredIsSafe(env, request.content, request.profile, scripts);
    }
  }

  // ----- What is prepared, and how -----

  predicate IsFresh(registry: Registry, target: string, now: real) {
    && target in registry
    && (registry[target].expiresAt.Some? ==> now < registry[target].expiresAt.value)
  }

  /** Media that neither pass nor are refused: to a target that sees nothing, or sees all of them. */
  predicate MustConvert(registry: Registry, request: PrepareRequest, now: real) {
    && IsFresh(registry, request.target, now) && HasMedia(request.content)
    && var sees := registry[request.target].modalities;
       sees == {} || (Modalities(request.content) <= sees && !IsVerifiedPdf(registry, request, now))
  }

  /** Nothing but PDF, to a fresh target that sees PDF and is verified for it. */
  predicate IsVerifiedPdf(registry: Registry, request: PrepareRequest, now: real) {
    && IsFresh(registry, request.target, now) && Modalities(request.content) == {Pdf}
    && Pdf in registry[request.target].modalities && registry[request.target].pdfVerified
  }

  /** Some media are beyond what the target sees. */
  predicate IsBeyond(registry: Registry, request: PrepareRequest, now: real) {
    && IsFresh(registry, request.target, now) && registry[request.target].modalities != {}
    && !(Modalities(request.content) <= registry[request.target].modalities)
  }

  /** Every medium is replaced by what was acquired for it; every text stays. */
  ghost predicate IsPassedOn(content: seq<Part>, scripts: seq<MediaScript>, parts: seq<Part>)
    requires |scripts| == MediaCount(content)
  {
    && AllFit(scripts) && |parts| == |content|
    && forall i :: 0 <= i < |content| ==>
         if content[i].TextPart? then parts[i] == content[i]
         else
           var k := MediaCount(content[..i]);
           && k < |scripts| && scripts[k].acquired.Some?
           && var a := scripts[k].acquired.value;
              parts[i] == MediaPart(content[i].kind, Base64Source(a.encoded), None, Some(a.mime))
  }

  lemma {:induction false} CountSplits(a: seq<Part>, b: seq<Part>)
    ensures MediaCount(a + b) == MediaCount(a) + MediaCount(b)
  {
    if a == [] {
      assert a + b == b;
    } else {
      assert (a + b)[1..] == a[1..] + b;
      CountSplits(a[1..], b);
    }
  }

  lemma PartInFront(part: Part, content: seq<Part>, i: nat)
    requires 0 < i <= |content| + 1
    ensures MediaCount(([part] + content)[..i]) == (if part.MediaPart? then 1 else 0) + MediaCount(content[..i - 1])
  {
    assert ([part] + content)[..i] == [part] + content[..i - 1];
    CountSplits([part], content[..i - 1]);
    assert [part][1..] == [];
  }

  lemma {:induction false} VisionPassesOn(content: seq<Part>, scripts: seq<MediaScript>)
    requires |scripts| == MediaCount(content) && NormalizeVision(content, scripts).Parts?
    ensures IsPassedOn(content, scripts, NormalizeVision(content, scripts).parts)
  {
    OversizedExactly(content, scripts);
    if content != [] {
      hide AllFit, IsBounded;
      var first, rest := content[0], content[1..];
      var others := if first.TextPart? then scripts else scripts[1..];
      VisionPassesOn(rest, others);
      var parts, after := NormalizeVision(content, scripts).parts, NormalizeVision(rest, others).parts;
      assert content == [first] + rest && parts[1..] == after;
      forall i | 0 <= i < |content| && content[i].MediaPart?
        ensures var k := MediaCount(content[..i]);
                && k < |scripts| && scripts[k].acquired.Some?
                && var a := scripts[k].acquired.value;
                   parts[i] == MediaPart(content[i].kind, Base64Source(a.encoded), None, Some(a.mime))
      {
        if i > 0 {
          PartInFront(first, rest, i);
          assert content[i] == rest[i - 1] && parts[i] == after[i - 1];
        } else {
          assert content[..0] == [];
        }
      }
    }
  }

  /** Every text of a content is listed in its place. */
  lemma {:induction false} TextHasItsPlace(content: seq<Part>, i: nat)
    requires i < |content| && content[i].TextPart?
    ensures |Texts(content)| + MediaCount(content) == |content|
    ensures 0 <= i - MediaCount(content[..i]) < |Texts(content)|
    ensures Texts(content)[i - MediaCount(content[..i])] == content[i].text
  {
    var first, rest := content[0], content[1..];
    TextsAndMedia(rest);
    assert content == [first] + rest;
    if i > 0 {
      TextHasItsPlace(rest, i - 1);
      PartInFront(first, rest, i);
    } else {
      assert content[..0] == [];
    }
  }

  lemma {:induction false} TextsAndMedia(content: seq<Part>)
    ensures |Texts(content)| + MediaCount(content) == |content|
  {
    if content != [] {
      TextsAndMedia(content[1..]);
    }
  }

  /** The sanitizer accepts the texts of a conversion, and makes this of them. */
  ghost predicate Cleans(env: TextEnv, request: PrepareRequest, scripts: seq<MediaScript>, context: ConvertedContext)
    requires OrdersLocators(env)
  {
    && AllAcquired(scripts)
    && CleanedTexts(env, request.profile, scripts, Strip(Join("\n", Texts(request.content))), context)
  }

  ghost predicate AllSucceed(profile: Profile, scripts: seq<MediaScript>) {
    forall i :: 0 <= i < |scripts| ==> MediaSucceeds(profile, scripts[i])
  }

  /** What blocks a request, for each reason. */
  ghost predicate IsBlocked(env: TextEnv, registry: Registry, request: PrepareRequest, scripts: seq<MediaScript>,
                            now: real, f: GateFailure)
    requires OrdersLocators(env)
  {
    match f
    case CapabilityUnknown => request.target !in registry
    case CapabilityStale => request.target in registry && !IsFresh(registry, request.target, now)
    case UnsupportedModality => IsBeyond(registry, request, now)
    case SanitizationFailed =>
      && MustConvert(registry, request, now) && AllSucceed(request.profile, scripts)
      && forall context :: !Cleans(env, request, scripts, context)
    case _ =>
      || (MustConvert(registry, request, now) && FirstFails(request.profile, scripts, f))
      || (IsVerifiedPdf(registry, request, now) && f.AcquisitionFailed? && NotAcquiredFirst(scripts))
  }

  /** The first acquisition that does not give what passes fails. */
  predicate NotAcquiredFirst(scripts: seq<MediaScript>) {
    exists i :: 0 <= i < |scripts| && scripts[i].acquired.None?
             && forall j :: 0 <= j < i ==> scripts[j].acquired.Some? && IsBounded(scripts[j].acquired.value)
  }

  /** What a conversion prepares. */
  ghost predicate IsConverted(env: TextEnv, registry: Registry, request: PrepareRequest, scripts: seq<MediaScript>,
                              now: real, p: Prepared)
    requires OrdersLocators(env)
  {
    && MustConvert(registry, request, now) && AllSucceed(request.profile, scripts)
    && exists context :: Cleans(env, request, scripts, context)
         && p == Prepared(request.target, NonVision, Converted, [TextPart(context.structured)], context.structured)
  }

  /** What a passthrough prepares: a text as it is, or verified PDF as acquired, if the texts fit together. */
  ghost predicate IsPassedThrough(registry: Registry, request: PrepareRequest, scripts: seq<MediaScript>, now: real,
                                  p: Prepared)
    requires |scripts| == MediaCount(request.content)
  {
    var joined := Strip(Join("\n", Texts(request.content)));
    && IsFresh(registry, request.target, now) && |joined| <= MAX_TEXT
    && p.target == request.target && p.action.Passthrough? && p.text == joined
    && p.capability == (if registry[request.target].modalities == {} then NonVision else Vision)
    && if HasMedia(request.content) then
         IsVerifiedPdf(registry, request, now) && IsPassedOn(request.content, scripts, p.content)
       else p.content == request.content
  }

  lemma NothingFailsSo(profile: Profile, scripts: seq<MediaScript>, f: GateFailure)
    requires f in {CapabilityUnknown, CapabilityStale, UnsupportedModality, SanitizationFailed, MediaRequired}
    ensures !FirstFails(profile, scripts, f)
  {
    hide MediaSucceeds, PageSucceeds;
    assert forall kind, page :: !PageFails(profile, kind, page, f);
    assert forall script :: !MediaFails(profile, script, f);
  }

  lemma {:induction false} MediaAreCounted(content: seq<Part>)
    ensures HasMedia(content) <==> MediaCount(content) > 0
  {
    if content != [] {
      var rest := content[1..];
      MediaAreCounted(rest);
      assert forall i :: 1 <= i < |content| ==> content[i] == rest[i - 1];
      if HasMedia(rest) {
        var i :| 0 <= i < |rest| && rest[i].MediaPart?;
        assert content[i + 1].MediaPart?;
      }
    }
  }

  lemma ConvertsExactly(env: TextEnv, request: PrepareRequest, scripts: seq<MediaScript>)
    requires OrdersLocators(env) && |scripts| == MediaCount(request.content) && scripts != []
    ensures var r := Convert(env, request, scripts);
            && (forall f :: r == Blocked(f) <==>
                  FirstFails(request.profile, scripts, f)
                  || (f.SanitizationFailed? && AllSucceed(request.profile, scripts)
                      && forall context :: !Cleans(env, request, scripts, context)))
            && (forall p :: r == Ready(p) <==>
                  AllSucceed(request.profile, scripts)
                  && exists context :: Cleans(env, request, scripts, context)
                       && p == Prepared(request.target, NonVision, Converted, [TextPart(context.structured)],
                                        context.structured))
  {
    hide Extract, MediaSucceeds, FirstFails, CleanedTexts;
    var profile, extracted := request.profile, Extract(env, request.content, request.profile, scripts);
    ExtractsExactly(env, request, scripts);
    CleansOnce(env, request, scripts);
    ConversionFits(env, request, scripts);
    NothingFailsSo(profile, scripts, SanitizationFailed);
    forall f | FirstFails(profile, scripts, f) ensures !AllSucceed(profile, scripts) {
      FailureIsNoSuccess(profile, scripts, f);
    }
  }

  lemma FailureIsNoSuccess(profile: Profile, scripts: seq<MediaScript>, f: GateFailure)
    requires FirstFails(profile, scripts, f)
    ensures !AllSucceed(profile, scripts)
  {
    hide MediaFails, MediaSucceeds;
    var i :| 0 <= i < |scripts| && MediaFails(profile, scripts[i], f);
    MediaFailsExactly(profile, 1, scripts[i], f);
    MediaConverts(profile, 1, scripts[i]);
  }

  lemma CleansOnce(env: TextEnv, request: PrepareRequest, scripts: seq<MediaScript>)
    requires OrdersLocators(env)
    ensures forall c, d :: Cleans(env, request, scripts, c) && Cleans(env, request, scripts, d) ==>
              c.structured == d.structured
  {
    hide Sanitize, AllOcrTexts, AllBlocks, AllDescriptions, Join, Strip;
  }

  /** An extraction fails as its first failing medium does, or at the sanitizer. */
  lemma ExtractsExactly(env: TextEnv, request: PrepareRequest, scripts: seq<MediaScript>)
    requires OrdersLocators(env) && |scripts| == MediaCount(request.content) && scripts != []
    ensures var r := Extract(env, request.content, request.profile, scripts);
            && (r.Ok? ==> AllSucceed(request.profile, scripts) && Cleans(env, request, scripts, r.value))
            && (r.Err? && AllSucceed(request.profile, scripts) ==> r.error.SanitizationFailed?)
            && (!AllSucceed(request.profile, scripts) ==>
                  r.Err? && forall f :: r.error == f <==> FirstFails(request.profile, scripts, f))
            && (AllSucceed(request.profile, scripts) && r.Err? ==>
                  forall context :: !Cleans(env, request, scripts, context))
  {
    hide MediaSucceeds, MediaFails, ConvertAll, Conclude, CleanedTexts, Kinds, ForbiddenLocators;
    var profile := request.profile;
    ExtractionSucceeds(env, request.content, profile, scripts);
    AllConvert(profile, scripts, 0);
    forall f ensures ConvertAll(profile, scripts, 0) == Err(f) <==> FirstFails(profile, scripts, f) {
      FirstFailsExactly(profile, scripts, 0, f);
    }
    if AllSucceed(profile, scripts) {
      ConvertedHaveKinds(profile, scripts, 0);
      ConcludesExactly(env, request, scripts);
    }
  }

  /** Once everything has succeeded, only a sanitizer can refuse. */
  lemma ConcludesExactly(env: TextEnv, request: PrepareRequest, scripts: seq<MediaScript>)
    requires OrdersLocators(env) && ConvertAll(request.profile, scripts, 0).Ok? && AllAcquired(scripts)
    ensures var sections := ConvertAll(request.profile, scripts, 0).value;
            var r := Conclude(env, JoinText(request.content), sections, ForbiddenLocators(scripts), Kinds(scripts));
            r.Err? ==> forall context :: !Cleans(env, request, scripts, context)
  {
    hide ConvertAll, Sanitize, AllOcrTexts, AllBlocks, AllDescriptions, Join, Strip, Texts;
    TextsInOrder(request.profile, scripts, 0);
    assert scripts[0..] == scripts;
  }

  lemma VisionExactly(content: seq<Part>, scripts: seq<MediaScript>)
    requires |scripts| == MediaCount(content)
    ensures NormalizeVision(content, scripts).NotAcquired? <==> NotAcquiredFirst(scripts)
    ensures forall parts :: NormalizeVision(content, scripts) == Parts(parts) <==> IsPassedOn(content, scripts, parts)
  {
    hide AllFit, OversizedFirst, NotAcquiredFirst, MediaCount;
    OversizedExactly(content, scripts);
    OneOfThree(scripts);
    var r := NormalizeVision(content, scripts);
    if r.Parts? {
      VisionPassesOn(content, scripts);
      forall parts | IsPassedOn(content, scripts, parts) ensures parts == r.parts {
        assert forall i :: 0 <= i < |parts| ==> parts[i] == r.parts[i];
      }
    }
  }

  lemma {:induction false} OneOfThree(scripts: seq<MediaScript>)
    ensures !(AllFit(scripts) && OversizedFirst(scripts)) && !(AllFit(scripts) && NotAcquiredFirst(scripts))
    ensures !(OversizedFirst(scripts) && NotAcquiredFirst(scripts))
    ensures AllFit(scripts) || OversizedFirst(scripts) || NotAcquiredFirst(scripts)
  {
    hide IsBounded;
    if !AllFit(scripts) {
      var i := FirstUnfit(scripts);
    }
  }

  lemma {:induction false} FirstUnfit(scripts: seq<MediaScript>) returns (i: nat)
    requires !AllFit(scripts)
    ensures i < |scripts| && !(scripts[i].acquired.Some? && IsBounded(scripts[i].acquired.value))
    ensures forall j :: 0 <= j < i ==> scripts[j].acquired.Some? && IsBounded(scripts[j].acquired.value)
  {
    hide IsBounded;
    if scripts[0].acquired.Some? && IsBounded(scripts[0].acquired.value) {
      assert forall k :: 1 <= k < |scripts| ==> scripts[k] == scripts[1..][k - 1];
      var r := FirstUnfit(scripts[1..]);
      i := r + 1;
    } else {
      i := 0;
    }
  }

  /** The branches of the gate, told apart by request and registry. */
  lemma Branches(env: TextEnv, registry: Registry, request: PrepareRequest, scripts: seq<MediaScript>, now: real)
    requires OrdersLocators(env) && |scripts| == MediaCount(request.content)
    ensures var r := Prepare(env, registry, request, scripts, now);
            var joined := JoinText(request.content);
            if request.target !in registry then r == Blocked(CapabilityUnknown)
            else if !IsFresh(registry, request.target, now) then r == Blocked(CapabilityStale)
            else
              var capability := if registry[request.target].modalities == {} then NonVision else Vision;
              if !HasMedia(request.content) then
                r == Finish(request.target, capability, Passthrough, request.content, joined)
              else if IsBeyond(registry, request, now) then r == Blocked(UnsupportedModality)
              else if IsVerifiedPdf(registry, request, now) then
                match NormalizeVision(request.content, scripts)
                case NotAcquired => r == Blocked(AcquisitionFailed)
                case Oversized => r == Crashed
                case Parts(parts) => r == Finish(request.target, Vision, Passthrough, parts, joined)
              else MustConvert(registry, request, now) && r == Convert(env, request, scripts)
  {
    hide Convert, NormalizeVision, Finish, JoinText, MediaCount;
  }

  lemma BlocksExactly(env: TextEnv, registry: Registry, request: PrepareRequest, scripts: seq<MediaScript>, now: real,
                      f: GateFailure)
    requires OrdersLocators(env) && |scripts| == MediaCount(request.content)
    ensures Prepare(env, registry, request, scripts, now) == Blocked(f)
       <==> IsBlocked(env, registry, request, scripts, now, f)
  {
    hide Convert, NormalizeVision, JoinText, MediaCount, FirstFails, AllSucceed, Cleans, NotAcquiredFirst, Prepare;
    Branches(env, registry, request, scripts, now);
    MediaAreCounted(request.content);
    VisionExactly(request.content, scripts);
    if scripts != [] {
      ConvertsExactly(env, request, scripts);
    }
    if f in {CapabilityUnknown, CapabilityStale, UnsupportedModality, SanitizationFailed} {
      NothingFailsSo(request.profile, scripts, f);
    }
  }

  lemma ReadiesExactly(env: TextEnv, registry: Registry, request: PrepareRequest, scripts: seq<MediaScript>,
                       now: real, p: Prepared)
    requires OrdersLocators(env) && |scripts| == MediaCount(request.content)
    ensures Prepare(env, registry, request, scripts, now) == Ready(p)
       <==> IsConverted(env, registry, request, scripts, now, p) || IsPassedThrough(registry, request, scripts, now, p)
  {
    hide Convert, NormalizeVision, MediaCount, AllSucceed, Cleans, IsPassedOn, Prepare, Texts, Join, Strip;
    Branches(env, registry, request, scripts, now);
    MediaAreCounted(request.content);
    VisionExactly(request.content, scripts);
    if scripts != [] {
      ConvertsExactly(env, request, scripts);
    }
  }

  /** The exact outcome of the gate: which requests it blocks, each for its own cause, and what it makes of others. */
  lemma PreparesExactly(env: TextEnv, registry: Registry, request: PrepareRequest, scripts: seq<MediaScript>, now: real)
    requires OrdersLocators(env) && |scripts| == MediaCount(request.content)
    ensures var r := Prepare(env, registry, request, scripts, now);
            && (forall f :: r == Blocked(f) <==> IsBlocked(env, registry, request, scripts, now, f))
            && (forall p :: r == Ready(p) <==>
                  IsConverted(env, registry, request, scripts, now, p)
                  || IsPassedThrough(registry, request, scripts, now, p))
  {
    hide Prepare, IsBlocked, IsConverted, IsPassedThrough;
    forall f
      ensures Prepare(env, registry, request, scripts, now) == Blocked(f)
         <==> IsBlocked(env, registry, request, scripts, now, f)
    {
      BlocksExactly(env, registry, request, scripts, now, f);
    }
    forall p
      ensures Prepare(env, registry, request, scripts, now) == Ready(p)
         <==> IsConverted(env, registry, request, scripts, now, p)
              || IsPassedThrough(registry, request, scripts, now, p)
    {
      ReadiesExactly(env, registry, request, scripts, now, p);
    }
  }
}
