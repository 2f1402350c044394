/** What the transaction rebuilds for the provider normalizes back to what it was built from. */
module ReadBack {
  import opened Common
  import opened Contracts
  import opened Gate
  import opened Json
  import opened Normalizer
  import opened Preparation
  import opened Sealing
  import opened StateStore

  const IMAGE_TYPES := ["image/png", "image/jpeg", "image/webp"]

  /** What is left of a part after rebuilding: file names are dropped, an image without a type becomes PNG. */
  function Forwarded(part: Part): Part {
    if part.TextPart? then part
    else if part.kind.Pdf? then MediaPart(Pdf, part.source, None, Some("application/pdf"))
    else
      MediaPart(Image, part.source, None,
                Some(if part.mime.Some? && part.mime.value != "" then part.mime.value else "image/png"))
  }

  function AllForwarded(content: seq<Part>): seq<Part> {
    if content == [] then [] else [Forwarded(content[0])] + AllForwarded(content[1..])
  }

  /** Text within the contract, or base64 data of a type the normalizer admits. */
  predicate Forwardable(env: Locators, part: Part) {
    if part.TextPart? then |part.text| <= MAX_TEXT
    else
      && part.source.Base64Source? && 0 < |part.source.data| <= MAX_BASE64 && env.base64Ok(part.source.data)
      && (part.kind.Image? ==> Forwarded(part).mime.value in IMAGE_TYPES)
  }

  function Header(mime: string): string {
    "data:" + mime + ";base64,"
  }

  lemma HeadersDiffer(a: string, b: string, data: string)
    requires |a| > 6 && |b| > 6 && a[6] != b[6]
    ensures !(Header(a) <= Header(b) + data)
  {
    assert Header(a)[11] == a[6] && (Header(b) + data)[11] == b[6];
  }

  /** The data URI written for a type is read back as that type and the same data, behind types that differ from it. */
  lemma {:induction false} DataUriReadsBack(env: Locators, mime: string, data: string, allowed: seq<string>)
    requires data != "" && env.base64Ok(data) && mime in allowed && |mime| > 6
    requires forall i :: 0 <= i < |allowed| && allowed[i] != mime ==> |allowed[i]| > 6 && allowed[i][6] != mime[6]
    ensures DataUri(env, Header(mime) + data, allowed) == Ok((mime, data))
  {
    var value := Header(mime) + data;
    assert allowed == [allowed[0]] + allowed[1..];
    if allowed[0] == mime {
      assert value[|Header(mime)|..] == data;
    } else {
      HeadersDiffer(allowed[0], mime, data);
      DataUriReadsBack(env, mime, data, allowed[1..]);
    }
  }

  lemma ImageUriReadsBack(env: Locators, mime: string, data: string)
    requires data != "" && env.base64Ok(data) && mime in IMAGE_TYPES
    ensures DataUri(env, Header(mime) + data, IMAGE_TYPES) == Ok((mime, data))
  {
    hide DataUri, Header;
    assert IMAGE_TYPES[0][6] == 'p' && IMAGE_TYPES[1][6] == 'j' && IMAGE_TYPES[2][6] == 'w';
    assert |IMAGE_TYPES[0]| == 9 && |IMAGE_TYPES[1]| == 10 && |IMAGE_TYPES[2]| == 10;
    DataUriReadsBack(env, mime, data, IMAGE_TYPES);
  }

  lemma PdfUriReadsBack(env: Locators, data: string)
    requires data != "" && env.base64Ok(data)
    ensures DataUri(env, Header("application/pdf") + data, ["application/pdf"]) == Ok(("application/pdf", data))
  {
    hide DataUri, Header;
    DataUriReadsBack(env, "application/pdf", data, ["application/pdf"]);
  }

  // ----- One item -----

  lemma TextReadsBack(env: Locators, part: Part)
    requires part.TextPart? && Forwardable(env, part)
    ensures ContentPart(env, TextItem(part.text)) == Ok(part)
  {
    hide ImagePart, PdfPart;
    assert "type"[1] == 'y' && "text"[1] == 'e';
    var item := TextItem(part.text);
    assert item.Get("type") == Str("input_text") && item.Get("text") == Str(part.text);
    assert item.fields.Keys == {"type", "text"};
  }

  lemma PdfReadsBack(env: Locators, part: Part)
    requires part.MediaPart? && part.kind.Pdf? && Forwardable(env, part)
    ensures MediaItem(part).Some? && ContentPart(env, MediaItem(part).value) == Ok(Forwarded(part))
  {
    hide ImagePart, DataUri;
    PdfUriReadsBack(env, part.source.data);
    assert Header("application/pdf") == "data:application/pdf;base64,";
    var item := MediaItem(part).value;
    ItemKeys("input_file", "file_data", "data:application/pdf;base64," + part.source.data);
  }

  lemma ImageReadsBack(env: Locators, part: Part)
    requires part.MediaPart? && part.kind.Image? && Forwardable(env, part)
    ensures MediaItem(part).Some? && ContentPart(env, MediaItem(part).value) == Ok(Forwarded(part))
  {
    hide PdfPart, DataUri;
    var mime := Forwarded(part).mime.value;
    ImageUriReadsBack(env, mime, part.source.data);
    var uri := "data:" + mime + ";base64," + part.source.data;
    assert uri == Header(mime) + part.source.data;
    assert "data:" <= uri;
    var item := MediaItem(part).value;
    ItemKeys("input_image", "image_url", uri);
  }

  /** An item of two fields has no other. */
  lemma ItemKeys(kind: string, key: string, locator: string)
    requires key == "image_url" || key == "file_data"
    ensures var item := Obj(map["type" := Str(kind), key := Str(locator)]);
            && item.fields.Keys == {"type", key} && item.Get("type") == Str(kind) && item.Get(key) == Str(locator)
            && item.Get("asset_id").Null? && item.Get("detail").Null? && item.Get("filename").Null?
            && !HasProviderId(item)
  {
    assert |"image_url"| == 9 && |"file_data"| == 9 && |"type"| == 4 && |"asset_id"| == 8 && |"detail"| == 6;
    assert |"filename"| == 8 && |"file_id"| == 7 && |"file_url"| == 8;
  }

  // ----- What an accepted item says -----

  lemma {:induction false} DataUriIsSpelled(env: Locators, value: string, allowed: seq<string>)
    ensures var r := DataUri(env, value, allowed);
            r.Ok? ==> && r.value.0 in allowed && value == Header(r.value.0) + r.value.1
                      && r.value.1 != "" && env.base64Ok(r.value.1)
  {
    if allowed != [] {
      DataUriIsSpelled(env, value, allowed[1..]);
      var header := Header(allowed[0]);
      assert header <= value ==> value == header + value[|header|..];
    }
  }

  /** The data of an inline medium: decodable, within the contract, and of the given type. */
  predicate IsInline(env: Locators, locator: Json, mime: string, data: string) {
    && locator == Str(Header(mime) + data) && 0 < |data| <= MAX_BASE64 && env.base64Ok(data)
  }

  predicate HasNoId(item: Json, allowed: set<string>)
    requires item.Obj?
  {
    item.fields.Keys <= allowed && item.Get("file_id").Null? && item.Get("file_url").Null?
  }

  const IMAGE_FIELDS := {"type", "image_url", "asset_id", "detail", "file_id", "file_url"}
  const FILE_FIELDS := {"type", "file_data", "asset_id", "filename", "file_id", "file_url"}

  /** An image item whose asset, URL or inline data is the source of the part. */
  predicate DescribesImage(env: Locators, item: Json, part: Part)
    requires item.Obj? && part.MediaPart?
  {
    var asset, locator, detail := item.Get("asset_id"), item.Get("image_url"), item.Get("detail");
    && item.Get("type") == Str("input_image") && HasNoId(item, IMAGE_FIELDS)
    && detail in {Null, Str("auto"), Str("low"), Str("high")}
    && part.kind.Image? && part.filename.None?
    && match part.source
       case AssetSource(id) => asset == Str(id) && IsAssetId(id) && locator.Null? && part.mime.None?
       case UrlSource(url) =>
         && asset.Null? && locator == Str(url) && part.mime.None?
         && "https://" <= url && |url| <= 2048 && env.url(url).UrlAccepted?
       case Base64Source(data) =>
         asset.Null? && part.mime.Some? && part.mime.value in IMAGE_TYPES
         && IsInline(env, locator, part.mime.value, data)
  }

  /** A file item whose asset or inline data is the source of the part, with its name. */
  predicate DescribesFile(env: Locators, item: Json, part: Part)
    requires item.Obj? && part.MediaPart?
  {
    var asset, locator, name := item.Get("asset_id"), item.Get("file_data"), part.filename;
    && item.Get("type") == Str("input_file") && HasNoId(item, FILE_FIELDS)
    && item.Get("filename") == (if name.Some? then Str(name.value) else Null)
    && (name.Some? ==> |name.value| <= 255)
    && part.kind.Pdf? && part.mime == Some("application/pdf")
    && match part.source
       case AssetSource(id) => asset == Str(id) && IsAssetId(id) && locator.Null?
       case UrlSource(_) => false
       case Base64Source(data) => asset.Null? && IsInline(env, locator, "application/pdf", data)
  }

  predicate Describes(env: Locators, item: Json, part: Part) {
    && item.Obj?
    && match part
       case TextPart(text) =>
         && item.Get("type") == Str("input_text") && item.Get("text") == Str(text)
         && item.fields.Keys == {"type", "text"} && |text| <= MAX_TEXT
       case MediaPart(_, _, _, _) => DescribesImage(env, item, part) || DescribesFile(env, item, part)
  }

  lemma HttpsIsNoData(url: string)
    ensures "https://" <= url ==> !("data:" <= url)
  {
    assert "https://"[0] == 'h' && "data:"[0] == 'd';
  }

  lemma ImageDescribed(env: Locators, item: Json, part: Part)
    requires item.Obj? && item.Get("type") == Str("input_image")
    ensures ImagePart(env, item) == Ok(part) <==> part.MediaPart? && DescribesImage(env, item, part)
  {
    hide DataUri, IsAssetId, Header;
    var locator := item.Get("image_url");
    if locator.Str? {
      HttpsIsNoData(locator.text);
      DataUriIsSpelled(env, locator.text, IMAGE_TYPES);
      if part.MediaPart? && part.source.Base64Source? && part.mime.Some? && DescribesImage(env, item, part) {
        ImageUriReadsBack(env, part.mime.value, part.source.data);
        HeaderIsData(part.mime.value, part.source.data);
      }
    }
  }

  lemma HeaderIsData(mime: string, data: string)
    ensures "data:" <= Header(mime) + data
  {
    assert Header(mime) + data == "data:" + (mime + ";base64," + data);
  }

  lemma FileDescribed(env: Locators, item: Json, part: Part)
    requires item.Obj? && item.Get("type") == Str("input_file")
    ensures PdfPart(env, item) == Ok(part) <==> part.MediaPart? && DescribesFile(env, item, part)
  {
    hide DataUri, IsAssetId, Header;
    var locator := item.Get("file_data");
    if locator.Str? {
      DataUriIsSpelled(env, locator.text, ["application/pdf"]);
      if part.MediaPart? && part.source.Base64Source? && DescribesFile(env, item, part) {
        PdfUriReadsBack(env, part.source.data);
      }
    }
  }

  /** A content item is accepted exactly as the part its fields describe: kind, source, name and type. */
  lemma AcceptsExactly(env: Locators, item: Json, part: Part)
    ensures ContentPart(env, item) == Ok(part) <==> Describes(env, item, part)
  {
    hide ImagePart, PdfPart, DescribesImage, DescribesFile;
    KindsDiffer();
    if item.Obj? && item.Get("type") == Str("input_image") {
      ImageDescribed(env, item, part);
    } else if item.Obj? && item.Get("type") == Str("input_file") {
      FileDescribed(env, item, part);
    }
    if item.Obj? && part.MediaPart? {
      DescribedTypes(env, item, part);
    }
  }

  lemma KindsDiffer()
    ensures "input_text" != "input_image" && "input_text" != "input_file" && "input_image" != "input_file"
  {
    assert |"input_text"| == 10 && |"input_file"| == 10 && |"input_image"| == 11;
    assert "input_text"[6] == 't' && "input_file"[6] == 'f';
  }

  lemma DescribedTypes(env: Locators, item: Json, part: Part)
    requires item.Obj? && part.MediaPart?
    ensures DescribesImage(env, item, part) ==> item.Get("type") == Str("input_image")
    ensures DescribesFile(env, item, part) ==> item.Get("type") == Str("input_file")
  {
  }

  // ----- Which requests are accepted -----

  /** Item `i` is the last of the user, and no other item holds media. */
  ghost predicate IsLastOfUser(items: seq<Json>, i: int) {
    && 0 <= i < |items| && items[i].Obj? && items[i].Get("role") == Str("user")
    && (forall k :: i < k < |items| ==> !(items[k].Obj? && items[k].Get("role") == Str("user")))
  }

  /** A message of nothing but the known fields, each as it has to be. */
  ghost predicate IsPlainMessage(message: Json) {
    && message.Obj? && (forall key :: key in message.fields ==> key in {"id", "type", "status", "role", "content"})
    && message.Get("type") in {Null, Str("message")} && (message.Get("id").Null? || message.Get("id").Str?)
    && message.Get("status") in {Null, Str("in_progress"), Str("completed")} && "content" in message.fields
  }

  /** What the user currently asks: the input itself, or the content of the last message of the user. */
  ghost predicate Asks(input: Json, content: Json) {
    || (input.Str? && content == input)
    || (input.List? && exists i :: AsksAt(input.items, i, content))
  }

  ghost predicate AsksAt(items: seq<Json>, i: int, content: Json) {
    && IsLastOfUser(items, i) && IsPlainMessage(items[i]) && content == items[i].fields["content"]
    && forall k :: 0 <= k < |items| && k != i ==> !ContainsMedia(items[k])
  }

  lemma SelectsExactly(input: Json, content: Json)
    ensures SelectCurrent(input) == Ok(content) <==> Asks(input, content)
  {
    hide ContainsMedia;
    if input.List? {
      if i: int :| AsksAt(input.items, i, content) {
        assert LastUser(input.items) == Some(i);
      }
      if LastUser(input.items).Some? {
        var last: int := LastUser(input.items).value;
        assert IsLastOfUser(input.items, last);
        assert SelectCurrent(input) == Ok(content) ==> AsksAt(input.items, last, content);
      }
    }
  }

  /** The content that an accepted input stands for: one text, or the parts its items describe, in order. */
  ghost predicate StandsFor(env: Locators, content: Json, parts: seq<Part>) {
    || (content.Str? && 1 <= |content.text| <= MAX_TEXT && parts == [TextPart(content.text)])
    || (content.List? && content.items != [] && |parts| == |content.items|
        && forall i :: 0 <= i < |parts| ==> Describes(env, content.items[i], parts[i]))
  }

  lemma {:induction false} PartsDescribed(env: Locators, items: seq<Json>, parts: seq<Part>)
    ensures ContentParts(env, items) == Ok(parts)
       <==> |parts| == |items| && forall i :: 0 <= i < |parts| ==> Describes(env, items[i], parts[i])
    decreases items
  {
    hide ContentPart, Describes;
    if items != [] && parts != [] {
      AcceptsExactly(env, items[0], parts[0]);
      PartsDescribed(env, items[1..], parts[1..]);
      assert parts == [parts[0]] + parts[1..];
      assert forall i :: 1 <= i < |items| ==> items[i] == items[1..][i - 1];
      assert forall i :: 1 <= i < |parts| ==> parts[i] == parts[1..][i - 1];
    }
  }

  lemma ReadsExactly(env: Locators, content: Json, parts: seq<Part>)
    ensures CurrentContent(env, content) == Ok(parts) <==> StandsFor(env, content, parts)
  {
    hide ContentPart, Describes;
    if content.List? {
      PartsDescribed(env, content.items, parts);
    }
  }

  /** The state a request continues is the one it names; a request that names none continues none. */
  ghost predicate NamesState(payload: Json, state: Option<Record>)
    requires payload.Obj?
  {
    var id := payload.Get("previous_response_id");
    if state.None? then id.Null? else id == Str(state.value.responseId)
  }

  ghost predicate HoldsPdf(parts: seq<Part>) {
    exists i :: 0 <= i < |parts| && parts[i].MediaPart? && parts[i].kind.Pdf?
  }

  /** What an accepted request is: its input read, behind the remembered text, for the model it names. */
  ghost predicate IsAcceptedAs(env: Locators, payload: Json, state: Option<Record>, n: Normalized) {
    && payload.Obj? && payload.Get("conversation").Null? && NamesState(payload, state)
    && (forall key :: key in payload.fields && key != "input" ==> !ContainsMedia(payload.fields[key]))
    && "input" in payload.fields
    && n.previous == state && payload.Get("model") == Str(n.request.target) && IsTargetId(n.request.target)
    && 1 <= |n.request.content| <= MAX_PARTS
    && exists content, parts ::
         && Asks(payload.fields["input"], content) && StandsFor(env, content, parts)
         && n.request.content
            == (if state.Some? && state.value.text != "" then [TextPart(state.value.text)] else []) + parts
         && n.inputHadMedia == HasMedia(parts)
         && n.request.profile == (if HoldsPdf(parts) then Document else ErrorScreenshot)
  }

  /** The normalizer accepts exactly those, as exactly that. */
  lemma NormalizesExactly(env: Locators, payload: Json, state: Option<Record>, n: Normalized)
    ensures Normalize(env, payload, state) == Ok(n) <==> IsAcceptedAs(env, payload, state, n)
  {
    hide SelectCurrent, CurrentContent, Asks, StandsFor, ContainsMedia, IsTargetId, HasMedia, Modalities;
    if Normalize(env, payload, state) == Ok(n) {
      NormalizedSteps(env, payload, state);
      var content := SelectCurrent(payload.fields["input"]).value;
      var parts := CurrentContent(env, content).value;
      SelectsExactly(payload.fields["input"], content);
      ReadsExactly(env, content, parts);
    }
    if IsAcceptedAs(env, payload, state, n) {
      var content, parts :| Asks(payload.fields["input"], content) && StandsFor(env, content, parts)
        && n.request.content
           == (if state.Some? && state.value.text != "" then [TextPart(state.value.text)] else []) + parts
        && n.inputHadMedia == HasMedia(parts)
        && n.request.profile == (if HoldsPdf(parts) then Document else ErrorScreenshot);
      SelectsExactly(payload.fields["input"], content);
      ReadsExactly(env, content, parts);
      PdfIsAmongModalities(parts);
    }
  }

  lemma PdfIsAmongModalities(parts: seq<Part>)
    ensures Pdf in Modalities(parts) <==> HoldsPdf(parts)
  {
  }

  /** The request may be read: an object, no conversation, the state it names, and no media outside its input. */
  ghost predicate MayBeRead(payload: Json, state: Option<Record>) {
    && payload.Obj? && payload.Get("conversation").Null? && NamesState(payload, state)
    && forall key :: key in payload.fields && key != "input" ==> !ContainsMedia(payload.fields[key])
  }

  const REQUEST_CODES := {ConversationUnsupported, StateMissing, UnsafeMediaReference, UnsafeHistoryMedia}

  lemma ItemCodes(env: Locators, item: Json)
    ensures var r := ContentPart(env, item); r.Err? && r.error.Rejected? ==> r.error.code !in REQUEST_CODES
  {
    hide IsAssetId, HasProviderId, DataUri;
    if item.Obj? {
      if item.Get("image_url").Str? {
        DataUriCodes(env, item.Get("image_url").text, IMAGE_TYPES);
      }
      if item.Get("file_data").Str? {
        DataUriCodes(env, item.Get("file_data").text, ["application/pdf"]);
      }
    }
  }

  lemma {:induction false} DataUriCodes(env: Locators, value: string, allowed: seq<string>)
    ensures var r := DataUri(env, value, allowed); r.Err? && r.error.Rejected? ==> r.error.code !in REQUEST_CODES
  {
    if allowed != [] {
      DataUriCodes(env, value, allowed[1..]);
    }
  }

  lemma {:induction false} ContentCodes(env: Locators, items: seq<Json>)
    ensures var r := ContentParts(env, items); r.Err? && r.error.Rejected? ==> r.error.code !in REQUEST_CODES
  {
    hide ContentPart;
    if items != [] {
      ItemCodes(env, items[0]);
      ContentCodes(env, items[1..]);
    }
  }

  /** Each of the reasons that concern the whole request is given exactly for its own cause. */
  lemma RejectedForItsReason(env: Locators, payload: Json, state: Option<Record>)
    ensures var r := Normalize(env, payload, state);
            && (r == Err(Rejected(ConversationUnsupported)) <==>
                  payload.Obj? && !payload.Get("conversation").Null?)
            && (r == Err(Rejected(StateMissing)) <==>
                  payload.Obj? && payload.Get("conversation").Null? && !NamesState(payload, state)
                  && (payload.Get("previous_response_id").Null? || payload.Get("previous_response_id").Str?))
            && (r == Err(Rejected(UnsafeMediaReference)) <==>
                  payload.Obj? && payload.Get("conversation").Null? && NamesState(payload, state)
                  && !MayBeRead(payload, state))
            && (r == Err(Rejected(UnsafeHistoryMedia)) <==>
                  MayBeRead(payload, state) && "input" in payload.fields && payload.fields["input"].List?
                  && var items := payload.fields["input"].items;
                     exists i, k :: IsLastOfUser(items, i) && 0 <= k < |items| && k != i && ContainsMedia(items[k]))
  {
    hide CurrentContent, ContainsMedia, IsTargetId, Modalities, HasMedia;
    if payload.Obj? && "input" in payload.fields {
      var input := payload.fields["input"];
      HistoryIsUnsafe(input);
      if SelectCurrent(input).Ok? {
        CurrentCodes(env, SelectCurrent(input).value);
      }
    }
  }

  lemma CurrentCodes(env: Locators, content: Json)
    ensures var r := CurrentContent(env, content); r.Err? && r.error.Rejected? ==> r.error.code !in REQUEST_CODES
  {
    hide ContentParts;
    if content.List? {
      ContentCodes(env, content.items);
    }
  }

  lemma HistoryIsUnsafe(input: Json)
    ensures SelectCurrent(input) == Err(Rejected(UnsafeHistoryMedia)) <==>
              input.List? && exists i, k :: IsLastOfUser(input.items, i) && 0 <= k < |input.items| && k != i
                                         && ContainsMedia(input.items[k])
    ensures SelectCurrent(input) != Err(Rejected(ConversationUnsupported))
    ensures SelectCurrent(input) != Err(Rejected(StateMissing))
    ensures SelectCurrent(input) != Err(Rejected(UnsafeMediaReference))
  {
    hide ContainsMedia;
    if input.List? {
      if i, k :| IsLastOfUser(input.items, i) && 0 <= k < |input.items| && k != i && ContainsMedia(input.items[k]) {
        assert LastUser(input.items) == Some(i);
      }
      if LastUser(input.items).Some? {
        var last: int := LastUser(input.items).value;
        assert IsLastOfUser(input.items, last);
      }
    }
  }

  // ----- Whole messages -----

  lemma {:induction false} ItemsReadBack(env: Locators, content: seq<Part>)
    requires forall i :: 0 <= i < |content| ==> Forwardable(env, content[i])
    ensures ContentItems(content).Some? && ContentParts(env, ContentItems(content).value) == Ok(AllForwarded(content))
  {
    hide ContentPart, MediaItem, Forwarded, TextItem, Forwardable;
    if content != [] {
      ItemsReadBack(env, content[1..]);
      PartReadsBack(env, content[0]);
      var items := ContentItems(content).value;
      assert items[1..] == ContentItems(content[1..]).value;
    }
  }

  lemma PartReadsBack(env: Locators, part: Part)
    requires Forwardable(env, part)
    ensures ContentItem(part).Some? && ContentPart(env, ContentItem(part).value) == Ok(Forwarded(part))
  {
    hide ContentPart, MediaItem, TextItem, Forwardable;
    if part.TextPart? {
      TextReadsBack(env, part);
    } else if part.kind.Pdf? {
      PdfReadsBack(env, part);
    } else {
      ImageReadsBack(env, part);
    }
  }

  /** The rebuilt input is one current user message, and normalizing it again gives the prepared content. */
  lemma RebuiltReadsBack(env: Locators, content: seq<Part>)
    requires content != [] && forall i :: 0 <= i < |content| ==> Forwardable(env, content[i])
    ensures RebuiltInput(content).Some? && SelectCurrent(RebuiltInput(content).value).Ok?
    ensures CurrentContent(env, SelectCurrent(RebuiltInput(content).value).value) == Ok(AllForwarded(content))
  {
    hide ContentItems, ContentParts, Forwardable, AllForwarded, SelectCurrent, ContainsMedia;
    ItemsReadBack(env, content);
    var items := ContentItems(content).value;
    ItemsAreMany(content);
    MessageIsCurrent(items);
  }

  lemma ItemsAreMany(content: seq<Part>)
    requires content != [] && ContentItems(content).Some?
    ensures ContentItems(content).value != []
  {
  }

  lemma MessageIsCurrent(items: seq<Json>)
    ensures var message := Obj(map["type" := Str("message"), "role" := Str("user"), "content" := List(items)]);
            SelectCurrent(List([message])) == Ok(List(items))
  {
    hide ContainsMedia;
    var message := Obj(map["type" := Str("message"), "role" := Str("user"), "content" := List(items)]);
    assert |"type"| == 4 && |"role"| == 4 && "type"[0] == 't' && "role"[0] == 'r' && |"content"| == 7 && |"id"| == 2;
    assert |"status"| == 6;
    assert message.Get("type") == Str("message") && message.Get("role") == Str("user");
    assert message.fields.Keys == {"type", "role", "content"};
    assert IsUserItem([message][0]) && LastUser([message]) == Some(0);
  }

  // ----- What the gate prepares can be read back -----

  predicate TextsFit(content: seq<Part>) {
    forall i :: 0 <= i < |content| && content[i].TextPart? ==> |content[i].text| <= MAX_TEXT
  }

  lemma {:induction false} PartsFit(env: Locators, items: seq<Json>)
    requires ContentParts(env, items).Ok?
    ensures TextsFit(ContentParts(env, items).value)
  {
    hide ImagePart, PdfPart;
    if items != [] {
      PartsFit(env, items[1..]);
      MediaAreNoText(env, items[0]);
    }
  }

  lemma MediaAreNoText(env: Locators, item: Json)
    requires ContentPart(env, item).Ok?
    ensures ContentPart(env, item).value.TextPart? ==> |ContentPart(env, item).value.text| <= MAX_TEXT
  {
    hide DataUri, HasProviderId, IsAssetId, Filename;
  }

  /** Every text of an accepted request is within the contract, the one from the state store included. */
  lemma NormalizedTextsFit(env: Locators, payload: Json, state: Option<Record>)
    requires Normalize(env, payload, state).Ok? && (state.Some? ==> |state.value.text| <= MAX_TEXT)
    ensures TextsFit(Normalize(env, payload, state).value.request.content)
  {
    hide Normalize, SelectCurrent, ContentParts;
    NormalizedSteps(env, payload, state);
    var content := SelectCurrent(payload.fields["input"]).value;
    if content.List? {
      PartsFit(env, content.items);
    }
  }

  /** What acquisition hands over is non-empty base64. */
  ghost predicate AcquiresBase64(env: Locators, scripts: seq<MediaScript>) {
    forall i :: 0 <= i < |scripts| && scripts[i].acquired.Some? ==>
      scripts[i].acquired.value.encoded != "" && env.base64Ok(scripts[i].acquired.value.encoded)
  }

  lemma {:induction false} VisionIsForwardable(env: Locators, content: seq<Part>, scripts: seq<MediaScript>)
    requires |scripts| == MediaCount(content) && NormalizeVision(content, scripts).Parts?
    requires TextsFit(content) && AcquiresBase64(env, scripts)
    requires forall i :: 0 <= i < |content| && content[i].MediaPart? ==> content[i].kind.Pdf?
    ensures var parts := NormalizeVision(content, scripts).parts;
            forall i :: 0 <= i < |parts| ==> Forwardable(env, parts[i])
  {
    if content != [] {
      var rest := if content[0].TextPart? then scripts else scripts[1..];
      assert content[0].MediaPart? ==> content[0].kind.Pdf?;
      assert forall i :: 1 <= i < |content| ==> content[i] == content[1..][i - 1];
      assert AcquiresBase64(env, rest);
      VisionIsForwardable(env, content[1..], rest);
    }
  }

  /** Whatever the gate prepares for an accepted request, rebuilt for the provider, normalizes to the same content. */
  lemma PreparedReadsBack(world: World, registry: Registry, payload: Json, state: Option<Record>,
                          scripts: seq<MediaScript>, now: real, n: Normalized, p: Prepared)
    requires OrdersLocators(world.text) && PreparedFrom(world, registry, payload, state, scripts, now, n, p)
    requires (state.Some? ==> |state.value.text| <= MAX_TEXT) && AcquiresBase64(world.locators, scripts)
    ensures RebuiltInput(p.content).Some? && SelectCurrent(RebuiltInput(p.content).value).Ok?
    ensures CurrentContent(world.locators, SelectCurrent(RebuiltInput(p.content).value).value)
         == Ok(AllForwarded(p.content))
  {
    hide Normalize, Prepare, RebuiltInput, SelectCurrent, CurrentContent, AllForwarded;
    NormalizedContent(world.locators, payload, state);
    NormalizedTextsFit(world.locators, payload, state);
    PreparedIsForwardableHere(world, registry, n.request, scripts, now);
    RebuiltReadsBack(world.locators, p.content);
  }

  lemma PreparedIsForwardableHere(world: World, registry: Registry, request: PrepareRequest, scripts: seq<MediaScript>,
                                  now: real)
    requires OrdersLocators(world.text) && |scripts| == MediaCount(request.content) && request.content != []
    requires Prepare(world.text, registry, request, scripts, now).Ready?
    requires TextsFit(request.content) && AcquiresBase64(world.locators, scripts)
    ensures var p := Prepare(world.text, registry, request, scripts, now).prepared;
            p.content != [] && forall i :: 0 <= i < |p.content| ==> Forwardable(world.locators, p.content[i])
  {
    hide Extract, NormalizeVision, JoinText, MediaCount, AcquiresBase64;
    MediaPassesOnlyAsVerifiedPdf(world.text, registry, request, scripts, now);
    var p := Prepare(world.text, registry, request, scripts, now).prepared;
    if Modalities(request.content) != {} && p.action.Passthrough? {
      assert forall i :: 0 <= i < |request.content| && request.content[i].MediaPart? ==>
          request.content[i].kind in Modalities(request.content);
      VisionIsForwardable(world.locators, request.content, scripts);
      VisionKeepsShape(request.content, scripts);
    }
  }
}
