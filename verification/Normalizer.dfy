/** Strict normalization of a Responses request into the gate's contract. */
module Normalizer {
  import opened Common
  import opened Contracts
  import opened Json
  import opened Sanitizer
  import opened Text
  import opened StateStore

  datatype Code =
    | InvalidRequest
    | ConversationUnsupported
    | StateMissing
    | UnsafeMediaReference
    | CurrentUserRequired
    | UnsafeHistoryMedia
    | UnsupportedMediaLocator

  /** `Escapes`: an exception the normalizer does not turn into one of its own errors. */
  datatype Rejection = Rejected(code: Code) | Escapes

  datatype UrlCheck = UrlAccepted | UrlRefused | UrlUnparsable

  /** Base64 decoding and URL splitting, left to foreign libraries. */
  datatype Locators = Locators(base64Ok: string -> bool, url: string -> UrlCheck)

  datatype Normalized = Normalized(request: PrepareRequest, inputHadMedia: bool, previous: Option<Record>)

  // ----- Media items -----

  /** The payload of `data:<mime>;base64,<payload>` with its media type among `allowed`. */
  function DataUri(env: Locators, value: string, allowed: seq<string>): Result<(string, string), Rejection> {
    if allowed == [] then Err(Rejected(UnsupportedMediaLocator))
    else
      var header := "data:" + allowed[0] + ";base64,";
      if header <= value && |value| > |header| then
        if env.base64Ok(value[|header|..]) then Ok((allowed[0], value[|header|..]))
        else Err(Rejected(InvalidRequest))
      else DataUri(env, value, allowed[1..])
  }

  predicate HasProviderId(item: Json)
    requires item.Obj?
  {
    !item.Get("file_id").Null? || !item.Get("file_url").Null?
  }

  /** `_image_part`. */
  function ImagePart(env: Locators, item: Json): Result<Part, Rejection>
    requires item.Obj?
  {
    var detail := item.Get("detail");
    var assetId := item.Get("asset_id");
    var locator := item.Get("image_url");
    if HasProviderId(item) then Err(Rejected(UnsupportedMediaLocator))
    else if !(item.fields.Keys <= {"type", "image_url", "asset_id", "detail", "file_id", "file_url"}) then
      Err(Rejected(InvalidRequest))
    else if !Hashable(detail) then Err(Escapes)
    else if !detail.Null? && detail !in {Str("auto"), Str("low"), Str("high")} then Err(Rejected(InvalidRequest))
    else if !assetId.Null? then
      if !locator.Null? || !assetId.Str? || !IsAssetId(assetId.text) then Err(Rejected(UnsupportedMediaLocator))
      else Ok(MediaPart(Image, AssetSource(assetId.text), None, None))
    else if !locator.Str? then Err(Rejected(UnsupportedMediaLocator))
    else if "data:" <= locator.text then
      var data := DataUri(env, locator.text, ["image/png", "image/jpeg", "image/webp"]);
      if data.Err? then Err(data.error)
      else if |data.value.1| > MAX_BASE64 then Err(Escapes)
      else Ok(MediaPart(Image, Base64Source(data.value.1), None, Some(data.value.0)))
    else
      match env.url(locator.text)
      case UrlUnparsable => Err(Escapes)
      case UrlRefused => Err(Rejected(UnsupportedMediaLocator))
      case UrlAccepted =>
        if |locator.text| > 2048 || !("https://" <= locator.text) then Err(Escapes)
        else Ok(MediaPart(Image, UrlSource(locator.text), None, None))
  }

  function Filename(item: Json): Result<Option<string>, Rejection>
    requires item.Obj?
  {
    match item.Get("filename")
    case Null => Ok(None)
    case Str(name) => Ok(Some(name))
    case _ => Err(Rejected(InvalidRequest))
  }

  predicate NameTooLong(name: Option<string>) {
    name.Some? && |name.value| > 255
  }

  /** `_pdf_part`. */
  function PdfPart(env: Locators, item: Json): Result<Part, Rejection>
    requires item.Obj?
  {
    var assetId := item.Get("asset_id");
    var locator := item.Get("file_data");
    var name := Filename(item);
    if HasProviderId(item) then Err(Rejected(UnsupportedMediaLocator))
    else if !(item.fields.Keys <= {"type", "file_data", "asset_id", "filename", "file_id", "file_url"}) then
      Err(Rejected(InvalidRequest))
    else if !assetId.Null? then
      if !locator.Null? || !assetId.Str? then Err(Rejected(UnsupportedMediaLocator))
      else if name.Err? then Err(name.error)
      else if !IsAssetId(assetId.text) then Err(Rejected(UnsupportedMediaLocator))
      else if NameTooLong(name.value) then Err(Escapes)
      else Ok(MediaPart(Pdf, AssetSource(assetId.text), name.value, Some("application/pdf")))
    else if !locator.Str? then Err(Rejected(UnsupportedMediaLocator))
    else
      var data := DataUri(env, locator.text, ["application/pdf"]);
      if data.Err? then Err(data.error)
      else if name.Err? then Err(name.error)
      else if NameTooLong(name.value) || |data.value.1| > MAX_BASE64 then Err(Escapes)
      else Ok(MediaPart(Pdf, Base64Source(data.value.1), name.value, Some(data.value.0)))
  }

  // ----- The current user message -----

  function TextOf(text: string): Result<Part, Rejection> {
    if |text| > MAX_TEXT then Err(Escapes) else Ok(TextPart(text))
  }

  /** One content item. */
  function ContentPart(env: Locators, item: Json): (r: Result<Part, Rejection>) {
    if !item.Obj? then Err(Rejected(InvalidRequest))
    else if item.Get("type") == Str("input_text") then
      if item.fields.Keys != {"type", "text"} || !item.Get("text").Str? then Err(Rejected(InvalidRequest))
      else TextOf(item.Get("text").text)
    else if item.Get("type") == Str("input_image") then ImagePart(env, item)
    else if item.Get("type") == Str("input_file") then PdfPart(env, item)
    else Err(Rejected(InvalidRequest))
  }

  function ContentParts(env: Locators, items: seq<Json>): Result<seq<Part>, Rejection> {
    if items == [] then Ok([])
    else
      var part := ContentPart(env, items[0]);
      if part.Err? then Err(part.error)
      else
        Prepend([part.value], ContentParts(env, items[1..]))
  }

  /** `_current_content`. */
  function CurrentContent(env: Locators, value: Json): Result<seq<Part>, Rejection> {
    match value
    case Str(text) =>
      if text == "" then Err(Rejected(CurrentUserRequired))
      else
        var part := TextOf(text);
        if part.Err? then Err(part.error) else Ok([part.value])
    case List(items) =>
      if items == [] then Err(Rejected(CurrentUserRequired)) else ContentParts(env, items)
    case _ => Err(Rejected(CurrentUserRequired))
  }

  function Prepend(parts: seq<Part>, rest: Result<seq<Part>, Rejection>): Result<seq<Part>, Rejection> {
    if rest.Err? then rest else Ok(parts + rest.value)
  }

  /** `_current_content` as the code runs it: parts are appended one by one. */
  method ReadCurrentContent(env: Locators, value: Json) returns (r: Result<seq<Part>, Rejection>)
    ensures r == CurrentContent(env, value)
  {
    if value.Str? {
      if value.text == "" {
        return Err(Rejected(CurrentUserRequired));
      }
      var part := TextOf(value.text);
      return if part.Err? then Err(part.error) else Ok([part.value]);
    }
    if !value.List? || value.items == [] {
      return Err(Rejected(CurrentUserRequired));
    }
    var parts: seq<Part> := [];
    assert value.items[0..] == value.items;
    assert forall rest: seq<Part> :: [] + rest == rest;
    for i := 0 to |value.items|
      invariant var rest := ContentParts(env, value.items[i..]);
                ContentParts(env, value.items) == Prepend(parts, rest)
    {
      assert value.items[i..][1..] == value.items[i + 1..];
      var part := ContentPart(env, value.items[i]);
      if part.Err? {
        return Err(part.error);
      }
      ghost var rest := ContentParts(env, value.items[i + 1..]);
      assert rest.Ok? ==> parts + ([part.value] + rest.value) == parts + [part.value] + rest.value;
      parts := parts + [part.value];
    }
    assert value.items[|value.items|..] == [] && parts + [] == parts;
    r := Ok(parts);
  }

  predicate IsUserItem(item: Json) {
    item.Obj? && item.Get("role") == Str("user")
  }

  /** The position of the last user item. */
  function LastUser(items: seq<Json>): (r: Option<nat>)
    ensures r.Some? ==> r.value < |items| && IsUserItem(items[r.value])
    ensures forall k :: (if r.Some? then r.value else -1) < k < |items| ==> !IsUserItem(items[k])
  {
    if items == [] then None
    else if IsUserItem(items[|items| - 1]) then Some(|items| - 1)
    else LastUser(items[..|items| - 1])
  }

  /** `_select_current_input`: the content of the current user message, history being free of media. */
  function SelectCurrent(value: Json): Result<Json, Rejection> {
    match value
    case Str(_) => Ok(value)
    case List(items) =>
      var last := LastUser(items);
      if last.None? then Err(Rejected(CurrentUserRequired))
      else if exists k :: 0 <= k < |items| && k != last.value && ContainsMedia(items[k]) then
        Err(Rejected(UnsafeHistoryMedia))
      else
        var current := items[last.value];
        var kind, status := current.Get("type"), current.Get("status");
        if !(current.fields.Keys <= {"id", "type", "status", "role", "content"}) then Err(Rejected(InvalidRequest))
        else if !Hashable(kind) then Err(Escapes)
        else if kind !in {Null, Str("message")} then Err(Rejected(InvalidRequest))
        else if !current.Get("id").Null? && !current.Get("id").Str? then Err(Rejected(InvalidRequest))
        else if !Hashable(status) then Err(Escapes)
        else if status !in {Null, Str("in_progress"), Str("completed")} then Err(Rejected(InvalidRequest))
        else if "content" !in current.fields then Err(Rejected(CurrentUserRequired))
        else Ok(current.fields["content"])
    case _ => Err(Rejected(CurrentUserRequired))
  }

  // ----- The request -----

  function StateText(state: Option<Record>): seq<Part> {
    if state.Some? && state.value.text != "" then [TextPart(state.value.text)] else []
  }

  /** `normalize_responses_request`. */
  function Normalize(env: Locators, payload: Json, state: Option<Record>): Result<Normalized, Rejection> {
    if !payload.Obj? then Err(Rejected(InvalidRequest))
    else
      var previousId := payload.Get("previous_response_id");
      if !payload.Get("conversation").Null? then Err(Rejected(ConversationUnsupported))
      else if !previousId.Null? && !previousId.Str? then Err(Rejected(InvalidRequest))
      else if previousId.Null? && state.Some? then Err(Rejected(StateMissing))
      else if !previousId.Null? && (state.None? || state.value.responseId != previousId.text) then
        Err(Rejected(StateMissing))
      else if exists key :: key in payload.fields && key != "input" && ContainsMedia(payload.fields[key]) then
        Err(Rejected(UnsafeMediaReference))
      else if "input" !in payload.fields then Err(Rejected(CurrentUserRequired))
      else
        var selected := SelectCurrent(payload.fields["input"]);
        if selected.Err? then Err(selected.error)
        else
          var current := CurrentContent(env, selected.value);
          if current.Err? then Err(current.error)
          else
            var model := payload.Get("model");
            var content := StateText(state) + current.value;
            if !model.Str? || !IsTargetId(model.text) || !(1 <= |content| <= MAX_PARTS) then
              Err(Rejected(InvalidRequest))
            else
              var profile := if Pdf in Modalities(current.value) then Document else ErrorScreenshot;
              Ok(Normalized(PrepareRequest(content, model.text, profile), HasMedia(current.value), state))
  }

  // ----- What survives normalization -----

  /** The strings of the current user message that a verbatim copy forwards: its identifier and its texts. */
  function MessageStrings(input: Json): seq<string> {
    match input
    case Str(s) => [s]
    case List(items) =>
      var last := LastUser(items);
      if last.None? then []
      else
        OwnStrings(items[last.value])
    case _ => []
  }

  function OwnStrings(message: Json): seq<string>
    requires message.Obj?
  {
    (if message.Get("id").Str? then [message.Get("id").text] else []) + ContentStrings(message.Get("content"))
  }

  function ContentStrings(content: Json): seq<string> {
    match content
    case Str(s) => [s]
    case List(items) => ItemTexts(items)
    case _ => []
  }

  function ItemTexts(items: seq<Json>): seq<string> {
    if items == [] then []
    else
      (if items[0].Obj? && items[0].Get("text").Str? then [items[0].Get("text").text] else []) + ItemTexts(items[1..])
  }

  predicate NoneStartsAsMedia(texts: seq<string>) {
    forall i :: 0 <= i < |texts| ==> !StartsAsMediaData(texts[i])
  }

  /** The constant words of a message are no media data. */
  lemma PlainWords()
    ensures forall s :: s in {"input_text", "message", "user", "in_progress", "completed"} ==> !StartsAsMediaData(s)
  {
    forall s | s in {"input_text", "message", "user", "in_progress", "completed"} ensures !StartsAsMediaData(s) {
      assert AsciiLower(s[0]) != 'd';
    }
  }

  /** A text item of the content contains a media reference exactly when its text starts as media data. */
  lemma TextItemMedia(env: Locators, item: Json)
    requires ContentPart(env, item).Ok? && ContentPart(env, item).value.TextPart?
    ensures item.Obj? && item.Get("text").Str?
    ensures ContainsMedia(item) <==> StartsAsMediaData(item.Get("text").text)
  {
    hide StartsAsMediaData;
    assert item.fields.Keys == {"type", "text"};
    assert item.Get("type") == Str("input_text");
    PlainWords();
    if StartsAsMediaData(item.Get("text").text) {
      assert "text" in item.fields && ContainsMedia(item.fields["text"]);
    }
    if ContainsMedia(item) {
      var key :| key in item.fields && ContainsMedia(item.fields[key]);
      assert key == "text";
    }
  }

  lemma {:induction false} TextItemsMedia(env: Locators, items: seq<Json>)
    requires ContentParts(env, items).Ok? && !HasMedia(ContentParts(env, items).value)
    ensures (exists i :: 0 <= i < |items| && ContainsMedia(items[i])) <==> !NoneStartsAsMedia(ItemTexts(items))
  {
    if items != [] {
      var parts := ContentParts(env, items).value;
      assert !parts[0].MediaPart?;
      var rest := ContentParts(env, items[1..]).value;
      assert parts[1..] == rest;
      forall i | 0 <= i < |rest| ensures !rest[i].MediaPart? {
        assert parts[i + 1] == rest[i];
      }
      TextItemMedia(env, items[0]);
      TextItemsMedia(env, items[1..]);
      var t, ts := items[0].Get("text").text, ItemTexts(items[1..]);
      assert ItemTexts(items) == [t] + ts;
      FirstOrRest(t, ts);
      assert forall i :: 1 <= i < |items| ==> items[i] == items[1..][i - 1];
      if ContainsMedia(items[0]) {
        assert exists i :: 0 <= i < |items| && ContainsMedia(items[i]);
      }
    }
  }

  lemma OneString(s: string)
    ensures NoneStartsAsMedia([s]) <==> !StartsAsMediaData(s)
  {
    assert [s][0] == s;
  }

  lemma FirstOrRest(t: string, ts: seq<string>)
    ensures NoneStartsAsMedia([t] + ts) <==> !StartsAsMediaData(t) && NoneStartsAsMedia(ts)
  {
    var all := [t] + ts;
    assert all[0] == t;
    if NoneStartsAsMedia(all) {
      forall i | 0 <= i < |ts| ensures !StartsAsMediaData(ts[i]) {
        assert all[i + 1] == ts[i];
      }
    }
  }

  lemma ContentMedia(env: Locators, content: Json)
    requires CurrentContent(env, content).Ok? && !HasMedia(CurrentContent(env, content).value)
    ensures ContainsMedia(content) <==> !NoneStartsAsMedia(ContentStrings(content))
  {
    if content.List? {
      TextItemsMedia(env, content.items);
    } else {
      OneString(content.text);
    }
  }

  /** For a media-free current message, the input contains a media reference only through its own strings. */
  lemma InputMedia(env: Locators, input: Json)
    requires SelectCurrent(input).Ok?
    requires var content := CurrentContent(env, SelectCurrent(input).value); content.Ok? && !HasMedia(content.value)
    ensures ContainsMedia(input) <==> !NoneStartsAsMedia(MessageStrings(input))
  {
    if input.Str? {
      OneString(input.text);
    } else {
      var last := LastUser(input.items).value;
      var current := input.items[last];
      ContentMedia(env, current.fields["content"]);
      MessageMedia(current);
      if ContainsMedia(current) {
        assert ContainsMedia(input.items[last]);
      }
    }
  }

  lemma MessageMedia(current: Json)
    requires current.Obj? && current.fields.Keys <= {"id", "type", "status", "role", "content"}
    requires current.Get("type") in {Null, Str("message")} && current.Get("role") == Str("user")
    requires current.Get("id").Null? || current.Get("id").Str?
    requires current.Get("status") in {Null, Str("in_progress"), Str("completed")} && "content" in current.fields
    requires ContainsMedia(current.fields["content"]) <==> !NoneStartsAsMedia(ContentStrings(current.fields["content"]))
    ensures ContainsMedia(current) <==> !NoneStartsAsMedia(OwnStrings(current))
  {
    hide StartsAsMediaData;
    var id, texts := current.Get("id"), ContentStrings(current.Get("content"));
    assert !NamesMedia(current.fields);
    PlainWords();
    if id.Str? {
      FirstOrRest(id.text, texts);
    } else {
      assert [] + texts == texts;
    }
    if ContainsMedia(current) {
      var key :| key in current.fields && ContainsMedia(current.fields[key]);
      assert key == "id" || key == "content";
    }
    if ContainsMedia(current.fields["content"]) {
    } else if id.Str? && StartsAsMediaData(id.text) {
      assert "id" in current.fields && ContainsMedia(current.fields["id"]);
    }
  }

  /** The steps an accepted request went through. */
  lemma NormalizedSteps(env: Locators, payload: Json, state: Option<Record>)
    requires Normalize(env, payload, state).Ok?
    ensures payload.Obj? && "input" in payload.fields && SelectCurrent(payload.fields["input"]).Ok?
    ensures CurrentContent(env, SelectCurrent(payload.fields["input"]).value).Ok?
    ensures var n := Normalize(env, payload, state).value;
            var current := CurrentContent(env, SelectCurrent(payload.fields["input"]).value).value;
            && n.previous == state && n.request.content == StateText(state) + current && n.request.content != []
            && n.inputHadMedia == HasMedia(current) && payload.Get("model") == Str(n.request.target)
            && n.request.profile == (if exists i :: 0 <= i < |current| && current[i].MediaPart? && current[i].kind.Pdf?
                                     then Document else ErrorScreenshot)
    ensures forall key :: key in payload.fields && key != "input" ==> !ContainsMedia(payload.fields[key])
    ensures !StartsAsMediaData(Normalize(env, payload, state).value.request.target)
  {
    hide SelectCurrent, CurrentContent, IsTargetId, HasMedia, StartsAsMediaData;
    var model := payload.fields["model"];
    assert !ContainsMedia(model);
  }

  /** The content of an accepted request: the previous state's text, then the current message's parts. */
  lemma NormalizedContent(env: Locators, payload: Json, state: Option<Record>)
    requires Normalize(env, payload, state).Ok?
    ensures var n := Normalize(env, payload, state).value;
            n.previous == state && n.request.content != [] && (n.inputHadMedia <==> HasMedia(n.request.content))
  {
    hide Normalize, SelectCurrent, CurrentContent;
    NormalizedSteps(env, payload, state);
    var n := Normalize(env, payload, state).value;
    var current := CurrentContent(env, SelectCurrent(payload.fields["input"]).value).value;
    var front := StateText(state);
    if HasMedia(current) {
      var i :| 0 <= i < |current| && current[i].MediaPart?;
      assert n.request.content[|front| + i].MediaPart?;
    }
    if HasMedia(n.request.content) {
      var i :| 0 <= i < |n.request.content| && n.request.content[i].MediaPart?;
      assert current[i - |front|].MediaPart?;
    }
  }
}
