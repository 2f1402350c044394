/** Which chat requests are translated, and what exactly each of their messages and fields becomes. */
module ChatRequests {
  import opened ChatTranslation
  import opened Common
  import opened Json
  import opened Text

  // ----- Messages -----

  /** A text or an image of a user message, and the input item it becomes. */
  ghost predicate BecomesPart(raw: Json, part: Json) {
    && raw.Obj? && part.Obj?
    && ((raw.Get("type") == Str("text") && raw.fields.Keys == {"type", "text"} && raw.Get("text").Str?
         && part.fields.Keys == {"type", "text"} && part.Get("type") == Str("input_text")
         && part.Get("text") == raw.Get("text"))
        || (raw.Get("type") == Str("image_url") && Locator(raw.Get("image_url")).Some?
            && part.fields.Keys == {"type", "image_url"} && part.Get("type") == Str("input_image")
            && part.Get("image_url") == Str(Locator(raw.Get("image_url")).value)))
  }

  /** The non-empty locator of an image, given plainly or in an object. */
  function Locator(image: Json): Option<string> {
    if image.Str? && image.text != "" then Some(image.text)
    else if image.Obj? && image.Get("url").Str? && image.Get("url").text != "" then Some(image.Get("url").text)
    else None
  }

  /** A function call, and the input item it becomes. */
  ghost predicate BecomesCall(call: Json, item: Json) {
    && call.Obj? && call.Get("type") == Str("function") && call.Get("function").Obj? && item.Obj?
    && item.fields.Keys == {"type", "call_id", "name", "arguments"} && item.Get("type") == Str("function_call")
    && call.Get("id").Str? && item.Get("call_id") == call.Get("id")
    && call.Get("function").Get("name").Str? && item.Get("name") == call.Get("function").Get("name")
    && call.Get("function").Get("arguments").Str? && item.Get("arguments") == call.Get("function").Get("arguments")
  }

  ghost predicate BecomeParts(raws: seq<Json>, parts: seq<Json>) {
    |parts| == |raws| && forall i :: 0 <= i < |raws| ==> BecomesPart(raws[i], parts[i])
  }

  ghost predicate BecomeCalls(calls: seq<Json>, items: seq<Json>) {
    |items| == |calls| && forall i :: 0 <= i < |calls| ==> BecomesCall(calls[i], items[i])
  }

  lemma FieldsDiffer()
    ensures "type" != "text" && "type" != "image_url" && "type" != "call_id" && "type" != "name"
    ensures "type" != "arguments" && "call_id" != "name" && "call_id" != "arguments" && "name" != "arguments"
    ensures "type" != "output" && "call_id" != "output" && "role" != "content"
    ensures "text" != "image_url"
  {
    assert |"type"| == 4 && |"text"| == 4 && "type"[1] == 'y' && "text"[1] == 'e' && |"image_url"| == 9;
    assert |"call_id"| == 7 && |"name"| == 4 && "type"[0] == 't' && "name"[0] == 'n' && |"arguments"| == 9;
    assert |"output"| == 6 && |"role"| == 4 && |"content"| == 7;
  }

  lemma SameObject(a: Json, b: Json)
    requires a.Obj? && b.Obj? && a.fields.Keys == b.fields.Keys
    requires forall key :: key in a.fields ==> a.Get(key) == b.Get(key)
    ensures a == b
  {
    assert a.fields == b.fields;
  }

  lemma PartExactly(raw: Json, part: Json)
    ensures UserPart(raw) == Some(part) <==> BecomesPart(raw, part)
  {
    FieldsDiffer();
    if BecomesPart(raw, part) {
      assert UserPart(raw).Some?;
      SameObject(part, UserPart(raw).value);
    }
  }

  lemma CallExactly(call: Json, item: Json)
    ensures ToolItem(call) == Some(item) <==> BecomesCall(call, item)
  {
    FieldsDiffer();
    if BecomesCall(call, item) {
      assert ToolItem(call).Some?;
      SameObject(item, ToolItem(call).value);
    }
  }

  lemma {:induction false} PartsExactly(raws: seq<Json>, parts: seq<Json>)
    ensures UserParts(raws) == Some(parts) <==> BecomeParts(raws, parts)
    decreases raws
  {
    hide UserPart, BecomesPart;
    if raws != [] && parts != [] {
      PartExactly(raws[0], parts[0]);
      PartsExactly(raws[1..], parts[1..]);
      assert parts == [parts[0]] + parts[1..];
      assert forall i :: 1 <= i < |raws| ==> raws[i] == raws[1..][i - 1];
      assert forall i :: 1 <= i < |parts| ==> parts[i] == parts[1..][i - 1];
    }
  }

  lemma {:induction false} CallsExactly(calls: seq<Json>, items: seq<Json>)
    ensures ToolCalls(calls) == Some(items) <==> BecomeCalls(calls, items)
    decreases calls
  {
    hide ToolItem, BecomesCall;
    if calls != [] && items != [] {
      CallExactly(calls[0], items[0]);
      CallsExactly(calls[1..], items[1..]);
      assert items == [items[0]] + items[1..];
      assert forall i :: 1 <= i < |calls| ==> calls[i] == calls[1..][i - 1];
      assert forall i :: 1 <= i < |items| ==> items[i] == items[1..][i - 1];
    }
  }

  /** The content of a user or an assistant message, and the parts it becomes. */
  ghost predicate BecomesContent(role: string, value: Json, parts: seq<Json>) {
    || (value.Str? && |parts| == 1 && parts[0].Obj? && parts[0].fields.Keys == {"type", "text"}
        && parts[0].Get("text") == value
        && parts[0].Get("type") == Str(if role == "assistant" then "output_text" else "input_text"))
    || (role == "user" && value.List? && value.items != [] && BecomeParts(value.items, parts))
    || (role == "assistant" && value.Null? && parts == [])
  }

  lemma ContentExactly(role: string, value: Json, parts: seq<Json>)
    ensures MessageContent(role, value) == Some(parts) <==> BecomesContent(role, value, parts)
  {
    hide BecomeParts, UserParts;
    FieldsDiffer();
    if value.List? {
      PartsExactly(value.items, parts);
    }
    if value.Str? && BecomesContent(role, value, parts) {
      SameObject(parts[0], MessageContent(role, value).value[0]);
      assert parts == [parts[0]];
    }
  }

  /** What one message adds to the instructions and to the input. */
  ghost predicate Gives(message: Json, told: seq<string>, items: seq<Json>) {
    && message.Obj? && message.Get("role").Str?
    && var role, content := message.Get("role").text, message.Get("content");
    || (role in {"system", "developer"} && content.Str? && items == []
        && told == if Strip(content.text) == "" then [] else [content.text])
    || (role == "tool" && content.Str? && message.Get("tool_call_id").Str? && told == []
        && |items| == 1 && items[0].Obj? && items[0].fields.Keys == {"type", "call_id", "output"}
        && items[0].Get("type") == Str("function_call_output")
        && items[0].Get("call_id") == message.Get("tool_call_id") && items[0].Get("output") == content)
    || (role in {"user", "assistant"} && told == [] && |items| >= 1
        && items[0].Obj? && items[0].fields.Keys == {"role", "content"} && items[0].Get("role") == Str(role)
        && items[0].Get("content").List? && BecomesContent(role, content, items[0].Get("content").items)
        && (var calls := message.Get("tool_calls");
            (calls.Null? && |items| == 1) || (calls.List? && BecomeCalls(calls.items, items[1..]))))
  }

  lemma RolesDiffer()
    ensures {"system", "developer"} !! {"tool", "user", "assistant"} && "tool" !in {"user", "assistant"}
  {
    assert |"system"| == 6 && |"developer"| == 9 && |"tool"| == 4 && |"user"| == 4 && |"assistant"| == 9;
    assert "tool"[0] == 't' && "user"[0] == 'u' && "developer"[0] == 'd' && "assistant"[0] == 'a';
  }

  lemma ToolOutputExactly(message: Json, items: seq<Json>)
    requires message.Obj? && message.Get("role") == Str("tool")
    ensures MessageItems(message) == Some(([], items)) <==> Gives(message, [], items)
  {
    hide BecomesContent, BecomeCalls, MessageContent, ToolItems, Strip;
    RolesDiffer();
    FieldsDiffer();
    if Gives(message, [], items) {
      SameObject(items[0], MessageItems(message).value.1[0]);
      assert items == [items[0]];
    }
  }

  lemma SpokenExactly(message: Json, items: seq<Json>)
    requires message.Obj? && message.Get("role") in {Str("user"), Str("assistant")}
    ensures MessageItems(message) == Some(([], items)) <==> Gives(message, [], items)
  {
    hide BecomesContent, BecomeCalls, MessageContent, Strip, ToolCalls;
    RolesDiffer();
    FieldsDiffer();
    var role, calls := message.Get("role").text, message.Get("tool_calls");
    if Gives(message, [], items) {
      ContentExactly(role, message.Get("content"), items[0].Get("content").items);
      if calls.List? {
        CallsExactly(calls.items, items[1..]);
      }
      assert items[0] == Obj(map["role" := Str(role), "content" := items[0].Get("content")]) by {
        SameObject(items[0], Obj(map["role" := Str(role), "content" := items[0].Get("content")]));
      }
      assert items == [items[0]] + items[1..];
    }
    if MessageItems(message) == Some(([], items)) {
      ContentExactly(role, message.Get("content"), MessageContent(role, message.Get("content")).value);
      assert items[1..] == ToolItems(message).value;
      if calls.List? {
        CallsExactly(calls.items, items[1..]);
      }
    }
  }

  lemma MessageExactly(message: Json, told: seq<string>, items: seq<Json>)
    ensures MessageItems(message) == Some((told, items)) <==> Gives(message, told, items)
  {
    hide BecomesContent, BecomeCalls, MessageContent, Strip, ToolItems;
    RolesDiffer();
    if message.Obj? && message.Get("role") == Str("tool") {
      ToolOutputExactly(message, items);
    } else if message.Obj? && message.Get("role") in {Str("user"), Str("assistant")} {
      SpokenExactly(message, items);
    }
  }

  ghost predicate GiveInOrder(messages: seq<Json>, told: seq<string>, items: seq<Json>)
    decreases |messages|
  {
    if messages == [] then told == [] && items == []
    else
      exists t, i :: 0 <= t <= |told| && 0 <= i <= |items| && Gives(messages[0], told[..t], items[..i])
                  && GiveInOrder(messages[1..], told[t..], items[i..])
  }

  /** A conversation is translated exactly to what its messages give, one after the other. */
  lemma {:induction false} MessagesExactly(messages: seq<Json>, told: seq<string>, items: seq<Json>)
    ensures Translated(messages) == Some((told, items)) <==> GiveInOrder(messages, told, items)
    decreases |messages|
  {
    hide MessageItems, Gives;
    if messages != [] {
      var first, rest := MessageItems(messages[0]), Translated(messages[1..]);
      if Translated(messages) == Some((told, items)) {
        var t, i := |first.value.0|, |first.value.1|;
        assert told[..t] == first.value.0 && told[t..] == rest.value.0;
        assert items[..i] == first.value.1 && items[i..] == rest.value.1;
        MessageExactly(messages[0], told[..t], items[..i]);
        MessagesExactly(messages[1..], told[t..], items[i..]);
      }
      if GiveInOrder(messages, told, items) {
        var t, i :| 0 <= t <= |told| && 0 <= i <= |items| && Gives(messages[0], told[..t], items[..i])
                    && GiveInOrder(messages[1..], told[t..], items[i..]);
        MessageExactly(messages[0], told[..t], items[..i]);
        MessagesExactly(messages[1..], told[t..], items[i..]);
        assert told == told[..t] + told[t..] && items == items[..i] + items[i..];
      }
    }
  }

  // ----- Whole requests -----

  const CAP_FIELDS := {"max_tokens", "max_completion_tokens", "max_output_tokens"}

  predicate IsCapped(payload: Fields) {
    exists key :: key in CAP_FIELDS && key in payload
  }

  /** All limits that are given are this positive number. */
  ghost predicate IsCap(payload: Fields, cap: Json) {
    && cap.Int? && cap.number > 0 && forall key :: key in CAP_FIELDS && key in payload ==> payload[key] == cap
  }

  /** The response format as the Responses interface has it: a JSON schema is lifted to the top, others stay. */
  ghost predicate BecomesFormat(value: Json, format: Json) {
    && value.Obj? && format.Obj? && IsJsonFormat(format.fields)
    && if value.Get("type") == Str("json_schema") then
         && value.fields.Keys == {"type", "json_schema"} && value.Get("json_schema").Obj?
         && "type" !in value.Get("json_schema").fields
         && format.fields == value.Get("json_schema").fields["type" := Str("json_schema")]
       else format == value
  }

  /** What one field of a translated request holds. */
  ghost predicate IsField(payload: Fields, told: seq<string>, items: seq<Json>, key: string, value: Json) {
    if key == "input" then value == List(items)
    else if key == "instructions" && told != [] then value == Str(Join("\n\n", told))
    else if key == "max_output_tokens" && IsCapped(payload) then IsCap(payload, value)
    else if key == "text" && "response_format" in payload then
      value.Obj? && value.fields.Keys == {"format"}
      && BecomesFormat(payload["response_format"], value.fields["format"])
    else key in payload && value == payload[key]
  }

  /** The fields a translated request has. */
  function FieldNames(payload: Fields, told: seq<string>): set<string> {
    (payload.Keys - REPLACED) + {"input"} + (if told != [] then {"instructions"} else {})
    + (if IsCapped(payload) then {"max_output_tokens"} else {})
    + (if "response_format" in payload then {"text"} else {})
  }

  /** The translation of a chat request. */
  ghost predicate Becomes(payload: Json, fields: Fields) {
    && payload.Obj? && payload.Get("model").Str? && payload.Get("model").text != ""
    && payload.Get("messages").List? && payload.Get("messages").items != []
    && ("response_format" in payload.fields ==> "text" !in payload.fields)
    && exists told, items :: GiveInOrder(payload.Get("messages").items, told, items)
         && fields.Keys == FieldNames(payload.fields, told)
         && forall key :: key in fields ==> IsField(payload.fields, told, items, key, fields[key])
  }

  lemma NamesDiffer()
    ensures {"model", "input", "instructions", "max_output_tokens", "text"} !! REPLACED
    ensures "model" !in {"input", "instructions", "max_output_tokens", "text"}
    ensures "input" !in {"instructions", "max_output_tokens", "text"}
    ensures "instructions" !in {"max_output_tokens", "text"} && "max_output_tokens" != "text"
  {
    assert |"model"| == 5 && |"input"| == 5 && "model"[0] == 'm' && "input"[0] == 'i' && |"text"| == 4;
    assert |"instructions"| == 12 && |"max_output_tokens"| == 17 && |"messages"| == 8 && |"max_tokens"| == 10;
    assert |"max_completion_tokens"| == 21 && |"response_format"| == 15;
  }

  lemma {:induction false} CapsAre(payload: Fields, keys: seq<string>, cap: Json)
    ensures cap in Caps(payload, keys) <==> exists key :: key in keys && key in payload && payload[key] == cap
  {
    if keys != [] {
      CapsAre(payload, keys[1..], cap);
      assert keys == [keys[0]] + keys[1..];
    }
  }

  lemma {:induction false} CapsGiven(payload: Fields, keys: seq<string>)
    ensures Caps(payload, keys) != [] <==> exists key :: key in keys && key in payload
  {
    if keys != [] {
      CapsGiven(payload, keys[1..]);
      assert keys == [keys[0]] + keys[1..];
    }
  }

  lemma CapNames(key: string)
    ensures key in CAP_KEYS <==> key in CAP_FIELDS
  {
  }

  /** The limits given agree exactly on one positive number. */
  lemma CapsExactly(payload: Fields, cap: Json)
    ensures var caps := Caps(payload, CAP_KEYS);
            && (caps != [] <==> IsCapped(payload))
            && (caps != [] ==> (CapsAgree(caps) && caps[0] == cap <==> IsCap(payload, cap)))
  {
    hide Caps;
    var caps := Caps(payload, CAP_KEYS);
    CapsGiven(payload, CAP_KEYS);
    forall key: string ensures key in CAP_KEYS <==> key in CAP_FIELDS {
      CapNames(key);
    }
    forall key | key in CAP_FIELDS && key in payload ensures payload[key] in caps {
      CapsAre(payload, CAP_KEYS, payload[key]);
    }
    forall i | 0 <= i < |caps|
      ensures exists key :: key in CAP_FIELDS && key in payload && payload[key] == caps[i]
    {
      CapsAre(payload, CAP_KEYS, caps[i]);
    }
  }

  lemma FormatExactly(value: Json, format: Json)
    ensures (ResponseFormat(value).Some? && IsJsonFormat(ResponseFormat(value).value)
             && format == Obj(ResponseFormat(value).value)) <==> BecomesFormat(value, format)
  {
    hide IsJsonFormat;
    if value.Obj? && value.Get("type") == Str("json_schema") && value.Get("json_schema").Obj? {
      var schema := value.Get("json_schema").fields;
      if "type" !in schema {
        assert map["type" := Str("json_schema")] + schema == schema["type" := Str("json_schema")];
      }
    }
  }

  /** What the translation puts together, before it is compared with what it should be. */
  lemma TranslationHasFields(payload: Json, fields: Fields)
    requires ChatToResponses(payload) == Some(fields)
    ensures Becomes(payload, fields)
  {
    hide Translated, Caps, CapsAgree, IsCap, IsCapped, ResponseFormat, IsJsonFormat, BecomesFormat, GiveInOrder, Join;
    NamesDiffer();
    var (told, items) := Translated(payload.Get("messages").items).value;
    MessagesExactly(payload.Get("messages").items, told, items);
    var caps := Caps(payload.fields, CAP_KEYS);
    CapsExactly(payload.fields, if caps == [] then Null else caps[0]);
    if "response_format" in payload.fields {
      var value := payload.fields["response_format"];
      FormatExactly(value, Obj(ResponseFormat(value).value));
    }
    assert fields.Keys == FieldNames(payload.fields, told);
    forall key | key in fields ensures IsField(payload.fields, told, items, key, fields[key]) {
    }
  }

  /** There is at most one translation. */
  lemma FieldsAreUnique(payload: Fields, told: seq<string>, items: seq<Json>, key: string, a: Json, b: Json)
    requires IsField(payload, told, items, key, a) && IsField(payload, told, items, key, b)
    ensures a == b
  {
    hide IsJsonFormat;
    if key == "max_output_tokens" && IsCapped(payload) {
      var given :| given in CAP_FIELDS && given in payload;
    } else if key == "text" && "response_format" in payload {
      SameFormat(payload["response_format"], a.fields["format"], b.fields["format"]);
      assert a.fields == b.fields;
    }
  }

  lemma SameFormat(value: Json, a: Json, b: Json)
    requires BecomesFormat(value, a) && BecomesFormat(value, b)
    ensures a == b
  {
    hide IsJsonFormat;
  }

  lemma BecomesIsTranslated(payload: Json, fields: Fields)
    requires Becomes(payload, fields)
    ensures ChatToResponses(payload).Some?
  {
    hide Translated, Caps, CapsAgree, IsCap, IsCapped, ResponseFormat, IsJsonFormat, BecomesFormat, GiveInOrder, Join;
    NamesDiffer();
    var told, items :| GiveInOrder(payload.Get("messages").items, told, items)
      && fields.Keys == FieldNames(payload.fields, told)
      && forall key :: key in fields ==> IsField(payload.fields, told, items, key, fields[key]);
    MessagesExactly(payload.Get("messages").items, told, items);
    CapsExactly(payload.fields, if "max_output_tokens" in fields then fields["max_output_tokens"] else Null);
    if IsCapped(payload.fields) {
      assert "max_output_tokens" in fields;
    } else {
      assert CapsAgree([]) by { NoCapsAgree(); }
    }
    if "response_format" in payload.fields {
      assert "text" in fields;
      FormatExactly(payload.fields["response_format"], fields["text"].fields["format"]);
    }
  }

  lemma NoCapsAgree()
    ensures CapsAgree([])
  {
  }

  /** A chat request is translated exactly when it becomes something, and then to exactly that. */
  lemma TranslatesExactly(payload: Json, fields: Fields)
    ensures ChatToResponses(payload) == Some(fields) <==> Becomes(payload, fields)
  {
    hide ChatToResponses, IsField, FieldNames;
    if ChatToResponses(payload) == Some(fields) {
      TranslationHasFields(payload, fields);
    }
    if Becomes(payload, fields) {
      BecomesIsTranslated(payload, fields);
      var other := ChatToResponses(payload).value;
      TranslationHasFields(payload, other);
      SameTranslation(payload, fields, other);
    }
  }

  lemma SameTranslation(payload: Json, a: Fields, b: Fields)
    requires Becomes(payload, a) && Becomes(payload, b)
    ensures a == b
  {
    hide GiveInOrder, IsField, FieldNames;
    var told, items :| GiveInOrder(payload.Get("messages").items, told, items)
      && a.Keys == FieldNames(payload.fields, told)
      && forall key :: key in a ==> IsField(payload.fields, told, items, key, a[key]);
    var told', items' :| GiveInOrder(payload.Get("messages").items, told', items')
      && b.Keys == FieldNames(payload.fields, told')
      && forall key :: key in b ==> IsField(payload.fields, told', items', key, b[key]);
    MessagesExactly(payload.Get("messages").items, told, items);
    MessagesExactly(payload.Get("messages").items, told', items');
    forall key | key in a ensures a[key] == b[key] {
      FieldsAreUnique(payload.fields, told, items, key, a[key], b[key]);
    }
    assert a == b;
  }

  // ----- Responses to Solar chat messages -----

  /** The texts of a list of parts, each stripped and not blank. */
  ghost predicate AreTexts(parts: seq<Json>, texts: seq<string>) {
    && |texts| == |parts|
    && forall i :: 0 <= i < |parts| ==>
         && parts[i].Obj? && parts[i].Get("type") in {Str("input_text"), Str("output_text")}
         && parts[i].Get("text").Str? && texts[i] == Strip(parts[i].Get("text").text) && texts[i] != ""
  }

  /** The text of a content: stripped, or its parts joined by line feeds, and never blank. */
  ghost predicate IsContent(value: Json, text: string) {
    || (value.Str? && text == Strip(value.text) && text != "")
    || (value.List? && value.items != [] && exists texts :: AreTexts(value.items, texts) && text == Join("\n", texts))
  }

  /** The chat message of an input item. */
  ghost predicate IsMessage(item: Json, m: Message) {
    && item.Obj? && ("type" in item.fields ==> item.fields["type"] == Str("message"))
    && IsContent(item.Get("content"), m.content)
    && ((item.Get("role") == Str("developer") && m.role == "system")
        || (item.Get("role") == Str(m.role) && m.role in {"user", "assistant", "system"}))
  }

  ghost predicate AreMessages(items: seq<Json>, messages: seq<Message>) {
    |messages| == |items| && forall i :: 0 <= i < |items| ==> IsMessage(items[i], messages[i])
  }

  /** The instructions in front, if they are not blank. */
  ghost predicate IsLeading(fields: Fields, leading: seq<Message>) {
    var instructions := Obj(fields).Get("instructions");
    || (instructions.Null? && leading == [])
    || (instructions.Str?
        && leading == if Strip(instructions.text) == "" then [] else [Message("system", Strip(instructions.text))])
  }

  /** The messages of a request: its instructions, then its input. */
  ghost predicate Speaks(fields: Fields, messages: seq<Message>) {
    var input := Obj(fields).Get("input");
    && messages != []
    && exists leading: seq<Message>, own: seq<Message> :: IsLeading(fields, leading) && messages == leading + own
         && if input.Str? then |own| == 1 && own[0].role == "user" && IsContent(input, own[0].content)
            else input.List? && AreMessages(input.items, own)
  }

  lemma {:induction false} TextsExactly(parts: seq<Json>, texts: seq<string>)
    ensures PartTexts(parts) == Some(texts) <==> AreTexts(parts, texts)
    decreases parts
  {
    hide Strip;
    if parts != [] && texts != [] {
      TextsExactly(parts[1..], texts[1..]);
      assert texts == [texts[0]] + texts[1..];
      assert forall i :: 1 <= i < |parts| ==> parts[i] == parts[1..][i - 1];
      assert forall i :: 1 <= i < |texts| ==> texts[i] == texts[1..][i - 1];
    }
  }

  lemma TextExactly(value: Json, text: string)
    ensures TextContent(value) == Some(text) <==> IsContent(value, text)
  {
    hide Strip, PartTexts, AreTexts, Join;
    if value.List? {
      forall texts ensures PartTexts(value.items) == Some(texts) <==> AreTexts(value.items, texts) {
        TextsExactly(value.items, texts);
      }
      if PartTexts(value.items).Some? {
        TextsAreMany(value.items, PartTexts(value.items).value);
      }
    }
  }

  lemma TextsAreMany(parts: seq<Json>, texts: seq<string>)
    requires AreTexts(parts, texts)
    ensures |texts| == |parts|
  {
  }

  lemma ItemExactly(item: Json, m: Message)
    ensures ItemMessage(item) == Some(m) <==> IsMessage(item, m)
  {
    hide IsContent, TextContent;
    if item.Obj? {
      TextExactly(item.Get("content"), m.content);
      RolesDiffer();
    }
  }

  lemma {:induction false} ItemsExactly(items: seq<Json>, messages: seq<Message>)
    ensures ItemMessages(items) == Some(messages) <==> AreMessages(items, messages)
    decreases items
  {
    hide ItemMessage, IsMessage;
    if items != [] && messages != [] {
      ItemExactly(items[0], messages[0]);
      ItemsExactly(items[1..], messages[1..]);
      assert messages == [messages[0]] + messages[1..];
      assert forall i :: 1 <= i < |items| ==> items[i] == items[1..][i - 1];
      assert forall i :: 1 <= i < |messages| ==> messages[i] == messages[1..][i - 1];
    }
  }

  /** A Responses request is sent exactly as what it speaks: instructions, then the messages of its input, in order. */
  lemma SpeaksExactly(fields: Fields, messages: seq<Message>)
    ensures ChatMessages(fields) == Some(messages) <==> Speaks(fields, messages)
  {
    hide IsContent, TextContent, ItemMessages, AreMessages, Strip;
    var leading, input := Leading(fields), Obj(fields).Get("input");
    if leading.Some? {
      assert IsLeading(fields, leading.value);
      assert forall other :: IsLeading(fields, other) ==> other == leading.value;
      var own := if |messages| >= |leading.value| then messages[|leading.value|..] else [];
      if input.Str? {
        TextExactly(input, if own != [] then own[0].content else "");
        if TextContent(input).Some? {
          TextExactly(input, TextContent(input).value);
        }
        assert |own| == 1 ==> own == [own[0]];
      } else if input.List? {
        ItemsExactly(input.items, own);
        if ItemMessages(input.items).Some? {
          ItemsExactly(input.items, ItemMessages(input.items).value);
        }
      }
      forall rest | messages == leading.value + rest ensures rest == own {
        assert messages[|leading.value|..] == rest;
      }
      if |messages| >= |leading.value| && messages[..|leading.value|] == leading.value {
        assert messages == leading.value + own;
      }
    }
  }
}
