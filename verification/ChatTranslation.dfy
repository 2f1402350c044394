/** Chat requests translated to Responses requests, and those to the chat messages a Solar provider is sent. */
module ChatTranslation {
  import opened Common
  import opened Text
  import opened Json

  type Fields = map<string, Json>

  // ----- Chat to Responses; nothing stands for the `invalid_request` error -----

  function TextItem(kind: string, text: string): Json {
    Obj(map["type" := Str(kind), "text" := Str(text)])
  }

  function UserPart(raw: Json): Option<Json> {
    if !raw.Obj? || !raw.Get("type").Str? then None
    else if raw.Get("type").text == "text" then
      if raw.fields.Keys == {"type", "text"} && raw.Get("text").Str? then
        Some(TextItem("input_text", raw.Get("text").text))
      else None
    else if raw.Get("type").text == "image_url" then
      var image := raw.Get("image_url");
      var locator := if image.Obj? then image.Get("url") else image;
      if locator.Str? && locator.text != "" then Some(Obj(map["type" := Str("input_image"), "image_url" := locator]))
      else None
    else None
  }

  function UserParts(items: seq<Json>): Option<seq<Json>> {
    if items == [] then Some([])
    else
      var first, rest := UserPart(items[0]), UserParts(items[1..]);
      if first.Some? && rest.Some? then Some([first.value] + rest.value) else None
  }

  /** `_message_content` of a user or an assistant message. */
  function MessageContent(role: string, value: Json): Option<seq<Json>> {
    if value.Str? then Some([TextItem(if role == "assistant" then "output_text" else "input_text", value.text)])
    else if role == "user" && value.List? && value.items != [] then UserParts(value.items)
    else if role == "assistant" && value.Null? then Some([])
    else None
  }

  function ToolItem(call: Json): Option<Json> {
    if !call.Obj? then None
    else
      var callee := call.Get("function");
      if call.Get("type") != Str("function") || !callee.Obj? || !call.Get("id").Str?
         || !callee.Get("name").Str? || !callee.Get("arguments").Str?
      then None
      else
        Some(Obj(map["type" := Str("function_call"), "call_id" := call.Get("id"), "name" := callee.Get("name"),
                     "arguments" := callee.Get("arguments")]))
  }

  function ToolCalls(calls: seq<Json>): Option<seq<Json>> {
    if calls == [] then Some([])
    else
      var first, rest := ToolItem(calls[0]), ToolCalls(calls[1..]);
      if first.Some? && rest.Some? then Some([first.value] + rest.value) else None
  }

  function ToolItems(message: Json): Option<seq<Json>>
    requires message.Obj?
  {
    var calls := message.Get("tool_calls");
    if calls.Null? then Some([]) else if calls.List? then ToolCalls(calls.items) else None
  }

  /** What one message adds: instructions, and input items. */
  function MessageItems(message: Json): Option<(seq<string>, seq<Json>)> {
    if !message.Obj? || !message.Get("role").Str? then None
    else
      var role, content := message.Get("role").text, message.Get("content");
      if role in {"system", "developer"} then
        if content.Str? then Some((if Strip(content.text) != "" then [content.text] else [], [])) else None
      else if role == "tool" then
        if message.Get("tool_call_id").Str? && content.Str? then
          Some(([], [Obj(map["type" := Str("function_call_output"), "call_id" := message.Get("tool_call_id"),
                             "output" := content])]))
        else None
      else if role in {"user", "assistant"} then
        var parts, tools := MessageContent(role, content), ToolItems(message);
        if parts.Some? && tools.Some? then
          Some(([], [Obj(map["role" := Str(role), "content" := List(parts.value)])] + tools.value))
        else None
      else None
  }

  function Translated(messages: seq<Json>): Option<(seq<string>, seq<Json>)> {
    if messages == [] then Some(([], []))
    else
      var first, rest := MessageItems(messages[0]), Translated(messages[1..]);
      if first.Some? && rest.Some? then Some((first.value.0 + rest.value.0, first.value.1 + rest.value.1)) else None
  }

  /** The loop over the messages. */
  method TranslateMessages(messages: seq<Json>) returns (r: Option<(seq<string>, seq<Json>)>)
    ensures r == Translated(messages)
  {
    var instructions: seq<string>, items: seq<Json> := [], [];
    assert messages[0..] == messages;
    ghost var whole := Translated(messages);
    assert whole.Some? ==> [] + whole.value.0 == whole.value.0 && [] + whole.value.1 == whole.value.1;
    for k := 0 to |messages|
      invariant var all, rest := Translated(messages), Translated(messages[k..]);
                && (all.Some? <==> rest.Some?)
                && (all.Some? ==> all.value == (instructions + rest.value.0, items + rest.value.1))
    {
      assert messages[k..][1..] == messages[k + 1..];
      var added := MessageItems(messages[k]);
      if added.None? {
        return None;
      }
      ghost var rest := Translated(messages[k + 1..]);
      if rest.Some? {
        assert instructions + (added.value.0 + rest.value.0) == (instructions + added.value.0) + rest.value.0;
        assert items + (added.value.1 + rest.value.1) == (items + added.value.1) + rest.value.1;
      }
      instructions, items := instructions + added.value.0, items + added.value.1;
    }
    assert instructions + [] == instructions && items + [] == items;
    r := Some((instructions, items));
  }

  const CAP_KEYS := ["max_tokens", "max_completion_tokens", "max_output_tokens"]

  function Caps(payload: Fields, keys: seq<string>): seq<Json> {
    if keys == [] then []
    else (if keys[0] in payload then [payload[keys[0]]] else []) + Caps(payload, keys[1..])
  }

  predicate CapsAgree(caps: seq<Json>) {
    forall i :: 0 <= i < |caps| ==> caps[i].Int? && caps[i].number > 0 && caps[i] == caps[0]
  }

  /** `_json_format`. */
  predicate IsJsonFormat(value: Fields) {
    var kind := Obj(value).Get("type");
    if kind == Str("text") || kind == Str("json_object") then value.Keys == {"type"}
    else
      && kind == Str("json_schema") && value.Keys <= {"type", "name", "schema", "strict", "description"}
      && Obj(value).Get("name").Str? && Strip(Obj(value).Get("name").text) != "" && Obj(value).Get("schema").Obj?
      && ("strict" in value ==> value["strict"].Bool?)
      && ("description" in value ==> value["description"].Str?)
  }

  /** The response format with a JSON schema lifted to the top. */
  function ResponseFormat(value: Json): Option<Fields> {
    if !value.Obj? then None
    else if value.Get("type") == Str("json_schema") then
      if value.fields.Keys == {"type", "json_schema"} && value.Get("json_schema").Obj?
         && "type" !in value.Get("json_schema").fields
      then Some(map["type" := Str("json_schema")] + value.Get("json_schema").fields)
      else None
    else Some(value.fields)
  }

  const REPLACED := {"messages", "max_tokens", "max_completion_tokens", "response_format"}

  /** `chat_request_to_responses`. */
  function ChatToResponses(payload: Json): Option<Fields> {
    if !payload.Obj? then None
    else
      var model, messages := payload.Get("model"), payload.Get("messages");
      if !model.Str? || model.text == "" || !messages.List? || messages.items == [] then None
      else
        var translated := Translated(messages.items);
        if translated.None? then None
        else
          var copied := map key | key in payload.fields && key !in REPLACED :: payload.fields[key];
          var based := copied["model" := model]["input" := List(translated.value.1)];
          var told := WithInstructions(based, translated.value.0);
          var caps := Caps(payload.fields, CAP_KEYS);
          if !CapsAgree(caps) then None
          else WithFormat(if caps == [] then told else told["max_output_tokens" := caps[0]], payload.fields)
  }

  function WithInstructions(fields: Fields, instructions: seq<string>): Fields {
    if instructions == [] then fields else fields["instructions" := Str(Join("\n\n", instructions))]
  }

  function WithFormat(fields: Fields, payload: Fields): Option<Fields> {
    if "response_format" !in payload then Some(fields)
    else
      var format := ResponseFormat(payload["response_format"]);
      if format.None? || !IsJsonFormat(format.value) || "text" in fields then None
      else Some(fields["text" := Obj(map["format" := Obj(format.value)])])
  }

  // ----- Responses to Solar chat messages; nothing stands for the guard's refusal -----

  datatype Message = Message(role: string, content: string)

  function PartTexts(parts: seq<Json>): Option<seq<string>> {
    if parts == [] then Some([])
    else
      var part, rest := parts[0], PartTexts(parts[1..]);
      if !part.Obj? || (part.Get("type") != Str("input_text") && part.Get("type") != Str("output_text")) then None
      else if !part.Get("text").Str? || Strip(part.Get("text").text) == "" || rest.None? then None
      else Some([Strip(part.Get("text").text)] + rest.value)
  }

  /** `_text_content`. */
  function TextContent(value: Json): Option<string> {
    match value
    case Str(s) => if Strip(s) != "" then Some(Strip(s)) else None
    case List(parts) =>
      var texts := PartTexts(parts);
      if texts.Some? && texts.value != [] then Some(Join("\n", texts.value)) else None
    case _ => None
  }

  function ItemMessage(item: Json): Option<Message> {
    if !item.Obj? || ("type" in item.fields && item.fields["type"] != Str("message")) then None
    else
      var role, content := item.Get("role"), TextContent(item.Get("content"));
      if !role.Str? || role.text !in {"user", "assistant", "system", "developer"} || content.None? then None
      else Some(Message(if role.text == "developer" then "system" else role.text, content.value))
  }

  function ItemMessages(items: seq<Json>): Option<seq<Message>> {
    if items == [] then Some([])
    else
      var first, rest := ItemMessage(items[0]), ItemMessages(items[1..]);
      if first.Some? && rest.Some? then Some([first.value] + rest.value) else None
  }

  function Leading(fields: Fields): Option<seq<Message>> {
    var instructions := Obj(fields).Get("instructions");
    if instructions.Null? then Some([])
    else if !instructions.Str? then None
    else Some(if Strip(instructions.text) != "" then [Message("system", Strip(instructions.text))] else [])
  }

  /** `_chat_messages`. */
  function ChatMessages(fields: Fields): Option<seq<Message>> {
    var leading, input := Leading(fields), Obj(fields).Get("input");
    if leading.None? then None
    else
      match input
      case Str(_) =>
        var content := TextContent(input);
        if content.Some? then Some(leading.value + [Message("user", content.value)]) else None
      case List(items) =>
        var messages := ItemMessages(items);
        if messages.Some? && leading.value + messages.value != [] then Some(leading.value + messages.value) else None
      case _ => None
  }

  /** `_chat_messages` as written: one message appended per input item. */
  method BuildChatMessages(fields: Fields) returns (r: Option<seq<Message>>)
    ensures r == ChatMessages(fields)
  {
    hide TextContent, ItemMessage, Strip;
    var messages: seq<Message> := [];
    var instructions := Obj(fields).Get("instructions");
    if !instructions.Null? {
      if !instructions.Str? {
        return None;
      }
      if Strip(instructions.text) != "" {
        messages := [Message("system", Strip(instructions.text))];
      }
    }
    ghost var leading := messages;
    var input := Obj(fields).Get("input");
    if input.Str? {
      var content := TextContent(input);
      return if content.Some? then Some(messages + [Message("user", content.value)]) else None;
    }
    if !input.List? {
      return None;
    }
    assert input.items[0..] == input.items;
    for k := 0 to |input.items|
      invariant var all, rest := ItemMessages(input.items), ItemMessages(input.items[k..]);
                && (all.Some? <==> rest.Some?)
                && (all.Some? ==> leading + all.value == messages + rest.value)
    {
      assert input.items[k..][1..] == input.items[k + 1..];
      var message := ItemMessage(input.items[k]);
      if message.None? {
        return None;
      }
      ghost var rest := ItemMessages(input.items[k + 1..]);
      if rest.Some? {
        assert messages + ([message.value] + rest.value) == (messages + [message.value]) + rest.value;
      }
      messages := messages + [message.value];
    }
    assert messages + [] == messages;
    r := if messages == [] then None else Some(messages);
  }

  // ----- What a chat message says -----

  /** The texts of a user or assistant message; nothing when it holds anything but text. */
  function Said(content: Json): Option<seq<string>> {
    match content
    case Str(text) => Some([text])
    case List(items) => SaidParts(items)
    case _ => None
  }

  function SaidParts(items: seq<Json>): Option<seq<string>> {
    if items == [] then Some([])
    else
      var rest := SaidParts(items[1..]);
      if items[0].Obj? && items[0].Get("type") == Str("text") && items[0].Get("text").Str? && rest.Some? then
        Some([items[0].Get("text").text] + rest.value)
      else None
  }

  function Stripped(texts: seq<string>): seq<string> {
    if texts == [] then [] else [Strip(texts[0])] + Stripped(texts[1..])
  }

  /** A user or assistant message of text only, each part of it not blank. */
  predicate SaysSomething(message: Json) {
    && message.Obj? && ToolItems(message) == Some([])
    && var texts := Said(message.Get("content"));
    && texts.Some? && texts.value != [] && "" !in Stripped(texts.value)
  }

  predicate IsSpoken(message: Json) {
    message.Obj? && (message.Get("role") == Str("user") || message.Get("role") == Str("assistant"))
  }

  predicate IsTold(message: Json) {
    message.Obj? && (message.Get("role") == Str("system") || message.Get("role") == Str("developer"))
  }

  /** Role kept, text equal up to stripping the parts and joining them by line feeds. */
  function Meaning(message: Json): Message
    requires IsSpoken(message) && SaysSomething(message)
  {
    Message(message.Get("role").text, Join("\n", Stripped(Said(message.Get("content")).value)))
  }

  /** The user and assistant messages, in order. */
  function Spoken(messages: seq<Json>): (r: seq<Json>)
    ensures forall i :: 0 <= i < |r| ==> IsSpoken(r[i])
  {
    if messages == [] then []
    else (if IsSpoken(messages[0]) then [messages[0]] else []) + Spoken(messages[1..])
  }

  /** The system and developer texts that are not blank, in order. */
  function Told(messages: seq<Json>): seq<string> {
    if messages == [] then []
    else
      (if IsTold(messages[0]) && messages[0].Get("content").Str? && Strip(messages[0].Get("content").text) != ""
       then [messages[0].Get("content").text] else [])
      + Told(messages[1..])
  }

  /** Every message is a system, developer, user or assistant message, and what users and assistants say is text. */
  predicate AllHeard(messages: seq<Json>) {
    forall i :: 0 <= i < |messages| ==> IsTold(messages[i]) || (IsSpoken(messages[i]) && SaysSomething(messages[i]))
  }

  predicate AllSay(spoken: seq<Json>) {
    forall i :: 0 <= i < |spoken| ==> IsSpoken(spoken[i]) && SaysSomething(spoken[i])
  }

  function Meanings(spoken: seq<Json>): (r: seq<Message>)
    requires AllSay(spoken)
    ensures |r| == |spoken| && forall i :: 0 <= i < |r| ==> r[i] == Meaning(spoken[i])
  {
    seq(|spoken|, i requires 0 <= i < |spoken| => Meaning(spoken[i]))
  }

  // ----- Meaning is preserved -----

  /** A translated part reads back as its stripped text; an image or a blank text is refused. */
  lemma {:induction false} PartsReadBack(items: seq<Json>)
    requires UserParts(items).Some?
    ensures var texts := SaidParts(items);
            PartTexts(UserParts(items).value)
            == if texts.Some? && "" !in Stripped(texts.value) then Some(Stripped(texts.value)) else None
    ensures |UserParts(items).value| == |items|
    ensures SaidParts(items).Some? ==> |SaidParts(items).value| == |items|
  {
    if items != [] {
      PartsReadBack(items[1..]);
      var parts, texts := UserParts(items).value, SaidParts(items);
      assert parts[1..] == UserParts(items[1..]).value;
      PartReadsBack(items[0]);
      if texts.Some? {
        assert texts.value[1..] == SaidParts(items[1..]).value;
        assert Stripped(texts.value) == [Strip(texts.value[0])] + Stripped(texts.value[1..]);
      }
    }
  }

  lemma PartReadsBack(raw: Json)
    requires UserPart(raw).Some?
    ensures raw.Obj? && UserPart(raw).value.Obj?
    ensures var part := UserPart(raw).value;
            if raw.Get("type") == Str("text") && raw.Get("text").Str? then
              part.Get("type") == Str("input_text") && part.Get("text") == raw.Get("text")
            else part.Get("type") == Str("input_image")
    ensures Str("input_image") != Str("input_text") && Str("input_image") != Str("output_text")
  {
    assert |"input_image"| == 11 && |"input_text"| == 10;
    assert "output_text"[0] == 'o';
    assert "type"[1] == 'y' && "text"[1] == 'e' && |"image_url"| == 9;
  }

  lemma {:induction false} StrippedLength(texts: seq<string>)
    ensures |Stripped(texts)| == |texts|
  {
    if texts != [] {
      StrippedLength(texts[1..]);
    }
  }

  lemma {:induction false} ContentReadsBack(role: string, content: Json)
    requires MessageContent(role, content).Some? && (role == "user" || role == "assistant")
    ensures var texts := Said(content);
            TextContent(List(MessageContent(role, content).value))
            == if texts.Some? && texts.value != [] && "" !in Stripped(texts.value)
               then Some(Join("\n", Stripped(texts.value))) else None
  {
    var parts := MessageContent(role, content).value;
    if content.Str? {
      var kind := if role == "assistant" then "output_text" else "input_text";
      assert parts == [TextItem(kind, content.text)];
      SinglePart(kind, content.text);
      assert [content.text][1..] == [] && Stripped([content.text]) == [Strip(content.text)];
    } else if content.List? {
      PartsReadBack(content.items);
      if Said(content).Some? {
        StrippedLength(Said(content).value);
      }
    }
  }

  lemma SinglePart(kind: string, text: string)
    requires kind == "output_text" || kind == "input_text"
    ensures PartTexts([TextItem(kind, text)]) == if Strip(text) == "" then None else Some([Strip(text)])
  {
    hide Strip;
    var part := TextItem(kind, text);
    assert part.Get("type") == Str(kind) && part.Get("text") == Str(text);
    assert [part][1..] == [] && [Strip(text)] + [] == [Strip(text)];
  }

  lemma {:induction false} ItemMessagesConcat(a: seq<Json>, b: seq<Json>)
    ensures var x, y := ItemMessages(a), ItemMessages(b);
            ItemMessages(a + b) == if x.Some? && y.Some? then Some(x.value + y.value) else None
  {
    hide ItemMessage;
    if a == [] {
      assert a + b == b;
      if ItemMessages(b).Some? {
        assert [] + ItemMessages(b).value == ItemMessages(b).value;
      }
    } else {
      assert (a + b)[1..] == a[1..] + b;
      ItemMessagesConcat(a[1..], b);
      var first, x, y := ItemMessage(a[0]), ItemMessages(a[1..]), ItemMessages(b);
      if first.Some? && x.Some? && y.Some? {
        assert [first.value] + (x.value + y.value) == ([first.value] + x.value) + y.value;
      }
    }
  }

  /** A user or assistant message translated and read back: its meaning, or a refusal when it does not say something. */
  lemma SpokenReadsBack(message: Json)
    requires IsSpoken(message) && MessageItems(message).Some?
    ensures var (told, items) := MessageItems(message).value;
            && told == []
            && ItemMessages(items) == if SaysSomething(message) then Some([Meaning(message)]) else None
  {
    hide Join, Strip, MessageContent, ToolItems, TextContent, Said, Stripped;
    var role, content := message.Get("role").text, message.Get("content");
    RoleNames(role);
    var parts, tools := MessageContent(role, content).value, ToolItems(message).value;
    ContentReadsBack(role, content);
    var item := Obj(map["role" := Str(role), "content" := List(parts)]);
    ItemReadsBack(role, parts);
    assert [item][1..] == [];
    ItemMessagesConcat([item], tools);
    if tools != [] {
      ToolsAreRefused(message);
    } else {
      assert [item] + tools == [item];
      var heard := ItemMessage(item);
      assert heard.Some? ==> [heard.value] + [] == [heard.value];
      assert ToolItems(message) == Some([]);
    }
  }

  lemma RoleNames(role: string)
    ensures role == "user" || role == "assistant" ==> role !in {"system", "developer"} && role != "tool"
  {
    assert "user"[0] == 'u' && "assistant"[0] == 'a' && "tool"[0] == 't' && "system"[0] == 's' && "developer"[0] == 'd';
  }

  lemma ItemReadsBack(role: string, parts: seq<Json>)
    requires role == "user" || role == "assistant"
    ensures var content := TextContent(List(parts));
            ItemMessage(Obj(map["role" := Str(role), "content" := List(parts)]))
            == if content.Some? then Some(Message(role, content.value)) else None
  {
    hide TextContent;
    RoleNames(role);
    assert |"role"| == 4 && |"content"| == 7 && "type"[0] == 't' && "role"[0] == 'r';
    var item := Obj(map["role" := Str(role), "content" := List(parts)]);
    assert "type" !in item.fields && item.Get("role") == Str(role) && item.Get("content") == List(parts);
  }

  lemma ToolsAreRefused(message: Json)
    requires message.Obj? && ToolItems(message).Some? && ToolItems(message).value != []
    ensures ItemMessages(ToolItems(message).value).None?
  {
    var calls := message.Get("tool_calls").items;
    var item := ToolItem(calls[0]).value;
    assert ToolItems(message).value[0] == item;
    assert item.fields["type"] == Str("function_call") by {
      assert "name"[0] == 'n' && |"call_id"| == 7 && |"arguments"| == 9;
    }
    assert |"function_call"| == 13 && |"message"| == 7;
  }

  /** Any other accepted message is a told one, which adds only instructions, or a tool result, which is refused. */
  lemma OthersReadBack(message: Json)
    requires MessageItems(message).Some? && !IsSpoken(message)
    ensures var (told, items) := MessageItems(message).value;
            if IsTold(message) then items == [] && ItemMessages(items) == Some([])
            else told == [] && ItemMessages(items) == None
  {
    hide Strip;
    if !IsTold(message) {
      var items := MessageItems(message).value.1;
      assert items[0].fields["type"] == Str("function_call_output") by {
        assert |"call_id"| == 7 && |"output"| == 6;
      }
      assert |"function_call_output"| == 20 && |"message"| == 7;
    }
  }

  /** What the users and assistants of a request say, in order; nothing when some message cannot be heard. */
  function Heard(messages: seq<Json>): (r: Option<seq<Message>>)
    ensures r.Some? <==> AllHeard(messages)
    ensures r.Some? ==> |r.value| == |Spoken(messages)|
  {
    if AllHeard(messages) then
      AllHeardSay(messages);
      Some(Meanings(Spoken(messages)))
    else None
  }

  lemma {:induction false} MessagesReadBack(messages: seq<Json>)
    requires Translated(messages).Some?
    ensures var (told, items) := Translated(messages).value;
            && told == Told(messages)
            && ItemMessages(items) == Heard(messages)
  {
    hide MessageItems, ItemMessage, SaysSomething, Meaning, Strip;
    if messages != [] {
      MessagesReadBack(messages[1..]);
      var first, rest := MessageItems(messages[0]).value, Translated(messages[1..]).value;
      ItemMessagesConcat(first.1, rest.1);
      FirstTold(messages[0]);
      HeardSplits(messages);
      if IsSpoken(messages[0]) {
        SpokenReadsBack(messages[0]);
      } else {
        OthersReadBack(messages[0]);
      }
      if AllHeard(messages) {
        AllHeardSay(messages);
        AllHeardSay(messages[1..]);
        assert Spoken(messages) == (if IsSpoken(messages[0]) then [messages[0]] else []) + Spoken(messages[1..]);
        assert Meanings(Spoken(messages))
            == (if IsSpoken(messages[0]) then [Meaning(messages[0])] else []) + Meanings(Spoken(messages[1..]));
      }
    }
  }

  lemma HeardSplits(messages: seq<Json>)
    requires messages != []
    ensures AllHeard(messages)
       <==> (IsTold(messages[0]) || (IsSpoken(messages[0]) && SaysSomething(messages[0]))) && AllHeard(messages[1..])
  {
    hide SaysSomething, IsTold, IsSpoken;
    assert forall i :: 1 <= i < |messages| ==> messages[i] == messages[1..][i - 1];
  }

  lemma FirstTold(message: Json)
    requires MessageItems(message).Some?
    ensures MessageItems(message).value.0
         == if IsTold(message) && message.Get("content").Str? && Strip(message.Get("content").text) != ""
            then [message.Get("content").text] else []
    ensures IsTold(message) ==> !IsSpoken(message)
  {
    hide Strip;
    RoleNames("user");
    RoleNames("assistant");
  }

  lemma {:induction false} AllHeardSay(messages: seq<Json>)
    requires AllHeard(messages)
    ensures AllSay(Spoken(messages))
  {
    hide SaysSomething, IsTold;
    if messages != [] {
      HeardSplits(messages);
      AllHeardSay(messages[1..]);
      ToldIsNotSpoken(messages[0]);
    }
  }

  lemma ToldIsNotSpoken(message: Json)
    ensures !(IsTold(message) && IsSpoken(message))
  {
    RoleNames("user");
    RoleNames("assistant");
  }

  // ----- The leading system message -----

  lemma SomethingStays(s: string, k: nat)
    requires k < |s| && !IsSpace(s[k])
    ensures Strip(s) != ""
  {
    var a, b := StripCuts(s);
  }

  lemma NotBlankHasText(s: string) returns (k: nat)
    requires Strip(s) != ""
    ensures k < |s| && !IsSpace(s[k])
  {
    var a, b := StripCuts(s);
    k := a;
    assert Strip(s)[0] == s[a];
  }

  /** Joined texts are not blank when the first is not. */
  lemma JoinIsNotBlank(texts: seq<string>)
    requires texts != [] && Strip(texts[0]) != ""
    ensures Strip(Join("\n\n", texts)) != ""
  {
    var k := NotBlankHasText(texts[0]);
    assert Join("\n\n", texts)[k] == texts[0][k];
    SomethingStays(Join("\n\n", texts), k);
  }

  lemma {:induction false} ToldIsNotBlank(messages: seq<Json>)
    requires Told(messages) != []
    ensures Strip(Told(messages)[0]) != ""
  {
    hide Strip;
    var first := messages[0];
    if !(IsTold(first) && first.Get("content").Str? && Strip(first.Get("content").text) != "") {
      assert Told(messages) == [] + Told(messages[1..]) == Told(messages[1..]);
      ToldIsNotBlank(messages[1..]);
    }
  }

  /** The translated request carries the input items and, when there are any, the joined instructions. */
  lemma TranslatedFields(payload: Json)
    requires ChatToResponses(payload).Some?
    ensures payload.Obj? && payload.Get("messages").List? && Translated(payload.Get("messages").items).Some?
    ensures var result := Obj(ChatToResponses(payload).value);
            var (told, items) := Translated(payload.Get("messages").items).value;
            && result.Get("input") == List(items)
            && result.Get("instructions")
               == (if told == [] then payload.Get("instructions") else Str(Join("\n\n", told)))
  {
    hide Translated, Caps, CapsAgree, IsJsonFormat, ResponseFormat, Join;
    KeysDiffer();
  }

  lemma KeysDiffer()
    ensures "text" !in {"input", "instructions"} && "model" !in {"input", "instructions"}
    ensures "max_output_tokens" !in {"input", "instructions"}
    ensures "input" != "instructions" && "input" !in REPLACED && "instructions" !in REPLACED
  {
    assert |"input"| == 5 && |"instructions"| == 12 && |"max_tokens"| == 10 && |"messages"| == 8;
    assert "input"[0] == 'i' && "model"[0] == 'm';
  }

  /** The leading system message of a chat request: its system and developer texts, else its own instructions. */
  function LeadingOf(payload: Fields, messages: seq<Json>): Option<seq<Message>> {
    var told := Told(messages);
    if told != [] then Some([Message("system", Strip(Join("\n\n", told)))]) else Leading(payload)
  }

  /**
   * A chat request that translates reaches the Solar provider with its meaning, or not at all. It is sent exactly when
   * no message is a tool result, calls a tool, holds an image or has a blank part, and something is left to say; then
   * users' and assistants' messages keep order, role and text, behind one system message with all system and
   * developer texts in order.
   */
  lemma TranslationKeepsMeaning(payload: Json)
    requires ChatToResponses(payload).Some?
    ensures payload.Obj? && payload.Get("messages").List?
    ensures var messages := payload.Get("messages").items;
            var leading := LeadingOf(payload.fields, messages);
            ChatMessages(ChatToResponses(payload).value)
            == if leading.None? || !AllHeard(messages) || leading.value + Heard(messages).value == [] then None
               else Some(leading.value + Heard(messages).value)
  {
    hide Translated, ChatToResponses, ItemMessages, AllHeard, Spoken, Told, Join, Strip;
    TranslatedFields(payload);
    var messages := payload.Get("messages").items;
    MessagesReadBack(messages);
    var told := Told(messages);
    if told != [] {
      ToldIsNotBlank(messages);
      JoinIsNotBlank(told);
    }
  }
}
