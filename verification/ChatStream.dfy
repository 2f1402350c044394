/**
 * The incremental reader that turns Responses events into Chat chunks, and the provider's event
 * writer: chunking does not matter, and reading back what was written gives the text (a subset of
 * section 9.2 of the WHATWG HTML standard, at character level).
 */
module ChatStream {
  import opened Common
  import opened Text
  import opened Json

  /** The parts of a Chat chunk that vary: the role chunk, a content chunk, the stop chunk, `[DONE]`. */
  datatype Chunk = Role | Content(text: string) | Stop | DoneMark

  datatype Codec = Codec(parse: string -> Option<Json>, dump: Json -> string)

  // ----- Events -----

  /** The line boundaries of `str.splitlines()`. */
  predicate IsLineBreak(c: char) {
    '\n' <= c <= '\r' || '\U{1C}' <= c <= '\U{1E}' || IsWideBreak(c)
  }

  /** The line boundaries that JSON text may contain unescaped. */
  predicate IsWideBreak(c: char) {
    c == '\U{85}' || c == '\U{2028}' || c == '\U{2029}'
  }

  /** `splitlines()`; a carriage return and the line feed after it are one boundary. */
  function Lines(s: string): seq<string> {
    if s == "" then []
    else
      var n := LineLength(s);
      if n == |s| then [s]
      else if s[n] == '\r' && n + 1 < |s| && s[n + 1] == '\n' then [s[..n]] + Lines(s[n + 2..])
      else [s[..n]] + Lines(s[n + 1..])
  }

  function LineLength(s: string): (n: nat)
    ensures n <= |s| && forall k :: 0 <= k < n ==> !IsLineBreak(s[k])
    ensures n < |s| ==> IsLineBreak(s[n])
  {
    if s == "" || IsLineBreak(s[0]) then 0 else 1 + LineLength(s[1..])
  }

  function DataLines(lines: seq<string>): seq<string> {
    if lines == [] then []
    else (if "data:" <= lines[0] then [Strip(lines[0][5..])] else []) + DataLines(lines[1..])
  }

  /** What one event adds to the output, whether the role chunk is out, and whether reading ends. */
  datatype Effect = Effect(output: seq<Chunk>, role: bool, finished: bool)

  function RoleOnce(role: bool): seq<Chunk> {
    if role then [] else [Role]
  }

  /** An event whose data decodes to `value`. */
  function HandleValue(value: Option<Json>, role: bool): Effect {
    if value.None? || !value.value.Obj? then Effect([], role, false)
    else
      var kind, delta := value.value.Get("type"), value.value.Get("delta");
      if kind == Str("response.output_text.delta") && delta.Str? then
        Effect(RoleOnce(role) + [Content(delta.text)], true, false)
      else if kind == Str("response.completed") then Effect(RoleOnce(role) + [Stop, DoneMark], true, true)
      else Effect([], role, false)
  }

  function Handle(codec: Codec, event: string, role: bool): Effect {
    var lines := DataLines(Lines(event));
    if lines == [] then Effect([], role, false)
    else
      var data := Join("\n", lines);
      if data == "[DONE]" then Effect([], role, true) else HandleValue(codec.parse(data), role)
  }

  // ----- The reader -----

  /** Position of the first blank line: two line feeds in a row. */
  function BlankLine(s: string): (r: Option<nat>)
    ensures r.Some? ==> r.value + 2 <= |s| && s[r.value] == s[r.value + 1] == '\n'
    ensures r.None? ==> forall k :: 0 <= k < |s| - 1 ==> !(s[k] == s[k + 1] == '\n')
    ensures r.Some? ==> forall k :: 0 <= k < r.value ==> !(s[k] == s[k + 1] == '\n')
  {
    if |s| < 2 then None
    else if s[0] == s[1] == '\n' then Some(0)
    else
      var r := BlankLine(s[1..]);
      if r.None? then None else Some(r.value + 1)
  }

  /** The buffer is dropped when reading ends; nothing looks at it again. */
  datatype Reader = Reader(buffer: string, role: bool, finished: bool)

  const START := Reader("", false, false)

  /** Handles the complete events of the buffer. */
  function Drain(codec: Codec, r: Reader): (seq<Chunk>, Reader)
    decreases |r.buffer|
  {
    var i := BlankLine(r.buffer);
    if r.finished || i.None? then ([], r)
    else
      var effect := Handle(codec, r.buffer[..i.value], r.role);
      if effect.finished then (effect.output, Reader("", effect.role, true))
      else
        var (more, last) := Drain(codec, Reader(r.buffer[i.value + 2..], effect.role, false));
        (effect.output + more, last)
  }

  function Feed(codec: Codec, r: Reader, piece: string): (seq<Chunk>, Reader) {
    if r.finished then ([], r) else Drain(codec, r.(buffer := r.buffer + piece))
  }

  function FeedAll(codec: Codec, r: Reader, pieces: seq<string>): (seq<Chunk>, Reader)
    decreases |pieces|
  {
    if pieces == [] then ([], r)
    else
      var (first, r1) := Feed(codec, r, pieces[0]);
      var (rest, r2) := FeedAll(codec, r1, pieces[1..]);
      (first + rest, r2)
  }

  /** What follows when the source ends before a completion event. */
  function Close(r: Reader): seq<Chunk> {
    if r.finished then [] else RoleOnce(r.role) + [Stop, DoneMark]
  }

  function ReadAll(codec: Codec, pieces: seq<string>): seq<Chunk> {
    var (output, r) := FeedAll(codec, START, pieces);
    output + Close(r)
  }

  function Concat(pieces: seq<string>): string {
    if pieces == [] then "" else pieces[0] + Concat(pieces[1..])
  }

  /** `output` and what the reader still makes of `pieces` are what reading promises. */
  ghost predicate Pending(codec: Codec, r: Reader, pieces: seq<string>, output: seq<Chunk>, all: (seq<Chunk>, Reader)) {
    var rest := FeedAll(codec, r, pieces);
    all == (output + rest.0, rest.1)
  }

  /** The same inside one piece, with the events of the buffer still to handle. */
  ghost predicate Draining(codec: Codec, r: Reader, output: seq<Chunk>, all: (seq<Chunk>, Reader)) {
    var rest := Drain(codec, r);
    all == (output + rest.0, rest.1)
  }

  lemma DrainingStep(codec: Codec, r: Reader, output: seq<Chunk>, all: (seq<Chunk>, Reader))
    requires Draining(codec, r, output, all) && !r.finished && BlankLine(r.buffer).Some?
    ensures var i := BlankLine(r.buffer).value;
            var e := Handle(codec, r.buffer[..i], r.role);
            var rest := if e.finished then "" else r.buffer[i + 2..];
            Draining(codec, Reader(rest, e.role, e.finished), output + e.output, all)
  {
    hide Handle;
    var i := BlankLine(r.buffer).value;
    var e := Handle(codec, r.buffer[..i], r.role);
    if e.finished {
      assert (output + e.output) + [] == output + e.output;
    } else {
      var more := Drain(codec, Reader(r.buffer[i + 2..], e.role, false)).0;
      assert (output + e.output) + more == output + (e.output + more);
    }
  }

  lemma PendingStep(codec: Codec, r: Reader, pieces: seq<string>, output: seq<Chunk>, all: (seq<Chunk>, Reader),
                    next: Reader, added: seq<Chunk>)
    requires Pending(codec, r, pieces, output, all) && pieces != [] && (added, next) == Feed(codec, r, pieces[0])
    ensures Pending(codec, next, pieces[1..], output + added, all)
  {
    hide Feed;
    var rest := FeedAll(codec, next, pieces[1..]).0;
    assert (output + added) + rest == output + (added + rest);
  }

  /** `chat_stream_from_responses`: buffer, event loop, early end, closing chunks. */
  method ChatStreamFromResponses(codec: Codec, source: seq<string>) returns (output: seq<Chunk>)
    ensures output == ReadAll(codec, source)
  {
    hide Handle, Drain, FeedAll;
    var role, finished, buffer := false, false, "";
    output := [];
    var k := 0;
    ghost var all := FeedAll(codec, START, source);
    assert source[0..] == source && [] + all.0 == all.0;
    while k < |source| && !finished
      invariant k <= |source|
      invariant Pending(codec, Reader(buffer, role, finished), source[k..], output, all)
    {
      ghost var before, start := Reader(buffer, role, finished), output;
      buffer := buffer + source[k];
      ghost var fed := Feed(codec, before, source[k]);
      ghost var target := (start + fed.0, fed.1);
      while BlankLine(buffer).Some? && !finished
        invariant Draining(codec, Reader(buffer, role, finished), output, target)
        decreases |buffer|, !finished
      {
        DrainingStep(codec, Reader(buffer, role, finished), output, target);
        var i := BlankLine(buffer).value;
        var effect := Handle(codec, buffer[..i], role);
        output := output + effect.output;
        role, finished := effect.role, effect.finished;
        buffer := if finished then "" else buffer[i + 2..];
      }
      DrainedReaderIsFinal(codec, Reader(buffer, role, finished), output, target);
      PendingStep(codec, before, source[k..], start, all, fed.1, fed.0);
      assert source[k..][1..] == source[k + 1..];
      k := k + 1;
    }
    FinishedReadsNothing(codec, Reader(buffer, role, finished), source[k..]);
    assert output + [] == output;
    if !finished {
      output := output + (RoleOnce(role) + [Stop, DoneMark]);
    }
  }

  lemma DrainedReaderIsFinal(codec: Codec, r: Reader, output: seq<Chunk>, all: (seq<Chunk>, Reader))
    requires Draining(codec, r, output, all) && (r.finished || BlankLine(r.buffer).None?)
    ensures all == (output, r)
  {
    assert output + [] == output;
  }

  lemma {:induction false} FinishedReadsNothing(codec: Codec, r: Reader, pieces: seq<string>)
    requires r.finished || pieces == []
    ensures FeedAll(codec, r, pieces) == ([], r)
    decreases |pieces|
  {
    if pieces != [] {
      FinishedReadsNothing(codec, r, pieces[1..]);
      var none: seq<Chunk> := [];
      assert none + [] == none;
    }
  }

  // ----- Chunking does not matter -----

  lemma BlankLineStays(a: string, b: string)
    requires BlankLine(a).Some?
    ensures BlankLine(a + b) == BlankLine(a)
  {
    var i, j := BlankLine(a).value, BlankLine(a + b);
    assert (a + b)[i] == (a + b)[i + 1] == '\n';
    assert j.Some? && j.value <= i;
    assert (a + b)[j.value] == a[j.value] && (a + b)[j.value + 1] == a[j.value + 1];
  }

  /** One unfolding of `Drain`. */
  lemma DrainUnfolds(codec: Codec, r: Reader)
    requires !r.finished && BlankLine(r.buffer).Some?
    ensures var i := BlankLine(r.buffer).value;
            var e := Handle(codec, r.buffer[..i], r.role);
            var more := Drain(codec, Reader(r.buffer[i + 2..], e.role, false));
            Drain(codec, r)
            == if e.finished then (e.output, Reader("", e.role, true)) else (e.output + more.0, more.1)
  {
    hide Handle;
  }

  lemma DrainSettled(codec: Codec, r: Reader)
    requires r.finished || BlankLine(r.buffer).None?
    ensures Drain(codec, r) == ([], r)
  {
  }

  /** Handling what is there and then the rest is handling it all at once. */
  lemma {:induction false} DrainThenFeed(codec: Codec, r: Reader, piece: string)
    requires !r.finished
    ensures var first := Drain(codec, r);
            var second := Feed(codec, first.1, piece);
            Drain(codec, r.(buffer := r.buffer + piece)) == (first.0 + second.0, second.1)
    decreases |r.buffer|
  {
    hide Handle, Drain, BlankLine;
    if BlankLine(r.buffer).None? {
      DrainSettled(codec, r);
      var second := Feed(codec, Drain(codec, r).1, piece);
      assert [] + second.0 == second.0;
    } else {
      DrainThenFeedStep(codec, r, piece);
      var i := BlankLine(r.buffer).value;
      var effect := Handle(codec, r.buffer[..i], r.role);
      if !effect.finished {
        DrainThenFeed(codec, Reader(r.buffer[i + 2..], effect.role, false), piece);
      }
    }
  }

  lemma DrainThenFeedStep(codec: Codec, r: Reader, piece: string)
    requires !r.finished && BlankLine(r.buffer).Some?
    ensures var i := BlankLine(r.buffer).value;
            var effect := Handle(codec, r.buffer[..i], r.role);
            var next := Reader(r.buffer[i + 2..], effect.role, false);
            var first, last := Drain(codec, next), Drain(codec, next.(buffer := next.buffer + piece));
            var second := Feed(codec, first.1, piece);
            effect.finished || last == (first.0 + second.0, second.1)
            ==> var first', second' := Drain(codec, r), Feed(codec, Drain(codec, r).1, piece);
                Drain(codec, r.(buffer := r.buffer + piece)) == (first'.0 + second'.0, second'.1)
  {
    hide Handle, Drain, BlankLine;
    BlankLineStays(r.buffer, piece);
    DrainUnfolds(codec, r);
    DrainUnfolds(codec, r.(buffer := r.buffer + piece));
    var i := BlankLine(r.buffer).value;
    var effect := Handle(codec, r.buffer[..i], r.role);
    assert (r.buffer + piece)[..i] == r.buffer[..i];
    assert (r.buffer + piece)[i + 2..] == r.buffer[i + 2..] + piece;
    if effect.finished {
      assert effect.output + [] == effect.output;
    } else {
      var first := Drain(codec, Reader(r.buffer[i + 2..], effect.role, false));
      var second := Feed(codec, first.1, piece);
      assert (effect.output + first.0) + second.0 == effect.output + (first.0 + second.0);
    }
  }

  /** A reader between two pieces: no complete event is waiting. */
  ghost predicate Settled(r: Reader) {
    r.finished || BlankLine(r.buffer).None?
  }

  lemma {:induction false} DrainSettles(codec: Codec, r: Reader)
    ensures Settled(Drain(codec, r).1)
    decreases |r.buffer|
  {
    hide Handle;
    var i := BlankLine(r.buffer);
    if !r.finished && i.Some? {
      var effect := Handle(codec, r.buffer[..i.value], r.role);
      if !effect.finished {
        DrainSettles(codec, Reader(r.buffer[i.value + 2..], effect.role, false));
      }
    }
  }

  lemma {:induction false} PiecesAreOnePiece(codec: Codec, r: Reader, pieces: seq<string>)
    requires Settled(r)
    ensures FeedAll(codec, r, pieces) == Feed(codec, r, Concat(pieces))
    decreases |pieces|
  {
    hide Handle, BlankLine, Drain;
    if r.finished || pieces == [] {
      FinishedReadsNothing(codec, r, pieces);
      DrainSettled(codec, r);
      assert r.buffer + "" == r.buffer;
    } else {
      var one := r.(buffer := r.buffer + pieces[0]);
      DrainSettles(codec, one);
      DrainThenFeed(codec, one, Concat(pieces[1..]));
      assert r.buffer + Concat(pieces) == one.buffer + Concat(pieces[1..]);
      PiecesAreOnePiece(codec, Drain(codec, one).1, pieces[1..]);
    }
  }

  /** The output depends only on the concatenated text, not on how it was cut into pieces. */
  lemma ChunkingIsIrrelevant(codec: Codec, pieces: seq<string>, others: seq<string>)
    requires Concat(pieces) == Concat(others)
    ensures ReadAll(codec, pieces) == ReadAll(codec, others)
  {
    hide FeedAll, Feed;
    PiecesAreOnePiece(codec, START, pieces);
    PiecesAreOnePiece(codec, START, others);
  }

  // ----- The provider's writer -----

  function EventValue(kind: string, number: int, fields: map<string, Json>): Json {
    Obj(map["type" := Str(kind), "sequence_number" := Int(number)] + fields)
  }

  function EventText(codec: Codec, value: Json): string
    requires value.Obj? && value.Get("type").Str?
  {
    "event: " + value.Get("type").text + "\ndata: " + codec.dump(value) + "\n\n"
  }

  function PendingResponse(id: string, model: string, createdAt: int): map<string, Json> {
    map["id" := Str(id), "object" := Str("response"), "created_at" := Int(createdAt), "model" := Str(model),
        "status" := Str("in_progress"), "output" := List([]), "error" := Null, "incomplete_details" := Null,
        "usage" := Null]
  }

  function OutputPart(text: string): Json {
    Obj(map["type" := Str("output_text"), "text" := Str(text), "annotations" := List([]), "logprobs" := List([])])
  }

  function OutputItem(itemId: string, status: string, content: seq<Json>): Json {
    Obj(map["id" := Str(itemId), "type" := Str("message"), "status" := Str(status), "role" := Str("assistant"),
            "content" := List(content)])
  }

  function Position(itemId: string): map<string, Json> {
    map["item_id" := Str(itemId), "output_index" := Int(0), "content_index" := Int(0)]
  }

  function DeltaValue(itemId: string, text: string): Json {
    EventValue("response.output_text.delta", 4, Position(itemId)["delta" := Str(text)]["logprobs" := List([])])
  }

  function DoneResponse(id: string, itemId: string, model: string, text: string, createdAt: int,
                        completedAt: int): Json {
    var item := OutputItem(itemId, "completed", [OutputPart(text)]);
    Obj(PendingResponse(id, model, createdAt)["status" := Str("completed")]["completed_at" := Int(completedAt)]
        ["output" := List([item])])
  }

  function DoneValue(id: string, itemId: string, model: string, text: string, createdAt: int, completedAt: int): Json {
    var response := DoneResponse(id, itemId, model, text, createdAt, completedAt);
    EventValue("response.completed", 8, map["response" := response])
  }

  /** The nine events of `_provider_responses_stream`, in order. */
  function ProviderValues(id: string, itemId: string, model: string, text: string, createdAt: int,
                          completedAt: int): seq<Json> {
    var pending := PendingResponse(id, model, createdAt);
    var item := OutputItem(itemId, "completed", [OutputPart(text)]);
    [EventValue("response.created", 0, map["response" := Obj(pending)]),
     EventValue("response.in_progress", 1, map["response" := Obj(pending)]),
     EventValue("response.output_item.added", 2,
                map["output_index" := Int(0), "item" := OutputItem(itemId, "in_progress", [])]),
     EventValue("response.content_part.added", 3, Position(itemId)["part" := OutputPart("")]),
     DeltaValue(itemId, text),
     EventValue("response.output_text.done", 5, Position(itemId)["text" := Str(text)]["logprobs" := List([])]),
     EventValue("response.content_part.done", 6, Position(itemId)["part" := OutputPart(text)]),
     EventValue("response.output_item.done", 7, map["output_index" := Int(0), "item" := item]),
     DoneValue(id, itemId, model, text, createdAt, completedAt)]
  }

  predicate IsEvent(value: Json) {
    value.Obj? && value.Get("type").Str? && forall c :: c in value.Get("type").text ==> !IsLineBreak(c)
  }

  function EventTexts(codec: Codec, values: seq<Json>): seq<string>
    requires forall k :: 0 <= k < |values| ==> IsEvent(values[k])
  {
    if values == [] then []
    else
      assert IsEvent(values[0]);
      [EventText(codec, values[0])] + EventTexts(codec, values[1..])
  }

  // ----- Reading back -----

  predicate WideText(s: string) {
    exists c :: c in s && IsWideBreak(c)
  }

  /** A string, key or value, somewhere in `value` holds a wide line break. */
  predicate HasWideBreak(value: Json)
    decreases value
  {
    match value
    case Str(s) => WideText(s)
    case List(items) => exists i :: 0 <= i < |items| && HasWideBreak(items[i])
    case Obj(fields) =>
      exists key :: key in fields && (WideText(key) || HasWideBreak(fields[key]))
    case _ => false
  }

  /** JSON text: round trip, braces outside, control characters escaped, wide breaks exactly where strings have them. */
  ghost predicate WritesJson(codec: Codec) {
    forall value: Json :: value.Obj? ==>
      var d := codec.dump(value);
      && codec.parse(d) == Some(value)
      && |d| >= 2 && d[0] == '{' && d[|d| - 1] == '}'
      && (forall k :: 0 <= k < |d| ==> d[k] >= ' ')
      && ((exists k :: 0 <= k < |d| && IsWideBreak(d[k])) <==> HasWideBreak(value))
  }

  /** Cut at a wide break, which lies inside a string, JSON text does not decode, alone or with a further line. */
  ghost predicate RejectsOpenStrings(codec: Codec) {
    forall value: Json, k: nat :: value.Obj? && k < |codec.dump(value)| && IsWideBreak(codec.dump(value)[k]) ==>
      forall rest: string :: Broken(codec, Strip(codec.dump(value)[..k]), rest)
  }

  ghost predicate Broken(codec: Codec, piece: string, rest: string) {
    codec.parse(piece).None? && codec.parse(piece + "\n" + rest).None?
  }

  ghost predicate Lawful(codec: Codec) {
    WritesJson(codec) && RejectsOpenStrings(codec)
  }

  /** What one written event does to the reader: it is understood unless its JSON text holds a wide break. */
  function EffectOf(value: Json, role: bool): Effect {
    if HasWideBreak(value) then Effect([], role, false) else HandleValue(Some(value), role)
  }

  function EventHead(value: Json): string
    requires value.Obj? && value.Get("type").Str?
  {
    "event: " + value.Get("type").text
  }

  lemma LineLengthIs(s: string, n: nat)
    requires n <= |s| && forall k :: 0 <= k < n ==> !IsLineBreak(s[k])
    requires n < |s| ==> IsLineBreak(s[n])
    ensures LineLength(s) == n
  {
  }

  /** `splitlines()` around a boundary that is one character. */
  lemma LinesCut(s: string, n: nat)
    requires n <= |s| && s != "" && forall k :: 0 <= k < n ==> !IsLineBreak(s[k])
    requires n < |s| ==> IsLineBreak(s[n]) && s[n] != '\r'
    ensures Lines(s) == if n == |s| then [s] else [s[..n]] + Lines(s[n + 1..])
  {
    LineLengthIs(s, n);
  }

  /** A data line is cut at the first wide break of its JSON text, if there is one. */
  lemma DataLineCut(d: string) returns (n: nat, rest: seq<string>)
    requires forall k :: 0 <= k < |d| ==> d[k] >= ' '
    ensures n <= |d| && (n < |d| ==> IsWideBreak(d[n])) && forall k :: 0 <= k < n ==> !IsWideBreak(d[k])
    ensures Lines("data: " + d) == ["data: " + d[..n]] + rest && (n == |d| ==> rest == [])
  {
    hide Lines;
    var line := "data: " + d;
    n := LineLength(d);
    assert forall k :: 0 <= k < |d| && IsLineBreak(d[k]) ==> IsWideBreak(d[k]);
    assert forall k :: 6 <= k < |line| ==> line[k] == d[k - 6];
    LinesCut(line, 6 + n);
    assert line[..6 + n] == "data: " + d[..n];
    rest := if n == |d| then [] else Lines(line[6 + n + 1..]);
    assert n == |d| ==> line == line[..6 + n] && [line] == [line] + rest;
  }

  /** The lines of an event: its head, then its data line up to the first wide break, then the pieces after it. */
  lemma EventLines(codec: Codec, value: Json) returns (n: nat, rest: seq<string>)
    requires WritesJson(codec) && IsEvent(value)
    ensures var d := codec.dump(value);
            && n <= |d| && (n < |d| <==> HasWideBreak(value)) && (n < |d| ==> IsWideBreak(d[n]))
            && Lines(EventHead(value) + "\ndata: " + d) == [EventHead(value), "data: " + d[..n]] + rest
            && (n == |d| ==> rest == [])
  {
    hide HasWideBreak, Lines;
    var d, head := codec.dump(value), EventHead(value);
    n, rest := DataLineCut(d);
    HeadLine(value, d);
    assert [head] + (["data: " + d[..n]] + rest) == [head, "data: " + d[..n]] + rest;
  }

  lemma HeadHasNoBreak(value: Json)
    requires IsEvent(value)
    ensures var head := EventHead(value); forall k :: 0 <= k < |head| ==> !IsLineBreak(head[k])
  {
    var kind, head := value.Get("type").text, EventHead(value);
    assert forall k :: 7 <= k < |head| ==> head[k] == kind[k - 7];
    assert "event: "[..] == ['e', 'v', 'e', 'n', 't', ':', ' '];
    assert forall k :: 0 <= k < 7 ==> head[k] == "event: "[k];
  }

  lemma HeadLine(value: Json, d: string)
    requires IsEvent(value)
    ensures Lines(EventHead(value) + "\ndata: " + d) == [EventHead(value)] + Lines("data: " + d)
  {
    hide Lines;
    var head := EventHead(value);
    var s := head + "\ndata: " + d;
    HeadHasNoBreak(value);
    assert forall k :: 0 <= k < |head| ==> s[k] == head[k];
    assert s[|head|] == '\n';
    LinesCut(s, |head|);
    assert s[..|head|] == head && s[|head| + 1..] == "data: " + d;
  }

  lemma StripLeadingSpace(s: string)
    requires s != "" && !IsSpace(s[0])
    ensures Strip(" " + s) == Strip(s)
  {
    assert (" " + s)[1..] == s;
  }

  /** The data of a written event: its JSON text, or the beginning up to a wide break and perhaps a further line. */
  lemma EventData(codec: Codec, value: Json, n: nat, rest: seq<string>)
    requires WritesJson(codec) && IsEvent(value) && n <= |codec.dump(value)| && n >= 1
    ensures var lines := DataLines([EventHead(value), "data: " + codec.dump(value)[..n]] + rest);
            lines == [Strip(codec.dump(value)[..n])] + DataLines(rest)
  {
    var d := codec.dump(value)[..n];
    var all := [EventHead(value), "data: " + d] + rest;
    assert !("data:" <= all[0]) by { assert all[0][0] == 'e'; }
    assert all[1..] == ["data: " + d] + rest && all[1..][1..] == rest;
    assert ("data: " + d)[5..] == " " + d;
    StripLeadingSpace(d);
  }

  lemma JoinFirst(first: string, rest: seq<string>)
    ensures rest == [] ==> Join("\n", [first] + rest) == first
    ensures rest != [] ==> Join("\n", [first] + rest) == first + "\n" + Join("\n", rest)
  {
    assert ([first] + rest)[1..] == rest;
  }

  lemma WrittenEventIsUnderstood(codec: Codec, value: Json, role: bool)
    requires Lawful(codec) && IsEvent(value)
    ensures Handle(codec, EventHead(value) + "\ndata: " + codec.dump(value), role) == EffectOf(value, role)
  {
    var d := codec.dump(value);
    var n, rest := EventLines(codec, value);
    assert n >= 1;
    EventData(codec, value, n, rest);
    JoinFirst(Strip(d[..n]), DataLines(rest));
    if n == |d| {
      assert d[..n] == d;
      StripTrimmed(d);
    } else {
      var more := DataLines(rest);
      assert Broken(codec, Strip(d[..n]), Join("\n", more));
      BrokenIsNotDone(codec, d, n, more);
    }
  }

  /** A cut JSON text is never the end marker: it still starts with its brace. */
  lemma BrokenIsNotDone(codec: Codec, d: string, n: nat, more: seq<string>)
    requires 1 <= n <= |d| && d[0] == '{'
    ensures Join("\n", [Strip(d[..n])] + more) != "[DONE]"
  {
    var a, b := StripCuts(d[..n]);
    assert a == 0 && b > 0 by {
      assert d[..n][0] == '{' && !IsSpace('{');
    }
    JoinFirst(Strip(d[..n]), more);
    assert Join("\n", [Strip(d[..n])] + more)[0] == '{';
  }

  /** A written event is exactly one event for the reader. */
  lemma FeedWrittenEvent(codec: Codec, value: Json, role: bool)
    requires Lawful(codec) && IsEvent(value)
    ensures var e := EffectOf(value, role);
            Feed(codec, Reader("", role, false), EventText(codec, value)) == (e.output, Reader("", e.role, e.finished))
  {
    hide HandleValue, HasWideBreak, Handle, EffectOf, RejectsOpenStrings, EventHead;
    var body := EventHead(value) + "\ndata: " + codec.dump(value);
    assert "" + (body + "\n\n") == body + "\n\n";
    OneEvent(value, codec.dump(value), body);
    WrittenEventIsUnderstood(codec, value, role);
    assert EventText(codec, value) == body + "\n\n" by { EventTextIs(codec, value); }
    DrainOneEvent(codec, body, role);
  }

  lemma EventTextIs(codec: Codec, value: Json)
    requires value.Obj? && value.Get("type").Str?
    ensures EventText(codec, value) == EventHead(value) + "\ndata: " + codec.dump(value) + "\n\n"
  {
  }

  lemma DrainOneEvent(codec: Codec, body: string, role: bool)
    requires BlankLine(body + "\n\n") == Some(|body|)
    ensures var e := Handle(codec, body, role);
            Drain(codec, Reader(body + "\n\n", role, false)) == (e.output, Reader("", e.role, e.finished))
  {
    hide Handle, BlankLine, Drain;
    var s := body + "\n\n";
    DrainUnfolds(codec, Reader(s, role, false));
    assert s[..|body|] == body && s[|body| + 2..] == "";
    var e := Handle(codec, body, role);
    assert BlankLine("").None?;
    DrainSettled(codec, Reader("", e.role, e.finished));
    assert e.output + [] == e.output;
  }

  lemma OneEvent(value: Json, d: string, body: string)
    requires IsEvent(value) && d != "" && (forall k :: 0 <= k < |d| ==> d[k] >= ' ')
    requires body == EventHead(value) + "\ndata: " + d
    ensures BlankLine(body + "\n\n") == Some(|body|)
  {
    hide BlankLine;
    var head, s := EventHead(value), body + "\n\n";
    HeadHasNoBreak(value);
    assert forall k :: 0 <= k < |head| ==> s[k] == head[k];
    assert forall k :: 0 <= k < 7 ==> s[|head| + k] == "\ndata: "[k];
    assert forall k :: |head| + 7 <= k < |body| ==> s[k] == d[k - |head| - 7];
    assert forall k :: |head| < k < |body| ==> s[k] != '\n';
    assert s[|body|] == s[|body| + 1] == '\n';
    var i := BlankLine(s);
    assert s[i.value + 1] == '\n';
  }

  /** The effects of a sequence of written events. */
  function EffectsOf(values: seq<Json>, role: bool): Effect {
    if values == [] then Effect([], role, false)
    else
      var first := EffectOf(values[0], role);
      if first.finished then first
      else
        var rest := EffectsOf(values[1..], first.role);
        Effect(first.output + rest.output, rest.role, rest.finished)
  }

  lemma {:induction false} FeedWrittenEvents(codec: Codec, values: seq<Json>, role: bool)
    requires Lawful(codec) && forall k :: 0 <= k < |values| ==> IsEvent(values[k])
    ensures var e := EffectsOf(values, role);
            FeedAll(codec, Reader("", role, false), EventTexts(codec, values))
            == (e.output, Reader("", e.role, e.finished))
  {
    if values != [] {
      hide EffectOf, EventText, Lawful;
      FeedWrittenEvent(codec, values[0], role);
      var first := EffectOf(values[0], role);
      var texts := EventTexts(codec, values);
      assert texts[0] == EventText(codec, values[0]) && texts[1..] == EventTexts(codec, values[1..]);
      if first.finished {
        FinishedReadsNothing(codec, Reader("", first.role, true), texts[1..]);
        assert first.output + [] == first.output;
      } else {
        FeedWrittenEvents(codec, values[1..], first.role);
      }
    }
  }

  // ----- What the nine events read back to -----

  /** The strings the writer itself puts into the two events that matter. */
  lemma PlainWords()
    ensures forall s :: s in {"type", "sequence_number", "item_id", "output_index", "content_index"} ==> !WideText(s)
    ensures forall s :: s in {"delta", "logprobs", "response.output_text.delta"} ==> !WideText(s)
  {
  }

  lemma PlainAdd(fields: map<string, Json>, key: string, value: Json)
    requires !HasWideBreak(Obj(fields)) && !WideText(key) && !HasWideBreak(value)
    ensures !HasWideBreak(Obj(fields[key := value]))
  {
    hide WideText;
  }

  lemma PlainUnion(a: map<string, Json>, b: map<string, Json>)
    requires !HasWideBreak(Obj(a)) && !HasWideBreak(Obj(b))
    ensures !HasWideBreak(Obj(a + b))
  {
    hide WideText;
  }

  lemma WideMember(fields: map<string, Json>, key: string)
    requires key in fields && HasWideBreak(fields[key])
    ensures HasWideBreak(Obj(fields))
  {
  }

  lemma PlainPosition(itemId: string)
    requires !WideText(itemId)
    ensures !HasWideBreak(Obj(Position(itemId)))
  {
    PlainWords();
    hide WideText;
    var none: map<string, Json> := map[];
    PlainAdd(none, "item_id", Str(itemId));
    PlainAdd(none["item_id" := Str(itemId)], "output_index", Int(0));
    PlainAdd(none["item_id" := Str(itemId)]["output_index" := Int(0)], "content_index", Int(0));
    assert Position(itemId) == none["item_id" := Str(itemId)]["output_index" := Int(0)]["content_index" := Int(0)];
  }

  lemma PlainEvent(kind: string, number: int, fields: map<string, Json>)
    requires !WideText(kind) && !HasWideBreak(Obj(fields))
    ensures !HasWideBreak(EventValue(kind, number, fields))
  {
    PlainWords();
    hide WideText;
    var none: map<string, Json> := map[];
    PlainAdd(none, "type", Str(kind));
    PlainAdd(none["type" := Str(kind)], "sequence_number", Int(number));
    assert map["type" := Str(kind), "sequence_number" := Int(number)]
        == none["type" := Str(kind)]["sequence_number" := Int(number)];
    PlainUnion(map["type" := Str(kind), "sequence_number" := Int(number)], fields);
  }

  lemma WideField(kind: string, number: int, fields: map<string, Json>, key: string)
    requires key in fields && HasWideBreak(fields[key])
    ensures HasWideBreak(EventValue(kind, number, fields))
  {
    hide HasWideBreak;
    WideMember(EventValue(kind, number, fields).fields, key);
  }

  /** The delta event is lost exactly when the text holds a wide break. */
  lemma DeltaEvent(itemId: string, text: string)
    requires !WideText(itemId)
    ensures HasWideBreak(DeltaValue(itemId, text)) <==> WideText(text)
  {
    if WideText(text) {
      var fields := Position(itemId)["delta" := Str(text)]["logprobs" := List([])];
      WideField("response.output_text.delta", 4, fields, "delta");
    } else {
      PlainDelta(itemId, text);
    }
  }

  lemma PlainDelta(itemId: string, text: string)
    requires !WideText(itemId) && !WideText(text)
    ensures !HasWideBreak(DeltaValue(itemId, text))
  {
    PlainWords();
    hide WideText;
    PlainPosition(itemId);
    PlainAdd(Position(itemId), "delta", Str(text));
    PlainAdd(Position(itemId)["delta" := Str(text)], "logprobs", List([]));
    PlainEvent("response.output_text.delta", 4, Position(itemId)["delta" := Str(text)]["logprobs" := List([])]);
  }

  /** The completion event is lost with it: it repeats the text. */
  lemma DoneEventIsWide(id: string, itemId: string, model: string, text: string, createdAt: int, completedAt: int)
    requires WideText(text)
    ensures HasWideBreak(DoneValue(id, itemId, model, text, createdAt, completedAt))
  {
    hide WideText;
    assert HasWideBreak(Str(text));
    var part := OutputPart(text);
    WideMember(part.fields, "text");
    var item := OutputItem(itemId, "completed", [part]);
    assert [part][0] == part && HasWideBreak(List([part]));
    WideMember(item.fields, "content");
    assert [item][0] == item && HasWideBreak(List([item]));
    var done := DoneResponse(id, itemId, model, text, createdAt, completedAt);
    WideMember(done.fields, "output");
    WideField("response.completed", 8, map["response" := done], "response");
  }

  // ----- The round trip -----

  /** Events whose kind the reader does not know leave no trace, understood or not. */
  predicate Unremarkable(value: Json) {
    && IsEvent(value)
    && value.Get("type") != Str("response.output_text.delta") && value.Get("type") != Str("response.completed")
  }

  lemma {:induction false} UnremarkableEvents(before: seq<Json>, values: seq<Json>, role: bool)
    requires forall k :: 0 <= k < |before| ==> Unremarkable(before[k])
    ensures EffectsOf(before + values, role) == EffectsOf(values, role)
  {
    hide HasWideBreak;
    if before == [] {
      assert before + values == values;
    } else {
      assert Unremarkable(before[0]);
      assert (before + values)[1..] == before[1..] + values;
      UnremarkableEvents(before[1..], values, role);
      var rest := EffectsOf(values, role);
      assert [] + rest.output == rest.output;
    }
  }

  /** The kinds the reader passes over. */
  predicate PassedOver(kind: string) {
    && (forall c :: c in kind ==> !IsLineBreak(c))
    && kind != "response.output_text.delta" && kind != "response.completed"
  }

  lemma KindsBeforeText()
    ensures PassedOver("response.created") && PassedOver("response.in_progress")
    ensures PassedOver("response.output_item.added") && PassedOver("response.content_part.added")
  {
    assert "response.output_item.added"[16] != "response.output_text.delta"[16];
  }

  lemma KindsAfterText()
    ensures PassedOver("response.output_text.done") && PassedOver("response.content_part.done")
    ensures PassedOver("response.output_item.done")
  {
  }

  lemma PassedOverEvent(kind: string, number: int, fields: map<string, Json>)
    requires PassedOver(kind) && "type" !in fields
    ensures Unremarkable(EventValue(kind, number, fields))
  {
    hide IsLineBreak;
    assert EventValue(kind, number, fields).Get("type") == Str(kind);
  }

  lemma TextEvents(id: string, itemId: string, model: string, text: string, createdAt: int, completedAt: int)
    ensures IsEvent(DeltaValue(itemId, text)) && IsEvent(DoneValue(id, itemId, model, text, createdAt, completedAt))
  {
    assert DeltaValue(itemId, text).Get("type") == Str("response.output_text.delta");
    assert DoneValue(id, itemId, model, text, createdAt, completedAt).Get("type") == Str("response.completed");
    KindsOfText();
  }

  lemma KindsOfText()
    ensures forall c :: c in "response.output_text.delta" ==> !IsLineBreak(c)
    ensures forall c :: c in "response.completed" ==> !IsLineBreak(c)
  {
  }

  lemma EventsAroundText(id: string, itemId: string, model: string, text: string, createdAt: int, completedAt: int)
    returns (before: seq<Json>, between: seq<Json>)
    ensures ProviderValues(id, itemId, model, text, createdAt, completedAt)
         == before + ([DeltaValue(itemId, text)]
                      + (between + [DoneValue(id, itemId, model, text, createdAt, completedAt)]))
    ensures forall k :: 0 <= k < |before| ==> Unremarkable(before[k])
    ensures forall k :: 0 <= k < |between| ==> Unremarkable(between[k])
    ensures IsEvent(DeltaValue(itemId, text)) && IsEvent(DoneValue(id, itemId, model, text, createdAt, completedAt))
  {
    hide PassedOver, Unremarkable, EventValue, DeltaValue, DoneValue;
    KindsBeforeText();
    KindsAfterText();
    TextEvents(id, itemId, model, text, createdAt, completedAt);
    var pending := Obj(PendingResponse(id, model, createdAt));
    var values := ProviderValues(id, itemId, model, text, createdAt, completedAt);
    PassedOverEvent("response.created", 0, map["response" := pending]);
    PassedOverEvent("response.in_progress", 1, map["response" := pending]);
    PassedOverEvent("response.output_item.added", 2,
                    map["output_index" := Int(0), "item" := OutputItem(itemId, "in_progress", [])]);
    PassedOverEvent("response.content_part.added", 3, Position(itemId)["part" := OutputPart("")]);
    PassedOverEvent("response.output_text.done", 5, Position(itemId)["text" := Str(text)]["logprobs" := List([])]);
    PassedOverEvent("response.content_part.done", 6, Position(itemId)["part" := OutputPart(text)]);
    var item := OutputItem(itemId, "completed", [OutputPart(text)]);
    PassedOverEvent("response.output_item.done", 7, map["output_index" := Int(0), "item" := item]);
    before, between := values[..4], values[5..8];
  }

  lemma ProviderValuesAreEvents(id: string, itemId: string, model: string, text: string, createdAt: int,
                                completedAt: int)
    ensures var values := ProviderValues(id, itemId, model, text, createdAt, completedAt);
            forall k :: 0 <= k < |values| ==> IsEvent(values[k])
  {
    hide ProviderValues, IsEvent, DeltaValue, DoneValue;
    var before, between := EventsAroundText(id, itemId, model, text, createdAt, completedAt);
  }

  /** Everything `_provider_responses_stream` writes. */
  function ProviderStream(codec: Codec, id: string, itemId: string, model: string, text: string, createdAt: int,
                          completedAt: int): string
  {
    ProviderValuesAreEvents(id, itemId, model, text, createdAt, completedAt);
    Concat(EventTexts(codec, ProviderValues(id, itemId, model, text, createdAt, completedAt)))
  }

  /** All nine events, with the delta event and the completion event understood or not. */
  lemma ProviderEffects(id: string, itemId: string, model: string, text: string, createdAt: int, completedAt: int)
    requires !WideText(itemId)
    ensures var e := EffectsOf(ProviderValues(id, itemId, model, text, createdAt, completedAt), false);
            e.output + Close(Reader("", e.role, e.finished))
            == if WideText(text) then [Role, Stop, DoneMark] else [Role, Content(text), Stop, DoneMark]
  {
    hide RoleOnce, EffectsOf, DeltaValue, DoneValue, ProviderValues, WideText, HasWideBreak, Close, Unremarkable;
    hide HandleValue;
    var before, between := EventsAroundText(id, itemId, model, text, createdAt, completedAt);
    var delta, done := DeltaValue(itemId, text), DoneValue(id, itemId, model, text, createdAt, completedAt);
    UnremarkableEvents(before, [delta] + (between + [done]), false);
    DeltaEvent(itemId, text);
    DeltaIsHandled(itemId, text);
    if WideText(text) {
      DoneEventIsWide(id, itemId, model, text, createdAt, completedAt);
    }
    var role := !WideText(text);
    UnremarkableEvents(between, [done], role);
    DoneIsHandled(id, itemId, model, text, createdAt, completedAt, role);
    OneMoreEffect(delta, between + [done], role, if role then [Role, Content(text)] else [],
                  RoleOnce(role) + [Stop, DoneMark]);
    RoleChunk(role);
  }

  lemma RoleChunk(role: bool)
    ensures RoleOnce(role) == if role then [] else [Role]
  {
  }

  lemma OneMoreEffect(first: Json, rest: seq<Json>, role: bool, added: seq<Chunk>, ending: seq<Chunk>)
    requires EffectOf(first, false) == Effect(added, role, false)
    requires var e := EffectsOf(rest, role); e.output + Close(Reader("", e.role, e.finished)) == ending
    ensures var e := EffectsOf([first] + rest, false);
            e.output + Close(Reader("", e.role, e.finished)) == added + ending
  {
    hide EffectOf;
    assert ([first] + rest)[1..] == rest;
    var e := EffectsOf(rest, role);
    assert (added + e.output) + Close(Reader("", e.role, e.finished)) == added + ending;
  }

  lemma DeltaIsHandled(itemId: string, text: string)
    ensures HandleValue(Some(DeltaValue(itemId, text)), false) == Effect([Role, Content(text)], true, false)
  {
    var value := DeltaValue(itemId, text);
    assert value.Get("type") == Str("response.output_text.delta") && value.Get("delta") == Str(text);
    assert RoleOnce(false) + [Content(text)] == [Role, Content(text)];
  }

  /** Whether the completion event is understood or not, the ending is the same. */
  lemma DoneIsHandled(id: string, itemId: string, model: string, text: string, createdAt: int, completedAt: int,
                      role: bool)
    ensures var e := EffectsOf([DoneValue(id, itemId, model, text, createdAt, completedAt)], role);
            e.output + Close(Reader("", e.role, e.finished)) == RoleOnce(role) + [Stop, DoneMark]
  {
    hide HasWideBreak;
    var value := DoneValue(id, itemId, model, text, createdAt, completedAt);
    assert value.Get("type") == Str("response.completed");
    assert [value][1..] == [];
  }

  // ----- The answer without streaming -----

  /** `_output_text` of a decoded response: the direct text, else the text of every output part in order. */
  function OutputText(body: map<string, Json>): string {
    if "output_text" in body && body["output_text"].Str? then body["output_text"].text
    else if "output" in body && body["output"].List? then ItemsText(body["output"].items)
    else ""
  }

  function ItemsText(items: seq<Json>): string {
    if items == [] then ""
    else
      (if items[0].Obj? && items[0].Get("content").List? then PartsText(items[0].Get("content").items) else "")
      + ItemsText(items[1..])
  }

  function PartsText(parts: seq<Json>): string {
    if parts == [] then ""
    else
      (if parts[0].Obj? && parts[0].Get("type") == Str("output_text") && parts[0].Get("text").Str?
       then parts[0].Get("text").text else "")
      + PartsText(parts[1..])
  }

  /** `_output_text` as written: sections gathered item by item, part by part. */
  method CollectOutputText(body: map<string, Json>) returns (text: string)
    ensures text == OutputText(body)
  {
    hide PartsText;
    if "output_text" in body && body["output_text"].Str? {
      return body["output_text"].text;
    }
    text := "";
    if "output" in body && body["output"].List? {
      var items := body["output"].items;
      for i := 0 to |items|
        invariant text + ItemsText(items[i..]) == ItemsText(items)
      {
        assert items[i..][1..] == items[i + 1..];
        var item := items[i];
        if item.Obj? && item.Get("content").List? {
          var section := CollectParts(item.Get("content").items);
          assert text + (section + ItemsText(items[i + 1..])) == (text + section) + ItemsText(items[i + 1..]);
          text := text + section;
        } else {
          assert "" + ItemsText(items[i + 1..]) == ItemsText(items[i + 1..]);
        }
      }
      assert items[|items|..] == [] && text + "" == text;
    }
  }

  method CollectParts(parts: seq<Json>) returns (text: string)
    ensures text == PartsText(parts)
  {
    text := "";
    for j := 0 to |parts|
      invariant text + PartsText(parts[j..]) == PartsText(parts)
    {
      assert parts[j..][1..] == parts[j + 1..];
      var part := parts[j];
      if part.Obj? && part.Get("type") == Str("output_text") && part.Get("text").Str? {
        var section := part.Get("text").text;
        assert text + (section + PartsText(parts[j + 1..])) == (text + section) + PartsText(parts[j + 1..]);
        text := text + section;
      } else {
        assert "" + PartsText(parts[j + 1..]) == PartsText(parts[j + 1..]);
      }
    }
    assert parts[|parts|..] == [] && text + "" == text;
  }

  /** The response body built from a provider answer. */
  function ProviderBody(id: string, model: string, text: string): map<string, Json> {
    var part := Obj(map["type" := Str("output_text"), "text" := Str(text)]);
    var item := Obj(map["type" := Str("message"), "role" := Str("assistant"), "content" := List([part])]);
    map["id" := Str(id), "object" := Str("response"), "model" := Str(model), "status" := Str("completed"),
        "output" := List([item])]
  }

  lemma BodyText(id: string, model: string, text: string)
    ensures OutputText(ProviderBody(id, model, text)) == text
  {
    var part := Obj(map["type" := Str("output_text"), "text" := Str(text)]);
    var item := Obj(map["type" := Str("message"), "role" := Str("assistant"), "content" := List([part])]);
    assert [part][1..] == [] && [item][1..] == [];
    assert PartsText([part]) == text + "" == text;
    assert ItemsText([item]) == text + "" == text;
    assert "output_text" !in ProviderBody(id, model, text) by {
      assert |"output_text"| == 11;
    }
  }

  function ContentOf(chunks: seq<Chunk>): string {
    if chunks == [] then ""
    else (if chunks[0].Content? then chunks[0].text else "") + ContentOf(chunks[1..])
  }

  /**
   * A provider answer read back from its event stream, however the stream is cut: one role chunk, the text,
   * one stop and one end marker. The content is the text of the answer without streaming exactly when that text
   * has no wide line break; with one, both the delta and the completion event are lost.
   */
  lemma StreamAgreesWithResponse(codec: Codec, pieces: seq<string>, id: string, itemId: string, model: string,
                                 text: string, createdAt: int, completedAt: int)
    requires Lawful(codec) && !WideText(itemId)
    requires Concat(pieces) == ProviderStream(codec, id, itemId, model, text, createdAt, completedAt)
    ensures var plain := OutputText(ProviderBody(id, model, text));
            && ReadAll(codec, pieces)
               == (if WideText(text) then [Role, Stop, DoneMark] else [Role, Content(plain), Stop, DoneMark])
            && (ContentOf(ReadAll(codec, pieces)) == plain <==> !WideText(text))
  {
    hide Lawful, WideText, IsEvent, OutputText, ProviderBody, ProviderValues, EffectsOf;
    var values := ProviderValues(id, itemId, model, text, createdAt, completedAt);
    ProviderValuesAreEvents(id, itemId, model, text, createdAt, completedAt);
    ChunkingIsIrrelevant(codec, pieces, EventTexts(codec, values));
    FeedWrittenEvents(codec, values, false);
    ProviderEffects(id, itemId, model, text, createdAt, completedAt);
    BodyText(id, model, text);
    ContentOfChunks(text);
  }

  lemma ContentOfChunks(text: string)
    ensures ContentOf([Role, Stop, DoneMark]) == "" && ContentOf([Role, Content(text), Stop, DoneMark]) == text
    ensures WideText(text) ==> text != ""
  {
    assert [Role, Stop, DoneMark][1..] == [Stop, DoneMark] && [Stop, DoneMark][1..] == [DoneMark];
    assert [Role, Content(text), Stop, DoneMark][1..] == [Content(text), Stop, DoneMark];
    assert [Content(text), Stop, DoneMark][1..] == [Stop, DoneMark] && [DoneMark][1..] == [];
  }
}
