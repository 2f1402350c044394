/**
 * What the event-stream reader makes of any stream: how the text falls into events and lines, what an event says, and
 * which chunks follow from that.
 */
module StreamReading {
  import opened ChatStream
  import opened Common
  import opened Json
  import opened Text

  // ----- Lines -----

  /** The characters that end a line. */
  const LINE_ENDS := {'\n', '\U{B}', '\U{C}', '\r', '\U{1C}', '\U{1D}', '\U{1E}', '\U{85}', '\U{2028}', '\U{2029}'}

  lemma LineEnds(c: char)
    ensures IsLineBreak(c) <==> c in LINE_ENDS
  {
  }

  /** One line boundary: a single character, or a carriage return with its line feed. */
  predicate IsBoundary(s: string) {
    s == "\r\n" || (|s| == 1 && s[0] in LINE_ENDS)
  }

  function Interleaved(lines: seq<string>, ends: seq<string>): string
    requires |ends| == |lines|
  {
    if lines == [] then "" else lines[0] + ends[0] + Interleaved(lines[1..], ends[1..])
  }

  /** The lines of a text with their boundaries; only a last line that is not empty may lack one. */
  ghost predicate AreLines(s: string, lines: seq<string>, ends: seq<string>)
    decreases |lines|
  {
    && |ends| == |lines| && s == Interleaved(lines, ends)
    && (lines != [] ==>
          && (forall c :: c in lines[0] ==> c !in LINE_ENDS)
          && (IsBoundary(ends[0]) || (|lines| == 1 && ends[0] == "" && lines[0] != ""))
          && (ends[0] == "\r" ==> !("\n" <= Interleaved(lines[1..], ends[1..])))
          && AreLines(Interleaved(lines[1..], ends[1..]), lines[1..], ends[1..]))
  }

  lemma {:induction false} LinesExactly(s: string) returns (ends: seq<string>)
    ensures AreLines(s, Lines(s), ends)
    decreases |s|
  {
    hide IsLineBreak;
    if s == "" {
      ends := [];
    } else {
      var n := LineLength(s);
      var width := if n == |s| then 0 else if s[n] == '\r' && n + 1 < |s| && s[n + 1] == '\n' then 2 else 1;
      var rest := LinesExactly(s[n + width..]);
      ends := [s[n..n + width]] + rest;
      LineInFront(s, n, width, Lines(s[n + width..]), rest);
    }
  }

  lemma LinesStep(s: string, n: nat, width: nat)
    requires s != "" && n == LineLength(s)
    requires width == if n == |s| then 0 else if s[n] == '\r' && n + 1 < |s| && s[n + 1] == '\n' then 2 else 1
    ensures Lines(s) == [s[..n]] + Lines(s[n + width..])
  {
    hide IsLineBreak;
    if n == |s| {
      assert s[n..] == "" && s[..n] == s && Lines("") == [];
    }
  }

  lemma LineInFront(s: string, n: nat, width: nat, lines: seq<string>, ends: seq<string>)
    requires s != "" && n == LineLength(s) && n + width <= |s| && AreLines(s[n + width..], lines, ends)
    requires width == if n == |s| then 0 else if s[n] == '\r' && n + 1 < |s| && s[n + 1] == '\n' then 2 else 1
    requires lines == Lines(s[n + width..])
    ensures AreLines(s, Lines(s), [s[n..n + width]] + ends)
  {
    hide IsLineBreak, Lines;
    LinesStep(s, n, width);
    var rest := s[n + width..];
    LinesOfNothing(rest);
    assert Interleaved(lines, ends) == rest by { LinesSpell(rest, lines, ends); }
    FrontBoundary(s, n, width);
    forall c | c in s[..n] ensures c !in LINE_ENDS {
      LineEnds(c);
    }
    LineBehind(s, s[..n], s[n..n + width], rest, lines, ends);
  }

  lemma LinesOfNothing(s: string)
    ensures s == "" ==> Lines(s) == []
  {
  }

  lemma LinesSpell(s: string, lines: seq<string>, ends: seq<string>)
    requires AreLines(s, lines, ends)
    ensures |ends| == |lines| && Interleaved(lines, ends) == s
  {
  }

  lemma ThreeSlices(s: string, a: nat, b: nat)
    requires a <= b <= |s|
    ensures s == s[..a] + s[a..b] + s[b..]
  {
  }

  lemma FrontBoundary(s: string, n: nat, width: nat)
    requires n == LineLength(s) && n + width <= |s|
    requires width == if n == |s| then 0 else if s[n] == '\r' && n + 1 < |s| && s[n + 1] == '\n' then 2 else 1
    ensures s == s[..n] + s[n..n + width] + s[n + width..]
    ensures width == 0 ==> s[n..n + width] == "" && s[n + width..] == ""
    ensures width > 0 ==> IsBoundary(s[n..n + width])
    ensures s[n..n + width] == "\r" ==> !("\n" <= s[n + width..])
  {
    hide IsLineBreak, LineLength;
    ThreeSlices(s, n, n + width);
    if n < |s| {
      LineEnds(s[n]);
    }
    var end, rest := s[n..n + width], s[n + width..];
    if width == 1 {
      assert end == [s[n]];
      assert rest != [] ==> rest[0] == s[n + 1];
    } else if width == 2 {
      assert end == ['\r', '\n'];
    }
  }

  lemma LineBehind(s: string, line: string, end: string, rest: string, lines: seq<string>, ends: seq<string>)
    requires s != "" && s == line + end + rest && AreLines(rest, lines, ends) && |ends| == |lines|
    requires forall c :: c in line ==> c !in LINE_ENDS
    requires end == "" ==> rest == "" && lines == []
    requires end != "" ==> IsBoundary(end)
    requires end == "\r" ==> !("\n" <= rest)
    ensures AreLines(s, [line] + lines, [end] + ends)
  {
    hide IsLineBreak;
    assert ([line] + lines)[1..] == lines && ([end] + ends)[1..] == ends;
  }

  // ----- Events -----

  /** The leftmost blank line of a text is behind `event`. */
  ghost predicate EndsFirst(s: string, event: string) {
    && event + "\n\n" <= s && forall k :: 0 <= k < |event| ==> !(s[k] == '\n' && s[k + 1] == '\n')
  }

  /** A text cut at its blank lines, from left to right; `rest` has none. */
  ghost predicate IsCut(s: string, events: seq<string>, rest: string)
    decreases |events|
  {
    if events == [] then rest == s && forall event :: !EndsFirst(s, event)
    else EndsFirst(s, events[0]) && IsCut(s[|events[0]| + 2..], events[1..], rest)
  }

  datatype Said = Nothing | Delta(text: string) | Completed | Ended

  /** `kept` lists in order exactly the lines that carry data, and `data` what they carry, without blanks around it. */
  ghost predicate CarriesData(lines: seq<string>, kept: seq<nat>, data: seq<string>) {
    && |data| == |kept|
    && (forall j :: 0 <= j < |kept| ==>
          kept[j] < |lines| && "data:" <= lines[kept[j]] && data[j] == Strip(lines[kept[j]][5..]))
    && (forall i, j :: 0 <= i < j < |kept| ==> kept[i] < kept[j])
    && (forall k :: 0 <= k < |lines| && "data:" <= lines[k] ==> k in kept)
  }

  /** What data says once decoded. */
  predicate ValueSays(value: Option<Json>, said: Said) {
    if value.Some? && value.value.Obj? && value.value.Get("type") == Str("response.completed") then said == Completed
    else if value.Some? && value.value.Obj? && value.value.Get("type") == Str("response.output_text.delta")
            && value.value.Get("delta").Str? then said == Delta(value.value.Get("delta").text)
    else said == Nothing
  }

  /** What an event says: nothing without data; otherwise what its data lines, joined by line feeds, decode to. */
  ghost predicate Says(codec: Codec, event: string, said: Said) {
    exists lines, ends, kept, data :: AreLines(event, lines, ends) && CarriesData(lines, kept, data)
      && if data == [] then said == Nothing
         else if Join("\n", data) == "[DONE]" then said == Ended
         else ValueSays(codec.parse(Join("\n", data)), said)
  }

  function SaidBy(codec: Codec, event: string): Said {
    var lines := DataLines(Lines(event));
    if lines == [] then Nothing
    else if Join("\n", lines) == "[DONE]" then Ended
    else SaidByValue(codec.parse(Join("\n", lines)))
  }

  function SaidByValue(value: Option<Json>): Said {
    if value.None? || !value.value.Obj? then Nothing
    else if value.value.Get("type") == Str("response.output_text.delta") && value.value.Get("delta").Str? then
      Delta(value.value.Get("delta").text)
    else if value.value.Get("type") == Str("response.completed") then Completed
    else Nothing
  }

  lemma NoData()
    ensures CarriesData([], [], [])
  {
  }

  /** The data carried behind the first line. */
  ghost predicate CarriesBehind(lines: seq<string>, kept: seq<nat>, data: seq<string>) {
    && |data| == |kept|
    && (forall j :: 0 <= j < |kept| ==>
          0 < kept[j] < |lines| && "data:" <= lines[kept[j]] && data[j] == Strip(lines[kept[j]][5..]))
    && (forall i, j :: 0 <= i < j < |kept| ==> kept[i] < kept[j])
    && (forall k :: 0 < k < |lines| && "data:" <= lines[k] ==> k in kept)
  }

  lemma DataLater(lines: seq<string>, rest: seq<nat>, kept: seq<nat>, data: seq<string>)
    requires lines != [] && CarriesData(lines[1..], rest, data)
    requires |kept| == |rest| && forall j :: 0 <= j < |rest| ==> kept[j] == rest[j] + 1
    ensures CarriesBehind(lines, kept, data)
  {
    hide Strip;
    forall k | 0 < k < |lines| && "data:" <= lines[k] ensures k in kept {
      assert lines[1..][k - 1] == lines[k];
      var j :| 0 <= j < |rest| && rest[j] == k - 1;
      assert kept[j] == k;
    }
  }

  lemma DataInFront(lines: seq<string>, kept: seq<nat>, data: seq<string>)
    requires lines != [] && "data:" <= lines[0] && CarriesBehind(lines, kept, data)
    ensures CarriesData(lines, [0] + kept, [Strip(lines[0][5..])] + data)
  {
    hide Strip;
    var all := [0] + kept;
    assert all[0] == 0 && forall k :: k in kept ==> k in all;
  }

  lemma NoDataInFront(lines: seq<string>, kept: seq<nat>, data: seq<string>)
    requires lines != [] && !("data:" <= lines[0]) && CarriesBehind(lines, kept, data)
    ensures CarriesData(lines, kept, data)
  {
    hide Strip;
  }

  lemma {:induction false} DataExactly(lines: seq<string>) returns (kept: seq<nat>)
    ensures CarriesData(lines, kept, DataLines(lines))
  {
    hide Strip, CarriesData, CarriesBehind;
    if lines == [] {
      kept := [];
      NoData();
    } else {
      var rest := DataExactly(lines[1..]);
      var data := DataLines(lines[1..]);
      kept := seq(|rest|, j requires 0 <= j < |rest| => rest[j] + 1);
      DataLater(lines, rest, kept, data);
      if "data:" <= lines[0] {
        DataInFront(lines, kept, data);
        kept := [0] + kept;
      } else {
        NoDataInFront(lines, kept, data);
        assert [] + data == data;
      }
    }
  }

  lemma SaidExactly(codec: Codec, event: string)
    ensures Says(codec, event, SaidBy(codec, event))
  {
    hide Lines, AreLines, DataLines, CarriesData, Join;
    var ends := LinesExactly(event);
    var kept := DataExactly(Lines(event));
  }

  // ----- Answers -----

  function TextsIn(said: seq<Said>): seq<Chunk> {
    if said == [] then []
    else (if said[0].Delta? then [Content(said[0].text)] else []) + TextsIn(said[1..])
  }

  predicate Stops(said: Said) {
    said.Completed? || said.Ended?
  }

  /** Event `n` is the first that stops the reading, or none does. */
  ghost predicate StopsAt(said: seq<Said>, n: nat) {
    && n <= |said| && (n < |said| ==> Stops(said[n])) && forall i :: 0 <= i < n ==> !Stops(said[i])
  }

  /**
   * The role once in front, the deltas up to the event that stops the reading, and one stop and end marker; where the
   * source itself announces its end, they are missing, and the role too if there was no delta.
   */
  ghost predicate IsAnswerTo(said: seq<Said>, output: seq<Chunk>) {
    exists n: nat :: StopsAt(said, n)
      && var texts := TextsIn(said[..n]);
         output == if n < |said| && said[n].Ended? then RoleOnce(texts == []) + texts
                   else [Role] + texts + [Chunk.Stop, DoneMark]
  }

  function AllSaid(codec: Codec, events: seq<string>): seq<Said> {
    if events == [] then [] else [SaidBy(codec, events[0])] + AllSaid(codec, events[1..])
  }

  /** The chunks of what is said, the role still to come or already out. */
  function Answered(said: seq<Said>, role: bool): seq<Chunk> {
    if said == [] then RoleOnce(role) + [Chunk.Stop, DoneMark]
    else
      match said[0]
      case Nothing => Answered(said[1..], role)
      case Delta(text) => RoleOnce(role) + [Content(text)] + Answered(said[1..], true)
      case Completed => RoleOnce(role) + [Chunk.Stop, DoneMark]
      case Ended => []
  }

  lemma BlankLineExactly(s: string)
    ensures var r := BlankLine(s);
            && (r.Some? ==> EndsFirst(s, s[..r.value]))
            && forall event :: EndsFirst(s, event) ==> r == Some(|event|)
  {
    var r := BlankLine(s);
    if r.Some? {
      assert s[..r.value] + "\n\n" == s[..r.value + 2];
    }
    forall event | EndsFirst(s, event) ensures r == Some(|event|) {
      assert s[|event|] == (event + "\n\n")[|event|] && s[|event| + 1] == (event + "\n\n")[|event| + 1];
    }
  }

  lemma HandleSays(codec: Codec, event: string, role: bool)
    ensures var e, said := Handle(codec, event, role), SaidBy(codec, event);
            && e.finished == Stops(said)
            && (said.Delta? ==> e.output == RoleOnce(role) + [Content(said.text)] && e.role)
            && (said.Completed? ==> e.output == RoleOnce(role) + [Chunk.Stop, DoneMark])
            && (said.Nothing? || said.Ended? ==> e.output == [] && e.role == role)
  {
    hide DataLines, Lines, Join;
  }

  /** Draining a buffer handles the events it is cut into, up to the one that stops the reading. */
  lemma {:induction false} DrainAnswers(codec: Codec, buffer: string, role: bool)
    returns (events: seq<string>, rest: string)
    ensures IsCut(buffer, events, rest)
    ensures var (output, last) := Drain(codec, Reader(buffer, role, false));
            output + Close(last) == Answered(AllSaid(codec, events), role)
    decreases |buffer|
  {
    hide Handle, SaidBy, EndsFirst, BlankLine;
    BlankLineExactly(buffer);
    var i := BlankLine(buffer);
    if i.None? {
      events, rest := [], buffer;
      DrainSettled(codec, Reader(buffer, role, false));
      assert [] + Close(Reader(buffer, role, false)) == RoleOnce(role) + [Chunk.Stop, DoneMark];
    } else {
      var event := buffer[..i.value];
      var effect := Handle(codec, event, role);
      HandleSays(codec, event, role);
      DrainUnfolds(codec, Reader(buffer, role, false));
      var more;
      more, rest := DrainAnswers(codec, buffer[i.value + 2..], effect.role);
      events := [event] + more;
      assert events[1..] == more;
      EventInFront(codec, event, more, role, effect, Drain(codec, Reader(buffer[i.value + 2..], effect.role, false)));
    }
  }

  lemma EventInFront(codec: Codec, event: string, more: seq<string>, role: bool, effect: Effect,
                     drained: (seq<Chunk>, Reader))
    requires effect == Handle(codec, event, role)
    requires drained.0 + Close(drained.1) == Answered(AllSaid(codec, more), effect.role)
    ensures var (output, last) := if effect.finished then (effect.output, Reader("", effect.role, true))
                                  else (effect.output + drained.0, drained.1);
            output + Close(last) == Answered(AllSaid(codec, [event] + more), role)
  {
    hide Handle, SaidBy;
    HandleSays(codec, event, role);
    var said := AllSaid(codec, [event] + more);
    assert ([event] + more)[1..] == more && said[1..] == AllSaid(codec, more);
    if effect.finished {
      assert effect.output + [] == effect.output;
    } else {
      assert (effect.output + drained.0) + Close(drained.1) == effect.output + (drained.0 + Close(drained.1));
      assert [] + Answered(said[1..], role) == Answered(said[1..], role);
    }
  }

  lemma {:induction false} FirstStop(said: seq<Said>) returns (n: nat)
    ensures StopsAt(said, n)
  {
    if said == [] || Stops(said[0]) {
      n := 0;
    } else {
      n := FirstStop(said[1..]);
      assert forall i :: 1 <= i <= n ==> i < |said| ==> said[i] == said[1..][i - 1];
      n := n + 1;
    }
  }

  lemma {:induction false} AnsweredExactly(said: seq<Said>, role: bool, n: nat)
    requires StopsAt(said, n)
    ensures var texts := TextsIn(said[..n]);
            Answered(said, role)
            == if n < |said| && said[n].Ended? then (if texts == [] then [] else RoleOnce(role)) + texts
               else RoleOnce(role) + texts + [Chunk.Stop, DoneMark]
    decreases n
  {
    if n == 0 {
      assert said[..0] == [];
    } else {
      hide TextsIn, Answered;
      AnswerGoesOn(said, role, n);
      AnsweredExactly(said[1..], said[0].Delta? || role, n - 1);
      var front := if said[0].Delta? then [Content(said[0].text)] else [];
      AnswersJoin(RoleOnce(role), front, TextsIn(said[1..][..n - 1]), [Chunk.Stop, DoneMark]);
    }
  }

  lemma AnswerGoesOn(said: seq<Said>, role: bool, n: nat)
    requires 0 < n && StopsAt(said, n)
    ensures StopsAt(said[1..], n - 1) && n - 1 <= |said[1..]|
    ensures n - 1 < |said[1..]| ==> said[1..][n - 1] == said[n]
    ensures var front := if said[0].Delta? then [Content(said[0].text)] else [];
            && TextsIn(said[..n]) == front + TextsIn(said[1..][..n - 1])
            && Answered(said, role)
               == (if said[0].Delta? then RoleOnce(role) + front else []) + Answered(said[1..], said[0].Delta? || role)
  {
    assert said[..n][1..] == said[1..][..n - 1] && said[..n][0] == said[0];
    assert [] + Answered(said[1..], role) == Answered(said[1..], role);
  }

  lemma AnswersJoin(role: seq<Chunk>, front: seq<Chunk>, texts: seq<Chunk>, end: seq<Chunk>)
    ensures (role + front) + texts == role + (front + texts)
    ensures (role + front) + ([] + texts + end) == role + (front + texts) + end
    ensures [] + (role + texts + end) == role + ([] + texts) + end && [] + (role + texts) == role + ([] + texts)
    ensures [] + texts == texts && [] + ([] + texts) == texts
  {
  }

  /** Whatever the source sends, in whatever pieces, is answered by what its events say. */
  lemma ReadsExactly(codec: Codec, pieces: seq<string>) returns (events: seq<string>, rest: string, said: seq<Said>)
    ensures IsCut(Concat(pieces), events, rest) && |said| == |events|
    ensures forall i :: 0 <= i < |events| ==> Says(codec, events[i], said[i])
    ensures IsAnswerTo(said, ReadAll(codec, pieces))
  {
    hide Handle, SaidBy, Says, Answered, Drain;
    var text := Concat(pieces);
    assert Concat([text]) == text by { assert [text][1..] == []; assert text + "" == text; }
    ChunkingIsIrrelevant(codec, pieces, [text]);
    events, rest := DrainAnswers(codec, text, false);
    said := AllSaid(codec, events);
    EverythingSaid(codec, events);
    ReadOne(codec, text);
    var n := FirstStop(said);
    AnsweredExactly(said, false, n);
  }

  lemma ReadOne(codec: Codec, text: string)
    ensures var (output, last) := Drain(codec, Reader(text, false, false));
            ReadAll(codec, [text]) == output + Close(last)
  {
    hide Drain;
    var first := Drain(codec, Reader(text, false, false));
    assert "" + text == text && [text][1..] == [];
    assert FeedAll(codec, first.1, []) == ([], first.1) && first.0 + [] == first.0;
  }

  lemma {:induction false} EverythingSaid(codec: Codec, events: seq<string>)
    ensures |AllSaid(codec, events)| == |events|
    ensures forall i :: 0 <= i < |events| ==> Says(codec, events[i], AllSaid(codec, events)[i])
  {
    hide SaidBy, Says;
    if events != [] {
      SaidExactly(codec, events[0]);
      EverythingSaid(codec, events[1..]);
    }
  }

  // ----- Plain answers -----

  /** The text of one part of an answer, or nothing. */
  function TextOfPart(part: Json): string {
    if part.Obj? && part.Get("type") == Str("output_text") && part.Get("text").Str? then part.Get("text").text else ""
  }

  /** The parts of an answer in order, whatever items they are in. */
  function PartsOf(items: seq<Json>): seq<Json> {
    if items == [] then []
    else
      (if items[0].Obj? && items[0].Get("content").List? then items[0].Get("content").items else [])
      + PartsOf(items[1..])
  }

  /** The texts of all parts, one behind the other. */
  function Told(parts: seq<Json>): string {
    Concat(seq(|parts|, i requires 0 <= i < |parts| => TextOfPart(parts[i])))
  }

  lemma TextsInFront(texts: seq<string>, more: seq<string>)
    requires texts != []
    ensures Concat(texts + more) == texts[0] + Concat(texts[1..] + more)
  {
    assert (texts + more)[1..] == texts[1..] + more;
  }

  lemma {:induction false} TextsAddUp(texts: seq<string>, more: seq<string>)
    ensures Concat(texts + more) == Concat(texts) + Concat(more)
  {
    if texts == [] {
      assert texts + more == more;
    } else {
      TextsInFront(texts, more);
      TextsAddUp(texts[1..], more);
    }
  }

  lemma ToldTogether(a: seq<Json>, b: seq<Json>)
    ensures Told(a + b) == Told(a) + Told(b)
  {
    hide TextOfPart, Concat;
    var texts := seq(|a|, i requires 0 <= i < |a| => TextOfPart(a[i]));
    var more := seq(|b|, i requires 0 <= i < |b| => TextOfPart(b[i]));
    TextsAddUp(texts, more);
    assert texts + more == seq(|a + b|, i requires 0 <= i < |a + b| => TextOfPart((a + b)[i]));
  }

  lemma {:induction false} PartsAreTold(parts: seq<Json>)
    ensures PartsText(parts) == Told(parts)
  {
    if parts != [] {
      PartsAreTold(parts[1..]);
      ToldTogether(parts[..1], parts[1..]);
      assert parts == parts[..1] + parts[1..];
      OneTold(parts[..1]);
    }
  }

  lemma OneTold(parts: seq<Json>)
    requires |parts| == 1
    ensures Told(parts) == TextOfPart(parts[0])
  {
    hide TextOfPart;
    var texts := seq(|parts|, i requires 0 <= i < |parts| => TextOfPart(parts[i]));
    assert texts[1..] == [] && texts[0] == TextOfPart(parts[0]);
    assert Concat(texts) == texts[0] + "" == texts[0];
  }

  lemma {:induction false} ItemsAreTold(items: seq<Json>)
    ensures ItemsText(items) == Told(PartsOf(items))
  {
    hide PartsText, Told;
    if items == [] {
      PartsAreTold([]);
      NoParts();
    } else {
      var own := if items[0].Obj? && items[0].Get("content").List? then items[0].Get("content").items else [];
      ItemsAreTold(items[1..]);
      PartsAreTold(own);
      ToldTogether(own, PartsOf(items[1..]));
      NoParts();
    }
  }

  lemma NoParts()
    ensures PartsText([]) == ""
  {
  }

  /** The text of any answer: its own text field, or the texts of all its parts, one behind the other. */
  lemma AnswerTextExactly(body: map<string, Json>)
    ensures var own, output := Obj(body).Get("output_text"), Obj(body).Get("output");
            OutputText(body) == if own.Str? then own.text else if output.List? then Told(PartsOf(output.items)) else ""
  {
    hide Told;
    var own, output := Obj(body).Get("output_text"), Obj(body).Get("output");
    if own.Str? {
      assert OutputText(body) == own.text;
    } else if output.List? {
      ItemsAreTold(output.items);
      assert OutputText(body) == ItemsText(output.items) == Told(PartsOf(output.items));
    } else {
      assert OutputText(body) == "";
    }
  }

  // ----- Written streams -----

  const KINDS := ["response.created", "response.in_progress", "response.output_item.added",
                  "response.content_part.added", "response.output_text.delta", "response.output_text.done",
                  "response.content_part.done", "response.output_item.done", "response.completed"]

  /** An event is named and numbered by its place and speaks of the one response and the one item. */
  predicate IsInPlace(value: Json, k: nat, id: string, itemId: string, model: string)
    requires k < |KINDS|
  {
    && value.Obj? && value.Get("type") == Str(KINDS[k]) && value.Get("sequence_number") == Int(k)
    && ("item_id" in value.fields ==> value.Get("item_id") == Str(itemId))
    && ("item" in value.fields ==> value.Get("item").Obj? && value.Get("item").Get("id") == Str(itemId))
    && ("response" in value.fields ==>
          && value.Get("response").Obj?
          && value.Get("response").Get("id") == Str(id) && value.Get("response").Get("model") == Str(model))
  }

  lemma EventIsInPlace(kind: string, k: nat, fields: map<string, Json>, id: string, itemId: string, model: string)
    requires k < |KINDS| && KINDS[k] == kind && "type" !in fields && "sequence_number" !in fields
    requires "item_id" in fields ==> fields["item_id"] == Str(itemId)
    requires "item" in fields ==> fields["item"].Obj? && fields["item"].Get("id") == Str(itemId)
    requires "response" in fields ==>
               && fields["response"].Obj?
               && fields["response"].Get("id") == Str(id) && fields["response"].Get("model") == Str(model)
    ensures IsInPlace(EventValue(kind, k, fields), k, id, itemId, model)
  {
    var value := EventValue(kind, k, fields);
    assert |"type"| == 4 && |"sequence_number"| == 15 && |"item_id"| == 7 && |"response"| == 8;
    assert "item"[0] == 'i' && "type"[0] == 't';
    assert "type" in value.fields && "sequence_number" in value.fields;
    assert forall key :: key in value.fields && key !in {"type", "sequence_number"} ==>
                           key in fields && value.fields[key] == fields[key];
  }

  lemma NamesDiffer()
    ensures |"type"| == 4 && |"part"| == 4 && |"text"| == 4 && |"item"| == 4 && |"role"| == 4
    ensures "type"[0] == 't' && "part"[0] == 'p' && "text"[0] == 't' && "item"[0] == 'i' && "role"[0] == 'r'
    ensures "type"[1] == 'y' && "text"[1] == 'e'
    ensures |"sequence_number"| == 15 && |"output_index"| == 12 && |"content_index"| == 13 && |"completed_at"| == 12
    ensures "output_index"[0] == 'o' && "completed_at"[0] == 'c'
    ensures |"item_id"| == 7 && |"content"| == 7 && "item_id"[0] == 'i' && "content"[0] == 'c'
    ensures |"delta"| == 5 && |"logprobs"| == 8 && |"response"| == 8 && "logprobs"[0] == 'l' && "response"[0] == 'r'
    ensures |"id"| == 2 && |"status"| == 6 && |"output"| == 6 && "status"[0] == 's' && "output"[0] == 'o'
    ensures |"model"| == 5 && |"annotations"| == 11 && |"output_text"| == 11
  {
  }

  /** A member, also of a value that is not an object. */
  function At(value: Json, key: string): Json {
    if value.Obj? then value.Get(key) else Null
  }

  /** The members of an event about the one item, other than its name and number. */
  predicate SpeakOf(fields: map<string, Json>, itemId: string) {
    && "type" !in fields && "sequence_number" !in fields && "item" !in fields && "response" !in fields
    && "item_id" in fields && fields["item_id"] == Str(itemId)
  }

  lemma PositionSpeaks(itemId: string, key: string, value: Json)
    requires key in {"part", "delta", "text"}
    ensures SpeakOf(Position(itemId)[key := value], itemId)
    ensures SpeakOf(Position(itemId)[key := value]["logprobs" := List([])], itemId)
  {
    NamesDiffer();
  }

  lemma EventSpeaks(k: nat, fields: map<string, Json>, id: string, itemId: string, model: string)
    requires k < |KINDS| && SpeakOf(fields, itemId)
    ensures IsInPlace(EventValue(KINDS[k], k, fields), k, id, itemId, model)
  {
    hide IsInPlace;
    EventIsInPlace(KINDS[k], k, fields, id, itemId, model);
  }

  lemma ItemTells(itemId: string, status: string, text: string)
    ensures var empty := OutputItem(itemId, status, []); empty.Obj? && empty.Get("id") == Str(itemId)
    ensures var item := OutputItem(itemId, status, [OutputPart(text)]); item.Obj? && item.Get("id") == Str(itemId)
    ensures TextOfPart(OutputPart(text)) == text
    ensures ItemsText([OutputItem(itemId, status, [OutputPart(text)])]) == text
  {
    hide TextOfPart, PartsText;
    NamesDiffer();
    var part := OutputPart(text);
    var item := OutputItem(itemId, status, [part]);
    assert item.Get("content") == List([part]);
    assert part.Get("type") == Str("output_text") && part.Get("text") == Str(text);
    PartTells(part);
    PartsAreTold([part]);
    OneTold([part]);
    NothingElse(item);
  }

  lemma PartTells(part: Json)
    requires part.Obj? && part.Get("type") == Str("output_text") && part.Get("text").Str?
    ensures TextOfPart(part) == part.Get("text").text
  {
  }

  lemma NothingElse(item: Json)
    requires item.Obj? && item.Get("content").List?
    ensures ItemsText([item]) == PartsText(item.Get("content").items)
  {
    hide PartsText;
    var text := PartsText(item.Get("content").items);
    assert [item][1..] == [] && text + "" == text;
  }

  lemma ResponsesTell(id: string, itemId: string, model: string, text: string, createdAt: int, completedAt: int)
    ensures var pending := Obj(PendingResponse(id, model, createdAt));
            && pending.Get("id") == Str(id) && pending.Get("model") == Str(model)
            && pending.Get("status") == Str("in_progress")
    ensures var done := DoneResponse(id, itemId, model, text, createdAt, completedAt);
            && done.Obj? && done.Get("id") == Str(id) && done.Get("model") == Str(model)
            && done.Get("status") == Str("completed") && OutputText(done.fields) == text
  {
    hide ItemsText, OutputItem;
    NamesDiffer();
    ItemTells(itemId, "completed", text);
    var done := DoneResponse(id, itemId, model, text, createdAt, completedAt);
    assert done.fields["output"] == List([OutputItem(itemId, "completed", [OutputPart(text)])]);
    assert "output_text" !in done.fields;
  }

  lemma EventsOfParts(id: string, itemId: string, model: string, text: string)
    ensures IsInPlace(EventValue(KINDS[3], 3, Position(itemId)["part" := OutputPart("")]), 3, id, itemId, model)
    ensures IsInPlace(DeltaValue(itemId, text), 4, id, itemId, model)
    ensures IsInPlace(EventValue(KINDS[5], 5, Position(itemId)["text" := Str(text)]["logprobs" := List([])]), 5, id,
                      itemId, model)
    ensures IsInPlace(EventValue(KINDS[6], 6, Position(itemId)["part" := OutputPart(text)]), 6, id, itemId, model)
  {
    hide IsInPlace, SpeakOf, Position, OutputPart, EventValue;
    PositionSpeaks(itemId, "part", OutputPart(""));
    EventSpeaks(3, Position(itemId)["part" := OutputPart("")], id, itemId, model);
    PositionSpeaks(itemId, "delta", Str(text));
    EventSpeaks(4, Position(itemId)["delta" := Str(text)]["logprobs" := List([])], id, itemId, model);
    PositionSpeaks(itemId, "text", Str(text));
    EventSpeaks(5, Position(itemId)["text" := Str(text)]["logprobs" := List([])], id, itemId, model);
    PositionSpeaks(itemId, "part", OutputPart(text));
    EventSpeaks(6, Position(itemId)["part" := OutputPart(text)], id, itemId, model);
  }

  lemma EventOfResponse(k: nat, id: string, itemId: string, model: string, response: Json)
    requires k < |KINDS| && response.Obj? && response.Get("id") == Str(id) && response.Get("model") == Str(model)
    ensures IsInPlace(EventValue(KINDS[k], k, map["response" := response]), k, id, itemId, model)
  {
    hide IsInPlace, EventValue;
    NamesDiffer();
    EventIsInPlace(KINDS[k], k, map["response" := response], id, itemId, model);
  }

  lemma EventOfItem(k: nat, id: string, itemId: string, model: string, item: Json)
    requires k < |KINDS| && item.Obj? && item.Get("id") == Str(itemId)
    ensures IsInPlace(EventValue(KINDS[k], k, map["output_index" := Int(0), "item" := item]), k, id, itemId, model)
  {
    hide IsInPlace, EventValue;
    NamesDiffer();
    EventIsInPlace(KINDS[k], k, map["output_index" := Int(0), "item" := item], id, itemId, model);
  }

  lemma AllInPlace(id: string, itemId: string, model: string, text: string, createdAt: int, completedAt: int)
    ensures var values := ProviderValues(id, itemId, model, text, createdAt, completedAt);
            |values| == |KINDS| && forall k :: 0 <= k < |KINDS| ==> IsInPlace(values[k], k, id, itemId, model)
  {
    hide IsInPlace, EventValue, Position, OutputItem, OutputPart, PendingResponse, DoneResponse, DeltaValue;
    hide OutputText, ItemsText, TextOfPart;
    var pending := Obj(PendingResponse(id, model, createdAt));
    var done := DoneResponse(id, itemId, model, text, createdAt, completedAt);
    ResponsesTell(id, itemId, model, text, createdAt, completedAt);
    EventOfResponse(0, id, itemId, model, pending);
    EventOfResponse(1, id, itemId, model, pending);
    EventOfResponse(8, id, itemId, model, done);
    ItemTells(itemId, "in_progress", text);
    ItemTells(itemId, "completed", text);
    EventOfItem(2, id, itemId, model, OutputItem(itemId, "in_progress", []));
    EventOfItem(7, id, itemId, model, OutputItem(itemId, "completed", [OutputPart(text)]));
    EventsOfParts(id, itemId, model, text);
  }

  lemma FieldOfEvent(kind: string, k: nat, fields: map<string, Json>, key: string)
    requires key in fields
    ensures At(EventValue(kind, k, fields), key) == fields[key]
  {
  }

  lemma WrittenTexts(id: string, itemId: string, model: string, text: string, createdAt: int, completedAt: int)
    ensures var values := ProviderValues(id, itemId, model, text, createdAt, completedAt);
            && At(values[4], "delta") == Str(text) && At(values[5], "text") == Str(text)
            && TextOfPart(At(values[6], "part")) == text && ItemsText([At(values[7], "item")]) == text
  {
    hide At, TextOfPart, ItemsText, PendingResponse, DoneResponse, Position, OutputItem, OutputPart, EventValue;
    NamesDiffer();
    ItemTells(itemId, "completed", text);
    var place, item := Position(itemId), OutputItem(itemId, "completed", [OutputPart(text)]);
    FieldOfEvent(KINDS[4], 4, place["delta" := Str(text)]["logprobs" := List([])], "delta");
    FieldOfEvent(KINDS[5], 5, place["text" := Str(text)]["logprobs" := List([])], "text");
    FieldOfEvent(KINDS[6], 6, place["part" := OutputPart(text)], "part");
    FieldOfEvent(KINDS[7], 7, map["output_index" := Int(0), "item" := item], "item");
  }

  lemma WrittenResponses(id: string, itemId: string, model: string, text: string, createdAt: int, completedAt: int)
    ensures var values := ProviderValues(id, itemId, model, text, createdAt, completedAt);
            && At(values[0], "response") == At(values[1], "response")
            && At(values[8], "response").Obj? && OutputText(At(values[8], "response").fields) == text
            && At(At(values[8], "response"), "status") == Str("completed")
  {
    hide OutputText, OutputItem, OutputPart, Position, PendingResponse, DoneResponse, DeltaValue;
    NamesDiffer();
    ResponsesTell(id, itemId, model, text, createdAt, completedAt);
  }

  /**
   * The nine events of a provider answer tell one story: each is named and numbered by its place and speaks of one
   * response and one item, every text that is announced as done is the text, and the completed response has it too.
   */
  lemma WrittenEventsAgree(id: string, itemId: string, model: string, text: string, createdAt: int, completedAt: int)
    ensures var values := ProviderValues(id, itemId, model, text, createdAt, completedAt);
            && |values| == |KINDS|
            && (forall k :: 0 <= k < |KINDS| ==> IsInPlace(values[k], k, id, itemId, model))
            && At(values[4], "delta") == Str(text) && At(values[5], "text") == Str(text)
            && TextOfPart(At(values[6], "part")) == text && ItemsText([At(values[7], "item")]) == text
            && At(values[0], "response") == At(values[1], "response")
            && At(values[8], "response").Obj? && OutputText(At(values[8], "response").fields) == text
            && At(At(values[8], "response"), "status") == Str("completed")
  {
    hide At, TextOfPart, ItemsText, OutputText, EventValue;
    AllInPlace(id, itemId, model, text, createdAt, completedAt);
    WrittenTexts(id, itemId, model, text, createdAt, completedAt);
    WrittenResponses(id, itemId, model, text, createdAt, completedAt);
  }
}
