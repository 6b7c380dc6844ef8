/** From an Anthropic request to the common list of messages. */
module AnthropicRequest {
  import opened Json
  import opened Conversation
  import opened ConversationRuns
  import opened Sequences
  import Ledger

  datatype AnthropicMessage = AnthropicMessage(role: string, content: Json)

  /** A missing system prompt is null. */
  datatype Request = Request(system: Json, messages: seq<AnthropicMessage>)

  // ----- One block

  /** What a block adds to the text of its message. */
  function TextPart(b: Json): seq<Json> {
    match b.Get("type").AsText()
    case "text" => [b]
    case "image" =>
      var source := b.Get("source");
      var data, media := source.Get("data").AsText(), source.Get("media_type").AsText();
      if !source.Object? || data == "" then []
      else
        var m := if media == "" then "application/octet-stream" else media;
        [Object(map["type" := Text("input_image"), "image_url" := Text("data:" + m + ";base64," + data)])]
    case _ => []
  }

  /** The call of a block; `marshal` writes JSON text. */
  function CallPart(b: Json, marshal: Json -> string): seq<Call> {
    if b.Get("type").AsText() == "tool_use" then
      [Call(b.Get("id").AsText(), "function", b.Get("name").AsText(), marshal(b.Get("input")))]
    else []
  }

  function ResultPart(b: Json): seq<Message> {
    if b.Get("type").AsText() == "tool_result" then
      [Message("tool", b.Get("content"), b.Get("tool_use_id").AsText(), [])]
    else []
  }

  // ----- The blocks of one message

  function TextParts(bs: seq<Json>): seq<Json> {
    if bs == [] then [] else TextParts(bs[..|bs| - 1]) + TextPart(bs[|bs| - 1])
  }

  function CallParts(bs: seq<Json>, marshal: Json -> string): seq<Call> {
    if bs == [] then [] else CallParts(bs[..|bs| - 1], marshal) + CallPart(bs[|bs| - 1], marshal)
  }

  function ResultParts(bs: seq<Json>): seq<Message> {
    if bs == [] then [] else ResultParts(bs[..|bs| - 1]) + ResultPart(bs[|bs| - 1])
  }

  /** The results of a message come first, and then the message itself, if anything is left. */
  function FromBlocks(role: string, bs: seq<Json>, marshal: Json -> string): seq<Message> {
    var text, calls := TextParts(bs), CallParts(bs, marshal);
    ResultParts(bs) + if text == [] && calls == [] then [] else [Message(role, Array(text), "", calls)]
  }

  function FromMessage(m: AnthropicMessage, marshal: Json -> string): Option<seq<Message>> {
    match m.content
    case Text(s) => Some([Message(m.role, m.content, "", [])])
    case Array(bs) => Some(FromBlocks(m.role, bs, marshal))
    case _ => None
  }

  function FromMessages(ms: seq<AnthropicMessage>, marshal: Json -> string): Option<seq<Message>> {
    if ms == [] then Some([])
    else
      var before, last := FromMessages(ms[..|ms| - 1], marshal), FromMessage(ms[|ms| - 1], marshal);
      if before.None? || last.None? then None else Some(before.value + last.value)
  }

  function System(r: Request): seq<Message> {
    if r.system == Null then [] else [Message("system", r.system, "", [])]
  }

  function Translate(r: Request, marshal: Json -> string): Option<seq<Message>> {
    var ms := FromMessages(r.messages, marshal);
    if ms.None? then None else Some(System(r) + ms.value)
  }

  // ----- `anthropicRequest.openAI`

  method TakeBlocks(messages: seq<Message>, role: string, blocks: seq<Json>, marshal: Json -> string)
    returns (out: seq<Message>)
    ensures out == messages + FromBlocks(role, blocks, marshal)
  {
    hide TextPart, CallPart, ResultPart;
    out := messages;
    var text: seq<Json>, calls: seq<Call> := [], [];
    for i := 0 to |blocks|
      invariant text == TextParts(blocks[..i]) && calls == CallParts(blocks[..i], marshal)
      invariant out == messages + ResultParts(blocks[..i])
    {
      var b := blocks[i];
      assert blocks[..i + 1][..i] == blocks[..i];
      text := text + TextPart(b);
      calls := calls + CallPart(b, marshal);
      out := out + ResultPart(b);
    }
    assert blocks[..|blocks|] == blocks;
    if |text| > 0 || |calls| > 0 {
      out := out + [Message(role, Array(text), "", calls)];
    }
  }

  method OpenAI(r: Request, marshal: Json -> string) returns (o: Option<seq<Message>>)
    ensures o == Translate(r, marshal)
  {
    hide FromBlocks;
    var messages: seq<Message> := [];
    if r.system != Null {
      messages := messages + [Message("system", r.system, "", [])];
    }
    for i := 0 to |r.messages|
      invariant FromMessages(r.messages[..i], marshal).Some?
      invariant messages == System(r) + FromMessages(r.messages[..i], marshal).value
    {
      var m := r.messages[i];
      assert r.messages[..i + 1][..i] == r.messages[..i];
      match m.content {
        case Text(s) =>
          messages := messages + [Message(m.role, m.content, "", [])];
        case Array(blocks) =>
          messages := TakeBlocks(messages, m.role, blocks, marshal);
        case _ =>
          InvalidAnywhere(r.messages, i, marshal);
          return None;
      }
    }
    assert r.messages[..|r.messages|] == r.messages;
    return Some(messages);
  }

  lemma {:induction false} InvalidAnywhere(ms: seq<AnthropicMessage>, i: nat, marshal: Json -> string)
    requires i < |ms| && FromMessage(ms[i], marshal).None?
    ensures FromMessages(ms, marshal).None?
    decreases |ms|
  {
    if i < |ms| - 1 {
      InvalidAnywhere(ms[..|ms| - 1], i, marshal);
    }
  }

  // ----- The protocol steps of a history

  function Blocks(m: AnthropicMessage): seq<Json> {
    if m.content.Array? then m.content.items else []
  }

  function UseIds(bs: seq<Json>): seq<string> {
    if bs == [] then []
    else
      UseIds(bs[..|bs| - 1])
      + if bs[|bs| - 1].Get("type").AsText() == "tool_use" then [bs[|bs| - 1].Get("id").AsText()] else []
  }

  function ResultIdsOf(bs: seq<Json>): seq<string> {
    if bs == [] then []
    else
      ResultIdsOf(bs[..|bs| - 1])
      + if bs[|bs| - 1].Get("type").AsText() == "tool_result" then [bs[|bs| - 1].Get("tool_use_id").AsText()] else []
  }

  /** Whether the message itself is passed on, and not only its results. */
  predicate Speaks(m: AnthropicMessage) {
    m.content.Text? || TextParts(Blocks(m)) != [] || UseIds(Blocks(m)) != []
  }

  /** A message answers first; if it speaks as the assistant, it then opens a turn. */
  function MessageSteps(m: AnthropicMessage): seq<Step> {
    var bs := Blocks(m);
    AsResults(ResultIdsOf(bs))
    + if !Speaks(m) then []
      else if m.role == "assistant" then [Turn] + AsCalls(UseIds(bs))
      else if m.role == "tool" then [Result("")]
      else []
  }

  function HistorySteps(ms: seq<AnthropicMessage>): seq<Step> {
    if ms == [] then [] else HistorySteps(ms[..|ms| - 1]) + MessageSteps(ms[|ms| - 1])
  }

  lemma {:induction false} CallPartsNamed(bs: seq<Json>, marshal: Json -> string)
    ensures CallSteps(CallParts(bs, marshal)) == AsCalls(UseIds(bs))
    ensures CallParts(bs, marshal) == [] <==> UseIds(bs) == []
  {
    if bs != [] {
      CallPartsNamed(bs[..|bs| - 1], marshal);
    }
  }

  lemma {:induction false} ResultPartSteps(bs: seq<Json>)
    ensures Steps(ResultParts(bs)) == AsResults(ResultIdsOf(bs))
  {
    hide ResultPart, StepsOf;
    if bs != [] {
      var front, b := bs[..|bs| - 1], bs[|bs| - 1];
      ResultPartSteps(front);
      ResultPartStep(b);
      StepsAppend(ResultParts(front), ResultPart(b));
    }
  }

  lemma ResultPartStep(b: Json)
    ensures Steps(ResultPart(b))
            == if b.Get("type").AsText() == "tool_result" then [Result(b.Get("tool_use_id").AsText())] else []
  {
    if ResultPart(b) != [] {
      OneMessage(ResultPart(b)[0]);
      assert ResultPart(b) == [ResultPart(b)[0]];
    }
  }

  lemma OneMessage(m: Message)
    ensures Steps([m]) == StepsOf(m)
  {
    assert [m][..0] == [];
  }

  lemma FromMessageSteps(m: AnthropicMessage, marshal: Json -> string)
    requires FromMessage(m, marshal).Some?
    ensures Steps(FromMessage(m, marshal).value) == MessageSteps(m)
  {
    var bs := Blocks(m);
    match m.content
    case Text(s) =>
      OneMessage(Message(m.role, m.content, "", []));
      assert CallSteps([]) == [] && AsCalls([]) == [] && AsResults([]) == [];
    case Array(_) =>
      var last := Message(m.role, Array(TextParts(bs)), "", CallParts(bs, marshal));
      ResultPartSteps(bs);
      CallPartsNamed(bs, marshal);
      OneMessage(last);
      StepsAppend(ResultParts(bs), if Speaks(m) then [last] else []);
    case _ =>
  }

  /** The steps of a translated history are those of its messages. */
  lemma {:induction false} TranslatedSteps(ms: seq<AnthropicMessage>, marshal: Json -> string)
    requires FromMessages(ms, marshal).Some?
    ensures Steps(FromMessages(ms, marshal).value) == HistorySteps(ms)
  {
    if ms != [] {
      var front, m := ms[..|ms| - 1], ms[|ms| - 1];
      TranslatedSteps(front, marshal);
      FromMessageSteps(m, marshal);
      StepsAppend(FromMessages(front, marshal).value, FromMessage(m, marshal).value);
    }
  }

  lemma {:induction false} TranslationSteps(r: Request, marshal: Json -> string)
    requires Translate(r, marshal).Some?
    ensures Steps(Translate(r, marshal).value) == HistorySteps(r.messages)
  {
    hide FromMessages, HistorySteps, System, Steps;
    TranslatedSteps(r.messages, marshal);
    SystemSteps(r);
    StepsAppend(System(r), FromMessages(r.messages, marshal).value);
  }

  lemma SystemSteps(r: Request)
    ensures Steps(System(r)) == []
  {
    if r.system != Null {
      OneMessage(Message("system", r.system, "", []));
    }
  }

  /** A history is accepted exactly when the steps of its messages are well formed. */
  lemma {:induction false} AcceptedIffStepsWellFormed(r: Request, marshal: Json -> string)
    requires Translate(r, marshal).Some?
    ensures Accepts(Translate(r, marshal).value) <==> WellFormed(HistorySteps(r.messages))
  {
    TranslationSteps(r, marshal);
    AcceptsIffWellFormed(Translate(r, marshal).value);
    hide Translate, HistorySteps, WellFormed, Accepts, Steps;
  }

  // ----- Histories that keep to the Messages API

  function Uses(m: AnthropicMessage): seq<string> {
    UseIds(Blocks(m))
  }

  function Results(m: AnthropicMessage): seq<string> {
    ResultIdsOf(Blocks(m))
  }

  /** All the ids of tool uses, in order. */
  function AllUses(ms: seq<AnthropicMessage>): seq<string> {
    if ms == [] then [] else AllUses(ms[..|ms| - 1]) + Uses(ms[|ms| - 1])
  }

  /** Tool uses are the assistant's, results are the user's, and contents are text or blocks. */
  predicate Mannered(m: AnthropicMessage) {
    && (m.content.Text? || m.content.Array?)
    && (m.role == "assistant" || m.role == "user")
    && (m.role == "assistant" ==> Results(m) == [])
    && (m.role == "user" ==> Uses(m) == [])
  }

  /** The ids still to be answered after a message. */
  function Asked(ms: seq<AnthropicMessage>): seq<string> {
    if ms == [] then [] else Uses(ms[|ms| - 1])
  }

  /** Every message answers exactly the uses of the message before it, once each and in any
      order. */
  predicate Answering(ms: seq<AnthropicMessage>) {
    ms != [] ==>
      && Answering(ms[..|ms| - 1])
      && multiset(Results(ms[|ms| - 1])) == multiset(Asked(ms[..|ms| - 1]))
  }

  predicate KeepsToApi(ms: seq<AnthropicMessage>) {
    && (forall i :: 0 <= i < |ms| ==> Mannered(ms[i]))
    && Distinct(AllUses(ms)) && "" !in AllUses(ms)
    && Answering(ms)
  }

  /** One message of such a history. */
  lemma RunMessage(asked: seq<string>, completed: set<string>, m: AnthropicMessage)
    requires Mannered(m) && Distinct(asked) && "" !in Members(asked) && multiset(Results(m)) == multiset(asked)
    requires Distinct(Uses(m)) && "" !in Members(Uses(m)) && Members(Uses(m)) !! completed + Members(asked)
    ensures Run(Open(Members(asked), completed), MessageSteps(m)) == Open(Members(Uses(m)), completed + Members(asked))
  {
    SameMembers(asked, Results(m));
    var v, w := Open(Members(asked), completed), Open({}, completed + Members(asked));
    var answers, rest := AsResults(Results(m)), if Speaks(m) && m.role == "assistant" then [Turn] + AsCalls(Uses(m)) else [];
    assert MessageSteps(m) == answers + rest;
    assert rest == [] ==> Uses(m) == [] && Members(Uses(m)) == {};
    hide Distinct, AsResults, AsCalls, Uses, Results, Members, Speaks, MessageSteps;
    RunResults(Members(asked), completed, Results(m));
    assert Members(asked) - Members(Results(m)) == {} && completed + Members(Results(m)) == completed + Members(asked);
    RunAppend(v, answers, rest);
    if rest != [] {
      RunTurn(completed + Members(asked), Uses(m));
    }
  }

  /** The uses before those of the last message. */
  function Earlier(ms: seq<AnthropicMessage>): seq<string> {
    if ms == [] then [] else AllUses(ms[..|ms| - 1])
  }

  lemma KeepsToApiFront(ms: seq<AnthropicMessage>)
    requires KeepsToApi(ms) && ms != []
    ensures KeepsToApi(ms[..|ms| - 1])
    ensures Distinct(Uses(ms[|ms| - 1])) && "" !in Members(Uses(ms[|ms| - 1]))
    ensures Members(Uses(ms[|ms| - 1])) !! Members(AllUses(ms[..|ms| - 1]))
  {
    var front, m := ms[..|ms| - 1], ms[|ms| - 1];
    assert AllUses(ms) == AllUses(front) + Uses(m);
    MembersAppend(AllUses(front), Uses(m));
  }

  lemma EarlierAndAsked(ms: seq<AnthropicMessage>)
    requires KeepsToApi(ms)
    ensures Members(AllUses(ms)) == Members(Earlier(ms)) + Members(Asked(ms))
    ensures Distinct(Asked(ms)) && "" !in Members(Asked(ms))
  {
    if ms != [] {
      KeepsToApiFront(ms);
    }
  }

  /** After each message, exactly its own uses are pending, and all earlier ones are completed. */
  lemma {:induction false} HistoryRuns(ms: seq<AnthropicMessage>)
    requires KeepsToApi(ms)
    ensures Run(START, HistorySteps(ms)) == Open(Members(Asked(ms)), Members(Earlier(ms)))
  {
    if ms == [] {
      assert Members<string>([]) == {};
    } else {
      var front, m := ms[..|ms| - 1], ms[|ms| - 1];
      KeepsToApiFront(ms);
      EarlierAndAsked(front);
      assert HistorySteps(ms) == HistorySteps(front) + MessageSteps(m);
      assert Mannered(m) && multiset(Results(m)) == multiset(Asked(front));
      HistoryRuns(front);
      hide KeepsToApi, Mannered, HistorySteps, MessageSteps, Distinct, Members;
      RunMessage(Asked(front), Members(Earlier(front)), m);
      RunAppend(START, HistorySteps(front), MessageSteps(m));
    }
  }

  /** A history that keeps to the Messages API, with no use left to answer, translates to an
      accepted conversation, whatever the order of the blocks inside its messages. */
  lemma ApiHistoryAccepted(r: Request, marshal: Json -> string)
    requires KeepsToApi(r.messages) && Asked(r.messages) == []
    ensures Translate(r, marshal).Some? && Accepts(Translate(r, marshal).value)
  {
    AllTranslate(r.messages, marshal);
    HistoryRuns(r.messages);
    TranslationSteps(r, marshal);
    assert Members<string>([]) == {};
    hide KeepsToApi, HistorySteps, FromMessages, Steps;
  }

  lemma {:induction false} AllTranslate(ms: seq<AnthropicMessage>, marshal: Json -> string)
    requires forall i :: 0 <= i < |ms| ==> ms[i].content.Text? || ms[i].content.Array?
    ensures FromMessages(ms, marshal).Some?
  {
    if ms != [] {
      AllTranslate(ms[..|ms| - 1], marshal);
    }
  }

  // ----- What the messages carry

  predicate IsKind(b: Json, kind: string) {
    b.Get("type") == Text(kind)
  }

  /** An image with data. */
  predicate IsImage(b: Json) {
    IsKind(b, "image") && b.Get("source").Object? && b.Get("source").Get("data").Text? && b.Get("source").Get("data").s != ""
  }

  ghost function KindFlags(bs: seq<Json>, test: Json -> bool): (r: seq<bool>)
    ensures |r| == |bs| && forall i :: 0 <= i < |bs| ==> r[i] == test(bs[i])
  {
    seq(|bs|, i requires 0 <= i < |bs| => test(bs[i]))
  }

  ghost function Of(bs: seq<Json>, test: Json -> bool): seq<Json> {
    Selected(bs, KindFlags(bs, test))
  }

  lemma OfNext(front: seq<Json>, b: Json, test: Json -> bool)
    ensures Of(front + [b], test) == Of(front, test) + if test(b) then [b] else []
    ensures Of([], test) == []
  {
    assert KindFlags(front + [b], test) == KindFlags(front, test) + [test(b)];
    SelectedNext(front, KindFlags(front, test), b, test(b));
    hide Selected;
    assert |Of([], test)| == |Positions([])| == 0;
  }

  /** A part of the text of a message: a text block as it is, and an image as a data URL. */
  predicate PartSays(b: Json, part: Json) {
    if IsKind(b, "text") then part == b
    else
      var source := b.Get("source");
      var media := source.Get("media_type").AsText();
      && part.Object? && part.fields.Keys == {"type", "image_url"} && part.fields["type"] == Text("input_image")
      && part.fields["image_url"]
         == Text("data:" + (if media == "" then "application/octet-stream" else media) + ";base64," + source.Get("data").AsText())
  }

  predicate PartsSay(bs: seq<Json>, parts: seq<Json>) {
    |parts| == |bs| && forall k :: 0 <= k < |bs| ==> PartSays(bs[k], parts[k])
  }

  predicate CallsSay(bs: seq<Json>, calls: seq<Call>, marshal: Json -> string) {
    && |calls| == |bs|
    && forall k :: 0 <= k < |bs| ==>
         && calls[k].id == bs[k].Get("id").AsText() && calls[k].kind == "function"
         && calls[k].name == bs[k].Get("name").AsText() && calls[k].arguments == marshal(bs[k].Get("input"))
  }

  predicate ResultsSay(bs: seq<Json>, ms: seq<Message>) {
    && |ms| == |bs|
    && forall k :: 0 <= k < |bs| ==>
         && ms[k].role == "tool" && ms[k].toolCallId == bs[k].Get("tool_use_id").AsText()
         && ms[k].content == bs[k].Get("content") && ms[k].toolCalls == []
  }

  const IS_TEXT: Json -> bool := b => IsKind(b, "text") || IsImage(b)
  const IS_USE: Json -> bool := b => IsKind(b, "tool_use")
  const IS_RESULT: Json -> bool := b => IsKind(b, "tool_result")

  lemma {:induction false} PartsDelivered(bs: seq<Json>)
    ensures PartsSay(Of(bs, IS_TEXT), TextParts(bs))
  {
    OfNext([], Null, IS_TEXT);
    if bs != [] {
      var front, b := bs[..|bs| - 1], bs[|bs| - 1];
      assert bs == front + [b];
      PartsDelivered(front);
      OfNext(front, b, IS_TEXT);
      OnePart(b);
      hide Of, TextPart, PartSays, IsImage, IsKind;
    }
  }

  lemma OnePart(b: Json)
    ensures if IS_TEXT(b) then |TextPart(b)| == 1 && PartSays(b, TextPart(b)[0]) else TextPart(b) == []
  {
  }

  lemma {:induction false} UsesDelivered(bs: seq<Json>, marshal: Json -> string)
    ensures CallsSay(Of(bs, IS_USE), CallParts(bs, marshal), marshal)
  {
    OfNext([], Null, IS_USE);
    if bs != [] {
      var front, b := bs[..|bs| - 1], bs[|bs| - 1];
      assert bs == front + [b];
      UsesDelivered(front, marshal);
      OfNext(front, b, IS_USE);
      OneUse(b, marshal);
      hide Of, CallPart;
    }
  }

  lemma OneUse(b: Json, marshal: Json -> string)
    ensures if IS_USE(b) then CallsSay([b], CallPart(b, marshal), marshal) else CallPart(b, marshal) == []
  {
  }

  lemma {:induction false} ResultsDelivered(bs: seq<Json>)
    ensures ResultsSay(Of(bs, IS_RESULT), ResultParts(bs))
  {
    OfNext([], Null, IS_RESULT);
    if bs != [] {
      var front, b := bs[..|bs| - 1], bs[|bs| - 1];
      assert bs == front + [b];
      ResultsDelivered(front);
      OfNext(front, b, IS_RESULT);
      OneResult(b);
      hide Of, ResultPart;
    }
  }

  lemma OneResult(b: Json)
    ensures if IS_RESULT(b) then ResultsSay([b], ResultPart(b)) else ResultPart(b) == []
  {
  }

  /** Of one message with blocks: a tool message for each of its results, in order, with its id
      and content; and then, if it has text, images or tool uses, one message of its role with all
      the text and images, and all the uses with their ids, names and inputs, in order. */
  lemma BlocksDelivered(role: string, bs: seq<Json>, marshal: Json -> string)
    ensures var out, n := FromBlocks(role, bs, marshal), |Of(bs, IS_RESULT)|;
            && n <= |out| <= n + 1 && ResultsSay(Of(bs, IS_RESULT), out[..n])
            && (|out| == n + 1 <==> Of(bs, IS_TEXT) != [] || Of(bs, IS_USE) != [])
            && (|out| == n + 1 ==>
                  && out[n].role == role && out[n].toolCallId == "" && out[n].content.Array?
                  && PartsSay(Of(bs, IS_TEXT), out[n].content.items) && CallsSay(Of(bs, IS_USE), out[n].toolCalls, marshal))
  {
    PartsDelivered(bs);
    UsesDelivered(bs, marshal);
    ResultsDelivered(bs);
    hide Of, PartSays, TextParts, CallParts, ResultParts;
    var out, n := FromBlocks(role, bs, marshal), |ResultParts(bs)|;
    assert out[..n] == ResultParts(bs);
  }

  /** Messages are translated one after the other, each by itself; one with text stays as it is. */
  lemma {:induction false} MessagesInOrder(a: seq<AnthropicMessage>, b: seq<AnthropicMessage>, marshal: Json -> string)
    ensures var x, y := FromMessages(a, marshal), FromMessages(b, marshal);
            FromMessages(a + b, marshal) == if x.None? || y.None? then None else Some(x.value + y.value)
  {
    hide FromMessage;
    if b == [] {
      assert a + b == a;
      assert FromMessages(a, marshal).Some? ==> FromMessages(a, marshal).value + [] == FromMessages(a, marshal).value;
    } else {
      var front := b[..|b| - 1];
      assert (a + b)[..|a + b| - 1] == a + front && (a + b)[|a + b| - 1] == b[|b| - 1];
      MessagesInOrder(a, front, marshal);
      var x, y, z := FromMessages(a, marshal), FromMessages(front, marshal), FromMessage(b[|b| - 1], marshal);
      if x.Some? && y.Some? && z.Some? {
        assert x.value + y.value + z.value == x.value + (y.value + z.value);
      }
    }
  }

  lemma OneMessageDelivered(m: AnthropicMessage, marshal: Json -> string)
    ensures FromMessages([m], marshal)
            == if m.content.Text? then Some([Message(m.role, m.content, "", [])])
               else if m.content.Array? then Some(FromBlocks(m.role, m.content.items, marshal))
               else None
  {
    hide FromBlocks;
    assert [m][..0] == [];
    var z := FromMessage(m, marshal);
    assert z.Some? ==> [] + z.value == z.value;
  }

  /** The system prompt, as it is, comes first. */
  lemma SystemFirst(r: Request, marshal: Json -> string)
    requires Translate(r, marshal).Some?
    ensures FromMessages(r.messages, marshal).Some?
    ensures Translate(r, marshal).value
            == (if r.system == Null then [] else [Message("system", r.system, "", [])])
               + FromMessages(r.messages, marshal).value
  {
  }

  /** The content of the last result block for a use. */
  function ResultFor(bs: seq<Json>, id: string): Option<Json> {
    if bs == [] then None
    else if IsKind(bs[|bs| - 1], "tool_result") && bs[|bs| - 1].Get("tool_use_id") == Text(id) then
      Some(bs[|bs| - 1].Get("content"))
    else ResultFor(bs[..|bs| - 1], id)
  }

  lemma {:induction false} ResultsAnswer(bs: seq<Json>, id: string)
    requires id != ""
    ensures Ledger.AnswerTo(ResultParts(bs), id) == ResultFor(bs, id)
  {
    if bs != [] {
      var front, b := bs[..|bs| - 1], bs[|bs| - 1];
      ResultsAnswer(front, id);
      if ResultPart(b) != [] {
        assert (ResultParts(front) + ResultPart(b))[..|ResultParts(front)|] == ResultParts(front);
      } else {
        assert ResultParts(front) + [] == ResultParts(front);
      }
    }
  }

  /** The answer to a use is the content of the last result block that names it, wherever in its
      message that stands. */
  lemma AnswerDelivered(role: string, bs: seq<Json>, id: string, marshal: Json -> string)
    requires id != ""
    ensures Ledger.AnswerTo(FromBlocks(role, bs, marshal), id) == ResultFor(bs, id)
  {
    ResultsAnswer(bs, id);
    var rs, out := ResultParts(bs), FromBlocks(role, bs, marshal);
    if out != rs {
      assert out[..|out| - 1] == rs;
    }
    hide ResultParts, TextParts, CallParts, ResultFor;
  }
}
