/** From a Responses request to the common list of messages. Strings are byte strings. */
module ResponsesRequest {
  import opened Json
  import opened Bytes
  import opened Conversation
  import opened Sequences
  import Ledger

  /** What is not modelled: reading and writing JSON text, and the wording of the instruction
      that goes with a custom exec tool. */
  datatype Codec = Codec(decode: string -> Option<Json>, marshal: Json -> string, policy: string)

  datatype Request = Request(instructions: string, input: Json, tools: seq<Json>)

  /** A tool passed on: its type, and its function. */
  datatype Tool = Tool(kind: string, definition: Json)

  datatype Translation =
    | Translated(messages: seq<Message>, tools: seq<Tool>)
    | InputRequired
    | InputMustBeTextOrArray
    | InvalidProgress

  // ----- One input item

  /** `parseToolProgress` succeeds. */
  predicate ProgressParses(item: Json) {
    && item.Get("type") == Text("function_call_progress")
    && Trim(item.Get("call_id").AsText()) != ""
    && Trim(item.Get("message").AsText()) != ""
  }

  datatype Reading = Skip | Invalid | Add(message: Message)

  function CallMessage(id: string, kind: string, name: string, arguments: string): Message {
    Message("assistant", Null, "", [Call(id, kind, name, arguments)])
  }

  function CallArguments(arguments: Json, codec: Codec): Json {
    if arguments.Text? && codec.decode(arguments.s).Some? then codec.decode(arguments.s).value else arguments
  }

  function ReadItem(item: Json, codec: Codec): Reading {
    if !item.Object? then Skip
    else
      var id, name := item.Get("call_id").AsText(), item.Get("name").AsText();
      match item.Get("type").AsText()
      case "function_call_progress" => if ProgressParses(item) then Skip else Invalid
      case "function_call_output" => Add(Message("tool", item.Get("output"), id, []))
      case "custom_tool_call_output" => Add(Message("tool", item.Get("output"), id, []))
      case "function_call" =>
        Add(CallMessage(id, "function", name, codec.marshal(CallArguments(item.Get("arguments"), codec))))
      case "custom_tool_call" =>
        Add(CallMessage(id, "custom", name, codec.marshal(Object(map["input" := Text(item.Get("input").AsText())]))))
      case _ =>
        var role := item.Get("role").AsText();
        Add(Message(if role == "" then "user" else role,
                    if item.Get("content") == Null then Array([item]) else item.Get("content"), "", []))
  }

  /** The messages of an input array, unless some progress item in it does not parse. */
  function ReadItems(items: seq<Json>, codec: Codec): Option<seq<Message>> {
    if items == [] then Some([])
    else
      var before := ReadItems(items[..|items| - 1], codec);
      if before.None? then None
      else
        match ReadItem(items[|items| - 1], codec)
        case Skip => before
        case Invalid => None
        case Add(m) => Some(before.value + [m])
  }

  // ----- The tools

  predicate IsCustomExec(t: Json) {
    t.Get("type") == Text("custom") && t.Get("name") == Text("exec")
  }

  predicate HasCustomExec(tools: seq<Json>) {
    exists i :: 0 <= i < |tools| && IsCustomExec(tools[i])
  }

  const EXEC_PARAMETERS := Object(map[
    "type" := Text("object"),
    "properties" := Object(map["input" := Object(map["type" := Text("string")])]),
    "required" := Array([Text("input")]),
    "additionalProperties" := Bool(false)])

  function PassOn(t: Json): Tool {
    var parameters := if IsCustomExec(t) then EXEC_PARAMETERS else t.Get("parameters");
    Tool(t.Get("type").AsText(),
         Object(map["name" := t.Get("name"), "description" := t.Get("description"), "parameters" := parameters]))
  }

  /** A custom exec tool shuts out all others. */
  predicate PassesOn(t: Json, exec: bool) {
    IsCustomExec(t) || (!exec && t.Get("type") == Text("function"))
  }

  function PassOnAll(tools: seq<Json>, exec: bool): (r: seq<Tool>)
    ensures forall x :: x in r <==> exists i :: 0 <= i < |tools| && PassesOn(tools[i], exec) && x == PassOn(tools[i])
  {
    if tools == [] then []
    else
      var t := tools[|tools| - 1];
      var r := PassOnAll(tools[..|tools| - 1], exec);
      assert forall i :: 0 <= i < |tools| - 1 ==> tools[..|tools| - 1][i] == tools[i];
      if PassesOn(t, exec) then r + [PassOn(t)] else r
  }

  // ----- `responsesRequest.openAI`

  function System(text: string): Message {
    Message("system", Text(text), "", [])
  }

  function Instructions(r: Request): seq<Message> {
    if Trim(r.instructions) != "" then [System(Trim(r.instructions))] else []
  }

  function Policy(r: Request, codec: Codec): seq<Message> {
    if HasCustomExec(r.tools) then [System(codec.policy)] else []
  }

  function Translate(r: Request, codec: Codec): Translation {
    var tools := PassOnAll(r.tools, HasCustomExec(r.tools));
    match r.input
    case Text(v) =>
      if v == "" then InputRequired
      else Translated(Policy(r, codec) + Instructions(r) + [Message("user", Text(v), "", [])], tools)
    case Array(items) =>
      var ms := ReadItems(items, codec);
      if ms.None? then InvalidProgress
      else Translated(Policy(r, codec) + Instructions(r) + ms.value, tools)
    case _ => InputMustBeTextOrArray
  }

  method ReadInput(items: seq<Json>, head: seq<Message>, codec: Codec) returns (r: Option<seq<Message>>)
    ensures r == if ReadItems(items, codec).None? then None else Some(head + ReadItems(items, codec).value)
  {
    hide ReadItem;
    var messages := head;
    for i := 0 to |items|
      invariant ReadItems(items[..i], codec).Some? && messages == head + ReadItems(items[..i], codec).value
    {
      assert items[..i + 1][..i] == items[..i];
      match ReadItem(items[i], codec) {
        case Skip =>
        case Invalid =>
          InvalidAnywhere(items, i, codec);
          return None;
        case Add(m) => messages := messages + [m];
      }
    }
    assert items[..|items|] == items;
    return Some(messages);
  }

  method SelectTools(ts: seq<Json>) returns (exec: bool, tools: seq<Tool>)
    ensures exec == HasCustomExec(ts) && tools == PassOnAll(ts, exec)
  {
    exec := false;
    for i := 0 to |ts|
      invariant exec == exists j :: 0 <= j < i && IsCustomExec(ts[j])
    {
      if IsCustomExec(ts[i]) {
        exec := true;
      }
    }
    hide PassOn;
    tools := [];
    for i := 0 to |ts|
      invariant tools == PassOnAll(ts[..i], exec)
    {
      assert ts[..i + 1][..i] == ts[..i];
      if exec && !IsCustomExec(ts[i]) {
        continue;
      }
      if !IsCustomExec(ts[i]) && ts[i].Get("type") != Text("function") {
        continue;
      }
      tools := tools + [PassOn(ts[i])];
    }
    assert ts[..|ts|] == ts;
  }

  method OpenAI(r: Request, codec: Codec) returns (o: Translation)
    ensures o == Translate(r, codec)
  {
    hide ReadItems, HasCustomExec, PassOnAll, Trim;
    var messages: seq<Message> := [];
    var instructions := Trim(r.instructions);
    if instructions != "" {
      messages := messages + [System(instructions)];
    }
    match r.input {
      case Text(v) =>
        if v == "" {
          return InputRequired;
        }
        messages := messages + [Message("user", Text(v), "", [])];
      case Array(items) =>
        var all := ReadInput(items, messages, codec);
        if all.None? {
          return InvalidProgress;
        }
        messages := all.value;
      case _ =>
        return InputMustBeTextOrArray;
    }
    var exec, tools := SelectTools(r.tools);
    if exec {
      messages := [System(codec.policy)] + messages;
    }
    return Translated(messages, tools);
  }

  // ----- Progress items

  lemma {:induction false} InvalidAnywhere(items: seq<Json>, i: nat, codec: Codec)
    requires i < |items| && ReadItem(items[i], codec).Invalid?
    ensures ReadItems(items, codec).None?
    decreases |items|
  {
    if i < |items| - 1 {
      InvalidAnywhere(items[..|items| - 1], i, codec);
    }
  }

  lemma {:induction false} ReadAppend(a: seq<Json>, b: seq<Json>, codec: Codec)
    ensures var x, y := ReadItems(a, codec), ReadItems(b, codec);
            ReadItems(a + b, codec) == if x.None? || y.None? then None else Some(x.value + y.value)
  {
    if b == [] {
      assert a + b == a;
      assert ReadItems(a, codec).Some? ==> ReadItems(a, codec).value + [] == ReadItems(a, codec).value;
    } else {
      hide ReadItem;
      var front := b[..|b| - 1];
      assert (a + b)[..|a + b| - 1] == a + front && (a + b)[|a + b| - 1] == b[|b| - 1];
      ReadAppend(a, front, codec);
      var x, y := ReadItems(a, codec), ReadItems(front, codec);
      if x.Some? && y.Some? && ReadItem(b[|b| - 1], codec).Add? {
        var m := ReadItem(b[|b| - 1], codec).message;
        assert x.value + y.value + [m] == x.value + (y.value + [m]);
      }
    }
  }

  /** A progress item that parses leaves no trace, wherever it stands. */
  lemma ProgressIsErased(a: seq<Json>, p: Json, b: seq<Json>, codec: Codec)
    requires ProgressParses(p)
    ensures ReadItems(a + [p] + b, codec) == ReadItems(a + b, codec)
  {
    assert (a + [p])[..|a|] == a;
    ReadAppend(a + [p], b, codec);
    ReadAppend(a, b, codec);
  }

  predicate MalformedProgress(item: Json) {
    item.Get("type") == Text("function_call_progress") && !ProgressParses(item)
  }

  /** An input array is read exactly when every progress item in it parses. */
  lemma {:induction false} ReadIffProgressParses(items: seq<Json>, codec: Codec)
    ensures ReadItems(items, codec).Some? <==> forall i :: 0 <= i < |items| ==> !MalformedProgress(items[i])
  {
    hide ReadItem, MalformedProgress;
    if items != [] {
      var n := |items| - 1;
      ReadIffProgressParses(items[..n], codec);
      InvalidIffMalformed(items[n], codec);
      assert forall i :: 0 <= i < n ==> items[..n][i] == items[i];
    }
  }

  lemma InvalidIffMalformed(item: Json, codec: Codec)
    ensures ReadItem(item, codec).Invalid? <==> MalformedProgress(item)
  {
  }

  // ----- Which histories are accepted

  /** What an item is to the protocol. A message item may take any role, even `tool`, which then
      answers no call. */
  datatype Kind = CallItem(id: string) | OutputItem(id: string) | AssistantItem | ToolItem | Neutral

  function KindOf(item: Json): Kind {
    if !item.Object? then Neutral
    else
      match item.Get("type").AsText()
      case "function_call_progress" => Neutral
      case "function_call_output" => OutputItem(item.Get("call_id").AsText())
      case "custom_tool_call_output" => OutputItem(item.Get("call_id").AsText())
      case "function_call" => CallItem(item.Get("call_id").AsText())
      case "custom_tool_call" => CallItem(item.Get("call_id").AsText())
      case _ =>
        match item.Get("role").AsText()
        case "assistant" => AssistantItem
        case "tool" => ToolItem
        case _ => Neutral
  }

  /** The items that matter: calls, outputs and assistant items. */
  function Significant(items: seq<Json>): seq<Kind> {
    if items == [] then []
    else
      var k := KindOf(items[|items| - 1]);
      Significant(items[..|items| - 1]) + if k.Neutral? then [] else [k]
  }

  predicate CallsDistinct(s: seq<Kind>) {
    && (forall i :: 0 <= i < |s| && s[i].CallItem? ==> s[i].id != "")
    && (forall i, j :: 0 <= i < j < |s| && s[i].CallItem? && s[j].CallItem? ==> s[i].id != s[j].id)
  }

  predicate OutputsFollow(s: seq<Kind>) {
    && (forall i :: 0 <= i < |s| ==> s[i] != ToolItem)
    && (forall i :: 0 <= i < |s| && s[i].OutputItem? ==> i > 0 && s[i - 1] == CallItem(s[i].id))
  }

  /** Each call is answered, once, before the next call or assistant item and by the end. */
  predicate CallsAnsweredNext(s: seq<Kind>) {
    forall i :: 0 <= i < |s| && s[i].CallItem? ==> i + 1 < |s| && s[i + 1] == OutputItem(s[i].id)
  }

  /** The same, but for a call that is the last item. */
  predicate AnsweredSoFar(s: seq<Kind>) {
    forall i :: 0 <= i < |s| - 1 && s[i].CallItem? ==> s[i + 1] == OutputItem(s[i].id)
  }

  function KindSteps(k: Kind): seq<Step> {
    match k
    case CallItem(id) => [Turn, Calls(id)]
    case OutputItem(id) => [Result(id)]
    case AssistantItem => [Turn]
    case ToolItem => [Result("")]
    case Neutral => []
  }

  function AllKindSteps(s: seq<Kind>): seq<Step> {
    if s == [] then [] else AllKindSteps(s[..|s| - 1]) + KindSteps(s[|s| - 1])
  }

  lemma ItemSteps(item: Json, codec: Codec)
    requires !MalformedProgress(item)
    ensures ReadItem(item, codec).Skip? ==> KindOf(item).Neutral?
    ensures ReadItem(item, codec).Add? ==> StepsOf(ReadItem(item, codec).message) == KindSteps(KindOf(item))
  {
    var r := ReadItem(item, codec);
    if r.Add? && KindOf(item).CallItem? {
      assert CallSteps(r.message.toolCalls) == [Calls(KindOf(item).id)];
    }
  }

  lemma SignificantNext(items: seq<Json>)
    requires items != []
    ensures AllKindSteps(Significant(items))
            == AllKindSteps(Significant(items[..|items| - 1])) + KindSteps(KindOf(items[|items| - 1]))
  {
    hide KindOf;
    var s, k := Significant(items[..|items| - 1]), KindOf(items[|items| - 1]);
    if k.Neutral? {
      assert s + [] == s;
    } else {
      assert (s + [k])[..|s|] == s;
    }
  }

  lemma {:induction false} ReadSteps(items: seq<Json>, codec: Codec)
    requires ReadItems(items, codec).Some?
    ensures Steps(ReadItems(items, codec).value) == AllKindSteps(Significant(items))
  {
    if items != [] {
      var n, item := |items| - 1, items[|items| - 1];
      var ms, r := ReadItems(items[..n], codec).value, ReadItem(item, codec);
      ReadSteps(items[..n], codec);
      SignificantNext(items);
      InvalidIffMalformed(item, codec);
      ItemSteps(item, codec);
      hide ReadItem, KindOf, StepsOf, MalformedProgress, Significant, AllKindSteps, KindSteps;
      if r.Add? {
        MessageSteps(ms, r.message);
      } else {
        assert KindSteps(Neutral) == [] by { NeutralSteps(); }
        assert Steps(ms) + [] == Steps(ms);
      }
    }
  }

  lemma NeutralSteps()
    ensures KindSteps(Neutral) == []
  {
  }

  lemma MessageSteps(ms: seq<Message>, m: Message)
    ensures Steps(ms + [m]) == Steps(ms) + StepsOf(m)
  {
    assert (ms + [m])[..|ms|] == ms;
  }

  function IdsCalled(s: seq<Kind>): set<string> {
    set i | 0 <= i < |s| && s[i].CallItem? :: s[i].id
  }

  predicate SoFar(s: seq<Kind>) {
    CallsDistinct(s) && OutputsFollow(s) && AnsweredSoFar(s)
  }

  function OpenCall(s: seq<Kind>): set<string> {
    if s != [] && s[|s| - 1].CallItem? then {s[|s| - 1].id} else {}
  }

  function Opened(x: Kind): set<string> {
    if x.CallItem? then {x.id} else {}
  }

  lemma IdsNext(p: seq<Kind>, x: Kind)
    ensures IdsCalled(p + [x]) == IdsCalled(p) + Opened(x)
  {
    var s, n := p + [x], |p|;
    assert s[n] == x && forall i :: 0 <= i < n ==> s[i] == p[i];
    forall id | id in IdsCalled(p) ensures id in IdsCalled(s) {
      var i :| 0 <= i < n && p[i].CallItem? && p[i].id == id;
      assert s[i].CallItem? && s[i].id == id;
    }
  }

  lemma DistinctNext(p: seq<Kind>, x: Kind)
    ensures CallsDistinct(p + [x])
            <==> CallsDistinct(p) && (x.CallItem? ==> x.id != "" && x.id !in IdsCalled(p))
  {
    var s, n := p + [x], |p|;
    assert s[n] == x && forall i :: 0 <= i < n ==> s[i] == p[i];
    if x.CallItem? && x.id in IdsCalled(p) {
      var i :| 0 <= i < n && p[i].CallItem? && p[i].id == x.id;
      assert s[i].id == s[n].id;
    }
  }

  lemma FollowNext(p: seq<Kind>, x: Kind)
    ensures OutputsFollow(p + [x])
            <==> OutputsFollow(p) && x != ToolItem && (x.OutputItem? ==> OpenCall(p) == {x.id})
  {
    var s, n := p + [x], |p|;
    assert s[n] == x && forall i :: 0 <= i < n ==> s[i] == p[i];
    assert n > 0 && p[n - 1].CallItem? && x.OutputItem? && OpenCall(p) == {x.id} ==> x.id in {p[n - 1].id};
  }

  lemma AnsweredNext(p: seq<Kind>, x: Kind)
    ensures AnsweredSoFar(p + [x])
            <==> AnsweredSoFar(p) && (OpenCall(p) != {} ==> x.OutputItem? && OpenCall(p) == {x.id})
  {
    var s, n := p + [x], |p|;
    assert s[n] == x && forall i :: 0 <= i < n ==> s[i] == p[i];
    if AnsweredSoFar(s) {
      forall i | 0 <= i < n - 1 && p[i].CallItem? ensures p[i + 1] == OutputItem(p[i].id) {
        assert s[i + 1] == OutputItem(s[i].id);
      }
      if n > 0 && p[n - 1].CallItem? {
        assert s[n - 1 + 1] == OutputItem(s[n - 1].id);
      }
    }
    if n > 0 && p[n - 1].CallItem? && x.OutputItem? && OpenCall(p) == {x.id} {
      assert p[n - 1].id in {x.id};
    }
  }

  /** When an item may come next. */
  predicate MayCome(open: set<string>, ids: set<string>, x: Kind) {
    match x
    case CallItem(id) => open == {} && id != "" && id !in ids
    case OutputItem(id) => open == {id}
    case AssistantItem => open == {}
    case ToolItem => false
    case Neutral => true
  }

  lemma SoFarNext(p: seq<Kind>, x: Kind)
    requires !x.Neutral?
    ensures SoFar(p + [x]) <==> SoFar(p) && MayCome(OpenCall(p), IdsCalled(p), x)
  {
    DistinctNext(p, x);
    FollowNext(p, x);
    AnsweredNext(p, x);
    hide CallsDistinct, OutputsFollow, AnsweredSoFar, IdsCalled, OpenCall;
  }

  /** The machine is open exactly while the items are in order so far, and what is pending is
      then the call that is the last item. */
  lemma {:induction false} MachineFollowsItems(s: seq<Kind>)
    requires forall i :: 0 <= i < |s| ==> !s[i].Neutral?
    ensures Run(START, AllKindSteps(s))
            == if SoFar(s) then Open(OpenCall(s), IdsCalled(s) - OpenCall(s)) else Broken
    ensures SoFar(s) ==> OpenCall(s) <= IdsCalled(s) && "" !in IdsCalled(s)
  {
    if s != [] {
      var p, x := s[..|s| - 1], s[|s| - 1];
      assert s == p + [x];
      MachineFollowsItems(p);
      IdsNext(p, x);
      SoFarNext(p, x);
      ItemMoves(AllKindSteps(p), x);
      LastOpen(p, x);
      OneOpen(p);
      hide SoFar, IdsCalled, KindSteps, OpenCall, MoveItem, Run;
      var open, ids := OpenCall(p), IdsCalled(p);
      if SoFar(p) {
        ItemState(open, ids, x);
      } else {
        ItemState({}, {}, x);
      }
    }
  }

  lemma OneOpen(p: seq<Kind>)
    ensures forall a, b :: a in OpenCall(p) && b in OpenCall(p) ==> a == b
  {
  }

  lemma LastOpen(p: seq<Kind>, x: Kind)
    ensures OpenCall(p + [x]) == Opened(x)
  {
  }

  function MoveItem(v: State, x: Kind): State {
    match x
    case CallItem(id) => Move(Move(v, Turn), Calls(id))
    case OutputItem(id) => Move(v, Result(id))
    case AssistantItem => Move(v, Turn)
    case ToolItem => Move(v, Result(""))
    case Neutral => v
  }

  lemma ItemMoves(steps: seq<Step>, x: Kind)
    ensures Run(START, steps + KindSteps(x)) == MoveItem(Run(START, steps), x)
  {
    match x
    case CallItem(id) =>
      RunOne(START, steps, Turn);
      RunOne(START, steps + [Turn], Calls(id));
      assert steps + [Turn, Calls(id)] == steps + [Turn] + [Calls(id)];
    case OutputItem(id) => RunOne(START, steps, Result(id));
    case AssistantItem => RunOne(START, steps, Turn);
    case ToolItem => RunOne(START, steps, Result(""));
    case Neutral => assert steps + [] == steps;
  }

  lemma ItemState(open: set<string>, ids: set<string>, x: Kind)
    requires open <= ids && "" !in ids && !x.Neutral?
    requires forall a, b :: a in open && b in open ==> a == b
    ensures MoveItem(Broken, x) == Broken
    ensures MoveItem(Open(open, ids - open), x)
            == if !MayCome(open, ids, x) then Broken
               else Open(Opened(x), ids + Opened(x) - Opened(x))
  {
    match x
    case CallItem(id) =>
      if id !in ids {
        assert ids + {id} - {id} == ids;
      }
    case OutputItem(id) =>
      assert ids + {} - {} == ids;
      if id in open {
        assert open == {id};
        assert ids - open + {id} == ids;
      }
    case AssistantItem =>
      assert ids + {} - {} == ids;
    case ToolItem =>
  }

  lemma {:induction false} SignificantOnly(items: seq<Json>)
    ensures forall i :: 0 <= i < |Significant(items)| ==> !Significant(items)[i].Neutral?
  {
    if items != [] {
      SignificantOnly(items[..|items| - 1]);
    }
  }

  lemma EndOfItems(s: seq<Kind>)
    ensures SoFar(s) && OpenCall(s) == {} <==> CallsDistinct(s) && OutputsFollow(s) && CallsAnsweredNext(s)
  {
  }

  lemma {:induction false} SystemsAreNoSteps(ms: seq<Message>)
    requires forall i :: 0 <= i < |ms| ==> ms[i].role == "system"
    ensures Steps(ms) == []
  {
    if ms != [] {
      SystemsAreNoSteps(ms[..|ms| - 1]);
    }
  }

  /** A request with an input array that is read translates to an accepted conversation exactly
      when its call ids are non-empty and distinct, every output directly follows its call, and
      every call is answered before the next call or assistant item and by the end; progress
      items, other messages, instructions and the tools do not matter. */
  lemma {:induction false} AcceptedIff(r: Request, codec: Codec)
    requires r.input.Array? && Translate(r, codec).Translated?
    ensures var s := Significant(r.input.items);
            Accepts(Translate(r, codec).messages)
            <==> CallsDistinct(s) && OutputsFollow(s) && CallsAnsweredNext(s)
  {
    var items := r.input.items;
    var head, s := Policy(r, codec) + Instructions(r), Significant(items);
    var ms := ReadItems(items, codec).value;
    assert Translate(r, codec).messages == head + ms;
    hide Translate, ReadItems, Policy, Instructions, Significant, CallsDistinct, OutputsFollow, CallsAnsweredNext;
    SystemsAreNoSteps(head);
    StepsAppend(head, ms);
    ReadSteps(items, codec);
    SignificantOnly(items);
    MachineFollowsItems(s);
    EndOfItems(s);
    hide SoFar, OpenCall, AllKindSteps, IdsCalled;
    assert Steps(head + ms) == AllKindSteps(s);
  }

  /** A request with a text input translates to an accepted conversation. */
  lemma TextAccepted(r: Request, codec: Codec)
    requires r.input.Text? && Translate(r, codec).Translated?
    ensures Accepts(Translate(r, codec).messages)
  {
    var head, m := Policy(r, codec) + Instructions(r), Message("user", Text(r.input.s), "", []);
    assert Translate(r, codec).messages == head + [m];
    assert StepsOf(m) == [];
    hide Translate, Trim, PassOnAll, HasCustomExec, Instructions;
    SystemsAreNoSteps(head);
    MessageSteps(head, m);
    assert Steps(head + [m]) == [];
  }

  // ----- Two calls at once

  function CallInput(id: string): Json {
    Object(map["type" := Text("function_call"), "call_id" := Text(id)])
  }

  function OutputInput(id: string): Json {
    Object(map["type" := Text("function_call_output"), "call_id" := Text(id)])
  }

  /** Two calls in a row, both answered afterwards. */
  function TwoCalls(a: string, b: string): Request {
    Request("", Array([CallInput(a), CallInput(b), OutputInput(a), OutputInput(b)]), [])
  }

  lemma KindsOfTwoCalls(a: string, b: string)
    ensures Significant([CallInput(a), CallInput(b), OutputInput(a), OutputInput(b)])
            == [CallItem(a), CallItem(b), OutputItem(a), OutputItem(b)]
  {
    var items := [CallInput(a), CallInput(b), OutputInput(a), OutputInput(b)];
    assert KindOf(CallInput(a)) == CallItem(a) && KindOf(CallInput(b)) == CallItem(b);
    assert KindOf(OutputInput(a)) == OutputItem(a) && KindOf(OutputInput(b)) == OutputItem(b);
    hide KindOf, CallInput, OutputInput;
    assert items[..3] == [items[0], items[1], items[2]] && items[..3][..2] == [items[0], items[1]];
    assert [items[0], items[1]][..1] == [items[0]] && [items[0]][..0] == [];
    assert Significant([items[0]]) == [CallItem(a)];
    assert Significant([items[0], items[1]]) == [CallItem(a), CallItem(b)];
    assert Significant(items[..3]) == [CallItem(a), CallItem(b), OutputItem(a)];
  }

  /** They are read, and rejected, whatever their ids. */
  lemma TwoCallsInARowRejected(a: string, b: string, codec: Codec)
    ensures Translate(TwoCalls(a, b), codec).Translated?
    ensures !Accepts(Translate(TwoCalls(a, b), codec).messages)
  {
    var items := TwoCalls(a, b).input.items;
    forall i | 0 <= i < |items| ensures !MalformedProgress(items[i]) {}
    ReadIffProgressParses(items, codec);
    KindsOfTwoCalls(a, b);
    var s := [CallItem(a), CallItem(b), OutputItem(a), OutputItem(b)];
    assert s[0].CallItem? && s[0 + 1] != OutputItem(s[0].id);
    assert !CallsAnsweredNext(s);
    assert Significant(items) == s;
    hide ReadItems, Significant, KindOf, MalformedProgress, PassOnAll, HasCustomExec, Policy, Instructions, Accepts;
    AcceptedIff(TwoCalls(a, b), codec);
  }

  // ----- What the messages carry

  /** Whether an input item becomes a message: an object that is no progress. */
  predicate Passed(item: Json) {
    item.Object? && item.Get("type") != Text("function_call_progress")
  }

  function PassedFlags(items: seq<Json>): (r: seq<bool>)
    ensures |r| == |items| && forall i :: 0 <= i < |items| ==> r[i] == Passed(items[i])
  {
    seq(|items|, i requires 0 <= i < |items| => Passed(items[i]))
  }

  /** The arguments of a call as they are passed on: JSON text that decodes is decoded, and all is
      written anew. */
  predicate WrittenAnew(arguments: Json, text: string, codec: Codec) {
    match arguments
    case Text(s) =>
      if codec.decode(s).Some? then text == codec.marshal(codec.decode(s).value) else text == codec.marshal(arguments)
    case _ => text == codec.marshal(arguments)
  }

  /** A message carries what its item says. */
  predicate Carries(item: Json, m: Message, codec: Codec) {
    var kind, id, name := item.Get("type"), item.Get("call_id").AsText(), item.Get("name").AsText();
    if kind == Text("function_call_output") || kind == Text("custom_tool_call_output") then
      m.role == "tool" && m.toolCallId == id && m.content == item.Get("output") && m.toolCalls == []
    else if kind == Text("function_call") then
      && m.role == "assistant" && m.toolCallId == "" && |m.toolCalls| == 1
      && m.toolCalls[0].id == id && m.toolCalls[0].kind == "function" && m.toolCalls[0].name == name
      && WrittenAnew(item.Get("arguments"), m.toolCalls[0].arguments, codec)
    else if kind == Text("custom_tool_call") then
      && m.role == "assistant" && m.toolCallId == "" && |m.toolCalls| == 1
      && m.toolCalls[0].id == id && m.toolCalls[0].kind == "custom" && m.toolCalls[0].name == name
      && m.toolCalls[0].arguments == codec.marshal(Object(map["input" := Text(item.Get("input").AsText())]))
    else
      && m.role == (if item.Get("role").AsText() == "" then "user" else item.Get("role").AsText())
      && m.content == (if item.Get("content") == Null then Array([item]) else item.Get("content"))
      && m.toolCallId == "" && m.toolCalls == []
  }

  predicate AllCarried(items: seq<Json>, ms: seq<Message>, codec: Codec) {
    |ms| == |items| && forall k :: 0 <= k < |ms| ==> Carries(items[k], ms[k], codec)
  }

  lemma ItemCarried(item: Json, codec: Codec)
    requires !MalformedProgress(item)
    ensures ReadItem(item, codec).Skip? <==> !Passed(item)
    ensures ReadItem(item, codec).Add? ==> Carries(item, ReadItem(item, codec).message, codec)
  {
  }

  lemma CarriedNext(items: seq<Json>, ms: seq<Message>, item: Json, m: Message, codec: Codec)
    requires AllCarried(items, ms, codec) && Carries(item, m, codec)
    ensures AllCarried(items + [item], ms + [m], codec)
  {
    hide Carries;
  }

  lemma ReadNext(front: seq<Json>, item: Json, codec: Codec)
    requires ReadItems(front + [item], codec).Some?
    ensures ReadItems(front, codec).Some? && !ReadItem(item, codec).Invalid?
    ensures ReadItems(front + [item], codec).value
            == if ReadItem(item, codec).Add? then ReadItems(front, codec).value + [ReadItem(item, codec).message]
               else ReadItems(front, codec).value
  {
    hide ReadItem;
    assert (front + [item])[..|front|] == front;
  }

  /** Of an input that is read, the items that are passed on become messages, one each and in
      order, and each message carries what its item says. */
  lemma {:induction false} ItemsDelivered(items: seq<Json>, codec: Codec)
    requires ReadItems(items, codec).Some?
    ensures AllCarried(Selected(items, PassedFlags(items)), ReadItems(items, codec).value, codec)
  {
    hide ReadItem, Carries, Passed, MalformedProgress, Selected, AllCarried;
    if items == [] {
      NoItems(codec);
    } else {
      var front, item := items[..|items| - 1], items[|items| - 1];
      assert items == front + [item] && PassedFlags(items) == PassedFlags(front) + [Passed(item)];
      ReadNext(front, item, codec);
      hide ReadItems;
      ItemsDelivered(front, codec);
      InvalidIffMalformed(item, codec);
      ItemCarried(item, codec);
      SelectedNext(front, PassedFlags(front), item, Passed(item));
      if Passed(item) {
        CarriedNext(Selected(front, PassedFlags(front)), ReadItems(front, codec).value, item,
                    ReadItem(item, codec).message, codec);
      } else {
        assert Selected(front, PassedFlags(front)) + [] == Selected(front, PassedFlags(front));
      }
    }
  }

  lemma NoItems(codec: Codec)
    ensures AllCarried(Selected([], PassedFlags([])), [], codec)
  {
  }

  predicate IsOutput(item: Json, id: string) {
    && (item.Get("type") == Text("function_call_output") || item.Get("type") == Text("custom_tool_call_output"))
    && item.Get("call_id") == Text(id)
  }

  /** The output of the last output item of a call. */
  function OutputOf(items: seq<Json>, id: string): Option<Json> {
    if items == [] then None
    else if IsOutput(items[|items| - 1], id) then Some(items[|items| - 1].Get("output"))
    else OutputOf(items[..|items| - 1], id)
  }

  /** The calls of the items, in order. */
  function CallsOf(items: seq<Json>, codec: Codec): seq<Call> {
    if items == [] then []
    else
      var item := items[|items| - 1];
      var id, name := item.Get("call_id").AsText(), item.Get("name").AsText();
      CallsOf(items[..|items| - 1], codec)
      + if item.Get("type") == Text("function_call") then
          [Call(id, "function", name, codec.marshal(CallArguments(item.Get("arguments"), codec)))]
        else if item.Get("type") == Text("custom_tool_call") then
          [Call(id, "custom", name, codec.marshal(Object(map["input" := Text(item.Get("input").AsText())])))]
        else []
  }

  lemma OneItemDelivered(item: Json, id: string, codec: Codec)
    requires !MalformedProgress(item) && id != ""
    ensures var r := ReadItem(item, codec);
            && (r.Skip? ==> !IsOutput(item, id) && CallsOf([item], codec) == [])
            && (r.Add? ==>
                  && (r.message.role == "tool" && r.message.toolCallId == id <==> IsOutput(item, id))
                  && (IsOutput(item, id) ==> r.message.content == item.Get("output"))
                  && (if r.message.role == "assistant" then r.message.toolCalls else []) == CallsOf([item], codec))
  {
    assert [item][..0] == [] && CallsOf([], codec) == [];
  }

  lemma CallsOfNext(front: seq<Json>, item: Json, codec: Codec)
    ensures CallsOf(front + [item], codec) == CallsOf(front, codec) + CallsOf([item], codec)
  {
    assert (front + [item])[..|front|] == front && [item][..0] == [] && CallsOf([], codec) == [];
  }

  lemma OutputOfNext(front: seq<Json>, item: Json, id: string)
    ensures OutputOf(front + [item], id) == if IsOutput(item, id) then Some(item.Get("output")) else OutputOf(front, id)
  {
    hide IsOutput;
    assert (front + [item])[..|front|] == front;
  }

  lemma SaidNext(ms: seq<Message>, m: Message, id: string)
    ensures Ledger.AnswerTo(ms + [m], id)
            == if m.role == "tool" && m.toolCallId == id then Some(m.content) else Ledger.AnswerTo(ms, id)
    ensures Ledger.AllCalls(ms + [m])
            == Ledger.AllCalls(ms) + if m.role == "assistant" then m.toolCalls else []
  {
    assert (ms + [m])[..|ms|] == ms;
  }

  /** So the answer to a call is the output of the last output item that names it, and the calls
      are those of the call items, in order. */
  lemma {:induction false} AnswersDelivered(items: seq<Json>, id: string, codec: Codec)
    requires ReadItems(items, codec).Some? && id != ""
    ensures Ledger.AnswerTo(ReadItems(items, codec).value, id) == OutputOf(items, id)
    ensures Ledger.AllCalls(ReadItems(items, codec).value) == CallsOf(items, codec)
  {
    if items != [] {
      var front, item := items[..|items| - 1], items[|items| - 1];
      assert items == front + [item];
      ReadNext(front, item, codec);
      AnswersDelivered(front, id, codec);
      hide ReadItems, ReadItem, IsOutput, MalformedProgress, CallsOf, OutputOf, Ledger.AnswerTo, Ledger.AllCalls;
      InvalidIffMalformed(item, codec);
      OneItemDelivered(item, id, codec);
      CallsOfNext(front, item, codec);
      OutputOfNext(front, item, id);
      if ReadItem(item, codec).Add? {
        SaidNext(ReadItems(front, codec).value, ReadItem(item, codec).message, id);
      } else {
        assert CallsOf(front, codec) + [] == CallsOf(front, codec);
      }
    }
  }

  /** A request that is read delivers all that it says: the policy if there is a custom exec tool,
      the instructions if they are not blank, and then its items. */
  lemma Delivered(r: Request, id: string, codec: Codec)
    requires r.input.Array? && Translate(r, codec).Translated? && id != ""
    ensures var messages, items := Translate(r, codec).messages, r.input.items;
            && Ledger.AnswerTo(messages, id) == OutputOf(items, id)
            && Ledger.AllCalls(messages) == CallsOf(items, codec)
            && ReadItems(items, codec).Some?
            && messages
               == (if exists i :: 0 <= i < |r.tools| && IsCustomExec(r.tools[i])
                   then [Message("system", Text(codec.policy), "", [])] else [])
                  + (if Trim(r.instructions) != ""
                     then [Message("system", Text(Trim(r.instructions)), "", [])] else [])
                  + ReadItems(items, codec).value
            && AllCarried(Selected(items, PassedFlags(items)), ReadItems(items, codec).value, codec)
  {
    var items, head := r.input.items, Policy(r, codec) + Instructions(r);
    var ms := ReadItems(items, codec).value;
    ItemsDelivered(items, codec);
    AnswersDelivered(items, id, codec);
    HeadSaysNothing(r, id, codec);
    hide AllCarried, Selected, ReadItems, Trim, PassOnAll, IsCustomExec, OutputOf, CallsOf;
    Ledger.CallsAppend(head, ms);
    hide Ledger.AllCalls, Ledger.AnswerTo;
  }

  lemma HeadSaysNothing(r: Request, id: string, codec: Codec)
    ensures var head := Policy(r, codec) + Instructions(r);
            Ledger.AllCalls(head) == [] && Ledger.AnswerTo(head, id).None?
  {
    hide Trim, HasCustomExec;
    SystemSaysNothing(Policy(r, codec) + Instructions(r), id);
  }

  lemma {:induction false} SystemSaysNothing(ms: seq<Message>, id: string)
    requires forall i :: 0 <= i < |ms| ==> ms[i].role == "system"
    ensures Ledger.AllCalls(ms) == [] && Ledger.AnswerTo(ms, id).None?
  {
    if ms != [] {
      SystemSaysNothing(ms[..|ms| - 1], id);
    }
  }

  // ----- What the tools carry

  /** Whether a declared tool is passed on: a custom exec tool always, and function tools if there
      is no such. */
  ghost function ToolFlags(ts: seq<Json>): (r: seq<bool>)
    ensures |r| == |ts|
    ensures forall i :: 0 <= i < |ts| ==>
              (r[i] <==> || (ts[i].Get("type") == Text("custom") && ts[i].Get("name") == Text("exec"))
                         || (&& ts[i].Get("type") == Text("function")
                             && forall j :: 0 <= j < |ts| ==> !IsCustomExec(ts[j])))
  {
    seq(|ts|, i requires 0 <= i < |ts| => PassesOn(ts[i], HasCustomExec(ts)))
  }

  /** A tool keeps its type, name, description and parameters, but for those of a custom exec tool,
      which takes one text. */
  predicate ToolCarries(t: Json, tool: Tool) {
    && tool.kind == t.Get("type").AsText()
    && tool.definition.Object? && tool.definition.fields.Keys == {"name", "description", "parameters"}
    && tool.definition.fields["name"] == t.Get("name")
    && tool.definition.fields["description"] == t.Get("description")
    && (tool.definition.fields["parameters"] == if IsCustomExec(t) then EXEC_PARAMETERS else t.Get("parameters"))
  }

  ghost predicate AllToolsCarried(ts: seq<Json>, tools: seq<Tool>) {
    |tools| == |ts| && forall k :: 0 <= k < |tools| ==> ToolCarries(ts[k], tools[k])
  }

  /** Exactly those tools are passed on, in order. */
  lemma ToolsDelivered(ts: seq<Json>)
    ensures AllToolsCarried(Selected(ts, ToolFlags(ts)), PassOnAll(ts, HasCustomExec(ts)))
  {
    ToolsPassedOn(ts, HasCustomExec(ts));
    assert ToolFlags(ts) == PassFlags(ts, HasCustomExec(ts));
  }

  function PassFlags(ts: seq<Json>, exec: bool): (r: seq<bool>)
    ensures |r| == |ts| && forall i :: 0 <= i < |ts| ==> r[i] == PassesOn(ts[i], exec)
  {
    seq(|ts|, i requires 0 <= i < |ts| => PassesOn(ts[i], exec))
  }

  lemma {:induction false} ToolsPassedOn(ts: seq<Json>, exec: bool)
    ensures AllToolsCarried(Selected(ts, PassFlags(ts, exec)), PassOnAll(ts, exec))
  {
    hide ToolCarries, PassesOn, PassOn, Selected;
    if ts == [] {
      NoTools(exec);
    } else {
      var front, t := ts[..|ts| - 1], ts[|ts| - 1];
      ToolsPassedOn(front, exec);
      OneToolCarried(t);
      assert ts == front + [t] && PassFlags(ts, exec) == PassFlags(front, exec) + [PassesOn(t, exec)];
      SelectedNext(front, PassFlags(front, exec), t, PassesOn(t, exec));
    }
  }

  lemma NoTools(exec: bool)
    ensures AllToolsCarried(Selected([], PassFlags([], exec)), PassOnAll([], exec))
  {
  }

  lemma OneToolCarried(t: Json)
    ensures ToolCarries(t, PassOn(t))
  {
  }
}
