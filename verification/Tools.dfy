/** Tool calls, the chunks that carry them, and the tool choice. */
module Tools {
  import opened Json

  /** `detectedToolCall`; the arguments are JSON text. */
  datatype ToolCall = ToolCall(id: string, kind: string, name: string, arguments: string)

  /** One entry of `delta.tool_calls`; a field is absent when it is missing or not a string. */
  datatype CallDelta = CallDelta(
    index: int, id: Option<string>, kind: Option<string>, name: Option<string>, arguments: Option<string>)

  /** The `delta` of one chat completion chunk. */
  datatype Delta = Delta(role: Option<string>, content: Option<string>, toolCalls: seq<CallDelta>)

  /** The text that a client has received. */
  function Received(chunks: seq<Delta>): string {
    if chunks == [] then ""
    else
      var last := chunks[|chunks| - 1];
      Received(chunks[..|chunks| - 1]) + if last.content.Some? then last.content.value else ""
  }

  lemma {:induction false} ReceivedAppend(a: seq<Delta>, b: seq<Delta>)
    ensures Received(a + b) == Received(a) + Received(b)
  {
    if b == [] {
      assert a + b == a;
    } else {
      assert (a + b)[..|a + b| - 1] == a + b[..|b| - 1];
      ReceivedAppend(a, b[..|b| - 1]);
    }
  }

  lemma OneReceived(d: Delta)
    ensures Received([d]) == if d.content.Some? then d.content.value else ""
  {
  }

  /** `toolChoiceAllows` (a missing choice is null). */
  predicate ChoiceAllows(choice: Json, name: string) {
    match choice
    case Null => true
    case Text(s) => s != "none" && (s != "required" || name != "")
    case Object(m) =>
      if choice.Get("function").Object? then choice.Get("function").Get("name").AsText() == name
      else if choice.Get("name").Text? then choice.Get("name").s == name
      else true
    case _ => true
  }

  /** `toolFunction`: the function of the first tool of that name; null when there is none. */
  function ToolFunction(name: string, tools: seq<Json>): Json {
    if tools == [] then Null
    else if tools[0].Get("function").Get("name").AsText() == name then
      if tools[0].Get("function").Object? then tools[0].Get("function") else Null
    else ToolFunction(name, tools[1..])
  }

  /** `toolType`: the first non-empty type declared for that name. */
  function ToolType(name: string, tools: seq<Json>): string {
    if tools == [] then "function"
    else if tools[0].Get("function").Get("name").AsText() == name && tools[0].Get("type").AsText() != "" then
      tools[0].Get("type").s
    else ToolType(name, tools[1..])
  }

  /** `allowedToolNames`. */
  function AllowedNames(tools: seq<Json>): (r: set<string>)
    ensures forall n :: n in r <==> n != "" && exists i :: 0 <= i < |tools| && DeclaresName(tools[i], n)
  {
    set i | 0 <= i < |tools| && tools[i].Get("function").Get("name").AsText() != "" ::
      tools[i].Get("function").Get("name").AsText()
  }

  predicate DeclaresName(tool: Json, name: string) {
    tool.Get("function").Get("name") == Text(name)
  }

  /** `limitToolCalls`: as many of the first calls as the limit lets through, and at least one. */
  function LimitCalls(calls: seq<ToolCall>, n: int): (r: seq<ToolCall>)
    ensures r <= calls
    ensures |r| == |calls| || (|r| < |calls| && |r| == (if n < 1 then 1 else n))
    ensures |r| <= (if n < 1 then 1 else n)
  {
    var m := if n < 1 then 1 else n;
    if |calls| > m then calls[..m] else calls
  }

  /** What a choice means. Anything but text and objects allows all tools. */
  lemma ChoiceAllowsExactly(choice: Json, name: string)
    ensures choice == Text("none") ==> !ChoiceAllows(choice, name)
    ensures choice == Text("required") ==> (ChoiceAllows(choice, name) <==> name != "")
    ensures choice.Text? && choice.s !in {"none", "required"} ==> ChoiceAllows(choice, name)
    ensures choice.Object? && "function" in choice.fields && choice.fields["function"].Object? ==>
              var f := choice.fields["function"].fields;
              (ChoiceAllows(choice, name)
               <==> if "name" in f && f["name"].Text? then f["name"] == Text(name) else name == "")
    ensures choice.Object? && !("function" in choice.fields && choice.fields["function"].Object?) ==>
              (ChoiceAllows(choice, name)
               <==> ("name" in choice.fields && choice.fields["name"].Text? ==> choice.fields["name"] == Text(name)))
    ensures !choice.Text? && !choice.Object? ==> ChoiceAllows(choice, name)
  {
  }

  /** A tool goes by the name of its function; one without a name goes by the empty name. */
  predicate GoesBy(tool: Json, name: string) {
    if tool.Get("function").Get("name").Text? then tool.Get("function").Get("name").s == name else name == ""
  }

  /** The function found is that of the first tool of the name. */
  lemma {:induction false} ToolFunctionIsFirst(name: string, tools: seq<Json>, i: nat)
    requires i < |tools| && GoesBy(tools[i], name) && forall j :: 0 <= j < i ==> !GoesBy(tools[j], name)
    ensures ToolFunction(name, tools)
            == if tools[i].Get("function").Object? then tools[i].Get("function") else Null
    decreases i
  {
    if i > 0 {
      assert !GoesBy(tools[0], name);
      ToolFunctionIsFirst(name, tools[1..], i - 1);
    }
  }

  lemma {:induction false} NoToolFunction(name: string, tools: seq<Json>)
    requires forall j :: 0 <= j < |tools| ==> !GoesBy(tools[j], name)
    ensures ToolFunction(name, tools) == Null
  {
    if tools != [] {
      assert !GoesBy(tools[0], name);
      NoToolFunction(name, tools[1..]);
    }
  }

  /** The type is the first that a tool of the name declares, and that is not empty. */
  lemma {:induction false} ToolTypeIsFirst(name: string, tools: seq<Json>, i: nat)
    requires i < |tools| && GoesBy(tools[i], name)
    requires tools[i].Get("type").Text? && tools[i].Get("type").s != ""
    requires forall j :: 0 <= j < i && GoesBy(tools[j], name) ==> tools[j].Get("type").AsText() == ""
    ensures ToolType(name, tools) == tools[i].Get("type").s
    decreases i
  {
    if i > 0 {
      assert GoesBy(tools[0], name) ==> tools[0].Get("type").AsText() == "";
      ToolTypeIsFirst(name, tools[1..], i - 1);
    }
  }

  lemma {:induction false} NoToolType(name: string, tools: seq<Json>)
    requires forall j :: 0 <= j < |tools| && GoesBy(tools[j], name) ==> tools[j].Get("type").AsText() == ""
    ensures ToolType(name, tools) == "function"
  {
    if tools != [] {
      assert GoesBy(tools[0], name) ==> tools[0].Get("type").AsText() == "";
      NoToolType(name, tools[1..]);
    }
  }
}
