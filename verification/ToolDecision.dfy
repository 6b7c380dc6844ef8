/** Which of the calls that the routing model decided on are kept. */
module ToolDecision {
  import opened Json
  import opened Tools
  import opened Schema
  import opened Sequences

  /** A decoded decision; the arguments are an object, or null when they are missing. */
  datatype Decided = Decided(name: string, arguments: Json)

  /** `schemaValid` finds nothing wrong. */
  ghost predicate ArgumentsValid(arguments: Json, fn: Json) {
    fn.Get("parameters").Object? ==> Satisfies(arguments, fn.Get("parameters"))
  }

  /** A call is kept when its tool is declared, its arguments are given and valid, and the tool
      choice allows it. */
  ghost predicate Kept(c: Decided, tools: seq<Json>, choice: Json) {
    && ToolFunction(c.name, tools) != Null
    && c.arguments != Null
    && ChoiceAllows(choice, c.name)
    && ArgumentsValid(c.arguments, ToolFunction(c.name, tools))
  }

  /** What is dropped: a call of a tool that is not declared or has no function, one without
      arguments, one that the choice does not allow, and one whose arguments the declared
      parameters refuse. */
  lemma DroppedExactly(c: Decided, tools: seq<Json>, choice: Json)
    ensures !Kept(c, tools, choice)
            <==> || ToolFunction(c.name, tools) == Null || c.arguments == Null || !ChoiceAllows(choice, c.name)
                 || (&& ToolFunction(c.name, tools).Get("parameters").Object?
                     && !Satisfies(c.arguments, ToolFunction(c.name, tools).Get("parameters")))
  {
    hide Satisfies;
  }

  method SchemaValid(arguments: Json, fn: Json) returns (ok: bool)
    ensures ok <==> ArgumentsValid(arguments, fn)
    ensures !ok <==> fn.Get("parameters").Object? && !Satisfies(arguments, fn.Get("parameters"))
  {
    if !fn.Get("parameters").Object? {
      return true;
    }
    var p := ValidateJSONSchema(arguments, fn.Get("parameters"));
    return p.None?;
  }

  /** Which calls are kept. */
  ghost function KeptFlags(calls: seq<Decided>, tools: seq<Json>, choice: Json): (r: seq<bool>)
    ensures |r| == |calls| && forall i :: 0 <= i < |calls| ==> r[i] == Kept(calls[i], tools, choice)
  {
    seq(|calls|, i requires 0 <= i < |calls| => Kept(calls[i], tools, choice))
  }

  /** The positions of the kept calls, ascending. */
  ghost function KeptPositions(calls: seq<Decided>, tools: seq<Json>, choice: Json): (r: seq<nat>)
    ensures forall i: nat :: i in r <==> i < |calls| && Kept(calls[i], tools, choice)
    ensures forall i, j :: 0 <= i < j < |r| ==> r[i] < r[j]
    ensures forall k :: 0 <= k < |r| ==> r[k] < |calls|
  {
    var r := Positions(KeptFlags(calls, tools, choice));
    assert forall k :: 0 <= k < |r| ==> r[k] in r;
    r
  }

  /** A call at position `i` of the decision, whose id is made from that position. */
  function CallAt(c: Decided, i: nat, tools: seq<Json>, marshal: Json -> string,
                  callID: (string, string, nat) -> string): ToolCall
  {
    var arguments := marshal(c.arguments);
    ToolCall(callID(c.name, arguments, i), ToolType(c.name, tools), c.name, arguments)
  }

  /** A kept call carries its name, the type declared for it and its arguments, and the id of its
      place. */
  lemma KeptCallSays(c: Decided, i: nat, tools: seq<Json>, marshal: Json -> string,
                     callID: (string, string, nat) -> string)
    ensures var call := CallAt(c, i, tools, marshal, callID);
            && call.name == c.name && call.arguments == marshal(c.arguments)
            && call.kind == ToolType(c.name, tools) && call.id == callID(c.name, call.arguments, i)
  {
  }

  lemma KeptNext(calls: seq<Decided>, i: nat, tools: seq<Json>, choice: Json)
    requires i < |calls|
    ensures KeptPositions(calls[..i + 1], tools, choice)
            == KeptPositions(calls[..i], tools, choice) + if Kept(calls[i], tools, choice) then [i] else []
  {
    hide Kept;
    var flags := KeptFlags(calls[..i + 1], tools, choice);
    assert flags[..i] == KeptFlags(calls[..i], tools, choice);
  }

  /** The calls at some positions of a decision. */
  function CallsAt(calls: seq<Decided>, at: seq<nat>, tools: seq<Json>, marshal: Json -> string,
                   callID: (string, string, nat) -> string): (r: seq<ToolCall>)
    requires forall k :: 0 <= k < |at| ==> at[k] < |calls|
    ensures |r| == |at|
    ensures forall k :: 0 <= k < |at| ==> r[k] == CallAt(calls[at[k]], at[k], tools, marshal, callID)
  {
    seq(|at|, k requires 0 <= k < |at| => CallAt(calls[at[k]], at[k], tools, marshal, callID))
  }

  lemma CallsAtNext(calls: seq<Decided>, at: seq<nat>, i: nat, tools: seq<Json>, marshal: Json -> string,
                    callID: (string, string, nat) -> string)
    requires i < |calls| && forall k :: 0 <= k < |at| ==> at[k] < |calls|
    ensures CallsAt(calls, at + [i], tools, marshal, callID)
            == CallsAt(calls, at, tools, marshal, callID) + [CallAt(calls[i], i, tools, marshal, callID)]
  {
    hide CallAt;
  }

  /** The filter of `parseModelToolDecision`: exactly the kept calls, in order, each with the id
      of its own position. */
  method FilterDecision(calls: seq<Decided>, tools: seq<Json>, choice: Json, marshal: Json -> string,
                        callID: (string, string, nat) -> string) returns (out: seq<ToolCall>)
    ensures out == CallsAt(calls, KeptPositions(calls, tools, choice), tools, marshal, callID)
  {
    out := [];
    ghost var at: seq<nat> := [];
    assert KeptPositions(calls[..0], tools, choice) == [];
    hide Kept, CallAt, KeptPositions, CallsAt;
    for i := 0 to |calls|
      invariant at == KeptPositions(calls[..i], tools, choice)
      invariant forall k :: 0 <= k < |at| ==> at[k] < |calls|
      invariant out == CallsAt(calls, at, tools, marshal, callID)
    {
      KeptNext(calls, i, tools, choice);
      var keep := KeepsCall(calls[i], tools, choice);
      if keep {
        CallsAtNext(calls, at, i, tools, marshal, callID);
        out := out + [CallAt(calls[i], i, tools, marshal, callID)];
        at := at + [i];
      }
    }
    assert calls[..|calls|] == calls;
  }

  method KeepsCall(c: Decided, tools: seq<Json>, choice: Json) returns (keep: bool)
    ensures keep <==> Kept(c, tools, choice)
  {
    var fn := ToolFunction(c.name, tools);
    if fn == Null || c.arguments == Null || !ChoiceAllows(choice, c.name) {
      return false;
    }
    keep := SchemaValid(c.arguments, fn);
  }

  // ----- What a declared tool is

  predicate Declares(tool: Json, name: string) {
    tool.Get("function").Get("name").AsText() == name
  }

  /** A function is found exactly when the first tool of that name has one. */
  lemma {:induction false} FunctionFound(name: string, tools: seq<Json>)
    ensures ToolFunction(name, tools) != Null
            <==> exists i :: && 0 <= i < |tools| && Declares(tools[i], name) && tools[i].Get("function").Object?
                             && forall j :: 0 <= j < i ==> !Declares(tools[j], name)
  {
    if tools != [] && !Declares(tools[0], name) {
      var rest := tools[1..];
      FunctionFound(name, rest);
      hide Declares;
      assert forall i :: 0 <= i < |rest| ==> rest[i] == tools[i + 1];
      if i :| && 0 <= i < |rest| && Declares(rest[i], name) && rest[i].Get("function").Object?
              && forall j :: 0 <= j < i ==> !Declares(rest[j], name) {
        FoundLater(name, tools, i);
      }
      if i :| && 0 <= i < |tools| && Declares(tools[i], name) && tools[i].Get("function").Object?
              && forall j :: 0 <= j < i ==> !Declares(tools[j], name) {
        assert Declares(rest[i - 1], name) && forall j :: 0 <= j < i - 1 ==> !Declares(rest[j], name);
      }
    }
  }

  lemma FoundLater(name: string, tools: seq<Json>, i: nat)
    requires i + 1 < |tools| && !Declares(tools[0], name)
    requires forall j :: 0 <= j < i ==> !Declares(tools[1..][j], name)
    ensures forall j :: 0 <= j < i + 1 ==> !Declares(tools[j], name)
  {
    forall j | 0 <= j < i + 1 ensures !Declares(tools[j], name) {
      if j > 0 {
        assert tools[1..][j - 1] == tools[j];
      }
    }
  }
}
