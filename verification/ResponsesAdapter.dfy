/** From chat completion chunks to Responses events, and the path that does not stream. */
module ResponsesAdapter {
  import opened Json
  import opened Runes
  import opened Tools
  import opened ToolResponse

  // Fresh ids are serial numbers.
  datatype ItemId = MessageId | CallId(serial: nat)

  datatype Item =
    | Message(id: ItemId, text: string)
    | FunctionCall(id: ItemId, callId: string, name: string, arguments: string)
    | CustomCall(id: ItemId, callId: string, name: string, input: string)

  datatype Event =
    | Created
    | Added(index: int, item: Item)
    | TextDelta(id: ItemId, delta: string)
    | TextDone(id: ItemId, text: string)
    | ArgumentsDelta(index: int, id: ItemId, delta: string)
    | ArgumentsDone(index: int, id: ItemId, arguments: string)
    | InputDelta(index: int, id: ItemId, delta: string)
    | InputDone(index: int, id: ItemId, input: string)
    | ItemDone(index: int, item: Item)
    | Completed(output: seq<Item>)
    | FailedRequest
    | FailedEmpty

  predicate Terminal(e: Event) {
    e.Completed? || e.FailedRequest? || e.FailedEmpty?
  }

  datatype CallState = CallState(itemId: ItemId, custom: bool, id: string, name: string, arguments: string)

  datatype State = State(
    text: string, textStarted: bool, calls: map<int, CallState>, serial: nat, events: seq<Event>)

  const START := State("", false, map[], 0, [Created])

  function Or<T>(o: Option<T>, d: T): T {
    if o.Some? then o.value else d
  }

  // ----- One chunk, on values

  function OnText(s: State, content: Option<string>): State {
    if content.None? || content.value == "" then s
    else
      s.(text := s.text + content.value, textStarted := true,
         events := s.events
                   + (if s.textStarted then [] else [Added(0, Message(MessageId, ""))])
                   + [TextDelta(MessageId, content.value)])
  }

  /** The call of an index that has none yet is announced under a fresh id, without a name. */
  function Announce(s: State, index: int, custom: bool): State {
    if index in s.calls then s
    else
      var id := CallId(s.serial);
      s.(calls := s.calls[index := CallState(id, custom, "", "", "")], serial := s.serial + 1,
         events := s.events + [Added(index, if custom then CustomCall(id, "", "", "") else FunctionCall(id, "", "", ""))])
  }

  function Fill(st: CallState, d: CallDelta): CallState {
    st.(id := Or(d.id, st.id),
        name := if d.name.Some? then st.name + d.name.value else st.name,
        arguments := if d.arguments.Some? then st.arguments + d.arguments.value else st.arguments)
  }

  function OnCall(s: State, d: CallDelta): (r: State)
    ensures d.index in r.calls
  {
    var a := Announce(s, d.index, d.kind == Some("custom"));
    var st := a.calls[d.index];
    a.(calls := a.calls[d.index := Fill(st, d)],
       events := if d.arguments.Some? && !st.custom
                 then a.events + [ArgumentsDelta(d.index, st.itemId, d.arguments.value)] else a.events)
  }

  function OnCalls(s: State, ds: seq<CallDelta>): State {
    if ds == [] then s else OnCall(OnCalls(s, ds[..|ds| - 1]), ds[|ds| - 1])
  }

  function OnDelta(s: State, d: Delta): State {
    OnCalls(OnText(s, d.content), d.toolCalls)
  }

  function OnDeltas(s: State, chunks: seq<Delta>): State {
    if chunks == [] then s else OnDelta(OnDeltas(s, chunks[..|chunks| - 1]), chunks[|chunks| - 1])
  }

  // ----- The end, on values

  /** What a call is listed as; a function call takes a fresh id, although it was announced. */
  function FinalItem(st: CallState, serial: nat, input: string -> string): Item {
    if st.custom then CustomCall(st.itemId, st.id, st.name, input(st.arguments))
    else FunctionCall(CallId(serial), st.id, st.name, st.arguments)
  }

  function FinalEvents(i: int, item: Item): seq<Event> {
    match item
    case CustomCall(id, _, _, text) =>
      [InputDelta(i, id, text), InputDone(i, id, text), ItemDone(i, item)]
    case FunctionCall(id, callId, name, arguments) =>
      [Added(i, FunctionCall(id, callId, name, "")), ArgumentsDelta(i, id, arguments),
       ArgumentsDone(i, id, arguments), ItemDone(i, item)]
    case Message(_, _) => []
  }

  /** The items of the calls at indices below `n`, with the events that list them. */
  function Listed(s: State, n: nat, input: string -> string): (r: (seq<Item>, nat, seq<Event>))
  {
    if n == 0 then ([], s.serial, s.events)
    else
      var (items, serial, events) := Listed(s, n - 1, input);
      if n - 1 !in s.calls then (items, serial, events)
      else
        var st := s.calls[n - 1];
        var item := FinalItem(st, serial, input);
        (items + [item], if st.custom then serial else serial + 1, events + FinalEvents(n - 1, item))
  }

  function TextEvents(s: State): seq<Event> {
    s.events
    + (if s.textStarted then [] else [Added(0, Message(MessageId, "")), TextDelta(MessageId, s.text)])
    + [TextDone(MessageId, s.text), ItemDone(0, Message(MessageId, s.text)), Completed([Message(MessageId, s.text)])]
  }

  /** All the events, once the inner handler is done; `failed` when it answered with an error. */
  function Ended(s: State, failed: bool, input: string -> string): seq<Event> {
    if failed then s.events + [FailedRequest]
    else if s.calls == map[] && Blank(s.text) then s.events + [FailedEmpty]
    else if s.calls != map[] then
      var (items, _, events) := Listed(s, |s.calls|, input);
      events + [Completed(items)]
    else TextEvents(s)
  }

  function Respond(chunks: seq<Delta>, failed: bool, input: string -> string): seq<Event> {
    Ended(OnDeltas(START, chunks), failed, input)
  }

  // ----- The scan loop

  class Adapter {
    var text: string
    var textStarted: bool
    var calls: map<int, CallState>
    var serial: nat
    var events: seq<Event>

    ghost function Value(): State
      reads this
    {
      State(text, textStarted, calls, serial, events)
    }

    constructor ()
      ensures Value() == START
    {
      text, textStarted, calls, serial, events := "", false, map[], 0, [Created];
    }

    method Emit(e: Event)
      modifies this`events
      ensures events == old(events) + [e]
    {
      events := events + [e];
    }

    method OnRawCall(tc: CallDelta)
      modifies this
      ensures Value() == OnCall(old(Value()), tc)
    {
      var custom := tc.kind == Some("custom");
      if tc.index !in calls {
        var id := CallId(serial);
        serial := serial + 1;
        calls := calls[tc.index := CallState(id, custom, "", "", "")];
        Emit(Added(tc.index, if custom then CustomCall(id, "", "", "") else FunctionCall(id, "", "", "")));
      }
      var st := calls[tc.index];
      if tc.id.Some? {
        st := st.(id := tc.id.value);
      }
      if tc.name.Some? {
        st := st.(name := st.name + tc.name.value);
      }
      if tc.arguments.Some? {
        st := st.(arguments := st.arguments + tc.arguments.value);
        if !st.custom {
          Emit(ArgumentsDelta(tc.index, st.itemId, tc.arguments.value));
        }
      }
      calls := calls[tc.index := st];
    }

    method OnContent(content: Option<string>)
      modifies this
      ensures Value() == OnText(old(Value()), content)
    {
      if content.Some? && content.value != "" {
        text := text + content.value;
        if !textStarted {
          textStarted := true;
          Emit(Added(0, Message(MessageId, "")));
        }
        Emit(TextDelta(MessageId, content.value));
      }
    }

    method OnChunk(d: Delta)
      modifies this
      ensures Value() == OnDelta(old(Value()), d)
    {
      hide OnText, OnCall, Value;
      OnContent(d.content);
      ghost var s := Value();
      for i := 0 to |d.toolCalls|
        invariant Value() == OnCalls(s, d.toolCalls[..i])
      {
        assert d.toolCalls[..i + 1][..i] == d.toolCalls[..i];
        OnRawCall(d.toolCalls[i]);
      }
      assert d.toolCalls[..|d.toolCalls|] == d.toolCalls;
    }

    /** The item of one call, with the events that list it. */
    method ListCall(i: int, st: CallState, input: string -> string) returns (item: Item)
      modifies this`serial, this`events
      ensures item == FinalItem(st, old(serial), input)
      ensures serial == (if st.custom then old(serial) else old(serial) + 1)
      ensures events == old(events) + FinalEvents(i, item)
    {
      ghost var before := events;
      if st.custom {
        item := CustomCall(st.itemId, st.id, st.name, input(st.arguments));
        Emit(InputDelta(i, item.id, item.input));
        Emit(InputDone(i, item.id, item.input));
        Emit(ItemDone(i, item));
      } else {
        item := FunctionCall(CallId(serial), st.id, st.name, st.arguments);
        serial := serial + 1;
        Emit(Added(i, FunctionCall(item.id, st.id, st.name, "")));
        Emit(ArgumentsDelta(i, item.id, st.arguments));
        Emit(ArgumentsDone(i, item.id, st.arguments));
        Emit(ItemDone(i, item));
      }
      assert events == before + FinalEvents(i, item);
    }

    method ListCalls(input: string -> string) returns (output: seq<Item>)
      modifies this`serial, this`events
      ensures (output, serial, events) == Listed(old(Value()), |calls|, input)
    {
      hide FinalItem, FinalEvents;
      output := [];
      ghost var s := Value();
      for i := 0 to |calls|
        invariant (output, serial, events) == Listed(s, i, input)
      {
        if i in calls {
          var item := ListCall(i, calls[i], input);
          output := output + [item];
        }
      }
    }

    method Finish(failed: bool, input: string -> string)
      modifies this
      ensures events == Ended(old(Value()), failed, input)
    {
      hide Listed, Blank;
      if failed {
        Emit(FailedRequest);
        return;
      }
      if |calls| == 0 && Blank(text) {
        Emit(FailedEmpty);
        return;
      }
      var output: seq<Item> := [];
      if |calls| > 0 {
        output := ListCalls(input);
      } else {
        if !textStarted {
          Emit(Added(0, Message(MessageId, "")));
          Emit(TextDelta(MessageId, text));
        }
        Emit(TextDone(MessageId, text));
        Emit(ItemDone(0, Message(MessageId, text)));
        output := [Message(MessageId, text)];
      }
      Emit(Completed(output));
    }
  }

  method StreamResponses(chunks: seq<Delta>, failed: bool, input: string -> string) returns (events: seq<Event>)
    ensures events == Respond(chunks, failed, input)
  {
    var a := new Adapter();
    for i := 0 to |chunks|
      invariant fresh(a) && a.Value() == OnDeltas(START, chunks[..i])
    {
      assert chunks[..i + 1][..i] == chunks[..i];
      a.OnChunk(chunks[i]);
    }
    assert chunks[..|chunks|] == chunks;
    a.Finish(failed, input);
    events := a.events;
  }
}
