/** What every stream of Responses events keeps, and how it agrees with the path that does not
stream.
*/
module ResponsesStream {
  import opened Json
  import opened Runes
  import opened Tools
  import opened ToolResponse
  import opened ResponsesAdapter

  // ----- Reading a stream of events

  /** What a client has put together, and whether the stream has kept to the protocol: created
      first and once, nothing after the end, no id added twice, and nothing said of an item that
      was not added before. */
  datatype Client = Client(
    started: bool, ended: bool, legal: bool, added: set<ItemId>, text: string, arguments: map<ItemId, string>)

  const NEW_CLIENT := Client(false, false, true, {}, "", map[])

  /** The items that an event speaks of. */
  predicate SpeaksOf(e: Event, id: ItemId) {
    match e
    case TextDelta(i, _) => i == id
    case TextDone(i, _) => i == id
    case ArgumentsDelta(_, i, _) => i == id
    case ArgumentsDone(_, i, _) => i == id
    case InputDelta(_, i, _) => i == id
    case InputDone(_, i, _) => i == id
    case ItemDone(_, item) => item.id == id
    case _ => false
  }

  ghost predicate Legal(c: Client, e: Event) {
    && !c.ended
    && (e.Created? <==> !c.started)
    && (e.Added? ==> e.item.id !in c.added)
    && (forall id :: SpeaksOf(e, id) ==> id in c.added)
  }

  function Arguments(c: Client, id: ItemId): string {
    if id in c.arguments then c.arguments[id] else ""
  }

  ghost function Read(c: Client, e: Event): Client {
    Client(
      true, c.ended || Terminal(e), c.legal && Legal(c, e),
      if e.Added? then c.added + {e.item.id} else c.added,
      if e.TextDelta? then c.text + e.delta else c.text,
      if e.ArgumentsDelta? then c.arguments[e.id := Arguments(c, e.id) + e.delta] else c.arguments)
  }

  ghost function ReadAll(es: seq<Event>): Client {
    if es == [] then NEW_CLIENT else Read(ReadAll(es[..|es| - 1]), es[|es| - 1])
  }

  lemma ReadOne(es: seq<Event>, e: Event)
    ensures ReadAll(es + [e]) == Read(ReadAll(es), e)
  {
    assert (es + [e])[..|es|] == es;
  }

  predicate Completes(es: seq<Event>) {
    es != [] && es[|es| - 1].Completed?
  }

  /** The output of the completion. */
  function Output(es: seq<Event>): seq<Item>
    requires Completes(es)
  {
    es[|es| - 1].output
  }

  // ----- What every chunk keeps

  /** The stream goes on, and no serial number from `serial` on has been used. */
  ghost predicate Sound(c: Client, serial: nat) {
    && c.started && !c.ended && c.legal
    && (forall id :: id in c.added && id.CallId? ==> id.serial < serial)
    && c.arguments.Keys <= c.added
  }

  predicate CallKept(c: Client, serial: nat, st: CallState) {
    && st.itemId.CallId? && st.itemId.serial < serial && st.itemId in c.added
    && (!st.custom ==> Arguments(c, st.itemId) == st.arguments)
  }

  ghost predicate CallsKept(c: Client, serial: nat, calls: map<int, CallState>) {
    && (forall k :: k in calls ==> CallKept(c, serial, calls[k]))
    && (forall k, l :: k in calls && l in calls && k != l ==> calls[k].itemId != calls[l].itemId)
  }

  ghost predicate Kept(s: State) {
    var c := ReadAll(s.events);
    && Sound(c, s.serial)
    && c.text == s.text
    && (s.textStarted <==> s.text != "")
    && (s.textStarted <==> MessageId in c.added)
    && CallsKept(c, s.serial, s.calls)
  }

  lemma StartKept()
    ensures Kept(START)
  {
    ReadOne([], Created);
    assert [] + [Created] == [Created];
  }

  lemma TextKeepsCalls(c: Client, c': Client, serial: nat, calls: map<int, CallState>)
    requires CallsKept(c, serial, calls) && c.added <= c'.added && c.arguments == c'.arguments
    ensures CallsKept(c', serial, calls)
  {
    assert forall k :: k in calls && CallKept(c, serial, calls[k]) ==> CallKept(c', serial, calls[k]);
  }

  lemma TextKept(s: State, content: Option<string>)
    requires Kept(s)
    ensures Kept(OnText(s, content))
  {
    if content.Some? && content.value != "" {
      var first, delta := Added(0, Message(MessageId, "")), TextDelta(MessageId, content.value);
      var c := ReadAll(s.events);
      if s.textStarted {
        ReadOne(s.events, delta);
        assert s.events + [] + [delta] == s.events + [delta];
        TextKeepsCalls(c, Read(c, delta), s.serial, s.calls);
      } else {
        ReadOne(s.events, first);
        ReadOne(s.events + [first], delta);
        TextKeepsCalls(c, Read(Read(c, first), delta), s.serial, s.calls);
      }
      hide ReadAll, CallsKept;
    }
  }

  lemma AnnounceKept(s: State, index: int, custom: bool)
    requires Kept(s)
    ensures Kept(Announce(s, index, custom))
  {
    hide ReadAll, Read;
    if index !in s.calls {
      var id, c := CallId(s.serial), ReadAll(s.events);
      var item := if custom then CustomCall(id, "", "", "") else FunctionCall(id, "", "", "");
      ReadOne(s.events, Added(index, item));
      ReadAdded(c, index, item);
      AnnouncedKept(c, s.serial, s.calls, index, CallState(id, custom, "", "", ""));
      hide CallsKept;
    }
  }

  lemma AnnouncedKept(c: Client, serial: nat, calls: map<int, CallState>, index: int, st: CallState)
    requires Sound(c, serial) && CallsKept(c, serial, calls) && index !in calls
    requires st.itemId == CallId(serial) && st.arguments == ""
    ensures var c' := c.(added := c.added + {st.itemId});
            Sound(c', serial + 1) && CallsKept(c', serial + 1, calls[index := st])
  {
    var c' := c.(added := c.added + {st.itemId});
    forall k | k in calls ensures CallKept(c', serial + 1, calls[k]) && calls[k].itemId != st.itemId {
      assert CallKept(c, serial, calls[k]);
    }
  }

  lemma OneCallKept(s: State, d: CallDelta)
    requires Kept(s)
    ensures Kept(OnCall(s, d))
  {
    var a := Announce(s, d.index, d.kind == Some("custom"));
    AnnounceKept(s, d.index, d.kind == Some("custom"));
    OneCallFilled(a, d);
  }

  lemma OneCallFilled(a: State, d: CallDelta)
    requires Kept(a) && d.index in a.calls
    ensures OnCall(a, d) == Filled(a, d) && Kept(Filled(a, d))
  {
    var st, c := a.calls[d.index], ReadAll(a.events);
    assert CallKept(c, a.serial, st);
    if d.arguments.Some? && !st.custom {
      ReadOne(a.events, ArgumentsDelta(d.index, st.itemId, d.arguments.value));
      ArgumentsKept(c, a.serial, a.calls, d.index, Fill(st, d), d.arguments.value);
    }
    hide ReadAll;
  }

  /** The state once the call of `d` has been announced. */
  function Filled(a: State, d: CallDelta): State
    requires d.index in a.calls
  {
    var st := a.calls[d.index];
    a.(calls := a.calls[d.index := Fill(st, d)],
       events := if d.arguments.Some? && !st.custom
                 then a.events + [ArgumentsDelta(d.index, st.itemId, d.arguments.value)] else a.events)
  }

  lemma ArgumentsKept(c: Client, serial: nat, calls: map<int, CallState>, k: int, st: CallState, delta: string)
    requires Sound(c, serial) && CallsKept(c, serial, calls) && k in calls && !st.custom
    requires st.itemId == calls[k].itemId && st.custom == calls[k].custom
    requires st.arguments == calls[k].arguments + delta
    ensures var c' := Read(c, ArgumentsDelta(k, st.itemId, delta));
            Sound(c', serial) && CallsKept(c', serial, calls[k := st])
  {
    assert CallKept(c, serial, calls[k]);
    var c' := Read(c, ArgumentsDelta(k, st.itemId, delta));
    forall l | l in calls && l != k ensures CallKept(c', serial, calls[l]) {
      assert CallKept(c, serial, calls[l]);
    }
  }

  lemma {:induction false} AllCallsKept(s: State, ds: seq<CallDelta>)
    requires Kept(s)
    ensures Kept(OnCalls(s, ds))
  {
    if ds != [] {
      AllCallsKept(s, ds[..|ds| - 1]);
      OneCallKept(OnCalls(s, ds[..|ds| - 1]), ds[|ds| - 1]);
    }
  }

  lemma {:induction false} ChunksKept(chunks: seq<Delta>)
    ensures Kept(OnDeltas(START, chunks))
  {
    hide Kept;
    if chunks == [] {
      StartKept();
    } else {
      var s, d := OnDeltas(START, chunks[..|chunks| - 1]), chunks[|chunks| - 1];
      ChunksKept(chunks[..|chunks| - 1]);
      TextKept(s, d.content);
      AllCallsKept(OnText(s, d.content), d.toolCalls);
    }
  }

  // ----- What listing the calls keeps

  /** A listed item is known to the client, who has put its arguments together. */
  predicate ItemKept(c: Client, serial: nat, item: Item) {
    && item.id.CallId? && item.id.serial < serial && item.id in c.added
    && (item.FunctionCall? ==> Arguments(c, item.id) == item.arguments)
  }

  ghost predicate GoesOn(c: Client) {
    c.started && !c.ended && c.legal
  }

  /** An event that only speaks of a known item changes nothing, but for the deltas. */
  lemma ReadKnown(c: Client, e: Event, id: ItemId)
    requires GoesOn(c) && id in c.added && forall i :: SpeaksOf(e, i) ==> i == id
    requires e.ArgumentsDone? || e.InputDelta? || e.InputDone? || e.ItemDone?
    ensures Read(c, e) == c
  {
  }

  lemma ReadAdded(c: Client, i: int, item: Item)
    requires GoesOn(c) && item.id !in c.added
    ensures Read(c, Added(i, item)) == c.(added := c.added + {item.id})
  {
  }

  lemma ReadArguments(c: Client, i: int, id: ItemId, delta: string)
    requires GoesOn(c) && id in c.added
    ensures Read(c, ArgumentsDelta(i, id, delta)) == c.(arguments := c.arguments[id := Arguments(c, id) + delta])
  {
  }

  lemma CustomListed(es: seq<Event>, serial: nat, i: int, item: Item)
    requires Sound(ReadAll(es), serial) && item.CustomCall? && item.id in ReadAll(es).added
    ensures ReadAll(es + FinalEvents(i, item)) == ReadAll(es)
  {
    hide ReadAll, Read;
    var c, id := ReadAll(es), item.id;
    var first, second, third := InputDelta(i, id, item.input), InputDone(i, id, item.input), ItemDone(i, item);
    assert es + FinalEvents(i, item) == es + [first] + [second] + [third];
    ReadOne(es, first);
    ReadKnown(c, first, id);
    ReadOne(es + [first], second);
    ReadKnown(c, second, id);
    ReadOne(es + [first] + [second], third);
    ReadKnown(c, third, id);
  }

  lemma FunctionListed(es: seq<Event>, serial: nat, i: int, item: Item)
    requires Sound(ReadAll(es), serial) && item.FunctionCall? && item.id == CallId(serial)
    ensures var c := ReadAll(es);
            ReadAll(es + FinalEvents(i, item))
            == c.(added := c.added + {item.id}, arguments := c.arguments[item.id := item.arguments])
  {
    var c, id := ReadAll(es), item.id;
    assert id !in c.added && Arguments(c, id) == "" && "" + item.arguments == item.arguments;
    hide ReadAll, Read, Sound, Arguments;
    var announced := FunctionCall(id, item.callId, item.name, "");
    var first, second, third, fourth :=
      Added(i, announced), ArgumentsDelta(i, id, item.arguments), ArgumentsDone(i, id, item.arguments), ItemDone(i, item);
    assert es + FinalEvents(i, item) == es + [first] + [second] + [third] + [fourth];
    ReadOne(es, first);
    ReadAdded(c, i, announced);
    var c1 := c.(added := c.added + {id});
    assert Arguments(c1, id) == Arguments(c, id) by { SameArguments(c, c1, id); }
    ReadOne(es + [first], second);
    ReadArguments(c1, i, id, item.arguments);
    var c2 := c1.(arguments := c1.arguments[id := item.arguments]);
    ReadOne(es + [first] + [second], third);
    ReadKnown(c2, third, id);
    ReadOne(es + [first] + [second] + [third], fourth);
    ReadKnown(c2, fourth, id);
  }

  lemma SameArguments(c: Client, d: Client, id: ItemId)
    requires c.arguments == d.arguments
    ensures Arguments(c, id) == Arguments(d, id)
  {
  }

  ghost predicate ListKept(s: State, items: seq<Item>, serial: nat, c: Client) {
    && Sound(c, serial) && s.serial <= serial
    && (forall i :: 0 <= i < |items| ==> ItemKept(c, serial, items[i]))
    && CallsKept(c, s.serial, s.calls)
  }

  lemma ListKeptStep(s: State, items: seq<Item>, serial: nat, es: seq<Event>, k: int, input: string -> string)
    requires ListKept(s, items, serial, ReadAll(es)) && k in s.calls
    ensures var item := FinalItem(s.calls[k], serial, input);
            ListKept(s, items + [item], if s.calls[k].custom then serial else serial + 1,
                     ReadAll(es + FinalEvents(k, item)))
  {
    var item := FinalItem(s.calls[k], serial, input);
    assert CallKept(ReadAll(es), s.serial, s.calls[k]);
    if s.calls[k].custom {
      CustomListed(es, serial, k, item);
    } else {
      FunctionListed(es, serial, k, item);
    }
    hide ReadAll, FinalEvents;
  }

  lemma {:induction false} ListedKept(s: State, n: nat, input: string -> string)
    requires Kept(s)
    ensures var (items, serial, es) := Listed(s, n, input);
            ListKept(s, items, serial, ReadAll(es))
  {
    hide ListKept, ReadAll, FinalItem, FinalEvents;
    if n == 0 {
      NothingListed(s);
    } else {
      ListedKept(s, n - 1, input);
      if n - 1 in s.calls {
        var (items, serial, es) := Listed(s, n - 1, input);
        ListKeptStep(s, items, serial, es, n - 1, input);
      }
    }
  }

  lemma NothingListed(s: State)
    requires Kept(s)
    ensures ListKept(s, [], s.serial, ReadAll(s.events))
  {
  }

  // ----- The shape of every stream

  /** Whatever the chunks, the stream keeps to the protocol and ends, once and last. */
  lemma EveryStreamIsLegal(chunks: seq<Delta>, failed: bool, input: string -> string)
    ensures var c := ReadAll(Respond(chunks, failed, input));
            c.legal && c.ended
  {
    var s := OnDeltas(START, chunks);
    ChunksKept(chunks);
    hide ReadAll, OnDeltas, Listed, TextEvents, CallsKept, CallKept, ItemKept, Blank;
    if failed {
      ReadOne(s.events, FailedRequest);
    } else if s.calls == map[] && Blank(s.text) {
      ReadOne(s.events, FailedEmpty);
    } else if s.calls != map[] {
      var (items, serial, es) := Listed(s, |s.calls|, input);
      ListedKept(s, |s.calls|, input);
      ReadOne(es, Completed(items));
    } else {
      StartedUnlessBlank(s);
      TextEnds(s);
    }
  }

  /** A legal stream that has ended ended with its last event, and with no other. */
  lemma {:induction false} LegalEndsOnce(es: seq<Event>)
    requires ReadAll(es).legal
    ensures es != [] ==> es[0] == Created
    ensures forall i :: 0 < i < |es| ==> !es[i].Created?
    ensures forall i :: 0 <= i < |es| && i != |es| - 1 ==> !Terminal(es[i])
    ensures ReadAll(es).started <==> es != []
    ensures ReadAll(es).ended <==> es != [] && Terminal(es[|es| - 1])
  {
    if es != [] {
      LegalEndsOnce(es[..|es| - 1]);
    }
  }

  /** The branch that announces a message at the end is never taken: a text that is not blank
      has been announced. */
  lemma StartedUnlessBlank(s: State)
    requires Kept(s) && !Blank(s.text)
    ensures s.textStarted
  {
  }

  lemma TextEnds(s: State)
    requires Kept(s) && s.textStarted
    ensures ReadAll(TextEvents(s)) == ReadAll(s.events).(ended := true)
    ensures TextEvents(s)[|TextEvents(s)| - 1] == Completed([Message(MessageId, s.text)])
  {
    var done, item := TextDone(MessageId, s.text), ItemDone(0, Message(MessageId, s.text));
    var e := Completed([Message(MessageId, s.text)]);
    ReadOne(s.events, done);
    ReadOne(s.events + [done], item);
    ReadOne(s.events + [done] + [item], e);
    assert TextEvents(s) == s.events + [done] + [item] + [e];
    hide ReadAll;
  }

  // ----- Text

  predicate NoCalls(chunks: seq<Delta>) {
    forall i :: 0 <= i < |chunks| ==> chunks[i].toolCalls == []
  }

  lemma {:induction false} CallsLeaveText(s: State, ds: seq<CallDelta>)
    ensures OnCalls(s, ds).text == s.text
  {
    if ds != [] {
      CallsLeaveText(s, ds[..|ds| - 1]);
    }
  }

  lemma {:induction false} TextIsReceived(chunks: seq<Delta>)
    ensures OnDeltas(START, chunks).text == Received(chunks)
    ensures NoCalls(chunks) ==> OnDeltas(START, chunks).calls == map[] && OnDeltas(START, chunks).serial == 0
  {
    if chunks != [] {
      var before, d := chunks[..|chunks| - 1], chunks[|chunks| - 1];
      TextIsReceived(before);
      CallsLeaveText(OnText(OnDeltas(START, before), d.content), d.toolCalls);
    }
  }

  /** A stream without calls, and with text that is not blank, completes with exactly the text
      received, and its deltas add up to it. */
  lemma TextDelivered(chunks: seq<Delta>, input: string -> string)
    requires NoCalls(chunks) && !Blank(Received(chunks))
    ensures var es := Respond(chunks, false, input);
            && Completes(es) && Output(es) == [Message(MessageId, Received(chunks))]
            && ReadAll(es).text == Received(chunks)
  {
    var s := OnDeltas(START, chunks);
    ChunksKept(chunks);
    TextIsReceived(chunks);
    StartedUnlessBlank(s);
    TextEnds(s);
  }

  // ----- Calls

  predicate AddsUp(c: Client, item: Item) {
    item.FunctionCall? ==> Arguments(c, item.id) == item.arguments
  }

  /** A client that has read the whole stream has put together the arguments of every function
      call listed at the end, and of every one announced on the way. */
  lemma ArgumentsAddUp(chunks: seq<Delta>, input: string -> string)
    requires OnDeltas(START, chunks).calls != map[]
    ensures var es := Respond(chunks, false, input);
            && Completes(es)
            && forall i :: 0 <= i < |Output(es)| ==> AddsUp(ReadAll(es), Output(es)[i])
    ensures var s, es := OnDeltas(START, chunks), Respond(chunks, false, input);
            forall k :: k in s.calls && !s.calls[k].custom ==>
              Arguments(ReadAll(es), s.calls[k].itemId) == s.calls[k].arguments
  {
    var s := OnDeltas(START, chunks);
    ChunksKept(chunks);
    ListedKept(s, |s.calls|, input);
    var (items, serial, es) := Listed(s, |s.calls|, input);
    ReadOne(es, Completed(items));
    assert forall i :: 0 <= i < |items| ==> ItemKept(ReadAll(es), serial, items[i]);
    assert forall k :: k in s.calls ==> CallKept(ReadAll(es), s.serial, s.calls[k]);
    hide ReadAll, Listed, OnDeltas;
  }

  lemma {:induction false} ListedCount(s: State, n: nat, input: string -> string)
    ensures |Listed(s, n, input).0| == |set k | k in s.calls && 0 <= k < n|
  {
    if n > 0 {
      ListedCount(s, n - 1, input);
      var a, b := set k | k in s.calls && 0 <= k < n - 1, set k | k in s.calls && 0 <= k < n;
      if n - 1 in s.calls {
        assert b == a + {n - 1};
      } else {
        assert b == a;
      }
    }
  }

  /** The loop over the first `len(calls)` indices lists every call exactly when no index is
      beyond them. */
  lemma ListedIffNoGap(s: State, input: string -> string)
    ensures |Listed(s, |s.calls|, input).0| == |s.calls|
            <==> forall k :: k in s.calls ==> 0 <= k < |s.calls|
  {
    var n := |s.calls|;
    var b := set k | k in s.calls && 0 <= k < n;
    ListedCount(s, n, input);
    assert b <= s.calls.Keys;
    assert |s.calls.Keys - b| == n - |b|;
    if forall k :: k in s.calls ==> 0 <= k < n {
      assert b == s.calls.Keys;
    }
  }

  function DeltaIndices(ds: seq<CallDelta>): set<int> {
    set i | 0 <= i < |ds| :: ds[i].index
  }

  /** The indices of the calls of a stream. */
  function Indices(chunks: seq<Delta>): set<int> {
    if chunks == [] then {} else Indices(chunks[..|chunks| - 1]) + DeltaIndices(chunks[|chunks| - 1].toolCalls)
  }

  lemma DeltaIndicesNext(front: seq<CallDelta>, d: CallDelta)
    ensures DeltaIndices(front + [d]) == DeltaIndices(front) + {d.index}
  {
    var ds := front + [d];
    assert ds[|front|] == d && forall i :: 0 <= i < |front| ==> ds[i] == front[i];
    forall i | 0 <= i < |front| ensures front[i].index in DeltaIndices(ds) {
      assert ds[i].index in DeltaIndices(ds);
    }
  }

  lemma CallAtIndex(s: State, d: CallDelta)
    ensures OnCall(s, d).calls.Keys == s.calls.Keys + {d.index}
  {
  }

  lemma {:induction false} CallsAtIndices(s: State, ds: seq<CallDelta>)
    ensures OnCalls(s, ds).calls.Keys == s.calls.Keys + DeltaIndices(ds)
  {
    hide DeltaIndices, OnCall;
    if ds == [] {
      assert DeltaIndices([]) == {} by { NoIndices(); }
    } else {
      var front, d := ds[..|ds| - 1], ds[|ds| - 1];
      assert ds == front + [d];
      CallsAtIndices(s, front);
      DeltaIndicesNext(front, d);
      CallAtIndex(OnCalls(s, front), d);
    }
  }

  lemma NoIndices()
    ensures DeltaIndices([]) == {}
  {
  }

  lemma {:induction false} AllAtIndices(chunks: seq<Delta>)
    ensures OnDeltas(START, chunks).calls.Keys == Indices(chunks)
  {
    hide DeltaIndices;
    if chunks != [] {
      var s, d := OnDeltas(START, chunks[..|chunks| - 1]), chunks[|chunks| - 1];
      AllAtIndices(chunks[..|chunks| - 1]);
      CallsAtIndices(OnText(s, d.content), d.toolCalls);
    }
  }

  /** A stream with calls lists every one of them at its end exactly when the indices run from 0
      without a gap. */
  lemma AllListedIffNoGap(chunks: seq<Delta>, input: string -> string)
    requires Indices(chunks) != {}
    ensures var es, n := Respond(chunks, false, input), |Indices(chunks)|;
            Completes(es) && (|Output(es)| == n <==> forall k :: k in Indices(chunks) ==> 0 <= k < n)
  {
    var s := OnDeltas(START, chunks);
    AllAtIndices(chunks);
    assert |s.calls| == |s.calls.Keys|;
    ListedIffNoGap(s, input);
    hide Indices, OnDeltas, Listed;
  }

  /** A call whose index leaves a gap is announced, and is missing from the completion. */
  lemma GapIsLost(id: string, name: string, input: string -> string)
    ensures var chunks := [Delta(None, None, [CallDelta(1, Some(id), None, Some(name), None)])];
            Completes(Respond(chunks, false, input)) && Output(Respond(chunks, false, input)) == []
  {
    var d := CallDelta(1, Some(id), None, Some(name), None);
    var chunks := [Delta(None, None, [d])];
    assert chunks[..0] == [] && [d][..0] == [];
    assert DeltaIndices([d]) == {1} by { assert [d][0].index in DeltaIndices([d]); }
    assert Indices(chunks) == {} + {1};
    AllListedIffNoGap(chunks, input);
    AllAtIndices(chunks);
    var s := OnDeltas(START, chunks);
    ListedCount(s, |s.calls|, input);
    assert |s.calls| == |s.calls.Keys| == 1 && 1 in s.calls;
    assert (set k | k in s.calls && 0 <= k < 1) == {};
    hide OnDeltas, Indices, Listed;
    assert |Listed(s, 1, input).0| == 0;
  }

  // ----- Items that are done

  /** An item that is done is one listed at the end: a custom call, or a function call under an id
      that is new. */
  ghost predicate DoneAtEnd(s: State, es: seq<Event>) {
    forall i :: 0 <= i < |es| && es[i].ItemDone? ==> DoneIdAtEnd(s, es[i].item.id)
  }

  ghost predicate DoneIdAtEnd(s: State, id: ItemId) {
    (id.CallId? && id.serial >= s.serial) || exists k :: k in s.calls && s.calls[k].custom && s.calls[k].itemId == id
  }

  predicate NoneDone(es: seq<Event>) {
    forall i :: 0 <= i < |es| ==> !es[i].ItemDone?
  }

  lemma {:induction false} CallsNoneDone(s: State, ds: seq<CallDelta>)
    requires NoneDone(s.events)
    ensures NoneDone(OnCalls(s, ds).events)
  {
    if ds != [] {
      CallsNoneDone(s, ds[..|ds| - 1]);
    }
  }

  lemma {:induction false} ChunksNoneDone(chunks: seq<Delta>)
    ensures NoneDone(OnDeltas(START, chunks).events)
  {
    if chunks != [] {
      var s, d := OnDeltas(START, chunks[..|chunks| - 1]), chunks[|chunks| - 1];
      ChunksNoneDone(chunks[..|chunks| - 1]);
      hide OnCalls;
      CallsNoneDone(OnText(s, d.content), d.toolCalls);
    }
  }

  lemma {:induction false} ListedDoneAtEnd(s: State, n: nat, input: string -> string)
    requires NoneDone(s.events)
    ensures DoneAtEnd(s, Listed(s, n, input).2) && Listed(s, n, input).1 >= s.serial
  {
    hide FinalItem, FinalEvents, DoneIdAtEnd;
    if n > 0 {
      ListedDoneAtEnd(s, n - 1, input);
      if n - 1 in s.calls {
        FinalDoneAtEnd(s, n - 1, Listed(s, n - 1, input).1, input);
      }
    }
  }

  lemma FinalDoneAtEnd(s: State, k: int, serial: nat, input: string -> string)
    requires k in s.calls && serial >= s.serial
    ensures DoneAtEnd(s, FinalEvents(k, FinalItem(s.calls[k], serial, input)))
  {
  }

  lemma EndDoneAtEnd(s: State, failed: bool, input: string -> string)
    requires NoneDone(s.events)
    ensures forall i :: 0 <= i < |Ended(s, failed, input)| && Ended(s, failed, input)[i].ItemDone? ==>
              || Ended(s, failed, input)[i].item.id == MessageId
              || DoneIdAtEnd(s, Ended(s, failed, input)[i].item.id)
  {
    ListedDoneAtEnd(s, |s.calls|, input);
    hide Listed, DoneIdAtEnd, Blank;
  }

  /** A function call that was announced on the way is never done: only the announcement at the
      end, under another id, is. */
  lemma AnnouncedNeverDone(chunks: seq<Delta>, failed: bool, input: string -> string, k: int, i: nat)
    requires var s := OnDeltas(START, chunks); k in s.calls && !s.calls[k].custom
    requires i < |Respond(chunks, failed, input)| && Respond(chunks, failed, input)[i].ItemDone?
    ensures Respond(chunks, failed, input)[i].item.id != OnDeltas(START, chunks).calls[k].itemId
  {
    var s := OnDeltas(START, chunks);
    ChunksKept(chunks);
    ChunksNoneDone(chunks);
    EndDoneAtEnd(s, failed, input);
    hide OnDeltas, ReadAll, Ended;
    assert CallKept(ReadAll(s.events), s.serial, s.calls[k]);
  }

  // ----- How a stream ends

  /** Which end a stream comes to: a failure of the request exactly if the inner handler failed, a
      failure for emptiness exactly if it did not and there is neither a call nor text, and a
      completion otherwise. */
  lemma EndsAs(chunks: seq<Delta>, failed: bool, input: string -> string)
    ensures var es, empty := Respond(chunks, failed, input), Indices(chunks) == {} && Blank(Received(chunks));
            && es != []
            && (es[|es| - 1] == FailedRequest <==> failed)
            && (es[|es| - 1] == FailedEmpty <==> !failed && empty)
            && (es[|es| - 1].Completed? <==> !failed && !empty)
  {
    var s := OnDeltas(START, chunks);
    AllAtIndices(chunks);
    TextIsReceived(chunks);
    assert s.calls == map[] <==> s.calls.Keys == {};
    hide OnDeltas, Indices, Received, Listed, Blank;
  }

  /** A failed request is never completed. */
  lemma FailedNeverCompletes(chunks: seq<Delta>, input: string -> string, i: nat)
    requires i < |Respond(chunks, true, input)|
    ensures !Respond(chunks, true, input)[i].Completed?
  {
    var es := Respond(chunks, true, input);
    EveryStreamIsLegal(chunks, true, input);
    LegalEndsOnce(es);
    EndsAs(chunks, true, input);
    hide Respond, ReadAll;
    assert i != |es| - 1 ==> !Terminal(es[i]);
  }

  // ----- What the deltas of a call amount to

  /** The call deltas of a stream, in order. */
  function AllDeltas(chunks: seq<Delta>): seq<CallDelta> {
    if chunks == [] then [] else AllDeltas(chunks[..|chunks| - 1]) + chunks[|chunks| - 1].toolCalls
  }

  /** Those of one index. */
  function DeltasAt(ds: seq<CallDelta>, k: int): seq<CallDelta> {
    if ds == [] then []
    else DeltasAt(ds[..|ds| - 1], k) + if ds[|ds| - 1].index == k then [ds[|ds| - 1]] else []
  }

  function Names(ds: seq<CallDelta>): string {
    if ds == [] then ""
    else Names(ds[..|ds| - 1]) + if ds[|ds| - 1].name.Some? then ds[|ds| - 1].name.value else ""
  }

  function AllArguments(ds: seq<CallDelta>): string {
    if ds == [] then ""
    else AllArguments(ds[..|ds| - 1]) + if ds[|ds| - 1].arguments.Some? then ds[|ds| - 1].arguments.value else ""
  }

  function LastId(ds: seq<CallDelta>): string {
    if ds == [] then ""
    else if ds[|ds| - 1].id.Some? then ds[|ds| - 1].id.value
    else LastId(ds[..|ds| - 1])
  }

  /** A call is what its deltas amount to: the kind of the first, the last id, and all parts of the
      name and of the arguments in order. */
  predicate Amounts(st: CallState, ds: seq<CallDelta>) {
    && ds != [] && st.custom == (ds[0].kind == Some("custom"))
    && st.id == LastId(ds) && st.name == Names(ds) && st.arguments == AllArguments(ds)
  }

  ghost predicate AllAmount(calls: map<int, CallState>, ds: seq<CallDelta>) {
    forall k :: if k in calls then Amounts(calls[k], DeltasAt(ds, k)) else DeltasAt(ds, k) == []
  }

  lemma PartsNext(ds: seq<CallDelta>, d: CallDelta)
    ensures Names(ds + [d]) == Names(ds) + if d.name.Some? then d.name.value else ""
    ensures AllArguments(ds + [d]) == AllArguments(ds) + if d.arguments.Some? then d.arguments.value else ""
    ensures LastId(ds + [d]) == if d.id.Some? then d.id.value else LastId(ds)
    ensures forall k :: DeltasAt(ds + [d], k) == DeltasAt(ds, k) + if d.index == k then [d] else []
  {
    assert (ds + [d])[..|ds|] == ds;
  }

  lemma FillAmounts(st: CallState, ds: seq<CallDelta>, d: CallDelta)
    requires Amounts(st, ds) || (ds == [] && st.custom == (d.kind == Some("custom")) && st.id == st.name == st.arguments == "")
    ensures Amounts(Fill(st, d), ds + [d])
  {
    PartsNext(ds, d);
    assert ds != [] ==> (ds + [d])[0] == ds[0];
    assert ds == [] ==> (ds + [d])[0] == d;
    assert Names([]) == "" && AllArguments([]) == "" && LastId([]) == "";
    hide Names, AllArguments, LastId;
  }

  lemma CallAmounts(s: State, ds: seq<CallDelta>, d: CallDelta)
    requires AllAmount(s.calls, ds)
    ensures AllAmount(OnCall(s, d).calls, ds + [d])
  {
    PartsNext(ds, d);
    hide Names, AllArguments, LastId, DeltasAt, Amounts, Fill;
    var a := Announce(s, d.index, d.kind == Some("custom"));
    FillAmounts(a.calls[d.index], DeltasAt(ds, d.index), d);
    forall k ensures var calls := OnCall(s, d).calls;
                     if k in calls then Amounts(calls[k], DeltasAt(ds + [d], k)) else DeltasAt(ds + [d], k) == []
    {
      assert DeltasAt(ds, k) + [] == DeltasAt(ds, k);
    }
  }

  lemma {:induction false} CallsAmount(s: State, before: seq<CallDelta>, ds: seq<CallDelta>)
    requires AllAmount(s.calls, before)
    ensures AllAmount(OnCalls(s, ds).calls, before + ds)
  {
    hide AllAmount, OnCall;
    if ds == [] {
      assert before + ds == before;
    } else {
      var front, d := ds[..|ds| - 1], ds[|ds| - 1];
      CallsAmount(s, before, front);
      CallAmounts(OnCalls(s, front), before + front, d);
      assert before + ds == before + front + [d];
    }
  }

  /** Whatever the chunks, the call at an index is what the deltas of that index amount to. */
  lemma {:induction false} CallIsItsDeltas(chunks: seq<Delta>)
    ensures AllAmount(OnDeltas(START, chunks).calls, AllDeltas(chunks))
  {
    if chunks == [] {
      NothingAmounts();
    } else {
      var s, d := OnDeltas(START, chunks[..|chunks| - 1]), chunks[|chunks| - 1];
      CallIsItsDeltas(chunks[..|chunks| - 1]);
      hide AllAmount;
      CallsAmount(OnText(s, d.content), AllDeltas(chunks[..|chunks| - 1]), d.toolCalls);
    }
  }

  lemma NothingAmounts()
    ensures AllAmount(map[], [])
  {
  }

  /** What an event says of a call on the way, it says at the index of that call. */
  predicate AtIndex(e: Event, calls: map<int, CallState>) {
    match e
    case Added(i, FunctionCall(id, _, _, _)) => i in calls && calls[i].itemId == id && !calls[i].custom
    case Added(i, CustomCall(id, _, _, _)) => i in calls && calls[i].itemId == id && calls[i].custom
    case ArgumentsDelta(i, id, _) => i in calls && calls[i].itemId == id && !calls[i].custom
    case _ => true
  }

  predicate AllAtIndex(s: State) {
    forall i :: 0 <= i < |s.events| ==> AtIndex(s.events[i], s.calls)
  }

  lemma OneCallAtIndex(s: State, d: CallDelta)
    requires AllAtIndex(s)
    ensures AllAtIndex(OnCall(s, d))
  {
    var t := OnCall(s, d);
    assert forall k :: k in s.calls ==> k in t.calls && t.calls[k].itemId == s.calls[k].itemId && t.calls[k].custom == s.calls[k].custom;
    assert forall i :: 0 <= i < |s.events| ==> t.events[i] == s.events[i];
    forall i | 0 <= i < |s.events| ensures AtIndex(t.events[i], t.calls) {
      assert AtIndex(s.events[i], s.calls);
    }
  }

  lemma {:induction false} CallsAtIndex(s: State, ds: seq<CallDelta>)
    requires AllAtIndex(s)
    ensures AllAtIndex(OnCalls(s, ds))
  {
    hide AllAtIndex, OnCall;
    if ds != [] {
      CallsAtIndex(s, ds[..|ds| - 1]);
      OneCallAtIndex(OnCalls(s, ds[..|ds| - 1]), ds[|ds| - 1]);
    }
  }

  lemma {:induction false} EventsAtIndex(chunks: seq<Delta>)
    ensures AllAtIndex(OnDeltas(START, chunks))
  {
    if chunks != [] {
      var s, d := OnDeltas(START, chunks[..|chunks| - 1]), chunks[|chunks| - 1];
      EventsAtIndex(chunks[..|chunks| - 1]);
      hide OnCalls;
      CallsAtIndex(OnText(s, d.content), d.toolCalls);
    }
  }

  // ----- What the last events tell

  /** The items that a stream says are done, in order. */
  function DoneItems(es: seq<Event>): seq<Item> {
    if es == [] then []
    else DoneItems(es[..|es| - 1]) + if es[|es| - 1].ItemDone? then [es[|es| - 1].item] else []
  }

  lemma {:induction false} DoneItemsAppend(a: seq<Event>, b: seq<Event>)
    ensures DoneItems(a + b) == DoneItems(a) + DoneItems(b)
  {
    if b == [] {
      assert a + b == a;
    } else {
      assert (a + b)[..|a + b| - 1] == a + b[..|b| - 1];
      DoneItemsAppend(a, b[..|b| - 1]);
    }
  }

  lemma {:induction false} NoneDoneItems(es: seq<Event>)
    requires NoneDone(es)
    ensures DoneItems(es) == []
  {
    if es != [] {
      NoneDoneItems(es[..|es| - 1]);
    }
  }

  lemma OneDone(k: int, item: Item)
    requires !item.Message?
    ensures DoneItems(FinalEvents(k, item)) == [item]
  {
    var es := FinalEvents(k, item);
    var n := |es| - 1;
    assert es == es[..n] + [ItemDone(k, item)];
    NoneDoneItems(es[..n]);
  }

  lemma {:induction false} ListedDone(s: State, n: nat, input: string -> string)
    requires NoneDone(s.events)
    ensures DoneItems(Listed(s, n, input).2) == Listed(s, n, input).0
  {
    hide FinalEvents, DoneItems;
    if n == 0 {
      NoneDoneItems(s.events);
    } else {
      ListedDone(s, n - 1, input);
      if n - 1 in s.calls {
        var (items, serial, es) := Listed(s, n - 1, input);
        var item := FinalItem(s.calls[n - 1], serial, input);
        DoneItemsAppend(es, FinalEvents(n - 1, item));
        OneDone(n - 1, item);
      }
    }
  }

  /** What an event tells of an item agrees with the output of the completion, at the index of the
      event; and an item is announced empty. */
  predicate TrueOf(e: Event, output: seq<Item>) {
    match e
    case ArgumentsDone(i, id, arguments) =>
      0 <= i < |output| && output[i].FunctionCall? && output[i].id == id && output[i].arguments == arguments
    case InputDelta(i, id, delta) =>
      0 <= i < |output| && output[i].CustomCall? && output[i].id == id && output[i].input == delta
    case InputDone(i, id, text) =>
      0 <= i < |output| && output[i].CustomCall? && output[i].id == id && output[i].input == text
    case ItemDone(i, item) => 0 <= i < |output| && output[i] == item
    case TextDone(id, text) => output == [Message(id, text)]
    case Added(_, Message(_, text)) => text == ""
    case Added(_, CustomCall(_, callId, name, text)) => callId == name == text == ""
    case Added(i, FunctionCall(id, callId, name, arguments)) =>
      && arguments == ""
      && (callId == name == ""
          || (0 <= i < |output| && output[i].FunctionCall? && output[i].id == id
              && output[i].callId == callId && output[i].name == name))
    case _ => true
  }

  predicate AllTrue(es: seq<Event>, output: seq<Item>) {
    forall i :: 0 <= i < |es| ==> TrueOf(es[i], output)
  }

  /** What is true whatever the output will be. */
  predicate Early(e: Event) {
    e.Created? || e.TextDelta? || e.ArgumentsDelta? || (e.Added? && TrueOf(e, []))
  }

  predicate AllEarly(es: seq<Event>) {
    forall i :: 0 <= i < |es| ==> Early(es[i])
  }

  lemma OneCallEarly(s: State, d: CallDelta)
    requires AllEarly(s.events)
    ensures AllEarly(OnCall(s, d).events)
  {
    hide Fill;
  }

  lemma {:induction false} CallsEarly(s: State, ds: seq<CallDelta>)
    requires AllEarly(s.events)
    ensures AllEarly(OnCalls(s, ds).events)
  {
    hide AllEarly, OnCall;
    if ds != [] {
      CallsEarly(s, ds[..|ds| - 1]);
      OneCallEarly(OnCalls(s, ds[..|ds| - 1]), ds[|ds| - 1]);
    }
  }

  lemma {:induction false} ChunksEarly(chunks: seq<Delta>)
    ensures AllEarly(OnDeltas(START, chunks).events)
  {
    if chunks != [] {
      var s, d := OnDeltas(START, chunks[..|chunks| - 1]), chunks[|chunks| - 1];
      ChunksEarly(chunks[..|chunks| - 1]);
      hide OnCalls;
      CallsEarly(OnText(s, d.content), d.toolCalls);
    }
  }

  lemma EarlyIsTrue(es: seq<Event>, output: seq<Item>)
    requires AllEarly(es)
    ensures AllTrue(es, output)
  {
  }

  /** True of an output with more items. */
  lemma StillTrue(es: seq<Event>, output: seq<Item>, item: Item)
    requires AllTrue(es, output) && forall i :: 0 <= i < |es| ==> !es[i].TextDone?
    ensures AllTrue(es, output + [item])
  {
    forall i | 0 <= i < |es| ensures TrueOf(es[i], output + [item]) {
      assert TrueOf(es[i], output);
    }
  }

  lemma FinalIsTrue(output: seq<Item>, item: Item)
    requires !item.Message?
    ensures AllTrue(FinalEvents(|output|, item), output + [item])
    ensures forall i :: 0 <= i < |FinalEvents(|output|, item)| ==> !FinalEvents(|output|, item)[i].TextDone?
  {
  }

  predicate NoTextDone(es: seq<Event>) {
    forall i :: 0 <= i < |es| ==> !es[i].TextDone?
  }

  lemma {:induction false} ListedTrue(s: State, n: nat, input: string -> string)
    requires AllEarly(s.events) && forall k :: 0 <= k < n ==> k in s.calls
    ensures var (items, serial, es) := Listed(s, n, input);
            |items| == n && AllTrue(es, items) && NoTextDone(es)
  {
    hide FinalEvents, TrueOf;
    if n == 0 {
      EarlyIsTrue(s.events, []);
      assert forall i :: 0 <= i < |s.events| ==> Early(s.events[i]);
    } else {
      ListedTrue(s, n - 1, input);
      var (items, serial, es) := Listed(s, n - 1, input);
      var item := FinalItem(s.calls[n - 1], serial, input);
      StillTrue(es, items, item);
      FinalIsTrue(items, item);
    }
  }

  lemma {:induction false} CompletedAppends(es: seq<Event>, output: seq<Item>)
    requires AllTrue(es, output) && DoneItems(es) == output
    ensures AllTrue(es + [Completed(output)], output) && DoneItems(es + [Completed(output)]) == output
  {
    assert (es + [Completed(output)])[..|es|] == es;
  }

  lemma TextTrue(s: State)
    requires AllEarly(s.events) && NoneDone(s.events) && s.textStarted
    ensures AllTrue(TextEvents(s), [Message(MessageId, s.text)])
    ensures DoneItems(TextEvents(s)) == [Message(MessageId, s.text)]
  {
    var item := Message(MessageId, s.text);
    var es := s.events + [TextDone(MessageId, s.text)];
    EarlyIsTrue(s.events, [item]);
    NoneDoneItems(es);
    assert (es + [ItemDone(0, item)])[..|es|] == es;
    assert TextEvents(s) == es + [ItemDone(0, item)] + [Completed([item])];
    CompletedAppends(es + [ItemDone(0, item)], [item]);
  }

  lemma CallsTellTrue(s: State, input: string -> string)
    requires s.calls != map[] && NoneDone(s.events) && AllEarly(s.events)
    ensures var (items, _, es) := Listed(s, |s.calls|, input);
            var all := es + [Completed(items)];
            && DoneItems(all) == items
            && ((forall k :: k in s.calls ==> 0 <= k < |s.calls|) ==> AllTrue(all, items))
  {
    var n := |s.calls|;
    ListedDone(s, n, input);
    var (items, serial, es) := Listed(s, n, input);
    hide Listed, AllTrue, AllEarly, NoneDone;
    DoneItemsAppend(es, [Completed(items)]);
    CompletedIsNotDone(items);
    NoneDoneItems([Completed(items)]);
    if forall k :: k in s.calls ==> 0 <= k < |s.calls| {
      assert |s.calls.Keys| == n;
      NoGapIsAll(s.calls.Keys, n);
      ListedTrue(s, n, input);
      CompletedAppends(es, items);
    }
  }

  lemma CompletedIsNotDone(items: seq<Item>)
    ensures NoneDone([Completed(items)])
  {
  }

  /** The items that a completed stream says are done are the output, in order; and without a gap
      in the indices, every event tells the truth about the output. */
  lemma CompletionTellsTrue(chunks: seq<Delta>, input: string -> string)
    requires Completes(Respond(chunks, false, input))
    ensures var es := Respond(chunks, false, input);
            && DoneItems(es) == Output(es)
            && ((forall k :: k in Indices(chunks) ==> 0 <= k < |Indices(chunks)|) ==> AllTrue(es, Output(es)))
  {
    var s := OnDeltas(START, chunks);
    AllAtIndices(chunks);
    ChunksKept(chunks);
    ChunksNoneDone(chunks);
    ChunksEarly(chunks);
    assert |s.calls.Keys| == |s.calls|;
    hide OnDeltas, Indices, Listed, AllTrue, TextEvents, DoneItems, AllEarly, NoneDone, ReadAll, CallsKept, Blank;
    if s.calls != map[] {
      CallsTellTrue(s, input);
    } else {
      StartedUnlessBlank(s);
      TextEnds(s);
      TextTrue(s);
    }
  }

  /** As many indices as lie below a bound are all that lie below it. */
  lemma {:induction false} NoGapIsAll(keys: set<int>, n: nat)
    requires |keys| == n && forall k :: k in keys ==> 0 <= k < n
    ensures forall k :: 0 <= k < n ==> k in keys
  {
    if n > 0 {
      if n - 1 in keys {
        NoGapIsAll(keys - {n - 1}, n - 1);
      } else {
        BelowBound(keys, n - 1);
      }
    }
  }

  lemma {:induction false} BelowBound(keys: set<int>, n: nat)
    requires forall k :: k in keys ==> 0 <= k < n
    ensures |keys| <= n
  {
    if n == 0 {
      forall k ensures k !in keys {}
    } else if n - 1 in keys {
      BelowBound(keys - {n - 1}, n - 1);
    } else {
      BelowBound(keys, n - 1);
    }
  }

  // ----- The calls of `writeToolResponse`, streamed and not

  /** What a client reads of a call item: all but its id. */
  datatype Call = Call(custom: bool, callId: string, name: string, payload: string)

  function AsCall(item: Item): Call
    requires !item.Message?
  {
    match item
    case FunctionCall(_, callId, name, arguments) => Call(false, callId, name, arguments)
    case CustomCall(_, callId, name, text) => Call(true, callId, name, text)
  }

  function CallFor(c: ToolCall, input: string -> string): Call {
    if KindOf(c) == "custom" then Call(true, c.id, c.name, input(c.arguments))
    else Call(false, c.id, c.name, c.arguments)
  }

  /** The items are exactly these calls, in order. */
  predicate Lists(items: seq<Item>, calls: seq<ToolCall>, input: string -> string) {
    && |items| == |calls|
    && forall i :: 0 <= i < |items| ==> !items[i].Message? && AsCall(items[i]) == CallFor(calls[i], input)
  }

  /** The state holds exactly these calls, at the indices from 0. */
  ghost predicate Holds(s: State, calls: seq<ToolCall>) {
    && |s.calls| == |calls|
    && (forall k :: k in s.calls <==> 0 <= k < |calls|)
    && forall k :: 0 <= k < |calls| ==>
         && s.calls[k].custom == (KindOf(calls[k]) == "custom")
         && s.calls[k].id == calls[k].id && s.calls[k].name == calls[k].name
         && s.calls[k].arguments == calls[k].arguments
  }

  /** The chunk of a call at a new index. */
  lemma CallChunkTaken(s: State, c: ToolCall, i: nat)
    requires i !in s.calls
    ensures OnDelta(s, CallChunk(c, i)).calls
            == s.calls[i := CallState(CallId(s.serial), KindOf(c) == "custom", c.id, c.name, c.arguments)]
  {
    hide KindOf;
    var d := CallDelta(i, Some(c.id), Some(KindOf(c)), Some(c.name), Some(c.arguments));
    assert CallChunk(c, i) == Delta(None, None, [d]);
    OneCall(s, d);
    NewCallTaken(s, d, c);
    hide OnCalls, OnCall;
  }

  lemma OneCall(s: State, d: CallDelta)
    ensures OnCalls(s, [d]) == OnCall(s, d)
  {
    hide OnCall;
    assert [d][..0] == [];
  }

  lemma NewCallTaken(s: State, d: CallDelta, c: ToolCall)
    requires d.index !in s.calls && d.id == Some(c.id) && d.name == Some(c.name) && d.arguments == Some(c.arguments)
    ensures OnCall(s, d).calls
            == s.calls[d.index := CallState(CallId(s.serial), d.kind == Some("custom"), c.id, c.name, c.arguments)]
  {
    assert "" + c.name == c.name && "" + c.arguments == c.arguments;
  }

  lemma HoldsMore(s: State, t: State, calls: seq<ToolCall>, c: ToolCall)
    requires Holds(s, calls)
    requires t.calls == s.calls[|calls| := CallState(CallId(s.serial), KindOf(c) == "custom", c.id, c.name, c.arguments)]
    ensures Holds(t, calls + [c])
  {
  }

  lemma {:induction false} CallChunksHeld(chunks: seq<Delta>, calls: seq<ToolCall>)
    requires OnDeltas(START, chunks).calls == map[]
    ensures Holds(OnDeltas(START, chunks + CallChunks(calls)), calls)
  {
    if calls == [] {
      assert chunks + CallChunks(calls) == chunks;
    } else {
      var front, c := calls[..|calls| - 1], calls[|calls| - 1];
      assert calls == front + [c];
      CallChunksHeld(chunks, front);
      ChunksSnoc(chunks, front, c);
      var s := OnDeltas(START, chunks + CallChunks(front));
      hide OnDeltas, OnDelta, CallChunk, CallChunks, KindOf;
      assert |front| !in s.calls;
      hide Holds;
      CallChunkTaken(s, c, |front|);
      HoldsMore(s, OnDelta(s, CallChunk(c, |front|)), front, c);
    }
  }

  lemma ChunksSnoc(chunks: seq<Delta>, front: seq<ToolCall>, c: ToolCall)
    ensures OnDeltas(START, chunks + CallChunks(front + [c]))
            == OnDelta(OnDeltas(START, chunks + CallChunks(front)), CallChunk(c, |front|))
  {
    hide OnDelta, CallChunk;
    var all := chunks + CallChunks(front + [c]);
    assert all == chunks + CallChunks(front) + [CallChunk(c, |front|)];
    assert all[..|all| - 1] == chunks + CallChunks(front);
  }

  lemma HeldItem(s: State, calls: seq<ToolCall>, k: nat, serial: nat, input: string -> string)
    requires Holds(s, calls) && k < |calls|
    ensures k in s.calls
    ensures var item := FinalItem(s.calls[k], serial, input);
            !item.Message? && AsCall(item) == CallFor(calls[k], input)
  {
  }

  lemma {:induction false} HeldAreListed(s: State, calls: seq<ToolCall>, n: nat, input: string -> string)
    requires Holds(s, calls) && n <= |calls|
    ensures Lists(Listed(s, n, input).0, calls[..n], input)
  {
    hide AsCall, CallFor, FinalItem, FinalEvents, Holds;
    if n > 0 {
      HeldAreListed(s, calls, n - 1, input);
      var (before, serial, es) := Listed(s, n - 1, input);
      HeldItem(s, calls, n - 1, serial, input);
      assert Listed(s, n, input).0 == before + [FinalItem(s.calls[n - 1], serial, input)];
      hide Listed;
    }
  }

  lemma FinishIgnored(chunks: seq<Delta>)
    ensures OnDeltas(START, chunks + [FINISH]) == OnDeltas(START, chunks)
  {
    assert (chunks + [FINISH])[..|chunks|] == chunks;
  }

  lemma CallsComplete(before: seq<Delta>, calls: seq<ToolCall>, input: string -> string)
    requires OnDeltas(START, before).calls == map[] && calls != []
    ensures var es := Respond(before + CallChunks(calls) + [FINISH], false, input);
            Completes(es) && Lists(Output(es), calls, input)
  {
    hide OnDeltas, CallChunks, Lists, Listed;
    CallChunksHeld(before, calls);
    FinishIgnored(before + CallChunks(calls));
    var s := OnDeltas(START, before + CallChunks(calls));
    assert 0 in s.calls;
    assert calls[..|calls|] == calls;
    HeldAreListed(s, calls, |calls|, input);
    hide Holds, HasFence, Blank, KindOf;
  }

  /** Streaming any list of calls after any text ends in a completion that lists exactly those
      calls, in order. */
  lemma StreamedCallsListed(said: seq<Delta>, calls: seq<ToolCall>, summary: string, preambleSent: bool,
                            input: string -> string)
    requires NoCalls(said) && calls != []
    ensures var es := Respond(said + (Preamble(summary, preambleSent) + CallChunks(calls) + [FINISH]), false, input);
            Completes(es) && Lists(Output(es), calls, input)
  {
    var before := said + Preamble(summary, preambleSent);
    assert NoCalls(before);
    assert said + (Preamble(summary, preambleSent) + CallChunks(calls) + [FINISH])
           == before + CallChunks(calls) + [FINISH];
    hide Respond, Lists, CallChunks, Preamble, NoCalls;
    TextIsReceived(before);
    CallsComplete(before, calls, input);
  }

  // ----- `writeResponsesResult`

  /** The output of the path that does not stream. */
  function ResultItem(c: ToolCall, serial: nat, input: string -> string): Item {
    if c.kind == "custom" then CustomCall(CallId(serial), c.id, c.name, input(c.arguments))
    else FunctionCall(CallId(serial), c.id, c.name, c.arguments)
  }

  method WriteResult(calls: Option<seq<ToolCall>>, content: string, summary: string, input: string -> string)
    returns (output: seq<Item>)
    ensures calls.None? ==> output == [Message(MessageId, content)]
    ensures calls.Some? ==>
              && output == (if calls.value == [] then [] else [Message(MessageId, summary)])
                           + seq(|calls.value|, i requires 0 <= i < |calls.value| => ResultItem(calls.value[i], i, input))
  {
    output := [];
    if calls.None? {
      output := [Message(MessageId, content)];
      return;
    }
    var cs := calls.value;
    if |cs| > 0 {
      output := [Message(MessageId, summary)];
    }
    ghost var head := output;
    ghost var items := seq(|cs|, i requires 0 <= i < |cs| => ResultItem(cs[i], i, input));
    for i := 0 to |cs|
      invariant output == head + items[..i]
    {
      if cs[i].kind == "custom" {
        output := output + [CustomCall(CallId(i), cs[i].id, cs[i].name, input(cs[i].arguments))];
        continue;
      }
      output := output + [FunctionCall(CallId(i), cs[i].id, cs[i].name, cs[i].arguments)];
    }
  }

  lemma ResultCalls(calls: seq<ToolCall>, input: string -> string)
    ensures var ms := MessageCalls(calls);
            Lists(seq(|ms|, i requires 0 <= i < |ms| => ResultItem(ms[i], i, input)), calls, input)
  {
  }

  /** Both paths list the same calls. */
  method BothPathsAgree(calls: seq<ToolCall>, summary: string, preambleSent: bool, input: string -> string)
    returns (streamed: seq<Event>, output: seq<Item>)
    requires calls != []
    ensures Completes(streamed) && Lists(Output(streamed), calls, input)
    ensures output != [] && output[0] == Message(MessageId, summary) && Lists(output[1..], calls, input)
  {
    var chunks := WriteToolChunks(calls, summary, preambleSent);
    StreamedCallsListed([], calls, summary, preambleSent, input);
    assert [] + chunks == chunks;
    hide Respond, Lists, CallChunks, MessageCalls;
    streamed := StreamResponses(chunks, false, input);

    var maps := ToolCallMaps(calls);
    output := WriteResult(Some(maps), summary, summary, input);
    ResultCalls(calls, input);
    assert output[1..] == seq(|maps|, i requires 0 <= i < |maps| => ResultItem(maps[i], i, input));
  }
}
