/** The client's side of one turn: frames that mix cumulative snapshots with increments become
a stream of text events, and the tool and progress events of the frames are passed on.
*/
module ChatHubClient {
  import opened Json
  import opened Sequences
  import opened ToolEvents
  import opened ChatStream

  datatype Frame =
    | Update(arguments: seq<Json>)           // type 1, target "update"
    | Item(message: Option<string>)          // type 2, with the message of its result
    | Completion(error: Json)                // type 3; an error that is missing is null
    | Other                                  // pings, other types, what does not decode

  predicate IsToolMessage(m: Json) {
    m.Get("messageType").AsText() == "Progress" || m.Get("contentType").AsText() in {"SearchResults", "Code", "ToolCall"}
  }

  predicate IsAnswer(m: Json) {
    m.Get("author").AsText() == "bot" && m.Get("messageType").AsText() == "" && m.Get("text").AsText() != ""
  }

  predicate IsToolFrame(arg: Json) {
    exists i :: 0 <= i < |Messages(arg)| && IsToolMessage(Messages(arg)[i])
  }

  function AnswerTexts(ms: seq<Json>): seq<string> {
    if ms == [] then []
    else AnswerTexts(ms[..|ms| - 1]) + if IsAnswer(ms[|ms| - 1]) then [ms[|ms| - 1].Get("text").AsText()] else []
  }

  /** The texts of one argument, in the order in which they are handled. */
  function TextsOf(arg: Json): seq<string> {
    (if arg.Get("writeAtCursor").AsText() != "" && !IsToolFrame(arg) then [arg.Get("writeAtCursor").AsText()] else [])
    + AnswerTexts(Messages(arg))
  }

  function Texts(args: seq<Json>): seq<string> {
    if args == [] then [] else Texts(args[..|args| - 1]) + TextsOf(args[|args| - 1])
  }

  /** What is new in `text`, when `streamed` has been sent. */
  function Unseen(streamed: string, text: string): string {
    if streamed != "" && streamed <= text then text[|streamed|..] else text
  }

  /** The stream that a run of texts leaves. */
  function Streamed(texts: seq<string>): string {
    if texts == [] then ""
    else
      var s := Streamed(texts[..|texts| - 1]);
      s + Unseen(s, texts[|texts| - 1])
  }

  function Join(texts: seq<string>): string {
    if texts == [] then "" else Join(texts[..|texts| - 1]) + texts[|texts| - 1]
  }

  /** The frames up to the first completion, which is where reading stops. */
  function UpToCompletion(frames: seq<Frame>): (n: nat)
    ensures n <= |frames|
    ensures forall i :: 0 <= i < n ==> !frames[i].Completion?
    ensures n < |frames| ==> frames[n].Completion?
  {
    if frames == [] || frames[0].Completion? then 0 else 1 + UpToCompletion(frames[1..])
  }

  /** The arguments that are looked at: an argument that is not an object is passed over. */
  function Objects(args: seq<Json>): seq<Json> {
    if args == [] then []
    else Objects(args[..|args| - 1]) + if args[|args| - 1].Object? then [args[|args| - 1]] else []
  }

  function FrameArguments(frames: seq<Frame>): seq<Json> {
    if frames == [] then []
    else
      var f := frames[|frames| - 1];
      FrameArguments(frames[..|frames| - 1]) + if f.Update? then Objects(f.arguments) else []
  }

  function FrameTexts(frames: seq<Frame>): seq<string> {
    Texts(FrameArguments(frames))
  }

  /** The message of the last item frame that has one. */
  function FinalMessage(frames: seq<Frame>): string {
    if frames == [] then ""
    else
      var f := frames[|frames| - 1];
      if f.Item? && f.message.Some? then f.message.value else FinalMessage(frames[..|frames| - 1])
  }

  /** The text of the result of a completed turn. */
  function ResultText(frames: seq<Frame>): string {
    if FinalMessage(frames) != "" then FinalMessage(frames) else Join(FrameTexts(frames))
  }

  /** What is read of the frames of a turn. */
  function FramesRead(frames: seq<Frame>): seq<Frame> {
    frames[..UpToCompletion(frames)]
  }

  /** The result of a turn. Running out of frames is a failed read; and a completion fails the
      turn only when its error is an object. */
  function Result(frames: seq<Frame>): Option<string> {
    var n := UpToCompletion(frames);
    if n == |frames| || frames[n].error.Object? then None else Some(ResultText(frames[..n]))
  }

  // ----- The events that are not text

  /** `marshal` writes JSON text, which is never empty. */
  ghost predicate Marshals(marshal: Json -> string) {
    forall x :: marshal(x) != ""
  }

  /** The event that `classifyUpdateMessages` makes of a message. */
  function Classified(m: Json, marshal: Json -> string): seq<StreamEvent> {
    if !m.Object? then []
    else
      var text, f := m.Get("text").AsText(), ToolFields(m.fields);
      if f.Some? then [StreamEvent("tool", text, f.value.name, marshal(f.value.arguments))]
      else if IsToolMessage(m) then [StreamEvent("progress", text, "", "")]
      else if text != "" then [StreamEvent("text", text, "", "")]
      else []
  }

  /** A message that carries a call is a tool event, one of a tool at work is progress, any other
      with text is text, and the rest is nothing. */
  lemma ClassifiedExactly(m: Json, marshal: Json -> string)
    ensures var evs, text := Classified(m, marshal), m.Get("text").AsText();
            && |evs| <= 1
            && (|evs| == 1 <==> m.Object? && (ToolFields(m.fields).Some? || AtWork(m) || text != ""))
            && (|evs| == 1 ==>
                  && evs[0].text == text
                  && (ToolFields(m.fields).Some? ==>
                        && evs[0].kind == "tool" && evs[0].toolName == ToolFields(m.fields).value.name
                        && evs[0].arguments == marshal(ToolFields(m.fields).value.arguments))
                  && (ToolFields(m.fields).None? ==>
                        evs[0].kind == (if AtWork(m) then "progress" else "text") && evs[0].toolName == evs[0].arguments == ""))
  {
    assert IsToolMessage(m) <==> AtWork(m);
    hide ToolFields, AtWork, IsToolMessage;
  }

  function AllClassified(ms: seq<Json>, marshal: Json -> string): seq<StreamEvent> {
    if ms == [] then [] else AllClassified(ms[..|ms| - 1], marshal) + Classified(ms[|ms| - 1], marshal)
  }

  function NonText(evs: seq<StreamEvent>): seq<StreamEvent> {
    if evs == [] then []
    else NonText(evs[..|evs| - 1]) + if evs[|evs| - 1].kind == "text" then [] else [evs[|evs| - 1]]
  }

  function CallEvents(found: seq<Found>, marshal: Json -> string): (r: seq<StreamEvent>)
    ensures |r| == |found|
    ensures forall i :: 0 <= i < |r| ==> r[i] == StreamEvent("tool", "", found[i].name, marshal(found[i].arguments))
  {
    seq(|found|, i requires 0 <= i < |found| => StreamEvent("tool", "", found[i].name, marshal(found[i].arguments)))
  }

  /** The tool and progress events of the arguments, given what the walks emitted: for each
      argument those of its walk, and then those of its messages. */
  function EventsOf(args: seq<Json>, walks: seq<seq<Found>>, marshal: Json -> string): seq<StreamEvent>
    requires |walks| == |args|
  {
    if args == [] then []
    else
      var n := |args| - 1;
      EventsOf(args[..n], walks[..n], marshal)
      + CallEvents(walks[n], marshal) + NonText(AllClassified(Messages(args[n]), marshal))
  }

  lemma {:induction false} TotalAppend(a: seq<StreamEvent>, b: seq<StreamEvent>)
    ensures Total(a + b) == Total(a) + Total(b)
  {
    hide TextOf;
    if b == [] {
      assert a + b == a;
    } else {
      assert (a + b)[..|a + b| - 1] == a + b[..|b| - 1];
      TotalAppend(a, b[..|b| - 1]);
    }
  }

  lemma {:induction false} NonTextAppend(a: seq<StreamEvent>, b: seq<StreamEvent>)
    ensures NonText(a + b) == NonText(a) + NonText(b)
  {
    if b == [] {
      assert a + b == a;
    } else {
      assert (a + b)[..|a + b| - 1] == a + b[..|b| - 1];
      NonTextAppend(a, b[..|b| - 1]);
    }
  }

  lemma {:induction false} NoText(evs: seq<StreamEvent>)
    requires forall i :: 0 <= i < |evs| ==> evs[i].kind != "text"
    ensures Total(evs) == "" && NonText(evs) == evs
  {
    if evs != [] {
      var front, ev := evs[..|evs| - 1], evs[|evs| - 1];
      NoText(front);
      assert ev.kind != "text" && TextOf(ev) == "";
      hide TextOf;
      assert evs == front + [ev];
    }
  }

  lemma {:induction false} NonTextIsNoText(evs: seq<StreamEvent>)
    ensures forall i :: 0 <= i < |NonText(evs)| ==> NonText(evs)[i].kind != "text"
  {
    if evs != [] {
      NonTextIsNoText(evs[..|evs| - 1]);
    }
  }

  lemma OneText(d: string)
    ensures Total([StreamEvent("text", d, "", "")]) == d && NonText([StreamEvent("text", d, "", "")]) == []
  {
    var evs := [StreamEvent("text", d, "", "")];
    assert evs[..0] == [];
  }

  /** `classifyUpdateMessages`. */
  method ClassifyUpdateMessages(ms: seq<Json>, marshal: Json -> string) returns (out: seq<StreamEvent>)
    ensures out == AllClassified(ms, marshal)
  {
    out := [];
    for i := 0 to |ms|
      invariant out == AllClassified(ms[..i], marshal)
    {
      assert ms[..i + 1][..i] == ms[..i];
      var m := ms[i];
      if !m.Object? {
        continue;
      }
      var text := m.Get("text").AsText();
      var kind := "text";
      if IsToolMessage(m) {
        kind := "progress";
      }
      var name, arguments := "", "";
      var f := ToolFields(m.fields);
      if f.Some? {
        kind, name, arguments := "tool", f.value.name, marshal(f.value.arguments);
      }
      if text == "" && kind == "text" {
        continue;
      }
      out := out + [StreamEvent(kind, text, name, arguments)];
    }
    assert ms[..|ms|] == ms;
  }

  class Turn {
    const marshal: Json -> string
    const walker: Walker
    var streamedText: string
    var deltas: seq<string>
    var final: string
    var sent: seq<StreamEvent>

    /** The arguments looked at so far, and what the walk over each emitted. */
    ghost var arguments: seq<Json>
    ghost var walks: seq<seq<Found>>

    /** The stream is what was sent as text, and is what the texts so far leave. */
    ghost predicate Streams()
      reads `streamedText, `deltas, `sent
    {
      && streamedText == Streamed(deltas)
      && Total(sent) == streamedText
    }

    /** What was sent besides are the events of the arguments, and nothing else. */
    ghost predicate Forwards()
      reads `sent, `arguments, `walks, walker
    {
      && walker.Valid() && walker.seen == CallsIn(arguments)
      && Walked(arguments, walks)
      && NonText(sent) == EventsOf(arguments, walks, marshal)
    }

    ghost predicate Valid()
      reads `streamedText, `deltas, `sent, `arguments, `walks, walker
    {
      Streams() && Forwards() && deltas == Texts(arguments)
    }

    constructor (marshal: Json -> string)
      ensures Valid() && fresh(walker) && this.marshal == marshal
      ensures arguments == [] && final == ""
    {
      this.marshal := marshal;
      walker := new Walker();
      streamedText, deltas, final, sent := "", [], "", [];
      arguments, walks := [], [];
    }

    method EmitDelta(d: string)
      modifies this`streamedText, this`sent
      ensures streamedText == old(streamedText) + d
      ensures Total(sent) == Total(old(sent)) + d && NonText(sent) == NonText(old(sent))
    {
      if d == "" {
        return;
      }
      streamedText := streamedText + d;
      TotalAppend(sent, [StreamEvent("text", d, "", "")]);
      NonTextAppend(sent, [StreamEvent("text", d, "", "")]);
      OneText(d);
      hide Total, NonText;
      sent := sent + [StreamEvent("text", d, "", "")];
    }

    method EmitSnapshot(snapshot: string)
      modifies this`streamedText, this`sent
      ensures streamedText == old(streamedText) + Unseen(old(streamedText), snapshot)
      ensures Total(sent) == Total(old(sent)) + Unseen(old(streamedText), snapshot)
      ensures NonText(sent) == NonText(old(sent))
    {
      if snapshot == "" {
        return;
      }
      if streamedText != "" && streamedText <= snapshot {
        EmitDelta(snapshot[|streamedText|..]);
        return;
      }
      EmitDelta(snapshot);
    }

    /** One text of a frame. */
    method Take(text: string)
      requires Streams() && Forwards()
      modifies this`deltas, this`streamedText, this`sent
      ensures Streams() && Forwards() && deltas == old(deltas) + [text]
    {
      hide NonText, EventsOf, Walked, CallsIn, Streamed, Total, Unseen, Walker.Valid;
      StreamedNext(deltas, text);
      EmitSnapshot(text);
      deltas := deltas + [text];
    }

    /** The tool and progress events of one argument. */
    method Hear(arg: Json) returns (events: seq<StreamEvent>)
      requires walker.Valid() && walker.seen == CallsIn(arguments) && Walked(arguments, walks)
      modifies this`arguments, this`walks, walker
      ensures arguments == old(arguments) + [arg]
      ensures walker.Valid() && walker.seen == CallsIn(arguments) && Walked(arguments, walks)
      ensures EventsOf(arguments, walks, marshal) == EventsOf(old(arguments), old(walks), marshal) + events
      ensures Total(events) == "" && NonText(events) == events
    {
      assert |walks| == |arguments|;
      hide CallsAt, CallsIn, Distinct, Members, AllClassified, EventsOf, NonText, Total, CallEvents, Walked, Walker.Valid;
      ghost var seen := walker.seen;
      var found := walker.ExtractToolEvents(arg);
      assert Members(found) == CallsAt(arg) - seen;
      WalkedNext(arguments, walks, arg, found);
      var classified := ClassifyUpdateMessages(Messages(arg), marshal);
      var events' := WithoutText(classified);
      EventsNext(arguments, walks, arg, found, marshal);
      events := CallEvents(found, marshal) + events';
      arguments, walks := arguments + [arg], walks + [found];
    }

    method Forward(arg: Json)
      requires Streams() && Forwards()
      modifies this`sent, this`arguments, this`walks, walker
      ensures Streams() && Forwards() && arguments == old(arguments) + [arg]
    {
      hide EventsOf, Streamed, NonText, Total, Walked, CallsIn, Walker.Valid;
      var events := Hear(arg);
      TotalAppend(sent, events);
      NonTextAppend(sent, events);
      sent := sent + events;
    }

    method OnArgument(arg: Json)
      requires Valid()
      modifies this`deltas, this`streamedText, this`sent, this`arguments, this`walks, walker
      ensures Valid() && arguments == old(arguments) + if arg.Object? then [arg] else []
    {
      hide Streams, Forwards, IsToolFrame, AnswerTexts, Texts;
      if !arg.Object? {
        return;
      }
      Forward(arg);
      var toolFrame := SeesToolFrame(arg);
      if arg.Get("writeAtCursor").AsText() != "" && !toolFrame {
        Take(arg.Get("writeAtCursor").AsText());
      }
      TakeAnswers(Messages(arg));
      TextsNext(old(arguments), arg);
    }

    method TakeAnswers(ms: seq<Json>)
      requires Streams() && Forwards()
      modifies this`deltas, this`streamedText, this`sent
      ensures Streams() && Forwards() && deltas == old(deltas) + AnswerTexts(ms)
    {
      hide Streams, Forwards, IsAnswer;
      for i := 0 to |ms|
        invariant Streams() && Forwards() && deltas == old(deltas) + AnswerTexts(ms[..i])
      {
        assert ms[..i + 1][..i] == ms[..i];
        if IsAnswer(ms[i]) {
          Take(ms[i].Get("text").AsText());
        }
      }
      assert ms[..|ms|] == ms;
    }

    method OnUpdate(args: seq<Json>)
      requires Valid()
      modifies this`deltas, this`streamedText, this`sent, this`arguments, this`walks, walker
      ensures Valid() && arguments == old(arguments) + Objects(args)
    {
      hide Valid;
      for i := 0 to |args|
        invariant Valid() && arguments == old(arguments) + Objects(args[..i])
      {
        assert args[..i + 1][..i] == args[..i];
        OnArgument(args[i]);
      }
      assert args[..|args|] == args;
    }

    /** Reads frames until the first completion. */
    method Run(frames: seq<Frame>) returns (result: Option<string>)
      requires Valid() && arguments == [] && final == ""
      modifies this, walker
      ensures Valid() && arguments == FrameArguments(FramesRead(frames))
      ensures result == Result(frames)
    {
      hide Valid, Texts, UpToCompletion, Objects, FrameArguments, FinalMessage;
      var k := 0;
      NothingRead(frames);
      while k < |frames|
        invariant 0 <= k <= UpToCompletion(frames)
        invariant Valid() && arguments == FrameArguments(frames[..k]) && final == FinalMessage(frames[..k])
      {
        FrameNext(frames, k);
        match frames[k] {
          case Update(args) => OnUpdate(args);
          case Item(message) =>
            if message.Some? {
              final := message.value;
            }
          case Completion(error) =>
            if error.Object? {
              return None;
            }
            var text := final;
            if text == "" {
              assert deltas == Texts(arguments) by { ValidDeltas(); }
              text := JoinAll(deltas);
            }
            return Some(text);
          case Other =>
        }
        k := k + 1;
      }
      return None;
    }

    lemma ValidDeltas()
      requires Valid()
      ensures deltas == Texts(arguments)
    {
    }
  }

  lemma StreamedNext(texts: seq<string>, text: string)
    ensures Streamed(texts + [text]) == Streamed(texts) + Unseen(Streamed(texts), text)
  {
    assert (texts + [text])[..|texts|] == texts;
  }

  lemma TextsNext(args: seq<Json>, arg: Json)
    ensures Texts(args + [arg]) == Texts(args) + TextsOf(arg)
  {
    assert (args + [arg])[..|args|] == args;
  }

  lemma NothingRead(frames: seq<Frame>)
    ensures FrameArguments(frames[..0]) == [] && FinalMessage(frames[..0]) == ""
  {
  }

  lemma FrameNext(frames: seq<Frame>, k: nat)
    requires k < |frames|
    ensures FrameArguments(frames[..k + 1])
            == if frames[k].Update? then FrameArguments(frames[..k]) + Objects(frames[k].arguments)
               else FrameArguments(frames[..k])
    ensures FinalMessage(frames[..k + 1])
            == if frames[k].Item? && frames[k].message.Some? then frames[k].message.value else FinalMessage(frames[..k])
  {
    assert frames[..k + 1][..k] == frames[..k];
  }

  /** The loop that passes on what is not text. */
  method WithoutText(evs: seq<StreamEvent>) returns (out: seq<StreamEvent>)
    ensures out == NonText(evs)
  {
    out := [];
    for i := 0 to |evs|
      invariant out == NonText(evs[..i])
    {
      assert evs[..i + 1][..i] == evs[..i];
      if evs[i].kind != "text" {
        out := out + [evs[i]];
      }
    }
    assert evs[..|evs|] == evs;
  }

  /** The events of one more argument: none of them is text. */
  lemma EventsNext(args: seq<Json>, walks: seq<seq<Found>>, arg: Json, found: seq<Found>, marshal: Json -> string)
    requires |walks| == |args|
    ensures var events := CallEvents(found, marshal) + NonText(AllClassified(Messages(arg), marshal));
            && EventsOf(args + [arg], walks + [found], marshal) == EventsOf(args, walks, marshal) + events
            && Total(events) == "" && NonText(events) == events
  {
    hide AllClassified, Total, NonText;
    var events := CallEvents(found, marshal) + NonText(AllClassified(Messages(arg), marshal));
    assert (args + [arg])[..|args|] == args && (walks + [found])[..|args|] == walks;
    NonTextIsNoText(AllClassified(Messages(arg), marshal));
    NoText(events);
  }

  method SeesToolFrame(arg: Json) returns (b: bool)
    ensures b == IsToolFrame(arg)
  {
    b := false;
    for i := 0 to |Messages(arg)|
      invariant b == exists j :: 0 <= j < i && IsToolMessage(Messages(arg)[j])
    {
      if IsToolMessage(Messages(arg)[i]) {
        b := true;
      }
    }
  }

  /** `strings.Join(deltas, "")`. */
  method JoinAll(texts: seq<string>) returns (s: string)
    ensures s == Join(texts)
  {
    s := "";
    for i := 0 to |texts|
      invariant s == Join(texts[..i])
    {
      assert texts[..i + 1][..i] == texts[..i];
      s := s + texts[i];
    }
    assert texts[..|texts|] == texts;
  }

  // ----- Which texts are taken, and which message is final

  /** A message of the bot that is no progress, with text. */
  predicate Answers(m: Json, text: string) {
    && m.Get("author") == Text("bot") && m.Get("text") == Text(text) && text != ""
    && !(m.Get("messageType").Text? && m.Get("messageType").s != "")
  }

  /** A message of a tool at work. */
  predicate AtWork(m: Json) {
    m.Get("messageType") == Text("Progress") || m.Get("contentType") in {Text("SearchResults"), Text("Code"), Text("ToolCall")}
  }

  ghost function AnswerFlags(ms: seq<Json>): (r: seq<bool>)
    ensures |r| == |ms|
    ensures forall i :: 0 <= i < |ms| ==> (r[i] <==> exists t :: Answers(ms[i], t))
  {
    seq(|ms|, i requires 0 <= i < |ms| => exists t :: Answers(ms[i], t))
  }

  predicate AllAnswer(ms: seq<Json>, texts: seq<string>) {
    |texts| == |ms| && forall k :: 0 <= k < |ms| ==> Answers(ms[k], texts[k])
  }

  lemma OneAnswer(m: Json)
    ensures IsAnswer(m) <==> exists t :: Answers(m, t)
    ensures IsAnswer(m) ==> Answers(m, m.Get("text").AsText())
  {
    if IsAnswer(m) {
      assert Answers(m, m.Get("text").AsText());
    }
  }

  /** The texts taken from messages are those of the bot's answers, in order. */
  lemma {:induction false} AnswersTaken(ms: seq<Json>)
    ensures AllAnswer(Selected(ms, AnswerFlags(ms)), AnswerTexts(ms))
  {
    hide IsAnswer, Answers, Selected;
    if ms == [] {
      assert |Selected(ms, AnswerFlags(ms))| == 0 by { PositionsOfNone(); }
    } else {
      var front, m := ms[..|ms| - 1], ms[|ms| - 1];
      assert ms == front + [m];
      AnswersTaken(front);
      OneAnswer(m);
      assert AnswerFlags(ms) == AnswerFlags(front) + [IsAnswer(m)];
      SelectedNext(front, AnswerFlags(front), m, IsAnswer(m));
    }
  }

  lemma PositionsOfNone()
    ensures Positions([]) == []
  {
  }

  /** The text at the cursor comes before them, unless a tool is at work in the same argument. */
  lemma CursorTaken(arg: Json)
    ensures var w := arg.Get("writeAtCursor");
            TextsOf(arg)
            == (if w.Text? && w.s != "" && (forall i :: 0 <= i < |Messages(arg)| ==> !AtWork(Messages(arg)[i]))
                then [w.s] else []) + AnswerTexts(Messages(arg))
  {
    forall i | 0 <= i < |Messages(arg)| ensures IsToolMessage(Messages(arg)[i]) <==> AtWork(Messages(arg)[i]) {}
    hide IsToolMessage, AtWork;
  }

  /** The final message is that of the last item frame that has one. */
  lemma {:induction false} FinalMessageIsLast(frames: seq<Frame>, k: nat)
    requires k < |frames| && frames[k].Item? && frames[k].message.Some?
    requires forall i :: k < i < |frames| ==> !(frames[i].Item? && frames[i].message.Some?)
    ensures FinalMessage(frames) == frames[k].message.value
    decreases |frames|
  {
    if k < |frames| - 1 {
      FinalMessageIsLast(frames[..|frames| - 1], k);
    }
  }

  lemma {:induction false} NoFinalMessage(frames: seq<Frame>)
    requires forall i :: 0 <= i < |frames| ==> !(frames[i].Item? && frames[i].message.Some?)
    ensures FinalMessage(frames) == ""
  {
    if frames != [] {
      NoFinalMessage(frames[..|frames| - 1]);
    }
  }

  /** The result of a turn whose first completion is at `n`: the final message if it says anything,
      and otherwise the texts taken, joined. */
  lemma ResultExactly(frames: seq<Frame>, n: nat)
    requires n < |frames| && frames[n].Completion? && !frames[n].error.Object?
    requires forall i :: 0 <= i < n ==> !frames[i].Completion?
    ensures var final := FinalMessage(frames[..n]);
            Result(frames) == Some(if final != "" then final else Join(Texts(FrameArguments(frames[..n]))))
  {
    assert UpToCompletion(frames) == n;
    hide UpToCompletion, FinalMessage, Join, Texts;
  }

  /** Without a completion there is none. */
  lemma NoResult(frames: seq<Frame>)
    requires forall i :: 0 <= i < |frames| ==> !frames[i].Completion?
    ensures Result(frames) == None
  {
    assert UpToCompletion(frames) == |frames|;
  }

  // ----- The calls that the handler is given

  /** The calls among the events, as the chat handler reads them. */
  function CallsAmong(evs: seq<StreamEvent>): seq<(string, string)> {
    if evs == [] then []
    else
      var ev := evs[|evs| - 1];
      CallsAmong(evs[..|evs| - 1]) + if IsCall(ev) then [(ev.toolName, ev.arguments)] else []
  }

  function Written(found: seq<Found>, marshal: Json -> string): (r: seq<(string, string)>)
    ensures |r| == |found| && forall i :: 0 <= i < |r| ==> r[i] == (found[i].name, marshal(found[i].arguments))
  {
    seq(|found|, i requires 0 <= i < |found| => (found[i].name, marshal(found[i].arguments)))
  }

  lemma {:induction false} CallsAmongAppend(a: seq<StreamEvent>, b: seq<StreamEvent>)
    ensures CallsAmong(a + b) == CallsAmong(a) + CallsAmong(b)
  {
    if b == [] {
      assert a + b == a;
    } else {
      assert (a + b)[..|a + b| - 1] == a + b[..|b| - 1];
      CallsAmongAppend(a, b[..|b| - 1]);
    }
  }

  lemma {:induction false} TextIsNoCall(evs: seq<StreamEvent>)
    ensures CallsAmong(NonText(evs)) == CallsAmong(evs)
  {
    if evs != [] {
      var front, ev := evs[..|evs| - 1], evs[|evs| - 1];
      TextIsNoCall(front);
      if ev.kind == "text" {
        assert NonText(front) + [] == NonText(front);
        assert CallsAmong(front) + [] == CallsAmong(front);
      } else {
        assert (NonText(front) + [ev])[..|NonText(front)|] == NonText(front);
      }
    }
  }

  /** A name that is found is never empty. */
  lemma FoundNamed(m: map<string, Json>)
    ensures ToolFields(m).Some? ==> ToolFields(m).value.name != ""
  {
  }

  lemma {:induction false} WalkCalls(found: seq<Found>, marshal: Json -> string)
    requires Marshals(marshal) && forall i :: 0 <= i < |found| ==> found[i].name != ""
    ensures CallsAmong(CallEvents(found, marshal)) == Written(found, marshal)
  {
    if found != [] {
      var n := |found| - 1;
      WalkCalls(found[..n], marshal);
      assert CallEvents(found, marshal)[..n] == CallEvents(found[..n], marshal);
    }
  }

  lemma {:induction false} ClassifiedCalls(ms: seq<Json>, marshal: Json -> string)
    requires Marshals(marshal)
    ensures CallsAmong(AllClassified(ms, marshal)) == Written(MessageCallsOf(ms), marshal)
  {
    if ms != [] {
      var front, m := ms[..|ms| - 1], ms[|ms| - 1];
      ClassifiedCalls(front, marshal);
      CallsAmongAppend(AllClassified(front, marshal), Classified(m, marshal));
      OneClassified(m, marshal);
      hide Classified, ToolFields, CallsAmong;
    }
  }

  lemma OneCallAmong(ev: StreamEvent)
    ensures CallsAmong([ev]) == if IsCall(ev) then [(ev.toolName, ev.arguments)] else []
  {
    assert [ev][..0] == [];
  }

  lemma OneClassified(m: Json, marshal: Json -> string)
    requires Marshals(marshal)
    ensures CallsAmong(Classified(m, marshal))
            == if m.Object? && ToolFields(m.fields).Some?
               then [(ToolFields(m.fields).value.name, marshal(ToolFields(m.fields).value.arguments))] else []
  {
    if m.Object? {
      FoundNamed(m.fields);
    }
    hide ToolFields;
    var evs := Classified(m, marshal);
    assert CallsAmong([]) == [];
    if evs != [] {
      assert evs == [evs[0]];
      OneCallAmong(evs[0]);
    }
  }

  lemma {:induction false} FoundAtNamed(x: Json)
    ensures forall f :: f in CallsAt(x) ==> f.name != ""
  {
    match x
    case Array(items) => forall i | 0 <= i < |items| ensures forall f :: f in CallsAt(items[i]) ==> f.name != "" { FoundAtNamed(items[i]); }
    case Object(m) =>
      FoundNamed(m);
      forall k | k in m ensures forall f :: f in CallsAt(m[k]) ==> f.name != "" { FoundAtNamed(m[k]); }
    case _ =>
  }

  /** Whatever the walks emitted, the calls among the events are those forwarded, in order. */
  lemma {:induction false} CallsAreForwarded(args: seq<Json>, walks: seq<seq<Found>>, marshal: Json -> string)
    requires Walked(args, walks) && |walks| == |args| && Marshals(marshal)
    ensures CallsAmong(EventsOf(args, walks, marshal)) == Written(Forwarded(args, walks), marshal)
  {
    hide CallsAmong, AllClassified, MessageCallsOf, NonText, Walked, Marshals, Written, CallEvents;
    if args == [] {
      NoCallsAmong(marshal);
    } else {
      var n := |args| - 1;
      var classified := AllClassified(Messages(args[n]), marshal);
      var before, walk, said := EventsOf(args[..n], walks[..n], marshal), CallEvents(walks[n], marshal), NonText(classified);
      WalkedFront(args, walks);
      CallsAreForwarded(args[..n], walks[..n], marshal);
      WalkNamed(args, walks, n);
      WalkCalls(walks[n], marshal);
      ClassifiedCalls(Messages(args[n]), marshal);
      TextIsNoCall(classified);
      CallsAmongAppend(before + walk, said);
      CallsAmongAppend(before, walk);
      var forwarded, found := Forwarded(args[..n], walks[..n]), MessageCallsOf(Messages(args[n]));
      WrittenAppend(forwarded + walks[n], found, marshal);
      WrittenAppend(forwarded, walks[n], marshal);
    }
  }

  lemma NoCallsAmong(marshal: Json -> string)
    ensures CallsAmong([]) == Written([], marshal)
  {
  }

  lemma WrittenAppend(a: seq<Found>, b: seq<Found>, marshal: Json -> string)
    ensures Written(a + b, marshal) == Written(a, marshal) + Written(b, marshal)
  {
  }

  lemma WalkNamed(args: seq<Json>, walks: seq<seq<Found>>, n: nat)
    requires Walked(args, walks) && n < |args|
    ensures forall i :: 0 <= i < |walks[n]| ==> walks[n][i].name != ""
  {
    FoundAtNamed(args[n]);
    hide CallsAt, CallsIn;
    forall i | 0 <= i < |walks[n]| ensures walks[n][i].name != "" {
      assert walks[n][i] in Members(walks[n]);
    }
  }

  // ----- Completions with an error

  /** The empty values, which report no error. */
  predicate Empty(error: Json) {
    error in {Null, Bool(false), Number(0.0), Text(""), Array([]), Object(map[])}
  }

  /** A completion fails the turn exactly when it reports an error, if and only if its error is an
      object that is not empty, or an empty value that is no object. */
  lemma ErrorHeededIff(frames: seq<Frame>)
    requires UpToCompletion(frames) < |frames|
    ensures var e := frames[UpToCompletion(frames)].error;
            (Result(frames).None? <==> !Empty(e)) <==> e.Object? != Empty(e)
  {
  }

  /** An error that is text completes the turn. */
  lemma TextErrorCompletes(frames: seq<Frame>, error: string)
    requires UpToCompletion(frames) == |frames| && error != ""
    ensures !Empty(Text(error))
    ensures Result(frames + [Completion(Text(error))]) == Some(ResultText(frames))
  {
    CompletionEnds(frames, Text(error));
    assert (frames + [Completion(Text(error))])[..|frames|] == frames;
  }

  lemma {:induction false} CompletionEnds(frames: seq<Frame>, error: Json)
    requires UpToCompletion(frames) == |frames|
    ensures UpToCompletion(frames + [Completion(error)]) == |frames|
  {
    if frames != [] {
      assert (frames + [Completion(error)])[1..] == frames[1..] + [Completion(error)];
      CompletionEnds(frames[1..], error);
    }
  }

  // ----- When the stream is the answer

  /** How a piece of the answer arrives: all of it up to `upTo`, or only what follows the
      pieces before. */
  datatype Piece = Snapshot(upTo: nat) | Increment(upTo: nat)

  /** How much of the answer the pieces have told. */
  function Position(ps: seq<Piece>): nat {
    if ps == [] then 0
    else
      var c, q := Position(ps[..|ps| - 1]), ps[|ps| - 1].upTo;
      if c < q then q else c
  }

  /** Pieces of `answer`: an increment never goes back. */
  predicate Tells(answer: string, ps: seq<Piece>) {
    ps != [] ==>
      && Tells(answer, ps[..|ps| - 1])
      && ps[|ps| - 1].upTo <= |answer|
      && (ps[|ps| - 1].Increment? ==> Position(ps[..|ps| - 1]) <= ps[|ps| - 1].upTo)
  }

  lemma {:induction false} PositionInside(answer: string, ps: seq<Piece>)
    requires Tells(answer, ps)
    ensures Position(ps) <= |answer|
  {
    if ps != [] {
      PositionInside(answer, ps[..|ps| - 1]);
    }
  }

  function PieceText(answer: string, c: nat, p: Piece): string
    requires p.upTo <= |answer| && (p.Increment? ==> c <= p.upTo)
  {
    if p.Snapshot? then answer[..p.upTo] else answer[c..p.upTo]
  }

  function PieceTexts(answer: string, ps: seq<Piece>): seq<string>
    requires Tells(answer, ps)
  {
    if ps == [] then []
    else
      var before := ps[..|ps| - 1];
      PieceTexts(answer, before) + [PieceText(answer, Position(before), ps[|ps| - 1])]
  }

  /** A piece that the client takes for what it is: an increment that does not itself begin with
      everything streamed so far, or a snapshot that is not older than the stream. */
  predicate Plain(answer: string, c: nat, p: Piece)
    requires p.upTo <= |answer| && c <= |answer| && (p.Increment? ==> c <= p.upTo)
  {
    match p
    case Increment(q) => c == 0 || !(answer[..c] <= answer[c..q])
    case Snapshot(q) => c <= q || q == 0
  }

  ghost predicate AllPlain(answer: string, ps: seq<Piece>)
    requires Tells(answer, ps)
  {
    ps != [] ==>
      var before := ps[..|ps| - 1];
      PositionInside(answer, before);
      AllPlain(answer, before) && Plain(answer, Position(before), ps[|ps| - 1])
  }

  /** The stream has always been the part of the answer told so far. */
  ghost predicate AlwaysAnswer(answer: string, ps: seq<Piece>)
    requires Tells(answer, ps)
  {
    PositionInside(answer, ps);
    && Streamed(PieceTexts(answer, ps)) == answer[..Position(ps)]
    && (ps != [] ==> AlwaysAnswer(answer, ps[..|ps| - 1]))
  }

  lemma PieceFollows(answer: string, c: nat, p: Piece)
    requires p.upTo <= |answer| && c <= |answer| && (p.Increment? ==> c <= p.upTo)
    ensures var s, c' := answer[..c], if c < p.upTo then p.upTo else c;
            s + Unseen(s, PieceText(answer, c, p)) == answer[..c'] <==> Plain(answer, c, p)
  {
    var s, t, q := answer[..c], PieceText(answer, c, p), p.upTo;
    if s != "" && s <= t {
      assert s + Unseen(s, t) == t;
      if p.Increment? {
        assert |t| == q - c;
      }
    } else if p.Increment? {
      assert s + t == answer[..q];
    } else if !(c <= q && c > 0) {
      assert |s + t| == c + q;
      if q == 0 || c == 0 {
        assert s + t == answer[..c + q];
      }
    }
  }

  /** For any mix of snapshots and increments of an answer, what has been sent is at every moment
      exactly what has been told, nothing twice, if and only if every piece is plain. */
  lemma {:induction false} StreamFollowsAnswer(answer: string, ps: seq<Piece>)
    requires Tells(answer, ps)
    ensures AlwaysAnswer(answer, ps) <==> AllPlain(answer, ps)
  {
    if ps != [] {
      var before, p := ps[..|ps| - 1], ps[|ps| - 1];
      StreamFollowsAnswer(answer, before);
      PositionInside(answer, before);
      PieceFollows(answer, Position(before), p);
      var texts := PieceTexts(answer, ps);
      assert texts[..|texts| - 1] == PieceTexts(answer, before);
    }
  }

  // ----- When the joined texts are the stream

  /** No text begins with a non-empty stream, so that none was cut. */
  predicate NoneCut(texts: seq<string>) {
    texts != [] ==>
      var s := Streamed(texts[..|texts| - 1]);
      NoneCut(texts[..|texts| - 1]) && !(s != "" && s <= texts[|texts| - 1])
  }

  lemma {:induction false} StreamedNoLonger(texts: seq<string>)
    ensures |Streamed(texts)| <= |Join(texts)|
    ensures |Streamed(texts)| == |Join(texts)| <==> NoneCut(texts)
  {
    if texts != [] {
      StreamedNoLonger(texts[..|texts| - 1]);
    }
  }

  /** The text of a result without a final message is the streamed text exactly when no text was
      cut. */
  lemma {:induction false} JoinedIsStreamed(texts: seq<string>)
    ensures Join(texts) == Streamed(texts) <==> NoneCut(texts)
  {
    StreamedNoLonger(texts);
    if NoneCut(texts) && texts != [] {
      JoinedIsStreamed(texts[..|texts| - 1]);
    }
  }

  // ----- Pieces that are not plain

  lemma TwoTexts(a: string, b: string)
    ensures Streamed([a, b]) == a + Unseen(a, b) && Join([a, b]) == a + b
  {
    var texts := [a, b];
    assert texts[..1] == [a] && [a][..0] == [];
    assert Streamed([a]) == "" + a && Join([a]) == "" + a;
    assert "" + a == a;
  }

  /** An increment that repeats the whole stream is taken for a snapshot, and lost. */
  lemma RepeatedIncrementIsCut()
    ensures Tells("haha", [Increment(2), Increment(4)]) && PieceTexts("haha", [Increment(2), Increment(4)]) == ["ha", "ha"]
    ensures Streamed(["ha", "ha"]) == "ha" && Join(["ha", "ha"]) == "haha"
  {
    var answer, ps := "haha", [Increment(2), Increment(4)];
    PiecesOfTwo(answer, Increment(2), Increment(4));
    assert answer[0..2] == "ha" && answer[2..4] == "ha";
    TwoTexts("ha", "ha");
    assert "ha" + "" == "ha" && "ha" + "ha" == "haha";
  }

  /** A snapshot that is older than the stream is sent again. */
  lemma OlderSnapshotRepeats()
    ensures Tells("hello", [Snapshot(4), Snapshot(2)]) && PieceTexts("hello", [Snapshot(4), Snapshot(2)]) == ["hell", "he"]
    ensures Streamed(["hell", "he"]) == "hellhe"
  {
    var answer, ps := "hello", [Snapshot(4), Snapshot(2)];
    PiecesOfTwo(answer, Snapshot(4), Snapshot(2));
    assert answer[..4] == "hell" && answer[..2] == "he";
    TwoTexts("hell", "he");
    assert "hell" + "he" == "hellhe";
  }

  lemma PiecesOfTwo(answer: string, p: Piece, q: Piece)
    requires p.upTo <= |answer| && q.upTo <= |answer| && (q.Increment? ==> p.upTo <= q.upTo)
    ensures Tells(answer, [p, q])
    ensures PieceTexts(answer, [p, q])
            == [answer[..p.upTo], if q.Snapshot? then answer[..q.upTo] else answer[p.upTo..q.upTo]]
  {
    assert [p, q][..1] == [p] && [p][..0] == [];
    assert Position([]) == 0 && Position([p]) == p.upTo;
    assert Tells(answer, []) && Tells(answer, [p]);
    assert answer[0..p.upTo] == answer[..p.upTo];
    assert PieceTexts(answer, [p]) == [] + [answer[..p.upTo]];
  }
}
