/** One streamed Responses turn from end to end: ChatHub frames, the hold-back of the chat
handler, and the Responses adapter.
*/
module Pipeline {
  import opened Json
  import opened Runes
  import opened Sequences
  import opened Tools
  import opened ToolEvents
  import opened ToolResponse
  import opened ChatStream
  import opened ChatHubClient
  import opened ResponsesAdapter
  import opened ResponsesStream

  /** What the frames of a turn stream, as far as they are read. */
  function FrameStream(frames: seq<Frame>): string {
    Streamed(FrameTexts(FramesRead(frames)))
  }

  /** The text of a turn that completes. */
  function TurnText(frames: seq<Frame>): string {
    Final(FrameStream(frames), ResultText(FramesRead(frames)))
  }

  /** A stream that ends with this text, or with the failure that stands for none. */
  predicate EndsWithText(es: seq<Event>, text: string) {
    if Blank(text) then es != [] && es[|es| - 1] == FailedEmpty
    else Completes(es) && Output(es) == [Item.Message(MessageId, text)]
  }

  lemma {:induction false} BlankMeansNothing(chunks: seq<Delta>, input: string -> string)
    requires NoCalls(chunks)
    ensures EndsWithText(Respond(chunks, false, input), Received(chunks))
  {
    TextIsReceived(chunks);
    if !Blank(Received(chunks)) {
      TextDelivered(chunks, input);
    }
  }

  // ----- The calls of a turn

  /** What stays the same from turn to turn: how JSON is written, how fresh ids are made, which
      fenced calls a text holds, and how many calls are let through. */
  datatype Gateway = Gateway(
    marshal: Json -> string, freshId: nat -> string, fenced: string -> seq<ToolCall>, limit: int)

  /** Native calls as the chat handler keeps them, numbered by their place. */
  function Native(calls: seq<(string, string)>, freshId: nat -> string): (r: seq<ToolCall>)
    ensures |r| == |calls|
    ensures forall i :: 0 <= i < |r| ==> r[i] == ToolCall("call_" + freshId(i), "", calls[i].0, calls[i].1)
  {
    seq(|calls|, i requires 0 <= i < |calls| => ToolCall("call_" + freshId(i), "", calls[i].0, calls[i].1))
  }

  lemma {:induction false} NativeCallsAre(evs: seq<StreamEvent>, freshId: nat -> string)
    ensures NativeCalls(evs, freshId) == Native(CallsAmong(evs), freshId)
  {
    if evs != [] {
      NativeCallsAre(evs[..|evs| - 1], freshId);
    }
  }

  /** The calls that stand in the arguments read, each as often as the handler is given it: once
      for the walk, and once more for every message that carries it. */
  ghost function CallsToldBy(frames: seq<Frame>): multiset<Found> {
    var args := FrameArguments(FramesRead(frames));
    multiset(CallsIn(args)) + multiset(AllMessageCalls(args))
  }

  /** The calls that a completed turn may end with. The walks visit objects in any order, and so
      may give the native calls of an argument in any order. */
  ghost predicate MayCall(frames: seq<Frame>, g: Gateway, calls: seq<ToolCall>) {
    var args := FrameArguments(FramesRead(frames));
    exists walks ::
      && Walked(args, walks)
      && calls == LimitCalls(
                    Decided(Native(Written(Forwarded(args, walks), g.marshal), g.freshId), TurnText(frames), g.fenced),
                    g.limit)
  }

  /** A turn whose frames tell no call may end with the fenced calls of its text, and no others. */
  lemma NoneToldMeansFenced(frames: seq<Frame>, g: Gateway, calls: seq<ToolCall>)
    requires CallsToldBy(frames) == multiset{}
    ensures MayCall(frames, g, calls) ==> calls == LimitCalls(g.fenced(TurnText(frames)), g.limit)
  {
    var args := FrameArguments(FramesRead(frames));
    if MayCall(frames, g, calls) {
      var walks :| && Walked(args, walks)
                   && calls == LimitCalls(
                                 Decided(Native(Written(Forwarded(args, walks), g.marshal), g.freshId), TurnText(frames), g.fenced),
                                 g.limit);
      ForwardedCounts(args, walks);
      assert |Forwarded(args, walks)| == |multiset(Forwarded(args, walks))| == 0;
    }
  }

  /** A turn whose frames tell calls ends with those calls, each as often as it is told, as far as
      the limit goes. */
  lemma ToldCallsWin(frames: seq<Frame>, g: Gateway, calls: seq<ToolCall>)
    requires MayCall(frames, g, calls) && CallsToldBy(frames) != multiset{}
    ensures exists found ::
              && multiset(found) == CallsToldBy(frames)
              && calls == LimitCalls(Native(Written(found, g.marshal), g.freshId), g.limit)
    ensures calls != []
  {
    var args := FrameArguments(FramesRead(frames));
    var walks :| && Walked(args, walks)
                 && calls == LimitCalls(
                               Decided(Native(Written(Forwarded(args, walks), g.marshal), g.freshId), TurnText(frames), g.fenced),
                               g.limit);
    var found := Forwarded(args, walks);
    ForwardedCounts(args, walks);
    assert found != [];
  }

  lemma NothingTold(frames: seq<Frame>)
    requires CallsIn(FrameArguments(FramesRead(frames))) == {}
    ensures CallsToldBy(frames) == multiset{}
  {
    var args := FrameArguments(FramesRead(frames));
    AllMessageCallsFound(args);
    hide CallsIn;
    assert |AllMessageCalls(args)| == 0 || AllMessageCalls(args)[0] in AllMessageCalls(args);
  }

  // ----- The turn

  /** A completed turn ends with exactly its calls, or else with exactly its text.

      A turn that fails half way does not end as a failure: the handler just stops writing, and
      the adapter completes the response with what had been shown, unless that is blank. */
  method Serve(frames: seq<Frame>, g: Gateway, input: string -> string)
    returns (es: seq<Event>, calls: seq<ToolCall>)
    requires Marshals(g.marshal)
    ensures Result(frames).Some? ==> MayCall(frames, g, calls)
    ensures Result(frames).Some? && calls != [] ==> Completes(es) && Lists(Output(es), calls, input)
    ensures Result(frames).Some? && calls == [] ==> EndsWithText(es, TurnText(frames))
    ensures Result(frames).None? ==> calls == [] && EndsWithText(es, Visible(FrameStream(frames)))
  {
    hide Respond, Lists, EndsWithText, Streamed, Visible, Final, CallChunks, Received, Total, UpToCompletion,
      MayCall, TurnText, FrameStream, ResultText, Result, Marshals, Decided, LimitCalls, Turn.Valid, NoCalls;
    var turn := new Turn(g.marshal);
    var result := turn.Run(frames);
    var chunks: seq<Delta>;
    calls := [];
    SentText(turn, frames);
    if result.None? {
      chunks := Interrupted(turn.sent, g.freshId);
      SpokenNoCalls(chunks);
      BlankMeansNothing(chunks, input);
    } else {
      SentCalls(turn, frames, g);
      chunks, calls := StreamTurn(turn.sent, g.freshId, result.value, g.fenced, g.limit);
      if calls == [] {
        SpokenNoCalls(chunks);
        BlankMeansNothing(chunks, input);
      } else {
        ghost var said :| Spoken(said) && chunks == said + CallChunks(calls) + [FINISH];
        assert chunks == said + (Preamble("", true) + CallChunks(calls) + [FINISH]);
        SpokenNoCalls(said);
        StreamedCallsListed(said, calls, "", true, input);
      }
    }
    es := StreamResponses(chunks, false, input);
  }

  lemma SpokenNoCalls(chunks: seq<Delta>)
    requires Spoken(chunks)
    ensures NoCalls(chunks)
  {
  }

  lemma SentText(turn: Turn, frames: seq<Frame>)
    requires turn.Valid() && turn.arguments == FrameArguments(FramesRead(frames))
    ensures Total(turn.sent) == FrameStream(frames)
    ensures Result(frames).Some? ==> Final(Total(turn.sent), Result(frames).value) == TurnText(frames)
  {
  }

  /** Whatever order the walks took, the native calls sent are those of some order. */
  lemma SentCalls(turn: Turn, frames: seq<Frame>, g: Gateway)
    requires turn.Valid() && turn.arguments == FrameArguments(FramesRead(frames))
    requires turn.marshal == g.marshal && Marshals(g.marshal)
    ensures MayCall(frames, g, LimitCalls(Decided(NativeCalls(turn.sent, g.freshId), TurnText(frames), g.fenced), g.limit))
  {
    NativeCallsAre(turn.sent, g.freshId);
    TextIsNoCall(turn.sent);
    CallsAreForwarded(turn.arguments, turn.walks, g.marshal);
  }

  /** The chunks of a turn whose reading failed. */
  method Interrupted(evs: seq<StreamEvent>, freshId: nat -> string) returns (chunks: seq<Delta>)
    ensures Spoken(chunks) && Received(chunks) == Visible(Total(evs))
  {
    var s := new Stream();
    for i := 0 to |evs|
      invariant fresh(s) && s.Valid() && s.text == Total(evs[..i])
    {
      assert evs[..i + 1][..i] == evs[..i];
      s.OnEvent(evs[i], freshId);
    }
    assert evs[..|evs|] == evs;
    chunks := s.chunks;
  }

  lemma PlainStream(answer: string, ps: seq<Piece>, frames: seq<Frame>)
    requires Tells(answer, ps) && AllPlain(answer, ps) && Position(ps) == |answer|
    requires FrameTexts(FramesRead(frames)) == PieceTexts(answer, ps)
    ensures FrameStream(frames) == answer
  {
    StreamFollowsAnswer(answer, ps);
  }

  /** An answer that arrives as plain snapshots and increments, with no call in any argument and
      none fenced in the answer, reaches the client of the Responses API unchanged. */
  method Deliver(answer: string, ghost ps: seq<Piece>, frames: seq<Frame>, g: Gateway, input: string -> string)
    returns (es: seq<Event>)
    requires Marshals(g.marshal) && Result(frames).Some? && !Blank(answer)
    requires Tells(answer, ps) && AllPlain(answer, ps) && Position(ps) == |answer|
    requires FrameTexts(FramesRead(frames)) == PieceTexts(answer, ps)
    requires CallsIn(FrameArguments(FramesRead(frames))) == {} && g.fenced(answer) == []
    ensures Completes(es) && Output(es) == [Item.Message(MessageId, answer)]
  {
    PlainStream(answer, ps, frames);
    NothingTold(frames);
    assert answer != "" && TurnText(frames) == answer;
    hide FrameTexts, Streamed, ResultText, Visible, PieceTexts, AllPlain, Tells, Position, FrameStream, MayCall,
      TurnText, CallsIn, CallsToldBy, Blank;
    var calls;
    es, calls := Serve(frames, g, input);
    NoneToldMeansFenced(frames, g, calls);
  }

  // ----- An interrupted turn

  /** Frames that stop after some text. */
  function CutOff(text: string): seq<Frame> {
    [Update([Object(map["writeAtCursor" := Text(text)])])]
  }

  /** They have no result, and yet show all but the last eight runes of a text without fences,
      which is what `Serve` completes the response with. */
  lemma InterruptedShows(text: string)
    requires !HasFence(text) && |text| > HELD_BACK
    ensures Result(CutOff(text)).None?
    ensures Visible(FrameStream(CutOff(text))) == text[..|text| - HELD_BACK]
  {
    var frames := CutOff(text);
    var arg := Object(map["writeAtCursor" := Text(text)]);
    assert frames[1..] == [] && UpToCompletion(frames) == 1 && frames[..1] == frames && frames[..0] == [];
    assert [arg][..0] == [] && Objects([arg]) == [arg] && FrameArguments(frames) == [arg];
    assert Messages(arg) == [] && !IsToolFrame(arg) && AnswerTexts([]) == [];
    assert TextsOf(arg) == [text];
    assert Texts([arg]) == [text] && [text][..0] == [];
    assert Streamed([text]) == "" + text == text;
  }
}
