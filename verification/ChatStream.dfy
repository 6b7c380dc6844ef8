/** The streaming half of the chat handler: text is held back until it is known not to open a
code fence, and the end of the stream decides between text and tool calls.
*/
module ChatStream {
  import opened Json
  import opened Runes
  import opened Tools
  import opened ToolResponse
  import FencedTools

  const HELD_BACK: nat := 8

  /** `chathub.StreamEvent`, with empty arguments for none. */
  datatype StreamEvent = StreamEvent(kind: string, text: string, toolName: string, arguments: string)

  predicate IsCall(ev: StreamEvent) {
    ev.kind == "tool" && ev.toolName != "" && ev.arguments != ""
  }

  function TextOf(ev: StreamEvent): string {
    if !IsCall(ev) && ev.kind == "text" then ev.text else ""
  }

  /** The total text of a run of events. */
  function Total(evs: seq<StreamEvent>): string {
    if evs == [] then "" else Total(evs[..|evs| - 1]) + TextOf(evs[|evs| - 1])
  }

  /** The native calls of a run of events, with the ids of a supply of fresh ones. */
  function NativeCalls(evs: seq<StreamEvent>, freshId: nat -> string): seq<ToolCall> {
    if evs == [] then []
    else
      var before := NativeCalls(evs[..|evs| - 1], freshId);
      var ev := evs[|evs| - 1];
      if IsCall(ev) then before + [ToolCall("call_" + freshId(|before|), "", ev.toolName, ev.arguments)]
      else before
  }

  /** How much of a text may be shown while more may come: up to the first fence, or else all
      but the last eight runes. */
  function Cut(t: string): (r: nat)
    ensures r <= |t|
  {
    if FirstFence(t) < |t| then FirstFence(t) else if |t| > HELD_BACK then |t| - HELD_BACK else 0
  }

  function Visible(t: string): string {
    t[..Cut(t)]
  }

  // ----- Why the pending text is enough to find the first fence

  /** Once a fence is pending, it stays the first. */
  lemma FenceStays(shown: string, pending: string, part: string)
    requires FenceAt(pending, 0) && FirstFence(shown + pending) == |shown|
    ensures FirstFence(pending + part) == 0 && FirstFence(shown + pending + part) == |shown|
  {
    var t := shown + pending;
    FenceInAppended(pending, part, 0);
    FirstFenceIs(pending + part, 0);
    FenceInAppended(shown, pending, 0);
    FenceInAppended(t, part, |shown|);
    forall j | 0 <= j < |shown| ensures !FenceAt(t + part, j) { FenceInAppended(t, part, j); }
    FirstFenceIs(t + part, |shown|);
  }

  /** Without one, a fence that straddles the pieces lies wholly in the pending text. */
  lemma FenceInPending(shown: string, pending: string, part: string)
    requires FirstFence(shown + pending) == |shown + pending|
    requires shown == "" || |pending| >= HELD_BACK
    ensures var v := pending + part;
            FirstFence(shown + v) == |shown| + FirstFence(v)
  {
    var t, v := shown + pending, pending + part;
    var f := FirstFence(v);
    assert t + part == shown + v;
    forall j | 0 <= j < |shown| ensures !FenceAt(shown + v, j) { FenceInAppended(t, part, j); }
    forall j | |shown| <= j < |shown| + f ensures !FenceAt(shown + v, j) { FenceInAppended(shown, v, j); }
    if f < |v| {
      FenceInAppended(shown, v, f);
      FirstFenceIs(shown + v, |shown| + f);
    }
  }

  /** So the rule applied to the pending text alone shows what the rule shows of the whole. */
  lemma CutPending(shown: string, pending: string, part: string)
    requires Visible(shown + pending) == shown
    ensures Visible(shown + pending + part) == shown + Visible(pending + part)
  {
    var t, v := shown + pending, pending + part;
    assert |shown| == Cut(t);
    assert t + part == shown + v;
    if FirstFence(t) < |t| {
      FenceInAppended(shown, pending, |shown|);
      FenceStays(shown, pending, part);
    } else {
      FenceInPending(shown, pending, part);
    }
    hide FirstFence;
    assert Cut(shown + v) == |shown| + Cut(v);
    assert (shown + v)[..|shown| + Cut(v)] == shown + v[..Cut(v)];
  }

  /** Chunks of text: the first of them, and no other, names the role. */
  predicate Spoken(chunks: seq<Delta>) {
    forall i :: 0 <= i < |chunks| ==>
      chunks[i].content.Some? && chunks[i].toolCalls == [] && (chunks[i].role.Some? <==> i == 0)
  }

  // ----- The handler's closures

  class Stream {
    var text: string
    var pending: string
    var streamedTools: seq<ToolCall>
    var first: bool
    var chunks: seq<Delta>

    /** What is shown and what is pending make up the text, and what is shown is what may be. */
    ghost predicate Valid()
      reads this
    {
      && Received(chunks) + pending == text
      && Received(chunks) == Visible(text)
      && Spoken(chunks) && first == (chunks == [])
    }

    constructor ()
      ensures Valid() && text == "" && streamedTools == [] && chunks == []
    {
      text, pending, streamedTools, first, chunks := "", "", [], true, [];
    }

    method EmitText(part: string)
      requires Spoken(chunks) && first == (chunks == [])
      modifies this`first, this`chunks
      ensures Spoken(chunks) && first == (chunks == [])
      ensures Received(chunks) == Received(old(chunks)) + part
      ensures part == "" ==> chunks == old(chunks)
    {
      if part == "" {
        return;
      }
      var role := None;
      if first {
        role := Some("assistant");
        first := false;
      }
      ReceivedAppend(chunks, [Delta(role, Some(part), [])]);
      OneReceived(Delta(role, Some(part), []));
      hide Received;
      chunks := chunks + [Delta(role, Some(part), [])];
    }

    /** Shows the pending text up to a cut, and keeps the rest. */
    method Show(cut: nat)
      requires cut <= |pending| && Spoken(chunks) && first == (chunks == [])
      modifies this`first, this`chunks, this`pending
      ensures Spoken(chunks) && first == (chunks == [])
      ensures Received(chunks) == Received(old(chunks)) + old(pending)[..cut]
      ensures Received(chunks) + pending == Received(old(chunks)) + old(pending)
    {
      hide Received, Spoken;
      var v := pending;
      EmitText(v[..cut]);
      pending := v[cut..];
      assert v == v[..cut] + v[cut..];
    }

    /** The text branch of the event handler. */
    method HoldBack(part: string)
      requires Valid()
      modifies this
      ensures Valid() && text == old(text) + part && streamedTools == old(streamedTools)
    {
      hide FirstFence, Received, Spoken;
      ghost var shown := Received(chunks);
      CutPending(shown, pending, part);
      assert shown + pending + part == shown + (pending + part);
      text := text + part;
      pending := pending + part;
      var v := pending;
      var i := FirstFence(v);
      if i < |v| {
        Show(i);
        return;
      }
      if |v| > HELD_BACK {
        Show(|v| - HELD_BACK);
      }
    }

    method OnEvent(ev: StreamEvent, freshId: nat -> string)
      requires Valid()
      modifies this
      ensures Valid()
      ensures text == old(text) + TextOf(ev)
      ensures streamedTools
              == old(streamedTools)
                 + if IsCall(ev)
                   then [ToolCall("call_" + freshId(|old(streamedTools)|), "", ev.toolName, ev.arguments)]
                   else []
      ensures ev.kind == "text" ==> text == old(text) + ev.text && streamedTools == old(streamedTools)
      ensures ev.kind == "tool" && ev.toolName != "" && ev.arguments != "" ==>
                text == old(text) && |streamedTools| == |old(streamedTools)| + 1
      ensures ev.kind != "text" && !(ev.kind == "tool" && ev.toolName != "" && ev.arguments != "") ==>
                text == old(text) && streamedTools == old(streamedTools)
    {
      hide FirstFence, Received, Visible;
      if ev.kind == "tool" && ev.toolName != "" && |ev.arguments| > 0 {
        streamedTools := streamedTools
          + [ToolCall("call_" + freshId(|streamedTools|), "", ev.toolName, ev.arguments)];
        return;
      }
      if ev.kind != "text" || ev.text == "" {
        return;
      }
      HoldBack(ev.text);
    }

    /** The end of the stream. `fenced` finds the accepted fenced calls of a text. */
    method Finish(result: string, fenced: string -> seq<ToolCall>, limit: int) returns (calls: seq<ToolCall>)
      requires Valid()
      modifies this
      ensures calls == LimitCalls(Decided(old(streamedTools), Final(old(text), result), fenced), limit)
      ensures calls == [] ==> Spoken(chunks) && Received(chunks) == Final(old(text), result)
      ensures calls != [] ==> chunks == old(chunks) + CallChunks(calls) + [FINISH]
    {
      if |text| == 0 && !Blank(result) {
        text := result;
        pending := result;
      }
      calls := streamedTools;
      if |calls| == 0 {
        calls := fenced(text);
      }
      if |calls| > 0 {
        calls := LimitCalls(calls, limit);
        var answer := WriteToolChunks(calls, "", true);
        assert answer == CallChunks(calls) + [FINISH];
        chunks := chunks + answer;
        return;
      }
      EmitText(pending);
    }
  }

  /** The text of the turn: the final result stands in for a stream without text. */
  function Final(text: string, result: string): string {
    if text == "" && !Blank(result) then result else text
  }

  /** It does so exactly when nothing was streamed and it holds anything but white space. */
  lemma FinalExactly(text: string, result: string)
    ensures text != "" ==> Final(text, result) == text
    ensures text == "" && (exists i :: 0 <= i < |result| && !IsSpace(result[i])) ==> Final(text, result) == result
    ensures text == "" && (forall i :: 0 <= i < |result| ==> IsSpace(result[i])) ==> Final(text, result) == ""
  {
  }

  /** What may be shown of a text: up to its first fence, or without one all but the last eight
      runes. */
  lemma VisibleExactly(text: string)
    ensures forall i: nat :: FenceAt(text, i) && (forall j :: 0 <= j < i ==> !FenceAt(text, j)) ==>
              i <= |text| && Visible(text) == text[..i]
    ensures (forall j :: !FenceAt(text, j)) ==> Visible(text) == if |text| > 8 then text[..|text| - 8] else ""
  {
    forall i: nat | FenceAt(text, i) && (forall j :: 0 <= j < i ==> !FenceAt(text, j)) ensures Visible(text) == text[..i] {
      FirstFenceIs(text, i);
    }
  }

  /** Native calls win over fenced ones. */
  function Decided(native: seq<ToolCall>, text: string, fenced: string -> seq<ToolCall>): seq<ToolCall> {
    if native != [] then native else fenced(text)
  }

  // ----- A whole turn

  /** However the text arrives in pieces, a turn without calls delivers exactly its text, and a
      turn with calls delivers the text up to its first fence (or without its last eight runes,
      which are then never sent) followed by the chunks of the calls. */
  method StreamTurn(evs: seq<StreamEvent>, freshId: nat -> string, result: string,
                    fenced: string -> seq<ToolCall>, limit: int)
    returns (chunks: seq<Delta>, calls: seq<ToolCall>)
    ensures calls == LimitCalls(Decided(NativeCalls(evs, freshId), Final(Total(evs), result), fenced), limit)
    ensures calls == [] ==> Spoken(chunks) && Received(chunks) == Final(Total(evs), result)
    ensures calls != [] ==>
              exists said :: Spoken(said) && Received(said) == Visible(Total(evs))
                             && chunks == said + CallChunks(calls) + [FINISH]
  {
    var s := new Stream();
    for i := 0 to |evs|
      invariant fresh(s) && s.Valid()
      invariant s.text == Total(evs[..i]) && s.streamedTools == NativeCalls(evs[..i], freshId)
    {
      assert evs[..i + 1][..i] == evs[..i];
      s.OnEvent(evs[i], freshId);
    }
    assert evs[..|evs|] == evs;
    ghost var said := s.chunks;
    calls := s.Finish(result, fenced, limit);
    chunks := s.chunks;
  }

  /** No part of a block that begins with a fence is ever shown before a call. */
  lemma BlockNeverShown(text: string, start: nat)
    requires FenceAt(text, start)
    ensures |Visible(text)| <= start
  {
  }

  /** What was shown is part of the text before each of its matches. */
  predicate ShownBefore(shown: string, text: string, ms: seq<FencedTools.Match>) {
    forall i :: 0 <= i < |ms| ==> ms[i].start <= |text| && shown <= text[..ms[i].start]
  }

  lemma ShownBeforeMatches(text: string, result: string, ms: seq<FencedTools.Match>)
    requires FencedTools.Matches(Final(text, result), ms)
    ensures ShownBefore(Visible(text), Final(text, result), ms)
  {
    forall i | 0 <= i < |ms| ensures Visible(text) <= Final(text, result)[..ms[i].start] {
      if text != "" {
        BlockNeverShown(text, ms[i].start);
      }
    }
  }

  /** A turn that ends with fenced calls: whatever the matches of its text are, the client has
      been shown nothing of any of them, and so nothing of a matched call block. */
  method StreamFencedTurn(evs: seq<StreamEvent>, freshId: nat -> string, result: string,
                          find: string -> seq<FencedTools.Match>, tools: seq<Json>, choice: Json,
                          canon: string -> Option<string>, callID: (string, string, nat) -> string, limit: int)
    returns (chunks: seq<Delta>, calls: seq<ToolCall>)
    requires forall t :: FencedTools.Matches(t, find(t))
    requires NativeCalls(evs, freshId) == []
    ensures var text := Final(Total(evs), result);
            && calls == LimitCalls(FencedTools.FencedCalls(find(text), tools, choice, canon, callID), limit)
            && (calls == [] ==> Spoken(chunks) && Received(chunks) == text)
            && (calls != [] ==>
                  exists said ::
                    && Spoken(said) && chunks == said + CallChunks(calls) + [FINISH]
                    && ShownBefore(Received(said), text, find(text)))
  {
    var fenced := t => FencedTools.FencedCalls(find(t), tools, choice, canon, callID);
    chunks, calls := StreamTurn(evs, freshId, result, fenced, limit);
    ghost var text := Final(Total(evs), result);
    hide Visible, Final, Received, Total, CallChunks, FencedTools.FencedCalls, FencedTools.Matches, LimitCalls;
    ShownBeforeMatches(Total(evs), result, find(text));
  }

  /** When calls end the turn, the client has the whole text only if there was none. */
  lemma TailNeverFlushed(text: string)
    ensures Visible(text) == text <==> text == ""
  {
  }
}
