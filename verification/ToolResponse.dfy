/** How a list of calls is written out: as chunks, or as the calls of one message. */
module ToolResponse {
  import opened Json
  import opened Tools

  function KindOf(c: ToolCall): string {
    if c.kind == "" then "function" else c.kind
  }

  function CallChunk(c: ToolCall, i: nat): Delta {
    Delta(None, None, [CallDelta(i, Some(c.id), Some(KindOf(c)), Some(c.name), Some(c.arguments))])
  }

  function CallChunks(calls: seq<ToolCall>): (r: seq<Delta>)
    ensures |r| == |calls| && forall i :: 0 <= i < |calls| ==> r[i] == CallChunk(calls[i], i)
  {
    seq(|calls|, i requires 0 <= i < |calls| => CallChunk(calls[i], i))
  }

  const FINISH := Delta(None, None, [])

  function Preamble(summary: string, sent: bool): seq<Delta> {
    if sent then [] else [Delta(Some("assistant"), Some(summary), [])]
  }

  /** A client reads the plan from the chunks, unless it was sent before, and nothing else. */
  lemma {:induction false} ChunksSay(calls: seq<ToolCall>, summary: string, sent: bool)
    ensures Received(Preamble(summary, sent) + CallChunks(calls) + [FINISH]) == if sent then "" else summary
  {
    if calls == [] {
      assert Preamble(summary, sent) + CallChunks(calls) + [FINISH] == Preamble(summary, sent) + [FINISH];
      ReceivedAppend(Preamble(summary, sent), [FINISH]);
      OneReceived(FINISH);
      OneReceived(Delta(Some("assistant"), Some(summary), []));
    } else {
      var n := |calls| - 1;
      ChunksSay(calls[..n], summary, sent);
      var front, last := Preamble(summary, sent) + CallChunks(calls[..n]), CallChunk(calls[n], n);
      assert Preamble(summary, sent) + CallChunks(calls) + [FINISH] == front + [last] + [FINISH];
      ReceivedAppend(front + [last], [FINISH]);
      ReceivedAppend(front, [last]);
      ReceivedAppend(front, [FINISH]);
      OneReceived(last);
    }
  }

  /** `writeToolResponse` when streaming. */
  method WriteToolChunks(calls: seq<ToolCall>, summary: string, preambleSent: bool) returns (chunks: seq<Delta>)
    ensures chunks == Preamble(summary, preambleSent) + CallChunks(calls) + [FINISH]
  {
    chunks := [];
    if !preambleSent {
      chunks := chunks + [Delta(Some("assistant"), Some(summary), [])];
    }
    for i := 0 to |calls|
      invariant chunks == Preamble(summary, preambleSent) + CallChunks(calls)[..i]
    {
      var kind := calls[i].kind;
      if kind == "" {
        kind := "function";
      }
      chunks := chunks + [Delta(None, None, [CallDelta(i, Some(calls[i].id), Some(kind), Some(calls[i].name), Some(calls[i].arguments))])];
    }
    chunks := chunks + [Delta(None, None, [])];
  }

  /** `toolCallMaps`, the calls of a message that is not streamed. */
  method ToolCallMaps(calls: seq<ToolCall>) returns (out: seq<ToolCall>)
    ensures out == MessageCalls(calls)
  {
    out := [];
    for i := 0 to |calls|
      invariant out == MessageCalls(calls)[..i]
    {
      var kind := calls[i].kind;
      if kind == "" {
        kind := "function";
      }
      out := out + [ToolCall(calls[i].id, kind, calls[i].name, calls[i].arguments)];
    }
  }

  function MessageCalls(calls: seq<ToolCall>): (r: seq<ToolCall>)
    ensures |r| == |calls| && forall i :: 0 <= i < |calls| ==> r[i] == calls[i].(kind := KindOf(calls[i]))
  {
    seq(|calls|, i requires 0 <= i < |calls| => calls[i].(kind := KindOf(calls[i])))
  }
}
