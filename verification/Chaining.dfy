/** Responses that continue an earlier one: the histories that the gateway keeps under the ids of
its answers.
*/
module Chaining {
  import opened Json
  import opened Bytes
  import opened Conversation
  import opened ConversationRuns
  import opened Sequences
  import opened LedgerEvidence
  import FencedTools
  import Tools

  /** The message of a chat answer; a content that is not text is empty. */
  datatype Reply = Reply(calls: seq<Call>, text: string)

  /** `responsesOutputHasContent`. */
  predicate HasContent(r: Reply) {
    r.calls != [] || Trim(r.text) != ""
  }

  /** What is kept of a reply that has content. */
  function Answer(r: Reply): Message {
    if r.calls != [] then Message("assistant", Null, "", r.calls) else Message("assistant", Text(r.text), "", [])
  }

  datatype Outcome = UnknownResponse | Streamed | Refused | Failed | Answered

  type Histories = map<string, seq<Message>>

  /** The conversation of a request that may name a previous response. */
  function Resumed(kept: Histories, previous: string, messages: seq<Message>): Option<seq<Message>> {
    if previous == "" then Some(messages)
    else if previous !in kept || kept[previous] == [] then None
    else Some(kept[previous] + messages)
  }

  /** What is kept: the conversation, and then the assistant's calls, or else its text. */
  predicate Keeps(kept: seq<Message>, conversation: seq<Message>, r: Reply) {
    && |kept| == |conversation| + 1 && kept[..|conversation|] == conversation
    && var m := kept[|conversation|];
       && m.role == "assistant" && m.toolCallId == "" && m.toolCalls == r.calls
       && m.content == if r.calls == [] then Text(r.text) else Null
  }

  /** A history that was accepted, and the reply to it. */
  ghost predicate AcceptedThenReply(s: seq<Message>) {
    s != [] && s[|s| - 1].role == "assistant" && Accepts(s[..|s| - 1])
  }

  class Responses {
    var responseMessages: Histories

    ghost predicate Valid()
      reads this
    {
      forall id :: id in responseMessages ==> AcceptedThenReply(responseMessages[id])
    }

    constructor ()
      ensures Valid() && responseMessages == map[]
    {
      responseMessages := map[];
    }

    /** One request. `reply` is what the chat handler makes of a conversation that it accepts; none
        stands for any error of its own. A streamed answer is never kept. */
    method Respond(previous: string, messages: seq<Message>, stream: bool, reply: Option<Reply>, publicId: string)
      returns (outcome: Outcome)
      requires Valid()
      modifies this
      ensures Valid()
      ensures outcome == match Resumed(old(responseMessages), previous, messages)
                         case None => UnknownResponse
                         case Some(h) =>
                           if stream then Streamed
                           else if !Accepts(h) then Refused
                           else if reply.None? || !HasContent(reply.value) then Failed
                           else Answered
      ensures responseMessages
              == if outcome != Answered then old(responseMessages)
                 else old(responseMessages)[
                   publicId := Resumed(old(responseMessages), previous, messages).value + [Answer(reply.value)]]
      ensures outcome == UnknownResponse <==> previous != "" && (previous !in old(responseMessages) || old(responseMessages)[previous] == [])
      ensures outcome == Failed ==> reply.None? || (reply.value.calls == [] && Trim(reply.value.text) == "")
      ensures outcome == Answered ==>
                && reply.Some? && (reply.value.calls != [] || Trim(reply.value.text) != "")
                && publicId in responseMessages
                && var kept := responseMessages[publicId];
                   Keeps(kept, (if previous == "" then [] else old(responseMessages)[previous]) + messages, reply.value)
    {
      hide Accepts, Trim;
      var o := messages;
      if previous != "" {
        var prior := if previous in responseMessages then responseMessages[previous] else [];
        if |prior| == 0 {
          return UnknownResponse;
        }
        o := prior + o;
      }
      if stream {
        return Streamed;
      }
      var e := ValidateToolConversation(o);
      if e.Some? {
        return Refused;
      }
      if reply.None? || !HasContent(reply.value) {
        return Failed;
      }
      var stored := o;
      if |reply.value.calls| > 0 {
        stored := stored + [Message("assistant", Null, "", reply.value.calls)];
      } else if reply.value.text != "" {
        stored := stored + [Message("assistant", Text(reply.value.text), "", [])];
      } else {
        BlankIsBlank();
      }
      assert stored == o + [Answer(reply.value)] && stored[..|stored| - 1] == o;
      assert [] + messages == messages;
      responseMessages := responseMessages[publicId := stored];
      return Answered;
    }
  }

  lemma BlankIsBlank()
    ensures Trim("") == ""
  {
  }

  /** A request that names an answer goes on with all that was kept of it. */
  lemma NextRequestResumes(kept: Histories, id: string, conversation: seq<Message>, r: Reply, messages: seq<Message>)
    requires id != "" && id in kept && Keeps(kept[id], conversation, r)
    ensures Resumed(kept, id, messages) == Some(kept[id] + messages)
    ensures conversation <= (kept[id] + messages)
  {
    assert (kept[id] + messages)[..|conversation|] == kept[id][..|conversation|];
  }

  // ----- How a kept history may go on

  function IdList(calls: seq<Call>): (r: seq<string>)
    ensures |r| == |calls| && forall i :: 0 <= i < |r| ==> r[i] == calls[i].id
  {
    seq(|calls|, i requires 0 <= i < |calls| => calls[i].id)
  }

  function FirstTurn(b: seq<Message>): (k: nat)
    ensures k <= |b| && (forall i :: 0 <= i < k ==> b[i].role != "assistant")
    ensures k < |b| ==> b[k].role == "assistant"
  {
    if b == [] || b[0].role == "assistant" then 0 else 1 + FirstTurn(b[1..])
  }

  /** The calls that a stretch of messages answers, in order. */
  function ToolIds(b: seq<Message>): seq<string> {
    if b == [] then []
    else ToolIds(b[..|b| - 1]) + if b[|b| - 1].role == "tool" then [b[|b| - 1].toolCallId] else []
  }

  /** The calls of a reply are named, distinct and new. */
  ghost predicate NewCalls(h: seq<Message>, ids: seq<string>) {
    Distinct(ids) && "" !in Members(ids) && Members(ids) !! CallIds(Steps(h))
  }

  lemma {:induction false} NoTurnSteps(b: seq<Message>)
    requires forall i :: 0 <= i < |b| ==> b[i].role != "assistant"
    ensures Steps(b) == AsResults(ToolIds(b))
  {
    if b != [] {
      NoTurnSteps(b[..|b| - 1]);
    }
  }

  lemma ReplySteps(m: Message)
    requires m.role == "assistant"
    ensures Steps([m]) == [Turn] + AsCalls(IdList(m.toolCalls))
  {
    assert [m][..0] == [];
    assert CallSteps(m.toolCalls) == AsCalls(IdList(m.toolCalls));
  }

  /** What follows the results ends well only if nothing is left to answer. */
  lemma {:induction false} RestAfter(pending: set<string>, used: set<string>, rest: seq<Message>)
    requires rest != [] ==> rest[0].role == "assistant"
    ensures var v := Run(Open(pending, used), Steps(rest));
            v.Open? && v.pending == {} <==> pending == {} && Accepts(rest) && CallIds(Steps(rest)) !! used
  {
    if rest == [] {
      NothingSaid(pending, used);
    } else if pending != {} {
      TurnBreaks(pending, used, rest);
    } else {
      RunAfter(used, Steps(rest));
      DisjointIff(CallIds(Steps(rest)), used);
      hide Steps, CallIds, Run;
    }
  }

  lemma NothingSaid(pending: set<string>, used: set<string>)
    ensures Run(Open(pending, used), Steps([])) == Open(pending, used)
    ensures Accepts([]) && CallIds(Steps([])) == {}
  {
  }

  lemma {:induction false} TurnBreaks(pending: set<string>, used: set<string>, rest: seq<Message>)
    requires rest != [] && rest[0].role == "assistant" && pending != {}
    ensures Run(Open(pending, used), Steps(rest)) == Broken
  {
    var m, tail := rest[0], rest[1..];
    var calls := AsCalls(IdList(m.toolCalls));
    assert rest == [m] + tail;
    ReplySteps(m);
    StartedTurnBreaks(pending, used);
    hide Steps, Run, AsCalls, IdList;
    StepsAppend([m], tail);
    RunAppend(Open(pending, used), [Turn] + calls, Steps(tail));
    RunAppend(Open(pending, used), [Turn], calls);
    BrokenStays(calls);
    BrokenStays(Steps(tail));
  }

  lemma StartedTurnBreaks(pending: set<string>, used: set<string>)
    requires pending != {}
    ensures Run(Open(pending, used), [Turn]) == Broken
  {
    assert [] + [Turn] == [Turn];
    RunOne(Open(pending, used), [], Turn);
  }

  /** A kept history and what follows it are accepted exactly when the calls of the reply are
      named, distinct and new; the messages up to the next assistant message answer each of them
      once, and nothing else; and the rest is accepted by itself and uses new ids. */
  lemma FollowUpAcceptedIff(h: seq<Message>, m: Message, b: seq<Message>)
    requires Accepts(h) && m.role == "assistant"
    ensures var ids, k := IdList(m.toolCalls), FirstTurn(b);
            var answers := ToolIds(b[..k]);
            Accepts(h + [m] + b)
            <==> && NewCalls(h, ids)
                 && Distinct(answers) && Members(answers) == Members(ids)
                 && Accepts(b[k..]) && CallIds(Steps(b[k..])) !! CallIds(Steps(h)) + Members(ids)
  {
    var ids, k, used := IdList(m.toolCalls), FirstTurn(b), CallIds(Steps(h));
    var answers, rest := ToolIds(b[..k]), b[k..];
    FollowUpRuns(h, m, b);
    AcceptedState(h);
    RunTurn(used, ids);
    var v := Run(Open({}, used), [Turn] + AsCalls(ids));
    if NewCalls(h, ids) {
      RunResults(Members(ids), used, answers);
      if Members(answers) <= Members(ids) {
        RestAfter(Members(ids) - Members(answers), used + Members(answers), rest);
        assert Members(ids) - Members(answers) == {} <==> Members(answers) == Members(ids);
      }
    } else {
      BrokenStays(AsResults(answers));
    }
    BrokenStays(Steps(rest));
    hide Steps, Run, CallIds, Distinct, AsResults, AsCalls, IdList, FirstTurn, ToolIds;
  }

  lemma {:induction false} FollowUpRuns(h: seq<Message>, m: Message, b: seq<Message>)
    requires m.role == "assistant"
    ensures var k := FirstTurn(b);
            Run(START, Steps(h + [m] + b))
            == Run(Run(Run(Run(START, Steps(h)), [Turn] + AsCalls(IdList(m.toolCalls))),
                       AsResults(ToolIds(b[..k]))),
                   Steps(b[k..]))
  {
    var k := FirstTurn(b);
    ReplySteps(m);
    NoTurnSteps(b[..k]);
    hide Steps, Run, AsResults, AsCalls, IdList, FirstTurn, ToolIds;
    StepsOfParts(h, [m], b, k);
    RunParts(Steps(h), Steps([m]), Steps(b[..k]), Steps(b[k..]));
  }

  lemma {:induction false} StepsOfParts(a: seq<Message>, b: seq<Message>, c: seq<Message>, k: nat)
    requires k <= |c|
    ensures Steps(a + b + c) == Steps(a) + Steps(b) + (Steps(c[..k]) + Steps(c[k..]))
  {
    hide Steps;
    StepsAppend(a + b, c);
    StepsAppend(a, b);
    StepsAppend(c[..k], c[k..]);
    assert c == c[..k] + c[k..];
  }

  lemma {:induction false} RunParts(a: seq<Step>, b: seq<Step>, c: seq<Step>, d: seq<Step>)
    ensures Run(START, a + b + (c + d)) == Run(Run(Run(Run(START, a), b), c), d)
  {
    hide Run;
    RunAppend(START, a + b, c + d);
    RunAppend(START, a, b);
    RunAppend(Run(START, a + b), c, d);
  }

  /** The results of some calls, and nothing else. */
  function AnswersTo(ids: seq<string>): (r: seq<Message>)
    ensures |r| == |ids| && forall i :: 0 <= i < |r| ==> r[i] == Message("tool", Null, ids[i], [])
  {
    seq(|ids|, i requires 0 <= i < |ids| => Message("tool", Null, ids[i], []))
  }

  lemma {:induction false} AnswersToAnswer(ids: seq<string>)
    ensures ToolIds(AnswersTo(ids)) == ids
  {
    if ids != [] {
      var front := ids[..|ids| - 1];
      assert AnswersTo(ids)[..|ids| - 1] == AnswersTo(front);
      AnswersToAnswer(front);
    }
  }

  /** A kept history can be continued at all exactly when its reply made new calls. */
  lemma ResumableIff(h: seq<Message>, m: Message)
    requires Accepts(h) && m.role == "assistant"
    ensures (exists b :: Accepts(h + [m] + b)) <==> NewCalls(h, IdList(m.toolCalls))
  {
    var ids := IdList(m.toolCalls);
    if b :| Accepts(h + [m] + b) {
      FollowUpAcceptedIff(h, m, b);
    }
    if NewCalls(h, ids) {
      var b := AnswersTo(ids);
      FollowUpAcceptedIff(h, m, b);
      AnswersToAnswer(ids);
      assert FirstTurn(b) == |b| && b[..|b|] == b && b[|b|..] == [];
      NothingSaid({}, {});
    }
  }

  // ----- Fenced calls have no scope

  function AsCallList(calls: seq<Tools.ToolCall>): (r: seq<Call>)
    ensures |r| == |calls|
    ensures forall i :: 0 <= i < |r| ==> r[i] == Call(calls[i].id, calls[i].kind, calls[i].name, calls[i].arguments)
  {
    seq(|calls|, i requires 0 <= i < |calls| => Call(calls[i].id, calls[i].kind, calls[i].name, calls[i].arguments))
  }

  lemma CallIdHeld(h: seq<Message>, i: nat, j: nat)
    requires i < |h| && h[i].role == "assistant" && j < |h[i].toolCalls|
    ensures h[i].toolCalls[j].id in CallIds(Steps(h))
  {
    var a, b := h[..i], h[i + 1..];
    assert h == a + [h[i]] + b;
    StepsAppend(a + [h[i]], b);
    StepsAppend(a, [h[i]]);
    IdsAppend(Steps(a + [h[i]]), Steps(b));
    IdsAppend(Steps(a), Steps([h[i]]));
    ReplySteps(h[i]);
    var s := [Turn] + AsCalls(IdList(h[i].toolCalls));
    assert s[j + 1] == Calls(h[i].toolCalls[j].id);
  }

  /** The id of a fenced call is made of its place, name and arguments only. So once a kept
      history holds a fenced call, a reply that makes the same call in the same place ends the
      chain: nothing that follows is ever accepted. */
  lemma {:induction false} RepeatedFencedCallEndsChain(
      h: seq<Message>, i: nat, k: nat, ms: seq<FencedTools.Match>, ms': seq<FencedTools.Match>,
      tools: seq<Json>, tools': seq<Json>, choice: Json, choice': Json,
      canon: string -> Option<string>, callID: (string, string, nat) -> string, b: seq<Message>)
    requires Accepts(h) && i < |h|
    requires var made := FencedTools.FencedCalls(ms, tools, choice, canon, callID);
             h[i] == Answer(Reply(AsCallList(made), "")) && k < |made|
    requires var made, again := FencedTools.FencedCalls(ms, tools, choice, canon, callID),
                                FencedTools.FencedCalls(ms', tools', choice', canon, callID);
             k < |again| && again[k].name == made[k].name && again[k].arguments == made[k].arguments
    ensures var again := FencedTools.FencedCalls(ms', tools', choice', canon, callID);
            !Accepts(h + [Answer(Reply(AsCallList(again), ""))] + b)
  {
    var made, again := FencedTools.FencedCalls(ms, tools, choice, canon, callID),
                       FencedTools.FencedCalls(ms', tools', choice', canon, callID);
    FencedTools.FencedCallsExactly(ms, tools, choice, canon, callID);
    FencedTools.FencedCallsExactly(ms', tools', choice', canon, callID);
    assert again[k].id == made[k].id;
    hide FencedTools.FencedCalls, Steps, CallIds, Accepts;
    CallIdHeld(h, i, k);
    var m := Answer(Reply(AsCallList(again), ""));
    assert IdList(m.toolCalls)[k] == again[k].id;
    FollowUpAcceptedIff(h, m, b);
  }

  const TOOLS := [Object(map["function" := Object(map["name" := Text("f")])])]

  lemma OneFencedCall(m: FencedTools.Match, canon: string -> Option<string>, callID: (string, string, nat) -> string)
    requires m.name == "f" && canon(m.body).Some?
    ensures FencedTools.FencedCalls([m], TOOLS, Null, canon, callID)
            == [Tools.ToolCall(callID("f", canon(m.body).value, 0), "function", "f", canon(m.body).value)]
  {
    assert TOOLS[0].Get("function").Get("name").AsText() == "f";
    assert "f" in Tools.AllowedNames(TOOLS) by { assert Tools.DeclaresName(TOOLS[0], "f"); }
    assert TOOLS[1..] == [] && Tools.ToolType("f", []) == "function";
    assert TOOLS[0].Get("type").AsText() == "";
    assert Tools.ToolType("f", TOOLS) == "function";
    assert FencedTools.Accepts(m, TOOLS, Null, canon);
    var before := FencedTools.FencedCalls([], TOOLS, Null, canon, callID);
    assert before == [] && [m][..0] == [];
    var c := FencedTools.CallOf(m, 0, TOOLS, canon, callID);
    assert c == Tools.ToolCall(callID("f", canon(m.body).value, 0), "function", "f", canon(m.body).value);
    assert before + [c] == [c];
  }

  /** It takes one call, answered as it should be, and the same block again. */
  lemma RepeatedFencedCallHappens(m: FencedTools.Match, canon: string -> Option<string>,
                                  callID: (string, string, nat) -> string, b: seq<Message>)
    requires m.name == "f" && canon(m.body).Some? && callID("f", canon(m.body).value, 0) != ""
    ensures var made := FencedTools.FencedCalls([m], TOOLS, Null, canon, callID);
            var reply := Answer(Reply(AsCallList(made), ""));
            && |made| == 1
            && Accepts([reply, Message("tool", Text("done"), made[0].id, [])])
            && !Accepts([reply, Message("tool", Text("done"), made[0].id, [])] + [reply] + b)
  {
    var made := FencedTools.FencedCalls([m], TOOLS, Null, canon, callID);
    OneFencedCall(m, canon, callID);
    var id := made[0].id;
    var reply := Answer(Reply(AsCallList(made), ""));
    var h := [reply, Message("tool", Text("done"), id, [])];
    OneCallAnswered(reply, id);
    RepeatedFencedCallEndsChain(h, 0, 0, [m], [m], TOOLS, TOOLS, Null, Null, canon, callID, b);
  }

  lemma {:induction false} OneCallAnswered(reply: Message, id: string)
    requires reply.role == "assistant" && |reply.toolCalls| == 1 && reply.toolCalls[0].id == id != ""
    ensures Accepts([reply, Message("tool", Text("done"), id, [])])
  {
    var result := Message("tool", Text("done"), id, []);
    ReplySteps(reply);
    ResultSteps(result);
    TwoSteps(reply, result);
    assert IdList(reply.toolCalls) == [id] && Members([id]) == {id};
    assert {id} - {id} == {};
    hide Steps, Run, AsCalls, IdList, Members;
    RunTurn({}, [id]);
    RunOne(START, [Turn] + AsCalls([id]), Result(id));
    assert Run(START, Steps([reply, result])) == Open({}, {} + {id});
  }

  lemma {:induction false} TwoSteps(a: Message, b: Message)
    ensures Steps([a, b]) == Steps([a]) + Steps([b])
  {
    hide Steps;
    assert [a, b] == [a] + [b];
    StepsAppend([a], [b]);
  }

  lemma ResultSteps(m: Message)
    requires m.role == "tool"
    ensures Steps([m]) == [Result(m.toolCallId)]
  {
    assert [m][..0] == [];
  }

  // ----- Native calls have not even a place

  /** The id of a native call of an answer that is not streamed is made of its name and arguments
      only. */
  predicate NativeIds(calls: seq<Call>, idOf: (string, string) -> string) {
    forall i :: 0 <= i < |calls| ==> calls[i].id == idOf(calls[i].name, calls[i].arguments)
  }

  predicate SameCall(a: Call, b: Call) {
    a.name == b.name && a.arguments == b.arguments
  }

  /** A native reply repeats a call, of its own or of an earlier native reply. */
  ghost predicate RepeatsNative(h: seq<Message>, calls: seq<Call>, idOf: (string, string) -> string) {
    || (exists j, k :: 0 <= j < k < |calls| && SameCall(calls[j], calls[k]))
    || (exists i, j, k :: && 0 <= i < |h| && h[i].role == "assistant" && NativeIds(h[i].toolCalls, idOf)
                          && 0 <= j < |h[i].toolCalls| && 0 <= k < |calls| && SameCall(h[i].toolCalls[j], calls[k]))
  }

  /** So a native reply that makes a call twice, or that makes a call of an earlier native reply
      again, in whatever place, cannot be continued. */
  lemma RepeatedNativeCallEndsChain(h: seq<Message>, calls: seq<Call>, idOf: (string, string) -> string)
    requires Accepts(h) && calls != [] && NativeIds(calls, idOf) && RepeatsNative(h, calls, idOf)
    ensures !exists b :: Accepts(h + [Answer(Reply(calls, ""))] + b)
  {
    var m, ids := Answer(Reply(calls, "")), IdList(calls);
    ResumableIff(h, m);
    if j, k :| 0 <= j < k < |calls| && SameCall(calls[j], calls[k]) {
      assert ids[j] == ids[k];
    } else {
      var i, j, k :| && 0 <= i < |h| && h[i].role == "assistant" && NativeIds(h[i].toolCalls, idOf)
                     && 0 <= j < |h[i].toolCalls| && 0 <= k < |calls| && SameCall(h[i].toolCalls[j], calls[k]);
      CallIdHeld(h, i, j);
      assert ids[k] in Members(ids) && ids[k] in CallIds(Steps(h));
    }
    hide Steps, CallIds, Accepts;
  }

  /** Two equal calls in the very first reply are enough. */
  lemma RepeatedNativeCallHappens(name: string, arguments: string, idOf: (string, string) -> string)
    ensures var c := Call(idOf(name, arguments), "function", name, arguments);
            !exists b :: Accepts([] + [Answer(Reply([c, c], ""))] + b)
  {
    var c := Call(idOf(name, arguments), "function", name, arguments);
    NothingSaid({}, {});
    assert SameCall([c, c][0], [c, c][1]);
    RepeatedNativeCallEndsChain([], [c, c], idOf);
  }
}
