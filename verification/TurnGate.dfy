/** Whether another turn may be made, and which calls of it are new. */
module TurnGate {
  import opened Json
  import opened Bytes
  import opened Conversation
  import opened Ledger
  import opened LedgerEvidence
  import opened Sequences
  import opened Tools

  // ----- The ledger of an accepted conversation

  /** Completed and pending evidence partition the calls, in call order. */
  lemma {:induction false} LedgerPartitionsCalls(msgs: seq<Message>, env: Env)
    requires Accepts(msgs)
    ensures var l, es := LedgerOf(msgs, env), EvidenceFor(msgs, AllCalls(msgs), env);
            && l.completed == Keep(es, false) && l.pending == Keep(es, true)
            && l.toolRounds == |AllCalls(msgs)| == |l.completed| + |l.pending|
  {
    assert [] + msgs == msgs;
    LedgerTells([], msgs, env);
    TallyPartitions(EvidenceFor(msgs, AllCalls(msgs), env), env);
  }

  lemma CallIsAnswered(msgs: seq<Message>, i: nat)
    requires Accepts(msgs) && i < |AllCalls(msgs)|
    ensures AnswerTo(msgs, AllCalls(msgs)[i].id).Some?
  {
    var c, s := AllCalls(msgs)[i], Steps(msgs);
    MachineFollowsProtocol(s);
    CalledIffCall(msgs);
    assert c.id in IdsOf(AllCalls(msgs));
    assert CallIds(s) - ResultIds(s) == {};
    AnsweredIffResult(msgs, c.id);
  }

  /** A call of an accepted conversation is pending exactly when its result is blank. */
  lemma PendingIffBlank(msgs: seq<Message>, i: nat, env: Env)
    requires Accepts(msgs) && i < |AllCalls(msgs)|
    ensures var c := AllCalls(msgs)[i];
            && AnswerTo(msgs, c.id).Some?
            && (EvidenceOf(msgs, c, env).result == ""
                <==> Trim(ContentToString(AnswerTo(msgs, c.id).value, env)) == "")
  {
    var c := AllCalls(msgs)[i];
    CallIsAnswered(msgs, i);
    CompactBlank(ContentToString(AnswerTo(msgs, c.id).value, env), RESULT_LIMIT);
  }

  predicate PlainNames(calls: seq<Call>) {
    forall i :: 0 <= i < |calls| ==> '\0' !in calls[i].name
  }

  ghost predicate TwoCallsAlike(calls: seq<Call>) {
    exists i, j :: 0 <= i < j < |calls| && calls[i].name == calls[j].name && calls[i].arguments == calls[j].arguments
  }

  /** For names without NUL, a repeated call is reported exactly when two calls share name and
      arguments; and for arguments without NUL, a repeated failure is a repeated call. */
  lemma RepetitionIsReal(msgs: seq<Message>, env: Env)
    requires Accepts(msgs) && PlainNames(AllCalls(msgs))
    ensures LedgerOf(msgs, env).repeatedCall <==> TwoCallsAlike(AllCalls(msgs))
    ensures (forall i :: 0 <= i < |AllCalls(msgs)| ==> '\0' !in AllCalls(msgs)[i].arguments) ==>
              LedgerOf(msgs, env).repeatedFailure ==> TwoCallsAlike(AllCalls(msgs))
    ensures (forall i :: 0 <= i < |AllCalls(msgs)| ==> '\0' !in AllCalls(msgs)[i].arguments) ==>
              (LedgerOf(msgs, env).repeatedFailure <==> TwoFailAlike(EvidenceFor(msgs, AllCalls(msgs), env), env))
  {
    var cs := AllCalls(msgs);
    assert [] + msgs == msgs;
    LedgerTells([], msgs, env);
    hide AllCalls, LedgerOf, Tally, Accepts, TwoFailAlike;
    EvidenceAlike(msgs, cs, env);
  }

  lemma EvidenceAlike(msgs: seq<Message>, cs: seq<Call>, env: Env)
    requires PlainNames(cs)
    ensures Tally(EvidenceFor(msgs, cs, env), env).repeatedCall <==> TwoCallsAlike(cs)
    ensures (forall i :: 0 <= i < |cs| ==> '\0' !in cs[i].arguments) ==>
              Tally(EvidenceFor(msgs, cs, env), env).repeatedFailure ==> TwoCallsAlike(cs)
    ensures (forall i :: 0 <= i < |cs| ==> '\0' !in cs[i].arguments) ==>
              (Tally(EvidenceFor(msgs, cs, env), env).repeatedFailure <==> TwoFailAlike(EvidenceFor(msgs, cs, env), env))
  {
    var es := EvidenceFor(msgs, cs, env);
    forall i | 0 <= i < |cs| ensures es[i].name == cs[i].name && es[i].arguments == cs[i].arguments {}
    hide Tally, EvidenceOf;
    RepeatedCallIffTwoAlike(es, env);
    if forall i :: 0 <= i < |cs| ==> '\0' !in cs[i].arguments {
      RepeatedFailureIsRepeatedCall(es, env);
      RepeatedFailureIffTwoFailAlike(es, env);
    }
    AlikeAlike(es, cs);
    hide TwoAlike, TwoCallsAlike, TwoFailAlike;
  }

  lemma AlikeAlike(es: seq<Evidence>, cs: seq<Call>)
    requires |es| == |cs|
    requires forall i :: 0 <= i < |cs| ==> es[i].name == cs[i].name && es[i].arguments == cs[i].arguments
    ensures TwoAlike(es) <==> TwoCallsAlike(cs)
  {
    if TwoAlike(es) {
      var i, j :| 0 <= i < j < |es| && SameCall(es[i], es[j]);
      assert cs[i].name == cs[j].name && cs[i].arguments == cs[j].arguments;
    }
    if TwoCallsAlike(cs) {
      var i, j :| 0 <= i < j < |cs| && cs[i].name == cs[j].name && cs[i].arguments == cs[j].arguments;
      assert SameCall(es[i], es[j]);
    }
  }

  // ----- The active turn

  function LastUser(msgs: seq<Message>): (r: int)
    ensures -1 <= r < |msgs|
    ensures r >= 0 ==> msgs[r].role == "user"
    ensures forall i :: r < i < |msgs| ==> msgs[i].role != "user"
  {
    if msgs == [] then -1
    else if msgs[|msgs| - 1].role == "user" then |msgs| - 1
    else LastUser(msgs[..|msgs| - 1])
  }

  function Active(msgs: seq<Message>): seq<Message> {
    if LastUser(msgs) <= 0 then msgs else msgs[LastUser(msgs)..]
  }

  /** The active turn begins at `u`: with the last user message, or with the conversation if no
      message but perhaps its first is a user's. */
  predicate TurnBegins(msgs: seq<Message>, u: int) {
    && 0 <= u <= |msgs|
    && (forall i :: u < i < |msgs| ==> msgs[i].role != "user")
    && (u == 0 || (u < |msgs| && msgs[u].role == "user"))
  }

  lemma ActiveBegins(msgs: seq<Message>, u: nat)
    requires TurnBegins(msgs, u)
    ensures Active(msgs) == msgs[u..]
  {
  }

  method ActiveMessages(msgs: seq<Message>) returns (r: seq<Message>)
    ensures r == Active(msgs)
    ensures forall u :: TurnBegins(msgs, u) ==> r == msgs[u..]
    ensures exists u :: TurnBegins(msgs, u)
  {
    ghost var begin := if LastUser(msgs) <= 0 then 0 else LastUser(msgs);
    assert TurnBegins(msgs, begin);
    forall u | TurnBegins(msgs, u) ensures Active(msgs) == msgs[u..] { ActiveBegins(msgs, u); }
    hide TurnBegins;
    var last := -1;
    for i := 0 to |msgs|
      invariant last == LastUser(msgs[..i])
    {
      assert msgs[..i + 1][..i] == msgs[..i];
      if msgs[i].role == "user" {
        last := i;
      }
    }
    assert msgs[..|msgs|] == msgs;
    if last <= 0 {
      return msgs;
    }
    return msgs[last..];
  }

  /** The calls made since a point of an accepted conversation are told by what follows alone. */
  lemma SuffixTells(a: seq<Message>, b: seq<Message>, i: nat, env: Env)
    requires Accepts(a + b) && i < |AllCalls(b)|
    ensures EvidenceOf(b, AllCalls(b)[i], env) == EvidenceOf(a + b, AllCalls(b)[i], env)
  {
    var id := AllCalls(b)[i].id;
    CallsAppend(a, b);
    assert [] + (a + b) == a + b;
    GatherTells([], a + b, env);
    assert DistinctIds(AllCalls(a) + AllCalls(b));
    forall j | 0 <= j < |AllCalls(a)| ensures AllCalls(a)[j].id != id {
      assert (AllCalls(a) + AllCalls(b))[j].id != (AllCalls(a) + AllCalls(b))[|AllCalls(a)| + i].id;
    }
    LegalPrefix(a, b);
    MachineFollowsProtocol(Steps(a));
    CalledIffCall(a);
    AnsweredIffResult(a, id);
    assert id !in IdsOf(AllCalls(a));
  }

  /** The ledger of the active turn counts exactly the calls from its beginning on, and says of
      them what the whole conversation says. */
  lemma ActiveLedger(msgs: seq<Message>, u: nat, env: Env)
    requires Accepts(msgs) && TurnBegins(msgs, u)
    ensures var cs := AllCalls(msgs[u..]);
            var l, es := LedgerOf(Active(msgs), env), EvidenceFor(msgs, cs, env);
            && l.toolRounds == |cs|
            && l.completed == Keep(es, false) && l.pending == Keep(es, true)
  {
    var before, act := msgs[..u], msgs[u..];
    ActiveBegins(msgs, u);
    assert msgs == before + act;
    hide Active, TurnBegins;
    LedgerTells(before, act, env);
    forall i | 0 <= i < |AllCalls(act)|
      ensures EvidenceOf(act, AllCalls(act)[i], env) == EvidenceOf(msgs, AllCalls(act)[i], env)
    {
      SuffixTells(before, act, i, env);
    }
    assert EvidenceFor(act, AllCalls(act), env) == EvidenceFor(msgs, AllCalls(act), env);
    TallyPartitions(EvidenceFor(msgs, AllCalls(act), env), env);
  }

  // ----- `CanContinue`

  datatype Refusal = RoundLimit(rounds: int) | ResultsPending

  function CanContinue(l: AgentLedger, maxRounds: int): Option<Refusal> {
    var limit := if maxRounds <= 0 then 32 else maxRounds;
    if l.toolRounds >= limit then Some(RoundLimit(limit))
    else if |l.pending| > 0 then Some(ResultsPending)
    else None
  }

  lemma {:induction false} KeepsNone(es: seq<Evidence>)
    ensures Keep(es, true) == [] <==> forall i :: 0 <= i < |es| ==> es[i].result != ""
  {
    if es != [] {
      KeepsNone(es[..|es| - 1]);
      assert forall i :: 0 <= i < |es| ==> es[i] == if i == |es| - 1 then es[|es| - 1] else es[..|es| - 1][i];
    }
  }

  predicate AnsweredWithText(msgs: seq<Message>, c: Call, env: Env) {
    AnswerTo(msgs, c.id).Some? && Trim(ContentToString(AnswerTo(msgs, c.id).value, env)) != ""
  }

  /** An accepted conversation may go on exactly when its active turn has made fewer calls than
      the limit, and none of them has been answered with a blank result; below the limit, a blank
      result is the reason for the refusal. */
  lemma GateOpensIff(msgs: seq<Message>, u: nat, maxRounds: int, env: Env)
    requires Accepts(msgs) && TurnBegins(msgs, u)
    ensures var cs := AllCalls(msgs[u..]);
            CanContinue(LedgerOf(Active(msgs), env), maxRounds).None?
            <==> && |cs| < (if maxRounds <= 0 then 32 else maxRounds)
                 && forall i :: 0 <= i < |cs| ==> AnsweredWithText(msgs, cs[i], env)
    ensures CanContinue(LedgerOf(Active(msgs), env), maxRounds) == Some(ResultsPending)
            <==> && |AllCalls(msgs[u..])| < (if maxRounds <= 0 then 32 else maxRounds)
                 && exists i :: 0 <= i < |AllCalls(msgs[u..])| && !AnsweredWithText(msgs, AllCalls(msgs[u..])[i], env)
    ensures var limit := if maxRounds <= 0 then 32 else maxRounds;
            CanContinue(LedgerOf(Active(msgs), env), maxRounds) == Some(RoundLimit(limit))
            <==> |AllCalls(msgs[u..])| >= limit
  {
    var cs := AllCalls(msgs[u..]);
    ActiveLedger(msgs, u, env);
    KeepsNone(EvidenceFor(msgs, cs, env));
    ActiveAnswered(msgs, u, env);
    hide Active, AllCalls, LedgerOf, Keep, AnsweredWithText, EvidenceOf, TurnBegins;
  }

  lemma {:induction false} ActiveAnsweredAt(before: seq<Message>, act: seq<Message>, i: nat, env: Env)
    requires Accepts(before + act) && i < |AllCalls(act)|
    ensures var c := AllCalls(act)[i];
            EvidenceOf(before + act, c, env).result != "" <==> AnsweredWithText(before + act, c, env)
  {
    CallsAppend(before, act);
    var k := |AllCalls(before)| + i;
    assert AllCalls(before + act)[k] == AllCalls(act)[i];
    hide AllCalls, AnswerTo;
    PendingIffBlank(before + act, k, env);
  }

  lemma {:induction false} ActiveAnswered(msgs: seq<Message>, u: nat, env: Env)
    requires Accepts(msgs) && u <= |msgs|
    ensures var cs := AllCalls(msgs[u..]);
            forall i :: 0 <= i < |cs| ==>
              (EvidenceFor(msgs, cs, env)[i].result != "" <==> AnsweredWithText(msgs, cs[i], env))
  {
    var before, act := msgs[..u], msgs[u..];
    assert msgs == before + act;
    var cs := AllCalls(act);
    hide AllCalls, AnsweredWithText, EvidenceOf, Accepts;
    forall i | 0 <= i < |cs|
      ensures EvidenceFor(msgs, cs, env)[i].result != "" <==> AnsweredWithText(msgs, cs[i], env)
    {
      ActiveAnsweredAt(before, act, i, env);
    }
  }

  // ----- `filterCompletedCalls`

  /** `canon` is the canonical form of JSON arguments. */
  predicate HasCompleted(l: AgentLedger, name: string, arguments: string, canon: string -> string) {
    exists i :: 0 <= i < |l.completed|
      && l.completed[i].name == name && canon(l.completed[i].arguments) == canon(arguments)
  }

  function NotCompleted(calls: seq<ToolCall>, l: AgentLedger, canon: string -> string): (r: seq<ToolCall>)
    ensures |r| <= |calls|
    ensures forall c :: c in r <==> c in calls && !HasCompleted(l, c.name, c.arguments, canon)
  {
    if calls == [] then []
    else
      var c := calls[|calls| - 1];
      NotCompleted(calls[..|calls| - 1], l, canon)
      + if HasCompleted(l, c.name, c.arguments, canon) then [] else [c]
  }

  /** Filters in place: the first `n` elements are the calls not yet completed, in order. */
  method FilterCompletedCalls(calls: array<ToolCall>, l: AgentLedger, canon: string -> string) returns (n: nat)
    modifies calls
    ensures n <= calls.Length && calls[..n] == NotCompleted(old(calls[..]), l, canon)
  {
    hide HasCompleted, NotCompleted;
    n := 0;
    ghost var all := calls[..];
    NothingFiltered(l, canon);
    for i := 0 to calls.Length
      invariant n <= i && calls[..n] == NotCompleted(all[..i], l, canon)
      invariant forall k :: i <= k < calls.Length ==> calls[k] == all[k]
    {
      assert all[..i + 1] == all[..i] + [all[i]];
      FilterNext(all[..i], all[i], l, canon);
      if !HasCompleted(l, calls[i].name, calls[i].arguments, canon) {
        ghost var kept := calls[..n];
        calls[n] := calls[i];
        assert calls[..n + 1] == kept + [all[i]];
        n := n + 1;
      }
    }
    assert all[..calls.Length] == all;
  }

  lemma NothingFiltered(l: AgentLedger, canon: string -> string)
    ensures NotCompleted([], l, canon) == []
  {
  }

  lemma FilterNext(p: seq<ToolCall>, c: ToolCall, l: AgentLedger, canon: string -> string)
    ensures NotCompleted(p + [c], l, canon)
            == if HasCompleted(l, c.name, c.arguments, canon) then NotCompleted(p, l, canon)
               else NotCompleted(p, l, canon) + [c]
  {
    assert (p + [c])[..|p|] == p;
  }

  /** Which calls are not yet completed. */
  ghost function NewFlags(calls: seq<ToolCall>, l: AgentLedger, canon: string -> string): (r: seq<bool>)
    ensures |r| == |calls|
    ensures forall i :: 0 <= i < |calls| ==> r[i] == !HasCompleted(l, calls[i].name, calls[i].arguments, canon)
  {
    seq(|calls|, i requires 0 <= i < |calls| => !HasCompleted(l, calls[i].name, calls[i].arguments, canon))
  }

  /** They keep their order, and each stays as often as it was there. */
  lemma {:induction false} NotCompletedInOrder(calls: seq<ToolCall>, l: AgentLedger, canon: string -> string)
    ensures NotCompleted(calls, l, canon) == Selected(calls, NewFlags(calls, l, canon))
  {
    hide HasCompleted, Selected, NewFlags;
    if calls == [] {
      NoneSelected(calls, NewFlags(calls, l, canon));
    } else {
      var front, c := calls[..|calls| - 1], calls[|calls| - 1];
      var isNew := !HasCompleted(l, c.name, c.arguments, canon);
      assert calls == front + [c];
      NotCompletedInOrder(front, l, canon);
      SelectedNext(front, NewFlags(front, l, canon), c, isNew);
      assert NewFlags(calls, l, canon) == NewFlags(front, l, canon) + [isNew];
    }
  }

  lemma NoneSelected(calls: seq<ToolCall>, flags: seq<bool>)
    requires calls == [] && flags == []
    ensures Selected(calls, flags) == []
  {
  }

  /** A call of the conversation completed it: it has the name and, in canonical form, the
      arguments, and was answered with a result that is not blank. */
  ghost predicate CompletedBy(msgs: seq<Message>, call: Call, c: ToolCall, env: Env, canon: string -> string) {
    call.name == c.name && canon(call.arguments) == canon(c.arguments) && AnsweredWithText(msgs, call, env)
  }

  /** Of an accepted conversation, exactly those calls are filtered out that it has completed. */
  lemma FilteredIff(msgs: seq<Message>, calls: seq<ToolCall>, c: ToolCall, env: Env, canon: string -> string)
    requires Accepts(msgs)
    ensures c in NotCompleted(calls, LedgerOf(msgs, env), canon)
            <==> c in calls && !exists i :: 0 <= i < |AllCalls(msgs)| && CompletedBy(msgs, AllCalls(msgs)[i], c, env, canon)
  {
    var cs, l := AllCalls(msgs), LedgerOf(msgs, env);
    if HasCompleted(l, c.name, c.arguments, canon) {
      CompletedHasCall(msgs, c, env, canon);
    }
    if i :| 0 <= i < |cs| && CompletedBy(msgs, cs[i], c, env, canon) {
      CallHasCompleted(msgs, i, c, env, canon);
    }
    hide HasCompleted, AllCalls, LedgerOf, NotCompleted, CompletedBy, Accepts;
  }

  /** What is completed is a call answered with text. */
  lemma CompletedEvidence(msgs: seq<Message>, env: Env)
    requires Accepts(msgs)
    ensures var cs, es := AllCalls(msgs), EvidenceFor(msgs, AllCalls(msgs), env);
            && (forall e :: e in LedgerOf(msgs, env).completed <==> e in es && e.result != "")
            && forall i :: 0 <= i < |cs| ==>
                 && es[i].name == cs[i].name && es[i].arguments == cs[i].arguments
                 && (es[i].result != "" <==> AnsweredWithText(msgs, cs[i], env))
  {
    var cs, es := AllCalls(msgs), EvidenceFor(msgs, AllCalls(msgs), env);
    LedgerPartitionsCalls(msgs, env);
    KeepMembers(es, false);
    forall i | 0 <= i < |cs| ensures es[i].result != "" <==> AnsweredWithText(msgs, cs[i], env) {
      PendingIffBlank(msgs, i, env);
    }
    forall i | 0 <= i < |cs| ensures es[i].name == cs[i].name && es[i].arguments == cs[i].arguments {}
    hide AllCalls, LedgerOf, Accepts, AnsweredWithText, EvidenceOf, Keep;
  }

  lemma CompletedHasCall(msgs: seq<Message>, c: ToolCall, env: Env, canon: string -> string)
    requires Accepts(msgs) && HasCompleted(LedgerOf(msgs, env), c.name, c.arguments, canon)
    ensures exists i :: 0 <= i < |AllCalls(msgs)| && CompletedBy(msgs, AllCalls(msgs)[i], c, env, canon)
  {
    CompletedEvidence(msgs, env);
    hide AllCalls, LedgerOf, Accepts, AnsweredWithText, EvidenceOf;
    var cs, es, done := AllCalls(msgs), EvidenceFor(msgs, AllCalls(msgs), env), LedgerOf(msgs, env).completed;
    var k :| 0 <= k < |done| && done[k].name == c.name && canon(done[k].arguments) == canon(c.arguments);
    assert done[k] in done;
    var i :| 0 <= i < |es| && es[i] == done[k];
    assert CompletedBy(msgs, cs[i], c, env, canon);
  }

  lemma CallHasCompleted(msgs: seq<Message>, i: nat, c: ToolCall, env: Env, canon: string -> string)
    requires Accepts(msgs) && i < |AllCalls(msgs)| && CompletedBy(msgs, AllCalls(msgs)[i], c, env, canon)
    ensures HasCompleted(LedgerOf(msgs, env), c.name, c.arguments, canon)
  {
    CompletedEvidence(msgs, env);
    hide AllCalls, LedgerOf, Accepts, AnsweredWithText, EvidenceOf;
    var es, done := EvidenceFor(msgs, AllCalls(msgs), env), LedgerOf(msgs, env).completed;
    assert es[i] in es && es[i] in done;
    var k :| 0 <= k < |done| && done[k] == es[i];
  }

  lemma {:induction false} KeepMembers(es: seq<Evidence>, blank: bool)
    ensures forall e :: e in Keep(es, blank) <==> e in es && (e.result == "") == blank
  {
    if es != [] {
      var front, last := es[..|es| - 1], es[|es| - 1];
      KeepMembers(front, blank);
      assert es == front + [last];
      forall e ensures e in es <==> e in front || e == last {}
    }
  }

  lemma ResultsApart(s: seq<Step>, t: seq<Step>)
    requires DistinctResults(s + t)
    ensures ResultIds(s) !! ResultIds(t)
  {
    forall i, j | 0 <= i < |s| && s[i].Result? && 0 <= j < |t| && t[j].Result? ensures s[i].id != t[j].id {
      assert (s + t)[i] == s[i] && (s + t)[|s| + j] == t[j];
    }
  }

  lemma LegalResultsDistinct(a: seq<Message>, b: seq<Message>)
    requires Legal(a + b)
    ensures DistinctResults(Steps(a) + Steps(b))
  {
    StepsAppend(a, b);
    MachineFollowsProtocol(Steps(a + b));
    hide Steps, Run;
  }

  lemma {:induction false} NewResultAnswersNone(a: seq<Message>, b: seq<Message>, id: string)
    requires Legal(a + b) && AnswerTo(a, id).Some?
    ensures AnswerTo(b, id).None?
  {
    hide AnswerTo, Run, Steps, ResultIds, DistinctResults, Legal;
    AnsweredIffResult(a, id);
    AnsweredIffResult(b, id);
    LegalResultsDistinct(a, b);
    ResultsApart(Steps(a), Steps(b));
  }

  /** The answer to a call of an accepted conversation is the content of the one tool message that
      names it. */
  lemma {:induction false} AnswerIsContent(msgs: seq<Message>, k: nat)
    requires Accepts(msgs) && k < |msgs| && msgs[k].role == "tool"
    ensures AnswerTo(msgs, msgs[k].toolCallId) == Some(msgs[k].content)
  {
    var id, a, b := msgs[k].toolCallId, msgs[..k + 1], msgs[k + 1..];
    assert msgs == a + b;
    CallsAppend(a, b);
    assert AnswerTo(a, id) == Some(msgs[k].content);
    hide AnswerTo, Steps, Run;
    NewResultAnswersNone(a, b, id);
  }
}
