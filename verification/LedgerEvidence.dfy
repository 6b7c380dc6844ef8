/** The ledger of a conversation that the validator lets through. */
module LedgerEvidence {
  import opened Json
  import opened Conversation
  import opened Ledger

  // ----- Steps and messages

  function IdsOf(calls: seq<Call>): set<string> {
    set i | 0 <= i < |calls| :: calls[i].id
  }

  predicate DistinctIds(calls: seq<Call>) {
    forall i, j :: 0 <= i < j < |calls| ==> calls[i].id != calls[j].id
  }

  lemma IdsAppend(a: seq<Step>, b: seq<Step>)
    ensures CallIds(a + b) == CallIds(a) + CallIds(b)
    ensures ResultIds(a + b) == ResultIds(a) + ResultIds(b)
  {
    var s := a + b;
    assert forall i :: 0 <= i < |a| ==> s[i] == a[i];
    assert forall i :: 0 <= i < |b| ==> s[|a| + i] == b[i];
    forall id | id in CallIds(a) + CallIds(b) ensures id in CallIds(s) {
      if id in CallIds(a) {
        var i :| 0 <= i < |a| && a[i].Calls? && a[i].id == id;
        assert s[i].Calls? && s[i].id == id;
      } else {
        var i :| 0 <= i < |b| && b[i].Calls? && b[i].id == id;
        assert s[|a| + i].Calls? && s[|a| + i].id == id;
      }
    }
    forall id | id in ResultIds(a) + ResultIds(b) ensures id in ResultIds(s) {
      if id in ResultIds(a) {
        var i :| 0 <= i < |a| && a[i].Result? && a[i].id == id;
        assert s[i].Result? && s[i].id == id;
      } else {
        var i :| 0 <= i < |b| && b[i].Result? && b[i].id == id;
        assert s[|a| + i].Result? && s[|a| + i].id == id;
      }
    }
    forall id | id in CallIds(s) ensures id in CallIds(a) + CallIds(b) {
      var i :| 0 <= i < |s| && s[i].Calls? && s[i].id == id;
      assert s[i] == if i < |a| then a[i] else b[i - |a|];
    }
    forall id | id in ResultIds(s) ensures id in ResultIds(a) + ResultIds(b) {
      var i :| 0 <= i < |s| && s[i].Result? && s[i].id == id;
      assert s[i] == if i < |a| then a[i] else b[i - |a|];
    }
  }

  lemma MessageIds(m: Message)
    ensures CallIds(StepsOf(m)) == if m.role == "assistant" then IdsOf(m.toolCalls) else {}
    ensures ResultIds(StepsOf(m)) == if m.role == "tool" then {m.toolCallId} else {}
  {
    var s := StepsOf(m);
    if m.role == "assistant" {
      forall i | 0 <= i < |m.toolCalls| ensures m.toolCalls[i].id in CallIds(s) {
        assert s[i + 1] == Calls(m.toolCalls[i].id);
      }
    } else if m.role == "tool" {
      assert s[0] == Result(m.toolCallId);
    }
  }

  lemma {:induction false} AnsweredIffResult(msgs: seq<Message>, id: string)
    ensures AnswerTo(msgs, id).Some? <==> id in ResultIds(Steps(msgs))
  {
    if msgs != [] {
      var p, m := msgs[..|msgs| - 1], msgs[|msgs| - 1];
      AnsweredIffResult(p, id);
      IdsAppend(Steps(p), StepsOf(m));
      MessageIds(m);
      hide ResultIds, CallIds, StepsOf;
    }
  }

  lemma {:induction false} CalledIffCall(msgs: seq<Message>)
    ensures CallIds(Steps(msgs)) == IdsOf(AllCalls(msgs))
  {
    if msgs != [] {
      var p, m := msgs[..|msgs| - 1], msgs[|msgs| - 1];
      CalledIffCall(p);
      IdsAppend(Steps(p), StepsOf(m));
      MessageIds(m);
      IdsOfAppend(AllCalls(p), if m.role == "assistant" then m.toolCalls else []);
      hide ResultIds, CallIds, StepsOf;
    }
  }

  lemma IdsOfAppend(a: seq<Call>, b: seq<Call>)
    ensures IdsOf(a + b) == IdsOf(a) + IdsOf(b)
  {
    var s := a + b;
    forall i | 0 <= i < |a| ensures a[i].id in IdsOf(s) { assert s[i] == a[i]; }
    forall i | 0 <= i < |b| ensures b[i].id in IdsOf(s) { assert s[|a| + i] == b[i]; }
  }

  // ----- One message of a legal conversation

  lemma LegalPrefix(a: seq<Message>, b: seq<Message>)
    requires Legal(a + b)
    ensures Legal(a)
  {
    StepsAppend(a, b);
    RunAppend(START, Steps(a), Steps(b));
    if Run(START, Steps(a)).Broken? {
      BrokenStays(Steps(b));
    }
  }

  /** The calls of a new assistant message are named, distinct and new. */
  lemma NewCallsAreFresh(p: seq<Message>, m: Message)
    requires Legal(p + [m]) && m.role == "assistant"
    ensures forall i :: 0 <= i < |m.toolCalls| ==> m.toolCalls[i].id != ""
    ensures DistinctIds(m.toolCalls)
    ensures IdsOf(m.toolCalls) !! CallIds(Steps(p))
  {
    StepsSnoc(p, m);
    MachineFollowsProtocol(Steps(p + [m]));
    hide Run, Steps, CallIds, DistinctResults, ResultsExpected, Answers;
    FreshIn(Steps(p), m.toolCalls);
  }

  lemma StepsSnoc(p: seq<Message>, m: Message)
    ensures Steps(p + [m]) == Steps(p) + StepsOf(m)
  {
    assert (p + [m])[..|p|] == p;
  }

  lemma FreshIn(s: seq<Step>, calls: seq<Call>)
    requires NamedCalls(s + ([Turn] + CallSteps(calls))) && DistinctCalls(s + ([Turn] + CallSteps(calls)))
    ensures forall i :: 0 <= i < |calls| ==> calls[i].id != ""
    ensures DistinctIds(calls)
    ensures IdsOf(calls) !! CallIds(s)
  {
    var all := s + ([Turn] + CallSteps(calls));
    var n := |s| + 1;
    assert forall i :: 0 <= i < |s| ==> all[i] == s[i];
    forall i | 0 <= i < |calls| ensures all[n + i] == Calls(calls[i].id) {}
    forall i | 0 <= i < |calls| ensures calls[i].id != "" && calls[i].id !in CallIds(s) {
      assert all[n + i].id != "";
      forall c | 0 <= c < |s| && s[c].Calls? ensures s[c].id != calls[i].id {
        assert all[c].id != all[n + i].id;
      }
    }
    forall i, j | 0 <= i < j < |calls| ensures calls[i].id != calls[j].id {
      assert all[n + i].id != all[n + j].id;
    }
  }

  // ----- The gathered evidence

  lemma {:induction false} GatherCallsTell(g: Gathered, cs: seq<Call>)
    requires DistinctIds(cs) && IdsOf(cs) !! g.calls.Keys
    requires forall i :: 0 <= i < |cs| ==> cs[i].id != ""
    ensures var h := GatherCalls(g, cs);
            && h.calls.Keys == g.calls.Keys + IdsOf(cs)
            && (forall k :: k in g.calls ==> h.calls[k] == g.calls[k])
            && forall i :: 0 <= i < |cs| ==>
                 h.calls[cs[i].id] == Evidence(cs[i].id, cs[i].name, cs[i].arguments, "", false)
  {
    if cs != [] {
      var front, c := cs[..|cs| - 1], cs[|cs| - 1];
      assert cs == front + [c];
      IdsOfAppend(front, [c]);
      assert IdsOf([c]) == {c.id};
      GatherCallsTell(g, front);
    }
  }

  /** The gathered map tells what the conversation says of each of the calls. */
  ghost predicate Tells(g: Gathered, msgs: seq<Message>, env: Env) {
    && g.calls.Keys == IdsOf(AllCalls(msgs))
    && (forall i :: 0 <= i < |AllCalls(msgs)| ==> AllCalls(msgs)[i].id != "")
    && DistinctIds(AllCalls(msgs))
    && forall i :: 0 <= i < |AllCalls(msgs)| ==>
         g.calls[AllCalls(msgs)[i].id] == EvidenceOf(msgs, AllCalls(msgs)[i], env)
  }

  lemma {:induction false} TellsCalls(g: Gathered, p: seq<Message>, m: Message, env: Env)
    requires Tells(g, p, env) && m.role == "assistant"
    requires DistinctIds(m.toolCalls) && IdsOf(m.toolCalls) !! IdsOf(AllCalls(p))
    requires forall i :: 0 <= i < |m.toolCalls| ==> m.toolCalls[i].id != "" && AnswerTo(p, m.toolCalls[i].id).None?
    ensures Tells(GatherMessage(g, m, env), p + [m], env)
  {
    var h, cs, earlier, all := GatherCalls(g, m.toolCalls), m.toolCalls, AllCalls(p), AllCalls(p + [m]);
    GatherCallsTell(g, cs);
    CallsSnoc(p, m, env);
    IdsOfAppend(earlier, cs);
    hide AllCalls, GatherCalls, AnswerTo;
    forall i | 0 <= i < |all|
      ensures all[i].id != "" && h.calls[all[i].id] == EvidenceOf(p + [m], all[i], env)
    {
      if i < |earlier| {
        assert all[i] == earlier[i] && earlier[i].id in IdsOf(earlier);
      } else {
        assert all[i] == cs[i - |earlier|];
      }
    }
    DistinctAppend(earlier, cs);
  }

  lemma DistinctAppend(a: seq<Call>, b: seq<Call>)
    requires DistinctIds(a) && DistinctIds(b) && IdsOf(a) !! IdsOf(b)
    ensures DistinctIds(a + b)
  {
    forall i, j | 0 <= i < |a| && 0 <= j < |b| ensures a[i].id != b[j].id {
      assert a[i].id in IdsOf(a) && b[j].id in IdsOf(b);
    }
  }

  lemma CallsSnoc(p: seq<Message>, m: Message, env: Env)
    ensures AllCalls(p + [m]) == AllCalls(p) + if m.role == "assistant" then m.toolCalls else []
    ensures forall id :: AnswerTo(p + [m], id)
                         == if m.role == "tool" && m.toolCallId == id then Some(m.content) else AnswerTo(p, id)
  {
    assert (p + [m])[..|p|] == p;
  }

  lemma {:induction false} TellsOther(g: Gathered, p: seq<Message>, m: Message, env: Env)
    requires Tells(g, p, env) && m.role != "assistant"
    ensures Tells(GatherMessage(g, m, env), p + [m], env)
  {
    var h, cs := GatherMessage(g, m, env), AllCalls(p);
    CallsSnoc(p, m, env);
    assert cs + [] == cs;
    hide AllCalls, AnswerTo, ResultOf;
    forall i | 0 <= i < |cs| ensures h.calls[cs[i].id] == EvidenceOf(p + [m], cs[i], env) {
      assert cs[i].id in IdsOf(cs);
      assert g.calls[cs[i].id] == EvidenceOf(p, cs[i], env);
    }
  }

  /** Any stretch `b` of a legal conversation gathers exactly what it says of its own calls,
      although it may hold results of calls made before it. */
  lemma {:induction false} GatherTells(a: seq<Message>, b: seq<Message>, env: Env)
    requires Legal(a + b)
    ensures Tells(Gather(b, env), b, env)
    decreases |b|
  {
    if b != [] {
      var p, m := b[..|b| - 1], b[|b| - 1];
      assert b == p + [m] && a + b == (a + p) + [m];
      LegalPrefix(a + p, [m]);
      GatherTells(a, p, env);
      if m.role == "assistant" {
        NewCallsAreFresh(a + p, m);
        StretchIds(a, p);
        CalledIffCall(p);
        forall i | 0 <= i < |m.toolCalls| ensures AnswerTo(p, m.toolCalls[i].id).None? {
          assert m.toolCalls[i].id in IdsOf(m.toolCalls);
          AnsweredIffResult(p, m.toolCalls[i].id);
        }
        TellsCalls(Gather(p, env), p, m, env);
      } else {
        TellsOther(Gather(p, env), p, m, env);
      }
    }
  }

  /** The ids of a stretch are among those of the whole; what was answered was called. */
  lemma StretchIds(a: seq<Message>, p: seq<Message>)
    requires Legal(a + p)
    ensures CallIds(Steps(p)) <= CallIds(Steps(a + p)) && ResultIds(Steps(p)) <= CallIds(Steps(a + p))
  {
    StepsAppend(a, p);
    IdsAppend(Steps(a), Steps(p));
    MachineFollowsProtocol(Steps(a + p));
  }

  lemma {:induction false} AllNamed(cs: seq<Call>)
    requires forall i :: 0 <= i < |cs| ==> cs[i].id != ""
    ensures |Named(cs)| == |cs| && forall i :: 0 <= i < |cs| ==> Named(cs)[i] == cs[i].id
  {
    if cs != [] {
      AllNamed(cs[..|cs| - 1]);
    }
  }

  /** Of any stretch of a legal conversation, the ledger is the tally of what the stretch says of
      each of its calls, in order. */
  lemma LedgerTells(a: seq<Message>, b: seq<Message>, env: Env)
    requires Legal(a + b)
    ensures LedgerOf(b, env) == Tally(EvidenceFor(b, AllCalls(b), env), env)
  {
    var g, cs := Gather(b, env), AllCalls(b);
    GatherTells(a, b, env);
    OrderIsNamedCalls(b, env);
    AllNamed(cs);
    hide Gather, AllCalls, Tally, EvidenceOf, Named;
    forall i | 0 <= i < |cs| ensures InOrder(g)[i] == EvidenceFor(b, cs, env)[i] {
      assert cs[i].id in IdsOf(cs);
      assert g.order[i] == cs[i].id;
    }
    assert InOrder(g) == EvidenceFor(b, cs, env);
  }
}
