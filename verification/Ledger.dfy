/** The evidence ledger: what a conversation's calls came to, and whether another turn may be
made. Strings are byte strings.
*/
module Ledger {
  import opened Json
  import opened Bytes
  import opened Conversation

  const RESULT_LIMIT := 4000

  /** What is not modelled: how Go prints a value that is neither text nor blocks, the pattern of
      failure words, and the normal form of a failure. */
  datatype Env = Env(sprint: Json -> string, fails: string -> bool, normalize: string -> string)

  datatype Evidence = Evidence(id: string, name: string, arguments: string, result: string, failed: bool)

  datatype AgentLedger = AgentLedger(
    completed: seq<Evidence>, pending: seq<Evidence>, toolRounds: nat,
    repeatedCall: bool, repeatedFailure: bool, signature: string)

  const EMPTY := AgentLedger([], [], 0, false, false, "")

  // ----- `contentToString`

  function BlockText(b: Json): string {
    if b.Get("type").AsText() in {"text", "input_text", "output_text"} then b.Get("text").AsText() else ""
  }

  function BlocksText(bs: seq<Json>): string {
    if bs == [] then "" else BlocksText(bs[..|bs| - 1]) + BlockText(bs[|bs| - 1])
  }

  function ContentToString(c: Json, env: Env): string {
    match c
    case Text(s) => s
    case Array(bs) => BlocksText(bs)
    case _ => env.sprint(c)
  }

  lemma {:induction false} BlocksTextAppend(a: seq<Json>, b: seq<Json>)
    ensures BlocksText(a + b) == BlocksText(a) + BlocksText(b)
  {
    hide BlockText;
    if b == [] {
      assert a + b == a;
    } else {
      assert (a + b)[..|a + b| - 1] == a + b[..|b| - 1];
      BlocksTextAppend(a, b[..|b| - 1]);
    }
  }

  /** The text of a content is that of its blocks one after the other, and of a block it is its
      text if it is one of the three kinds of text block. */
  lemma ContentIsItsBlocks(a: seq<Json>, b: Json, env: Env)
    ensures ContentToString(Array(a + [b]), env)
            == ContentToString(Array(a), env)
               + if && b.Object? && "type" in b.fields && "text" in b.fields && b.fields["text"].Text?
                    && b.fields["type"] in {Text("text"), Text("input_text"), Text("output_text")}
                 then b.fields["text"].s else ""
    ensures ContentToString(Array([]), env) == ""
    ensures forall s :: ContentToString(Text(s), env) == s
  {
    hide BlocksText, BlockText;
    BlocksTextAppend(a, [b]);
    OneBlock(b);
  }

  lemma OneBlock(b: Json)
    ensures BlocksText([b]) == BlockText(b) && BlocksText([]) == ""
    ensures BlockText(b)
            == if && b.Object? && "type" in b.fields && "text" in b.fields && b.fields["text"].Text?
                  && b.fields["type"] in {Text("text"), Text("input_text"), Text("output_text")}
               then b.fields["text"].s else ""
  {
    assert [b][..0] == [];
    assert "" + BlockText(b) == BlockText(b);
  }

  // ----- Gathering the evidence

  datatype Gathered = Gathered(calls: map<string, Evidence>, order: seq<string>)

  function GatherCall(g: Gathered, c: Call): Gathered {
    if c.id == "" then g
    else Gathered(g.calls[c.id := Evidence(c.id, c.name, c.arguments, "", false)], g.order + [c.id])
  }

  function GatherCalls(g: Gathered, cs: seq<Call>): Gathered {
    if cs == [] then g else GatherCall(GatherCalls(g, cs[..|cs| - 1]), cs[|cs| - 1])
  }

  function ResultOf(content: Json, env: Env): string {
    Compact(ContentToString(content, env), RESULT_LIMIT)
  }

  function GatherMessage(g: Gathered, m: Message, env: Env): Gathered {
    if m.role == "assistant" then GatherCalls(g, m.toolCalls)
    else if m.role == "tool" && m.toolCallId in g.calls then
      var r := ResultOf(m.content, env);
      g.(calls := g.calls[m.toolCallId := g.calls[m.toolCallId].(result := r, failed := env.fails(r))])
    else g
  }

  function Gather(msgs: seq<Message>, env: Env): Gathered {
    if msgs == [] then Gathered(map[], [])
    else GatherMessage(Gather(msgs[..|msgs| - 1], env), msgs[|msgs| - 1], env)
  }

  /** The evidence in call order. */
  function InOrder(g: Gathered): (r: seq<Evidence>)
    ensures |r| == |g.order|
    ensures forall i :: 0 <= i < |r| && g.order[i] in g.calls ==> r[i] == g.calls[g.order[i]]
  {
    seq(|g.order|, i requires 0 <= i < |g.order| =>
      if g.order[i] in g.calls then g.calls[g.order[i]] else Evidence("", "", "", "", false))
  }

  // ----- Tallying it

  function Sig(e: Evidence): string {
    e.name + "\0" + e.arguments
  }

  function FailureSig(e: Evidence, env: Env): string {
    e.name + "\0" + e.arguments + "\0" + env.normalize(e.result)
  }

  predicate SigBefore(es: seq<Evidence>, sig: string) {
    exists i :: 0 <= i < |es| && Sig(es[i]) == sig
  }

  predicate Failure(e: Evidence) {
    e.result != "" && e.failed
  }

  predicate FailureBefore(es: seq<Evidence>, sig: string, env: Env) {
    exists i :: 0 <= i < |es| && Failure(es[i]) && FailureSig(es[i], env) == sig
  }

  function TallyOne(l: AgentLedger, before: seq<Evidence>, e: Evidence, env: Env): AgentLedger {
    var again := SigBefore(before, Sig(e));
    var a := l.(toolRounds := l.toolRounds + 1,
                repeatedCall := l.repeatedCall || again,
                signature := if again then Sig(e) else l.signature);
    if e.result == "" then a.(pending := a.pending + [e])
    else
      var b := a.(completed := a.completed + [e]);
      if e.failed && FailureBefore(before, FailureSig(e, env), env)
      then b.(repeatedFailure := true, signature := FailureSig(e, env))
      else b
  }

  function Tally(es: seq<Evidence>, env: Env): AgentLedger {
    if es == [] then EMPTY
    else TallyOne(Tally(es[..|es| - 1], env), es[..|es| - 1], es[|es| - 1], env)
  }

  function LedgerOf(msgs: seq<Message>, env: Env): AgentLedger {
    Tally(InOrder(Gather(msgs, env)), env)
  }

  // ----- `buildAgentLedger`

  method GatherEvidence(msgs: seq<Message>, env: Env) returns (calls: map<string, Evidence>, order: seq<string>)
    ensures Gathered(calls, order) == Gather(msgs, env)
  {
    calls, order := map[], [];
    for i := 0 to |msgs|
      invariant Gathered(calls, order) == Gather(msgs[..i], env)
    {
      var m := msgs[i];
      assert msgs[..i + 1][..i] == msgs[..i];
      ghost var g := Gathered(calls, order);
      if m.role == "assistant" {
        for j := 0 to |m.toolCalls|
          invariant Gathered(calls, order) == GatherCalls(g, m.toolCalls[..j])
        {
          assert m.toolCalls[..j + 1][..j] == m.toolCalls[..j];
          var c := m.toolCalls[j];
          if c.id != "" {
            calls := calls[c.id := Evidence(c.id, c.name, c.arguments, "", false)];
            order := order + [c.id];
          }
        }
        assert m.toolCalls[..|m.toolCalls|] == m.toolCalls;
      }
      if m.role == "tool" {
        if m.toolCallId in calls {
          var e := calls[m.toolCallId];
          e := e.(result := Compact(ContentToString(m.content, env), RESULT_LIMIT));
          e := e.(failed := env.fails(e.result));
          calls := calls[m.toolCallId := e];
        }
      }
    }
    assert msgs[..|msgs|] == msgs;
  }

  /** A map of counts, with 0 for what is missing. */
  function CountIn(m: map<string, nat>, k: string): nat {
    if k in m then m[k] else 0
  }

  method TallyEvidence(es: seq<Evidence>, env: Env) returns (l: AgentLedger)
    ensures l == Tally(es, env)
  {
    hide SigBefore, FailureBefore, Tally, FailureSig;
    l := EMPTY;
    NothingSeen(es, env);
    var seenCall: map<string, nat>, seenFailure: map<string, nat> := map[], map[];
    for i := 0 to |es|
      invariant l == Tally(es[..i], env)
      invariant forall k :: CountIn(seenCall, k) >= 1 <==> SigBefore(es[..i], k)
      invariant forall k :: CountIn(seenFailure, k) >= 1 <==> FailureBefore(es[..i], k, env)
    {
      var e := es[i];
      assert es[..i + 1] == es[..i] + [e];
      SeenNext(es[..i], e, env);
      TallyNext(es[..i], e, env);
      l := l.(toolRounds := l.toolRounds + 1);
      var sig := Sig(e);
      seenCall := seenCall[sig := CountIn(seenCall, sig) + 1];
      if seenCall[sig] >= 2 {
        l := l.(repeatedCall := true, signature := sig);
      }
      if e.result == "" {
        l := l.(pending := l.pending + [e]);
      } else {
        l := l.(completed := l.completed + [e]);
        if e.failed {
          var fs := FailureSig(e, env);
          seenFailure := seenFailure[fs := CountIn(seenFailure, fs) + 1];
          if seenFailure[fs] >= 2 {
            l := l.(repeatedFailure := true, signature := fs);
          }
        }
      }
    }
    assert es[..|es|] == es;
  }

  lemma NothingSeen(es: seq<Evidence>, env: Env)
    ensures Tally(es[..0], env) == EMPTY
    ensures forall k :: !SigBefore(es[..0], k) && !FailureBefore(es[..0], k, env)
  {
  }

  lemma SeenNext(es: seq<Evidence>, e: Evidence, env: Env)
    ensures forall k :: SigBefore(es + [e], k) <==> SigBefore(es, k) || k == Sig(e)
    ensures forall k :: FailureBefore(es + [e], k, env)
                        <==> FailureBefore(es, k, env) || (Failure(e) && k == FailureSig(e, env))
  {
    var all := es + [e];
    assert all[|es|] == e && forall i :: 0 <= i < |es| ==> all[i] == es[i];
    forall k | SigBefore(es, k) ensures SigBefore(all, k) {
      var i :| 0 <= i < |es| && Sig(es[i]) == k;
      assert Sig(all[i]) == k;
    }
    forall k | FailureBefore(es, k, env) ensures FailureBefore(all, k, env) {
      var i :| 0 <= i < |es| && Failure(es[i]) && FailureSig(es[i], env) == k;
      assert Failure(all[i]) && FailureSig(all[i], env) == k;
    }
  }

  lemma TallyNext(es: seq<Evidence>, e: Evidence, env: Env)
    ensures Tally(es + [e], env) == TallyOne(Tally(es, env), es, e, env)
  {
    assert (es + [e])[..|es|] == es;
  }

  method BuildAgentLedger(msgs: seq<Message>, env: Env) returns (l: AgentLedger)
    ensures l == LedgerOf(msgs, env)
  {
    var calls, order := GatherEvidence(msgs, env);
    var es := InOrder(Gathered(calls, order));
    l := TallyEvidence(es, env);
  }

  // ----- What the tally says

  function Keep(es: seq<Evidence>, blank: bool): seq<Evidence> {
    if es == [] then []
    else Keep(es[..|es| - 1], blank) + if (es[|es| - 1].result == "") == blank then [es[|es| - 1]] else []
  }

  lemma {:induction false} TallyPartitions(es: seq<Evidence>, env: Env)
    ensures var l := Tally(es, env);
            && l.pending == Keep(es, true) && l.completed == Keep(es, false)
            && l.toolRounds == |es| == |l.pending| + |l.completed|
  {
    if es != [] {
      TallyPartitions(es[..|es| - 1], env);
    }
  }

  predicate SameCall(a: Evidence, b: Evidence) {
    a.name == b.name && a.arguments == b.arguments
  }

  ghost predicate TwoAlike(es: seq<Evidence>) {
    exists i, j :: 0 <= i < j < |es| && SameCall(es[i], es[j])
  }

  /** A name or arguments without the separator. */
  predicate Plain(e: Evidence) {
    '\0' !in e.name && '\0' !in e.arguments
  }

  function NulAt(s: string): nat {
    if s == "" || s[0] == '\0' then 0 else 1 + NulAt(s[1..])
  }

  lemma {:induction false} NulAfter(a: string, b: string)
    requires '\0' !in a
    ensures NulAt(a + "\0" + b) == |a|
  {
    if a != "" {
      assert (a + "\0" + b)[1..] == a[1..] + "\0" + b;
      NulAfter(a[1..], b);
    }
  }

  /** Text up to the first NUL is told from what follows. */
  lemma SplitAtNul(a: string, b: string, c: string, d: string)
    requires a + "\0" + b == c + "\0" + d && '\0' !in a && '\0' !in c
    ensures a == c && b == d
  {
    var s := a + "\0" + b;
    NulAfter(a, b);
    NulAfter(c, d);
    assert a == s[..|a|] && c == s[..|a|];
    assert b == s[|a| + 1..] && d == s[|a| + 1..];
  }

  lemma SigsTell(a: Evidence, b: Evidence)
    requires '\0' !in a.name && '\0' !in b.name
    ensures Sig(a) == Sig(b) <==> SameCall(a, b)
  {
    if Sig(a) == Sig(b) {
      SplitAtNul(a.name, a.arguments, b.name, b.arguments);
    }
  }

  lemma FailureSigsTell(a: Evidence, b: Evidence, env: Env)
    requires Plain(a) && Plain(b) && FailureSig(a, env) == FailureSig(b, env)
    ensures SameCall(a, b)
  {
    var x, y := env.normalize(a.result), env.normalize(b.result);
    assert a.name + "\0" + (a.arguments + "\0" + x) == FailureSig(a, env);
    assert b.name + "\0" + (b.arguments + "\0" + y) == FailureSig(b, env);
    SplitAtNul(a.name, a.arguments + "\0" + x, b.name, b.arguments + "\0" + y);
    SplitAtNul(a.arguments, x, b.arguments, y);
  }

  lemma TwoAlikeNext(p: seq<Evidence>, e: Evidence)
    ensures TwoAlike(p + [e]) <==> TwoAlike(p) || exists i :: 0 <= i < |p| && SameCall(p[i], e)
  {
    var es := p + [e];
    if TwoAlike(p) {
      var i, j :| 0 <= i < j < |p| && SameCall(p[i], p[j]);
      assert SameCall(es[i], es[j]);
    }
    if i :| 0 <= i < |p| && SameCall(p[i], e) {
      assert SameCall(es[i], es[|p|]);
    }
    if TwoAlike(es) {
      var i, j :| 0 <= i < j < |es| && SameCall(es[i], es[j]);
      assert SameCall(p[i], es[j]);
    }
  }

  /** A repeated call is reported exactly when two calls share name and arguments. */
  lemma {:induction false} RepeatedCallIffTwoAlike(es: seq<Evidence>, env: Env)
    requires forall i :: 0 <= i < |es| ==> '\0' !in es[i].name
    ensures Tally(es, env).repeatedCall <==> TwoAlike(es)
  {
    if es != [] {
      var p, e := es[..|es| - 1], es[|es| - 1];
      RepeatedCallIffTwoAlike(p, env);
      assert es == p + [e];
      TwoAlikeNext(p, e);
      forall i | 0 <= i < |p| ensures Sig(p[i]) == Sig(e) <==> SameCall(p[i], e) {
        assert p[i] == es[i];
        SigsTell(p[i], e);
      }
      hide TwoAlike, Sig, SameCall, FailureBefore;
    }
  }

  lemma FailureSigsEqual(a: Evidence, b: Evidence, env: Env)
    requires Plain(a) && Plain(b)
    ensures FailureSig(a, env) == FailureSig(b, env)
            <==> SameCall(a, b) && env.normalize(a.result) == env.normalize(b.result)
  {
    if FailureSig(a, env) == FailureSig(b, env) {
      var x, y := env.normalize(a.result), env.normalize(b.result);
      assert a.name + "\0" + (a.arguments + "\0" + x) == FailureSig(a, env);
      assert b.name + "\0" + (b.arguments + "\0" + y) == FailureSig(b, env);
      SplitAtNul(a.name, a.arguments + "\0" + x, b.name, b.arguments + "\0" + y);
      SplitAtNul(a.arguments, x, b.arguments, y);
    }
  }

  /** Two results of the same call fail in the same way. */
  predicate FailAlike(a: Evidence, b: Evidence, env: Env) {
    && a.result != "" && a.failed && b.result != "" && b.failed
    && a.name == b.name && a.arguments == b.arguments && env.normalize(a.result) == env.normalize(b.result)
  }

  ghost predicate TwoFailAlike(es: seq<Evidence>, env: Env) {
    exists i, j :: 0 <= i < j < |es| && FailAlike(es[i], es[j], env)
  }

  lemma TwoFailAlikeNext(p: seq<Evidence>, e: Evidence, env: Env)
    ensures TwoFailAlike(p + [e], env) <==> TwoFailAlike(p, env) || exists i :: 0 <= i < |p| && FailAlike(p[i], e, env)
  {
    hide FailAlike;
    var es := p + [e];
    if TwoFailAlike(p, env) {
      var i, j :| 0 <= i < j < |p| && FailAlike(p[i], p[j], env);
      assert FailAlike(es[i], es[j], env);
    }
    if i :| 0 <= i < |p| && FailAlike(p[i], e, env) {
      assert FailAlike(es[i], es[|p|], env);
    }
    if TwoFailAlike(es, env) {
      var i, j :| 0 <= i < j < |es| && FailAlike(es[i], es[j], env);
      assert FailAlike(p[i], es[j], env);
    }
  }

  /** A repeated failure is reported exactly when the same call has twice failed alike. */
  lemma {:induction false} RepeatedFailureIffTwoFailAlike(es: seq<Evidence>, env: Env)
    requires forall i :: 0 <= i < |es| ==> Plain(es[i])
    ensures Tally(es, env).repeatedFailure <==> TwoFailAlike(es, env)
  {
    if es != [] {
      var p, e := es[..|es| - 1], es[|es| - 1];
      RepeatedFailureIffTwoFailAlike(p, env);
      assert es == p + [e];
      TwoFailAlikeNext(p, e, env);
      forall i | 0 <= i < |p|
        ensures Failure(p[i]) && FailureSig(p[i], env) == FailureSig(e, env) && Failure(e) <==> FailAlike(p[i], e, env)
      {
        assert p[i] == es[i];
        FailureSigsEqual(p[i], e, env);
      }
      assert Failure(e) && FailureBefore(p, FailureSig(e, env), env) <==> exists i :: 0 <= i < |p| && FailAlike(p[i], e, env);
      hide TwoFailAlike, FailureSig, FailAlike, FailureBefore, SigBefore, Sig;
    }
  }

  /** The signature names a repetition exactly when one is reported. */
  lemma {:induction false} SignatureIffRepetition(es: seq<Evidence>, env: Env)
    ensures Tally(es, env).signature != "" <==> Tally(es, env).repeatedCall || Tally(es, env).repeatedFailure
  {
    hide SigBefore, FailureBefore;
    if es != [] {
      SignatureIffRepetition(es[..|es| - 1], env);
      assert Sig(es[|es| - 1]) != "" && FailureSig(es[|es| - 1], env) != "";
      hide Sig, FailureSig;
    }
  }

  /** A repeated failure is a repeated call. */
  lemma {:induction false} RepeatedFailureIsRepeatedCall(es: seq<Evidence>, env: Env)
    requires forall i :: 0 <= i < |es| ==> Plain(es[i])
    ensures Tally(es, env).repeatedFailure ==> Tally(es, env).repeatedCall
  {
    if es != [] {
      var p, e := es[..|es| - 1], es[|es| - 1];
      RepeatedFailureIsRepeatedCall(p, env);
      if e.result != "" && e.failed && FailureBefore(p, FailureSig(e, env), env) {
        var i :| 0 <= i < |p| && Failure(p[i]) && FailureSig(p[i], env) == FailureSig(e, env);
        assert p[i] == es[i];
        FailureSigsTell(p[i], e, env);
        assert Sig(p[i]) == Sig(e);
      }
    }
  }

  // ----- What the gathered evidence is

  /** The calls of a conversation, in order. */
  function AllCalls(msgs: seq<Message>): seq<Call> {
    if msgs == [] then []
    else
      var m := msgs[|msgs| - 1];
      AllCalls(msgs[..|msgs| - 1]) + if m.role == "assistant" then m.toolCalls else []
  }

  /** The content of the last tool message for a call. */
  function AnswerTo(msgs: seq<Message>, id: string): Option<Json> {
    if msgs == [] then None
    else
      var m := msgs[|msgs| - 1];
      if m.role == "tool" && m.toolCallId == id then Some(m.content) else AnswerTo(msgs[..|msgs| - 1], id)
  }

  lemma {:induction false} CallsAppend(a: seq<Message>, b: seq<Message>)
    ensures AllCalls(a + b) == AllCalls(a) + AllCalls(b)
    ensures forall id :: AnswerTo(a + b, id) == if AnswerTo(b, id).Some? then AnswerTo(b, id) else AnswerTo(a, id)
  {
    if b == [] {
      assert a + b == a;
    } else {
      assert (a + b)[..|a + b| - 1] == a + b[..|b| - 1];
      CallsAppend(a, b[..|b| - 1]);
    }
  }

  /** What a conversation says of one call. */
  function EvidenceOf(msgs: seq<Message>, c: Call, env: Env): Evidence {
    var a := AnswerTo(msgs, c.id);
    if a.None? then Evidence(c.id, c.name, c.arguments, "", false)
    else
      var r := ResultOf(a.value, env);
      Evidence(c.id, c.name, c.arguments, r, env.fails(r))
  }

  /** Of a call without an answer the evidence holds no result; of one with an answer, the answer
      compacted to 4000 bytes, and whether that tells of a failure. */
  lemma EvidenceSays(msgs: seq<Message>, c: Call, env: Env)
    ensures var e, a := EvidenceOf(msgs, c, env), AnswerTo(msgs, c.id);
            && e.id == c.id && e.name == c.name && e.arguments == c.arguments
            && (a.None? ==> e.result == "" && !e.failed)
            && (a.Some? ==> e.result == Compact(ContentToString(a.value, env), 4000) && e.failed == env.fails(e.result))
  {
    hide Compact, AnswerTo, ContentToString;
  }

  function EvidenceFor(msgs: seq<Message>, calls: seq<Call>, env: Env): (r: seq<Evidence>)
    ensures |r| == |calls| && forall i :: 0 <= i < |r| ==> r[i] == EvidenceOf(msgs, calls[i], env)
  {
    seq(|calls|, i requires 0 <= i < |calls| => EvidenceOf(msgs, calls[i], env))
  }

  /** A conversation that breaks no rule so far. */
  predicate Legal(msgs: seq<Message>) {
    Run(START, Steps(msgs)).Open?
  }

  function Named(calls: seq<Call>): seq<string> {
    if calls == [] then []
    else Named(calls[..|calls| - 1]) + if calls[|calls| - 1].id == "" then [] else [calls[|calls| - 1].id]
  }

  lemma {:induction false} NamedAppend(a: seq<Call>, b: seq<Call>)
    ensures Named(a + b) == Named(a) + Named(b)
  {
    if b == [] {
      assert a + b == a;
    } else {
      assert (a + b)[..|a + b| - 1] == a + b[..|b| - 1];
      NamedAppend(a, b[..|b| - 1]);
    }
  }

  lemma {:induction false} CallsInOrder(g: Gathered, cs: seq<Call>)
    ensures GatherCalls(g, cs).order == g.order + Named(cs)
  {
    if cs != [] {
      CallsInOrder(g, cs[..|cs| - 1]);
    }
  }

  lemma {:induction false} OrderIsNamedCalls(msgs: seq<Message>, env: Env)
    ensures Gather(msgs, env).order == Named(AllCalls(msgs))
  {
    hide Named, GatherCalls, ResultOf;
    if msgs == [] {
      assert Named([]) == [] by { NamedNone(); }
    } else {
      var p, m := msgs[..|msgs| - 1], msgs[|msgs| - 1];
      OrderIsNamedCalls(p, env);
      if m.role == "assistant" {
        CallsInOrder(Gather(p, env), m.toolCalls);
        NamedAppend(AllCalls(p), m.toolCalls);
      } else {
        assert AllCalls(p) + [] == AllCalls(p);
      }
    }
  }

  lemma NamedNone()
    ensures Named([]) == []
  {
  }

  /** Whatever the conversation, its rounds are its named calls. */
  lemma RoundsAreNamedCalls(msgs: seq<Message>, env: Env)
    ensures LedgerOf(msgs, env).toolRounds == |Named(AllCalls(msgs))|
  {
    OrderIsNamedCalls(msgs, env);
    TallyPartitions(InOrder(Gather(msgs, env)), env);
  }
}
