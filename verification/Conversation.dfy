/** The tool protocol of a conversation: every assistant call is followed by exactly one
matching tool result before another model turn.
*/
module Conversation {
  import opened Json

  /** A tool call of an assistant message; an id that is missing or not a string is empty. */
  datatype Call = Call(id: string, kind: string, name: string, arguments: string)

  datatype Message = Message(role: string, content: Json, toolCallId: string, toolCalls: seq<Call>)

  // ----- The steps of a conversation

  /** What the protocol sees: an assistant message opens a turn and makes its calls; a tool
      message is a result; no other message is a step. */
  datatype Step = Turn | Calls(id: string) | Result(id: string)

  function CallSteps(calls: seq<Call>): (r: seq<Step>)
    ensures |r| == |calls| && forall i :: 0 <= i < |r| ==> r[i] == Calls(calls[i].id)
  {
    seq(|calls|, i requires 0 <= i < |calls| => Calls(calls[i].id))
  }

  function StepsOf(m: Message): seq<Step> {
    if m.role == "assistant" then [Turn] + CallSteps(m.toolCalls)
    else if m.role == "tool" then [Result(m.toolCallId)]
    else []
  }

  function Steps(msgs: seq<Message>): seq<Step> {
    if msgs == [] then [] else Steps(msgs[..|msgs| - 1]) + StepsOf(msgs[|msgs| - 1])
  }

  /** The ids called, and the ids answered. */
  ghost function CallIds(s: seq<Step>): set<string> {
    set i | 0 <= i < |s| && s[i].Calls? :: s[i].id
  }

  ghost function ResultIds(s: seq<Step>): set<string> {
    set i | 0 <= i < |s| && s[i].Result? :: s[i].id
  }

  // ----- What the protocol promises

  predicate NamedCalls(s: seq<Step>) {
    forall i :: 0 <= i < |s| && s[i].Calls? ==> s[i].id != ""
  }

  predicate DistinctCalls(s: seq<Step>) {
    forall i, j :: 0 <= i < j < |s| && s[i].Calls? && s[j].Calls? ==> s[i].id != s[j].id
  }

  predicate DistinctResults(s: seq<Step>) {
    forall i, j :: 0 <= i < j < |s| && s[i].Result? && s[j].Result? ==> s[i].id != s[j].id
  }

  predicate SameTurn(s: seq<Step>, c: int, r: int)
    requires 0 <= c <= r <= |s|
  {
    forall t :: c < t < r ==> s[t] != Turn
  }

  /** The result at `r` answers the call at `c`, before any other turn. */
  predicate Answers(s: seq<Step>, c: int, r: int) {
    && 0 <= c < r < |s| && s[c].Calls? && s[r].Result? && s[c].id == s[r].id
    && SameTurn(s, c, r)
  }

  ghost predicate ResultsExpected(s: seq<Step>) {
    forall r :: 0 <= r < |s| && s[r].Result? ==> exists c :: Answers(s, c, r)
  }

  ghost predicate CallsAnswered(s: seq<Step>) {
    forall c :: 0 <= c < |s| && s[c].Calls? ==> exists r :: Answers(s, c, r)
  }

  /** Call ids are non-empty and distinct; calls and results are in bijection, each result after
      its call; and no assistant message lies between them. */
  ghost predicate WellFormed(s: seq<Step>) {
    NamedCalls(s) && DistinctCalls(s) && DistinctResults(s) && ResultsExpected(s) && CallsAnswered(s)
  }

  // ----- The state machine

  datatype State = Open(pending: set<string>, completed: set<string>) | Broken

  function Move(v: State, s: Step): State {
    if v.Broken? then v
    else
      match s
      case Turn => if v.pending != {} then Broken else v
      case Calls(id) =>
        if id == "" || id in v.pending || id in v.completed then Broken else v.(pending := v.pending + {id})
      case Result(id) =>
        if id == "" || id !in v.pending then Broken
        else Open(v.pending - {id}, v.completed + {id})
  }

  function Run(v: State, s: seq<Step>): State {
    if s == [] then v else Move(Run(v, s[..|s| - 1]), s[|s| - 1])
  }

  const START := Open({}, {})

  predicate Accepts(msgs: seq<Message>) {
    var v := Run(START, Steps(msgs));
    v.Open? && v.pending == {}
  }

  lemma {:induction false} RunAppend(v: State, a: seq<Step>, b: seq<Step>)
    ensures Run(v, a + b) == Run(Run(v, a), b)
  {
    if b == [] {
      assert a + b == a;
    } else {
      assert (a + b)[..|a + b| - 1] == a + b[..|b| - 1];
      RunAppend(v, a, b[..|b| - 1]);
    }
  }

  lemma RunOne(v: State, a: seq<Step>, s: Step)
    ensures Run(v, a + [s]) == Move(Run(v, a), s)
  {
    assert (a + [s])[..|a|] == a;
  }

  lemma {:induction false} BrokenStays(s: seq<Step>)
    ensures Run(Broken, s) == Broken
  {
    if s != [] {
      BrokenStays(s[..|s| - 1]);
    }
  }

  lemma {:induction false} StepsAppend(a: seq<Message>, b: seq<Message>)
    ensures Steps(a + b) == Steps(a) + Steps(b)
  {
    hide StepsOf;
    if b == [] {
      assert a + b == a;
    } else {
      assert (a + b)[..|a + b| - 1] == a + b[..|b| - 1];
      StepsAppend(a, b[..|b| - 1]);
      var last := StepsOf(b[|b| - 1]);
      assert Steps(a) + Steps(b[..|b| - 1]) + last == Steps(a) + (Steps(b[..|b| - 1]) + last);
    }
  }

  // ----- `validateToolConversation`

  datatype ProtocolError =
    | ResultsMissingBefore(index: nat)
    | CallWithoutId(index: nat)
    | DuplicateCall(id: string)
    | ResultWithoutId(index: nat)
    | UnexpectedResult(id: string)
    | MissingResult(id: string)

  /** All the calls of a message before the one at `j` are taken. */
  predicate TakenUpTo(m: Message, v: State, j: int) {
    0 <= j < |m.toolCalls| && Run(v, [Turn] + CallSteps(m.toolCalls)[..j]).Open?
  }

  /** The message `i` stops the machine after `v`, for this reason; a call that stops it is the
      first of its message that does. */
  ghost predicate StopsAt(msgs: seq<Message>, i: nat, e: ProtocolError)
    requires i < |msgs|
  {
    var m, v := msgs[i], Run(START, Steps(msgs[..i]));
    && v.Open?
    && match e
       case ResultsMissingBefore(k) => k == i && m.role == "assistant" && v.pending != {}
       case CallWithoutId(k) =>
         k == i && m.role == "assistant" && v.pending == {} && exists j :: TakenUpTo(m, v, j) && m.toolCalls[j].id == ""
       case DuplicateCall(id) =>
         m.role == "assistant" && v.pending == {}
         && exists j :: TakenUpTo(m, v, j) && m.toolCalls[j].id == id
                        && (id in v.completed || id in CallIds(CallSteps(m.toolCalls)[..j]))
       case ResultWithoutId(k) => k == i && m.role == "tool" && m.toolCallId == ""
       case UnexpectedResult(id) => m.role == "tool" && m.toolCallId == id && id !in v.pending
       case MissingResult(_) => false
  }

  /** Why a conversation is rejected: the first message that breaks the protocol, or else a call
      that is still pending at the end. */
  ghost predicate Explains(msgs: seq<Message>, e: ProtocolError) {
    match e
    case MissingResult(id) => var v := Run(START, Steps(msgs)); v.Open? && id in v.pending
    case _ => exists i :: 0 <= i < |msgs| && StopsAt(msgs, i, e)
  }

  lemma StopRejects(msgs: seq<Message>, i: nat)
    requires i < |msgs| && Run(START, Steps(msgs[..i + 1])) == Broken
    ensures Run(START, Steps(msgs)) == Broken
  {
    hide StepsOf, Move;
    var a, b := msgs[..i + 1], msgs[i + 1..];
    assert msgs == a + b;
    StepsAppend(a, b);
    RunAppend(START, Steps(a), Steps(b));
    BrokenStays(Steps(b));
  }

  lemma PrefixRejects(msgs: seq<Message>, i: nat, part: seq<Step>)
    requires i < |msgs| && part <= StepsOf(msgs[i])
    requires Run(Run(START, Steps(msgs[..i])), part) == Broken
    ensures Run(START, Steps(msgs)) == Broken
  {
    hide Move;
    var all := StepsOf(msgs[i]);
    StepsOne(msgs, i);
    hide StepsOf;
    assert all == part + all[|part|..];
    RunAppend(START, Steps(msgs[..i]), all);
    RunAppend(Run(START, Steps(msgs[..i])), part, all[|part|..]);
    BrokenStays(all[|part|..]);
    StopRejects(msgs, i);
  }

  /** The calls of an assistant message that comes when nothing is pending. */
  method TakeCalls(msgs: seq<Message>, i: nat, completed: set<string>)
    returns (pending: set<string>, e: Option<ProtocolError>)
    requires i < |msgs| && msgs[i].role == "assistant"
    requires Run(START, Steps(msgs[..i])) == Open({}, completed)
    ensures e.None? ==> Run(START, Steps(msgs[..i + 1])) == Open(pending, completed)
    ensures e.Some? ==> Run(START, Steps(msgs)) == Broken && !e.value.MissingResult? && StopsAt(msgs, i, e.value)
  {
    var m := msgs[i];
    ghost var v, steps := Open({}, completed), CallSteps(m.toolCalls);
    TurnOpens(completed);
    assert [Turn] + steps[..0] == [Turn];
    assert StepsOf(m) == [Turn] + steps;
    hide Steps, Run, CallIds, StopsAt, StepsOf, CallSteps;
    pending := {};
    NoIds();
    for j := 0 to |m.toolCalls|
      invariant Run(v, [Turn] + steps[..j]) == Open(pending, completed)
      invariant pending == CallIds(steps[..j])
    {
      var id := m.toolCalls[j].id;
      CallTaken(v, steps, j);
      if id == "" {
        BadCall(msgs, i, j, pending, completed);
        return pending, Some(CallWithoutId(i));
      }
      if id in pending || id in completed {
        BadCall(msgs, i, j, pending, completed);
        return pending, Some(DuplicateCall(id));
      }
      pending := pending + {id};
    }
    assert steps[..|m.toolCalls|] == steps;
    StepsOne(msgs, i);
    RunAppend(START, Steps(msgs[..i]), StepsOf(m));
    return pending, None;
  }

  lemma CallTaken(v: State, steps: seq<Step>, j: nat)
    requires j < |steps| && steps[j].Calls?
    ensures Run(v, [Turn] + steps[..j + 1]) == Move(Run(v, [Turn] + steps[..j]), steps[j])
    ensures CallIds(steps[..j + 1]) == CallIds(steps[..j]) + {steps[j].id}
  {
    assert steps[..j + 1] == steps[..j] + [steps[j]];
    assert [Turn] + steps[..j + 1] == [Turn] + steps[..j] + [steps[j]];
    RunOne(v, [Turn] + steps[..j], steps[j]);
    IdsSnoc(steps[..j], steps[j]);
  }

  lemma BadCall(msgs: seq<Message>, i: nat, j: nat, pending: set<string>, completed: set<string>)
    requires i < |msgs| && msgs[i].role == "assistant" && j < |msgs[i].toolCalls|
    requires Run(START, Steps(msgs[..i])) == Open({}, completed)
    requires Run(Open({}, completed), [Turn] + CallSteps(msgs[i].toolCalls)[..j]) == Open(pending, completed)
    requires pending == CallIds(CallSteps(msgs[i].toolCalls)[..j])
    ensures var id := msgs[i].toolCalls[j].id;
            && (id == "" || id in pending || id in completed ==> Run(START, Steps(msgs)) == Broken)
            && (id == "" ==> StopsAt(msgs, i, CallWithoutId(i)))
            && (id in pending || id in completed ==> StopsAt(msgs, i, DuplicateCall(id)))
  {
    var m, steps := msgs[i], CallSteps(msgs[i].toolCalls);
    var id := m.toolCalls[j].id;
    CallTaken(Open({}, completed), steps, j);
    hide Steps, Run, CallIds;
    if id == "" || id in pending || id in completed {
      PrefixRejects(msgs, i, [Turn] + steps[..j + 1]);
      assert TakenUpTo(m, Open({}, completed), j) && m.toolCalls[j].id == id;
    }
  }

  lemma NoIds()
    ensures CallIds([]) == {}
  {
  }

  lemma TurnOpens(completed: set<string>)
    ensures Run(Open({}, completed), [Turn]) == Open({}, completed)
  {
    RunOne(Open({}, completed), [], Turn);
    assert [] + [Turn] == [Turn];
  }

  lemma StepsOne(msgs: seq<Message>, i: nat)
    requires i < |msgs|
    ensures Steps(msgs[..i + 1]) == Steps(msgs[..i]) + StepsOf(msgs[i])
  {
    assert msgs[..i + 1][..i] == msgs[..i];
  }

  /** A message that is one step. */
  lemma OneStep(msgs: seq<Message>, i: nat, x: Step)
    requires i < |msgs| && StepsOf(msgs[i]) == [x]
    ensures Run(START, Steps(msgs[..i + 1])) == Move(Run(START, Steps(msgs[..i])), x)
    ensures Move(Run(START, Steps(msgs[..i])), x) == Broken ==> Run(START, Steps(msgs)) == Broken
  {
    StepsOne(msgs, i);
    RunOne(START, Steps(msgs[..i]), x);
    hide Steps, Run;
    if Move(Run(START, Steps(msgs[..i])), x) == Broken {
      StopRejects(msgs, i);
    }
  }

  lemma TurnRejects(msgs: seq<Message>, i: nat)
    requires i < |msgs| && msgs[i].role == "assistant"
    requires Run(START, Steps(msgs[..i])).Open? && Run(START, Steps(msgs[..i])).pending != {}
    ensures Run(START, Steps(msgs)) == Broken
  {
    var v := Run(START, Steps(msgs[..i]));
    RunOne(v, [], Turn);
    assert [] + [Turn] == [Turn];
    hide Steps, Run;
    PrefixRejects(msgs, i, [Turn]);
  }

  method ValidateToolConversation(msgs: seq<Message>) returns (e: Option<ProtocolError>)
    ensures e.None? <==> Accepts(msgs)
    ensures e.Some? ==> Explains(msgs, e.value)
  {
    hide Steps, Run, CallIds;
    var pending, completed: set<string> := {}, {};
    NothingRun(msgs);
    for i := 0 to |msgs|
      invariant Run(START, Steps(msgs[..i])) == Open(pending, completed)
    {
      var m := msgs[i];
      if m.role == "assistant" {
        if |pending| > 0 {
          TurnRejects(msgs, i);
          assert StopsAt(msgs, i, ResultsMissingBefore(i));
          return Some(ResultsMissingBefore(i));
        }
        pending, e := TakeCalls(msgs, i, completed);
        if e.Some? {
          return;
        }
      } else if m.role == "tool" {
        OneStep(msgs, i, Result(m.toolCallId));
        if m.toolCallId == "" {
          assert StopsAt(msgs, i, ResultWithoutId(i));
          return Some(ResultWithoutId(i));
        }
        if m.toolCallId !in pending {
          assert StopsAt(msgs, i, UnexpectedResult(m.toolCallId));
          return Some(UnexpectedResult(m.toolCallId));
        }
        pending := pending - {m.toolCallId};
        completed := completed + {m.toolCallId};
      } else {
        StepsOne(msgs, i);
        assert Steps(msgs[..i]) + [] == Steps(msgs[..i]);
      }
    }
    assert msgs[..|msgs|] == msgs;
    if |pending| > 0 {
      var id :| id in pending;
      return Some(MissingResult(id));
    }
    return None;
  }

  lemma NothingRun(msgs: seq<Message>)
    ensures Run(START, Steps(msgs[..0])) == START
  {
  }

  // ----- The machine accepts exactly what the protocol promises

  /** What holds of the steps so far, with calls still unanswered only in the open turn. */
  ghost predicate WellFormedSoFar(s: seq<Step>) {
    && NamedCalls(s) && DistinctCalls(s) && DistinctResults(s) && ResultsExpected(s)
    && forall t, c :: 0 <= c < t < |s| && s[t] == Turn && s[c].Calls? ==> exists r :: r < t && Answers(s, c, r)
  }

  lemma AnswersInPrefix(s: seq<Step>, n: nat, c: int, r: int)
    requires n <= |s| && r < n
    ensures Answers(s, c, r) <==> Answers(s[..n], c, r)
  {
  }

  lemma SoFarPrefix(s: seq<Step>)
    requires s != [] && WellFormedSoFar(s)
    ensures WellFormedSoFar(s[..|s| - 1])
  {
    var n := |s| - 1;
    var p := s[..n];
    forall r | 0 <= r < n && p[r].Result? ensures exists c :: Answers(p, c, r) {
      var c :| Answers(s, c, r);
      AnswersInPrefix(s, n, c, r);
    }
    forall t, c | 0 <= c < t < n && p[t] == Turn && p[c].Calls? ensures exists r :: r < t && Answers(p, c, r) {
      assert s[t] == Turn && s[c].Calls?;
      var r :| r < t && Answers(s, c, r);
      AnswersInPrefix(s, n, c, r);
    }
  }

  /** A call whose id has been answered was answered in its own turn. */
  lemma AnsweredCall(s: seq<Step>, c: int)
    requires WellFormedSoFar(s) && 0 <= c < |s| && s[c].Calls? && s[c].id in ResultIds(s)
    ensures exists r :: Answers(s, c, r)
  {
    var r :| 0 <= r < |s| && s[r].Result? && s[r].id == s[c].id;
    var c' :| Answers(s, c', r);
    assert c' == c;
  }

  lemma SoFarStep(p: seq<Step>, x: Step)
    requires WellFormedSoFar(p)
    ensures WellFormedSoFar(p + [x])
            <==> match x
                 case Turn => CallIds(p) <= ResultIds(p)
                 case Calls(id) => id != "" && id !in CallIds(p)
                 case Result(id) => id in CallIds(p) && id !in ResultIds(p)
  {
    var s, n := p + [x], |p|;
    assert s[..n] == p;
    forall c, r | r < n ensures Answers(s, c, r) <==> Answers(p, c, r) { AnswersInPrefix(s, n, c, r); }
    match x
    case Turn =>
      if CallIds(p) <= ResultIds(p) {
        TurnAllowed(p);
      }
      if WellFormedSoFar(s) {
        TurnNeedsAnswers(p);
      }
    case Calls(id) =>
      SoFarCall(p, id);
    case Result(id) =>
      SoFarResult(p, id);
  }

  lemma KeepsOld(p: seq<Step>, x: Step)
    requires WellFormedSoFar(p)
    ensures forall r :: 0 <= r < |p| && p[r].Result? ==> exists c :: Answers(p + [x], c, r)
    ensures forall t, c :: 0 <= c < t < |p| && p[t] == Turn && p[c].Calls? ==>
              exists r :: r < t && Answers(p + [x], c, r)
  {
    var s := p + [x];
    assert s[..|p|] == p;
    forall r | 0 <= r < |p| && p[r].Result? ensures exists c :: Answers(s, c, r) {
      var c :| Answers(p, c, r);
      AnswersInPrefix(s, |p|, c, r);
    }
    forall t, c | 0 <= c < t < |p| && p[t] == Turn && p[c].Calls? ensures exists r :: r < t && Answers(s, c, r) {
      var r :| r < t && Answers(p, c, r);
      AnswersInPrefix(s, |p|, c, r);
    }
  }

  /** Every call before a later turn has been answered. */
  lemma TurnAnswered(s: seq<Step>, t: int, c: int)
    requires WellFormedSoFar(s) && 0 <= c < t < |s| && s[t] == Turn && s[c].Calls?
    ensures exists r :: c < r < t && s[r].Result? && s[r].id == s[c].id
  {
    var r :| r < t && Answers(s, c, r);
  }

  lemma AnsweredBefore(p: seq<Step>, c: int)
    requires WellFormedSoFar(p) && CallIds(p) <= ResultIds(p) && 0 <= c < |p| && p[c].Calls?
    ensures exists r :: r < |p| && Answers(p + [Turn], c, r)
  {
    var s, n := p + [Turn], |p|;
    assert p[c].id in CallIds(p);
    AnsweredCall(p, c);
    hide WellFormedSoFar, CallIds, ResultIds;
    var r :| Answers(p, c, r);
    assert s[..n] == p;
    AnswersInPrefix(s, n, c, r);
  }

  lemma TurnAllowed(p: seq<Step>)
    requires WellFormedSoFar(p) && CallIds(p) <= ResultIds(p)
    ensures WellFormedSoFar(p + [Turn])
  {
    hide Answers, CallIds, ResultIds;
    var s, n := p + [Turn], |p|;
    KeepsOld(p, Turn);
    forall c | 0 <= c < n && p[c].Calls? ensures exists r :: r < n && Answers(s, c, r) {
      AnsweredBefore(p, c);
    }
    assert forall c :: 0 <= c < n ==> s[c] == p[c];
  }

  lemma TurnNeedsAnswers(p: seq<Step>)
    requires WellFormedSoFar(p + [Turn])
    ensures CallIds(p) <= ResultIds(p)
  {
    var s, n := p + [Turn], |p|;
    forall c | 0 <= c < n && p[c].Calls? ensures p[c].id in ResultIds(p) {
      TurnAnswered(s, n, c);
      hide WellFormedSoFar;
      var r :| c < r < n && s[r].Result? && s[r].id == s[c].id;
      assert p[r].Result? && p[r].id == p[c].id;
    }
  }

  lemma SoFarCall(p: seq<Step>, id: string)
    requires WellFormedSoFar(p)
    ensures WellFormedSoFar(p + [Calls(id)]) <==> id != "" && id !in CallIds(p)
  {
    var s, n := p + [Calls(id)], |p|;
    KeepsOld(p, Calls(id));
    assert s[n] == Calls(id) && forall c :: 0 <= c < n ==> s[c] == p[c];
  }

  lemma SoFarResult(p: seq<Step>, id: string)
    requires WellFormedSoFar(p)
    ensures WellFormedSoFar(p + [Result(id)]) <==> id in CallIds(p) && id !in ResultIds(p)
  {
    if WellFormedSoFar(p + [Result(id)]) {
      ResultWasExpected(p, id);
    }
    if id in CallIds(p) && id !in ResultIds(p) {
      ResultAllowed(p, id);
    }
  }

  lemma ResultWasExpected(p: seq<Step>, id: string)
    requires WellFormedSoFar(p + [Result(id)])
    ensures id in CallIds(p) && id !in ResultIds(p)
  {
    var s, n := p + [Result(id)], |p|;
    assert s[n] == Result(id) && forall c :: 0 <= c < n ==> s[c] == p[c];
    var c :| Answers(s, c, n);
    assert p[c].Calls? && p[c].id == id;
  }

  lemma ResultAllowed(p: seq<Step>, id: string)
    requires WellFormedSoFar(p) && id in CallIds(p) && id !in ResultIds(p)
    ensures WellFormedSoFar(p + [Result(id)])
  {
    var s, n := p + [Result(id)], |p|;
    KeepsOld(p, Result(id));
    assert s[n] == Result(id) && forall c :: 0 <= c < n ==> s[c] == p[c];
    var c :| 0 <= c < n && p[c].Calls? && p[c].id == id;
    forall t | c < t < n ensures s[t] != Turn {
      if p[t] == Turn {
        TurnAnswered(p, t, c);
      }
    }
    assert Answers(s, c, n);
    hide Answers;
  }

  lemma IdsSnoc(p: seq<Step>, x: Step)
    ensures CallIds(p + [x]) == CallIds(p) + if x.Calls? then {x.id} else {}
    ensures ResultIds(p + [x]) == ResultIds(p) + if x.Result? then {x.id} else {}
  {
    var s := p + [x];
    assert forall i :: 0 <= i < |p| ==> s[i] == p[i];
    assert s[|p|] == x;
    forall id | id in CallIds(p) ensures id in CallIds(s) {
      var i :| 0 <= i < |p| && p[i].Calls? && p[i].id == id;
      assert s[i].Calls? && s[i].id == id;
    }
    forall id | id in ResultIds(p) ensures id in ResultIds(s) {
      var i :| 0 <= i < |p| && p[i].Result? && p[i].id == id;
      assert s[i].Result? && s[i].id == id;
    }
  }

  lemma MachineStep(calls: set<string>, results: set<string>, x: Step)
    requires results <= calls && "" !in calls
    ensures Move(Open(calls - results, results), x).Open?
            <==> match x
                 case Turn => calls <= results
                 case Calls(id) => id != "" && id !in calls
                 case Result(id) => id in calls && id !in results
    ensures Move(Open(calls - results, results), x).Open? ==>
              var c, r := calls + (if x.Calls? then {x.id} else {}), results + (if x.Result? then {x.id} else {});
              Move(Open(calls - results, results), x) == Open(c - r, r) && r <= c && "" !in c
  {
    assert calls + {} == calls && results + {} == results;
    match x
    case Turn =>
    case Calls(id) =>
      if id !in calls {
        assert (calls - results) + {id} == (calls + {id}) - results;
      }
    case Result(id) =>
      if id in calls {
        assert (calls - results) - {id} == calls - (results + {id});
      }
  }

  /** The machine is open exactly while the steps are well formed so far, and it then holds the
      calls without a result, and the results. */
  lemma {:induction false} MachineFollowsProtocol(s: seq<Step>)
    ensures Run(START, s).Open? <==> WellFormedSoFar(s)
    ensures WellFormedSoFar(s) ==>
              Run(START, s) == Open(CallIds(s) - ResultIds(s), ResultIds(s)) && ResultIds(s) <= CallIds(s)
              && "" !in CallIds(s)
  {
    if s != [] {
      var p, x := s[..|s| - 1], s[|s| - 1];
      assert s == p + [x];
      MachineFollowsProtocol(p);
      if WellFormedSoFar(s) {
        SoFarPrefix(s);
      }
      hide WellFormedSoFar, CallIds, ResultIds;
      if WellFormedSoFar(p) {
        SoFarStep(p, x);
        IdsSnoc(p, x);
        MachineStep(CallIds(p), ResultIds(p), x);
      }
    }
  }

  lemma AnsweredBeforeTurn(s: seq<Step>, c: int, r: int, t: int)
    requires Answers(s, c, r) && c < t < |s| && s[t] == Turn
    ensures r < t
  {
  }

  lemma AllAnswered(s: seq<Step>)
    requires WellFormed(s)
    ensures WellFormedSoFar(s)
  {
    hide Answers, NamedCalls, DistinctCalls, DistinctResults, ResultsExpected;
    forall t, c | 0 <= c < t < |s| && s[t] == Turn && s[c].Calls?
      ensures exists r :: r < t && Answers(s, c, r)
    {
      var r :| Answers(s, c, r);
      AnsweredBeforeTurn(s, c, r, t);
    }
  }

  lemma AllAnsweredIds(s: seq<Step>)
    requires CallsAnswered(s)
    ensures CallIds(s) <= ResultIds(s)
  {
    forall c | 0 <= c < |s| && s[c].Calls? ensures s[c].id in ResultIds(s) {
      var r :| Answers(s, c, r);
    }
  }

  lemma NonePending(s: seq<Step>)
    requires WellFormedSoFar(s) && CallIds(s) <= ResultIds(s)
    ensures WellFormed(s)
  {
    forall c | 0 <= c < |s| && s[c].Calls? ensures exists r :: Answers(s, c, r) {
      assert s[c].id in CallIds(s);
      AnsweredCall(s, c);
    }
  }

  /** A conversation is accepted exactly when its steps are well formed. */
  lemma AcceptsIffWellFormed(msgs: seq<Message>)
    ensures Accepts(msgs) <==> WellFormed(Steps(msgs))
  {
    var s := Steps(msgs);
    MachineFollowsProtocol(s);
    if WellFormed(s) {
      AllAnswered(s);
      AllAnsweredIds(s);
    }
    if Accepts(msgs) {
      NonePending(s);
    }
  }

  // ----- Histories one after the other

  /** Running on from a finished history differs only by the ids that history has used. */
  lemma {:induction false} RunAfter(used: set<string>, s: seq<Step>)
    ensures Run(Open({}, used), s)
            == var v := Run(START, s);
               if v.Broken? || CallIds(s) * used != {} then Broken else Open(v.pending, v.completed + used)
    ensures Run(START, s).Open? ==> Run(START, s).pending <= CallIds(s)
  {
    if s != [] {
      var p, x := s[..|s| - 1], s[|s| - 1];
      assert s == p + [x];
      RunAfter(used, p);
      IdsSnoc(p, x);
      hide CallIds;
      if x.Calls? {
        assert (CallIds(p) + {x.id}) * used == CallIds(p) * used + {x.id} * used;
      }
    }
  }

  lemma AcceptedState(msgs: seq<Message>)
    requires Accepts(msgs)
    ensures Run(START, Steps(msgs)) == Open({}, CallIds(Steps(msgs)))
  {
    var s := Steps(msgs);
    MachineFollowsProtocol(s);
    assert CallIds(s) - ResultIds(s) == {};
  }

  lemma DisjointIff(a: set<string>, b: set<string>)
    ensures a * b == {} <==> a !! b
  {
    if a * b == {} {
      forall x | x in a ensures x !in b {
        assert x !in a * b;
      }
    }
  }

  /** After an accepted history, a continuation is accepted exactly when it is accepted alone and
      reuses no call id. */
  lemma {:induction false} AcceptsConcatenation(a: seq<Message>, b: seq<Message>)
    requires Accepts(a)
    ensures Accepts(a + b) <==> Accepts(b) && CallIds(Steps(a)) !! CallIds(Steps(b))
  {
    hide CallIds, Move;
    var s, t := Steps(a), Steps(b);
    StepsAppend(a, b);
    RunAppend(START, s, t);
    AcceptedState(a);
    RunAfter(CallIds(s), t);
    DisjointIff(CallIds(t), CallIds(s));
    var v := Run(START, t);
    assert Run(START, Steps(a + b))
           == if v.Broken? || CallIds(t) * CallIds(s) != {} then Broken
              else Open(v.pending, v.completed + CallIds(s));
  }

  /** Messages of other roles never matter. */
  lemma OtherRolesIgnored(a: seq<Message>, m: Message, b: seq<Message>)
    requires m.role != "assistant" && m.role != "tool"
    ensures Accepts(a + [m] + b) <==> Accepts(a + b)
  {
    StepsAppend(a + [m], b);
    StepsAppend(a, b);
    StepsAppend(a, [m]);
    assert [m][..0] == [] && Steps([]) == [];
    assert Steps([m]) == [];
    assert Steps(a + [m]) == Steps(a);
    assert Run(START, Steps(a + [m] + b)) == Run(START, Steps(a + b));
  }
}
