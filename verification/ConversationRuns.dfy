/** How the state machine of the tool protocol takes a stretch of calls or of results. */
module ConversationRuns {
  import opened Conversation
  import opened Sequences

  function AsResults(ids: seq<string>): (r: seq<Step>)
    ensures |r| == |ids| && forall i :: 0 <= i < |r| ==> r[i] == Result(ids[i])
  {
    seq(|ids|, i requires 0 <= i < |ids| => Result(ids[i]))
  }

  function AsCalls(ids: seq<string>): (r: seq<Step>)
    ensures |r| == |ids| && forall i :: 0 <= i < |r| ==> r[i] == Calls(ids[i])
  {
    seq(|ids|, i requires 0 <= i < |ids| => Calls(ids[i]))
  }

  /** A stretch of results keeps the machine open exactly when each answers a pending call of its
      own. */
  lemma {:induction false} RunResults(pending: set<string>, completed: set<string>, ids: seq<string>)
    requires "" !in pending
    ensures Run(Open(pending, completed), AsResults(ids))
            == if Distinct(ids) && Members(ids) <= pending then Open(pending - Members(ids), completed + Members(ids)) else Broken
  {
    if ids == [] {
      assert Members(ids) == {};
      assert pending - {} == pending && completed + {} == completed;
    } else {
      var front, id := ids[..|ids| - 1], ids[|ids| - 1];
      assert AsResults(ids) == AsResults(front) + [Result(id)];
      MembersNext(ids);
      hide Distinct, Members, AsResults;
      RunResults(pending, completed, front);
      RunOne(Open(pending, completed), AsResults(front), Result(id));
      assert pending - Members(front) - {id} == pending - Members(ids);
      assert completed + Members(front) + {id} == completed + Members(ids);
    }
  }

  /** A stretch of calls does exactly when they are named, distinct and new. */
  lemma {:induction false} RunCalls(completed: set<string>, ids: seq<string>)
    ensures Run(Open({}, completed), AsCalls(ids))
            == if Distinct(ids) && "" !in Members(ids) && Members(ids) !! completed then Open(Members(ids), completed) else Broken
  {
    if ids == [] {
      assert Members(ids) == {};
    } else {
      var front, id := ids[..|ids| - 1], ids[|ids| - 1];
      assert AsCalls(ids) == AsCalls(front) + [Calls(id)];
      MembersNext(ids);
      hide Distinct, Members, AsCalls;
      RunCalls(completed, front);
      RunOne(Open({}, completed), AsCalls(front), Calls(id));
    }
  }

  /** Opening a turn and making calls. */
  lemma RunTurn(completed: set<string>, ids: seq<string>)
    ensures Run(Open({}, completed), [Turn] + AsCalls(ids))
            == if Distinct(ids) && "" !in Members(ids) && Members(ids) !! completed then Open(Members(ids), completed) else Broken
  {
    var w := Open({}, completed);
    TurnOpens(completed);
    hide Distinct, Members, AsCalls;
    RunAppend(w, [Turn], AsCalls(ids));
    RunCalls(completed, ids);
  }
}
