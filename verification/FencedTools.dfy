/** Tool calls written as fenced code blocks. The regular expression is not modelled: its
matches are given, and each begins with a fence.
*/
module FencedTools {
  import opened Json
  import opened Runes
  import opened Tools

  /** A match: the span of the text, the language tag, and the body. */
  datatype Match = Match(start: nat, end: nat, name: string, body: string)

  predicate Matches(text: string, ms: seq<Match>) {
    forall i :: 0 <= i < |ms| ==> ms[i].start < ms[i].end <= |text| && FenceAt(text, ms[i].start)
  }

  /** `canon` trims and re-encodes a JSON text, and is `None` on anything else. */
  predicate Accepts(m: Match, tools: seq<Json>, choice: Json, canon: string -> Option<string>) {
    m.name in AllowedNames(tools) && ChoiceAllows(choice, m.name) && canon(m.body).Some?
  }

  /** The call of an accepted match that `n` accepted matches precede. */
  function CallOf(m: Match, n: nat, tools: seq<Json>, canon: string -> Option<string>,
                  callID: (string, string, nat) -> string): ToolCall
  {
    var arguments := if canon(m.body).Some? then canon(m.body).value else "";
    ToolCall(callID(m.name, arguments, n), ToolType(m.name, tools), m.name, arguments)
  }

  /** The positions of the accepted matches, ascending. */
  function Accepted(ms: seq<Match>, tools: seq<Json>, choice: Json, canon: string -> Option<string>): (r: seq<nat>)
    ensures forall i :: i in r <==> 0 <= i < |ms| && Accepts(ms[i], tools, choice, canon)
    ensures forall i, j :: 0 <= i < j < |r| ==> r[i] < r[j]
  {
    if ms == [] then []
    else
      var n := |ms| - 1;
      var r := Accepted(ms[..n], tools, choice, canon);
      assert forall i :: 0 <= i < |r| ==> r[i] in r;
      if Accepts(ms[n], tools, choice, canon) then r + [n] else r
  }

  function FencedCalls(ms: seq<Match>, tools: seq<Json>, choice: Json, canon: string -> Option<string>,
                       callID: (string, string, nat) -> string): seq<ToolCall>
  {
    if ms == [] then []
    else
      var m, before := ms[|ms| - 1], FencedCalls(ms[..|ms| - 1], tools, choice, canon, callID);
      if Accepts(m, tools, choice, canon) then before + [CallOf(m, |before|, tools, canon, callID)] else before
  }

  /** The calls are those of the accepted matches, in order, numbered by their place among them. */
  lemma {:induction false} FencedCallsExactly(ms: seq<Match>, tools: seq<Json>, choice: Json,
      canon: string -> Option<string>, callID: (string, string, nat) -> string)
    ensures var a, out := Accepted(ms, tools, choice, canon), FencedCalls(ms, tools, choice, canon, callID);
            && |out| == |a|
            && forall k :: 0 <= k < |a| ==> a[k] < |ms| && out[k] == CallOf(ms[a[k]], k, tools, canon, callID)
  {
    hide Accepts, CallOf;
    if ms != [] {
      var n := |ms| - 1;
      FencedCallsExactly(ms[..n], tools, choice, canon, callID);
      var a, out := Accepted(ms, tools, choice, canon), FencedCalls(ms, tools, choice, canon, callID);
      var b, before := Accepted(ms[..n], tools, choice, canon), FencedCalls(ms[..n], tools, choice, canon, callID);
      assert b <= a && before <= out;
      forall k | 0 <= k < |b| ensures a[k] < |ms| && out[k] == CallOf(ms[a[k]], k, tools, canon, callID) {
        assert ms[..n][b[k]] == ms[a[k]];
      }
    }
  }

  method FencedToolCalls(ms: seq<Match>, tools: seq<Json>, choice: Json, canon: string -> Option<string>,
                         callID: (string, string, nat) -> string) returns (out: seq<ToolCall>)
    ensures out == FencedCalls(ms, tools, choice, canon, callID)
  {
    var allowed := AllowedNames(tools);
    out := [];
    for i := 0 to |ms|
      invariant out == FencedCalls(ms[..i], tools, choice, canon, callID)
    {
      var m := ms[i];
      assert ms[..i + 1][..i] == ms[..i];
      if m.name !in allowed || !ChoiceAllows(choice, m.name) {
        continue;
      }
      var arguments := canon(m.body);
      if arguments.None? {
        continue;
      }
      out := out
        + [ToolCall(callID(m.name, arguments.value, |out|), ToolType(m.name, tools), m.name, arguments.value)];
    }
    assert ms[..|ms|] == ms;
  }

  /** A match is accepted exactly when its name is declared and allowed, and its body is JSON; and
      the call made of it carries the name, the type declared for it, and the body as JSON text. */
  lemma AcceptedMatchSays(m: Match, n: nat, tools: seq<Json>, choice: Json, canon: string -> Option<string>,
                          callID: (string, string, nat) -> string)
    ensures Accepts(m, tools, choice, canon)
            <==> && m.name != "" && (exists i :: 0 <= i < |tools| && DeclaresName(tools[i], m.name))
                 && ChoiceAllows(choice, m.name) && canon(m.body).Some?
    ensures Accepts(m, tools, choice, canon) ==>
              var c := CallOf(m, n, tools, canon, callID);
              && c.name == m.name && Some(c.arguments) == canon(m.body)
              && c.kind == ToolType(m.name, tools) && c.id == callID(m.name, c.arguments, n)
  {
  }
}
