/** The walk that finds native tool calls in the frames of a stream. */
module ToolEvents {
  import opened Json
  import opened Sequences

  /** A call found at a node: its name and its arguments. The text `name|arguments` that the
      gateway remembers stands for this pair. */
  datatype Found = Found(name: string, arguments: Json)

  const NAME_KEYS := ["name", "toolName", "pluginName", "functionName"]
  const ARGUMENT_KEYS := ["arguments", "args", "parameters", "input", "functionArguments"]

  /** The first of the keys that holds a non-empty text. */
  function FirstName(m: map<string, Json>, keys: seq<string>): string {
    if keys == [] then ""
    else if keys[0] in m && m[keys[0]].AsText() != "" then m[keys[0]].AsText()
    else FirstName(m, keys[1..])
  }

  /** The first of the keys that is there at all, even with null. */
  function FirstPresent(m: map<string, Json>, keys: seq<string>): Option<Json> {
    if keys == [] then None
    else if keys[0] in m then Some(m[keys[0]])
    else FirstPresent(m, keys[1..])
  }

  /** `extractToolFields`. */
  function ToolFields(m: map<string, Json>): Option<Found> {
    var name, arguments := FirstName(m, NAME_KEYS), FirstPresent(m, ARGUMENT_KEYS);
    if name == "" || arguments.None? then None else Some(Found(name, arguments.value))
  }

  /** The keys that may name a call, and that may hold its arguments, in order of precedence. */
  predicate Names(m: map<string, Json>, i: int) {
    0 <= i < 4 && NAME_KEYS[i] in m && m[NAME_KEYS[i]].Text? && m[NAME_KEYS[i]].s != ""
  }

  predicate Holds(m: map<string, Json>, i: int) {
    0 <= i < 5 && ARGUMENT_KEYS[i] in m
  }

  lemma {:induction false} FirstNameIs(m: map<string, Json>, k: nat)
    requires k <= 4 && (forall j :: 0 <= j < k ==> !Names(m, j))
    ensures FirstName(m, NAME_KEYS) == FirstName(m, NAME_KEYS[k..])
    ensures Names(m, k) ==> FirstName(m, NAME_KEYS) == m[NAME_KEYS[k]].s
    ensures k == 4 ==> FirstName(m, NAME_KEYS) == ""
  {
    if k > 0 {
      FirstNameIs(m, k - 1);
      assert !Names(m, k - 1) && NAME_KEYS[k - 1..][1..] == NAME_KEYS[k..];
    }
  }

  lemma {:induction false} FirstPresentIs(m: map<string, Json>, k: nat)
    requires k <= 5 && (forall j :: 0 <= j < k ==> !Holds(m, j))
    ensures FirstPresent(m, ARGUMENT_KEYS) == FirstPresent(m, ARGUMENT_KEYS[k..])
    ensures Holds(m, k) ==> FirstPresent(m, ARGUMENT_KEYS) == Some(m[ARGUMENT_KEYS[k]])
    ensures k == 5 ==> FirstPresent(m, ARGUMENT_KEYS) == None
  {
    if k > 0 {
      FirstPresentIs(m, k - 1);
      assert !Holds(m, k - 1) && ARGUMENT_KEYS[k - 1..][1..] == ARGUMENT_KEYS[k..];
    }
  }

  /** A node is a call exactly when one of the keys names it and one of the keys is there for its
      arguments; the first of each counts. */
  lemma FieldsExactly(m: map<string, Json>, i: nat, k: nat)
    requires i <= 4 && (forall j :: 0 <= j < i ==> !Names(m, j)) && (i < 4 ==> Names(m, i))
    requires k <= 5 && (forall j :: 0 <= j < k ==> !Holds(m, j)) && (k < 5 ==> Holds(m, k))
    ensures ToolFields(m)
            == if i < 4 && k < 5 then Some(Found(m[NAME_KEYS[i]].s, m[ARGUMENT_KEYS[k]])) else None
  {
    FirstNameIs(m, i);
    FirstPresentIs(m, k);
    hide FirstName, FirstPresent;
  }

  /** The calls at the nodes of a tree. */
  ghost function CallsAt(x: Json): set<Found> {
    match x
    case Array(items) => set i, f | 0 <= i < |items| && f in CallsAt(items[i]) :: f
    case Object(m) => Here(m) + set k, f | k in m && f in CallsAt(m[k]) :: f
    case _ => {}
  }

  /** The calls below the first `n` items, and below some of the keys. */
  ghost function CallsAtItems(items: seq<Json>, n: nat): set<Found>
    requires n <= |items|
  {
    set i, f | 0 <= i < n && f in CallsAt(items[i]) :: f
  }

  ghost function CallsAtKeys(m: map<string, Json>, keys: set<string>): set<Found> {
    set k, f | k in keys && k in m && f in CallsAt(m[k]) :: f
  }

  lemma ItemsNext(items: seq<Json>, n: nat)
    requires n < |items|
    ensures CallsAtItems(items, n + 1) == CallsAtItems(items, n) + CallsAt(items[n])
  {
  }

  lemma KeysNext(m: map<string, Json>, keys: set<string>, k: string)
    requires k in m
    ensures CallsAtKeys(m, keys + {k}) == CallsAtKeys(m, keys) + CallsAt(m[k])
  {
  }

  lemma CallsAtNode(x: Json)
    ensures x.Array? ==> CallsAt(x) == CallsAtItems(x.items, |x.items|) && CallsAtItems(x.items, 0) == {}
    ensures x.Object? ==> CallsAt(x) == Here(x.fields) + CallsAtKeys(x.fields, x.fields.Keys)
    ensures x.Object? ==> CallsAtKeys(x.fields, {}) == {}
    ensures !x.Array? && !x.Object? ==> CallsAt(x) == {}
  {
  }

  function Here(m: map<string, Json>): set<Found> {
    if ToolFields(m).Some? then {ToolFields(m).value} else {}
  }

  ghost function CallsIn(frames: seq<Json>): set<Found> {
    if frames == [] then {} else CallsIn(frames[..|frames| - 1]) + CallsAt(frames[|frames| - 1])
  }

  /** The walk, with the set of calls seen so far, which all frames of a stream share. */
  class Walker {
    var seen: set<Found>
    var out: seq<Found>

    /** What was emitted is what was seen, each once. */
    ghost predicate Valid()
      reads this
    {
      seen == Members(out) && Distinct(out)
    }

    constructor ()
      ensures Valid() && seen == {} && out == []
    {
      seen, out := {}, [];
    }

    method Note(m: map<string, Json>)
      requires Valid()
      modifies this
      ensures Valid() && seen == old(seen) + Here(m) && old(out) <= out
    {
      var f := ToolFields(m);
      if f.Some? && f.value !in seen {
        seen := seen + {f.value};
        out := out + [f.value];
      }
    }

    /** Visits a tree; the children of an object come in an arbitrary order. */
    method Walk(x: Json)
      requires Valid()
      modifies this
      ensures Valid() && seen == old(seen) + CallsAt(x) && old(out) <= out
      decreases x
    {
      hide CallsAt, CallsAtItems, CallsAtKeys, Here, Members, Distinct;
      CallsAtNode(x);
      match x {
        case Array(items) =>
          for i := 0 to |items|
            invariant Valid() && old(out) <= out
            invariant seen == old(seen) + CallsAtItems(items, i)
          {
            ItemsNext(items, i);
            Walk(items[i]);
          }
        case Object(m) =>
          Note(m);
          var todo := m.Keys;
          assert m.Keys - todo == {};
          while todo != {}
            invariant todo <= m.Keys && Valid() && old(out) <= out
            invariant seen == old(seen) + Here(m) + CallsAtKeys(m, m.Keys - todo)
          {
            var k :| k in todo;
            KeysNext(m, m.Keys - todo, k);
            assert m.Keys - todo + {k} == m.Keys - (todo - {k});
            Walk(m[k]);
            todo := todo - {k};
          }
          assert m.Keys - todo == m.Keys;
        case _ =>
      }
    }

    /** `extractToolEvents` on one frame: what it emits is new, and is all that is new. */
    method ExtractToolEvents(frame: Json) returns (events: seq<Found>)
      requires Valid()
      modifies this
      ensures Valid() && out == old(out) + events
      ensures seen == old(seen) + CallsAt(frame)
      ensures Distinct(events) && Members(events) == CallsAt(frame) - old(seen)
    {
      hide CallsAt;
      ghost var before := out;
      var n := |out|;
      Walk(frame);
      events := out[n..];
      assert out == before + events;
      MembersAppend(before, events);
    }
  }

  /** Over a whole stream, each call is emitted exactly once if it stands at some node of some
      frame, and never otherwise, whatever the order in which objects are visited. */
  method ExtractFromStream(frames: seq<Json>) returns (events: seq<Found>)
    ensures multiset(events) == multiset(CallsIn(frames))
  {
    hide CallsAt;
    var w := new Walker();
    events := [];
    for i := 0 to |frames|
      invariant fresh(w) && w.Valid() && w.out == events
      invariant w.seen == CallsIn(frames[..i])
    {
      assert frames[..i + 1][..i] == frames[..i];
      var found := w.ExtractToolEvents(frames[i]);
      events := events + found;
    }
    assert frames[..|frames|] == frames;
    DistinctIsItsMembers(events);
  }

  /** So two visits of the same stream emit the same calls, each as often. */
  method SameCallsEmitted(frames: seq<Json>) returns (a: seq<Found>, b: seq<Found>)
    ensures multiset(a) == multiset(b)
  {
    a := ExtractFromStream(frames);
    b := ExtractFromStream(frames);
  }

  /** What the walks over the frames of a stream may have emitted, frame by frame: each call of a
      frame that no earlier frame had, once, in some order. */
  ghost predicate Walked(frames: seq<Json>, walks: seq<seq<Found>>) {
    && |walks| == |frames|
    && forall i :: 0 <= i < |frames| ==>
         Distinct(walks[i]) && Members(walks[i]) == CallsAt(frames[i]) - CallsIn(frames[..i])
  }

  lemma WalkedNext(frames: seq<Json>, walks: seq<seq<Found>>, frame: Json, found: seq<Found>)
    requires Walked(frames, walks)
    requires Distinct(found) && Members(found) == CallsAt(frame) - CallsIn(frames)
    ensures Walked(frames + [frame], walks + [found])
    ensures CallsIn(frames + [frame]) == CallsIn(frames) + CallsAt(frame)
  {
    hide CallsAt;
    var fs, ws := frames + [frame], walks + [found];
    assert fs[..|frames|] == frames;
    forall i | 0 <= i < |fs| ensures Distinct(ws[i]) && Members(ws[i]) == CallsAt(fs[i]) - CallsIn(fs[..i]) {
      if i < |frames| {
        assert fs[..i] == frames[..i] && ws[i] == walks[i];
      }
    }
  }

  lemma WalkedFront(frames: seq<Json>, walks: seq<seq<Found>>)
    requires Walked(frames, walks) && frames != []
    ensures Walked(frames[..|frames| - 1], walks[..|frames| - 1])
  {
    var fs := frames[..|frames| - 1];
    assert forall i :: 0 <= i < |fs| ==> fs[..i] == frames[..i];
  }

  // ----- The second source of tool events

  /** The tool events that `classifyUpdateMessages` makes of the messages of a frame: it shares
      no memory with the walk, nor with itself. */
  function MessageCallsOf(msgs: seq<Json>): seq<Found> {
    if msgs == [] then []
    else
      var m := msgs[|msgs| - 1];
      MessageCallsOf(msgs[..|msgs| - 1])
      + if m.Object? && ToolFields(m.fields).Some? then [ToolFields(m.fields).value] else []
  }

  function Messages(frame: Json): seq<Json> {
    if frame.Get("messages").Array? then frame.Get("messages").items else []
  }

  function AllMessageCalls(frames: seq<Json>): seq<Found> {
    if frames == [] then []
    else AllMessageCalls(frames[..|frames| - 1]) + MessageCallsOf(Messages(frames[|frames| - 1]))
  }

  lemma {:induction false} MessageCallsFoundIn(msgs: seq<Json>)
    ensures forall f :: f in MessageCallsOf(msgs) ==> f in CallsAt(Array(msgs))
  {
    if msgs != [] {
      var front, m := msgs[..|msgs| - 1], msgs[|msgs| - 1];
      MessageCallsFoundIn(front);
      forall f | f in MessageCallsOf(msgs) ensures f in CallsAt(Array(msgs)) {
        if f in MessageCallsOf(front) {
          var i :| 0 <= i < |front| && f in CallsAt(front[i]);
          assert front[i] == msgs[i];
        } else {
          assert f in CallsAt(m);
        }
      }
    }
  }

  /** The walk finds whatever a message carries. */
  lemma MessageCallsFound(frame: Json)
    ensures forall f :: f in MessageCallsOf(Messages(frame)) ==> f in CallsAt(frame)
  {
    if frame.Get("messages").Array? {
      var msgs := frame.Get("messages").items;
      MessageCallsFoundIn(msgs);
      assert frame.fields["messages"] == Array(msgs);
    }
  }

  lemma {:induction false} AllMessageCallsFound(frames: seq<Json>)
    ensures forall f :: f in AllMessageCalls(frames) ==> f in CallsIn(frames)
  {
    if frames != [] {
      AllMessageCallsFound(frames[..|frames| - 1]);
      MessageCallsFound(frames[|frames| - 1]);
      hide CallsAt, MessageCallsOf;
    }
  }

  /** The calls that the handler of a stream is given: for each frame those of the walk, and then
      those that its messages carry. */
  function Forwarded(frames: seq<Json>, walks: seq<seq<Found>>): seq<Found>
    requires |walks| == |frames|
  {
    if frames == [] then []
    else
      var n := |frames| - 1;
      Forwarded(frames[..n], walks[..n]) + walks[n] + MessageCallsOf(Messages(frames[n]))
  }

  /** The handler is given each call once for the walk, and once more for every message that
      carries it. */
  lemma {:induction false} ForwardedCounts(frames: seq<Json>, walks: seq<seq<Found>>)
    requires Walked(frames, walks)
    ensures multiset(Forwarded(frames, walks)) == multiset(CallsIn(frames)) + multiset(AllMessageCalls(frames))
  {
    if frames != [] {
      var n := |frames| - 1;
      WalkedFront(frames, walks);
      ForwardedCounts(frames[..n], walks[..n]);
      DistinctIsItsMembers(walks[n]);
      NewOnes(CallsIn(frames[..n]), CallsAt(frames[n]));
      hide Walked, CallsAt, MessageCallsOf, Distinct, Members;
    }
  }

  lemma NewOnes(a: set<Found>, b: set<Found>)
    ensures multiset(a + b) == multiset(a) + multiset(b - a)
  {
    forall x ensures multiset(a + b)[x] == multiset(a)[x] + multiset(b - a)[x] {}
  }

  /** So the handler is given each call exactly once only if no message carries any. */
  lemma OnceIffNoMessageCarriesACall(frames: seq<Json>, walks: seq<seq<Found>>)
    requires Walked(frames, walks)
    ensures Distinct(Forwarded(frames, walks)) <==> AllMessageCalls(frames) == []
  {
    var events, extra := Forwarded(frames, walks), AllMessageCalls(frames);
    ForwardedCounts(frames, walks);
    if extra == [] {
      AtMostOnceIsDistinct(events);
    } else {
      var f := extra[0];
      AllMessageCallsFound(frames);
      assert f in CallsIn(frames) && f in multiset(extra);
      assert multiset(events)[f] >= 2;
      if Distinct(events) {
        OccursOnce(events, f);
      }
    }
  }

  /** A message that carries a call. */
  const CARRIER := Object(map["name" := Text("f"), "arguments" := Object(map[])])

  /** One such message is enough. */
  lemma CarriedCallIsForwardedTwice(walks: seq<seq<Found>>)
    requires Walked([Object(map["messages" := Array([CARRIER])])], walks)
    ensures !Distinct(Forwarded([Object(map["messages" := Array([CARRIER])])], walks))
    ensures multiset(Forwarded([Object(map["messages" := Array([CARRIER])])], walks))
            [Found("f", Object(map[]))] == 2
  {
    var frame := Object(map["messages" := Array([CARRIER])]);
    var f := Found("f", Object(map[]));
    assert ARGUMENT_KEYS[0] == "arguments" && NAME_KEYS[0] == "name";
    assert ToolFields(CARRIER.fields) == Some(f);
    assert Messages(frame) == [CARRIER];
    assert [CARRIER][..0] == [] && [frame][..0] == [];
    assert MessageCallsOf([CARRIER]) == [f];
    assert AllMessageCalls([frame]) == [f];
    OnceIffNoMessageCarriesACall([frame], walks);
    ForwardedCounts([frame], walks);
    AllMessageCallsFound([frame]);
    assert f in CallsIn([frame]);
  }
}
