/** What the pool holds after any interleaving of picks, marks and removals. */
module ProxyHistory {
  import opened Modulo
  import opened ProxyPool
  import opened Sequences

  ghost function After(p: State, ops: seq<Op>): State {
    if ops == [] then p else Apply(After(p, ops[..|ops| - 1]), ops[|ops| - 1])
  }

  /** The failures marked for `raw` since its last success. */
  ghost function FailuresSince(ops: seq<Op>, raw: string): nat {
    if ops == [] then 0
    else
      var before := FailuresSince(ops[..|ops| - 1], raw);
      match ops[|ops| - 1]
      case Mark(r, ok, _) => if r != raw then before else if ok then 0 else before + 1
      case _ => before
  }

  /** When `raw` was last marked, if ever. */
  ghost function LastMark(ops: seq<Op>, raw: string): Instant {
    if ops == [] then 0
    else
      match ops[|ops| - 1]
      case Mark(r, _, now) => if r == raw then now else LastMark(ops[..|ops| - 1], raw)
      case _ => LastMark(ops[..|ops| - 1], raw)
  }

  /** What the history says of one proxy. */
  ghost function Told(ops: seq<Op>, raw: string): Entry {
    var f := FailuresSince(ops, raw);
    Entry(raw, f, if f == 0 then 0 else LastMark(ops, raw) + Backoff(f))
  }

  /** The members of `raws` that were never removed, in order. */
  ghost function Kept(raws: seq<string>, ops: seq<Op>): (r: seq<string>)
    ensures forall v :: v in r <==> v in raws && Op.Remove(v) !in ops
    ensures Distinct(raws) ==> Distinct(r)
  {
    if raws == [] then []
    else
      var r := Kept(raws[..|raws| - 1], ops);
      var v := raws[|raws| - 1];
      if Op.Remove(v) in ops then r else r + [v]
  }

  ghost function Expected(raws: seq<string>, ops: seq<Op>): (r: seq<Entry>)
    ensures |r| == |raws| && forall i :: 0 <= i < |r| ==> r[i] == Told(ops, raws[i])
  {
    seq(|raws|, i requires 0 <= i < |raws| => Told(ops, raws[i]))
  }

  lemma {:induction false} KeptUnlessRemoved(raws: seq<string>, ops: seq<Op>, op: Op)
    requires !op.Remove?
    ensures Kept(raws, ops + [op]) == Kept(raws, ops)
  {
    if raws != [] {
      KeptUnlessRemoved(raws[..|raws| - 1], ops, op);
    }
  }

  function Without(s: seq<string>, raw: string): seq<string> {
    var i := IndexOf(s, raw);
    if i == |s| then s else s[..i] + s[i + 1..]
  }

  lemma WithoutLast(s: seq<string>, v: string, raw: string)
    requires Distinct(s) && v !in s
    ensures Without(s + [v], raw) == if v == raw then s else Without(s, raw) + [v]
  {
    var t, i := s + [v], IndexOf(s, raw);
    assert t[..|s|] == s && s[..|s|] == s;
    if i < |s| {
      assert t[..i] == s[..i];
      Located(t, raw, i);
      assert t[i + 1..] == s[i + 1..] + [v];
    } else if v == raw {
      Located(t, raw, |s|);
    } else {
      assert raw !in t;
      assert IndexOf(t, raw) == |t|;
    }
  }

  lemma {:induction false} KeptRemoves(raws: seq<string>, ops: seq<Op>, raw: string)
    requires Distinct(raws)
    ensures Kept(raws, ops + [Op.Remove(raw)]) == Without(Kept(raws, ops), raw)
  {
    if raws != [] {
      var v, front := raws[|raws| - 1], raws[..|raws| - 1];
      KeptRemoves(front, ops, raw);
      var k := Kept(front, ops);
      assert v !in k;
      WithoutLast(k, v, raw);
      if v == raw && Op.Remove(v) !in ops {
        assert IndexOf(k, raw) == |k|;
      }
      assert Op.Remove(v) in ops + [Op.Remove(raw)] <==> Op.Remove(v) in ops || v == raw;
    }
  }

  lemma ToldStep(ops: seq<Op>, op: Op, raw: string)
    ensures Told(ops + [op], raw)
            == match op
               case Mark(r, ok, now) => if r == raw then Marked(Told(ops, raw), ok, now) else Told(ops, raw)
               case _ => Told(ops, raw)
  {
    assert (ops + [op])[..|ops|] == ops;
  }

  lemma MarkStep(raws: seq<string>, ops: seq<Op>, raw: string, ok: bool, now: Instant)
    requires Distinct(raws)
    ensures var op := Op.Mark(raw, ok, now);
            Apply(State(Expected(raws, ops), 0), op).entries == Expected(raws, ops + [op])
  {
    var s, op := Expected(raws, ops), Op.Mark(raw, ok, now);
    assert Raws(s) == raws;
    var i := IndexOf(raws, raw);
    assert i == |raws| ==> raws[..i] == raws;
    forall j | 0 <= j < |raws| ensures Apply(State(s, 0), op).entries[j] == Told(ops + [op], raws[j]) {
      ToldStep(ops, op, raws[j]);
      if i == |raws| {
        assert raws[j] in raws;
      }
    }
  }

  lemma RemoveStep(raws: seq<string>, ops: seq<Op>, raw: string)
    ensures var op := Op.Remove(raw);
            Apply(State(Expected(raws, ops), 0), op).entries == Expected(Without(raws, raw), ops + [op])
  {
    hide Backoff, Mod, FailuresSince, LastMark;
    var s, op := Expected(raws, ops), Op.Remove(raw);
    assert Raws(s) == raws;
    forall r ensures Told(ops + [op], r) == Told(ops, r) { ToldStep(ops, op, r); }
  }

  lemma PickStep(raws: seq<string>, ops: seq<Op>, now: Instant)
    ensures Expected(raws, ops + [Op.Pick(now)]) == Expected(raws, ops)
  {
    forall r ensures Told(ops + [Op.Pick(now)], r) == Told(ops, r) { ToldStep(ops, Op.Pick(now), r); }
  }

  /** Only a pick moves the cursor, and it changes nothing else. */
  lemma CursorMovesByPicks(p: State, op: Op)
    ensures !op.Pick? ==> Apply(p, op).next == p.next
    ensures op.Pick? ==> Apply(p, op).entries == p.entries
  {
    hide Mod, Backoff, IndexOf;
  }

  lemma EntriesAlone(s: seq<Entry>, n: nat, m: nat, op: Op)
    ensures Apply(State(s, n), op).entries == Apply(State(s, m), op).entries
  {
  }

  /** The entries of a pool that began fresh are exactly the proxies never removed, in their
      first order, each with the failures since its last success and the cooldown that the last
      of those failures set. */
  lemma {:induction false} PoolTellsHistory(raws: seq<string>, ops: seq<Op>)
    requires Distinct(raws)
    ensures After(Fresh(raws), ops).entries == Expected(Kept(raws, ops), ops)
  {
    if ops == [] {
      NothingRemoved(raws);
    } else {
      var before, op := ops[..|ops| - 1], ops[|ops| - 1];
      assert ops == before + [op];
      PoolTellsHistory(raws, before);
      var k, p := Kept(raws, before), After(Fresh(raws), before);
      EntriesAlone(p.entries, p.next, 0, op);
      match op
      case Pick(now) => KeptUnlessRemoved(raws, before, op); PickStep(k, before, now);
      case Mark(raw, ok, now) => KeptUnlessRemoved(raws, before, op); MarkStep(k, before, raw, ok, now);
      case Remove(raw) => KeptRemoves(raws, before, raw); RemoveStep(k, before, raw);
    }
  }

  lemma {:induction false} NothingRemoved(raws: seq<string>)
    ensures Kept(raws, []) == raws
  {
    if raws != [] {
      NothingRemoved(raws[..|raws| - 1]);
    }
  }

  /** Whatever came before, a pick takes a proxy that is not cooling down if there is one, even
      when removals have left the cursor beyond the end. */
  lemma PickAvoidsCooling(p: State, now: Instant, i: nat)
    requires i < |p.entries| && now >= p.entries[i].cooldown
    ensures now >= p.entries[PickIndex(Mask(p.entries, now), p.next)].cooldown
  {
    var avail, n := Mask(p.entries, now), |p.entries|;
    var c := Mod(p.next, n);
    var d := if c <= i then i - c else i + n - c;
    ModAdd(p.next, d, n);
    if c <= i {
      ModSmall(i, n);
    } else {
      ModOnce(i + n, n);
    }
    assert Free(avail, p.next + d);
  }

  // ----- The backoff

  function Min(a: int, b: int): int {
    if a < b then a else b
  }

  /** The f-th consecutive failure cools for min(2f, 120) seconds exactly when the product fits
      in 64 bits, or has wrapped to two minutes or more. */
  lemma BackoffExact(f: nat)
    ensures Backoff(f) == Min(2 * f, 120) * SECOND
            <==> f * 2 * SECOND < 0x8000_0000_0000_0000 || Wrap64(f * 2 * SECOND) >= MAX_BACKOFF
  {
  }

  /** The first failure count at which it does not: the cooldown ends before it begins. */
  lemma BackoffWraps()
    ensures Backoff(4_611_686_019) < 0
    ensures forall f: nat :: f < 4_611_686_019 ==> Backoff(f) == Min(2 * f, 120) * SECOND
  {
    forall f: nat | f < 4_611_686_019 ensures Backoff(f) == Min(2 * f, 120) * SECOND { BackoffExact(f); }
  }
}
