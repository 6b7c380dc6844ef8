/** The scheduler of outbound proxies: round robin that skips cooling entries, a linear
capped backoff, and removal that leaves the cursor alone.
*/
module ProxyPool {
  import opened Modulo
  import opened Sequences

  // Nanoseconds; 0 is Go's zero time.
  type Instant = int

  const SECOND: nat := 1_000_000_000
  const MAX_BACKOFF: nat := 120 * SECOND

  // ----- Values

  datatype Entry = Entry(raw: string, failures: nat, cooldown: Instant)
  datatype State = State(entries: seq<Entry>, next: nat)

  function Raws(s: seq<Entry>): (r: seq<string>)
    ensures |r| == |s| && forall i :: 0 <= i < |s| ==> r[i] == s[i].raw
  {
    seq(|s|, i requires 0 <= i < |s| => s[i].raw)
  }

  /** Multiplication of `time.Duration` wraps at 64 bits. */
  function Wrap64(x: int): int {
    (x + 0x8000_0000_0000_0000) % 0x1_0000_0000_0000_0000 - 0x8000_0000_0000_0000
  }

  function Backoff(failures: nat): int {
    var d := Wrap64(failures * 2 * SECOND);
    if d > MAX_BACKOFF then MAX_BACKOFF else d
  }

  function Marked(e: Entry, ok: bool, now: Instant): Entry {
    if ok then Entry(e.raw, 0, 0)
    else Entry(e.raw, e.failures + 1, now + Backoff(e.failures + 1))
  }

  /** Which entries are not cooling down. */
  function Mask(s: seq<Entry>, now: Instant): (r: seq<bool>)
    ensures |r| == |s| && forall i :: 0 <= i < |s| ==> r[i] == (now >= s[i].cooldown)
  {
    seq(|s|, i requires 0 <= i < |s| => now >= s[i].cooldown)
  }

  predicate Free(avail: seq<bool>, x: nat)
    requires avail != []
  {
    avail[Mod(x, |avail|)]
  }

  /** The first free position from `x` on, going round the list, or `limit`. */
  function FirstFree(avail: seq<bool>, x: nat, limit: nat): (r: nat)
    requires avail != [] && x <= limit
    ensures x <= r <= limit
    ensures forall y :: x <= y < r ==> !Free(avail, y)
    ensures r < limit ==> Free(avail, r)
    decreases limit - x
  {
    if x == limit || Free(avail, x) then x else FirstFree(avail, x + 1, limit)
  }

  function PickPosition(avail: seq<bool>, next: nat): nat
    requires avail != []
  {
    var x := FirstFree(avail, next, next + |avail|);
    if x < next + |avail| then x else next
  }

  function PickIndex(avail: seq<bool>, next: nat): (r: nat)
    requires avail != []
    ensures r < |avail|
  {
    Mod(PickPosition(avail, next), |avail|)
  }

  function IndexOf(s: seq<string>, raw: string): (r: nat)
    ensures r <= |s| && raw !in s[..r] && (r < |s| ==> s[r] == raw)
  {
    if s == [] || s[0] == raw then 0
    else
      var r := 1 + IndexOf(s[1..], raw);
      assert s[..r] == [s[0]] + s[1..][..r - 1];
      r
  }

  datatype Op = Pick(now: Instant) | Mark(raw: string, ok: bool, now: Instant) | Remove(raw: string)

  function Apply(p: State, op: Op): State {
    match op
    case Pick(now) =>
      if p.entries == [] then p
      else p.(next := Mod(PickPosition(Mask(p.entries, now), p.next) + 1, |p.entries|))
    case Mark(raw, ok, now) =>
      var i := IndexOf(Raws(p.entries), raw);
      if i == |p.entries| then p else p.(entries := p.entries[i := Marked(p.entries[i], ok, now)])
    case Remove(raw) =>
      var i := IndexOf(Raws(p.entries), raw);
      if i == |p.entries| then p else p.(entries := p.entries[..i] + p.entries[i + 1..])
  }

  // ----- The pool

  class PoolEntry {
    const raw: string
    var failures: nat
    var cooldown: Instant

    constructor (raw: string)
      ensures this.raw == raw && failures == 0 && cooldown == 0
    {
      this.raw := raw;
      failures, cooldown := 0, 0;
    }

    ghost function Value(): Entry
      reads this
    {
      Entry(raw, failures, cooldown)
    }
  }

  ghost function Values(s: seq<PoolEntry>): (r: seq<Entry>)
    reads s
    ensures |r| == |s| && forall i :: 0 <= i < |s| ==> r[i] == s[i].Value()
  {
    seq(|s|, i requires 0 <= i < |s| reads s => s[i].Value())
  }

  class Pool {
    var entries: seq<PoolEntry>
    var next: nat

    ghost function Value(): State
      reads this, entries
    {
      State(Values(entries), next)
    }

    ghost predicate Valid()
      reads this, entries
    {
      Distinct(Raws(Values(entries)))
    }

    constructor ()
      ensures entries == [] && next == 0
    {
      entries, next := [], 0;
    }

    /** The entry to send the next request through, or null from an empty pool. */
    method Pick(now: Instant) returns (e: PoolEntry?)
      modifies this`next
      ensures Value() == Apply(old(Value()), Op.Pick(now))
      ensures if entries == [] then e == null
              else e == entries[PickIndex(Mask(Values(entries), now), old(next))]
    {
      hide Mod, FirstFree, Mask, IndexOf, Marked;
      if |entries| == 0 {
        return null;
      }
      ghost var mask := Mask(Values(entries), now);
      ghost var limit := next + |entries|;
      var i := 0;
      while i < |entries|
        invariant 0 <= i <= |entries| && next == old(next)
        invariant FirstFree(mask, next, limit) == FirstFree(mask, next + i, limit)
      {
        e := entries[Mod(next + i, |entries|)];
        assert Free(mask, next + i) == (now >= e.cooldown);
        FreeOrNext(mask, next + i, limit);
        if now < e.cooldown {
          i := i + 1;
          continue;
        }
        next := Mod(next + i + 1, |entries|);
        return;
      }
      e := entries[Mod(next, |entries|)];
      next := Mod(next + 1, |entries|);
    }

    method Mark(raw: string, ok: bool, now: Instant)
      requires Valid()
      modifies entries
      ensures Valid() && Value() == Apply(old(Value()), Op.Mark(raw, ok, now))
    {
      hide IndexOf, Mod, Mask, Wrap64, PickPosition;
      ghost var raws, was := Raws(Values(entries)), Values(entries);
      var k := 0;
      while k < |entries|
        invariant 0 <= k <= |entries|
        invariant raw !in raws[..k] && Values(entries) == was
      {
        var e := entries[k];
        if e.raw == raw {
          Located(raws, raw, k);
          assert forall i :: 0 <= i < |entries| && i != k ==> raws[i] != raws[k] && entries[i] != e;
          if ok {
            e.failures, e.cooldown := 0, 0;
          } else {
            e.failures := e.failures + 1;
            var d := Wrap64(e.failures * 2 * SECOND);
            if d > MAX_BACKOFF {
              d := MAX_BACKOFF;
            }
            e.cooldown := now + d;
          }
          assert e.Value() == Marked(was[k], ok, now);
          hide Marked;
          assert Values(entries) == was[k := Marked(was[k], ok, now)];
          assert Raws(Values(entries)) == raws;
          return;
        }
        assert raws[..k + 1] == raws[..k] + [raws[k]];
        k := k + 1;
      }
      assert raws[..k] == raws;
    }

    method Remove(raw: string)
      requires Valid()
      modifies this`entries
      ensures Valid() && Value() == Apply(old(Value()), Op.Remove(raw))
    {
      hide IndexOf, Mod, Mask, Marked, PickPosition;
      ghost var raws, was := Raws(Values(entries)), Values(entries);
      var k := 0;
      while k < |entries|
        invariant 0 <= k <= |entries|
        invariant raw !in raws[..k] && entries == old(entries)
      {
        if entries[k].raw == raw {
          Located(raws, raw, k);
          ValuesWithout(entries, k);
          DistinctWithout(raws, k);
          entries := entries[..k] + entries[k + 1..];
          return;
        }
        assert raws[..k + 1] == raws[..k] + [raws[k]];
        k := k + 1;
      }
      assert raws[..k] == raws;
    }
  }

  lemma FreeOrNext(avail: seq<bool>, x: nat, limit: nat)
    requires avail != [] && x < limit
    ensures FirstFree(avail, x, limit) == if Free(avail, x) then x else FirstFree(avail, x + 1, limit)
    ensures FirstFree(avail, limit, limit) == limit
  {
    hide Mod;
  }

  lemma ValuesWithout(entries: seq<PoolEntry>, k: nat)
    requires k < |entries|
    ensures Values(entries[..k] + entries[k + 1..]) == Values(entries)[..k] + Values(entries)[k + 1..]
    ensures Raws(Values(entries[..k] + entries[k + 1..])) == Raws(Values(entries))[..k] + Raws(Values(entries))[k + 1..]
  {
  }

  lemma DistinctWithout(raws: seq<string>, k: nat)
    requires Distinct(raws) && k < |raws|
    ensures Distinct(raws[..k] + raws[k + 1..])
  {
    var s := raws[..k] + raws[k + 1..];
    forall i, j | 0 <= i < j < |s| ensures s[i] != s[j] {
      assert s[i] == raws[if i < k then i else i + 1] && s[j] == raws[if j < k then j else j + 1];
    }
  }

  class Dialer {
    var sticky: PoolEntry?

    constructor ()
      ensures sticky == null
    {
      sticky := null;
    }

    /** The proxy to dial through; null stands for a direct connection. */
    method Choose(pool: Pool, now: Instant) returns (e: PoolEntry?)
      modifies this, pool`next
      ensures e == sticky
      ensures pool.Value() == if old(sticky) != null then old(pool.Value()) else Apply(old(pool.Value()), Op.Pick(now))
      ensures if old(sticky) != null then e == old(sticky)
              else if pool.entries == [] then e == null
              else e == pool.entries[PickIndex(old(Mask(Values(pool.entries), now)), old(pool.next))]
    {
      hide Apply, Mask, PickIndex;
      e := sticky;
      if e == null {
        e := pool.Pick(now);
        sticky := e;
      }
    }

    /** The end of a dial. Another dial may have begun or ended since, and so a failure gives up
        the proxy only if it is still the one in use. */
    method Settle(pool: Pool, e: PoolEntry, reached: bool, later: Instant)
      requires pool.Valid()
      modifies this, pool.entries
      ensures pool.Valid() && pool.Value() == Apply(old(pool.Value()), Op.Mark(e.raw, reached, later))
      ensures sticky == if !reached && old(sticky) == e then null else old(sticky)
    {
      hide Apply;
      pool.Mark(e.raw, reached, later);
      if !reached {
        if sticky == e {
          sticky := null;
        }
      }
    }

    /** One connection by itself. The proxy is kept until it fails, even while it cools down or
        after it has left the pool. */
    method Dial(pool: Pool, now: Instant, reached: bool, later: Instant) returns (e: PoolEntry?)
      requires pool.Valid()
      modifies this, pool`next, pool.entries
      ensures pool.Valid() && pool.entries == old(pool.entries)
      ensures if old(sticky) != null then e == old(sticky)
              else if pool.entries == [] then e == null
              else e == pool.entries[PickIndex(old(Mask(Values(pool.entries), now)), old(pool.next))]
      ensures pool.Value()
              == var q := if old(sticky) != null then old(pool.Value()) else Apply(old(pool.Value()), Op.Pick(now));
                 if e == null then q else Apply(q, Op.Mark(e.raw, reached, later))
      ensures sticky == if reached then e else null
    {
      hide Apply, Mask, PickIndex, Pool.Value;
      e := Choose(pool, now);
      if e != null {
        Settle(pool, e, reached, later);
      }
    }
  }

  lemma Located(s: seq<string>, raw: string, k: nat)
    requires k < |s| && s[k] == raw && raw !in s[..k]
    ensures IndexOf(s, raw) == k
  {
    if k > 0 {
      assert s[0] in s[..k];
      assert s[1..][..k - 1] == s[..k][1..];
      Located(s[1..], raw, k - 1);
    }
  }

  // ----- The pool built from a list of addresses

  /** The non-empty addresses, each where it first occurs. */
  function Deduplicated(raw: seq<string>): (r: seq<string>)
    ensures Distinct(r)
    ensures forall v :: v in r <==> v in raw && v != ""
  {
    if raw == [] then []
    else
      var r := Deduplicated(raw[..|raw| - 1]);
      var v := raw[|raw| - 1];
      if v == "" || v in r then r else r + [v]
  }

  lemma {:induction false} IndexInFront(front: seq<string>, v: string, x: string)
    ensures IndexOf(front + [v], x) == if x in front then IndexOf(front, x) else if x == v then |front| else |front| + 1
  {
    if front != [] {
      assert (front + [v])[1..] == front[1..] + [v];
      assert front == [front[0]] + front[1..];
      IndexInFront(front[1..], v, x);
    }
  }

  /** They keep the order of their first occurrences. */
  lemma {:induction false} FirstOccurrenceOrder(raw: seq<string>, i: nat, j: nat)
    requires i < j < |Deduplicated(raw)|
    ensures IndexOf(raw, Deduplicated(raw)[i]) < IndexOf(raw, Deduplicated(raw)[j])
    decreases |raw|
  {
    var front, v := raw[..|raw| - 1], raw[|raw| - 1];
    var r := Deduplicated(front);
    assert raw == front + [v];
    assert Deduplicated(raw)[i] in r;
    IndexInFront(front, v, Deduplicated(raw)[i]);
    IndexInFront(front, v, Deduplicated(raw)[j]);
    if j < |r| {
      assert r[j] in r;
      FirstOccurrenceOrder(front, i, j);
    }
  }

  function Fresh(raws: seq<string>): State {
    State(seq(|raws|, i requires 0 <= i < |raws| => Entry(raws[i], 0, 0)), 0)
  }

  /** Null stands for the error of an address for which no client can be made. */
  method NewPool(raw: seq<string>, usable: string -> bool) returns (p: Pool?)
    ensures p == null <==> exists v :: v in Deduplicated(raw) && !usable(v)
    ensures p != null ==> fresh(p) && p.Valid() && p.Value() == Fresh(Deduplicated(raw))
  {
    var pool := new Pool();
    var seen: set<string> := {};
    for i := 0 to |raw|
      invariant fresh(pool) && pool.next == 0
      invariant forall e :: e in pool.entries ==> fresh(e)
      invariant Values(pool.entries) == Fresh(Deduplicated(raw[..i])).entries
      invariant seen == set v | v in Deduplicated(raw[..i])
      invariant forall v :: v in Deduplicated(raw[..i]) ==> usable(v)
    {
      var v := raw[i];
      assert raw[..i + 1][..i] == raw[..i];
      if v == "" || v in seen {
        continue;
      }
      if !usable(v) {
        assert v in Deduplicated(raw);
        return null;
      }
      seen := seen + {v};
      var e := new PoolEntry(v);
      pool.entries := pool.entries + [e];
    }
    assert raw[..|raw|] == raw;
    assert Raws(pool.Value().entries) == Deduplicated(raw);
    p := pool;
  }
}
