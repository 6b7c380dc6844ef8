/** Round robin is fair: the k-th pick from a fixed set of available proxies has a closed form. */
module ProxyFairness {
  import opened Modulo
  import opened ProxyPool
  import opened Sequences

  /** How many available indices lie below `x`. */
  ghost function Rank(avail: seq<bool>, x: nat): nat
    requires x <= |avail|
  {
    |Positions(avail[..x])|
  }

  lemma {:induction false} AvailablePrefix(avail: seq<bool>, x: nat)
    requires x <= |avail|
    ensures Positions(avail[..x]) <= Positions(avail)
    decreases |avail|
  {
    if x < |avail| {
      var n := |avail| - 1;
      AvailablePrefix(avail[..n], x);
      assert avail[..n][..x] == avail[..x];
    } else {
      assert avail[..x] == avail;
    }
  }

  lemma RankNext(avail: seq<bool>, x: nat)
    requires x < |avail|
    ensures Rank(avail, x + 1) == Rank(avail, x) + if avail[x] then 1 else 0
  {
    assert avail[..x + 1][..x] == avail[..x];
  }

  /** Nothing available between `x` and `y`: the rank does not move. */
  lemma {:induction false} RankSame(avail: seq<bool>, x: nat, y: nat)
    requires x <= y <= |avail|
    requires forall z :: x <= z < y ==> !avail[z]
    ensures Rank(avail, x) == Rank(avail, y)
    decreases y - x
  {
    if x < y {
      RankNext(avail, x);
      RankSame(avail, x + 1, y);
    }
  }

  /** An available index is the one its rank says. */
  lemma RankOf(avail: seq<bool>, x: nat)
    requires x < |avail| && avail[x]
    ensures Rank(avail, x) < |Positions(avail)| && Positions(avail)[Rank(avail, x)] == x
  {
    AvailablePrefix(avail, x + 1);
    assert avail[..x + 1][..x] == avail[..x];
  }

  lemma FreeAt(avail: seq<bool>, z: nat)
    requires avail != []
    ensures z < |avail| ==> Free(avail, z) == avail[z]
    ensures |avail| <= z < 2 * |avail| ==> Free(avail, z) == avail[z - |avail|]
  {
    hide Mod;
    if z < |avail| {
      ModSmall(z, |avail|);
    } else if z < 2 * |avail| {
      ModOnce(z, |avail|);
    }
  }

  /** The pick is the first available index from the cursor on, or else the first one of all. */
  lemma PickFromCursor(avail: seq<bool>, next: nat)
    requires next < |avail| && true in avail
    ensures var x := PickIndex(avail, next);
            && avail[x]
            && if next <= x then forall z :: next <= z < x ==> !avail[z]
               else (forall z :: next <= z < |avail| ==> !avail[z]) && (forall z :: 0 <= z < x ==> !avail[z])
  {
    hide Mod;
    var n := |avail|;
    var w :| 0 <= w < n && avail[w];
    var y := FirstFree(avail, next, next + n);
    FreeAt(avail, if w < next then w + n else w);
    FreeAt(avail, y);
    forall z | next <= z < n && z < y ensures !avail[z] { FreeAt(avail, z); }
    forall z | 0 <= z < y - n ensures !avail[z] { FreeAt(avail, z + n); }
    if y < n {
      ModSmall(y, n);
    } else {
      ModOnce(y, n);
    }
  }

  /** The cursor always picks the available index whose rank is the cursor's, going round. */
  lemma PickIsNextInRank(avail: seq<bool>, next: nat)
    requires next < |avail| && true in avail
    ensures Positions(avail) != []
    ensures PickIndex(avail, next) == Positions(avail)[Mod(Rank(avail, next), |Positions(avail)|)]
  {
    hide Mod;
    var n, k := |avail|, |Positions(avail)|;
    var x := PickIndex(avail, next);
    PickFromCursor(avail, next);
    RankOf(avail, x);
    if next <= x {
      RankSame(avail, next, x);
      ModSmall(Rank(avail, x), k);
    } else {
      RankSame(avail, next, n);
      assert avail[..n] == avail;
      ModOnce(k, k);
      RankSame(avail, 0, x);
    }
  }

  /** The cursor after a pick. */
  ghost function NextAfter(avail: seq<bool>, next: nat): nat
    requires avail != []
  {
    Mod(PickPosition(avail, next) + 1, |avail|)
  }

  lemma NextAfterPick(avail: seq<bool>, next: nat)
    requires avail != []
    ensures NextAfter(avail, next) == if PickIndex(avail, next) + 1 == |avail| then 0 else PickIndex(avail, next) + 1
  {
    hide Mod;
    var n, x := |avail|, PickPosition(avail, next);
    ModAdd(x, 1, n);
    if Mod(x, n) + 1 < n {
      ModSmall(Mod(x, n) + 1, n);
    } else {
      ModOnce(n, n);
    }
  }

  lemma PickIgnoresRounds(avail: seq<bool>, x: nat, y: nat, limit: nat)
    requires avail != [] && Mod(x, |avail|) == Mod(y, |avail|) && limit >= x
    ensures var d := FirstFree(avail, x, limit) - x;
            FirstFree(avail, y, y + (limit - x)) == y + d && Mod(x + d, |avail|) == Mod(y + d, |avail|)
    decreases limit - x
  {
    hide Mod;
    if x < limit && !Free(avail, x) {
      ModAdd(x, 1, |avail|);
      ModAdd(y, 1, |avail|);
      PickIgnoresRounds(avail, x + 1, y + 1, limit);
    }
  }

  /** A cursor beyond the end, as `Remove` leaves it, acts as its remainder. */
  lemma {:induction false} CursorWraps(avail: seq<bool>, next: nat)
    requires avail != []
    ensures PickIndex(avail, next) == PickIndex(avail, Mod(next, |avail|))
    ensures NextAfter(avail, next) == NextAfter(avail, Mod(next, |avail|))
  {
    hide Mod;
    var n := |avail|;
    ModSmall(Mod(next, n), n);
    PickIgnoresRounds(avail, next, Mod(next, n), next + n);
    ModAdd(PickPosition(avail, next), 1, n);
    ModAdd(PickPosition(avail, Mod(next, n)), 1, n);
  }

  /** The indices of `m` picks in a row, while the available set does not change. */
  ghost function Picks(avail: seq<bool>, next: nat, m: nat): (r: seq<nat>)
    requires avail != []
    ensures |r| == m
    decreases m
  {
    if m == 0 then [] else [PickIndex(avail, next)] + Picks(avail, NextAfter(avail, next), m - 1)
  }

  /** A pick moves the rank of the cursor on by one, going round. */
  lemma RankAfterPick(avail: seq<bool>, next: nat)
    requires next < |avail| && true in avail
    ensures Positions(avail) != [] && NextAfter(avail, next) < |avail|
    ensures Mod(Rank(avail, NextAfter(avail, next)), |Positions(avail)|)
            == Mod(Rank(avail, next) + 1, |Positions(avail)|)
  {
    hide Mod, Positions, Rank, PickIndex, NextAfter;
    var k, x := |Positions(avail)|, PickIndex(avail, next);
    PickFromCursor(avail, next);
    PickIsNextInRank(avail, next);
    RankOf(avail, x);
    RankNext(avail, x);
    NextAfterPick(avail, next);
    var r := Rank(avail, next);
    assert Rank(avail, x) == Mod(r, k);
    ModAdd(r, 1, k);
    if x + 1 == |avail| {
      RankEnds(avail);
      ModOnce(k, k);
      ModSmall(0, k);
    }
  }

  lemma RankEnds(avail: seq<bool>)
    ensures Rank(avail, 0) == 0 && Rank(avail, |avail|) == |Positions(avail)|
  {
    assert avail[..|avail|] == avail;
  }

  /** With k proxies available, the j-th pick is the one whose rank is j on, modulo k. */
  lemma {:induction false} PickClosedForm(avail: seq<bool>, next: nat, m: nat, j: nat)
    requires true in avail && j < m
    ensures Positions(avail) != []
    ensures Picks(avail, next, m)[j]
            == Positions(avail)[Mod(Rank(avail, Mod(next, |avail|)) + j, |Positions(avail)|)]
    decreases m
  {
    hide Mod, Positions, Rank, PickIndex, NextAfter;
    var n, c := |avail|, Mod(next, |avail|);
    CursorWraps(avail, next);
    PickIsNextInRank(avail, c);
    if j > 0 {
      var k, c' := |Positions(avail)|, NextAfter(avail, next);
      RankAfterPick(avail, c);
      PickClosedForm(avail, c', m - 1, j - 1);
      ModSmall(c', n);
      ShiftedRemainder(Rank(avail, c'), Rank(avail, c), j, k);
    }
  }

  lemma ShiftedRemainder(a: nat, b: nat, j: nat, k: nat)
    requires k > 0 && j > 0 && Mod(a, k) == Mod(b + 1, k)
    ensures Mod(a + (j - 1), k) == Mod(b + j, k)
  {
    hide Mod;
    ModAdd(a, j - 1, k);
    ModAdd(b + 1, j - 1, k);
  }

  // ----- Fairness

  ghost function Count(s: seq<nat>, x: nat): nat {
    if s == [] then 0 else (if s[0] == x then 1 else 0) + Count(s[1..], x)
  }

  /** `s` runs through `a`, from offset `c`, round and round. */
  ghost predicate Rotates(s: seq<nat>, a: seq<nat>, c: nat) {
    a != [] && forall j :: 0 <= j < |s| ==> s[j] == a[Mod(c + j, |a|)]
  }

  lemma {:induction false} CountNone(s: seq<nat>, x: nat)
    requires x !in s
    ensures Count(s, x) == 0
  {
    hide Mod;
    if s != [] {
      CountNone(s[1..], x);
    }
  }

  lemma {:induction false} CountAppend(s: seq<nat>, t: seq<nat>, x: nat)
    ensures Count(s + t, x) == Count(s, x) + Count(t, x)
  {
    if s == [] {
      assert s + t == t;
    } else {
      assert (s + t)[1..] == s[1..] + t;
      CountAppend(s[1..], t, x);
    }
  }

  lemma {:induction false} CountOnce(s: seq<nat>, i: nat)
    requires i < |s| && Distinct(s)
    ensures Count(s, s[i]) == 1
  {
    if i == 0 {
      CountNone(s[1..], s[0]);
    } else {
      CountOnce(s[1..], i - 1);
    }
  }

  /** A stretch of at most k picks repeats nothing. */
  lemma ShortStretchDistinct(s: seq<nat>, a: seq<nat>, c: nat)
    requires Rotates(s, a, c) && |s| <= |a| && Distinct(a)
    ensures Distinct(s)
  {
    hide Mod;
    forall i, j | 0 <= i < j < |s| ensures s[i] != s[j] {
      if s[i] == s[j] {
        ModApart(c + i, c + j, |a|);
      }
    }
  }

  /** A stretch of k picks meets everything. */
  lemma FullStretchMeets(s: seq<nat>, a: seq<nat>, c: nat, p: nat)
    requires Rotates(s, a, c) && |s| == |a| && p < |a|
    ensures a[p] in s
  {
    hide Mod;
    var k := |a|;
    var j := if p >= Mod(c, k) then p - Mod(c, k) else p - Mod(c, k) + k;
    ModAdd(c, j, k);
    if p >= Mod(c, k) {
      ModSmall(p, k);
    } else {
      ModOnce(p + k, k);
    }
    assert s[j] == a[p];
  }

  lemma FullStretchFair(s: seq<nat>, a: seq<nat>, c: nat, p: nat)
    requires Rotates(s, a, c) && |s| == |a| && Distinct(a) && p < |a|
    ensures Count(s, a[p]) == 1
  {
    ShortStretchDistinct(s, a, c);
    FullStretchMeets(s, a, c, p);
    var i :| 0 <= i < |s| && s[i] == a[p];
    CountOnce(s, i);
  }

  lemma ShortStretchFair(s: seq<nat>, a: seq<nat>, c: nat, p: nat)
    requires Rotates(s, a, c) && |s| <= |a| && Distinct(a) && p < |a|
    ensures Count(s, a[p]) <= 1
  {
    ShortStretchDistinct(s, a, c);
    if i :| 0 <= i < |s| && s[i] == a[p] {
      CountOnce(s, i);
    } else {
      CountNone(s, a[p]);
    }
  }

  lemma StretchRotates(s: seq<nat>, a: seq<nat>, c: nat, i: nat, n: nat)
    requires Rotates(s, a, c) && i <= n <= |s|
    ensures Rotates(s[i..n], a, c + i)
  {
    hide Mod;
    var t := s[i..n];
    forall j | 0 <= j < |t| ensures t[j] == a[Mod(c + i + j, |a|)] {
      assert t[j] == s[i + j];
    }
  }

  lemma {:induction false} RotationFair(s: seq<nat>, a: seq<nat>, c: nat, p: nat)
    requires Rotates(s, a, c) && Distinct(a) && p < |a|
    ensures Div(|s|, |a|) <= Count(s, a[p]) <= Div(|s|, |a|) + 1
    decreases |s|
  {
    hide Rotates, Count;
    var k := |a|;
    if |s| < k {
      DivSmall(|s|, k);
      ShortStretchFair(s, a, c, p);
    } else {
      var head, rest := s[0..k], s[k..|s|];
      StretchRotates(s, a, c, 0, k);
      StretchRotates(s, a, c, k, |s|);
      FullStretchFair(head, a, c, p);
      RotationFair(rest, a, c + k, p);
      assert s == head + rest;
      CountAppend(head, rest, a[p]);
      DivAdd(|s| - k, k);
    }
  }

  lemma PicksRotate(avail: seq<bool>, next: nat, m: nat)
    requires true in avail
    ensures Rotates(Picks(avail, next, m), Positions(avail), Rank(avail, Mod(next, |avail|)))
  {
    hide Mod, Positions, Rank, Picks;
    var w :| 0 <= w < |avail| && avail[w];
    assert w in Positions(avail);
    forall j | 0 <= j < m
      ensures Picks(avail, next, m)[j]
              == Positions(avail)[Mod(Rank(avail, Mod(next, |avail|)) + j, |Positions(avail)|)]
    {
      PickClosedForm(avail, next, m, j);
    }
  }

  /** While the set of available proxies stays fixed and is not empty, only its members are
      picked, and after m picks each of the k has had m / k picks, or one more. */
  lemma {:induction false} RoundRobinFair(avail: seq<bool>, next: nat, m: nat, x: nat)
    requires true in avail && x < |avail|
    ensures var k, n := |Positions(avail)|, Count(Picks(avail, next, m), x);
            k > 0 && if avail[x] then Div(m, k) <= n <= Div(m, k) + 1 else n == 0
  {
    hide Mod, Div, Positions, Rank, Picks, Count;
    var a, s := Positions(avail), Picks(avail, next, m);
    PicksRotate(avail, next, m);
    if avail[x] {
      var p :| 0 <= p < |a| && a[p] == x;
      RotationFair(s, a, Rank(avail, Mod(next, |avail|)), p);
    } else {
      forall j | 0 <= j < m ensures s[j] != x { assert s[j] in a; }
      CountNone(s, x);
    }
  }

  /** Any k picks in a row pick each of the k available proxies exactly once. */
  lemma {:induction false} EachOncePerRound(avail: seq<bool>, next: nat, m: nat, i: nat, x: nat)
    requires true in avail && x < |avail| && avail[x] && i + |Positions(avail)| <= m
    ensures Count(Picks(avail, next, m)[i..i + |Positions(avail)|], x) == 1
  {
    hide Mod, Positions, Rank, Picks, Rotates, Count;
    var a, s, c := Positions(avail), Picks(avail, next, m), Rank(avail, Mod(next, |avail|));
    var p :| 0 <= p < |a| && a[p] == x;
    PicksRotate(avail, next, m);
    StretchRotates(s, a, c, i, i + |a|);
    FullStretchFair(s[i..i + |a|], a, c + i, p);
  }

  /** With every proxy cooling down, picks go through all entries in order. */
  lemma {:induction false} NoneAvailableCycles(avail: seq<bool>, next: nat, m: nat, j: nat)
    requires avail != [] && true !in avail && j < m
    ensures Picks(avail, next, m)[j] == Mod(next + j, |avail|)
    decreases m
  {
    hide Mod;
    var x := FirstFree(avail, next, next + |avail|);
    assert x == next + |avail|;
    if j > 0 {
      NoneAvailableCycles(avail, NextAfter(avail, next), m - 1, j - 1);
      ModAdd(next + 1, j - 1, |avail|);
    }
  }

  // ----- The same for the pool itself

  ghost function Run(p: State, nows: seq<Instant>): seq<nat>
    requires p.entries != []
    decreases |nows|
  {
    if nows == [] then []
    else [PickIndex(Mask(p.entries, nows[0]), p.next)] + Run(Apply(p, Op.Pick(nows[0])), nows[1..])
  }

  /** Picks at any times at which the same entries are available are `Picks`. */
  lemma {:induction false} RunIsPicks(p: State, nows: seq<Instant>, avail: seq<bool>)
    requires p.entries != [] && forall i :: 0 <= i < |nows| ==> Mask(p.entries, nows[i]) == avail
    requires |avail| == |p.entries|
    ensures Run(p, nows) == Picks(avail, p.next, |nows|)
    decreases |nows|
  {
    hide Mod, PickPosition, PickIndex;
    if nows != [] {
      assert Mask(p.entries, nows[0]) == avail;
      RunIsPicks(Apply(p, Op.Pick(nows[0])), nows[1..], avail);
    }
  }
}
