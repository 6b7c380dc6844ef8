/** Sequences without repetition, and their sets of members. */
module Sequences {

  predicate Distinct<T(==)>(s: seq<T>) {
    forall i, j :: 0 <= i < j < |s| ==> s[i] != s[j]
  }

  function Members<T(==,!new)>(s: seq<T>): (r: set<T>)
    ensures forall x :: x in r <==> x in s
  {
    set x | x in s
  }

  lemma {:induction false} OccursOnce<T>(s: seq<T>, x: T)
    requires Distinct(s)
    ensures multiset(s)[x] == if x in s then 1 else 0
  {
    if s != [] {
      var n := |s| - 1;
      OccursOnce(s[..n], x);
      assert s == s[..n] + [s[n]];
      assert s[n] !in s[..n];
    }
  }

  lemma AtMostOnceIsDistinct<T(!new)>(s: seq<T>)
    requires forall x :: multiset(s)[x] <= 1
    ensures Distinct(s)
  {
    forall i, j | 0 <= i < j < |s| ensures s[i] != s[j] {
      assert s == s[..j] + [s[j]] + s[j + 1..];
      assert multiset(s)[s[j]] >= multiset(s[..j])[s[j]] + 1;
      assert s[..j][i] in multiset(s[..j]);
    }
  }

  /** A sequence without repetition is, as a multiset, its set of members. */
  lemma DistinctIsItsMembers<T(!new)>(s: seq<T>)
    requires Distinct(s)
    ensures multiset(s) == multiset(Members(s))
  {
    forall x ensures multiset(s)[x] == multiset(Members(s))[x] {
      OccursOnce(s, x);
    }
  }

  lemma SameMembers<T(!new)>(a: seq<T>, b: seq<T>)
    requires multiset(a) == multiset(b)
    ensures Members(a) == Members(b)
    ensures Distinct(a) ==> Distinct(b)
  {
    forall x ensures x in a <==> x in b {
      assert x in a <==> x in multiset(a);
      assert x in b <==> x in multiset(b);
    }
    if Distinct(a) {
      forall x ensures multiset(b)[x] <= 1 {
        OccursOnce(a, x);
      }
      AtMostOnceIsDistinct(b);
    }
  }

  lemma MembersNext<T(!new)>(s: seq<T>)
    requires s != []
    ensures Members(s) == Members(s[..|s| - 1]) + {s[|s| - 1]}
    ensures Distinct(s) <==> Distinct(s[..|s| - 1]) && s[|s| - 1] !in Members(s[..|s| - 1])
  {
    assert s == s[..|s| - 1] + [s[|s| - 1]];
  }

  lemma MembersAppend<T(!new)>(a: seq<T>, b: seq<T>)
    ensures Members(a + b) == Members(a) + Members(b)
    ensures Distinct(a + b) <==> Distinct(a) && Distinct(b) && Members(a) !! Members(b)
  {
    var s := a + b;
    assert forall i :: 0 <= i < |a| ==> s[i] == a[i];
    assert forall i :: 0 <= i < |b| ==> s[|a| + i] == b[i];
    if Distinct(s) {
      forall i, j | 0 <= i < j < |b| ensures b[i] != b[j] {
        assert s[|a| + i] != s[|a| + j];
      }
      forall i, j | 0 <= i < |a| && 0 <= j < |b| ensures a[i] != b[j] {
        assert s[i] != s[|a| + j];
      }
    }
    if Distinct(a) && Distinct(b) && Members(a) !! Members(b) {
      forall i, j | 0 <= i < j < |s| ensures s[i] != s[j] {
        if i < |a| <= j {
          assert a[i] in Members(a) && b[j - |a|] in Members(b);
        } else if |a| <= i {
          assert b[i - |a|] != b[j - |a|];
        }
      }
    }
  }

  /** Where the flags are set, ascending. */
  ghost function Positions(flags: seq<bool>): (r: seq<nat>)
    ensures forall x: nat :: x in r <==> x < |flags| && flags[x]
    ensures forall i, j :: 0 <= i < j < |r| ==> r[i] < r[j]
  {
    if flags == [] then []
    else
      var n := |flags| - 1;
      var r := Positions(flags[..n]);
      assert forall i :: 0 <= i < |r| ==> r[i] in r;
      if flags[n] then r + [n] else r
  }

  lemma PositionsNext(flags: seq<bool>, b: bool)
    ensures Positions(flags + [b]) == Positions(flags) + if b then [|flags|] else []
    ensures forall k :: 0 <= k < |Positions(flags)| ==> Positions(flags)[k] < |flags|
  {
    assert (flags + [b])[..|flags|] == flags;
    forall k | 0 <= k < |Positions(flags)| ensures Positions(flags)[k] < |flags| {
      assert Positions(flags)[k] in Positions(flags);
    }
  }

  /** The elements whose flags are set, in order. */
  ghost function Selected<T>(s: seq<T>, flags: seq<bool>): (r: seq<T>)
    requires |flags| == |s|
    ensures |r| == |Positions(flags)|
    ensures forall k :: 0 <= k < |r| ==> Positions(flags)[k] < |s| && r[k] == s[Positions(flags)[k]]
  {
    PositionsNext(flags, true);
    seq(|Positions(flags)|, k requires 0 <= k < |Positions(flags)| => s[Positions(flags)[k]])
  }

  lemma SelectedNext<T>(s: seq<T>, flags: seq<bool>, x: T, b: bool)
    requires |flags| == |s|
    ensures Selected(s + [x], flags + [b]) == Selected(s, flags) + if b then [x] else []
  {
    PositionsNext(flags, b);
    hide Positions;
  }
}
