// Order statistics of a sequence, by counting.
module OrderStats {
  ghost function Less(s: seq<nat>, v: nat): nat {
    if s == [] then 0 else Less(s[..|s| - 1], v) + if s[|s| - 1] < v then 1 else 0
  }

  ghost function AtMost(s: seq<nat>, v: nat): nat {
    Less(s, v + 1)
  }

  /** v is the k-th smallest element of s, counting repetitions, from k = 1. */
  ghost predicate IsKth(s: seq<nat>, k: nat, v: nat) {
    Less(s, v) < k <= AtMost(s, v)
  }

  lemma {:induction false} LessMonotone(s: seq<nat>, u: nat, v: nat)
    requires u <= v
    ensures Less(s, u) <= Less(s, v)
  {
    if s != [] {
      LessMonotone(s[..|s| - 1], u, v);
    }
  }

  /** At most one value is the k-th smallest. */
  lemma KthUnique(s: seq<nat>, k: nat, u: nat, v: nat)
    requires IsKth(s, k, u) && IsKth(s, k, v)
    ensures u == v
  {
    if u < v {
      LessMonotone(s, u + 1, v);
    } else if v < u {
      LessMonotone(s, v + 1, u);
    }
  }

  lemma {:induction false} LessConcat(s: seq<nat>, t: seq<nat>, v: nat)
    ensures Less(s + t, v) == Less(s, v) + Less(t, v)
  {
    if t == [] {
      assert s + t == s;
    } else {
      assert (s + t)[..|s + t| - 1] == s + t[..|t| - 1];
      LessConcat(s, t[..|t| - 1], v);
    }
  }

  lemma LessOne(x: nat, v: nat)
    ensures Less([x], v) == if x < v then 1 else 0
  {
    assert [x][..0] == [];
  }

  ghost function Without(s: seq<nat>, i: nat): (t: seq<nat>)
    requires i < |s|
    ensures |t| == |s| - 1
  {
    s[..i] + s[i + 1..]
  }

  lemma LessWithout(s: seq<nat>, i: nat, v: nat)
    requires i < |s|
    ensures Less(s, v) == Less(Without(s, i), v) + if s[i] < v then 1 else 0
  {
    assert s == s[..i] + [s[i]] + s[i + 1..];
    LessConcat(s[..i] + [s[i]], s[i + 1..], v);
    LessConcat(s[..i], [s[i]], v);
    LessConcat(s[..i], s[i + 1..], v);
    LessOne(s[i], v);
  }

  lemma PermutationHas(s: seq<nat>, t: seq<nat>, x: nat)
    requires multiset(s) == multiset(t) && x in s
    ensures x in t
  {
    assert x in multiset(s);
    assert x in multiset(t);
  }

  lemma MultisetWithout(s: seq<nat>, i: nat)
    requires i < |s|
    ensures multiset(Without(s, i)) == multiset(s) - multiset{s[i]}
  {
    assert s == s[..i] + [s[i]] + s[i + 1..];
  }

  lemma {:induction false} LessOfPermutation(s: seq<nat>, t: seq<nat>, v: nat)
    requires multiset(s) == multiset(t)
    ensures Less(s, v) == Less(t, v)
  {
    if s == [] {
      assert |multiset(t)| == 0;
    } else {
      hide Less;
      var n := |s| - 1;
      PermutationHas(s, t, s[n]);
      var i :| 0 <= i < |t| && t[i] == s[n];
      MultisetWithout(s, n);
      MultisetWithout(t, i);
      LessOfPermutation(Without(s, n), Without(t, i), v);
      LessWithout(s, n, v);
      LessWithout(t, i, v);
    }
  }

  /** The k-th smallest does not depend on the order of the elements. */
  lemma KthOfPermutation(s: seq<nat>, t: seq<nat>, k: nat, v: nat)
    requires multiset(s) == multiset(t)
    ensures IsKth(s, k, v) == IsKth(t, k, v)
  {
    LessOfPermutation(s, t, v);
    LessOfPermutation(s, t, v + 1);
  }

  lemma {:induction false} LessNone(s: seq<nat>, v: nat)
    requires forall i :: 0 <= i < |s| ==> s[i] >= v
    ensures Less(s, v) == 0
  {
    if s != [] {
      LessNone(s[..|s| - 1], v);
    }
  }

  lemma {:induction false} LessAll(s: seq<nat>, v: nat)
    requires forall i :: 0 <= i < |s| ==> s[i] < v
    ensures Less(s, v) == |s|
  {
    if s != [] {
      LessAll(s[..|s| - 1], v);
    }
  }

  lemma {:induction false} LessBound(s: seq<nat>, v: nat)
    ensures Less(s, v) <= |s|
  {
    if s != [] {
      LessBound(s[..|s| - 1], v);
    }
  }

  /** An element with nothing smaller before it and nothing larger after it has its rank. */
  lemma RankByPosition(s: seq<nat>, q: nat)
    requires q < |s|
    requires forall i :: 0 <= i < q ==> s[i] >= s[q]
    requires forall i :: q < i < |s| ==> s[i] <= s[q]
    ensures IsKth(s, |s| - q, s[q])
  {
    var v := s[q];
    assert s == s[..q] + s[q..] && s[q..] == [v] + s[q + 1..];
    LessConcat(s[..q], s[q..], v);
    LessConcat(s[..q], s[q..], v + 1);
    LessConcat([v], s[q + 1..], v);
    LessOne(v, v);
    LessNone(s[..q], v);
    LessBound(s[q + 1..], v);
    LessAll(s[q..], v + 1);
  }

  // ----- descending order -----

  ghost predicate Falling(s: seq<nat>) {
    forall p, q :: 0 <= p < q < |s| ==> s[p] >= s[q]
  }

  ghost predicate IsSortedOf(t: seq<nat>, s: seq<nat>) {
    Falling(t) && multiset(t) == multiset(s)
  }

  ghost function Insert(t: seq<nat>, v: nat): seq<nat> {
    if t == [] || t[|t| - 1] >= v then t + [v]
    else Insert(t[..|t| - 1], v) + [t[|t| - 1]]
  }

  lemma {:induction false} InsertPermutes(t: seq<nat>, v: nat)
    ensures multiset(Insert(t, v)) == multiset(t) + multiset{v}
  {
    if t != [] && t[|t| - 1] < v {
      InsertPermutes(t[..|t| - 1], v);
      assert t == t[..|t| - 1] + [t[|t| - 1]];
    }
  }

  lemma {:induction false} InsertFalls(t: seq<nat>, v: nat)
    requires Falling(t)
    ensures Falling(Insert(t, v))
  {
    if t != [] && t[|t| - 1] < v {
      var front, u := t[..|t| - 1], Insert(t[..|t| - 1], v);
      InsertFalls(front, v);
      InsertPermutes(front, v);
      forall i | 0 <= i < |u|
        ensures u[i] >= t[|t| - 1]
      {
        assert multiset(u) == multiset(front + [v]);
        PermutationHas(u, front + [v], u[i]);
      }
      FallingMore(u, t[|t| - 1]);
    }
  }

  lemma FallingMore(u: seq<nat>, x: nat)
    requires Falling(u) && forall i :: 0 <= i < |u| ==> u[i] >= x
    ensures Falling(u + [x])
  {
  }

  /** s in descending order. */
  ghost function Sorted(s: seq<nat>): (t: seq<nat>)
    ensures IsSortedOf(t, s)
  {
    if s == [] then []
    else
      var t := Sorted(s[..|s| - 1]);
      InsertPermutes(t, s[|s| - 1]);
      InsertFalls(t, s[|s| - 1]);
      assert s == s[..|s| - 1] + [s[|s| - 1]];
      Insert(t, s[|s| - 1])
  }

  lemma SameLength(s: seq<nat>, t: seq<nat>)
    requires multiset(s) == multiset(t)
    ensures |s| == |t|
  {
    assert |multiset(s)| == |multiset(t)|;
  }

  /** Only one sequence is s in descending order. */
  lemma SortedUnique(t: seq<nat>, s: seq<nat>)
    requires IsSortedOf(t, s)
    ensures t == Sorted(s)
  {
    hide IsKth;
    var u := Sorted(s);
    SameLength(t, u);
    forall q | 0 <= q < |t|
      ensures t[q] == u[q]
    {
      RankByPosition(t, q);
      RankByPosition(u, q);
      KthOfPermutation(t, u, |t| - q, t[q]);
      KthUnique(u, |t| - q, t[q], u[q]);
    }
  }

  /** The k-th smallest element, from k = 1. */
  ghost function Kth(s: seq<nat>, k: nat): (v: nat)
    requires 1 <= k <= |s|
    ensures IsKth(s, k, v)
  {
    SameLength(s, Sorted(s));
    RankByPosition(Sorted(s), |s| - k);
    KthOfPermutation(Sorted(s), s, k, Sorted(s)[|s| - k]);
    Sorted(s)[|s| - k]
  }
}
