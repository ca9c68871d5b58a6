// Ordered-statistic noise floor: place the extremes, then sort only as far as needed.
module OsCfar {
  import opened RadarMap
  import opened OrderStats
  import opened RangeCfar

  const SENTINEL: nat := 65535

  // ----- the taps -----

  ghost predicate AtEdge(idx: nat, rows: nat, w: nat, g: nat) {
    idx < w + g || idx >= rows - w - g
  }

  /** The row read into slot i, branch by branch. */
  ghost function TapRow(idx: nat, rows: nat, w: nat, g: nat, i: nat): (r: int)
    requires idx < rows && rows > 2 * (w + g) && i < 2 * w
    ensures 0 <= r < rows
  {
    if idx < w + g then
      if idx < g + 1 then idx + g + i + 1
      else if i < g + w - idx then idx + g + w + i + 1
      else if i < w then idx - g - w + i
      else idx + g - w + i + 1
    else if idx >= rows - w - g then
      if idx >= rows - g - 1 then idx - g - 2 * w + i
      else if i < rows - idx - g - 1 then idx + g + i + 1
      else idx - g - 2 * w + i
    else if i < w then idx - g - w + i
    else idx + g + (i - w) + 1
  }

  ghost function Taps(c: seq<nat>, idx: nat, w: nat, g: nat): (s: seq<nat>)
    requires idx < |c| && |c| > 2 * (w + g)
    ensures |s| == 2 * w
  {
    seq(2 * w, i requires 0 <= i < 2 * w => c[TapRow(idx, |c|, w, g, i)])
  }

  /** The cells of the window that cell averaging sums. */
  ghost function WindowCells(c: seq<nat>, idx: nat, w: nat, g: nat): (s: seq<nat>)
    requires idx < |c| && |c| > 2 * (w + g)
    ensures |s| == 2 * w
  {
    var l := LeftRows(idx, |c|, w, g);
    Slice(c, idx - g - l, idx - g) + Slice(c, idx + g + 1, idx + g + 1 + (2 * w - l))
  }

  ghost function Slice(c: seq<nat>, a: int, b: int): (s: seq<nat>)
    requires a < b ==> 0 <= a && b <= |c|
    requires a <= b
    ensures |s| == b - a
  {
    if a < b then c[a..b] else []
  }

  lemma FrontTapsAre(c: seq<nat>, idx: nat, w: nat, g: nat)
    requires |c| > 2 * (w + g) && g < idx < w + g
    ensures Taps(c, idx, w, g)
         == c[idx + g + w + 1..2 * g + 2 * w + 1] + c[..idx - g] + c[idx + g + 1..idx + g + 1 + w]
  {
  }

  lemma FrontWindowIs(c: seq<nat>, idx: nat, w: nat, g: nat)
    requires |c| > 2 * (w + g) && g < idx < w + g
    ensures WindowCells(c, idx, w, g)
         == c[..idx - g] + (c[idx + g + 1..idx + g + 1 + w] + c[idx + g + w + 1..2 * g + 2 * w + 1])
  {
  }

  lemma RearTapsAre(c: seq<nat>, idx: nat, w: nat, g: nat)
    requires |c| > 2 * (w + g) && |c| - w - g <= idx < |c| - g - 1
    ensures Taps(c, idx, w, g) == c[idx + g + 1..] + c[|c| - 2 * g - 2 * w - 1..idx - g]
  {
    var s, front := Taps(c, idx, w, g), |c| - idx - g - 1;
    assert s[..front] == c[idx + g + 1..];
    assert s[front..] == c[|c| - 2 * g - 2 * w - 1..idx - g];
  }

  lemma RearWindowIs(c: seq<nat>, idx: nat, w: nat, g: nat)
    requires |c| > 2 * (w + g) && |c| - w - g <= idx < |c| - g - 1
    ensures WindowCells(c, idx, w, g) == c[|c| - 2 * g - 2 * w - 1..idx - g] + c[idx + g + 1..]
  {
    assert LeftRows(idx, |c|, w, g) == 2 * w - (|c| - idx - g - 1);
  }

  lemma OtherTapsAre(c: seq<nat>, idx: nat, w: nat, g: nat)
    requires idx < |c| && |c| > 2 * (w + g) && w > 0
    requires idx <= g || idx >= |c| - g - 1 || w + g <= idx < |c| - w - g
    ensures Taps(c, idx, w, g) == WindowCells(c, idx, w, g)
  {
  }

  lemma Rotate(a: seq<nat>, b: seq<nat>, c: seq<nat>)
    ensures multiset(a + b + c) == multiset(b + (c + a))
  {
  }

  /** The taps are the window's cells, in another order. */
  lemma TapsFillWindow(c: seq<nat>, idx: nat, w: nat, g: nat)
    requires idx < |c| && |c| > 2 * (w + g) && w > 0
    ensures multiset(Taps(c, idx, w, g)) == multiset(WindowCells(c, idx, w, g))
  {
    hide Taps, WindowCells;
    if g < idx < w + g {
      FrontTapsAre(c, idx, w, g);
      FrontWindowIs(c, idx, w, g);
      Rotate(c[idx + g + w + 1..2 * g + 2 * w + 1], c[..idx - g], c[idx + g + 1..idx + g + 1 + w]);
    } else if |c| - w - g <= idx < |c| - g - 1 {
      RearTapsAre(c, idx, w, g);
      RearWindowIs(c, idx, w, g);
    } else {
      OtherTapsAre(c, idx, w, g);
    }
  }

  // ----- which taps the scans pick out -----

  /** value_max, max_index, value_min, min_index. */
  datatype Ends = Ends(max: nat, maxAt: nat, min: nat, minAt: nat)

  const START := Ends(0, 0, SENTINEL, 0)

  /** One step of the edge branches: a new maximum is never also offered as a minimum. */
  function See(e: Ends, v: nat, i: nat): Ends {
    if v > e.max then e.(max := v, maxAt := i)
    else if v < e.min then e.(min := v, minAt := i)
    else e
  }

  /** One comparison pair of the branch away from the edges. */
  function SeePair(e: Ends, low: nat, lowAt: nat, high: nat, highAt: nat): Ends {
    var top := if high > e.max then e.(max := high, maxAt := highAt) else e;
    if low < e.min then top.(min := low, minAt := lowAt) else top
  }

  ghost function EdgeScan(s: seq<nat>): Ends {
    if s == [] then START else See(EdgeScan(s[..|s| - 1]), s[|s| - 1], |s| - 1)
  }

  /** Larger than everything before it, and not zero. */
  ghost predicate IsRecord(s: seq<nat>, i: nat)
    requires i < |s|
  {
    s[i] > 0 && forall j :: 0 <= j < i ==> s[j] < s[i]
  }

  ghost predicate FirstMaxFound(s: seq<nat>, e: Ends) {
    && (forall i :: 0 <= i < |s| ==> s[i] <= e.max)
    && if e.max == 0 then e.maxAt == 0
       else e.maxAt < |s| && s[e.maxAt] == e.max && IsRecord(s, e.maxAt)
  }

  ghost predicate LeastPlainFound(s: seq<nat>, e: Ends) {
    && (forall i :: 0 <= i < |s| && !IsRecord(s, i) ==> s[i] >= e.min)
    && e.min <= SENTINEL
    && if e.min == SENTINEL then e.minAt == 0
       else e.minAt < |s| && s[e.minAt] == e.min && !IsRecord(s, e.minAt)
  }

  /** The edge scan ends with the first maximum, and the least of the taps that were no record. */
  ghost predicate EdgeFound(s: seq<nat>, e: Ends) {
    FirstMaxFound(s, e) && LeastPlainFound(s, e)
  }

  lemma RecordIff(s: seq<nat>, e: Ends)
    requires s != [] && FirstMaxFound(s[..|s| - 1], e)
    ensures IsRecord(s, |s| - 1) <==> s[|s| - 1] > e.max
  {
    var n := |s| - 1;
    if s[n] <= e.max && e.max > 0 {
      assert s[e.maxAt] >= s[n];
    }
  }

  lemma SeeKeepsMax(s: seq<nat>, e: Ends)
    requires s != [] && FirstMaxFound(s[..|s| - 1], e)
    ensures FirstMaxFound(s, See(e, s[|s| - 1], |s| - 1))
  {
    RecordIff(s, e);
    RecordsKept(s, s[..|s| - 1]);
    hide IsRecord;
    MaxCarries(s, s[..|s| - 1], e);
  }

  lemma MaxCarries(s: seq<nat>, t: seq<nat>, e: Ends)
    requires |s| == |t| + 1 && forall i :: 0 <= i < |t| ==> t[i] == s[i] && IsRecord(s, i) == IsRecord(t, i)
    requires IsRecord(s, |t|) <==> s[|t|] > e.max
    requires FirstMaxFound(t, e)
    ensures FirstMaxFound(s, See(e, s[|t|], |t|))
  {
    hide IsRecord;
    var e' := See(e, s[|t|], |t|);
    forall i | 0 <= i < |s|
      ensures s[i] <= e'.max
    {
      if i < |t| {
        assert t[i] <= e.max;
      }
    }
    if e'.max > 0 && e'.maxAt < |t| {
      assert t[e'.maxAt] == s[e'.maxAt];
    }
  }

  lemma LeastCarries(s: seq<nat>, t: seq<nat>, e: Ends)
    requires |s| == |t| + 1 && forall i :: 0 <= i < |t| ==> t[i] == s[i] && IsRecord(s, i) == IsRecord(t, i)
    requires IsRecord(s, |t|) <==> s[|t|] > e.max
    requires LeastPlainFound(t, e)
    ensures LeastPlainFound(s, See(e, s[|t|], |t|))
  {
    hide IsRecord;
    var e' := See(e, s[|t|], |t|);
    forall i | 0 <= i < |s| && !IsRecord(s, i)
      ensures s[i] >= e'.min
    {
      if i < |t| {
        assert t[i] >= e.min;
      }
    }
    if e'.min < SENTINEL && e'.minAt < |t| {
      assert t[e'.minAt] == s[e'.minAt];
    }
  }

  lemma SeeKeepsLeast(s: seq<nat>, e: Ends)
    requires s != [] && EdgeFound(s[..|s| - 1], e)
    ensures LeastPlainFound(s, See(e, s[|s| - 1], |s| - 1))
  {
    RecordIff(s, e);
    RecordsKept(s, s[..|s| - 1]);
    hide FirstMaxFound, IsRecord, LeastPlainFound, See;
    LeastCarries(s, s[..|s| - 1], e);
  }

  lemma RecordsKept(s: seq<nat>, t: seq<nat>)
    requires s != [] && t == s[..|s| - 1]
    ensures forall i :: 0 <= i < |t| ==> t[i] == s[i] && IsRecord(s, i) == IsRecord(t, i)
  {
  }

  lemma {:induction false} EdgeScanFinds(s: seq<nat>)
    ensures EdgeFound(s, EdgeScan(s))
  {
    if s != [] {
      hide FirstMaxFound, LeastPlainFound, See;
      var e := EdgeScan(s[..|s| - 1]);
      EdgeScanFinds(s[..|s| - 1]);
      SeeKeepsMax(s, e);
      SeeKeepsLeast(s, e);
    }
  }

  /** The two placed taps differ unless all taps are equal. */
  ghost predicate Placeable(s: seq<nat>, e: Ends) {
    && e.maxAt < |s| && e.minAt < |s|
    && (forall i :: 0 <= i < |s| ==> s[i] <= s[e.maxAt])
    && (e.maxAt == e.minAt ==> e.maxAt == 0 && forall i :: 0 <= i < |s| ==> s[i] == s[0])
  }

  ghost predicate Small(s: seq<nat>) {
    forall i :: 0 <= i < |s| ==> s[i] <= SENTINEL
  }

  lemma EdgePlaceable(s: seq<nat>)
    requires Small(s) && s != []
    ensures Placeable(s, EdgeScan(s))
  {
    hide EdgeScan;
    EdgeScanFinds(s);
    var e := EdgeScan(s);
    if e.maxAt == e.minAt && e.max > 0 {
      forall i | 0 < i < |s|
        ensures s[i] == s[0]
      {
        assert s[0] >= s[i];
        assert !IsRecord(s, i);
      }
    }
  }

  // ----- placing and sorting -----

  ghost function Swapped(s: seq<nat>, i: nat, j: nat): seq<nat>
    requires i < |s| && j < |s|
  {
    s[i := s[j]][j := s[i]]
  }

  method Swap(a: array<nat>, i: nat, j: nat)
    requires i < a.Length && j < a.Length
    modifies a
    ensures a[..] == Swapped(old(a[..]), i, j)
    ensures multiset(a[..]) == multiset(old(a[..]))
  {
    a[i], a[j] := a[j], a[i];
  }

  /** Every slot from lo to hi is at most b. */
  ghost predicate Under(s: seq<nat>, lo: nat, hi: nat, b: nat) {
    forall j :: lo <= j < hi && j < |s| ==> s[j] <= b
  }

  /** One outer round of the exchange sort: the largest of slots i..n-2 comes to slot i. */
  method Settle(a: array<nat>, i: nat, ghost b: nat)
    requires 1 <= i < a.Length && Under(a[..], i, a.Length - 1, b)
    modifies a
    ensures multiset(a[..]) == multiset(old(a[..]))
    ensures forall j :: 0 <= j < i || j == a.Length - 1 ==> a[j] == old(a[j])
    ensures Under(a[..], i, a.Length - 1, b)
    ensures i < a.Length - 1 ==> Under(a[..], i, a.Length - 1, a[i])
  {
    var j := i + 1;
    while j < a.Length - 1
      invariant i < j
      invariant i == a.Length - 1 || j <= a.Length - 1
      invariant multiset(a[..]) == multiset(old(a[..]))
      invariant forall j :: 0 <= j < i || j == a.Length - 1 ==> a[j] == old(a[j])
      invariant Under(a[..], i, a.Length - 1, b)
      invariant i < a.Length - 1 ==> Under(a[..], i, j, a[i])
    {
      if a[i] < a[j] {
        Swap(a, i, j);
      }
      j := j + 1;
    }
  }

  ghost predicate Descending(s: seq<nat>, n: nat) {
    forall p, q :: 0 <= p < n && p < q < |s| - 1 ==> s[q] <= s[p]
  }

  /** Rounds 1 to n - k: the slots before n - k + 1 then hold the largest, in order. */
  method PartialSort(a: array<nat>, k: nat)
    requires a.Length >= 3 && 1 <= k <= a.Length
    requires Under(a[..], 0, a.Length - 1, a[0])
    modifies a
    ensures multiset(a[..]) == multiset(old(a[..]))
    ensures a[a.Length - 1] == old(a[a.Length - 1])
    ensures Descending(a[..], a.Length - k + 1)
  {
    var n := a.Length;
    var i := 1;
    while i < n - k + 1
      invariant 1 <= i <= n - k + 1
      invariant multiset(a[..]) == multiset(old(a[..]))
      invariant a[n - 1] == old(a[n - 1])
      invariant Descending(a[..], i)
    {
      Settle(a, i, a[i - 1]);
      i := i + 1;
    }
  }

  /** What the selection returns: the tap picked as minimum for k = 1, otherwise the
      (k-1)-th smallest of the other taps; with two taps always the smaller. */
  ghost predicate Selected(s: seq<nat>, p: nat, k: nat, v: nat)
    requires p < |s| && 1 <= k
  {
    if |s| == 2 then IsKth(s, 1, v)
    else if k == 1 then v == s[p]
    else IsKth(Without(s, p), k - 1, v)
  }

  lemma SortedSelects(s: seq<nat>, t: seq<nat>, p: nat, k: nat)
    requires p < |s| && |s| >= 3 && 1 <= k <= |s|
    requires multiset(t) == multiset(s) && |t| == |s| && t[|t| - 1] == s[p]
    requires Descending(t, |s| - k + 1)
    ensures Selected(s, p, k, t[|s| - k])
  {
    hide IsKth, Without, Descending;
    if k > 1 {
      DescendingRank(t, |s| - k);
      SameWithout(s, t, p);
      KthOfPermutation(t[..|t| - 1], Without(s, p), k - 1, t[|s| - k]);
    }
  }

  lemma SameWithout(s: seq<nat>, t: seq<nat>, p: nat)
    requires p < |s| && t != [] && multiset(t) == multiset(s) && t[|t| - 1] == s[p]
    ensures multiset(t[..|t| - 1]) == multiset(Without(s, p))
  {
    WithoutLast(t);
    MultisetWithout(s, p);
    MultisetWithout(t, |t| - 1);
  }

  lemma DescendingRank(t: seq<nat>, q: nat)
    requires q + 1 < |t| && Descending(t, q + 1)
    ensures IsKth(t[..|t| - 1], |t| - 1 - q, t[q])
  {
    hide IsKth;
    RankByPosition(t[..|t| - 1], q);
  }

  lemma WithoutLast(t: seq<nat>)
    requires t != []
    ensures Without(t, |t| - 1) == t[..|t| - 1]
  {
  }

  lemma PermutationBound(s: seq<nat>, t: seq<nat>, b: nat)
    requires multiset(s) == multiset(t)
    requires forall i :: 0 <= i < |s| ==> s[i] <= b
    ensures forall i :: 0 <= i < |t| ==> t[i] <= b
  {
    forall i | 0 <= i < |t|
      ensures t[i] <= b
    {
      PermutationHas(t, s, t[i]);
    }
  }

  lemma SmallerOfTwo(s: seq<nat>, t: seq<nat>)
    requires |t| == 2 && multiset(s) == multiset(t) && t[1] <= t[0]
    ensures IsKth(s, 1, t[1])
  {
    hide IsKth;
    RankByPosition(t, 1);
    KthOfPermutation(t, s, 1, t[1]);
  }

  lemma EndsPlaced(s: seq<nat>, e: Ends)
    requires |s| >= 3 && Placeable(s, e)
    ensures var t := Swapped(s, 0, e.maxAt);
            var u := Swapped(t, |s| - 1, if e.minAt == 0 then e.maxAt else e.minAt);
            u[|s| - 1] == s[e.minAt] && u[0] == s[e.maxAt]
  {
  }

  /** Brings a maximum to the front and the picked tap to the end. */
  method Place(a: array<nat>, e: Ends)
    requires a.Length >= 3 && Placeable(a[..], e)
    modifies a
    ensures multiset(a[..]) == multiset(old(a[..]))
    ensures a[a.Length - 1] == old(a[..])[e.minAt]
    ensures Under(a[..], 0, a.Length - 1, a[0])
  {
    hide Swapped;
    ghost var s := a[..];
    var n := a.Length;
    EndsPlaced(s, e);
    Swap(a, 0, e.maxAt);
    if e.minAt == 0 {
      Swap(a, n - 1, e.maxAt);
    } else {
      Swap(a, n - 1, e.minAt);
    }
    PermutationBound(s, a[..], s[e.maxAt]);
  }

  method Select(a: array<nat>, e: Ends, k: nat) returns (v: nat)
    requires a.Length >= 2 && Placeable(a[..], e) && 1 <= k <= a.Length
    modifies a
    ensures Selected(old(a[..]), e.minAt, k, v)
  {
    hide IsKth;
    ghost var s := a[..];
    var n := a.Length;
    if n == 2 {
      Swap(a, 0, e.maxAt);
      PermutationBound(s, a[..], s[e.maxAt]);
      SmallerOfTwo(s, a[..]);
      return a[n - 1];
    }
    Place(a, e);
    PartialSort(a, k);
    SortedSelects(s, a[..], e.minAt, k);
    return a[n - k];
  }

  // ----- the estimator -----

  method EdgeRow(idx: nat, rows: nat, w: nat, g: nat, i: nat) returns (r: nat)
    requires idx < rows && rows > 2 * (w + g) && AtEdge(idx, rows, w, g) && i < 2 * w
    ensures r == TapRow(idx, rows, w, g, i)
  {
    if idx < w + g {
      if idx < g + 1 {
        r := idx + g + i + 1;
      } else if i < g + w - idx {
        r := idx + g + w + i + 1;
      } else if i < w {
        r := idx - g - w + i;
      } else {
        r := idx + g - w + i + 1;
      }
    } else if idx >= rows - g - 1 {
      r := idx - g - 2 * w + i;
    } else if i < rows - idx - g - 1 {
      r := idx + g + i + 1;
    } else {
      r := idx - g - 2 * w + i;
    }
  }

  method GatherEdge(m: array<nat>, d: nat, idx: nat, rows: nat, w: nat, g: nat, ghost c: seq<nat>)
    returns (a: array<nat>, e: Ends)
    requires IsColumn(c, m[..], d) && rows == |c| && idx < rows && rows > 2 * (w + g) && AtEdge(idx, rows, w, g)
    ensures fresh(a) && a[..] == Taps(c, idx, w, g) && e == EdgeScan(Taps(c, idx, w, g))
  {
    hide TapRow, AtEdge, See;
    ghost var s := Taps(c, idx, w, g);
    var n := 2 * w;
    a := new nat[n](_ => 0);
    e := START;
    for i := 0 to n
      invariant forall j :: 0 <= j < i ==> a[j] == s[j]
      invariant e == EdgeScan(s[..i])
    {
      var r := EdgeRow(idx, rows, w, g, i);
      a[i] := m[r * DOPPLER_BINS + d];
      e := See(e, a[i], i);
      assert s[..i + 1][..i] == s[..i];
    }
    assert s[..n] == s;
  }

  /** Slot p belongs to one of the first i pairs. */
  ghost predicate Paired(w: nat, i: nat, p: nat) {
    p < i || w <= p < w + i
  }

  /** The scan of the first i > 0 pairs found their extremes, at different slots unless all are equal. */
  ghost predicate PairsFound(s: seq<nat>, w: nat, i: nat, e: Ends)
    requires i <= w && 2 * w == |s|
  {
    && (forall j :: 0 <= j < |s| && Paired(w, i, j) ==> e.min <= s[j] <= e.max)
    && Paired(w, i, e.maxAt) && s[e.maxAt] == e.max
    && Paired(w, i, e.minAt) && s[e.minAt] == e.min
    && (e.maxAt == e.minAt ==> e.maxAt == 0 && e.min == e.max)
  }

  lemma FirstPair(s: seq<nat>, w: nat)
    requires 2 * w == |s| && w > 0 && s[0] <= SENTINEL && s[w] <= SENTINEL
    ensures s[0] <= s[w] ==> PairsFound(s, w, 1, SeePair(START, s[0], 0, s[w], w))
    ensures s[0] > s[w] ==> PairsFound(s, w, 1, SeePair(START, s[w], w, s[0], 0))
  {
  }

  lemma NextPair(s: seq<nat>, w: nat, i: nat, e: Ends, p: nat, q: nat)
    requires 2 * w == |s| && 0 < i < w && PairsFound(s, w, i, e)
    requires (p == i && q == w + i) || (p == w + i && q == i)
    requires s[p] <= s[q]
    ensures PairsFound(s, w, i + 1, SeePair(e, s[p], p, s[q], q))
  {
  }

  lemma PairJoins(s: seq<nat>, w: nat, i: nat, e: Ends)
    requires 2 * w == |s| && i < w && Small(s) && if i == 0 then e == START else PairsFound(s, w, i, e)
    ensures PairsFound(s, w, i + 1, if s[i] <= s[i + w] then SeePair(e, s[i], i, s[i + w], i + w)
                                    else SeePair(e, s[i + w], i + w, s[i], i))
  {
    hide PairsFound, SeePair;
    if i == 0 {
      FirstPair(s, w);
    } else if s[i] <= s[i + w] {
      NextPair(s, w, i, e, i, w + i);
    } else {
      NextPair(s, w, i, e, w + i, i);
    }
  }

  lemma PairsPlaceable(s: seq<nat>, w: nat, e: Ends)
    requires 2 * w == |s| && w > 0 && PairsFound(s, w, w, e)
    ensures Placeable(s, e)
    ensures forall i :: 0 <= i < |s| ==> s[e.minAt] <= s[i]
  {
    forall j | 0 <= j < |s|
      ensures e.min <= s[j] <= e.max
    {
      assert Paired(w, w, j);
    }
  }

  method GatherPairs(m: array<nat>, d: nat, idx: nat, rows: nat, w: nat, g: nat, ghost c: seq<nat>)
    returns (a: array<nat>, e: Ends)
    requires IsColumn(c, m[..], d) && rows == |c| && idx < rows && rows > 2 * (w + g) && !AtEdge(idx, rows, w, g)
    requires w > 0 && Small(c)
    ensures fresh(a) && a[..] == Taps(c, idx, w, g)
    ensures PairsFound(Taps(c, idx, w, g), w, w, e)
  {
    hide PairsFound, SeePair;
    ghost var s := Taps(c, idx, w, g);
    SmallTaps(c, idx, w, g);
    a := new nat[2 * w](_ => 0);
    e := START;
    for i := 0 to w
      invariant forall j :: 0 <= j < i || w <= j < w + i ==> a[j] == s[j]
      invariant if i == 0 then e == START else PairsFound(s, w, i, e)
    {
      a[i] := m[(idx - g - w + i) * DOPPLER_BINS + d];
      a[i + w] := m[(idx + g + i + 1) * DOPPLER_BINS + d];
      assert a[i] == s[i] && a[i + w] == s[i + w];
      PairJoins(s, w, i, e);
      if a[i] <= a[i + w] {
        e := SeePair(e, a[i], i, a[i + w], i + w);
      } else {
        e := SeePair(e, a[i + w], i + w, a[i], i);
      }
    }
  }

  lemma SmallTaps(c: seq<nat>, idx: nat, w: nat, g: nat)
    requires idx < |c| && |c| > 2 * (w + g) && Small(c)
    ensures Small(Taps(c, idx, w, g))
  {
  }

  /** Away from the edges the K-th smallest of the window comes back, and with w = 1 always
      the smaller cell; at the edges what comes back depends on the tap picked as minimum. */
  method OrderedStatistic(m: array<nat>, d: nat, idx: nat, rows: nat, w: nat, g: nat, k: nat) returns (floor: nat)
    requires d < DOPPLER_BINS && rows * DOPPLER_BINS <= m.Length && Small(Column(m[..], d, rows))
    requires idx < rows && rows > 2 * (w + g) && w > 0 && 1 <= k <= 2 * w
    ensures var c := Column(m[..], d, rows);
            if w == 1 then IsKth(WindowCells(c, idx, w, g), 1, floor)
            else if !AtEdge(idx, rows, w, g) then IsKth(WindowCells(c, idx, w, g), k, floor)
            else Selected(Taps(c, idx, w, g), EdgePick(Taps(c, idx, w, g)), k, floor)
    ensures floor == Floor(Column(m[..], d, rows), idx, w, g, k)
  {
    hide IsKth, Taps, EdgeScan, PairsFound, WindowCells;
    ghost var c := Column(m[..], d, rows);
    ghost var s := Taps(c, idx, w, g);
    SmallTaps(c, idx, w, g);
    TapsFillWindow(c, idx, w, g);
    var a, e;
    if idx < w + g || (idx < rows && idx >= rows - w - g) {
      a, e := GatherEdge(m, d, idx, rows, w, g, c);
      EdgePlaceable(s);
    } else {
      a, e := GatherPairs(m, d, idx, rows, w, g, c);
      PairsPlaceable(s, w, e);
    }
    floor := Select(a, e, k);
    if w == 1 {
      KthOfPermutation(s, WindowCells(c, idx, w, g), 1, floor);
    } else if !AtEdge(idx, rows, w, g) {
      LeastPicked(s, e.minAt, k, floor);
      KthOfPermutation(s, WindowCells(c, idx, w, g), k, floor);
    }
    FloorIs(c, idx, w, g, k, floor);
  }

  lemma FloorIs(c: seq<nat>, idx: nat, w: nat, g: nat, k: nat, v: nat)
    requires idx < |c| && |c| > 2 * (w + g) && w > 0 && 1 <= k <= 2 * w
    requires if w == 1 then IsKth(WindowCells(c, idx, w, g), 1, v)
             else if !AtEdge(idx, |c|, w, g) then IsKth(WindowCells(c, idx, w, g), k, v)
             else Selected(Taps(c, idx, w, g), EdgePick(Taps(c, idx, w, g)), k, v)
    ensures v == Floor(c, idx, w, g, k)
  {
    hide IsKth, WindowCells, Taps, EdgePick;
    if w == 1 || !AtEdge(idx, |c|, w, g) {
      var s, r := WindowCells(c, idx, w, g), if w == 1 then 1 else k;
      KthUnique(s, r, v, Kth(s, r));
    } else if k > 1 {
      var s := Without(Taps(c, idx, w, g), EdgePick(Taps(c, idx, w, g)));
      KthUnique(s, k - 1, v, Kth(s, k - 1));
    }
  }

  /** With a least tap picked, the selection is the k-th smallest of all taps. */
  lemma LeastPicked(s: seq<nat>, p: nat, k: nat, v: nat)
    requires p < |s| && |s| >= 3 && 1 <= k && Selected(s, p, k, v)
    requires forall i :: 0 <= i < |s| ==> s[p] <= s[i]
    ensures IsKth(s, k, v)
  {
    LessNone(s, s[p]);
    if k == 1 {
      LessWithout(s, p, v + 1);
    } else {
      PickedLow(s, p, k, v);
    }
  }

  /** What the estimator returns, as a function of the column. */
  ghost function Floor(c: seq<nat>, idx: nat, w: nat, g: nat, k: nat): nat
    requires idx < |c| && |c| > 2 * (w + g) && w > 0 && 1 <= k <= 2 * w
  {
    if w == 1 then Kth(WindowCells(c, idx, w, g), 1)
    else if !AtEdge(idx, |c|, w, g) then Kth(WindowCells(c, idx, w, g), k)
    else
      var s := Taps(c, idx, w, g);
      if k == 1 then s[EdgePick(s)] else Kth(Without(s, EdgePick(s)), k - 1)
  }

  // ----- the edges: exactly when the K-th smallest comes back -----

  ghost function EdgePick(s: seq<nat>): (p: nat)
    requires s != []
    ensures p < |s|
  {
    EdgeScanFinds(s);
    EdgeScan(s).minAt
  }

  /** The first tap is the only least one, and some later tap is offered as minimum instead. */
  ghost predicate Misses(s: seq<nat>)
    requires s != []
  {
    && s[0] > 0
    && (forall i :: 0 < i < |s| ==> s[0] < s[i])
    && exists j :: 0 < j < |s| && !IsRecord(s, j) && s[j] < SENTINEL
  }

  /** The edge scan picks a least tap unless the taps have the missing shape. */
  lemma EdgePickLeastIff(s: seq<nat>)
    requires Small(s) && s != []
    ensures (forall i :: 0 <= i < |s| ==> s[EdgePick(s)] <= s[i]) <==> !Misses(s)
  {
    hide EdgeScan;
    EdgeScanFinds(s);
    var e := EdgeScan(s);
    if Misses(s) {
      assert e.minAt != 0;
    } else if e.min == SENTINEL {
      PickedByDefault(s, e);
    } else {
      forall i | 0 <= i < |s|
        ensures e.min <= s[i]
      {
        if IsRecord(s, i) && s[i] < e.min {
          RecordBelow(s, e, i);
        }
      }
    }
  }

  lemma PickedByDefault(s: seq<nat>, e: Ends)
    requires Small(s) && s != [] && EdgeFound(s, e) && e.min == SENTINEL
    ensures forall i :: 0 <= i < |s| ==> s[0] <= s[i]
  {
  }

  lemma RecordBelow(s: seq<nat>, e: Ends, i: nat)
    requires i < |s| && EdgeFound(s, e) && e.min < SENTINEL && IsRecord(s, i) && s[i] < e.min
    ensures Misses(s)
  {
    assert s[0] <= s[i];
    assert IsRecord(s, 0);
    assert e.minAt > 0;
    forall j | 0 < j < |s|
      ensures s[0] < s[j]
    {
      if !IsRecord(s, j) {
        assert s[j] >= e.min;
      }
    }
  }

  /** Two neighbouring ranks hold the same value. */
  ghost predicate Tie(s: seq<nat>, k: nat)
    requires k > 0
  {
    exists v :: IsKth(s, k - 1, v) && IsKth(s, k, v)
  }

  lemma PickedLow(s: seq<nat>, p: nat, k: nat, v: nat)
    requires p < |s| && 2 <= k && IsKth(Without(s, p), k - 1, v)
    requires Less(s, s[p]) + 2 <= k
    ensures IsKth(s, k, v)
  {
    hide Less, Without;
    LessWithout(s, p, v);
    LessWithout(s, p, v + 1);
    LessWithout(s, p, s[p]);
    if v < s[p] {
      LessMonotone(Without(s, p), v + 1, s[p]);
    }
  }

  lemma PickedHigh(s: seq<nat>, p: nat, k: nat, v: nat)
    requires p < |s| && 2 <= k && IsKth(Without(s, p), k - 1, v)
    requires Less(s, s[p]) + 2 > k
    ensures IsKth(s, k - 1, v)
  {
    hide Less, Without;
    LessWithout(s, p, v);
    LessWithout(s, p, v + 1);
    LessWithout(s, p, s[p]);
    if s[p] <= v {
      LessMonotone(Without(s, p), s[p], v);
    }
  }

  /** x is the least tap that is no record or, where all of these are 65535, the first tap. */
  ghost predicate LeastPlain(s: seq<nat>, x: nat)
    requires s != []
  {
    if exists j :: 0 <= j < |s| && !IsRecord(s, j) && s[j] < SENTINEL then
      && (exists j :: 0 <= j < |s| && !IsRecord(s, j) && s[j] == x)
      && (forall j :: 0 <= j < |s| && !IsRecord(s, j) ==> x <= s[j])
    else x == s[0]
  }

  /** The scan picks a least tap that is no record, and only one value is that. */
  lemma PickIsLeastPlain(s: seq<nat>, x: nat)
    requires s != []
    ensures LeastPlain(s, s[EdgePick(s)])
    ensures LeastPlain(s, x) ==> x == s[EdgePick(s)]
  {
    hide IsRecord, EdgeScan, FirstMaxFound;
    EdgeScanFinds(s);
  }

  /** At an edge, for more than two taps: the K-th smallest is returned exactly when the taps do not
      have the missing shape (K = 1), or at most K - 2 taps are below the least plain one or the two
      ranks in question tie (K > 1). */
  lemma EdgeSelectsIff(s: seq<nat>, k: nat, v: nat, x: nat)
    requires Small(s) && |s| >= 3 && 1 <= k <= |s| && Selected(s, EdgePick(s), k, v) && LeastPlain(s, x)
    ensures IsKth(s, k, v) <==> if k == 1 then !Misses(s) else Less(s, x) + 2 <= k || Tie(s, k)
  {
    hide Less, EdgePick, Misses, LeastPlain;
    var p := EdgePick(s);
    PickIsLeastPlain(s, x);
    if k == 1 {
      EdgePickLeastIff(s);
      FirstIsLeast(s, p);
    } else if Less(s, x) + 2 <= k {
      PickedLow(s, p, k, v);
    } else {
      PickedHigh(s, p, k, v);
      if Tie(s, k) {
        var u :| IsKth(s, k - 1, u) && IsKth(s, k, u);
        KthUnique(s, k - 1, u, v);
      }
    }
  }

  lemma FirstIsLeast(s: seq<nat>, p: nat)
    requires p < |s|
    ensures IsKth(s, 1, s[p]) <==> forall i :: 0 <= i < |s| ==> s[p] <= s[i]
  {
    if forall i :: 0 <= i < |s| ==> s[p] <= s[i] {
      LessNone(s, s[p]);
      LessWithout(s, p, s[p] + 1);
    } else {
      var i :| 0 <= i < |s| && s[i] < s[p];
      LessWithout(s, i, s[p]);
    }
  }

  lemma FloorSelected(c: seq<nat>, idx: nat, w: nat, g: nat, k: nat)
    requires idx < |c| && |c| > 2 * (w + g) && w > 1 && 1 <= k <= 2 * w && AtEdge(idx, |c|, w, g)
    ensures Selected(Taps(c, idx, w, g), EdgePick(Taps(c, idx, w, g)), k, Floor(c, idx, w, g, k))
  {
    hide Taps, EdgePick, Without, IsKth, AtEdge;
  }

  /** What that means for a column: exactly when an edge cell's floor is the K-th smallest of its window. */
  lemma EdgeFloorIff(c: seq<nat>, idx: nat, w: nat, g: nat, k: nat, x: nat)
    requires idx < |c| && |c| > 2 * (w + g) && w > 1 && 1 <= k <= 2 * w && AtEdge(idx, |c|, w, g) && Small(c)
    requires LeastPlain(Taps(c, idx, w, g), x)
    ensures var s := Taps(c, idx, w, g);
            IsKth(WindowCells(c, idx, w, g), k, Floor(c, idx, w, g, k)) <==>
            if k == 1 then !Misses(s) else Less(WindowCells(c, idx, w, g), x) + 2 <= k || Tie(s, k)
  {
    hide Taps, WindowCells, LeastPlain, EdgePick, Floor, IsKth, Misses, Tie, Small;
    var s := Taps(c, idx, w, g);
    SmallTaps(c, idx, w, g);
    TapsFillWindow(c, idx, w, g);
    FloorSelected(c, idx, w, g, k);
    EdgeSelectsIff(s, k, Floor(c, idx, w, g, k), x);
    KthOfPermutation(s, WindowCells(c, idx, w, g), k, Floor(c, idx, w, g, k));
    LessOfPermutation(s, WindowCells(c, idx, w, g), x);
  }

  lemma SixthIsLate(s: seq<nat>)
    requires s == [1, 2, 3, 4, 5, 7, 8, 9, 10, 11, 12, 6]
    ensures LeastPlain(s, 6) && Less(s, 6) == 5 && !Tie(s, 6)
  {
    assert s[10] == 12 && s[11] == 6;
    assert forall i :: 0 <= i < 11 ==> IsRecord(s, i);
    assert !IsRecord(s, 11);
    assert s == s[..5] + s[5..];
    LessConcat(s[..5], s[5..], 6);
    LessAll(s[..5], 6);
    LessNone(s[5..], 6);
    forall v: nat
      ensures !(IsKth(s, 5, v) && IsKth(s, 6, v))
    {
      if v < 6 {
        LessMonotone(s, v + 1, 6);
      } else {
        LessMonotone(s, 6, v);
      }
    }
  }

  /** With row 0 cleared, as the detector's input stage leaves it, no front cell past the guard is missed. */
  lemma ClearedFrontSelects(c: seq<nat>, idx: nat, w: nat, g: nat, k: nat)
    requires |c| > 2 * (w + g) && w > 1 && 1 <= k <= 2 * w && g < idx < w + g && Small(c) && c[0] == 0
    ensures IsKth(WindowCells(c, idx, w, g), k, Floor(c, idx, w, g, k))
  {
    hide Taps, WindowCells, Floor, IsKth, Tie, Small;
    var s, i := Taps(c, idx, w, g), g + w - idx;
    ClearedTap(c, idx, w, g);
    assert !IsRecord(s, i);
    assert LeastPlain(s, 0);
    LessNone(WindowCells(c, idx, w, g), 0);
    EdgeFloorIff(c, idx, w, g, k, 0);
  }

  lemma ClearedTap(c: seq<nat>, idx: nat, w: nat, g: nat)
    requires |c| > 2 * (w + g) && w > 1 && g < idx < w + g && c[0] == 0
    ensures Taps(c, idx, w, g)[g + w - idx] == 0
  {
    assert TapRow(idx, |c|, w, g, g + w - idx) == 0;
  }

  /** A column of the map on which the estimator misses: with window 6, guard 2 and K = 6 the floor of
      range bin 510 is not the sixth smallest of its window. */
  lemma EdgeCanMiss() returns (c: seq<nat>)
    ensures |c| == RANGE_BINS && Small(c) && c[0] == 0
    ensures !IsKth(WindowCells(c, 510, 6, 2), 6, Floor(c, 510, 6, 2, 6))
  {
    var taps := [1, 2, 3, 4, 5, 7, 8, 9, 10, 11, 12, 6];
    c := ColumnOf(taps);
    EdgeTapsAre(c, taps);
    SixthIsLate(taps);
    hide Taps, WindowCells, LeastPlain, Floor, IsKth, Tie, Less;
    TapsFillWindow(c, 510, 6, 2);
    LessOfPermutation(taps, WindowCells(c, 510, 6, 2), 6);
    EdgeFloorIff(c, 510, 6, 2, 6, 6);
  }

  /** These taps before the guard zone of range bin 510, zeros elsewhere. */
  ghost function ColumnOf(taps: seq<nat>): (c: seq<nat>)
    requires |taps| == 12 && Small(taps)
    ensures |c| == RANGE_BINS && Small(c) && c[0] == 0 && c[496..508] == taps
  {
    seq(RANGE_BINS, (i: int) => if 496 <= i < 508 then taps[i - 496] else 0)
  }

  lemma EdgeTapsAre(c: seq<nat>, taps: seq<nat>)
    requires |c| == RANGE_BINS && |taps| == 12 && c[496..508] == taps
    ensures Taps(c, 510, 6, 2) == taps
  {
    forall i | 0 <= i < 12
      ensures Taps(c, 510, 6, 2)[i] == taps[i]
    {
      assert TapRow(510, |c|, 6, 2, i) == 496 + i;
      assert c[496 + i] == c[496..508][i];
    }
  }
}
