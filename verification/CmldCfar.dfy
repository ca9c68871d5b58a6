// Censored-mean noise floor: each side is sorted, its extremes are dropped, the rest is averaged.
module CmldCfar {
  import opened RadarMap
  import opened OrderStats
  import opened Tallies
  import opened RangeCfar
  import Trim = RangeCfarTrim

  const LIST_SIZE: nat := 64

  // ----- the bubble sort of a list of cell indices -----

  ghost predicate Indexes(l: seq<nat>, key: seq<nat>) {
    forall i :: 0 <= i < |l| ==> l[i] < |key|
  }

  ghost function Mags(l: seq<nat>, key: seq<nat>): (s: seq<nat>)
    requires Indexes(l, key)
    ensures |s| == |l|
  {
    seq(|l|, i requires 0 <= i < |l| => key[l[i]])
  }

  /** Slots j and j + 1 put in descending order of magnitude. */
  ghost function Stepped(s: seq<nat>, j: nat): seq<nat>
    requires j + 1 < |s|
  {
    if s[j] < s[j + 1] then s[j := s[j + 1]][j + 1 := s[j]] else s
  }

  lemma ExchangePermutes(l: seq<nat>, j: nat)
    requires j + 1 < |l|
    ensures multiset(l[j := l[j + 1]][j + 1 := l[j]]) == multiset(l)
  {
  }

  method Step(list: array<nat>, j: nat, m: array<nat>, d: nat, ghost key: seq<nat>)
    requires j + 1 < list.Length && list != m
    requires d <= m.Length && key == m[d..] && Indexes(list[..], key)
    modifies list
    ensures Indexes(list[..], key)
    ensures multiset(list[..]) == multiset(old(list[..]))
    ensures forall p :: 0 <= p < list.Length && p != j && p != j + 1 ==> list[p] == old(list[p])
    ensures Mags(list[..], key) == Stepped(old(Mags(list[..], key)), j)
    ensures old(key[list[j]] >= key[list[j + 1]]) ==> list[j + 1] == old(list[j + 1])
  {
    ghost var l, s := list[..], Mags(list[..], key);
    if m[list[j] + d] < m[list[j + 1] + d] {
      list[j], list[j + 1] := list[j + 1], list[j];
      assert list[..] == l[j := l[j + 1]][j + 1 := l[j]];
      ExchangePermutes(l, j);
      assert Mags(list[..], key) == s[j := s[j + 1]][j + 1 := s[j]];
    }
  }

  /** Every magnitude up to slot hi is at least b. */
  ghost predicate AtLeast(s: seq<nat>, hi: nat, b: nat) {
    forall p :: 0 <= p <= hi && p < |s| ==> s[p] >= b
  }

  lemma SteppedPermutes(s: seq<nat>, j: nat)
    requires j + 1 < |s|
    ensures multiset(Stepped(s, j)) == multiset(s)
  {
  }

  lemma SteppedKeeps(s: seq<nat>, j: nat, hi: nat, b: nat)
    requires j < hi < |s| && AtLeast(s, hi, b) && AtLeast(s, j, s[j])
    ensures var t := Stepped(s, j);
            |t| == |s| && AtLeast(t, hi, b) && AtLeast(t, j + 1, t[j + 1]) && AtLeast(t, j, t[j + 1])
  {
  }

  lemma FirstAlone(s: seq<nat>)
    requires s != []
    ensures AtLeast(s, 0, s[0])
  {
  }

  lemma LastStep(s: seq<nat>, hi: nat, b: nat)
    requires 0 < hi < |s| && s[hi] == b && AtLeast(s, hi, b)
    ensures s[hi - 1] >= s[hi] && Stepped(s, hi - 1) == s
  {
  }

  /** One pass sinks a least magnitude of slots 0..hi to slot hi; a slot hi that already
      held a least one keeps its index, and then slot hi - 1 holds a least of the others. */
  method Pass(list: array<nat>, hi: nat, m: array<nat>, d: nat, ghost key: seq<nat>, ghost b: nat)
    requires 0 < hi < list.Length && list != m
    requires d <= m.Length && key == m[d..] && Indexes(list[..], key) && AtLeast(Mags(list[..], key), hi, b)
    modifies list
    ensures Indexes(list[..], key)
    ensures multiset(list[..]) == multiset(old(list[..]))
    ensures multiset(Mags(list[..], key)) == multiset(old(Mags(list[..], key)))
    ensures forall p :: hi < p < list.Length ==> list[p] == old(list[p])
    ensures AtLeast(Mags(list[..], key), hi, b)
    ensures AtLeast(Mags(list[..], key), hi, key[list[hi]])
    ensures b == old(key[list[hi]]) ==>
              list[hi] == old(list[hi]) && AtLeast(Mags(list[..], key), hi - 1, key[list[hi - 1]])
  {
    hide Stepped, AtLeast;
    ghost var s := Mags(list[..], key);
    FirstAlone(s);
    var j := 0;
    while j < hi
      invariant j <= hi && Indexes(list[..], key) && s == Mags(list[..], key)
      invariant multiset(list[..]) == multiset(old(list[..]))
      invariant multiset(s) == multiset(old(Mags(list[..], key)))
      invariant forall p :: hi < p < list.Length ==> list[p] == old(list[p])
      invariant AtLeast(s, hi, b) && AtLeast(s, j, s[j])
      invariant b == old(key[list[hi]]) ==> list[hi] == old(list[hi])
      invariant b == old(key[list[hi]]) && j == hi ==> AtLeast(s, hi - 1, s[hi - 1])
    {
      if j + 1 == hi && s[hi] == b {
        LastStep(s, hi, b);
      }
      SteppedPermutes(s, j);
      SteppedKeeps(s, j, hi, b);
      Step(list, j, m, d, key);
      s := Mags(list[..], key);
      j := j + 1;
    }
  }

  /** From slot lo to slot n the magnitudes descend, and nothing before is smaller. */
  ghost predicate Settled(s: seq<nat>, lo: nat, n: nat) {
    forall p, q :: 0 <= p < q <= n && lo <= q && q < |s| ==> s[p] >= s[q]
  }

  lemma SettleOne(s: seq<nat>, t: seq<nat>, hi: nat, n: nat)
    requires 0 < hi <= n < |s| && |t| == |s| && Settled(s, hi, n)
    requires forall p :: hi <= p < |s| ==> t[p] == s[p]
    requires AtLeast(t, hi, s[hi]) && AtLeast(t, hi - 1, t[hi - 1])
    ensures Settled(t, hi - 1, n)
  {
  }

  lemma KeepLeast(s: seq<nat>, t: seq<nat>, hi: nat, n: nat)
    requires hi < n < |s| && |t| == |s|
    requires AtLeast(s, n, s[n]) && AtLeast(t, hi, s[n])
    requires forall p :: hi < p < |s| ==> t[p] == s[p]
    ensures AtLeast(t, n, t[n])
  {
  }

  lemma LeastSettles(s: seq<nat>, n: nat)
    requires n < |s|
    ensures AtLeast(s, n, s[n]) <==> Settled(s, n, n)
    ensures forall lo: nat :: lo <= n && Settled(s, lo, n) ==> AtLeast(s, lo, s[lo]) && AtLeast(s, lo, s[n])
    ensures Settled(s, 1, n) || n == 0 ==> Falling(s[..n])
  {
  }

  /** Pass i: settles one more slot when the extra slot holds a least magnitude. */
  method SortPass(list: array<nat>, i: nat, n: nat, m: array<nat>, d: nat, ghost key: seq<nat>, ghost least: bool)
    returns (ghost t: seq<nat>)
    requires i < n < list.Length && list != m
    requires d <= m.Length && key == m[d..] && Indexes(list[..], key)
    requires i > 0 ==> AtLeast(Mags(list[..], key), n, key[list[n]])
    requires least ==> Settled(Mags(list[..], key), n - i, n)
    modifies list
    ensures Indexes(list[..], key) && t == Mags(list[..], key)
    ensures forall p :: n < p < list.Length ==> list[p] == old(list[p])
    ensures multiset(list[..]) == multiset(old(list[..]))
    ensures multiset(t) == multiset(old(Mags(list[..], key)))
    ensures AtLeast(t, n, t[n])
    ensures least ==> list[n] == old(list[n]) && Settled(t, n - i - 1, n)
  {
    hide AtLeast, Settled;
    ghost var s := Mags(list[..], key);
    var hi := n - i;
    AnyAtLeast(s, n, hi);
    LeastSettles(s, n);
    Pass(list, hi, m, d, key, if least then s[hi] else if i > 0 then s[n] else 0);
    t := Mags(list[..], key);
    if least {
      SettleOne(s, t, hi, n);
      LeastSettles(t, n);
      SettledIsLeast(t, hi - 1, n);
    } else if i > 0 {
      KeepLeast(s, t, hi, n);
    }
  }

  lemma AnyAtLeast(s: seq<nat>, n: nat, hi: nat)
    requires hi <= n < |s|
    ensures AtLeast(s, hi, 0)
    ensures AtLeast(s, n, s[n]) ==> AtLeast(s, hi, s[n])
  {
  }

  lemma SettledIsLeast(s: seq<nat>, lo: nat, n: nat)
    requires lo <= n < |s| && Settled(s, lo, n)
    ensures AtLeast(s, n, s[n])
  {
  }

  /** Sorting n + 1 slots permutes the first n of them exactly when slot n held a least magnitude. */
  lemma PrefixKeptIff(s: seq<nat>, t: seq<nat>, n: nat)
    requires n < |s| == |t| && multiset(s) == multiset(t) && s[n + 1..] == t[n + 1..]
    requires AtLeast(t, n, t[n])
    requires AtLeast(s, n, s[n]) ==> t[n] == s[n]
    ensures multiset(t[..n]) == multiset(s[..n]) <==> AtLeast(s, n, s[n])
  {
    hide AtLeast;
    Parts(s, n);
    Parts(t, n);
    Cancel(multiset(s[..n]), multiset(t[..n]), multiset(s[n + 1..]), s[n], t[n]);
    if multiset(t[..n]) == multiset(s[..n]) {
      LeastOfPermutation(s, t, n);
    }
  }

  /** It does change: two slots of 3 and 4 before a slot of 5, however they come out sorted. */
  lemma PrefixChanges(t: seq<nat>)
    requires |t| == 3 && multiset(t) == multiset([3, 4, 5]) && AtLeast(t, 2, t[2])
    ensures multiset(t[..2]) != multiset([3, 4])
  {
    var s := [3, 4, 5];
    assert !AtLeast(s, 2, s[2]) by {
      assert s[0] < s[2];
    }
    assert s[..2] == [3, 4] && s[3..] == t[3..];
    PrefixKeptIff(s, t, 2);
  }

  lemma Parts(s: seq<nat>, n: nat)
    requires n < |s|
    ensures multiset(s) == multiset(s[..n]) + multiset{s[n]} + multiset(s[n + 1..])
  {
    assert s == s[..n] + [s[n]] + s[n + 1..];
  }

  lemma Cancel(a: multiset<nat>, b: multiset<nat>, c: multiset<nat>, x: nat, y: nat)
    requires a + multiset{x} + c == b + multiset{y} + c
    ensures a == b <==> x == y
  {
    assert forall z: nat :: (a + multiset{x} + c)[z] == a[z] + (if z == x then 1 else 0) + c[z];
    assert forall z: nat :: (b + multiset{y} + c)[z] == b[z] + (if z == y then 1 else 0) + c[z];
    if a == b {
      assert a[x] == b[x];
    }
  }

  lemma LeastOfPermutation(s: seq<nat>, t: seq<nat>, n: nat)
    requires n < |s| == |t| && multiset(s[..n]) == multiset(t[..n]) && s[n] == t[n] && AtLeast(t, n, t[n])
    ensures AtLeast(s, n, s[n])
  {
    forall p | 0 <= p < n
      ensures s[p] >= s[n]
    {
      PermutationHas(s[..n], t[..n], s[..n][p]);
    }
  }

  method BubbleSort(list: array<nat>, n: nat, m: array<nat>, d: nat, ghost key: seq<nat>)
    requires n < list.Length && list != m
    requires d <= m.Length && key == m[d..] && Indexes(list[..], key)
    modifies list
    ensures Indexes(list[..], key)
    ensures forall p :: n < p < list.Length ==> list[p] == old(list[p])
    ensures multiset(list[..]) == multiset(old(list[..]))
    ensures multiset(Mags(list[..], key)) == multiset(old(Mags(list[..], key)))
    ensures multiset(Mags(list[..], key)[..n]) == multiset(old(Mags(list[..], key)[..n])) <==>
            n < 2 || old(AtLeast(Mags(list[..], key), n, key[list[n]]))
    ensures old(AtLeast(Mags(list[..], key), n, key[list[n]])) ==>
              list[n] == old(list[n]) && Falling(Mags(list[..], key)[..n])
  {
    hide AtLeast, Settled, Falling;
    ghost var s := Mags(list[..], key);
    ghost var least := AtLeast(s, n, s[n]);
    ghost var last := list[n];
    ghost var s0 := s;
    LeastSettles(s, n);
    var i := 0;
    while i < n - 1
      invariant i <= n && (n > 0 ==> i <= n - 1) && Indexes(list[..], key)
      invariant s == Mags(list[..], key)
      invariant forall p :: n < p < list.Length ==> list[p] == old(list[p])
      invariant multiset(list[..]) == multiset(old(list[..]))
      invariant multiset(s) == multiset(old(Mags(list[..], key)))
      invariant if i == 0 then s == s0 else AtLeast(s, n, s[n])
      invariant least ==> list[n] == last && Settled(s, n - i, n)
    {
      s := SortPass(list, i, n, m, d, key, least);
      i := i + 1;
    }
    LeastSettles(s, n);
    if n >= 2 {
      PrefixKeptIff(s0, s, n);
    }
  }

  // ----- the two lists -----

  ghost function RightCells(c: seq<nat>, idx: nat, w: nat, g: nat): (s: seq<nat>)
    requires idx < |c| && |c| > 2 * (w + g)
    ensures |s| == w
  {
    seq(w, p requires 0 <= p < w => c[Trim.RightRow(idx, |c|, w, g, p + 1)])
  }

  ghost function LeftCells(c: seq<nat>, idx: nat, w: nat, g: nat): (s: seq<nat>)
    requires idx < |c| && |c| > 2 * (w + g)
    ensures |s| == w
  {
    seq(w, p requires 0 <= p < w => c[Trim.LeftRow(idx, w, g, p + 1)])
  }

  /** The cells of the two sides, by distance. Where rows run out on one side, the rest come from past the window
      of the other, the farthest first. */
  lemma CellsAre(c: seq<nat>, idx: nat, w: nat, g: nat, p: nat)
    requires idx < |c| && |c| > 2 * (w + g) && p < w
    ensures idx + g + 1 + p < |c| ==> RightCells(c, idx, w, g)[p] == c[idx + g + 1 + p]
    ensures idx + g + 1 + p >= |c| ==>
              0 <= idx - g - 2 * w + p < idx - g - w && RightCells(c, idx, w, g)[p] == c[idx - g - 2 * w + p]
    ensures idx - g - 1 - p >= 0 ==> LeftCells(c, idx, w, g)[p] == c[idx - g - 1 - p]
    ensures idx - g - 1 - p < 0 ==>
              idx + g + w < idx + g + 2 * w - p < |c| && LeftCells(c, idx, w, g)[p] == c[idx + g + 2 * w - p]
  {
  }

  method GatherRight(idx: nat, rows: nat, w: nat, g: nat, removed: nat) returns (list: array<nat>, count: nat)
    requires idx < rows && rows > 2 * (w + g) && w < LIST_SIZE
    ensures fresh(list) && list.Length == LIST_SIZE && count == w
    ensures forall p :: 0 <= p < w ==> list[p] == Trim.RightRow(idx, rows, w, g, p + 1) * DOPPLER_BINS
    ensures forall p :: w <= p < LIST_SIZE ==> list[p] == 0
  {
    list := new nat[LIST_SIZE](_ => 0);
    count := 0;
    var i := 1;
    while i <= w + removed
      invariant 1 <= i && count == i - 1 <= w
      invariant forall p :: 0 <= p < count ==> list[p] == Trim.RightRow(idx, rows, w, g, p + 1) * DOPPLER_BINS
      invariant forall p :: count <= p < LIST_SIZE ==> list[p] == 0
    {
      if count >= w {
        break;
      }
      if idx + g + i < rows {
        list[count] := (idx + g + i) * DOPPLER_BINS;
        count := count + 1;
      } else {
        var lent := idx - g - w - (w - i + 1);
        if lent >= 0 && lent < rows {
          list[count] := lent * DOPPLER_BINS;
          count := count + 1;
        }
      }
      i := i + 1;
    }
  }

  method GatherLeft(idx: nat, rows: nat, w: nat, g: nat, removed: nat) returns (list: array<nat>, count: nat)
    requires idx < rows && rows > 2 * (w + g) && w < LIST_SIZE
    ensures fresh(list) && list.Length == LIST_SIZE && count == w
    ensures forall p :: 0 <= p < w ==> list[p] == Trim.LeftRow(idx, w, g, p + 1) * DOPPLER_BINS
    ensures forall p :: w <= p < LIST_SIZE ==> list[p] == 0
  {
    list := new nat[LIST_SIZE](_ => 0);
    count := 0;
    var i := 1;
    while i <= w + removed
      invariant 1 <= i && count == i - 1 <= w
      invariant forall p :: 0 <= p < count ==> list[p] == Trim.LeftRow(idx, w, g, p + 1) * DOPPLER_BINS
      invariant forall p :: count <= p < LIST_SIZE ==> list[p] == 0
    {
      if count >= w {
        break;
      }
      if idx - g - i >= 0 {
        list[count] := (idx - g - i) * DOPPLER_BINS;
        count := count + 1;
      } else {
        var lent := idx + g + w + (w - i + 1);
        if lent >= 0 && lent < rows {
          list[count] := lent * DOPPLER_BINS;
          count := count + 1;
        }
      }
      i := i + 1;
    }
  }

  // ----- the estimator -----

  /** The nonzero cells of one side but its hi largest and lo smallest. */
  ghost function Kept(s: seq<nat>, hi: nat, lo: nat): Tally {
    Tallies.Over(Sorted(s), hi, |Sorted(s)| - lo)
  }

  method SortSide(list: array<nat>, n: nat, m: array<nat>, d: nat, ghost key: seq<nat>, ghost s: seq<nat>)
    requires n < list.Length && list != m
    requires d < m.Length && key == m[d..] && Indexes(list[..], key)
    requires list[n] == 0 && key[0] == 0
    requires s == Mags(list[..], key)[..n]
    modifies list
    ensures Indexes(list[..], key) && Mags(list[..], key)[..n] == Sorted(s)
  {
    hide Falling;
    assert AtLeast(Mags(list[..], key), n, key[list[n]]);
    BubbleSort(list, n, m, d, key);
    SortedUnique(Mags(list[..], key)[..n], s);
  }

  /** Adds up what the removals leave of one sorted side. */
  method AddSide(list: array<nat>, n: nat, m: array<nat>, d: nat, hi: nat, lo: nat, sum: nat, count: nat,
                 ghost key: seq<nat>, ghost s: seq<nat>, ghost t: Tally)
    returns (sum': nat, count': nat)
    requires n < list.Length && d < m.Length && key == m[d..] && Indexes(list[..], key)
    requires Mags(list[..], key)[..n] == Sorted(s) && Holds(sum, count, t)
    ensures Holds(sum', count', t.Plus(Kept(s, hi, lo)))
  {
    hide Holds, Sorted;
    sum', count' := sum, count;
    ghost var sorted := Sorted(s);
    Nothing(sorted, hi);
    PlusNothing(t);
    var i := hi;
    while i < n - lo
      invariant i == hi || hi <= i <= n - lo
      invariant Holds(sum', count', t.Plus(Tallies.Over(sorted, hi, i)))
    {
      assert sorted[i] == key[list[i]];
      sum', count' := AddCell(m, d, list[i], sum', count', t.Plus(Tallies.Over(sorted, hi, i)));
      i := i + 1;
    }
  }

  method AddCell(m: array<nat>, d: nat, at: nat, sum: nat, count: nat, ghost t: Tally) returns (sum': nat, count': nat)
    requires at + d < m.Length && Holds(sum, count, t)
    ensures Holds(sum', count', t.Plus(Of(m[at + d])))
  {
    sum', count' := sum, count;
    if m[at + d] != 0 {
      count' := count + 1;
      sum' := (sum + m[at + d]) % U32;
    }
  }

  /** A gathered list names the cells c in its first n slots and row 0 in slot n. */
  ghost predicate Lists(list: seq<nat>, n: nat, key: seq<nat>, s: seq<nat>) {
    && n < |list| && Indexes(list, key) && list[n] == 0
    && Mags(list, key)[..n] == s
  }

  lemma ListsCells(list: seq<nat>, w: nat, m: seq<nat>, d: nat, rows: nat, s: seq<nat>, at: seq<nat>)
    requires d < DOPPLER_BINS && 0 < rows && rows * DOPPLER_BINS <= |m| && |list| == LIST_SIZE && w < LIST_SIZE
    requires |s| == |at| == w
    requires forall p :: 0 <= p < w ==> at[p] < rows && s[p] == Column(m, d, rows)[at[p]]
    requires forall p :: 0 <= p < w ==> list[p] == at[p] * DOPPLER_BINS
    requires forall p :: w <= p < LIST_SIZE ==> list[p] == 0
    ensures Lists(list, w, m[d..], s)
  {
    var key := m[d..];
    forall p | 0 <= p < w
      ensures list[p] < |key| && key[list[p]] == s[p]
    {
      assert at[p] * DOPPLER_BINS + DOPPLER_BINS <= rows * DOPPLER_BINS;
    }
    assert Indexes(list, key);
    assert Mags(list, key)[..w] == s;
  }

  /** Row 0 must be zero, as the detector's input stage leaves it. */
  method CensoredMean(m: array<nat>, d: nat, idx: nat, rows: nat, w: nat, g: nat, hi: nat, lo: nat)
    returns (floor: int)
    requires d < DOPPLER_BINS && rows * DOPPLER_BINS <= m.Length && idx < rows
    requires rows > 2 * (w + g) && w < LIST_SIZE && m[d] == 0
    ensures var c := Column(m[..], d, rows);
            floor == MeanOf(Kept(RightCells(c, idx, w, g), hi, lo).Plus(Kept(LeftCells(c, idx, w, g), hi, lo)))
  {
    hide Holds, Kept, Column, RightCells, LeftCells, Mean;
    ghost var c := Column(m[..], d, rows);
    ghost var key := m[d..];
    ghost var right, left := RightCells(c, idx, w, g), LeftCells(c, idx, w, g);
    var listR, countR := GatherRight(idx, rows, w, g, hi + lo);
    var listL, countL := GatherLeft(idx, rows, w, g, hi + lo);
    RightListed(listR[..], m[..], d, idx, rows, w, g);
    LeftListed(listL[..], m[..], d, idx, rows, w, g);
    SortSide(listR, countR, m, d, key, right);
    SortSide(listL, countL, m, d, key, left);
    var sum, count := Start();
    sum, count := AddSide(listR, countR, m, d, hi, lo, sum, count, key, right, Tally(0, 0));
    sum, count := AddSide(listL, countL, m, d, hi, lo, sum, count, key, left, Tally(0, 0).Plus(Kept(right, hi, lo)));
    PlusNothing(Kept(right, hi, lo));
    floor := MeanFrom(sum, count, Kept(right, hi, lo).Plus(Kept(left, hi, lo)));
  }

  method MeanFrom(sum: nat, count: nat, ghost t: Tally) returns (floor: int)
    requires Holds(sum, count, t)
    ensures floor == MeanOf(t)
  {
    if count >= 1 {
      floor := AsInt32(sum / count);
    } else {
      floor := 0;
    }
  }

  lemma RightListed(list: seq<nat>, m: seq<nat>, d: nat, idx: nat, rows: nat, w: nat, g: nat)
    requires d < DOPPLER_BINS && rows * DOPPLER_BINS <= |m| && idx < rows
    requires rows > 2 * (w + g) && w < LIST_SIZE && |list| == LIST_SIZE
    requires forall p :: 0 <= p < w ==> list[p] == Trim.RightRow(idx, rows, w, g, p + 1) * DOPPLER_BINS
    requires forall p :: w <= p < LIST_SIZE ==> list[p] == 0
    ensures Lists(list, w, m[d..], RightCells(Column(m, d, rows), idx, w, g))
  {
    var at: seq<nat> := seq(w, p requires 0 <= p < w => Trim.RightRow(idx, rows, w, g, p + 1));
    ListsCells(list, w, m, d, rows, RightCells(Column(m, d, rows), idx, w, g), at);
  }

  lemma LeftListed(list: seq<nat>, m: seq<nat>, d: nat, idx: nat, rows: nat, w: nat, g: nat)
    requires d < DOPPLER_BINS && rows * DOPPLER_BINS <= |m| && idx < rows
    requires rows > 2 * (w + g) && w < LIST_SIZE && |list| == LIST_SIZE
    requires forall p :: 0 <= p < w ==> list[p] == Trim.LeftRow(idx, w, g, p + 1) * DOPPLER_BINS
    requires forall p :: w <= p < LIST_SIZE ==> list[p] == 0
    ensures Lists(list, w, m[d..], LeftCells(Column(m, d, rows), idx, w, g))
  {
    var at: seq<nat> := seq(w, p requires 0 <= p < w => Trim.LeftRow(idx, w, g, p + 1));
    ListsCells(list, w, m, d, rows, LeftCells(Column(m, d, rows), idx, w, g), at);
  }

  // ----- with nothing removed, it is cell averaging -----

  lemma {:induction false} OverOfPrefix(s: seq<nat>, t: seq<nat>, b: nat)
    requires b <= |s| && b <= |t| && s[..b] == t[..b]
    ensures Tallies.Over(s, 0, b) == Tallies.Over(t, 0, b)
  {
    if b > 0 {
      assert s[b - 1] == s[..b][b - 1];
      OverOfPrefix(s, t, b - 1);
    }
  }

  lemma {:induction false} InsertTally(t: seq<nat>, v: nat)
    ensures |Insert(t, v)| == |t| + 1
    ensures Tallies.Over(Insert(t, v), 0, |t| + 1).sum == Tallies.Over(t, 0, |t|).sum + v
    ensures Tallies.Over(Insert(t, v), 0, |t| + 1).count == Tallies.Over(t, 0, |t|).count + Of(v).count
  {
    var n, u := |t|, Insert(t, v);
    if t == [] || t[n - 1] >= v {
      OverOfPrefix(t, u, n);
    } else {
      var front := Insert(t[..n - 1], v);
      InsertTally(t[..n - 1], v);
      OverOfPrefix(front, u, n);
      OverOfPrefix(t[..n - 1], t, n - 1);
    }
  }

  lemma {:induction false} SortedTally(s: seq<nat>)
    ensures |Sorted(s)| == |s|
    ensures Tallies.Over(Sorted(s), 0, |s|).sum == Tallies.Over(s, 0, |s|).sum
    ensures Tallies.Over(Sorted(s), 0, |s|).count == Tallies.Over(s, 0, |s|).count
  {
    if s != [] {
      var n := |s| - 1;
      SortedTally(s[..n]);
      InsertTally(Sorted(s[..n]), s[n]);
      OverOfPrefix(s[..n], s, n);
    }
  }

  lemma {:induction false} RightTally(c: seq<nat>, idx: nat, w: nat, g: nat, n: nat)
    requires idx < |c| && |c| > 2 * (w + g) && n <= w
    ensures Tallies.Over(RightCells(c, idx, w, g), 0, n).sum == Trim.Right(c, idx, w, g, false, n).tally.sum
    ensures Tallies.Over(RightCells(c, idx, w, g), 0, n).count == Trim.Right(c, idx, w, g, false, n).tally.count
  {
    if n > 0 {
      RightTally(c, idx, w, g, n - 1);
      Trim.TakeTally(c, Trim.Right(c, idx, w, g, false, n - 1), Trim.RightRow(idx, |c|, w, g, n), false);
    }
  }

  lemma {:induction false} LeftTally(c: seq<nat>, idx: nat, w: nat, g: nat, n: nat)
    requires idx < |c| && |c| > 2 * (w + g) && n <= w
    ensures Trim.Left(c, idx, w, g, false, n).tally.sum
         == Trim.Right(c, idx, w, g, false, w).tally.sum + Tallies.Over(LeftCells(c, idx, w, g), 0, n).sum
    ensures Trim.Left(c, idx, w, g, false, n).tally.count
         == Trim.Right(c, idx, w, g, false, w).tally.count + Tallies.Over(LeftCells(c, idx, w, g), 0, n).count
  {
    if n > 0 {
      LeftTally(c, idx, w, g, n - 1);
      Trim.TakeTally(c, Trim.Left(c, idx, w, g, false, n - 1), Trim.LeftRow(idx, w, g, n), false);
    }
  }

  // ----- what a removal keeps -----

  lemma {:induction false} OverSlice(s: seq<nat>, a: nat, b: nat)
    requires a <= b <= |s|
    ensures Tallies.Over(s, a, b).sum == Tallies.Over(s[a..b], 0, b - a).sum
    ensures Tallies.Over(s, a, b).count == Tallies.Over(s[a..b], 0, b - a).count
  {
    if a < b {
      OverSlice(s, a, b - 1);
      Unfold(s, a, b);
      Unfold(s[a..b], 0, b - a);
      OverOfPrefix(s[a..b], s[a..b - 1], b - 1 - a);
    }
  }

  lemma ThreeParts(t: seq<nat>, hi: nat, lo: nat)
    requires hi + lo <= |t|
    ensures multiset(t) == multiset(t[..hi]) + multiset(t[hi..|t| - lo]) + multiset(t[|t| - lo..])
  {
    assert t == t[..hi] + t[hi..|t| - lo] + t[|t| - lo..];
  }

  lemma FallingParts(t: seq<nat>, hi: nat, lo: nat)
    requires Falling(t) && hi + lo <= |t|
    ensures var large, kept, small := t[..hi], t[hi..|t| - lo], t[|t| - lo..];
            && (forall i, j :: 0 <= i < |large| && 0 <= j < |kept| ==> large[i] >= kept[j])
            && (forall i, j :: 0 <= i < |kept| && 0 <= j < |small| ==> kept[i] >= small[j])
  {
  }

  /** large, kept and small are the cells of s: hi largest, what lies between, and lo smallest. */
  ghost predicate Splits(s: seq<nat>, large: seq<nat>, kept: seq<nat>, small: seq<nat>) {
    && multiset(s) == multiset(large) + multiset(kept) + multiset(small)
    && (forall i, j :: 0 <= i < |large| && 0 <= j < |kept| ==> large[i] >= kept[j])
    && (forall i, j :: 0 <= i < |kept| && 0 <= j < |small| ==> kept[i] >= small[j])
  }

  lemma SortedSplits(s: seq<nat>, hi: nat, lo: nat)
    requires hi + lo <= |s|
    ensures var t := Sorted(s);
            |t| == |s| && Splits(s, t[..hi], t[hi..|t| - lo], t[|t| - lo..])
  {
    hide Sorted, Falling;
    var t := Sorted(s);
    SameLength(t, s);
    ThreeParts(t, hi, lo);
    FallingParts(t, hi, lo);
  }

  /** The cells of a side split into hi largest, the kept ones and lo smallest; what is kept is summed, and
      its nonzero cells are counted. With fewer cells than removals nothing is kept. */
  lemma KeptParts(s: seq<nat>, hi: nat, lo: nat) returns (large: seq<nat>, kept: seq<nat>, small: seq<nat>)
    ensures hi + lo <= |s| ==>
              && Splits(s, large, kept, small) && |large| == hi && |small| == lo
              && Kept(s, hi, lo).sum == Tallies.Over(kept, 0, |kept|).sum
              && Kept(s, hi, lo).count == Tallies.Over(kept, 0, |kept|).count
    ensures hi + lo > |s| ==> Kept(s, hi, lo) == Tally(0, 0)
  {
    hide Sorted, Splits;
    var t := Sorted(s);
    SameLength(t, s);
    large, kept, small := [], [], [];
    if hi + lo <= |s| {
      large, kept, small := t[..hi], t[hi..|t| - lo], t[|t| - lo..];
      SortedSplits(s, hi, lo);
      OverSlice(t, hi, |t| - lo);
    }
  }

  /** Removing nothing, the censored mean is the plain cell average of the window. */
  lemma UncensoredIsCellAverage(c: seq<nat>, idx: nat, w: nat, g: nat)
    requires idx < |c| && |c| > 2 * (w + g)
    ensures MeanOf(Kept(RightCells(c, idx, w, g), 0, 0).Plus(Kept(LeftCells(c, idx, w, g), 0, 0)))
         == MeanOf(Window(c, idx, w, g))
  {
    hide Sorted, Tallies.Over, Window, Trim.Left, Trim.Right, RightCells, LeftCells;
    SortedTally(RightCells(c, idx, w, g));
    SortedTally(LeftCells(c, idx, w, g));
    RightTally(c, idx, w, g, w);
    LeftTally(c, idx, w, g, w);
    Trim.GatheredIsWindow(c, idx, w, g, false);
  }
}
