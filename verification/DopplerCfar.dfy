// Noise floor of a cell from its Doppler neighbours: cyclic windows that skip three clutter bins.
module DopplerCfar {
  import opened Arith
  import opened OrderStats
  import opened Tallies
  import opened CmldCfar

  const SENTINEL: nat := 65535

  // ----- what a set of taps amounts to -----

  /** How many taps, their total, the largest (0 if none) and the smallest (65535 if none). */
  datatype Stats = Stats(count: nat, sum: nat, max: nat, min: nat) {
    function Add(v: nat): Stats {
      Stats(count + 1, sum + v, if v > max then v else max, if v < min then v else min)
    }

    function Join(s: Stats): Stats {
      Stats(count + s.count, sum + s.sum, if s.max > max then s.max else max, if s.min < min then s.min else min)
    }
  }

  const NONE := Stats(0, 0, 0, SENTINEL)

  ghost function StatsOf(t: seq<nat>): (s: Stats)
    ensures s.count == |t|
  {
    if t == [] then NONE else StatsOf(t[..|t| - 1]).Add(t[|t| - 1])
  }

  lemma {:induction false} StatsBounds(t: seq<nat>)
    ensures StatsOf(t).min <= SENTINEL
    ensures forall i :: 0 <= i < |t| ==> StatsOf(t).min <= t[i] <= StatsOf(t).max
    ensures StatsOf(t).max == 0 || StatsOf(t).max in t
    ensures StatsOf(t).min == SENTINEL || StatsOf(t).min in t
  {
    if t != [] {
      StatsBounds(t[..|t| - 1]);
    }
  }

  lemma JoinNone(s: Stats)
    requires s.min <= SENTINEL
    ensures s.Join(NONE) == s
  {
    match s case Stats(_, _, _, _) =>
  }

  lemma AddLeft(a: Stats, b: Stats, v: nat)
    ensures a.Add(v).Join(b) == a.Join(b).Add(v)
  {
  }

  lemma AddRight(a: Stats, b: Stats, v: nat)
    ensures a.Join(b.Add(v)) == a.Join(b).Add(v)
  {
  }

  lemma {:induction false} StatsConcat(a: seq<nat>, b: seq<nat>)
    ensures StatsOf(a + b) == StatsOf(a).Join(StatsOf(b))
  {
    if b == [] {
      assert a + b == a;
      StatsBounds(a);
      JoinNone(StatsOf(a));
    } else {
      hide Stats.Join, Stats.Add;
      assert (a + b)[..|a + b| - 1] == a + b[..|b| - 1];
      StatsConcat(a, b[..|b| - 1]);
      AddRight(StatsOf(a), StatsOf(b[..|b| - 1]), b[|b| - 1]);
    }
  }

  function Wrap(x: int): (r: nat)
    ensures r < U32
  {
    x % U32
  }

  lemma WrapSub(a: int, b: int)
    ensures Wrap(Wrap(a) - b) == Wrap(a - b)
  {
  }

  lemma WrapAdd(a: int, b: int)
    ensures Wrap(Wrap(a) + b) == Wrap(a + b)
  {
  }

  /** The mean after the asked-for removals, which need more than three taps; 32-bit arithmetic. */
  ghost function TrimmedFloor(s: Stats, dropMax: bool, dropMin: bool): int {
    if s.count == 0 then 0
    else
      var high := if s.count > 3 && dropMax && s.max != 0 then 1 else 0;
      var low := if s.count > 3 && dropMin && s.min != 0 then 1 else 0;
      Quotient(Wrap(s.sum - (if high == 1 then s.max else 0) - (if low == 1 then s.min else 0)), s.count - high - low)
  }

  function Quotient(sum32: nat, n: nat): int
    requires sum32 < U32 && n > 0
  {
    AsInt32(sum32 / n)
  }

  // ----- the bins a side visits -----

  /** The bin of step i on one side, wrapping around once. */
  ghost function Bin(left: bool, idx: nat, g: nat, col: nat, i: nat): int {
    if left then (if idx - g - i < 0 then idx - g - i + col else idx - g - i)
    else if idx + g + i > col - 1 then idx + g + i - col else idx + g + i
  }

  /** Bins 0, 1 and col - 1 hold clutter and are never used. */
  ghost predicate Skipped(col: nat, b: int) {
    b == 0 || b == 1 || b == col - 1
  }

  ghost predicate FitsRow(row: seq<nat>, idx: nat, w: nat, g: nat) {
    idx < |row| && g + w + 3 < |row|
  }

  lemma BinInRow(left: bool, idx: nat, g: nat, col: nat, i: nat)
    requires idx < col && g + i < col
    ensures 0 <= Bin(left, idx, g, col, i) < col
  {
  }

  /** The taps one side has after n steps: the first w nonzero cells outside the skipped bins. */
  ghost function Side(row: seq<nat>, left: bool, idx: nat, w: nat, g: nat, n: nat): (t: seq<nat>)
    requires FitsRow(row, idx, w, g) && n <= w + 3
    ensures |t| <= w
  {
    if n == 0 then []
    else
      BinInRow(left, idx, g, |row|, n);
      var t := Side(row, left, idx, w, g, n - 1);
      var b := Bin(left, idx, g, |row|, n);
      if |t| < w && row[b] != 0 && !Skipped(|row|, b) then t + [row[b]] else t
  }

  ghost function SideTaps(row: seq<nat>, left: bool, idx: nat, w: nat, g: nat): (t: seq<nat>)
    requires FitsRow(row, idx, w, g)
    ensures |t| <= w
  {
    Side(row, left, idx, w, g, w + 3)
  }

  lemma SideStart(row: seq<nat>, left: bool, idx: nat, w: nat, g: nat)
    requires FitsRow(row, idx, w, g)
    ensures Side(row, left, idx, w, g, 0) == []
  {
  }

  lemma SideStep(row: seq<nat>, left: bool, idx: nat, w: nat, g: nat, n: nat)
    requires FitsRow(row, idx, w, g) && 1 <= n <= w + 3
    ensures var t := Side(row, left, idx, w, g, n - 1);
            var b := Bin(left, idx, g, |row|, n);
            0 <= b < |row| &&
            if |t| < w && row[b] != 0 && !Skipped(|row|, b)
            then Side(row, left, idx, w, g, n) == t + [row[b]] &&
                 StatsOf(Side(row, left, idx, w, g, n)) == StatsOf(t).Add(row[b])
            else Side(row, left, idx, w, g, n) == t
  {
    var t := Side(row, left, idx, w, g, n - 1);
    BinInRow(left, idx, g, |row|, n);
    var b := Bin(left, idx, g, |row|, n);
    assert (t + [row[b]])[..|t|] == t;
  }

  lemma {:induction false} FullSideStays(row: seq<nat>, left: bool, idx: nat, w: nat, g: nat, n: nat, k: nat)
    requires FitsRow(row, idx, w, g) && n <= k <= w + 3 && |Side(row, left, idx, w, g, n)| == w
    ensures Side(row, left, idx, w, g, k) == Side(row, left, idx, w, g, n)
    decreases k
  {
    if n < k {
      FullSideStays(row, left, idx, w, g, n, k - 1);
    }
  }

  // ----- both sides fill -----

  /** The step at which a side meets bin b. */
  ghost function StepTo(left: bool, idx: nat, g: nat, col: nat, b: int): int {
    var ahead := if left then idx - g - b else b - idx - g;
    if ahead >= 1 then ahead else ahead + col
  }

  ghost function Met(step: int, n: nat): nat {
    if 1 <= step <= n then 1 else 0
  }

  /** How many of the skipped bins lie within n steps. */
  ghost function MetSkipped(left: bool, idx: nat, g: nat, col: nat, n: nat): (k: nat)
    ensures k <= 3
  {
    Met(StepTo(left, idx, g, col, 0), n) + Met(StepTo(left, idx, g, col, 1), n) +
    Met(StepTo(left, idx, g, col, col - 1), n)
  }

  lemma SkippedStep(left: bool, idx: nat, g: nat, col: nat, n: nat)
    requires idx < col && 1 <= n && g + n < col && col >= 3
    ensures MetSkipped(left, idx, g, col, n) - MetSkipped(left, idx, g, col, n - 1)
         == if Skipped(col, Bin(left, idx, g, col, n)) then 1 else 0
  {
  }

  lemma {:induction false} SideFills(row: seq<nat>, left: bool, idx: nat, w: nat, g: nat, n: nat)
    requires FitsRow(row, idx, w, g) && n <= w + 3
    requires forall b :: 0 <= b < |row| && !Skipped(|row|, b) ==> row[b] != 0
    ensures |Side(row, left, idx, w, g, n)| >= w ||
            |Side(row, left, idx, w, g, n)| == n - MetSkipped(left, idx, g, |row|, n)
  {
    hide MetSkipped, Side, Bin, StatsOf, Skipped;
    if n > 0 {
      SideFills(row, left, idx, w, g, n - 1);
      SkippedStep(left, idx, g, |row|, n);
      SideStep(row, left, idx, w, g, n);
    } else {
      SideStart(row, left, idx, w, g);
      NoneMet(left, idx, g, |row|);
    }
  }

  lemma NoneMet(left: bool, idx: nat, g: nat, col: nat)
    requires col > 0
    ensures MetSkipped(left, idx, g, col, 0) == 0
  {
    hide StepTo;
  }

  /** Three spare steps make up for the three skipped bins: each side gathers w taps. */
  lemma SidesFull(row: seq<nat>, left: bool, idx: nat, w: nat, g: nat)
    requires FitsRow(row, idx, w, g)
    requires forall b :: 0 <= b < |row| && !Skipped(|row|, b) ==> row[b] != 0
    ensures |SideTaps(row, left, idx, w, g)| == w
  {
    SideFills(row, left, idx, w, g, w + 3);
  }

  // ----- no bin is used twice -----

  /** The bins a side has taken after n steps. */
  ghost function SideBins(row: seq<nat>, left: bool, idx: nat, w: nat, g: nat, n: nat): (bins: seq<int>)
    requires FitsRow(row, idx, w, g) && n <= w + 3
  {
    if n == 0 then []
    else
      BinInRow(left, idx, g, |row|, n);
      var bins := SideBins(row, left, idx, w, g, n - 1);
      var b := Bin(left, idx, g, |row|, n);
      if |bins| < w && row[b] != 0 && !Skipped(|row|, b) then bins + [b] else bins
  }

  /** They are the bins of the side's taps, each met in one of the n steps. */
  lemma {:induction false} SideBinsAre(row: seq<nat>, left: bool, idx: nat, w: nat, g: nat, n: nat)
    requires FitsRow(row, idx, w, g) && n <= w + 3
    ensures var bins, t := SideBins(row, left, idx, w, g, n), Side(row, left, idx, w, g, n);
            && |bins| == |t|
            && (forall k :: 0 <= k < |t| ==> 0 <= bins[k] < |row| && t[k] == row[bins[k]])
            && (forall b :: b in bins ==> exists i :: 1 <= i <= n && b == Bin(left, idx, g, |row|, i))
  {
    if n > 0 {
      hide Bin, Skipped, StatsOf;
      SideBinsAre(row, left, idx, w, g, n - 1);
      BinInRow(left, idx, g, |row|, n);
    }
  }

  /** With fewer bins visited than the row has, all steps of both sides meet different bins, none of them idx. */
  lemma StepsApart(idx: nat, g: nat, col: nat, n: nat, i: nat, j: nat)
    requires idx < col && 2 * (g + n) < col && 1 <= i <= n && 1 <= j <= n
    ensures Bin(true, idx, g, col, i) != Bin(false, idx, g, col, j)
    ensures Bin(true, idx, g, col, i) != idx && Bin(false, idx, g, col, i) != idx
    ensures i != j ==> Bin(true, idx, g, col, i) != Bin(true, idx, g, col, j)
    ensures i != j ==> Bin(false, idx, g, col, i) != Bin(false, idx, g, col, j)
  {
  }

  ghost predicate Distinct(s: seq<int>) {
    forall i, j :: 0 <= i < j < |s| ==> s[i] != s[j]
  }

  lemma DistinctTogether(s: seq<int>, t: seq<int>)
    requires Distinct(s) && Distinct(t) && forall a :: a in s ==> a !in t
    ensures Distinct(s + t)
  {
    forall i, j | 0 <= i < j < |s + t|
      ensures (s + t)[i] != (s + t)[j]
    {
      if i < |s| && |s| <= j {
        assert s[i] in s && t[j - |s|] in t;
      }
    }
  }

  lemma {:induction false} SideBinsDistinct(row: seq<nat>, left: bool, idx: nat, w: nat, g: nat, n: nat)
    requires FitsRow(row, idx, w, g) && 2 * (g + w + 3) < |row| && n <= w + 3
    ensures Distinct(SideBins(row, left, idx, w, g, n))
  {
    if n > 0 {
      hide Bin, Skipped;
      SideBinsDistinct(row, left, idx, w, g, n - 1);
      SideBinsAre(row, left, idx, w, g, n - 1);
      var b := Bin(left, idx, g, |row|, n);
      var bins := SideBins(row, left, idx, w, g, n - 1);
      if b in bins {
        var i :| 1 <= i <= n - 1 && b == Bin(left, idx, g, |row|, i);
        StepsApart(idx, g, |row|, w + 3, i, n);
        assert false;
      }
      DistinctTogether(bins, [b]);
    }
  }

  /** The taps of both sides together are cells of different bins other than the tested one: the average over
      both counts no cell twice. */
  lemma TapsDistinct(row: seq<nat>, idx: nat, w: nat, g: nat)
    requires FitsRow(row, idx, w, g) && 2 * (g + w + 3) < |row|
    ensures var bins := SideBins(row, true, idx, w, g, w + 3) + SideBins(row, false, idx, w, g, w + 3);
            var taps := SideTaps(row, true, idx, w, g) + SideTaps(row, false, idx, w, g);
            && Distinct(bins) && idx !in bins && |bins| == |taps|
            && forall k :: 0 <= k < |taps| ==> 0 <= bins[k] < |row| && taps[k] == row[bins[k]]
  {
    hide Bin, Side, SideBins;
    var l, r := SideBins(row, true, idx, w, g, w + 3), SideBins(row, false, idx, w, g, w + 3);
    SideBinsAre(row, true, idx, w, g, w + 3);
    SideBinsAre(row, false, idx, w, g, w + 3);
    SideBinsDistinct(row, true, idx, w, g, w + 3);
    SideBinsDistinct(row, false, idx, w, g, w + 3);
    forall a | a in l
      ensures a !in r && a != idx
    {
      var i :| 1 <= i <= w + 3 && a == Bin(true, idx, g, |row|, i);
      StepsApart(idx, g, |row|, w + 3, i, i);
      if a in r {
        var j :| 1 <= j <= w + 3 && a == Bin(false, idx, g, |row|, j);
        StepsApart(idx, g, |row|, w + 3, i, j);
      }
    }
    forall b | b in r
      ensures b != idx
    {
      var j :| 1 <= j <= w + 3 && b == Bin(false, idx, g, |row|, j);
      StepsApart(idx, g, |row|, w + 3, j, j);
    }
    DistinctTogether(l, r);
  }

  // ----- which cells a side holds -----

  /** The steps at which a side takes its taps, among the first n. */
  ghost function SideSteps(row: seq<nat>, left: bool, idx: nat, w: nat, g: nat, n: nat): (steps: seq<nat>)
    requires FitsRow(row, idx, w, g) && n <= w + 3
  {
    if n == 0 then []
    else
      BinInRow(left, idx, g, |row|, n);
      var steps := SideSteps(row, left, idx, w, g, n - 1);
      var b := Bin(left, idx, g, |row|, n);
      if |steps| < w && row[b] != 0 && !Skipped(|row|, b) then steps + [n] else steps
  }

  /** Bins are counted cyclically. */
  lemma BinIsModulo(left: bool, idx: nat, g: nat, col: nat, i: nat)
    requires idx < col && g + i < col
    ensures Bin(left, idx, g, col, i) == (if left then idx - g - i else idx + g + i) % col
  {
    CyclicIs(if left then idx - g - i else idx + g + i, col, Bin(left, idx, g, col, i));
  }

  /** Each step taken is that of its tap, and a usable step not taken comes too late. */
  lemma {:induction false} SideStepsAre(row: seq<nat>, left: bool, idx: nat, w: nat, g: nat, n: nat)
    requires FitsRow(row, idx, w, g) && n <= w + 3
    ensures var steps, t := SideSteps(row, left, idx, w, g, n), Side(row, left, idx, w, g, n);
            && |steps| == |t| <= w
            && (forall k :: 0 <= k < |t| ==> 1 <= steps[k] <= n && Taken(row, left, idx, g, steps[k], t[k]))
            && (forall k, l :: 0 <= k < l < |t| ==> steps[k] < steps[l])
            && (forall i :: 1 <= i <= n && Usable(row, left, idx, g, i) && i !in steps ==>
                  |t| == w && forall k :: 0 <= k < |t| ==> steps[k] < i)
  {
    if n > 0 {
      hide Taken, Skipped, StatsOf;
      SideStepsAre(row, left, idx, w, g, n - 1);
      SideStepTaken(row, left, idx, w, g, n);
    }
  }

  /** The bin of step i holds v, and is neither empty nor one of 0, 1 and the last. */
  ghost predicate Taken(row: seq<nat>, left: bool, idx: nat, g: nat, i: nat, v: nat)
    requires row != []
  {
    var b := (if left then idx - g - i else idx + g + i) % |row|;
    row[b] == v && v != 0 && 2 <= b < |row| - 1
  }

  ghost predicate Usable(row: seq<nat>, left: bool, idx: nat, g: nat, i: nat)
    requires row != []
  {
    exists v :: Taken(row, left, idx, g, i, v)
  }

  lemma SideStepTaken(row: seq<nat>, left: bool, idx: nat, w: nat, g: nat, n: nat)
    requires FitsRow(row, idx, w, g) && 1 <= n <= w + 3
    ensures var b := Bin(left, idx, g, |row|, n);
            && 0 <= b < |row|
            && (Usable(row, left, idx, g, n) <==> row[b] != 0 && !Skipped(|row|, b))
            && (Usable(row, left, idx, g, n) ==> Taken(row, left, idx, g, n, row[b]))
  {
    BinInRow(left, idx, g, |row|, n);
    BinIsModulo(left, idx, g, |row|, n);
    var b := Bin(left, idx, g, |row|, n);
    if row[b] != 0 && !Skipped(|row|, b) {
      assert Taken(row, left, idx, g, n, row[b]);
    }
  }

  /** A side holds, in order of distance, the first w cells that are nonzero and in none of the bins 0, 1 and
      the last, among those from g + 1 to g + w + 3 bins away, counted cyclically. */
  lemma SideHoldsFirst(row: seq<nat>, left: bool, idx: nat, w: nat, g: nat) returns (steps: seq<nat>)
    requires FitsRow(row, idx, w, g)
    ensures var t := SideTaps(row, left, idx, w, g);
            && |steps| == |t| <= w
            && (forall k, l :: 0 <= k < l < |t| ==> steps[k] < steps[l])
            && (forall k :: 0 <= k < |t| ==>
                  && 1 <= steps[k] <= w + 3
                  && var b := (if left then idx - g - steps[k] else idx + g + steps[k]) % |row|;
                     t[k] == row[b] && row[b] != 0 && 2 <= b < |row| - 1)
            && (forall i: nat :: 1 <= i <= w + 3 && i !in steps ==>
                  var b := (if left then idx - g - i else idx + g + i) % |row|;
                  row[b] == 0 || b < 2 || b == |row| - 1 || (|t| == w && forall k :: 0 <= k < |t| ==> steps[k] < i))
  {
    hide SideSteps, Side;
    steps := SideSteps(row, left, idx, w, g, w + 3);
    SideStepsAre(row, left, idx, w, g, w + 3);
    forall i: nat | 1 <= i <= w + 3 && i !in steps
      ensures var b := (if left then idx - g - i else idx + g + i) % |row|;
              row[b] == 0 || b < 2 || b == |row| - 1 || (|steps| == w && forall k :: 0 <= k < |steps| ==> steps[k] < i)
    {
      var b := (if left then idx - g - i else idx + g + i) % |row|;
      if !(row[b] == 0 || b < 2 || b == |row| - 1) {
        assert Taken(row, left, idx, g, i, row[b]);
      }
    }
  }

  /** The cells a side holds lie past the guard: from g + 1 to g + w + 3 bins away on their side, and with room
      for both guards more than g bins away the other way round, too. */
  lemma TapsBeyondGuard(idx: nat, w: nat, g: nat, col: nat, i: nat)
    requires idx < col && g + w + 3 < col && 1 <= i <= w + 3
    ensures (idx - (idx - g - i) % col) % col == g + i && ((idx + g + i) % col - idx) % col == g + i
    ensures 2 * g + w + 3 < col ==>
              ((idx - g - i) % col - idx) % col > g && (idx - (idx + g + i) % col) % col > g
  {
    BinIsModulo(true, idx, g, col, i);
    BinIsModulo(false, idx, g, col, i);
    BinDistance(idx, g, col, i);
  }

  lemma BinDistance(idx: nat, g: nat, col: nat, i: nat)
    requires idx < col && 1 <= i && g + i < col
    ensures var l, r := Bin(true, idx, g, col, i), Bin(false, idx, g, col, i);
            && (idx - l) % col == g + i && (r - idx) % col == g + i
            && (l - idx) % col == col - g - i && (idx - r) % col == col - g - i
  {
    var l, r := Bin(true, idx, g, col, i), Bin(false, idx, g, col, i);
    CyclicIs(idx - l, col, g + i);
    CyclicIs(r - idx, col, g + i);
    CyclicIs(l - idx, col, col - g - i);
    CyclicIs(idx - r, col, col - g - i);
  }

  // ----- the two estimators -----

  /** data_sum, value_max and value_min for the taps counted in s; the sum modulo 2^32. */
  ghost predicate Holds(sum: nat, max: nat, min: nat, s: Stats) {
    sum == Wrap(s.sum) && max == s.max && min == s.min
  }

  ghost predicate IsRow(row: seq<nat>, m: seq<nat>, base: nat) {
    base + |row| <= |m| && row == m[base..base + |row|]
  }

  /** One step on one side. */
  method Visit(m: array<nat>, base: nat, col: nat, b: nat, w: nat, count: nat, sum: nat, max: nat, min: nat,
               ghost row: seq<nat>, ghost s: Stats)
    returns (count': nat, sum': nat, max': nat, min': nat)
    requires IsRow(row, m[..], base) && col == |row| && b < col && Holds(sum, max, min, s)
    ensures if count < w && row[b] != 0 && !Skipped(col, b)
            then count' == count + 1 && Holds(sum', max', min', s.Add(row[b]))
            else count' == count && Holds(sum', max', min', s)
  {
    count', sum', max', min' := count, sum, max, min;
    if count < w {
      var v := m[base + b];
      if v != 0 {
        if b != 0 && b != 1 && b != col - 1 {
          WrapAdd(s.sum, v);
          sum' := Wrap(sum + v);
          count' := count + 1;
          if v > max {
            max' := v;
          }
          if v < min {
            min' := v;
          }
        }
      }
    }
  }

  method CellAverage(m: array<nat>, base: nat, col: nat, idx: nat, w: nat, g: nat, dropMax: bool, dropMin: bool,
                     ghost row: seq<nat>)
    returns (floor: int)
    requires IsRow(row, m[..], base) && col == |row| && FitsRow(row, idx, w, g)
    ensures floor == TrimmedFloor(StatsOf(SideTaps(row, true, idx, w, g) + SideTaps(row, false, idx, w, g)),
                                  dropMax, dropMin)
  {
    hide Holds, IsRow, Skipped, TrimmedFloor, StatsOf, Side, Stats.Add, Stats.Join, Wrap;
    var left, right := 0, 0;
    var sum, max, min := Begin();
    ghost var tl, tr: seq<nat> := [], [];
    SideStart(row, true, idx, w, g);
    SideStart(row, false, idx, w, g);
    var i := 1;
    while i <= w + 3
      invariant 1 <= i <= w + 4
      invariant tl == Side(row, true, idx, w, g, i - 1) && left == |tl|
      invariant tr == Side(row, false, idx, w, g, i - 1) && right == |tr|
      invariant Holds(sum, max, min, StatsOf(tl).Join(StatsOf(tr)))
    {
      if left >= w && right >= w {
        FullSideStays(row, true, idx, w, g, i - 1, w + 3);
        FullSideStays(row, false, idx, w, g, i - 1, w + 3);
        break;
      }
      var bl := idx - g - i;
      var br := idx + g + i;
      if bl < 0 {
        bl := bl + col;
      }
      if br > col - 1 {
        br := br - col;
      }
      SideStep(row, true, idx, w, g, i);
      SideStep(row, false, idx, w, g, i);
      left, sum, max, min := Visit(m, base, col, bl, w, left, sum, max, min, row, StatsOf(tl).Join(StatsOf(tr)));
      AddLeft(StatsOf(tl), StatsOf(tr), row[bl]);
      tl := Side(row, true, idx, w, g, i);
      right, sum, max, min := Visit(m, base, col, br, w, right, sum, max, min, row, StatsOf(tl).Join(StatsOf(tr)));
      AddRight(StatsOf(tl), StatsOf(tr), row[br]);
      tr := Side(row, false, idx, w, g, i);
      i := i + 1;
    }
    StatsConcat(tl, tr);
    floor := Finish(left + right, sum, max, min, dropMax, dropMin, StatsOf(tl + tr));
  }

  method Begin() returns (sum: nat, max: nat, min: nat)
    ensures Holds(sum, max, min, StatsOf([]).Join(StatsOf([])))
    ensures Holds(sum, max, min, StatsOf([]))
  {
    hide Stats.Join;
    assert StatsOf([]) == NONE;
    JoinNone(NONE);
    sum, max, min := 0, 0, SENTINEL;
  }

  method Finish(count: nat, sum: nat, max: nat, min: nat, dropMax: bool, dropMin: bool, ghost s: Stats)
    returns (floor: int)
    requires count == s.count && Holds(sum, max, min, s)
    ensures floor == TrimmedFloor(s, dropMax, dropMin)
  {
    hide Wrap, Quotient;
    if count >= 1 {
      var total, n := sum, count;
      if n > 3 {
        if dropMax && max != 0 {
          WrapSub(s.sum, max);
          total := Wrap(total - max);
          n := n - 1;
        }
        if dropMin && min != 0 {
          WrapSub(s.sum, min);
          WrapSub(s.sum - max, min);
          total := Wrap(total - min);
          n := n - 1;
        }
      }
      floor := Quotient(total, n);
    } else {
      floor := 0;
    }
  }

  /** The greater of the two sides' floors; a side without taps has no say. */
  ghost function GreatestFloor(l: Stats, r: Stats, dropMax: bool, dropMin: bool): int {
    if l.count >= 1 && r.count >= 1 then
      if TrimmedFloor(r, dropMax, dropMin) > TrimmedFloor(l, dropMax, dropMin)
      then TrimmedFloor(r, dropMax, dropMin) else TrimmedFloor(l, dropMax, dropMin)
    else if l.count >= 1 then TrimmedFloor(l, dropMax, dropMin)
    else TrimmedFloor(r, dropMax, dropMin)
  }

  method GreatestOf(m: array<nat>, base: nat, col: nat, idx: nat, w: nat, g: nat, dropMax: bool, dropMin: bool,
                    ghost row: seq<nat>)
    returns (floor: int)
    requires IsRow(row, m[..], base) && col == |row| && FitsRow(row, idx, w, g)
    ensures floor == GreatestFloor(StatsOf(SideTaps(row, true, idx, w, g)), StatsOf(SideTaps(row, false, idx, w, g)),
                                   dropMax, dropMin)
  {
    hide Holds, IsRow, Skipped, TrimmedFloor, StatsOf, Side, Stats.Add, Stats.Join, Wrap;
    var left, right := 0, 0;
    var sumL, maxL, minL := Begin();
    var sumR, maxR, minR := Begin();
    ghost var tl, tr: seq<nat> := [], [];
    SideStart(row, true, idx, w, g);
    SideStart(row, false, idx, w, g);
    var i := 1;
    while i <= w + 3
      invariant 1 <= i <= w + 4
      invariant tl == Side(row, true, idx, w, g, i - 1) && left == |tl|
      invariant tr == Side(row, false, idx, w, g, i - 1) && right == |tr|
      invariant Holds(sumL, maxL, minL, StatsOf(tl)) && Holds(sumR, maxR, minR, StatsOf(tr))
    {
      if left >= w && right >= w {
        FullSideStays(row, true, idx, w, g, i - 1, w + 3);
        FullSideStays(row, false, idx, w, g, i - 1, w + 3);
        break;
      }
      var bl := idx - g - i;
      var br := idx + g + i;
      if bl < 0 {
        bl := bl + col;
      }
      if br > col - 1 {
        br := br - col;
      }
      SideStep(row, true, idx, w, g, i);
      SideStep(row, false, idx, w, g, i);
      left, sumL, maxL, minL := Visit(m, base, col, bl, w, left, sumL, maxL, minL, row, StatsOf(tl));
      right, sumR, maxR, minR := Visit(m, base, col, br, w, right, sumR, maxR, minR, row, StatsOf(tr));
      tl, tr := Side(row, true, idx, w, g, i), Side(row, false, idx, w, g, i);
      i := i + 1;
    }
    if left >= 1 && right >= 1 {
      var meanL := Finish(left, sumL, maxL, minL, dropMax, dropMin, StatsOf(tl));
      var meanR := Finish(right, sumR, maxR, minR, dropMax, dropMin, StatsOf(tr));
      floor := if meanR > meanL then meanR else meanL;
    } else if left >= 1 && right < 1 {
      floor := Finish(left, sumL, maxL, minL, dropMax, dropMin, StatsOf(tl));
    } else {
      floor := Finish(right, sumR, maxR, minR, dropMax, dropMin, StatsOf(tr));
    }
  }

  // ----- what the floors mean -----

  /** Nonzero magnitudes of at most 16 bits, few enough for a 32-bit sum. */
  ghost predicate Ordinary(t: seq<nat>) {
    |t| <= 65536 && forall i :: 0 <= i < |t| ==> 0 < t[i] <= SENTINEL
  }

  lemma {:induction false} StatsTally(t: seq<nat>)
    requires Ordinary(t)
    ensures StatsOf(t).sum == Over(t, 0, |t|).sum <= |t| * SENTINEL
    ensures Over(t, 0, |t|).count == |t|
  {
    if t != [] {
      var n := |t| - 1;
      StatsTally(t[..n]);
      OverOfPrefix(t[..n], t, n);
    }
  }

  lemma SortedEnds(t: seq<nat>)
    requires Ordinary(t) && t != []
    ensures |Sorted(t)| == |t| && Ordinary(Sorted(t))
    ensures Sorted(t)[0] == StatsOf(t).max && Sorted(t)[|t| - 1] == StatsOf(t).min
  {
    hide StatsOf, Sorted;
    var s := Sorted(t);
    SameLength(s, t);
    StatsBounds(t);
    assert t[0] in t;
    assert StatsOf(t).max in t && StatsOf(t).min in t;
    PermutationHas(t, s, StatsOf(t).max);
    PermutationHas(t, s, StatsOf(t).min);
    forall i | 0 <= i < |s|
      ensures 0 < s[i] <= SENTINEL && StatsOf(t).min <= s[i] <= StatsOf(t).max
    {
      PermutationHas(s, t, s[i]);
    }
  }

  lemma {:induction false} OverBounds(s: seq<nat>, a: nat, b: nat, lo: nat, hi: nat)
    requires a <= b <= |s|
    requires forall i :: a <= i < b ==> 0 < s[i] && lo <= s[i] <= hi
    ensures lo * (b - a) <= Over(s, a, b).sum <= hi * (b - a)
    ensures Over(s, a, b).count == b - a
  {
    if a < b {
      OverBounds(s, a, b - 1, lo, hi);
      Unfold(s, a, b);
      assert lo * (b - a) == lo * (b - 1 - a) + lo;
      assert hi * (b - a) == hi * (b - 1 - a) + hi;
    } else {
      Nothing(s, a);
    }
  }

  lemma QuotientBetween(sum: nat, n: nat, lo: nat, hi: nat)
    requires sum < U32 && n >= 1 && lo * n <= sum <= hi * n && hi <= SENTINEL
    ensures lo <= Quotient(sum, n) == sum / n <= hi
  {
    QuotientBound(sum, n, lo);
    assert hi * n < (hi + 1) * n;
    DivLess(sum, n, hi + 1);
  }

  lemma OverEnds(s: seq<nat>, hi: nat, lo: nat)
    requires hi <= 1 && lo <= 1 && hi + lo < |s|
    ensures Over(s, hi, |s| - lo).sum
         == Over(s, 0, |s|).sum - (if hi == 1 then s[0] else 0) - (if lo == 1 then s[|s| - 1] else 0)
  {
    if hi == 1 {
      Front(s, 0, |s|);
    }
    if lo == 1 {
      Unfold(s, hi, |s|);
    }
  }

  /** What is kept without hi largest and lo smallest taps, at most one each. */
  lemma KeptSum(t: seq<nat>, hi: nat, lo: nat)
    requires Ordinary(t) && hi <= 1 && lo <= 1 && hi + lo < |t|
    ensures var k, st, n := Kept(t, hi, lo), StatsOf(t), |t| - hi - lo;
            && k.sum == st.sum - (if hi == 1 then st.max else 0) - (if lo == 1 then st.min else 0)
            && k.count == n && st.min * n <= k.sum <= st.max * n
  {
    hide StatsOf, Sorted, Over;
    var s, st := Sorted(t), StatsOf(t);
    SortedEnds(t);
    StatsTally(t);
    SortedTally(t);
    OverEnds(s, hi, lo);
    KeptBetween(s, hi, lo);
    OverBounds(s, hi, |s| - lo, st.min, st.max);
  }

  lemma KeptBetween(s: seq<nat>, hi: nat, lo: nat)
    requires Falling(s) && Ordinary(s) && hi + lo < |s|
    ensures forall i :: hi <= i < |s| - lo ==> 0 < s[i] && s[|s| - 1] <= s[i] <= s[0]
  {
  }

  lemma OrdinaryStats(t: seq<nat>)
    requires Ordinary(t) && t != []
    ensures 0 < StatsOf(t).min <= StatsOf(t).max <= SENTINEL && StatsOf(t).sum < U32
  {
    SortedEnds(t);
    StatsTally(t);
    assert Sorted(t)[0] > 0;
  }

  /** How many of n taps a removal takes away. */
  ghost function Dropped(n: nat, drop: bool): (k: nat)
    ensures k <= 1
  {
    if n > 3 && drop then 1 else 0
  }

  lemma RemovalsAre(s: Stats, dropMax: bool, dropMin: bool)
    requires s.count > 0 && s.min > 0 && s.max > 0
    ensures var hi, lo := Dropped(s.count, dropMax), Dropped(s.count, dropMin);
            var left := s.sum - (if hi == 1 then s.max else 0) - (if lo == 1 then s.min else 0);
            TrimmedFloor(s, dropMax, dropMin) == Quotient(Wrap(left), s.count - hi - lo)
  {
    hide Wrap, Quotient;
  }

  lemma MeanIs(t: Tally)
    requires t.sum < U32 && t.count > 0
    ensures Wrap(t.sum) == t.sum && MeanOf(t) == Quotient(t.sum, t.count)
  {
  }

  /** For ordinary taps the floor is the mean of what is left: with more than three taps without one
      largest and one smallest, as asked for. Nothing wraps, and it lies between those two. */
  lemma FloorIsCensoredMean(t: seq<nat>, dropMax: bool, dropMin: bool)
    requires Ordinary(t) && t != []
    ensures var floor := TrimmedFloor(StatsOf(t), dropMax, dropMin);
            && floor == MeanOf(Kept(t, if |t| > 3 && dropMax then 1 else 0, if |t| > 3 && dropMin then 1 else 0))
            && StatsOf(t).min <= floor <= StatsOf(t).max
  {
    hide StatsOf, Kept, TrimmedFloor, Quotient, Wrap, MeanOf;
    var hi, lo := Dropped(|t|, dropMax), Dropped(|t|, dropMin);
    KeptSum(t, hi, lo);
    OrdinaryStats(t);
    RemovalsAre(StatsOf(t), dropMax, dropMin);
    MeanIs(Kept(t, hi, lo));
    QuotientBetween(Kept(t, hi, lo).sum, |t| - hi - lo, StatsOf(t).min, StatsOf(t).max);
  }

  /** Without removals the greatest-of floor is never below the cell average over both sides. */
  lemma GreatestNotBelowAverage(l: seq<nat>, r: seq<nat>)
    requires Ordinary(l) && Ordinary(r) && l != [] && r != [] && |l| + |r| <= 65536
    ensures GreatestFloor(StatsOf(l), StatsOf(r), false, false) >= TrimmedFloor(StatsOf(l + r), false, false)
  {
    hide StatsOf, Over, TrimmedFloor;
    StatsConcat(l, r);
    var a, b, m, n := StatsOf(l).sum, StatsOf(r).sum, |l|, |r|;
    PlainFloor(l);
    PlainFloor(r);
    assert Ordinary(l + r);
    PlainFloor(l + r);
    MeanOfUnion(a, m, b, n);
  }

  lemma PlainFloor(t: seq<nat>)
    requires Ordinary(t) && t != []
    ensures TrimmedFloor(StatsOf(t), false, false) == StatsOf(t).sum / |t|
  {
    hide StatsOf, Over;
    StatsTally(t);
    QuotientBetween(StatsOf(t).sum, |t|, 0, SENTINEL);
  }

  lemma FloorIs(t: seq<nat>, dropMin: bool)
    requires Ordinary(t) && |t| > 3
    ensures var st, lo: nat := StatsOf(t), if dropMin then 1 else 0;
            var kept := st.sum - st.max - (if dropMin then st.min else 0);
            && 0 <= kept && TrimmedFloor(st, true, dropMin) == kept / (|t| - 1 - lo)
            && st.min <= TrimmedFloor(st, true, dropMin)
  {
    hide StatsOf, Kept, TrimmedFloor, Quotient, Wrap;
    var lo: nat := if dropMin then 1 else 0;
    KeptSum(t, 1, lo);
    OrdinaryStats(t);
    RemovalsAre(StatsOf(t), true, dropMin);
    MeanIs(Kept(t, 1, lo));
    QuotientBetween(Kept(t, 1, lo).sum, |t| - 1 - lo, StatsOf(t).min, StatsOf(t).max);
  }

  /** Two groups and one or two further values, all with floors of at most q, have a mean of at most q. */
  lemma JoinedMean(a: nat, m: nat, b: nat, n: nat, x: nat, y: nat, lo: nat, q: nat)
    requires m > 0 && n > 0 && lo <= 1 && a / m <= q && b / n <= q && x <= q && y <= q
    ensures (a + b + x + lo * y) / (m + n + 1 + lo) <= q
  {
    BelowNextMultiple(a, m, q);
    BelowNextMultiple(b, n, q);
    MulDistributes(m + n, 1 + lo, q + 1);
    MulDistributes(m, n, q + 1);
    MulDistributes(1, lo, q + 1);
    assert (m + n + 1 + lo) * (q + 1) == (q + 1) * (m + n + 1 + lo);
    DivLess(a + b + x + lo * y, m + n + 1 + lo, q + 1);
  }

  /** With the largest tap removed, as the detector always asks, each side loses its own largest: the
      average over both sides is then above the greatest-of floor only up to the lesser of the two. */
  lemma GreatestWithRemovals(l: seq<nat>, r: seq<nat>, dropMin: bool)
    requires Ordinary(l) && Ordinary(r) && |l| > 3 && |r| > 3 && |l| + |r| <= 65536
    ensures var both := TrimmedFloor(StatsOf(l + r), true, dropMin);
            || both <= GreatestFloor(StatsOf(l), StatsOf(r), true, dropMin)
            || (both <= StatsOf(l).max && both <= StatsOf(r).max)
  {
    hide StatsOf, TrimmedFloor;
    StatsConcat(l, r);
    FloorIs(l, dropMin);
    FloorIs(r, dropMin);
    assert Ordinary(l + r);
    FloorIs(l + r, dropMin);
    JoinedStats(StatsOf(l), StatsOf(r), if dropMin then 1 else 0);
  }

  /** What is left of two sides' taps without the extremes, lo smallest ones removed. */
  ghost function Left(s: Stats, lo: nat): int {
    s.sum - s.max - (if lo == 1 then s.min else 0)
  }

  lemma JoinedStats(a: Stats, b: Stats, lo: nat)
    requires lo <= 1 && a.count > 3 && b.count > 3 && Left(a, lo) >= 0 && Left(b, lo) >= 0
    requires a.min <= Left(a, lo) / (a.count - 1 - lo) && b.min <= Left(b, lo) / (b.count - 1 - lo)
    ensures var both := Left(a.Join(b), lo) / (a.count + b.count - 1 - lo);
            || both <= Left(a, lo) / (a.count - 1 - lo)
            || both <= Left(b, lo) / (b.count - 1 - lo)
            || (both <= a.max && both <= b.max)
  {
    var m: nat, n: nat := a.count - 1 - lo, b.count - 1 - lo;
    var p, q, x := Left(a, lo) / m, Left(b, lo) / n, if a.max < b.max then a.max else b.max;
    var y := if a.min < b.min then b.min else a.min;
    var top := if p < q then (if q < x then x else q) else if p < x then x else p;
    JoinedMean(Left(a, lo), m, Left(b, lo), n, x, y, lo, top);
    assert Left(a.Join(b), lo) == Left(a, lo) + Left(b, lo) + x + lo * y;
  }

  /** Above it does come out: for the taps 1, 1, 1, 100 on both sides. */
  lemma AverageCanExceed()
    ensures var t := [1, 1, 1, 100];
            GreatestFloor(StatsOf(t), StatsOf(t), true, false) < TrimmedFloor(StatsOf(t + t), true, false)
  {
    hide StatsOf;
    StatsExample();
    StatsConcat([1, 1, 1, 100], [1, 1, 1, 100]);
  }

  lemma StatsExample()
    ensures StatsOf([1, 1, 1, 100]) == Stats(4, 103, 100, 1)
  {
    hide StatsOf;
    var none: seq<nat> := [];
    StatsMore(none, 1);
    var one := none + [1];
    StatsMore(one, 1);
    var two := one + [1];
    StatsMore(two, 1);
    var three := two + [1];
    StatsMore(three, 100);
    assert three + [100] == [1, 1, 1, 100];
  }

  lemma StatsMore(t: seq<nat>, v: nat)
    ensures StatsOf([]) == NONE
    ensures StatsOf(t + [v]) == StatsOf(t).Add(v)
  {
    assert (t + [v])[..|t|] == t;
  }

  /** Which of the two sides' floors is taken: the greater where both have taps, that of the side that has some
      otherwise, and zero where neither has. */
  lemma GreatestIs(l: seq<nat>, r: seq<nat>, dropMax: bool, dropMin: bool)
    ensures var floor := GreatestFloor(StatsOf(l), StatsOf(r), dropMax, dropMin);
            var x, y := TrimmedFloor(StatsOf(l), dropMax, dropMin), TrimmedFloor(StatsOf(r), dropMax, dropMin);
            && (l != [] && r != [] ==> floor >= x && floor >= y && (floor == x || floor == y))
            && (l != [] && r == [] ==> floor == x) && (l == [] && r != [] ==> floor == y)
            && (l == [] && r == [] ==> floor == 0)
    ensures TrimmedFloor(StatsOf([]), dropMax, dropMin) == 0
  {
    StatsMore([], 0);
  }
}
