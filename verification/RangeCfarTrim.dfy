// The second cell-averaging estimator: borrowed rows at the edges, optional removal of the least cell.
module RangeCfarTrim {
  import opened Arith
  import opened RadarMap
  import opened Tallies
  import opened RangeCfar

  const MIN_START := 65535

  /** The running state of the loops: what was summed, and the least cell seen. */
  datatype State = State(tally: Tally, least: nat)

  ghost function Take(s: State, v: nat, trim: bool): State {
    if v == 0 then s
    else State(s.tally.Plus(Of(v)), if trim && v < s.least then v else s.least)
  }

  // ----- which row each step reads -----

  /** Step i of the right window: its own row, or past the end a row beyond the left window. */
  ghost function RightRow(idx: nat, rows: nat, w: nat, g: nat, i: nat): int {
    if idx + g + i < rows then idx + g + i else idx - g - w - (w - i + 1)
  }

  /** Step i of the left window: its own row, or before the start a row beyond the right window. */
  ghost function LeftRow(idx: nat, w: nat, g: nat, i: nat): int {
    if idx - g - i >= 0 then idx - g - i else idx + g + w + (w - i + 1)
  }

  ghost function TakeRow(c: seq<nat>, s: State, r: int, trim: bool): State {
    if 0 <= r < |c| then Take(s, c[r], trim) else s
  }

  ghost function Right(c: seq<nat>, idx: nat, w: nat, g: nat, trim: bool, n: nat): State {
    if n == 0 then State(Tally(0, 0), MIN_START)
    else TakeRow(c, Right(c, idx, w, g, trim, n - 1), RightRow(idx, |c|, w, g, n), trim)
  }

  ghost function Left(c: seq<nat>, idx: nat, w: nat, g: nat, trim: bool, n: nat): State {
    if n == 0 then Right(c, idx, w, g, trim, w)
    else TakeRow(c, Left(c, idx, w, g, trim, n - 1), LeftRow(idx, w, g, n), trim)
  }

  ghost function Gathered(c: seq<nat>, idx: nat, w: nat, g: nat, trim: bool): State {
    Left(c, idx, w, g, trim, w)
  }

  /** The mean, less the least cell when asked for and more than two cells were seen. */
  ghost function TrimmedMean(s: State, trim: bool): int {
    if trim && s.least != 0 && s.tally.count > 2
    then Mean((s.tally.sum - s.least) % U32, s.tally.count - 1)
    else MeanOf(s.tally)
  }

  // ----- the estimator -----

  ghost predicate Tracks(sum: nat, count: nat, min: nat, s: State) {
    RangeCfar.Holds(sum, count, s.tally) && min == s.least
  }

  method TapMin(m: array<nat>, d: nat, r: nat, trim: bool, sum: nat, count: nat, min: nat,
                ghost c: seq<nat>, ghost s: State)
    returns (sum': nat, count': nat, min': nat)
    requires IsColumn(c, m[..], d) && r < |c| && Tracks(sum, count, min, s)
    ensures Tracks(sum', count', min', Take(s, c[r], trim))
  {
    sum', count', min' := sum, count, min;
    var v := m[r * DOPPLER_BINS + d];
    if v != 0 {
      sum' := (sum + v) % U32;
      count' := count + 1;
      if trim && v < min {
        min' := v;
      }
    }
  }

  method RightLoop(m: array<nat>, d: nat, idx: nat, rows: nat, w: nat, g: nat, trim: bool, ghost c: seq<nat>)
    returns (sum: nat, count: nat, min: nat)
    requires IsColumn(c, m[..], d) && rows == |c| && idx < rows
    ensures Tracks(sum, count, min, Right(c, idx, w, g, trim, w))
  {
    sum, count, min := 0, 0, MIN_START;
    assert Tracks(sum, count, min, Right(c, idx, w, g, trim, 0));
    hide Take, Tracks, IsColumn;
    for i := 1 to w + 1
      invariant 1 <= i
      invariant Tracks(sum, count, min, Right(c, idx, w, g, trim, i - 1))
    {
      ghost var s := Right(c, idx, w, g, trim, i - 1);
      var row := idx + g + i;
      var lent := idx - g - w - (w - i + 1);
      if row < rows {
        sum, count, min := TapMin(m, d, row, trim, sum, count, min, c, s);
      } else {
        if lent >= 0 && lent < rows {
          sum, count, min := TapMin(m, d, lent, trim, sum, count, min, c, s);
        }
      }
    }
  }

  method LeftLoop(m: array<nat>, d: nat, idx: nat, rows: nat, w: nat, g: nat, trim: bool,
                  sum: nat, count: nat, min: nat, ghost c: seq<nat>)
    returns (sum': nat, count': nat, min': nat)
    requires IsColumn(c, m[..], d) && rows == |c| && idx < rows
    requires Tracks(sum, count, min, Right(c, idx, w, g, trim, w))
    ensures Tracks(sum', count', min', Left(c, idx, w, g, trim, w))
  {
    hide Take, Tracks, IsColumn, Right;
    sum', count', min' := sum, count, min;
    for i := 1 to w + 1
      invariant 1 <= i
      invariant Tracks(sum', count', min', Left(c, idx, w, g, trim, i - 1))
    {
      ghost var s := Left(c, idx, w, g, trim, i - 1);
      var row := idx - g - i;
      var lent := idx + g + w + (w - i + 1);
      if row >= 0 {
        sum', count', min' := TapMin(m, d, row, trim, sum', count', min', c, s);
      } else {
        if lent >= 0 && lent < rows {
          sum', count', min' := TapMin(m, d, lent, trim, sum', count', min', c, s);
        }
      }
    }
  }

  method CellAverageTrim(m: array<nat>, d: nat, idx: nat, rows: nat, w: nat, g: nat, trim: bool)
    returns (floor: int)
    requires d < DOPPLER_BINS && rows * DOPPLER_BINS <= m.Length && idx < rows
    ensures floor == TrimmedMean(Gathered(Column(m[..], d, rows), idx, w, g, trim), trim)
  {
    hide Tracks, TrimmedMean;
    ghost var c := Column(m[..], d, rows);
    var sum, count, min := RightLoop(m, d, idx, rows, w, g, trim, c);
    sum, count, min := LeftLoop(m, d, idx, rows, w, g, trim, sum, count, min, c);
    floor := Finish(sum, count, min, trim, Gathered(c, idx, w, g, trim));
  }

  method Finish(sum: nat, count: nat, min: nat, trim: bool, ghost s: State) returns (floor: int)
    requires Tracks(sum, count, min, s)
    ensures floor == TrimmedMean(s, trim)
  {
    if count >= 1 {
      if trim && min != 0 && count > 2 {
        assert (s.tally.sum % U32 - s.least) % U32 == (s.tally.sum - s.least) % U32;
        return Mean((sum - min) % U32, count - 1);
      }
      return Mean(sum, count);
    }
    return 0;
  }

  // ----- without trimming, it is the first estimator -----

  ghost function Before(idx: nat, g: nat): nat {
    if idx > g then idx - g else 0
  }

  ghost function After(idx: nat, rows: nat, g: nat): nat
    requires idx < rows
  {
    if rows - 1 - idx > g then rows - 1 - idx - g else 0
  }

  ghost function RightShape(c: seq<nat>, idx: nat, w: nat, g: nat, n: nat): Tally
    requires idx < |c| && |c| > 2 * (w + g) && n <= w
  {
    var after := After(idx, |c|, g);
    Over(c, idx + g + 1, idx + g + 1 + Min(n, after))
    .Plus(Over(c, idx - g - 2 * w + after, idx - g - 2 * w + Max(n, after)))
  }

  ghost function LeftShape(c: seq<nat>, idx: nat, w: nat, g: nat, n: nat): Tally
    requires idx < |c| && |c| > 2 * (w + g) && n <= w
  {
    var before := Before(idx, g);
    Over(c, idx - g - Min(n, before), idx - g)
    .Plus(Over(c, idx + g + 2 * w + 1 - Max(n, before), idx + g + 2 * w + 1 - before))
  }

  lemma TakeTally(c: seq<nat>, s: State, r: int, trim: bool)
    requires 0 <= r < |c|
    ensures TakeRow(c, s, r, trim).tally.sum == s.tally.sum + c[r]
    ensures TakeRow(c, s, r, trim).tally.count == s.tally.count + Of(c[r]).count
  {
  }

  lemma {:induction false} RightHasShape(c: seq<nat>, idx: nat, w: nat, g: nat, trim: bool, n: nat)
    requires idx < |c| && |c| > 2 * (w + g) && n <= w
    ensures Right(c, idx, w, g, trim, n).tally == RightShape(c, idx, w, g, n)
  {
    if n > 0 {
      RightHasShape(c, idx, w, g, trim, n - 1);
      RightShapeStep(c, idx, w, g, n);
      TakeTally(c, Right(c, idx, w, g, trim, n - 1), RightRow(idx, |c|, w, g, n), trim);
    }
  }

  lemma RightShapeStep(c: seq<nat>, idx: nat, w: nat, g: nat, n: nat)
    requires idx < |c| && |c| > 2 * (w + g) && 0 < n <= w
    ensures 0 <= RightRow(idx, |c|, w, g, n) < |c|
    ensures RightShape(c, idx, w, g, n)
         == RightShape(c, idx, w, g, n - 1).Plus(Of(c[RightRow(idx, |c|, w, g, n)]))
  {
    hide Over;
    var after := After(idx, |c|, g);
    if n <= after {
      Unfold(c, idx + g + 1, idx + g + 1 + n);
    } else {
      Unfold(c, idx - g - 2 * w + after, idx - g - 2 * w + n);
    }
  }

  lemma LeftShapeStep(c: seq<nat>, idx: nat, w: nat, g: nat, n: nat)
    requires idx < |c| && |c| > 2 * (w + g) && 0 < n <= w
    ensures 0 <= LeftRow(idx, w, g, n) < |c|
    ensures LeftShape(c, idx, w, g, n)
         == LeftShape(c, idx, w, g, n - 1).Plus(Of(c[LeftRow(idx, w, g, n)]))
  {
    hide Over;
    var before := Before(idx, g);
    if n <= before {
      Front(c, idx - g - n, idx - g);
    } else {
      Front(c, idx + g + 2 * w + 1 - n, idx + g + 2 * w + 1 - before);
    }
  }

  lemma LeftShapeStart(c: seq<nat>, idx: nat, w: nat, g: nat)
    requires idx < |c| && |c| > 2 * (w + g)
    ensures LeftShape(c, idx, w, g, 0) == Tally(0, 0)
  {
    hide Over;
    var before := Before(idx, g);
    var near: int, far: int := idx - g, idx + g + 2 * w + 1 - before;
    assert Min(0, before) == 0 && Max(0, before) == before;
    assert near - 0 == near;
    Nothing(c, near);
    Nothing(c, far);
  }

  lemma {:induction false} LeftHasShape(c: seq<nat>, idx: nat, w: nat, g: nat, trim: bool, n: nat)
    requires idx < |c| && |c| > 2 * (w + g) && n <= w
    ensures Left(c, idx, w, g, trim, n).tally.sum
         == Right(c, idx, w, g, trim, w).tally.sum + LeftShape(c, idx, w, g, n).sum
    ensures Left(c, idx, w, g, trim, n).tally.count
         == Right(c, idx, w, g, trim, w).tally.count + LeftShape(c, idx, w, g, n).count
  {
    hide Over, LeftRow, Right, LeftShape, TakeRow;
    if n == 0 {
      LeftShapeStart(c, idx, w, g);
    } else {
      LeftHasShape(c, idx, w, g, trim, n - 1);
      LeftShapeStep(c, idx, w, g, n);
      TakeTally(c, Left(c, idx, w, g, trim, n - 1), LeftRow(idx, w, g, n), trim);
    }
  }

  /** Both edge schemes pick the same 2w rows: the tally gathered is that of the window. */
  lemma GatheredIsWindow(c: seq<nat>, idx: nat, w: nat, g: nat, trim: bool)
    requires idx < |c| && |c| > 2 * (w + g)
    ensures Gathered(c, idx, w, g, trim).tally == Window(c, idx, w, g)
  {
    hide Left, Right, LeftShape, RightShape, Window;
    RightHasShape(c, idx, w, g, trim, w);
    LeftHasShape(c, idx, w, g, trim, w);
    ShapesFillWindow(c, idx, w, g);
  }

  lemma ShortOnTheLeft(c: seq<nat>, idx: nat, w: nat, g: nat)
    requires idx < |c| && |c| > 2 * (w + g) && Before(idx, g) < w
    ensures RightShape(c, idx, w, g, w).Plus(LeftShape(c, idx, w, g, w)) == Window(c, idx, w, g)
  {
    var before := Before(idx, g);
    assert After(idx, |c|, g) >= w;
    Split(c, idx + g + 1, idx + g + 1 + w, idx + g + 1 + (2 * w - before));
  }

  lemma ShortOnTheRight(c: seq<nat>, idx: nat, w: nat, g: nat)
    requires idx < |c| && |c| > 2 * (w + g) && After(idx, |c|, g) < w
    ensures RightShape(c, idx, w, g, w).Plus(LeftShape(c, idx, w, g, w)) == Window(c, idx, w, g)
  {
    var after := After(idx, |c|, g);
    assert Before(idx, g) >= w;
    Split(c, idx - g - 2 * w + after, idx - g - w, idx - g);
  }

  lemma RightFull(c: seq<nat>, idx: nat, w: nat, g: nat)
    requires idx < |c| && |c| > 2 * (w + g) && After(idx, |c|, g) >= w && (idx + g + 1 + w <= |c| || w == 0)
    ensures RightShape(c, idx, w, g, w) == Over(c, idx + g + 1, idx + g + 1 + w)
  {
    hide Over;
    var after := After(idx, |c|, g);
    var far: int := idx - g - 2 * w + after;
    assert Min(w, after) == w && Max(w, after) == after;
    Nothing(c, far);
    PlusNothing(Over(c, idx + g + 1, idx + g + 1 + w));
  }

  lemma LeftFull(c: seq<nat>, idx: nat, w: nat, g: nat)
    requires idx < |c| && |c| > 2 * (w + g) && Before(idx, g) >= w && (idx >= g + w || w == 0)
    ensures LeftShape(c, idx, w, g, w) == Over(c, idx - g - w, idx - g)
  {
    hide Over;
    var before := Before(idx, g);
    var far: int := idx + g + 2 * w + 1 - before;
    assert Min(w, before) == w && Max(w, before) == before;
    Nothing(c, far);
    PlusNothing(Over(c, idx - g - w, idx - g));
  }

  lemma ShortOnNeither(c: seq<nat>, idx: nat, w: nat, g: nat)
    requires idx < |c| && |c| > 2 * (w + g) && Before(idx, g) >= w && After(idx, |c|, g) >= w
    ensures RightShape(c, idx, w, g, w).Plus(LeftShape(c, idx, w, g, w)) == Window(c, idx, w, g)
  {
    hide Over, RightShape, LeftShape;
    RightFull(c, idx, w, g);
    LeftFull(c, idx, w, g);
    assert LeftRows(idx, |c|, w, g) == w;
  }

  lemma ShapesFillWindow(c: seq<nat>, idx: nat, w: nat, g: nat)
    requires idx < |c| && |c| > 2 * (w + g)
    ensures RightShape(c, idx, w, g, w).Plus(LeftShape(c, idx, w, g, w)) == Window(c, idx, w, g)
  {
    hide RightShape, LeftShape, Window;
    if Before(idx, g) < w {
      ShortOnTheLeft(c, idx, w, g);
    } else if After(idx, |c|, g) < w {
      ShortOnTheRight(c, idx, w, g);
    } else {
      ShortOnNeither(c, idx, w, g);
    }
  }

  /** With trimming off, the second estimator returns what the first one does. */
  lemma UntrimmedIsCellAverage(c: seq<nat>, idx: nat, w: nat, g: nat)
    requires idx < |c| && |c| > 2 * (w + g)
    ensures TrimmedMean(Gathered(c, idx, w, g, false), false) == MeanOf(Window(c, idx, w, g))
  {
    GatheredIsWindow(c, idx, w, g, false);
  }

  // ----- trimming never lowers the floor -----

  /** What the loops keep about the least cell, for magnitudes of at most 65535. */
  ghost predicate LeastOk(s: State, steps: nat) {
    && 0 < s.least <= MIN_START
    && s.tally.count * s.least <= s.tally.sum
    && s.tally.count <= steps
    && s.tally.sum <= steps * MIN_START
  }

  lemma TakeKeepsLeast(s: State, v: nat, steps: nat)
    requires LeastOk(s, steps) && v <= MIN_START
    ensures LeastOk(Take(s, v, true), steps + 1)
  {
    var s' := Take(s, v, true);
    if v != 0 {
      assert s.tally.count * s'.least <= s.tally.count * s.least by {
        MulOrder(s.tally.count, s'.least, s.least);
      }
      assert (s.tally.count + 1) * s'.least == s.tally.count * s'.least + s'.least;
    }
  }

  ghost predicate Small(c: seq<nat>) {
    forall i :: 0 <= i < |c| ==> c[i] <= MIN_START
  }

  lemma {:induction false} RightKeepsLeast(c: seq<nat>, idx: nat, w: nat, g: nat, n: nat)
    requires Small(c)
    ensures LeastOk(Right(c, idx, w, g, true, n), n)
  {
    if n > 0 {
      RightKeepsLeast(c, idx, w, g, n - 1);
      var r := RightRow(idx, |c|, w, g, n);
      if 0 <= r < |c| {
        TakeKeepsLeast(Right(c, idx, w, g, true, n - 1), c[r], n - 1);
      }
    }
  }

  lemma {:induction false} LeftKeepsLeast(c: seq<nat>, idx: nat, w: nat, g: nat, n: nat)
    requires Small(c)
    ensures LeastOk(Left(c, idx, w, g, true, n), w + n)
  {
    if n == 0 {
      RightKeepsLeast(c, idx, w, g, w);
    } else {
      LeftKeepsLeast(c, idx, w, g, n - 1);
      var r := LeftRow(idx, w, g, n);
      if 0 <= r < |c| {
        TakeKeepsLeast(Left(c, idx, w, g, true, n - 1), c[r], w + n - 1);
      }
    }
  }

  /** Dropping a value that is at most the mean does not lower the mean. */
  lemma DroppingLeastRaisesMean(sum: nat, n: nat, least: nat)
    requires n >= 2 && n * least <= sum
    ensures least <= sum && sum / n <= (sum - least) / (n - 1)
  {
    var m, q := n - 1, sum / n;
    DivRemainder(sum, n);
    MulDistributes(m, 1, q);
    MulDistributes(m, 1, least);
    LeftAtLeast(m, q, least, q * m, m * least, sum);
    QuotientBound(sum - least, m, q);
  }

  lemma LeftAtLeast(m: nat, q: nat, least: nat, qm: nat, lm: nat, sum: nat)
    requires qm == m * q && lm == m * least && qm + q <= sum && lm + least <= sum
    ensures qm <= sum - least
  {
    if q <= least {
      MulOrder(m, q, least);
    }
  }

  lemma TrimmedAtLeastMean(s: State, steps: nat)
    requires LeastOk(s, steps) && steps <= 65536
    ensures TrimmedMean(s, true) >= MeanOf(s.tally)
  {
    hide Mean;
    var sum, n := s.tally.sum, s.tally.count;
    assert sum < U32;
    if n > 2 {
      DroppingLeastRaisesMean(sum, n, s.least);
      SmallMean(sum - s.least, n - 1);
      SmallMean(sum, n);
      SmallModulus(sum);
      SmallModulus(sum - s.least);
    }
  }

  /** With magnitudes of at most 65535, trimming on never gives a lower floor than trimming off. */
  lemma TrimmingNeverLowers(c: seq<nat>, idx: nat, w: nat, g: nat)
    requires idx < |c| && |c| > 2 * (w + g) && Small(c) && 2 * w <= 65536
    ensures TrimmedMean(Gathered(c, idx, w, g, true), true) >= MeanOf(Window(c, idx, w, g))
  {
    GatheredIsWindow(c, idx, w, g, true);
    LeftKeepsLeast(c, idx, w, g, w);
    TrimmedAtLeastMean(Gathered(c, idx, w, g, true), 2 * w);
  }

  // ----- which cell trimming removes -----

  /** Row r is one of the 2w rows of the window. */
  ghost predicate InWindow(idx: nat, rows: nat, w: nat, g: nat, r: int)
    requires idx < rows && rows > 2 * (w + g)
  {
    var l := LeftRows(idx, rows, w, g);
    idx - g - l <= r < idx - g || idx + g + 1 <= r < idx + g + 1 + (2 * w - l)
  }

  /** The row read in step i of both loops together: w steps on the right, then w on the left. */
  ghost function StepRow(idx: nat, rows: nat, w: nat, g: nat, i: nat): (r: nat)
    requires idx < rows && rows > 2 * (w + g) && 1 <= i <= 2 * w
    ensures r < rows && InWindow(idx, rows, w, g, r)
  {
    if i <= w then RightRow(idx, rows, w, g, i) else LeftRow(idx, w, g, i - w)
  }

  /** Every row of the window is read. */
  lemma WindowRead(idx: nat, rows: nat, w: nat, g: nat, r: int) returns (i: nat)
    requires idx < rows && rows > 2 * (w + g) && InWindow(idx, rows, w, g, r)
    ensures 1 <= i <= 2 * w && StepRow(idx, rows, w, g, i) == r
  {
    if r > idx {
      i := if r - idx - g <= w then r - idx - g else w + (idx + g + 2 * w + 1 - r);
    } else {
      i := if idx - g - r <= w then w + (idx - g - r) else 2 * w + 1 - (idx - g - r);
    }
  }

  ghost function Run(c: seq<nat>, idx: nat, w: nat, g: nat, n: nat): State {
    if n <= w then Right(c, idx, w, g, true, n) else Left(c, idx, w, g, true, n - w)
  }

  lemma RunStep(c: seq<nat>, idx: nat, w: nat, g: nat, n: nat)
    requires idx < |c| && |c| > 2 * (w + g) && 1 <= n <= 2 * w
    ensures Run(c, idx, w, g, n) == Take(Run(c, idx, w, g, n - 1), c[StepRow(idx, |c|, w, g, n)], true)
  {
    var r := StepRow(idx, |c|, w, g, n);
    hide Take, RightRow, LeftRow;
    if n <= w {
      assert Right(c, idx, w, g, true, n) == TakeRow(c, Right(c, idx, w, g, true, n - 1), r, true);
    } else {
      assert Left(c, idx, w, g, true, n - w) == TakeRow(c, Left(c, idx, w, g, true, n - w - 1), r, true);
    }
  }

  /** least is the smallest nonzero cell read in the first n steps. */
  ghost predicate LeastRead(c: seq<nat>, idx: nat, w: nat, g: nat, s: State, n: nat)
    requires idx < |c| && |c| > 2 * (w + g) && n <= 2 * w
  {
    && s.least <= MIN_START
    && (forall i :: 1 <= i <= n ==> var v := c[StepRow(idx, |c|, w, g, i)]; v == 0 || s.least <= v)
    && if s.tally.count > 0 then exists i :: 1 <= i <= n && c[StepRow(idx, |c|, w, g, i)] == s.least
       else s.least == MIN_START && forall i :: 1 <= i <= n ==> c[StepRow(idx, |c|, w, g, i)] == 0
  }

  lemma {:induction false} RunKeepsLeast(c: seq<nat>, idx: nat, w: nat, g: nat, n: nat)
    requires idx < |c| && |c| > 2 * (w + g) && n <= 2 * w && Small(c)
    ensures LeastRead(c, idx, w, g, Run(c, idx, w, g, n), n)
  {
    if n > 0 {
      hide Run, StepRow, Small;
      RunKeepsLeast(c, idx, w, g, n - 1);
      RunStep(c, idx, w, g, n);
      var before, r := Run(c, idx, w, g, n - 1), StepRow(idx, |c|, w, g, n);
      assert c[r] <= MIN_START by {
        SmallAt(c, r);
      }
      TakeLeast(c, idx, w, g, before, n);
    }
  }

  lemma SmallAt(c: seq<nat>, r: nat)
    requires Small(c) && r < |c|
    ensures c[r] <= MIN_START
  {
  }

  lemma TakeLeast(c: seq<nat>, idx: nat, w: nat, g: nat, s: State, n: nat)
    requires idx < |c| && |c| > 2 * (w + g) && 1 <= n <= 2 * w
    requires LeastRead(c, idx, w, g, s, n - 1) && c[StepRow(idx, |c|, w, g, n)] <= MIN_START
    ensures LeastRead(c, idx, w, g, Take(s, c[StepRow(idx, |c|, w, g, n)], true), n)
  {
    hide StepRow;
  }

  /** v is the smallest nonzero cell of the window. */
  ghost predicate LeastOfWindow(c: seq<nat>, idx: nat, w: nat, g: nat, v: nat)
    requires idx < |c| && |c| > 2 * (w + g)
  {
    && v > 0
    && (exists r :: 0 <= r < |c| && InWindow(idx, |c|, w, g, r) && c[r] == v)
    && (forall r :: 0 <= r < |c| && InWindow(idx, |c|, w, g, r) ==> c[r] == 0 || v <= c[r])
  }

  lemma LeastIsWindows(c: seq<nat>, idx: nat, w: nat, g: nat)
    requires idx < |c| && |c| > 2 * (w + g) && Small(c)
    ensures var s := Gathered(c, idx, w, g, true);
            if s.tally.count > 0 then LeastOfWindow(c, idx, w, g, s.least)
            else forall r :: 0 <= r < |c| && InWindow(idx, |c|, w, g, r) ==> c[r] == 0
  {
    hide StepRow, InWindow, Small;
    var s := Run(c, idx, w, g, 2 * w);
    RunKeepsLeast(c, idx, w, g, 2 * w);
    LeftKeepsLeast(c, idx, w, g, w);
    assert s == Gathered(c, idx, w, g, true);
    forall r | 0 <= r < |c| && InWindow(idx, |c|, w, g, r)
      ensures c[r] == 0 || (s.tally.count > 0 && s.least <= c[r])
    {
      var i := WindowRead(idx, |c|, w, g, r);
    }
  }

  /** For 16-bit cells: with more than two nonzero cells in the window the trimmed floor is the mean of
      these without one smallest, nothing wraps; with fewer it is their mean. */
  lemma TrimmedIsMean(c: seq<nat>, idx: nat, w: nat, g: nat, v: nat)
    requires idx < |c| && |c| > 2 * (w + g) && Small(c) && 2 * w <= 65536
    requires LeastOfWindow(c, idx, w, g, v)
    ensures var floor, t := TrimmedMean(Gathered(c, idx, w, g, true), true), Window(c, idx, w, g);
            && v <= t.sum
            && floor == if t.count > 2 then (t.sum - v) / (t.count - 1) else MeanOf(t)
  {
    hide StepRow, InWindow, Window, Small, Left, Mean;
    var s, t := Gathered(c, idx, w, g, true), Window(c, idx, w, g);
    GatheredIsWindow(c, idx, w, g, true);
    LeftKeepsLeast(c, idx, w, g, w);
    LeastIsWindows(c, idx, w, g);
    assert s.least == v;
    MulOrder(v, 1, t.count);
    if t.count > 2 {
      SmallModulus(t.sum - v);
      SmallMean(t.sum - v, t.count - 1);
    }
  }

  lemma SmallModulus(x: nat)
    requires x < U32
    ensures x % U32 == x
  {
  }

  lemma SmallMean(sum: nat, count: nat)
    requires sum < U32 && count >= 2
    ensures Mean(sum, count) == sum / count
  {
    QuotientBound2(sum, count);
  }

  lemma QuotientBound2(sum: nat, count: nat)
    requires count >= 2
    ensures sum / count <= sum / 2
  {
    var q := sum / count;
    assert q * count <= sum;
    MulOrder(q, 2, count);
  }
}
