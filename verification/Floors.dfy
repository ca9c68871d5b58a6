// How large the noise floors can get: with 16-bit cells none is negative, and none comes near a wrap-around.
module Floors {
  import opened Arith
  import opened Tallies
  import opened OrderStats
  import opened RangeCfar
  import Trim = RangeCfarTrim
  import Go = RangeGo
  import Os = OsCfar
  import Cmld = CmldCfar
  import Dop = DopplerCfar

  const LIMIT := 0x400_0000

  /** A floor a margin can be added to without reaching 2^32. */
  predicate Modest(floor: int) {
    0 <= floor < LIMIT
  }

  lemma MeanModest(sum: nat, count: nat)
    requires sum < LIMIT
    ensures Modest(Mean(sum % U32, count))
  {
    if count > 0 {
      QuotientAtMost(sum, count);
    }
  }

  lemma TrimmedModest(s: Trim.State, trim: bool)
    requires s.tally.sum < LIMIT && (trim && s.tally.count > 2 ==> s.least <= s.tally.sum)
    ensures Modest(Trim.TrimmedMean(s, trim))
  {
    hide Mean, Modest;
    if trim && s.least != 0 && s.tally.count > 2 {
      MeanModest(s.tally.sum - s.least, s.tally.count - 1);
    } else {
      MeanModest(s.tally.sum, s.tally.count);
    }
  }

  /** The second cell average, trimmed or not. */
  lemma TrimModest(c: seq<nat>, idx: nat, w: nat, g: nat, trim: bool)
    requires idx < |c| && |c| > 2 * (w + g) && Trim.Small(c) && 2 * w <= 512
    ensures Modest(Trim.TrimmedMean(Trim.Gathered(c, idx, w, g, trim), trim))
  {
    hide Modest, Trim.TrimmedMean, Trim.Gathered, Trim.LeastOk, Window, Trim.Small;
    GatheredOk(c, idx, w, g);
    Trim.GatheredIsWindow(c, idx, w, g, true);
    Trim.GatheredIsWindow(c, idx, w, g, trim);
    OkModest(Trim.Gathered(c, idx, w, g, true), 2 * w);
    TrimmedModest(Trim.Gathered(c, idx, w, g, trim), trim);
  }

  lemma GatheredOk(c: seq<nat>, idx: nat, w: nat, g: nat)
    requires Trim.Small(c)
    ensures Trim.LeastOk(Trim.Gathered(c, idx, w, g, true), 2 * w)
  {
    hide Trim.LeastOk, Trim.Left, Trim.Small;
    Trim.LeftKeepsLeast(c, idx, w, g, w);
  }

  lemma OkModest(s: Trim.State, steps: nat)
    requires Trim.LeastOk(s, steps) && steps <= 1024
    ensures s.tally.sum < LIMIT && (s.tally.count > 0 ==> s.least <= s.tally.sum)
  {
    if s.tally.count > 0 {
      MulOrder(s.least, 1, s.tally.count);
    }
  }

  /** The greatest-of floor in range. */
  lemma GoModest(c: seq<nat>, idx: nat, w: nat, g: nat, trim: bool)
    requires idx < |c| && |c| > 2 * (w + g) && Trim.Small(c) && w <= 512
    ensures Modest(Go.GreatestFloor(c, idx, w, g, trim))
  {
    hide Modest, Trim.TrimmedMean, Go.Scan, Trim.Small;
    if idx < |c| - w - g {
      SideModest(c, idx + g + 1, idx + g + 1 + w, trim);
    }
    if idx >= w + g {
      SideModest(c, idx - g - w, idx - g, trim);
    }
  }

  lemma SideModest(c: seq<nat>, a: int, b: int, trim: bool)
    requires Trim.Small(c) && a <= b <= a + 512 && (a < b ==> 0 <= a && b <= |c|)
    ensures Modest(Trim.TrimmedMean(Go.Scan(c, a, b, trim), trim))
  {
    hide Modest, Trim.TrimmedMean, Go.Scan, Over, Trim.LeastOk;
    Go.ScanLeastOk(c, a, b);
    Go.ScanTally(c, a, b, true);
    Go.ScanTally(c, a, b, trim);
    OkModest(Go.Scan(c, a, b, true), b - a);
    TrimmedModest(Go.Scan(c, a, b, trim), trim);
  }

  lemma SumModest(s: seq<nat>, a: nat, b: nat)
    requires Trim.Small(s) && a <= b <= |s| <= 256
    ensures Over(s, a, b).sum < LIMIT / 2
  {
    Go.OverSmall(s, a, b);
    CountBound(s, a, b);
  }

  lemma KeptModest(s: seq<nat>, hi: nat, lo: nat)
    requires Trim.Small(s) && |s| <= 256
    ensures Cmld.Kept(s, hi, lo).sum < LIMIT / 2
  {
    hide Over, Sorted;
    var t := Sorted(s);
    SameLength(t, s);
    forall i | 0 <= i < |t|
      ensures t[i] <= Trim.MIN_START
    {
      PermutationHas(t, s, t[i]);
    }
    if hi <= |t| - lo {
      SumModest(t, hi, |t| - lo);
    } else {
      assert Cmld.Kept(s, hi, lo) == Tally(0, 0) by {
        NoneKept(t, hi, |t| - lo);
      }
    }
  }

  lemma NoneKept(t: seq<nat>, a: int, b: int)
    requires b < a
    ensures Over(t, a, b) == Tally(0, 0)
  {
  }

  /** The censored mean in range. */
  lemma CensoredModest(c: seq<nat>, idx: nat, w: nat, g: nat, hi: nat, lo: nat)
    requires idx < |c| && |c| > 2 * (w + g) && Trim.Small(c) && w <= 256
    ensures Modest(MeanOf(Cmld.Kept(Cmld.RightCells(c, idx, w, g), hi, lo)
                          .Plus(Cmld.Kept(Cmld.LeftCells(c, idx, w, g), hi, lo))))
  {
    hide Modest, Mean, Cmld.Kept;
    var r, l := Cmld.RightCells(c, idx, w, g), Cmld.LeftCells(c, idx, w, g);
    KeptModest(r, hi, lo);
    KeptModest(l, hi, lo);
    var t := Cmld.Kept(r, hi, lo).Plus(Cmld.Kept(l, hi, lo));
    MeanModest(t.sum, t.count);
  }

  lemma KthSmall(s: seq<nat>, k: nat, v: nat)
    requires Os.Small(s) && 1 <= k <= |s| && IsKth(s, k, v)
    ensures v <= Os.SENTINEL
  {
    if v > Os.SENTINEL {
      LessAll(s, v);
    }
  }

  /** The ordered statistic. */
  lemma OsModest(c: seq<nat>, idx: nat, w: nat, g: nat, k: nat)
    requires idx < |c| && |c| > 2 * (w + g) && Os.Small(c) && w > 0 && 1 <= k <= 2 * w
    ensures Modest(Os.Floor(c, idx, w, g, k))
  {
    hide IsKth, Kth, Os.EdgePick, Os.Taps, Os.WindowCells, Without, Os.AtEdge;
    var s, t := Os.WindowCells(c, idx, w, g), Os.Taps(c, idx, w, g);
    Os.SmallTaps(c, idx, w, g);
    WindowSmall(c, idx, w, g);
    if w == 1 {
      KthSmall(s, 1, Kth(s, 1));
    } else if !Os.AtEdge(idx, |c|, w, g) {
      KthSmall(s, k, Kth(s, k));
    } else if k > 1 {
      WithoutSmall(t, Os.EdgePick(t));
      KthSmall(Without(t, Os.EdgePick(t)), k - 1, Kth(Without(t, Os.EdgePick(t)), k - 1));
    }
  }

  lemma WindowSmall(c: seq<nat>, idx: nat, w: nat, g: nat)
    requires idx < |c| && |c| > 2 * (w + g) && Os.Small(c)
    ensures Os.Small(Os.WindowCells(c, idx, w, g))
  {
    hide LeftRows;
  }

  lemma WithoutSmall(s: seq<nat>, i: nat)
    requires Os.Small(s) && i < |s|
    ensures Os.Small(Without(s, i))
  {
  }

  lemma SideOrdinary(row: seq<nat>, left: bool, idx: nat, w: nat, g: nat)
    requires Dop.FitsRow(row, idx, w, g) && w <= 32768 && forall i :: 0 <= i < |row| ==> row[i] <= Dop.SENTINEL
    ensures Dop.Ordinary(Dop.SideTaps(row, left, idx, w, g))
  {
    hide Dop.SideTaps;
    var steps := Dop.SideHoldsFirst(row, left, idx, w, g);
  }

  lemma BothOrdinary(l: seq<nat>, r: seq<nat>)
    requires Dop.Ordinary(l) && Dop.Ordinary(r) && |l| + |r| <= 65536
    ensures Dop.Ordinary(l + r)
  {
  }

  lemma DopplerModest(t: seq<nat>, dropMax: bool, dropMin: bool)
    requires Dop.Ordinary(t)
    ensures Modest(Dop.TrimmedFloor(Dop.StatsOf(t), dropMax, dropMin))
  {
    if t != [] {
      hide Dop.StatsOf, Dop.TrimmedFloor;
      Dop.FloorIsCensoredMean(t, dropMax, dropMin);
      Dop.OrdinaryStats(t);
    }
  }
}
