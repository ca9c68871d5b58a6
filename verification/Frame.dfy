// One frame from the raw map to the marked detection list.
module Frame {
  import opened RadarMap
  import Threshold
  import PeakSearch
  import Detection
  import MicroDoppler
  import RangeCfar

  // ----- the input stage -----

  /** The map without its first four range rows. */
  ghost function Cleared(m: seq<nat>): (c: seq<nat>)
    requires |m| == CELLS
    ensures |c| == CELLS
    ensures forall r, d :: 0 <= r < RANGE_BINS && 0 <= d < DOPPLER_BINS ==>
              Cell(c, r, d) == if r < PeakSearch.START_RANGE then 0 else Cell(m, r, d)
  {
    seq(CELLS, k requires 0 <= k < CELLS => if k < PeakSearch.START_RANGE * DOPPLER_BINS then 0 else m[k])
  }

  method ClearNear(m: array<nat>)
    requires m.Length == CELLS
    modifies m
    ensures m[..] == Cleared(old(m[..]))
  {
    for k := 0 to PeakSearch.START_RANGE * DOPPLER_BINS
      invariant forall j :: 0 <= j < k ==> m[j] == 0
      invariant forall j :: k <= j < CELLS ==> m[j] == old(m[j])
    {
      m[k] := 0;
    }
  }

  ghost predicate Small(m: seq<nat>) {
    forall k :: 0 <= k < |m| ==> m[k] <= 65535
  }

  lemma ClearedIsPrepared(m: seq<nat>)
    requires |m| == CELLS && Small(m)
    ensures Detection.Prepared(Cleared(m))
  {
  }

  // ----- the thresholds -----

  /** The thresholds the cells of c lead to: histogram, mode of each row, five-row mean. */
  ghost predicate Thresholded(c: seq<nat>, hist: seq<nat>, modes: seq<nat>, thresh: seq<nat>) {
    && |c| == CELLS && |modes| == |thresh| == RANGE_BINS
    && Threshold.Landed(hist, c, CELLS)
    && (forall i :: 0 <= i < RANGE_BINS ==> Threshold.IsMode(Threshold.Bins(hist, i), modes[i]))
    && (forall i :: 0 <= i < RANGE_BINS ==>
          thresh[i] == Threshold.FiveMean(Threshold.RawThresholds(modes), i, RANGE_BINS))
  }

  /** The map alone decides the thresholds. */
  lemma ThresholdsUnique(c: seq<nat>, h1: seq<nat>, k1: seq<nat>, t1: seq<nat>,
                         h2: seq<nat>, k2: seq<nat>, t2: seq<nat>)
    requires Thresholded(c, h1, k1, t1) && Thresholded(c, h2, k2, t2)
    ensures h1 == h2 && k1 == k2 && t1 == t2
  {
    hide Threshold.LandedAt, Threshold.IsMode, Threshold.FiveMean;
    assert h1 == h2;
    forall i | 0 <= i < RANGE_BINS
      ensures k1[i] == k2[i]
    {
      Threshold.ModeUnique(Threshold.Bins(h1, i), k1[i], k2[i]);
    }
    assert k1 == k2;
    assert t1 == t2;
  }

  /** No threshold is below the guard, so the global noise, the threshold without it, is no underflow. */
  lemma ThresholdsAboveGuard(c: seq<nat>, hist: seq<nat>, modes: seq<nat>, thresh: seq<nat>, i: nat)
    requires Thresholded(c, hist, modes, thresh) && i < RANGE_BINS
    ensures Detection.HIST_GUARD <= thresh[i] <= 16896
  {
    hide Threshold.LandedAt, Threshold.FiveMean;
    var raw := Threshold.RawThresholds(modes);
    forall j | 0 <= j < RANGE_BINS
      ensures Detection.HIST_GUARD <= raw[j] <= 16896
    {
      assert Threshold.IsMode(Threshold.Bins(hist, j), modes[j]);
    }
    Threshold.FiveMeanBetween(raw, i, RANGE_BINS, Detection.HIST_GUARD, 16896);
  }

  // ----- the frame -----

  /** The first n peaks that pass are listed, and those outshone by another listed one are marked. */
  ghost predicate Reported(cfg: Detection.Config, c: seq<nat>, thresh: seq<nat>, list: seq<Detection.Target>, n: nat,
                           prob: seq<nat>)
    requires Detection.Usable(cfg) && |c| == CELLS && |thresh| == RANGE_BINS && n <= |list| && n <= |prob|
  {
    var peaks := Detection.Positions(Detection.PeakFlags(cfg, c, thresh), CELLS);
    && n == (if |peaks| < Detection.MAX_OUTPUT then |peaks| else Detection.MAX_OUTPUT)
    && Detection.Listed(list, n, c, peaks)
    && forall k :: 0 <= k < n ==> prob[k] == if MicroDoppler.Outshone(list, n, k) then MicroDoppler.MARK else 0
  }

  /** Clears the near rows, computes the thresholds, detects and marks. */
  method Process(cfg: Detection.Config, m: array<nat>, t: array<nat>, hist: array<nat>, modes: array<nat>,
                 thresh: array<nat>, bitmap: array<nat>, flags: array<bool>, list: array<Detection.Target>,
                 prob: array<nat>)
    returns (n: nat)
    requires Detection.Usable(cfg) && m.Length == t.Length == flags.Length == CELLS
    requires hist.Length == Threshold.HIST_SLOTS && modes.Length == thresh.Length == RANGE_BINS
    requires bitmap.Length == PeakSearch.BITMAP_WORDS && list.Length == prob.Length == Detection.MAX_OUTPUT
    requires m != t && m != hist && m != modes && m != thresh && m != bitmap && m != prob && t != thresh && t != bitmap
    requires hist != modes && hist != thresh && hist != t && hist != bitmap && hist != prob && modes != thresh
    requires modes != t && modes != bitmap && modes != prob && thresh != bitmap && thresh != prob
    requires Small(m[..]) && Threshold.InBounds(Cleared(m[..]))
    modifies m, t, hist, modes, thresh, bitmap, flags, list, prob
    ensures m[..] == Cleared(old(m[..]))
    ensures Thresholded(m[..], hist[..], modes[..], thresh[..])
    ensures n <= Detection.MAX_OUTPUT && Reported(cfg, m[..], thresh[..], list[..], n, prob[..])
  {
    hide Detection.Usable, Detection.Prepared, Detection.Positions, Detection.PeakFlags, Detection.Listed;
    hide Threshold.IsMode, Threshold.FiveMean, Threshold.Landed, Threshold.InBounds, MicroDoppler.Outshone;
    hide Cleared, Small;
    ClearedIsPrepared(m[..]);
    ClearNear(m);
    SetThresholds(m, hist, modes, thresh);
    n := Detection.DetectFrame(cfg, m, t, thresh, bitmap, flags, list);
    MicroDoppler.Mark(list, n, prob);
  }

  method SetThresholds(m: array<nat>, hist: array<nat>, modes: array<nat>, thresh: array<nat>)
    requires m.Length == CELLS && hist.Length == Threshold.HIST_SLOTS && modes.Length == thresh.Length == RANGE_BINS
    requires m != hist && m != modes && m != thresh && hist != modes && hist != thresh && modes != thresh
    requires Threshold.InBounds(m[..])
    modifies hist, modes, thresh
    ensures Thresholded(m[..], hist[..], modes[..], thresh[..])
  {
    hide Threshold.IsMode, Threshold.FiveMean, Threshold.InBounds;
    Threshold.CalcHistogram(m, hist);
    Threshold.CalcThreshold(hist, modes, thresh, RANGE_BINS);
    assert modes[..RANGE_BINS] == modes[..];
  }

  // ----- what a reported frame says -----

  /** Range and Doppler bin of a listed target. */
  ghost predicate IsAt(t: Detection.Target, r: nat, d: nat) {
    MicroDoppler.RangeBin(t) == r && t.dopplerChn == d
  }

  /** Where the i-th listed target lies. */
  lemma ListedCell(cfg: Detection.Config, c: seq<nat>, thresh: seq<nat>, list: seq<Detection.Target>, n: nat, i: nat)
    returns (p: nat)
    requires Detection.Usable(cfg) && |c| == CELLS && |thresh| == RANGE_BINS && i < n <= |list|
    requires Detection.Listed(list, n, c, Detection.Positions(Detection.PeakFlags(cfg, c, thresh), CELLS))
    ensures p < CELLS && p == Detection.Positions(Detection.PeakFlags(cfg, c, thresh), CELLS)[i]
    ensures list[i] == Detection.TargetAt(c, p, i) && IsAt(list[i], p % RANGE_BINS, p / RANGE_BINS)
    ensures PeakSearch.IsPeak(c, thresh, p % RANGE_BINS, p / RANGE_BINS)
    ensures Detection.Passes(cfg, c, thresh, p % RANGE_BINS, p / RANGE_BINS)
  {
    hide Detection.Usable, Detection.Passes, Detection.Positions, PeakSearch.IsPeak;
    var f := Detection.PeakFlags(cfg, c, thresh);
    p := Detection.Positions(f, CELLS)[i];
    Detection.PositionsOnce(f, CELLS);
    assert f[p];
    MicroDoppler.RangeBinBack(list[i], p % RANGE_BINS);
  }

  /** What a detection is, in plain numbers: at or above its row's threshold, past the near rows and off Doppler bin
      0; larger than its neighbours in range and, cyclically, in Doppler; and strictly between the margins of its
      segment over the range floor, the Doppler floor and the threshold less 768, which also stands for a floor
      of zero. */
  ghost predicate Detectable(cfg: Detection.Config, c: seq<nat>, thresh: seq<nat>, r: nat, d: nat)
    requires Detection.Usable(cfg) && |c| == CELLS && |thresh| == RANGE_BINS && r < RANGE_BINS && d < DOPPLER_BINS
  {
    var s := cfg.margins[Detection.Segment(cfg.cut, r)];
    var noise: int := thresh[r] as int - 768;
    var inRange := Detection.RangeFloor(cfg, RangeCfar.Column(c, d, RANGE_BINS), r);
    var inDoppler := Detection.DopplerFloor(cfg, Row(c, r), r, d);
    var x: int := if inRange == 0 then noise else inRange;
    var y: int := if inDoppler == 0 then noise else inDoppler;
    && 4 <= r && 1 <= d && Cell(c, r, d) >= thresh[r]
    && Cell(c, r, d) > Cell(c, r - 1, d) && (r < 511 ==> Cell(c, r, d) > Cell(c, r + 1, d))
    && Cell(c, r, d) > Cell(c, r, d - 1) && Cell(c, r, d) > Cell(c, r, if d == 31 then 0 else d + 1)
    && s.range + x < Cell(c, r, d) < s.rangeEnd + x
    && s.doppler + y < Cell(c, r, d) < s.dopplerEnd + y
    && s.global + noise < Cell(c, r, d) < s.globalEnd + noise
  }

  lemma DetectableIff(cfg: Detection.Config, c: seq<nat>, thresh: seq<nat>, r: nat, d: nat)
    requires Detection.Usable(cfg) && Detection.Prepared(c) && |thresh| == RANGE_BINS
    requires r < RANGE_BINS && d < DOPPLER_BINS && Detection.MarginsFit(cfg) && 768 <= thresh[r] <= 65535
    ensures PeakSearch.IsPeak(c, thresh, r, d) && Detection.Passes(cfg, c, thresh, r, d)
            <==> Detectable(cfg, c, thresh, r, d)
  {
    PeakIff(c, thresh, r, d);
    hide Detection.Usable, Detection.Passes, Detection.Segment, Detection.RangeFloor, Detection.DopplerFloor;
    hide PeakSearch.IsPeak, Cell, Detection.MarginsFit;
    Detection.KeptIff(cfg, c, thresh, r, d);
  }

  lemma PeakIff(c: seq<nat>, thresh: seq<nat>, r: nat, d: nat)
    requires |c| == CELLS && |thresh| == RANGE_BINS && r < RANGE_BINS && d < DOPPLER_BINS
    ensures PeakSearch.IsPeak(c, thresh, r, d) <==>
            && 4 <= r && 1 <= d && Cell(c, r, d) >= thresh[r]
            && Cell(c, r, d) > Cell(c, r - 1, d) && (r < 511 ==> Cell(c, r, d) > Cell(c, r + 1, d))
            && Cell(c, r, d) > Cell(c, r, d - 1) && Cell(c, r, d) > Cell(c, r, if d == 31 then 0 else d + 1)
  {
    if 1 <= d {
      assert (d + DOPPLER_BINS - 1) % DOPPLER_BINS == d - 1;
      assert (d + 1) % DOPPLER_BINS == if d == 31 then 0 else d + 1;
    }
  }

  /** Every target listed is a peak of the map that passes, past the near rows and no weaker than the guard,
      and a marked one is outshone by an unmarked one. */
  lemma WhatIsReported(cfg: Detection.Config, c: seq<nat>, hist: seq<nat>, modes: seq<nat>, thresh: seq<nat>,
                       list: seq<Detection.Target>, n: nat, prob: seq<nat>, i: nat)
    returns (r: nat, d: nat)
    requires Detection.Usable(cfg) && Thresholded(c, hist, modes, thresh) && i < n <= |list| && n <= |prob|
    requires Reported(cfg, c, thresh, list, n, prob)
    ensures PeakSearch.START_RANGE <= r < RANGE_BINS && d < DOPPLER_BINS && IsAt(list[i], r, d)
    ensures PeakSearch.IsPeak(c, thresh, r, d) && Detection.Passes(cfg, c, thresh, r, d)
    ensures Detection.HIST_GUARD <= thresh[r] <= Cell(c, r, d)
    ensures list[i].id == i && list[i].mag == Detection.Decibels(Cell(c, r, d))
    ensures Detection.Prepared(c) && Detection.MarginsFit(cfg) ==> Detectable(cfg, c, thresh, r, d)
    ensures prob[i] != 0 ==> exists k :: 0 <= k < n && prob[k] == 0 && MicroDoppler.Outshines(list, k, i)
  {
    assert |c| == CELLS && |thresh| == RANGE_BINS;
    hide Detection.Usable, Detection.Passes, Detection.Positions, Detection.PeakFlags, Detection.Listed;
    hide MicroDoppler.Outshines, Thresholded, Detectable, Detection.Prepared, Detection.MarginsFit;
    var p := ListedCell(cfg, c, thresh, list, n, i);
    r, d := p % RANGE_BINS, p / RANGE_BINS;
    ThresholdsAboveGuard(c, hist, modes, thresh, r);
    if Detection.Prepared(c) && Detection.MarginsFit(cfg) {
      DetectableIff(cfg, c, thresh, r, d);
    }
    if prob[i] != 0 {
      var k := MicroDoppler.StrongestUnmarked(list, n, i);
    }
  }

  /** Every listed target is a detection of the map, with its own range, bins and magnitude, and it is marked exactly
      if another listed one of its near range has a larger magnitude. */
  lemma ReportedAreDetections(cfg: Detection.Config, c: seq<nat>, hist: seq<nat>, modes: seq<nat>, thresh: seq<nat>,
                              list: seq<Detection.Target>, n: nat, prob: seq<nat>, i: nat)
    returns (r: nat, d: nat)
    requires Detection.Usable(cfg) && Detection.MarginsFit(cfg) && Detection.Prepared(c)
    requires Thresholded(c, hist, modes, thresh) && i < n <= |list| && n <= |prob|
    requires Reported(cfg, c, thresh, list, n, prob)
    ensures r < RANGE_BINS && d < DOPPLER_BINS && Detectable(cfg, c, thresh, r, d)
    ensures list[i].id == i && list[i].range == 192 * r && list[i].dopplerChn == d
    ensures -16 <= list[i].dopplerShift <= 15 && (list[i].dopplerShift - d) % 32 == 0
    ensures list[i].mag as real <= Cell(c, r, d) as real * 0.0039 * 3.0103 * 64.0 < list[i].mag as real + 1.0
    ensures prob[i] != 0 <==>
            exists k :: 0 <= k < n && list[k].range / 192 == list[i].range / 192 < 200 && list[k].mag > list[i].mag
  {
    assert |c| == CELLS && |thresh| == RANGE_BINS;
    hide Detection.Usable, Detection.Passes, Detection.Positions, Detection.PeakFlags, Detection.Listed;
    hide Thresholded, Detectable, PeakSearch.IsPeak, Detection.MarginsFit, Detection.Decibels;
    var p := ListedCell(cfg, c, thresh, list, n, i);
    r, d := p % RANGE_BINS, p / RANGE_BINS;
    ThresholdsAboveGuard(c, hist, modes, thresh, r);
    DetectableIff(cfg, c, thresh, r, d);
    Detection.ShiftIsSigned(c, p, i);
    Detection.DecibelsAre(Cell(c, r, d));
    MicroDoppler.OutshoneIff(list, n, i);
  }

  /** With fewer than 64 targets listed no detection is missing. */
  lemma DetectionsAreReported(cfg: Detection.Config, c: seq<nat>, hist: seq<nat>, modes: seq<nat>, thresh: seq<nat>,
                              list: seq<Detection.Target>, n: nat, prob: seq<nat>, r: nat, d: nat)
    returns (i: nat)
    requires Detection.Usable(cfg) && Detection.MarginsFit(cfg) && Detection.Prepared(c)
    requires Thresholded(c, hist, modes, thresh) && n <= |list| && n <= |prob|
    requires Reported(cfg, c, thresh, list, n, prob) && n < Detection.MAX_OUTPUT
    requires r < RANGE_BINS && d < DOPPLER_BINS && Detectable(cfg, c, thresh, r, d)
    ensures i < n && list[i].range == 192 * r && list[i].dopplerChn == d
  {
    assert |c| == CELLS && |thresh| == RANGE_BINS;
    var p := PositionOf(r, d);
    ThresholdsAboveGuard(c, hist, modes, thresh, r);
    DetectableIff(cfg, c, thresh, r, d);
    hide Detection.Usable, Detection.Passes, Detection.Positions, Thresholded, Detectable, PeakSearch.IsPeak;
    hide Detection.MarginsFit, Detection.Prepared, Detection.TargetAt, Detection.Listed;
    var f := Detection.PeakFlags(cfg, c, thresh);
    assert f[p];
    i := Detection.IndexOf(f, p);
    var q := ListedCell(cfg, c, thresh, list, n, i);
    Detection.ShiftIsSigned(c, p, i);
  }

  lemma PositionOf(r: nat, d: nat) returns (p: nat)
    requires r < RANGE_BINS && d < DOPPLER_BINS
    ensures p < CELLS && p % RANGE_BINS == r && p / RANGE_BINS == d
  {
    p := d * RANGE_BINS + r;
  }

  /** No two listed targets are the same cell or neighbours in range or, cyclically, in Doppler. */
  lemma ReportedApart(cfg: Detection.Config, c: seq<nat>, thresh: seq<nat>, list: seq<Detection.Target>, n: nat,
                      prob: seq<nat>, i: nat, k: nat, r: nat, d: nat)
    requires Detection.Usable(cfg) && |c| == CELLS && |thresh| == RANGE_BINS && n <= |list| && n <= |prob|
    requires Reported(cfg, c, thresh, list, n, prob) && i < n && k < n && i != k && IsAt(list[i], r, d)
    ensures !IsAt(list[k], r, d) && !IsAt(list[k], r + 1, d) && !IsAt(list[k], r, (d + 1) % DOPPLER_BINS)
  {
    hide Detection.Usable, Detection.Passes, Detection.Positions, Detection.PeakFlags, PeakSearch.IsPeak;
    var f := Detection.PeakFlags(cfg, c, thresh);
    Detection.PositionsOnce(f, CELLS);
    var p := ListedCell(cfg, c, thresh, list, n, i);
    var q := ListedCell(cfg, c, thresh, list, n, k);
    assert p != q;
    PeakSearch.PeaksAreIsolated(c, thresh, r, d);
  }
}
