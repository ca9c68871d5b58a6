// The detector proper: decode the peak bitmap, estimate noise around each peak, keep what stands out.
module Detection {
  import opened RadarMap
  import opened Bits32
  import opened Tallies
  import RangeCfar
  import PeakSearch
  import Os = OsCfar
  import Trim = RangeCfarTrim
  import Go = RangeGo
  import Cmld = CmldCfar
  import Dop = DopplerCfar
  import Floors

  const MAX_OUTPUT: nat := 64
  const HIST_GUARD: nat := 768  // HIST_THRESHOLD_GUARD << RDM_MAG_PER_HIST_BIN_EXP
  const REMOVE_MAX: nat := 2
  const REMOVE_MIN: nat := 1

  /** Lower and upper margins over the three noise estimates. */
  datatype Margins = Margins(range: nat, rangeEnd: nat, doppler: nat, dopplerEnd: nat, global: nat, globalEnd: nat)

  datatype Config = Config(
    cut: seq<int>, margins: seq<Margins>,
    rangeMethod: int, dopplerMethod: int, removeMin: bool,
    rangeWin: nat, rangeGuard: nat, dopplerWin: nat, dopplerGuard: nat, osRank: nat)

  ghost predicate Usable(cfg: Config) {
    && |cfg.cut| == 6 && |cfg.margins| == 6
    && 0 < cfg.rangeWin < Cmld.LIST_SIZE && 2 * (cfg.rangeWin + cfg.rangeGuard) < RANGE_BINS
    && cfg.dopplerGuard + cfg.dopplerWin + 3 < DOPPLER_BINS
    && 1 <= cfg.osRank <= 2 * cfg.rangeWin
  }

  /** 16-bit magnitudes, and range row 0 cleared. */
  ghost predicate Prepared(m: seq<nat>) {
    && |m| == CELLS
    && (forall k :: 0 <= k < CELLS ==> m[k] <= 65535)
    && (forall d :: 0 <= d < DOPPLER_BINS ==> m[d] == 0)
  }

  // ----- the two noise floors -----

  ghost function Censored(c: seq<nat>, r: nat, w: nat, g: nat): int
    requires r < |c| && |c| > 2 * (w + g)
  {
    MeanOf(Cmld.Kept(Cmld.RightCells(c, r, w, g), REMOVE_MAX, REMOVE_MIN)
           .Plus(Cmld.Kept(Cmld.LeftCells(c, r, w, g), REMOVE_MAX, REMOVE_MIN)))
  }

  ghost function RangeFloor(cfg: Config, c: seq<nat>, r: nat): int
    requires Usable(cfg) && r < |c| == RANGE_BINS
  {
    var w, g := cfg.rangeWin, cfg.rangeGuard;
    if cfg.cut[2] < r <= cfg.cut[3] then Censored(c, r, 6, 2)
    else if cfg.cut[3] < r <= cfg.cut[4] then Trim.TrimmedMean(Trim.Gathered(c, r, 5, 3, true), true)
    else if cfg.cut[4] < r <= cfg.cut[5] then Censored(c, r, 6, 2)
    else if cfg.rangeMethod == 4 then Os.Floor(c, r, w, g, cfg.osRank)
    else if cfg.rangeMethod == 3 then Censored(c, r, w, g)
    else if cfg.rangeMethod == 2 then Go.GreatestFloor(c, r, w, g, cfg.removeMin)
    else Trim.TrimmedMean(Trim.Gathered(c, r, w, g, cfg.removeMin), cfg.removeMin)
  }

  ghost function DopplerFloor(cfg: Config, row: seq<nat>, r: nat, d: nat): int
    requires Usable(cfg) && d < |row| == DOPPLER_BINS
  {
    var left := Dop.SideTaps(row, true, d, cfg.dopplerWin, cfg.dopplerGuard);
    var right := Dop.SideTaps(row, false, d, cfg.dopplerWin, cfg.dopplerGuard);
    var averaged := cfg.cut[2] < r <= cfg.cut[3];
    var greatest := cfg.cut[3] < r <= cfg.cut[4] || cfg.cut[4] < r <= cfg.cut[5] || cfg.dopplerMethod == 2;
    if !averaged && greatest then Dop.GreatestFloor(Dop.StatsOf(left), Dop.StatsOf(right), true, cfg.removeMin)
    else Dop.TrimmedFloor(Dop.StatsOf(left + right), true, cfg.removeMin)
  }

  method RangeNoise(cfg: Config, m: array<nat>, r: nat, d: nat) returns (floor: int)
    requires Usable(cfg) && Prepared(m[..]) && r < RANGE_BINS && d < DOPPLER_BINS
    ensures floor == RangeFloor(cfg, RangeCfar.Column(m[..], d, RANGE_BINS), r)
  {
    hide MeanOf, Trim.TrimmedMean, Trim.Gathered, Os.Floor, Go.GreatestFloor, Cmld.Kept;
    var w, g := cfg.rangeWin, cfg.rangeGuard;
    if r > cfg.cut[2] && r <= cfg.cut[3] {
      floor := Cmld.CensoredMean(m, d, r, RANGE_BINS, 6, 2, REMOVE_MAX, REMOVE_MIN);
    } else if r > cfg.cut[3] && r <= cfg.cut[4] {
      floor := Trim.CellAverageTrim(m, d, r, RANGE_BINS, 5, 3, true);
    } else if r > cfg.cut[4] && r <= cfg.cut[5] {
      floor := Cmld.CensoredMean(m, d, r, RANGE_BINS, 6, 2, REMOVE_MAX, REMOVE_MIN);
    } else if cfg.rangeMethod == 4 {
      floor := Os.OrderedStatistic(m, d, r, RANGE_BINS, w, g, cfg.osRank);
    } else if cfg.rangeMethod == 3 {
      floor := Cmld.CensoredMean(m, d, r, RANGE_BINS, w, g, REMOVE_MAX, REMOVE_MIN);
    } else if cfg.rangeMethod == 2 {
      floor := Go.GreatestOf(m, d, r, RANGE_BINS, w, g, cfg.removeMin);
    } else {
      floor := Trim.CellAverageTrim(m, d, r, RANGE_BINS, w, g, cfg.removeMin);
    }
  }

  method DopplerNoise(cfg: Config, m: array<nat>, r: nat, d: nat) returns (floor: int)
    requires Usable(cfg) && Prepared(m[..]) && r < RANGE_BINS && d < DOPPLER_BINS
    ensures floor == DopplerFloor(cfg, Row(m[..], r), r, d)
  {
    hide Dop.SideTaps, Dop.StatsOf, Dop.GreatestFloor, Dop.TrimmedFloor, Dop.Side;
    ghost var row := Row(m[..], r);
    var base := r * DOPPLER_BINS;
    var w, g, drop := cfg.dopplerWin, cfg.dopplerGuard, cfg.removeMin;
    if r > cfg.cut[2] && r <= cfg.cut[3] {
      floor := Dop.CellAverage(m, base, DOPPLER_BINS, d, w, g, true, drop, row);
    } else if r > cfg.cut[3] && r <= cfg.cut[4] {
      floor := Dop.GreatestOf(m, base, DOPPLER_BINS, d, w, g, true, drop, row);
    } else if r > cfg.cut[4] && r <= cfg.cut[5] {
      floor := Dop.GreatestOf(m, base, DOPPLER_BINS, d, w, g, true, drop, row);
    } else if cfg.dopplerMethod == 2 {
      floor := Dop.GreatestOf(m, base, DOPPLER_BINS, d, w, g, true, drop, row);
    } else {
      floor := Dop.CellAverage(m, base, DOPPLER_BINS, d, w, g, true, drop, row);
    }
  }

  // ----- which cells pass -----

  /** The margin segment of a range row. */
  function Segment(cut: seq<int>, r: nat): (k: nat)
    requires |cut| == 6 && r < RANGE_BINS
    ensures k < 6
  {
    if cut[0] <= r <= cut[1] then 0
    else if r > cut[5] then 5
    else if cut[1] < r <= cut[2] then 1
    else if cut[2] < r <= cut[3] then 2
    else if cut[3] < r <= cut[4] then 3
    else if cut[4] < r <= cut[5] then 4
    else 2
  }

  /** Strictly between the two limits, each an unsigned 32-bit number. */
  predicate Between(mag: nat, floor: int, low: nat, high: nat) {
    (low + floor) % U32 < mag < (high + floor) % U32
  }

  /** A zero floor stands for no estimate and is replaced by the row's global noise. */
  function OrGlobal(floor: int, global: int): int {
    if floor == 0 then global else floor
  }

  ghost predicate Passes(cfg: Config, m: seq<nat>, thresh: seq<nat>, r: nat, d: nat)
    requires Usable(cfg) && |m| == CELLS && |thresh| == RANGE_BINS && r < RANGE_BINS && d < DOPPLER_BINS
  {
    var mag, s, global := Cell(m, r, d), cfg.margins[Segment(cfg.cut, r)], thresh[r] - HIST_GUARD;
    && Between(mag, OrGlobal(RangeFloor(cfg, RangeCfar.Column(m, d, RANGE_BINS), r), global), s.range, s.rangeEnd)
    && Between(mag, OrGlobal(DopplerFloor(cfg, Row(m, r), r, d), global), s.doppler, s.dopplerEnd)
    && Between(mag, global, s.global, s.globalEnd)
  }

  /** Without a wrap-around the two limits are the plain sums. */
  lemma BetweenIs(mag: nat, floor: int, low: nat, high: nat)
    requires 0 <= low + floor < 0x1_0000_0000 && 0 <= high + floor < 0x1_0000_0000
    ensures Between(mag, floor, low, high) <==> low + floor < mag < high + floor
  {
  }

  /** What a cell has to be to be kept, in plain numbers: with no sum reaching 2^32, it exceeds its segment's
      margin over the range floor, over the Doppler floor and over the global noise, and stays below the upper
      limits over each. A floor of zero counts as the global noise, which is the threshold less 768. */
  lemma PassesIff(cfg: Config, m: seq<nat>, thresh: seq<nat>, r: nat, d: nat)
    requires Usable(cfg) && |m| == CELLS && |thresh| == RANGE_BINS && r < RANGE_BINS && d < DOPPLER_BINS
    ensures var s := cfg.margins[Segment(cfg.cut, r)];
            var noise: int := thresh[r] as int - 768;
            var inRange := RangeFloor(cfg, RangeCfar.Column(m, d, RANGE_BINS), r);
            var inDoppler := DopplerFloor(cfg, Row(m, r), r, d);
            var x: int := if inRange == 0 then noise else inRange;
            var y: int := if inDoppler == 0 then noise else inDoppler;
            (&& 0 <= s.range + x < 0x1_0000_0000 && 0 <= s.rangeEnd + x < 0x1_0000_0000
             && 0 <= s.doppler + y < 0x1_0000_0000 && 0 <= s.dopplerEnd + y < 0x1_0000_0000
             && 0 <= s.global + noise < 0x1_0000_0000 && 0 <= s.globalEnd + noise < 0x1_0000_0000) ==>
              (Passes(cfg, m, thresh, r, d) <==>
                 && s.range + x < Cell(m, r, d) < s.rangeEnd + x
                 && s.doppler + y < Cell(m, r, d) < s.dopplerEnd + y
                 && s.global + noise < Cell(m, r, d) < s.globalEnd + noise)
  {
    hide RangeFloor, DopplerFloor, Segment, Between;
    var s := cfg.margins[Segment(cfg.cut, r)];
    var noise: int := thresh[r] as int - 768;
    var inRange: int := RangeFloor(cfg, RangeCfar.Column(m, d, RANGE_BINS), r);
    var inDoppler: int := DopplerFloor(cfg, Row(m, r), r, d);
    var x: int := if inRange == 0 then noise else inRange;
    var y: int := if inDoppler == 0 then noise else inDoppler;
    PassesIs(cfg, m, thresh, r, d, inRange, inDoppler);
    if 0 <= s.range + x < 0x1_0000_0000 && 0 <= s.rangeEnd + x < 0x1_0000_0000 {
      BetweenIs(Cell(m, r, d), x, s.range, s.rangeEnd);
    }
    if 0 <= s.doppler + y < 0x1_0000_0000 && 0 <= s.dopplerEnd + y < 0x1_0000_0000 {
      BetweenIs(Cell(m, r, d), y, s.doppler, s.dopplerEnd);
    }
    if 0 <= s.global + noise < 0x1_0000_0000 && 0 <= s.globalEnd + noise < 0x1_0000_0000 {
      BetweenIs(Cell(m, r, d), noise, s.global, s.globalEnd);
    }
  }

  // ----- which segment, which estimator -----

  /** With ascending cuts a row's segment is the number of cuts below it, the first one not counted; rows before
      the first cut belong to segment 2. */
  lemma SegmentIs(cut: seq<int>, r: nat)
    requires |cut| == 6 && r < RANGE_BINS && forall i, j :: 0 <= i < j < 6 ==> cut[i] <= cut[j]
    ensures cut[0] <= r ==>
              Segment(cut, r) == (if cut[1] < r then 1 else 0) + (if cut[2] < r then 1 else 0)
                                 + (if cut[3] < r then 1 else 0) + (if cut[4] < r then 1 else 0)
                                 + (if cut[5] < r then 1 else 0)
    ensures r < cut[0] ==> Segment(cut, r) == 2
  {
  }

  /** Which cells the range floor of a segment is made of: the censored mean of windows of 6 past a guard of 2 in
      segments 2 and 4, the trimmed mean of a window of 5 past a guard of 3 in segment 3, the configured method
      and window elsewhere. */
  lemma RangeFloorBySegment(cfg: Config, c: seq<nat>, r: nat)
    requires Usable(cfg) && r < |c| == RANGE_BINS && forall i, j :: 0 <= i < j < 6 ==> cfg.cut[i] <= cfg.cut[j]
    requires cfg.cut[0] <= r
    ensures var k, w, g := Segment(cfg.cut, r), cfg.rangeWin, cfg.rangeGuard;
            var floor := RangeFloor(cfg, c, r);
            && (k == 2 || k == 4 ==>
                  floor == MeanOf(Cmld.Kept(Cmld.RightCells(c, r, 6, 2), 2, 1)
                                  .Plus(Cmld.Kept(Cmld.LeftCells(c, r, 6, 2), 2, 1))))
            && (k == 3 ==> floor == Trim.TrimmedMean(Trim.Gathered(c, r, 5, 3, true), true))
            && (k != 2 && k != 3 && k != 4 ==>
                  && (cfg.rangeMethod == 4 ==> floor == Os.Floor(c, r, w, g, cfg.osRank))
                  && (cfg.rangeMethod == 3 ==>
                        floor == MeanOf(Cmld.Kept(Cmld.RightCells(c, r, w, g), 2, 1)
                                        .Plus(Cmld.Kept(Cmld.LeftCells(c, r, w, g), 2, 1))))
                  && (cfg.rangeMethod == 2 ==> floor == Go.GreatestFloor(c, r, w, g, cfg.removeMin))
                  && (cfg.rangeMethod < 2 || cfg.rangeMethod > 4 ==>
                        floor == Trim.TrimmedMean(Trim.Gathered(c, r, w, g, cfg.removeMin), cfg.removeMin)))
  {
    hide MeanOf, Cmld.Kept, Os.Floor, Go.GreatestFloor, Trim.TrimmedMean, Trim.Gathered;
  }

  /** The Doppler floor: over both sides together in segment 2, the greater of the sides in segments 3 and 4, by
      the configured method elsewhere; the largest tap is always removed. */
  lemma DopplerFloorBySegment(cfg: Config, row: seq<nat>, r: nat, d: nat)
    requires Usable(cfg) && d < |row| == DOPPLER_BINS && r < RANGE_BINS
    requires cfg.cut[0] <= r && forall i, j :: 0 <= i < j < 6 ==> cfg.cut[i] <= cfg.cut[j]
    ensures var k := Segment(cfg.cut, r);
            var left := Dop.SideTaps(row, true, d, cfg.dopplerWin, cfg.dopplerGuard);
            var right := Dop.SideTaps(row, false, d, cfg.dopplerWin, cfg.dopplerGuard);
            var floor := DopplerFloor(cfg, row, r, d);
            if k == 2 || (k != 3 && k != 4 && cfg.dopplerMethod != 2)
            then floor == Dop.TrimmedFloor(Dop.StatsOf(left + right), true, cfg.removeMin)
            else floor == Dop.GreatestFloor(Dop.StatsOf(left), Dop.StatsOf(right), true, cfg.removeMin)
  {
    hide Dop.SideTaps, Dop.StatsOf, Dop.TrimmedFloor, Dop.GreatestFloor;
  }

  // ----- no sum of a frame wraps -----

  lemma PreparedColumn(m: seq<nat>, d: nat)
    requires Prepared(m) && d < DOPPLER_BINS
    ensures var c := RangeCfar.Column(m, d, RANGE_BINS); Trim.Small(c) && Os.Small(c)
  {
  }

  lemma RangeFloorModest(cfg: Config, m: seq<nat>, r: nat, d: nat)
    requires Usable(cfg) && Prepared(m) && r < RANGE_BINS && d < DOPPLER_BINS
    ensures 0 <= RangeFloor(cfg, RangeCfar.Column(m, d, RANGE_BINS), r) < 0x400_0000
  {
    hide MeanOf, Cmld.Kept, Os.Floor, Go.GreatestFloor, Trim.TrimmedMean, Trim.Gathered, Trim.Small, Os.Small;
    var c := RangeCfar.Column(m, d, RANGE_BINS);
    var w, g := cfg.rangeWin, cfg.rangeGuard;
    PreparedColumn(m, d);
    Floors.CensoredModest(c, r, 6, 2, REMOVE_MAX, REMOVE_MIN);
    Floors.TrimModest(c, r, 5, 3, true);
    Floors.CensoredModest(c, r, w, g, REMOVE_MAX, REMOVE_MIN);
    Floors.TrimModest(c, r, w, g, cfg.removeMin);
    Floors.GoModest(c, r, w, g, cfg.removeMin);
    Floors.OsModest(c, r, w, g, cfg.osRank);
  }

  lemma DopplerFloorModest(cfg: Config, m: seq<nat>, r: nat, d: nat)
    requires Usable(cfg) && Prepared(m) && r < RANGE_BINS && d < DOPPLER_BINS
    ensures 0 <= DopplerFloor(cfg, Row(m, r), r, d) < 0x400_0000
  {
    hide Dop.SideTaps, Dop.StatsOf, Dop.TrimmedFloor, Dop.Ordinary;
    var row := Row(m, r);
    var left := Dop.SideTaps(row, true, d, cfg.dopplerWin, cfg.dopplerGuard);
    var right := Dop.SideTaps(row, false, d, cfg.dopplerWin, cfg.dopplerGuard);
    Floors.SideOrdinary(row, true, d, cfg.dopplerWin, cfg.dopplerGuard);
    Floors.SideOrdinary(row, false, d, cfg.dopplerWin, cfg.dopplerGuard);
    Floors.BothOrdinary(left, right);
    Floors.DopplerModest(left, true, cfg.removeMin);
    Floors.DopplerModest(right, true, cfg.removeMin);
    Floors.DopplerModest(left + right, true, cfg.removeMin);
  }

  /** Margins a floor can be added to without reaching 2^32. */
  ghost predicate MarginsFit(cfg: Config) {
    forall k :: 0 <= k < |cfg.margins| ==>
      var s := cfg.margins[k];
      s.range < 0x8000_0000 && s.rangeEnd < 0x8000_0000 && s.doppler < 0x8000_0000 && s.dopplerEnd < 0x8000_0000
      && s.global < 0x8000_0000 && s.globalEnd < 0x8000_0000
  }

  /** On a prepared map, with 16-bit thresholds no lower than 768 and margins below 2^31, nothing wraps: exactly
      the cells strictly between the six sums are kept. */
  lemma KeptIff(cfg: Config, m: seq<nat>, thresh: seq<nat>, r: nat, d: nat)
    requires Usable(cfg) && Prepared(m) && |thresh| == RANGE_BINS && r < RANGE_BINS && d < DOPPLER_BINS
    requires MarginsFit(cfg) && 768 <= thresh[r] <= 65535
    ensures var s := cfg.margins[Segment(cfg.cut, r)];
            var noise: int := thresh[r] as int - 768;
            var inRange := RangeFloor(cfg, RangeCfar.Column(m, d, RANGE_BINS), r);
            var inDoppler := DopplerFloor(cfg, Row(m, r), r, d);
            var x: int := if inRange == 0 then noise else inRange;
            var y: int := if inDoppler == 0 then noise else inDoppler;
            Passes(cfg, m, thresh, r, d) <==>
              && s.range + x < Cell(m, r, d) < s.rangeEnd + x
              && s.doppler + y < Cell(m, r, d) < s.dopplerEnd + y
              && s.global + noise < Cell(m, r, d) < s.globalEnd + noise
  {
    assert |m| == CELLS;
    hide Passes, RangeFloor, DopplerFloor, Segment, Prepared;
    RangeFloorModest(cfg, m, r, d);
    DopplerFloorModest(cfg, m, r, d);
    PassesIff(cfg, m, thresh, r, d);
  }

  method Test(cfg: Config, m: array<nat>, thresh: array<nat>, r: nat, d: nat) returns (ok: bool)
    requires Usable(cfg) && Prepared(m[..]) && thresh.Length == RANGE_BINS && r < RANGE_BINS && d < DOPPLER_BINS
    ensures ok <==> Passes(cfg, m[..], thresh[..], r, d)
  {
    hide *;
    var mag := MagAt(m, r, d);
    var s := MarginsOf(cfg, r);
    var rangeFloor := RangeNoise(cfg, m, r, d);
    var dopplerFloor := DopplerNoise(cfg, m, r, d);
    PassesIs(cfg, m[..], thresh[..], r, d, rangeFloor, dopplerFloor);
    ok := Compare(mag, rangeFloor, dopplerFloor, thresh[r] - HIST_GUARD, s);
  }

  method MagAt(m: array<nat>, r: nat, d: nat) returns (mag: nat)
    requires Prepared(m[..]) && r < RANGE_BINS && d < DOPPLER_BINS
    ensures |m[..]| == CELLS && mag == Cell(m[..], r, d)
  {
    mag := m[r * DOPPLER_BINS + d];
  }

  lemma PassesIs(cfg: Config, m: seq<nat>, thresh: seq<nat>, r: nat, d: nat, rangeFloor: int, dopplerFloor: int)
    requires Usable(cfg) && |m| == CELLS && |thresh| == RANGE_BINS && r < RANGE_BINS && d < DOPPLER_BINS
    requires rangeFloor == RangeFloor(cfg, RangeCfar.Column(m, d, RANGE_BINS), r)
    requires dopplerFloor == DopplerFloor(cfg, Row(m, r), r, d)
    ensures var mag, s, global := Cell(m, r, d), cfg.margins[Segment(cfg.cut, r)], thresh[r] - HIST_GUARD;
            Passes(cfg, m, thresh, r, d) <==>
            && Between(mag, OrGlobal(rangeFloor, global), s.range, s.rangeEnd)
            && Between(mag, OrGlobal(dopplerFloor, global), s.doppler, s.dopplerEnd)
            && Between(mag, global, s.global, s.globalEnd)
  {
    hide RangeFloor, DopplerFloor, Between, OrGlobal, Segment;
  }

  method MarginsOf(cfg: Config, r: nat) returns (s: Margins)
    requires Usable(cfg) && r < RANGE_BINS
    ensures s == cfg.margins[Segment(cfg.cut, r)]
  {
    s := cfg.margins[Segment(cfg.cut, r)];
  }

  method Compare(mag: nat, rangeFloor: int, dopplerFloor: int, global: int, s: Margins) returns (ok: bool)
    ensures ok <==> && Between(mag, OrGlobal(rangeFloor, global), s.range, s.rangeEnd)
                    && Between(mag, OrGlobal(dopplerFloor, global), s.doppler, s.dopplerEnd)
                    && Between(mag, global, s.global, s.globalEnd)
  {
    hide Between;
    var r, d := rangeFloor, dopplerFloor;
    if r == 0 {
      r := global;
    }
    if d == 0 {
      d := global;
    }
    ok := Between(mag, r, s.range, s.rangeEnd) && Between(mag, d, s.doppler, s.dopplerEnd)
          && Between(mag, global, s.global, s.globalEnd);
  }

  // ----- decoding -----

  ghost predicate SetAt(bitmap: seq<nat>, p: nat)
    requires |bitmap| * WIDTH == CELLS && p < CELLS
  {
    Bit(bitmap[p / WIDTH], p % WIDTH)
  }

  ghost predicate Hit(cfg: Config, m: seq<nat>, thresh: seq<nat>, bitmap: seq<nat>, p: nat)
    requires Usable(cfg) && |m| == CELLS && |thresh| == RANGE_BINS && |bitmap| * WIDTH == CELLS && p < CELLS
  {
    SetAt(bitmap, p) && Passes(cfg, m, thresh, p % RANGE_BINS, p / RANGE_BINS)
  }

  /** For every bit position: is it a hit? */
  ghost function HitFlags(cfg: Config, m: seq<nat>, thresh: seq<nat>, bitmap: seq<nat>): (f: seq<bool>)
    requires Usable(cfg) && |m| == CELLS && |thresh| == RANGE_BINS && |bitmap| * WIDTH == CELLS
    ensures |f| == CELLS
  {
    seq(CELLS, p requires 0 <= p < CELLS => Hit(cfg, m, thresh, bitmap, p))
  }

  /** The positions below q whose flag is up, in increasing order. */
  ghost function Positions(f: seq<bool>, q: nat): (h: seq<nat>)
    requires q <= |f|
    ensures forall i :: 0 <= i < |h| ==> h[i] < q
  {
    if q == 0 then []
    else if f[q - 1] then Positions(f, q - 1) + [q - 1]
    else Positions(f, q - 1)
  }

  /** Every raised position is listed once, in increasing order. */
  lemma {:induction false} PositionsOnce(f: seq<bool>, q: nat)
    requires q <= |f|
    ensures var h := Positions(f, q);
            && (forall i, j :: 0 <= i < j < |h| ==> h[i] < h[j])
            && (forall p: nat :: p in h <==> p < q && f[p])
  {
    if q > 0 {
      PositionsOnce(f, q - 1);
    }
  }

  lemma IndexOf(f: seq<bool>, p: nat) returns (i: nat)
    requires p < |f| && f[p]
    ensures i < |Positions(f, |f|)| && Positions(f, |f|)[i] == p
  {
    PositionsOnce(f, |f|);
    assert p in Positions(f, |f|);
    i :| 0 <= i < |Positions(f, |f|)| && Positions(f, |f|)[i] == p;
  }

  lemma {:induction false} PositionsSkip(f: seq<bool>, a: nat, b: nat)
    requires a <= b <= |f| && forall p :: a <= p < b ==> !f[p]
    ensures Positions(f, b) == Positions(f, a)
    decreases b
  {
    if a < b {
      PositionsSkip(f, a, b - 1);
    }
  }

  lemma {:induction false} PositionsGrow(f: seq<bool>, a: nat, b: nat)
    requires a <= b <= |f|
    ensures Positions(f, a) <= Positions(f, b)
    decreases b
  {
    if a < b {
      PositionsGrow(f, a, b - 1);
    }
  }

  lemma WordAndBit(word: nat, j: nat)
    requires j < WIDTH
    ensures (word * WIDTH + j) / WIDTH == word && (word * WIDTH + j) % WIDTH == j
  {
  }

  /** Bit position d * 512 + r is the bit the peak search wrote for range r and Doppler d. */
  lemma SetAtIsBitAt(bitmap: seq<nat>, r: nat, d: nat)
    requires |bitmap| * WIDTH == CELLS && r < RANGE_BINS && d < DOPPLER_BINS
    ensures SetAt(bitmap, d * RANGE_BINS + r) == PeakSearch.BitAt(bitmap, r, d)
    ensures (d * RANGE_BINS + r) % RANGE_BINS == r && (d * RANGE_BINS + r) / RANGE_BINS == d
  {
    hide Bit;
    var word := d * PeakSearch.WORDS_PER_DOPPLER + r / WIDTH;
    assert d * RANGE_BINS + r == word * WIDTH + r % WIDTH;
    WordAndBit(word, r % WIDTH);
  }

  /** A list entry: range in 1/64 m, magnitude in 1/64 dB. */
  datatype Target = Target(id: nat, range: nat, dopplerChn: nat, dopplerShift: int, mag: nat)

  /** 3 m per range bin, in 1/64 m. */
  const RANGE_UNIT: nat := 192

  /** 0.0039 * 3.0103 dB per step of magnitude, in 1/64 dB, truncated. */
  function Decibels(mag: nat): nat {
    mag * 75137088 / 100000000
  }

  function TargetAt(m: seq<nat>, p: nat, id: nat): Target
    requires |m| == CELLS && p < CELLS
  {
    var r, d := p % RANGE_BINS, p / RANGE_BINS;
    Target(id, r * RANGE_UNIT, d, if d >= DOPPLER_BINS / 2 then d - DOPPLER_BINS else d, Decibels(Cell(m, r, d)))
  }

  /** The shifted Doppler bin is the signed one: the same modulo 32, from -16 to 15. */
  lemma ShiftIsSigned(m: seq<nat>, p: nat, id: nat)
    requires |m| == CELLS && p < CELLS
    ensures var t := TargetAt(m, p, id);
            && t.id == id && t.range == 192 * (p % RANGE_BINS) && t.dopplerChn == p / RANGE_BINS < 32
            && -16 <= t.dopplerShift <= 15 && (t.dopplerShift - t.dopplerChn) % 32 == 0
  {
  }

  /** The listed magnitude is that many 1/64 dB, rounded down: 3.0103 dB are 0.0039^-1 steps. */
  lemma DecibelsAre(mag: nat)
    ensures Decibels(mag) as real <= mag as real * 0.0039 * 3.0103 * 64.0 < Decibels(mag) as real + 1.0
  {
    var x := mag * 75137088;
    assert x == Decibels(mag) * 100000000 + x % 100000000;
    assert mag as real * 0.0039 * 3.0103 * 64.0 == x as real / 100000000.0;
  }

  ghost predicate Listed(list: seq<Target>, n: nat, m: seq<nat>, hits: seq<nat>) {
    && |m| == CELLS && n <= |list| && n <= |hits|
    && forall i :: 0 <= i < n ==> hits[i] < CELLS && list[i] == TargetAt(m, hits[i], i)
  }

  /** The list holds the first hits of the scan so far: all of them below the cap. */
  ghost predicate Scanned(list: seq<Target>, n: nat, m: seq<nat>, f: seq<bool>, q: nat)
    requires q <= |f|
  {
    n == |Positions(f, q)| && Listed(list, n, m, Positions(f, q))
  }

  method Append(list: array<Target>, n: nat, m: array<nat>, p: nat, ghost f: seq<bool>)
    requires list.Length == MAX_OUTPUT && n < MAX_OUTPUT && m.Length == CELLS && p < CELLS == |f|
    requires Scanned(list[..], n, m[..], f, p) && f[p]
    modifies list
    ensures Scanned(list[..], n + 1, m[..], f, p + 1)
  {
    var d := p / RANGE_BINS;
    var r := p - d * RANGE_BINS;
    var shift: int := d;
    if d >= DOPPLER_BINS / 2 {
      shift := d - DOPPLER_BINS;
    }
    list[n] := Target(n, r * RANGE_UNIT, d, shift, Decibels(m[r * DOPPLER_BINS + d]));
  }

  lemma ShiftsOut(w: nat, j: nat)
    requires w < 0x1_0000_0000
    ensures Shifted(w, j) > 0 ==> j < WIDTH
    ensures Shifted(w, j) == 0 ==> forall k: nat :: j <= k ==> !Bit(w, k)
  {
    if Shifted(w, j) == 0 {
      forall k: nat | j <= k
        ensures !Bit(w, k)
      {
        ShiftedBit(w, j, k - j);
        ZeroHasNoBits(k - j);
      }
    }
    if j >= WIDTH {
      ShiftedGone(w, j);
    }
  }

  /** Decodes one bitmap word, lowest bit first, and appends the hits until the cap is reached. */
  method DecodeWord(cfg: Config, m: array<nat>, thresh: array<nat>, bitmap: array<nat>, list: array<Target>,
                    word: nat, count: nat, ghost f: seq<bool>)
    returns (n: nat, ghost q: nat)
    requires Usable(cfg) && Prepared(m[..]) && thresh.Length == RANGE_BINS
    requires bitmap.Length * WIDTH == CELLS && word < bitmap.Length && bitmap[word] < 0x1_0000_0000
    requires list.Length == MAX_OUTPUT && count < MAX_OUTPUT
    requires f == HitFlags(cfg, m[..], thresh[..], bitmap[..])
    requires Scanned(list[..], count, m[..], f, word * WIDTH)
    modifies list
    ensures n <= MAX_OUTPUT && q <= CELLS && Scanned(list[..], n, m[..], f, q)
    ensures n < MAX_OUTPUT ==> q == (word + 1) * WIDTH
  {
    hide Usable, Scanned, Passes, Bit;
    n := count;
    ghost var w := bitmap[word];
    var aux := bitmap[word];
    var j := 0;
    ShiftsOut(w, 0);
    while aux != 0
      invariant j <= WIDTH && aux == Shifted(w, j) && (aux > 0 ==> j < WIDTH)
      invariant n < MAX_OUTPUT && Scanned(list[..], n, m[..], f, word * WIDTH + j)
      decreases aux
    {
      var p := word * WIDTH + j;
      FlagOfBit(cfg, m[..], thresh[..], bitmap[..], f, word, j);
      if aux % 2 == 1 {
        var ok := Test(cfg, m, thresh, p % RANGE_BINS, p / RANGE_BINS);
        if ok {
          Append(list, n, m, p, f);
          n := n + 1;
        }
        if n >= MAX_OUTPUT {
          return MAX_OUTPUT, p + 1;
        }
      }
      if !f[p] {
        ScannedOver(list[..], n, m[..], f, p, p + 1);
      }
      ShiftsOut(w, j + 1);
      j := j + 1;
      aux := aux / 2;
    }
    q := (word + 1) * WIDTH;
    ShiftsOut(w, j);
    forall p | word * WIDTH + j <= p < q
      ensures !f[p]
    {
      WordAndBit(word, p - word * WIDTH);
      assert p == word * WIDTH + (p - word * WIDTH);
      assert !Bit(w, p - word * WIDTH);
      assert !SetAt(bitmap[..], p);
    }
    ScannedOver(list[..], n, m[..], f, word * WIDTH + j, q);
  }

  /** The low bit of the shifted word decides whether its cell is tested. */
  lemma FlagOfBit(cfg: Config, m: seq<nat>, thresh: seq<nat>, bitmap: seq<nat>, f: seq<bool>, word: nat, j: nat)
    requires Usable(cfg) && |m| == CELLS && |thresh| == RANGE_BINS && |bitmap| * WIDTH == CELLS
    requires f == HitFlags(cfg, m, thresh, bitmap) && word < |bitmap| && j < WIDTH
    ensures var p := word * WIDTH + j;
            f[p] <==> Shifted(bitmap[word], j) % 2 == 1 && Passes(cfg, m, thresh, p % RANGE_BINS, p / RANGE_BINS)
  {
    hide Passes, Usable;
    WordAndBit(word, j);
    ShiftedBit(bitmap[word], j, 0);
  }

  lemma ScannedOver(list: seq<Target>, n: nat, m: seq<nat>, f: seq<bool>, a: nat, b: nat)
    requires a <= b <= |f| && (forall p :: a <= p < b ==> !f[p])
    requires Scanned(list, n, m, f, a)
    ensures Scanned(list, n, m, f, b)
  {
    PositionsSkip(f, a, b);
  }

  /** The detection list is the first 64 hits, in order, with ids 0 to n - 1; n counts them all below 64. */
  method Detect(cfg: Config, m: array<nat>, thresh: array<nat>, bitmap: array<nat>, list: array<Target>)
    returns (n: nat)
    requires Usable(cfg) && Prepared(m[..]) && thresh.Length == RANGE_BINS
    requires bitmap.Length * WIDTH == CELLS && forall w :: 0 <= w < bitmap.Length ==> bitmap[w] < 0x1_0000_0000
    requires list.Length == MAX_OUTPUT
    modifies list
    ensures var hits := Positions(HitFlags(cfg, m[..], thresh[..], bitmap[..]), CELLS);
            && n == (if |hits| < MAX_OUTPUT then |hits| else MAX_OUTPUT)
            && Listed(list[..], n, m[..], hits)
  {
    ghost var f := HitFlags(cfg, m[..], thresh[..], bitmap[..]);
    hide Usable, Prepared, Hit, TargetAt;
    n := 0;
    ghost var q: nat := 0;
    var word := 0;
    while word < bitmap.Length
      invariant word <= bitmap.Length && n <= MAX_OUTPUT && q <= CELLS && Scanned(list[..], n, m[..], f, q)
      invariant n < MAX_OUTPUT && q == word * WIDTH
    {
      n, q := DecodeWord(cfg, m, thresh, bitmap, list, word, n, f);
      if n >= MAX_OUTPUT {
        n := MAX_OUTPUT;
        break;
      }
      word := word + 1;
    }
    PositionsGrow(f, q, CELLS);
  }

  // ----- the whole chain -----

  /** For every bit position: is its cell a peak that passes? */
  ghost function PeakFlags(cfg: Config, m: seq<nat>, thresh: seq<nat>): (f: seq<bool>)
    requires Usable(cfg) && |m| == CELLS && |thresh| == RANGE_BINS
    ensures |f| == CELLS
  {
    seq(CELLS, p requires 0 <= p < CELLS =>
      PeakSearch.IsPeak(m, thresh, p % RANGE_BINS, p / RANGE_BINS) &&
      Passes(cfg, m, thresh, p % RANGE_BINS, p / RANGE_BINS))
  }

  /** Decoding the peak search's bitmap visits exactly the peaks it found. */
  lemma DecodedArePeaks(cfg: Config, m: seq<nat>, thresh: seq<nat>, bitmap: seq<nat>)
    requires Usable(cfg) && |m| == CELLS && |thresh| == RANGE_BINS && |bitmap| * WIDTH == CELLS
    requires forall r: nat, d: nat :: r < RANGE_BINS && d < DOPPLER_BINS ==>
               (PeakSearch.BitAt(bitmap, r, d) <==> PeakSearch.IsPeak(m, thresh, r, d))
    ensures HitFlags(cfg, m, thresh, bitmap) == PeakFlags(cfg, m, thresh)
  {
    hide Usable, Passes, PeakSearch.IsPeak;
    forall p: nat | p < CELLS
      ensures HitFlags(cfg, m, thresh, bitmap)[p] == PeakFlags(cfg, m, thresh)[p]
    {
      SetAtIsBitAt(bitmap, p % RANGE_BINS, p / RANGE_BINS);
    }
  }

  /** From a prepared map and its thresholds to the list: the first 64 peaks that pass. */
  method DetectFrame(cfg: Config, m: array<nat>, t: array<nat>, thresh: array<nat>, bitmap: array<nat>,
                     flags: array<bool>, list: array<Target>)
    returns (n: nat)
    requires Usable(cfg) && Prepared(m[..]) && thresh.Length == RANGE_BINS && t.Length == CELLS
    requires bitmap.Length == PeakSearch.BITMAP_WORDS && flags.Length == CELLS && list.Length == MAX_OUTPUT
    requires m != t && m != bitmap && t != bitmap && thresh != t && thresh != bitmap
    modifies t, bitmap, flags, list
    ensures var peaks := Positions(PeakFlags(cfg, m[..], thresh[..]), CELLS);
            && n == (if |peaks| < MAX_OUTPUT then |peaks| else MAX_OUTPUT)
            && Listed(list[..], n, m[..], peaks)
  {
    hide Usable, Listed, Positions, HitFlags, PeakFlags, IsTranspose;
    hide PeakSearch.IsPeak, PeakSearch.BitAt, PeakSearch.PeakSet;
    var ok := PeakSearch.Transpose(m, t, RANGE_BINS, DOPPLER_BINS);
    var found := PeakSearch.FindPeaks(m, t, thresh, bitmap, flags);
    DecodedArePeaks(cfg, m[..], thresh[..], bitmap[..]);
    n := Detect(cfg, m, thresh, bitmap, list);
  }
}
