// Histogram of each range row, the threshold taken from its mode, and five-row smoothing.
module Threshold {
  import opened RadarMap

  const HIST_BINS: nat := 64
  const MAG_PER_BIN: nat := 256
  const GUARD: nat := 3
  const HIST_SLOTS: nat := 32768

  // ----- histogram -----

  /** How many of the first n magnitudes of a row fall into bin b. */
  ghost function CountIn(row: seq<nat>, n: nat, b: nat): (k: nat)
    requires n <= |row|
    ensures k <= n
  {
    if n == 0 then 0 else CountIn(row, n - 1, b) + if row[n - 1] / MAG_PER_BIN == b then 1 else 0
  }

  /** The counts of one row's bins from bin 0 up to bin b - 1, added up. */
  ghost function Total(row: seq<nat>, n: nat, b: nat): nat
    requires n <= |row|
  {
    if b == 0 then 0 else Total(row, n, b - 1) + CountIn(row, n, b - 1)
  }

  lemma {:induction false} TotalStep(row: seq<nat>, n: nat, b: nat)
    requires 0 < n <= |row|
    ensures Total(row, n, b) == Total(row, n - 1, b) + if row[n - 1] / MAG_PER_BIN < b then 1 else 0
  {
    if b > 0 {
      TotalStep(row, n, b - 1);
    }
  }

  lemma {:induction false} TotalNothing(row: seq<nat>, b: nat)
    ensures Total(row, 0, b) == 0
  {
    if b > 0 {
      TotalNothing(row, b - 1);
    }
  }

  ghost predicate InRange(row: seq<nat>) {
    forall j :: 0 <= j < |row| ==> row[j] < HIST_BINS * MAG_PER_BIN
  }

  /** The bins of a row hold all its magnitudes exactly if each is below 16384. */
  lemma {:induction false} BinsSumToCells(row: seq<nat>, n: nat)
    requires n <= |row|
    ensures Total(row, n, HIST_BINS) <= n
    ensures Total(row, n, HIST_BINS) == n <==> InRange(row[..n])
  {
    if n == 0 {
      TotalNothing(row, HIST_BINS);
    } else {
      BinsSumToCells(row, n - 1);
      TotalStep(row, n, HIST_BINS);
      assert row[..n] == row[..n - 1] + [row[n - 1]];
    }
  }

  /** The bins of row i count its magnitudes. */
  ghost predicate Counted(hist: seq<nat>, m: seq<nat>, i: nat)
    requires |hist| == HIST_SLOTS && |m| == CELLS && i < RANGE_BINS
  {
    forall b :: 0 <= b < HIST_BINS ==> hist[i * HIST_BINS + b] == CountIn(Row(m, i), DOPPLER_BINS, b)
  }

  /** Where cell c is counted: from 16384 on a magnitude leaves the bins of its row. */
  function Slot(m: seq<nat>, c: nat): nat
    requires c < |m|
  {
    c / DOPPLER_BINS * HIST_BINS + m[c] / MAG_PER_BIN
  }

  /** No cell is counted past the end of the histogram. */
  ghost predicate InBounds(m: seq<nat>) {
    forall c :: 0 <= c < |m| ==> Slot(m, c) < HIST_SLOTS
  }

  /** How many of the first n cells are counted in slot k. */
  ghost function LandedAt(m: seq<nat>, n: nat, k: nat): nat
    requires n <= |m|
  {
    if n == 0 then 0 else LandedAt(m, n - 1, k) + if Slot(m, n - 1) == k then 1 else 0
  }

  ghost predicate Landed(hist: seq<nat>, m: seq<nat>, n: nat)
    requires n <= |m|
  {
    |hist| == HIST_SLOTS && forall k :: 0 <= k < HIST_SLOTS ==> hist[k] == LandedAt(m, n, k)
  }

  /** How many of the first n cells of the map belong to row i. */
  function InRow(n: nat, i: nat): (k: nat)
    ensures k <= DOPPLER_BINS
  {
    if n <= i * DOPPLER_BINS then 0
    else if n <= (i + 1) * DOPPLER_BINS then n - i * DOPPLER_BINS
    else DOPPLER_BINS
  }

  lemma SlotOwner(m: seq<nat>, c: nat, i: nat, b: nat)
    requires |m| == CELLS && c < CELLS && i < RANGE_BINS && b < HIST_BINS
    ensures i * DOPPLER_BINS <= c < (i + 1) * DOPPLER_BINS ==>
              InRow(c, i) < DOPPLER_BINS && m[c] == Row(m, i)[InRow(c, i)] && InRow(c + 1, i) == InRow(c, i) + 1 &&
              (Slot(m, c) == i * HIST_BINS + b <==> m[c] / MAG_PER_BIN == b)
    ensures !(i * DOPPLER_BINS <= c < (i + 1) * DOPPLER_BINS) ==>
              InRow(c + 1, i) == InRow(c, i) && c / DOPPLER_BINS != i
    ensures c / DOPPLER_BINS != i && m[c] < HIST_BINS * MAG_PER_BIN ==> Slot(m, c) != i * HIST_BINS + b
  {
  }

  /** In-range magnitudes are counted in their own row's bins and nothing else is. */
  lemma {:induction false} LandedInRange(m: seq<nat>, n: nat, i: nat, b: nat)
    requires |m| == CELLS && InRange(m) && n <= CELLS && i < RANGE_BINS && b < HIST_BINS
    ensures LandedAt(m, n, i * HIST_BINS + b) == CountIn(Row(m, i), InRow(n, i), b)
  {
    hide Slot, InRow, Row;
    if n == 0 {
      NoneInRow(i);
    } else {
      LandedInRange(m, n - 1, i, b);
      SlotOwner(m, n - 1, i, b);
    }
  }

  lemma NoneInRow(i: nat)
    ensures InRow(0, i) == 0
    ensures i < RANGE_BINS ==> InRow(CELLS, i) == DOPPLER_BINS
  {
  }

  /** A cell of another row counted in bin b of row i comes on top of that row's own magnitudes. */
  lemma {:induction false} SpillAdds(m: seq<nat>, n: nat, i: nat, b: nat, c: nat)
    requires |m| == CELLS && n <= CELLS && i < RANGE_BINS && b < HIST_BINS
    requires c < CELLS && c / DOPPLER_BINS != i && Slot(m, c) == i * HIST_BINS + b
    ensures LandedAt(m, n, i * HIST_BINS + b) >= CountIn(Row(m, i), InRow(n, i), b) + if c < n then 1 else 0
  {
    hide Slot, InRow, Row;
    if n == 0 {
      NoneInRow(i);
    } else {
      SpillAdds(m, n - 1, i, b, c);
      SlotOwner(m, n - 1, i, b);
    }
  }

  /** Every row's bins count its own magnitudes exactly if all magnitudes of the map are below 16384. */
  lemma CountedIff(hist: seq<nat>, m: seq<nat>)
    requires |m| == CELLS && InBounds(m) && Landed(hist, m, CELLS)
    ensures (forall i :: 0 <= i < RANGE_BINS ==> Counted(hist, m, i)) <==> InRange(m)
  {
    hide Row, InRow, LandedAt, CountIn;
    if InRange(m) {
      forall i, b | 0 <= i < RANGE_BINS && 0 <= b < HIST_BINS
        ensures hist[i * HIST_BINS + b] == CountIn(Row(m, i), DOPPLER_BINS, b)
      {
        NoneInRow(i);
        LandedInRange(m, CELLS, i, b);
      }
    } else {
      var c :| 0 <= c < CELLS && m[c] >= HIST_BINS * MAG_PER_BIN;
      var i, b := Slot(m, c) / HIST_BINS, Slot(m, c) % HIST_BINS;
      assert Slot(m, c) == i * HIST_BINS + b;
      NoneInRow(i);
      SpillAdds(m, CELLS, i, b, c);
      assert !Counted(hist, m, i);
    }
  }

  /** One cell of 16384 on an empty map is counted in bin 0 of the next row. */
  lemma SpillExists() returns (m: seq<nat>)
    ensures |m| == CELLS && InBounds(m)
    ensures forall hist :: Landed(hist, m, CELLS) ==> !Counted(hist, m, 1) && hist[HIST_BINS] > DOPPLER_BINS
  {
    m := seq(CELLS, c => if c == 0 then HIST_BINS * MAG_PER_BIN else 0);
    assert m[0] == HIST_BINS * MAG_PER_BIN;
    SpillAdds(m, CELLS, 1, 0, 0);
    NoneInRow(1);
    AllInBin(Row(m, 1), DOPPLER_BINS, 0);
  }

  lemma {:induction false} AllInBin(row: seq<nat>, n: nat, b: nat)
    requires n <= |row| && forall j :: 0 <= j < n ==> row[j] / MAG_PER_BIN == b
    ensures CountIn(row, n, b) == n
  {
    if n > 0 {
      AllInBin(row, n - 1, b);
    }
  }

  /** Counts every cell in its slot. The source checks no bound; a cell past the end would be written there. */
  method CalcHistogram(m: array<nat>, hist: array<nat>)
    requires m.Length == CELLS && hist.Length == HIST_SLOTS && m != hist && InBounds(m[..])
    modifies hist
    ensures Landed(hist[..], m[..], CELLS)
    ensures (forall i :: 0 <= i < RANGE_BINS ==> Counted(hist[..], m[..], i)) <==> InRange(m[..])
  {
    hide InBounds, InRange;
    for k := 0 to hist.Length
      invariant forall j :: 0 <= j < k ==> hist[j] == 0
    {
      hist[k] := 0;
    }
    for i := 0 to RANGE_BINS
      invariant Landed(hist[..], m[..], i * DOPPLER_BINS)
    {
      CountRow(m, hist, i);
    }
    CountedIff(hist[..], m[..]);
  }

  method CountRow(m: array<nat>, hist: array<nat>, i: nat)
    requires m.Length == CELLS && hist.Length == HIST_SLOTS && m != hist && InBounds(m[..])
    requires i < RANGE_BINS && Landed(hist[..], m[..], i * DOPPLER_BINS)
    modifies hist
    ensures Landed(hist[..], m[..], (i + 1) * DOPPLER_BINS)
  {
    for j := 0 to DOPPLER_BINS
      invariant Landed(hist[..], m[..], i * DOPPLER_BINS + j)
    {
      var c := i * DOPPLER_BINS + j;
      var k := i * HIST_BINS + m[c] / MAG_PER_BIN;
      assert c / DOPPLER_BINS == i && Slot(m[..], c) == k;
      hist[k] := hist[k] + 1;
    }
  }

  // ----- mode -----

  /** The first bin from bin 2 that holds the most, or 0 if none of them holds anything. */
  ghost predicate IsMode(bins: seq<nat>, k: nat)
    requires |bins| == HIST_BINS
  {
    if k == 0 then forall b :: 2 <= b < HIST_BINS ==> bins[b] == 0
    else
      && 2 <= k < HIST_BINS && bins[k] > 0
      && (forall b :: 2 <= b < k ==> bins[b] < bins[k])
      && (forall b :: k < b < HIST_BINS ==> bins[b] <= bins[k])
  }

  lemma ModeUnique(bins: seq<nat>, k: nat, l: nat)
    requires |bins| == HIST_BINS && IsMode(bins, k) && IsMode(bins, l)
    ensures k == l
  {
  }

  ghost function Bins(hist: seq<nat>, i: nat): (bins: seq<nat>)
    requires |hist| == HIST_SLOTS && i < RANGE_BINS
    ensures |bins| == HIST_BINS
  {
    hist[i * HIST_BINS..(i + 1) * HIST_BINS]
  }

  method FindMode(hist: array<nat>, i: nat) returns (k: nat)
    requires hist.Length == HIST_SLOTS && i < RANGE_BINS
    ensures IsMode(Bins(hist[..], i), k)
  {
    ghost var bins := Bins(hist[..], i);
    var maxVal: nat := 0;
    k := 0;
    for j := 2 to HIST_BINS
      invariant forall b :: 2 <= b < j ==> bins[b] <= maxVal
      invariant if k == 0 then maxVal == 0
                else 2 <= k < j && bins[k] == maxVal > 0 && forall b :: 2 <= b < k ==> bins[b] < maxVal
    {
      var v := hist[i * HIST_BINS + j];
      assert v == bins[j];
      if v > maxVal {
        maxVal := v;
        k := j;
      }
    }
  }

  lemma {:induction false} CountedSomewhere(row: seq<nat>, n: nat, j: nat)
    requires j < n <= |row|
    ensures CountIn(row, n, row[j] / MAG_PER_BIN) > 0
  {
    if j < n - 1 {
      CountedSomewhere(row, n - 1, j);
    }
  }

  lemma {:induction false} CountedNowhere(row: seq<nat>, n: nat, b: nat)
    requires n <= |row| && forall j :: 0 <= j < n ==> row[j] / MAG_PER_BIN != b
    ensures CountIn(row, n, b) == 0
  {
    if n > 0 {
      CountedNowhere(row, n - 1, b);
    }
  }

  /** The mode is 0 exactly when every magnitude of the row falls into the two ignored bins. */
  lemma ModeZeroIff(hist: seq<nat>, m: seq<nat>, i: nat, k: nat)
    requires |hist| == HIST_SLOTS && |m| == CELLS && i < RANGE_BINS && InRange(Row(m, i))
    requires Counted(hist, m, i) && IsMode(Bins(hist, i), k)
    ensures k == 0 <==> forall j :: 0 <= j < DOPPLER_BINS ==> Row(m, i)[j] < 2 * MAG_PER_BIN
  {
    var row, bins := Row(m, i), Bins(hist, i);
    assert forall b :: 0 <= b < HIST_BINS ==> bins[b] == hist[i * HIST_BINS + b] == CountIn(row, DOPPLER_BINS, b);
    if k == 0 {
      forall j | 0 <= j < DOPPLER_BINS
        ensures row[j] < 2 * MAG_PER_BIN
      {
        CountedSomewhere(row, DOPPLER_BINS, j);
        assert row[j] == m[i * DOPPLER_BINS + j];
      }
    } else if forall j :: 0 <= j < DOPPLER_BINS ==> row[j] < 2 * MAG_PER_BIN {
      CountedNowhere(row, DOPPLER_BINS, k);
      assert false;
    }
  }

  // ----- smoothing -----

  /** The rows averaged for row i: two on each side, mirrored past four rows at the ends. */
  function LeftTap(i: nat, j: nat): int {
    if i - j < 0 then i + 2 + j else i - j
  }

  function RightTap(i: nat, j: nat, n: nat): int {
    if i + j >= n then i - 2 - j else i + j
  }

  ghost function Taps(i: nat, n: nat): seq<int> {
    [i, LeftTap(i, 1), RightTap(i, 1, n), LeftTap(i, 2), RightTap(i, 2, n)]
  }

  /** With at least six rows the five taps are distinct rows of the map. */
  lemma TapsDistinct(i: nat, n: nat)
    requires 6 <= n && i < n
    ensures forall p :: 0 <= p < 5 ==> 0 <= Taps(i, n)[p] < n
    ensures forall p, q :: 0 <= p < q < 5 ==> Taps(i, n)[p] != Taps(i, n)[q]
  {
  }

  ghost function FiveMean(raw: seq<nat>, i: nat, n: nat): int
    requires 6 <= n <= |raw| && i < n
  {
    TapsDistinct(i, n);
    var t := Taps(i, n);
    (raw[t[0]] + raw[t[1]] + raw[t[2]] + raw[t[3]] + raw[t[4]]) / 5
  }

  /** A smoothed threshold lies between the smallest and the largest of the five it averages. */
  lemma FiveMeanBetween(raw: seq<nat>, i: nat, n: nat, lo: nat, hi: nat)
    requires 6 <= n <= |raw| && i < n
    requires forall p :: 0 <= p < 5 && 0 <= Taps(i, n)[p] < n ==> lo <= raw[Taps(i, n)[p]] <= hi
    ensures lo <= FiveMean(raw, i, n) <= hi
  {
    TapsDistinct(i, n);
    var t := Taps(i, n);
    assert forall p :: 0 <= p < 5 ==> lo <= raw[t[p]] <= hi;
    assert lo <= raw[t[0]] <= hi && lo <= raw[t[1]] <= hi && lo <= raw[t[2]] <= hi;
    assert lo <= raw[t[3]] <= hi && lo <= raw[t[4]] <= hi;
  }

  ghost function RawThreshold(mode: nat): nat {
    (mode + GUARD) * MAG_PER_BIN
  }

  /** The raw threshold lies 513 to 768 above every magnitude counted in the modal bin. */
  lemma RawAboveMode(mode: nat, mag: nat)
    requires mag / 256 == mode
    ensures mag + 513 <= RawThreshold(mode) <= mag + 768
  {
  }

  /** Across histogram and mode: with mode k > 0 the raw threshold of a row lies 513 to 768 above at least one of
      its magnitudes of 512 or more; no bin from 2 on counts more of the row than bin k, and no lower one as many. */
  lemma ThresholdAboveMode(hist: seq<nat>, m: seq<nat>, i: nat, k: nat) returns (j: nat)
    requires |hist| == HIST_SLOTS && |m| == CELLS && i < RANGE_BINS && InRange(Row(m, i))
    requires Counted(hist, m, i) && IsMode(Bins(hist, i), k) && k > 0
    ensures j < DOPPLER_BINS && Row(m, i)[j] >= 512
    ensures Row(m, i)[j] + 513 <= RawThreshold(k) <= Row(m, i)[j] + 768
    ensures forall b :: 2 <= b < 64 ==> CountIn(Row(m, i), 32, b) <= CountIn(Row(m, i), 32, k)
    ensures forall b :: 2 <= b < k ==> CountIn(Row(m, i), 32, b) < CountIn(Row(m, i), 32, k)
  {
    var row, bins := Row(m, i), Bins(hist, i);
    assert forall b :: 0 <= b < HIST_BINS ==> bins[b] == hist[i * HIST_BINS + b] == CountIn(row, DOPPLER_BINS, b);
    if forall j :: 0 <= j < DOPPLER_BINS ==> row[j] / MAG_PER_BIN != k {
      CountedNowhere(row, DOPPLER_BINS, k);
    }
    j :| 0 <= j < DOPPLER_BINS && row[j] / MAG_PER_BIN == k;
    RawAboveMode(k, row[j]);
  }

  /** The rows averaged for row i, written out: itself and two on either side; at the ends of the map three or
      four on the other side instead. */
  lemma FiveMeanIs(raw: seq<nat>, i: nat, n: nat)
    requires 6 <= n <= |raw| && i < n
    ensures 2 <= i < n - 2 ==> FiveMean(raw, i, n) == (raw[i - 2] + raw[i - 1] + raw[i] + raw[i + 1] + raw[i + 2]) / 5
    ensures FiveMean(raw, 0, n) == (raw[0] + raw[1] + raw[2] + raw[3] + raw[4]) / 5
    ensures FiveMean(raw, 1, n) == (raw[0] + raw[1] + raw[2] + raw[3] + raw[5]) / 5
    ensures FiveMean(raw, n - 2, n) == (raw[n - 6] + raw[n - 4] + raw[n - 3] + raw[n - 2] + raw[n - 1]) / 5
    ensures FiveMean(raw, n - 1, n) == (raw[n - 5] + raw[n - 4] + raw[n - 3] + raw[n - 2] + raw[n - 1]) / 5
  {
  }

  lemma FloorOfFifths(a: nat, b: nat, c: nat, d: nat, e: nat)
    ensures ((a as real / 5.0) + (b as real / 5.0) + (c as real / 5.0) + (d as real / 5.0) + (e as real / 5.0)).Floor
         == (a + b + c + d + e) / 5
  {
    var s := a + b + c + d + e;
    assert (a as real / 5.0) + (b as real / 5.0) + (c as real / 5.0) + (d as real / 5.0) + (e as real / 5.0)
        == s as real / 5.0;
    assert s as real == (s / 5) as real * 5.0 + (s % 5) as real;
  }

  /** threshBuff after both loops: the five-row means of the raw thresholds, then zeros. */
  method CalcThreshold(hist: array<nat>, maxIndex: array<nat>, thresh: array<nat>, n: nat)
    requires hist.Length == HIST_SLOTS && maxIndex.Length == thresh.Length == RANGE_BINS
    requires hist != maxIndex && hist != thresh && maxIndex != thresh
    requires 6 <= n <= RANGE_BINS
    modifies maxIndex, thresh
    ensures forall i :: 0 <= i < n ==> IsMode(Bins(hist[..], i), maxIndex[i])
    ensures forall i :: 0 <= i < n ==> thresh[i] == FiveMean(RawThresholds(maxIndex[..n]), i, n)
    ensures forall i :: n <= i < RANGE_BINS ==> thresh[i] == 0
    ensures maxIndex[n..] == old(maxIndex[n..])
  {
    for i := 0 to n
      invariant forall p :: 0 <= p < i ==> IsMode(Bins(hist[..], p), maxIndex[p])
      invariant forall p :: 0 <= p < i ==> thresh[p] == RawThreshold(maxIndex[p])
      invariant maxIndex[n..] == old(maxIndex[n..])
    {
      var mode := FindMode(hist, i);
      thresh[i] := (mode + GUARD) * MAG_PER_BIN;
      maxIndex[i] := mode;
    }
    Smooth(thresh, n, RawThresholds(maxIndex[..n]));
  }

  ghost function RawThresholds(modes: seq<nat>): (raw: seq<nat>)
    ensures |raw| == |modes|
  {
    seq(|modes|, i requires 0 <= i < |modes| => RawThreshold(modes[i]))
  }

  method Smooth(thresh: array<nat>, n: nat, ghost raw: seq<nat>)
    requires thresh.Length == RANGE_BINS && 6 <= n <= RANGE_BINS && raw == thresh[..n]
    modifies thresh
    ensures forall i :: 0 <= i < n ==> thresh[i] == FiveMean(raw, i, n)
    ensures forall i :: n <= i < RANGE_BINS ==> thresh[i] == 0
  {
    hide FiveMean;
    var mean := new nat[RANGE_BINS](_ => 0);
    for i := 0 to n
      invariant forall p :: 0 <= p < i ==> mean[p] == FiveMean(raw, p, n)
      invariant forall p :: i <= p < RANGE_BINS ==> mean[p] == 0
      invariant thresh[..n] == raw
    {
      var sum := TapSum(thresh, i, n, raw);
      mean[i] := sum;
    }
    for i := 0 to RANGE_BINS
      invariant forall p :: 0 <= p < i ==> thresh[p] == mean[p]
      modifies thresh
    {
      thresh[i] := mean[i];
    }
  }

  method TapSum(thresh: array<nat>, i: nat, n: nat, ghost raw: seq<nat>) returns (mean: nat)
    requires thresh.Length == RANGE_BINS && 6 <= n <= RANGE_BINS && i < n && thresh[..n] == raw
    ensures mean == FiveMean(raw, i, n)
  {
    TapsDistinct(i, n);
    ghost var t := Taps(i, n);
    assert t[1] == LeftTap(i, 1) && t[2] == RightTap(i, 1, n);
    assert t[3] == LeftTap(i, 2) && t[4] == RightTap(i, 2, n);
    var sum := 0.0;
    for j := 1 to 3
      invariant sum == (if j > 1 then (raw[t[1]] as real / 5.0) + (raw[t[2]] as real / 5.0) else 0.0)
                     + (if j > 2 then (raw[t[3]] as real / 5.0) + (raw[t[4]] as real / 5.0) else 0.0)
    {
      var left, right := LeftTap(i, j), RightTap(i, j, n);
      sum := sum + (thresh[left] as real / 5.0) + (thresh[right] as real / 5.0);
    }
    FloorOfFifths(raw[t[1]], raw[t[2]], raw[t[3]], raw[t[4]], raw[i]);
    mean := (sum + (thresh[i] as real / 5.0)).Floor;
  }
}
