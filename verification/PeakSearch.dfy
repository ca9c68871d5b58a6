// Two-dimensional peak search into a packed bitmap.
module PeakSearch {
  import opened RadarMap
  import opened Bits32

  const START_RANGE := 4    // first range bin searched
  const START_DOPPLER := 1  // Doppler bin 0 is static clutter and never reported
  const BITMAP_WORDS := 512
  const WORDS_PER_DOPPLER := 16

  // ----- what a peak is -----

  ghost predicate DopplerPeak(m: seq<nat>, thresh: seq<nat>, r: nat, d: nat)
    requires |m| == CELLS && |thresh| == RANGE_BINS && r < RANGE_BINS && d < DOPPLER_BINS
  {
    && Cell(m, r, d) >= thresh[r]
    && Cell(m, r, d) > Cell(m, r, (d + DOPPLER_BINS - 1) % DOPPLER_BINS)
    && Cell(m, r, d) > Cell(m, r, (d + 1) % DOPPLER_BINS)
  }

  ghost predicate RangePeak(m: seq<nat>, r: nat, d: nat)
    requires |m| == CELLS && r < RANGE_BINS && d < DOPPLER_BINS
  {
    && (r > 0 ==> Cell(m, r, d) > Cell(m, r - 1, d))
    && (r < RANGE_BINS - 1 ==> Cell(m, r, d) > Cell(m, r + 1, d))
    && (r == 0 || r == RANGE_BINS - 1 ==> Cell(m, r, d) > 0)
  }

  /** At or above the row's threshold, a strict cyclic maximum in Doppler, and a strict
      maximum in range with zeros beyond the map. */
  ghost predicate IsPeak(m: seq<nat>, thresh: seq<nat>, r: nat, d: nat) {
    && |m| == CELLS && |thresh| == RANGE_BINS
    && START_RANGE <= r < RANGE_BINS && START_DOPPLER <= d < DOPPLER_BINS
    && DopplerPeak(m, thresh, r, d)
    && RangePeak(m, r, d)
  }

  ghost function PeakSet(m: seq<nat>, thresh: seq<nat>): set<(nat, nat)> {
    set r: nat, d: nat | r < RANGE_BINS && d < DOPPLER_BINS && IsPeak(m, thresh, r, d) :: (r, d)
  }

  // ----- the bitmap: one bit per cell, Doppler-major -----

  ghost predicate BitAt(bitmap: seq<nat>, r: nat, d: nat)
    requires |bitmap| == BITMAP_WORDS && r < RANGE_BINS && d < DOPPLER_BINS
  {
    Bit(bitmap[d * WORDS_PER_DOPPLER + r / WIDTH], r % WIDTH)
  }

  method Transpose(m: array<nat>, t: array<nat>, ranges: int, dopplers: int) returns (ok: bool)
    requires m.Length == CELLS && t.Length == CELLS && m != t
    requires ranges <= RANGE_BINS && dopplers <= DOPPLER_BINS
    modifies t
    ensures ok <==> ranges > 0 && dopplers > 0
    ensures ok ==> forall r, d :: 0 <= r < ranges && 0 <= d < dopplers ==>
                     t[d * RANGE_BINS + r] == Cell(m[..], r, d)
    ensures !ok ==> t[..] == old(t[..])
    ensures ranges == RANGE_BINS && dopplers == DOPPLER_BINS ==> IsTranspose(t[..], m[..])
  {
    if ranges <= 0 || dopplers <= 0 {
      return false;
    }
    for i := 0 to ranges
      invariant forall r, d :: 0 <= r < i && 0 <= d < dopplers ==>
                  t[d * RANGE_BINS + r] == m[r * DOPPLER_BINS + d]
    {
      for j := 0 to dopplers
        invariant forall r, d :: 0 <= r < i && 0 <= d < dopplers ==>
                    t[d * RANGE_BINS + r] == m[r * DOPPLER_BINS + d]
        invariant forall d :: 0 <= d < j ==> t[d * RANGE_BINS + i] == m[i * DOPPLER_BINS + d]
      {
        t[j * RANGE_BINS + i] := m[i * DOPPLER_BINS + j];
      }
    }
    return true;
  }

  ghost predicate Marked(m: seq<nat>, thresh: seq<nat>, k: nat)
    requires |m| == CELLS && |thresh| == RANGE_BINS && k < CELLS
  {
    START_RANGE <= k / DOPPLER_BINS && DopplerPeak(m, thresh, k / DOPPLER_BINS, k % DOPPLER_BINS)
  }

  method DopplerTest(m: array<nat>, thresh: array<nat>, i: nat, j: nat) returns (peak: bool)
    requires m.Length == CELLS && thresh.Length == RANGE_BINS && i < RANGE_BINS && j < DOPPLER_BINS
    ensures peak <==> DopplerPeak(m[..], thresh[..], i, j)
  {
    var row := i * DOPPLER_BINS;
    var mag := m[row + j];
    if mag < thresh[i] {
      return false;
    }
    var left, right;
    if j == 0 {
      left := m[row + DOPPLER_BINS - 1];
      right := m[row + j + 1];
    } else if j == DOPPLER_BINS - 1 {
      left := m[row + j - 1];
      right := m[row];
    } else {
      left := m[row + j - 1];
      right := m[row + j + 1];
    }
    return mag > left && mag > right;
  }

  /** First pass: marks the Doppler peaks of the searched rows. */
  method MarkDopplerPeaks(m: array<nat>, thresh: array<nat>, flags: array<bool>)
    requires m.Length == CELLS && thresh.Length == RANGE_BINS && flags.Length == CELLS
    modifies flags
    ensures forall k :: 0 <= k < CELLS ==> flags[k] == Marked(m[..], thresh[..], k)
  {
    for k := 0 to CELLS
      invariant forall j :: 0 <= j < k ==> !flags[j]
    {
      flags[k] := false;
    }
    for i := START_RANGE to RANGE_BINS
      invariant forall k :: 0 <= k < i * DOPPLER_BINS ==> flags[k] == Marked(m[..], thresh[..], k)
      invariant forall k :: i * DOPPLER_BINS <= k < CELLS ==> !flags[k]
    {
      var row := i * DOPPLER_BINS;
      for j := 0 to DOPPLER_BINS
        invariant forall k :: 0 <= k < row + j ==> flags[k] == Marked(m[..], thresh[..], k)
        invariant forall k :: row + j <= k < CELLS ==> !flags[k]
      {
        var peak := DopplerTest(m, thresh, i, j);
        assert (row + j) / DOPPLER_BINS == i && (row + j) % DOPPLER_BINS == j;
        if peak {
          flags[row + j] := true;
        }
      }
    }
  }

  method RangeTest(t: array<nat>, i: nat, j: nat, ghost m: seq<nat>) returns (peak: bool)
    requires IsTranspose(t[..], m) && i < DOPPLER_BINS && j < RANGE_BINS
    ensures peak <==> RangePeak(m, j, i)
  {
    var row := i * RANGE_BINS;
    assert t[..][row + j] == Cell(m, j, i);
    var mag := t[row + j];
    var left, right;
    if j == 0 {
      left := 0;
      right := t[row + j + 1];
      assert t[..][row + (j + 1)] == Cell(m, j + 1, i);
    } else if j == RANGE_BINS - 1 {
      left := t[row + j - 1];
      right := 0;
      assert t[..][row + (j - 1)] == Cell(m, j - 1, i);
    } else {
      left := t[row + j - 1];
      right := t[row + j + 1];
      assert t[..][row + (j - 1)] == Cell(m, j - 1, i);
      assert t[..][row + (j + 1)] == Cell(m, j + 1, i);
    }
    return mag > left && mag > right;
  }

  /** The cells the second pass has visited when it stands at Doppler bin i and range bin j. */
  ghost predicate Visited(r: nat, d: nat, i: nat, j: nat) {
    d < i || (d == i && r < j)
  }

  ghost predicate Holds(bitmap: seq<nat>, found: set<(nat, nat)>) {
    && |bitmap| == BITMAP_WORDS
    && (forall w :: 0 <= w < BITMAP_WORDS ==> bitmap[w] < Pow2(WIDTH))
    && (forall r: nat, d: nat :: r < RANGE_BINS && d < DOPPLER_BINS ==>
          (BitAt(bitmap, r, d) <==> (r, d) in found))
  }

  ghost predicate Found(m: seq<nat>, thresh: seq<nat>, found: set<(nat, nat)>, i: nat, j: nat) {
    forall r: nat, d: nat :: (r, d) in found <==> IsPeak(m, thresh, r, d) && Visited(r, d, i, j)
  }

  /** Setting the bit of a cell adds that cell, and no other, to the set the bitmap holds. */
  lemma RecordBit(bitmap: seq<nat>, found: set<(nat, nat)>, j: nat, i: nat, w: nat)
    requires Holds(bitmap, found)
    requires j < RANGE_BINS && i < DOPPLER_BINS && w == i * WORDS_PER_DOPPLER + j / WIDTH
    ensures Holds(bitmap[w := WithBit(bitmap[w], j % WIDTH)], found + {(j, i)})
  {
    hide Bit, WithBit, Pow2;
    var bitmap' := bitmap[w := WithBit(bitmap[w], j % WIDTH)];
    forall r: nat, d: nat | r < RANGE_BINS && d < DOPPLER_BINS
      ensures BitAt(bitmap', r, d) <==> (r, d) in found + {(j, i)}
    {
      assert BitAt(bitmap, r, d) <==> (r, d) in found;
      if d * WORDS_PER_DOPPLER + r / WIDTH == w {
        assert d == i && r / WIDTH == j / WIDTH;
        WithBitSets(bitmap[w], j % WIDTH, r % WIDTH);
      }
    }
    WithBitFits(bitmap[w], j % WIDTH, WIDTH);
  }

  lemma FoundNext(m: seq<nat>, thresh: seq<nat>, found: set<(nat, nat)>, i: nat, j: nat)
    requires Found(m, thresh, found, i, j)
    ensures (j, i) !in found
    ensures Found(m, thresh, if IsPeak(m, thresh, j, i) then found + {(j, i)} else found, i, j + 1)
  {
    hide IsPeak;
  }

  lemma NextColumn(m: seq<nat>, thresh: seq<nat>, found: set<(nat, nat)>, i: nat)
    requires Found(m, thresh, found, i, RANGE_BINS)
    ensures Found(m, thresh, found, i + 1, START_RANGE)
  {
    hide DopplerPeak, RangePeak;
  }

  lemma EmptyBitmap(bitmap: seq<nat>)
    requires |bitmap| == BITMAP_WORDS && forall w :: 0 <= w < BITMAP_WORDS ==> bitmap[w] == 0
    ensures Holds(bitmap, {})
  {
    WordLimit();
    forall r: nat, d: nat | r < RANGE_BINS && d < DOPPLER_BINS
      ensures !BitAt(bitmap, r, d)
    {
      ZeroHasNoBits(r % WIDTH);
    }
  }

  lemma NothingFound(m: seq<nat>, thresh: seq<nat>)
    ensures Found(m, thresh, {}, START_DOPPLER, START_RANGE)
  {
    hide DopplerPeak, RangePeak;
  }

  lemma AllFound(m: seq<nat>, thresh: seq<nat>, bitmap: seq<nat>, found: set<(nat, nat)>)
    requires Found(m, thresh, found, DOPPLER_BINS, START_RANGE)
    requires Holds(bitmap, found)
    ensures found == PeakSet(m, thresh)
    ensures forall r: nat, d: nat :: r < RANGE_BINS && d < DOPPLER_BINS ==>
              (BitAt(bitmap, r, d) <==> IsPeak(m, thresh, r, d))
    ensures forall w :: 0 <= w < BITMAP_WORDS ==> bitmap[w] < 0x1_0000_0000
  {
    hide DopplerPeak, RangePeak;
    WordLimit();
    assert forall r: nat, d: nat :: (r, d) in found ==> (r, d) in PeakSet(m, thresh);
    forall p | p in found
      ensures p in PeakSet(m, thresh)
    {
      assert p == (p.0, p.1);
    }
  }

  /** The whole search: the bitmap holds exactly the peaks and the counter their number. */
  method FindPeaks(m: array<nat>, t: array<nat>, thresh: array<nat>, bitmap: array<nat>, flags: array<bool>)
    returns (peakNum: nat)
    requires m.Length == CELLS && thresh.Length == RANGE_BINS
    requires bitmap.Length == BITMAP_WORDS && flags.Length == CELLS
    requires bitmap != m && bitmap != t && bitmap != thresh
    requires IsTranspose(t[..], m[..])
    modifies bitmap, flags
    ensures forall r: nat, d: nat :: r < RANGE_BINS && d < DOPPLER_BINS ==>
              (BitAt(bitmap[..], r, d) <==> IsPeak(m[..], thresh[..], r, d))
    ensures forall w :: 0 <= w < BITMAP_WORDS ==> bitmap[w] < 0x1_0000_0000
    ensures peakNum == |PeakSet(m[..], thresh[..])|
  {
    hide DopplerPeak, RangePeak, Holds, Found, WithBit, PeakSet, Pow2;
    ghost var ms, ts := m[..], thresh[..];
    peakNum := 0;
    for k := 0 to BITMAP_WORDS
      invariant forall w :: 0 <= w < k ==> bitmap[w] == 0
    {
      bitmap[k] := 0;
    }
    MarkDopplerPeaks(m, thresh, flags);
    ghost var found: set<(nat, nat)> := {};
    EmptyBitmap(bitmap[..]);
    NothingFound(ms, ts);
    for i := START_DOPPLER to DOPPLER_BINS
      invariant Holds(bitmap[..], found) && Found(ms, ts, found, i, START_RANGE) && peakNum == |found|
      modifies bitmap
    {
      for j := START_RANGE to RANGE_BINS
        invariant Holds(bitmap[..], found) && Found(ms, ts, found, i, j) && peakNum == |found|
        modifies bitmap
      {
        FoundNext(ms, ts, found, i, j);
        var k := j * DOPPLER_BINS + i;
        assert k / DOPPLER_BINS == j && k % DOPPLER_BINS == i;
        if !flags[k] {
          continue;
        }
        var peak := RangeTest(t, i, j, ms);
        if peak {
          var w := i * WORDS_PER_DOPPLER + j / WIDTH;
          RecordBit(bitmap[..], found, j, i, w);
          bitmap[w] := WithBit(bitmap[w], j % WIDTH);
          found := found + {(j, i)};
          peakNum := peakNum + 1;
        }
      }
      NextColumn(ms, ts, found, i);
    }
    AllFound(ms, ts, bitmap[..], found);
  }

  /** No two cells next to each other, in range or cyclically in Doppler, are both peaks. */
  lemma PeaksAreIsolated(m: seq<nat>, thresh: seq<nat>, r: nat, d: nat)
    requires IsPeak(m, thresh, r, d)
    ensures !IsPeak(m, thresh, r, (d + 1) % DOPPLER_BINS)
    ensures !IsPeak(m, thresh, r + 1, d)
    ensures r > 0 ==> !IsPeak(m, thresh, r - 1, d)
    ensures !IsPeak(m, thresh, r, (d + DOPPLER_BINS - 1) % DOPPLER_BINS)
  {
    assert ((d + 1) % DOPPLER_BINS + DOPPLER_BINS - 1) % DOPPLER_BINS == d;
    assert ((d + DOPPLER_BINS - 1) % DOPPLER_BINS + 1) % DOPPLER_BINS == d;
  }
}
