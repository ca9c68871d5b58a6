// The range-Doppler map: sizes, cells, and the transposed copy the peak search reads.
module RadarMap {
  const RANGE_BINS := 512
  const DOPPLER_BINS := 32
  const CELLS := 16384

  /** The magnitude at a range bin and Doppler bin of a row-major map. */
  function Cell(map_: seq<nat>, range: nat, doppler: nat): nat
    requires |map_| == CELLS && range < RANGE_BINS && doppler < DOPPLER_BINS
  {
    map_[range * DOPPLER_BINS + doppler]
  }

  /** The cells of range bin i. */
  ghost function Row(map_: seq<nat>, i: nat): (row: seq<nat>)
    requires |map_| == CELLS && i < RANGE_BINS
    ensures |row| == DOPPLER_BINS
    ensures forall j :: 0 <= j < DOPPLER_BINS ==> row[j] == Cell(map_, i, j)
  {
    map_[i * DOPPLER_BINS..(i + 1) * DOPPLER_BINS]
  }

  ghost predicate IsTranspose(t: seq<nat>, map_: seq<nat>) {
    && |t| == |map_| == CELLS
    && forall r, d :: 0 <= r < RANGE_BINS && 0 <= d < DOPPLER_BINS ==>
         t[d * RANGE_BINS + r] == Cell(map_, r, d)
  }
}
