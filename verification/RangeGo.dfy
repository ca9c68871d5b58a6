// Greatest-of range noise floor: the larger of the two side means, one side only at the edges.
module RangeGo {
  import opened Arith
  import opened RadarMap
  import opened Tallies
  import opened RangeCfar
  import opened RangeCfarTrim

  /** What a loop over rows a to b - 1 leaves behind. */
  ghost function Scan(c: seq<nat>, a: int, b: int, trim: bool): State
    requires a < b ==> 0 <= a && b <= |c|
    decreases b - a
  {
    if a >= b then State(Tally(0, 0), MIN_START) else Take(Scan(c, a, b - 1, trim), c[b - 1], trim)
  }

  lemma {:induction false} ScanTally(c: seq<nat>, a: int, b: int, trim: bool)
    requires a < b ==> 0 <= a && b <= |c|
    ensures Scan(c, a, b, trim).tally.sum == Over(c, a, b).sum
    ensures Scan(c, a, b, trim).tally.count == Over(c, a, b).count
    decreases b - a
  {
    if a < b {
      ScanTally(c, a, b - 1, trim);
      Unfold(c, a, b);
    }
  }

  /** The greater trimmed mean; a side without nonzero cells has no say. */
  ghost function Greater(r: State, l: State, trim: bool): int {
    if l.tally.count < 1 then TrimmedMean(r, trim)
    else if r.tally.count < 1 then TrimmedMean(l, trim)
    else if TrimmedMean(r, trim) > TrimmedMean(l, trim) then TrimmedMean(r, trim)
    else TrimmedMean(l, trim)
  }

  ghost function GreatestFloor(c: seq<nat>, idx: nat, w: nat, g: nat, trim: bool): int
    requires idx < |c| && |c| > 2 * (w + g)
  {
    if idx < w + g then TrimmedMean(Scan(c, idx + g + 1, idx + g + 1 + w, trim), trim)
    else if idx >= |c| - w - g then TrimmedMean(Scan(c, idx - g - w, idx - g, trim), trim)
    else Greater(Scan(c, idx + g + 1, idx + g + 1 + w, trim), Scan(c, idx - g - w, idx - g, trim), trim)
  }

  lemma ScanNone(c: seq<nat>, a: int, trim: bool)
    ensures Scan(c, a, a, trim) == State(Tally(0, 0), MIN_START)
  {
  }

  method Begin(ghost c: seq<nat>, ghost a: int, ghost trim: bool) returns (sum: nat, count: nat, min: nat)
    ensures Tracks(sum, count, min, Scan(c, a, a, trim))
  {
    ScanNone(c, a, trim);
    sum, count, min := 0, 0, MIN_START;
  }

  /** Row b joins the rows a to b - 1 already seen. */
  method ScanRow(m: array<nat>, d: nat, trim: bool, sum: nat, count: nat, min: nat,
                 ghost c: seq<nat>, ghost a: nat, b: nat)
    returns (sum': nat, count': nat, min': nat)
    requires IsColumn(c, m[..], d) && a <= b < |c| && Tracks(sum, count, min, Scan(c, a, b, trim))
    ensures Tracks(sum', count', min', Scan(c, a, b + 1, trim))
  {
    hide Take, Tracks, IsColumn;
    sum', count', min' := TapMin(m, d, b, trim, sum, count, min, c, Scan(c, a, b, trim));
  }

  method Choose(sumR: nat, countR: nat, minR: nat, sumL: nat, countL: nat, minL: nat, trim: bool,
                ghost r: State, ghost l: State)
    returns (floor: int)
    requires Tracks(sumR, countR, minR, r) && Tracks(sumL, countL, minL, l)
    ensures floor == Greater(r, l, trim)
  {
    hide TrimmedMean;
    if countL < 1 {
      floor := Finish(sumR, countR, minR, trim, r);
    } else if countR < 1 {
      floor := Finish(sumL, countL, minL, trim, l);
    } else {
      var meanR := Finish(sumR, countR, minR, trim, r);
      var meanL := Finish(sumL, countL, minL, trim, l);
      floor := if meanR > meanL then meanR else meanL;
    }
  }

  method GreatestOf(m: array<nat>, d: nat, idx: nat, rows: nat, w: nat, g: nat, trim: bool) returns (floor: int)
    requires d < DOPPLER_BINS && rows * DOPPLER_BINS <= m.Length && idx < rows && rows > 2 * (w + g)
    ensures floor == GreatestFloor(Column(m[..], d, rows), idx, w, g, trim)
  {
    hide Tracks, TrimmedMean, Scan, Greater;
    ghost var c := Column(m[..], d, rows);
    var front, rear := idx + g + 1, idx - g - w;
    var sumR, countR, minR := Begin(c, front, trim);
    var sumL, countL, minL := Begin(c, rear, trim);
    if idx < w + g {
      for i := 0 to w
        invariant Tracks(sumR, countR, minR, Scan(c, front, front + i, trim))
      {
        sumR, countR, minR := ScanRow(m, d, trim, sumR, countR, minR, c, front, front + i);
      }
      floor := Finish(sumR, countR, minR, trim, Scan(c, front, front + w, trim));
    } else if idx >= rows - w - g {
      for i := 0 to w
        invariant Tracks(sumL, countL, minL, Scan(c, rear, rear + i, trim))
      {
        sumL, countL, minL := ScanRow(m, d, trim, sumL, countL, minL, c, rear, rear + i);
      }
      floor := Finish(sumL, countL, minL, trim, Scan(c, rear, rear + w, trim));
    } else {
      for i := 0 to w
        invariant Tracks(sumR, countR, minR, Scan(c, front, front + i, trim))
        invariant Tracks(sumL, countL, minL, Scan(c, rear, rear + i, trim))
      {
        sumR, countR, minR := ScanRow(m, d, trim, sumR, countR, minR, c, front, front + i);
        sumL, countL, minL := ScanRow(m, d, trim, sumL, countL, minL, c, rear, rear + i);
      }
      floor := Choose(sumR, countR, minR, sumL, countL, minL, trim,
                      Scan(c, front, front + w, trim), Scan(c, rear, rear + w, trim));
    }
  }

  lemma {:induction false} OverSmall(c: seq<nat>, a: int, b: int)
    requires Small(c) && a <= b && (a < b ==> 0 <= a && b <= |c|)
    ensures Over(c, a, b).sum <= Over(c, a, b).count * MIN_START
    decreases b - a
  {
    if a < b {
      OverSmall(c, a, b - 1);
      Unfold(c, a, b);
    }
  }

  lemma PlainMean(t: Tally)
    requires t.sum <= t.count * MIN_START && 0 < t.count <= 65536
    ensures MeanOf(t) == t.sum / t.count
  {
    assert t.sum < U32;
    assert t.sum < 65536 * t.count;
    DivLess(t.sum, t.count, 65536);
  }

  lemma GreaterOfMeans(r: Tally, l: Tally)
    requires r.sum <= r.count * MIN_START && r.count <= 32768
    requires l.sum <= l.count * MIN_START && l.count <= 32768
    ensures l.count < 1 ==> MeanOf(r) == MeanOf(l.Plus(r))
    ensures r.count < 1 ==> MeanOf(l) == MeanOf(l.Plus(r))
    ensures l.count >= 1 && r.count >= 1 ==> MeanOf(r) >= MeanOf(l.Plus(r)) || MeanOf(l) >= MeanOf(l.Plus(r))
  {
    hide MeanOf;
    if l.count < 1 {
      PlusNothing(r);
      assert l == Tally(0, 0);
    } else if r.count < 1 {
      PlusNothing(l);
      assert r == Tally(0, 0);
    } else {
      PlainMean(r);
      PlainMean(l);
      PlainMean(l.Plus(r));
      MeanOfUnion(l.sum, l.count, r.sum, r.count);
    }
  }

  lemma ScanIs(c: seq<nat>, a: int, b: int)
    requires a < b ==> 0 <= a && b <= |c|
    ensures Scan(c, a, b, false).tally == Over(c, a, b)
    ensures TrimmedMean(Scan(c, a, b, false), false) == MeanOf(Over(c, a, b))
  {
    ScanTally(c, a, b, false);
    match Scan(c, a, b, false).tally case Tally(_, _) => match Over(c, a, b) case Tally(_, _) =>
  }

  /** What one side leaves behind, untrimmed, and its bounds. */
  lemma SideIs(c: seq<nat>, a: int, b: int, w: nat)
    requires Small(c) && b == a + w && (a < b ==> 0 <= a && b <= |c|) && w <= 32768
    ensures var s := Scan(c, a, b, false);
            && s.tally == Over(c, a, b) && TrimmedMean(s, false) == MeanOf(s.tally)
            && s.tally.sum <= s.tally.count * MIN_START && s.tally.count <= 32768
  {
    hide Over, Scan, MeanOf, Small;
    ScanIs(c, a, b);
    OverSmall(c, a, b);
    CountBound(c, a, b);
  }

  lemma GreaterNotBelow(r: State, l: State)
    requires TrimmedMean(r, false) == MeanOf(r.tally) && TrimmedMean(l, false) == MeanOf(l.tally)
    requires r.tally.sum <= r.tally.count * MIN_START && r.tally.count <= 32768
    requires l.tally.sum <= l.tally.count * MIN_START && l.tally.count <= 32768
    ensures Greater(r, l, false) >= MeanOf(l.tally.Plus(r.tally))
  {
    hide MeanOf, TrimmedMean;
    GreaterOfMeans(r.tally, l.tally);
  }

  /** Away from the edges and untrimmed, the greatest-of floor is never below the cell average. */
  lemma GreatestNotBelowAverage(c: seq<nat>, idx: nat, w: nat, g: nat)
    requires |c| > 2 * (w + g) && w + g <= idx < |c| - w - g && Small(c) && w <= 32768
    ensures GreatestFloor(c, idx, w, g, false) >= MeanOf(Window(c, idx, w, g))
  {
    hide Over, MeanOf, Scan, TrimmedMean, Small, Window, Greater, BothTaps;
    var front: int, near: int, far: int := idx + g + 1, idx - g, idx - g - w;
    SideIs(c, front, front + w, w);
    SideIs(c, far, near, w);
    BothTapsAll(c, idx, w, g);
    BothTapsAre(c, idx, w, g);
    GreaterNotBelow(Scan(c, front, front + w, false), Scan(c, far, near, false));
  }

  // ----- what the floor is made of -----

  /** least is the smallest nonzero cell of rows a to b - 1; 65535 when there is none. */
  ghost predicate LeastIn(c: seq<nat>, a: int, b: int, s: State)
    requires a < b ==> 0 <= a && b <= |c|
  {
    && 0 < s.least <= MIN_START
    && (forall r :: a <= r < b ==> c[r] == 0 || s.least <= c[r])
    && (s.tally.count == 0 || exists r :: a <= r < b && c[r] == s.least)
    && (s.tally.count == 0 ==> s.least == MIN_START && forall r :: a <= r < b ==> c[r] == 0)
  }

  lemma {:induction false} ScanLeast(c: seq<nat>, a: int, b: int)
    requires Small(c) && a <= b && (a < b ==> 0 <= a && b <= |c|)
    ensures LeastIn(c, a, b, Scan(c, a, b, true))
    decreases b - a
  {
    if a < b {
      ScanLeast(c, a, b - 1);
    }
  }

  lemma {:induction false} ScanLeastOk(c: seq<nat>, a: int, b: int)
    requires Small(c) && a <= b && (a < b ==> 0 <= a && b <= |c|)
    ensures LeastOk(Scan(c, a, b, true), b - a)
    decreases b - a
  {
    if a < b {
      hide LeastOk, Take;
      ScanLeastOk(c, a, b - 1);
      TakeKeepsLeast(Scan(c, a, b - 1, true), c[b - 1], b - 1 - a);
    } else {
      assert Scan(c, a, b, true) == State(Tally(0, 0), MIN_START);
    }
  }

  /** For 16-bit cells the trimmed mean of a side with more than two nonzero cells is the mean of these without
      one smallest, v; nothing wraps. */
  lemma SideTrimmed(c: seq<nat>, a: int, b: int, v: nat)
    requires Small(c) && 0 <= a <= b <= |c| && b - a <= 32768
    requires v > 0 && (exists r :: a <= r < b && c[r] == v) && forall r :: a <= r < b ==> c[r] == 0 || v <= c[r]
    ensures var t := Over(c, a, b);
            && v <= t.sum
            && TrimmedMean(Scan(c, a, b, true), true) == if t.count > 2 then (t.sum - v) / (t.count - 1) else MeanOf(t)
  {
    hide Over, Scan, Mean;
    var s, t := Scan(c, a, b, true), Over(c, a, b);
    ScanTally(c, a, b, true);
    ScanLeast(c, a, b);
    ScanLeastOk(c, a, b);
    assert s.least == v;
    assert s.tally == t by {
      match s.tally case Tally(_, _) => match t case Tally(_, _) =>
    }
    MulOrder(v, 1, t.count);
    if t.count > 2 {
      SmallModulus(t.sum - v);
      SmallMean(t.sum - v, t.count - 1);
    }
  }

  /** Which rows the floor reads: w past the guard on the inner side next to an end of the map, w on either side
      elsewhere. Untrimmed it is the mean over them, the greater where both sides have nonzero cells. */
  lemma GreatestIs(c: seq<nat>, idx: nat, w: nat, g: nat)
    requires idx < |c| && |c| > 2 * (w + g)
    ensures idx < w + g ==> GreatestFloor(c, idx, w, g, false) == MeanOf(Over(c, idx + g + 1, idx + g + 1 + w))
    ensures idx >= |c| - w - g && idx >= w + g ==>
              GreatestFloor(c, idx, w, g, false) == MeanOf(Over(c, idx - g - w, idx - g))
    ensures w + g <= idx < |c| - w - g ==>
              var l, r := Over(c, idx - g - w, idx - g), Over(c, idx + g + 1, idx + g + 1 + w);
              var floor := GreatestFloor(c, idx, w, g, false);
              && (l.count == 0 ==> floor == MeanOf(r)) && (r.count == 0 ==> floor == MeanOf(l) || l.count == 0)
              && (l.count > 0 && r.count > 0 ==>
                    floor >= MeanOf(l) && floor >= MeanOf(r) && (floor == MeanOf(l) || floor == MeanOf(r)))
  {
    hide Over, Scan, MeanOf, TrimmedMean;
    var near: int, far: int, front: int := idx - g, idx - g - w, idx + g + 1;
    if idx < |c| - w - g {
      ScanIs(c, front, front + w);
    }
    if idx >= w + g {
      ScanIs(c, far, near);
    }
  }
}
