// Noise floor of a cell from its range neighbours: cell averaging, in its two versions.
module RangeCfar {
  import opened RadarMap
  import opened Tallies

  /** The column of Doppler bin d. */
  ghost function Column(m: seq<nat>, d: nat, rows: nat): (c: seq<nat>)
    requires d < DOPPLER_BINS && rows * DOPPLER_BINS <= |m|
    ensures |c| == rows && forall r :: 0 <= r < rows ==> c[r] == m[r * DOPPLER_BINS + d]
  {
    seq(rows, r requires 0 <= r < rows => m[r * DOPPLER_BINS + d])
  }

  // ----- the window both versions are meant to average -----

  /** How many of the 2w window rows lie before idx: w, unless one side runs out of rows
      beyond the guard and the other side makes up for it. */
  ghost function LeftRows(idx: nat, rows: nat, w: nat, g: nat): (l: nat)
    requires idx < rows && rows > 2 * (w + g)
    ensures l <= 2 * w
    ensures l > 0 ==> idx - g - l >= 0
    ensures l < 2 * w ==> idx + g + 1 + (2 * w - l) <= rows
  {
    var before := if idx > g then idx - g else 0;
    var after := if rows - 1 - idx > g then rows - 1 - idx - g else 0;
    if before < w then before else if after < w then 2 * w - after else w
  }

  /** The 2w rows nearest the guard zone, balanced as LeftRows says. */
  ghost function Window(c: seq<nat>, idx: nat, w: nat, g: nat): Tally
    requires idx < |c| && |c| > 2 * (w + g)
  {
    var l := LeftRows(idx, |c|, w, g);
    Over(c, idx - g - l, idx - g).Plus(Over(c, idx + g + 1, idx + g + 1 + (2 * w - l)))
  }

  ghost predicate IsColumn(c: seq<nat>, m: seq<nat>, d: nat) {
    && d < DOPPLER_BINS && |c| * DOPPLER_BINS <= |m|
    && forall r :: 0 <= r < |c| ==> c[r] == m[r * DOPPLER_BINS + d]
  }

  /** data_sum and i_temp hold the tally of the cells seen, the sum modulo 2^32. */
  ghost predicate Holds(sum: nat, count: nat, t: Tally) {
    sum == t.sum % U32 && count == t.count
  }

  ghost function Min(a: int, b: int): int {
    if a < b then a else b
  }

  ghost function Max(a: int, b: int): int {
    if a < b then b else a
  }

  /** data_sum and i_temp after one more cell: zero cells leave both alone. */
  method Tap(m: array<nat>, d: nat, r: nat, sum: nat, count: nat, ghost c: seq<nat>, ghost t: Tally)
    returns (sum': nat, count': nat)
    requires IsColumn(c, m[..], d) && r < |c| && Holds(sum, count, t)
    ensures Holds(sum', count', t.Plus(Of(c[r])))
  {
    sum', count' := sum, count;
    var v := m[r * DOPPLER_BINS + d];
    if v != 0 {
      sum' := (sum + v) % U32;
      count' := count + 1;
    }
  }

  // ----- cell averaging with explicit edge branches -----

  /** The tally of the front edge after i taps: first the rows beyond the right window,
      then the rows there are on the left, then the right window. */
  ghost function FrontTaps(c: seq<nat>, idx: nat, w: nat, g: nat, i: nat): Tally
    requires |c| > 2 * (w + g) && g < idx < w + g && i <= 2 * w
  {
    var k := g + w - idx;
    var far := idx + g + w + 1;
    Over(c, far, far + Min(i, k))
    .Plus(Over(c, 0, Max(0, Min(i, w) - k)))
    .Plus(Over(c, idx + g + 1, idx + g + 1 + Max(0, i - w)))
  }

  lemma FrontTapsStep(c: seq<nat>, idx: nat, w: nat, g: nat, i: nat)
    requires |c| > 2 * (w + g) && g < idx < w + g && i < 2 * w
    ensures FrontTaps(c, idx, w, g, i + 1) == FrontTaps(c, idx, w, g, i).Plus(Of(c[
              if i < g + w - idx then idx + g + w + i + 1
              else if i < w then idx - g - w + i
              else idx + g - w + i + 1]))
  {
    hide Over;
    var far := idx + g + w + 1;
    if i < g + w - idx {
      Unfold(c, far, far + i + 1);
    } else if i < w {
      Unfold(c, 0, i + 1 - (g + w - idx));
    } else {
      Unfold(c, idx + g + 1, idx + g + 1 + (i + 1 - w));
    }
  }

  lemma FrontTapsAll(c: seq<nat>, idx: nat, w: nat, g: nat)
    requires |c| > 2 * (w + g) && g < idx < w + g
    ensures FrontTaps(c, idx, w, g, 2 * w) == Window(c, idx, w, g)
  {
    var far := idx + g + w + 1;
    Split(c, idx + g + 1, far, far + (g + w - idx));
  }

  method FrontEdge(m: array<nat>, d: nat, ghost c: seq<nat>, idx: nat, w: nat, g: nat) returns (sum: nat, count: nat)
    requires IsColumn(c, m[..], d) && |c| > 2 * (w + g)
    requires idx < w + g
    ensures Holds(sum, count, Window(c, idx, w, g))
  {
    hide Holds, IsColumn;
    sum, count := Start();
    if idx < g + 1 {
      for i := 0 to 2 * w
        invariant Holds(sum, count, Over(c, idx + g + 1, idx + g + 1 + i))
      {
        sum, count := Tap(m, d, idx + g + i + 1, sum, count, c, Over(c, idx + g + 1, idx + g + 1 + i));
      }
    } else {
      for i := 0 to 2 * w
        invariant Holds(sum, count, FrontTaps(c, idx, w, g, i))
      {
        FrontTapsStep(c, idx, w, g, i);
        ghost var t := FrontTaps(c, idx, w, g, i);
        if i < g + w - idx {
          sum, count := Tap(m, d, idx + g + w + i + 1, sum, count, c, t);
        } else if i < w {
          sum, count := Tap(m, d, idx - g - w + i, sum, count, c, t);
        } else {
          sum, count := Tap(m, d, idx + g - w + i + 1, sum, count, c, t);
        }
      }
      FrontTapsAll(c, idx, w, g);
    }
  }

  method Start() returns (sum: nat, count: nat)
    ensures Holds(sum, count, Tally(0, 0))
  {
    sum, count := 0, 0;
  }

  /** The tally of the rear edge after i taps: the rows there are on the right, then the left. */
  ghost function RearTaps(c: seq<nat>, idx: nat, w: nat, g: nat, i: nat): Tally
    requires |c| > 2 * (w + g) && |c| - w - g <= idx < |c| - g - 1 && i <= 2 * w
  {
    var k := |c| - idx - g - 1;
    Over(c, idx + g + 1, idx + g + 1 + Min(i, k)).Plus(Over(c, idx - g - 2 * w + k, idx - g - 2 * w + Max(i, k)))
  }

  lemma RearTapsStep(c: seq<nat>, idx: nat, w: nat, g: nat, i: nat)
    requires |c| > 2 * (w + g) && |c| - w - g <= idx < |c| - g - 1 && i < 2 * w
    ensures RearTaps(c, idx, w, g, i + 1) == RearTaps(c, idx, w, g, i).Plus(Of(c[
              if i < |c| - idx - g - 1 then idx + g + i + 1 else idx - g - 2 * w + i]))
  {
    hide Over;
    if i < |c| - idx - g - 1 {
      Unfold(c, idx + g + 1, idx + g + 1 + i + 1);
    } else {
      Unfold(c, idx - g - 2 * w + (|c| - idx - g - 1), idx - g - 2 * w + i + 1);
    }
  }

  method RearEdge(m: array<nat>, d: nat, ghost c: seq<nat>, idx: nat, rows: nat, w: nat, g: nat)
    returns (sum: nat, count: nat)
    requires IsColumn(c, m[..], d) && rows == |c| && rows > 2 * (w + g)
    requires rows - w - g <= idx < rows
    ensures Holds(sum, count, Window(c, idx, w, g))
  {
    hide Holds, IsColumn;
    sum, count := Start();
    if idx >= rows - g - 1 {
      for i := 0 to 2 * w
        invariant Holds(sum, count, Over(c, idx - g - 2 * w, idx - g - 2 * w + i))
      {
        sum, count := Tap(m, d, idx - g - 2 * w + i, sum, count, c, Over(c, idx - g - 2 * w, idx - g - 2 * w + i));
      }
    } else {
      for i := 0 to 2 * w
        invariant Holds(sum, count, RearTaps(c, idx, w, g, i))
      {
        RearTapsStep(c, idx, w, g, i);
        ghost var t := RearTaps(c, idx, w, g, i);
        if i < rows - idx - g - 1 {
          sum, count := Tap(m, d, idx + g + i + 1, sum, count, c, t);
        } else {
          sum, count := Tap(m, d, idx - g - 2 * w + i, sum, count, c, t);
        }
      }
    }
  }

  /** The tally of both sides after i taps on each. */
  ghost function BothTaps(c: seq<nat>, idx: nat, w: nat, g: nat, i: nat): Tally
    requires w + g <= idx < |c| - w - g && i <= w
  {
    Over(c, idx - g - w, idx - g - w + i).Plus(Over(c, idx + g + 1, idx + g + 1 + i))
  }

  lemma BothTapsNone(c: seq<nat>, idx: nat, w: nat, g: nat)
    requires w + g <= idx < |c| - w - g
    ensures BothTaps(c, idx, w, g, 0) == Tally(0, 0)
  {
    hide Over;
    var a, b := idx - g - w, idx + g + 1;
    Nothing(c, a);
    Nothing(c, b);
    assert a + 0 == a && b + 0 == b;
  }

  lemma BothTapsStep(c: seq<nat>, idx: nat, w: nat, g: nat, i: nat)
    requires w + g <= idx < |c| - w - g && i < w
    ensures BothTaps(c, idx, w, g, i + 1)
         == BothTaps(c, idx, w, g, i).Plus(Of(c[idx - g - w + i])).Plus(Of(c[idx + g + i + 1]))
  {
    hide Over;
    var a, b := idx - g - w, idx + g + 1;
    Unfold(c, a, a + i + 1);
    Unfold(c, b, b + i + 1);
    assert a + (i + 1) == a + i + 1 && b + (i + 1) == b + i + 1;
  }

  lemma BothTapsAre(c: seq<nat>, idx: nat, w: nat, g: nat)
    requires w + g <= idx < |c| - w - g
    ensures BothTaps(c, idx, w, g, w) == Over(c, idx - g - w, idx - g).Plus(Over(c, idx + g + 1, idx + g + 1 + w))
  {
    hide Over;
    assert idx - g - w + w == idx - g;
  }

  lemma BothTapsAll(c: seq<nat>, idx: nat, w: nat, g: nat)
    requires |c| > 2 * (w + g) && w + g <= idx < |c| - w - g
    ensures BothTaps(c, idx, w, g, w) == Window(c, idx, w, g)
  {
    hide Over, BothTaps;
    BothTapsAre(c, idx, w, g);
    assert LeftRows(idx, |c|, w, g) == w;
    assert idx + g + 1 + (2 * w - w) == idx + g + 1 + w;
  }

  method BothSides(m: array<nat>, d: nat, ghost c: seq<nat>, idx: nat, w: nat, g: nat) returns (sum: nat, count: nat)
    requires IsColumn(c, m[..], d) && |c| > 2 * (w + g)
    requires w + g <= idx < |c| - w - g
    ensures Holds(sum, count, Window(c, idx, w, g))
  {
    hide Holds, IsColumn, BothTaps, Window;
    sum, count := Start();
    BothTapsNone(c, idx, w, g);
    for i := 0 to w
      invariant Holds(sum, count, BothTaps(c, idx, w, g, i))
    {
      ghost var t := BothTaps(c, idx, w, g, i);
      sum, count := Tap(m, d, idx - g - w + i, sum, count, c, t);
      sum, count := Tap(m, d, idx + g + i + 1, sum, count, c, t.Plus(Of(c[idx - g - w + i])));
      BothTapsStep(c, idx, w, g, i);
    }
    BothTapsAll(c, idx, w, g);
  }

  /** The first cell-averaging estimator: the mean of the nonzero cells of the window. */
  method CellAverage(m: array<nat>, d: nat, idx: nat, rows: nat, w: nat, g: nat) returns (floor: int)
    requires d < DOPPLER_BINS && rows * DOPPLER_BINS <= m.Length
    requires idx < rows && rows > 2 * (w + g)
    ensures floor == MeanOf(Window(Column(m[..], d, rows), idx, w, g))
  {
    ghost var c := Column(m[..], d, rows);
    var sum, count;
    if idx < w + g {
      sum, count := FrontEdge(m, d, c, idx, w, g);
    } else if idx < rows && idx >= rows - w - g {
      sum, count := RearEdge(m, d, c, idx, rows, w, g);
    } else {
      sum, count := BothSides(m, d, c, idx, w, g);
    }
    floor := Mean(sum, count);
  }

  /** The window written out. Past the guard zone w rows on either side; next to an end of the map the rows there
      are on the short side, and as many more on the other as are missing. */
  lemma WindowIs(c: seq<nat>, idx: nat, w: nat, g: nat)
    requires idx < |c| && |c| > 2 * (w + g) && w > 0
    ensures var t, n := Window(c, idx, w, g), |c|;
            && (idx <= g ==> t == Over(c, idx + g + 1, idx + g + 1 + 2 * w))
            && (g < idx < w + g ==> t == Over(c, 0, idx - g).Plus(Over(c, idx + g + 1, 2 * g + 2 * w + 1)))
            && (w + g <= idx < n - w - g ==>
                  t == Over(c, idx - g - w, idx - g).Plus(Over(c, idx + g + 1, idx + g + 1 + w)))
            && (n - w - g <= idx < n - g - 1 ==>
                  t == Over(c, n - 2 * g - 2 * w - 1, idx - g).Plus(Over(c, idx + g + 1, n)))
            && (idx >= n - g - 1 ==> t == Over(c, idx - g - 2 * w, idx - g))
  {
    hide Over;
    var before: int, after: int := idx - g, idx + g + 1;
    var l := LeftRows(idx, |c|, w, g);
    if idx <= g {
      assert l == 0;
      Nothing(c, before);
      PlusNothing(Over(c, after, after + 2 * w));
    } else if idx < w + g {
      assert l == idx - g;
    } else if idx < |c| - w - g {
      assert l == w && after + (2 * w - w) == after + w;
    } else if idx < |c| - g - 1 {
      assert l == 2 * w - (|c| - 1 - idx - g);
    } else {
      assert l == 2 * w;
      Nothing(c, after);
      PlusNothing(Over(c, before - 2 * w, before));
    }
  }
}
