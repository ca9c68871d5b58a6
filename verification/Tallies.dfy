// Sums and counts of the nonzero cells in a stretch of a sequence, and the mean they give.
module Tallies {
  import Arith

  const U32 := 0x1_0000_0000

  /** Total of the values seen and how many of them were nonzero. */
  datatype Tally = Tally(sum: nat, count: nat) {
    function Plus(t: Tally): Tally {
      Tally(sum + t.sum, count + t.count)
    }
  }

  lemma PlusNothing(t: Tally)
    ensures t.Plus(Tally(0, 0)) == t == Tally(0, 0).Plus(t)
  {
    match t case Tally(_, _) =>
  }

  function Of(v: nat): Tally {
    Tally(v, if v != 0 then 1 else 0)
  }

  ghost function Over(c: seq<nat>, a: int, b: int): Tally
    requires a < b ==> 0 <= a && b <= |c|
    decreases b - a
  {
    if a >= b then Tally(0, 0) else Over(c, a, b - 1).Plus(Of(c[b - 1]))
  }

  lemma Nothing(c: seq<nat>, a: int)
    ensures Over(c, a, a) == Tally(0, 0)
  {
  }

  lemma Unfold(c: seq<nat>, a: int, b: int)
    requires 0 <= a < b <= |c|
    ensures Over(c, a, b).sum == Over(c, a, b - 1).sum + c[b - 1]
    ensures Over(c, a, b).count == Over(c, a, b - 1).count + Of(c[b - 1]).count
  {
  }

  lemma {:induction false} Split(c: seq<nat>, a: int, x: int, b: int)
    requires a <= x <= b && (a < b ==> 0 <= a && b <= |c|)
    ensures Over(c, a, b).sum == Over(c, a, x).sum + Over(c, x, b).sum
    ensures Over(c, a, b).count == Over(c, a, x).count + Over(c, x, b).count
    decreases b - x
  {
    if x < b {
      Split(c, a, x, b - 1);
      Unfold(c, a, b);
      Unfold(c, x, b);
    }
  }

  lemma Front(c: seq<nat>, a: int, b: int)
    requires 0 <= a < b <= |c|
    ensures Over(c, a, b).sum == c[a] + Over(c, a + 1, b).sum
    ensures Over(c, a, b).count == Of(c[a]).count + Over(c, a + 1, b).count
  {
    Split(c, a, a + 1, b);
  }

  /** A 32-bit result read as a signed one. */
  function AsInt32(x: nat): int
    requires x < U32
  {
    if x < U32 / 2 then x else x - U32
  }

  /** The mean of the nonzero values, from a 32-bit sum; zero when there are none. */
  function Mean(sum32: nat, count: nat): int
    requires sum32 < U32
  {
    if count >= 1 then AsInt32(sum32 / count) else 0
  }

  ghost function MeanOf(t: Tally): int {
    Mean(t.sum % U32, t.count)
  }

  lemma {:induction false} CountBound(c: seq<nat>, a: int, b: int)
    requires a <= b && (a < b ==> 0 <= a && b <= |c|)
    ensures Over(c, a, b).count <= b - a
    ensures Over(c, a, b).count <= Over(c, a, b).sum
    decreases b - a
  {
    if a < b {
      CountBound(c, a, b - 1);
      Unfold(c, a, b);
    }
  }

  /** The positions of the nonzero values. */
  ghost function Nonzero(c: seq<nat>, a: nat, b: nat): set<nat>
    requires b <= |c|
  {
    set i: nat | a <= i < b && c[i] != 0
  }

  lemma NonzeroMore(c: seq<nat>, a: nat, b: nat)
    requires a <= b < |c|
    ensures Nonzero(c, a, b + 1) == if c[b] != 0 then Nonzero(c, a, b) + {b} else Nonzero(c, a, b)
    ensures b !in Nonzero(c, a, b)
  {
  }

  /** The count is the number of nonzero values. */
  lemma {:induction false} CountIsNonzero(c: seq<nat>, a: nat, b: nat)
    requires a <= b <= |c|
    ensures Over(c, a, b).count == |Nonzero(c, a, b)|
  {
    hide Over, Nonzero;
    if a < b {
      CountIsNonzero(c, a, b - 1);
      NonzeroMore(c, a, b - 1);
      Unfold(c, a, b);
    } else {
      NonzeroNone(c, a);
      Nothing(c, a);
    }
  }

  lemma NonzeroNone(c: seq<nat>, a: nat)
    requires a <= |c|
    ensures Nonzero(c, a, a) == {}
  {
  }

  /** The mean of a sum below 2^31 is the plain quotient, and zero of no values. */
  lemma MeanIsQuotient(t: Tally)
    requires t.sum < 0x8000_0000
    ensures MeanOf(t) == if t.count > 0 then t.sum / t.count else 0
  {
    if t.count > 0 {
      Arith.QuotientAtMost(t.sum, t.count);
    }
  }
}
