// Single bits of an unsigned 32-bit word, kept as its value: x >> 1 is x / 2 and x & 1 is x % 2.
module Bits32 {
  import Arith

  const WIDTH := 32

  predicate Bit(w: nat, k: nat)
    decreases k
  {
    if k == 0 then w % 2 == 1 else Bit(w / 2, k - 1)
  }

  /** w | (1 << k). */
  function WithBit(w: nat, k: nat): nat
    decreases k
  {
    if k == 0 then w / 2 * 2 + 1 else WithBit(w / 2, k - 1) * 2 + w % 2
  }

  lemma Doubled(x: nat, b: nat)
    requires b < 2
    ensures (x * 2 + b) / 2 == x && (x * 2 + b) % 2 == b
  {
  }

  /** Or-ing in 1 << k sets bit k and leaves every other bit alone. */
  lemma {:induction false} WithBitSets(w: nat, k: nat, m: nat)
    ensures Bit(WithBit(w, k), m) <==> m == k || Bit(w, m)
    decreases k
  {
    if k == 0 {
      Doubled(w / 2, 1);
    } else {
      Doubled(WithBit(w / 2, k - 1), w % 2);
      if m > 0 {
        WithBitSets(w / 2, k - 1, m - 1);
      }
    }
  }

  ghost function Pow2(n: nat): nat {
    if n == 0 then 1 else 2 * Pow2(n - 1)
  }

  lemma {:induction false} WithBitFits(w: nat, k: nat, n: nat)
    requires w < Pow2(n) && k < n
    ensures WithBit(w, k) < Pow2(n)
    decreases k
  {
    if k > 0 {
      WithBitFits(w / 2, k - 1, n - 1);
    }
  }

  lemma WordLimit()
    ensures Pow2(WIDTH) == 0x1_0000_0000
  {
    assert Pow2(8) == 0x100;
    assert Pow2(16) == 0x1_0000;
    assert Pow2(24) == 0x100_0000;
  }

  lemma {:induction false} ZeroHasNoBits(k: nat)
    ensures !Bit(0, k)
  {
    if k > 0 {
      ZeroHasNoBits(k - 1);
    }
  }

  // ----- reading bits by repeated shifting -----

  function Shifted(w: nat, j: nat): nat {
    if j == 0 then w else Shifted(w, j - 1) / 2
  }

  lemma {:induction false} ShiftedBit(w: nat, j: nat, k: nat)
    ensures Bit(Shifted(w, j), k) <==> Bit(w, j + k)
    decreases j
  {
    if j > 0 {
      ShiftedBit(w, j - 1, k + 1);
    }
  }

  lemma {:induction false} ShiftedGone(w: nat, j: nat)
    requires w < 0x1_0000_0000 && j >= WIDTH
    ensures Shifted(w, j) == 0
  {
    if j > WIDTH {
      ShiftedGone(w, j - 1);
    } else {
      WordLimit();
      ShiftedBelow(w, WIDTH, WIDTH);
    }
  }

  lemma {:induction false} ShiftedBelow(w: nat, n: nat, j: nat)
    requires w < Pow2(n) && j <= n
    ensures Shifted(w, j) < Pow2(n - j)
  {
    if j > 0 {
      ShiftedBelow(w, n, j - 1);
    }
  }

  // ----- bits and shifts by division -----

  lemma {:induction false} Pow2Positive(n: nat)
    ensures Pow2(n) > 0
  {
    if n > 0 {
      Pow2Positive(n - 1);
    }
  }

  lemma {:induction false} BitIs(w: nat, k: nat)
    ensures Pow2(k) > 0 && (Bit(w, k) <==> w / Pow2(k) % 2 == 1)
    decreases k
  {
    Pow2Positive(k);
    if k > 0 {
      BitIs(w / 2, k - 1);
      Arith.DivDiv(w, 2, Pow2(k - 1));
    }
  }

  lemma {:induction false} ShiftedIs(w: nat, j: nat)
    ensures Pow2(j) > 0 && Shifted(w, j) == w / Pow2(j)
    decreases j
  {
    Pow2Positive(j);
    if j > 0 {
      ShiftedIs(w, j - 1);
      Arith.DivDiv(w, Pow2(j - 1), 2);
    }
  }
}
