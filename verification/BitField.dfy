// Reading and replacing a run of bits of a word, bit by bit.
module BitField {
  import opened Arith
  import opened Bits32

  /** Bits lo to lo + n - 1 of w: (w >> lo) & ((1 << n) - 1). */
  function Field(w: nat, lo: nat, n: nat): nat
    decreases lo, n
  {
    if lo > 0 then Field(w / 2, lo - 1, n)
    else if n == 0 then 0
    else Field(w / 2, 0, n - 1) * 2 + w % 2
  }

  /** w with bits lo to lo + n - 1 replaced by those of v: (w & ~(mask << lo)) | (v << lo). */
  function Put(w: nat, lo: nat, n: nat, v: nat): nat
    decreases lo, n
  {
    if lo > 0 then Put(w / 2, lo - 1, n, v) * 2 + w % 2
    else if n == 0 then w
    else Put(w / 2, 0, n - 1, v / 2) * 2 + v % 2
  }

  /** Put takes the bits of v inside the field and those of w outside. */
  lemma {:induction false} PutBit(w: nat, lo: nat, n: nat, v: nat, k: nat)
    ensures Bit(Put(w, lo, n, v), k) <==> if lo <= k < lo + n then Bit(v, k - lo) else Bit(w, k)
    decreases lo, n
  {
    if lo > 0 {
      Doubled(Put(w / 2, lo - 1, n, v), w % 2);
      if k > 0 {
        PutBit(w / 2, lo - 1, n, v, k - 1);
      }
    } else if n > 0 {
      Doubled(Put(w / 2, 0, n - 1, v / 2), v % 2);
      if k > 0 {
        PutBit(w / 2, 0, n - 1, v / 2, k - 1);
      }
    }
  }

  lemma {:induction false} FieldOfPut(w: nat, lo: nat, n: nat, v: nat)
    requires v < Pow2(n)
    ensures Field(Put(w, lo, n, v), lo, n) == v
    decreases lo, n
  {
    if lo > 0 {
      Doubled(Put(w / 2, lo - 1, n, v), w % 2);
      FieldOfPut(w / 2, lo - 1, n, v);
    } else if n > 0 {
      Doubled(Put(w / 2, 0, n - 1, v / 2), v % 2);
      FieldOfPut(w / 2, 0, n - 1, v / 2);
    }
  }

  lemma {:induction false} LowerFieldOfPut(w: nat, lo: nat, n: nat, v: nat, a: nat, b: nat)
    requires a + b <= lo
    ensures Field(Put(w, lo, n, v), a, b) == Field(w, a, b)
    decreases a, b
  {
    if lo > 0 {
      Doubled(Put(w / 2, lo - 1, n, v), w % 2);
    }
    if a > 0 {
      LowerFieldOfPut(w / 2, lo - 1, n, v, a - 1, b);
    } else if b > 0 {
      LowerFieldOfPut(w / 2, lo - 1, n, v, 0, b - 1);
    }
  }

  lemma {:induction false} UpperFieldOfPut(w: nat, lo: nat, n: nat, v: nat, a: nat, b: nat)
    requires lo + n <= a
    ensures Field(Put(w, lo, n, v), a, b) == Field(w, a, b)
    decreases lo, n
  {
    if lo > 0 {
      Doubled(Put(w / 2, lo - 1, n, v), w % 2);
      UpperFieldOfPut(w / 2, lo - 1, n, v, a - 1, b);
    } else if n > 0 {
      Doubled(Put(w / 2, 0, n - 1, v / 2), v % 2);
      UpperFieldOfPut(w / 2, 0, n - 1, v / 2, a - 1, b);
    }
  }

  /** A field outside the one replaced keeps its value. */
  lemma OtherFieldOfPut(w: nat, lo: nat, n: nat, v: nat, a: nat, b: nat)
    requires a + b <= lo || lo + n <= a
    ensures Field(Put(w, lo, n, v), a, b) == Field(w, a, b)
  {
    if a + b <= lo {
      LowerFieldOfPut(w, lo, n, v, a, b);
    } else {
      UpperFieldOfPut(w, lo, n, v, a, b);
    }
  }

  lemma {:induction false} PutFits(w: nat, lo: nat, n: nat, v: nat, size: nat)
    requires w < Pow2(size) && v < Pow2(n) && lo + n <= size
    ensures Put(w, lo, n, v) < Pow2(size)
    decreases lo, n
  {
    if lo > 0 {
      PutFits(w / 2, lo - 1, n, v, size - 1);
    } else if n > 0 {
      PutFits(w / 2, 0, n - 1, v / 2, size - 1);
    }
  }

  lemma {:induction false} ShiftedField(w: nat, j: nat, n: nat)
    ensures Field(Shifted(w, j), 0, n) == Field(w, j, n)
    decreases j
  {
    if j > 0 {
      ShiftedFieldStep(w, j - 1, n);
      ShiftedField(w / 2, j - 1, n);
    }
  }

  lemma {:induction false} ShiftedFieldStep(w: nat, j: nat, n: nat)
    ensures Shifted(w, j + 1) == Shifted(w / 2, j)
  {
    if j > 0 {
      ShiftedFieldStep(w, j - 1, n);
    }
  }

  lemma {:induction false} FieldBelow(w: nat, n: nat)
    requires w < Pow2(n)
    ensures Field(w, 0, n) == w
  {
    if n > 0 {
      FieldBelow(w / 2, n - 1);
    }
  }

  lemma {:induction false} FieldSplit(w: nat, lo: nat, n: nat)
    ensures Field(w, lo, n + 1) == Field(w, lo, 1) + 2 * Field(w, lo + 1, n)
    decreases lo
  {
    if lo > 0 {
      FieldSplit(w / 2, lo - 1, n);
    }
  }

  lemma {:induction false} EmptyField(w: nat, lo: nat)
    ensures Field(w, lo, 0) == 0
  {
    if lo > 0 {
      EmptyField(w / 2, lo - 1);
    }
  }

  ghost function LowBits(v: nat, n: nat): nat {
    if n == 0 then 0 else LowBits(v / 2, n - 1) * 2 + v % 2
  }

  lemma {:induction false} LowBitsAreRemainder(v: nat, n: nat)
    ensures Pow2(n) > 0 && LowBits(v, n) == v % Pow2(n)
  {
    Pow2Positive(n);
    if n > 0 {
      LowBitsAreRemainder(v / 2, n - 1);
      Pow2Positive(n - 1);
      ModSplit(v, 2, Pow2(n - 1));
    }
  }

  lemma {:induction false} FieldIsLowBits(w: nat, lo: nat, n: nat, v: nat)
    ensures Field(Put(w, lo, n, v), lo, n) == LowBits(v, n)
    decreases lo, n
  {
    if lo > 0 {
      Doubled(Put(w / 2, lo - 1, n, v), w % 2);
      FieldIsLowBits(w / 2, lo - 1, n, v);
    } else if n > 0 {
      Doubled(Put(w / 2, 0, n - 1, v / 2), v % 2);
      FieldIsLowBits(w / 2, 0, n - 1, v / 2);
    }
  }

  /** Without a bound on v, the field keeps its low bits. */
  lemma FieldOfPutLow(w: nat, lo: nat, n: nat, v: nat)
    ensures Pow2(n) > 0 && Field(Put(w, lo, n, v), lo, n) == v % Pow2(n)
  {
    hide Field, Put, LowBits, Pow2;
    FieldIsLowBits(w, lo, n, v);
    LowBitsAreRemainder(v, n);
  }

  lemma {:induction false} LowField(w: nat, n: nat)
    ensures Field(w, 0, n) == LowBits(w, n)
  {
    if n > 0 {
      LowField(w / 2, n - 1);
    }
  }

  /** A field is the word divided by two to its place, modulo two to its width. */
  lemma {:induction false} FieldIs(w: nat, lo: nat, n: nat)
    ensures Pow2(lo) > 0 && Pow2(n) > 0 && Field(w, lo, n) == w / Pow2(lo) % Pow2(n)
    decreases lo
  {
    Pow2Positive(lo);
    Pow2Positive(n);
    if lo > 0 {
      Pow2Positive(lo - 1);
      FieldIs(w / 2, lo - 1, n);
      DivDiv(w, 2, Pow2(lo - 1));
    } else {
      LowField(w, n);
      LowBitsAreRemainder(w, n);
    }
  }
}
