// The unsigned value of a byte, bit by bit, and the byte of a value.
module Bytes {
  function Value(b: bv8): nat {
    (if b & 1 == 0 then 0 else 1) + (if b & 2 == 0 then 0 else 2) +
    (if b & 4 == 0 then 0 else 4) + (if b & 8 == 0 then 0 else 8) +
    (if b & 16 == 0 then 0 else 16) + (if b & 32 == 0 then 0 else 32) +
    (if b & 64 == 0 then 0 else 64) + (if b & 128 == 0 then 0 else 128)
  }

  lemma ValueOfNext(b: bv8)
    ensures Value(b + 1) == if b == 255 then 0 else Value(b) + 1
  {
  }

  lemma ValueRange(b: bv8)
    ensures Value(0) == 0 && Value(b) <= 255
    ensures Value(b) == 255 <==> b == 255
  {
  }

  lemma NextModulo(x: nat)
    ensures (x + 1) % 256 == if x % 256 == 255 then 0 else x % 256 + 1
  {
  }

  lemma CountedUp(b: bv8, x: nat)
    requires Value(b) == x % 256
    ensures Value(b + 1) == (x + 1) % 256
  {
    hide Value;
    ValueRange(b);
    ValueOfNext(b);
    NextModulo(x);
  }

  /** The byte reached from zero by x increments: x truncated to eight bits. */
  function OfNat(x: nat): (b: bv8)
    ensures Value(b) == x % 256
  {
    hide Value;
    ValueRange(0);
    if x == 0 then 0 else
      var b := OfNat(x - 1);
      CountedUp(b, x - 1);
      b + 1
  }

  lemma NextAdds(b: bv8)
    requires b != 0
    ensures Value(b) == Value(b - 1) + 1 && (b - 1) + 1 == b
  {
    hide Value;
    assert (b - 1) + 1 == b;
    ValueOfNext(b - 1);
  }

  lemma ReassociateNext(a: bv8, b: bv8)
    ensures a + b == (a + (b - 1)) + 1
  {
  }

  lemma PlusNothing(a: bv8)
    ensures Value(a + 0) == (Value(a) + Value(0)) % 256
  {
    hide Value;
    ValueRange(a);
    assert a + 0 == a;
  }

  lemma PlusNext(a: bv8, b: bv8, n: nat)
    requires b != 0 && Value(a + (b - 1)) == n % 256
    ensures Value(a + b) == (n + 1) % 256
  {
    hide Value;
    ReassociateNext(a, b);
    CountedUp(a + (b - 1), n);
  }

  /** Adding bytes adds their values modulo 256. */
  lemma {:induction false} ValueOfSum(a: bv8, b: bv8)
    ensures Value(a + b) == (Value(a) + Value(b)) % 256
    decreases Value(b)
  {
    hide Value;
    if b == 0 {
      PlusNothing(a);
    } else {
      NextAdds(b);
      ValueOfSum(a, b - 1);
      PlusNext(a, b, Value(a) + Value(b - 1));
    }
  }

  lemma {:induction false} ValueTells(a: bv8, b: bv8)
    requires Value(a) == Value(b)
    ensures a == b
    decreases Value(b)
  {
    hide Value;
    ValueRange(0);
    if a != 0 && b != 0 {
      NextAdds(a);
      NextAdds(b);
      ValueTells(a - 1, b - 1);
    } else if a != 0 {
      NextAdds(a);
    } else if b != 0 {
      NextAdds(b);
    }
  }
}
