// One byte of the auto-link CRC, as functions on bit-vectors.
module Crc16 {
  function Low(c: bv16): bv8 {
    (c & 0xFF) as bv8
  }

  function High(c: bv16): bv8 {
    (c >> 8) as bv8
  }

  function Spread(t: bv8): bv8 {
    t ^ (t << 4)
  }

  function Fold(u: bv8): bv16 {
    ((u as bv16) << 8) ^ ((u as bv16) << 3) ^ ((u as bv16) >> 4)
  }

  /** One byte of the CRC, by the firmware's shift-and-nibble trick. */
  function NibbleStep(crc: bv16, b: bv8): bv16 {
    (crc >> 8) ^ Fold(Spread(b ^ Low(crc)))
  }

  // ----- the nibble trick is eight bit steps -----

  /** One bit of the reflected CRC-16 with polynomial 0x8408 (RFC 1662, Appendix C.2). */
  ghost function BitStep(crc: bv16): bv16 {
    if crc & 1 == 1 then (crc >> 1) ^ 0x8408 else crc >> 1
  }

  ghost function EightBitSteps(c: bv16): bv16 {
    BitStep(BitStep(BitStep(BitStep(BitStep(BitStep(BitStep(BitStep(c))))))))
  }

  ghost function FoldedStep(c: bv16): bv16 {
    (c >> 8) ^ Fold(Spread(Low(c)))
  }

  /** What four steps feed back for their nibble. */
  ghost function FedNibble(n: bv16): bv16 {
    (n << 12) ^ (n << 7) ^ n
  }

  /** Four bit steps at once: nothing fed back comes out again. */
  ghost function FourFolded(c: bv16): bv16 {
    (c >> 4) ^ ((c & 0xF) << 12) ^ ((c & 0xF) << 7) ^ (c & 0xF)
  }

  ghost function Fed(bit: bv16): bv16 {
    (bit << 15) ^ (bit << 10) ^ (bit << 3)
  }

  ghost function OneFolded(c: bv16): bv16 {
    (c >> 1) ^ Fed(c & 1)
  }

  ghost function TwoFolded(c: bv16): bv16 {
    (c >> 2) ^ ((c & 3) << 14) ^ ((c & 3) << 9) ^ ((c & 3) << 2)
  }

  lemma FedBit(c: bv16)
    ensures c & 1 == 0 || c & 1 == 1
    ensures Fed(1) == 0x8408 && Fed(0) == 0
  {
  }

  lemma ZeroXor(c: bv16)
    ensures c ^ 0 == c
  {
  }

  lemma BitStepFolded(c: bv16)
    ensures BitStep(c) == OneFolded(c)
  {
    hide Fed;
    FedBit(c);
    ZeroXor(c >> 1);
  }

  lemma OneTwice(c: bv16)
    ensures OneFolded(OneFolded(c)) == TwoFolded(c)
  {
  }

  lemma TwoTwice(c: bv16)
    ensures TwoFolded(TwoFolded(c)) == FourFolded(c)
  {
  }

  lemma TwoBitStepsFolded(c: bv16)
    ensures BitStep(BitStep(c)) == TwoFolded(c)
  {
    hide BitStep, OneFolded, TwoFolded;
    BitStepFolded(c);
    BitStepFolded(OneFolded(c));
    OneTwice(c);
  }

  lemma FourBitStepsFolded(c: bv16)
    ensures BitStep(BitStep(BitStep(BitStep(c)))) == FourFolded(c)
  {
    hide BitStep, TwoFolded, FourFolded;
    TwoBitStepsFolded(c);
    TwoBitStepsFolded(TwoFolded(c));
    TwoTwice(c);
  }

  ghost function Nibble(c: bv16): bv16 {
    c & 0xF
  }

  ghost function Down(c: bv16): bv16 {
    c >> 4
  }

  ghost function Xor(a: bv16, b: bv16): bv16 {
    a ^ b
  }

  lemma FourFoldedIs(c: bv16)
    ensures FourFolded(c) == Xor(Down(c), FedNibble(Nibble(c)))
  {
  }

  lemma NextNibble(c: bv16)
    ensures Nibble(FourFolded(c)) == Xor(Nibble(c), Nibble(Down(c)))
    ensures Down(FourFolded(c)) == Xor(c >> 8, Down(FedNibble(Nibble(c))))
  {
  }

  lemma NibblesFolded(c: bv16)
    ensures Xor(Down(FedNibble(Nibble(c))), FedNibble(Xor(Nibble(c), Nibble(Down(c))))) == Fold(Spread(Low(c)))
  {
  }

  lemma XorGroups(a: bv16, b: bv16, c: bv16)
    ensures Xor(Xor(a, b), c) == Xor(a, Xor(b, c))
  {
  }

  lemma FoldedStepIs(c: bv16)
    ensures FoldedStep(c) == Xor(c >> 8, Fold(Spread(Low(c))))
  {
  }

  lemma FourTwice(c: bv16)
    ensures FourFolded(FourFolded(c)) == FoldedStep(c)
  {
    hide FourFolded, FedNibble, FoldedStep, Fold, Spread, Low, Nibble, Down, Xor;
    var d := FourFolded(c);
    NextNibble(c);
    NibblesFolded(c);
    FourFoldedIs(d);
    FoldedStepIs(c);
    XorGroups(c >> 8, Down(FedNibble(Nibble(c))), FedNibble(Nibble(d)));
  }

  lemma EightBitStepsFolded(c: bv16)
    ensures EightBitSteps(c) == FoldedStep(c)
  {
    hide BitStep, FourFolded, FoldedStep;
    FourBitStepsFolded(c);
    FourBitStepsFolded(FourFolded(c));
    FourTwice(c);
  }

  lemma LowOfMixed(crc: bv16, b: bv8)
    ensures Low(crc ^ (b as bv16)) == b ^ Low(crc)
  {
  }

  lemma HighOfMixed(crc: bv16, b: bv8)
    ensures (crc ^ (b as bv16)) >> 8 == crc >> 8
  {
  }

  lemma NibbleStepFolded(crc: bv16, b: bv8)
    ensures NibbleStep(crc, b) == FoldedStep(crc ^ (b as bv16))
  {
    hide Fold, Spread, Low;
    LowOfMixed(crc, b);
    HighOfMixed(crc, b);
  }

  /** The nibble trick advances the CRC by eight reflected bit steps. */
  lemma NibbleStepIsEightBitSteps(crc: bv16, b: bv8)
    ensures NibbleStep(crc, b) == EightBitSteps(crc ^ (b as bv16))
  {
    NibbleStepFolded(crc, b);
    EightBitStepsFolded(crc ^ (b as bv16));
  }

  // ----- a step can be undone: what makes errors visible -----

  ghost function Skew(u: bv8): bv8 {
    u ^ (u >> 5)
  }

  ghost function Mixed(r: bv16): bv8 {
    Spread(Skew(High(r)))
  }

  ghost function Rest(r: bv16): bv16 {
    r ^ Fold(Skew(High(r)))
  }

  ghost function ByteBefore(r: bv16, c: bv16): bv8 {
    Mixed(r) ^ Low(c)
  }

  ghost function StateBefore(r: bv16, b: bv8): bv16 {
    (Rest(r) << 8) | ((Mixed(r) ^ b) as bv16)
  }

  lemma SkewSkew(u: bv8)
    ensures Skew(Skew(u)) == u
  {
  }

  lemma SpreadSpread(u: bv8)
    ensures Spread(Spread(u)) == u
  {
  }

  lemma XorXor(b: bv8, x: bv8)
    ensures (b ^ x) ^ x == b
    ensures (b ^ x) ^ b == x
  {
  }

  lemma WordXorXor(c: bv16, x: bv16)
    ensures (c ^ x) ^ x == c
  {
  }

  lemma Rebuild(c: bv16)
    ensures ((c >> 8) << 8) | (Low(c) as bv16) == c
  {
  }

  lemma HighOfFolded(c: bv16, u: bv8)
    ensures High((c >> 8) ^ Fold(u)) == Skew(u)
  {
  }

  lemma MixedOfStep(c: bv16, b: bv8)
    ensures Mixed(NibbleStep(c, b)) == b ^ Low(c)
  {
    HighOfFolded(c, Spread(b ^ Low(c)));
    SkewSkew(Spread(b ^ Low(c)));
    SpreadSpread(b ^ Low(c));
  }

  lemma RestOfStep(c: bv16, b: bv8)
    ensures Rest(NibbleStep(c, b)) == c >> 8
  {
    HighOfFolded(c, Spread(b ^ Low(c)));
    SkewSkew(Spread(b ^ Low(c)));
    WordXorXor(c >> 8, Fold(Spread(b ^ Low(c))));
  }

  lemma ByteBeforeStep(c: bv16, b: bv8)
    ensures ByteBefore(NibbleStep(c, b), c) == b
  {
    MixedOfStep(c, b);
    XorXor(b, Low(c));
  }

  lemma StateBeforeStep(c: bv16, b: bv8)
    ensures StateBefore(NibbleStep(c, b), b) == c
  {
    MixedOfStep(c, b);
    RestOfStep(c, b);
    XorXor(b, Low(c));
    Rebuild(c);
  }

  /** For a fixed byte, a step is injective in the state. */
  lemma StepInjectiveInState(c: bv16, d: bv16, b: bv8)
    requires NibbleStep(c, b) == NibbleStep(d, b)
    ensures c == d
  {
    StateBeforeStep(c, b);
    StateBeforeStep(d, b);
  }

  /** For a fixed state, a step is injective in the byte. */
  lemma StepInjectiveInByte(c: bv16, b: bv8, e: bv8)
    requires NibbleStep(c, b) == NibbleStep(c, e)
    ensures b == e
  {
    ByteBeforeStep(c, b);
    ByteBeforeStep(c, e);
  }

  ghost function FirstByteBefore(r: bv16, c: bv16): bv8 {
    Spread(Skew(Low(Rest(r)))) ^ Low(c)
  }

  lemma LowIsHigh(c: bv16)
    ensures Low(c >> 8) == High(c)
  {
  }

  lemma HighBeforeStep(c: bv16, b: bv8)
    ensures Low(Rest(NibbleStep(c, b))) == High(c)
  {
    RestOfStep(c, b);
    LowIsHigh(c);
  }

  lemma FirstByteBeforeSteps(c: bv16, a: bv8, b: bv8)
    ensures FirstByteBefore(NibbleStep(NibbleStep(c, a), b), c) == a
  {
    HighBeforeStep(NibbleStep(c, a), b);
    ByteBeforeStep(c, a);
  }

  /** From one state, two bytes reach each later state in at most one way. */
  lemma TwoBytesInjective(c: bv16, a: bv8, b: bv8, x: bv8, y: bv8)
    requires NibbleStep(NibbleStep(c, a), b) == NibbleStep(NibbleStep(c, x), y)
    ensures a == x && b == y
  {
    FirstByteBeforeSteps(c, a, b);
    FirstByteBeforeSteps(c, x, y);
    ByteBeforeStep(NibbleStep(c, a), b);
    ByteBeforeStep(NibbleStep(c, a), y);
  }

  lemma LowByteCancels(c: bv16)
    ensures NibbleStep(c, Low(c)) == c >> 8
  {
  }

  lemma HighByteCancels(c: bv16)
    ensures NibbleStep(c >> 8, High(c)) == 0
  {
  }

  /** A state is driven to zero by its own two bytes, low first, and by no other two. */
  lemma OwnBytesLeaveZero(c: bv16, lo: bv8, hi: bv8)
    ensures NibbleStep(NibbleStep(c, lo), hi) == 0 <==> lo == Low(c) && hi == High(c)
  {
    LowByteCancels(c);
    HighByteCancels(c);
    if NibbleStep(NibbleStep(c, lo), hi) == 0 {
      TwoBytesInjective(c, lo, hi, Low(c), High(c));
    }
  }

  lemma SplitWord(c: bv16, lo: bv8, hi: bv8)
    ensures c == ((hi as bv16) << 8) | (lo as bv16) <==> lo == Low(c) && hi == High(c)
  {
  }
}
