// The auto-link wire frame: packer, checker, and what its CRC guarantees.
module EthLink {
  import Arith
  import opened Wrappers
  import opened Crc16
  import Bytes

  const MAGIC: bv8 := 0xFD
  const HEAD_LEN := 9
  const OVERHEAD := 11 // nine header bytes and a two-byte CRC

  // ----- checksum and CRC over byte strings -----

  ghost function Sum8(s: seq<bv8>): bv8 {
    if s == [] then 0 else Sum8(s[..|s| - 1]) + s[|s| - 1]
  }

  ghost function Crc(crc: bv16, s: seq<bv8>): bv16 {
    if s == [] then crc else NibbleStep(Crc(crc, s[..|s| - 1]), s[|s| - 1])
  }

  ghost function BitSerialCrc(crc: bv16, s: seq<bv8>): bv16 {
    if s == [] then crc
    else EightBitSteps(BitSerialCrc(crc, s[..|s| - 1]) ^ (s[|s| - 1] as bv16))
  }

  /** The nibble trick computes the bit-serial CRC of every byte string. */
  lemma {:induction false} CrcIsBitSerial(crc: bv16, s: seq<bv8>)
    ensures Crc(crc, s) == BitSerialCrc(crc, s)
  {
    hide NibbleStep, EightBitSteps;
    if s != [] {
      CrcIsBitSerial(crc, s[..|s| - 1]);
      NibbleStepIsEightBitSteps(Crc(crc, s[..|s| - 1]), s[|s| - 1]);
    }
  }

  lemma {:induction false} CrcInjective(c: bv16, d: bv16, s: seq<bv8>)
    requires Crc(c, s) == Crc(d, s)
    ensures c == d
  {
    if s != [] {
      StepInjectiveInState(Crc(c, s[..|s| - 1]), Crc(d, s[..|s| - 1]), s[|s| - 1]);
      CrcInjective(c, d, s[..|s| - 1]);
    }
  }

  lemma {:induction false} CrcConcat(c: bv16, s: seq<bv8>, t: seq<bv8>)
    ensures Crc(c, s + t) == Crc(Crc(c, s), t)
  {
    if t == [] {
      assert s + t == s;
    } else {
      var u := s + t;
      assert u[..|u| - 1] == s + t[..|t| - 1];
      CrcConcat(c, s, t[..|t| - 1]);
    }
  }

  lemma CrcOfTwo(c: bv16, a: bv8, b: bv8)
    ensures Crc(c, [a, b]) == NibbleStep(NibbleStep(c, a), b)
  {
    assert [a, b][..1] == [a] && [a][..0] == [];
    assert Crc(c, [a]) == NibbleStep(Crc(c, []), a);
  }

  // ----- the frame -----

  function SizeField(lo: bv8, hi: bv8): nat {
    Bytes.Value(hi) * 256 + Bytes.Value(lo)
  }

  lemma SizeFieldRange(lo: bv8, hi: bv8)
    ensures SizeField(lo, hi) <= 0xFFFF
  {
    Bytes.ValueRange(lo);
    Bytes.ValueRange(hi);
  }

  ghost function HeadFields(msgid: bv8, len: nat): seq<bv8> {
    [MAGIC, Bytes.OfNat(len), Bytes.OfNat(len / 256), 0, 0xFF, 0x03, msgid, 0]
  }

  ghost function Header(msgid: bv8, len: nat): seq<bv8> {
    HeadFields(msgid, len) + [Sum8(HeadFields(msgid, len))]
  }

  ghost function Trailer(crc: bv16): seq<bv8> {
    [Low(crc), High(crc)]
  }

  /** The frame as the format describes it; the CRC covers all but the magic byte. */
  ghost function Frame(msgid: bv8, payload: seq<bv8>): seq<bv8> {
    var body := Header(msgid, |payload|) + payload;
    body + Trailer(Crc(0xFFFF, body[1..]))
  }

  ghost predicate HeadOk(f: seq<bv8>)
    requires |f| >= OVERHEAD
  {
    f[0] == MAGIC && SizeField(f[1], f[2]) + OVERHEAD == |f| && f[8] == Sum8(f[..8])
  }

  ghost predicate Accepts(f: seq<bv8>) {
    && |f| >= OVERHEAD
    && HeadOk(f)
    && f[|f| - 2..] == Trailer(Crc(0xFFFF, f[1..|f| - 2]))
  }

  /** The header sum of the first eight bytes, as both ends compute it. */
  method HeaderSum(buf: array<bv8>) returns (checksum: bv8)
    requires buf.Length >= 8
    ensures checksum == Sum8(buf[..8])
  {
    checksum := 0;
    for i := 0 to 8
      invariant checksum == Sum8(buf[..i])
    {
      assert buf[..i + 1][..i] == buf[..i];
      checksum := checksum + buf[i];
    }
  }

  /** The CRC loop of both ends: count bytes from the first one after the magic byte. */
  method CrcOfBytes(buf: array<bv8>, count: nat) returns (crc: bv16)
    requires 1 + count <= buf.Length
    ensures crc == Crc(0xFFFF, buf[1..1 + count])
  {
    crc := 0xFFFF;
    var data, left := 1, count;
    while left > 0
      invariant 1 <= data && data + left == 1 + count
      invariant crc == Crc(0xFFFF, buf[1..data])
    {
      assert buf[1..data + 1][..data - 1] == buf[1..data];
      crc := NibbleStep(crc, buf[data]);
      data := data + 1;
      left := left - 1;
    }
  }

  method TrailerOk(crc: bv16, lo: bv8, hi: bv8) returns (ok: bool)
    ensures ok <==> [lo, hi] == Trailer(crc)
  {
    ok := crc == ((hi as bv16) << 8) | (lo as bv16);
    SplitWord(crc, lo, hi);
  }

  /** Magic, length and header sum, in the order the receiver tests them. */
  method CheckHead(buf: array<bv8>, len: nat) returns (ok: bool)
    requires 3 <= buf.Length
    requires len <= buf.Length || len > 0xFFFF + OVERHEAD
    ensures ok <==> OVERHEAD <= len <= buf.Length && HeadOk(buf[..len])
  {
    if buf[0] != MAGIC {
      return false;
    }
    SizeFieldRange(buf[1], buf[2]);
    if SizeField(buf[1], buf[2]) + OVERHEAD != len {
      return false;
    }
    assert buf[..len][..8] == buf[..8];
    var checksum := HeaderSum(buf);
    return buf[8] == checksum;
  }

  /** Checks a received frame and returns the offset of its payload. */
  method Analyse(buf: array<bv8>, len: nat) returns (payload: Option<nat>)
    requires 3 <= buf.Length
    requires len <= buf.Length || len > 0xFFFF + OVERHEAD // a failed receive reports length 2^32 - 1
    ensures payload == if len <= buf.Length && Accepts(buf[..len]) then Some(HEAD_LEN) else None
  {
    var headOk := CheckHead(buf, len);
    if !headOk {
      return None;
    }
    ghost var f := buf[..len];
    var crc := CrcOfBytes(buf, len - 3);
    assert f[1..len - 2] == buf[1..1 + (len - 3)];
    assert f[len - 2..] == [buf[len - 2], buf[len - 1]];
    var trailerOk := TrailerOk(crc, buf[len - 2], buf[len - 1]);
    return if trailerOk then Some(HEAD_LEN) else None;
  }

  method WriteHead(msgid: bv8, buf: array<bv8>, len: nat)
    requires HEAD_LEN <= buf.Length
    modifies buf
    ensures buf[..HEAD_LEN] == Header(msgid, len)
    ensures buf[HEAD_LEN..] == old(buf[HEAD_LEN..])
  {
    hide Sum8, Bytes.Value;
    buf[0] := MAGIC;
    buf[1] := Bytes.OfNat(len);
    buf[2] := Bytes.OfNat(len / 256);
    buf[3] := 0;
    buf[4] := 0xFF;
    buf[5] := 0x03;
    buf[6] := msgid;
    buf[7] := 0;
    ghost var h := buf[..8];
    assert h == HeadFields(msgid, len);
    var checksum := HeaderSum(buf);
    buf[8] := checksum;
    assert buf[..HEAD_LEN] == h + [checksum];
  }

  /** Completes the frame around a payload already placed at offset nine. */
  method Package(msgid: bv8, buf: array<bv8>, len: nat) returns (total: nat)
    requires len + OVERHEAD <= buf.Length
    modifies buf
    ensures total == len + OVERHEAD
    ensures buf[..total] == Frame(msgid, old(buf[HEAD_LEN..HEAD_LEN + len]))
    ensures buf[total..] == old(buf[total..])
  {
    hide Low, High, Sum8, Bytes.OfNat, NibbleStep;
    ghost var was := buf[HEAD_LEN..];
    ghost var payload := buf[HEAD_LEN..HEAD_LEN + len];
    assert payload == was[..len];
    WriteHead(msgid, buf, len);
    ghost var body := Header(msgid, |payload|) + payload;
    assert buf[..len + HEAD_LEN] == buf[..HEAD_LEN] + buf[HEAD_LEN..][..len];
    var crc := CrcOfBytes(buf, len + OVERHEAD - 3);
    assert buf[1..len + HEAD_LEN] == body[1..];
    assert buf[len + OVERHEAD..] == was[len + 2..];
    var lo, hi := Low(crc), High(crc);
    buf[len + HEAD_LEN] := lo;
    buf[len + HEAD_LEN + 1] := hi;
    total := len + OVERHEAD;
    assert buf[..total] == body + [lo, hi];
    assert buf[total..] == was[len + 2..];
  }

  // ----- the two ends agree -----

  lemma FrameParts(msgid: bv8, payload: seq<bv8>, f: seq<bv8>)
    requires f == Frame(msgid, payload)
    ensures |f| == |payload| + OVERHEAD
    ensures f[..8] == HeadFields(msgid, |payload|)
    ensures f[8] == Sum8(f[..8])
    ensures f[HEAD_LEN..|f| - 2] == payload
    ensures f[|f| - 2..] == Trailer(Crc(0xFFFF, f[1..|f| - 2]))
  {
    var body := Header(msgid, |payload|) + payload;
    assert f[..|f| - 2] == body;
    assert f[..8] == HeadFields(msgid, |payload|);
    assert f[1..|f| - 2] == body[1..];
  }

  lemma FrameSize(msgid: bv8, len: nat, f: seq<bv8>)
    requires |f| >= 8 && f[..8] == HeadFields(msgid, len)
    ensures SizeField(f[1], f[2]) == len % 65536
  {
    hide Bytes.Value;
    assert f[1] == f[..8][1] && f[2] == f[..8][2];
    Arith.ModSplit(len, 256, 256);
  }

  lemma FrameMagic(msgid: bv8, len: nat, f: seq<bv8>)
    requires |f| >= 8 && f[..8] == HeadFields(msgid, len)
    ensures f[0] == MAGIC
  {
    assert f[0] == f[..8][0];
  }

  /** A packed frame is accepted exactly when its payload length fits the two length bytes. */
  lemma PackedFrameAccepted(msgid: bv8, payload: seq<bv8>, f: seq<bv8>)
    requires f == Frame(msgid, payload)
    ensures Accepts(f) <==> |payload| < 65536
    ensures f[HEAD_LEN..HEAD_LEN + |payload|] == payload
  {
    hide Low, High, Sum8, Crc, SizeField, Frame, HeadFields, Trailer;
    FrameParts(msgid, payload, f);
    FrameSize(msgid, |payload|, f);
    FrameMagic(msgid, |payload|, f);
  }

  /** A packed frame that is rejected: 65536 zero bytes of payload. */
  lemma LongFrameRejected(msgid: bv8)
    ensures !Accepts(Frame(msgid, seq(65536, _ => 0)))
  {
    hide Accepts, Frame;
    var payload: seq<bv8> := seq(65536, _ => 0);
    PackedFrameAccepted(msgid, payload, Frame(msgid, payload));
  }

  // ----- the bytes of a frame, as numbers -----

  /** The values of the bytes, added up. */
  ghost function ByteSum(s: seq<bv8>): nat {
    if s == [] then 0 else ByteSum(s[..|s| - 1]) + Bytes.Value(s[|s| - 1])
  }

  lemma SumModulo(x: nat, y: nat)
    ensures (x % 256 + y) % 256 == (x + y) % 256
  {
  }

  /** The header sum is the sum of the byte values modulo 256. */
  lemma {:induction false} Sum8IsSum(s: seq<bv8>)
    ensures Bytes.Value(Sum8(s)) == ByteSum(s) % 256
  {
    hide Bytes.Value;
    if s == [] {
      Bytes.ValueRange(0);
    } else {
      var n := |s| - 1;
      Sum8IsSum(s[..n]);
      Bytes.ValueOfSum(Sum8(s[..n]), s[n]);
      SumModulo(ByteSum(s[..n]), Bytes.Value(s[n]));
    }
  }

  lemma SumOfEight(f: seq<bv8>)
    requires |f| >= 8
    ensures ByteSum(f[..8]) == Bytes.Value(f[0]) + Bytes.Value(f[1]) + Bytes.Value(f[2]) + Bytes.Value(f[3])
                               + Bytes.Value(f[4]) + Bytes.Value(f[5]) + Bytes.Value(f[6]) + Bytes.Value(f[7])
  {
    hide Bytes.Value;
    SumMore(f, 0);
    SumMore(f, 1);
    SumMore(f, 2);
    SumMore(f, 3);
    SumMore(f, 4);
    SumMore(f, 5);
    SumMore(f, 6);
    SumMore(f, 7);
    assert f[..0] == [];
  }

  lemma SumMore(f: seq<bv8>, n: nat)
    requires n < |f|
    ensures ByteSum(f[..n + 1]) == ByteSum(f[..n]) + Bytes.Value(f[n])
  {
    assert f[..n + 1][..n] == f[..n];
  }

  /** Every byte of a packed frame. */
  lemma FrameBytes(msgid: bv8, payload: seq<bv8>)
    ensures var f, n := Frame(msgid, payload), |payload|;
            && |f| == n + 11
            && f[0] == 0xFD && Bytes.Value(f[1]) == n % 256 && Bytes.Value(f[2]) == n / 256 % 256
            && f[3] == 0 && f[4] == 0xFF && f[5] == 0x03 && f[6] == msgid && f[7] == 0
            && Bytes.Value(f[8]) == (253 + n % 256 + n / 256 % 256 + 255 + 3 + Bytes.Value(msgid)) % 256
            && f[9..9 + n] == payload && BitSerialCrc(0xFFFF, f[1..]) == 0
  {
    hide Bytes.Value, Frame, Sum8, Crc, BitSerialCrc;
    var f := Frame(msgid, payload);
    FrameParts(msgid, payload, f);
    Codeword(f);
    CrcIsBitSerial(0xFFFF, f[1..]);
    HeadBytes(f, msgid, |payload|);
    Sum8IsSum(f[..8]);
    SumOfEight(f);
    FixedValues();
  }

  lemma FixedValues()
    ensures Bytes.Value(0xFD) == 253 && Bytes.Value(0) == 0 && Bytes.Value(0xFF) == 255 && Bytes.Value(3) == 3
  {
  }

  lemma HeadBytes(f: seq<bv8>, msgid: bv8, n: nat)
    requires |f| >= 8 && f[..8] == HeadFields(msgid, n)
    ensures f[0] == 0xFD && f[1] == Bytes.OfNat(n) && f[2] == Bytes.OfNat(n / 256)
    ensures f[3] == 0 && f[4] == 0xFF && f[5] == 0x03 && f[6] == msgid && f[7] == 0
  {
    hide Bytes.Value;
    assert forall i :: 0 <= i < 8 ==> f[i] == f[..8][i];
  }

  /** Frames end in the CRC of what lies between exactly if the CRC over everything past byte 0 is zero. */
  lemma Codeword(f: seq<bv8>)
    requires |f| >= OVERHEAD
    ensures f[|f| - 2..] == Trailer(Crc(0xFFFF, f[1..|f| - 2])) <==> Crc(0xFFFF, f[1..]) == 0
  {
    hide NibbleStep, Low, High;
    var n := |f|;
    var c, lo, hi := Crc(0xFFFF, f[1..n - 2]), f[n - 2], f[n - 1];
    assert f[1..] == f[1..n - 2] + [lo, hi];
    assert f[n - 2..] == [lo, hi];
    CrcConcat(0xFFFF, f[1..n - 2], [lo, hi]);
    CrcOfTwo(c, lo, hi);
    OwnBytesLeaveZero(c, lo, hi);
  }

  /** What an accepted frame is, on its bytes alone. */
  lemma AcceptsIff(f: seq<bv8>)
    ensures Accepts(f) <==>
            && |f| >= 11 && f[0] == 0xFD
            && Bytes.Value(f[1]) + 256 * Bytes.Value(f[2]) + 11 == |f|
            && Bytes.Value(f[8]) == (Bytes.Value(f[0]) + Bytes.Value(f[1]) + Bytes.Value(f[2]) + Bytes.Value(f[3])
                                     + Bytes.Value(f[4]) + Bytes.Value(f[5]) + Bytes.Value(f[6])
                                     + Bytes.Value(f[7])) % 256
            && BitSerialCrc(0xFFFF, f[1..]) == 0
  {
    hide Bytes.Value, Sum8, Crc, BitSerialCrc, Trailer;
    if |f| >= OVERHEAD {
      Codeword(f);
      CrcIsBitSerial(0xFFFF, f[1..]);
      Sum8IsSum(f[..8]);
      SumOfEight(f);
      if Bytes.Value(f[8]) == Bytes.Value(Sum8(f[..8])) {
        Bytes.ValueTells(f[8], Sum8(f[..8]));
      }
    }
  }

  /** The check value of this CRC: that of the nine digits 1 to 9. */
  lemma CheckValue()
    ensures BitSerialCrc(0xFFFF, [0x31, 0x32, 0x33, 0x34, 0x35, 0x36, 0x37, 0x38, 0x39]) == 0x6F91
  {
    hide BitSerialCrc;
    var s: seq<bv8> := [0x31, 0x32, 0x33, 0x34, 0x35, 0x36, 0x37, 0x38, 0x39];
    DigitsFirst(s);
    DigitsThen(s);
  }

  lemma SerialMore(s: seq<bv8>, n: nat)
    requires n < |s|
    ensures BitSerialCrc(0xFFFF, s[..0]) == 0xFFFF
    ensures BitSerialCrc(0xFFFF, s[..n + 1]) == EightBitSteps(BitSerialCrc(0xFFFF, s[..n]) ^ (s[n] as bv16))
  {
    hide EightBitSteps;
    assert s[..n + 1][..n] == s[..n];
  }

  lemma DigitsFirst(s: seq<bv8>)
    requires |s| == 9 && s[0] == 0x31 && s[1] == 0x32 && s[2] == 0x33 && s[3] == 0x34 && s[4] == 0x35
    ensures BitSerialCrc(0xFFFF, s[..5]) == 0x44BF
  {
    hide BitSerialCrc;
    SerialMore(s, 0);
    SerialMore(s, 1);
    SerialMore(s, 2);
    SerialMore(s, 3);
    SerialMore(s, 4);
  }

  lemma DigitsThen(s: seq<bv8>)
    requires |s| == 9 && s[5] == 0x36 && s[6] == 0x37 && s[7] == 0x38 && s[8] == 0x39
    requires BitSerialCrc(0xFFFF, s[..5]) == 0x44BF
    ensures BitSerialCrc(0xFFFF, s) == 0x6F91
  {
    hide BitSerialCrc;
    SerialMore(s, 5);
    SerialMore(s, 6);
    SerialMore(s, 7);
    SerialMore(s, 8);
    assert s[..9] == s;
  }

  // ----- error detection -----

  /** For an accepted frame the CRC over everything after the magic byte is zero. */
  lemma AcceptedIsCodeword(f: seq<bv8>)
    requires Accepts(f)
    ensures Crc(0xFFFF, f[1..]) == 0
  {
    var n := |f|;
    var c := Crc(0xFFFF, f[1..n - 2]);
    assert f[1..] == f[1..n - 2] + Trailer(c);
    CrcConcat(0xFFFF, f[1..n - 2], Trailer(c));
    CrcOfTwo(c, Low(c), High(c));
    OwnBytesLeaveZero(c, Low(c), High(c));
  }

  ghost predicate DifferOnlyIn(f: seq<bv8>, g: seq<bv8>, i: nat) {
    && |f| == |g|
    && i + 1 < |f|
    && f[..i] == g[..i]
    && f[i + 2..] == g[i + 2..]
  }

  lemma SplitAt(s: seq<bv8>, i: nat)
    requires i + 1 < |s|
    ensures s == (s[..i] + [s[i], s[i + 1]]) + s[i + 2..]
  {
  }

  lemma CrcAroundTwo(s: seq<bv8>, i: nat)
    requires i + 1 < |s|
    ensures Crc(0xFFFF, s)
         == Crc(NibbleStep(NibbleStep(Crc(0xFFFF, s[..i]), s[i]), s[i + 1]), s[i + 2..])
  {
    var two := [s[i], s[i + 1]];
    SplitAt(s, i);
    CrcConcat(0xFFFF, s[..i] + two, s[i + 2..]);
    CrcConcat(0xFFFF, s[..i], two);
    CrcOfTwo(Crc(0xFFFF, s[..i]), s[i], s[i + 1]);
  }

  /** Strings that differ only in two consecutive bytes have different CRCs. */
  lemma CrcSeesTwoBytes(s: seq<bv8>, t: seq<bv8>, i: nat)
    requires DifferOnlyIn(s, t, i)
    requires Crc(0xFFFF, s) == Crc(0xFFFF, t)
    ensures s == t
  {
    var c := Crc(0xFFFF, s[..i]);
    CrcAroundTwo(s, i);
    CrcAroundTwo(t, i);
    CrcInjective(NibbleStep(NibbleStep(c, s[i]), s[i + 1]),
                 NibbleStep(NibbleStep(c, t[i]), t[i + 1]), s[i + 2..]);
    TwoBytesInjective(c, s[i], s[i + 1], t[i], t[i + 1]);
    SplitAt(s, i);
    SplitAt(t, i);
  }

  lemma DifferAfterMagic(f: seq<bv8>, g: seq<bv8>, i: nat)
    requires DifferOnlyIn(f, g, i)
    requires |f| >= 3 && f[0] == g[0]
    ensures DifferOnlyIn(f[1..], g[1..], if i == 0 then 0 else i - 1)
  {
    if i > 0 {
      assert f[1..][..i - 1] == f[..i][1..] && g[1..][..i - 1] == g[..i][1..];
      assert f[1..][i + 1..] == f[i + 2..] && g[1..][i + 1..] == g[i + 2..];
    } else {
      assert f[1..][2..] == f[2..][1..] && g[1..][2..] == g[2..][1..];
    }
  }

  /** Any corruption confined to two consecutive bytes of an accepted frame is rejected. */
  lemma BurstRejected(f: seq<bv8>, g: seq<bv8>, i: nat)
    requires Accepts(f)
    requires DifferOnlyIn(f, g, i) && f != g
    ensures !Accepts(g)
  {
    if Accepts(g) {
      AcceptedIsCodeword(f);
      AcceptedIsCodeword(g);
      DifferAfterMagic(f, g, i);
      assert f == [f[0]] + f[1..] && g == [g[0]] + g[1..];
      CrcSeesTwoBytes(f[1..], g[1..], if i == 0 then 0 else i - 1);
    }
  }

  /** Replacing any one byte of an accepted frame gives a frame that is rejected. */
  lemma OneByteRejected(f: seq<bv8>, i: nat, b: bv8)
    requires Accepts(f)
    requires i < |f| && f[i] != b
    ensures !Accepts(f[i := b])
  {
    var g := f[i := b];
    var k := if i + 1 < |f| then i else i - 1;
    assert f[..k] == g[..k] && f[k + 2..] == g[k + 2..];
    assert g[i] != f[i];
    BurstRejected(f, g, k);
  }
}
