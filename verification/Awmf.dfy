// Beam weights of the AWMF-0165 antenna chips: eight channels packed into two 48-bit words.
module Awmf {
  import opened Bits32
  import opened BitField

  const ROWS: nat := 4
  const COLS: nat := 16
  const TABLE: nat := 64
  const WORD: nat := 48
  const STATE_AT: nat := 44   // channel disable bits
  const AMP_AT: nat := 24     // channel attenuation, 4 bits each; phase, 6 bits each, starts at 0
  const COM_AT: nat := 40     // common attenuation

  datatype Ret = RetOk | RetInvalidParam | RetGeneralErr | RetIoErr

  /** State 1 is on; phase code; common and channel attenuation codes. */
  datatype Info = Info(state: nat, phase: nat, com: nat, amp: nat)

  predicate InfoValid(i: Info) {
    i.state <= 1 && i.phase <= 63 && i.com <= 15 && i.amp <= 15
  }

  // ----- antenna maps -----

  datatype Entry = Entry(row: nat, col: nat, chip: nat, chn: nat)

  function TxChip(upper: bool, quarter: nat): nat {
    if upper then (if quarter == 0 then 0x21 else if quarter == 1 then 0x24 else if quarter == 2 then 0x14 else 0x11)
    else if quarter == 0 then 0x23 else if quarter == 1 then 0x22 else if quarter == 2 then 0x12 else 0x13
  }

  function RxChip(upper: bool, quarter: nat): nat {
    if upper then (if quarter == 0 then 0x43 else if quarter == 1 then 0x42 else if quarter == 2 then 0x33 else 0x32)
    else if quarter == 0 then 0x41 else if quarter == 1 then 0x44 else if quarter == 2 then 0x31 else 0x34
  }

  function Channel(even: bool, place: nat): nat {
    if even then (if place == 0 then 7 else if place == 1 then 3 else if place == 2 then 0 else 4)
    else if place == 0 then 6 else if place == 1 then 2 else if place == 2 then 1 else 5
  }

  /** Entry i of the transmit or receive map: four antenna columns by two rows share a chip. */
  function MapEntry(rx: bool, i: nat): Entry
    requires i < TABLE
  {
    var row, col := i / COLS, i % COLS;
    Entry(row, col, if rx then RxChip(row < 2, col / 4) else TxChip(row < 2, col / 4), Channel(row % 2 == 0, col % 4))
  }

  /** A register of a chip, and the channel's place among the four of that register. */
  datatype Place = Place(reg: (nat, nat), sub: nat)

  function PlaceOf(rx: bool, row: nat, col: nat): (p: Place)
    requires row < ROWS && col < COLS
    ensures p.sub < 4
  {
    var e := MapEntry(rx, row * COLS + col);
    if e.chn < 4 then Place((e.chip, if rx then 0x02 else 0x01), e.chn)
    else Place((e.chip, if rx then 0x23 else 0x22), e.chn - 4)
  }

  lemma EntryAt(rx: bool, row: nat, col: nat)
    requires row < ROWS && col < COLS
    ensures var e := MapEntry(rx, row * COLS + col);
            && e.row == row && e.col == col
            && e.chip == (if rx then RxChip(row < 2, col / 4) else TxChip(row < 2, col / 4))
            && e.chn == Channel(row % 2 == 0, col % 4)
  {
  }

  lemma ChipsDiffer(u1: bool, q1: nat, u2: bool, q2: nat)
    requires q1 < 4 && q2 < 4
    ensures TxChip(u1, q1) == TxChip(u2, q2) ==> u1 == u2 && q1 == q2
    ensures RxChip(u1, q1) == RxChip(u2, q2) ==> u1 == u2 && q1 == q2
    ensures TxChip(u1, q1) != RxChip(u2, q2)
  {
  }

  lemma ChannelsDiffer(e1: bool, p1: nat, e2: bool, p2: nat)
    requires p1 < 4 && p2 < 4
    ensures Channel(e1, p1) == Channel(e2, p2) ==> e1 == e2 && p1 == p2
  {
  }

  /** The chips of the transmit and receive maps, by antenna row and column, and the channels, which both share. */
  const TX_CHIPS: seq<seq<nat>> := [
    [0x21, 0x21, 0x21, 0x21, 0x24, 0x24, 0x24, 0x24, 0x14, 0x14, 0x14, 0x14, 0x11, 0x11, 0x11, 0x11],
    [0x21, 0x21, 0x21, 0x21, 0x24, 0x24, 0x24, 0x24, 0x14, 0x14, 0x14, 0x14, 0x11, 0x11, 0x11, 0x11],
    [0x23, 0x23, 0x23, 0x23, 0x22, 0x22, 0x22, 0x22, 0x12, 0x12, 0x12, 0x12, 0x13, 0x13, 0x13, 0x13],
    [0x23, 0x23, 0x23, 0x23, 0x22, 0x22, 0x22, 0x22, 0x12, 0x12, 0x12, 0x12, 0x13, 0x13, 0x13, 0x13]]

  const RX_CHIPS: seq<seq<nat>> := [
    [0x43, 0x43, 0x43, 0x43, 0x42, 0x42, 0x42, 0x42, 0x33, 0x33, 0x33, 0x33, 0x32, 0x32, 0x32, 0x32],
    [0x43, 0x43, 0x43, 0x43, 0x42, 0x42, 0x42, 0x42, 0x33, 0x33, 0x33, 0x33, 0x32, 0x32, 0x32, 0x32],
    [0x41, 0x41, 0x41, 0x41, 0x44, 0x44, 0x44, 0x44, 0x31, 0x31, 0x31, 0x31, 0x34, 0x34, 0x34, 0x34],
    [0x41, 0x41, 0x41, 0x41, 0x44, 0x44, 0x44, 0x44, 0x31, 0x31, 0x31, 0x31, 0x34, 0x34, 0x34, 0x34]]

  const CHANNELS: seq<seq<nat>> := [
    [7, 3, 0, 4, 7, 3, 0, 4, 7, 3, 0, 4, 7, 3, 0, 4],
    [6, 2, 1, 5, 6, 2, 1, 5, 6, 2, 1, 5, 6, 2, 1, 5],
    [7, 3, 0, 4, 7, 3, 0, 4, 7, 3, 0, 4, 7, 3, 0, 4],
    [6, 2, 1, 5, 6, 2, 1, 5, 6, 2, 1, 5, 6, 2, 1, 5]]

  /** The regular layout is the table. */
  lemma MapIsTable(rx: bool, row: nat, col: nat)
    requires row < 4 && col < 16
    ensures |TX_CHIPS[row]| == |RX_CHIPS[row]| == |CHANNELS[row]| == 16
    ensures MapEntry(rx, row * 16 + col)
         == Entry(row, col, if rx then RX_CHIPS[row][col] else TX_CHIPS[row][col], CHANNELS[row][col])
  {
    EntryAt(rx, row, col);
    TableRow(row, col);
    hide MapEntry, TxChip, RxChip, Channel;
  }

  lemma TableRow(row: nat, col: nat)
    requires row < 4 && col < 16
    ensures |TX_CHIPS[row]| == |RX_CHIPS[row]| == |CHANNELS[row]| == 16
    ensures TX_CHIPS[row][col] == TxChip(row < 2, col / 4) && RX_CHIPS[row][col] == RxChip(row < 2, col / 4)
    ensures CHANNELS[row][col] == Channel(row % 2 == 0, col % 4)
  {
  }

  /** Where an antenna's word is: registers 0x01 and 0x22 of a transmit chip, 0x02 and 0x23 of a receive chip, for
      channels 0 to 3 and 4 to 7. */
  lemma PlaceIs(rx: bool, row: nat, col: nat)
    requires row < 4 && col < 16
    ensures |TX_CHIPS[row]| == |RX_CHIPS[row]| == |CHANNELS[row]| == 16
    ensures var p, chn := PlaceOf(rx, row, col), CHANNELS[row][col];
            && p.reg.0 == (if rx then RX_CHIPS[row][col] else TX_CHIPS[row][col])
            && p.reg.1 == (if rx then if chn < 4 then 0x02 else 0x23 else if chn < 4 then 0x01 else 0x22)
            && p.sub == chn % 4
  {
    MapIsTable(rx, row, col);
    TableRow(row, col);
    hide MapEntry, TxChip, RxChip;
  }

  /** The maps are injective: no two antennas, transmit or receive, share a place. */
  lemma PlacesDiffer(rx1: bool, row1: nat, col1: nat, rx2: bool, row2: nat, col2: nat)
    requires row1 < ROWS && col1 < COLS && row2 < ROWS && col2 < COLS
    requires PlaceOf(rx1, row1, col1) == PlaceOf(rx2, row2, col2)
    ensures rx1 == rx2 && row1 == row2 && col1 == col2
  {
    EntryAt(rx1, row1, col1);
    EntryAt(rx2, row2, col2);
    hide MapEntry, TxChip, RxChip, Channel;
    ChipsDiffer(row1 < 2, col1 / 4, row2 < 2, col2 / 4);
    ChipsDiffer(row2 < 2, col2 / 4, row1 < 2, col1 / 4);
    ChannelsDiffer(row1 % 2 == 0, col1 % 4, row2 % 2 == 0, col2 % 4);
  }

  // ----- one word -----

  /** The word after one set call's read-modify-write. */
  function SetWord(w: nat, sub: nat, i: Info): nat {
    Put(Put(Put(Put(w, STATE_AT + sub, 1, if i.state == 0 then 1 else 0), sub * 6, 6, i.phase),
            sub * 4 + AMP_AT, 4, i.amp), COM_AT, 4, i.com)
  }

  lemma SmallPowers()
    ensures Pow2(1) == 2 && Pow2(4) == 16 && Pow2(6) == 64
  {
  }

  lemma SetWordFits(w: nat, sub: nat, i: Info)
    requires w < Pow2(WORD) && sub < 4 && InfoValid(i)
    ensures SetWord(w, sub, i) < Pow2(WORD)
  {
    hide Put;
    SmallPowers();
    var w1 := Put(w, STATE_AT + sub, 1, if i.state == 0 then 1 else 0);
    PutFits(w, STATE_AT + sub, 1, if i.state == 0 then 1 else 0, WORD);
    var w2 := Put(w1, sub * 6, 6, i.phase);
    PutFits(w1, sub * 6, 6, i.phase, WORD);
    var w3 := Put(w2, sub * 4 + AMP_AT, 4, i.amp);
    PutFits(w2, sub * 4 + AMP_AT, 4, i.amp, WORD);
    PutFits(w3, COM_AT, 4, i.com, WORD);
  }

  /** The set channel's fields read back as set. */
  lemma OwnFields(w: nat, sub: nat, i: Info)
    requires sub < 4 && InfoValid(i)
    ensures var x := SetWord(w, sub, i);
            && Field(x, sub * 6, 6) == i.phase && Field(x, sub * 4 + AMP_AT, 4) == i.amp
            && Field(x, COM_AT, 4) == i.com && Field(x, STATE_AT + sub, 1) == if i.state == 0 then 1 else 0
  {
    hide Put, Field;
    SmallPowers();
    var off := if i.state == 0 then 1 else 0;
    var w1 := Put(w, STATE_AT + sub, 1, off);
    var w2 := Put(w1, sub * 6, 6, i.phase);
    var w3 := Put(w2, sub * 4 + AMP_AT, 4, i.amp);
    FieldOfPut(w, STATE_AT + sub, 1, off);
    OtherFieldOfPut(w1, sub * 6, 6, i.phase, STATE_AT + sub, 1);
    OtherFieldOfPut(w2, sub * 4 + AMP_AT, 4, i.amp, STATE_AT + sub, 1);
    OtherFieldOfPut(w3, COM_AT, 4, i.com, STATE_AT + sub, 1);
    FieldOfPut(w1, sub * 6, 6, i.phase);
    OtherFieldOfPut(w2, sub * 4 + AMP_AT, 4, i.amp, sub * 6, 6);
    OtherFieldOfPut(w3, COM_AT, 4, i.com, sub * 6, 6);
    FieldOfPut(w2, sub * 4 + AMP_AT, 4, i.amp);
    OtherFieldOfPut(w3, COM_AT, 4, i.com, sub * 4 + AMP_AT, 4);
    FieldOfPut(w3, COM_AT, 4, i.com);
  }

  /** Every bit of the word a set leaves: phase at 6 * sub, channel attenuation at 24 + 4 * sub, common attenuation
      at 40, and at 44 + sub a bit that is up when the channel is off; the others stay. */
  lemma SetWordBits(w: nat, sub: nat, i: Info, k: nat)
    requires sub < 4 && InfoValid(i)
    ensures Bit(SetWord(w, sub, i), k) <==>
            if 6 * sub <= k < 6 * sub + 6 then Bit(i.phase, k - 6 * sub)
            else if 24 + 4 * sub <= k < 28 + 4 * sub then Bit(i.amp, k - (24 + 4 * sub))
            else if 40 <= k < 44 then Bit(i.com, k - 40)
            else if k == 44 + sub then i.state == 0
            else Bit(w, k)
  {
    var off := if i.state == 0 then 1 else 0;
    StateBit(i);
    hide Put, Bit;
    var w1 := Put(w, 44 + sub, 1, off);
    var w2 := Put(w1, 6 * sub, 6, i.phase);
    var w3 := Put(w2, 24 + 4 * sub, 4, i.amp);
    assert SetWord(w, sub, i) == Put(w3, 40, 4, i.com);
    PutBit(w3, 40, 4, i.com, k);
    if k < 40 || 44 <= k {
      PutBit(w2, 24 + 4 * sub, 4, i.amp, k);
      PutBit(w1, 6 * sub, 6, i.phase, k);
      PutBit(w, 44 + sub, 1, off, k);
    }
  }

  lemma StateBit(i: Info)
    ensures Bit(if i.state == 0 then 1 else 0, 0) <==> i.state == 0
  {
  }

  /** The field at a, b bits wide, is none of those a set of channel sub writes. */
  predicate Apart(sub: nat, a: nat, b: nat) {
    && (a + b <= STATE_AT + sub || STATE_AT + sub + 1 <= a)
    && (a + b <= sub * 6 || sub * 6 + 6 <= a)
    && (a + b <= sub * 4 + AMP_AT || sub * 4 + AMP_AT + 4 <= a)
    && (a + b <= COM_AT || COM_AT + 4 <= a)
  }

  lemma OtherFields(w: nat, sub: nat, i: Info, a: nat, b: nat)
    requires Apart(sub, a, b)
    ensures Field(SetWord(w, sub, i), a, b) == Field(w, a, b)
  {
    hide Put, Field;
    var off := if i.state == 0 then 1 else 0;
    var w1 := Put(w, STATE_AT + sub, 1, off);
    var w2 := Put(w1, sub * 6, 6, i.phase);
    var w3 := Put(w2, sub * 4 + AMP_AT, 4, i.amp);
    OtherFieldOfPut(w, STATE_AT + sub, 1, off, a, b);
    OtherFieldOfPut(w1, sub * 6, 6, i.phase, a, b);
    OtherFieldOfPut(w2, sub * 4 + AMP_AT, 4, i.amp, a, b);
    OtherFieldOfPut(w3, COM_AT, 4, i.com, a, b);
  }

  predicate Enabled(w: nat, c: nat) {
    Field(w, STATE_AT + c, 1) == 0
  }

  /** The getter's state shifts the whole rest of the word down, so it sees higher channels too:
      it says on exactly when this channel and every higher one of the word are enabled. */
  lemma StateReadIff(w: nat, sub: nat)
    requires w < Pow2(WORD) && sub < 4
    ensures Shifted(w, STATE_AT + sub) == 0 <==> forall c :: sub <= c < 4 ==> Enabled(w, c)
  {
    hide Field, Shifted, Enabled, Pow2;
    ShiftedBelow(w, WORD, STATE_AT + sub);
    FieldBelow(Shifted(w, STATE_AT + sub), 4 - sub);
    ShiftedField(w, STATE_AT + sub, 4 - sub);
    BitsOfField(w, sub);
  }

  lemma {:induction false} BitsOfField(w: nat, sub: nat)
    requires sub <= 4
    ensures Field(w, STATE_AT + sub, 4 - sub) == 0 <==> forall c :: sub <= c < 4 ==> Enabled(w, c)
    decreases 4 - sub
  {
    hide Field;
    if sub < 4 {
      FieldSplit(w, STATE_AT + sub, 3 - sub);
      BitsOfField(w, sub + 1);
      assert Enabled(w, sub) <==> Field(w, STATE_AT + sub, 1) == 0;
    } else {
      EmptyField(w, STATE_AT + 4);
    }
  }

  /** Entry i is that of its row and column, and of no others. */
  lemma EntryIsAt(rx: bool, i: nat, row: nat, col: nat)
    requires i < TABLE
    ensures var e := MapEntry(rx, i);
            row == e.row && col == e.col <==> row < ROWS && col < COLS && i == row * COLS + col
  {
    var r, c := i / COLS, i % COLS;
    assert i == r * COLS + c && r < ROWS && c < COLS;
    if row < ROWS && col < COLS && i == row * COLS + col {
      assert row == r;
    }
  }

  // ----- the driver -----

  ghost predicate WordsValid(words: map<(nat, nat), nat>) {
    forall rx: bool, row: nat, col: nat :: row < ROWS && col < COLS ==>
      PlaceOf(rx, row, col).reg in words && words[PlaceOf(rx, row, col).reg] < Pow2(WORD)
  }

  function ReadInfo(w: nat, sub: nat): Info {
    Info(if Shifted(w, STATE_AT + sub) == 0 then 1 else 0, Field(w, sub * 6, 6), Field(w, COM_AT, 4),
         Field(w, sub * 4 + AMP_AT, 4))
  }

  /** What is read from a word, by division. */
  lemma ReadIs(w: nat, sub: nat)
    requires sub < 4
    ensures var i := ReadInfo(w, sub);
            && Pow2(6 * sub) > 0 && Pow2(24 + 4 * sub) > 0 && Pow2(40) > 0 && Pow2(44 + sub) > 0
            && i.phase == w / Pow2(6 * sub) % 64 && i.amp == w / Pow2(24 + 4 * sub) % 16
            && i.com == w / Pow2(40) % 16 && i.state == if w / Pow2(44 + sub) == 0 then 1 else 0
  {
    SmallPowers();
    hide Field, Shifted, Pow2;
    FieldIs(w, sub * 6, 6);
    FieldIs(w, sub * 4 + AMP_AT, 4);
    FieldIs(w, COM_AT, 4);
    ShiftedIs(w, STATE_AT + sub);
  }

  class Driver {
    var words: map<(nat, nat), nat>      // the chips' beam-weight registers
    var cache: map<(bool, nat, nat), Info>

    constructor (words: map<(nat, nat), nat>)
      ensures this.words == words && cache == map[]
    {
      this.words, cache := words, map[];
    }

    /** Linear search of the antenna map. */
    method Lookup(rx: bool, row: nat, col: nat) returns (ret: Ret, chip: nat, chn: nat)
      ensures ret == if row < ROWS && col < COLS then RetOk else RetGeneralErr
      ensures ret == RetOk ==> chip == MapEntry(rx, row * COLS + col).chip && chn == MapEntry(rx, row * COLS + col).chn
    {
      hide MapEntry;
      chip, chn := 0, 0;
      var i := 0;
      while i < TABLE
        invariant i <= TABLE
        invariant row < ROWS && col < COLS ==> i <= row * COLS + col
      {
        var e := MapEntry(rx, i);
        EntryIsAt(rx, i, row, col);
        if row == e.row && col == e.col {
          chip, chn := e.chip, e.chn;
          return RetOk, chip, chn;
        }
        i := i + 1;
      }
      ret := RetGeneralErr;
    }

    /** The register and channel of an antenna; channels 4 to 7 are those of the second register. */
    method Locate(rx: bool, row: nat, col: nat) returns (ret: Ret, reg: (nat, nat), sub: nat)
      ensures ret == if row < ROWS && col < COLS then RetOk else RetGeneralErr
      ensures ret == RetOk ==> Place(reg, sub) == PlaceOf(rx, row, col)
    {
      var chip, chn;
      ret, chip, chn := Lookup(rx, row, col);
      if chn < 4 {
        reg, sub := (chip, if rx then 0x02 else 0x01), chn;
      } else {
        reg, sub := (chip, if rx then 0x23 else 0x22), chn - 4;
      }
    }

    method ChnSet(rx: bool, row: nat, col: nat, info: Info, readOk: bool, writeOk: bool) returns (ret: Ret)
      requires WordsValid(words)
      modifies this
      ensures WordsValid(words)
      ensures ret == if row > 4 || col > 16 || info.state > 1 || info.phase > 63 || info.com > 15 || info.amp > 15
                     then RetInvalidParam
                     else if row >= ROWS || col >= COLS then RetGeneralErr
                     else if !readOk || !writeOk then RetIoErr else RetOk
      ensures ret != RetOk ==> words == old(words) && cache == old(cache)
      ensures ret == RetOk ==>
                var p := PlaceOf(rx, row, col);
                && words == old(words)[p.reg := SetWord(old(words)[p.reg], p.sub, info)]
                && cache == old(cache)[(rx, row, col) := info]
    {
      hide Put, Pow2, MapEntry;
      if row > ROWS || col > COLS {
        return RetInvalidParam;
      }
      if !InfoValid(info) {
        return RetInvalidParam;
      }
      var at, sub;
      ret, at, sub := Locate(rx, row, col);
      if ret != RetOk {
        return;
      }
      if !readOk {
        return RetIoErr;
      }
      assert at in words && words[at] < Pow2(WORD);
      var reg := words[at];
      SetWordFits(reg, sub, info);
      if info.state == 0 {
        reg := Put(reg, STATE_AT + sub, 1, 1);
      } else {
        reg := Put(reg, STATE_AT + sub, 1, 0);
      }
      reg := Put(reg, sub * 6, 6, info.phase);
      reg := Put(reg, sub * 4 + AMP_AT, 4, info.amp);
      reg := Put(reg, COM_AT, 4, info.com);
      if !writeOk {
        return RetIoErr;
      }
      words := words[at := reg];
      cache := cache[(rx, row, col) := info];
    }

    method ChnGet(rx: bool, row: nat, col: nat, readOk: bool) returns (ret: Ret, info: Info)
      requires WordsValid(words)
      ensures ret == if row > ROWS || col > COLS then RetInvalidParam
                     else if row >= ROWS || col >= COLS then RetGeneralErr
                     else if !readOk then RetIoErr else RetOk
      ensures ret == RetOk ==> info == ReadInfo(words[PlaceOf(rx, row, col).reg], PlaceOf(rx, row, col).sub)
    {
      hide Field, Shifted, MapEntry;
      info := Info(0, 0, 0, 0);
      if row > ROWS || col > COLS {
        return RetInvalidParam, info;
      }
      var at, sub;
      ret, at, sub := Locate(rx, row, col);
      if ret != RetOk {
        return;
      }
      if !readOk {
        return RetIoErr, info;
      }
      assert at in words;
      var reg := words[at];
      info := Info(if Shifted(reg, STATE_AT + sub) == 0 then 1 else 0, Field(reg, sub * 6, 6), Field(reg, COM_AT, 4),
                   Field(reg, sub * 4 + AMP_AT, 4));
    }
  }

  // ----- whole runs -----

  /** One call of a channel setter, with what the serial read and write return. */
  datatype Call = Call(rx: bool, row: nat, col: nat, info: Info, readOk: bool, writeOk: bool)

  predicate Effective(o: Call) {
    o.row < ROWS && o.col < COLS && InfoValid(o.info) && o.readOk && o.writeOk
  }

  function Target(o: Call): Place
    requires Effective(o)
  {
    PlaceOf(o.rx, o.row, o.col)
  }

  /** The registers after one call, as ChnSet leaves them. */
  function CallStep(words: map<(nat, nat), nat>, o: Call): map<(nat, nat), nat>
    requires Effective(o) ==> Target(o).reg in words
  {
    if Effective(o) then words[Target(o).reg := SetWord(words[Target(o).reg], Target(o).sub, o.info)] else words
  }

  lemma CallKeepsWords(words: map<(nat, nat), nat>, o: Call)
    requires WordsValid(words)
    ensures Effective(o) ==> Target(o).reg in words && words[Target(o).reg] < Pow2(WORD)
    ensures Effective(o) ==> WordsValid(CallStep(words, o))
  {
    hide SetWord, Pow2, MapEntry;
    if Effective(o) {
      SetWordFits(words[Target(o).reg], Target(o).sub, o.info);
    }
  }

  ghost function After(words: map<(nat, nat), nat>, calls: seq<Call>): (w: map<(nat, nat), nat>)
    requires WordsValid(words)
    ensures WordsValid(w)
  {
    if calls == [] then words
    else
      var before := After(words, calls[..|calls| - 1]);
      CallKeepsWords(before, calls[|calls| - 1]);
      CallStep(before, calls[|calls| - 1])
  }

  predicate SameAntenna(a: Call, b: Call) {
    a.rx == b.rx && a.row == b.row && a.col == b.col
  }

  /** Call k is the last effective one for its antenna. */
  ghost predicate LastFor(calls: seq<Call>, k: nat) {
    && k < |calls| && Effective(calls[k])
    && forall j :: k < j < |calls| && Effective(calls[j]) ==> !SameAntenna(calls[j], calls[k])
  }

  /** Call k is the last effective one for its four-channel word. */
  ghost predicate LastInWord(calls: seq<Call>, k: nat) {
    && k < |calls| && Effective(calls[k])
    && forall j :: k < j < |calls| && Effective(calls[j]) ==> Target(calls[j]).reg != Target(calls[k]).reg
  }

  /** A later call leaves another place's own fields alone. */
  lemma OtherCallKeeps(words: map<(nat, nat), nat>, o: Call, p: Place)
    requires WordsValid(words) && Effective(o) && p.reg in words && p.sub < 4 && p != Target(o)
    requires Target(o).reg in words
    ensures var x, y := words[p.reg], CallStep(words, o)[p.reg];
            && Field(y, p.sub * 6, 6) == Field(x, p.sub * 6, 6)
            && Field(y, p.sub * 4 + AMP_AT, 4) == Field(x, p.sub * 4 + AMP_AT, 4)
            && (Enabled(y, p.sub) <==> Enabled(x, p.sub))
  {
    hide Field, SetWord, MapEntry;
    var w, sub := words[Target(o).reg], Target(o).sub;
    if p.reg == Target(o).reg {
      OtherFields(w, sub, o.info, p.sub * 6, 6);
      OtherFields(w, sub, o.info, p.sub * 4 + AMP_AT, 4);
      OtherFields(w, sub, o.info, STATE_AT + p.sub, 1);
    }
  }

  lemma OwnCallSets(words: map<(nat, nat), nat>, o: Call)
    requires WordsValid(words) && Effective(o) && Target(o).reg in words
    ensures var y, sub := CallStep(words, o)[Target(o).reg], Target(o).sub;
            && Field(y, sub * 6, 6) == o.info.phase && Field(y, sub * 4 + AMP_AT, 4) == o.info.amp
            && Field(y, COM_AT, 4) == o.info.com && (Enabled(y, sub) <==> o.info.state != 0)
  {
    hide Field, SetWord, MapEntry;
    OwnFields(words[Target(o).reg], Target(o).sub, o.info);
  }

  /** After any run, phase and attenuation read for an antenna are the last ones set for it,
      and its disable bit is the last state set. */
  lemma {:induction false} LastSetReads(words: map<(nat, nat), nat>, calls: seq<Call>, k: nat)
    requires WordsValid(words) && LastFor(calls, k)
    ensures var p := Target(calls[k]);
            && p.reg in After(words, calls)
            && var w := After(words, calls)[p.reg];
            && ReadInfo(w, p.sub).phase == calls[k].info.phase && ReadInfo(w, p.sub).amp == calls[k].info.amp
            && (Enabled(w, p.sub) <==> calls[k].info.state != 0)
    decreases |calls|
  {
    hide Field, SetWord, MapEntry, WordsValid, CallStep, Enabled, Shifted;
    var n := |calls| - 1;
    var before, o := After(words, calls[..n]), calls[n];
    CallKeepsWords(before, o);
    if k == n {
      OwnCallSets(before, o);
      CallHas(before, o, Target(o));
    } else {
      LastSetReads(words, calls[..n], k);
      CallHas(before, o, Target(calls[k]));
      if Effective(o) {
        var c := calls[k];
        if Target(o) == Target(c) {
          PlacesDiffer(o.rx, o.row, o.col, c.rx, c.row, c.col);
        }
        OtherCallKeeps(before, o, Target(c));
      }
    }
  }

  lemma CallHas(words: map<(nat, nat), nat>, o: Call, p: Place)
    requires Effective(o) ==> Target(o).reg in words
    ensures p.reg in words ==> p.reg in CallStep(words, o)
    ensures !Effective(o) ==> CallStep(words, o) == words
    ensures Effective(o) ==> Target(o).reg in CallStep(words, o)
    ensures Effective(o) && p.reg != Target(o).reg && p.reg in words ==> CallStep(words, o)[p.reg] == words[p.reg]
  {
  }

  /** After any run, the common attenuation is the last one set in the four-channel word. */
  lemma {:induction false} LastCommonReads(words: map<(nat, nat), nat>, calls: seq<Call>, k: nat)
    requires WordsValid(words) && LastInWord(calls, k)
    ensures var p := Target(calls[k]);
            && p.reg in After(words, calls)
            && ReadInfo(After(words, calls)[p.reg], p.sub).com == calls[k].info.com
    decreases |calls|
  {
    hide Field, SetWord, MapEntry, WordsValid, CallStep, Shifted;
    var n := |calls| - 1;
    var before, o := After(words, calls[..n]), calls[n];
    CallKeepsWords(before, o);
    if k == n {
      OwnCallSets(before, o);
      CallHas(before, o, Target(o));
    } else {
      LastCommonReads(words, calls[..n], k);
      CallHas(before, o, Target(calls[k]));
    }
  }

  /** The state read is the one last set exactly when that was off, or every higher channel of
      the word is enabled too. */
  lemma StateReadsLastIff(words: map<(nat, nat), nat>, calls: seq<Call>, k: nat)
    requires WordsValid(words) && LastFor(calls, k)
    ensures var p := Target(calls[k]);
            && p.reg in After(words, calls)
            && var w := After(words, calls)[p.reg];
            ReadInfo(w, p.sub).state == calls[k].info.state <==>
              calls[k].info.state == 0 || forall c :: p.sub < c < 4 ==> Enabled(w, c)
  {
    hide Field, SetWord, MapEntry, Enabled, Shifted, Pow2;
    LastSetReads(words, calls, k);
    var p, w := Target(calls[k]), After(words, calls)[Target(calls[k]).reg];
    assert w < Pow2(WORD);
    StateReadIff(w, p.sub);
  }

  /** Such a run exists for every word: switch channel 3 off, then channel 0 on, and 0 reads as off. */
  lemma MisreadExists(w: nat, off: Info, on: Info)
    requires w < Pow2(WORD) && InfoValid(off) && InfoValid(on) && off.state == 0 && on.state == 1
    ensures var x := SetWord(SetWord(w, 3, off), 0, on);
            Enabled(x, 0) && ReadInfo(x, 0).state == 0
  {
    hide SetWord, Pow2;
    var y := SetWord(w, 3, off);
    SetWordFits(w, 3, off);
    SetWordFits(y, 0, on);
    OwnFields(w, 3, off);
    OtherFields(y, 0, on, STATE_AT + 3, 1);
    OwnFields(y, 0, on);
    StateReadIff(SetWord(y, 0, on), 0);
    assert !Enabled(SetWord(y, 0, on), 3);
  }
}
