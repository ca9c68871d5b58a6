// The LMX2492 shadow registers of the eight ramps, written field by field.
module RampRegisters {
  import opened Arith
  import opened Bits32
  import opened BitField

  const REGISTERS: nat := 142
  const FIRST_RAMP_REGISTER: nat := 86

  type Ramp = k: nat | k < 8

  // ----- register addresses -----

  function IncReg(k: Ramp, i: nat): (r: nat)
    requires i < 4
    ensures r < REGISTERS
  {
    (if k < 6 then 0x56 + 7 * k else if k == 6 then 0x80 else 0x87) + i
  }

  function LenReg(k: Ramp, i: nat): (r: nat)
    requires i < 2
    ensures r < REGISTERS
  {
    (if k < 6 then 0x5A + 7 * k else if k == 6 then 0x87 else 0x8B) + i
  }

  /** Flag, reset, next trigger and next ramp share one register. */
  function EventReg(k: Ramp): (r: nat)
    ensures r < REGISTERS
  {
    if k < 6 then 0x5C + 7 * k else if k == 6 then 0x86 else 0x8D
  }

  predicate Owns(k: Ramp, r: nat) {
    IncReg(k, 0) <= r <= IncReg(k, 3) || LenReg(k, 0) <= r <= LenReg(k, 1) || r == EventReg(k)
  }

  /** Ramp 6's length registers are ramp 7's two low increment registers. */
  predicate Alias(j: Ramp, k: Ramp) {
    (j == 6 && k == 7) || (j == 7 && k == 6)
  }

  lemma OwnersDiffer(j: Ramp, k: Ramp, r: nat)
    requires j != k && !Alias(j, k) && Owns(j, r)
    ensures !Owns(k, r)
  {
  }

  // ----- configuring a ramp -----

  datatype Parameter = Parameter(increment: nat, fastlock: bool, length: nat, flag: nat, reset: bool,
                                 trigger: nat, next: nat)

  ghost predicate Shadow(regs: seq<nat>) {
    |regs| == REGISTERS
  }

  ghost function Set(regs: seq<nat>, r: nat, lo: nat, n: nat, v: nat): (s: seq<nat>)
    requires r < |regs|
    ensures |s| == |regs|
  {
    regs[r := Put(regs[r], lo, n, v)]
  }

  ghost function SetIncrement(regs: seq<nat>, k: Ramp, v: nat): (s: seq<nat>)
    requires Shadow(regs)
    ensures Shadow(s)
  {
    Set(Set(Set(Set(regs, IncReg(k, 0), 0, 8, v), IncReg(k, 1), 0, 8, v / 0x100), IncReg(k, 2), 0, 8, v / 0x1_0000),
        IncReg(k, 3), 0, 6, v / 0x100_0000)
  }

  ghost function SetLength(regs: seq<nat>, k: Ramp, v: nat): (s: seq<nat>)
    requires Shadow(regs)
    ensures Shadow(s)
  {
    Set(Set(regs, LenReg(k, 0), 0, 8, v), LenReg(k, 1), 0, 8, v / 0x100)
  }

  /** The shadow array after waveform_configuration; a cleared flag leaves its bit as it was. */
  ghost function Configured(regs: seq<nat>, k: Ramp, p: Parameter): (s: seq<nat>)
    requires Shadow(regs)
    ensures Shadow(s)
  {
    var s1 := SetIncrement(regs, k, p.increment);
    var s2 := if p.fastlock then Set(s1, IncReg(k, 3), 6, 1, 1) else s1;
    var s3 := SetLength(s2, k, p.length);
    var s4 := Set(s3, EventReg(k), 0, 2, p.flag);
    var s5 := if p.reset then Set(s4, EventReg(k), 2, 1, 1) else s4;
    Set(Set(s5, EventReg(k), 3, 2, p.trigger), EventReg(k), 5, 3, p.next)
  }

  class Chip {
    const data: array<nat>

    constructor ()
      ensures fresh(data) && data.Length == REGISTERS && forall i :: 0 <= i < REGISTERS ==> data[i] == 0
    {
      data := new nat[REGISTERS](_ => 0);
    }

    /** The mask is given by its lowest bit and width: it keeps the value's low n bits. */
    method RegisterSetting(reg: nat, value: nat, lo: nat, n: nat)
      requires data.Length == REGISTERS && reg < REGISTERS
      modifies data
      ensures data[..] == Set(old(data[..]), reg, lo, n, value)
    {
      var tmp := data[reg];
      data[reg] := Put(tmp, lo, n, value);
    }

    method IncrementSetting(k: Ramp, value: nat)
      requires data.Length == REGISTERS
      modifies data
      ensures data[..] == SetIncrement(old(data[..]), k, value)
    {
      RegisterSetting(IncReg(k, 0), value, 0, 8);
      RegisterSetting(IncReg(k, 1), value / 0x100, 0, 8);
      RegisterSetting(IncReg(k, 2), value / 0x1_0000, 0, 8);
      RegisterSetting(IncReg(k, 3), value / 0x100_0000, 0, 6);
    }

    method LengthSetting(k: Ramp, value: nat)
      requires data.Length == REGISTERS
      modifies data
      ensures data[..] == SetLength(old(data[..]), k, value)
    {
      RegisterSetting(LenReg(k, 0), value, 0, 8);
      RegisterSetting(LenReg(k, 1), value / 0x100, 0, 8);
    }

    method Configure(k: Ramp, p: Parameter)
      requires data.Length == REGISTERS
      modifies data
      ensures data[..] == Configured(old(data[..]), k, p)
    {
      hide Set, SetIncrement, SetLength;
      IncrementSetting(k, p.increment);
      if p.fastlock {
        RegisterSetting(IncReg(k, 3), 1, 6, 1);
      }
      LengthSetting(k, p.length);
      RegisterSetting(EventReg(k), p.flag, 0, 2);
      if p.reset {
        RegisterSetting(EventReg(k), 1, 2, 1);
      }
      RegisterSetting(EventReg(k), p.trigger, 3, 2);
      RegisterSetting(EventReg(k), p.next, 5, 3);
    }

    method ResetRamps()
      requires data.Length == REGISTERS
      modifies data
      ensures data[..] == old(data[..FIRST_RAMP_REGISTER]) + seq(REGISTERS - FIRST_RAMP_REGISTER, _ => 0)
    {
      for i := FIRST_RAMP_REGISTER to REGISTERS
        invariant forall j :: 0 <= j < FIRST_RAMP_REGISTER ==> data[j] == old(data[j])
        invariant forall j :: FIRST_RAMP_REGISTER <= j < i ==> data[j] == 0
      {
        data[i] := 0;
      }
    }

    /** The shadow part of the single-frequency waveform: only ramp 0 is left configured. */
    method SingleFrequency(p: Parameter)
      requires data.Length == REGISTERS
      modifies data
      ensures var cleared := old(data[..FIRST_RAMP_REGISTER]) + seq(REGISTERS - FIRST_RAMP_REGISTER, _ => 0);
              data[..] == Configured(cleared, 0, p)
    {
      ResetRamps();
      Configure(0, p);
    }
  }

  // ----- what the chip reads out of the registers -----

  datatype Decoded = Decoded(increment: nat, fastlock: nat, delay: nat, length: nat, flag: nat, reset: nat,
                             trigger: nat, next: nat)

  ghost function Decode(regs: seq<nat>, k: Ramp): Decoded
    requires Shadow(regs)
  {
    var high, event := regs[IncReg(k, 3)], regs[EventReg(k)];
    Decoded(Field(regs[IncReg(k, 0)], 0, 8) + 0x100 * Field(regs[IncReg(k, 1)], 0, 8)
            + 0x1_0000 * Field(regs[IncReg(k, 2)], 0, 8) + 0x100_0000 * Field(high, 0, 6),
            Field(high, 6, 1), Field(high, 7, 1),
            Field(regs[LenReg(k, 0)], 0, 8) + 0x100 * Field(regs[LenReg(k, 1)], 0, 8),
            Field(event, 0, 2), Field(event, 2, 1), Field(event, 3, 2), Field(event, 5, 3))
  }

  lemma ConfiguredElsewhere(regs: seq<nat>, k: Ramp, p: Parameter, r: nat)
    requires Shadow(regs) && r < REGISTERS && !Owns(k, r)
    ensures Configured(regs, k, p)[r] == regs[r]
  {
    hide Put;
  }

  /** Configuring one ramp disturbs no other, the aliased pair aside. */
  lemma OthersUndisturbed(regs: seq<nat>, k: Ramp, p: Parameter, j: Ramp)
    requires Shadow(regs) && j != k && !Alias(j, k)
    ensures Decode(Configured(regs, k, p), j) == Decode(regs, j)
  {
    hide Configured, Field;
    forall r | 0 <= r < REGISTERS && Owns(j, r)
      ensures Configured(regs, k, p)[r] == regs[r]
    {
      OwnersDiffer(j, k, r);
      ConfiguredElsewhere(regs, k, p, r);
    }
    SameDecode(Configured(regs, k, p), regs, j);
  }

  lemma SameDecode(a: seq<nat>, b: seq<nat>, j: Ramp)
    requires Shadow(a) && Shadow(b) && forall r :: 0 <= r < REGISTERS && Owns(j, r) ==> a[r] == b[r]
    ensures Decode(a, j) == Decode(b, j)
  {
    hide Field;
    assert Owns(j, IncReg(j, 0)) && Owns(j, IncReg(j, 1)) && Owns(j, IncReg(j, 2)) && Owns(j, IncReg(j, 3));
    assert Owns(j, LenReg(j, 0)) && Owns(j, LenReg(j, 1)) && Owns(j, EventReg(j));
  }

  // ----- a ramp's own configuration -----

  ghost function Merged(old_: Decoded, p: Parameter): Decoded {
    Decoded(p.increment % 0x4000_0000, if p.fastlock then 1 else old_.fastlock, old_.delay, p.length % 0x1_0000,
            p.flag % 4, if p.reset then 1 else old_.reset, p.trigger % 4, p.next % 8)
  }

  lemma Powers()
    ensures Pow2(1) == 2 && Pow2(2) == 4 && Pow2(3) == 8 && Pow2(6) == 64 && Pow2(8) == 256
  {
  }

  lemma BytesOfIncrement(v: nat)
    ensures v % 0x100 + 0x100 * (v / 0x100 % 0x100) + 0x1_0000 * (v / 0x1_0000 % 0x100)
            + 0x100_0000 * (v / 0x100_0000 % 0x40) == v % 0x4000_0000
  {
    ModSplit(v, 0x100, 0x40_0000);
    ModSplit(v / 0x100, 0x100, 0x4000);
    ModSplit(v / 0x1_0000, 0x100, 0x40);
    Bytes(v);
    Bytes(v / 0x100);
  }

  lemma Bytes(v: nat)
    ensures v / 0x100 / 0x100 == v / 0x1_0000
    ensures v / 0x100 / 0x1_0000 == v / 0x100_0000
  {
  }

  lemma BytesOfLength(v: nat)
    ensures v % 0x100 + 0x100 * (v / 0x100 % 0x100) == v % 0x1_0000
  {
    ModSplit(v, 0x100, 0x100);
  }

  /** The four increment registers and the two length registers after a configuration. */
  lemma ConfiguredNumbers(regs: seq<nat>, k: Ramp, p: Parameter)
    requires Shadow(regs)
    ensures var s := Configured(regs, k, p);
            && s[IncReg(k, 0)] == Put(regs[IncReg(k, 0)], 0, 8, p.increment)
            && s[IncReg(k, 1)] == Put(regs[IncReg(k, 1)], 0, 8, p.increment / 0x100)
            && s[IncReg(k, 2)] == Put(regs[IncReg(k, 2)], 0, 8, p.increment / 0x1_0000)
            && s[LenReg(k, 0)] == Put(regs[LenReg(k, 0)], 0, 8, p.length)
            && s[LenReg(k, 1)] == Put(regs[LenReg(k, 1)], 0, 8, p.length / 0x100)
  {
    hide Put;
  }

  lemma ConfiguredHigh(regs: seq<nat>, k: Ramp, p: Parameter)
    requires Shadow(regs)
    ensures var high := Put(regs[IncReg(k, 3)], 0, 6, p.increment / 0x100_0000);
            Configured(regs, k, p)[IncReg(k, 3)] == if p.fastlock then Put(high, 6, 1, 1) else high
  {
    hide Put;
  }

  lemma ConfiguredEvents(regs: seq<nat>, k: Ramp, p: Parameter)
    requires Shadow(regs)
    ensures var flag := Put(regs[EventReg(k)], 0, 2, p.flag);
            var reset := if p.reset then Put(flag, 2, 1, 1) else flag;
            Configured(regs, k, p)[EventReg(k)] == Put(Put(reset, 3, 2, p.trigger), 5, 3, p.next)
  {
    hide Put;
  }

  lemma HighFields(r: nat, v: nat, fastlock: bool)
    ensures var high := Put(r, 0, 6, v);
            var x := if fastlock then Put(high, 6, 1, 1) else high;
            && Field(x, 0, 6) == v % 64 && Field(x, 7, 1) == Field(r, 7, 1)
            && Field(x, 6, 1) == if fastlock then 1 else Field(r, 6, 1)
  {
    hide Put, Field;
    Powers();
    var high := Put(r, 0, 6, v);
    FieldOfPutLow(r, 0, 6, v);
    OtherFieldOfPut(r, 0, 6, v, 7, 1);
    OtherFieldOfPut(r, 0, 6, v, 6, 1);
    FieldOfPutLow(high, 6, 1, 1);
    OtherFieldOfPut(high, 6, 1, 1, 0, 6);
    OtherFieldOfPut(high, 6, 1, 1, 7, 1);
  }

  lemma EventFields(r: nat, p: Parameter)
    ensures var flag := Put(r, 0, 2, p.flag);
            var reset := if p.reset then Put(flag, 2, 1, 1) else flag;
            var x := Put(Put(reset, 3, 2, p.trigger), 5, 3, p.next);
            && Field(x, 0, 2) == p.flag % 4 && Field(x, 3, 2) == p.trigger % 4 && Field(x, 5, 3) == p.next % 8
            && Field(x, 2, 1) == if p.reset then 1 else Field(r, 2, 1)
  {
    hide Put, Field;
    Powers();
    var flag := Put(r, 0, 2, p.flag);
    var reset := if p.reset then Put(flag, 2, 1, 1) else flag;
    var y := Put(reset, 3, 2, p.trigger);
    FieldOfPutLow(r, 0, 2, p.flag);
    OtherFieldOfPut(r, 0, 2, p.flag, 2, 1);
    FieldOfPutLow(flag, 2, 1, 1);
    OtherFieldOfPut(flag, 2, 1, 1, 0, 2);
    FieldOfPutLow(reset, 3, 2, p.trigger);
    OtherFieldOfPut(reset, 3, 2, p.trigger, 0, 2);
    OtherFieldOfPut(reset, 3, 2, p.trigger, 2, 1);
    FieldOfPutLow(y, 5, 3, p.next);
    OtherFieldOfPut(y, 5, 3, p.next, 0, 2);
    OtherFieldOfPut(y, 5, 3, p.next, 2, 1);
    OtherFieldOfPut(y, 5, 3, p.next, 3, 2);
  }

  /** A configured ramp decodes to its parameters; fastlock and reset are only ever switched on. */
  lemma OwnConfiguration(regs: seq<nat>, k: Ramp, p: Parameter)
    requires Shadow(regs)
    ensures Decode(Configured(regs, k, p), k) == Merged(Decode(regs, k), p)
  {
    hide Put, Field, Configured;
    Powers();
    ConfiguredNumbers(regs, k, p);
    ConfiguredHigh(regs, k, p);
    ConfiguredEvents(regs, k, p);
    FieldOfPutLow(regs[IncReg(k, 0)], 0, 8, p.increment);
    FieldOfPutLow(regs[IncReg(k, 1)], 0, 8, p.increment / 0x100);
    FieldOfPutLow(regs[IncReg(k, 2)], 0, 8, p.increment / 0x1_0000);
    FieldOfPutLow(regs[LenReg(k, 0)], 0, 8, p.length);
    FieldOfPutLow(regs[LenReg(k, 1)], 0, 8, p.length / 0x100);
    HighFields(regs[IncReg(k, 3)], p.increment / 0x100_0000, p.fastlock);
    EventFields(regs[EventReg(k)], p);
    BytesOfIncrement(p.increment);
    BytesOfLength(p.length);
  }

  // ----- whole runs -----

  datatype Setup = Setup(k: Ramp, p: Parameter)

  ghost function After(regs: seq<nat>, setups: seq<Setup>): (s: seq<nat>)
    requires Shadow(regs)
    ensures Shadow(s)
  {
    if setups == [] then regs
    else
      var last := setups[|setups| - 1];
      Configured(After(regs, setups[..|setups| - 1]), last.k, last.p)
  }

  /** What ramp j should decode to: its own setups merged in order, the other ramps' ignored. */
  ghost function Expected(setups: seq<Setup>, j: Ramp): Decoded {
    if setups == [] then Decoded(0, 0, 0, 0, 0, 0, 0, 0)
    else
      var last := setups[|setups| - 1];
      var before := Expected(setups[..|setups| - 1], j);
      if last.k == j then Merged(before, last.p) else before
  }

  lemma {:induction false} FieldOfZero(lo: nat, n: nat)
    ensures Field(0, lo, n) == 0
    decreases lo, n
  {
    if lo > 0 {
      FieldOfZero(lo - 1, n);
    } else if n > 0 {
      FieldOfZero(0, n - 1);
    }
  }

  lemma ClearedDecodes(regs: seq<nat>, j: Ramp)
    requires Shadow(regs) && forall r :: FIRST_RAMP_REGISTER <= r < REGISTERS ==> regs[r] == 0
    ensures Decode(regs, j) == Decoded(0, 0, 0, 0, 0, 0, 0, 0)
  {
    hide Field;
    FieldOfZero(0, 8);
    FieldOfZero(0, 6);
    FieldOfZero(6, 1);
    FieldOfZero(7, 1);
    FieldOfZero(0, 2);
    FieldOfZero(2, 1);
    FieldOfZero(3, 2);
    FieldOfZero(5, 3);
  }

  /** From cleared registers, ramps set up in any order and any number of times each decode to
      their own settings, unless a ramp's alias was set up too. */
  lemma {:induction false} RunDecodes(regs: seq<nat>, setups: seq<Setup>, j: Ramp)
    requires Shadow(regs) && forall r :: FIRST_RAMP_REGISTER <= r < REGISTERS ==> regs[r] == 0
    requires forall i :: 0 <= i < |setups| ==> !Alias(j, setups[i].k)
    ensures Decode(After(regs, setups), j) == Expected(setups, j)
    decreases |setups|
  {
    hide Decode, Configured;
    if setups == [] {
      ClearedDecodes(regs, j);
    } else {
      var n := |setups| - 1;
      var before, last := After(regs, setups[..n]), setups[n];
      RunDecodes(regs, setups[..n], j);
      if last.k == j {
        OwnConfiguration(before, j, last.p);
      } else {
        OthersUndisturbed(before, last.k, last.p, j);
      }
    }
  }

  /** The expected fields are the last setup's; fastlock and reset are on if any setup asked for them. */
  lemma {:induction false} ExpectedIsLast(setups: seq<Setup>, j: Ramp, i: nat)
    requires i < |setups| && setups[i].k == j && forall l :: i < l < |setups| ==> setups[l].k != j
    ensures var e, p := Expected(setups, j), setups[i].p;
            && e.increment == p.increment % 0x4000_0000 && e.length == p.length % 0x1_0000 && e.delay == 0
            && e.flag == p.flag % 4 && e.trigger == p.trigger % 4 && e.next == p.next % 8
    decreases |setups|
  {
    DelayStaysZero(setups, j);
    if i < |setups| - 1 {
      ExpectedIsLast(setups[..|setups| - 1], j, i);
    }
  }

  lemma {:induction false} DelayStaysZero(setups: seq<Setup>, j: Ramp)
    ensures Expected(setups, j).delay == 0
  {
    if setups != [] {
      DelayStaysZero(setups[..|setups| - 1], j);
    }
  }

  lemma {:induction false} ExpectedIsSticky(setups: seq<Setup>, j: Ramp)
    ensures var e := Expected(setups, j);
            && (e.fastlock == 1 <==> exists i :: 0 <= i < |setups| && setups[i].k == j && setups[i].p.fastlock)
            && (e.reset == 1 <==> exists i :: 0 <= i < |setups| && setups[i].k == j && setups[i].p.reset)
            && e.fastlock <= 1 && e.reset <= 1
    decreases |setups|
  {
    if setups != [] {
      var n := |setups| - 1;
      ExpectedIsSticky(setups[..n], j);
      assert forall i :: 0 <= i < n ==> setups[..n][i] == setups[i];
    }
  }

  // ----- the registers, byte by byte -----

  /** The registers of a ramp: its lowest increment register, its low length register, and the one of its events. */
  lemma AddressesAre(k: Ramp)
    ensures IncReg(k, 0) == [0x56, 0x5D, 0x64, 0x6B, 0x72, 0x79, 0x80, 0x87][k]
    ensures LenReg(k, 0) == [0x5A, 0x61, 0x68, 0x6F, 0x76, 0x7D, 0x87, 0x8B][k]
    ensures EventReg(k) == [0x5C, 0x63, 0x6A, 0x71, 0x78, 0x7F, 0x86, 0x8D][k]
    ensures forall i :: 0 <= i < 4 ==> IncReg(k, i) == IncReg(k, 0) + i
    ensures LenReg(k, 1) == LenReg(k, 0) + 1
  {
  }

  lemma BytePowers()
    ensures Pow2(0) == 1 && Pow2(1) == 2 && Pow2(2) == 4 && Pow2(3) == 8 && Pow2(5) == 32 && Pow2(6) == 64
    ensures Pow2(7) == 128 && Pow2(8) == 256
  {
  }

  /** What a configured ramp's registers hold: the increment from its lowest byte up, six bits in the fourth and the
      fastlock bit above them, the length's two bytes, and flag, reset, trigger and next from bit 0 up. */
  lemma ConfiguredBytes(regs: seq<nat>, k: Ramp, p: Parameter)
    requires Shadow(regs)
    ensures var s := Configured(regs, k, p);
            && s[IncReg(k, 0)] % 256 == p.increment % 256
            && s[IncReg(k, 1)] % 256 == p.increment / 256 % 256
            && s[IncReg(k, 2)] % 256 == p.increment / 65536 % 256
            && s[IncReg(k, 3)] % 64 == p.increment / 16777216 % 64
            && s[IncReg(k, 3)] / 64 % 2 == (if p.fastlock then 1 else regs[IncReg(k, 3)] / 64 % 2)
            && s[LenReg(k, 0)] % 256 == p.length % 256 && s[LenReg(k, 1)] % 256 == p.length / 256 % 256
            && s[EventReg(k)] % 4 == p.flag % 4
            && s[EventReg(k)] / 4 % 2 == (if p.reset then 1 else regs[EventReg(k)] / 4 % 2)
            && s[EventReg(k)] / 8 % 4 == p.trigger % 4 && s[EventReg(k)] / 32 % 8 == p.next % 8
  {
    BytePowers();
    hide Put, Field, Configured, Pow2, IncReg, LenReg, EventReg;
    var s := Configured(regs, k, p);
    ConfiguredNumbers(regs, k, p);
    ConfiguredHigh(regs, k, p);
    ConfiguredEvents(regs, k, p);
    ByteIs(regs[IncReg(k, 0)], p.increment);
    ByteIs(regs[IncReg(k, 1)], p.increment / 0x100);
    ByteIs(regs[IncReg(k, 2)], p.increment / 0x1_0000);
    ByteIs(regs[LenReg(k, 0)], p.length);
    ByteIs(regs[LenReg(k, 1)], p.length / 0x100);
    HighFields(regs[IncReg(k, 3)], p.increment / 0x100_0000, p.fastlock);
    EventFields(regs[EventReg(k)], p);
    FieldIs(s[IncReg(k, 3)], 0, 6);
    FieldIs(s[IncReg(k, 3)], 6, 1);
    FieldIs(regs[IncReg(k, 3)], 6, 1);
    FieldIs(s[EventReg(k)], 0, 2);
    FieldIs(s[EventReg(k)], 2, 1);
    FieldIs(regs[EventReg(k)], 2, 1);
    FieldIs(s[EventReg(k)], 3, 2);
    FieldIs(s[EventReg(k)], 5, 3);
  }

  lemma ByteIs(r: nat, v: nat)
    ensures Put(r, 0, 8, v) % 256 == v % 256
  {
    BytePowers();
    hide Put, Field, Pow2;
    FieldOfPutLow(r, 0, 8, v);
    FieldIs(Put(r, 0, 8, v), 0, 8);
  }

  /** Ramp 7 set up before ramp 6 keeps its increment exactly when ramp 6's length is the
      increment's low half. */
  lemma AliasKeepsIff(regs: seq<nat>, p7: Parameter, p6: Parameter)
    requires Shadow(regs)
    ensures var s := Configured(Configured(regs, 7, p7), 6, p6);
            Decode(s, 7).increment == p7.increment % 0x4000_0000 <==> p6.length % 0x1_0000 == p7.increment % 0x1_0000
  {
    hide Put, Field, Configured;
    var a := Configured(regs, 7, p7);
    OwnConfiguration(regs, 7, p7);
    ConfiguredNumbers(a, 6, p6);
    ConfiguredElsewhere(a, 6, p6, IncReg(7, 2));
    ConfiguredElsewhere(a, 6, p6, IncReg(7, 3));
    Powers();
    FieldOfPutLow(a[LenReg(6, 0)], 0, 8, p6.length);
    FieldOfPutLow(a[LenReg(6, 1)], 0, 8, p6.length / 0x100);
    ConfiguredNumbers(regs, 7, p7);
    FieldOfPutLow(regs[IncReg(7, 0)], 0, 8, p7.increment);
    FieldOfPutLow(regs[IncReg(7, 1)], 0, 8, p7.increment / 0x100);
    BytesOfLength(p6.length);
    BytesOfLength(p7.increment);
  }

  /** The other way round, ramp 6 keeps its length under the same condition. */
  lemma AliasKeepsLengthIff(regs: seq<nat>, p6: Parameter, p7: Parameter)
    requires Shadow(regs)
    ensures var s := Configured(Configured(regs, 6, p6), 7, p7);
            Decode(s, 6).length == p6.length % 0x1_0000 <==> p7.increment % 0x1_0000 == p6.length % 0x1_0000
  {
    hide Put, Field, Configured;
    var a := Configured(regs, 6, p6);
    ConfiguredNumbers(a, 7, p7);
    Powers();
    FieldOfPutLow(a[IncReg(7, 0)], 0, 8, p7.increment);
    FieldOfPutLow(a[IncReg(7, 1)], 0, 8, p7.increment / 0x100);
    BytesOfLength(p7.increment);
  }

  /** With length 1 and increment 0 for both ramps, whichever is set up first loses. */
  lemma AliasLoses(regs: seq<nat>)
    requires Shadow(regs)
    ensures var p := Parameter(0, false, 1, 0, false, 0, 0);
            && Decode(Configured(Configured(regs, 7, p), 6, p), 7).increment != 0
            && Decode(Configured(Configured(regs, 6, p), 7, p), 6).length != 1
  {
    hide Decode, Configured;
    var p := Parameter(0, false, 1, 0, false, 0, 0);
    AliasKeepsIff(regs, p, p);
    AliasKeepsLengthIff(regs, p, p);
  }

  // ----- the increment as a signed number -----

  /** get_ramp_increment from the 32-bit magnitude: a negative one is taken from 2^30, modulo 2^32. */
  function SignedIncrement(negative: bool, magnitude: nat): (x: nat) {
    if negative then (0x4000_0000 - magnitude) % 0x1_0000_0000 else magnitude
  }

  /** A 30-bit register value read as two's complement. */
  function Signed30(x: nat): int {
    if x < 0x2000_0000 then x else x - 0x4000_0000
  }

  function Signed(negative: bool, magnitude: nat): int {
    if negative then 0 - magnitude else magnitude
  }

  lemma SignedModulo(negative: bool, magnitude: nat)
    requires magnitude < 0x1_0000_0000
    ensures Signed30(SignedIncrement(negative, magnitude) % 0x4000_0000) == Signed(negative, magnitude)
            <==> magnitude < 0x2000_0000 || (negative && magnitude == 0x2000_0000)
  {
  }

  /** A ramp's increment comes back with its sign exactly when the magnitude fits 30 bits signed. */
  lemma IncrementSurvivesIff(regs: seq<nat>, k: Ramp, p: Parameter, negative: bool, magnitude: nat)
    requires Shadow(regs) && magnitude < 0x1_0000_0000 && p.increment == SignedIncrement(negative, magnitude)
    ensures Signed30(Decode(Configured(regs, k, p), k).increment) == Signed(negative, magnitude)
            <==> magnitude < 0x2000_0000 || (negative && magnitude == 0x2000_0000)
  {
    hide Decode, Configured, Signed30, SignedIncrement, Signed;
    OwnConfiguration(regs, k, p);
    SignedModulo(negative, magnitude);
  }

  /** The magnitude 2^29 without a sign is read back as negative. */
  lemma IncrementLost(regs: seq<nat>, k: Ramp, p: Parameter)
    requires Shadow(regs) && p.increment == SignedIncrement(false, 0x2000_0000)
    ensures Signed30(Decode(Configured(regs, k, p), k).increment) == -0x2000_0000
  {
    hide Decode, Configured;
    OwnConfiguration(regs, k, p);
  }
}
