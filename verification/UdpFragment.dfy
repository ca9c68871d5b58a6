// Splitting a message into UDP packets, with bounded retries, and putting it together again.
module UdpFragment {
  import opened Arith

  type Byte = x: int | 0 <= x < 256

  const HEAD_LEN: nat := 20
  const INFO_MAX: nat := 1452         // 1472-byte packets less the head
  const INFO_HEAD_LEN: nat := 24
  const INFO_TAIL_LEN: nat := 4
  const U16: nat := 65536
  const MAX_RETRY: nat := 10000
  const ADC_DATA_LEN: nat := 524444   // info head, 128 bytes, 512 KiB of samples, info tail
  const SEND_BUFF_LEN: nat := (ADC_DATA_LEN / INFO_MAX + 1) * HEAD_LEN + ADC_DATA_LEN

  datatype Ret = RetOk | RetInvalidParam | RetSystemErr

  // ----- packets -----

  function Big16(x: nat): (b: seq<Byte>)
    ensures |b| == 2
  {
    [x / 256 % 256, x % 256]
  }

  lemma Digits(high: nat, low: nat)
    requires high < 256 && low < 256
    ensures Big16(high * 256 + low) == [high, low]
  {
    DivLess(high * 256 + low, 256, high + 1);
    QuotientBound(high * 256 + low, 256, high);
  }

  /** The running counters and the reserved field of the sender's packet head. */
  datatype Counters = Counters(total: nat, info: nat, reserved: seq<Byte>)

  /** Head of packet i of a message; terminal and info type are copied from the message's own head. */
  function Head(total: nat, info: nat, reserved: seq<Byte>, data: seq<Byte>, i: nat, len: nat): (h: seq<Byte>)
    requires |data| >= INFO_HEAD_LEN && |reserved| == 2
    ensures |h| == HEAD_LEN
  {
    [0xF0, 0xF1, 0xF2, 0xF3] + Big16(total) + Big16(HEAD_LEN + len) + Big16(info) +
    data[20..22] + data[16..18] + Big16(PacketCount(|data|)) + Big16(i) + reserved
  }

  lemma Big16Wraps(x: nat)
    ensures Big16(x % U16) == Big16(x)
  {
    ModSplit(x, 256, 256);
    Digits(x / 256 % 256, x % 256);
  }

  function PacketCount(len: nat): nat {
    if len % INFO_MAX == 0 then len / INFO_MAX else len / INFO_MAX + 1
  }

  function ChunkLen(len: nat, i: nat): nat
    requires i * INFO_MAX <= len
  {
    if len - i * INFO_MAX > INFO_MAX then INFO_MAX else len - i * INFO_MAX
  }

  ghost function Packet(c: Counters, data: seq<Byte>, i: nat): (p: seq<Byte>)
    requires |data| >= INFO_HEAD_LEN && |c.reserved| == 2 && i * INFO_MAX <= |data|
    ensures |p| == HEAD_LEN + ChunkLen(|data|, i)
  {
    var len := ChunkLen(|data|, i);
    Head(c.total + i, c.info, c.reserved, data, i, len) + data[i * INFO_MAX..i * INFO_MAX + len]
  }

  lemma CountBounds(len: nat)
    ensures PacketCount(len) * INFO_MAX >= len
    ensures len > 0 ==> (PacketCount(len) - 1) * INFO_MAX < len
    ensures len == 0 ==> PacketCount(len) == 0
  {
  }

  ghost function Packets(c: Counters, data: seq<Byte>): (p: seq<seq<Byte>>)
    requires |data| >= INFO_HEAD_LEN && |c.reserved| == 2
    ensures |p| == PacketCount(|data|)
  {
    CountBounds(|data|);
    seq(PacketCount(|data|), i requires 0 <= i < PacketCount(|data|) => Packet(c, data, i))
  }

  // ----- transmission -----

  /** How many more times a packet of this length goes out when call number at comes next. */
  ghost function Tries(result: nat -> int, at: nat, len: nat, retry: nat): (k: nat)
    requires retry <= MAX_RETRY
    ensures 1 <= k <= MAX_RETRY + 1 - retry
    decreases MAX_RETRY - retry
  {
    if result(at) == len || retry == MAX_RETRY then 1 else 1 + Tries(result, at + 1, len, retry + 1)
  }

  ghost function Repeat<T>(x: T, k: nat): (s: seq<T>)
    ensures |s| == k && forall i :: 0 <= i < k ==> s[i] == x
  {
    seq(k, _ => x)
  }

  /** Everything handed to the network after the first k packets were dealt with. */
  ghost function Sent(result: nat -> int, wire: seq<seq<Byte>>, packets: seq<seq<Byte>>, k: nat): seq<seq<Byte>>
    requires k <= |packets|
  {
    if k == 0 then wire
    else
      var w := Sent(result, wire, packets, k - 1);
      w + Repeat(packets[k - 1], Tries(result, |w|, |packets[k - 1]|, 0))
  }

  lemma RepeatMore<T>(w: seq<T>, x: T, k: nat)
    ensures w + Repeat(x, k) + [x] == w + Repeat(x, k + 1)
  {
  }

  lemma SentNone(result: nat -> int, wire: seq<seq<Byte>>, packets: seq<seq<Byte>>)
    ensures Sent(result, wire, packets, 0) == wire
  {
  }

  /** After its last try, packet k joins what was dealt with. */
  lemma SentMore(result: nat -> int, wire: seq<seq<Byte>>, packets: seq<seq<Byte>>, k: nat, tries: nat)
    requires k < |packets|
    requires tries == Tries(result, |Sent(result, wire, packets, k)|, |packets[k]|, 0)
    ensures Sent(result, wire, packets, k + 1) == Sent(result, wire, packets, k) + Repeat(packets[k], tries)
  {
  }

  lemma TriesStep(result: nat -> int, at: nat, len: nat, retry: nat)
    requires retry <= MAX_RETRY
    ensures Tries(result, at, len, retry)
         == if result(at) == len || retry == MAX_RETRY then 1 else 1 + Tries(result, at + 1, len, retry + 1)
  {
  }

  lemma PacketIs(c: Counters, data: seq<Byte>, i: nat, total: nat)
    requires |data| >= INFO_HEAD_LEN && |c.reserved| == 2 && i < PacketCount(|data|) && i * INFO_MAX <= |data|
    requires Counted(total, c.total, i)
    ensures var len := ChunkLen(|data|, i);
            var chunk := data[i * INFO_MAX..i * INFO_MAX + len];
            Packets(c, data)[i] == Head(total, c.info, c.reserved, data, i, len) + chunk
  {
    Big16Wraps(c.total + i);
  }

  /** The staging buffer holds every packet of a message exactly for messages up to the ADC frame's size. */
  lemma StagingFits(len: nat)
    ensures PacketCount(len) * HEAD_LEN + len <= SEND_BUFF_LEN <==> len <= ADC_DATA_LEN
  {
  }

  lemma ConcatMore(s: seq<seq<Byte>>, k: nat)
    requires k < |s|
    ensures Concat(s[..k + 1]) == Concat(s[..k]) + s[k]
  {
    assert s[..k + 1][..k] == s[..k];
  }

  ghost function Concat(s: seq<seq<Byte>>): seq<Byte> {
    if s == [] then [] else Concat(s[..|s| - 1]) + s[|s| - 1]
  }

  /** Where the loop stands: order packets cut off, left bytes to go. */
  ghost predicate At(len: nat, left: nat, pos: nat, order: nat) {
    && left + pos == len
    && if left > 0 then pos == order * INFO_MAX && order < PacketCount(len) else order == PacketCount(len)
  }

  /** A 16-bit counter that started at base and advanced k times. */
  ghost predicate Counted(total: nat, base: nat, k: nat) {
    total == (base + k) % U16
  }

  lemma CountedNext(total: nat, base: nat, k: nat)
    requires base < U16
    ensures Counted(base, base, 0)
    ensures Counted(total, base, k) ==> total < U16 && Counted((total + 1) % U16, base, k + 1)
  {
  }

  lemma AtStart(len: nat)
    requires len > 0
    ensures At(len, len, 0, 0) && 0 < PacketCount(len)
  {
  }

  lemma StagingRoom(len: nat, left: nat, pos: nat, order: nat)
    requires At(len, left, pos, order) && left > 0 && len <= ADC_DATA_LEN
    ensures order * HEAD_LEN + pos + HEAD_LEN + ChunkLen(len, order) <= SEND_BUFF_LEN
  {
    StagingFits(len);
  }

  /** The first order packets lie one after the other at the front of the staging buffer. */
  ghost predicate Staged(buff: seq<Byte>, at: nat, packets: seq<seq<Byte>>, order: nat) {
    order <= |packets| && at <= |buff| && buff[..at] == Concat(packets[..order])
  }

  lemma StagedStart(buff: seq<Byte>, packets: seq<seq<Byte>>)
    ensures Staged(buff, 0, packets, 0)
  {
    assert packets[..0] == [];
  }

  lemma StagedMore(before: seq<Byte>, after: seq<Byte>, at: nat, packets: seq<seq<Byte>>, k: nat)
    requires Staged(before, at, packets, k) && k < |packets| && |before| == |after|
    requires at + |packets[k]| <= |after| && after[..at] == before[..at] && after[at..at + |packets[k]|] == packets[k]
    ensures Staged(after, at, packets, k) && Staged(after, at + |packets[k]|, packets, k + 1)
  {
    ConcatMore(packets, k);
    assert after[..at + |packets[k]|] == after[..at] + after[at..at + |packets[k]|];
  }

  lemma StagedAll(buff: seq<Byte>, at: nat, packets: seq<seq<Byte>>)
    requires Staged(buff, at, packets, |packets|)
    ensures |Concat(packets)| <= |buff| && buff[..|Concat(packets)|] == Concat(packets)
  {
    assert packets[..|packets|] == packets;
  }

  lemma AtNext(len: nat, left: nat, pos: nat, order: nat)
    requires At(len, left, pos, order) && left > 0
    ensures var n := if left > INFO_MAX then INFO_MAX else left;
            && pos == order * INFO_MAX && order < PacketCount(len)
            && n == ChunkLen(len, order) && At(len, left - n, pos + n, order + 1)
            && (left > n ==> order + 1 < PacketCount(len)) && (left == n ==> order + 1 == PacketCount(len))
  {
  }

  /** The wire once packet k went out retry times in vain after all earlier ones were dealt with. */
  ghost predicate Under(result: nat -> int, w: seq<seq<Byte>>, packets: seq<seq<Byte>>, k: nat, retry: nat,
                        wire: seq<seq<Byte>>) {
    && k < |packets| && retry <= MAX_RETRY
    && wire == Sent(result, w, packets, k) + Repeat(packets[k], retry)
    && Tries(result, |Sent(result, w, packets, k)|, |packets[k]|, 0)
       == retry + Tries(result, |wire|, |packets[k]|, retry)
  }

  lemma StartPacket(result: nat -> int, w: seq<seq<Byte>>, packets: seq<seq<Byte>>, k: nat)
    requires k < |packets|
    ensures Under(result, w, packets, k, 0, Sent(result, w, packets, k))
  {
  }

  lemma OneMoreTry(result: nat -> int, w: seq<seq<Byte>>, packets: seq<seq<Byte>>, k: nat, retry: nat,
                   wire: seq<seq<Byte>>)
    requires Under(result, w, packets, k, retry, wire)
    ensures if result(|wire|) != |packets[k]| && retry < MAX_RETRY
            then Under(result, w, packets, k, retry + 1, wire + [packets[k]])
            else wire + [packets[k]] == Sent(result, w, packets, k + 1)
  {
    TriesStep(result, |wire|, |packets[k]|, retry);
    RepeatMore(Sent(result, w, packets, k), packets[k], retry);
    if !(result(|wire|) != |packets[k]| && retry < MAX_RETRY) {
      SentMore(result, w, packets, k, retry + 1);
    }
  }

  class Sender {
    const result: nat -> int        // what the k-th sendto call returns
    const reserved: seq<Byte>
    const buff: array<Byte>
    var total: nat                  // totalPacketNum
    var info: nat                   // sendInfoCount
    var wire: seq<seq<Byte>>        // every datagram handed to sendto, in order

    ghost predicate Valid()
      reads this
    {
      total < U16 && info < U16 && |reserved| == 2 && buff.Length == SEND_BUFF_LEN
    }

    constructor (result: nat -> int)
      ensures Valid() && fresh(buff) && wire == [] && total == info == 0 && this.result == result
    {
      this.result := result;
      reserved := [0, 0];
      buff := new Byte[SEND_BUFF_LEN](_ => 0);
      total, info, wire := 0, 0, [];
    }

    method SendTo(packet: seq<Byte>) returns (len: int)
      modifies this`wire
      ensures wire == old(wire) + [packet] && len == result(|old(wire)|)
    {
      len := result(|wire|);
      wire := wire + [packet];
    }

    /** Writes a packet into the staging buffer. */
    method Stage(packet: seq<Byte>, at: nat)
      requires at + |packet| <= buff.Length
      modifies buff
      ensures buff[..at] == old(buff[..at]) && buff[at..at + |packet|] == packet
    {
      for i := 0 to |packet|
        invariant forall k :: 0 <= k < at ==> buff[k] == old(buff[k])
        invariant forall k :: 0 <= k < i ==> buff[at + k] == packet[k]
      {
        buff[at + i] := packet[i];
      }
    }

    /** The packet in turn joins the packets already staged. */
    method StageNext(packet: seq<Byte>, at: nat, ghost packets: seq<seq<Byte>>, ghost k: nat)
      requires k < |packets| && packet == packets[k] && at + |packet| <= buff.Length
      requires Staged(buff[..], at, packets, k)
      modifies buff
      ensures Staged(buff[..], at, packets, k) && Staged(buff[..], at + |packet|, packets, k + 1)
    {
      hide Staged;
      ghost var before := buff[..];
      Stage(packet, at);
      assert buff[..][..at] == before[..at] && buff[..][at..at + |packet|] == packet;
      StagedMore(before, buff[..], at, packets, k);
    }

    method SendData(data: seq<Byte>, ready: bool, locked: bool) returns (ret: Ret)
      requires Valid() && INFO_HEAD_LEN <= |data| <= ADC_DATA_LEN
      modifies this`total, this`info, this`wire, buff
      ensures Valid()
      ensures !ready || !locked ==>
                ret == (if ready then RetOk else RetSystemErr) &&
                wire == old(wire) && total == old(total) && info == old(info) && buff[..] == old(buff[..])
      ensures ready && locked ==>
                var packets := Packets(Counters(old(total), old(info), reserved), data);
                && ret == RetOk
                && wire == Sent(result, old(wire), packets, |packets|)
                && Counted(total, old(total), |packets|)
                && Counted(info, old(info), 1)
                && |old(wire)| <= |wire|
                && (Receive(Delivered(result, wire, |old(wire)|)) == data <==> AllThrough(result, old(wire), packets))
    {
      hide Head, Packets, Sent, Concat, Delivered, Receive, AllThrough;
      if !ready {
        return RetSystemErr;
      }
      ret := RetOk;
      if locked {
        ReceivedIff(result, wire, Counters(total, info, reserved), data);
        SendPackets(data);
        info := (info + 1) % U16;
      }
    }

    method SendPackets(data: seq<Byte>)
      requires Valid() && INFO_HEAD_LEN <= |data| <= ADC_DATA_LEN
      modifies this`total, this`wire, buff
      ensures var packets := Packets(Counters(old(total), info, reserved), data);
              && wire == Sent(result, old(wire), packets, |packets|)
              && Counted(total, old(total), |packets|)
              && |Concat(packets)| <= buff.Length && buff[..|Concat(packets)|] == Concat(packets)
    {
      hide Head, Under, Sent, Packets, Packet, PacketCount, ChunkLen, Staged, At, Big16, Counted, Concat;
      ghost var c := Counters(total, info, reserved);
      ghost var packets := Packets(c, data);
      ghost var w := wire;
      var left: nat, pos: nat, at: nat, order: nat, retry: nat := |data|, 0, 0, 0, 0;
      AtStart(|data|);
      CountedNext(total, total, 0);
      StagedStart(buff[..], packets);
      StartPacket(result, w, packets, 0);
      SentNone(result, w, packets);
      while left > 0
        invariant At(|data|, left, pos, order) && order <= |packets| && (left == 0 ==> order == |packets|)
        invariant Counted(total, c.total, order)
        invariant if left > 0 then Under(result, w, packets, order, retry, wire)
                  else wire == Sent(result, w, packets, order)
        invariant retry <= MAX_RETRY && Staged(buff[..], at, packets, order) && at == order * HEAD_LEN + pos
        decreases left, MAX_RETRY - retry
      {
        var len := if left > INFO_MAX then INFO_MAX else left;
        AtNext(|data|, left, pos, order);
        StagingRoom(|data|, left, pos, order);
        PacketIs(c, data, order, total);
        var packet := Head(total, info, reserved, data, order, len) + data[pos..pos + len];
        assert packet == packets[order];
        StageNext(packet, at, packets, order);
        OneMoreTry(result, w, packets, order, retry, wire);
        var sendLen := SendTo(packet);
        if sendLen != HEAD_LEN + len {
          if retry < MAX_RETRY {
            retry := retry + 1;
            continue;
          }
        }
        retry := 0;
        at := at + HEAD_LEN + len;
        left := left - len;
        pos := pos + len;
        CountedNext(total, c.total, order);
        total := (total + 1) % U16;
        order := order + 1;
        if left > 0 {
          StartPacket(result, w, packets, order);
        }
      }
      CountedNext(total, c.total, order);
      StagedAll(buff[..], at, packets);
    }

    method SendBlocking(data: seq<Byte>, ready: bool, locked: bool) returns (ret: Ret)
      requires Valid() && |data| <= ADC_DATA_LEN
      modifies this`total, this`info, this`wire, buff
      ensures Valid()
      ensures |data| <= INFO_HEAD_LEN + INFO_TAIL_LEN || !ready || !locked ==>
                wire == old(wire) && total == old(total) && info == old(info) && buff[..] == old(buff[..])
      ensures ret == if |data| <= INFO_HEAD_LEN + INFO_TAIL_LEN then RetInvalidParam
                     else if ready then RetOk else RetSystemErr
      ensures |data| > INFO_HEAD_LEN + INFO_TAIL_LEN && ready && locked ==>
                var packets := Packets(Counters(old(total), old(info), reserved), data);
                && wire == Sent(result, old(wire), packets, |packets|)
                && |old(wire)| <= |wire|
                && (Receive(Delivered(result, wire, |old(wire)|)) == data <==> AllThrough(result, old(wire), packets))
    {
      hide Packets, Sent, Delivered, Receive, AllThrough;
      if |data| <= INFO_HEAD_LEN + INFO_TAIL_LEN {
        return RetInvalidParam;
      }
      ret := SendData(data, ready, locked);
    }
  }

  // ----- putting a message together again -----

  ghost function Big16At(p: seq<Byte>, k: nat): nat
    requires k + 2 <= |p|
  {
    (p[k] as int) * 256 + p[k + 1] as int
  }

  lemma Big16Reads(x: nat)
    requires x < U16
    ensures Big16At(Big16(x), 0) == x && Big16(x)[0] as int * 256 + Big16(x)[1] as int == x
  {
  }

  /** Every byte of packet i: flag, counters, length, the types the message's own head carries, number of
      packets, order, reserved bytes, and the payload; numbers have their high byte first. */
  lemma PacketFields(c: Counters, data: seq<Byte>, i: nat)
    requires |data| >= INFO_HEAD_LEN && |c.reserved| == 2 && PacketCount(|data|) < U16
    requires i < PacketCount(|data|) && i * INFO_MAX <= |data|
    ensures var p := Packet(c, data, i);
            && Big16At(p, 6) == |p| && Big16At(p, 14) == PacketCount(|data|) && Big16At(p, 16) == i
            && p[HEAD_LEN..] == data[i * INFO_MAX..i * INFO_MAX + ChunkLen(|data|, i)]
    ensures var p := Packet(c, data, i);
            && p[0] == 0xF0 && p[1] == 0xF1 && p[2] == 0xF2 && p[3] == 0xF3
            && p[4] as int * 256 + p[5] as int == (c.total + i) % 65536
            && p[6] as int * 256 + p[7] as int == |p|
            && (c.info < 65536 ==> p[8] as int * 256 + p[9] as int == c.info)
            && p[10] == data[20] && p[11] == data[21] && p[12] == data[16] && p[13] == data[17]
            && p[14] as int * 256 + p[15] as int == PacketCount(|data|)
            && p[16] as int * 256 + p[17] as int == i
            && p[18..20] == c.reserved
  {
    hide Big16;
    var p := Packet(c, data, i);
    var len := ChunkLen(|data|, i);
    HeadIs(c.total + i, c.info, c.reserved, data, i, len);
    Big16Wraps(c.total + i);
    Big16Reads((c.total + i) % U16);
    Big16Reads(HEAD_LEN + len);
    Big16Reads(PacketCount(|data|));
    Big16Reads(i);
    if c.info < 65536 {
      Big16Reads(c.info);
    }
  }

  /** The head, two bytes at a time. */
  lemma HeadIs(total: nat, info: nat, reserved: seq<Byte>, data: seq<Byte>, i: nat, len: nat)
    requires |data| >= INFO_HEAD_LEN && |reserved| == 2
    ensures var h := Head(total, info, reserved, data, i, len);
            && h[0] == 0xF0 && h[1] == 0xF1 && h[2] == 0xF2 && h[3] == 0xF3
            && h[4] == Big16(total)[0] && h[5] == Big16(total)[1]
            && h[6] == Big16(HEAD_LEN + len)[0] && h[7] == Big16(HEAD_LEN + len)[1]
            && h[8] == Big16(info)[0] && h[9] == Big16(info)[1]
            && h[10] == data[20] && h[11] == data[21] && h[12] == data[16] && h[13] == data[17]
            && h[14] == Big16(PacketCount(|data|))[0] && h[15] == Big16(PacketCount(|data|))[1]
            && h[16] == Big16(i)[0] && h[17] == Big16(i)[1] && h[18..20] == reserved
  {
    hide Big16;
  }

  /** The payload of the first packet received with order k. */
  ghost function PayloadOf(got: seq<seq<Byte>>, k: nat): seq<Byte> {
    if got == [] then []
    else if |got[0]| >= HEAD_LEN && Big16At(got[0], 16) == k then got[0][HEAD_LEN..]
    else PayloadOf(got[1..], k)
  }

  /** The payloads of orders 0 to n - 1, joined. */
  ghost function Rebuild(got: seq<seq<Byte>>, n: nat): seq<Byte> {
    if n == 0 then [] else Rebuild(got, n - 1) + PayloadOf(got, n - 1)
  }

  lemma {:induction false} PayloadIsChunk(c: Counters, data: seq<Byte>, got: seq<seq<Byte>>, k: nat)
    requires |data| >= INFO_HEAD_LEN && |c.reserved| == 2 && PacketCount(|data|) < U16
    requires k < PacketCount(|data|) && k * INFO_MAX <= |data|
    requires forall p :: p in got ==> p in Packets(c, data)
    requires Packet(c, data, k) in got
    ensures PayloadOf(got, k) == data[k * INFO_MAX..k * INFO_MAX + ChunkLen(|data|, k)]
  {
    hide Packet;
    CountBounds(|data|);
    assert got[0] in Packets(c, data);
    var i :| 0 <= i < PacketCount(|data|) && Packets(c, data)[i] == got[0];
    PacketFields(c, data, i);
    if i != k {
      PacketFields(c, data, k);
      assert got == [got[0]] + got[1..];
      PayloadIsChunk(c, data, got[1..], k);
    }
  }

  lemma PrefixGrows(data: seq<Byte>, k: nat)
    requires k < PacketCount(|data|) && k * INFO_MAX <= |data|
    ensures data[..if k * INFO_MAX < |data| then k * INFO_MAX else |data|] +
            data[k * INFO_MAX..k * INFO_MAX + ChunkLen(|data|, k)]
         == data[..if (k + 1) * INFO_MAX < |data| then (k + 1) * INFO_MAX else |data|]
  {
    CountBounds(|data|);
  }

  lemma {:induction false} RebuildPrefix(c: Counters, data: seq<Byte>, got: seq<seq<Byte>>, n: nat)
    requires |data| >= INFO_HEAD_LEN && |c.reserved| == 2 && PacketCount(|data|) < U16 && n <= PacketCount(|data|)
    requires forall p :: p in got <==> p in Packets(c, data)
    ensures Rebuild(got, n) == data[..if n * INFO_MAX < |data| then n * INFO_MAX else |data|]
  {
    hide Packet, ChunkLen, PayloadOf;
    CountBounds(|data|);
    if n > 0 {
      RebuildPrefix(c, data, got, n - 1);
      assert Packets(c, data)[n - 1] == Packet(c, data, n - 1);
      PayloadIsChunk(c, data, got, n - 1);
      PrefixGrows(data, n - 1);
    }
  }

  /** Whatever order and multiplicity the packets arrive in, if all arrive they rebuild the message. */
  lemma Reassembles(c: Counters, data: seq<Byte>, got: seq<seq<Byte>>)
    requires |data| >= INFO_HEAD_LEN && |c.reserved| == 2 && PacketCount(|data|) < U16
    requires forall p :: p in got <==> p in Packets(c, data)
    ensures got != [] && |got[0]| >= HEAD_LEN
    ensures Rebuild(got, Big16At(got[0], 14)) == data
  {
    hide Packet, Rebuild, ChunkLen;
    CountBounds(|data|);
    assert Packets(c, data)[0] in got;
    assert got[0] in Packets(c, data);
    var i :| 0 <= i < PacketCount(|data|) && Packets(c, data)[i] == got[0];
    PacketFields(c, data, i);
    RebuildPrefix(c, data, got, PacketCount(|data|));
  }

  /** What goes out is every packet of the message and nothing else, each at most 10001 times. */
  lemma {:induction false} SentIsPackets(result: nat -> int, w: seq<seq<Byte>>, packets: seq<seq<Byte>>, k: nat)
    requires k <= |packets|
    ensures var all := Sent(result, w, packets, k);
            && w <= all && k <= |all| - |w| <= k * (MAX_RETRY + 1)
            && (forall p :: p in all[|w|..] <==> p in packets[..k])
  {
    hide Sent;
    SentNone(result, w, packets);
    if k > 0 {
      SentIsPackets(result, w, packets, k - 1);
      var before := Sent(result, w, packets, k - 1);
      var tries := Repeat(packets[k - 1], Tries(result, |before|, |packets[k - 1]|, 0));
      SentMore(result, w, packets, k - 1, |tries|);
      assert Sent(result, w, packets, k)[|w|..] == before[|w|..] + tries;
      assert packets[..k] == packets[..k - 1] + [packets[k - 1]];
      assert tries[0] == packets[k - 1];
    }
  }

  // ----- what the network accepts -----

  /** The datagrams from position at on whose sendto call took the whole datagram. */
  ghost function Delivered(result: nat -> int, wire: seq<seq<Byte>>, at: nat): (got: seq<seq<Byte>>)
    requires at <= |wire|
  {
    if |wire| == at then []
    else
      var last := |wire| - 1;
      Delivered(result, wire[..last], at) + if result(last) == |wire[last]| then [wire[last]] else []
  }

  /** One of the 10001 calls from number at on takes a packet of this length. */
  ghost predicate Taken(result: nat -> int, at: nat, len: nat) {
    exists n: nat :: at <= n <= at + MAX_RETRY && result(n) == len
  }

  /** Packet k gets through on one of its tries. */
  ghost predicate Through(result: nat -> int, w: seq<seq<Byte>>, packets: seq<seq<Byte>>, k: nat)
    requires k < |packets|
  {
    Taken(result, |Sent(result, w, packets, k)|, |packets[k]|)
  }

  ghost predicate AllThrough(result: nat -> int, w: seq<seq<Byte>>, packets: seq<seq<Byte>>) {
    forall k :: 0 <= k < |packets| ==> Through(result, w, packets, k)
  }

  /** Only the last try of a packet can succeed, and it does exactly if any of the 10001 calls would. */
  lemma {:induction false} OnlyLastTry(result: nat -> int, at: nat, len: nat, retry: nat)
    requires retry <= MAX_RETRY
    ensures var last := at + Tries(result, at, len, retry) - 1;
            && (forall n: nat :: at <= n < last ==> result(n) != len)
            && (result(last) == len <==> exists n: nat :: at <= n <= at + MAX_RETRY - retry && result(n) == len)
            && (result(last) != len ==> last == at + MAX_RETRY - retry)
    decreases MAX_RETRY - retry
  {
    if result(at) != len && retry < MAX_RETRY {
      OnlyLastTry(result, at + 1, len, retry + 1);
    }
  }

  /** Calls that all fail deliver nothing. */
  lemma {:induction false} FailedTries(result: nat -> int, w: seq<seq<Byte>>, p: seq<Byte>, k: nat, at: nat)
    requires at <= |w| && forall n: nat :: |w| <= n < |w| + k ==> result(n) != |p|
    ensures Delivered(result, w + Repeat(p, k), at) == Delivered(result, w, at)
  {
    if k == 0 {
      assert w + Repeat(p, 0) == w;
    } else {
      FailedTries(result, w, p, k - 1, at);
      assert (w + Repeat(p, k))[..|w| + k - 1] == w + Repeat(p, k - 1);
    }
  }

  lemma DeliveredUpTo(result: nat -> int, w: seq<seq<Byte>>, p: seq<Byte>, k: nat, at: nat)
    requires at <= |w| && k > 0 && forall n: nat :: |w| <= n < |w| + k - 1 ==> result(n) != |p|
    ensures Delivered(result, w + Repeat(p, k), at)
         == Delivered(result, w, at) + if result(|w| + k - 1) == |p| then [p] else []
  {
    hide Delivered;
    FailedTries(result, w, p, k - 1, at);
    RepeatMore(w, p, k - 1);
    DeliveredLast(result, w + Repeat(p, k - 1), p, at);
  }

  /** Of all tries of a packet only one that succeeds delivers it. */
  lemma DeliveredTries(result: nat -> int, w: seq<seq<Byte>>, p: seq<Byte>, at: nat)
    requires at <= |w|
    ensures Delivered(result, w + Repeat(p, Tries(result, |w|, |p|, 0)), at)
         == Delivered(result, w, at) + if Taken(result, |w|, |p|) then [p] else []
  {
    hide Tries, Delivered, Repeat;
    OnlyLastTry(result, |w|, |p|, 0);
    DeliveredUpTo(result, w, p, Tries(result, |w|, |p|, 0), at);
  }

  lemma DeliveredLast(result: nat -> int, w: seq<seq<Byte>>, p: seq<Byte>, at: nat)
    requires at <= |w|
    ensures Delivered(result, w + [p], at) == Delivered(result, w, at) + if result(|w|) == |p| then [p] else []
  {
    assert (w + [p])[..|w|] == w;
  }

  /** A packet that gets through is delivered once, the others not at all. */
  lemma DeliveredNext(result: nat -> int, w: seq<seq<Byte>>, packets: seq<seq<Byte>>, k: nat)
    requires k < |packets| && |w| <= |Sent(result, w, packets, k)|
    ensures var before, after := Sent(result, w, packets, k), Sent(result, w, packets, k + 1);
            && |w| <= |after|
            && Delivered(result, after, |w|)
               == Delivered(result, before, |w|) + if Through(result, w, packets, k) then [packets[k]] else []
  {
    hide Delivered, Taken, Tries, Sent;
    var before := Sent(result, w, packets, k);
    SentMore(result, w, packets, k, Tries(result, |before|, |packets[k]|, 0));
    DeliveredTries(result, before, packets[k], |w|);
  }

  /** The packets among the first k that get through, in order. */
  ghost function GotThrough(result: nat -> int, w: seq<seq<Byte>>, packets: seq<seq<Byte>>, k: nat): seq<seq<Byte>>
    requires k <= |packets|
  {
    if k == 0 then []
    else GotThrough(result, w, packets, k - 1) + if Through(result, w, packets, k - 1) then [packets[k - 1]] else []
  }

  /** The socket takes each packet that gets through once, in order, and nothing else. */
  lemma {:induction false} DeliveredIs(result: nat -> int, w: seq<seq<Byte>>, packets: seq<seq<Byte>>, k: nat)
    requires k <= |packets|
    ensures |w| <= |Sent(result, w, packets, k)|
    ensures Delivered(result, Sent(result, w, packets, k), |w|) == GotThrough(result, w, packets, k)
  {
    hide Sent, Through;
    SentNone(result, w, packets);
    if k > 0 {
      DeliveredIs(result, w, packets, k - 1);
      DeliveredNext(result, w, packets, k - 1);
    }
  }

  lemma {:induction false} GotThroughMembers(result: nat -> int, w: seq<seq<Byte>>, packets: seq<seq<Byte>>, k: nat)
    requires k <= |packets|
    ensures forall p :: p in GotThrough(result, w, packets, k)
                    <==> exists i :: 0 <= i < k && Through(result, w, packets, i) && packets[i] == p
  {
    hide Through;
    if k > 0 {
      GotThroughMembers(result, w, packets, k - 1);
    }
  }

  /** What a receiver makes of what arrives: the payloads in order, as many as the first head counts. */
  ghost function Receive(got: seq<seq<Byte>>): seq<Byte> {
    if got == [] || |got[0]| < HEAD_LEN then [] else Rebuild(got, Big16At(got[0], 14))
  }

  /** Packets are told apart by their order field. */
  lemma PacketsDiffer(c: Counters, data: seq<Byte>, i: nat, k: nat)
    requires |data| >= INFO_HEAD_LEN && |c.reserved| == 2 && PacketCount(|data|) < U16
    requires i < PacketCount(|data|) && k < PacketCount(|data|) && Packets(c, data)[i] == Packets(c, data)[k]
    ensures i == k
  {
    CountBounds(|data|);
    PacketFields(c, data, i);
    PacketFields(c, data, k);
  }

  lemma {:induction false} NothingOf(c: Counters, data: seq<Byte>, got: seq<seq<Byte>>, k: nat)
    requires |data| >= INFO_HEAD_LEN && |c.reserved| == 2 && PacketCount(|data|) < U16
    requires k < PacketCount(|data|) && Packets(c, data)[k] !in got
    requires forall p :: p in got ==> p in Packets(c, data)
    ensures PayloadOf(got, k) == []
  {
    hide Packet;
    if got != [] {
      CountBounds(|data|);
      assert got[0] in Packets(c, data);
      var i :| 0 <= i < PacketCount(|data|) && Packets(c, data)[i] == got[0];
      PacketFields(c, data, i);
      assert got == [got[0]] + got[1..];
      NothingOf(c, data, got[1..], k);
    }
  }

  /** With packets missing, what is rebuilt is too short. */
  lemma {:induction false} RebuiltLength(c: Counters, data: seq<Byte>, got: seq<seq<Byte>>, n: nat, lost: nat)
    requires |data| >= INFO_HEAD_LEN && |c.reserved| == 2 && PacketCount(|data|) < U16 && n <= PacketCount(|data|)
    requires lost < PacketCount(|data|) && Packets(c, data)[lost] !in got
    requires forall p :: p in got ==> p in Packets(c, data)
    ensures var full := if n * INFO_MAX < |data| then n * INFO_MAX else |data|;
            |Rebuild(got, n)| <= full && (lost < n ==> |Rebuild(got, n)| < full)
  {
    hide Packet;
    CountBounds(|data|);
    if n > 0 {
      RebuiltLength(c, data, got, n - 1, lost);
      if Packets(c, data)[n - 1] in got {
        assert Packets(c, data)[n - 1] == Packet(c, data, n - 1);
        PayloadIsChunk(c, data, got, n - 1);
      } else {
        NothingOf(c, data, got, n - 1);
      }
    }
  }

  /** A packet all of whose 10001 tries fail is never delivered, and the message falls short. */
  lemma GivenUpIsLost(result: nat -> int, w: seq<seq<Byte>>, c: Counters, data: seq<Byte>, k: nat)
    requires |data| >= INFO_HEAD_LEN && |c.reserved| == 2 && PacketCount(|data|) < U16 && k < PacketCount(|data|)
    requires var at := |Sent(result, w, Packets(c, data), k)|;
             forall n: nat :: at <= n <= at + MAX_RETRY ==> result(n) != |Packets(c, data)[k]|
    ensures var packets := Packets(c, data);
            var wire := Sent(result, w, packets, |packets|);
            && |w| <= |wire|
            && packets[k] !in Delivered(result, wire, |w|)
            && |Receive(Delivered(result, wire, |w|))| < |data|
  {
    hide Sent, Packets, Delivered, Receive;
    var packets := Packets(c, data);
    var got := GotThrough(result, w, packets, |packets|);
    DeliveredIs(result, w, packets, |packets|);
    GotThroughMembers(result, w, packets, |packets|);
    assert !Through(result, w, packets, k);
    if packets[k] in got {
      var i :| 0 <= i < |packets| && Through(result, w, packets, i) && packets[i] == packets[k];
      PacketsDiffer(c, data, i, k);
      assert false;
    }
    ShortOfOne(c, data, got, k);
  }

  /** The receiver gets the message exactly when every packet gets through on one of its 10001 tries. */
  lemma ReceivedIff(result: nat -> int, w: seq<seq<Byte>>, c: Counters, data: seq<Byte>)
    requires |data| >= INFO_HEAD_LEN && |c.reserved| == 2 && PacketCount(|data|) < U16
    ensures var packets := Packets(c, data);
            var wire := Sent(result, w, packets, |packets|);
            && |w| <= |wire|
            && (Receive(Delivered(result, wire, |w|)) == data <==> AllThrough(result, w, packets))
  {
    hide Sent, Through, Packets, Rebuild, Delivered;
    var packets := Packets(c, data);
    if AllThrough(result, w, packets) {
      DeliveredIs(result, w, packets, |packets|);
      GotThroughMembers(result, w, packets, |packets|);
      Reassembles(c, data, GotThrough(result, w, packets, |packets|));
    } else {
      var k :| 0 <= k < |packets| && !Through(result, w, packets, k);
      NotThrough(result, w, packets, k);
      GivenUpIsLost(result, w, c, data, k);
    }
  }

  lemma NotThrough(result: nat -> int, w: seq<seq<Byte>>, packets: seq<seq<Byte>>, k: nat)
    requires k < |packets| && !Through(result, w, packets, k)
    ensures var at := |Sent(result, w, packets, k)|;
            forall n: nat :: at <= n <= at + MAX_RETRY ==> result(n) != |packets[k]|
  {
  }

  lemma ShortOfOne(c: Counters, data: seq<Byte>, got: seq<seq<Byte>>, lost: nat)
    requires |data| >= INFO_HEAD_LEN && |c.reserved| == 2 && PacketCount(|data|) < U16
    requires lost < PacketCount(|data|) && Packets(c, data)[lost] !in got
    requires forall p :: p in got ==> p in Packets(c, data)
    ensures |Receive(got)| < |data|
  {
    if got != [] {
      CountBounds(|data|);
      assert got[0] in Packets(c, data);
      var i :| 0 <= i < PacketCount(|data|) && Packets(c, data)[i] == got[0];
      PacketFields(c, data, i);
      RebuiltLength(c, data, got, PacketCount(|data|), lost);
    }
  }

  /** A socket that refuses the first 10001 calls of a message and then takes every packet. */
  ghost function RefusesFirst(at: nat, packets: seq<seq<Byte>>): nat -> int {
    (n: nat) =>
      var k := n - at - MAX_RETRY;
      if 0 < k < |packets| then |packets[k]| else -1
  }

  /** With such a socket every packet but the first arrives: the sender gives that one up and goes on. */
  lemma {:induction false} FirstIsLost(w: seq<seq<Byte>>, packets: seq<seq<Byte>>, k: nat)
    requires 0 < k <= |packets|
    ensures var result := RefusesFirst(|w|, packets);
            && |Sent(result, w, packets, k)| == |w| + MAX_RETRY + k
            && Delivered(result, Sent(result, w, packets, k), |w|) == packets[1..k]
  {
    hide Sent, Delivered, Tries, Taken;
    var result := RefusesFirst(|w|, packets);
    var p := packets[k - 1];
    if k == 1 {
      SentNone(result, w, packets);
      AllRefused(result, |w|, |p|);
      SentMore(result, w, packets, 0, MAX_RETRY + 1);
      DeliveredTries(result, w, p, |w|);
      NothingYet(result, w);
    } else {
      FirstIsLost(w, packets, k - 1);
      var before := Sent(result, w, packets, k - 1);
      AtOnce(result, |before|, |p|);
      SentMore(result, w, packets, k - 1, 1);
      DeliveredTries(result, before, p, |w|);
      assert packets[1..k] == packets[1..k - 1] + [p];
    }
  }

  lemma AtOnce(result: nat -> int, at: nat, len: nat)
    requires result(at) == len
    ensures Tries(result, at, len, 0) == 1 && Taken(result, at, len)
  {
  }

  lemma AllRefused(result: nat -> int, at: nat, len: nat)
    requires forall n: nat :: at <= n <= at + MAX_RETRY ==> result(n) != len
    ensures Tries(result, at, len, 0) == MAX_RETRY + 1 && !Taken(result, at, len)
  {
    OnlyLastTry(result, at, len, 0);
  }

  lemma NothingYet(result: nat -> int, w: seq<seq<Byte>>)
    ensures Delivered(result, w, |w|) == []
  {
  }
}
