// The injection protocol as a state machine: upload commands on one side, the worker on the other.
module PilRuns {
  type Byte = x: int | 0 <= x < 256

  const HEADER: nat := 128
  const ADC: nat := 524288
  const PACKAGE: nat := HEADER + ADC
  const INFO: nat := 28          // sizeof(data_path_info_t)
  const WHOLE: nat := 0xFFFF     // a length that stands for the whole package
  const U32: nat := 0x1_0000_0000

  datatype Status = Inform | Loaded | Done

  /** What the worker has taken from the queue: the copied info, and whether the write is behind it. */
  datatype Held = Idle | Taken(info: seq<Byte>) | Written

  /** What one write puts out: the info registers and the sample bytes. */
  datatype Output = Output(info: seq<Byte>, adc: seq<Byte>)

  datatype State = State(
    open: bool, inject: bool, buffer: seq<Byte>, header: seq<Byte>, offset: nat, crc: nat, size: nat,
    running: bool, status: Status, queue: seq<seq<Byte>>, held: Held, written: seq<Output>)

  datatype Event =
    | Open(ok: bool)
    | Close
    | Start(dataSize: nat, dataCrc: nat)
    | Transmit(rewrite: bool, at: nat, data: seq<Byte>, length: nat, elapsed: bool, sent: bool)
    | Inject
    | Receive
    | WriteOut(ok: bool)
    | Callback
    | RdmapReady

  // ----- the commands -----

  function Length(length: nat): nat {
    if length == WHOLE then PACKAGE else length
  }

  /** The bytes a chunk command brings along are at least as many as it says, and nothing wraps. */
  predicate WellFormed(e: Event) {
    e.Transmit? ==> Length(e.length) <= |e.data| && e.length < U32 - PACKAGE && e.at + Length(e.length) < U32
  }

  ghost predicate AllWellFormed(es: seq<Event>) {
    forall e :: e in es ==> WellFormed(e)
  }

  /** data_path_pil_status after the check that a transmit command makes. */
  function Checked(s: State, elapsed: bool): Status {
    if s.status == Loaded && elapsed then Done else s.status
  }

  predicate Busy(s: State, elapsed: bool) {
    s.inject || Checked(s, elapsed) != Done
  }

  function Patched(buffer: seq<Byte>, at: nat, chunk: seq<Byte>): (b: seq<Byte>)
    requires at + |chunk| <= |buffer|
    ensures |b| == |buffer|
  {
    buffer[..at] + chunk + buffer[at + |chunk|..]
  }

  ghost predicate Sized(s: State) {
    |s.buffer| == PACKAGE && |s.header| == HEADER && s.offset <= PACKAGE && s.size <= PACKAGE
  }

  function Chunk(e: Event): (c: seq<Byte>)
    requires e.Transmit? && WellFormed(e)
    ensures |c| == Length(e.length)
  {
    e.data[..Length(e.length)]
  }

  predicate Appends(s: State, e: Event) {
    && e.Transmit? && WellFormed(e) && s.open && !Busy(s, e.elapsed) && !e.rewrite
    && s.offset + Length(e.length) <= PACKAGE
  }

  predicate Rewrites(s: State, e: Event) {
    && e.Transmit? && WellFormed(e) && s.open && !Busy(s, e.elapsed) && e.rewrite
    && e.at + Length(e.length) <= s.offset
  }

  /** The chunk that completes the package also hands it over. */
  predicate HandsOver(s: State, e: Event) {
    Appends(s, e) && s.offset + Length(e.length) == PACKAGE
  }

  function ErrCode(s: State, e: Event): nat
    requires WellFormed(e)
  {
    match e
    case Open(_) => if s.inject then 3 else if s.open then 2 else 0
    case Close => if s.inject then 3 else if !s.open then 2 else 0
    case Start(dataSize, _) => if !s.open then 5 else if PACKAGE < dataSize then 2 else if s.inject then 3 else 0
    case Transmit(rewrite, at, _, length, elapsed, _) =>
      if !s.open then 5
      else if Busy(s, elapsed) then 3
      else if rewrite then (if s.offset < at + Length(length) then 2 else 0)
      else if PACKAGE < s.offset + Length(length) then 4
      else 0
    case Inject => if s.inject then 1 else if s.size != s.offset then 3 else if !s.open then 4 else 0
    case _ => 0
  }

  function Step(s: State, e: Event): State
    requires Sized(s) && WellFormed(e)
  {
    match e
    case Open(ok) =>
      if ErrCode(s, e) == 0 then s.(open := true, running := s.running || ok) else s
    case Close =>
      if ErrCode(s, e) == 0 then s.(open := false, running := false) else s
    case Start(dataSize, dataCrc) =>
      if ErrCode(s, e) == 0 then s.(offset := 0, crc := dataCrc, size := dataSize) else s
    case Transmit(_, at, _, _, elapsed, sent) =>
      if !s.open || s.inject then s
      else
        var s := s.(status := Checked(s, elapsed));
        if HandsOver(s, e) then
          var buffer := Patched(s.buffer, s.offset, Chunk(e));
          s.(buffer := buffer, header := buffer[..HEADER], inject := true, size := PACKAGE, offset := 0,
             status := Inform, queue := if s.running && sent then s.queue + [buffer[..INFO]] else s.queue)
        else if Appends(s, e) then
          s.(buffer := Patched(s.buffer, s.offset, Chunk(e)), offset := s.offset + Length(e.length))
        else if Rewrites(s, e) then s.(buffer := Patched(s.buffer, at, Chunk(e)))
        else s
    case Inject =>
      if ErrCode(s, e) == 0 then s.(inject := true, offset := 0) else s
    case Receive =>
      if s.running && s.held == Idle && s.queue != [] then s.(held := Taken(s.queue[0]), queue := s.queue[1..]) else s
    case WriteOut(ok) =>
      if !s.held.Taken? then s
      else if ok then
        var output := Output(s.held.info, s.buffer[HEADER..]);
        s.(held := Written, written := s.written + [output], status := Loaded)
      else s.(held := Idle)
    case Callback =>
      if s.held == Written then s.(held := Idle, inject := false, offset := s.size) else s
    case RdmapReady => s.(status := Done)
  }

  /** The steps the uploader asks for, as against those of the worker and the interrupt. */
  predicate Command(e: Event) {
    e.Open? || e.Close? || e.Start? || e.Transmit? || e.Inject?
  }

  // ----- what every step keeps -----

  ghost predicate Outstanding(s: State) {
    s.queue != [] || s.held != Idle
  }

  /** A package in the queue or with the worker blocks the uploader; there is at most one. */
  ghost predicate Inv(s: State) {
    && Sized(s)
    && |s.queue| + (if s.held == Idle then 0 else 1) <= 1
    && (Outstanding(s) ==> s.inject && s.running && s.size == PACKAGE)
    && (s.inject ==> s.open)
    && (s.queue != [] ==> s.queue[0] == s.buffer[..INFO])
    && (s.held.Taken? ==> s.held.info == s.buffer[..INFO])
  }

  function Initial(): State {
    State(false, false, seq(PACKAGE, _ => 0), seq(HEADER, _ => 0), 0, 0, 0, false, Done, [], Idle, [])
  }

  /** A transmit command past the guards, case by case. */
  lemma StoreStep(s: State, e: Event)
    requires Sized(s) && WellFormed(e) && e.Transmit? && s.open && !s.inject && s.status == Done
    ensures var chunk, count := Chunk(e), Length(e.length);
            if e.rewrite then
              if s.offset < e.at + count then Step(s, e) == s && ErrCode(s, e) == 2
              else Step(s, e) == s.(buffer := Patched(s.buffer, e.at, chunk)) && ErrCode(s, e) == 0
            else if s.offset + count > PACKAGE then Step(s, e) == s && ErrCode(s, e) == 4
            else
              && ErrCode(s, e) == 0
              && var buffer := Patched(s.buffer, s.offset, chunk);
                 Step(s, e) ==
                 if s.offset + count < PACKAGE then s.(buffer := buffer, offset := s.offset + count)
                 else s.(buffer := buffer, header := buffer[..HEADER], inject := true, size := PACKAGE, offset := 0,
                         status := Inform,
                         queue := if s.running && e.sent then s.queue + [buffer[..INFO]] else s.queue)
  {
    hide Patched;
  }

  lemma StepSized(s: State, e: Event)
    requires Sized(s) && WellFormed(e)
    ensures Sized(Step(s, e))
  {
  }

  /** The status check a transmit command makes may as well come before it. */
  lemma CheckedFirst(s: State, e: Event)
    requires Inv(s) && WellFormed(e) && e.Transmit? && s.open && !s.inject
    ensures var t := s.(status := Checked(s, e.elapsed));
            && Inv(t) && ErrCode(t, e) == ErrCode(s, e)
            && Step(s, e) == if t.status == Done then Step(t, e) else t
  {
  }

  lemma TransmitKeeps(s: State, e: Event)
    requires Inv(s) && WellFormed(e) && e.Transmit?
    ensures Inv(Step(s, e))
  {
    StepSized(s, e);
  }

  lemma StepKeeps(s: State, e: Event)
    requires Inv(s) && WellFormed(e)
    ensures Inv(Step(s, e))
  {
    if e.Transmit? {
      TransmitKeeps(s, e);
    } else {
      StepSized(s, e);
    }
  }

  ghost function Run(s: State, es: seq<Event>): (t: State)
    requires Inv(s) && AllWellFormed(es)
    ensures Inv(t)
    decreases |es|
  {
    if es == [] then s
    else
      StepKeeps(Run(s, es[..|es| - 1]), es[|es| - 1]);
      Step(Run(s, es[..|es| - 1]), es[|es| - 1])
  }

  /** Until the callback, nothing touches the buffer or the open flag, and the package stays
      outstanding unless the worker's write fails. */
  lemma OutstandingFreezes(s: State, e: Event)
    requires Inv(s) && WellFormed(e) && Outstanding(s) && e != Callback
    ensures Step(s, e).buffer == s.buffer && Step(s, e).open && Step(s, e).inject
    ensures Outstanding(Step(s, e)) || e == WriteOut(false)
    ensures Command(e) ==> ErrCode(s, e) != 0
  {
  }

  /** Chunks append at the internal offset, whatever offset the caller sends. */
  lemma CallerOffsetIgnored(s: State, e: Event, at: nat)
    requires Sized(s) && e.Transmit? && !e.rewrite && WellFormed(e) && WellFormed(e.(at := at))
    ensures Step(s, e) == Step(s, e.(at := at)) && ErrCode(s, e) == ErrCode(s, e.(at := at))
  {
  }

  // ----- the uploaded bytes -----

  /** The accepted chunks since the last start, as patched by rewrites. */
  ghost function Uploaded(s: State, es: seq<Event>): seq<Byte>
    requires Inv(s) && AllWellFormed(es)
    decreases |es|
  {
    if es == [] then []
    else
      var e, before := es[|es| - 1], es[..|es| - 1];
      var t, acc := Run(s, before), Uploaded(s, before);
      if e.Start? && ErrCode(t, e) == 0 then []
      else if Appends(t, e) then acc + Chunk(e)
      else if Rewrites(t, e) && e.at + |Chunk(e)| <= |acc| then Patched(acc, e.at, Chunk(e))
      else acc
  }

  /** The buffer starts with the uploaded bytes, and while not injecting the offset is their number. */
  ghost predicate Holds(s: State, acc: seq<Byte>) {
    && |acc| <= PACKAGE == |s.buffer|
    && s.buffer[..|acc|] == acc
    && (!s.inject ==> s.offset == |acc|)
    && (Outstanding(s) ==> |acc| == PACKAGE)
  }

  lemma AppendHolds(s: State, acc: seq<Byte>, e: Event)
    requires Inv(s) && Holds(s, acc) && Appends(s, e)
    ensures Holds(Step(s, e), acc + Chunk(e))
  {
    assert Patched(s.buffer, s.offset, Chunk(e))[..s.offset + |Chunk(e)|] == acc + Chunk(e);
  }

  lemma RewriteHolds(s: State, acc: seq<Byte>, e: Event)
    requires Inv(s) && Holds(s, acc) && Rewrites(s, e)
    ensures e.at + |Chunk(e)| <= |acc| && Holds(Step(s, e), Patched(acc, e.at, Chunk(e)))
  {
    assert Patched(s.buffer, e.at, Chunk(e))[..|acc|] == Patched(acc, e.at, Chunk(e));
  }

  lemma OtherHolds(s: State, acc: seq<Byte>, e: Event)
    requires Inv(s) && WellFormed(e) && Holds(s, acc) && !Appends(s, e) && !Rewrites(s, e)
    ensures Holds(Step(s, e), if e.Start? && ErrCode(s, e) == 0 then [] else acc)
  {
  }

  /** In every reachable state the buffer holds what was uploaded. */
  lemma {:induction false} BufferIsUploaded(es: seq<Event>)
    requires AllWellFormed(es)
    ensures Holds(Run(Initial(), es), Uploaded(Initial(), es))
    decreases |es|
  {
    if es != [] {
      hide Holds, Inv, Step;
      var e, before := es[|es| - 1], es[..|es| - 1];
      var s, acc := Run(Initial(), before), Uploaded(Initial(), before);
      BufferIsUploaded(before);
      if Appends(s, e) {
        AppendHolds(s, acc, e);
      } else if Rewrites(s, e) {
        RewriteHolds(s, acc, e);
      } else {
        OtherHolds(s, acc, e);
      }
    }
  }

  // ----- the written packages -----

  /** The buffer images of the packages that went into the queue, in order. */
  ghost function Images(s: State, es: seq<Event>): seq<seq<Byte>>
    requires Inv(s) && AllWellFormed(es)
    decreases |es|
  {
    if es == [] then []
    else
      var e, before := es[|es| - 1], es[..|es| - 1];
      var t := Run(s, before);
      if HandsOver(t, e) && t.running && e.sent then Images(s, before) + [Step(t, e).buffer] else Images(s, before)
  }

  /** The writes are the images in order, all of them but perhaps the last, which the flag guards. */
  ghost predicate Delivered(s: State, images: seq<seq<Byte>>) {
    && |s.written| <= |images| <= |s.written| + 1
    && (forall k :: 0 <= k < |images| ==> |images[k]| == PACKAGE)
    && (forall k :: 0 <= k < |s.written| ==> s.written[k] == Output(images[k][..INFO], images[k][HEADER..]))
    && (|images| > |s.written| ==> s.inject)
    && (Outstanding(s) && s.held != Written ==> |images| > |s.written| && s.buffer == images[|images| - 1])
    && (s.held == Written ==> |images| == |s.written|)
  }

  lemma StepDelivers(s: State, images: seq<seq<Byte>>, e: Event)
    requires Inv(s) && WellFormed(e) && Delivered(s, images)
    ensures Delivered(Step(s, e),
                      if HandsOver(s, e) && s.running && e.sent then images + [Step(s, e).buffer] else images)
  {
  }

  /** Over every run, what the worker writes is what was handed over, bytes and order. */
  lemma {:induction false} WritesAreImages(es: seq<Event>)
    requires AllWellFormed(es)
    ensures Delivered(Run(Initial(), es), Images(Initial(), es))
    decreases |es|
  {
    if es != [] {
      hide Delivered, Inv, Step, HandsOver;
      WritesAreImages(es[..|es| - 1]);
      StepDelivers(Run(Initial(), es[..|es| - 1]), Images(Initial(), es[..|es| - 1]), es[|es| - 1]);
    } else {
      assert Delivered(Initial(), []);
    }
  }

  /** The sample bytes of a successful write are those uploaded, headers aside. */
  lemma WriteIsUploaded(es: seq<Event>)
    requires AllWellFormed(es)
    requires Run(Initial(), es).held.Taken?
    ensures var s, acc := Run(Initial(), es), Uploaded(Initial(), es);
            && |acc| == PACKAGE
            && Step(s, WriteOut(true)).written == s.written + [Output(acc[..INFO], acc[HEADER..])]
  {
    BufferIsUploaded(es);
    var s, acc := Run(Initial(), es), Uploaded(Initial(), es);
    assert s.buffer[..|acc|] == s.buffer;
  }
}
