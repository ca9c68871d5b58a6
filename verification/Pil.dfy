// The injection commands and the worker, updating their records in place; each refines one step.
module Pil {
  import opened PilRuns

  const FREQUENCE_TIME_US := 8000

  /** The worker's side: run state, status, message queue, and what it has written out. */
  class DataPath {
    var running: bool
    var status: Status
    var queue: seq<seq<Byte>>
    var held: Held
    var written: seq<Output>
    var timedOutAt: int    // when the status last timed out, in microseconds

    constructor ()
      ensures !running && status == Done && queue == [] && held == Idle && written == [] && timedOutAt == 0
    {
      running, status, queue, held, written, timedOutAt := false, Done, [], Idle, [], 0;
    }

    method Init(ok: bool)
      modifies this`running
      ensures running == (old(running) || ok)
    {
      if !running {
        running := ok;
      }
    }

    method Uninit()
      modifies this`running
      ensures !running
    {
      running := false;
    }

    /** More than 8 ms have passed since the last time out, whenever the package was loaded. */
    predicate Elapsed(now: int)
      reads this`timedOutAt
    {
      now - timedOutAt > FREQUENCE_TIME_US
    }

    method Check(now: int) returns (s: Status)
      modifies this`status, this`timedOutAt
      ensures var timeOut := old(status) == Loaded && old(Elapsed(now));
              && s == status == (if timeOut then Done else old(status))
              && timedOutAt == (if timeOut then now else old(timedOutAt))
    {
      if status == Done {
        return Done;
      }
      if status == Loaded {
        if now - timedOutAt > FREQUENCE_TIME_US {
          timedOutAt := now;
          status := Done;
          return Done;
        }
      }
      return status;
    }

    /** Queues the package's info; the samples stay where they are. A failed send is not reported. */
    method SetData(info: seq<Byte>, sent: bool)
      modifies this`status, this`queue
      ensures status == Inform
      ensures queue == if running && sent then old(queue) + [info] else old(queue)
    {
      status := Inform;
      if running {
        if sent {
          queue := queue + [info];
        }
      }
    }
  }

  class Uploader {
    var open: bool
    var inject: bool
    const buffer: array<Byte>
    const header: array<Byte>
    var offset: nat
    var crc: nat
    var size: nat
    const path: DataPath

    ghost predicate Valid()
      reads this, path, buffer, header
    {
      buffer != header && Inv(View())
    }

    ghost function View(): State
      reads this, path, buffer, header
    {
      State(open, inject, buffer[..], header[..], offset, crc, size,
            path.running, path.status, path.queue, path.held, path.written)
    }

    constructor ()
      ensures Valid() && View() == Initial() && fresh(buffer) && fresh(header) && fresh(path)
    {
      open, inject, offset, crc, size := false, false, 0, 0, 0;
      buffer := new Byte[PACKAGE](_ => 0);
      header := new Byte[HEADER](_ => 0);
      path := new DataPath();
      new;
      assert buffer[..] == seq(PACKAGE, _ => 0);
      assert header[..] == seq(HEADER, _ => 0);
    }

    method SetOpen(ok: bool) returns (errCode: nat)
      requires Valid()
      modifies this`open, path`running
      ensures Valid() && View() == Step(old(View()), Open(ok)) && errCode == ErrCode(old(View()), Open(ok))
      ensures errCode == if old(inject) then 3 else if old(open) then 2 else 0
      ensures open == (errCode == 0 || old(open)) && path.running == (old(path.running) || (errCode == 0 && ok))
    {
      if inject {
        return 3;
      }
      if open {
        return 2;
      }
      open := true;
      errCode := 0;
      path.Init(ok);
    }

    method SetClose() returns (errCode: nat)
      requires Valid()
      modifies this`open, path`running
      ensures Valid() && View() == Step(old(View()), Close) && errCode == ErrCode(old(View()), Close)
      ensures errCode == if old(inject) then 3 else if !old(open) then 2 else 0
      ensures open == (errCode != 0 && old(open)) && path.running == (errCode != 0 && old(path.running))
    {
      if inject {
        return 3;
      }
      if !open {
        return 2;
      }
      errCode := 0;
      path.Uninit();
      open := false;
    }

    method StartTransmit(dataSize: nat, dataCrc: nat) returns (errCode: nat)
      requires Valid()
      modifies this`offset, this`crc, this`size
      ensures Valid() && View() == Step(old(View()), Start(dataSize, dataCrc))
      ensures errCode == ErrCode(old(View()), Start(dataSize, dataCrc))
      ensures errCode == if !old(open) then 5 else if dataSize > 524416 then 2 else if old(inject) then 3 else 0
      ensures if errCode == 0 then offset == 0 && crc == dataCrc && size == dataSize
              else offset == old(offset) && crc == old(crc) && size == old(size)
    {
      if !open {
        return 5;
      }
      if buffer.Length < dataSize {
        return 2;
      }
      if inject {
        return 3;
      }
      offset := 0;
      crc := dataCrc;
      size := dataSize;
      errCode := 0;
    }

    method CopyIn(at: nat, chunk: seq<Byte>)
      requires at + |chunk| <= buffer.Length
      modifies buffer
      ensures buffer[..] == Patched(old(buffer[..]), at, chunk)
    {
      ghost var was := buffer[..];
      for i := 0 to |chunk|
        invariant forall k :: 0 <= k < i ==> buffer[at + k] == chunk[k]
        invariant forall k :: 0 <= k < at || at + i <= k < buffer.Length ==> buffer[k] == was[k]
      {
        buffer[at + i] := chunk[i];
      }
      assert buffer[..] == was[..at] + chunk + was[at + |chunk|..];
    }

    /** The buffer is as before but for the chunk placed in it, if any. */
    ghost predicate Placed(was: seq<Byte>, at: nat, chunk: seq<Byte>, done: bool)
      reads buffer
    {
      if done then at + |chunk| <= |was| && buffer[..] == was[..at] + chunk + was[at + |chunk|..]
      else buffer[..] == was
    }

    method CopyHeader()
      requires buffer != header && buffer.Length == PACKAGE && header.Length == HEADER
      modifies header
      ensures header[..] == buffer[..HEADER]
    {
      for i := 0 to HEADER
        invariant forall k :: 0 <= k < i ==> header[k] == buffer[k]
      {
        header[i] := buffer[i];
      }
    }

    method TransmitData(rewrite: bool, at: nat, data: seq<Byte>, length: nat, now: int, sent: bool)
      returns (errCode: nat)
      requires Valid() && WellFormed(Transmit(rewrite, at, data, length, path.Elapsed(now), sent))
      modifies this`offset, this`size, this`inject, buffer, header, path`status, path`queue, path`timedOutAt
      ensures var e := Transmit(rewrite, at, data, length, old(path.Elapsed(now)), sent);
              && Valid() && View() == Step(old(View()), e) && errCode == ErrCode(old(View()), e)
      ensures !old(open) ==> errCode == 5
      ensures old(open) && old(inject) ==> errCode == 3
      ensures old(open) && !old(inject) ==>
                (errCode == 3 <==> old(path.status) == Inform ||
                                   (old(path.status) == Loaded && now - old(path.timedOutAt) <= 8000))
      ensures errCode == 3 || errCode == 5 ==>
                offset == old(offset) && size == old(size) && inject == old(inject) && unchanged(buffer, header, path)
      ensures path.timedOutAt == if old(open) && !old(inject) && old(path.status) == Loaded &&
                                    now - old(path.timedOutAt) > 8000 then now else old(path.timedOutAt)
      ensures errCode != 3 && errCode != 5 ==>
                var count := if length == 0xFFFF then 524416 else length;
                && errCode == (if rewrite then if old(offset) < at + count then 2 else 0
                               else if old(offset) + count > 524416 then 4 else 0)
                && Placed(old(buffer[..]), if rewrite then at else old(offset), data[..count], errCode == 0)
    {
      ghost var elapsed := path.Elapsed(now);
      ghost var s, e := View(), Transmit(rewrite, at, data, length, elapsed, sent);
      if !open {
        return 5;
      }
      if inject {
        return 3;
      }
      var status := path.Check(now);
      CheckedFirst(s, e);
      if status != Done {
        return 3;
      }
      errCode := Store(rewrite, at, data, length, elapsed, sent);
    }

    /** The part of a transmit command that is past the guards. */
    method Store(rewrite: bool, at: nat, data: seq<Byte>, length: nat, ghost elapsed: bool, sent: bool)
      returns (errCode: nat)
      requires Valid() && WellFormed(Transmit(rewrite, at, data, length, elapsed, sent))
      requires open && !inject && path.status == Done
      modifies this`offset, this`size, this`inject, buffer, header, path`status, path`queue
      ensures var e := Transmit(rewrite, at, data, length, elapsed, sent);
              && Valid() && View() == Step(old(View()), e) && errCode == ErrCode(old(View()), e)
      ensures var count := if length == 0xFFFF then 524416 else length;
              && errCode == (if rewrite then if old(offset) < at + count then 2 else 0
                             else if old(offset) + count > 524416 then 4 else 0)
              && Placed(old(buffer[..]), if rewrite then at else old(offset), data[..count], errCode == 0)
    {
      ghost var s, e := View(), Transmit(rewrite, at, data, length, elapsed, sent);
      StepKeeps(s, e);
      StoreStep(s, e);
      assert Sized(s);
      hide Inv, Step, ErrCode;
      var count := if length == WHOLE then PACKAGE else length;
      if rewrite {
        if offset < at + count {
          errCode := 2;
        } else {
          CopyIn(at, data[..count]);
          errCode := 0;
        }
      } else {
        errCode := Append(data[..count], sent);
      }
    }

    /** Appends a chunk at the internal offset; the chunk that fills the buffer hands it over. */
    method Append(chunk: seq<Byte>, sent: bool) returns (errCode: nat)
      requires buffer != header && buffer.Length == PACKAGE && header.Length == HEADER
      modifies this`offset, this`size, this`inject, buffer, header, path`status, path`queue
      ensures if old(offset) + |chunk| > PACKAGE
              then errCode == 4 && unchanged(this, buffer, header, path)
              else errCode == 0 && buffer[..] == Patched(old(buffer[..]), old(offset), chunk)
      ensures old(offset) + |chunk| < PACKAGE ==>
                offset == old(offset) + |chunk| && unchanged(this`inject, this`size, header, path)
      ensures old(offset) + |chunk| == PACKAGE ==>
                && inject && offset == 0 && size == PACKAGE && header[..] == buffer[..HEADER]
                && path.status == Inform
                && path.queue == if path.running && sent then old(path.queue) + [buffer[..INFO]] else old(path.queue)
    {
      if buffer.Length < offset + |chunk| {
        return 4;
      }
      CopyIn(offset, chunk);
      offset := offset + |chunk|;
      errCode := 0;
      if offset == PACKAGE {
        CopyHeader();
        inject := true;
        size := offset;
        offset := 0;
        assert header[..INFO] == header[..][..INFO] == buffer[..INFO];
        path.SetData(header[..INFO], sent);
      }
    }

    method InjectData() returns (errCode: nat)
      requires Valid()
      modifies this`inject, this`offset
      ensures Valid() && View() == Step(old(View()), Inject) && errCode == ErrCode(old(View()), Inject)
      ensures errCode == if old(inject) then 1 else if old(size) != old(offset) then 3 else if !old(open) then 4 else 0
      ensures inject == (errCode == 0 || old(inject)) && offset == if errCode == 0 then 0 else old(offset)
    {
      if inject {
        errCode := 1;
      } else if size != offset {
        errCode := 3;
      } else if !open {
        errCode := 4;
      } else {
        errCode := 0;
        inject := true;
        offset := 0;
      }
    }

    /** set_pil_inject_status: the callback moves the offset up to the size. */
    method SetInjectStatus(status: bool)
      modifies this`inject, this`offset
      ensures inject == status && offset == if status then old(offset) else size
    {
      var count := size - offset;
      if !status {
        offset := offset + count;
      }
      inject := status;
    }

    // ----- the worker -----

    method WorkerReceive()
      requires Valid()
      modifies path`held, path`queue
      ensures Valid() && View() == Step(old(View()), Receive)
      ensures if old(path.running) && old(path.held) == Idle && old(path.queue) != []
              then path.held == Taken(old(path.queue)[0]) && path.queue == old(path.queue)[1..]
              else path.held == old(path.held) && path.queue == old(path.queue)
    {
      if path.running && path.held == Idle && path.queue != [] {
        path.held := Taken(path.queue[0]);
        path.queue := path.queue[1..];
      }
    }

    /** Reads the samples through the pointer it was given: whatever the buffer holds now. */
    method WorkerWrite(ok: bool)
      requires Valid()
      modifies path`held, path`written, path`status
      ensures Valid() && View() == Step(old(View()), WriteOut(ok))
      ensures old(path.held).Taken? && ok ==>
                && path.written == old(path.written) + [Output(old(path.held).info, buffer[128..])]
                && path.held == Written && path.status == Loaded
      ensures old(path.held).Taken? && !ok ==> path.held == Idle
      ensures !(old(path.held).Taken? && ok) ==> path.written == old(path.written) && path.status == old(path.status)
    {
      if path.held.Taken? {
        if !ok {
          path.held := Idle;
          return;
        }
        path.written := path.written + [Output(path.held.info, buffer[HEADER..])];
        path.held := Written;
        path.status := Loaded;
      }
    }

    method WorkerCallback()
      requires Valid()
      modifies this`inject, this`offset, path`held
      ensures Valid() && View() == Step(old(View()), Callback)
      ensures if old(path.held) == Written then path.held == Idle && !inject && offset == size
              else path.held == old(path.held) && inject == old(inject) && offset == old(offset)
    {
      if path.held == Written {
        SetInjectStatus(false);
        path.held := Idle;
      }
    }

    method RdmapInterrupt()
      requires Valid()
      modifies path`status
      ensures Valid() && View() == Step(old(View()), RdmapReady) && path.status == Done
    {
      path.status := Done;
    }
  }
}
