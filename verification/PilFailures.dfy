// When the uploader is refused for good, and when a package is handed over twice.
module PilFailures {
  import opened PilRuns

  // ----- stuck: the flag is set and nothing will clear it -----

  /** The injecting flag is set with no package queued or with the worker. */
  ghost predicate Stuck(s: State) {
    s.inject && !Outstanding(s)
  }

  lemma StuckStays(s: State, e: Event)
    requires Inv(s) && WellFormed(e) && Stuck(s)
    ensures var t := Step(s, e);
            && Stuck(t) && t.buffer == s.buffer && t.written == s.written
            && (Command(e) ==> ErrCode(s, e) != 0)
  {
  }

  /** From a stuck state no run ever clears the flag, and every command is refused. */
  lemma {:induction false} StuckForever(s: State, es: seq<Event>, e: Event)
    requires Inv(s) && Stuck(s) && AllWellFormed(es) && WellFormed(e)
    ensures var t := Run(s, es);
            && Stuck(t) && t.buffer == s.buffer && t.written == s.written
            && (Command(e) ==> ErrCode(t, e) != 0)
    decreases |es|
  {
    if es == [] {
      StuckStays(s, e);
    } else {
      hide Step, Stuck, Inv;
      var n := |es| - 1;
      StuckForever(s, es[..n], e);
      StuckStays(Run(s, es[..n]), es[n]);
      StuckStays(Run(s, es), e);
    }
  }

  lemma RunMore(s: State, es: seq<Event>, e: Event)
    requires Inv(s) && AllWellFormed(es) && WellFormed(e)
    ensures AllWellFormed(es + [e]) && Run(s, es + [e]) == Step(Run(s, es), e)
  {
    assert (es + [e])[..|es|] == es;
  }

  lemma RunNothing(s: State)
    requires Inv(s)
    ensures Run(s, []) == s
  {
  }

  lemma WellFormedTogether(e: Event, es: seq<Event>)
    requires AllWellFormed(es) && WellFormed(e)
    ensures AllWellFormed([e] + es)
    ensures es != [] ==> AllWellFormed(es[..|es| - 1]) && WellFormed(es[|es| - 1])
                         && [e] + es == ([e] + es[..|es| - 1]) + [es[|es| - 1]]
                         && es == es[..|es| - 1] + [es[|es| - 1]]
  {
  }

  lemma {:induction false} RunFirst(s: State, e: Event, es: seq<Event>)
    requires Inv(s) && AllWellFormed(es) && WellFormed(e)
    ensures AllWellFormed([e] + es) && Inv(Step(s, e)) && Run(s, [e] + es) == Run(Step(s, e), es)
    decreases |es|
  {
    StepKeeps(s, e);
    WellFormedTogether(e, es);
    hide Step, Inv, Run, WellFormed, AllWellFormed;
    if es == [] {
      assert [e] + es == [] + [e];
      WellFormedTogether(e, []);
      RunNothing(s);
      RunNothing(Step(s, e));
      RunMore(s, [], e);
    } else {
      var n := |es| - 1;
      RunFirst(s, e, es[..n]);
      RunMore(s, [e] + es[..n], es[n]);
      RunMore(Step(s, e), es[..n], es[n]);
    }
  }

  /** The worker's next step for an outstanding package. */
  ghost function Next(s: State): Event {
    if s.held == Written then Callback else if s.held.Taken? then WriteOut(true) else Receive
  }

  /** How many worker steps an outstanding package still takes. */
  ghost function Stages(s: State): nat {
    if s.held == Written then 1 else if s.held.Taken? then 2 else 3
  }

  lemma NextStage(s: State)
    requires Inv(s) && Outstanding(s)
    ensures var t := Step(s, Next(s));
            && t.open && (if s.held == Written then !t.inject && t.offset == PACKAGE
                          else Outstanding(t) && Stages(t) + 1 == Stages(s))
    ensures Step(s, Next(s)).buffer == s.buffer && WellFormed(Next(s))
  {
  }

  /** The worker's remaining steps clear the flag and leave the buffer full and as it is. */
  lemma {:induction false} DeliveryClears(s: State) returns (es: seq<Event>)
    requires Inv(s) && Outstanding(s)
    ensures AllWellFormed(es)
    ensures var t := Run(s, es); !t.inject && t.open && t.offset == PACKAGE && t.buffer == s.buffer
    decreases Stages(s)
  {
    var e, t := Next(s), Step(s, Next(s));
    NextStage(s);
    StepKeeps(s, e);
    hide Step, Inv, Run, WellFormed;
    es := [];
    RunNothing(t);
    if s.held != Written {
      es := DeliveryClears(t);
    }
    RunFirst(s, e, es);
    es := [e] + es;
  }

  /** A set flag can be cleared exactly while a package is outstanding. */
  lemma ClearableIff(s: State)
    requires Inv(s) && s.inject
    ensures (exists es :: AllWellFormed(es) && !Run(s, es).inject) <==> Outstanding(s)
  {
    if Outstanding(s) {
      var es := DeliveryClears(s);
    } else {
      forall es | AllWellFormed(es)
        ensures Run(s, es).inject
      {
        StuckForever(s, es, Callback);
      }
    }
  }

  /** The three ways in: an accepted inject command, a hand-over whose package is not queued, a failed write. */
  ghost predicate Enters(s: State, e: Event)
    requires WellFormed(e)
  {
    || (e.Inject? && ErrCode(s, e) == 0)
    || (HandsOver(s, e) && !(s.running && e.sent))
    || (s.held.Taken? && e == WriteOut(false))
  }

  lemma EntersStuckIff(s: State, e: Event)
    requires Inv(s) && WellFormed(e)
    ensures Stuck(Step(s, e)) <==> Stuck(s) || Enters(s, e)
  {
  }

  /** A hand-over is answered with success either way; its package is outstanding exactly if the
      worker runs and the queue takes it, and otherwise the uploader is stuck. */
  lemma HandOverQueuedIff(s: State, e: Event)
    requires Inv(s) && WellFormed(e) && HandsOver(s, e)
    ensures ErrCode(s, e) == 0
    ensures Outstanding(Step(s, e)) <==> s.running && e.sent
    ensures Stuck(Step(s, e)) <==> !(s.running && e.sent)
  {
  }

  /** Step i of a run from the start was one of the three. */
  ghost predicate EnteredAt(es: seq<Event>, i: nat)
    requires AllWellFormed(es)
  {
    i < |es| && Enters(Run(Initial(), es[..i]), es[i])
  }

  ghost predicate Entered(es: seq<Event>)
    requires AllWellFormed(es)
  {
    exists i: nat :: EnteredAt(es, i)
  }

  lemma EnteredEarlier(es: seq<Event>, i: nat)
    requires AllWellFormed(es) && i + 1 < |es|
    ensures EnteredAt(es[..|es| - 1], i) <==> EnteredAt(es, i)
  {
    hide Enters, Run;
    assert es[..|es| - 1][..i] == es[..i];
  }

  lemma EnteredLast(es: seq<Event>)
    requires AllWellFormed(es) && es != []
    ensures var n := |es| - 1;
            Entered(es) <==> Entered(es[..n]) || Enters(Run(Initial(), es[..n]), es[n])
  {
    var n := |es| - 1;
    assert EnteredAt(es, n) <==> Enters(Run(Initial(), es[..n]), es[n]);
    EnteredWithin(es);
    EnteredWithin(es[..n]);
    hide EnteredAt, Enters, Run;
    if i: nat :| EnteredAt(es, i) {
      if i < n {
        EnteredEarlier(es, i);
      }
    }
    if i: nat :| EnteredAt(es[..n], i) {
      EnteredEarlier(es, i);
    }
  }

  lemma EnteredWithin(es: seq<Event>)
    requires AllWellFormed(es)
    ensures forall i: nat :: EnteredAt(es, i) ==> i < |es|
  {
    hide Enters, Run;
  }

  /** A run ends stuck exactly if one of its steps was one of the three. */
  lemma {:induction false} RunStuckIff(es: seq<Event>)
    requires AllWellFormed(es)
    ensures Stuck(Run(Initial(), es)) <==> exists i: nat :: EnteredAt(es, i)
    decreases |es|
  {
    if es == [] {
      assert !Stuck(Initial());
    } else {
      var n := |es| - 1;
      RunStep(es);
      EnteredLast(es);
      hide Step, Stuck, Enters, Run, EnteredAt, Inv;
      RunStuckIff(es[..n]);
      EntersStuckIff(Run(Initial(), es[..n]), es[n]);
    }
  }

  lemma RunStep(es: seq<Event>)
    requires AllWellFormed(es) && es != []
    ensures var s := Run(Initial(), es[..|es| - 1]);
            Inv(s) && Run(Initial(), es) == Step(s, es[|es| - 1])
  {
    hide Step, Inv;
  }

  // ----- stuck states are reached -----

  /** Opening with a worker that does not start, then sending the package in one chunk. */
  lemma UnqueuedRunSticks(package: seq<Byte>)
    requires |package| == PACKAGE
    ensures var es := [Open(false), Transmit(false, 0, package, WHOLE, false, true)];
            AllWellFormed(es) && Stuck(Run(Initial(), es))
  {
    var e := Transmit(false, 0, package, WHOLE, false, true);
    RunMore(Initial(), [], Open(false));
    RunMore(Initial(), [] + [Open(false)], e);
    assert [] + [Open(false)] + [e] == [Open(false), e];
  }

  /** Opening, then injecting before anything was uploaded: both sizes are still zero. */
  lemma InjectRunSticks()
    ensures AllWellFormed([Open(true), Inject]) && Stuck(Run(Initial(), [Open(true), Inject]))
  {
    RunMore(Initial(), [], Open(true));
    RunMore(Initial(), [] + [Open(true)], Inject);
    assert [] + [Open(true)] + [Inject] == [Open(true), Inject];
  }

  // ----- handing over again -----

  /** The package last written out, with the rewrites accepted since. */
  ghost function LastWritten(es: seq<Event>): seq<Byte>
    requires AllWellFormed(es)
    decreases |es|
  {
    if es == [] then []
    else
      var e, before := es[|es| - 1], es[..|es| - 1];
      var s, was := Run(Initial(), before), LastWritten(before);
      if s.held.Taken? && e == WriteOut(true) then s.buffer
      else if Rewrites(s, e) && e.at + |Chunk(e)| <= |was| then Patched(was, e.at, Chunk(e))
      else was
  }

  /** After a write, and until the next start, hand-over or inject command, the buffer is the last written package. */
  ghost predicate KeepsWritten(s: State, was: seq<Byte>) {
    s.held == Written || (!s.inject && s.offset == PACKAGE) ==> s.written != [] && s.buffer == was
  }

  lemma StepKeepsWritten(s: State, was: seq<Byte>, e: Event)
    requires Inv(s) && WellFormed(e) && KeepsWritten(s, was)
    ensures KeepsWritten(Step(s, e),
                         if s.held.Taken? && e == WriteOut(true) then s.buffer
                         else if Rewrites(s, e) && e.at + |Chunk(e)| <= |was| then Patched(was, e.at, Chunk(e))
                         else was)
  {
  }

  lemma {:induction false} RunKeepsWritten(es: seq<Event>)
    requires AllWellFormed(es)
    ensures KeepsWritten(Run(Initial(), es), LastWritten(es))
    decreases |es|
  {
    if es != [] {
      hide Step, KeepsWritten, Rewrites;
      RunKeepsWritten(es[..|es| - 1]);
      StepKeepsWritten(Run(Initial(), es[..|es| - 1]), LastWritten(es[..|es| - 1]), es[|es| - 1]);
    } else {
      assert KeepsWritten(Initial(), []);
    }
  }

  /** A hand-over brings nothing new exactly if the offset already stands at the end, and then it
      repeats the last written package, as rewritten since. */
  lemma HandOverRepeatsIff(es: seq<Event>, e: Event)
    requires AllWellFormed(es) && WellFormed(e) && HandsOver(Run(Initial(), es), e)
    ensures var s := Run(Initial(), es);
            && AllWellFormed(es + [e])
            && (Uploaded(Initial(), es + [e]) == Uploaded(Initial(), es) <==> s.offset == PACKAGE)
            && (s.offset == PACKAGE ==> s.written != [] && Step(s, e).buffer == LastWritten(es))
  {
    var s := Run(Initial(), es);
    RunMore(Initial(), es, e);
    BufferIsUploaded(es);
    RunKeepsWritten(es);
    assert (es + [e])[..|es|] == es;
    assert Uploaded(Initial(), es + [e]) == Uploaded(Initial(), es) + Chunk(e);
  }

  lemma UploadSteps(package: seq<Byte>)
    requires |package| == PACKAGE
    ensures var e := Transmit(false, 0, package, WHOLE, false, true);
            var s := Step(Step(Initial(), Open(true)), e);
            WellFormed(e) && Inv(s) && Outstanding(s) && s.buffer == package
  {
    var e, s := Transmit(false, 0, package, WHOLE, false, true), Step(Initial(), Open(true));
    StepKeeps(Initial(), Open(true));
    StepKeeps(s, e);
    assert Patched(s.buffer, 0, Chunk(e)) == package;
  }

  lemma InterruptSettles(s: State)
    requires Inv(s)
    ensures Step(s, RdmapReady) == s.(status := Done)
  {
  }

  /** Such a run for every package: upload, delivery, map interrupt; then an empty chunk hands it over again. */
  lemma RepeatIsReached(package: seq<Byte>) returns (es: seq<Event>)
    requires |package| == PACKAGE
    ensures var again := Transmit(false, 0, [], 0, false, true);
            && AllWellFormed(es) && HandsOver(Run(Initial(), es), again)
            && Step(Run(Initial(), es), again).buffer == package
  {
    var again := Transmit(false, 0, [], 0, false, true);
    es := DeliveredRun(package);
    var s := Run(Initial(), es);
    assert Patched(s.buffer, s.offset, Chunk(again)) == s.buffer;
  }

  lemma DeliveredRun(package: seq<Byte>) returns (es: seq<Event>)
    requires |package| == PACKAGE
    ensures AllWellFormed(es)
    ensures var t := Run(Initial(), es);
            t.open && !t.inject && t.offset == PACKAGE && t.status == Done && t.buffer == package
  {
    var chunk := Transmit(false, 0, package, WHOLE, false, true);
    UploadSteps(package);
    StepKeeps(Initial(), Open(true));
    var s1 := Step(Initial(), Open(true));
    var s2 := Step(s1, chunk);
    hide Step, Inv, Run, WellFormed;
    var rest := DeliveryClears(s2);
    InterruptSettles(Run(s2, rest));
    RunMore(s2, rest, RdmapReady);
    RunFirst(s1, chunk, rest + [RdmapReady]);
    RunFirst(Initial(), Open(true), [chunk] + (rest + [RdmapReady]));
    es := [Open(true)] + ([chunk] + (rest + [RdmapReady]));
  }
}
