/** A clean close can always be reached: the streams are brought across both ways and both ends are left to time out. */
module Finishing {
  import opened Reassembly
  import opened ReassemblyProofs
  import opened Segments
  import opened WrappingIntegers
  import opened Sending
  import opened SendingProofs
  import opened Receiving
  import opened Connecting
  import opened Endpoints
  import opened Systems
  import opened Completing
  import opened Closing

  /** An active endpoint has met no error, and one that has seen its peer's SYN has sent its own. */
  ghost predicate Sound(c: Connection) {
    && (c.active ==> !c.sender.stream.error && !c.receiver.reasm.out.error)
    && (c.receiver.synSet ==> c.sender.synSet)
  }

  lemma ReceivedSound(r: Receiver, g: Segment)
    requires r.reasm.Inv()
    ensures var r' := Receiving.SegmentReceived(r, g);
            r'.reasm.out.error == r.reasm.out.error && (r'.synSet ==> r.synSet || g.header.syn)
  {
    hide Push, Reassembler.Inv, Unwrap;
    if r.synSet || g.header.syn {
      var r1 := if r.synSet then r else r.(synSet := true, isn := g.header.seqno);
      var abs := Unwrap(g.header.seqno, r1.isn, r.reasm.Next() + 1);
      CapacityKept(r.reasm, g.payload, StreamIndex(abs, g.header.syn), g.header.fin);
    }
  }

  lemma HandleSound(c: Connection, e: Event)
    requires Settled(c) && c.out == [] && Allowed(c, e) && Sound(c)
    ensures c.Sane() && Sound(Handle(c, e))
  {
    hide Ledger, Saturated, Reassembler.Inv, Handle, NewAbove, Emits, Sends, Paced, Finished, Tick,
         Receiving.SegmentReceived;
    HandleMoves(c, e);
    if Heeds(c, e) {
      DeliverMoves(c, e.packet.seg);
      HandleDeliver(c, e.packet);
      ReceivedSound(c.receiver, e.packet.seg);
    } else {
      HandleLocal(c, e);
      if e.Elapse? {
        ElapseMoves(c, e.ms);
        HandleElapse(c, e.ms);
      }
    }
  }

  lemma NextSound(s: System, s': System)
    requires Safe(s) && Next(s, s') && Sound(s.a) && Sound(s.b)
    ensures Sound(s'.a) && Sound(s'.b)
  {
    hide Settled, Direction, Handle;
    if e :| Enabled(s, e) && s' == StepA(s, e) {
      HandleSound(s.a, e);
    } else {
      var e :| Enabled(s.Swap(), e) && s' == StepA(s.Swap(), e).Swap();
      HandleSound(s.b, e);
    }
  }

  lemma {:induction false} RunSound(run: seq<System>, ca: Config, cb: Config, i: nat)
    requires Behaviour(run, ca, cb) && i < |run|
    ensures Sound(run[i].a) && Sound(run[i].b)
  {
    if i == 0 {
    } else {
      hide Next, Initial, Safe, Sound;
      RunSound(run, ca, cb, i - 1);
      RunSafe(run, ca, cb, i - 1);
      assert Next(run[i - 1], run[i - 1 + 1]);
      NextSound(run[i - 1], run[i]);
    }
  }

  // ---------------------------------------------------------------------
  // One direction is done

  /** a's stream and its end are acknowledged, and b has received both. */
  predicate Across(s: System) {
    SenderSummary(s.a.sender) == FinAcked && ReceiverSummary(s.b.receiver) == FinRecv
  }

  lemma DeliveredAcross(run: seq<System>, ca: Config, cb: Config)
    requires Behaviour(run, ca, cb) && Workable(Last(run))
    requires var s := Last(run); s.a.sender.unack == [] && s.a.sender.stream.ended && s.b.receiver.reasm.out.ended
    ensures Across(Last(run)) && Last(run).b.receiver.synSet
  {
    hide Behaviour, SenderSummary;
    assert |run| > 0 by { Nonempty(run, ca, cb); }
    var s := Last(run);
    RunSafe(run, ca, cb, |run| - 1);
    RunSound(run, ca, cb, |run| - 1);
    AllAcknowledged(run, ca, cb);
    assert Ledger(s.a.sender) by { SettledParts(s.a); }
    AllFinished(s.a.sender);
    EndedOpen(s.a.sender, s.b.receiver, s.ab, s.ba);
  }

  lemma AllFinished(x: Sender)
    requires Ledger(x) && x.unack == [] && !x.stream.error && x.recvAck == |x.stream.history| + 2
    ensures SenderSummary(x) == FinAcked
  {
    FinAckedIff(x);
  }

  lemma EndedOpen(x: Sender, y: Receiver, xy: set<Packet>, yx: set<Packet>)
    requires Direction(x, y, xy, yx) && y.reasm.out.ended
    ensures y.synSet
  {
    hide Genuine, Honest, Reassembler.Inv;
  }

  /** What is across stays across while both ends are active. */
  lemma StaysAcross(run: seq<System>, ca: Config, cb: Config, i: nat)
    requires Behaviour(run, ca, cb) && i < |run| && Across(run[i]) && Last(run).a.active && Last(run).b.active
    ensures Across(Last(run))
  {
    hide Behaviour, SenderSummary, ReceiverSummary;
    RunForward(run, ca, cb, i, |run| - 1);
    RunSound(run, ca, cb, |run| - 1);
    Errors(Last(run).a);
    Errors(Last(run).b);
  }

  // ---------------------------------------------------------------------
  // The way back

  lemma MirroredExtends(run: seq<System>, m: seq<System>)
    requires Mirrored(run) <= m
    ensures run <= Mirrored(m)
  {
    forall i: nat | i < |run|
      ensures Mirrored(m)[i] == run[i]
    {
      assert m[i] == Mirrored(run)[i];
      MirroredAt(run, i);
      MirroredAt(m, i);
    }
  }

  lemma MirroredLast(run: seq<System>)
    requires |run| > 0
    ensures Last(Mirrored(run)) == Last(run).Swap()
  {
    MirroredAt(run, |run| - 1);
  }

  /** Both applications have ended their streams, and both have buffers to receive the other's. */
  ghost predicate Finishable(s: System) {
    Workable(s) && s.a.receiver.reasm.out.capacity > 0 && s.a.sender.stream.ended && s.b.sender.stream.ended
  }

  /** Both streams can be brought across. */
  lemma CanCross(run: seq<System>, ca: Config, cb: Config) returns (run': seq<System>)
    requires Behaviour(run, ca, cb) && Finishable(Last(run))
    ensures run <= run' && Behaviour(run', ca, cb)
    ensures var s := Last(run'); s.a.active && s.b.active && Across(s) && Across(s.Swap())
  {
    hide Behaviour, Across, Mirrored;
    assert |run| > 0 by { Nonempty(run, ca, cb); }
    var run1 := CanComplete(run, ca, cb);
    DeliveredAcross(run1, ca, cb);
    RunSound(run1, ca, cb, |run1| - 1);
    var m := Mirrored(run1);
    MirroredBehaviour(run1, ca, cb);
    MirroredLast(run1);
    var m2 := CanComplete(m, cb, ca);
    DeliveredAcross(m2, cb, ca);
    run' := Mirrored(m2);
    MirroredBehaviour(m2, cb, ca);
    MirroredLast(m2);
    MirroredExtends(run1, m2);
    StaysAcross(run', ca, cb, |run1| - 1);
  }

  // ---------------------------------------------------------------------
  // The end

  /** An endpoint with both streams done closes cleanly when it is left alone for long enough. */
  lemma QuietlyCloses(c: Connection)
    requires Settled(c) && c.out == [] && c.active && Done(c)
    ensures c.Sane()
    ensures var c' := Handle(c, Elapse(10 * c.rto));
            !c'.active && !c'.sender.stream.error && !c'.receiver.reasm.out.error
  {
    hide Settled, Moves, Handle, Tick, Ledger;
    var ms := 10 * c.rto;
    SettledParts(c);
    FinAckedIff(c.sender);
    TickLedger(c.sender, ms);
    TickClosesIff(c, ms);
    ElapseMoves(c, ms);
    HandleElapse(c, ms);
  }

  lemma NextAtA(s: System, e: Event)
    requires Enabled(s, e)
    ensures s.a.Sane() && Next(s, StepA(s, e))
  {
    hide StepA;
  }

  /** The endpoint has closed, and not by an error. */
  predicate ClosedCleanly(c: Connection) {
    !c.active && !c.sender.stream.error && !c.receiver.reasm.out.error
  }

  /**
   A clean close is reachable: every run that has reached a state in which both ends are
   active and both applications have ended their streams can be continued until both ends
   have closed without an error.
   */
  lemma CanClose(run: seq<System>, ca: Config, cb: Config) returns (run': seq<System>)
    requires Behaviour(run, ca, cb) && Finishable(Last(run))
    ensures run <= run' && Behaviour(run', ca, cb)
    ensures ClosedCleanly(Last(run').a) && ClosedCleanly(Last(run').b)
  {
    hide Behaviour, Handle, Settled, Direction, SenderSummary, ReceiverSummary, Next;
    var run1 := CanCross(run, ca, cb);
    assert |run1| > 0 by { Nonempty(run1, ca, cb); }
    var s1 := Last(run1);
    RunSafe(run1, ca, cb, |run1| - 1);
    QuietlyCloses(s1.a);
    SettledSane(s1.a);
    NextAtA(s1, Elapse(10 * s1.a.rto));
    var s2 := StepA(s1, Elapse(10 * s1.a.rto));
    Extended(run1, ca, cb, s2);
    var run2 := run1 + [s2];
    RunSafe(run2, ca, cb, |run2| - 1);
    QuietlyCloses(s2.b);
    SettledSane(s2.b);
    NextAtB(s2, Elapse(10 * s2.b.rto));
    var s3 := StepA(s2.Swap(), Elapse(10 * s2.b.rto)).Swap();
    Extended(run2, ca, cb, s3);
    run' := run2 + [s3];
  }
}
