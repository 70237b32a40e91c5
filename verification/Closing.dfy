/**
 How connections end: state summaries never move back, a clean close means that
 both streams arrived whole, and an endpoint that does not linger leaves a peer
 with nothing left to retransmit.
 */
module Closing {
  import opened Types
  import opened ByteStreams
  import opened Reassembly
  import opened ReassemblyProofs
  import opened ReassemblyRuns
  import opened Segments
  import opened WrappingIntegers
  import opened Sending
  import opened SendingProofs
  import opened Receiving
  import opened Connecting
  import opened Endpoints
  import opened Systems

  // ---------------------------------------------------------------------
  // State summaries

  function SenderRank(s: SenderState): nat {
    match s
    case Closed => 0
    case SynSent => 1
    case SynAcked => 2
    case FinSent => 3
    case FinAcked => 4
    case SenderError => 5
  }

  function ReceiverRank(s: ReceiverState): nat {
    match s
    case Listen => 0
    case SynRecv => 1
    case FinRecv => 2
    case ReceiverError => 3
  }

  /** FIN_ACKED means exactly that SYN, every byte and FIN are acknowledged and no error is set. */
  lemma FinAckedIff(s: Sender)
    requires Ledger(s)
    ensures SenderSummary(s) == FinAcked <==>
            !s.stream.error && s.finSet && s.recvAck == s.next && s.next == |s.stream.history| + 2
    ensures SenderSummary(s) == FinAcked ==> s.unack == [] && s.stream.ended
  {
    TilesTotal(s.unack, s.isn, s.next - s.inFlight, s.next, Sent(s), s.finSet);
  }

  /** What the sender's summaries mean, while no error is set. */
  lemma SenderSummaryMeans(s: Sender)
    requires Ledger(s) && !s.stream.error
    ensures SenderSummary(s) == Closed <==> !s.synSet
    ensures SenderSummary(s) == SynSent <==> s.synSet && Base(s) == 0
    ensures SenderSummary(s) == SynAcked <==> Base(s) > 0 && !s.finSet
    ensures SenderSummary(s) == FinSent <==> Base(s) > 0 && s.finSet && s.unack != []
    ensures SenderSummary(s) == FinAcked <==> s.finSet && s.unack == []
  {
    hide TileAt;
    TilesTotal(s.unack, s.isn, s.next - s.inFlight, s.next, Sent(s), s.finSet);
  }

  /** What the receiver's summaries mean. */
  lemma ReceiverSummaryMeans(r: Receiver)
    ensures ReceiverSummary(r) == ReceiverError <==> r.reasm.out.error
    ensures ReceiverSummary(r) == Listen <==> !r.reasm.out.error && !r.synSet
    ensures ReceiverSummary(r) == SynRecv <==> !r.reasm.out.error && r.synSet && !r.reasm.out.ended
    ensures ReceiverSummary(r) == FinRecv <==> !r.reasm.out.error && r.synSet && r.reasm.out.ended
  {
  }

  /**
   An endpoint is excused from lingering if and only if, at a segment it heeds, the inbound
   stream has ended while its own SYN is acknowledged and its FIN not yet sent.
   */
  lemma LingerExcusedIff(c: Connection, p: Packet)
    requires Settled(c) && c.out == [] && Heeds(c, Deliver(p))
    ensures c.Sane()
    ensures var c' := Handle(c, Deliver(p));
            c'.linger == (c.linger && !(
              && c'.receiver.synSet && c'.receiver.reasm.out.ended && Base(c'.sender) > 0 && !c'.sender.finSet
              && !c'.receiver.reasm.out.error && !c'.sender.stream.error))
  {
    hide Ledger, Saturated, Acknowledged, Receiving.SegmentReceived, Reassembler.Inv, FillWindow, Answer, StampAll,
         SenderSummary, ReceiverSummary, Emits, Sends, NewAbove, Paced, Grows, Handle;
    var g := p.seg;
    DeliverMoves(c, g);
    HandleDeliver(c, p);
    var c', a := Handle(c, Deliver(p)), Acknowledged(c.sender, g);
    AcknowledgedMoves(c.sender, g);
    ReceiverSummaryMeans(c'.receiver);
    if a.stream.error {
      ErrorSummary(a);
    } else {
      SenderSummaryMeans(a);
    }
    if !a.synSet {
      UnsentIdle(a);
      BaseAcked(c'.sender);
    }
  }

  lemma ErrorSummary(s: Sender)
    requires s.stream.error
    ensures SenderSummary(s) == SenderError
  {
  }

  lemma BaseAcked(s: Sender)
    requires Ledger(s)
    ensures 0 <= Base(s) <= s.recvAck
  {
    hide Tiles;
  }

  /** While the summary is SYN_ACKED, FIN has not been sent. */
  lemma SynAckedUnfinished(s: Sender)
    requires Numbers(s) && SenderSummary(s) == SynAcked
    ensures !s.finSet && s.synSet
  {
  }

  lemma SenderSummaryForward(s: Sender, s': Sender)
    requires Ledger(s) && Ledger(s') && Grows(s, s')
    ensures SenderRank(SenderSummary(s)) <= SenderRank(SenderSummary(s'))
  {
    hide Tiles;
  }

  lemma ReceiverSummaryLocal(r: Receiver, r': Receiver)
    requires SameHeld(r, r')
    ensures ReceiverRank(ReceiverSummary(r)) <= ReceiverRank(ReceiverSummary(r'))
  {
  }

  lemma ReceiverSummaryDelivered(r: Receiver, g: Segment)
    requires r.reasm.Inv()
    ensures ReceiverRank(ReceiverSummary(r)) <= ReceiverRank(ReceiverSummary(Receiving.SegmentReceived(r, g)))
  {
    hide Push, Unwrap, StreamIndex;
    if r.synSet || g.header.syn {
      var r1 := if r.synSet then r else r.(synSet := true, isn := g.header.seqno);
      var index := StreamIndex(Unwrap(g.header.seqno, r1.isn, r.reasm.Next() + 1), g.header.syn);
      EofFrom(r.reasm, g.payload, index, g.header.fin);
      CapacityKept(r.reasm, g.payload, index, g.header.fin);
    }
  }

  /** No summary moves backwards, and activity does not return. */
  ghost predicate Forward(c: Connection, c': Connection) {
    && SenderRank(SenderSummary(c.sender)) <= SenderRank(SenderSummary(c'.sender))
    && ReceiverRank(ReceiverSummary(c.receiver)) <= ReceiverRank(ReceiverSummary(c'.receiver))
    && (c'.active ==> c.active)
  }

  /** No event moves either summary backwards, even with segments that no peer sent. */
  lemma SummariesForward(c: Connection, e: Event)
    requires Settled(c) && c.out == [] && Allowed(c, e)
    ensures c.Sane() && Forward(c, Handle(c, e))
  {
    hide SenderSummary, ReceiverSummary, Handle, Ledger, Saturated, Grows;
    HandleMoves(c, e);
    var c' := Handle(c, e);
    SenderSummaryForward(c.sender, c'.sender);
    if Heeds(c, e) {
      DeliverMoves(c, e.packet.seg);
      HandleDeliver(c, e.packet);
      ReceiverSummaryDelivered(c.receiver, e.packet.seg);
    } else {
      HandleLocal(c, e);
      ReceiverSummaryLocal(c.receiver, c'.receiver);
    }
  }

  lemma StepForward(s: System, e: Event)
    requires Safe(s) && Enabled(s, e)
    ensures Forward(s.a, StepA(s, e).a) && StepA(s, e).b == s.b
  {
    hide Direction, Settled, Handle, SenderSummary, ReceiverSummary;
    SummariesForward(s.a, e);
  }

  lemma NextForward(s: System, s': System)
    requires Safe(s) && Next(s, s')
    ensures Forward(s.a, s'.a) && Forward(s.b, s'.b)
  {
    hide Settled, Direction, StepA, SenderSummary, ReceiverSummary;
    if e :| Enabled(s, e) && s' == StepA(s, e) {
      StepForward(s, e);
    } else {
      var e :| Enabled(s.Swap(), e) && s' == StepA(s.Swap(), e).Swap();
      StepForward(s.Swap(), e);
    }
  }

  /** On every run the summaries of both endpoints only move forward, and no endpoint becomes active again. */
  lemma {:induction false} RunForward(run: seq<System>, ca: Config, cb: Config, i: nat, j: nat)
    requires Behaviour(run, ca, cb) && i <= j < |run|
    ensures Forward(run[i].a, run[j].a) && Forward(run[i].b, run[j].b)
  {
    hide Next, Initial, SenderSummary, ReceiverSummary, Safe;
    if i == j {
    } else {
      RunForward(run, ca, cb, i, j - 1);
      RunSafe(run, ca, cb, j - 1);
      assert Next(run[j - 1], run[j - 1 + 1]);
      NextForward(run[j - 1], run[j]);
    }
  }

  // ---------------------------------------------------------------------
  // Clean close

  /** Both of the endpoint's streams are done: all received, all acknowledged. */
  predicate Done(c: Connection) {
    ReceiverSummary(c.receiver) == FinRecv && SenderSummary(c.sender) == FinAcked
  }

  /** An endpoint stops being active only with an error or with both streams done. */
  predicate ClosedWell(c: Connection) {
    c.active || c.sender.stream.error || Done(c)
  }

  // An inactive endpoint with nothing outstanding meets no new error.
  lemma InactiveErrors(c: Connection, e: Event)
    requires Settled(c) && c.out == [] && Allowed(c, e) && !c.active && c.sender.unack == []
    ensures c.Sane()
    ensures var c' := Handle(c, e);
            && c'.sender.stream.error == c.sender.stream.error
            && c'.receiver.reasm.out.error == c.receiver.reasm.out.error
            && !c'.active
  {
    hide Settled, Moves, Handle, Finished, Tick, Paced;
    HandleLocal(c, e);
    if e.Elapse? {
      ElapseMoves(c, e.ms);
      HandleElapse(c, e.ms);
      SettledParts(c);
      TickLedger(c.sender, e.ms);
    }
  }

  lemma DoneKept(c: Connection, e: Event)
    requires Settled(c) && c.out == [] && Allowed(c, e) && !c.active && Done(c)
    ensures c.Sane() && Done(Handle(c, e)) && !Handle(c, e).active
  {
    hide Handle, SenderSummary, ReceiverSummary;
    SettledSane(c);
    SummariesForward(c, e);
    assert c.sender.unack == [] by { SettledParts(c); FinAckedIff(c.sender); }
    InactiveErrors(c, e);
    Errors(c);
    Errors(Handle(c, e));
  }

  lemma Errors(c: Connection)
    ensures c.sender.stream.error <==> SenderSummary(c.sender) == SenderError
    ensures c.receiver.reasm.out.error <==> ReceiverSummary(c.receiver) == ReceiverError
  {
  }

  /** Every event leaves the endpoint active, failed, or with both streams done. */
  lemma HandleClosedWell(c: Connection, e: Event)
    requires Settled(c) && c.out == [] && Allowed(c, e) && ClosedWell(c)
    ensures c.Sane() && ClosedWell(Handle(c, e))
  {
    hide Handle, Done, Settled, Moves;
    HandleMoves(c, e);
    if c.sender.stream.error {
      ErrorKept(c, Handle(c, e));
    } else if !c.active {
      DoneKept(c, e);
    } else {
      ActiveCloses(c, e);
    }
  }

  lemma ErrorKept(c: Connection, c': Connection)
    requires Moves(c, c') && c.sender.stream.error
    ensures c'.sender.stream.error
  {
  }

  lemma ActiveCloses(c: Connection, e: Event)
    requires Settled(c) && c.out == [] && Allowed(c, e) && c.active
    ensures c.Sane() && ClosedWell(Handle(c, e))
  {
    hide Settled, Moves, Handle, Tick, Connecting.SegmentReceived, SenderSummary, ReceiverSummary, Paced;
    if Heeds(c, e) {
      DeliverMoves(c, e.packet.seg);
      HandleDeliver(c, e.packet);
    } else if e.Elapse? {
      ElapseMoves(c, e.ms);
      HandleElapse(c, e.ms);
    } else {
      HandleLocal(c, e);
    }
  }

  /**
   A tick closes an active endpoint exactly when the retransmissions are
   exhausted, or both streams are done and, if it must linger, ten timeouts have
   passed since a segment last arrived; only the first leaves an error.
   */
  lemma TickClosesIff(c: Connection, ms: nat)
    requires Settled(c) && c.out == [] && c.active && !c.sender.stream.error
    ensures c.Sane()
    ensures var c', s := TickConnection(c, ms), Tick(c.sender, ms);
            && (c'.sender.stream.error <==> MAX_RETX_ATTEMPTS < s.retx)
            && (!c'.active <==>
                  || MAX_RETX_ATTEMPTS < s.retx
                  || (Done(c) && (c.linger ==> 10 * c.rto <= c.sinceLast + ms)))
  {
    hide Settled, Moves, TickConnection, Tick;
    ElapseMoves(c, ms);
    SettledParts(c);
    TickLedger(c.sender, ms);
  }

  ghost predicate BothClosedWell(s: System) {
    ClosedWell(s.a) && ClosedWell(s.b)
  }

  lemma StepClosed(s: System, e: Event)
    requires Safe(s) && Enabled(s, e) && BothClosedWell(s)
    ensures BothClosedWell(StepA(s, e))
  {
    hide Settled, Direction, Handle, SenderSummary, ReceiverSummary;
    HandleClosedWell(s.a, e);
  }

  lemma {:induction false} RunClosed(run: seq<System>, ca: Config, cb: Config, i: nat)
    requires Behaviour(run, ca, cb) && i < |run|
    ensures BothClosedWell(run[i])
  {
    hide Done, Safe, StepA;
    if i == 0 {
    } else {
      RunClosed(run, ca, cb, i - 1);
      RunSafe(run, ca, cb, i - 1);
      var s, s' := run[i - 1], run[i - 1 + 1];
      assert Next(s, s');
      if e :| Enabled(s, e) && s' == StepA(s, e) {
        StepClosed(s, e);
      } else {
        var e :| Enabled(s.Swap(), e) && s' == StepA(s.Swap(), e).Swap();
        SwapSafe(s);
        StepClosed(s.Swap(), e);
      }
    }
  }

  lemma SwapSafe(s: System)
    requires Safe(s)
    ensures Safe(s.Swap())
  {
  }

  /** The inbound stream holds all that the peer's application wrote, and both have ended. */
  predicate Complete(inbound: Stream, outbound: Stream) {
    inbound.ended && outbound.ended && inbound.history == outbound.history
  }

  lemma DoneComplete(s: System)
    requires Safe(s) && Done(s.a)
    ensures Complete(s.b.receiver.reasm.out, s.a.sender.stream)
    ensures Complete(s.a.receiver.reasm.out, s.b.sender.stream)
  {
    hide Ledger, Reassembler.Inv, Agree, SenderSummary;
    var x, y := s.a.sender, s.b.receiver;
    assert Ledger(x) && Ledger(s.b.sender) by { SettledParts(s.a); SettledParts(s.b); }
    assert Numbers(x) && Numbers(s.b.sender) by { LedgerParts(x); LedgerParts(s.b.sender); }
    FinAckedIff(x);
    AckBounded(y, x.isn, Sent(x), x.finSet);
    DirectionPrefix(s.b.sender, s.a.receiver, s.ba, s.ab);
  }

  /**
   Clean close means mutual completeness: on every run, an endpoint that is
   inactive without an error has received all its peer wrote, and its peer has
   received all that it wrote, and both streams have ended.
   */
  lemma CleanClose(run: seq<System>, ca: Config, cb: Config, i: nat)
    requires Behaviour(run, ca, cb) && i < |run|
    requires !run[i].a.active && !run[i].a.sender.stream.error
    ensures Complete(run[i].b.receiver.reasm.out, run[i].a.sender.stream)
    ensures Complete(run[i].a.receiver.reasm.out, run[i].b.sender.stream)
  {
    hide Behaviour, Done, Safe;
    RunSafe(run, ca, cb, i);
    RunClosed(run, ca, cb, i);
    DoneComplete(run[i]);
  }

  // ---------------------------------------------------------------------
  // Closing without lingering

  /**
   If a will not linger: it has received all of b's stream, every FIN it has sent
   acknowledged all of that, and once b has seen such a FIN, b's sender is done.
   */
  ghost predicate Passive(s: System) {
    !s.a.linger ==>
      && s.a.receiver.synSet && s.a.receiver.reasm.out.ended
      && (forall p :: p in s.ab && p.seg.header.fin ==> p.seg.header.ack && p.ackAbs == s.b.sender.next)
      && (s.b.receiver.reasm.eof != SIZE_MAX ==> s.b.sender.recvAck == s.b.sender.next)
  }

  // A receiver that has all of a stream acknowledges exactly what was sent.
  lemma EndedAcksAll(x: Sender, y: Receiver)
    requires Numbers(x) && Receives(y, x.isn, Sent(x), x.finSet) && y.synSet && y.reasm.out.ended
    ensures x.finSet && y.AckAbs() == x.next
  {
    hide Reassembler.Inv, Agree;
    AckBounded(y, x.isn, Sent(x), x.finSet);
  }

  /** Step at the endpoint that does not linger, already decided: its new FINs acknowledge everything. */
  lemma PassiveSender(s: System, e: Event)
    requires Safe(s) && Enabled(s, e) && Passive(s) && !s.a.linger
    ensures var t := StepA(s, e);
            && t.a.receiver.synSet && t.a.receiver.reasm.out.ended
            && (forall p :: p in t.ab && p.seg.header.fin ==> p.seg.header.ack && p.ackAbs == t.b.sender.next)
  {
    hide Settled, Direction, Handle, Moves;
    HandleMoves(s.a, e);
    ReceiverTrusted(s, e);
    var c := Handle(s.a, e);
    MovesInv(s.a, c);
    EndedStays(s, e);
    assert Numbers(s.b.sender) by { SettledParts(s.b); LedgerParts(s.b.sender); }
    EndedAcksAll(s.b.sender, c.receiver);
    forall p | p in Packets(c)
      ensures p.seg.header.ack && p.ackAbs == s.b.sender.next
    {
      var g :| g in c.out && p == PacketOf(c, g);
      assert Emitted(c, g);
      EmittedGenuine(c, g);
    }
  }

  lemma EndedStays(s: System, e: Event)
    requires Safe(s) && Enabled(s, e) && s.a.receiver.synSet && s.a.receiver.reasm.out.ended
    ensures var y := Handle(s.a, e).receiver; y.synSet && y.reasm.out.ended
  {
    hide Settled, Direction, Handle, StillReceives, Receiving.SegmentReceived;
    if Heeds(s.a, e) {
      HandleDeliver(s.a, e.packet);
      DeliverMoves(s.a, e.packet.seg);
      assert s.a.receiver.reasm.Inv() by { SettledParts(s.a); }
      EndedDelivered(s.a.receiver, e.packet.seg);
    } else {
      HandleLocal(s.a, e);
    }
  }

  lemma EndedDelivered(r: Receiver, g: Segment)
    requires r.reasm.Inv() && r.synSet && r.reasm.out.ended
    ensures var r' := Receiving.SegmentReceived(r, g); r'.synSet && r'.reasm.out.ended
  {
    hide Push, Unwrap, StreamIndex;
    EofFrom(r.reasm, g.payload, StreamIndex(Unwrap(g.header.seqno, r.isn, r.reasm.Next() + 1), g.header.syn),
          g.header.fin);
  }

  /** Step that decides not to linger: no FIN has been sent yet, so nothing has to be shown of any. */
  lemma PassiveDecided(s: System, e: Event)
    requires Safe(s) && Enabled(s, e) && s.a.linger && !StepA(s, e).a.linger
    ensures Passive(StepA(s, e))
  {
    hide Settled, Direction, Handle, SenderSummary, ReceiverSummary, Acknowledged;
    StepSafe(s, e);
    var t := StepA(s, e);
    if Heeds(s.a, e) {
      HandleDeliver(s.a, e.packet);
      DeliverMoves(s.a, e.packet.seg);
      var a := Acknowledged(s.a.sender, e.packet.seg);
      assert Numbers(a) by { SettledParts(s.a); AcknowledgedMoves(s.a.sender, e.packet.seg); LedgerParts(a); }
      SynAckedUnfinished(a);
      FinRecvMeans(t.a.receiver);
      UnfinishedSilent(t.a.sender, t.b.receiver, t.ab, t.ba);
    } else {
      HandleLocal(s.a, e);
      assert false;
    }
  }

  lemma FinRecvMeans(r: Receiver)
    requires ReceiverSummary(r) == FinRecv
    ensures r.synSet && r.reasm.out.ended
  {
  }

  lemma UnfinishedSilent(x: Sender, y: Receiver, xy: set<Packet>, yx: set<Packet>)
    requires Direction(x, y, xy, yx) && !x.finSet
    ensures y.reasm.eof == SIZE_MAX && forall p :: p in xy ==> !p.seg.header.fin
  {
    hide Reassembler.Inv, Agree, Honest;
    forall p | p in xy
      ensures !p.seg.header.fin
    {
      assert Genuine(p, x);
    }
  }

  /** Step at the peer: a FIN it takes in brings the acknowledgement of all it has sent. */
  lemma PassivePeer(s: System, e: Event)
    requires Safe(s) && Passive(s) && Enabled(s.Swap(), e)
    ensures Passive(StepA(s.Swap(), e).Swap())
  {
    hide Settled, Direction, Handle, Moves, Timely;
    if !s.a.linger {
      SwapSafe(s);
      HandleMoves(s.b, e);
      var c := Handle(s.b, e);
      assert Numbers(s.b.sender) by { SettledParts(s.b); LedgerParts(s.b.sender); }
      assert Receives(s.a.receiver, s.b.sender.isn, Sent(s.b.sender), s.b.sender.finSet) by {
        DirectionReceives(s.b.sender, s.a.receiver, s.ba, s.ab);
      }
      EndedAcksAll(s.b.sender, s.a.receiver);
      FinishedKept(s.b, c);
      if c.receiver.reasm.eof != SIZE_MAX && s.b.receiver.reasm.eof == SIZE_MAX {
        FinBringsAck(s, e);
      }
    }
  }

  lemma DirectionReceives(x: Sender, y: Receiver, xy: set<Packet>, yx: set<Packet>)
    requires Direction(x, y, xy, yx)
    ensures Receives(y, x.isn, Sent(x), x.finSet)
  {
  }

  lemma FinishedKept(c: Connection, c': Connection)
    requires Settled(c) && Moves(c, c') && c.sender.finSet
    ensures c'.sender.next == c.sender.next && c.sender.recvAck <= c'.sender.recvAck <= c.sender.next
  {
    hide Tiles;
    assert c.sender.recvAck <= c.sender.next;
  }

  lemma FinBringsAck(s: System, e: Event)
    requires Safe(s) && Passive(s) && !s.a.linger && Enabled(s.Swap(), e)
    requires s.b.receiver.reasm.eof == SIZE_MAX && Handle(s.b, e).receiver.reasm.eof != SIZE_MAX
    ensures Handle(s.b, e).sender.recvAck == s.b.sender.next
  {
    hide Settled, Handle, Moves, AckReceived, TileAt;
    var x, c := s.b.sender, Handle(s.b, e);
    if Heeds(s.b, e) {
      var p := e.packet;
      HandleDeliver(s.b, p);
      DeliverMoves(s.b, p.seg);
      assert s.b.receiver.reasm.Inv() by { SettledParts(s.b); }
      EofByFin(s.b.receiver, p.seg);
      assert p.seg.header.ack && p.ackAbs == x.next;
      assert Ledger(x) && Saturated(x) by { SettledParts(s.b); }
      assert Numbers(x) by { LedgerParts(x); }
      AckSmall(x, s.a.receiver);
      AckTrusted(x, s.a.receiver, p);
      AckReceivedLedger(x, p.seg.header.ackno, p.seg.header.win);
    } else {
      HandleLocal(s.b, e);
      assert false;
    }
  }

  lemma EofByFin(r: Receiver, g: Segment)
    requires r.reasm.Inv() && r.reasm.eof == SIZE_MAX && Receiving.SegmentReceived(r, g).reasm.eof != SIZE_MAX
    ensures g.header.fin
  {
    hide Push, Unwrap, StreamIndex;
    if !g.header.fin {
      var r1 := if r.synSet then r else r.(synSet := true, isn := g.header.seqno);
      EofFrom(r.reasm, g.payload, StreamIndex(Unwrap(g.header.seqno, r1.isn, r.reasm.Next() + 1), g.header.syn), false);
    }
  }

  lemma StepPassive(s: System, e: Event)
    requires Safe(s) && Enabled(s, e) && Passive(s)
    ensures Passive(StepA(s, e))
  {
    hide Safe, Handle, Packets;
    if !s.a.linger {
      PassiveSender(s, e);
    } else if !StepA(s, e).a.linger {
      PassiveDecided(s, e);
    }
  }

  lemma {:induction false} RunPassive(run: seq<System>, ca: Config, cb: Config, i: nat)
    requires Behaviour(run, ca, cb) && i < |run|
    ensures Passive(run[i]) && Passive(run[i].Swap())
  {
    hide Safe, StepA, Enabled;
    if i > 0 {
      RunPassive(run, ca, cb, i - 1);
      RunSafe(run, ca, cb, i - 1);
      var s, s' := run[i - 1], run[i - 1 + 1];
      assert Next(s, s');
      SwapSafe(s);
      NextPassive(s, s');
    } else {
      StartLingers(ca);
      StartLingers(cb);
    }
  }

  lemma StartLingers(c: Config)
    ensures Start(c).linger
  {
  }

  lemma NextPassive(s: System, s': System)
    requires Safe(s) && Safe(s.Swap()) && Next(s, s') && Passive(s) && Passive(s.Swap())
    ensures Passive(s') && Passive(s'.Swap())
  {
    hide Safe, StepA, Passive;
    assert s.Swap().Swap() == s;
    if e :| Enabled(s, e) && s' == StepA(s, e) {
      StepPassive(s, e);
      PassivePeer(s.Swap(), e);
    } else {
      var e :| Enabled(s.Swap(), e) && s' == StepA(s.Swap(), e).Swap();
      PassivePeer(s, e);
      StepPassive(s.Swap(), e);
      assert s'.Swap() == StepA(s.Swap(), e);
    }
  }

  /**
   Closing without lingering is safe: on every run, when an endpoint has closed
   cleanly and was not required to linger, its peer's sender has every byte and
   FIN acknowledged and nothing outstanding, so the peer needs no further answer.
   */
  lemma NoLingerSafe(run: seq<System>, ca: Config, cb: Config, i: nat)
    requires Behaviour(run, ca, cb) && i < |run|
    requires !run[i].a.active && !run[i].a.sender.stream.error && !run[i].a.linger
    ensures var x := run[i].b.sender;
            x.finSet && x.unack == [] && x.recvAck == x.next && x.next == |x.stream.history| + 2
  {
    hide Behaviour, Settled, Reassembler.Inv, Agree;
    RunSafe(run, ca, cb, i);
    RunPassive(run, ca, cb, i);
    CleanClose(run, ca, cb, i);
    var s := run[i];
    assert Ledger(s.b.sender) by { SettledParts(s.b); }
    EndedMarked(s.b.receiver.reasm, Sent(s.a.sender), s.a.sender.finSet);
    EndedAcksAll(s.b.sender, s.a.receiver);
    if s.b.sender.unack != [] { FrontUnacked(s.b.sender); }
  }

  lemma EndedMarked(r: Reassembler, sent: seq<Byte>, fin: bool)
    requires Follows(r, sent, fin) && r.out.ended
    ensures r.eof != SIZE_MAX
  {
  }

  // ---------------------------------------------------------------------
  // Lingering, over the events at one endpoint

  /** The states an endpoint passes through, from its construction, as events happen to it. */
  ghost predicate Events(cf: Config, cs: seq<Connection>, es: seq<Event>) {
    && |cs| == |es| + 1
    && cs[0] == Start(cf)
    && (forall k :: 0 <= k < |es| ==> Allowed(cs[k], es[k]))
    && (forall k :: 0 <= k < |es| ==> cs[k].Sane() && cs[k + 1] == Handle(cs[k], es[k]).(out := []))
  }

  lemma {:induction false} EventsSettled(cf: Config, cs: seq<Connection>, es: seq<Event>, k: nat)
    requires Events(cf, cs, es) && k <= |es|
    ensures Settled(cs[k]) && cs[k].out == []
    ensures k > 0 && cs[k].active ==> cs[k - 1].active
  {
    hide Settled, Allowed, Handle, Moves, Start;
    if k == 0 {
      StartSettled(cf);
      StartQuiet(cf);
    } else {
      EventsSettled(cf, cs, es, k - 1);
      HandleMoves(cs[k - 1], es[k - 1]);
      assert cs[k - 1 + 1] == Handle(cs[k - 1], es[k - 1]).(out := []);
      MovesActive(cs[k - 1], Handle(cs[k - 1], es[k - 1]));
      SettledFlushed(Handle(cs[k - 1], es[k - 1]));
    }
  }

  lemma MovesActive(c: Connection, c': Connection)
    requires Moves(c, c')
    ensures Settled(c') && (c'.active ==> c.active)
  {
  }

  /** The time that has passed since a segment last arrived. */
  function QuietTime(es: seq<Event>): nat {
    if es == [] then 0
    else
      match es[|es| - 1]
      case Elapse(ms) => QuietTime(es[..|es| - 1]) + ms
      case Deliver(_) => 0
      case _ => QuietTime(es[..|es| - 1])
  }

  lemma SinceLastStep(c: Connection, e: Event)
    requires Settled(c) && c.out == [] && Allowed(c, e) && c.active
    ensures c.Sane()
    ensures Handle(c, e).sinceLast
            == (match e case Elapse(ms) => c.sinceLast + ms case Deliver(_) => 0 case _ => c.sinceLast)
    ensures Handle(c, e).rto == c.rto
  {
    hide Settled, Handle, Connecting.SegmentReceived, Paced, Emits, Sends, Grows;
    if Heeds(c, e) {
      DeliverMoves(c, e.packet.seg);
      HandleDeliver(c, e.packet);
    } else {
      HandleLocal(c, e);
    }
  }

  lemma {:induction false} SinceLastIsQuiet(cf: Config, cs: seq<Connection>, es: seq<Event>, k: nat)
    requires Events(cf, cs, es) && k <= |es| && (k > 0 ==> cs[k - 1].active)
    ensures cs[k].sinceLast == QuietTime(es[..k]) && cs[k].rto == cf.rto
  {
    hide Settled, Allowed, Handle;
    if k == 0 {
    } else {
      EventsSettled(cf, cs, es, k - 1);
      SinceLastIsQuiet(cf, cs, es, k - 1);
      SinceLastStep(cs[k - 1], es[k - 1]);
      assert cs[k - 1 + 1] == Handle(cs[k - 1], es[k - 1]).(out := []);
      assert es[..k][..k - 1] == es[..k - 1];
    }
  }

  /**
   An endpoint that must linger closes cleanly only after at least ten timeouts
   in which no segment arrived, whatever happened to it before.
   */
  lemma LingersLongEnough(cf: Config, cs: seq<Connection>, es: seq<Event>)
    requires Events(cf, cs, es) && es != []
    requires cs[|es| - 1].active && cs[|es| - 1].linger && !cs[|es|].active && !cs[|es|].sender.stream.error
    ensures 10 * cf.rto <= QuietTime(es)
  {
    hide Settled, Allowed, TickConnection, Done, Tick;
    var n := |es| - 1;
    EventsSettled(cf, cs, es, n);
    SinceLastIsQuiet(cf, cs, es, n);
    SinceLastIsQuiet(cf, cs, es, n + 1);
    assert es[..n + 1] == es;
    assert cs[n + 1] == Handle(cs[n], es[n]).(out := []);
    OnlyTicksClose(cs[n], es[n]);
    ErrorBefore(cs[n], es[n]);
    TickClosesIff(cs[n], es[n].ms);
  }

  lemma ErrorBefore(c: Connection, e: Event)
    requires Settled(c) && c.out == [] && Allowed(c, e)
    ensures c.Sane() && (c.sender.stream.error ==> Handle(c, e).sender.stream.error)
  {
    hide Handle, Ledger, Saturated;
    HandleMoves(c, e);
  }

  lemma OnlyTicksClose(c: Connection, e: Event)
    requires Settled(c) && c.out == [] && Allowed(c, e) && c.active
    ensures c.Sane()
    ensures !Handle(c, e).active && !Handle(c, e).sender.stream.error ==> e.Elapse?
  {
    hide Settled, Moves, Handle, Connecting.SegmentReceived, Paced;
    if Heeds(c, e) {
      DeliverMoves(c, e.packet.seg);
      HandleDeliver(c, e.packet);
    } else {
      HandleLocal(c, e);
    }
  }
}
