/**
 The two-endpoint system cannot wedge: while something is unacknowledged there is
 an outstanding segment, its retransmission is timely, and one delivery and one
 answer advance the sender past it.
 */
module Progressing {
  import opened Types
  import opened Reassembly
  import opened ReassemblyProofs
  import opened ReassemblyRuns
  import opened Segments
  import opened WrappingIntegers
  import opened Sending
  import opened SendingProofs
  import opened Receiving
  import opened Connecting
  import opened Endpoints
  import opened Emitting
  import opened Systems
  import opened Flows

  // ---------------------------------------------------------------------
  // No tile is cut

  /**
   On every run, a genuine packet delivered to an active endpoint that has seen
   SYN is taken whole; only a one-byte probe of a full receiver is dropped.
   */
  lemma NoTileCut(run: seq<System>, ca: Config, cb: Config, i: nat, p: Packet)
    requires Behaviour(run, ca, cb) && i < |run| && Enabled(run[i], Deliver(p))
    requires run[i].a.active && !p.seg.header.rst && p.seg.payload != []
    requires run[i].a.receiver.synSet || p.seg.header.syn
    ensures run[i].a.Sane()
    ensures Taken(p, run[i].a.receiver, Handle(run[i].a, Deliver(p)).receiver)
  {
    hide Settled, Handle, Flow, Direction, Behaviour, Taken, Timely;
    RunFlowing(run, ca, cb, i);
    var s := run[i];
    assert Numbers(s.b.sender) by { SettledParts(s.b); LedgerParts(s.b.sender); }
    DeliverMoves(s.a, p.seg);
    HandleDeliver(s.a, p);
    TimelyParts(s.a, p);
    DeliveredFlow(s.b.sender, s.a.receiver, s.ba, s.ab, p);
  }

  // ---------------------------------------------------------------------
  // Delivering the oldest outstanding segment

  /** The receiver has reached the start of every segment the sender still has outstanding. */
  lemma FrontReached(x: Sender, y: Receiver, p: Packet)
    requires Ledger(x) && x.unack != [] && CopyOf(p, x.unack[0], x) && Genuine(p, x)
    requires Receives(y, x.isn, Sent(x), x.finSet) && x.recvAck <= y.AckAbs()
    ensures p.seqAbs == x.next - x.inFlight && p.seg.Length() == x.unack[0].Length()
    ensures TileAt(p.seg, p.seqAbs, x.isn, Sent(x), x.finSet) && p.seg.Length() > 0
    ensures Lo(p) <= y.reasm.Next() && (y.synSet || p.seg.header.syn)
  {
    hide Reassembler.Inv, Unwrap;
    FrontPosition(x);
    AckBounded(y, x.isn, Sent(x), x.finSet);
  }

  // The prefix has passed everything contiguous that is held.
  lemma PastHeld(r: Reassembler, lo: nat, hi: nat)
    requires r.Inv() && lo <= r.Next() && forall i: nat :: lo <= i < hi ==> Held(r, i)
    ensures hi <= r.Next()
  {
    NextMissing(r);
  }

  /**
   Delivering any tile that the assembled prefix has reached moves the acknowledgement past
   it, FIN included, unless it is a probe of a full receiver.
   */
  lemma ReachedDelivered(x: Sender, y: Receiver, xy: set<Packet>, yx: set<Packet>, p: Packet)
    requires Flow(x, y, xy, yx) && Direction(x, y, xy, yx) && Numbers(x) && p in xy && p.seg.Length() > 0
    requires Lo(p) <= y.reasm.Next() && (y.synSet || p.seg.header.syn)
    requires y.synSet ==> Close(p.seqAbs, y.reasm.Next() + 1)
    requires !(Full(y) && |p.seg.payload| == 1 && Lo(p) == y.reasm.Next())
    ensures y.reasm.Inv()
    ensures p.seqAbs + p.seg.Length() <= Receiving.SegmentReceived(y, p.seg).AckAbs()
    ensures Receiving.SegmentReceived(y, p.seg).synSet
  {
    hide Flow, Follows, Reassembler.Inv;
    assert Genuine(p, x) && Receives(y, x.isn, Sent(x), x.finSet);
    assert |Sent(x)| < STREAM_LIMIT by { SentSmall(x); }
    DeliveredFlow(x, y, xy, yx, p);
    SegmentReceives(y, p.seg, p.seqAbs, x.isn, Sent(x), x.finSet);
    SegmentPlaced(y, p.seg, p.seqAbs, x.isn, Sent(x), x.finSet);
    var y' := Receiving.SegmentReceived(y, p.seg);
    if p.seg.payload != [] {
      PastHeld(y'.reasm, Lo(p), Hi(p));
    }
    if p.seg.header.fin { EndedAt(y'.reasm, Sent(x), x.finSet); }
  }

  /**
   On every run: delivering a segment that starts at or before the first missing number, be
   it the oldest outstanding one or a later one, moves the acknowledgement past it.
   */
  lemma ReachedAcknowledged(run: seq<System>, ca: Config, cb: Config, i: nat, p: Packet)
    requires Behaviour(run, ca, cb) && i < |run| && Enabled(run[i], Deliver(p))
    requires run[i].a.active && !p.seg.header.rst && p.seg.Length() > 0
    requires var y := run[i].a.receiver;
             && p.seqAbs <= y.AckAbs() && (y.synSet || p.seg.header.syn)
             && !(Full(y) && |p.seg.payload| == 1 && Lo(p) == y.reasm.Next())
    ensures run[i].a.Sane()
    ensures p.seqAbs + p.seg.Length() <= Handle(run[i].a, Deliver(p)).receiver.AckAbs()
  {
    hide Settled, Handle, Flow, Behaviour, Timely, Genuine, Honest;
    RunFlowing(run, ca, cb, i);
    var s := run[i];
    assert Numbers(s.b.sender) by { SettledParts(s.b); LedgerParts(s.b.sender); }
    DeliverMoves(s.a, p.seg);
    HandleDeliver(s.a, p);
    TimelyParts(s.a, p);
    EndedReached(s.b.sender, s.a.receiver, p);
    ReachedDelivered(s.b.sender, s.a.receiver, s.ba, s.ab, p);
  }

  // Nothing is sent after FIN, so what starts at or before the acknowledgement starts within the prefix.
  lemma EndedReached(x: Sender, y: Receiver, p: Packet)
    requires Genuine(p, x) && Receives(y, x.isn, Sent(x), x.finSet) && Numbers(x)
    requires p.seg.Length() > 0 && p.seqAbs <= y.AckAbs()
    ensures Lo(p) <= y.reasm.Next()
  {
    hide Reassembler.Inv, Agree;
  }

  lemma EndedAt(r: Reassembler, sent: seq<Byte>, fin: bool)
    requires Follows(r, sent, fin) && r.eof == |sent| && |sent| <= r.Next()
    ensures r.out.ended
  {
  }

  // ---------------------------------------------------------------------
  // The answer

  ghost predicate Plain(out: seq<Segment>) {
    forall g :: g in out ==> !g.header.rst
  }

  lemma FilledPlain(s: Sender, r: Sender)
    requires Ledger(r) && Plain(s.out) && s.out <= r.out && (forall g :: g in r.out[|s.out|..] ==> g in r.unack)
    ensures Plain(r.out)
  {
    hide Ledger, TileAt;
    forall g | g in r.out
      ensures !g.header.rst
    {
      if g !in s.out {
        assert r.out == s.out + r.out[|s.out|..];
        OutstandingPlain(r, g);
      }
    }
  }

  lemma OutstandingPlain(s: Sender, g: Segment)
    requires Ledger(s) && g in s.unack
    ensures !g.header.rst
  {
    OutstandingTile(s, g);
  }

  lemma AnswerPlain(r: Receiver, a: Sender, g: Segment)
    requires Ledger(a) && Saturated(a) && Plain(a.out)
    ensures a.stream.Valid() && Plain(Answer(r, a, g).out)
  {
    hide Ledger, FillWindow, Saturated;
    assert a.stream.Valid() by { LedgerParts(a); }
    FillWindowLedger(a);
    ExtendsOut(a, FillWindow(a));
    FilledPlain(a, FillWindow(a));
  }

  lemma StampedPlain(r: Receiver, segs: seq<Segment>)
    requires r.reasm.out.Valid() && Plain(segs)
    ensures Plain(StampAll(r, segs))
  {
    forall g | g in StampAll(r, segs)
      ensures !g.header.rst
    {
      var h := StampOrigin(r, segs, g);
    }
  }

  lemma AcknowledgedPlain(s: Sender, g: Segment)
    requires Ledger(s) && Saturated(s) && s.out == []
    ensures Plain(Acknowledged(s, g).out)
  {
    hide Ledger, Saturated, AckReceived, Unwrap;
    assert s.stream.Valid() && s.inFlight == Total(s.unack) by { LedgerParts(s); }
    if g.header.ack {
      AckReceivedLedger(s, g.header.ackno, g.header.win);
      FilledPlain(s, AckReceived(s, g.header.ackno, g.header.win));
    }
  }

  /** No answer to a segment resets the peer. */
  lemma DeliverPlain(c: Connection, g: Segment)
    requires Settled(c) && c.out == [] && c.active && !g.header.rst
    ensures c.Sane() && Plain(Connecting.SegmentReceived(c, g).out)
  {
    hide Ledger, Saturated, Acknowledged, Receiving.SegmentReceived, Reassembler.Inv, FillWindow, Answer, StampAll,
         ClosesPassively;
    SettledSane(c);
    ReceiverKept(c.receiver, g);
    var r := Receiving.SegmentReceived(c.receiver, g);
    InvValid(r.reasm);
    AcknowledgedMoves(c.sender, g);
    AcknowledgedPlain(c.sender, g);
    var a := Acknowledged(c.sender, g);
    AnswerPlain(r, a, g);
    FillWindowLedger(a);
    ExtendsOut(a, FillWindow(a));
    FilledPlain(a, FillWindow(a));
    StampedPlain(r, Answer(r, a, g).out);
    StampedPlain(r, FillWindow(a).out);
    PlainConcat(c.out, StampAll(r, Answer(r, a, g).out));
    PlainConcat(c.out, StampAll(r, FillWindow(a).out));
  }

  lemma PlainConcat(a: seq<Segment>, b: seq<Segment>)
    requires Plain(a) && Plain(b)
    ensures Plain(a + b)
  {
  }

  // ---------------------------------------------------------------------
  // Timeliness of what is sent now

  /** In a safe state everything unacknowledged lies within a window of what the peer has assembled. */
  lemma NumbersClose(x: Sender, y: Receiver, xy: set<Packet>, yx: set<Packet>)
    requires Ledger(x) && Direction(x, y, xy, yx)
    ensures x.next - x.inFlight <= x.recvAck <= y.AckAbs() <= x.next && x.inFlight <= MAX_WINDOW
  {
    hide Tiles, Receives, Genuine, Honest;
    AckSmall(x, y);
  }

  /** A packet that an endpoint emits now, as tile or bare, is timely for its peer. */
  lemma EmittedTimely(c: Connection, d: Connection, cd: set<Packet>, dc: set<Packet>, g: Segment)
    requires Settled(c) && Settled(d) && Emitted(c, g)
    requires Direction(c.sender, d.receiver, cd, dc) && Direction(d.sender, c.receiver, dc, cd)
    ensures Timely(d, PacketOf(c, g))
  {
    hide Ledger, Saturated, Wrap, Unwrap, Direction, Reassembler.Inv;
    NumbersClose(c.sender, d.receiver, cd, dc);
    NumbersClose(d.sender, c.receiver, dc, cd);
    InvValid(c.receiver.reasm);
    var h :| (h in c.sender.unack || h == Bare(c.sender, false) || h == Bare(c.sender, true))
        && g == Stamp(c.receiver, h);
    if h in c.sender.unack { OutstandingTile(c.sender, h); }
    EmittedGenuine(c, g);
  }

  // ---------------------------------------------------------------------
  // The round trip

  /** The state after packet p is delivered at endpoint b. */
  ghost function DeliverB(s: System, p: Packet): System
    requires s.b.Sane()
  {
    StepA(s.Swap(), Deliver(p)).Swap()
  }

  /** What endpoint b hands to the network when p is delivered there. */
  ghost function AnswersB(s: System, p: Packet): set<Packet>
    requires s.b.Sane()
  {
    Packets(Handle(s.b, Deliver(p)))
  }

  lemma SwapEnabled(s: System, p: Packet)
    requires Flowing(s) && p in s.ab && Timely(s.b, p)
    ensures Flowing(s.Swap()) && Enabled(s.Swap(), Deliver(p))
  {
    hide Flow, Direction, Settled;
    SettledSane(s.b);
  }

  /**
   Endpoint b answers the oldest outstanding segment of a, and every answer is
   timely and acknowledges all of it.
   */
  lemma FrontAnswered(s: System, p: Packet)
    requires Flowing(s) && s.b.active && s.a.sender.unack != []
    requires p in s.ab && CopyOf(p, s.a.sender.unack[0], s.a.sender) && Timely(s.b, p)
    requires !(Full(s.b.receiver) && |p.seg.payload| == 1 && Lo(p) == s.b.receiver.reasm.Next())
    ensures s.b.Sane() && AnswersB(s, p) != {}
    ensures forall r :: r in AnswersB(s, p) ==>
              && Timely(s.a, r) && r in DeliverB(s, p).ba && !r.seg.header.rst && r.seg.header.ack
              && s.a.sender.next - s.a.sender.inFlight + s.a.sender.unack[0].Length() <= r.ackAbs <= s.a.sender.next
  {
    hide Settled, Handle, Flow, Timely, CopyOf, Moves, Direction, PacketOf;
    SwapEnabled(s, p);
    StepFlow(s.Swap(), Deliver(p));
    HandleMoves(s.b, Deliver(p));
    HandleDeliver(s.b, p);
    var c := Handle(s.b, Deliver(p));
    FrontDeliveredAt(s, p);
    DeliverMoves(s.b, p.seg);
    DeliverPlain(s.b, p.seg);
    MovesInv(s.b, c);
    var t := DeliverB(s, p);
    assert t.a == s.a && t.b == c.(out := []) && t.ab == s.ab && t.ba == s.ba + Packets(c);
    assert c.out[0] in c.out;
    assert PacketOf(c, c.out[0]) in Packets(c);
    forall r | r in Packets(c)
      ensures Timely(s.a, r) && !r.seg.header.rst && r.seg.header.ack && r.ackAbs == c.receiver.AckAbs()
    {
      var g :| g in c.out && r == PacketOf(c, g);
      assert Emitted(c, g);
      AnswerFacts(c, t.a, t.ba, t.ab, g);
    }
    assert c.receiver.AckAbs() <= s.a.sender.next by {
      SettledParts(s.a);
      NumbersClose(t.a.sender, t.b.receiver, t.ab, t.ba);
    }
  }

  lemma AnswerFacts(c: Connection, d: Connection, cd: set<Packet>, dc: set<Packet>, g: Segment)
    requires Settled(c) && Settled(d) && Emitted(c, g) && c.receiver.synSet
    requires Direction(c.sender, d.receiver, cd, dc) && Direction(d.sender, c.receiver, dc, cd)
    ensures var r := PacketOf(c, g); Timely(d, r) && r.seg == g && g.header.ack && r.ackAbs == c.receiver.AckAbs()
  {
    hide Settled, Direction, Timely, Emitted;
    SettledParts(c);
    EmittedTimely(c, d, cd, dc, g);
    EmittedGenuine(c, g);
  }

  lemma FrontDeliveredAt(s: System, p: Packet)
    requires Flowing(s) && s.b.active && s.a.sender.unack != []
    requires p in s.ab && CopyOf(p, s.a.sender.unack[0], s.a.sender) && Timely(s.b, p)
    requires !(Full(s.b.receiver) && |p.seg.payload| == 1 && Lo(p) == s.b.receiver.reasm.Next())
    ensures s.b.receiver.reasm.Inv()
    ensures var y := Receiving.SegmentReceived(s.b.receiver, p.seg);
            && s.a.sender.next - s.a.sender.inFlight + s.a.sender.unack[0].Length() <= y.AckAbs() && y.synSet
    ensures !p.seg.header.rst && p.seg.Length() > 0
  {
    hide Settled, Flow, Tiles, Reassembler.Inv, CopyOf;
    var x, y := s.a.sender, s.b.receiver;
    assert Ledger(x) by { SettledParts(s.a); }
    assert Genuine(p, x);
    FrontReached(x, y, p);
    TimelyParts(s.b, p);
    assert Numbers(x) by { LedgerParts(x); }
    ReachedDelivered(x, y, s.ab, s.ba, p);
  }

  /** An acknowledgement of the oldest outstanding segment takes it off the queue. */
  lemma AnswerAccepted(s: System, r: Packet)
    requires Safe(s) && s.a.active && s.a.sender.unack != [] && Enabled(s, Deliver(r))
    requires r.seg.header.ack && !r.seg.header.rst
    requires s.a.sender.next - s.a.sender.inFlight + s.a.sender.unack[0].Length() <= r.ackAbs <= s.a.sender.next
    ensures Handle(s.a, Deliver(r)).sender.recvAck == r.ackAbs
  {
    hide Settled, Handle, Moves, AckReceived, Genuine, Receives;
    var x := s.a.sender;
    assert Ledger(x) && Saturated(x) by { SettledParts(s.a); }
    assert Numbers(x) by { LedgerParts(x); }
    AckSmall(x, s.b.receiver);
    AckTrusted(x, s.b.receiver, r);
    assert x.recvAck <= r.ackAbs by { LedgerParts(x); }
    AckReceivedLedger(x, r.seg.header.ackno, r.seg.header.win);
    DeliverMoves(s.a, r.seg);
    HandleDeliver(s.a, r);
  }

  /**
   No wedge: from every state of every run with both endpoints active, delivering
   any timely copy of a's oldest outstanding segment makes b answer, and any of
   those answers, delivered to a, moves a past that segment; except while the
   segment is a one-byte probe that b, its buffer full, has not taken.
   */
  lemma RoundTrip(run: seq<System>, ca: Config, cb: Config, i: nat, p: Packet)
    requires Behaviour(run, ca, cb) && i < |run| && run[i].a.active && run[i].b.active
    requires run[i].a.sender.unack != []
    requires p in run[i].ab && CopyOf(p, run[i].a.sender.unack[0], run[i].a.sender) && Timely(run[i].b, p)
    requires !(Full(run[i].b.receiver) && |p.seg.payload| == 1 && Lo(p) == run[i].b.receiver.reasm.Next())
    ensures var s := run[i];
            && s.b.Sane() && s.a.Sane() && AnswersB(s, p) != {}
            && forall r :: r in AnswersB(s, p) ==>
                 && Enabled(DeliverB(s, p), Deliver(r))
                 && s.a.sender.next - s.a.sender.inFlight + s.a.sender.unack[0].Length()
                    <= StepA(DeliverB(s, p), Deliver(r)).a.sender.recvAck
  {
    hide Behaviour, Flow, Direction, Settled, Handle, Timely, CopyOf, Packets;
    RunFlowing(run, ca, cb, i);
    var s := run[i];
    SettledSane(s.a);
    FrontAnswered(s, p);
    SwapEnabled(s, p);
    StepFlow(s.Swap(), Deliver(p));
    var t := DeliverB(s, p);
    assert t.a == s.a;
    forall r | r in AnswersB(s, p)
      ensures Enabled(t, Deliver(r))
      ensures s.a.sender.next - s.a.sender.inFlight + s.a.sender.unack[0].Length() <= StepA(t,
            Deliver(r)).a.sender.recvAck
    {
      AnswerAccepted(t, r);
    }
  }

  // ---------------------------------------------------------------------
  // There is always something to retransmit

  /** While anything written, or the end of the input, is unacknowledged, a segment is outstanding. */
  lemma NothingStuck(run: seq<System>, ca: Config, cb: Config, i: nat)
    requires Behaviour(run, ca, cb) && i < |run|
    ensures var x := run[i].a.sender;
            x.synSet && x.recvAck < 1 + |x.stream.history| + Bit(x.stream.ended) ==>
              x.unack != [] && x.timer.running && Launched(x.unack[0], x, run[i].ab)
  {
    hide Behaviour, Direction, Tiling;
    RunFlowing(run, ca, cb, i);
    var x := run[i].a.sender;
    if x.synSet && x.unack == [] { TilesNone(x); }
  }

  /**
   When the timer expires, unless that exhausts the retransmissions, the oldest outstanding
   segment leaves again, with current numbers, and that copy is timely for the peer.
   */
  lemma RetransmitTimely(run: seq<System>, ca: Config, cb: Config, i: nat, ms: nat)
    requires Behaviour(run, ca, cb) && i < |run|
    requires var x := run[i].a.sender;
             x.unack != [] && x.timer.curRto <= x.timer.elapsed + ms && x.retx + Bit(x.window > 0) <= MAX_RETX_ATTEMPTS
    ensures run[i].a.Sane()
    ensures var s := run[i];
            var c := Handle(s.a, Elapse(ms));
            exists p :: p in Packets(c) && CopyOf(p, s.a.sender.unack[0], c.sender) && Timely(s.b, p)
  {
    hide Behaviour, Flow, Direction, Timely, Ledger, Saturated, Unwrap, Finished, Handle;
    RunFlowing(run, ca, cb, i);
    var s := run[i];
    SettledSane(s.a);
    StepSafe(s, Elapse(ms));
    var c, h := Handle(s.a, Elapse(ms)), s.a.sender.unack[0];
    assert s.a.sender.timer.running by { LedgerParts(s.a.sender); }
    Retransmitted(s.a, ms);
    var t := StepA(s, Elapse(ms));
    var p := PacketOf(c, Stamp(c.receiver, h));
    assert Emitted(t.a, p.seg);
    EmittedTimely(t.a, t.b, t.ab, t.ba, p.seg);
  }

  lemma Retransmitted(c: Connection, ms: nat)
    requires Settled(c) && c.out == [] && c.sender.unack != [] && c.sender.timer.running
    requires c.sender.timer.curRto <= c.sender.timer.elapsed + ms
    requires c.sender.retx + Bit(c.sender.window > 0) <= MAX_RETX_ATTEMPTS
    ensures c.Sane()
    ensures var c' := Handle(c, Elapse(ms));
            && c'.receiver.reasm.out.Valid() && Stamp(c'.receiver, c.sender.unack[0]) in c'.out
            && c'.sender.unack == c.sender.unack && c'.sender.isn == c.sender.isn && c'.sender.next == c.sender.next
  {
    hide Settled, TickConnection, Tick, StampAll;
    SettledSane(c);
    SettledParts(c);
    InvValid(c.receiver.reasm);
    TickRetransmits(c.sender, ms);
    assert Tick(c.sender, ms).out == [c.sender.unack[0]];
    QuietOut(c, ms);
    StampKept(c.receiver, [c.sender.unack[0]], c.sender.unack[0]);
  }

  lemma TickRetransmits(s: Sender, ms: nat)
    requires s.unack != [] && s.timer.running && s.timer.curRto <= s.timer.elapsed + ms
    ensures var r := Tick(s, ms);
            && r.out == s.out + [s.unack[0]] && r.retx == s.retx + Bit(s.window > 0)
            && r.unack == s.unack && r.isn == s.isn && r.next == s.next
  {
  }
}
