/**
 What an endpoint hands to the network at each event, to the segment: nothing is
 missing and nothing is added.
 */
module Emitting {
  import opened Types
  import ByteStreams
  import opened Reassembly
  import opened Segments
  import opened WrappingIntegers
  import opened Sending
  import opened SendingProofs
  import opened Receiving
  import opened Connecting
  import opened Endpoints

  lemma {:induction false} TotalConcat(a: seq<Segment>, b: seq<Segment>)
    ensures Total(a + b) == Total(a) + Total(b)
  {
    if a == [] {
      assert a + b == b;
    } else {
      assert (a + b)[1..] == a[1..] + b;
      TotalConcat(a[1..], b);
    }
  }

  /** The sender's queue lost some of its front and gained `launched`, which are what the new numbers count. */
  ghost predicate Launches(s: Sender, s': Sender, launched: seq<Segment>) {
    && (exists k :: 0 <= k <= |s.unack| && s'.unack == s.unack[k..] + launched)
    && Total(launched) == s'.next - s.next
  }

  // What filling the window sends is what becomes outstanding.
  lemma FillLaunches(s: Sender) returns (launched: seq<Segment>)
    requires Ledger(s)
    ensures s.stream.Valid() && FillWindow(s).out == s.out + launched && Launches(s, FillWindow(s), launched)
    ensures FillWindow(s).unack == s.unack + launched
  {
    hide Ledger, FillWindow;
    assert s.stream.Valid() && s.inFlight == Total(s.unack) by { LedgerParts(s); }
    FillWindowLedger(s);
    var f := FillWindow(s);
    assert f.inFlight == Total(f.unack) by { LedgerParts(f); }
    launched := f.unack[|s.unack|..];
    assert f.unack == s.unack + launched;
    TotalConcat(s.unack, launched);
    assert s.unack[0..] == s.unack;
  }

  lemma AckLaunches(s: Sender, g: Segment) returns (launched: seq<Segment>)
    requires Ledger(s) && s.out == []
    ensures s.stream.Valid() && s.inFlight == Total(s.unack)
    ensures Acknowledged(s, g).out == launched && Launches(s, Acknowledged(s, g), launched)
  {
    hide Ledger, FillWindow, Acknowledge, Unwrap;
    assert s.stream.Valid() && s.inFlight == Total(s.unack) by { LedgerParts(s); }
    var abs := Unwrap(g.header.ackno, s.isn, s.recvAck);
    if g.header.ack && s.recvAck <= abs <= s.next {
      AcknowledgeLedger(s, abs, g.header.win);
      var a := Acknowledge(s, abs, g.header.win);
      launched := FillLaunches(a);
      var k := |s.unack| - |a.unack|;
      assert FillWindow(a).unack == s.unack[k..] + launched;
    } else {
      launched := [];
      assert s.unack == s.unack[0..] + [];
    }
  }

  /** The segment carries, without taking a number, the number just before the one r waits for. */
  predicate KeepAlive(r: Receiver, g: Segment) {
    g.Length() == 0 && r.synSet && (g.header.seqno + 1) % TWO32 == Wrap(r.AckAbs(), r.isn)
  }

  /** The timer of s runs out within ms. */
  predicate RunsOut(s: Sender, ms: nat) {
    s.unack != [] && s.timer.running && s.timer.curRto <= s.timer.elapsed + ms
  }

  /** The connection's limit on retransmissions is passed within ms. */
  predicate PassesLimit(s: Sender, ms: nat) {
    MAX_RETX_ATTEMPTS < s.retx + Bit(RunsOut(s, ms) && s.window > 0)
  }

  /**
   What leaves besides newly launched segments: the oldest outstanding one when its timer
   runs out, a reset on failure, and an empty segment to acknowledge one that took numbers
   when nothing else does, or to answer a keep-alive.
   */
  function Besides(c: Connection, e: Event, c': Connection, launched: seq<Segment>): seq<Segment> {
    match e
    case Elapse(ms) =>
      if PassesLimit(c.sender, ms) then [Bare(c'.sender, true)]
      else if RunsOut(c.sender, ms) then [c.sender.unack[0]]
      else []
    case Abort => if c.active then [Bare(c'.sender, true)] else []
    case Deliver(p) =>
      if Heeds(c, e) && (KeepAlive(c'.receiver, p.seg) || (p.seg.Length() > 0 && launched == []))
      then [Bare(c'.sender, false)] else []
    case _ => []
  }

  ghost predicate EmitsExactly(c: Connection, e: Event, c': Connection, launched: seq<Segment>)
    requires c'.receiver.reasm.out.Valid()
  {
    && Launches(c.sender, c'.sender, launched)
    && c'.out == StampAll(c'.receiver, launched + Besides(c, e, c', launched))
  }

  lemma StampNothing(r: Receiver)
    requires r.reasm.out.Valid()
    ensures StampAll(r, []) == []
  {
  }

  lemma NothingLaunched(s: Sender, s': Sender)
    requires s'.unack == s.unack && s'.next == s.next
    ensures Launches(s, s', [])
  {
    assert s'.unack == s.unack[0..] + [];
  }

  // Opening, writing and ending: what filling the window launches.
  lemma ConnectEmits(c: Connection, t: ByteStreams.Stream, e: Event) returns (launched: seq<Segment>)
    requires Settled(c) && c.out == [] && StreamStep(c.sender.stream, t) && (e.Open? || e.Send? || e.Finish?)
    ensures var c1 := c.(sender := c.sender.(stream := t));
            c1.Sane() && Connect(c1).receiver.reasm.out.Valid() && EmitsExactly(c, e, Connect(c1), launched)
  {
    hide Ledger, Saturated, FillWindow, StampAll, StreamStep, Reassembler.Inv;
    assert c.receiver.reasm.out.Valid() by { InvValid(c.receiver.reasm); }
    StreamGrows(c.sender, t);
    var c1 := c.(sender := c.sender.(stream := t));
    assert c1.Sane() by { LedgerParts(c1.sender); }
    launched := FillLaunches(c1.sender);
    assert Connect(c1).sender.unack == c.sender.unack[0..] + launched;
    assert [] + StampAll(c.receiver, launched) == StampAll(c.receiver, launched);
    assert [] + launched == launched && launched + [] == launched;
  }

  lemma ElapseEmits(c: Connection, ms: nat)
    requires Settled(c) && c.out == []
    ensures c.Sane() && TickConnection(c, ms).receiver.reasm.out.Valid()
    ensures EmitsExactly(c, Elapse(ms), TickConnection(c, ms), [])
  {
    hide Settled, TickConnection, Moves, Tick, Finished, StampAll;
    ElapseMoves(c, ms);
    var c', s := TickConnection(c, ms), Tick(c.sender, ms);
    assert c.receiver.reasm.out.Valid() by { SettledParts(c); InvValid(c.receiver.reasm); }
    TickCounts(c.sender, ms);
    NothingLaunched(c.sender, c'.sender);
    assert c.sender.out == [] by { SettledParts(c); }
    if MAX_RETX_ATTEMPTS < s.retx {
      GiveUpOut(c, ms);
    } else {
      QuietOut(c, ms);
    }
    assert [] + Besides(c, Elapse(ms), c', []) == Besides(c, Elapse(ms), c', []);
  }

  // What a tick queues and counts.
  lemma TickCounts(s: Sender, ms: nat)
    ensures var r := Tick(s, ms);
            && r.retx == s.retx + Bit(RunsOut(s, ms) && s.window > 0)
            && r.out == s.out + (if RunsOut(s, ms) then [s.unack[0]] else [])
            && r.unack == s.unack && r.next == s.next && r.isn == s.isn
  {
  }

  lemma GiveUpOut(c: Connection, ms: nat)
    requires c.Sane() && c.out == [] && MAX_RETX_ATTEMPTS < Tick(c.sender, ms).retx
    ensures var c' := TickConnection(c, ms);
            c'.receiver.reasm.out.Valid() && c'.out == StampAll(c'.receiver, [Bare(c'.sender, true)])
  {
    hide Tick, StampAll, Reassembler.Inv;
    assert c.receiver.reasm.out.Valid() by { InvValid(c.receiver.reasm); }
    var s := TickConnection(c, ms).sender;
    assert [] + [Bare(s, true)] == [Bare(s, true)];
  }

  lemma QuietOut(c: Connection, ms: nat)
    requires c.Sane() && c.out == [] && Tick(c.sender, ms).retx <= MAX_RETX_ATTEMPTS
    ensures var c' := TickConnection(c, ms);
            && c'.receiver == c.receiver && c'.receiver.reasm.out.Valid()
            && c'.out == StampAll(c'.receiver, Tick(c.sender, ms).out)
            && c'.sender == Tick(c.sender, ms).(out := [])
  {
    hide Tick, StampAll, Finished;
  }

  // ---------------------------------------------------------------------
  // Deliveries

  lemma KeepAliveTest(r: Receiver, g: Segment)
    ensures KeepAlive(r, g) <==>
            r.Ackno().Some? && g.Length() == 0 && g.header.seqno == (r.Ackno().value + TWO32 - 1) % TWO32
  {
    hide Wrap;
  }

  // The answer to a heeded segment, given what its acknowledgement launched.
  lemma AnswerLaunches(r: Receiver, s: Sender, a: Sender, g: Segment, acked: seq<Segment>)
    returns (launched: seq<Segment>)
    requires Ledger(a) && Saturated(a) && Launches(s, a, acked) && a.out == acked
    requires !a.synSet ==> a == s && s.out == []
    ensures a.stream.Valid() && Launches(s, Answer(r, a, g), launched)
    ensures var b := Answer(r, a, g);
            b.out == launched + (if KeepAlive(r, g) || (g.Length() > 0 && launched == []) then [Bare(b, false)] else [])
  {
    hide Ledger, Saturated, FillWindow, KeepAlive;
    assert a.stream.Valid() by { LedgerParts(a); }
    KeepAliveTest(r, g);
    KeepAliveBare(r, g);
    launched := acked;
    assert acked + [] == acked;
    if g.Length() > 0 && a.out == [] {
      if a.synSet {
        FillSaturated(a);
      } else {
        launched := FillLaunches(a);
        FillGrows(a);
        assert [] + launched == launched && launched + [] == launched;
      }
    }
  }

  lemma KeepAliveBare(r: Receiver, g: Segment)
    ensures KeepAlive(r, g) ==> g.Length() == 0
  {
  }

  lemma DeliverEmits(c: Connection, p: Packet) returns (launched: seq<Segment>)
    requires Settled(c) && c.out == [] && Heeds(c, Deliver(p))
    ensures c.Sane() && Handle(c, Deliver(p)).receiver.reasm.out.Valid()
    ensures EmitsExactly(c, Deliver(p), Handle(c, Deliver(p)), launched)
  {
    hide Ledger, Saturated, Acknowledged, Receiving.SegmentReceived, Reassembler.Inv, FillWindow, Answer, StampAll,
         ClosesPassively, KeepAlive, Launches;
    var g := p.seg;
    SettledSane(c);
    ReceiverKept(c.receiver, g);
    var r := Receiving.SegmentReceived(c.receiver, g);
    assert r.reasm.out.Valid() by { InvValid(r.reasm); }
    AcknowledgedMoves(c.sender, g);
    var a := Acknowledged(c.sender, g);
    var acked := AckLaunches(c.sender, g);
    assert a.next == 0 <==> !a.synSet by { LedgerParts(a); }
    if g.header.syn && a.next == 0 {
      launched := FillLaunches(a);
      FillGrows(a);
      LaunchesSame(c.sender, FillWindow(a), launched);
      assert [] + launched == launched && launched + [] == launched;
      KeepAliveBare(r, g);
    } else {
      launched := AnswerLaunches(r, c.sender, a, g, acked);
      LaunchesSame(c.sender, Answer(r, a, g), launched);
    }
    var c' := Connecting.SegmentReceived(c, g);
    HandleDeliver(c, p);
    assert c'.out == StampAll(c'.receiver, launched + Besides(c, Deliver(p), c', launched)) by {
      var sent := launched + Besides(c, Deliver(p), c', launched);
      assert [] + StampAll(r, sent) == StampAll(r, sent);
    }
  }

  lemma LaunchesSame(s: Sender, f: Sender, launched: seq<Segment>)
    requires Launches(s, f, launched)
    ensures Launches(s, f.(out := []), launched)
  {
  }

  /**
   What every event makes an endpoint hand to the network: the segments it launches, in
   order, followed by at most one other, all stamped with the receiver's state.
   */
  lemma HandleEmits(c: Connection, e: Event) returns (launched: seq<Segment>)
    requires Settled(c) && c.out == [] && Allowed(c, e)
    ensures c.Sane() && Handle(c, e).receiver.reasm.out.Valid()
    ensures EmitsExactly(c, e, Handle(c, e), launched)
  {
    hide Settled, Ledger, Connect, TickConnection, SendRst, StreamStep, StampAll, Connecting.SegmentReceived, Launches;
    SettledSane(c);
    SettledParts(c);
    var t := c.sender.stream;
    assert t.Valid() && |t.history| < STREAM_LIMIT by { SettledStream(c); }
    assert c.receiver.reasm.out.Valid() by { InvValid(c.receiver.reasm); }
    launched := [];
    assert launched + [] == [];
    StampNothing(c.receiver);
    match e
    case Open =>
      WriteStep(t, []);
      launched := ConnectEmits(c, t, e);
    case Send(data) =>
      WriteStep(t, data);
      launched := ConnectEmits(c, t.Write(data), e);
    case Finish =>
      WriteStep(t, []);
      launched := ConnectEmits(c, t.EndInput(), e);
    case Elapse(ms) =>
      ElapseEmits(c, ms);
    case Consume(len) =>
      ConsumeEmits(c, len);
    case Abort =>
      AbortEmits(c);
    case Deliver(p) =>
      if Heeds(c, e) {
        launched := DeliverEmits(c, p);
      } else {
        IgnoredEmits(c, p);
      }
  }

  lemma ConsumeEmits(c: Connection, len: nat)
    requires Settled(c) && c.out == []
    ensures c.Sane() && Handle(c, Consume(len)).receiver.reasm.out.Valid()
    ensures EmitsExactly(c, Consume(len), Handle(c, Consume(len)), [])
  {
    SettledSane(c);
    NothingLaunched(c.sender, Handle(c, Consume(len)).sender);
  }

  lemma AbortEmits(c: Connection)
    requires Settled(c) && c.out == []
    ensures c.Sane() && Handle(c, Abort).receiver.reasm.out.Valid()
    ensures EmitsExactly(c, Abort, Handle(c, Abort), [])
  {
    hide Ledger, Saturated, StampAll;
    SettledSane(c);
    var c' := Handle(c, Abort);
    NothingLaunched(c.sender, c'.sender);
    assert [] + Besides(c, Abort, c', []) == Besides(c, Abort, c', []);
    StampNothing(c.receiver);
  }

  lemma IgnoredEmits(c: Connection, p: Packet)
    requires Settled(c) && c.out == [] && !Heeds(c, Deliver(p))
    ensures c.Sane() && Handle(c, Deliver(p)).receiver.reasm.out.Valid()
    ensures EmitsExactly(c, Deliver(p), Handle(c, Deliver(p)), [])
  {
    SettledSane(c);
    NothingLaunched(c.sender, Handle(c, Deliver(p)).sender);
  }

  // ---------------------------------------------------------------------
  // What that means

  /**
   The stamp: numbers, flags and payload of a segment are left alone; it acknowledges
   exactly if SYN has been seen, SYN, the assembled bytes and the end, and advertises the
   room between what has been assembled and what has been read, in 16 bits.
   */
  lemma {:induction false} StampAt(r: Receiver, segs: seq<Segment>, i: nat)
    requires r.reasm.out.Valid() && i < |segs|
    ensures |StampAll(r, segs)| == |segs|
    ensures var g, h, inbound := StampAll(r, segs)[i], segs[i], r.reasm.out;
            && g.payload == h.payload && g.header.seqno == h.header.seqno && g.header.doff == h.header.doff
            && g.header.syn == h.header.syn && g.header.fin == h.header.fin && g.header.rst == h.header.rst
            && g.header.ack == (h.header.ack || r.synSet)
            && (r.synSet ==> g.header.ackno == Wrap(1 + |inbound.history| + Bit(inbound.ended), r.isn))
            && g.header.win == Min(0xffff, inbound.popped + inbound.capacity - |inbound.history|)
  {
    hide Wrap;
    if i == 0 {
      StampLength(r, segs);
    } else {
      StampAt(r, segs[1..], i - 1);
    }
  }

  lemma {:induction false} StampLength(r: Receiver, segs: seq<Segment>)
    requires r.reasm.out.Valid()
    ensures |StampAll(r, segs)| == |segs|
  {
    if segs == [] {
    } else {
      StampLength(r, segs[1..]);
    }
  }

  /** Every segment that leaves at an event advertises exactly the room its endpoint has then. */
  lemma AdvertisesRoom(c: Connection, e: Event, g: Segment)
    requires Settled(c) && c.out == [] && Allowed(c, e) && c.Sane() && g in Handle(c, e).out
    ensures var inbound := Handle(c, e).receiver.reasm.out;
            && g.header.win == Min(0xffff, inbound.popped + inbound.capacity - |inbound.history|)
            && (g.header.win == 0 <==> |inbound.history| == inbound.popped + inbound.capacity)
            && (g.header.ack <==> Handle(c, e).receiver.synSet)
  {
    hide Handle, StampAll, Launches, Besides, Settled;
    var launched := HandleEmits(c, e);
    var c' := Handle(c, e);
    var sent := launched + Besides(c, e, c', launched);
    StampLength(c'.receiver, sent);
    var i :| 0 <= i < |c'.out| && c'.out[i] == g;
    StampAt(c'.receiver, sent, i);
    assert !sent[i].header.ack by { SentBare(c, e, launched, sent[i]); }
  }

  // Nothing that a sender queues carries an acknowledgement of its own.
  lemma SentBare(c: Connection, e: Event, launched: seq<Segment>, h: Segment)
    requires Settled(c) && c.out == [] && Allowed(c, e) && c.Sane()
    requires var c' := Handle(c, e);
             Launches(c.sender, c'.sender, launched) && h in launched + Besides(c, e, c', launched)
    ensures !h.header.ack
  {
    hide Handle, Moves, Paced, Ledger, Saturated, Reassembler.Inv, StampAll, Emits, Tiles;
    HandleMoves(c, e);
    var c' := Handle(c, e);
    MovesLedger(c, c');
    if h in launched {
      assert h in c'.sender.unack;
      OutstandingTile(c'.sender, h);
    } else if h in c.sender.unack {
      OutstandingTile(c.sender, h);
    }
  }

  lemma MovesLedger(c: Connection, c': Connection)
    requires Moves(c, c')
    ensures Ledger(c'.sender)
  {
  }

  // With no new numbers nothing was launched.
  lemma NoneLaunched(s: Sender, s': Sender, launched: seq<Segment>)
    requires Ledger(s') && Launches(s, s', launched) && s'.next == s.next
    ensures launched == []
  {
    if launched != [] {
      OutstandingTile(s', launched[0]);
    }
  }

  /**
   No chatter: a segment that takes no numbers, is no keep-alive and releases nothing new
   is not answered at all; a keep-alive is answered with one empty segment, and so is a
   segment that takes numbers when nothing else goes out.
   */
  lemma AnswersExactly(c: Connection, p: Packet)
    requires Settled(c) && c.out == [] && c.active && !p.seg.header.rst
    ensures c.Sane()
    ensures var c' := Handle(c, Deliver(p));
            c'.sender.next == c.sender.next ==>
              if p.seg.Length() > 0 || KeepAlive(c'.receiver, p.seg)
              then |c'.out| == 1 && c'.out[0].Length() == 0 && !c'.out[0].header.rst
                   && c'.out[0].header.seqno == Wrap(c'.sender.next, c'.sender.isn)
              else c'.out == []
  {
    hide Handle, Settled, Launches, KeepAlive, Wrap, StampAll;
    HandleMoves(c, Deliver(p));
    var c' := Handle(c, Deliver(p));
    MovesLedger(c, c');
    var launched := HandleEmits(c, Deliver(p));
    if c'.sender.next == c.sender.next {
      NoneLaunched(c.sender, c'.sender, launched);
      var sent := launched + Besides(c, Deliver(p), c', launched);
      StampLength(c'.receiver, sent);
      if sent != [] { StampAt(c'.receiver, sent, 0); }
    }
  }

  /** Destroying an active endpoint sends a reset. */
  lemma AbortResets(c: Connection)
    requires Settled(c) && c.out == [] && c.active
    ensures c.Sane()
    ensures var c' := Handle(c, Abort);
            |c'.out| == 1 && c'.out[0].header.rst && !c'.active && c'.sender.stream.error && c'.receiver.reasm.out.error
  {
    hide Settled, Launches, StampAll, SendRst;
    ResetMoves(c);
    SettledSane(c);
    AbortEmits(c);
    var c' := Handle(c, Abort);
    assert [] + [Bare(c'.sender, true)] == [Bare(c'.sender, true)];
    StampLength(c'.receiver, [Bare(c'.sender, true)]);
    StampAt(c'.receiver, [Bare(c'.sender, true)], 0);
  }
}
