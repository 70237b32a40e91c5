/**
 One endpoint and everything that can happen to it, with what holds of every
 event: the books of its sender, and where the segments it emits come from.
 */
module Endpoints {
  import opened Types
  import opened ByteStreams
  import opened Reassembly
  import opened ReassemblyProofs
  import opened Segments
  import opened WrappingIntegers
  import opened Sending
  import opened SendingProofs
  import opened Receiving
  import opened Connecting

  /** Between events: the books balance, the window is used, and nothing waits at the sender. */
  ghost predicate Settled(c: Connection) {
    && Ledger(c.sender)
    && Saturated(c.sender)
    && c.sender.out == []
    && c.receiver.reasm.Inv()
  }

  lemma SettledSane(c: Connection)
    requires Settled(c)
    ensures c.Sane()
  {
  }

  lemma SettledParts(c: Connection)
    requires Settled(c)
    ensures Ledger(c.sender) && Saturated(c.sender) && c.sender.out == [] && c.receiver.reasm.Inv() && c.Sane()
  {
  }

  /** The sender moved forward: more written, more sent, more acknowledged, nothing taken back. */
  ghost predicate Grows(s: Sender, s': Sender) {
    && s'.isn == s.isn
    && s.stream.history <= s'.stream.history && s.stream.popped <= s'.stream.popped
    && (s.stream.ended ==> s'.stream.ended && s'.stream.history == s.stream.history)
    && (s.stream.error ==> s'.stream.error)
    && s.next <= s'.next && s.next - s.inFlight <= s'.next - s'.inFlight
    && s.recvAck <= s'.recvAck <= Max(s.recvAck, s.next)
    && (s.synSet ==> s'.synSet)
    && (s.finSet ==> s'.finSet && s'.next == s.next)
    && (s'.next == s.next || s'.next <= s'.recvAck + Max(s'.window, 1))
  }

  /** What is outstanding was outstanding before or starts where sending had got to. */
  ghost predicate NewAbove(s: Sender, s': Sender) {
    forall g :: g in s'.unack ==> g in s.unack || s.next <= Unwrap(g.header.seqno, s'.isn, s'.next)
  }

  /** What has become outstanding has also been queued to leave. */
  ghost predicate Offers(s: Sender, s': Sender) {
    forall h :: h in s'.unack ==> h in s.unack || h in s'.out
  }

  /** What has become outstanding during an event has left with it. */
  ghost predicate Sends(c: Connection, c': Connection)
    requires c'.receiver.reasm.out.Valid()
  {
    forall h :: h in c'.sender.unack ==> h in c.sender.unack || Stamp(c'.receiver, h) in c'.out
  }

  /** Everything queued at the sender is outstanding or occupies no numbers. */
  ghost predicate Queued(s: Sender) {
    forall h :: h in s.out ==> h in s.unack || h == Bare(s, false) || h == Bare(s, true)
  }

  /** g is an outstanding segment or a bare one, with the receiver's current acknowledgement and window. */
  ghost predicate Emitted(c: Connection, g: Segment)
    requires c.receiver.reasm.out.Valid()
  {
    exists h :: (h in c.sender.unack || h == Bare(c.sender, false) || h == Bare(c.sender, true))
        && g == Stamp(c.receiver, h)
  }

  ghost predicate Emits(c: Connection)
    requires c.receiver.reasm.out.Valid()
  {
    forall g :: g in c.out ==> Emitted(c, g)
  }

  // ---------------------------------------------------------------------
  // Emission

  lemma {:induction false} StampOrigin(r: Receiver, segs: seq<Segment>, g: Segment) returns (h: Segment)
    requires r.reasm.out.Valid() && g in StampAll(r, segs)
    ensures h in segs && g == Stamp(r, h)
  {
    if g == Stamp(r, segs[0]) {
      h := segs[0];
    } else {
      h := StampOrigin(r, segs[1..], g);
    }
  }

  lemma {:induction false} StampKept(r: Receiver, segs: seq<Segment>, h: Segment)
    requires r.reasm.out.Valid() && h in segs
    ensures Stamp(r, h) in StampAll(r, segs)
  {
    if h != segs[0] {
      StampKept(r, segs[1..], h);
    }
  }

  lemma AssembleEmits(c: Connection)
    requires c.receiver.reasm.out.Valid() && c.out == [] && Queued(c.sender)
    ensures Emits(AssembleSend(c)) && AssembleSend(c).sender.out == []
    ensures c.sender.out != [] ==> AssembleSend(c).out != []
    ensures forall h :: h in c.sender.out ==> Stamp(c.receiver, h) in AssembleSend(c).out
  {
    var c' := AssembleSend(c);
    forall h | h in c.sender.out
      ensures Stamp(c.receiver, h) in c'.out
    {
      StampKept(c.receiver, c.sender.out, h);
    }
    assert c'.out == StampAll(c.receiver, c.sender.out);
    forall g | g in c'.out
      ensures Emitted(c', g)
    {
      var h := StampOrigin(c.receiver, c.sender.out, g);
      assert h in c'.sender.unack || h == Bare(c'.sender, false) || h == Bare(c'.sender, true);
    }
  }

  // ---------------------------------------------------------------------
  // Filling and acknowledging move the sender forward

  lemma {:induction false} TilesSplit(a: seq<Segment>, b: seq<Segment>, isn: U32, from: nat, to: nat,
                                      sent: seq<Byte>, fin: bool)
    requires Tiles(a + b, isn, from, to, sent, fin)
    ensures Tiles(b, isn, from + Total(a), to, sent, fin)
  {
    if a == [] {
      assert a + b == b;
    } else {
      assert (a + b)[1..] == a[1..] + b;
      TilesSplit(a[1..], b, isn, from + a[0].Length(), to, sent, fin);
    }
  }

  lemma ExtendsAbove(s: Sender, s': Sender)
    requires Ledger(s) && Ledger(s') && Extends(s, s')
    ensures NewAbove(s, s')
  {
    hide Tiles, Unwrap, Ledger, Extends;
    ExtendsWindow(s, s');
    ExtendsUnack(s, s');
    var d := s'.unack[|s.unack|..];
    assert s'.unack == s.unack + d;
    assert Tiles(s.unack + d, s'.isn, s'.next - s'.inFlight, s'.next, Sent(s'), s'.finSet) by { LedgerParts(s'); }
    assert s.inFlight == Total(s.unack) && s.inFlight <= s.next by { LedgerParts(s); }
    TilesSplit(s.unack, d, s'.isn, s'.next - s'.inFlight, s'.next, Sent(s'), s'.finSet);
    forall g | g in s'.unack
      ensures g in s.unack || s.next <= Unwrap(g.header.seqno, s'.isn, s'.next)
    {
      if g !in s.unack { PositionAbove(s', d, s.next, g); }
    }
  }

  lemma ExtendsUnack(s: Sender, s': Sender)
    requires Extends(s, s')
    ensures s.unack <= s'.unack && s'.isn == s.isn
  {
  }

  lemma PositionAbove(s: Sender, d: seq<Segment>, from: nat, g: Segment)
    requires Ledger(s) && s.next - s.inFlight <= from && Tiles(d, s.isn, from, s.next, Sent(s), s.finSet) && g in d
    ensures from <= Unwrap(g.header.seqno, s.isn, s.next)
  {
    hide Unwrap, Wrap, Tiles;
    var q := TilesMember(d, s.isn, from, s.next, Sent(s), s.finSet, g);
    UnwrapWrap(q, s.isn, s.next);
  }

  lemma FillGrows(s: Sender)
    requires Ledger(s) && s.out == []
    ensures var r := FillWindow(s);
            && Ledger(r) && Saturated(r) && r.synSet && Grows(s, r) && NewAbove(s, r) && Queued(r) && Offers(s, r)
            && r.recvAck == s.recvAck && r.window == s.window && r.stream == s.stream.(popped := r.stream.popped)
            && (s.finSet ==> r == s)
            && (!s.synSet ==> r.out != [])
            && Paced(s, r) && s.unack <= r.unack
  {
    hide Ledger, FillWindow, Saturated, Paced;
    assert s.stream.Valid() by { LedgerParts(s); }
    FillWindowLedger(s);
    FillWindowReach(s);
    FillPaced(s);
    var r := FillWindow(s);
    ExtendsAbove(s, r);
    ExtendsOut(s, r);
    ExtendsOffers(s, r);
    if !s.synSet {
      UnsentIdle(s);
      assert r.next > 0 by { LedgerParts(r); }
      if r.unack == [] { TilesNone(r); }
    }
  }

  // With nothing outstanding, nothing is in flight.
  lemma TilesNone(s: Sender)
    requires Ledger(s) && s.unack == []
    ensures s.inFlight == 0 && s.recvAck == s.next
  {
  }

  lemma AckGrows(s: Sender, ackno: U32, win: U16)
    requires Ledger(s) && Saturated(s) && s.out == []
    ensures var r := AckReceived(s, ackno, win);
            && Ledger(r) && Saturated(r) && Grows(s, r) && NewAbove(s, r) && Queued(r) && Offers(s, r)
  {
    hide Ledger, Saturated, AckReceived, Unwrap;
    assert s.stream.Valid() && s.inFlight == Total(s.unack) by { LedgerParts(s); }
    AckReceivedLedger(s, ackno, win);
    AckAbove(s, ackno, win);
    var r := AckReceived(s, ackno, win);
    assert r.out[|s.out|..] == r.out;
  }

  lemma AckAbove(s: Sender, ackno: U32, win: U16)
    requires Ledger(s)
    ensures NewAbove(s, AckReceived(s, ackno, win))
    ensures s.out == [] ==> Offers(s, AckReceived(s, ackno, win))
  {
    hide Ledger, Unwrap, FillWindow, Acknowledge, Saturated, Extends;
    assert s.stream.Valid() && s.inFlight == Total(s.unack) by { LedgerParts(s); }
    var abs := Unwrap(ackno, s.isn, s.recvAck);
    if s.recvAck <= abs <= s.next {
      AcknowledgeLedger(s, abs, win);
      var a := Acknowledge(s, abs, win);
      FillWindowLedger(a);
      ExtendsAbove(a, FillWindow(a));
      ExtendsOffers(a, FillWindow(a));
    }
  }

  lemma ExtendsOffers(s: Sender, r: Sender)
    requires Extends(s, r)
    ensures s.out == [] ==> Offers(s, r)
  {
    assert r.unack == s.unack + r.unack[|s.unack|..];
  }

  /** Once the window is used, filling it again does nothing. */
  lemma FillSaturated(s: Sender)
    requires Ledger(s) && Saturated(s) && s.synSet
    ensures FillWindow(s) == s
  {
    hide Ledger, NextSegment;
    assert Numbers(s) by { LedgerParts(s); }
    assert s.stream.Valid();
    var length := if s.window == 0 then 1 else Max(0, s.window - s.inFlight);
    if s.inFlight < Max(s.window, 1) {
      assert NextSegment(s, length).Length() == 0 by { NothingToSend(s, length); }
      assert PushSegment(s, length) == (s, false);
    } else if s.window > 0 {
      assert NextSegment(s, 0).Length() == 0 by { NothingToSend(s, 0); }
      assert PushSegment(s, 0) == (s, false);
    }
  }

  lemma NothingToSend(s: Sender, length: nat)
    requires Numbers(s) && s.synSet && (length == 0 || Exhausted(s))
    ensures NextSegment(s, length).Length() == 0
  {
  }

  // ---------------------------------------------------------------------
  // Events

  /** A segment in the network, with the absolute numbers that its 32-bit ones stood for when it left. */
  datatype Packet = Packet(seg: Segment, seqAbs: nat, ackAbs: nat)

  datatype Event =
    | Open
    | Send(data: seq<Byte>)
    | Finish
    | Elapse(ms: nat)
    | Consume(len: nat)
    | Abort
    | Deliver(packet: Packet)

  function Handle(c: Connection, e: Event): Connection
    requires c.Sane()
  {
    match e
    case Open => Connect(c)
    case Send(data) => Write(c, data).0
    case Finish => EndInputStream(c)
    case Elapse(ms) => TickConnection(c, ms)
    case Consume(len) => ReadInbound(c, len)
    case Abort => Destroy(c)
    case Deliver(p) => Connecting.SegmentReceived(c, p.seg)
  }

  lemma HandleDeliver(c: Connection, p: Packet)
    requires c.Sane()
    ensures Handle(c, Deliver(p)) == Connecting.SegmentReceived(c, p.seg)
  {
  }

  lemma HandleElapse(c: Connection, ms: nat)
    requires c.Sane()
    ensures Handle(c, Elapse(ms)) == TickConnection(c, ms)
  {
  }

  /** The receiver holds the same bytes: only the reader has moved, or the stream has failed. */
  ghost predicate SameHeld(r: Receiver, r': Receiver) {
    && r' == r.(reasm := r.reasm.(out := r.reasm.out.(popped := r'.reasm.out.popped, error := r'.reasm.out.error)))
    && r.reasm.out.popped <= r'.reasm.out.popped
    && (r.reasm.out.error ==> r'.reasm.out.error)
  }

  /** What every event does to the sending side of an endpoint. */
  ghost predicate Moves(c: Connection, c': Connection) {
    && Settled(c')
    && Grows(c.sender, c'.sender) && NewAbove(c.sender, c'.sender)
    && Emits(c') && Sends(c, c')
    && c'.rto == c.rto
    && (c'.active ==> c.active)
  }

  lemma FillMoves(c: Connection)
    requires Ledger(c.sender) && c.sender.out == [] && c.receiver.reasm.Inv() && c.out == []
    ensures c.Sane()
    ensures var c' := Connect(c);
            && Moves(c, c') && c' == c.(sender := c'.sender, out := c'.out)
            && c'.sender.recvAck == c.sender.recvAck && c'.sender.window == c.sender.window
            && c'.sender.stream == c.sender.stream.(popped := c'.sender.stream.popped)
            && c'.sender.synSet
            && (c.sender.finSet ==> c'.sender == c.sender)
            && (!c.sender.synSet ==> c'.out != [])
            && Paced(c.sender, c'.sender) && c.sender.unack <= c'.sender.unack
  {
    hide Ledger, FillWindow, Saturated, Reassembler.Inv, StampAll, Emits, Queued, NewAbove, Grows;
    assert c.Sane() by { LedgerParts(c.sender); }
    FillGrows(c.sender);
    var f := FillWindow(c.sender);
    assert c.receiver.reasm.out.Valid() by { InvValid(c.receiver.reasm); }
    AssembleEmits(c.(sender := f));
    SameBooks(c.sender, f);
  }

  lemma InvValid(r: Reassembler)
    requires r.Inv()
    ensures r.out.Valid()
  {
  }

  // The outgoing queue is not part of the books.
  lemma SameBooks(s: Sender, f: Sender)
    requires Ledger(f) && Saturated(f) && Grows(s, f) && NewAbove(s, f)
    ensures var e := f.(out := []); Ledger(e) && Saturated(e) && Grows(s, e) && NewAbove(s, e)
  {
    hide Tiles;
    assert Sent(f.(out := [])) == Sent(f);
  }

  /** The application's or the failing stream: what changes without any segment. */
  ghost predicate StreamStep(t: Stream, t': Stream) {
    && t'.Valid() && |t'.history| < STREAM_LIMIT
    && t' == t.(history := t'.history, ended := t'.ended, error := t'.error)
    && t.history <= t'.history && (t.ended ==> t'.ended && t'.history == t.history)
    && (t.error ==> t'.error)
  }

  lemma StreamGrows(s: Sender, t: Stream)
    requires Ledger(s) && StreamStep(s.stream, t)
    ensures Ledger(s.(stream := t)) && Grows(s, s.(stream := t)) && NewAbove(s, s.(stream := t))
    ensures forall f :: Grows(s.(stream := t), f) ==> Grows(s, f)
    ensures forall f :: NewAbove(s.(stream := t), f) ==> NewAbove(s, f)
  {
    StreamLedger(s, t);
  }

  /** Writing, ending the input and connecting: new data, then the window is filled. */
  lemma SendMoves(c: Connection, t: Stream)
    requires Settled(c) && c.out == [] && StreamStep(c.sender.stream, t)
    ensures var c1 := c.(sender := c.sender.(stream := t));
            && c1.Sane()
            && var c' := Connect(c1);
            && Moves(c, c') && c' == c.(sender := c'.sender, out := c'.out)
            && c'.sender.recvAck == c.sender.recvAck && c'.sender.window == c.sender.window
            && c'.sender.stream == t.(popped := c'.sender.stream.popped)
            && c'.sender.synSet
            && (c.sender.finSet ==> c'.sender == c1.sender)
            && Paced(c.sender, c'.sender) && c.sender.unack <= c'.sender.unack
  {
    hide Ledger, Connect, Saturated, Reassembler.Inv, Emits, NewAbove, Grows, StreamStep;
    StreamGrows(c.sender, t);
    FillMoves(c.(sender := c.sender.(stream := t)));
  }

  lemma WriteStep(t: Stream, data: seq<Byte>)
    requires t.Valid() && |t.history| + |data| < STREAM_LIMIT
    ensures StreamStep(t, t.Write(data)) && StreamStep(t, t.EndInput()) && StreamStep(t, t.SetError())
            && StreamStep(t, t)
  {
  }

  // A reset: the queue is dropped, the streams fail and one bare segment leaves.
  lemma ResetMoves(c: Connection)
    requires Settled(c) && c.out == []
    ensures c.receiver.reasm.out.Valid()
    ensures var c' := SendRst(SetShutdown(c, false));
            && Moves(c, c')
            && c' == c.(sender := c.sender.(stream := c.sender.stream.SetError()), out := c'.out, active := false,
                  receiver := c'.receiver)
            && SameHeld(c.receiver, c'.receiver) && c'.receiver.reasm.out.error
  {
    hide Ledger, Saturated, StampAll, Emits, NewAbove, Grows;
    InvValid(c.receiver.reasm);
    var d := SetShutdown(c, false);
    assert StreamStep(c.sender.stream, d.sender.stream) by { LedgerParts(c.sender); WriteStep(c.sender.stream, []); }
    StreamGrows(c.sender, d.sender.stream);
    assert Saturated(d.sender) by { ErrorSaturated(c.sender); }
    var e := d.(sender := SendEmpty(d.sender, true));
    assert Queued(e.sender) by { assert e.sender.out == [Bare(d.sender, true)]; }
    AssembleEmits(e);
    assert e.sender.(out := []) == d.sender;
  }

  lemma ErrorSaturated(s: Sender)
    requires Saturated(s)
    ensures Saturated(s.(stream := s.stream.SetError()))
  {
  }

  lemma ElapseMoves(c: Connection, ms: nat)
    requires Settled(c) && c.out == []
    ensures c.Sane()
    ensures var c', s := TickConnection(c, ms), Tick(c.sender, ms);
            && Moves(c, c')
            && SameHeld(c.receiver, c'.receiver)
            && c' == c.(receiver := c'.receiver, sender := c'.sender, out := c'.out, sinceLast := c.sinceLast + ms,
                  active := c'.active)
            && c'.sender.stream == c.sender.stream.(error := c'.sender.stream.error)
            && c'.sender == s.(out := [], stream := c'.sender.stream)
            && c'.sender.recvAck == c.sender.recvAck && c'.sender.window == c.sender.window
            && c'.sender.next == c.sender.next && c'.sender.unack == c.sender.unack
            && (MAX_RETX_ATTEMPTS < s.retx ==> !c'.active && c'.sender.stream.error && c'.receiver.reasm.out.error)
            && (s.retx <= MAX_RETX_ATTEMPTS ==>
                  && c'.receiver == c.receiver && c'.sender.stream == c.sender.stream
                  && c'.active == (c.active && !Finished(c'.(active := c.active))))
  {
    hide Settled, TickConnection, Moves, Tick, Finished;
    if MAX_RETX_ATTEMPTS < Tick(c.sender, ms).retx { GiveUpMoves(c, ms); } else { QuietMoves(c, ms); }
  }

  lemma GiveUpMoves(c: Connection, ms: nat)
    requires Settled(c) && c.out == [] && MAX_RETX_ATTEMPTS < Tick(c.sender, ms).retx
    ensures c.Sane()
    ensures var c', s := TickConnection(c, ms), Tick(c.sender, ms);
            && Moves(c, c') && SameHeld(c.receiver, c'.receiver)
            && c' == c.(receiver := c'.receiver, sender := c'.sender, out := c'.out, sinceLast := c.sinceLast + ms,
                  active := false)
            && c'.sender == s.(out := [], stream := c.sender.stream.SetError())
            && c'.receiver.reasm.out.error
            && s == c.sender.(out := s.out, retx := s.retx, timer := s.timer)
  {
    hide Ledger, Saturated, Emits, NewAbove, Grows, Tick, Reassembler.Inv, SendRst, Queued;
    SettledSane(c);
    TickLedger(c.sender, ms);
    var s := Tick(c.sender, ms);
    TickMoved(c.sender, s);
    var q := c.(sender := s.(out := []), sinceLast := c.sinceLast + ms);
    ResetMoves(q);
    GrowsAfter(c.sender, q.sender, SendRst(SetShutdown(q, false)).sender);
  }

  lemma QuietMoves(c: Connection, ms: nat)
    requires Settled(c) && c.out == [] && Tick(c.sender, ms).retx <= MAX_RETX_ATTEMPTS
    ensures c.Sane()
    ensures var c', s := TickConnection(c, ms), Tick(c.sender, ms);
            && Moves(c, c')
            && c' == c.(sender := s.(out := []), out := c'.out, sinceLast := c.sinceLast + ms, active := c'.active)
            && c'.active == (c.active && !Finished(c'.(active := c.active)))
            && s == c.sender.(out := s.out, retx := s.retx, timer := s.timer)
  {
    hide Ledger, Saturated, StampAll, Emits, NewAbove, Grows, Tick, Reassembler.Inv, Queued, SenderSummary,
         ReceiverSummary;
    SettledSane(c);
    InvValid(c.receiver.reasm);
    TickLedger(c.sender, ms);
    var s := Tick(c.sender, ms);
    TickMoved(c.sender, s);
    var d := c.(sender := s, sinceLast := c.sinceLast + ms);
    AssembleEmits(d);
    EmitsClosing(AssembleSend(d));
  }

  // Closing does not touch what has been emitted.
  lemma EmitsClosing(c: Connection)
    requires c.receiver.reasm.out.Valid() && Emits(c)
    ensures Emits(SetShutdown(c, true))
  {
    var c' := SetShutdown(c, true);
    forall g | g in c'.out
      ensures Emitted(c', g)
    {
      assert Emitted(c, g);
    }
  }

  // A tick moves only the timer and the queue.
  lemma TickMoved(s: Sender, r: Sender)
    requires Ledger(s) && Saturated(s) && s.out == []
    requires Ledger(r) && r == s.(out := r.out, retx := r.retx, timer := r.timer)
    requires r.out == s.out || (s.unack != [] && r.out == s.out + [s.unack[0]])
    ensures Queued(r)
    ensures var q := r.(out := []); Ledger(q) && Saturated(q) && Grows(s, q) && NewAbove(s, q) && q.next == s.next
  {
    hide Tiles;
    assert Sent(r.(out := [])) == Sent(r);
  }

  lemma GrowsAfter(s: Sender, q: Sender, f: Sender)
    requires Grows(s, q) && NewAbove(s, q) && Grows(q, f) && NewAbove(q, f)
    requires q.unack == s.unack && q.next == s.next && q.recvAck == s.recvAck
    ensures Grows(s, f) && NewAbove(s, f)
  {
  }

  lemma ConsumeMoves(c: Connection, len: nat)
    requires Settled(c) && c.out == []
    ensures c.Sane()
    ensures var c' := ReadInbound(c, len);
            Moves(c, c') && c' == c.(receiver := c'.receiver) && SameHeld(c.receiver, c'.receiver)
            && c'.receiver.reasm.out.error == c.receiver.reasm.out.error
  {
    hide Ledger, Saturated;
    SettledSane(c);
    PopInv(c.receiver.reasm, len);
  }

  /** The sender after the acknowledgement in g: forward, with everything it queued outstanding. */
  lemma AcknowledgedMoves(s: Sender, g: Segment)
    requires Ledger(s) && Saturated(s) && s.out == []
    ensures var a := Acknowledged(s, g);
            && Ledger(a) && Saturated(a) && Grows(s, a) && NewAbove(s, a) && Queued(a) && Offers(s, a)
            && a.stream == s.stream.(popped := a.stream.popped)
            && (!a.synSet ==> a == s)
            && Paced(s, a)
  {
    hide Ledger, Saturated, AckReceived;
    if g.header.ack {
      AckPaced(s, g.header.ackno, g.header.win);
      AckReceivedLedger(s, g.header.ackno, g.header.win);
      AckGrows(s, g.header.ackno, g.header.win);
    }
  }

  lemma AnswerMoves(r: Receiver, s: Sender, a: Sender, g: Segment)
    requires Ledger(a) && Saturated(a) && Grows(s, a) && NewAbove(s, a) && Queued(a) && Offers(s, a)
    requires (!a.synSet ==> a == s && s.out == []) && Paced(s, a)
    ensures a.stream.Valid()
    ensures var b := Answer(r, a, g);
            && Ledger(b) && Saturated(b) && Grows(s, b) && NewAbove(s, b) && Queued(b) && Offers(s, b)
            && b.recvAck == a.recvAck && b.window == a.window
            && b.stream == a.stream.(popped := b.stream.popped)
            && (g.Length() > 0 ==> b.out != [])
            && (a.synSet ==> b == a.(out := b.out))
            && Paced(s, b)
  {
    hide Ledger, Saturated, FillWindow, Grows, NewAbove;
    assert a.stream.Valid() by { LedgerParts(a); }
    if a.synSet {
      FillSaturated(a);
      EmptyQueued(a);
    } else {
      UnsentIdle(a);
      FillGrows(a);
      assert FillWindow(a).out != [];
      EmptyQueued(a);
    }
  }

  // A bare segment joins the queue.
  lemma EmptyQueued(a: Sender)
    requires Ledger(a) && Saturated(a) && Queued(a)
    ensures var b := SendEmpty(a, false); Ledger(b) && Saturated(b) && Queued(b)
    ensures forall s :: Grows(s, a) ==> Grows(s, SendEmpty(a, false))
    ensures forall s :: NewAbove(s, a) ==> NewAbove(s, SendEmpty(a, false))
  {
    SendEmptyLedger(a, false);
    var b := SendEmpty(a, false);
    forall h | h in b.out
      ensures h in b.unack || h == Bare(b, false) || h == Bare(b, true)
    {
      if h in a.out {
        assert h in a.unack || h == Bare(a, false) || h == Bare(a, true);
      }
    }
  }

  lemma DeliverReset(c: Connection, g: Segment)
    requires Settled(c) && c.out == [] && c.active && g.header.rst
    ensures c.Sane()
    ensures var c' := Connecting.SegmentReceived(c, g);
            && Moves(c, c') && SameHeld(c.receiver, c'.receiver) && c'.out == []
            && c' == c.(sender := c.sender.(stream := c.sender.stream.SetError()), receiver := c'.receiver,
                  sinceLast := 0, active := false)
            && c'.receiver.reasm.out.error
  {
    hide Ledger, Saturated, Grows, NewAbove;
    SettledSane(c);
    assert StreamStep(c.sender.stream, c.sender.stream.SetError()) by {
      LedgerParts(c.sender);
      WriteStep(c.sender.stream, []);
    }
    StreamGrows(c.sender, c.sender.stream.SetError());
    ErrorSaturated(c.sender);
  }

  /**
   Delivery to an active endpoint: the receiver takes the segment, the sender the
   acknowledgement, and a segment that occupies numbers is always answered.
   */
  lemma DeliverMoves(c: Connection, g: Segment)
    requires Settled(c) && c.out == [] && c.active && !g.header.rst
    ensures c.Sane()
    ensures var c', a := Connecting.SegmentReceived(c, g), Acknowledged(c.sender, g);
            && Moves(c, c') && c'.active
            && c'.receiver == Receiving.SegmentReceived(c.receiver, g)
            && c' == c.(receiver := c'.receiver, sender := c'.sender, out := c'.out, sinceLast := 0,
                  linger := c'.linger)
            && c'.sender.recvAck == a.recvAck && c'.sender.window == a.window
            && c'.sender.stream == c.sender.stream.(popped := c'.sender.stream.popped)
            && (a.synSet ==> c'.sender == a.(out := []))
            && (g.Length() > 0 ==> c'.out != [])
            && c'.linger == (c.linger && !(ReceiverSummary(c'.receiver) == FinRecv && SenderSummary(a) == SynAcked))
            && (g.header.syn ==> c'.sender.synSet)
            && Paced(c.sender, c'.sender)
  {
    hide Ledger, Saturated, Grows, NewAbove, Queued, Acknowledged, Receiving.SegmentReceived, Reassembler.Inv;
    hide ReceiverSummary, SenderSummary;
    hide FillWindow, Answer, Emits, StampAll;
    SettledSane(c);
    ReceiverKept(c.receiver, g);
    var r := Receiving.SegmentReceived(c.receiver, g);
    InvValid(r.reasm);
    AcknowledgedMoves(c.sender, g);
    var a := Acknowledged(c.sender, g);
    assert a.next == 0 <==> !a.synSet by { LedgerParts(a); }
    var d := c.(sinceLast := 0, receiver := r);
    if a.next == 0 { UnopenedSummary(a); }
    if g.header.syn && a.next == 0 {
      FillMoves(d);
    } else {
      AnswerMoves(r, c.sender, a, g);
      var b := Answer(r, a, g);
      AssembleEmits(d.(sender := b, linger := c.linger && !ClosesPassively(d.(sender := a))));
      SameBooks(c.sender, b);
    }
  }

  lemma UnopenedSummary(s: Sender)
    requires s.next == 0
    ensures SenderSummary(s) == SenderError || SenderSummary(s) == Closed
  {
  }

  /** The application stays below the limit on the length of one stream. */
  predicate Allowed(c: Connection, e: Event) {
    e.Send? ==> |c.sender.stream.history| + |e.data| < STREAM_LIMIT
  }

  /** The event is a segment that the endpoint looks into. */
  predicate Heeds(c: Connection, e: Event) {
    e.Deliver? && c.active && !e.packet.seg.header.rst
  }

  /** The event, not being the passing of time, ends an active endpoint. */
  predicate Fails(c: Connection, e: Event) {
    c.active && (e.Abort? || (e.Deliver? && e.packet.seg.header.rst))
  }

  /** The bytes an event adds to the outbound stream: of those written, what there is room for, while it is open. */
  function Accepted(x: Stream, e: Event): seq<Byte>
    requires x.Valid()
  {
    if e.Send? && !x.ended then e.data[..Min(|e.data|, x.capacity - (|x.history| - x.popped))] else []
  }

  /** The outbound stream gains what the event writes and ends when the event ends it; nothing else adds to it. */
  ghost predicate WritesExactly(x: Stream, e: Event, x': Stream)
    requires x.Valid()
  {
    x'.history == x.history + Accepted(x, e) && x'.ended == (x.ended || e.Finish?) && x'.capacity == x.capacity
  }

  /**
   What any event but a heeded segment leaves alone: what has been received and
   acknowledged, the window, what is outstanding. Only time and failure end activity.
   */
  ghost predicate Stays(c: Connection, e: Event, c': Connection) {
    && SameHeld(c.receiver, c'.receiver)
    && c'.sender.recvAck == c.sender.recvAck && c'.sender.window == c.sender.window
    && c.sender.unack <= c'.sender.unack
    && c'.linger == c.linger
    && c'.sinceLast == (if e.Elapse? then c.sinceLast + e.ms else if e.Deliver? && c.active then 0 else c.sinceLast)
    && (!e.Elapse? ==>
          && c'.active == (c.active && !Fails(c, e))
          && c'.sender.stream.error == (c.sender.stream.error || Fails(c, e))
          && c'.receiver.reasm.out.error == (c.receiver.reasm.out.error || Fails(c, e))
          && Paced(c.sender, c'.sender))
  }

  /** write appends, and returns, what there is room for: nothing once the stream has ended. */
  lemma WriteReturns(c: Connection, data: seq<Byte>)
    requires c.Sane()
    ensures var x, n := c.sender.stream, Write(c, data).1;
            && n == (if x.ended then 0 else Min(|data|, x.popped + x.capacity - |x.history|))
            && Write(c, data).0.sender.stream.history == x.history + data[..n]
  {
    hide FillWindow, StampAll, Total, Reassembler.Inv;
    InvValid(c.receiver.reasm);
  }

  // Opening, writing and ending give the sender a longer stream to send.
  lemma WriteLocal(c: Connection, e: Event)
    requires Settled(c) && c.out == [] && Allowed(c, e) && (e.Open? || e.Send? || e.Finish?)
    ensures c.Sane() && Moves(c, Handle(c, e)) && Stays(c, e, Handle(c, e))
    ensures c.sender.stream.Valid() && WritesExactly(c.sender.stream, e, Handle(c, e).sender.stream)
  {
    hide Settled, Moves, Ledger, Connect, Paced, StreamStep;
    SettledSane(c);
    var t := c.sender.stream;
    assert t.Valid() && |t.history| < STREAM_LIMIT by { SettledStream(c); }
    assert t.history + [] == t.history;
    match e
    case Open =>
      WriteStep(t, []);
      SendMoves(c, t);
    case Send(data) =>
      WriteStep(t, data);
      SendMoves(c, t.Write(data));
    case Finish =>
      WriteStep(t, []);
      SendMoves(c, t.EndInput());
  }

  // Time and the application's reads write nothing.
  lemma IdleLocal(c: Connection, e: Event)
    requires Settled(c) && c.out == [] && Allowed(c, e) && (e.Elapse? || e.Consume?)
    ensures c.Sane() && Moves(c, Handle(c, e)) && Stays(c, e, Handle(c, e))
    ensures c.sender.stream.Valid() && WritesExactly(c.sender.stream, e, Handle(c, e).sender.stream)
  {
    hide Settled, Moves, Ledger, TickConnection, Paced, StreamStep, Finished, Tick;
    SettledSane(c);
    SettledStream(c);
    assert c.sender.stream.history + [] == c.sender.stream.history;
    match e
    case Elapse(ms) =>
      ElapseMoves(c, ms);
    case Consume(len) =>
      ConsumeMoves(c, len);
      SamePaced(c.sender, c.sender);
  }

  // Nor do destruction and segments that are not heeded.
  lemma DeafLocal(c: Connection, e: Event)
    requires Settled(c) && c.out == [] && Allowed(c, e) && !Heeds(c, e) && (e.Abort? || e.Deliver?)
    ensures c.Sane() && Moves(c, Handle(c, e)) && Stays(c, e, Handle(c, e))
    ensures c.sender.stream.Valid() && WritesExactly(c.sender.stream, e, Handle(c, e).sender.stream)
  {
    hide Settled, Moves, Ledger, SendRst, Paced, StreamStep;
    SettledSane(c);
    SettledStream(c);
    assert c.sender.stream.history + [] == c.sender.stream.history;
    match e
    case Abort =>
      if c.active { ResetMoves(c); } else { UnmovedMoves(c); }
      SamePaced(c.sender, Destroy(c).sender);
    case Deliver(p) =>
      if c.active { DeliverReset(c, p.seg); } else { UnmovedMoves(c); }
      SamePaced(c.sender, Handle(c, e).sender);
  }

  /** Every event but a heeded segment moves the sender forward, writes what it says and leaves the rest. */
  lemma HandleLocal(c: Connection, e: Event)
    requires Settled(c) && c.out == [] && Allowed(c, e) && !Heeds(c, e)
    ensures c.Sane() && Moves(c, Handle(c, e)) && Stays(c, e, Handle(c, e))
    ensures c.sender.stream.Valid() && WritesExactly(c.sender.stream, e, Handle(c, e).sender.stream)
  {
    hide Settled, Moves, Handle, Stays, WritesExactly;
    if e.Open? || e.Send? || e.Finish? {
      WriteLocal(c, e);
    } else if e.Elapse? || e.Consume? {
      IdleLocal(c, e);
    } else {
      DeafLocal(c, e);
    }
  }

  lemma SamePaced(s: Sender, s': Sender)
    requires s' == s.(stream := s'.stream)
    ensures Paced(s, s')
  {
  }

  lemma UnmovedMoves(c: Connection)
    requires Settled(c) && c.out == []
    ensures Moves(c, c)
  {
  }

  lemma SettledStream(c: Connection)
    requires Settled(c)
    ensures c.sender.stream.Valid() && |c.sender.stream.history| < STREAM_LIMIT
  {
  }

  /** Every event keeps the books, moves the sender only forward and emits only its own segments. */
  lemma HandleMoves(c: Connection, e: Event)
    requires Settled(c) && c.out == [] && Allowed(c, e)
    ensures c.Sane() && Moves(c, Handle(c, e))
    ensures !e.Elapse? ==> Paced(c.sender, Handle(c, e).sender)
    ensures c.sender.stream.Valid() && WritesExactly(c.sender.stream, e, Handle(c, e).sender.stream)
  {
    hide Settled, Moves, Paced, Handle;
    assert c.sender.stream.Valid() by { SettledStream(c); }
    if Heeds(c, e) {
      DeliverMoves(c, e.packet.seg);
      HandleDeliver(c, e.packet);
    } else {
      HandleLocal(c, e);
    }
  }
}
