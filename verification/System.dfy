/**
 Two endpoints and a network that may lose, repeat, delay and reorder whatever
 it is given: a delivered packet is any packet that has ever been sent.
 */
module Systems {
  import opened Types
  import opened ByteStreams
  import opened Reassembly
  import opened ReassemblyRuns
  import opened Segments
  import opened WrappingIntegers
  import opened Sending
  import opened SendingProofs
  import opened Receiving
  import opened Connecting
  import opened Endpoints

  datatype System = System(a: Connection, b: Connection, ab: set<Packet>, ba: set<Packet>)
  {
    function Swap(): System {
      System(b, a, ba, ab)
    }
  }

  function PacketOf(c: Connection, g: Segment): Packet {
    Packet(g, Unwrap(g.header.seqno, c.sender.isn, c.sender.next), c.receiver.AckAbs())
  }

  /** What an endpoint hands to the network after an event. */
  function Packets(c: Connection): set<Packet> {
    set g | g in c.out :: PacketOf(c, g)
  }

  /**
   The packet is not so old that its numbers have turned half way round. The
   network keeps this by a bound on packet lifetime; streams shorter than 2^31
   bytes keep it whatever the network does (ShortStreamsTimely).
   */
  predicate Timely(c: Connection, p: Packet) {
    && (p.seg.Length() > 0 && c.receiver.synSet ==> Close(p.seqAbs, c.receiver.reasm.Next() + 1))
    && (p.seg.header.ack ==> Close(p.ackAbs, c.sender.recvAck))
  }

  /** Event e can happen at endpoint a. */
  ghost predicate Enabled(s: System, e: Event) {
    && s.a.Sane()
    && Allowed(s.a, e)
    && (e.Deliver? ==> e.packet in s.ba && Timely(s.a, e.packet))
  }

  /** Event e happens at endpoint a. */
  ghost function StepA(s: System, e: Event): System
    requires s.a.Sane()
  {
    var c := Handle(s.a, e);
    s.(a := c.(out := []), ab := s.ab + Packets(c))
  }

  ghost predicate Next(s: System, s': System) {
    || (exists e :: Enabled(s, e) && s' == StepA(s, e))
    || (exists e :: Enabled(s.Swap(), e) && s' == StepA(s.Swap(), e).Swap())
  }

  datatype Config = Config(rto: nat, recvCapacity: nat, sendCapacity: nat, isn: U32)

  function Start(c: Config): Connection {
    NewConnection(c.rto, c.recvCapacity, c.sendCapacity, c.isn)
  }

  ghost predicate Initial(s: System, ca: Config, cb: Config) {
    s == System(Start(ca), Start(cb), {}, {})
  }

  /** A run of the two endpoints. */
  ghost predicate Behaviour(run: seq<System>, ca: Config, cb: Config) {
    && |run| > 0
    && Initial(run[0], ca, cb)
    && forall i :: 0 <= i < |run| - 1 ==> Next(run[i], run[i + 1])
  }

  function Mirrored(run: seq<System>): (r: seq<System>)
    ensures |r| == |run|
  {
    if run == [] then [] else [run[0].Swap()] + Mirrored(run[1..])
  }

  lemma {:induction false} MirroredAt(run: seq<System>, i: nat)
    requires i < |run|
    ensures Mirrored(run)[i] == run[i].Swap()
  {
    if i == 0 {
    } else {
      MirroredAt(run[1..], i - 1);
    }
  }

  /** The endpoints are interchangeable: what holds of a on every run holds of b. */
  lemma MirroredBehaviour(run: seq<System>, ca: Config, cb: Config)
    requires Behaviour(run, ca, cb)
    ensures Behaviour(Mirrored(run), cb, ca)
  {
    hide Enabled, StepA, Start, Mirrored;
    MirroredAt(run, 0);
    forall i | 0 <= i < |run| - 1
      ensures Next(Mirrored(run)[i], Mirrored(run)[i + 1])
    {
      MirroredAt(run, i);
      MirroredAt(run, i + 1);
      assert Next(run[i], run[i + 1]);
      NextMirrored(run[i], run[i + 1]);
    }
  }

  lemma NextMirrored(s: System, s': System)
    requires Next(s, s')
    ensures Next(s.Swap(), s'.Swap())
  {
    hide StepA;
    assert s.Swap().Swap() == s && s'.Swap().Swap() == s';
    if e :| Enabled(s, e) && s' == StepA(s, e) {
      assert Enabled(s.Swap().Swap(), e) && s'.Swap() == StepA(s.Swap().Swap(), e).Swap();
    } else {
      var e :| Enabled(s.Swap(), e) && s' == StepA(s.Swap(), e).Swap();
      assert s'.Swap() == StepA(s.Swap(), e);
    }
  }

  // ---------------------------------------------------------------------
  // One direction: sender x, receiver y, packets xy from x's endpoint and yx from y's

  /** p is bare or a tile of what x has sent, at the number it is labelled with. */
  ghost predicate Genuine(p: Packet, x: Sender) {
    && p.seg.header.seqno == Wrap(p.seqAbs, x.isn)
    && p.seg.header.doff == BLANK.doff
    && (p.seg.Length() == 0
        || (TileAt(p.seg, p.seqAbs, x.isn, Sent(x), x.finSet) && p.seqAbs + p.seg.Length() <= x.next))
  }

  /** p acknowledges no more than y has assembled. */
  ghost predicate Honest(p: Packet, isn: U32, y: Receiver) {
    p.seg.header.ack ==> 1 <= p.ackAbs <= y.AckAbs() && p.seg.header.ackno == Wrap(p.ackAbs, isn)
  }

  ghost predicate Direction(x: Sender, y: Receiver, xy: set<Packet>, yx: set<Packet>) {
    && (forall p :: p in xy ==> Genuine(p, x))
    && (forall p :: p in yx ==> Honest(p, x.isn, y))
    && Receives(y, x.isn, Sent(x), x.finSet)
    && (y.synSet ==> x.synSet)
    && x.recvAck <= y.AckAbs()
  }

  ghost predicate Safe(s: System) {
    && Settled(s.a) && Settled(s.b) && s.a.out == [] && s.b.out == []
    && Direction(s.a.sender, s.b.receiver, s.ab, s.ba)
    && Direction(s.b.sender, s.a.receiver, s.ba, s.ab)
  }

  // ---------------------------------------------------------------------
  // The sending side of a step

  lemma SentGrows(x: Sender, x': Sender)
    requires Numbers(x) && Numbers(x') && Grows(x, x')
    ensures Sent(x) <= Sent(x') && (x.finSet ==> x'.finSet && Sent(x) == Sent(x')) && |Sent(x')| < STREAM_LIMIT
  {
  }

  lemma GenuineGrows(p: Packet, x: Sender, x': Sender)
    requires Genuine(p, x) && Numbers(x) && Numbers(x') && Grows(x, x')
    ensures Genuine(p, x')
  {
    SentGrows(x, x');
  }

  /** Everything an endpoint emits is a genuine packet of its sender. */
  lemma EmittedGenuine(c: Connection, g: Segment)
    requires Settled(c) && Emitted(c, g)
    ensures Genuine(PacketOf(c, g), c.sender)
    ensures g.header.ack <==> c.receiver.synSet
    ensures g.header.ack ==> g.header.ackno == Wrap(c.receiver.AckAbs(), c.receiver.isn)
  {
    hide Ledger, Unwrap, Wrap;
    var h :| (h in c.sender.unack || h == Bare(c.sender, false) || h == Bare(c.sender, true))
        && g == Stamp(c.receiver, h);
    if h in c.sender.unack {
      OutstandingTile(c.sender, h);
    } else {
      BarePosition(c.sender, false);
      BarePosition(c.sender, true);
    }
  }

  lemma SenderSide(c: Connection, c': Connection, y: Receiver, xy: set<Packet>, yx: set<Packet>)
    requires Direction(c.sender, y, xy, yx) && Settled(c) && Moves(c, c') && c'.sender.recvAck <= y.AckAbs()
    ensures Direction(c'.sender, y, xy + Packets(c'), yx)
  {
    hide Ledger, Emitted, Genuine, Receives, PacketOf;
    var x, x' := c.sender, c'.sender;
    assert Numbers(x) by { LedgerParts(x); }
    assert Numbers(x') by { LedgerParts(x'); }
    SentGrows(x, x');
    ReceivesMore(y, x.isn, Sent(x), x.finSet, Sent(x'), x'.finSet);
    forall p | p in xy + Packets(c')
      ensures Genuine(p, x')
    {
      if p in xy {
        GenuineGrows(p, x, x');
      } else {
        var g :| g in c'.out && p == PacketOf(c', g);
        EmittedGenuine(c', g);
      }
    }
  }

  // ---------------------------------------------------------------------
  // The receiving side of a step

  /** y' is y after a step: still an assembly of what x sent, and no less acknowledged. */
  ghost predicate StillReceives(x: Sender, y: Receiver, y': Receiver) {
    Receives(y', x.isn, Sent(x), x.finSet) && y.AckAbs() <= y'.AckAbs() && (y'.synSet ==> x.synSet)
  }

  lemma ReceiverSide(x: Sender, y: Receiver, c': Connection, xy: set<Packet>, yx: set<Packet>)
    requires Direction(x, y, xy, yx) && Settled(c') && Emits(c') && StillReceives(x, y, c'.receiver)
    ensures Direction(x, c'.receiver, xy, yx + Packets(c'))
  {
    hide Ledger, Emitted, Genuine, Follows, Reassembler.Inv, Saturated;
    assert Receives(c'.receiver, x.isn, Sent(x), x.finSet);
    assert c'.receiver.reasm.out.Valid() by { InvValid(c'.receiver.reasm); }
    forall p | p in yx + Packets(c')
      ensures Honest(p, x.isn, c'.receiver)
    {
      if p !in yx {
        var g :| g in c'.out && p == PacketOf(c', g);
        EmittedGenuine(c', g);
      }
    }
  }

  lemma LocalReceives(x: Sender, y: Receiver, y': Receiver)
    requires Receives(y, x.isn, Sent(x), x.finSet) && (y.synSet ==> x.synSet) && SameHeld(y, y') && y'.reasm.Inv()
    ensures StillReceives(x, y, y')
  {
  }

  // Only a SYN starts a receiver, and only a sender that has sent one emits it.
  lemma SynSent(x: Sender, p: Packet)
    requires Numbers(x) && Genuine(p, x) && p.seg.Length() > 0
    ensures x.synSet
  {
  }

  lemma DeliveredReceives(x: Sender, y: Receiver, p: Packet)
    requires Receives(y, x.isn, Sent(x), x.finSet) && (y.synSet ==> x.synSet) && Numbers(x) && Genuine(p, x)
    requires p.seg.Length() > 0 && y.synSet ==> Close(p.seqAbs, y.reasm.Next() + 1)
    ensures StillReceives(x, y, Receiving.SegmentReceived(y, p.seg))
  {
    hide Receives, Numbers, TileAt;
    assert y.reasm.Inv() by { ReceivesInv(y, x.isn, Sent(x), x.finSet); }
    if p.seg.Length() == 0 {
      BareIgnored(y, p.seg, x.isn, Sent(x), x.finSet);
    } else {
      assert |Sent(x)| < STREAM_LIMIT by { SentGrows(x, x) by { GrowsNothing(x); } }
      SynSent(x, p);
      SegmentReceives(y, p.seg, p.seqAbs, x.isn, Sent(x), x.finSet);
    }
  }

  lemma GrowsNothing(x: Sender)
    ensures Grows(x, x)
  {
  }

  lemma ReceivesInv(y: Receiver, isn: U32, sent: seq<Byte>, fin: bool)
    requires Receives(y, isn, sent, fin)
    ensures y.reasm.Inv()
  {
  }

  // ---------------------------------------------------------------------
  // A step

  /** A sender accepts only acknowledgements of what the peer has assembled. */
  lemma AckTrusted(x: Sender, y: Receiver, p: Packet)
    requires Ledger(x) && Saturated(x) && Honest(p, x.isn, y) && x.recvAck <= y.AckAbs() < STREAM_LIMIT + 2
    requires p.seg.header.ack ==> Close(p.ackAbs, x.recvAck)
    ensures Acknowledged(x, p.seg).recvAck <= y.AckAbs()
    ensures p.seg.header.ack ==> Unwrap(p.seg.header.ackno, x.isn, x.recvAck) == p.ackAbs
  {
    hide Ledger, Saturated, AckReceived, Unwrap, Wrap;
    if p.seg.header.ack {
      UnwrapWrap(p.ackAbs, x.isn, x.recvAck);
      AckReceivedLedger(x, p.seg.header.ackno, p.seg.header.win);
    }
  }

  lemma AckSmall(x: Sender, y: Receiver)
    requires Numbers(x) && Receives(y, x.isn, Sent(x), x.finSet) && (y.synSet ==> x.synSet)
    ensures y.AckAbs() <= x.next && y.AckAbs() < STREAM_LIMIT + 2
  {
    hide Reassembler.Inv, Follows;
    AckBounded(y, x.isn, Sent(x), x.finSet);
  }

  /** After any event at endpoint a, its sender's last acknowledgement is still backed by the peer. */
  lemma RecvAckTrusted(s: System, e: Event)
    requires Safe(s) && Enabled(s, e)
    ensures Handle(s.a, e).sender.recvAck <= s.b.receiver.AckAbs()
  {
    hide Settled, Genuine, Honest, Receives, Handle;
    if Heeds(s.a, e) {
      DeliverMoves(s.a, e.packet.seg);
      assert Ledger(s.a.sender) && Saturated(s.a.sender) by { SettledParts(s.a); }
      assert Numbers(s.a.sender) by { LedgerParts(s.a.sender); }
      AckSmall(s.a.sender, s.b.receiver);
      AckTrusted(s.a.sender, s.b.receiver, e.packet);
      HandleDeliver(s.a, e.packet);
    } else {
      HandleLocal(s.a, e);
    }
  }

  /** After any event at endpoint a, its receiver still assembles what the peer sent. */
  lemma ReceiverTrusted(s: System, e: Event)
    requires Safe(s) && Enabled(s, e)
    ensures StillReceives(s.b.sender, s.a.receiver, Handle(s.a, e).receiver)
  {
    hide Settled, Genuine, Honest, Receives, Handle, SameHeld, Moves, StillReceives, Timely;
    assert Numbers(s.b.sender) by { SettledParts(s.b); LedgerParts(s.b.sender); }
    HandleMoves(s.a, e);
    assert Handle(s.a, e).receiver.reasm.Inv() by { MovesInv(s.a, Handle(s.a, e)); }
    if Heeds(s.a, e) {
      DeliverMoves(s.a, e.packet.seg);
      HandleDeliver(s.a, e.packet);
      assert Genuine(e.packet, s.b.sender);
      TimelyParts(s.a, e.packet);
      DeliveredReceives(s.b.sender, s.a.receiver, e.packet);
    } else {
      HandleLocal(s.a, e);
      LocalReceives(s.b.sender, s.a.receiver, Handle(s.a, e).receiver);
    }
  }

  lemma TimelyParts(c: Connection, p: Packet)
    requires Timely(c, p)
    ensures p.seg.Length() > 0 && c.receiver.synSet ==> Close(p.seqAbs, c.receiver.reasm.Next() + 1)
  {
  }

  lemma MovesInv(c: Connection, c': Connection)
    requires Moves(c, c')
    ensures c'.receiver.reasm.Inv() && Settled(c') && Emits(c')
  {
  }

  lemma StepSafe(s: System, e: Event)
    requires Safe(s) && Enabled(s, e)
    ensures Safe(StepA(s, e))
  {
    hide Direction, Handle, Moves, Settled, StillReceives;
    HandleMoves(s.a, e);
    RecvAckTrusted(s, e);
    ReceiverTrusted(s, e);
    var c := Handle(s.a, e);
    MovesInv(s.a, c);
    SenderSide(s.a, c, s.b.receiver, s.ab, s.ba);
    ReceiverSide(s.b.sender, s.a.receiver, c, s.ba, s.ab);
    SettledFlushed(c);
  }

  lemma SettledFlushed(c: Connection)
    requires Settled(c)
    ensures Settled(c.(out := []))
  {
  }

  lemma NextSafe(s: System, s': System)
    requires Safe(s) && Next(s, s')
    ensures Safe(s')
  {
    hide Settled, Direction, StepA;
    if e :| Enabled(s, e) && s' == StepA(s, e) {
      StepSafe(s, e);
    } else {
      var e :| Enabled(s.Swap(), e) && s' == StepA(s.Swap(), e).Swap();
      StepSafe(s.Swap(), e);
    }
  }

  lemma StartSettled(c: Config)
    ensures Settled(Start(c))
  {
    var s := Start(c).sender;
    assert Sent(s) == [];
  }

  lemma StartDirection(c: Config, d: Config)
    ensures Direction(Start(c).sender, Start(d).receiver, {}, {})
  {
    assert Sent(Start(c).sender) == [];
  }

  /** Every state of every run is safe. */
  lemma {:induction false} RunSafe(run: seq<System>, ca: Config, cb: Config, i: nat)
    requires Behaviour(run, ca, cb) && i < |run|
    ensures Safe(run[i])
  {
    hide Settled, Direction, Next, Start;
    if i == 0 {
      StartSettled(ca);
      StartSettled(cb);
      StartDirection(ca, cb);
      StartDirection(cb, ca);
      StartQuiet(ca);
      StartQuiet(cb);
    } else {
      RunSafe(run, ca, cb, i - 1);
      assert Next(run[i - 1], run[i - 1 + 1]);
      NextSafe(run[i - 1], run[i]);
    }
  }

  lemma StartQuiet(c: Config)
    ensures Start(c).out == []
  {
  }

  // ---------------------------------------------------------------------
  // What safety means

  /** What has been written to an inbound stream is a prefix of what the peer's application wrote. */
  ghost predicate PrefixOf(inbound: Stream, outbound: Stream) {
    && inbound.history <= outbound.history
    && (inbound.ended ==> outbound.ended && inbound.history == outbound.history)
  }

  lemma DirectionPrefix(x: Sender, y: Receiver, xy: set<Packet>, yx: set<Packet>)
    requires Numbers(x) && Direction(x, y, xy, yx)
    ensures PrefixOf(y.reasm.out, x.stream)
  {
    AckBounded(y, x.isn, Sent(x), x.finSet);
  }

  /**
   Prefix safety: on every run, whatever the network loses, repeats or reorders,
   each application's inbound stream is a prefix of what the other one wrote, and
   ends only when it is the whole of a stream the other one has ended.
   */
  lemma PrefixSafety(run: seq<System>, ca: Config, cb: Config, i: nat)
    requires Behaviour(run, ca, cb) && i < |run|
    ensures PrefixOf(run[i].b.receiver.reasm.out, run[i].a.sender.stream)
    ensures PrefixOf(run[i].a.receiver.reasm.out, run[i].b.sender.stream)
  {
    hide Settled, Direction, Behaviour, PrefixOf;
    RunSafe(run, ca, cb, i);
    var s := run[i];
    assert Numbers(s.a.sender) && Numbers(s.b.sender) by {
      SettledParts(s.a); LedgerParts(s.a.sender);
      SettledParts(s.b); LedgerParts(s.b.sender);
    }
    DirectionPrefix(s.a.sender, s.b.receiver, s.ab, s.ba);
    DirectionPrefix(s.b.sender, s.a.receiver, s.ba, s.ab);
  }

  /**
   Acknowledgement safety: on every run, no acknowledgement in the network and
   none that a sender has accepted exceeds what the peer has assembled, which
   never exceeds what was sent; so what has left the outstanding queue is held
   by the peer.
   */
  lemma AckSafety(run: seq<System>, ca: Config, cb: Config, i: nat, p: Packet)
    requires Behaviour(run, ca, cb) && i < |run|
    ensures var s := run[i];
            && s.a.sender.next - s.a.sender.inFlight <= s.a.sender.recvAck <= s.b.receiver.AckAbs() <= s.a.sender.next
            && (p in s.ba && p.seg.header.ack ==> p.ackAbs <= s.b.receiver.AckAbs())
  {
    hide Settled, Behaviour, Genuine, Receives;
    RunSafe(run, ca, cb, i);
    var s := run[i];
    assert Ledger(s.a.sender) by { SettledParts(s.a); }
    assert Numbers(s.a.sender) by { LedgerParts(s.a.sender); }
    AckSmall(s.a.sender, s.b.receiver);
    assert s.a.sender.next - s.a.sender.inFlight <= s.a.sender.recvAck by { LedgerParts(s.a.sender); }
    if p in s.ba { assert Honest(p, s.a.sender.isn, s.b.receiver); }
  }

  /**
   On every run, when an event takes a segment off the outstanding queue the peer has
   already assembled all its bytes, and its FIN if it carries one.
   */
  lemma AckSafetyPop(run: seq<System>, ca: Config, cb: Config, i: nat, e: Event, g: Segment)
    requires Behaviour(run, ca, cb) && i < |run| && Enabled(run[i], e)
    requires g in run[i].a.sender.unack && g !in Handle(run[i].a, e).sender.unack
    ensures var x := run[i].a.sender;
            var from := DataIndex(Unwrap(g.header.seqno, x.isn, x.next));
            var peer := run[i].b.receiver.reasm.out;
            && from + |g.payload| <= |peer.history| && g.payload == peer.history[from..from + |g.payload|]
            && (g.header.fin ==> peer.ended)
  {
    hide Settled, Behaviour, Genuine, Honest, Receives, Handle, Unwrap;
    RunSafe(run, ca, cb, i);
    PopTrusted(run[i], e, g);
    assert Ledger(run[i].a.sender) by { SettledParts(run[i].a); }
    AckedHeld(run[i].a.sender, run[i].b.receiver, g);
  }

  lemma AckedHeld(x: Sender, y: Receiver, g: Segment)
    requires Ledger(x) && g in x.unack && Receives(y, x.isn, Sent(x), x.finSet)
    requires Unwrap(g.header.seqno, x.isn, x.next) + g.Length() <= y.AckAbs()
    ensures var from := DataIndex(Unwrap(g.header.seqno, x.isn, x.next));
            && from + |g.payload| <= y.reasm.Next() && g.payload == y.reasm.out.history[from..from + |g.payload|]
            && (g.header.fin ==> y.reasm.out.ended)
  {
    hide Ledger, Unwrap, Wrap, Agree, Reassembler.Inv;
    OutstandingTile(x, g);
  }

  lemma PopTrusted(s: System, e: Event, g: Segment)
    requires Safe(s) && Enabled(s, e) && g in s.a.sender.unack && g !in Handle(s.a, e).sender.unack
    ensures Unwrap(g.header.seqno, s.a.sender.isn, s.a.sender.next) + g.Length() <= s.b.receiver.AckAbs()
  {
    hide Settled, Genuine, Honest, Receives, Handle, Moves, Unwrap, Wrap, Acknowledged, Ledger;
    var x := s.a.sender;
    if Heeds(s.a, e) {
      HandleDeliver(s.a, e.packet);
      DeliverMoves(s.a, e.packet.seg);
      assert Ledger(x) && Saturated(x) && x.out == [] by { SettledParts(s.a); }
      assert Numbers(x) by { LedgerParts(x); }
      AckSmall(x, s.b.receiver);
      AckTrusted(x, s.b.receiver, e.packet);
      PoppedAcked(x, e.packet.seg, Handle(s.a, e).sender, g);
    } else {
      HandleLocal(s.a, e);
    }
  }

  // What the acknowledgement drops from the queue ends at or before it.
  lemma PoppedAcked(x: Sender, seg: Segment, x': Sender, g: Segment)
    requires Ledger(x) && Saturated(x) && x.out == [] && g in x.unack && g !in x'.unack
    requires x'.unack == Acknowledged(x, seg).unack || !Acknowledged(x, seg).synSet
    ensures Unwrap(g.header.seqno, x.isn, x.next) + g.Length() <= Acknowledged(x, seg).recvAck
  {
    hide Ledger, Saturated, Unwrap, FillWindow, Acknowledge, Tiles;
    assert x.stream.Valid() && x.inFlight == Total(x.unack) by { LedgerParts(x); }
    AcknowledgedMoves(x, seg);
    if !Acknowledged(x, seg).synSet { UnsentIdle(x); }
    var abs := Unwrap(seg.header.ackno, x.isn, x.recvAck);
    assert seg.header.ack && x.recvAck <= abs <= x.next;
    AcknowledgeLedger(x, abs, seg.header.win);
    var a := Acknowledge(x, abs, seg.header.win);
    FillWindowLedger(a);
    ExtendsUnack(a, FillWindow(a));
    var k := |x.unack| - |a.unack|;
    assert x.unack == x.unack[..k] + a.unack;
    assert g in x.unack[..k];
    PrefixEnds(x, a, k, g);
  }

  lemma PrefixEnds(x: Sender, a: Sender, k: nat, g: Segment)
    requires Ledger(x) && Ledger(a) && a.isn == x.isn && a.next == x.next && k <= |x.unack|
    requires a.unack == x.unack[k..] && g in x.unack[..k]
    ensures Unwrap(g.header.seqno, x.isn, x.next) + g.Length() <= a.recvAck
  {
    hide TileAt, Wrap, Unwrap;
    var from := x.next - x.inFlight;
    assert x.unack == x.unack[..k] + x.unack[k..];
    TilesTake(x.unack[..k], x.unack[k..], x.isn, from, x.next, Sent(x), x.finSet);
    var q := TilesMember(x.unack[..k], x.isn, from, from + Total(x.unack[..k]), Sent(x), x.finSet, g);
    assert g.header.seqno == Wrap(q, x.isn) by { TileNumber(g, q, x.isn, Sent(x), x.finSet); }
    UnwrapWrap(q, x.isn, x.next);
  }

  lemma TileNumber(g: Segment, q: nat, isn: U32, sent: seq<Byte>, fin: bool)
    requires TileAt(g, q, isn, sent, fin)
    ensures g.header.seqno == Wrap(q, isn)
  {
  }

  // A queue splits into tiles on both sides of any entry.
  lemma {:induction false} TilesTake(a: seq<Segment>, b: seq<Segment>, isn: U32, from: nat, to: nat,
                                     sent: seq<Byte>, fin: bool)
    requires Tiles(a + b, isn, from, to, sent, fin)
    ensures Tiles(a, isn, from, from + Total(a), sent, fin) && Total(a + b) == Total(a) + Total(b)
  {
    if a == [] {
      assert a + b == b;
    } else {
      assert (a + b)[1..] == a[1..] + b;
      TilesTake(a[1..], b, isn, from + a[0].Length(), to, sent, fin);
    }
  }

  /** Streams shorter than 2^31 bytes need no bound on packet lifetime: every packet ever sent is timely. */
  lemma ShortStreamsTimely(s: System, p: Packet)
    requires Safe(s) && p in s.ba
    requires |s.a.sender.stream.history| < TWO31 - 2 && |s.b.sender.stream.history| < TWO31 - 2
    ensures Timely(s.a, p)
  {
    hide Settled, Ledger, Reassembler.Inv, Agree;
    var x, y := s.b.sender, s.a.receiver;
    assert Numbers(x) by { SettledParts(s.b); LedgerParts(x); }
    assert Numbers(s.a.sender) by { SettledParts(s.a); LedgerParts(s.a.sender); }
    assert Genuine(p, x) && Honest(p, s.a.sender.isn, s.b.receiver);
    AckSmall(x, y);
    AckSmall(s.a.sender, s.b.receiver);
  }
}
