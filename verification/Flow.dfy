/**
 Segments as tiles: what a sender emits fits the receiver's window, and is taken
 whole or not at all, so the two-endpoint system cannot wedge.
 */
module Flows {
  import opened Types
  import opened Reassembly
  import opened ReassemblyProofs
  import opened ReassemblyRuns
  import opened Segments
  import opened WrappingIntegers
  import opened Sending
  import opened SendingProofs
  import opened Receiving
  import opened Connecting
  import opened Endpoints
  import opened Systems

  /** The stream indices that the payload of p occupies. */
  function Lo(p: Packet): nat {
    DataIndex(p.seqAbs)
  }

  function Hi(p: Packet): nat {
    DataIndex(p.seqAbs) + |p.seg.payload|
  }

  /** The first sequence number outside the window that y may have advertised by now. */
  function RightEdge(y: Receiver): nat {
    1 + y.reasm.out.Edge() + Bit(y.reasm.out.ended)
  }

  /** The reader is so far behind that the receiver can take nothing. */
  predicate Full(y: Receiver) {
    y.reasm.out.Edge() == y.reasm.Next()
  }

  /** p lies inside the window, or is a one-byte probe of a closed one. */
  predicate Fits(p: Packet, y: Receiver) {
    Hi(p) <= y.reasm.out.Edge() || (|p.seg.payload| == 1 && Lo(p) <= y.reasm.Next())
  }

  /** y holds all of p or none of it. */
  ghost predicate Whole(p: Packet, y: Receiver) {
    forall i: nat :: Lo(p) <= i < Hi(p) ==> (Held(y.reasm, i) <==> Held(y.reasm, Lo(p)))
  }

  /** p and q carry the same stretch of the stream, or share nothing. */
  predicate Apart(p: Packet, q: Packet) {
    (Lo(p) == Lo(q) && Hi(p) == Hi(q)) || Hi(p) <= Lo(q) || Hi(q) <= Lo(p)
  }

  /** The advertised window of p ends within what y can take. */
  predicate Covered(p: Packet, y: Receiver) {
    p.seg.header.ack ==> p.ackAbs + p.seg.header.win <= RightEdge(y)
  }

  /** p is a copy of the outstanding segment h of x. */
  predicate CopyOf(p: Packet, h: Segment, x: Sender) {
    && p.seqAbs == Unwrap(h.header.seqno, x.isn, x.next)
    && p.seg.payload == h.payload && p.seg.header.syn == h.header.syn && p.seg.header.fin == h.header.fin
  }

  ghost predicate Launched(h: Segment, x: Sender, xy: set<Packet>) {
    exists p :: p in xy && CopyOf(p, h, x)
  }

  ghost predicate Tiling(y: Receiver, xy: set<Packet>) {
    && (forall p :: p in xy && p.seg.payload != [] ==> Fits(p, y) && Whole(p, y))
    && (forall p, q :: p in xy && q in xy && p.seg.payload != [] && q.seg.payload != [] ==> Apart(p, q))
  }

  ghost predicate Flow(x: Sender, y: Receiver, xy: set<Packet>, yx: set<Packet>) {
    && y.reasm.Exact()
    && x.recvAck + x.window <= RightEdge(y)
    && (forall p :: p in yx ==> Covered(p, y))
    && Tiling(y, xy)
    && (forall h :: h in x.unack ==> Launched(h, x, xy))
  }

  // ---------------------------------------------------------------------
  // Taking a tile

  /** Entries that hold nothing below `to` all start there or later. */
  lemma LaidAbove(bs: seq<Block>, lo: nat, hi: nat, to: nat)
    requires Laid(bs, lo, hi) && Solid(bs)
    requires forall i: nat :: lo <= i < to ==> !Holds(bs, i)
    ensures Laid(bs, to, hi)
  {
    if bs != [] {
      assert Holds(bs, bs[0].start);
    }
  }

  /** A tile at the prefix, no byte of which is held, leaves the counted bytes their room. */
  lemma TileFits(r: Reassembler, to: nat)
    requires r.Exact() && to <= r.out.Edge() && r.Next() < to
    requires forall i: nat :: r.Next() <= i < to ==> !Held(r, i)
    ensures r.count <= r.out.Edge() - to
  {
    assert forall i: nat :: r.Next() + 1 <= i < to ==> !Holds(r.blocks, i) by {
      forall i: nat | r.Next() + 1 <= i < to
        ensures !Holds(r.blocks, i)
      {
        assert !Held(r, i);
      }
    }
    LaidAbove(r.blocks, r.Next() + 1, r.out.Edge(), to);
    SizeBound(r.blocks, to, r.out.Edge());
  }

  /** The tile of p is taken whole, unless it is a probe and the receiver is full. */
  ghost predicate Taken(p: Packet, y: Receiver, y': Receiver) {
    || (forall i: nat :: Held(y'.reasm, i) <==> Held(y.reasm, i) || Lo(p) <= i < Hi(p))
    || (Full(y) && |p.seg.payload| == 1 && Lo(p) == y.reasm.Next()
        && forall i: nat :: Held(y'.reasm, i) <==> Held(y.reasm, i))
  }

  // The limit that Push applies cuts no tile.
  lemma TileUncut(p: Packet, y: Receiver, i: nat)
    requires y.reasm.Exact() && p.seg.payload != [] && Fits(p, y) && Whole(p, y)
    requires !(Full(y) && |p.seg.payload| == 1 && Lo(p) == y.reasm.Next())
    ensures !EdgePush(y.reasm, p.seg.payload, Lo(p))
    ensures Held(y.reasm, i) || Lo(p) <= i < Limit(y.reasm, p.seg.payload, Lo(p)) <==>
            Held(y.reasm, i) || Lo(p) <= i < Hi(p)
  {
    var r := y.reasm;
    if r.Next() == Lo(p) {
      NextMissing(r);
      TileFits(r, Hi(p));
    } else if Lo(p) < r.Next() {
      if Lo(p) <= i < Hi(p) { assert Held(r, i); }
    }
  }

  // A probe of a full receiver is dropped.
  lemma ProbeDropped(p: Packet, y: Receiver, i: nat)
    requires y.reasm.Exact() && Full(y) && |p.seg.payload| == 1 && Lo(p) == y.reasm.Next()
    ensures !EdgePush(y.reasm, p.seg.payload, Lo(p))
    ensures Held(y.reasm, i) || Lo(p) <= i < Limit(y.reasm, p.seg.payload, Lo(p)) <==> Held(y.reasm, i)
  {
  }

  /** A genuine tile pushed at its index is taken, and accounting stays exact. */
  lemma PushTaken(p: Packet, y: Receiver, r': Reassembler, sent: seq<Byte>, fin: bool)
    requires y.reasm.Exact() && Follows(y.reasm, sent, fin) && p.seg.payload != [] && Fits(p, y) && Whole(p, y)
    requires Hi(p) <= |sent| && (p.seg.header.fin ==> fin && Hi(p) == |sent|)
    requires r' == Push(y.reasm, p.seg.payload, Lo(p), p.seg.header.fin)
    ensures r'.Exact() && Taken(p, y, y.(reasm := r'))
  {
    hide Store, Append, Fits, Whole, Reassembler.Exact, Limit, EdgePush;
    var r, data := y.reasm, p.seg.payload;
    if r.Next() < EofAfter(r, data, Lo(p), p.seg.header.fin) {
      if Full(y) && |data| == 1 && Lo(p) == r.Next() {
        ProbeDropped(p, y, 0);
        PushExactIff(r, data, Lo(p), p.seg.header.fin);
        forall i: nat
          ensures Held(r', i) <==> Held(r, i)
        {
          ProbeDropped(p, y, i);
          PushHeld(r, data, Lo(p), p.seg.header.fin, i);
        }
      } else {
        TileUncut(p, y, 0);
        PushExactIff(r, data, Lo(p), p.seg.header.fin);
        forall i: nat
          ensures Held(r', i) <==> Held(r, i) || Lo(p) <= i < Hi(p)
        {
          TileUncut(p, y, i);
          PushHeld(r, data, Lo(p), p.seg.header.fin, i);
        }
      }
    } else {
      PushAtEnd(r, data, Lo(p), p.seg.header.fin);
    }
  }

  // Once the whole stream is assembled a push only confirms the end.
  lemma PushAtEnd(r: Reassembler, data: seq<Byte>, index: nat, eof: bool)
    requires r.Exact() && r.Next() >= EofAfter(r, data, index, eof)
    ensures var r' := Push(r, data, index, eof);
            r'.Exact() && r'.blocks == r.blocks && r'.out.history == r.out.history
  {
  }

  // ---------------------------------------------------------------------
  // The receiving side of a step

  /** y' holds at least as much and has at least as wide a window. */
  ghost predicate Opens(y: Receiver, y': Receiver) {
    && y.reasm.Next() <= y'.reasm.Next()
    && y.reasm.out.Edge() <= y'.reasm.out.Edge()
    && RightEdge(y) <= RightEdge(y')
  }

  lemma FlowHeld(x: Sender, y: Receiver, y': Receiver, xy: set<Packet>, yx: set<Packet>)
    requires Flow(x, y, xy, yx) && Opens(y, y') && y'.reasm.Exact()
    requires forall i: nat :: Held(y'.reasm, i) <==> Held(y.reasm, i)
    ensures Flow(x, y', xy, yx)
  {
    hide Reassembler.Exact, Launched;
    forall p | p in xy && p.seg.payload != []
      ensures Fits(p, y') && Whole(p, y')
    {
      assert Fits(p, y) && Whole(p, y);
    }
  }

  lemma FlowTaken(x: Sender, y: Receiver, y': Receiver, xy: set<Packet>, yx: set<Packet>, p: Packet)
    requires Flow(x, y, xy, yx) && Opens(y, y') && y'.reasm.Exact() && p in xy && p.seg.payload != []
    requires Taken(p, y, y')
    ensures Flow(x, y', xy, yx)
  {
    hide Reassembler.Exact, Launched;
    if forall i: nat :: Held(y'.reasm, i) <==> Held(y.reasm, i) {
      FlowHeld(x, y, y', xy, yx);
    } else {
      forall q | q in xy && q.seg.payload != []
        ensures Fits(q, y') && Whole(q, y')
      {
        assert Fits(q, y) && Whole(q, y) && Apart(p, q);
      }
    }
  }

  lemma LocalFlow(x: Sender, y: Receiver, y': Receiver, xy: set<Packet>, yx: set<Packet>)
    requires Flow(x, y, xy, yx) && SameHeld(y, y') && y'.reasm.Inv()
    ensures Flow(x, y', xy, yx)
  {
    hide Flow;
    assert y'.reasm.Exact() by { FlowExact(x, y, xy, yx); }
    FlowHeld(x, y, y', xy, yx);
  }

  lemma FlowExact(x: Sender, y: Receiver, xy: set<Packet>, yx: set<Packet>)
    requires Flow(x, y, xy, yx)
    ensures y.reasm.Exact()
  {
  }

  // A segment without payload holds no index.
  lemma PushEmptyHeld(r: Reassembler, index: nat, eof: bool)
    requires r.Exact() && !r.out.ended
    ensures Push(r, [], index, eof).Exact() && forall i: nat :: Held(Push(r, [], index, eof), i) <==> Held(r, i)
  {
    hide Store, Append;
    if r.Next() < EofAfter(r, [], index, eof) {
      PushExactIff(r, [], index, eof);
      forall i: nat
        ensures Held(Push(r, [], index, eof), i) <==> Held(r, i)
      {
        PushHeld(r, [], index, eof, i);
      }
    } else {
      PushAtEnd(r, [], index, eof);
    }
  }

  /** Delivering any genuine packet keeps the tiling; if it carries bytes and SYN has been seen, they are taken. */
  lemma DeliveredFlow(x: Sender, y: Receiver, xy: set<Packet>, yx: set<Packet>, p: Packet)
    requires Flow(x, y, xy, yx) && Direction(x, y, xy, yx) && Numbers(x) && p in xy
    requires p.seg.Length() > 0 && y.synSet ==> Close(p.seqAbs, y.reasm.Next() + 1)
    ensures y.reasm.Inv()
    ensures var y' := Receiving.SegmentReceived(y, p.seg);
            && Flow(x, y', xy, yx)
            && (p.seg.payload != [] && (y.synSet || p.seg.header.syn) ==> Taken(p, y, y'))
  {
    hide Flow, Numbers, TileAt, Taken, Follows, Push, Opens;
    FlowExact(x, y, xy, yx);
    assert Receives(y, x.isn, Sent(x), x.finSet) && Genuine(p, x);
    var g := p.seg;
    var y' := Receiving.SegmentReceived(y, g);
    if g.Length() == 0 {
      BareIgnored(y, g, x.isn, Sent(x), x.finSet);
    } else if y.synSet || g.header.syn {
      assert |Sent(x)| < STREAM_LIMIT by { SentSmall(x); }
      SegmentReceives(y, g, p.seqAbs, x.isn, Sent(x), x.finSet);
      SegmentPlaced(y, g, p.seqAbs, x.isn, Sent(x), x.finSet);
      assert Opens(y, y') by { DeliveredOpens(y, y'); }
      PlacedFlow(x, y, y', xy, yx, p);
    }
  }

  lemma DeliveredOpens(y: Receiver, y': Receiver)
    requires y.reasm.Next() <= y'.reasm.Next()
    requires y'.reasm.out.popped == y.reasm.out.popped && y'.reasm.out.capacity == y.reasm.out.capacity
    requires y.reasm.out.ended ==> y'.reasm.out.ended
    ensures Opens(y, y')
  {
  }

  lemma SentSmall(x: Sender)
    requires Numbers(x)
    ensures |Sent(x)| < STREAM_LIMIT
  {
  }

  lemma PlacedFlow(x: Sender, y: Receiver, y': Receiver, xy: set<Packet>, yx: set<Packet>, p: Packet)
    requires Flow(x, y, xy, yx) && Follows(y.reasm, Sent(x), x.finSet) && p in xy && Opens(y, y')
    requires TileAt(p.seg, p.seqAbs, x.isn, Sent(x), x.finSet) && y.reasm.Inv()
    requires y'.reasm == Push(y.reasm, p.seg.payload, Lo(p), p.seg.header.fin)
    ensures Flow(x, y', xy, yx)
    ensures p.seg.payload != [] ==> Taken(p, y, y')
  {
    hide Reassembler.Exact, Push, Opens, Launched, Fits, Whole;
    if p.seg.payload != [] {
      PushTaken(p, y, y'.reasm, Sent(x), x.finSet);
      assert Taken(p, y, y');
      FlowTaken(x, y, y', xy, yx, p);
    } else if y.reasm.out.ended {
      EndedPush(y.reasm, Lo(p), p.seg.header.fin, Sent(x), x.finSet);
      FlowHeld(x, y, y', xy, yx);
    } else {
      PushEmptyHeld(y.reasm, Lo(p), p.seg.header.fin);
      FlowHeld(x, y, y', xy, yx);
    }
  }

  lemma EndedPush(r: Reassembler, index: nat, eof: bool, sent: seq<Byte>, fin: bool)
    requires r.Exact() && Follows(r, sent, fin) && r.out.ended && (eof ==> index == |sent|)
    ensures Push(r, [], index, eof).Exact() && forall i: nat :: Held(Push(r, [], index, eof), i) <==> Held(r, i)
  {
    PushAtEnd(r, [], index, eof);
  }

  // ---------------------------------------------------------------------
  // The sending side of a step

  /** A segment that stays outstanding keeps its position. */
  lemma SamePosition(x: Sender, x': Sender, h: Segment)
    requires Ledger(x) && Ledger(x') && Grows(x, x') && h in x.unack && h in x'.unack
    ensures Unwrap(h.header.seqno, x.isn, x.next) == Unwrap(h.header.seqno, x'.isn, x'.next)
  {
    hide Wrap, Unwrap, Tiles;
    OutstandingTile(x, h);
    OutstandingTile(x', h);
    WrapInjective(Unwrap(h.header.seqno, x.isn, x.next), Unwrap(h.header.seqno, x'.isn, x'.next), x.isn);
  }

  /** Two outstanding segments are the same or one ends before the other starts. */
  lemma {:induction false} TilesPair(segs: seq<Segment>, isn: U32, from: nat, to: nat, sent: seq<Byte>, fin: bool,
                                     g: Segment, h: Segment)
    returns (q: nat, r: nat)
    requires Tiles(segs, isn, from, to, sent, fin) && g in segs && h in segs
    ensures from <= q <= to && from <= r <= to && TileAt(g, q, isn, sent, fin) && TileAt(h, r, isn, sent, fin)
    ensures (g == h && q == r) || q + g.Length() <= r || r + h.Length() <= q
  {
    var rest, mid := segs[1..], from + segs[0].Length();
    TilesTotal(rest, isn, mid, to, sent, fin);
    if g == segs[0] && h == segs[0] {
      q, r := from, from;
    } else if g == segs[0] {
      q := from;
      r := TilesMember(rest, isn, mid, to, sent, fin, h);
    } else if h == segs[0] {
      r := from;
      q := TilesMember(rest, isn, mid, to, sent, fin, g);
    } else {
      q, r := TilesPair(rest, isn, mid, to, sent, fin, g, h);
    }
  }

  lemma OutstandingApart(x: Sender, g: Segment, h: Segment, p: Packet, q: Packet)
    requires Ledger(x) && g in x.unack && h in x.unack && CopyOf(p, g, x) && CopyOf(q, h, x)
    ensures Apart(p, q)
  {
    hide Wrap, Unwrap, Tiles;
    var i, j := TilesPair(x.unack, x.isn, x.next - x.inFlight, x.next, Sent(x), x.finSet, g, h);
    UnwrapWrap(i, x.isn, x.next);
    UnwrapWrap(j, x.isn, x.next);
  }

  lemma {:induction false} HoldsBelow(bs: seq<Block>, s: seq<Byte>, i: nat)
    requires Agree(bs, s) && Holds(bs, i)
    ensures i < |s|
  {
    if !(bs[0].start <= i < bs[0].End()) { HoldsBelow(bs[1..], s, i); }
  }

  lemma HeldSent(r: Reassembler, sent: seq<Byte>, fin: bool, i: nat)
    requires Follows(r, sent, fin) && Held(r, i)
    ensures i < |sent|
  {
    if i >= r.Next() { HoldsBelow(r.blocks, sent, i); }
  }

  /** p carries new bytes: it starts where x had got to and ends within the window. */
  ghost predicate CarriesNew(p: Packet, x: Sender, x': Sender) {
    && x.next <= p.seqAbs && p.seqAbs + p.seg.Length() <= x'.next
    && (p.seg.header.syn <==> p.seqAbs == 0)
  }

  lemma CarriedAbove(p: Packet, x: Sender, x': Sender)
    requires Numbers(x) && CarriesNew(p, x, x')
    ensures |Sent(x)| <= Lo(p)
  {
  }

  lemma CarriedFits(p: Packet, x: Sender, x': Sender, y: Receiver)
    requires Ledger(x) && Grows(x, x') && CarriesNew(p, x, x') && p.seg.payload != []
    requires x'.recvAck <= y.AckAbs() && x'.recvAck + x'.window <= RightEdge(y)
    requires y.reasm.out.ended ==> x.finSet
    ensures Fits(p, y)
  {
    hide Tiles;
    assert x.recvAck <= x.next;
    assert !y.reasm.out.ended;
  }

  /** p repeats a packet of the network. */
  ghost predicate Repeats(p: Packet, xy: set<Packet>) {
    exists o :: o in xy && o.seqAbs == p.seqAbs && o.seg.payload == p.seg.payload
  }

  /** Whatever an endpoint emits with a payload repeats an earlier packet or carries new bytes. */
  lemma EmittedOrigin(c: Connection, c': Connection, xy: set<Packet>, g: Segment) returns (h: Segment)
    requires Settled(c) && Settled(c') && Grows(c.sender, c'.sender) && NewAbove(c.sender, c'.sender) && Emitted(c', g)
    requires forall h :: h in c.sender.unack ==> Launched(h, c.sender, xy)
    requires g.payload != []
    ensures h in c'.sender.unack && CopyOf(PacketOf(c', g), h, c'.sender)
    ensures Repeats(PacketOf(c', g), xy) || CarriesNew(PacketOf(c', g), c.sender, c'.sender)
  {
    hide Ledger, Saturated, Unwrap, Wrap, Reassembler.Inv;
    var x, x' := c.sender, c'.sender;
    InvValid(c'.receiver.reasm);
    h :| (h in x'.unack || h == Bare(x', false) || h == Bare(x', true)) && g == Stamp(c'.receiver, h);
    assert h in x'.unack;
    OutstandingTile(x', h);
    if h in x.unack {
      SamePosition(x, x', h);
      assert Launched(h, x, xy);
      var o :| o in xy && CopyOf(o, h, x);
      assert o.seqAbs == PacketOf(c', g).seqAbs;
    }
  }

  lemma EmittedTile(c: Connection, c': Connection, y: Receiver, xy: set<Packet>, yx: set<Packet>, p: Packet)
    requires Flow(c.sender, y, xy, yx) && Direction(c.sender, y, xy, yx) && Settled(c) && Moves(c, c')
    requires c'.sender.recvAck <= y.AckAbs() && c'.sender.recvAck + c'.sender.window <= RightEdge(y)
    requires p in Packets(c') && p.seg.payload != []
    ensures Fits(p, y) && Whole(p, y)
    ensures Repeats(p, xy) || CarriesNew(p, c.sender, c'.sender)
  {
    hide Ledger, Fits, Grows, NewAbove, PacketOf, CopyOf, Genuine, Honest, Reassembler.Exact;
    var x, x' := c.sender, c'.sender;
    var g :| g in c'.out && p == PacketOf(c', g);
    assert g == p.seg by { PacketSegment(c', g); }
    var h := EmittedOrigin(c, c', xy, g);
    if Repeats(p, xy) {
      var o :| o in xy && o.seqAbs == p.seqAbs && o.seg.payload == p.seg.payload;
      assert Fits(o, y) && Whole(o, y);
      SameTile(o, p, y);
    } else {
      assert y.reasm.out.ended ==> x.finSet by { AckBounded(y, x.isn, Sent(x), x.finSet); }
      CarriedFits(p, x, x', y);
      assert Numbers(x) by { LedgerParts(x); }
      CarriedAbove(p, x, x');
      CarriedWhole(p, x, y);
    }
  }

  lemma PacketSegment(c: Connection, g: Segment)
    ensures PacketOf(c, g).seg == g
  {
  }

  lemma SameTile(o: Packet, p: Packet, y: Receiver)
    requires o.seqAbs == p.seqAbs && o.seg.payload == p.seg.payload && Fits(o, y) && Whole(o, y)
    ensures Fits(p, y) && Whole(p, y)
  {
  }

  lemma CarriedWhole(p: Packet, x: Sender, y: Receiver)
    requires Follows(y.reasm, Sent(x), x.finSet) && |Sent(x)| <= Lo(p)
    ensures Whole(p, y)
  {
    hide Follows;
    forall i: nat | Lo(p) <= i < Hi(p)
      ensures Held(y.reasm, i) <==> Held(y.reasm, Lo(p))
    {
      if Held(y.reasm, i) { HeldSent(y.reasm, Sent(x), x.finSet, i); }
      if Held(y.reasm, Lo(p)) { HeldSent(y.reasm, Sent(x), x.finSet, Lo(p)); }
    }
  }

  /** An emitted packet shares no byte with a packet already in the network, or repeats one. */
  lemma EmittedApartOld(c: Connection, c': Connection, y: Receiver, xy: set<Packet>, p: Packet, q: Packet)
    requires Tiling(y, xy) && Numbers(c.sender) && q in xy && Genuine(q, c.sender)
    requires p.seg.payload != [] && q.seg.payload != []
    requires Repeats(p, xy) || CarriesNew(p, c.sender, c'.sender)
    ensures Apart(p, q)
  {
    hide Fits, Whole, Numbers, Sent;
    if Repeats(p, xy) {
      var o :| o in xy && o.seqAbs == p.seqAbs && o.seg.payload == p.seg.payload;
      assert Apart(o, q);
    } else {
      CarriedAbove(p, c.sender, c'.sender);
    }
  }

  /** Two packets emitted together are copies of outstanding segments, and those do not overlap. */
  lemma EmittedApart(c: Connection, c': Connection, xy: set<Packet>, p: Packet, q: Packet)
    requires Settled(c) && Moves(c, c') && p in Packets(c') && q in Packets(c')
    requires forall h :: h in c.sender.unack ==> Launched(h, c.sender, xy)
    requires p.seg.payload != [] && q.seg.payload != []
    ensures Apart(p, q)
  {
    hide Ledger, Saturated, PacketOf, CopyOf, Grows, NewAbove, Reassembler.Inv, Emitted, Launched, Repeats,
         CarriesNew, Apart;
    assert c'.receiver.reasm.out.Valid() by { InvValid(c'.receiver.reasm); }
    var f :| f in c'.out && p == PacketOf(c', f);
    var g :| g in c'.out && q == PacketOf(c', g);
    PacketSegment(c', f);
    PacketSegment(c', g);
    var h := EmittedOrigin(c, c', xy, f);
    var i := EmittedOrigin(c, c', xy, g);
    OutstandingApart(c'.sender, h, i, p, q);
  }

  lemma ApartSym(p: Packet, q: Packet)
    requires Apart(p, q)
    ensures Apart(q, p)
  {
  }

  lemma SenderTiling(c: Connection, c': Connection, y: Receiver, xy: set<Packet>, yx: set<Packet>)
    requires Flow(c.sender, y, xy, yx) && Direction(c.sender, y, xy, yx) && Settled(c) && Moves(c, c')
    requires c'.sender.recvAck <= y.AckAbs() && c'.sender.recvAck + c'.sender.window <= RightEdge(y)
    ensures Tiling(y, xy + Packets(c'))
  {
    hide Ledger, Fits, Whole, Apart, Moves, Reassembler.Exact, Genuine, Receives, Packets, Repeats, CarriesNew,
         Launched;
    assert Numbers(c.sender) by { SettledParts(c); LedgerParts(c.sender); }
    forall p | p in xy + Packets(c') && p.seg.payload != []
      ensures Fits(p, y) && Whole(p, y)
    {
      if p !in xy { EmittedTile(c, c', y, xy, yx, p); }
    }
    forall p, q | p in xy + Packets(c') && q in xy + Packets(c') && p.seg.payload != [] && q.seg.payload != []
      ensures Apart(p, q)
    {
      if p in xy && q in xy {
      } else if q in xy {
        EmittedTile(c, c', y, xy, yx, p);
        EmittedApartOld(c, c', y, xy, p, q);
      } else if p in xy {
        EmittedTile(c, c', y, xy, yx, q);
        EmittedApartOld(c, c', y, xy, q, p);
        ApartSym(q, p);
      } else {
        EmittedApart(c, c', xy, p, q);
      }
    }
  }

  lemma SenderLaunched(c: Connection, c': Connection, xy: set<Packet>, h: Segment)
    requires Settled(c) && Moves(c, c') && h in c'.sender.unack
    requires forall h :: h in c.sender.unack ==> Launched(h, c.sender, xy)
    ensures Launched(h, c'.sender, xy + Packets(c'))
  {
    hide Ledger, Saturated, Reassembler.Inv, Unwrap, Emits;
    var x, x' := c.sender, c'.sender;
    assert c'.receiver.reasm.out.Valid() by { InvValid(c'.receiver.reasm); }
    if h in x.unack {
      var o :| o in xy && CopyOf(o, h, x);
      SamePosition(x, x', h);
      assert CopyOf(o, h, x');
    } else {
      var g := Stamp(c'.receiver, h);
      assert PacketOf(c', g) in Packets(c');
      assert CopyOf(PacketOf(c', g), h, x');
    }
  }

  lemma SenderFlow(c: Connection, c': Connection, y: Receiver, xy: set<Packet>, yx: set<Packet>)
    requires Flow(c.sender, y, xy, yx) && Direction(c.sender, y, xy, yx) && Settled(c) && Moves(c, c')
    requires c'.sender.recvAck <= y.AckAbs() && c'.sender.recvAck + c'.sender.window <= RightEdge(y)
    ensures Flow(c'.sender, y, xy + Packets(c'), yx)
  {
    hide Settled, Moves, Direction, Tiling, Launched, Reassembler.Exact, Packets;
    SenderTiling(c, c', y, xy, yx);
    forall h | h in c'.sender.unack
      ensures Launched(h, c'.sender, xy + Packets(c'))
    {
      SenderLaunched(c, c', xy, h);
    }
  }

  // ---------------------------------------------------------------------
  // A step, and every run

  ghost predicate Flowing(s: System) {
    && Safe(s)
    && Flow(s.a.sender, s.b.receiver, s.ab, s.ba)
    && Flow(s.b.sender, s.a.receiver, s.ba, s.ab)
  }

  /** The window a sender works with is one its peer can still honour. */
  lemma WindowTrusted(s: System, e: Event)
    requires Flowing(s) && Enabled(s, e)
    ensures var c := Handle(s.a, e); c.sender.recvAck + c.sender.window <= RightEdge(s.b.receiver)
  {
    hide Settled, Genuine, Receives, Handle, Tiling, Launched, Reassembler.Exact, Moves;
    var x, y := s.a.sender, s.b.receiver;
    if Heeds(s.a, e) {
      DeliverMoves(s.a, e.packet.seg);
      HandleDeliver(s.a, e.packet);
      assert Ledger(x) && Saturated(x) by { SettledParts(s.a); }
      assert Numbers(x) by { LedgerParts(x); }
      AckSmall(x, y);
      AckTrusted(x, y, e.packet);
      assert Covered(e.packet, y);
      AckWindow(x, e.packet.seg);
    } else {
      HandleLocal(s.a, e);
    }
  }

  lemma AckWindow(x: Sender, g: Segment)
    requires Ledger(x) && Saturated(x)
    ensures var a := Acknowledged(x, g);
            || (a.recvAck == x.recvAck && a.window == x.window)
            || (g.header.ack && a.recvAck == Unwrap(g.header.ackno, x.isn, x.recvAck) && a.window == g.header.win)
  {
    hide Ledger, Saturated, AckReceived, Unwrap;
    if g.header.ack { AckReceivedLedger(x, g.header.ackno, g.header.win); }
  }

  // An emitted acknowledgement and window do not reach past the edge.
  lemma EmittedCovered(c: Connection, p: Packet)
    requires Settled(c) && Emits(c) && p in Packets(c)
    ensures Covered(p, c.receiver)
  {
    hide Ledger, Saturated, Unwrap;
    var g :| g in c.out && p == PacketOf(c, g);
    assert Emitted(c, g);
    EmittedGenuine(c, g);
    var h :| (h in c.sender.unack || h == Bare(c.sender, false) || h == Bare(c.sender, true))
        && g == Stamp(c.receiver, h);
  }

  lemma ReceiverFlow(s: System, e: Event)
    requires Flowing(s) && Enabled(s, e)
    ensures Flow(s.b.sender, Handle(s.a, e).receiver, s.ba, s.ab)
  {
    hide Settled, Handle, Flow, Direction, SameHeld, Moves, Timely;
    assert Numbers(s.b.sender) by { SettledParts(s.b); LedgerParts(s.b.sender); }
    HandleMoves(s.a, e);
    assert Handle(s.a, e).receiver.reasm.Inv() by { MovesInv(s.a, Handle(s.a, e)); }
    if Heeds(s.a, e) {
      DeliverMoves(s.a, e.packet.seg);
      HandleDeliver(s.a, e.packet);
      TimelyParts(s.a, e.packet);
      DeliveredFlow(s.b.sender, s.a.receiver, s.ba, s.ab, e.packet);
    } else {
      HandleLocal(s.a, e);
      LocalFlow(s.b.sender, s.a.receiver, Handle(s.a, e).receiver, s.ba, s.ab);
    }
  }

  lemma FlowCovered(x: Sender, y: Receiver, xy: set<Packet>, yx: set<Packet>, more: set<Packet>)
    requires Flow(x, y, xy, yx) && forall p :: p in more ==> Covered(p, y)
    ensures Flow(x, y, xy, yx + more)
  {
    hide Reassembler.Exact, Tiling, Launched;
  }

  lemma StepFlow(s: System, e: Event)
    requires Flowing(s) && Enabled(s, e)
    ensures Flowing(StepA(s, e))
  {
    hide Handle, Flow, Direction, Moves, Settled, Packets;
    StepSafe(s, e);
    HandleMoves(s.a, e);
    RecvAckTrusted(s, e);
    WindowTrusted(s, e);
    ReceiverFlow(s, e);
    var c := Handle(s.a, e);
    MovesInv(s.a, c);
    SenderFlow(s.a, c, s.b.receiver, s.ab, s.ba);
    forall p | p in Packets(c)
      ensures Covered(p, c.receiver)
    {
      EmittedCovered(c, p);
    }
    FlowCovered(s.b.sender, c.receiver, s.ba, s.ab, Packets(c));
  }

  lemma NextFlow(s: System, s': System)
    requires Flowing(s) && Next(s, s')
    ensures Flowing(s')
  {
    hide Settled, Direction, Flow, StepA;
    if e :| Enabled(s, e) && s' == StepA(s, e) {
      StepFlow(s, e);
    } else {
      var e :| Enabled(s.Swap(), e) && s' == StepA(s.Swap(), e).Swap();
      StepFlow(s.Swap(), e);
    }
  }

  lemma StartFlow(c: Config, d: Config)
    ensures Flow(Start(c).sender, Start(d).receiver, {}, {})
  {
  }

  lemma {:induction false} RunFlowing(run: seq<System>, ca: Config, cb: Config, i: nat)
    requires Behaviour(run, ca, cb) && i < |run|
    ensures Flowing(run[i])
  {
    hide Flow, Next, Start, Safe;
    if i == 0 {
      RunSafe(run, ca, cb, 0);
      StartFlow(ca, cb);
      StartFlow(cb, ca);
    } else {
      RunFlowing(run, ca, cb, i - 1);
      assert Next(run[i - 1], run[i - 1 + 1]);
      NextFlow(run[i - 1], run[i]);
    }
  }
}
