/** The protocol over the wire format: what the endpoints exchange survives the trip through bytes. */
module Stacks {
  import opened Types
  import opened Segments
  import opened Reassembly
  import opened Parsing
  import opened TcpFormats
  import opened Ipv4Formats
  import opened Encapsulation
  import opened WrappingIntegers
  import opened Sending
  import opened Receiving
  import opened Connecting
  import opened Endpoints
  import opened Systems

  /** g as another adapter and the checksum have filled it in. */
  function Relabel(g: Segment, sport: U16, dport: U16, cksum: U16): Segment {
    g.(header := g.header.(sport := sport, dport := dport, cksum := cksum))
  }

  /** Every segment that an endpoint ever puts on the network fits the wire format. */
  lemma EmittedCarriable(run: seq<System>, ca: Config, cb: Config, i: nat, p: Packet)
    requires Behaviour(run, ca, cb) && i < |run| && p in run[i].ab
    ensures Carriable(p.seg)
  {
    hide Settled, Behaviour, Receives;
    RunSafe(run, ca, cb, i);
    assert Genuine(p, run[i].a.sender);
  }

  lemma RelabelAssembled(r: Receiver, g: Segment, sport: U16, dport: U16, cksum: U16)
    requires r.reasm.Inv()
    ensures Receiving.SegmentReceived(r, Relabel(g, sport, dport, cksum)) == Receiving.SegmentReceived(r, g)
  {
    hide Push, Unwrap;
  }

  lemma RelabelAnswered(r: Receiver, s: Sender, g: Segment, sport: U16, dport: U16, cksum: U16)
    requires s.stream.Valid()
    ensures Answer(r, s, Relabel(g, sport, dport, cksum)) == Answer(r, s, g)
  {
    hide FillWindow;
  }

  lemma RelabelResponse(c: Connection, g: Segment, sport: U16, dport: U16, cksum: U16)
    requires c.receiver.reasm.out.Valid() && c.sender.stream.Valid()
    ensures Respond(c, Relabel(g, sport, dport, cksum)) == Respond(c, g)
  {
    hide Answer, AssembleSend, ClosesPassively;
    RelabelAnswered(c.receiver, c.sender, g, sport, dport, cksum);
  }

  /** A connection looks at neither the ports nor the checksum of a segment. */
  lemma RelabelReceived(c: Connection, g: Segment, sport: U16, dport: U16, cksum: U16)
    requires c.Sane()
    ensures Connecting.SegmentReceived(c, Relabel(g, sport, dport, cksum)) == Connecting.SegmentReceived(c, g)
  {
    hide AckReceived, FillWindow, Receiving.SegmentReceived, Respond, AssembleSend, Reassembler.Inv;
    RelabelAssembled(c.receiver, g, sport, dport, cksum);
    var r := Receiving.SegmentReceived(c.receiver, g);
    var s := Acknowledged(c.sender, g);
    assert r.reasm.out.Valid() by { ReceiverKept(c.receiver, g); InvValid(r.reasm); }
    RelabelResponse(c.(sinceLast := 0, receiver := r, sender := s), g, sport, dport, cksum);
  }

  /**
   Wrapping any packet of any run, serializing the datagram, parsing it and unwrapping
   it at the peer's adapter succeeds, and the peer reacts to what comes out as it
   would to the segment that was sent.
   */
  lemma WireTransparent(run: seq<System>, ca: Config, cb: Config, i: nat, p: Packet, x: Adapter, y: Adapter)
    requires Behaviour(run, ca, cb) && i < |run| && p in run[i].ab && y.Expects(x, p.seg)
    ensures run[i].b.Sane() && x.Wrap(p.seg).Some?
    ensures var d := x.Wrap(p.seg).value;
            && |d.payload| == d.header.PayloadLength() && d.header.Serializable()
            && var q := ParseDatagram(DatagramBytes(d));
               var u := y.Unwrap(q.datagram);
            && q.result == NoError && u.segment.Some?
            && Connecting.SegmentReceived(run[i].b, u.segment.value) == Connecting.SegmentReceived(run[i].b, p.seg)
  {
    hide Settled, Behaviour, Direction, ParseDatagram, DatagramBytes, SegmentBytes, SegmentChecksum, Adapter.Unwrap,
         Connecting.SegmentReceived, Ipv4Header.PseudoSum;
    RunSafe(run, ca, cb, i);
    SettledSane(run[i].b);
    EmittedCarriable(run, ca, cb, i, p);
    EncapsulationRoundTrip(x, y, p.seg);
    var d := x.Wrap(p.seg).value;
    var g := Filled(x.Addressed(p.seg), d.header.PseudoSum());
    assert g == Relabel(p.seg, x.source.port, x.destination.port, g.header.cksum);
    RelabelReceived(run[i].b, p.seg, x.source.port, x.destination.port, g.header.cksum);
  }
}
