/** Carrying TCP segments in IPv4 datagrams (libsponge/tcp_helpers/tcp_over_ip.cc). */
module Encapsulation {
  import opened Types
  import opened Segments
  import opened Parsing
  import opened TcpFormats
  import opened Ipv4Formats

  datatype Address = Address(ip: U32, port: U16)

  /** What unwrapping yields: a segment for this connection or nothing, and the adapter afterwards. */
  datatype Unwrapped = Unwrapped(segment: Option<Segment>, adapter: Adapter)

  datatype Adapter = Adapter(source: Address, destination: Address, listening: bool)
  {
    /** The segment with this connection's port numbers. */
    function Addressed(seg: Segment): Segment {
      seg.(header := seg.header.(sport := source.port, dport := destination.port))
    }

    /** The header of the datagram that carries it; the length is cut to 16 bits. */
    function Envelope(seg: Segment): Ipv4Header {
      IP_BLANK.(src := source.ip, dst := destination.ip,
                len := (IP_BLANK.hlen * 4 + seg.header.doff * 4 + |seg.payload|) % 0x1_0000)
    }

    /** wrap_tcp_in_ip; None is the error thrown for a short TCP header. */
    function Wrap(seg: Segment): Option<Datagram> {
      if seg.header.doff < 5 then None
      else Some(Datagram(Envelope(seg), SegmentBytes(Addressed(seg), Envelope(seg).PseudoSum())))
    }

    /** unwrap_tcp_in_ip. */
    function Unwrap(d: Datagram): Unwrapped {
      var ip := d.header;
      var q := ParseSegment(Segment(BLANK, []), d.payload, ip.PseudoSum());
      var tcp := q.segment.header;
      if !listening && (ip.dst != source.ip || ip.src != destination.ip) then Unwrapped(None, this)
      else if ip.proto != PROTO_TCP then Unwrapped(None, this)
      else if q.result != NoError then Unwrapped(None, this)
      else if tcp.dport != source.port then Unwrapped(None, this)
      else if listening && !(tcp.syn && !tcp.rst) then Unwrapped(None, this)
      else
        var next := if listening then Adapter(Address(ip.dst, source.port), Address(ip.src, tcp.sport),
              false) else this;
        if tcp.sport != next.destination.port then Unwrapped(None, next)
        else Unwrapped(Some(q.segment), next)
    }

    /** An adapter connected to `peer`, or listening at its destination port for this opening segment. */
    predicate Expects(peer: Adapter, seg: Segment) {
      if listening then source.port == peer.destination.port && seg.header.syn && !seg.header.rst
      else source == peer.destination && destination == peer.source
    }
  }

  /**
   Encapsulation round trip: wrapping a segment, serializing the datagram, parsing the
   bytes and unwrapping at the peer returns the segment with its ports and checksum
   filled in, and leaves the peer connected to the sender.
   */
  lemma EncapsulationRoundTrip(a: Adapter, b: Adapter, seg: Segment)
    requires Carriable(seg) && b.Expects(a, seg)
    ensures a.Wrap(seg).Some?
    ensures var d := a.Wrap(seg).value;
            && |d.payload| == d.header.PayloadLength() && d.header.Serializable()
            && var q := ParseDatagram(DatagramBytes(d));
               q.result == NoError
               && b.Unwrap(q.datagram)
                  == Unwrapped(Some(Filled(a.Addressed(seg), d.header.PseudoSum())),
                               Adapter(a.destination, a.source, false))
  {
    hide ParseDatagram, ParseIpHeader, DatagramBytes, ParseSegment, SegmentBytes, HeaderChecksum, SegmentChecksum,
         Ipv4Header.PseudoSum;
    var d := a.Wrap(seg).value;
    EnvelopeFits(a, seg);
    PlainRoundTrip(d);
    SealedPseudoSum(d);
    assert Arrived(Sealed(d)) == Sealed(d);
    SegmentRoundTrip(Segment(BLANK, []), a.Addressed(seg), d.header.PseudoSum());
  }

  // The length field, even cut to 16 bits, agrees with the payload.
  lemma EnvelopeFits(a: Adapter, seg: Segment)
    requires seg.header.doff >= 5
    ensures a.Envelope(seg).Representable()
    ensures a.Envelope(seg).PayloadLength() == (4 * seg.header.doff + |seg.payload|) % 0x1_0000
  {
  }

  lemma SealedPseudoSum(d: Datagram)
    requires d.header.Serializable()
    ensures Sealed(d).header.PseudoSum() == d.header.PseudoSum()
  {
  }

  /** The one size limit: serializing the datagram fails exactly when the segment exceeds 65535 bytes. */
  lemma OversizeRefusedIff(a: Adapter, seg: Segment)
    requires seg.header.doff >= 5
    ensures var d := a.Wrap(seg).value;
            |d.payload| != d.header.PayloadLength() <==> 4 * seg.header.doff + |seg.payload| > 0xffff
  {
    hide SegmentBytes, Ipv4Header.PayloadLength, Ipv4Header.PseudoSum;
    EnvelopeFits(a, seg);
  }

  /** Whatever unwrapping returns travelled between the two addresses the adapter then stands connected to. */
  lemma UnwrapSafe(a: Adapter, d: Datagram)
    ensures var u := a.Unwrap(d);
            && (u.segment.None? ==> u.adapter == a)
            && (!a.listening ==> u.adapter == a)
            && (u.segment.Some? ==>
                  && var tcp := u.segment.value.header;
                  && !u.adapter.listening && d.header.proto == PROTO_TCP
                  && u.adapter.source == Address(d.header.dst, tcp.dport)
                  && u.adapter.destination == Address(d.header.src, tcp.sport))
  {
    hide ParseSegment, Ipv4Header.PseudoSum;
  }

  /**
   Unwrapping returns exactly the valid TCP segments for this connection: between its two
   ends, or, while it listens, opening segments to its port.
   */
  lemma UnwrapIff(a: Adapter, d: Datagram)
    ensures var q := ParseSegment(Segment(BLANK, []), d.payload, d.header.PseudoSum());
            var tcp := q.segment.header;
            && (a.Unwrap(d).segment.Some? <==>
                  && d.header.proto == 6 && q.result == NoError && tcp.dport == a.source.port
                  && if a.listening then tcp.syn && !tcp.rst
                     else Address(d.header.src, tcp.sport) == a.destination && d.header.dst == a.source.ip)
            && (a.Unwrap(d).segment.Some? ==> a.Unwrap(d).segment.value == q.segment)
  {
    hide ParseSegment, Ipv4Header.PseudoSum;
  }

  /** The header that wrap_tcp_in_ip gives a datagram. */
  lemma WrappedHeader(a: Adapter, seg: Segment)
    requires seg.header.doff >= 5
    ensures var h := a.Wrap(seg).value.header;
            && h.ver == 4 && h.hlen == 5 && h.tos == 0 && h.id == 0 && h.df && !h.mf && h.offset == 0
            && h.ttl == 128 && h.proto == 6 && h.src == a.source.ip && h.dst == a.destination.ip
            && h.len == (20 + 4 * seg.header.doff + |seg.payload|) % 0x1_0000
  {
    hide SegmentBytes, Ipv4Header.PseudoSum;
  }

  class TcpOverIpv4Adapter {
    var source: Address
    var destination: Address
    var listening: bool

    ghost function Model(): Adapter
      reads this
    {
      Adapter(source, destination, listening)
    }

    constructor (source: Address, destination: Address, listening: bool)
      ensures Model() == Adapter(source, destination, listening)
    {
      this.source, this.destination, this.listening := source, destination, listening;
    }

    method UnwrapTcpInIp(d: Datagram) returns (seg: Option<Segment>)
      modifies this
      ensures Unwrapped(seg, Model()) == old(Model()).Unwrap(d)
    {
      hide ParseSegment, Ipv4Header.PseudoSum;
      if !listening && d.header.dst != source.ip {
        return None;
      }
      if !listening && d.header.src != destination.ip {
        return None;
      }
      if d.header.proto != PROTO_TCP {
        return None;
      }
      var tcp, result := ParseTcpSegment(Segment(BLANK, []), d.payload, d.header.PseudoSum());
      if result != NoError {
        return None;
      }
      if tcp.header.dport != source.port {
        return None;
      }
      if listening {
        if tcp.header.syn && !tcp.header.rst {
          source := Address(d.header.dst, source.port);
          destination := Address(d.header.src, tcp.header.sport);
          listening := false;
        } else {
          return None;
        }
      }
      if tcp.header.sport != destination.port {
        return None;
      }
      return Some(tcp);
    }

    /** Also returns the segment with its ports set, as the caller's segment is changed in place. */
    method WrapTcpInIp(seg: Segment) returns (addressed: Segment, d: Option<Datagram>)
      ensures d == Model().Wrap(seg)
      ensures addressed == Model().Addressed(seg)
    {
      hide SegmentBytes, Ipv4Header.PseudoSum;
      addressed := seg.(header := seg.header.(sport := source.port, dport := destination.port));
      var ip := IP_BLANK.(src := source.ip, dst := destination.ip);
      ip := ip.(len := (ip.hlen * 4 + addressed.header.doff * 4 + |addressed.payload|) % 0x1_0000);
      var payload := SerializeSegment(addressed, ip.PseudoSum());
      if payload.None? {
        return addressed, None;
      }
      return addressed, Some(Datagram(ip, payload.value));
    }
  }
}
