/** TCP headers and segments as the endpoints see them (libsponge/tcp_helpers/tcp_header.hh, tcp_segment.hh). */
module Segments {
  import opened Types

  datatype TcpHeader = TcpHeader(
    sport: U16, dport: U16, seqno: U32, ackno: U32, doff: Byte,
    urg: bool, ack: bool, psh: bool, rst: bool, syn: bool, fin: bool,
    win: U16, cksum: U16, uptr: U16)

  /** A default-constructed header. */
  const BLANK: TcpHeader := TcpHeader(0, 0, 0, 0, 5, false, false, false, false, false, false, 0, 0, 0)

  function Bit(b: bool): nat {
    if b then 1 else 0
  }

  datatype Segment = Segment(header: TcpHeader, payload: seq<Byte>)
  {
    /** length_in_sequence_space: SYN and FIN occupy one number each. */
    function Length(): nat {
      |payload| + Bit(header.syn) + Bit(header.fin)
    }
  }
}
