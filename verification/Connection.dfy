/**
 One endpoint of a connection (libsponge/tcp_connection.cc) and its state
 summaries (libsponge/tcp_helpers/tcp_state.cc) as functions over values.
 */
module Connecting {
  import opened Types
  import opened Reassembly
  import opened ReassemblyProofs
  import opened Segments
  import opened WrappingIntegers
  import opened Sending
  import opened Receiving

  const MAX_RETX_ATTEMPTS: nat := 8

  datatype Connection = Connection(
    rto: nat, receiver: Receiver, sender: Sender, out: seq<Segment>, linger: bool, sinceLast: nat, active: bool)
  {
    /** What the operations below need in order not to go below zero anywhere. */
    ghost predicate Sane() {
      receiver.reasm.Inv() && sender.stream.Valid() && sender.inFlight == Total(sender.unack)
    }
  }

  function NewConnection(rto: nat, recvCapacity: nat, sendCapacity: nat, isn: U32): Connection {
    Connection(rto, NewReceiver(recvCapacity), NewSender(sendCapacity, rto, isn), [], true, 0, true)
  }

  // ---------------------------------------------------------------------
  // State summaries

  datatype ReceiverState = ReceiverError | Listen | SynRecv | FinRecv

  datatype SenderState = SenderError | Closed | SynSent | SynAcked | FinSent | FinAcked

  function ReceiverSummary(r: Receiver): ReceiverState {
    if r.reasm.out.error then ReceiverError
    else if r.Ackno().None? then Listen
    else if r.reasm.out.ended then FinRecv
    else SynRecv
  }

  function SenderSummary(s: Sender): SenderState {
    if s.stream.error then SenderError
    else if s.next == 0 then Closed
    else if s.next == s.inFlight then SynSent
    else if !s.stream.Eof() then SynAcked
    else if s.next < |s.stream.history| + 2 then SynAcked
    else if s.inFlight > 0 then FinSent
    else FinAcked
  }

  // ---------------------------------------------------------------------
  // Operations

  /** The receiver's acknowledgement and window are added to an outgoing segment. */
  function Stamp(r: Receiver, g: Segment): Segment
    requires r.reasm.out.Valid()
  {
    var h := if r.Ackno().Some? then g.header.(ack := true, ackno := r.Ackno().value) else g.header;
    g.(header := h.(win := Min(0xffff, r.WindowSize())))
  }

  function StampAll(r: Receiver, segs: seq<Segment>): seq<Segment>
    requires r.reasm.out.Valid()
  {
    if segs == [] then [] else [Stamp(r, segs[0])] + StampAll(r, segs[1..])
  }

  /** segment_assemble_send: everything the sender queued leaves, stamped. */
  function AssembleSend(c: Connection): Connection
    requires c.receiver.reasm.out.Valid()
  {
    c.(out := c.out + StampAll(c.receiver, c.sender.out), sender := c.sender.(out := []))
  }

  function SetShutdown(c: Connection, clean: bool): Connection {
    if clean then c.(active := false)
    else
      c.(active := false,
         sender := c.sender.(stream := c.sender.stream.SetError()),
         receiver := c.receiver.(reasm := c.receiver.reasm.(out := c.receiver.reasm.out.SetError())))
  }

  function SendRst(c: Connection): Connection
    requires c.receiver.reasm.out.Valid()
  {
    AssembleSend(c.(sender := SendEmpty(c.sender, true)))
  }

  function Connect(c: Connection): Connection
    requires c.Sane()
  {
    AssembleSend(c.(sender := FillWindow(c.sender)))
  }

  /** What the sender queues in answer to an accepted segment g. */
  function Answer(r: Receiver, s: Sender, g: Segment): Sender
    requires s.stream.Valid()
  {
    var keepAlive := r.Ackno().Some? && g.Length() == 0 && g.header.seqno == (r.Ackno().value + TWO32 - 1) % TWO32;
    var s := if keepAlive then SendEmpty(s, false) else s;
    if g.Length() > 0 && s.out == [] then
      var f := FillWindow(s);
      if f.out == [] then SendEmpty(f, false) else f
    else s
  }

  /** The sender after the acknowledgement that segment g carries, if any. */
  function Acknowledged(s: Sender, g: Segment): (r: Sender)
    requires s.stream.Valid() && s.inFlight == Total(s.unack)
    ensures r.stream.Valid()
  {
    if g.header.ack then AckReceived(s, g.header.ackno, g.header.win) else s
  }

  /** The peer has finished first: it will not need this endpoint to linger. */
  predicate ClosesPassively(c: Connection) {
    ReceiverSummary(c.receiver) == FinRecv && SenderSummary(c.sender) == SynAcked
  }

  function Respond(c: Connection, g: Segment): Connection
    requires c.receiver.reasm.out.Valid() && c.sender.stream.Valid()
  {
    var c := c.(linger := c.linger && !ClosesPassively(c));
    AssembleSend(c.(sender := Answer(c.receiver, c.sender, g)))
  }

  function SegmentReceived(c: Connection, g: Segment): Connection
    requires c.Sane()
  {
    if !c.active then c
    else
      var c := c.(sinceLast := 0);
      if g.header.rst then SetShutdown(c, false)
      else
        var r := Receiving.SegmentReceived(c.receiver, g);
        var s := Acknowledged(c.sender, g);
        ReceiverKept(c.receiver, g);
        if g.header.syn && s.next == 0 then
          AssembleSend(c.(receiver := r, sender := FillWindow(s)))
        else
          Respond(c.(receiver := r, sender := s), g)
  }

  lemma ReceiverKept(r: Receiver, g: Segment)
    requires r.reasm.Inv()
    ensures Receiving.SegmentReceived(r, g).reasm.Inv()
  {
    hide Push;
    if r.synSet || g.header.syn {
      var r1 := if r.synSet then r else r.(synSet := true, isn := g.header.seqno);
      var abs := Unwrap(g.header.seqno, r1.isn, r.reasm.Next() + 1);
      PushInv(r.reasm, g.payload, StreamIndex(abs, g.header.syn), g.header.fin);
    }
  }

  /** write, and the number of bytes accepted. */
  function Write(c: Connection, data: seq<Byte>): (Connection, nat)
    requires c.Sane()
  {
    (Connect(c.(sender := c.sender.(stream := c.sender.stream.Write(data)))), c.sender.stream.Accepts(data))
  }

  function EndInputStream(c: Connection): Connection
    requires c.Sane()
  {
    Connect(c.(sender := c.sender.(stream := c.sender.stream.EndInput())))
  }

  /** Too many retransmissions: what was queued is dropped and the peer is reset. */
  function GiveUp(c: Connection): Connection
    requires c.receiver.reasm.out.Valid()
  {
    SendRst(SetShutdown(c.(sender := c.sender.(out := [])), false))
  }

  /** Both streams are done and acknowledged, and the endpoint has lingered if it must. */
  predicate Finished(c: Connection) {
    && ReceiverSummary(c.receiver) == FinRecv
    && SenderSummary(c.sender) == FinAcked
    && (c.linger ==> 10 * c.rto <= c.sinceLast)
  }

  function TickConnection(c: Connection, ms: nat): Connection
    requires c.Sane()
  {
    var c := c.(sender := Tick(c.sender, ms), sinceLast := c.sinceLast + ms);
    if MAX_RETX_ATTEMPTS < c.sender.retx then GiveUp(c)
    else
      var c := AssembleSend(c);
      if Finished(c) then SetShutdown(c, true) else c
  }

  /** The destructor: a connection that is still active resets its peer. */
  function Destroy(c: Connection): Connection
    requires c.Sane()
  {
    if c.active then SendRst(SetShutdown(c, false)) else c
  }

  /** The application reads from the inbound stream. */
  function ReadInbound(c: Connection, len: nat): Connection
    requires c.Sane()
  {
    c.(receiver := c.receiver.(reasm := Pop(c.receiver.reasm, len)))
  }
}
