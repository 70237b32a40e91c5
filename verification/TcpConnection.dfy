/** The endpoint as the program runs it: an object updated in place (libsponge/tcp_connection.cc). */
module TcpConnections {
  import opened Types
  import opened Reassembly
  import opened Segments
  import opened Sending
  import opened TcpSenders
  import opened TcpReceivers
  import opened Connecting

  class TcpConnection {
    const rtTimeout: nat
    const receiver: TcpReceiver
    const sender: TcpSender
    var segmentsOut: seq<Segment>
    var lingerAfterStreamsFinish: bool
    var timeSinceLastSegmentReceived: nat
    var isActive: bool

    ghost const repr: set<object> := {
      this, sender, sender.stream, sender.timer, receiver, receiver.reassembler, receiver.reassembler.output}

    ghost predicate Valid()
      reads repr
    {
      && receiver.Valid() && sender.Valid()
      && sender.stream != receiver.reassembler.output
    }

    ghost function Model(): Connection
      reads repr
    {
      Connection(rtTimeout, receiver.Model(), sender.Model(), segmentsOut,
                 lingerAfterStreamsFinish, timeSinceLastSegmentReceived, isActive)
    }

    constructor (rtTimeout: nat, recvCapacity: nat, sendCapacity: nat, isn: U32)
      ensures Valid() && fresh(repr)
      ensures Model() == NewConnection(rtTimeout, recvCapacity, sendCapacity, isn)
    {
      this.rtTimeout := rtTimeout;
      receiver := new TcpReceiver(recvCapacity);
      sender := new TcpSender(sendCapacity, rtTimeout, isn);
      segmentsOut, lingerAfterStreamsFinish, timeSinceLastSegmentReceived, isActive := [], true, 0, true;
    }

    method SegmentReceived(seg: Segment)
      requires Valid()
      modifies repr
      ensures Valid() && Model() == Connecting.SegmentReceived(old(Model()), seg)
    {
      hide Receiving.SegmentReceived, AckReceived, Sending.FillWindow, Reassembler.Inv, StampAll, Total;
      hide Respond;
      if !Active() {
        return;
      }
      timeSinceLastSegmentReceived := 0;
      var header := seg.header;
      if header.rst {
        SetShutdown(false);
        return;
      }
      receiver.SegmentReceived(seg);
      if header.ack {
        sender.AckReceived(header.ackno, header.win);
      }
      if header.syn && sender.nextSeqno == 0 {
        Connect();
        return;
      }
      RespondTo(seg);
    }

    // The rest of segment_received once the receiver and the sender have seen the segment.
    method RespondTo(seg: Segment)
      requires Valid()
      modifies repr
      ensures Valid() && Model() == Respond(old(Model()), seg)
    {
      hide SenderSummary, ReceiverSummary, Answer, Reassembler.Inv, StampAll, Total;
      var receiverState, senderState := ReceiverStateSummary(), SenderStateSummary();
      if receiverState == FinRecv && senderState == SynAcked {
        lingerAfterStreamsFinish := false;
      }
      QueueAnswer(seg);
      SegmentAssembleSend();
    }

    // The keep-alive and the acknowledgement that segment_received queues at the sender.
    method QueueAnswer(seg: Segment)
      requires Valid()
      modifies sender, sender.stream, sender.timer
      ensures Valid() && Model() == old(Model()).(sender := Answer(old(receiver.Model()), old(sender.Model()), seg))
    {
      hide Sending.FillWindow, Reassembler.Inv, Total;
      if receiver.Ackno().Some? && seg.Length() == 0
         && seg.header.seqno == (receiver.Ackno().value + TWO32 - 1) % TWO32 {
        sender.SendEmptySegment();
      }
      if seg.Length() > 0 && sender.segmentsOut == [] {
        sender.FillWindow();
        if sender.segmentsOut == [] {
          sender.SendEmptySegment();
        }
      }
    }

    method Write(data: seq<Byte>) returns (len: nat)
      requires Valid()
      modifies repr
      ensures Valid() && (Model(), len) == Connecting.Write(old(Model()), data)
      ensures len == if old(sender.stream.inputEnd) then 0
                     else Min(|data|, sender.stream.capacity - |old(sender.stream.buffer)|)
      ensures sender.stream.history == old(sender.stream.history) + data[..len]
    {
      hide Sending.FillWindow, Reassembler.Inv, StampAll, Total;
      len := sender.stream.Write(data);
      sender.FillWindow();
      SegmentAssembleSend();
    }

    method Tick(ms: nat)
      requires Valid()
      modifies repr
      ensures Valid() && Model() == TickConnection(old(Model()), ms)
    {
      hide Sending.Tick, Reassembler.Inv, StampAll, Total, Finished, GiveUp;
      sender.Tick(ms);
      timeSinceLastSegmentReceived := timeSinceLastSegmentReceived + ms;
      if MAX_RETX_ATTEMPTS < sender.consecutiveRetransmissions {
        ResetPeer();
        return;
      }
      SegmentAssembleSend();
      CloseIfFinished();
    }

    // The branch of tick for too many retransmissions.
    method ResetPeer()
      requires Valid()
      modifies repr
      ensures Valid() && Model() == GiveUp(old(Model()))
    {
      hide Reassembler.Inv, StampAll, Total;
      ClearSender();
      SetShutdown(false);
      SendRstSegment();
    }

    // The end of tick.
    method CloseIfFinished()
      requires Valid()
      modifies repr
      ensures Valid()
      ensures Model() == if Finished(old(Model())) then Connecting.SetShutdown(old(Model()), true) else old(Model())
    {
      hide SenderSummary, ReceiverSummary, Reassembler.Inv, Total;
      var receiverState, senderState := ReceiverStateSummary(), SenderStateSummary();
      if receiverState == FinRecv && senderState == FinAcked {
        if lingerAfterStreamsFinish {
          if timeSinceLastSegmentReceived >= 10 * rtTimeout {
            SetShutdown(true);
          }
        } else {
          SetShutdown(true);
        }
      }
    }

    // The loop of tick that empties the sender's outgoing queue.
    method ClearSender()
      requires Valid()
      modifies sender`segmentsOut
      ensures Valid() && sender.Model() == old(sender.Model()).(out := [])
      ensures receiver.Model() == old(receiver.Model())
    {
      while sender.segmentsOut != []
        invariant Valid() && sender.Model() == old(sender.Model()).(out := sender.segmentsOut)
        decreases |sender.segmentsOut|
      {
        sender.segmentsOut := sender.segmentsOut[1..];
      }
    }

    method EndInputStream()
      requires Valid()
      modifies repr
      ensures Valid() && Model() == Connecting.EndInputStream(old(Model()))
    {
      hide Sending.FillWindow, Reassembler.Inv, StampAll, Total;
      sender.stream.EndInput();
      sender.FillWindow();
      SegmentAssembleSend();
    }

    method Connect()
      requires Valid()
      modifies repr
      ensures Valid() && Model() == Connecting.Connect(old(Model()))
    {
      hide Sending.FillWindow, Reassembler.Inv, StampAll, Total;
      sender.FillWindow();
      SegmentAssembleSend();
    }

    // The destructor.
    method Destroy()
      requires Valid()
      modifies repr
      ensures Valid() && Model() == Connecting.Destroy(old(Model()))
    {
      hide Reassembler.Inv, StampAll, Total;
      if Active() {
        SetShutdown(false);
        SendRstSegment();
      }
    }

    method SegmentAssembleSend()
      requires Valid()
      modifies this`segmentsOut, sender`segmentsOut
      ensures Valid() && Model() == AssembleSend(old(Model()))
    {
      hide Reassembler.Inv, Total, Stamp;
      ghost var goal := segmentsOut + StampAll(receiver.Model(), sender.segmentsOut);
      while sender.segmentsOut != []
        invariant Valid() && receiver.Model() == old(receiver.Model())
        invariant sender.Model() == old(sender.Model()).(out := sender.segmentsOut)
        invariant segmentsOut + StampAll(receiver.Model(), sender.segmentsOut) == goal
        decreases |sender.segmentsOut|
      {
        var segment := sender.segmentsOut[0];
        sender.segmentsOut := sender.segmentsOut[1..];
        segment := AddReceiverPart(segment);
        assert segmentsOut + ([segment] + StampAll(receiver.Model(), sender.segmentsOut))
            == segmentsOut + [segment] + StampAll(receiver.Model(), sender.segmentsOut);
        segmentsOut := segmentsOut + [segment];
      }
    }

    // The receiver's part of an outgoing segment.
    method AddReceiverPart(segment: Segment) returns (stamped: Segment)
      requires Valid()
      ensures stamped == Stamp(receiver.Model(), segment)
    {
      var header := segment.header;
      if receiver.Ackno().Some? {
        header := header.(ack := true, ackno := receiver.Ackno().value);
      }
      header := header.(win := Min(0xffff, receiver.WindowSize()));
      stamped := segment.(header := header);
    }

    method SetShutdown(isClean: bool)
      requires Valid()
      modifies this`isActive, sender.stream, receiver.reassembler.output
      ensures Valid() && Model() == Connecting.SetShutdown(old(Model()), isClean)
    {
      isActive := false;
      if !isClean {
        sender.stream.SetError();
        receiver.reassembler.output.SetError();
      }
    }

    method SendRstSegment()
      requires Valid()
      modifies this`segmentsOut, sender
      ensures Valid() && Model() == SendRst(old(Model()))
    {
      hide Reassembler.Inv, StampAll, Total;
      sender.SendFlaggedSegment(false, false, true);
      SegmentAssembleSend();
    }

    predicate Active()
      reads this
    {
      isActive
    }

    function ReceiverStateSummary(): (state: ReceiverState)
      requires Valid()
      reads repr
      ensures state == ReceiverSummary(Model().receiver)
    {
      if receiver.reassembler.output.Error() then ReceiverError
      else if receiver.Ackno().None? then Listen
      else if receiver.reassembler.output.InputEnded() then FinRecv
      else SynRecv
    }

    function SenderStateSummary(): (state: SenderState)
      requires Valid()
      reads repr
      ensures state == SenderSummary(Model().sender)
    {
      if sender.stream.Error() then SenderError
      else if sender.nextSeqno == 0 then Closed
      else if sender.nextSeqno == sender.bytesInFlight then SynSent
      else if !sender.stream.Eof() then SynAcked
      else if sender.nextSeqno < sender.stream.BytesWritten() + 2 then SynAcked
      else if sender.bytesInFlight > 0 then FinSent
      else FinAcked
    }
  }
}
