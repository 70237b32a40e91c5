/**
 The sender and its timer as the program runs them: objects updated in place
 (libsponge/tcp_sender.cc, libsponge/tcp_sender.hh).
 */
module TcpSenders {
  import opened Types
  import opened ByteStreams
  import opened Segments
  import opened WrappingIntegers
  import opened Sending
  import opened SendingProofs

  class RetransmissionTimer {
    const initRto: nat
    var curRto: nat
    var elapsedTime: nat
    var running: bool

    ghost function Model(): Timer
      reads this
    {
      Timer(initRto, curRto, elapsedTime, running)
    }

    constructor (rto: nat)
      ensures Model() == Timer(rto, rto, 0, false)
    {
      initRto, curRto, elapsedTime, running := rto, rto, 0, false;
    }

    method Start()
      modifies this
      ensures Model() == old(Model()).Start()
    {
      elapsedTime, running := 0, true;
    }

    method Stop()
      modifies this
      ensures Model() == old(Model()).Stop()
    {
      running := false;
    }

    method Reset()
      modifies this
      ensures Model() == old(Model()).Reset()
    {
      curRto := initRto;
    }

    method ResetDouble()
      modifies this
      ensures Model() == old(Model()).ResetDouble()
    {
      curRto := curRto * 2;
    }

    method Tick(ms: nat)
      modifies this
      ensures Model() == old(Model()).Tick(ms)
    {
      if CheckRunning() {
        elapsedTime := elapsedTime + ms;
      }
    }

    predicate CheckExpired()
      reads this
      ensures CheckExpired() == Model().Expired()
    {
      running && elapsedTime >= curRto
    }

    predicate CheckRunning()
      reads this
    {
      running
    }
  }

  class TcpSender {
    const isn: U32
    const stream: ByteStream
    const timer: RetransmissionTimer
    var segmentsOut: seq<Segment>
    var nextSeqno: nat
    var recvAckno: nat
    var setSyn: bool
    var setFin: bool
    var consecutiveRetransmissions: nat
    var windowSize: U16
    var bytesInFlight: nat
    var segmentsUnackno: seq<Segment>

    ghost predicate Valid()
      reads this, stream
    {
      stream.Valid() && bytesInFlight == Total(segmentsUnackno)
    }

    ghost function Model(): Sender
      reads this, stream, timer
    {
      Sender(isn, segmentsOut, stream.Model(), nextSeqno, recvAckno, setSyn, setFin,
             timer.Model(), consecutiveRetransmissions, windowSize, bytesInFlight, segmentsUnackno)
    }

    constructor (capacity: nat, rto: nat, isn: U32)
      ensures Valid() && fresh(stream) && fresh(timer)
      ensures Model() == NewSender(capacity, rto, isn)
    {
      this.isn := isn;
      stream := new ByteStream(capacity);
      timer := new RetransmissionTimer(rto);
      segmentsOut, nextSeqno, recvAckno, setSyn, setFin := [], 0, 0, false, false;
      consecutiveRetransmissions, windowSize, bytesInFlight, segmentsUnackno := 0, 1, 0, [];
    }

    function NextSeqno(): U32
      reads this
    {
      Wrap(nextSeqno, isn)
    }

    method FillWindow()
      requires Valid()
      modifies this, stream, timer
      ensures Valid() && Model() == Sending.FillWindow(old(Model()))
    {
      if windowSize == 0 {
        while true
          invariant Valid() && windowSize == 0
          invariant Sending.FillWindow(Model()) == Sending.FillWindow(old(Model()))
          decreases if bytesInFlight == 0 then 1 else 0
        {
          if bytesInFlight != 0 {
            return;
          }
          var more := PushSegment(1);
          if !more {
            return;
          }
        }
      } else {
        while true
          invariant Valid() && windowSize > 0
          invariant FillOpenWindow(Model()) == Sending.FillWindow(old(Model()))
          decreases windowSize - bytesInFlight
        {
          var fillWindowSize: nat := 0;
          if windowSize > bytesInFlight {
            fillWindowSize := windowSize - bytesInFlight;
          }
          var more := PushSegment(fillWindowSize);
          if !more {
            return;
          }
        }
      }
    }

    method PushSegment(length: nat) returns (sent: bool)
      requires Valid()
      modifies this, stream, timer
      ensures Valid()
      ensures (Model(), sent) == Sending.PushSegment(old(Model()), length)
    {
      hide NextSegment, Total;
      ghost var before := Model();
      var syn := false;
      if !setSyn {
        syn := true;
        setSyn := true;
      }
      if length < Bit(syn) {
        return false;
      }
      assert Model().(synSet := !syn) == before;
      var segment := AssembleSegment(syn, length);
      var segmentLength := segment.Length();
      if segmentLength <= 0 {
        return false;
      }
      Enqueue(segment);
      return true;
    }

    // The part of push_segment that sends the segment and keeps it as outstanding.
    method Enqueue(segment: Segment)
      requires Valid()
      modifies this`segmentsOut, this`segmentsUnackno, this`nextSeqno, this`bytesInFlight, timer
      ensures Valid()
      ensures Model() == var s := old(Model());
                         s.(out := s.out + [segment], unack := s.unack + [segment],
                            timer := if s.timer.running then s.timer else s.timer.Start(),
                            next := s.next + segment.Length(), inFlight := s.inFlight + segment.Length())
    {
      segmentsOut := segmentsOut + [segment];
      if !timer.CheckRunning() {
        timer.Start();
      }
      TotalAppend(segmentsUnackno, segment);
      segmentsUnackno := segmentsUnackno + [segment];
      nextSeqno := nextSeqno + segment.Length();
      bytesInFlight := bytesInFlight + segment.Length();
    }

    // The part of push_segment that takes the payload from the stream and decides on FIN.
    method AssembleSegment(syn: bool, length: nat) returns (segment: Segment)
      requires Valid() && Bit(syn) <= length
      modifies this`setFin, stream
      ensures Valid()
      ensures segment == NextSegment(old(Model()).(synSet := !syn), length)
      ensures setFin == (old(setFin) || segment.header.fin)
      ensures stream.Model() == old(stream.Model()).Pop(|segment.payload|)
    {
      var payloadSize := Min(MAX_PAYLOAD_SIZE, Min(length - Bit(syn), stream.BufferSize()));
      var payload := stream.Read(payloadSize);
      segment := Segment(BLANK.(syn := syn), payload);
      if !setFin && stream.Eof() && segment.Length() < length {
        segment := segment.(header := segment.header.(fin := true));
        setFin := true;
      }
      segment := segment.(header := segment.header.(seqno := NextSeqno()));
    }

    method AckReceived(ackno: U32, window: U16)
      requires Valid()
      modifies this, stream, timer
      ensures Valid() && Model() == Sending.AckReceived(old(Model()), ackno, window)
    {
      var absAckno := Unwrap(ackno, isn, recvAckno);
      if absAckno > nextSeqno || absAckno < recvAckno {
        return;
      }
      recvAckno := absAckno;
      var ackUpdate := PopAcknowledged();
      if ackUpdate {
        consecutiveRetransmissions := 0;
        timer.Reset();
        timer.Start();
      }
      if segmentsUnackno == [] {
        timer.Stop();
      }
      windowSize := window;
      FillWindow();
    }

    // The loop of ack_received over the outstanding segments.
    method PopAcknowledged() returns (updated: bool)
      requires Valid()
      modifies this`segmentsUnackno, this`bytesInFlight
      ensures Valid() && Model() == PopAcked(old(Model()))
      ensures updated == (|segmentsUnackno| < |old(segmentsUnackno)|)
    {
      updated := false;
      while segmentsUnackno != []
        invariant Valid() && PopAcked(Model()) == PopAcked(old(Model()))
        invariant |segmentsUnackno| <= |old(segmentsUnackno)|
        invariant updated == (|segmentsUnackno| < |old(segmentsUnackno)|)
        decreases |segmentsUnackno|
      {
        var segment := segmentsUnackno[0];
        var segmentSeqno := Unwrap(segment.header.seqno, isn, nextSeqno);
        var segmentLength := segment.Length();
        if segmentSeqno + segmentLength <= recvAckno {
          updated := true;
          segmentsUnackno := segmentsUnackno[1..];
          bytesInFlight := bytesInFlight - segmentLength;
        } else {
          break;
        }
      }
    }

    method Tick(ms: nat)
      requires Valid()
      modifies this, timer
      ensures Valid() && Model() == Sending.Tick(old(Model()), ms)
    {
      if timer.CheckRunning() {
        timer.Tick(ms);
      }
      if timer.CheckExpired() && segmentsUnackno != [] {
        segmentsOut := segmentsOut + [segmentsUnackno[0]];
        if windowSize > 0 {
          consecutiveRetransmissions := consecutiveRetransmissions + 1;
          timer.ResetDouble();
        }
        timer.Start();
      }
    }

    method SendEmptySegment()
      requires Valid()
      modifies this`segmentsOut
      ensures Valid() && Model() == SendEmpty(old(Model()), false)
    {
      var segment := Segment(BLANK.(seqno := NextSeqno()), []);
      segmentsOut := segmentsOut + [segment];
    }

    method SendFlaggedSegment(syn: bool, fin: bool, rst: bool)
      requires Valid()
      modifies this`segmentsOut, this`setSyn, this`setFin, this`nextSeqno
      ensures Valid() && Model() == SendFlagged(old(Model()), syn, fin, rst)
      ensures !syn && !fin ==> Model() == SendEmpty(old(Model()), rst)
    {
      var segment := Segment(BLANK.(seqno := NextSeqno()), []);
      if syn {
        setSyn := true;
      }
      if fin {
        setFin := true;
      }
      segment := segment.(header := segment.header.(syn := syn, fin := fin, rst := rst));
      nextSeqno := nextSeqno + segment.Length();
      segmentsOut := segmentsOut + [segment];
    }
  }
}
