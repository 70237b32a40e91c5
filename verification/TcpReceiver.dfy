/** The receiver as the program runs it: an object updated in place (libsponge/tcp_receiver.cc). */
module TcpReceivers {
  import opened Types
  import opened Reassembly
  import opened StreamReassemblers
  import opened Segments
  import opened WrappingIntegers
  import opened Receiving

  class TcpReceiver {
    const reassembler: StreamReassembler
    const capacity: nat
    var setSyn: bool
    var setFin: bool
    var isn: U32

    ghost predicate Valid()
      reads this, reassembler, reassembler.output
    {
      reassembler.Valid() && capacity == reassembler.capacity
    }

    ghost function Model(): Receiver
      reads this, reassembler, reassembler.output
    {
      Receiver(reassembler.Model(), setSyn, setFin, isn)
    }

    constructor (capacity: nat)
      ensures Valid() && fresh(reassembler) && fresh(reassembler.output)
      ensures Model() == NewReceiver(capacity)
    {
      reassembler := new StreamReassembler(capacity);
      this.capacity := capacity;
      setSyn, setFin, isn := false, false, 0;
    }

    method SegmentReceived(seg: Segment)
      requires Valid()
      modifies this, reassembler, reassembler.output
      ensures Valid() && Model() == Receiving.SegmentReceived(old(Model()), seg)
    {
      hide Push, Unwrap, Reassembler.Inv;
      var syn, fin := seg.header.syn, seg.header.fin;
      if !setSyn {
        if !syn {
          return;
        }
        setSyn := true;
        isn := seg.header.seqno;
      }
      var checkpoint := reassembler.output.BytesWritten() + 1;
      var absSeqno := Unwrap(seg.header.seqno, isn, checkpoint);
      var streamIndex := StreamIndex(absSeqno, syn);
      reassembler.PushSubstring(seg.payload, streamIndex, fin);
      if fin {
        setFin := true;
      }
    }

    function Ackno(): (ackno: Option<U32>)
      requires Valid()
      reads this, reassembler, reassembler.output
      ensures ackno == Model().Ackno()
      ensures ackno == if !setSyn then None
                       else Some(Wrap(reassembler.output.writtenSize
                                      + if reassembler.output.inputEnd then 2 else 1, isn))
    {
      if !setSyn then None
      else
        var unassembledIndex := reassembler.output.BytesWritten() + 1;
        if reassembler.output.InputEnded() then Some(Wrap(unassembledIndex + 1, isn))
        else Some(Wrap(unassembledIndex, isn))
    }

    function WindowSize(): (size: nat)
      requires Valid()
      reads this, reassembler, reassembler.output
      ensures size == Model().WindowSize() == capacity - |reassembler.output.buffer|
    {
      capacity - reassembler.output.BufferSize()
    }
  }
}
