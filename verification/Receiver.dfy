/** The receiving half of an endpoint (libsponge/tcp_receiver.cc) as functions over values, and what it guarantees. */
module Receiving {
  import opened Types
  import opened Reassembly
  import opened ReassemblyProofs
  import opened ReassemblyRuns
  import opened Segments
  import opened WrappingIntegers
  import opened SendingProofs

  datatype Receiver = Receiver(reasm: Reassembler, synSet: bool, finSet: bool, isn: U32)
  {
    /** The absolute sequence number up to which everything has arrived; 0 before SYN. */
    function AckAbs(): nat {
      if synSet then reasm.Next() + 1 + Bit(reasm.out.ended) else 0
    }

    function Ackno(): Option<U32> {
      if synSet then Some(Wrap(AckAbs(), isn)) else None
    }

    function WindowSize(): int {
      reasm.out.capacity - reasm.out.Buffered()
    }
  }

  function NewReceiver(capacity: nat): Receiver {
    Receiver(NewReassembler(capacity), false, false, 0)
  }

  /** From absolute sequence number to stream index, in 64-bit unsigned arithmetic: SYN takes no index. */
  function StreamIndex(abs: nat, syn: bool): nat {
    if syn then abs else (abs + TWO64 - 1) % TWO64
  }

  function SegmentReceived(r: Receiver, g: Segment): Receiver
    requires r.reasm.Inv()
  {
    if !r.synSet && !g.header.syn then r
    else
      var r := if r.synSet then r else r.(synSet := true, isn := g.header.seqno);
      var abs := Unwrap(g.header.seqno, r.isn, r.reasm.Next() + 1);
      r.(reasm := Push(r.reasm, g.payload, StreamIndex(abs, g.header.syn), g.header.fin),
         finSet := r.finSet || g.header.fin)
  }

  // ---------------------------------------------------------------------

  /** r receives the stream `sent` of a peer whose first number is isn and whose FIN has left if `fin`. */
  ghost predicate Receives(r: Receiver, isn: U32, sent: seq<Byte>, fin: bool) {
    && r.reasm.Inv()
    && Follows(r.reasm, sent, fin)
    && (r.synSet ==> r.isn == isn)
    && (!r.synSet ==> r.reasm.Next() == 0 && r.reasm.blocks == [] && r.reasm.eof == SIZE_MAX)
  }

  /** The number q unwraps exactly against the receiver's checkpoint. */
  predicate Close(q: nat, checkpoint: nat) {
    checkpoint < q + TWO31 && q <= checkpoint + TWO31
  }

  /** A genuine segment is pushed at its own index. */
  lemma SegmentPlaced(r: Receiver, g: Segment, q: nat, isn: U32, sent: seq<Byte>, fin: bool)
    requires Receives(r, isn, sent, fin) && TileAt(g, q, isn, sent, fin) && |sent| < STREAM_LIMIT
    requires r.synSet ==> Close(q, r.reasm.Next() + 1)
    requires r.synSet || g.header.syn
    ensures var r' := SegmentReceived(r, g);
            && r'.synSet && r'.isn == isn && r'.finSet == (r.finSet || g.header.fin)
            && r'.reasm == Push(r.reasm, g.payload, DataIndex(q), g.header.fin)
  {
    hide Push, Agree, Unwrap, Reassembler.Inv;
    if r.synSet {
      UnwrapWrap(q, isn, r.reasm.Next() + 1);
    } else {
      assert q == 0;
      UnwrapWrap(0, isn, 1);
      assert Wrap(0, isn) == isn;
    }
  }

  /** A segment without payload, SYN or FIN leaves the receiver as it is. */
  lemma BareIgnored(r: Receiver, g: Segment, isn: U32, sent: seq<Byte>, fin: bool)
    requires Receives(r, isn, sent, fin) && g.Length() == 0
    ensures SegmentReceived(r, g) == r
  {
    hide Push, Unwrap;
    if r.synSet {
      PushNothing(r.reasm, StreamIndex(Unwrap(g.header.seqno, r.isn, r.reasm.Next() + 1), false));
    }
  }

  /** Genuine segments, in any order and number, keep the receiver an assembly of what the peer sent. */
  lemma SegmentReceives(r: Receiver, g: Segment, q: nat, isn: U32, sent: seq<Byte>, fin: bool)
    requires Receives(r, isn, sent, fin) && TileAt(g, q, isn, sent, fin) && |sent| < STREAM_LIMIT
    requires r.synSet ==> Close(q, r.reasm.Next() + 1)
    ensures var r' := SegmentReceived(r, g);
            && Receives(r', isn, sent, fin)
            && r.AckAbs() <= r'.AckAbs() && r.reasm.Next() <= r'.reasm.Next()
            && r'.reasm.out.popped == r.reasm.out.popped && r'.reasm.out.capacity == r.reasm.out.capacity
            && r'.reasm.out.error == r.reasm.out.error
            && (r.reasm.out.ended ==> r'.reasm.out.ended)
            && (r.synSet ==> r'.synSet)
            && (!r.synSet && !g.header.syn ==> r' == r)
            && ((r'.synSet && g.header.fin) || r.reasm.eof != SIZE_MAX ==> r'.reasm.eof == |sent|)
            && (r'.reasm.eof != SIZE_MAX && r.reasm.eof == SIZE_MAX ==> g.header.fin)
  {
    hide Push, Unwrap, StreamIndex, Follows;
    if r.synSet || g.header.syn {
      SegmentPlaced(r, g, q, isn, sent, fin);
      PushFollows(r.reasm, g.payload, DataIndex(q), g.header.fin, sent, fin);
      PushInv(r.reasm, g.payload, DataIndex(q), g.header.fin);
      CapacityKept(r.reasm, g.payload, DataIndex(q), g.header.fin);
      EofFrom(r.reasm, g.payload, DataIndex(q), g.header.fin);
    }
  }

  // The end mark moves only with a FIN.
  lemma EofFrom(r: Reassembler, data: seq<Byte>, index: nat, eof: bool)
    requires r.Inv()
    ensures !eof ==> Push(r, data, index, eof).eof == r.eof
    ensures r.out.ended ==> Push(r, data, index, eof).out.ended
  {
    hide Store, Append;
    var r1 := r.(eof := EofAfter(r, data, index, eof));
    if r1.Next() >= r1.eof || index + |data| < r1.Next() || r1.out.Edge() < index {
    } else if index > r1.Next() {
      StoreInv(r1, data, index);
    } else {
      AppendInv(r1, data, index);
    }
  }

  /** The peer sent more, or its FIN: nothing the receiver holds is contradicted. */
  lemma ReceivesMore(r: Receiver, isn: U32, sent: seq<Byte>, fin: bool, sent': seq<Byte>, fin': bool)
    requires Receives(r, isn, sent, fin) && sent <= sent' && |sent'| < STREAM_LIMIT && (fin ==> fin' && sent == sent')
    ensures Receives(r, isn, sent', fin')
  {
    AgreeLonger(r.reasm.blocks, sent, sent');
  }

  /** The receiver never acknowledges more than has been sent, and ends only with the peer's FIN. */
  lemma AckBounded(r: Receiver, isn: U32, sent: seq<Byte>, fin: bool)
    requires Receives(r, isn, sent, fin)
    ensures r.AckAbs() <= |sent| + 1 + Bit(fin)
    ensures r.reasm.out.ended ==> fin && r.reasm.out.history == sent
  {
    hide Reassembler.Inv, Agree;
  }
}
