/**
 Nothing is ever beyond repair: from every reachable state with both ends active,
 deliveries of packets already in the network, and reads, suffice to bring across
 everything that has been written.
 */
module Completing {
  import opened Types
  import opened Reassembly
  import opened ReassemblyProofs
  import opened Segments
  import opened WrappingIntegers
  import opened Sending
  import opened SendingProofs
  import opened Receiving
  import opened Connecting
  import opened Endpoints
  import opened Systems
  import opened Flows
  import opened Progressing

  ghost function Last(run: seq<System>): System
    requires |run| > 0
  {
    run[|run| - 1]
  }

  /**
   Both ends are active, a has opened, b has a buffer, and the streams are short enough for any
   packet to be timely.
   */
  ghost predicate Workable(s: System) {
    && s.a.active && s.b.active && s.a.sender.synSet
    && |s.a.sender.stream.history| < TWO31 - 2 && |s.b.sender.stream.history| < TWO31 - 2
    && s.b.receiver.reasm.out.capacity > 0
  }

  /** Neither application has written or ended anything, and the buffers are as large as before. */
  ghost predicate SameWritten(s: System, s': System) {
    && s'.a.receiver.reasm.out.capacity == s.a.receiver.reasm.out.capacity
    && s'.b.receiver.reasm.out.capacity == s.b.receiver.reasm.out.capacity
    && s'.a.sender.stream.history == s.a.sender.stream.history && s'.a.sender.stream.ended == s.a.sender.stream.ended
    && s'.b.sender.stream.history == s.b.sender.stream.history && s'.b.sender.stream.ended == s.b.sender.stream.ended
  }

  lemma Nonempty(run: seq<System>, ca: Config, cb: Config)
    requires Behaviour(run, ca, cb)
    ensures |run| > 0
  {
  }

  lemma Extended(run: seq<System>, ca: Config, cb: Config, s': System)
    requires Behaviour(run, ca, cb) && Next(Last(run), s')
    ensures Behaviour(run + [s'], ca, cb) && Last(run + [s']) == s'
  {
    hide Next, Start;
    var run' := run + [s'];
    forall i | 0 <= i < |run'| - 1
      ensures Next(run'[i], run'[i + 1])
    {
      if i < |run| - 1 {
        assert Next(run[i], run[i + 1]);
      }
    }
  }

  lemma NothingEmitted(c: Connection)
    requires c.out == []
    ensures Packets(c) == {}
  {
  }

  /** The application at b reads all there is. */
  lemma ReadAll(run: seq<System>, ca: Config, cb: Config) returns (s': System)
    requires Behaviour(run, ca, cb) && Workable(Last(run))
    ensures Behaviour(run + [s'], ca, cb) && Last(run + [s']) == s'
    ensures var s := Last(run);
            && s'.a == s.a && s'.ab == s.ab && s'.b.sender == s.b.sender && s'.b.active
            && s'.b.receiver.reasm.out.capacity == s.b.receiver.reasm.out.capacity && !Full(s'.b.receiver)
  {
    hide Behaviour, Direction, Handle, Moves;
    assert |run| > 0 by { Nonempty(run, ca, cb); }
    var s := Last(run);
    RunSafe(run, ca, cb, |run| - 1);
    var y := s.b.receiver.reasm.out;
    assert y.Valid() by { SettledParts(s.b); InvValid(s.b.receiver.reasm); }
    var e := Consume(y.Buffered());
    ConsumeMoves(s.b, y.Buffered());
    HandleConsume(s.b, y.Buffered());
    NothingEmitted(Handle(s.b, e));
    s' := StepA(s.Swap(), e).Swap();
    assert Enabled(s.Swap(), e);
    assert Next(s, s');
    Extended(run, ca, cb, s');
  }

  lemma HandleConsume(c: Connection, len: nat)
    requires c.Sane()
    ensures Handle(c, Consume(len)) == ReadInbound(c, len)
  {
  }

  // What delivering a segment that is no reset does not change.
  lemma DeliveryKeeps(c: Connection, p: Packet)
    requires Settled(c) && c.out == [] && c.active && !p.seg.header.rst
    ensures c.Sane()
    ensures var c' := Handle(c, Deliver(p));
            && c'.active && (c.sender.synSet ==> c'.sender.synSet)
            && c'.sender.stream.history == c.sender.stream.history && c'.sender.stream.ended == c.sender.stream.ended
            && c'.receiver.reasm.out.capacity == c.receiver.reasm.out.capacity
  {
    hide Ledger, Saturated, Acknowledged, Reassembler.Inv, Receiving.SegmentReceived, Emits, NewAbove, Sends, Handle;
    DeliverMoves(c, p.seg);
    HandleDeliver(c, p);
    CapacitySame(c.receiver, p.seg);
  }

  /** Delivering p at b keeps the system workable and a as it was. */
  lemma DeliverAtB(run: seq<System>, ca: Config, cb: Config, p: Packet)
    requires Behaviour(run, ca, cb) && Workable(Last(run)) && p in Last(run).ab && Timely(Last(run).b, p)
    requires !p.seg.header.rst
    ensures Last(run).b.Sane()
    ensures var s' := DeliverB(Last(run), p);
            && Behaviour(run + [s'], ca, cb) && Workable(s') && SameWritten(Last(run), s') && s'.a == Last(run).a
  {
    hide Behaviour, Flow, Direction, Handle, Timely, Settled, Enabled;
    assert |run| > 0 by { Nonempty(run, ca, cb); }
    var s := Last(run);
    RunFlowing(run, ca, cb, |run| - 1);
    SwapEnabled(s, p);
    DeliveryKeeps(s.b, p);
    var s' := DeliverB(s, p);
    assert Next(s, s') by { NextAtB(s, Deliver(p)); }
    Extended(run, ca, cb, s');
  }

  lemma NextAtB(s: System, e: Event)
    requires Enabled(s.Swap(), e)
    ensures s.b.Sane() && Next(s, StepA(s.Swap(), e).Swap())
  {
    hide StepA;
  }

  lemma CapacitySame(r: Receiver, g: Segment)
    requires r.reasm.Inv()
    ensures Receiving.SegmentReceived(r, g).reasm.out.capacity == r.reasm.out.capacity
  {
    hide Push, Reassembler.Inv, Unwrap;
    if r.synSet || g.header.syn {
      var r1 := if r.synSet then r else r.(synSet := true, isn := g.header.seqno);
      var abs := Unwrap(g.header.seqno, r1.isn, r.reasm.Next() + 1);
      CapacityKept(r.reasm, g.payload, StreamIndex(abs, g.header.syn), g.header.fin);
    }
  }

  /** Delivering a non-reset packet at a keeps the system workable. */
  lemma DeliverAtA(run: seq<System>, ca: Config, cb: Config, r: Packet)
    requires Behaviour(run, ca, cb) && Workable(Last(run)) && Enabled(Last(run), Deliver(r)) && !r.seg.header.rst
    ensures var s' := StepA(Last(run), Deliver(r));
            Behaviour(run + [s'], ca, cb) && Workable(s') && SameWritten(Last(run), s')
  {
    hide Behaviour, Direction, Handle, Settled, Timely;
    assert |run| > 0 by { Nonempty(run, ca, cb); }
    var s := Last(run);
    RunSafe(run, ca, cb, |run| - 1);
    DeliveryKeeps(s.a, r);
    var s' := StepA(s, Deliver(r));
    assert Next(s, s');
    Extended(run, ca, cb, s');
  }

  // ---------------------------------------------------------------------
  // Trips

  /** Packet p is delivered at b at step i, and its answer r at a at step j. */
  datatype Trip = Trip(i: nat, p: Packet, j: nat, r: Packet)

  /** The run contains the trip of a copy of a's oldest outstanding segment, other than a probe that b cannot take. */
  ghost predicate Happens(run: seq<System>, t: Trip) {
    && t.i < t.j && t.j + 1 < |run|
    && var s, u := run[t.i], run[t.j];
    && s.b.active && s.b.Sane() && s.a.sender.unack != []
    && t.p in s.ab && CopyOf(t.p, s.a.sender.unack[0], s.a.sender) && Timely(s.b, t.p)
    && !(Full(s.b.receiver) && |t.p.seg.payload| == 1 && Lo(t.p) == s.b.receiver.reasm.Next())
    && run[t.i + 1] == DeliverB(s, t.p)
    && t.r in AnswersB(s, t.p)
    && u.a.active && Enabled(u, Deliver(t.r)) && run[t.j + 1] == StepA(u, Deliver(t.r))
  }

  /** What a sender has written, sent and seen acknowledged does not shrink. */
  predicate NoLess(x: Sender, x': Sender) {
    && x.recvAck <= x'.recvAck && (x.synSet ==> x'.synSet)
    && |x.stream.history| <= |x'.stream.history| && (x.stream.ended ==> x'.stream.ended)
  }

  lemma NextNoLess(s: System, s': System)
    requires Safe(s) && Next(s, s')
    ensures NoLess(s.a.sender, s'.a.sender)
  {
    hide Settled, Direction, Handle, NewAbove, Emits, Sends;
    if e :| Enabled(s, e) && s' == StepA(s, e) {
      HandleMoves(s.a, e);
    }
  }

  lemma {:induction false} NeverBack(run: seq<System>, ca: Config, cb: Config, i: nat, j: nat)
    requires Behaviour(run, ca, cb) && i <= j < |run|
    ensures NoLess(run[i].a.sender, run[j].a.sender)
  {
    hide Next, Initial, Safe;
    if i == j {
    } else {
      NeverBack(run, ca, cb, i, j - 1);
      RunSafe(run, ca, cb, j - 1);
      assert Next(run[j - 1], run[j - 1 + 1]);
      NextNoLess(run[j - 1], run[j]);
    }
  }

  // An acknowledgement that the peer has sent is accepted or already surpassed.
  lemma AckHeeded(s: System, r: Packet)
    requires Safe(s) && s.a.active && Enabled(s, Deliver(r)) && r.seg.header.ack && !r.seg.header.rst
    ensures r.ackAbs <= Handle(s.a, Deliver(r)).sender.recvAck
  {
    hide Settled, Handle, Moves, AckReceived, Genuine, Receives, Paced;
    var x := s.a.sender;
    assert Ledger(x) && Saturated(x) by { SettledParts(s.a); }
    assert Numbers(x) by { LedgerParts(x); }
    AckSmall(x, s.b.receiver);
    AckTrusted(x, s.b.receiver, r);
    AckReceivedLedger(x, r.seg.header.ackno, r.seg.header.win);
    DeliverMoves(s.a, r.seg);
    HandleDeliver(s.a, r);
  }

  lemma TripAdvances(run: seq<System>, ca: Config, cb: Config, t: Trip)
    requires Behaviour(run, ca, cb) && Happens(run, t)
    ensures run[t.i].a.sender.recvAck < run[t.j + 1].a.sender.recvAck
  {
    hide Behaviour, Flow, Direction, Settled, Handle, Timely, CopyOf, Packets, AnswersB, Enabled, Full;
    RunFlowing(run, ca, cb, t.i);
    FrontAnswered(run[t.i], t.p);
    RunSafe(run, ca, cb, t.j);
    AckHeeded(run[t.j], t.r);
    FrontUnacknowledged(run[t.i]);
  }

  lemma FrontUnacknowledged(s: System)
    requires Safe(s) && s.a.sender.unack != []
    ensures s.a.sender.recvAck < s.a.sender.next - s.a.sender.inFlight + s.a.sender.unack[0].Length()
  {
    hide Direction, Ledger;
    FrontUnacked(s.a.sender);
  }

  // ---------------------------------------------------------------------
  // Every run that goes on being served is complete

  /** Between these states of the run a trip is made, or at the first there is nothing to send. */
  ghost predicate Served(run: seq<System>, lo: nat, hi: nat)
    requires lo <= hi < |run|
  {
    run[lo].a.sender.unack == [] || exists t :: Happens(run, t) && lo <= t.i && t.j + 1 <= hi
  }

  /** The run is served from each of these states to the next. */
  ghost predicate Rounds(run: seq<System>, ks: seq<nat>) {
    && (forall n :: 0 <= n < |ks| ==> ks[n] < |run|)
    && (forall n :: 0 < n < |ks| ==> ks[n - 1] <= ks[n] && Served(run, ks[n - 1], ks[n]))
  }

  /** Everything to be acknowledged: SYN, what is written and FIN. */
  function Target(x: Sender): nat {
    1 + |x.stream.history| + Bit(x.stream.ended)
  }

  // One round acknowledges more, if there is more.
  lemma RoundAdvances(run: seq<System>, ca: Config, cb: Config, lo: nat, hi: nat)
    requires Behaviour(run, ca, cb) && lo <= hi < |run| && Served(run, lo, hi) && run[lo].a.sender.synSet
    ensures var x := run[lo].a.sender;
            Target(x) <= x.recvAck || x.recvAck < run[hi].a.sender.recvAck
  {
    hide Behaviour, Happens;
    if run[lo].a.sender.unack == [] {
      NothingStuck(run, ca, cb, lo);
    } else {
      var t :| Happens(run, t) && lo <= t.i && t.j + 1 <= hi;
      assert t.i < t.j by { TripIndices(run, t); }
      TripAdvances(run, ca, cb, t);
      NeverBack(run, ca, cb, lo, t.i);
      NeverBack(run, ca, cb, t.j + 1, hi);
    }
  }

  lemma TripIndices(run: seq<System>, t: Trip)
    requires Happens(run, t)
    ensures t.i < t.j && t.j + 1 < |run|
  {
  }

  lemma {:induction false} RoundsAdvance(run: seq<System>, ca: Config, cb: Config, ks: seq<nat>, n: nat)
    requires Behaviour(run, ca, cb) && Rounds(run, ks) && n < |ks| && run[ks[0]].a.sender.synSet
    requires Target(Last(run).a.sender) == Target(run[ks[0]].a.sender)
    ensures ks[0] <= ks[n] && Min(n, Target(Last(run).a.sender)) <= run[ks[n]].a.sender.recvAck
  {
    if n == 0 {
    } else {
      hide Behaviour, Served;
      RoundsAdvance(run, ca, cb, ks, n - 1);
      NeverBack(run, ca, cb, ks[0], ks[n - 1]);
      NeverBack(run, ca, cb, ks[n - 1], |run| - 1);
      NeverBack(run, ca, cb, ks[n - 1], ks[n]);
      RoundAdvances(run, ca, cb, ks[n - 1], ks[n]);
    }
  }

  /** What is acknowledged in full has been delivered in full. */
  lemma AcknowledgedMeansDelivered(run: seq<System>, ca: Config, cb: Config)
    requires Behaviour(run, ca, cb)
    requires var x := Last(run).a.sender; 1 + |x.stream.history| + Bit(x.stream.ended) <= x.recvAck
    ensures var x, y := Last(run).a.sender.stream, Last(run).b.receiver.reasm.out;
            y.history == x.history && y.ended == x.ended
  {
    hide Behaviour;
    assert |run| > 0 by { Nonempty(run, ca, cb); }
    PrefixSafety(run, ca, cb, |run| - 1);
    AckSafety(run, ca, cb, |run| - 1, Packet(Segment(BLANK, []), 0, 0));
  }

  /**
   Every run, whatever else happens in it and however segments are cut: if after a sent SYN
   nothing more is written, and from then on the run is served as many times as there are
   bytes, SYN and FIN to acknowledge, then b's application has been given all that a's has
   written, and its end if it has ended.
   */
  lemma RoundsComplete(run: seq<System>, ca: Config, cb: Config, ks: seq<nat>)
    requires Behaviour(run, ca, cb) && Rounds(run, ks)
    requires Target(Last(run).a.sender) < |ks|
    requires run[ks[0]].a.sender.synSet && Target(Last(run).a.sender) == Target(run[ks[0]].a.sender)
    ensures var x, y := Last(run).a.sender.stream, Last(run).b.receiver.reasm.out;
            y.history == x.history && y.ended == x.ended
  {
    hide Behaviour, Served;
    assert |run| > 0 by { Nonempty(run, ca, cb); }
    var n := |ks| - 1;
    RoundsAdvance(run, ca, cb, ks, n);
    NeverBack(run, ca, cb, ks[n], |run| - 1);
    AcknowledgedMeansDelivered(run, ca, cb);
  }

  // A timely copy of the oldest outstanding segment is in the network.
  lemma FrontCopy(run: seq<System>, ca: Config, cb: Config) returns (p: Packet)
    requires Behaviour(run, ca, cb) && Workable(Last(run)) && Last(run).a.sender.unack != []
    ensures var s := Last(run);
            p in s.ab && CopyOf(p, s.a.sender.unack[0], s.a.sender) && Timely(s.b, p) && !p.seg.header.rst
  {
    hide Behaviour, Direction, Timely, Settled, Tiling;
    assert |run| > 0 by { Nonempty(run, ca, cb); }
    var s := Last(run);
    RunFlowing(run, ca, cb, |run| - 1);
    assert Launched(s.a.sender.unack[0], s.a.sender, s.ab);
    p :| p in s.ab && CopyOf(p, s.a.sender.unack[0], s.a.sender);
    ShortStreamsTimely(s.Swap(), p);
    CopyPlain(s, p);
  }

  lemma CopyPlain(s: System, p: Packet)
    requires Flowing(s) && s.a.sender.unack != [] && p in s.ab && CopyOf(p, s.a.sender.unack[0], s.a.sender)
    ensures !p.seg.header.rst
  {
    hide Flow, Settled, Receives, Tiles;
    assert Ledger(s.a.sender) by { SettledParts(s.a); }
    assert Genuine(p, s.a.sender);
    FrontReached(s.a.sender, s.b.receiver, p);
  }

  lemma AnswerNoReset(run: seq<System>, ca: Config, cb: Config, p: Packet, r: Packet)
    requires Behaviour(run, ca, cb) && Workable(Last(run)) && p in Last(run).ab && !p.seg.header.rst
    requires Last(run).b.Sane() && r in AnswersB(Last(run), p)
    ensures !r.seg.header.rst
  {
    hide Behaviour, Direction, Handle, Settled, PacketOf;
    assert |run| > 0 by { Nonempty(run, ca, cb); }
    var s := Last(run);
    RunSafe(run, ca, cb, |run| - 1);
    HandleDeliver(s.b, p);
    DeliverPlain(s.b, p.seg);
    var c := Handle(s.b, Deliver(p));
    var g :| g in c.out && r == PacketOf(c, g);
    PacketSegment(c, g);
  }

  // ---------------------------------------------------------------------
  // Every run can be served for as long as it takes

  /** One read, one delivery and one answer, and more is acknowledged. */
  lemma Exchange(run: seq<System>, ca: Config, cb: Config) returns (run': seq<System>)
    requires Behaviour(run, ca, cb) && Workable(Last(run)) && Last(run).a.sender.unack != []
    ensures run <= run' && Behaviour(run', ca, cb) && Workable(Last(run')) && SameWritten(Last(run), Last(run'))
    ensures Last(run).a.sender.recvAck < Last(run').a.sender.recvAck
    ensures |run'| > 0 && Served(run', |run| - 1, |run'| - 1)
  {
    hide Behaviour, Flow, Direction, Handle, Timely, CopyOf, Settled, Packets, Safe, Full;
    assert |run| > 0 by { Nonempty(run, ca, cb); }
    var s1 := ReadAll(run, ca, cb);
    var run1 := run + [s1];
    var p := FrontCopy(run1, ca, cb);
    RoundTrip(run1, ca, cb, |run1| - 1, p);
    DeliverAtB(run1, ca, cb, p);
    var s2 := DeliverB(s1, p);
    var run2 := run1 + [s2];
    var r :| r in AnswersB(s1, p);
    AnswerNoReset(run1, ca, cb, p, r);
    DeliverAtA(run2, ca, cb, r);
    run' := run2 + [StepA(s2, Deliver(r))];
    assert Happens(run', Trip(|run|, p, |run| + 1, r));
    RunSafe(run1, ca, cb, |run1| - 1);
    FrontUnacknowledged(s1);
  }

  lemma HappensStill(run: seq<System>, run': seq<System>, t: Trip)
    requires Happens(run, t) && run <= run'
    ensures Happens(run', t)
  {
  }

  lemma ServedStill(run: seq<System>, run': seq<System>, lo: nat, hi: nat)
    requires lo <= hi < |run| && Served(run, lo, hi) && run <= run'
    ensures Served(run', lo, hi)
  {
    hide Happens;
    if run[lo].a.sender.unack != [] {
      var t :| Happens(run, t) && lo <= t.i && t.j + 1 <= hi;
      HappensStill(run, run', t);
    }
  }

  lemma ServedIdle(run: seq<System>, i: nat)
    requires i < |run| && run[i].a.sender.unack == []
    ensures Served(run, i, i)
  {
  }

  /** From such a state the run can be continued, without anyone writing more, to be served n times. */
  lemma {:induction false} CanServe(run: seq<System>, ca: Config, cb: Config, n: nat)
    returns (run': seq<System>, ks: seq<nat>)
    requires Behaviour(run, ca, cb) && Workable(Last(run))
    ensures run <= run' && Behaviour(run', ca, cb) && Workable(Last(run')) && SameWritten(Last(run), Last(run'))
    ensures Rounds(run', ks) && |ks| == n + 1 && ks[0] == |run| - 1 && ks[n] == |run'| - 1
  {
    hide Behaviour, Workable, Served;
    assert |run| > 0 by { Nonempty(run, ca, cb); }
    if n == 0 {
      run', ks := run, [|run| - 1];
    } else {
      var run1, ks1 := CanServe(run, ca, cb, n - 1);
      if Last(run1).a.sender.unack == [] {
        run' := run1;
        ServedIdle(run1, |run1| - 1);
      } else {
        run' := Exchange(run1, ca, cb);
      }
      ks := ks1 + [|run'| - 1];
      assert Served(run', |run1| - 1, |run'| - 1);
      forall k | 0 < k < |ks|
        ensures ks[k - 1] <= ks[k] && Served(run', ks[k - 1], ks[k])
      {
        if k < n { ServedStill(run1, run', ks1[k - 1], ks1[k]); }
      }
    }
  }

  /** With nothing outstanding, everything written and the end of input are acknowledged. */
  lemma AllAcknowledged(run: seq<System>, ca: Config, cb: Config)
    requires Behaviour(run, ca, cb)
    ensures var x := Last(run).a.sender; x.synSet && x.unack == [] ==> x.recvAck == Target(x)
  {
    hide Behaviour, Direction, Tiles;
    assert |run| > 0 by { Nonempty(run, ca, cb); }
    RunSafe(run, ca, cb, |run| - 1);
    NothingStuck(run, ca, cb, |run| - 1);
  }

  // Once everything is acknowledged nothing is outstanding.
  lemma TargetReached(x: Sender)
    requires Ledger(x) && Target(x) <= x.recvAck
    ensures x.unack == []
  {
    hide Tiles;
    if x.unack != [] { FrontUnacked(x); }
  }

  /**
   No deadlock: every run that has reached such a state can be continued, without
   anyone writing more, to a state in which b's application has been given all that
   a's has written, and its end if it has ended.
   */
  lemma CanComplete(run: seq<System>, ca: Config, cb: Config) returns (run': seq<System>)
    requires Behaviour(run, ca, cb) && Workable(Last(run))
    ensures run <= run' && Behaviour(run', ca, cb) && Workable(Last(run')) && SameWritten(Last(run), Last(run'))
    ensures Last(run').a.sender.unack == []
    ensures var x, y := Last(run').a.sender.stream, Last(run').b.receiver.reasm.out;
            y.history == x.history && y.ended == x.ended
  {
    hide Behaviour, Rounds, Direction, Ledger;
    assert |run| > 0 by { Nonempty(run, ca, cb); }
    var n := Target(Last(run).a.sender);
    var ks;
    run', ks := CanServe(run, ca, cb, n);
    RoundsAdvance(run', ca, cb, ks, n);
    RoundsComplete(run', ca, cb, ks);
    RunSafe(run', ca, cb, |run'| - 1);
    TargetReached(Last(run').a.sender);
  }

}
