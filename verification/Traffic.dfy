/**
 Runs with their events: what the applications wrote and read, and what each event
 put on the network.
 */
module Traffic {
  import opened Types
  import opened ByteStreams
  import opened Reassembly
  import ReassemblyProofs
  import WrappingIntegers
  import opened Segments
  import opened Sending
  import opened SendingProofs
  import opened Receiving
  import opened Connecting
  import opened Endpoints
  import opened Emitting
  import opened Systems
  import opened Completing
  import opened Closing

  /** An event and the endpoint it happens at. */
  datatype Label = Label(atA: bool, event: Event)

  function End(s: System, atA: bool): Connection {
    if atA then s.a else s.b
  }

  ghost predicate Steps(s: System, l: Label, s': System) {
    if l.atA then Enabled(s, l.event) && s' == StepA(s, l.event)
    else Enabled(s.Swap(), l.event) && s' == StepA(s.Swap(), l.event).Swap()
  }

  /** The run, with the event that each step takes. */
  ghost predicate Labelled(run: seq<System>, ls: seq<Label>, ca: Config, cb: Config) {
    && |run| == |ls| + 1
    && Initial(run[0], ca, cb)
    && forall i :: 0 <= i < |ls| ==> Steps(run[i], ls[i], run[i + 1])
  }

  lemma LabelledBehaviour(run: seq<System>, ls: seq<Label>, ca: Config, cb: Config)
    requires Labelled(run, ls, ca, cb)
    ensures Behaviour(run, ca, cb)
  {
    hide Enabled, StepA, Initial;
    forall i | 0 <= i < |run| - 1
      ensures Next(run[i], run[i + 1])
    {
      assert Steps(run[i], ls[i], run[i + 1]);
      StepsNext(run[i], ls[i], run[i + 1]);
    }
  }

  lemma LabelledStart(run: seq<System>, ls: seq<Label>, ca: Config, cb: Config)
    requires Labelled(run, ls, ca, cb)
    ensures |run| == |ls| + 1 && Initial(run[0], ca, cb)
  {
  }

  lemma LabelledStep(run: seq<System>, ls: seq<Label>, ca: Config, cb: Config, i: nat)
    requires Labelled(run, ls, ca, cb) && i < |ls|
    ensures |run| == |ls| + 1 && Safe(run[i]) && Safe(run[i + 1]) && Steps(run[i], ls[i], run[i + 1])
  {
    hide Steps, Initial, Safe;
    LabelledBehaviour(run, ls, ca, cb);
    RunSafe(run, ca, cb, i);
    RunSafe(run, ca, cb, i + 1);
  }

  lemma StepsNext(s: System, l: Label, s': System)
    requires Steps(s, l, s')
    ensures Next(s, s')
  {
    hide StepA;
  }

  /** Every run has such events. */
  lemma {:induction false} BehaviourLabelled(run: seq<System>, ca: Config, cb: Config) returns (ls: seq<Label>)
    requires Behaviour(run, ca, cb)
    ensures Labelled(run, ls, ca, cb)
  {
    hide Enabled, StepA, Initial, Steps;
    if |run| == 1 {
      ls := [];
    } else {
      var n := |run| - 1;
      assert forall i :: 0 <= i < n - 1 ==> Next(run[i], run[i + 1]);
      var ls' := BehaviourLabelled(run[..n], ca, cb);
      assert Next(run[n - 1], run[n - 1 + 1]);
      var l := NextLabel(run[n - 1], run[n]);
      ls := ls' + [l];
      forall i | 0 <= i < |ls|
        ensures Steps(run[i], ls[i], run[i + 1])
      {
        if i < n - 1 { assert Steps(run[..n][i], ls'[i], run[..n][i + 1]); }
      }
    }
  }

  lemma NextLabel(s: System, s': System) returns (l: Label)
    requires Next(s, s')
    ensures Steps(s, l, s')
  {
    if e :| Enabled(s, e) && s' == StepA(s, e) {
      l := Label(true, e);
    } else {
      var e :| Enabled(s.Swap(), e) && s' == StepA(s.Swap(), e).Swap();
      l := Label(false, e);
    }
  }

  // ---------------------------------------------------------------------
  // What the applications wrote

  /** The bytes that the application at an end has written, by state i: of each write, what there was room for. */
  ghost function Written(run: seq<System>, ls: seq<Label>, i: nat, atA: bool): seq<Byte>
    requires |run| == |ls| + 1 && i <= |ls|
  {
    if i == 0 then []
    else
      var x := End(run[i - 1], atA).sender.stream;
      Written(run, ls, i - 1, atA) + if ls[i - 1].atA == atA && x.Valid() then Accepted(x, ls[i - 1].event) else []
  }

  /** The application at an end has ended its stream by state i. */
  predicate Ended(ls: seq<Label>, i: nat, atA: bool)
    requires i <= |ls|
  {
    i > 0 && (Ended(ls, i - 1, atA) || ls[i - 1] == Label(atA, Finish))
  }

  lemma StepWrites(s: System, l: Label, s': System, atA: bool)
    requires Safe(s) && Steps(s, l, s')
    ensures var x, x' := End(s, atA).sender.stream, End(s', atA).sender.stream;
            x.Valid() && if l.atA == atA then WritesExactly(x, l.event, x') else x' == x
  {
    hide Settled, Direction, Handle, Moves, Paced, Accepted;
    SettledStream(s.a);
    SettledStream(s.b);
    HandleMoves(if l.atA then s.a else s.b, l.event);
  }

  /** On every run each outbound stream is exactly what its application wrote, ended if and only if that ended it. */
  lemma {:induction false} HistoryWritten(run: seq<System>, ls: seq<Label>, ca: Config, cb: Config, i: nat, atA: bool)
    requires Labelled(run, ls, ca, cb) && i <= |ls|
    ensures var x := End(run[i], atA).sender.stream;
            x.history == Written(run, ls, i, atA) && x.ended == Ended(ls, i, atA)
  {
    hide Labelled, Steps, Safe, Accepted;
    LabelledStart(run, ls, ca, cb);
    if i == 0 {
    } else {
      HistoryWritten(run, ls, ca, cb, i - 1, atA);
      LabelledStep(run, ls, ca, cb, i - 1);
      StepWrites(run[i - 1], ls[i - 1], run[i], atA);
      assert Written(run, ls, i - 1, atA) + [] == Written(run, ls, i - 1, atA);
    }
  }

  // ---------------------------------------------------------------------
  // What the applications read

  /** What a read returns. */
  function ReadBy(y: Stream, e: Event): seq<Byte>
    requires y.Valid()
  {
    if e.Consume? then y.history[y.popped..y.popped + Min(e.len, |y.history| - y.popped)] else []
  }

  /** The bytes that the application at an end has read by state i. */
  ghost function Read(run: seq<System>, ls: seq<Label>, i: nat, atA: bool): seq<Byte>
    requires |run| == |ls| + 1 && i <= |ls|
  {
    if i == 0 then []
    else
      var y := End(run[i - 1], atA).receiver.reasm.out;
      Read(run, ls, i - 1, atA) + if ls[i - 1].atA == atA && y.Valid() then ReadBy(y, ls[i - 1].event) else []
  }

  // An event moves the reader's mark by what it reads.
  lemma HandleReads(c: Connection, e: Event)
    requires Settled(c) && c.out == [] && Allowed(c, e)
    ensures c.Sane()
    ensures var y, y' := c.receiver.reasm.out, Handle(c, e).receiver.reasm.out;
            y.Valid() && y'.popped == y.popped + |ReadBy(y, e)| && y.history <= y'.history
  {
    hide Ledger, Saturated, Handle, Paced, NewAbove, Emits, Sends, Receiving.SegmentReceived;
    assert c.receiver.reasm.out.Valid() by { InvValid(c.receiver.reasm); }
    HandleMoves(c, e);
    if Heeds(c, e) {
      DeliverMoves(c, e.packet.seg);
      HandleDeliver(c, e.packet);
      ReceivedKeeps(c.receiver, e.packet.seg);
    } else {
      HandleLocal(c, e);
      ReaderMoves(c, e);
    }
  }

  lemma ReceivedKeeps(r: Receiver, g: Segment)
    requires r.reasm.Inv()
    ensures var r' := Receiving.SegmentReceived(r, g);
            r'.reasm.out.popped == r.reasm.out.popped && r.reasm.out.history <= r'.reasm.out.history
  {
    hide Push, Reassembler.Inv, WrappingIntegers.Unwrap;
    if r.synSet || g.header.syn {
      var r1 := if r.synSet then r else r.(synSet := true, isn := g.header.seqno);
      var abs := WrappingIntegers.Unwrap(g.header.seqno, r1.isn, r.reasm.Next() + 1);
      ReassemblyProofs.CapacityKept(r.reasm, g.payload, StreamIndex(abs, g.header.syn), g.header.fin);
      ReassemblyProofs.PushInv(r.reasm, g.payload, StreamIndex(abs, g.header.syn), g.header.fin);
    }
  }

  lemma ReaderMoves(c: Connection, e: Event)
    requires Settled(c) && c.out == [] && Allowed(c, e) && !Heeds(c, e) && c.Sane() && c.receiver.reasm.out.Valid()
    ensures Handle(c, e).receiver.reasm.out.popped
            == c.receiver.reasm.out.popped + |ReadBy(c.receiver.reasm.out, e)|
  {
    hide Ledger, Saturated, Reassembler.Inv, FillWindow, Tick, StampAll, Finished;
    if e.Elapse? { TickReads(c, e.ms); }
  }

  lemma TickReads(c: Connection, ms: nat)
    requires c.Sane()
    ensures TickConnection(c, ms).receiver.reasm.out.popped == c.receiver.reasm.out.popped
  {
    hide Tick, StampAll, Finished, Reassembler.Inv;
    InvValid(c.receiver.reasm);
  }

  lemma StepReads(s: System, l: Label, s': System, atA: bool)
    requires Safe(s) && Steps(s, l, s')
    ensures var y, y' := End(s, atA).receiver.reasm.out, End(s', atA).receiver.reasm.out;
            && y.Valid()
            && if l.atA == atA then y'.popped == y.popped + |ReadBy(y, l.event)| && y.history <= y'.history else y' == y
  {
    hide Settled, Direction, Handle, ReadBy, Reassembler.Inv;
    SettledParts(s.a);
    SettledParts(s.b);
    InvValid(s.a.receiver.reasm);
    InvValid(s.b.receiver.reasm);
    HandleReads(if l.atA then s.a else s.b, l.event);
  }

  /** On every run, what an application has read is the part of its inbound stream up to the reader's mark. */
  lemma {:induction false} HistoryRead(run: seq<System>, ls: seq<Label>, ca: Config, cb: Config, i: nat, atA: bool)
    requires Labelled(run, ls, ca, cb) && i <= |ls|
    ensures var y := End(run[i], atA).receiver.reasm.out;
            y.Valid() && Read(run, ls, i, atA) == y.history[..y.popped]
  {
    hide Labelled, Steps, Safe;
    LabelledStart(run, ls, ca, cb);
    if i == 0 {
    } else {
      hide ReadBy;
      HistoryRead(run, ls, ca, cb, i - 1, atA);
      LabelledStep(run, ls, ca, cb, i - 1);
      StepReads(run[i - 1], ls[i - 1], run[i], atA);
      SafeValid(run[i]);
      var y, y' := End(run[i - 1], atA).receiver.reasm.out, End(run[i], atA).receiver.reasm.out;
      if ls[i - 1].atA == atA {
        ReadJoins(y, ls[i - 1].event, y');
      } else {
        assert y.history[..y.popped] + [] == y.history[..y.popped];
      }
    }
  }

  lemma ReadJoins(y: Stream, e: Event, y': Stream)
    requires y.Valid() && y'.Valid() && y.history <= y'.history && y'.popped == y.popped + |ReadBy(y, e)|
    ensures y.history[..y.popped] + ReadBy(y, e) == y'.history[..y'.popped]
  {
  }

  lemma SafeValid(s: System)
    requires Safe(s)
    ensures s.a.receiver.reasm.out.Valid() && s.b.receiver.reasm.out.Valid()
  {
    hide Direction;
    InvValid(s.a.receiver.reasm);
    InvValid(s.b.receiver.reasm);
  }

  /**
   Prefix safety from application to application: on every run, what one has read, and all
   that is waiting for it, is a prefix of the bytes the other has written; and its stream
   ends only when that is all of them and the other has ended its stream.
   */
  lemma WrittenArrives(run: seq<System>, ls: seq<Label>, ca: Config, cb: Config, i: nat, atA: bool)
    requires Labelled(run, ls, ca, cb) && i <= |ls|
    ensures var y := End(run[i], atA).receiver.reasm.out;
            && Read(run, ls, i, atA) <= y.history <= Written(run, ls, i, !atA)
            && (y.ended ==> y.history == Written(run, ls, i, !atA) && Ended(ls, i, !atA))
  {
    hide Labelled;
    LabelledStart(run, ls, ca, cb);
    LabelledBehaviour(run, ls, ca, cb);
    PrefixSafety(run, ca, cb, i);
    HistoryWritten(run, ls, ca, cb, i, !atA);
    HistoryRead(run, ls, ca, cb, i, atA);
  }

  /**
   A run that is served as `RoundsComplete` asks has brought b's application everything that
   a's has written, and the end exactly if a's has ended its stream.
   */
  lemma ServedArrives(run: seq<System>, ls: seq<Label>, ca: Config, cb: Config, ks: seq<nat>)
    requires Labelled(run, ls, ca, cb) && Rounds(run, ks)
    requires Target(Last(run).a.sender) < |ks|
    requires run[ks[0]].a.sender.synSet && Target(Last(run).a.sender) == Target(run[ks[0]].a.sender)
    ensures var y := Last(run).b.receiver.reasm.out;
            y.history == Written(run, ls, |ls|, true) && y.ended == Ended(ls, |ls|, true)
  {
    hide Labelled, Rounds;
    LabelledStart(run, ls, ca, cb);
    LabelledBehaviour(run, ls, ca, cb);
    RoundsComplete(run, ca, cb, ks);
    HistoryWritten(run, ls, ca, cb, |ls|, true);
  }

  /** On every run: when a has closed without error, each end holds all that the other's application wrote. */
  lemma ClosedExchanged(run: seq<System>, ls: seq<Label>, ca: Config, cb: Config, i: nat)
    requires Labelled(run, ls, ca, cb) && i <= |ls| && |run| == |ls| + 1
    requires !run[i].a.active && !run[i].a.sender.stream.error
    ensures run[i].b.receiver.reasm.out.history == Written(run, ls, i, true) && Ended(ls, i, true)
    ensures run[i].a.receiver.reasm.out.history == Written(run, ls, i, false) && Ended(ls, i, false)
  {
    hide Labelled;
    LabelledBehaviour(run, ls, ca, cb);
    CleanClose(run, ca, cb, i);
    HistoryWritten(run, ls, ca, cb, i, true);
    HistoryWritten(run, ls, ca, cb, i, false);
  }

  // ---------------------------------------------------------------------
  // What was put on the network

  /** On every run: what an event at a puts on the network advertises exactly the room that a then has. */
  lemma RunAdvertises(run: seq<System>, ca: Config, cb: Config, i: nat, e: Event, p: Packet)
    requires Behaviour(run, ca, cb) && i < |run| && Enabled(run[i], e)
    requires p in StepA(run[i], e).ab && p !in run[i].ab
    ensures var y := StepA(run[i], e).a.receiver.reasm.out;
            && p.seg.header.win == Min(0xffff, y.popped + y.capacity - |y.history|)
            && (p.seg.header.win == 0 <==> |y.history| == y.popped + y.capacity)
  {
    hide Behaviour, Settled, Direction, Handle;
    RunSafe(run, ca, cb, i);
    var c := Handle(run[i].a, e);
    var g :| g in c.out && p == PacketOf(c, g);
    AdvertisesRoom(run[i].a, e, g);
  }

  /** On every run: delivering a segment that takes no numbers, is no keep-alive and releases nothing adds nothing. */
  lemma NoChatter(run: seq<System>, ca: Config, cb: Config, i: nat, p: Packet)
    requires Behaviour(run, ca, cb) && i < |run| && Enabled(run[i], Deliver(p)) && p.seg.Length() == 0
    requires var s' := StepA(run[i], Deliver(p));
             !KeepAlive(s'.a.receiver, p.seg) && s'.a.sender.next == run[i].a.sender.next
    ensures StepA(run[i], Deliver(p)).ab == run[i].ab
  {
    hide Behaviour, Settled, Direction, Handle, KeepAlive, Timely;
    RunSafe(run, ca, cb, i);
    var c := run[i].a;
    if Heeds(c, Deliver(p)) {
      AnswersExactly(c, p);
    } else {
      SettledSane(c);
      IgnoredEmits(c, p);
      StampNothing(Handle(c, Deliver(p)).receiver);
    }
    assert Packets(Handle(c, Deliver(p))) == {};
  }
}
