/** When an endpoint gives up: the timing of the sender's retransmissions, seen from the connection. */
module Exhausting {
  import opened Reassembly
  import opened Segments
  import opened Sending
  import opened SendingProofs
  import opened SendingRuns
  import opened Connecting
  import opened Endpoints
  import opened Systems
  import opened Closing

  /** The time an event takes. */
  function Passing(e: Event): nat {
    if e.Elapse? then e.ms else 0
  }

  function Passings(es: seq<Event>): (ms: seq<nat>)
    ensures |ms| == |es|
    ensures forall k :: 0 <= k < |es| ==> ms[k] == Passing(es[k])
  {
    seq(|es|, k requires 0 <= k < |es| => Passing(es[k]))
  }

  function Senders(cs: seq<Connection>): (ss: seq<Sender>)
    ensures |ss| == |cs|
    ensures forall k :: 0 <= k < |cs| ==> ss[k] == cs[k].sender
  {
    seq(|cs|, k requires 0 <= k < |cs| => cs[k].sender)
  }

  /** Every event moves the endpoint's sender by a tick or by a call that takes no time. */
  lemma EventsTimed(cf: Config, cs: seq<Connection>, es: seq<Event>)
    requires Events(cf, cs, es)
    ensures Timed(Senders(cs), Passings(es))
  {
    hide Settled, Handle, Allowed, Moved;
    forall k | 0 <= k < |es|
      ensures Moved(Senders(cs)[k], Senders(cs)[k + 1], Passings(es)[k])
    {
      EventsSettled(cf, cs, es, k);
      EventsSettled(cf, cs, es, k + 1);
      EventMoved(cs[k], es[k]);
    }
  }

  lemma EventMoved(c: Connection, e: Event)
    requires Settled(c) && c.out == [] && Allowed(c, e)
    ensures c.Sane() && Moved(c.sender, Handle(c, e).sender, Passing(e))
  {
    hide Settled, Ledger, Tick, Paced, Handle, Finished;
    HandleMoves(c, e);
    SettledParts(c);
    MovesActive(c, Handle(c, e));
    SettledParts(Handle(c, e));
    if e.Elapse? {
      ElapseMoves(c, e.ms);
      HandleElapse(c, e.ms);
    }
  }

  // Giving up sends a reset and sets the error.
  lemma GivesUp(c: Connection, ms: nat) returns (g: Segment)
    requires Settled(c) && c.out == [] && MAX_RETX_ATTEMPTS < Tick(c.sender, ms).retx
    ensures c.Sane()
    ensures var c' := Handle(c, Event.Elapse(ms));
            g in c'.out && g.header.rst && c'.sender.stream.error && c'.receiver.reasm.out.error && !c'.active
  {
    hide Settled, Tick, TickConnection, Handle, Finished;
    ElapseMoves(c, ms);
    HandleElapse(c, ms);
    SettledParts(c);
    InvValid(c.receiver.reasm);
    var d := SetShutdown(c.(sender := Tick(c.sender, ms).(out := []), sinceLast := c.sinceLast + ms), false);
    g := Stamp(d.receiver, Bare(d.sender, true));
    ResetLeaves(d);
    TickGivesUp(c, ms);
  }

  lemma ResetLeaves(d: Connection)
    requires d.receiver.reasm.out.Valid() && d.sender.out == []
    ensures Stamp(d.receiver, Bare(d.sender, true)) in SendRst(d).out
  {
    StampKept(d.receiver, [Bare(d.sender, true)], Bare(d.sender, true));
  }

  lemma TickGivesUp(c: Connection, ms: nat)
    requires c.Sane() && MAX_RETX_ATTEMPTS < Tick(c.sender, ms).retx
    ensures c.receiver.reasm.out.Valid()
    ensures TickConnection(c, ms)
            == SendRst(SetShutdown(c.(sender := Tick(c.sender, ms).(out := []), sinceLast := c.sinceLast + ms), false))
  {
    hide SendRst, Tick;
    InvValid(c.receiver.reasm);
  }

  /** The first tick that passed the limit: it sent the reset, and the endpoint has been failed ever since. */
  lemma {:induction false} ExhaustedBefore(cf: Config, cs: seq<Connection>, es: seq<Event>, k: nat)
    returns (j: nat, g: Segment)
    requires Events(cf, cs, es) && k <= |es| && MAX_RETX_ATTEMPTS < cs[k].sender.retx
    ensures j < k && es[j].Elapse? && cs[j].Sane() && g in Handle(cs[j], es[j]).out && g.header.rst
    ensures cs[k].sender.stream.error && cs[k].receiver.reasm.out.error && !cs[k].active
  {
    hide Settled, Handle, Allowed, Tick, Finished, Moves, Paced;
    EventsSettled(cf, cs, es, k);
    var c, e := cs[k - 1], es[k - 1];
    EventsSettled(cf, cs, es, k - 1);
    assert cs[k - 1 + 1] == Handle(c, e).(out := []);
    if MAX_RETX_ATTEMPTS < c.sender.retx {
      j, g := ExhaustedBefore(cf, cs, es, k - 1);
      HandleMoves(c, e);
      FailedStays(c, e);
    } else {
      HandleMoves(c, e);
      if !e.Elapse? {
        RetxKept(c.sender, Handle(c, e).sender) by { SettledParts(cs[k]); }
        assert false;
      }
      ElapseMoves(c, e.ms);
      HandleElapse(c, e.ms);
      j := k - 1;
      g := GivesUp(c, e.ms);
    }
  }

  // Only time adds to the count of retransmissions.
  lemma RetxKept(s: Sender, s': Sender)
    requires Ledger(s') && Paced(s, s')
    ensures s'.retx <= s.retx
  {
  }

  lemma FailedStays(c: Connection, e: Event)
    requires Settled(c) && c.out == [] && Allowed(c, e)
    requires !c.active && c.sender.stream.error && c.receiver.reasm.out.error
    ensures c.Sane()
    ensures var c' := Handle(c, e); !c'.active && c'.sender.stream.error && c'.receiver.reasm.out.error
  {
    hide Ledger, Saturated, Reassembler.Inv, Handle, NewAbove, Emits, Sends, Paced;
    HandleLocal(c, e);
  }

  /**
   An endpoint fails by exhaustion, from construction and over any events, only when
   something has been outstanding for at least 511 timeouts with nothing new acknowledged.
   */
  lemma GivesUpLate(cf: Config, cs: seq<Connection>, es: seq<Event>, k: nat)
    requires Events(cf, cs, es) && k < |es| && es[k].Elapse?
    requires !cs[k].sender.stream.error && cs[k + 1].sender.stream.error
    ensures 511 * cf.rto <= Waited(Senders(cs), Passings(es), k + 1)
  {
    hide Settled, Handle, Allowed, Tick, Finished, Moves, Waited, Steady, Timed;
    EventsTimed(cf, cs, es);
    EventsSettled(cf, cs, es, k);
    ElapseMoves(cs[k], es[k].ms);
    HandleElapse(cs[k], es[k].ms);
    RtoKept(Senders(cs), Passings(es), k + 1);
    WaitedBounds(Senders(cs), Passings(es), k + 1, 0);
  }

  /**
   An endpoint that has waited for a new acknowledgement, with an open window and ticks of at
   most `tick`, for more than 511 timeouts and eight ticks has given up: at an earlier tick a
   reset left, and it is inactive with both streams failed.
   */
  lemma GivesUpInTime(cf: Config, cs: seq<Connection>, es: seq<Event>, k: nat, tick: nat) returns (j: nat, g: Segment)
    requires Events(cf, cs, es) && k <= |es|
    requires Steady(Senders(cs), Passings(es), k, tick)
    requires 511 * cf.rto + 8 * tick < Waited(Senders(cs), Passings(es), k)
    ensures j < k && es[j].Elapse? && cs[j].Sane() && g in Handle(cs[j], es[j]).out && g.header.rst
    ensures cs[k].sender.stream.error && cs[k].receiver.reasm.out.error && !cs[k].active
  {
    hide Settled, Handle, Allowed, Timed;
    EventsTimed(cf, cs, es);
    RtoKept(Senders(cs), Passings(es), k);
    WaitedBounds(Senders(cs), Passings(es), k, tick);
    j, g := ExhaustedBefore(cf, cs, es, k);
  }

  // ---------------------------------------------------------------------
  // An unanswered SYN

  /** The events bring no acknowledgement before step k. */
  ghost predicate Unacknowledged(es: seq<Event>, k: nat) {
    forall j :: 0 <= j < k <= |es| && es[j].Deliver? ==> !es[j].packet.seg.header.ack
  }

  /** Until an acknowledgement arrives the window is the initial one, which is open. */
  lemma {:induction false} OpenUntilAcked(cf: Config, cs: seq<Connection>, es: seq<Event>, k: nat)
    requires Events(cf, cs, es) && k <= |es| && Unacknowledged(es, k)
    ensures cs[k].sender.window == 1 && cs[k].sender.recvAck == 0
  {
    if k == 0 {
    } else {
      hide Settled, Handle, Allowed, Moves, Paced, Connecting.SegmentReceived, Start;
      EventsSettled(cf, cs, es, k - 1);
      OpenUntilAcked(cf, cs, es, k - 1);
      var c, e := cs[k - 1], es[k - 1];
      assert cs[k - 1 + 1] == Handle(c, e).(out := []);
      if Heeds(c, e) {
        DeliverMoves(c, e.packet.seg);
        HandleDeliver(c, e.packet);
      } else {
        HandleLocal(c, e);
      }
    }
  }

  // Once opened, with nothing acknowledged, something is always outstanding.
  lemma {:induction false} SynOutstanding(cf: Config, cs: seq<Connection>, es: seq<Event>, k: nat)
    requires Events(cf, cs, es) && 0 < k <= |es| && Unacknowledged(es, k) && es[0].Open?
    ensures cs[k].sender.synSet && cs[k].sender.unack != [] && Base(cs[k].sender) == 0
  {
    hide Settled, Handle, Allowed, Start;
    OpenUntilAcked(cf, cs, es, k);
    EventsSettled(cf, cs, es, k);
    EventsSettled(cf, cs, es, k - 1);
    var c, e := cs[k - 1], es[k - 1];
    assert cs[k - 1 + 1] == Handle(c, e).(out := []);
    HandleMoves(c, e);
    if k == 1 {
      OpenSends(c);
    } else {
      SynOutstanding(cf, cs, es, k - 1);
      SynKept(c, Handle(c, e));
    }
    assert Ledger(cs[k].sender) by { SettledParts(cs[k]); }
    BaseAcked(cs[k].sender);
    UnackedOutstanding(cs[k].sender);
  }

  lemma UnackedOutstanding(s: Sender)
    requires Ledger(s) && s.synSet && s.recvAck == 0
    ensures s.unack != []
  {
    hide Tiles;
  }

  lemma SynKept(c: Connection, c': Connection)
    requires Moves(c, c') && c.sender.synSet
    ensures c'.sender.synSet
  {
  }

  lemma OpenSends(c: Connection)
    requires Settled(c) && c.out == []
    ensures c.Sane() && Handle(c, Open).sender.synSet
  {
    hide Ledger, Saturated, Reassembler.Inv, Connect, Emits, NewAbove, Grows, Paced, Sends;
    FillMoves(c);
  }

  /** The time that has passed by step k. */
  function PassedBy(es: seq<Event>, k: nat): nat
    requires k <= |es|
  {
    if k == 0 then 0 else PassedBy(es, k - 1) + Passing(es[k - 1])
  }

  // All of it has been spent waiting.
  lemma {:induction false} WaitedThroughout(cf: Config, cs: seq<Connection>, es: seq<Event>, k: nat, tick: nat)
    requires Events(cf, cs, es) && k <= |es| && Unacknowledged(es, k) && (k > 0 ==> es[0].Open?)
    requires forall j :: 0 <= j < |es| ==> Passing(es[j]) <= tick
    ensures Waited(Senders(cs), Passings(es), k) == PassedBy(es, k) && Steady(Senders(cs), Passings(es), k, tick)
  {
    if k == 0 {
    } else {
      hide Events;
      EventsShape(cf, cs, es);
      WaitedThroughout(cf, cs, es, k - 1, tick);
      SynOutstanding(cf, cs, es, k);
      OpenUntilAcked(cf, cs, es, k - 1);
      if k > 1 { SynOutstanding(cf, cs, es, k - 1); }
    }
  }

  lemma EventsShape(cf: Config, cs: seq<Connection>, es: seq<Event>)
    requires Events(cf, cs, es)
    ensures |cs| == |es| + 1 && Base(cs[0].sender) == 0
  {
  }

  /**
   An unanswered SYN is given up in time: an endpoint that opened and has since been sent no
   acknowledgement, with ticks of at most `tick`, has reset its peer and failed once more
   than 511 timeouts and eight ticks have passed, whatever else it was asked to do.
   */
  lemma UnansweredGivesUp(cf: Config, cs: seq<Connection>, es: seq<Event>, tick: nat) returns (j: nat, g: Segment)
    requires Events(cf, cs, es) && es != [] && es[0].Open? && Unacknowledged(es, |es|)
    requires forall j :: 0 <= j < |es| ==> Passing(es[j]) <= tick
    requires 511 * cf.rto + 8 * tick < PassedBy(es, |es|)
    ensures j < |es| && es[j].Elapse? && cs[j].Sane() && g in Handle(cs[j], es[j]).out && g.header.rst
    ensures var c := cs[|es|]; c.sender.stream.error && c.receiver.reasm.out.error && !c.active
  {
    hide Handle, Settled, Waited, Steady, PassedBy;
    WaitedThroughout(cf, cs, es, |es|, tick);
    j, g := GivesUpInTime(cf, cs, es, |es|, tick);
  }
}
