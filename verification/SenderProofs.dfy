/**
 The sender's books balance in every reachable state: what is outstanding, what
 has been read from the stream, how the timer runs, how far the window reaches.
 */
module SendingProofs {
  import opened Types
  import opened ByteStreams
  import opened Segments
  import opened WrappingIntegers
  import opened Sending

  /** No application writes more than this many bytes to one connection. */
  const STREAM_LIMIT: nat := 0x4000_0000_0000_0000

  const MAX_WINDOW: nat := 0xffff

  /** The bytes of the stream that have left in segments. */
  function Sent(s: Sender): seq<Byte> {
    if s.stream.popped <= |s.stream.history| then s.stream.history[..s.stream.popped] else []
  }

  /** The stream index of the first payload byte of a segment at sequence number q. */
  function DataIndex(q: nat): nat {
    if q == 0 then 0 else q - 1
  }

  /** Segment g, at absolute sequence number q, is part of the stream `sent`, whose FIN has left if `fin`. */
  predicate TileAt(g: Segment, q: nat, isn: U32, sent: seq<Byte>, fin: bool) {
    && g.header.seqno == Wrap(q, isn)
    && (g.header.syn <==> q == 0)
    && !g.header.rst
    && g.header.doff == BLANK.doff
    && |g.payload| <= MAX_PAYLOAD_SIZE
    && DataIndex(q) + |g.payload| <= |sent|
    && g.payload == sent[DataIndex(q)..DataIndex(q) + |g.payload|]
    && (g.header.fin ==> fin && DataIndex(q) + |g.payload| == |sent|)
  }

  /** The segments tile the sequence numbers [from, to) without gap or overlap. */
  predicate Tiles(segs: seq<Segment>, isn: U32, from: nat, to: nat, sent: seq<Byte>, fin: bool) {
    if segs == [] then from == to
    else
      && segs[0].Length() > 0 && !segs[0].header.ack
      && TileAt(segs[0], from, isn, sent, fin)
      && Tiles(segs[1..], isn, from + segs[0].Length(), to, sent, fin)
  }

  lemma {:induction false} TilesTotal(segs: seq<Segment>, isn: U32, from: nat, to: nat, sent: seq<Byte>, fin: bool)
    requires Tiles(segs, isn, from, to, sent, fin)
    ensures from + Total(segs) == to
    ensures segs != [] ==> from < to
  {
    if segs == [] {
    } else {
      TilesTotal(segs[1..], isn, from + segs[0].Length(), to, sent, fin);
    }
  }

  lemma {:induction false} TilesGrow(segs: seq<Segment>, isn: U32, from: nat, to: nat, sent: seq<Byte>, fin: bool,
                                     sent': seq<Byte>, fin': bool)
    requires Tiles(segs, isn, from, to, sent, fin) && sent <= sent' && (fin ==> fin' && sent == sent')
    ensures Tiles(segs, isn, from, to, sent', fin')
  {
    if segs == [] {
    } else {
      TilesGrow(segs[1..], isn, from + segs[0].Length(), to, sent, fin, sent', fin');
    }
  }

  lemma {:induction false} TilesAppend(segs: seq<Segment>, g: Segment, isn: U32, from: nat, to: nat,
                                       sent: seq<Byte>, fin: bool)
    requires Tiles(segs, isn, from, to, sent, fin) && TileAt(g, to, isn, sent, fin) && g.Length() > 0 && !g.header.ack
    ensures Tiles(segs + [g], isn, from, to + g.Length(), sent, fin)
  {
    if segs == [] {
      assert segs + [g] == [g] && [g][1..] == [];
    } else {
      TilesAppend(segs[1..], g, isn, from + segs[0].Length(), to, sent, fin);
      assert (segs + [g])[1..] == segs[1..] + [g];
    }
  }

  function Pow2(n: nat): nat {
    if n == 0 then 1 else 2 * Pow2(n - 1)
  }

  /** next_seqno counts SYN, the bytes read and FIN; FIN is set only once the stream is exhausted. */
  predicate Numbers(s: Sender) {
    && s.stream.Valid()
    && |s.stream.history| < STREAM_LIMIT
    && s.next == Bit(s.synSet) + s.stream.popped + Bit(s.finSet)
    && (s.finSet ==> s.synSet && s.stream.Eof())
    && (!s.synSet ==> s.stream.popped == 0)
  }

  /** The outstanding queue tiles [next - in flight, next), and at most a full window is in flight. */
  predicate Queue(s: Sender) {
    && s.inFlight <= s.next
    && s.inFlight <= MAX_WINDOW
    && s.inFlight == Total(s.unack)
    && Tiles(s.unack, s.isn, s.next - s.inFlight, s.next, Sent(s), s.finSet)
  }

  /** The last accepted acknowledgement lies in the first outstanding segment, or everything is acknowledged. */
  predicate Acked(s: Sender) {
    if s.unack == [] then s.recvAck == s.next
    else s.next <= s.recvAck + s.inFlight && s.recvAck + s.inFlight < s.next + s.unack[0].Length()
  }

  /**
   The timer runs exactly when something is outstanding and its timeout is the initial one doubled
   per retransmission.
   */
  predicate Clock(s: Sender) {
    && (s.timer.running <==> s.unack != [])
    && (s.unack == [] ==> s.retx == 0)
    && s.timer.curRto == s.timer.initRto * Pow2(s.retx)
  }

  predicate Ledger(s: Sender) {
    Numbers(s) && Queue(s) && Acked(s) && Clock(s)
  }

  /** Nothing is left to send. */
  predicate Exhausted(s: Sender) {
    s.synSet && s.stream.Buffered() == 0 && (s.stream.ended ==> s.finSet)
  }

  /** s' is s after sending new segments: they went out and joined the queue, in order. */
  ghost predicate Extends(s: Sender, s': Sender) {
    && s'.isn == s.isn && s'.recvAck == s.recvAck && s'.window == s.window && s'.retx == s.retx
    && s'.timer.initRto == s.timer.initRto 
    && (s'.timer == s.timer || (!s.timer.running && s'.timer == s.timer.Start()))
    && s'.stream == s.stream.(popped := s'.stream.popped) && s.stream.popped <= s'.stream.popped
    && s.unack <= s'.unack
    && s'.out == s.out + s'.unack[|s.unack|..]
    && s'.next - s'.inFlight == s.next - s.inFlight
    && s.next <= s'.next
    && (s.synSet ==> s'.synSet)
    && (s.finSet ==> s'.finSet && s'.next == s.next)
  }

  lemma NextSegmentTile(s: Sender, length: nat)
    requires Numbers(s) && Bit(!s.synSet) <= length
    ensures var g := NextSegment(s, length);
            && g.Length() <= length && !g.header.ack
            && (g.Length() > 0 ==> TileAt(g, s.next, s.isn, Sent(Launch(s, g)), Launch(s, g).finSet))
            && Sent(s) <= Sent(Launch(s, g))
            && (s.finSet ==> g.Length() == 0)
            && (g.Length() == 0 ==> s.synSet)
            && (g.Length() == 0 && length > 0 ==> Exhausted(s))
  {
    hide TileAt, Wrap;
    NextSegmentShape(s, length);
    var g := NextSegment(s, length);
    LaunchSent(s, |g.payload|);
    assert Sent(Launch(s, g)) == s.stream.history[..s.stream.popped + |g.payload|];
    if g.Length() > 0 { LaunchTile(s, length); }
  }

  lemma NextSegmentShape(s: Sender, length: nat)
    requires Numbers(s) && Bit(!s.synSet) <= length
    ensures var g := NextSegment(s, length);
            && g.header == BLANK.(syn := !s.synSet, fin := g.header.fin, seqno := Wrap(s.next, s.isn))
            && |g.payload| == Min(MAX_PAYLOAD_SIZE, Min(length - Bit(!s.synSet), s.stream.Buffered()))
            && g.payload == s.stream.history[s.stream.popped..s.stream.popped + |g.payload|]
            && (g.header.fin <==> !s.finSet && s.stream.ended && |g.payload| == s.stream.Buffered()
                                  && |g.payload| + Bit(!s.synSet) < length)
  {
    hide Wrap;
  }

  /**
   Segments are as large as they may be: one is cut short of a thousand bytes only by the
   window or for want of data, and carries FIN if and only if the stream has ended, this is
   the last of it, FIN has not been sent and the window has room for it.
   */
  lemma SegmentFull(s: Sender, length: nat)
    requires Numbers(s) && Bit(!s.synSet) <= length
    ensures var g, left := NextSegment(s, length), |s.stream.history| - s.stream.popped;
            && |g.payload| <= 1000 && |g.payload| <= left && Bit(!s.synSet) + |g.payload| <= length
            && (|g.payload| == 1000 || |g.payload| == left || Bit(!s.synSet) + |g.payload| == length)
            && (g.header.syn <==> !s.synSet)
            && (g.header.fin <==> !s.finSet && s.stream.ended && |g.payload| == left && Bit(!s.synSet) + left < length)
  {
    hide Wrap;
    NextSegmentShape(s, length);
  }

  lemma LaunchSent(s: Sender, size: nat)
    requires Numbers(s) && size <= s.stream.Buffered()
    ensures Sent(s) <= s.stream.history[..s.stream.popped + size]
    ensures s.stream.Pop(size).popped == s.stream.popped + size
  {
  }

  lemma LaunchTile(s: Sender, length: nat)
    requires Numbers(s) && Bit(!s.synSet) <= length
    requires NextSegment(s, length).Length() > 0
    ensures var g := NextSegment(s, length); TileAt(g, s.next, s.isn, Sent(Launch(s, g)), Launch(s, g).finSet)
  {
    hide Wrap, NextSegment;
    NextSegmentShape(s, length);
    var g := NextSegment(s, length);
    LaunchSent(s, |g.payload|);
    var from := s.stream.popped;
    assert s.stream.history[..from + |g.payload|][from..from + |g.payload|] == g.payload;
  }

  lemma LaunchNumbers(s: Sender, length: nat)
    requires Numbers(s) && Bit(!s.synSet) <= length
    ensures var g := NextSegment(s, length); g.Length() > 0 ==> Numbers(Launch(s, g)) && Extends(s, Launch(s, g))
  {
    var g := NextSegment(s, length);
    NextSegmentTile(s, length);
    assert (s.unack + [g])[|s.unack|..] == [g];
  }

  lemma {:induction false} TotalAppend(segs: seq<Segment>, g: Segment)
    ensures Total(segs + [g]) == Total(segs) + g.Length()
  {
    if segs == [] {
      assert segs + [g] == [g] && [g][1..] == [];
    } else {
      TotalAppend(segs[1..], g);
      assert (segs + [g])[1..] == segs[1..] + [g];
    }
  }

  lemma LaunchLedger(s: Sender, length: nat)
    requires Ledger(s) && Bit(!s.synSet) <= length && s.inFlight + length <= MAX_WINDOW
    ensures var g := NextSegment(s, length); g.Length() > 0 ==> Ledger(Launch(s, g))
  {
    hide NextSegment, TileAt;
    var g := NextSegment(s, length);
    if g.Length() > 0 {
      NextSegmentTile(s, length);
      LaunchNumbers(s, length);
      var s' := Launch(s, g);
      TotalAppend(s.unack, g);
      TilesGrow(s.unack, s.isn, s.next - s.inFlight, s.next, Sent(s), s.finSet, Sent(s'), s'.finSet);
      TilesAppend(s.unack, g, s.isn, s.next - s.inFlight, s.next, Sent(s'), s'.finSet);
    }
  }

  /**
   One push keeps the books, takes no more than the free part of the window, and
   sends nothing only if there is no room or nothing left to send.
   */
  lemma PushSegmentLedger(s: Sender, length: nat)
    requires Ledger(s) && s.inFlight + length <= MAX_WINDOW && (s.synSet || length > 0)
    ensures var (s', more) := PushSegment(s, length);
            && Ledger(s') && Extends(s, s')
            && s'.inFlight <= s.inFlight + length
            && (!more ==> s' == s && (length == 0 || Exhausted(s)))
            && s'.synSet
  {
    hide NextSegment, Ledger;
    if Bit(!s.synSet) <= length {
      assert Numbers(s) by { LedgerParts(s); }
      NextSegmentTile(s, length);
      LaunchLedger(s, length);
      LaunchNumbers(s, length);
    }
  }

  lemma LedgerParts(s: Sender)
    requires Ledger(s)
    ensures Numbers(s) && Queue(s) && Acked(s) && Clock(s)
  {
  }

  lemma ExtendsTwice(a: Sender, b: Sender, c: Sender)
    requires Extends(a, b) && Extends(b, c)
    ensures Extends(a, c)
  {
    assert c.unack[|a.unack|..] == b.unack[|a.unack|..] + c.unack[|b.unack|..];
  }

  lemma ExtendsNothing(s: Sender)
    ensures Extends(s, s)
  {
  }

  // Before SYN nothing has been sent.
  lemma UnsentIdle(s: Sender)
    requires Ledger(s) && !s.synSet
    ensures s.next == 0 && s.inFlight == 0 && s.unack == [] && s.recvAck == 0
  {
    TilesTotal(s.unack, s.isn, s.next - s.inFlight, s.next, Sent(s), s.finSet);
  }

  lemma {:induction false} FillOpenWindowLedger(s: Sender)
    requires Ledger(s) && s.window > 0 && (s.synSet || s.inFlight == 0)
    ensures var r := FillOpenWindow(s);
            && Ledger(r) && Extends(s, r) && r.synSet
            && r.inFlight <= Max(s.inFlight, s.window)
            && (r.inFlight >= s.window || Exhausted(r))
            && (s.finSet ==> r == s)
    decreases s.window - s.inFlight
  {
    hide Ledger, Extends, Exhausted, NextSegment;
    assert s.stream.Valid() && s.inFlight <= MAX_WINDOW && Numbers(s) by { LedgerParts(s); }
    var length := Max(0, s.window - s.inFlight);
    PushSegmentLedger(s, length);
    var (s', more) := PushSegment(s, length);
    if more {
      assert s'.window == s.window;
      assert !s.finSet by { NextSegmentTile(s, length); }
      FillOpenWindowLedger(s');
      ExtendsTwice(s, s', FillOpenWindow(s'));
    }
  }

  /**
   Filling the window keeps the books; it never has more in flight than the
   window (a closed window counts as one number), and stops only when the window
   is full or the stream, FIN included, has been sent.
   */
  lemma FillWindowLedger(s: Sender)
    requires Ledger(s)
    ensures var r := FillWindow(s);
            && Ledger(r) && Extends(s, r) && r.synSet
            && r.inFlight <= Max(s.inFlight, Max(s.window, 1))
            && Saturated(r)
            && (s.finSet ==> r == s)
  {
    hide Ledger, Extends, NextSegment;
    assert s.stream.Valid() && s.inFlight <= MAX_WINDOW && Numbers(s) by { LedgerParts(s); }
    if !s.synSet { UnsentIdle(s); }
    if s.window > 0 {
      FillOpenWindowLedger(s);
      assert FillOpenWindow(s).window == s.window by { ExtendsWindow(s, FillOpenWindow(s)); }
    } else if s.inFlight == 0 {
      PushSegmentLedger(s, 1);
      NextSegmentTile(s, 1);
    } else {
      ExtendsNothing(s);
    }
  }

  lemma ExtendsWindow(s: Sender, s': Sender)
    requires Extends(s, s')
    ensures s'.window == s.window && s'.recvAck == s.recvAck && s.next <= s'.next
    ensures s'.next - s'.inFlight == s.next - s.inFlight
  {
  }

  /** The window is full or there is nothing left to send. */
  predicate Saturated(s: Sender) {
    s.synSet ==> s.inFlight >= Max(s.window, 1) || Exhausted(s)
  }

  /** Window safety: new segments end within the advertised window, or one number past it when it is closed. */
  lemma FillWindowReach(s: Sender)
    requires Ledger(s)
    ensures var r := FillWindow(s); r.next == s.next || r.next <= s.recvAck + Max(s.window, 1)
  {
    hide Extends, FillWindow, Tiles;
    FillWindowLedger(s);
    ExtendsWindow(s, FillWindow(s));
    assert s.next - s.inFlight <= s.recvAck;
  }

  // ---------------------------------------------------------------------
  // Acknowledgements

  // The sender recovers the position of its own oldest outstanding segment exactly.
  lemma FrontPosition(s: Sender)
    requires Numbers(s) && Queue(s) && s.unack != []
    ensures Unwrap(s.unack[0].header.seqno, s.isn, s.next) == s.next - s.inFlight
  {
    UnwrapWrap(s.next - s.inFlight, s.isn, s.next);
  }

  lemma QueueParts(s: Sender)
    requires Numbers(s) && Queue(s)
    ensures s.stream.Valid() && s.inFlight <= s.next && s.inFlight == Total(s.unack)
    ensures s.unack == [] ==> s.inFlight == 0 && PopAcked(s) == s
  {
    hide Tiles;
  }

  // The front segment goes if it is covered; what is then left still tiles its range.
  lemma FrontPopped(s: Sender)
    requires Numbers(s) && Queue(s) && s.unack != []
    ensures s.unack[0].Length() <= s.inFlight && s.stream.Valid() && s.inFlight == Total(s.unack)
    ensures var t := s.(unack := s.unack[1..], inFlight := s.inFlight - s.unack[0].Length());
            && Numbers(t) && Queue(t) && t.stream.Valid() && t.inFlight == Total(t.unack)
            && PopAcked(s) == if s.next - s.inFlight + s.unack[0].Length() <= s.recvAck then PopAcked(t) else s
  {
    hide TileAt, Wrap, Unwrap;
    FrontPosition(s);
  }

  /** The queue q is what is left of the queue p when segments in front of it have gone. */
  predicate Suffix(q: seq<Segment>, p: seq<Segment>) {
    |q| <= |p| && q == p[|p| - |q|..]
  }

  lemma SuffixLonger(q: seq<Segment>, p: seq<Segment>)
    ensures Suffix(p, p) && (Suffix(q, p) && |q| == |p| ==> q == p)
    ensures p != [] && Suffix(q, p[1..]) ==> Suffix(q, p) && |q| < |p|
  {
    if p != [] && Suffix(q, p[1..]) {
      var k := |p| - 1 - |q|;
      assert p[1..][k..] == p[k + 1..];
    }
  }

  lemma {:induction false} PopAckedQueue(s: Sender)
    requires Numbers(s) && Queue(s) && s.next - s.inFlight <= s.recvAck <= s.next
    ensures var p := PopAcked(s);
            && p == s.(unack := p.unack, inFlight := p.inFlight) && p.inFlight <= s.inFlight
            && Numbers(p) && Queue(p) && Acked(p) && Suffix(p.unack, s.unack) && |p.unack| <= |s.unack|
            && (|p.unack| < |s.unack| <==> s.unack != [] && s.next - s.inFlight + s.unack[0].Length() <= s.recvAck)
    decreases |s.unack|
  {
    hide Numbers, Queue, Total, Stream.Valid, Segment.Length, PopAcked, Suffix;
    QueueParts(s);
    if s.unack == [] {
      SuffixLonger([], s.unack);
    } else {
      FrontPopped(s);
      var t := s.(unack := s.unack[1..], inFlight := s.inFlight - s.unack[0].Length());
      if s.next - s.inFlight + s.unack[0].Length() <= s.recvAck {
        PopAckedQueue(t);
      }
      SuffixLonger(PopAcked(t).unack, s.unack);
    }
  }

  // The number books do not depend on the last acknowledgement.
  lemma AckAccepted(s: Sender, abs: nat)
    requires Numbers(s) && Queue(s)
    ensures Numbers(s.(recvAck := abs)) && Queue(s.(recvAck := abs))
    ensures s.stream.Valid() && s.inFlight == Total(s.unack)
  {
    hide Tiles, Total;
  }

  // Nor do any of the queue books depend on the timer and the window.
  lemma BooksKept(p: Sender, a: Sender)
    requires Numbers(p) && Queue(p) && Acked(p)
    requires a == p.(timer := a.timer, retx := a.retx, window := a.window)
    ensures Numbers(a) && Queue(a) && Acked(a)
  {
    hide Tiles, Total;
  }

  lemma InitialRto(rto: nat)
    ensures rto * Pow2(0) == rto
  {
  }

  /** What an accepted acknowledgement leaves: the books balance and only the queue, timer and window changed. */
  lemma AcknowledgeLedger(s: Sender, abs: nat, win: U16)
    requires Ledger(s) && s.recvAck <= abs <= s.next
    ensures var a := Acknowledge(s, abs, win);
            && Ledger(a)
            && a == s.(recvAck := abs, window := win, unack := a.unack, inFlight := a.inFlight, timer := a.timer,
                  retx := a.retx)
            && a.timer.initRto == s.timer.initRto && a.inFlight <= s.inFlight
            && Suffix(a.unack, s.unack) && |a.unack| <= |s.unack|
            && (|a.unack| < |s.unack| <==> s.unack != [] && s.next - s.inFlight + s.unack[0].Length() <= abs)
            && (|a.unack| == |s.unack| ==> a.retx == s.retx && a.timer == s.timer)
            && (|a.unack| < |s.unack| ==> Fresh(a))
  {
    hide Numbers, Queue, Acked, PopAcked, Pow2, Suffix;
    assert Numbers(s) && Queue(s) && Clock(s) && s.next - s.inFlight <= s.recvAck by { LedgerParts(s); }
    AckAccepted(s, abs);
    PopAckedQueue(s.(recvAck := abs));
    InitialRto(s.timer.initRto);
    BooksKept(PopAcked(s.(recvAck := abs)), Acknowledge(s, abs, win));
  }

  /**
   ack_received keeps the books; it ignores an acknowledgement outside
   [last accepted, next], and otherwise sends only segments that are then
   outstanding.
   */
  lemma AckReceivedLedger(s: Sender, ackno: U32, win: U16)
    requires Ledger(s) && Saturated(s)
    ensures var r, abs := AckReceived(s, ackno, win), Unwrap(ackno, s.isn, s.recvAck);
            && Ledger(r) && Saturated(r)
            && r.isn == s.isn && r.timer.initRto == s.timer.initRto
            && r.stream == s.stream.(popped := r.stream.popped)
            && s.stream.popped <= r.stream.popped && s.next <= r.next && s.next - s.inFlight <= r.next - r.inFlight
            && (s.synSet ==> r.synSet)
            && (s.finSet ==> r.finSet && r.next == s.next)
            && (s.recvAck <= abs <= s.next ==>
                  && r.recvAck == abs && r.window == win && r.synSet
                  && (r.next == s.next || r.next <= abs + Max(win, 1)))
            && (!(s.recvAck <= abs <= s.next) ==> r == s)
            && s.out <= r.out && (forall g :: g in r.out[|s.out|..] ==> g in r.unack)
  {
    hide Ledger, Unwrap, FillWindow, Acknowledge, Saturated;
    var abs := Unwrap(ackno, s.isn, s.recvAck);
    if s.recvAck <= abs <= s.next {
      assert s.stream.Valid() && s.inFlight == Total(s.unack) by { LedgerParts(s); }
      AcknowledgeLedger(s, abs, win);
      var a := Acknowledge(s, abs, win);
      FillWindowLedger(a);
      FillWindowReach(a);
      ExtendsOut(a, FillWindow(a));
    }
  }

  /** The last acknowledgement lies before the end of the oldest outstanding segment. */
  lemma FrontUnacked(s: Sender)
    requires Ledger(s) && s.unack != []
    ensures s.recvAck < s.next - s.inFlight + s.unack[0].Length() <= s.next
  {
    TilesTotal(s.unack[1..], s.isn, s.next - s.inFlight + s.unack[0].Length(), s.next, Sent(s), s.finSet);
  }

  // ---------------------------------------------------------------------
  // The timer

  /** The first number that is not acknowledged. */
  function Base(s: Sender): int {
    s.next - s.inFlight
  }

  /** The timer has just been set: no time has passed and nothing has been retransmitted. */
  predicate Fresh(s: Sender) {
    s.retx == 0 && s.timer.elapsed == 0 && s.timer.curRto == s.timer.initRto
  }

  /**
   What anything but the passing of time does to the clock of a sender with something
   outstanding: it goes on as it was, unless something new was acknowledged or nothing
   was outstanding before; then it starts afresh.
   */
  predicate Paced(s: Sender, s': Sender) {
    && s'.timer.initRto == s.timer.initRto && Base(s) <= Base(s')
    && (s'.unack != [] ==>
          if s.unack != [] && Base(s') == Base(s) then s'.timer == s.timer && s'.retx == s.retx else Fresh(s'))
  }

  /** Filling the window does not disturb a running timer, and starts an idle one afresh. */
  lemma FillPaced(s: Sender)
    requires Ledger(s)
    ensures Paced(s, FillWindow(s)) && Base(FillWindow(s)) == Base(s)
    ensures Fresh(s) ==> FillWindow(s).unack == [] || Fresh(FillWindow(s))
  {
    hide Ledger, FillWindow, Pow2;
    FillWindowLedger(s);
    assert s.stream.Valid() && Clock(s) by { LedgerParts(s); }
    assert Clock(FillWindow(s)) by { LedgerParts(FillWindow(s)); }
    InitialRto(s.timer.initRto);
  }

  /** An acknowledgement starts the timer afresh if it acknowledges something new, and leaves it alone if not. */
  lemma AckPaced(s: Sender, ackno: U32, win: U16)
    requires Ledger(s)
    ensures s.stream.Valid() && s.inFlight == Total(s.unack)
    ensures Paced(s, AckReceived(s, ackno, win))
  {
    hide Ledger, FillWindow, Unwrap, Acknowledge, Total, Suffix;
    assert s.stream.Valid() && s.inFlight == Total(s.unack) by { LedgerParts(s); }
    var abs := Unwrap(ackno, s.isn, s.recvAck);
    if s.recvAck <= abs <= s.next {
      AcknowledgeLedger(s, abs, win);
      var a := Acknowledge(s, abs, win);
      assert a.inFlight == Total(a.unack) by { LedgerParts(a); }
      assert s.unack != [] ==> s.timer.running by { LedgerParts(s); }
      FillPaced(a);
      if |a.unack| < |s.unack| { PoppedBase(s, a); } else { SuffixLonger(a.unack, s.unack); }
    }
  }

  // Taking segments off the front moves the first unacknowledged number.
  lemma PoppedBase(s: Sender, a: Sender)
    requires Ledger(s) && Ledger(a) && a.next == s.next && a.inFlight <= s.inFlight
    requires |a.unack| < |s.unack| && Suffix(a.unack, s.unack)
    ensures Base(s) < Base(a)
  {
    hide TileAt;
    TotalShorter(s.unack, |s.unack| - |a.unack|);
  }

  lemma TotalShorter(segs: seq<Segment>, k: nat)
    requires 0 < k <= |segs| && segs[0].Length() > 0
    ensures Total(segs[k..]) < Total(segs)
  {
    if k > 1 {
      TotalSuffix(segs[1..], k - 1);
      assert segs[1..][k - 1..] == segs[k..];
    }
  }

  lemma {:induction false} TotalSuffix(segs: seq<Segment>, k: nat)
    requires k <= |segs|
    ensures Total(segs[k..]) <= Total(segs)
  {
    if k > 0 {
      TotalSuffix(segs[1..], k - 1);
      assert segs[1..][k - 1..] == segs[k..];
    } else {
      assert segs[0..] == segs;
    }
  }

  lemma ExtendsOut(s: Sender, r: Sender)
    requires Extends(s, r)
    ensures s.out <= r.out && (forall g :: g in r.out[|s.out|..] ==> g in r.unack)
  {
    assert r.out[|s.out|..] == r.unack[|s.unack|..];
  }

  // ---------------------------------------------------------------------
  // Ticks, empty segments and the application's side

  lemma TickLedger(s: Sender, ms: nat)
    requires Ledger(s)
    ensures var r := Tick(s, ms);
            && Ledger(r)
            && r == s.(out := r.out, retx := r.retx, timer := r.timer)
            && r.timer.initRto == s.timer.initRto
            && (r.out == s.out || (s.unack != [] && r.out == s.out + [s.unack[0]]))
            && (Saturated(s) ==> Saturated(r))
            && (s.unack == [] ==> r.retx == 0)
  {
    hide Tiles;
    var c, i, n := s.timer.curRto, s.timer.initRto, Pow2(s.retx);
    assert Pow2(s.retx + 1) == 2 * n;
    assert 2 * (i * n) == i * (2 * n);
  }

  lemma SendEmptyLedger(s: Sender, rst: bool)
    requires Ledger(s)
    ensures Ledger(SendEmpty(s, rst)) && (Saturated(s) ==> Saturated(SendEmpty(s, rst)))
  {
  }

  /**
   With flags the books survive if and only if neither SYN nor FIN is set: such a segment
   takes a number that no outstanding segment accounts for.
   */
  lemma FlaggedLedgerIff(s: Sender, syn: bool, fin: bool, rst: bool)
    requires Ledger(s)
    ensures Ledger(SendFlagged(s, syn, fin, rst)) <==> !syn && !fin
  {
    hide Ledger, SendFlagged;
    if syn || fin {
      FlaggedBreaks(s, syn, fin, rst);
    } else {
      SendEmptyLedger(s, rst);
      assert SendFlagged(s, syn, fin, rst) == SendEmpty(s, rst) by { FlaggedEmpty(s, rst); }
    }
  }

  lemma FlaggedEmpty(s: Sender, rst: bool)
    ensures SendFlagged(s, false, false, rst) == SendEmpty(s, rst)
  {
  }

  // A number is skipped, so the queue no longer tiles what is in flight.
  lemma FlaggedBreaks(s: Sender, syn: bool, fin: bool, rst: bool)
    requires Ledger(s) && (syn || fin)
    ensures !Ledger(SendFlagged(s, syn, fin, rst))
  {
    hide Pow2, Wrap;
    var r := SendFlagged(s, syn, fin, rst);
    if s.unack != [] && Ledger(r) {
      assert s.unack[0].header.seqno == Wrap(Base(s), s.isn) && s.unack[0].header.seqno == Wrap(Base(r), s.isn);
      WrapInjective(Base(s), Base(r), s.isn);
    }
  }

  /** The application writes more, ends its input, or the stream fails: the books do not move. */
  lemma StreamLedger(s: Sender, t: Stream)
    requires Ledger(s) && t.Valid() && |t.history| < STREAM_LIMIT
    requires t == s.stream.(history := t.history, ended := t.ended, error := t.error)
    requires s.stream.history <= t.history && (s.stream.ended ==> t.ended && t.history == s.stream.history)
    ensures Ledger(s.(stream := t))
    ensures Sent(s.(stream := t)) == Sent(s)
  {
    hide Tiles;
    assert Sent(s.(stream := t)) == Sent(s);
  }

  /** Every outstanding segment is a tile, at the position its own number unwraps to. */
  lemma OutstandingTile(s: Sender, g: Segment)
    requires Ledger(s) && g in s.unack
    ensures var q := Unwrap(g.header.seqno, s.isn, s.next);
            && s.next - s.inFlight <= q && q + g.Length() <= s.next && g.Length() > 0 && !g.header.ack
            && TileAt(g, q, s.isn, Sent(s), s.finSet)
  {
    var q := TilesMember(s.unack, s.isn, s.next - s.inFlight, s.next, Sent(s), s.finSet, g);
    UnwrapWrap(q, s.isn, s.next);
  }

  lemma {:induction false} TilesMember(segs: seq<Segment>, isn: U32, from: nat, to: nat, sent: seq<Byte>,
                                       fin: bool, g: Segment)
    returns (q: nat)
    requires Tiles(segs, isn, from, to, sent, fin) && g in segs
    ensures from <= q && q + g.Length() <= to && g.Length() > 0 && !g.header.ack && TileAt(g, q, isn, sent, fin)
  {
    TilesTotal(segs[1..], isn, from + segs[0].Length(), to, sent, fin);
    if g == segs[0] {
      q := from;
    } else {
      q := TilesMember(segs[1..], isn, from + segs[0].Length(), to, sent, fin, g);
    }
  }

  lemma BarePosition(s: Sender, rst: bool)
    requires Ledger(s)
    ensures Unwrap(Bare(s, rst).header.seqno, s.isn, s.next) == s.next
  {
    UnwrapWrap(s.next, s.isn, s.next);
  }
}
