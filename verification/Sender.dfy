/**
 The sending half of an endpoint (libsponge/tcp_sender.cc and the timer of
 tcp_sender.hh) as functions over values.
 */
module Sending {
  import opened Types
  import opened ByteStreams
  import opened Segments
  import opened WrappingIntegers

  const MAX_PAYLOAD_SIZE: nat := 1000

  datatype Timer = Timer(initRto: nat, curRto: nat, elapsed: nat, running: bool)
  {
    function Start(): Timer { this.(elapsed := 0, running := true) }

    function Stop(): Timer { this.(running := false) }

    function Reset(): Timer { this.(curRto := initRto) }

    function ResetDouble(): Timer { this.(curRto := 2 * curRto) }

    function Tick(ms: nat): Timer { if running then this.(elapsed := elapsed + ms) else this }

    predicate Expired() { running && curRto <= elapsed }
  }

  datatype Sender = Sender(
    isn: U32, out: seq<Segment>, stream: Stream, next: nat, recvAck: nat, synSet: bool, finSet: bool,
    timer: Timer, retx: nat, window: U16, inFlight: nat, unack: seq<Segment>)

  function NewSender(capacity: nat, rto: nat, isn: U32): Sender {
    Sender(isn, [], NewStream(capacity), 0, 0, false, false, Timer(rto, rto, 0, false), 0, 1, 0, [])
  }

  /** Sequence numbers occupied by a queue of segments. */
  function Total(segs: seq<Segment>): nat {
    if segs == [] then 0 else segs[0].Length() + Total(segs[1..])
  }

  /** The segment that push_segment builds when `length` numbers of the window are free. */
  function NextSegment(s: Sender, length: nat): Segment
    requires s.stream.Valid() && Bit(!s.synSet) <= length
  {
    var size := Min(MAX_PAYLOAD_SIZE, Min(length - Bit(!s.synSet), s.stream.Buffered()));
    var fin := !s.finSet && s.stream.Pop(size).Eof() && size + Bit(!s.synSet) < length;
    Segment(BLANK.(syn := !s.synSet, fin := fin, seqno := Wrap(s.next, s.isn)), s.stream.Peek(size))
  }

  /** Segment g is sent for the first time: it goes out and joins the outstanding queue. */
  function Launch(s: Sender, g: Segment): Sender
    requires s.stream.Valid()
  {
    s.(synSet := true,
       finSet := s.finSet || g.header.fin,
       stream := s.stream.Pop(|g.payload|),
       out := s.out + [g],
       unack := s.unack + [g],
       timer := if s.timer.running then s.timer else s.timer.Start(),
       next := s.next + g.Length(),
       inFlight := s.inFlight + g.Length())
  }

  /** push_segment, and whether it sent a segment. */
  function PushSegment(s: Sender, length: nat): (r: (Sender, bool))
    requires s.stream.Valid()
    ensures r.0.stream.Valid() && r.0.window == s.window && r.0.stream.history == s.stream.history
    ensures r.1 ==> length > 0 && r.0.inFlight > s.inFlight
  {
    if length < Bit(!s.synSet) then (s.(synSet := true), false)
    else
      var g := NextSegment(s, length);
      if g.Length() == 0 then (s.(synSet := true), false) else (Launch(s, g), true)
  }

  function FillOpenWindow(s: Sender): (r: Sender)
    requires s.stream.Valid()
    ensures r.stream.Valid() && r.stream.history == s.stream.history
    decreases s.window - s.inFlight
  {
    var (s', more) := PushSegment(s, Max(0, s.window - s.inFlight));
    if more then FillOpenWindow(s') else s'
  }

  /** fill_window: a closed window is treated as one number wide. */
  function FillWindow(s: Sender): (r: Sender)
    requires s.stream.Valid()
    ensures r.stream.Valid() && r.stream.history == s.stream.history
  {
    if s.window > 0 then FillOpenWindow(s)
    else if s.inFlight == 0 then PushSegment(s, 1).0
    else s
  }

  /** The outstanding segments in front that the acknowledgement covers are dropped. */
  function PopAcked(s: Sender): (r: Sender)
    requires s.stream.Valid() && s.inFlight == Total(s.unack)
    ensures r.stream.Valid()
    decreases |s.unack|
  {
    if s.unack == [] then s
    else
      var g := s.unack[0];
      if Unwrap(g.header.seqno, s.isn, s.next) + g.Length() <= s.recvAck then
        PopAcked(s.(unack := s.unack[1..], inFlight := s.inFlight - g.Length()))
      else s
  }

  /** What an acceptable acknowledgement does before the window is refilled. */
  function Acknowledge(s: Sender, abs: nat, win: U16): (r: Sender)
    requires s.stream.Valid() && s.inFlight == Total(s.unack)
    ensures r.stream.Valid()
  {
    var p := PopAcked(s.(recvAck := abs));
    var q := if |p.unack| < |s.unack| then p.(retx := 0, timer := p.timer.Reset().Start()) else p;
    var t := if q.unack == [] then q.(timer := q.timer.Stop()) else q;
    t.(window := win)
  }

  function AckReceived(s: Sender, ackno: U32, win: U16): (r: Sender)
    requires s.stream.Valid() && s.inFlight == Total(s.unack)
    ensures r.stream.Valid()
  {
    var abs := Unwrap(ackno, s.isn, s.recvAck);
    if abs > s.next || abs < s.recvAck then s
    else FillWindow(Acknowledge(s, abs, win))
  }

  function Tick(s: Sender, ms: nat): Sender {
    var s := s.(timer := s.timer.Tick(ms));
    if s.timer.Expired() && s.unack != [] then
      var s := s.(out := s.out + [s.unack[0]]);
      if s.window > 0 then s.(retx := s.retx + 1, timer := s.timer.ResetDouble().Start())
      else s.(timer := s.timer.Start())
    else s
  }

  /** A segment that occupies no sequence numbers. */
  function Bare(s: Sender, rst: bool): Segment {
    Segment(BLANK.(seqno := Wrap(s.next, s.isn), rst := rst), [])
  }

  function SendEmpty(s: Sender, rst: bool): Sender {
    s.(out := s.out + [Bare(s, rst)])
  }

  /** send_empty_segment with flags: SYN and FIN are numbered, but the segment does not join the outstanding queue. */
  function SendFlagged(s: Sender, syn: bool, fin: bool, rst: bool): Sender {
    var g := Bare(s, rst);
    s.(out := s.out + [g.(header := g.header.(syn := syn, fin := fin))],
       synSet := s.synSet || syn, finSet := s.finSet || fin, next := s.next + Bit(syn) + Bit(fin))
  }
}
