/**
 The sender over every sequence of calls: its books in every reachable state, and
 how long it keeps trying (section 5 of RFC 6298).
 */
module SendingRuns {
  import opened Types
  import opened WrappingIntegers
  import opened Sending
  import opened SendingProofs

  /** Anything that can be done to a sender; acknowledgements may be of any number, old or never sent. */
  datatype Call =
    | WriteStream(data: seq<Byte>)
    | EndStream
    | Fill
    | Ack(ackno: U32, win: U16)
    | Elapse(ms: nat)
    | Empty(rst: bool)

  function Apply(s: Sender, call: Call): Sender
    requires s.stream.Valid() && s.inFlight == Total(s.unack)
  {
    match call
    case WriteStream(data) => s.(stream := s.stream.Write(data))
    case EndStream => s.(stream := s.stream.EndInput())
    case Fill => FillWindow(s)
    case Ack(ackno, win) => AckReceived(s, ackno, win)
    case Elapse(ms) => Tick(s, ms)
    case Empty(rst) => SendEmpty(s, rst)
  }

  /** Each call keeps the books, and only time moves the timer of what stays outstanding. */
  lemma ApplyLedger(s: Sender, call: Call)
    requires Ledger(s) && (call.WriteStream? ==> |s.stream.history| + |call.data| < STREAM_LIMIT)
    ensures s.stream.Valid() && s.inFlight == Total(s.unack)
    ensures Ledger(Apply(s, call)) && (call.Elapse? || Paced(s, Apply(s, call)))
  {
    hide Ledger, FillWindow, Tick, Acknowledge, Unwrap, Extends;
    assert s.stream.Valid() && s.inFlight == Total(s.unack) && |s.stream.history| < STREAM_LIMIT by { LedgerParts(s); }
    InitialPaced(s);
    match call
    case WriteStream(data) => StreamLedger(s, s.stream.Write(data));
    case EndStream => StreamLedger(s, s.stream.EndInput());
    case Fill =>
      FillWindowLedger(s);
      FillPaced(s);
    case Ack(ackno, win) =>
      AckPaced(s, ackno, win);
      var abs := Unwrap(ackno, s.isn, s.recvAck);
      if s.recvAck <= abs <= s.next {
        AcknowledgeLedger(s, abs, win);
        FillWindowLedger(Acknowledge(s, abs, win));
      }
    case Elapse(ms) => TickLedger(s, ms);
    case Empty(rst) => SendEmptyLedger(s, rst);
  }

  lemma InitialPaced(s: Sender)
    requires Ledger(s)
    ensures Paced(s, s)
  {
  }

  /** The states of a sender, from its construction, as calls are made; fewer than 2^62 bytes are written. */
  ghost predicate Calls(capacity: nat, rto: nat, isn: U32, ss: seq<Sender>, calls: seq<Call>) {
    && |ss| == |calls| + 1
    && ss[0] == NewSender(capacity, rto, isn)
    && (forall k :: 0 <= k < |calls| && calls[k].WriteStream? ==>
        |ss[k].stream.history| + |calls[k].data| < STREAM_LIMIT)
    && (forall k :: 0 <= k < |calls| ==>
          ss[k].stream.Valid() && ss[k].inFlight == Total(ss[k].unack) && ss[k + 1] == Apply(ss[k], calls[k]))
  }

  /**
   The books balance in every reachable state, whatever is acknowledged: the outstanding
   queue tiles the numbers in flight, next_seqno counts SYN, bytes and FIN, the last
   acknowledgement lies in the front segment, and the timer runs exactly while something
   is outstanding, at the initial timeout doubled once per retransmission.
   */
  lemma {:induction false} LedgerAlways(capacity: nat, rto: nat, isn: U32, ss: seq<Sender>, calls: seq<Call>, k: nat)
    requires Calls(capacity, rto, isn, ss, calls) && k <= |calls|
    ensures Numbers(ss[k]) && Queue(ss[k]) && Acked(ss[k]) && Clock(ss[k])
  {
    if k == 0 {
      NewLedger(capacity, rto, isn);
      LedgerParts(ss[0]);
    } else {
      hide Numbers, Queue, Acked, Clock, Apply;
      LedgerAlways(capacity, rto, isn, ss, calls, k - 1);
      assert ss[k - 1 + 1] == Apply(ss[k - 1], calls[k - 1]);
      ApplyLedger(ss[k - 1], calls[k - 1]);
    }
  }

  lemma NewLedger(capacity: nat, rto: nat, isn: U32)
    ensures Ledger(NewSender(capacity, rto, isn))
  {
    InitialRto(rto);
  }

  // ---------------------------------------------------------------------
  // How long a sender waits

  /**
   How the sender moves from s to s' while ms pass: by a tick, or by anything else in no
   time. What is queued to leave and what the application wrote do not matter.
   */
  ghost predicate Moved(s: Sender, s': Sender, ms: nat) {
    && Ledger(s) && Ledger(s')
    && (s' == Tick(s, ms).(out := s'.out, stream := s'.stream) || (ms == 0 && Paced(s, s')))
  }

  /** The states of a sender that starts with nothing outstanding, and the time each step takes. */
  ghost predicate Timed(ss: seq<Sender>, ms: seq<nat>) {
    && |ss| == |ms| + 1
    && ss[0].unack == []
    && forall k :: 0 <= k < |ms| ==> Moved(ss[k], ss[k + 1], ms[k])
  }

  /** Step k leaves nothing outstanding or brings a new acknowledgement. */
  predicate Relieved(ss: seq<Sender>, k: nat)
    requires k < |ss|
  {
    k == 0 || ss[k].unack == [] || Base(ss[k - 1]) < Base(ss[k])
  }

  /** For how long something has been outstanding, by step k, with nothing new acknowledged. */
  function Waited(ss: seq<Sender>, ms: seq<nat>, k: nat): nat
    requires |ss| == |ms| + 1 && k <= |ms|
  {
    if Relieved(ss, k) then 0 else Waited(ss, ms, k - 1) + ms[k - 1]
  }

  /** During that time the clock advanced by at most `tick` at once, and only while the window was open. */
  predicate Steady(ss: seq<Sender>, ms: seq<nat>, k: nat, tick: nat)
    requires |ss| == |ms| + 1 && k <= |ms|
  {
    Relieved(ss, k)
    || (Steady(ss, ms, k - 1, tick) && (ms[k - 1] == 0 || (ms[k - 1] <= tick && ss[k - 1].window > 0)))
  }

  /** Each retransmission has used up its timeout. */
  ghost predicate SpentAtLeast(r: Sender, time: nat) {
    (Pow2(r.retx) - 1) * r.timer.initRto + r.timer.elapsed <= time
  }

  /** And has overrun it by less than a tick. */
  ghost predicate SpentAtMost(r: Sender, time: nat, tick: nat) {
    && time <= (Pow2(r.retx) - 1) * r.timer.initRto + r.timer.elapsed + r.retx * tick
    && (r.timer.elapsed < r.timer.curRto || r.timer.elapsed == 0)
  }

  lemma FreshSpent(r: Sender, tick: nat)
    requires Fresh(r)
    ensures SpentAtLeast(r, 0) && SpentAtMost(r, 0, tick)
  {
    assert Pow2(0) == 1;
  }

  // What a tick does to the clock of what is outstanding.
  lemma TickClock(r: Sender, ms: nat)
    requires Ledger(r) && r.unack != []
    ensures var t := Tick(r, ms);
            && t.timer.initRto == r.timer.initRto && r.timer.curRto == r.timer.initRto * Pow2(r.retx)
            && if r.timer.elapsed + ms < r.timer.curRto
               then t.retx == r.retx && t.timer.elapsed == r.timer.elapsed + ms && t.timer.curRto == r.timer.curRto
               else t.retx == (if r.window > 0 then r.retx + 1 else r.retx) && t.timer.elapsed == 0
  {
    hide Ledger, Pow2;
    assert r.timer.running && r.timer.curRto == r.timer.initRto * Pow2(r.retx) by { LedgerParts(r); }
  }

  // One retransmission more uses up the next timeout.
  lemma TimeoutSpent(n: nat, rto: nat)
    ensures (Pow2(n + 1) - 1) * rto == (Pow2(n) - 1) * rto + rto * Pow2(n) && Pow2(n) > 0
  {
    var p := Pow2(n);
    assert Pow2(n + 1) == 2 * p;
    assert (2 * p - 1) * rto == (p - 1) * rto + rto * p;
    Pow2Grows(n, n);
  }

  lemma TickSpent(r: Sender, time: nat, ms: nat, tick: nat)
    requires Ledger(r) && r.unack != []
    ensures SpentAtLeast(r, time) ==> SpentAtLeast(Tick(r, ms), time + ms)
    ensures SpentAtMost(r, time, tick) && (ms == 0 || (ms <= tick && r.window > 0)) ==>
            SpentAtMost(Tick(r, ms), time + ms, tick)
  {
    hide Ledger, Tick, Pow2;
    TickClock(r, ms);
    TimeoutSpent(r.retx, r.timer.initRto);
    assert (r.retx + 1) * tick == r.retx * tick + tick;
  }

  lemma {:induction false} WaitedSpent(ss: seq<Sender>, ms: seq<nat>, k: nat, tick: nat)
    requires Timed(ss, ms) && k <= |ms| && ss[k].unack != []
    ensures SpentAtLeast(ss[k], Waited(ss, ms, k))
    ensures Steady(ss, ms, k, tick) ==> SpentAtMost(ss[k], Waited(ss, ms, k), tick)
  {
    hide Ledger, Tick, SpentAtLeast, SpentAtMost;
    var s, s', t := ss[k - 1], ss[k], ms[k - 1];
    assert Moved(s, ss[k - 1 + 1], t);
    TickLedger(s, t);
    if s.unack == [] || Base(s) != Base(s') {
      FreshSpent(s', tick);
    } else {
      WaitedSpent(ss, ms, k - 1, tick);
      if t == 0 && Paced(s, s') {
        SameSpent(s, s', Waited(ss, ms, k - 1), tick);
      } else {
        TickSpent(s, Waited(ss, ms, k - 1), t, tick);
        SameSpent(Tick(s, t), s', Waited(ss, ms, k - 1) + t, tick);
      }
    }
  }

  lemma SameSpent(s: Sender, s': Sender, time: nat, tick: nat)
    requires s'.timer == s.timer && s'.retx == s.retx
    ensures SpentAtLeast(s, time) ==> SpentAtLeast(s', time)
    ensures SpentAtMost(s, time, tick) ==> SpentAtMost(s', time, tick)
  {
  }

  /**
   However it got there: a sender past its eighth retransmission has waited at least 511
   timeouts for a new acknowledgement; and one that has waited, with an open window and
   ticks of at most `tick`, for more than 511 timeouts and eight ticks is past it.
   */
  lemma WaitedBounds(ss: seq<Sender>, ms: seq<nat>, k: nat, tick: nat)
    requires Timed(ss, ms) && 0 < k <= |ms|
    ensures var rto, time := ss[k].timer.initRto, Waited(ss, ms, k);
            && (8 < ss[k].retx ==> 511 * rto <= time)
            && (Steady(ss, ms, k, tick) && 511 * rto + 8 * tick < time ==> 8 < ss[k].retx)
  {
    hide Ledger, Waited, Pow2, Steady, Moved;
    var r := ss[k];
    assert Moved(ss[k - 1], ss[k - 1 + 1], ms[k - 1]);
    assert Ledger(r) by { MovedLedger(ss[k - 1], r, ms[k - 1]); }
    assert Clock(r) by { LedgerParts(r); }
    EighthPower();
    if r.unack == [] {
      NotWaiting(ss, ms, k);
    } else {
      WaitedSpent(ss, ms, k, tick);
      if 8 < r.retx {
        Pow2Grows(9, r.retx);
        MulLe(511, Pow2(r.retx) - 1, r.timer.initRto);
      } else if Steady(ss, ms, k, tick) {
        Pow2Grows(r.retx, 8);
        SpentBelow(r.timer.initRto, Pow2(r.retx), r.retx, r.timer.elapsed, tick);
      }
    }
  }

  lemma MovedLedger(s: Sender, s': Sender, ms: nat)
    requires Moved(s, s', ms)
    ensures Ledger(s') && s'.timer.initRto == s.timer.initRto
  {
  }

  lemma NotWaiting(ss: seq<Sender>, ms: seq<nat>, k: nat)
    requires |ss| == |ms| + 1 && k <= |ms| && ss[k].unack == []
    ensures Waited(ss, ms, k) == 0
  {
  }

  /** The time a call takes. */
  function Duration(call: Call): nat {
    if call.Elapse? then call.ms else 0
  }

  function Durations(calls: seq<Call>): (ms: seq<nat>)
    ensures |ms| == |calls|
    ensures forall k :: 0 <= k < |calls| ==> ms[k] == Duration(calls[k])
  {
    seq(|calls|, k requires 0 <= k < |calls| => Duration(calls[k]))
  }

  lemma CallsTimed(capacity: nat, rto: nat, isn: U32, ss: seq<Sender>, calls: seq<Call>)
    requires Calls(capacity, rto, isn, ss, calls)
    ensures Timed(ss, Durations(calls))
  {
    hide Ledger, Paced, Tick, Numbers, Queue, Acked, Clock, AckReceived, FillWindow;
    forall k | 0 <= k < |calls|
      ensures Moved(ss[k], ss[k + 1], Durations(calls)[k])
    {
      LedgerAlways(capacity, rto, isn, ss, calls, k);
      assert Ledger(ss[k]) by { LedgerWhole(ss[k]); }
      ApplyLedger(ss[k], calls[k]);
    }
  }

  lemma LedgerWhole(s: Sender)
    requires Numbers(s) && Queue(s) && Acked(s) && Clock(s)
    ensures Ledger(s)
  {
  }

  lemma {:induction false} RtoKept(ss: seq<Sender>, ms: seq<nat>, k: nat)
    requires Timed(ss, ms) && k <= |ms|
    ensures ss[k].timer.initRto == ss[0].timer.initRto
  {
    hide Moved;
    if k == 0 {
    } else {
      RtoKept(ss, ms, k - 1);
      assert Moved(ss[k - 1], ss[k - 1 + 1], ms[k - 1]);
      MovedLedger(ss[k - 1], ss[k], ms[k - 1]);
    }
  }

  /**
   On every run of a sender from its construction, with any calls: the ninth
   retransmission has not come before 511 timeouts without a new acknowledgement; and
   with an open window and ticks of at most `tick` it has come once 511 timeouts and
   eight more ticks have passed without one.
   */
  lemma ExhaustionTiming(capacity: nat, rto: nat, isn: U32, ss: seq<Sender>, calls: seq<Call>, k: nat, tick: nat)
    requires Calls(capacity, rto, isn, ss, calls) && k <= |calls|
    ensures var time := Waited(ss, Durations(calls), k);
            && (8 < ss[k].retx ==> 511 * rto <= time)
            && (Steady(ss, Durations(calls), k, tick) && 511 * rto + 8 * tick < time ==> 8 < ss[k].retx)
  {
    CallsTimed(capacity, rto, isn, ss, calls);
    RtoKept(ss, Durations(calls), k);
    if k > 0 {
      hide Calls, Waited, Steady, Timed;
      WaitedBounds(ss, Durations(calls), k, tick);
    }
  }

  lemma {:induction false} Pow2Grows(m: nat, n: nat)
    requires m <= n
    ensures 1 <= Pow2(m) <= Pow2(n)
  {
    if m < n { Pow2Grows(m, n - 1); } else if m > 0 { Pow2Grows(m - 1, m - 1); }
  }

  lemma SpentBelow(rto: nat, p: nat, n: nat, elapsed: nat, tick: nat)
    requires 1 <= p <= 256 && n <= 8 && (elapsed < rto * p || elapsed == 0)
    ensures (p - 1) * rto + elapsed + n * tick <= 511 * rto + 8 * tick
  {
    MulLe(n, 8, tick);
    MulLe(2 * p - 1, 511, rto);
    assert (2 * p - 1) * rto == (p - 1) * rto + rto * p;
  }

  lemma EighthPower()
    ensures Pow2(8) == 256 && Pow2(9) == 512
  {
    assert Pow2(2) == 4;
    assert Pow2(4) == 16;
    assert Pow2(6) == 64;
    assert Pow2(8) == 256;
  }

  lemma MulLe(a: int, b: int, c: nat)
    requires a <= b
    ensures a * c <= b * c
  {
  }
}
