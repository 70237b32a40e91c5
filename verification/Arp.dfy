/**
 The network interface: address resolution, its cache, and the datagrams that
 wait for it (libsponge/network_interface.cc), as functions over values.
 */
module ArpInterfaces {
  import opened Types
  import opened Ipv4Formats

  type Mac = x: int | 0 <= x < 0x1_0000_0000_0000

  const BROADCAST: Mac := 0xffff_ffff_ffff
  const ARP_ENTRY_TTL_MS: nat := 30000
  const ARP_REPLY_TTL_MS: nat := 5000

  datatype ArpMessage = ArpMessage(request: bool, senderMac: Mac, senderIp: U32, targetMac: Mac, targetIp: U32)

  /** A frame's payload as its type and parser present it. */
  datatype Body = Ip(dgram: Datagram) | Arp(msg: ArpMessage) | Unparsable

  datatype Frame = Frame(src: Mac, dst: Mac, body: Body)

  datatype Mapping = Mapping(mac: Mac, age: nat)

  datatype Interface = Interface(
    mac: Mac, ip: U32, table: map<U32, Mapping>, requests: map<U32, nat>,
    waiting: map<U32, seq<Datagram>>, out: seq<Frame>)
  {
    /** The datagrams that wait for address k. */
    function Queue(k: U32): seq<Datagram> {
      if k in waiting then waiting[k] else []
    }

    function RequestFor(k: U32): Frame {
      Frame(mac, BROADCAST, Arp(ArpMessage(true, mac, ip, 0, k)))
    }

    function ReplyTo(m: ArpMessage): Frame {
      Frame(mac, m.senderMac, Arp(ArpMessage(false, mac, ip, m.senderMac, m.senderIp)))
    }
  }

  function NewInterface(mac: Mac, ip: U32): Interface {
    Interface(mac, ip, map[], map[], map[], [])
  }

  /** The frames that carry ds to a station. */
  function Framed(src: Mac, dst: Mac, ds: seq<Datagram>): (fs: seq<Frame>)
    ensures |fs| == |ds|
  {
    if ds == [] then [] else [Frame(src, dst, Ip(ds[0]))] + Framed(src, dst, ds[1..])
  }

  /** send_datagram. */
  function SendDatagram(s: Interface, d: Datagram, hop: U32): Interface {
    if hop in s.table then
      s.(out := s.out + [Frame(s.mac, s.table[hop].mac, Ip(d))])
    else if hop !in s.requests then
      s.(out := s.out + [s.RequestFor(hop)],
         requests := s.requests[hop := 0],
         waiting := if hop in s.waiting then s.waiting else s.waiting[hop := [d]])
    else
      s.(waiting := s.waiting[hop := s.Queue(hop) + [d]])
  }

  predicate ForUs(s: Interface, f: Frame) {
    f.dst == s.mac || f.dst == BROADCAST
  }

  /** An ARP message from address k that the interface looks at. */
  predicate Announces(s: Interface, f: Frame, k: U32) {
    ForUs(s, f) && f.body.Arp? && f.body.msg.senderIp == k
  }

  /** What an accepted ARP message does. */
  function Learn(s: Interface, m: ArpMessage): Interface {
    var reply := if m.request && m.targetIp == s.ip then [s.ReplyTo(m)] else [];
    s.(table := s.table[m.senderIp := Mapping(m.senderMac, 0)],
       out := s.out + reply + Framed(s.mac, m.senderMac, s.Queue(m.senderIp)),
       waiting := s.waiting - {m.senderIp})
  }

  /** recv_frame, apart from the datagram it returns. */
  function ReceiveFrame(s: Interface, f: Frame): Interface {
    if ForUs(s, f) && f.body.Arp? then Learn(s, f.body.msg) else s
  }

  /** The datagram that recv_frame returns. */
  function PassedUp(s: Interface, f: Frame): Option<Datagram> {
    if ForUs(s, f) && f.body.Ip? then Some(f.body.dgram) else None
  }

  function AgedTable(t: map<U32, Mapping>, ms: nat): map<U32, Mapping> {
    map k | k in t && t[k].age + ms < ARP_ENTRY_TTL_MS :: Mapping(t[k].mac, t[k].age + ms)
  }

  function AgedRequests(r: map<U32, nat>, ms: nat): map<U32, nat> {
    map k | k in r && r[k] + ms < ARP_REPLY_TTL_MS :: r[k] + ms
  }

  /** The waiting datagrams whose request has not run out. */
  function StillWaiting(w: map<U32, seq<Datagram>>, r: map<U32, nat>, ms: nat): map<U32, seq<Datagram>> {
    map k | k in w && (k in r ==> r[k] + ms < ARP_REPLY_TTL_MS) :: w[k]
  }

  /** tick. */
  function Elapse(s: Interface, ms: nat): Interface {
    s.(table := AgedTable(s.table, ms),
       requests := AgedRequests(s.requests, ms),
       waiting := StillWaiting(s.waiting, s.requests, ms))
  }

  datatype Op = Send(dgram: Datagram, hop: U32) | Receive(frame: Frame) | Tick(ms: nat)

  function Step(s: Interface, op: Op): Interface {
    match op
    case Send(d, hop) => SendDatagram(s, d, hop)
    case Receive(f) => ReceiveFrame(s, f)
    case Tick(ms) => Elapse(s, ms)
  }

  /** The interface after a run. */
  function Run(s: Interface, ops: seq<Op>): Interface {
    if ops == [] then s else Step(Run(s, ops[..|ops| - 1]), ops[|ops| - 1])
  }

  function Duration(op: Op): nat {
    if op.Tick? then op.ms else 0
  }

  /** The milliseconds that pass during a run. */
  function Elapsed(ops: seq<Op>): nat {
    if ops == [] then 0 else Elapsed(ops[..|ops| - 1]) + Duration(ops[|ops| - 1])
  }

  /** The frames that a step queues. */
  function Emission(s: Interface, op: Op): seq<Frame> {
    Step(s, op).out[Min(|s.out|, |Step(s, op).out|)..]
  }

  /** A step only appends to the output queue. */
  lemma Appends(s: Interface, op: Op)
    ensures Step(s, op).out == s.out + Emission(s, op)
    ensures Step(s, op).mac == s.mac && Step(s, op).ip == s.ip
  {
    assert s.out <= Step(s, op).out;
  }

  // ---------------------------------------------------------------------
  // The three maps

  /**
   What ties the three maps together at address k. A reply leaves the request's
   timer in place, so a request may coexist with a mapping; but it is never
   younger than the mapping, and so runs out first.
   */
  predicate InvAt(s: Interface, k: U32) {
    && (k in s.table ==> s.table[k].age < ARP_ENTRY_TTL_MS)
    && (k in s.requests ==> s.requests[k] < ARP_REPLY_TTL_MS)
    && (k in s.table && k in s.requests ==> s.table[k].age <= s.requests[k])
    && (k in s.waiting <==> k in s.requests && k !in s.table)
    && (k in s.waiting ==> s.waiting[k] != [])
  }

  lemma StepInv(s: Interface, op: Op, k: U32)
    requires InvAt(s, k)
    ensures InvAt(Step(s, op), k)
  {
  }

  /**
   On every run: a cache miss with a pending request always has a non-empty queue,
   and nothing waits for an address that is resolved or not asked for.
   */
  lemma {:induction false} RunInv(mac: Mac, ip: U32, ops: seq<Op>, k: U32)
    ensures InvAt(Run(NewInterface(mac, ip), ops), k)
  {
    if ops == [] {
    } else {
      RunInv(mac, ip, ops[..|ops| - 1], k);
      StepInv(Run(NewInterface(mac, ip), ops[..|ops| - 1]), ops[|ops| - 1], k);
    }
  }

  // ---------------------------------------------------------------------
  // Requests

  /** The step broadcasts a request for address k. */
  predicate Asks(s: Interface, op: Op, k: U32) {
    s.RequestFor(k) in Emission(s, op)
  }

  lemma {:induction false} FramedAreIp(src: Mac, dst: Mac, ds: seq<Datagram>, f: Frame)
    requires f in Framed(src, dst, ds)
    ensures f.body.Ip?
  {
    if f != Frame(src, dst, Ip(ds[0])) {
      FramedAreIp(src, dst, ds[1..], f);
    }
  }

  lemma AsksIff(s: Interface, op: Op, k: U32)
    ensures Asks(s, op, k) <==> op.Send? && op.hop == k && k !in s.table && k !in s.requests
  {
    Appends(s, op);
    match op
    case Send(d, hop) =>
      assert hop !in s.table && hop !in s.requests ==> Emission(s, op) == [s.RequestFor(hop)];
      assert hop in s.table ==> Emission(s, op) == [Frame(s.mac, s.table[hop].mac, Ip(d))];
    case Receive(f) =>
      if ForUs(s, f) && f.body.Arp? && s.RequestFor(k) in Framed(s.mac, f.body.msg.senderMac,
            s.Queue(f.body.msg.senderIp)) {
        FramedAreIp(s.mac, f.body.msg.senderMac, s.Queue(f.body.msg.senderIp), s.RequestFor(k));
      }
    case Tick(_) =>
  }

  // A request's age is the time since it was made, until it runs out.
  lemma {:induction false} RequestPending(s: Interface, ops: seq<Op>, k: U32)
    requires k in s.requests && s.requests[k] + Elapsed(ops) < ARP_REPLY_TTL_MS
    ensures k in Run(s, ops).requests && Run(s, ops).requests[k] == s.requests[k] + Elapsed(ops)
  {
    if ops == [] {
    } else {
      RequestPending(s, ops[..|ops| - 1], k);
    }
  }

  /** From any state, two requests for the same address are at least five seconds apart. */
  lemma RequestsSpaced(s: Interface, first: Op, between: seq<Op>, second: Op, k: U32)
    requires Asks(s, first, k) && Asks(Run(Step(s, first), between), second, k)
    ensures Elapsed(between) >= 5000
  {
    AsksIff(s, first, k);
    AsksIff(Run(Step(s, first), between), second, k);
    if Elapsed(between) < ARP_REPLY_TTL_MS {
      RequestPending(Step(s, first), between, k);
    }
  }

  // ---------------------------------------------------------------------
  // Mappings

  lemma MappingYoung(s: Interface, k: U32)
    requires InvAt(s, k) && k in s.table
    ensures s.table[k].age < ARP_ENTRY_TTL_MS
  {
  }

  lemma MappingLearnt(s: Interface, f: Frame, k: U32)
    requires Announces(s, f, k)
    ensures f.body.Arp?
    ensures k in Step(s, Receive(f)).table && Step(s, Receive(f)).table[k] == Mapping(f.body.msg.senderMac, 0)
  {
  }

  // A mapping that a step did not bring was there before, younger by what the step took.
  lemma MappingKept(s: Interface, op: Op, k: U32)
    requires k in Step(s, op).table && !(op.Receive? && Announces(s, op.frame, k))
    ensures k in s.table && Step(s, op).table[k] == Mapping(s.table[k].mac, s.table[k].age + Duration(op))
  {
  }

  /**
   A mapping in the cache was announced by its address in an ARP message that the
   interface received exactly `age` milliseconds ago, less than thirty seconds.
   */
  lemma {:induction false} MappingAnnounced(mac: Mac, ip: U32, ops: seq<Op>, k: U32) returns (j: nat)
    requires k in Run(NewInterface(mac, ip), ops).table
    ensures j < |ops| && ops[j].Receive? && Announces(Run(NewInterface(mac, ip), ops[..j]), ops[j].frame, k)
    ensures var m := Run(NewInterface(mac, ip), ops).table[k];
            m.mac == ops[j].frame.body.msg.senderMac && m.age == Elapsed(ops[j + 1..]) < 30000
  {
    hide Step, Announces, InvAt;
    var n := |ops| - 1;
    var s := Run(NewInterface(mac, ip), ops[..n]);
    if ops[n].Receive? && Announces(s, ops[n].frame, k) {
      j := n;
      MappingLearnt(s, ops[n].frame, k);
      assert ops[n + 1..] == [];
    } else {
      MappingKept(s, ops[n], k);
      j := MappingAnnounced(mac, ip, ops[..n], k);
      assert ops[..n][..j] == ops[..j];
      assert ops[j + 1..][..n - j - 1] == ops[..n][j + 1..];
    }
    RunInv(mac, ip, ops, k);
    MappingYoung(Run(NewInterface(mac, ip), ops), k);
  }

  /** No ARP message from address k was received from position `from` of the run on. */
  predicate SilentFrom(s: Interface, ops: seq<Op>, from: nat, k: U32) {
    |ops| <= from
    || (var n := |ops| - 1;
        && SilentFrom(s, ops[..n], from, k)
        && !(ops[n].Receive? && Announces(Run(s, ops[..n]), ops[n].frame, k)))
  }

  // A request that a step did not make was there before; so was its lack of an answer.
  lemma RequestKept(s: Interface, op: Op, k: U32)
    requires InvAt(s, k) && k in Step(s, op).requests && !Asks(s, op, k)
    ensures k in s.requests && Step(s, op).requests[k] == s.requests[k] + Duration(op)
    ensures k !in Step(s, op).table ==> k !in s.table && !(op.Receive? && Announces(s, op.frame, k))
  {
    AsksIff(s, op, k);
  }

  lemma RequestNew(s: Interface, op: Op, k: U32)
    requires Asks(s, op, k)
    ensures k in Step(s, op).requests && Step(s, op).requests[k] == 0
  {
    AsksIff(s, op, k);
  }

  lemma ElapsedFrom(ops: seq<Op>, j: nat)
    requires j < |ops|
    ensures var n := |ops| - 1; Elapsed(ops[j..]) == Elapsed(ops[..n][j..]) + Duration(ops[n])
  {
    var n := |ops| - 1;
    assert ops[j..][..n - j] == ops[..n][j..];
  }

  /**
   A pending request was made exactly as long ago as its age says, and while its
   address is unresolved nothing has been heard from that address since.
   */
  lemma {:induction false} RequestMade(mac: Mac, ip: U32, ops: seq<Op>, k: U32) returns (j: nat)
    requires k in Run(NewInterface(mac, ip), ops).requests
    ensures j < |ops| && Asks(Run(NewInterface(mac, ip), ops[..j]), ops[j], k)
    ensures Run(NewInterface(mac, ip), ops).requests[k] == Elapsed(ops[j + 1..])
    ensures k !in Run(NewInterface(mac, ip), ops).table ==> SilentFrom(NewInterface(mac, ip), ops, j + 1, k)
  {
    var n := |ops| - 1;
    var s := Run(NewInterface(mac, ip), ops[..n]);
    hide Step, Announces, Asks, InvAt;
    if Asks(s, ops[n], k) {
      RequestNew(s, ops[n], k);
      j := n;
      assert ops[n + 1..] == [];
    } else {
      hide Elapsed;
      RunInv(mac, ip, ops[..n], k);
      RequestKept(s, ops[n], k);
      j := RequestMade(mac, ip, ops[..n], k);
      assert ops[..n][..j] == ops[..j];
      ElapsedFrom(ops, j + 1);
    }
  }

  /**
   A mapping lasts: unless its address announces itself again, it is in the cache, with the
   same station, for as long as less than thirty seconds have passed.
   */
  lemma {:induction false} MappingLasts(s: Interface, ops: seq<Op>, k: U32)
    requires k in s.table && s.table[k].age + Elapsed(ops) < 30000 && SilentFrom(s, ops, 0, k)
    ensures k in Run(s, ops).table
            && Run(s, ops).table[k] == Mapping(s.table[k].mac, s.table[k].age + Elapsed(ops))
  {
    if ops == [] {
    } else {
      MappingLasts(s, ops[..|ops| - 1], k);
    }
  }

  // ---------------------------------------------------------------------
  // Datagrams

  /** What became of a datagram: framed for the station at its next hop, or given up. */
  datatype Fate = Forwarded(dgram: Datagram) | Dropped(dgram: Datagram)

  /** The datagrams handed to the interface for address k. */
  function Given(ops: seq<Op>, k: U32): seq<Datagram> {
    if ops == [] then []
    else Given(ops[..|ops| - 1], k) + var op := ops[|ops| - 1]; if op.Send? && op.hop == k then [op.dgram] else []
  }

  /** The datagrams for address k that a step frames. */
  function ForwardedBy(s: Interface, op: Op, k: U32): seq<Datagram> {
    match op
    case Send(d, hop) => if hop == k && k in s.table then [d] else []
    case Receive(f) => if Announces(s, f, k) then s.Queue(k) else []
    case Tick(_) => []
  }

  /** The datagrams for address k that a step gives up. */
  function DroppedBy(s: Interface, op: Op, k: U32): seq<Datagram> {
    if op.Tick? && k in s.requests && s.requests[k] + op.ms >= ARP_REPLY_TTL_MS then s.Queue(k) else []
  }

  /** The address a step can frame datagrams for. */
  function HopOf(op: Op): U32 {
    match op
    case Send(_, hop) => hop
    case Receive(f) => if f.body.Arp? then f.body.msg.senderIp else 0
    case Tick(_) => 0
  }

  /** The datagram frames among fs. */
  function IpFrames(fs: seq<Frame>): seq<Frame> {
    if fs == [] then [] else (if fs[0].body.Ip? then [fs[0]] else []) + IpFrames(fs[1..])
  }

  lemma {:induction false} IpFramesFramed(src: Mac, dst: Mac, ds: seq<Datagram>)
    ensures IpFrames(Framed(src, dst, ds)) == Framed(src, dst, ds)
  {
    if ds == [] {
    } else {
      IpFramesFramed(src, dst, ds[1..]);
    }
  }

  /**
   The datagram frames that a step queues are exactly those of ForwardedBy, in order,
   for the one address the step concerns, and all go to the station that the cache
   holds for that address when the step is done.
   */
  lemma ForwardedExactly(s: Interface, op: Op)
    requires InvAt(s, HopOf(op))
    ensures var k := HopOf(op);
            var sent := ForwardedBy(s, op, k);
            && (sent != [] ==> k in Step(s, op).table && Step(s, op).table[k].age < ARP_ENTRY_TTL_MS)
            && IpFrames(Emission(s, op)) == if sent == [] then [] else Framed(s.mac, Step(s, op).table[k].mac, sent)
    ensures forall k :: ForwardedBy(s, op, k) != [] ==> k == HopOf(op)
  {
    Appends(s, op);
    match op
    case Send(d, hop) =>
      assert hop in s.table ==> Emission(s, op) == [Frame(s.mac, s.table[hop].mac, Ip(d))];
      assert Framed(s.mac, Step(s, op).mac, [d])[1..] == [];
    case Receive(f) =>
      if ForUs(s, f) && f.body.Arp? {
        var m := f.body.msg;
        var fs := Framed(s.mac, m.senderMac, s.Queue(m.senderIp));
        IpFramesFramed(s.mac, m.senderMac, s.Queue(m.senderIp));
        assert Emission(s, op) == fs || (Emission(s, op) == [s.ReplyTo(m)] + fs && Emission(s, op)[1..] == fs);
      }
    case Tick(_) =>
  }

  function Fates(s: Interface, op: Op, k: U32): seq<Fate> {
    Forwards(ForwardedBy(s, op, k)) + Drops(DroppedBy(s, op, k))
  }

  function Forwards(ds: seq<Datagram>): seq<Fate> {
    if ds == [] then [] else [Forwarded(ds[0])] + Forwards(ds[1..])
  }

  function Drops(ds: seq<Datagram>): seq<Fate> {
    if ds == [] then [] else [Dropped(ds[0])] + Drops(ds[1..])
  }

  /** What became, in order, of the datagrams for address k during a run. */
  function RunFates(s: Interface, ops: seq<Op>, k: U32): seq<Fate> {
    if ops == [] then []
    else RunFates(s, ops[..|ops| - 1], k) + Fates(Run(s, ops[..|ops| - 1]), ops[|ops| - 1], k)
  }

  /** The datagrams that fates are about. */
  function Subjects(fs: seq<Fate>): seq<Datagram> {
    if fs == [] then [] else [fs[0].dgram] + Subjects(fs[1..])
  }

  lemma {:induction false} SubjectsConcat(a: seq<Fate>, b: seq<Fate>)
    ensures Subjects(a + b) == Subjects(a) + Subjects(b)
  {
    if a == [] {
      assert a + b == b;
    } else {
      assert (a + b)[1..] == a[1..] + b;
      SubjectsConcat(a[1..], b);
    }
  }

  lemma {:induction false} SubjectsForwards(ds: seq<Datagram>)
    ensures Subjects(Forwards(ds)) == ds && Subjects(Drops(ds)) == ds
  {
    if ds == [] {
    } else {
      SubjectsForwards(ds[1..]);
      assert Forwards(ds)[1..] == Forwards(ds[1..]) && Drops(ds)[1..] == Drops(ds[1..]);
    }
  }

  // One step moves datagrams from the front of what is unresolved to the fates.
  lemma StepResolves(s: Interface, op: Op, k: U32)
    requires InvAt(s, k)
    ensures s.Queue(k) + (if op.Send? && op.hop == k then [op.dgram] else [])
            == ForwardedBy(s, op, k) + DroppedBy(s, op, k) + Step(s, op).Queue(k)
  {
    match op
    case Send(d, hop) =>
      if hop == k && k in s.table { assert s.Queue(k) == []; }
    case Receive(f) =>
      if Announces(s, f, k) { assert Step(s, op).Queue(k) == []; }
    case Tick(ms) =>
      assert DroppedBy(s, op, k) == [] || Step(s, op).Queue(k) == [];
  }

  /**
   Each datagram is resolved once and in order: on every run, those that were forwarded
   or dropped, in the order this happened, followed by those still queued, are exactly
   those handed in for that hop, in the order they were handed in.
   */
  lemma {:induction false} ResolvedInOrder(mac: Mac, ip: U32, ops: seq<Op>, k: U32)
    ensures var s := NewInterface(mac, ip);
            Subjects(RunFates(s, ops, k)) + Run(s, ops).Queue(k) == Given(ops, k)
  {
    if ops == [] {
    } else {
      var s0 := NewInterface(mac, ip);
      var before, op := ops[..|ops| - 1], ops[|ops| - 1];
      var s := Run(s0, before);
      ResolvedInOrder(mac, ip, before, k);
      RunInv(mac, ip, before, k);
      StepResolves(s, op, k);
      var fw, dr := ForwardedBy(s, op, k), DroppedBy(s, op, k);
      SubjectsConcat(RunFates(s0, before, k), Fates(s, op, k));
      SubjectsConcat(Forwards(fw), Drops(dr));
      SubjectsForwards(fw);
      SubjectsForwards(dr);
      Regroup(Subjects(RunFates(s0, before, k)), s.Queue(k), if op.Send? && op.hop == k then [op.dgram] else [],
              fw + dr, Step(s, op).Queue(k));
    }
  }

  lemma Regroup(a: seq<Datagram>, q: seq<Datagram>, g: seq<Datagram>, f: seq<Datagram>, q': seq<Datagram>)
    requires q + g == f + q'
    ensures (a + q) + g == (a + f) + q'
  {
    assert (a + q) + g == a + (q + g);
    assert (a + f) + q' == a + (f + q');
  }

  /**
   Datagrams are dropped only after the address they wait for was asked for at least
   five seconds before and has not been heard from since.
   */
  lemma DropJustified(mac: Mac, ip: U32, ops: seq<Op>, op: Op, k: U32) returns (j: nat)
    requires DroppedBy(Run(NewInterface(mac, ip), ops), op, k) != []
    ensures j < |ops| && Asks(Run(NewInterface(mac, ip), ops[..j]), ops[j], k)
    ensures Elapsed(ops[j + 1..]) + Duration(op) >= 5000
    ensures SilentFrom(NewInterface(mac, ip), ops, j + 1, k)
  {
    RunInv(mac, ip, ops, k);
    j := RequestMade(mac, ip, ops, k);
  }

  // ---------------------------------------------------------------------
  // Replies, and two interfaces

  /** The ARP frames among fs. */
  function ArpFrames(fs: seq<Frame>): seq<Frame> {
    if fs == [] then [] else (if fs[0].body.Arp? then [fs[0]] else []) + ArpFrames(fs[1..])
  }

  lemma {:induction false} FramedAt(src: Mac, dst: Mac, ds: seq<Datagram>, i: nat)
    requires i < |ds|
    ensures Framed(src, dst, ds)[i] == Frame(src, dst, Ip(ds[i]))
  {
    if i == 0 {
    } else {
      FramedAt(src, dst, ds[1..], i - 1);
    }
  }

  lemma {:induction false} FramedNoArp(src: Mac, dst: Mac, ds: seq<Datagram>)
    ensures ArpFrames(Framed(src, dst, ds)) == []
  {
    if ds == [] {
    } else {
      FramedNoArp(src, dst, ds[1..]);
    }
  }

  /**
   A received frame is answered with an ARP reply if and only if it is for this interface or
   for all, and asks for this interface's address; the one reply goes to the asker and says
   who has the address.
   */
  lemma RepliesExactly(s: Interface, f: Frame)
    ensures ArpFrames(Emission(s, Receive(f)))
            == if (f.dst == s.mac || f.dst == 0xffff_ffff_ffff)
                  && f.body.Arp? && f.body.msg.request && f.body.msg.targetIp == s.ip
               then [Frame(s.mac, f.body.msg.senderMac,
                           Arp(ArpMessage(false, s.mac, s.ip, f.body.msg.senderMac, f.body.msg.senderIp)))]
               else []
  {
    Appends(s, Receive(f));
    if ForUs(s, f) && f.body.Arp? {
      var m := f.body.msg;
      var fs := Framed(s.mac, m.senderMac, s.Queue(m.senderIp));
      FramedNoArp(s.mac, m.senderMac, s.Queue(m.senderIp));
      assert Emission(s, Receive(f)) == fs || Emission(s, Receive(f)) == [s.ReplyTo(m)] + fs;
      assert ([s.ReplyTo(m)] + fs)[1..] == fs;
    }
  }

  /** A received frame is passed up if and only if it is for this interface or for all and carries a datagram. */
  lemma PassesUpExactly(s: Interface, f: Frame, d: Datagram)
    ensures PassedUp(s, f) == Some(d) <==> (f.dst == s.mac || f.dst == 0xffff_ffff_ffff) && f.body == Ip(d)
  {
  }

  /** A request for address k: broadcast, and naming the asker. */
  lemma RequestSays(s: Interface, d: Datagram, k: U32)
    requires k !in s.table && k !in s.requests
    ensures Emission(s, Send(d, k))
            == [Frame(s.mac, 0xffff_ffff_ffff, Arp(ArpMessage(true, s.mac, s.ip, 0, k)))]
  {
    Appends(s, Send(d, k));
  }

  /**
   Resolution end to end. Interface a, which neither has nor has asked for b's address, is
   given a datagram for it: a asks, b replies (and sends what it kept for a), a sends, and
   b passes up exactly that datagram.
   */
  lemma ResolvesAndDelivers(a: Interface, b: Interface, d: Datagram)
    requires InvAt(a, b.ip) && b.ip !in a.table && b.ip !in a.requests
    ensures var asked := Emission(a, Send(d, b.ip));
            && |asked| == 1 && PassedUp(b, asked[0]) == None
            && var replied := Emission(b, Receive(asked[0]));
            && |replied| > 0 && replied[1..] == Framed(b.mac, a.mac, b.Queue(a.ip))
            && var a1 := Step(a, Send(d, b.ip));
            && PassedUp(a1, replied[0]) == None
            && var sent := Emission(a1, Receive(replied[0]));
            && |sent| == 1 && PassedUp(Step(b, Receive(asked[0])), sent[0]) == Some(d)
            && Step(a1, Receive(replied[0])).Queue(b.ip) == []
  {
    RequestSays(a, d, b.ip);
    var ask := Emission(a, Send(d, b.ip))[0];
    Appends(b, Receive(ask));
    var m := ask.body.msg;
    var kept := Framed(b.mac, a.mac, b.Queue(a.ip));
    assert Emission(b, Receive(ask)) == [b.ReplyTo(m)] + kept;
    var reply := Emission(b, Receive(ask))[0];
    var a1 := Step(a, Send(d, b.ip));
    Appends(a1, Receive(reply));
    assert a1.Queue(b.ip) == [d];
    FramedAt(a1.mac, b.mac, [d], 0);
    assert Emission(a1, Receive(reply)) == [] + Framed(a1.mac, b.mac, [d]);
  }
}
