/** The network interface as the program runs it (libsponge/network_interface.cc). */
module NetworkInterfaces {
  import opened Types
  import opened Ipv4Formats
  import opened ArpInterfaces

  class NetworkInterface {
    const mac: Mac
    const ip: U32
    var table: map<U32, Mapping>
    var requests: map<U32, nat>
    var waiting: map<U32, seq<Datagram>>
    var out: seq<Frame>

    ghost function Model(): Interface
      reads this
    {
      Interface(mac, ip, table, requests, waiting, out)
    }

    constructor (mac: Mac, ip: U32)
      ensures Model() == NewInterface(mac, ip)
    {
      this.mac, this.ip := mac, ip;
      table, requests, waiting, out := map[], map[], map[], [];
    }

    method PushFrame(dst: Mac, body: Body)
      modifies this`out
      ensures out == old(out) + [Frame(mac, dst, body)]
    {
      out := out + [Frame(mac, dst, body)];
    }

    method SendDatagram(dgram: Datagram, hop: U32)
      modifies this
      ensures Model() == ArpInterfaces.SendDatagram(old(Model()), dgram, hop)
    {
      if hop in table {
        PushFrame(table[hop].mac, Ip(dgram));
      } else if hop !in requests {
        PushFrame(BROADCAST, Arp(ArpMessage(true, mac, ip, 0, hop)));
        requests := requests[hop := 0];
        if hop !in waiting {
          waiting := waiting[hop := [dgram]];
        }
      } else {
        if hop !in waiting {
          waiting := waiting[hop := []];
        }
        waiting := waiting[hop := waiting[hop] + [dgram]];
      }
    }

    method RecvFrame(frame: Frame) returns (dgram: Option<Datagram>)
      modifies this
      ensures Model() == ReceiveFrame(old(Model()), frame)
      ensures dgram == PassedUp(old(Model()), frame)
    {
      if !(frame.dst == mac || frame.dst == BROADCAST) {
        return None;
      }
      match frame.body
      case Ip(d) =>
        return Some(d);
      case Unparsable =>
        return None;
      case Arp(msg) =>
        table := table[msg.senderIp := Mapping(msg.senderMac, 0)];
        if msg.request && msg.targetIp == ip {
          PushFrame(msg.senderMac, Arp(ArpMessage(false, mac, ip, msg.senderMac, msg.senderIp)));
        }
        if msg.senderIp in waiting {
          Flush(waiting[msg.senderIp], msg.senderMac);
          waiting := waiting - {msg.senderIp};
        }
        return None;
    }

    // Sends what waited, in order.
    method Flush(ds: seq<Datagram>, dst: Mac)
      modifies this`out
      ensures out == old(out) + Framed(mac, dst, ds)
    {
      for i := 0 to |ds|
        invariant out + Framed(mac, dst, ds[i..]) == old(out) + Framed(mac, dst, ds)
      {
        assert ds[i..][1..] == ds[i + 1..];
        PushFrame(dst, Ip(ds[i]));
      }
    }

    method Tick(ms: nat)
      modifies this
      ensures Model() == Elapse(old(Model()), ms)
    {
      AgeTable(ms);
      AgeRequests(ms);
    }

    method AgeTable(ms: nat)
      modifies this`table
      ensures table == AgedTable(old(table), ms)
    {
      var left := table.Keys;
      while left != {}
        invariant left <= old(table).Keys
        invariant forall k :: k in left ==> k in table && table[k] == old(table)[k]
        invariant forall k :: k in old(table) && k !in left ==>
          if old(table)[k].age + ms < ARP_ENTRY_TTL_MS
          then k in table && table[k] == Mapping(old(table)[k].mac, old(table)[k].age + ms)
          else k !in table
        invariant table.Keys <= old(table).Keys
      {
        var k :| k in left;
        left := left - {k};
        table := table[k := Mapping(table[k].mac, table[k].age + ms)];
        if ARP_ENTRY_TTL_MS <= table[k].age {
          table := table - {k};
        }
      }
    }

    method AgeRequests(ms: nat)
      modifies this`requests, this`waiting
      ensures requests == AgedRequests(old(requests), ms)
      ensures waiting == StillWaiting(old(waiting), old(requests), ms)
    {
      var left := requests.Keys;
      while left != {}
        invariant left <= old(requests).Keys
        invariant requests.Keys <= old(requests).Keys
        invariant forall k :: k in left ==> k in requests && requests[k] == old(requests)[k]
        invariant forall k :: k in old(requests) && k !in left ==>
          if old(requests)[k] + ms < ARP_REPLY_TTL_MS then k in requests && requests[k] == old(requests)[k] + ms
          else k !in requests
        invariant forall k :: k in waiting ==> k in old(waiting) && waiting[k] == old(waiting)[k]
        invariant forall k :: k in old(waiting) ==>
          (k in waiting <==> k in left || k !in old(requests) || old(requests)[k] + ms < ARP_REPLY_TTL_MS)
      {
        var k :| k in left;
        left := left - {k};
        requests := requests[k := requests[k] + ms];
        if ARP_REPLY_TTL_MS <= requests[k] {
          if k in waiting {
            waiting := waiting - {k};
          }
          requests := requests - {k};
        }
      }
    }
  }
}
