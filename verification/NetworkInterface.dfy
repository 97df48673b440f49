/** The network interface object: two hash maps changed in place. */
module NetworkInterfaces {
  import opened Basics
  import opened Parsing
  import opened Ipv4Wire
  import opened ArpModel

  class NetworkInterface {
    const mac: Mac
    const ip: U32
    var framesOut: seq<Frame>
    var table: map<U32, Mapping>
    var requests: map<U32, ArpModel.Waiting>

    ghost function State(): Interface
      reads this
    {
      Interface(mac, ip, table, requests, framesOut)
    }

    constructor (mac: Mac, ip: U32)
      ensures State() == NewHistory(mac, ip).i
    {
      this.mac, this.ip := mac, ip;
      framesOut, table, requests := [], map[], map[];
    }

    function Request(target: U32): Frame {
      Frame(BROADCAST, mac, ArpContent(ArpMessage(OPCODE_REQUEST, mac, ip, 0, target)))
    }

    method SendDatagram(dgram: IPv4Datagram, hop: U32) returns (threw: bool)
      modifies this
      ensures Outcome(State(), threw) == ArpModel.SendDatagram(old(State()), dgram, hop)
    {
      if hop in table {
        var data := SerializeDatagram(dgram);
        if data.None? {
          return true;
        }
        framesOut := framesOut + [Frame(table[hop].mac, mac, IpContent(data.value))];
        return false;
      }
      if hop in requests && requests[hop].age < REQUEST_TTL {
        return false;
      }
      requests := requests[hop := ArpModel.Waiting(0, dgram)];
      framesOut := framesOut + [Request(hop)];
      return false;
    }

    method ReleaseWaiting(m: ArpMessage) returns (threw: bool)
      modifies this
      ensures Outcome(State(), threw) == TakeReply(old(State()), m)
    {
      if m.senderIp !in requests {
        requests := requests[m.senderIp := ArpModel.Waiting(0, DEFAULT_DATAGRAM)];
      }
      var data := SerializeDatagram(requests[m.senderIp].dgram);
      if data.None? {
        assert old(requests)[m.senderIp := requests[m.senderIp]] == requests;
        return true;
      }
      framesOut := framesOut + [Frame(m.senderMac, mac, IpContent(data.value))];
      assert requests - {m.senderIp} == old(requests) - {m.senderIp};
      requests := requests - {m.senderIp};
      return false;
    }

    method RecvArp(m: ArpMessage) returns (threw: bool)
      modifies this
      ensures Outcome(State(), threw) == ArpModel.RecvFrame(old(State()), Frame(mac, m.senderMac, ArpContent(m)))
    {
      if m.targetIp != ip {
        return false;
      }
      table := table[m.senderIp := Mapping(0, m.senderMac)];
      if m.opcode == OPCODE_REPLY && m.targetMac == mac {
        threw := ReleaseWaiting(m);
        return;
      }
      if m.opcode == OPCODE_REQUEST && (m.targetIp in table || ip == m.targetIp) {
        var reply := ArpMessage(OPCODE_REPLY, mac, ip, m.senderMac, m.senderIp);
        framesOut := framesOut + [Frame(m.senderMac, mac, ArpContent(reply))];
      }
      return false;
    }

    method RecvFrame(f: Frame) returns (dgram: Option<IPv4Datagram>, threw: bool)
      modifies this
      ensures Outcome(State(), threw) == ArpModel.RecvFrame(old(State()), f)
      ensures dgram == Received(old(State()), f)
    {
      dgram, threw := None, false;
      if f.dst != mac && f.dst != BROADCAST {
        return;
      }
      match f.content
      case IpContent(data) =>
        var r := ParseDatagram(DEFAULT_DATAGRAM, data);
        if r.result == NoError {
          dgram := Some(r.dgram);
        }
      case ArpContent(m) =>
        threw := RecvArp(m);
      case _ =>
    }

    /** Age every mapping and erase the ones past their lifetime. */
    method AgeTable(ms: nat)
      modifies this
      ensures table == AgedTable(old(table), ms)
      ensures requests == old(requests) && framesOut == old(framesOut)
    {
      var left := table.Keys;
      while left != {}
        invariant left <= old(table).Keys
        invariant requests == old(requests) && framesOut == old(framesOut)
        invariant forall k | k in left :: k in table && table[k] == old(table)[k]
        invariant forall k | k in table :: k in old(table)
        invariant forall k | k in old(table) && k !in left ::
                    if Aged(old(table)[k].age, ms) <= MAPPING_TTL
                    then k in table && table[k] == old(table)[k].(age := Aged(old(table)[k].age, ms))
                    else k !in table
        decreases left
      {
        var k :| k in left;
        left := left - {k};
        var age := Aged(table[k].age, ms);
        if age > MAPPING_TTL {
          table := table - {k};
        } else {
          table := table[k := table[k].(age := age)];
        }
      }
    }

    /** Age every pending request and ask again for the ones that are due. */
    method AgeRequests(ms: nat) returns (ghost order: seq<U32>)
      modifies this
      ensures DueOrder(old(State()), ms, order)
      ensures requests == AgedRequests(old(requests), ms)
      ensures framesOut == old(framesOut) + RequestFrames(old(State()), order)
      ensures table == old(table)
    {
      var left := requests.Keys;
      order := [];
      while left != {}
        invariant left <= old(requests).Keys && requests.Keys == old(requests).Keys
        invariant table == old(table)
        invariant forall k | k in left :: requests[k] == old(requests)[k]
        invariant forall k | k in old(requests) && k !in left :: requests[k] == AgedRequests(old(requests), ms)[k]
        invariant Distinct(order)
        invariant forall k :: k in order <==> k in old(requests) && k !in left && Due(old(requests)[k], ms)
        invariant framesOut == old(framesOut) + RequestFrames(old(State()), order)
        decreases left
      {
        var k :| k in left;
        left := left - {k};
        var age := Aged(requests[k].age, ms);
        if age > REQUEST_TTL {
          framesOut := framesOut + [Request(k)];
          RequestFramesSnoc(old(State()), order, k);
          order := order + [k];
          age := 0;
        }
        requests := requests[k := requests[k].(age := age)];
      }
    }

    method Tick(ms: nat) returns (ghost order: seq<U32>)
      modifies this
      ensures DueOrder(old(State()), ms, order)
      ensures State() == ArpModel.Tick(old(State()), ms, order)
    {
      AgeTable(ms);
      ghost var i := State();
      order := AgeRequests(ms);
      SameRequestFrames(old(State()), i, order);
    }
  }

  lemma {:induction false} RequestFramesSnoc(i: Interface, order: seq<U32>, k: U32)
    ensures RequestFrames(i, order + [k]) == RequestFrames(i, order) + [RequestFrame(i, k)]
  {
    if order != [] {
      assert (order + [k])[1..] == order[1..] + [k];
      RequestFramesSnoc(i, order[1..], k);
    }
  }

  lemma {:induction false} SameRequestFrames(i: Interface, j: Interface, order: seq<U32>)
    requires i.mac == j.mac && i.ip == j.ip
    ensures RequestFrames(i, order) == RequestFrames(j, order)
  {
    if order != [] { SameRequestFrames(i, j, order[1..]); }
  }
}
