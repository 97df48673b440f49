/** TCP segments in and out of IPv4 datagrams, and which datagrams belong to the connection. */
module AdapterModel {
  import opened Basics
  import opened Segments
  import opened Parsing
  import opened TcpWire
  import opened Ipv4Wire

  const PROTO_TCP: Byte := 6

  const EMPTY_SEGMENT := TCPSegment(DEFAULT_HEADER, [])

  datatype Socket = Socket(ip: U32, port: U16)

  datatype Adapter = Adapter(source: Socket, destination: Socket, listening: bool)

  /** The segment with the ports of the connection. */
  function Ported(a: Adapter, seg: TCPSegment): TCPSegment {
    seg.(header := seg.header.(sport := a.source.port, dport := a.destination.port))
  }

  /** Nothing where serializing throws. */
  function WrapTcpInIp(a: Adapter, seg: TCPSegment): Option<IPv4Datagram> {
    if seg.header.doff < 5 then None else Some(WrapTcp(Ported(a, seg), a.source.ip, a.destination.ip))
  }

  datatype Unwrapped = Unwrapped(adapter: Adapter, seg: Option<TCPSegment>)

  /** From our peer to us. */
  predicate Between(a: Adapter, d: IPv4Datagram) { d.header.dst == a.source.ip && d.header.src == a.destination.ip }

  /** Whoever sent this is the peer now, and where it was sent is where we are. */
  function Adopted(a: Adapter, d: IPv4Datagram, seg: TCPSegment): Adapter {
    Adapter(Socket(d.header.dst, a.source.port), Socket(d.header.src, seg.header.sport), false)
  }

  /** The tests on the ports, once the payload is known to be a segment. */
  function Admit(a: Adapter, d: IPv4Datagram, seg: TCPSegment): Unwrapped {
    if seg.header.dport != a.source.port then Unwrapped(a, None)
    else if a.listening then
      if seg.header.syn && !seg.header.rst then Unwrapped(Adopted(a, d, seg), Some(seg)) else Unwrapped(a, None)
    else if seg.header.sport != a.destination.port then Unwrapped(a, None)
    else Unwrapped(a, Some(seg))
  }

  function UnwrapTcpInIp(a: Adapter, d: IPv4Datagram): Unwrapped {
    if (!a.listening && !Between(a, d)) || d.header.proto != PROTO_TCP then Unwrapped(a, None)
    else
      var r := Parse(EMPTY_SEGMENT, d.payload, PseudoSum(d.header));
      if r.result != NoError then Unwrapped(a, None) else Admit(a, d, r.seg)
  }

  // ---------------------------------------------------------------- two adapters

  predicate Fits(seg: TCPSegment) { 5 <= seg.header.doff && 20 + 4 * seg.header.doff + |seg.payload| <= 0xFFFF }

  /** What arrives of a segment that `a` sends: the bytes of its datagram, parsed. */
  function Arrives(a: Adapter, seg: TCPSegment): IPv4Datagram
    requires Fits(seg)
  {
    var d := WrapTcp(Ported(a, seg), a.source.ip, a.destination.ip);
    WrapTcpWellFormed(Ported(a, seg), a.source.ip, a.destination.ip);
    DatagramRoundTrip(d, d);
    ParseDatagram(d, SerializeDatagram(d).value).dgram
  }

  lemma {:induction false} ArrivesAs(a: Adapter, seg: TCPSegment)
    requires Fits(seg)
    ensures var d := Arrives(a, seg);
            && d.header.src == a.source.ip && d.header.dst == a.destination.ip && d.header.proto == PROTO_TCP
            && Parse(EMPTY_SEGMENT, d.payload, PseudoSum(d.header))
               == SegmentResult(NoError, WithChecksum(Ported(a, seg), PseudoSum(d.header)))
  {
    var seg' := Ported(a, seg);
    var d := WrapTcp(seg', a.source.ip, a.destination.ip);
    WrapTcpWellFormed(seg', a.source.ip, a.destination.ip);
    DatagramRoundTrip(d, d);
    SamePseudoSum(d.header, IpWithChecksum(d.header));
    SegmentRoundTrip(seg', PseudoSum(d.header), EMPTY_SEGMENT);
  }

  /** Exactly the peer hears it: an adapter that is not listening gets the segment, with the ports of the connection
      and its checksum, if and only if its own end is where it was sent and its peer is who sent it. */
  lemma {:induction false} PeerHears(a: Adapter, b: Adapter, seg: TCPSegment)
    requires Fits(seg) && !b.listening
    ensures var d := Arrives(a, seg);
            UnwrapTcpInIp(b, d) ==
              if b.source == a.destination && b.destination == a.source
              then Unwrapped(b, Some(WithChecksum(Ported(a, seg), PseudoSum(d.header))))
              else Unwrapped(b, None)
  {
    ArrivesAs(a, seg);
  }

  /** A listening adapter takes up exactly a SYN, without a reset, for its port, and is then the sender's peer; so it
      hears all that the sender sends from then on, and the sender hears it. */
  lemma {:induction false} ListenerAdopts(a: Adapter, b: Adapter, seg: TCPSegment, next: TCPSegment)
    requires Fits(seg) && Fits(next) && b.listening && !a.listening
    ensures var d, r := Arrives(a, seg), UnwrapTcpInIp(b, Arrives(a, seg));
            if b.source.port == a.destination.port && seg.header.syn && !seg.header.rst
            then && r == Unwrapped(Adapter(a.destination, a.source, false),
                                   Some(WithChecksum(Ported(a, seg), PseudoSum(d.header))))
                 && UnwrapTcpInIp(r.adapter, Arrives(a, next)).seg.Some?
                 && UnwrapTcpInIp(a, Arrives(r.adapter, next)).seg.Some?
            else r == Unwrapped(b, None)
  {
    ArrivesAs(a, seg);
    PeerHears(a, Adapter(a.destination, a.source, false), next);
    PeerHears(Adapter(a.destination, a.source, false), a, next);
  }

  // ---------------------------------------------------------------- runs

  function AdapterRun(a: Adapter, ds: seq<IPv4Datagram>): Adapter
    decreases |ds|
  {
    if ds == [] then a else AdapterRun(UnwrapTcpInIp(a, ds[0]).adapter, ds[1..])
  }

  /** Over every run, whatever arrives: the port is kept; a connected adapter stays with its peer; and a segment that
      is handed up came from the peer's address and port to ours. */
  lemma {:induction false} OnePeer(a: Adapter, ds: seq<IPv4Datagram>, d: IPv4Datagram)
    ensures var b := AdapterRun(a, ds);
            var r := UnwrapTcpInIp(b, d);
            && b.source.port == a.source.port
            && (!a.listening ==> b == a)
            && (r.seg.Some? ==>
                  && !r.adapter.listening
                  && r.adapter.source == Socket(d.header.dst, r.seg.value.header.dport)
                  && r.adapter.destination == Socket(d.header.src, r.seg.value.header.sport))
    decreases |ds|
  {
    if ds != [] { OnePeer(UnwrapTcpInIp(a, ds[0]).adapter, ds[1..], d); }
  }
}

/** The adapter object: its configuration is changed in place when it stops listening. */
module Adapters {
  import opened Basics
  import opened Segments
  import opened Parsing
  import opened Ipv4Wire
  import opened Codec
  import opened AdapterModel

  class TCPOverIPv4Adapter {
    var source: Socket
    var destination: Socket
    var listening: bool

    ghost function State(): Adapter
      reads this
    {
      Adapter(source, destination, listening)
    }

    constructor (source: Socket, destination: Socket, listening: bool)
      ensures State() == Adapter(source, destination, listening)
    {
      this.source, this.destination, this.listening := source, destination, listening;
    }

    method AdmitSegment(d: IPv4Datagram, seg: TCPSegment) returns (admitted: Option<TCPSegment>)
      modifies this
      ensures Unwrapped(State(), admitted) == Admit(old(State()), d, seg)
    {
      if seg.header.dport != source.port {
        return None;
      }
      if listening {
        if seg.header.syn && !seg.header.rst {
          source := Socket(d.header.dst, source.port);
          destination := Socket(d.header.src, seg.header.sport);
          listening := false;
        } else {
          return None;
        }
      }
      if seg.header.sport != destination.port {
        return None;
      }
      return Some(seg);
    }

    method UnwrapTcpInIp(d: IPv4Datagram) returns (seg: Option<TCPSegment>)
      modifies this
      ensures Unwrapped(State(), seg) == AdapterModel.UnwrapTcpInIp(old(State()), d)
    {
      if !listening && d.header.dst != source.ip {
        return None;
      }
      if !listening && d.header.src != destination.ip {
        return None;
      }
      if d.header.proto != PROTO_TCP {
        return None;
      }
      var r := ParseSegment(EMPTY_SEGMENT, d.payload, PseudoSum(d.header));
      if r.result != NoError {
        return None;
      }
      seg := AdmitSegment(d, r.seg);
    }

    method WrapTcpInIp(seg: TCPSegment) returns (d: Option<IPv4Datagram>)
      ensures d == AdapterModel.WrapTcpInIp(State(), seg)
    {
      var ported := seg.(header := seg.header.(sport := source.port, dport := destination.port));
      var header := IPv4Header(4, 5, 0, (20 + 4 * seg.header.doff + |seg.payload|) % 0x1_0000, 0, true, false, 0, 128,
                               PROTO_TCP, 0, source.ip, destination.ip);
      var payload := SerializeSegment(ported, PseudoSum(header));
      d := if payload.None? then None else Some(IPv4Datagram(header, payload.value));
    }
  }
}
