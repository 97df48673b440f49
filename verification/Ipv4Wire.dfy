/** IPv4 datagrams on the wire (section 3.1 of RFC 791). */
module Ipv4Wire {
  import opened Basics
  import opened Segments
  import opened Checksums
  import opened Parsing
  import opened TcpWire

  const IP_HEADER_LENGTH: nat := 20

  datatype IPv4Header = IPv4Header(
    ver: Nibble, hlen: Nibble, tos: Byte, len: U16, id: U16, df: bool, mf: bool, offset: U16,
    ttl: Byte, proto: Byte, cksum: U16, src: U32, dst: U32)

  datatype IPv4Datagram = IPv4Datagram(header: IPv4Header, payload: seq<Byte>)

  /** `len - 4 * hlen` in 16 bits. */
  function PayloadLength(h: IPv4Header): U16 { (h.len - 4 * h.hlen) % 0x1_0000 }

  /** The pseudo-header's part of the TCP checksum. */
  function PseudoSum(h: IPv4Header): (sum: U32)
    ensures sum < 0x10_0000
  {
    h.src / 0x1_0000 + h.src % 0x1_0000 + (h.dst / 0x1_0000 + h.dst % 0x1_0000) + h.proto + PayloadLength(h)
  }

  function FragmentWord(h: IPv4Header): nat { Bit(h.df, 0x4000) + Bit(h.mf, 0x2000) + h.offset % 0x2000 }

  function IpFirst(h: IPv4Header, tail: seq<Byte>): seq<Byte> {
    Unparse(16 * h.ver + h.hlen, 1) + (Unparse(h.tos, 1) + (Unparse(h.len, 2) + (Unparse(h.id, 2) + tail)))
  }

  function IpSecond(h: IPv4Header, tail: seq<Byte>): seq<Byte> {
    Unparse(FragmentWord(h), 2) + (Unparse(h.ttl, 1) + (Unparse(h.proto, 1) + tail))
  }

  function IpThird(h: IPv4Header, tail: seq<Byte>): seq<Byte> {
    Unparse(h.cksum, 2) + (Unparse(h.src, 4) + (Unparse(h.dst, 4) + tail))
  }

  function IpFields(h: IPv4Header, tail: seq<Byte>): seq<Byte> { IpFirst(h, IpSecond(h, IpThird(h, tail))) }

  function IpHeaderBytes(h: IPv4Header): seq<Byte>
    requires h.hlen >= 5
  {
    IpFields(h, Zeros(4 * h.hlen - IP_HEADER_LENGTH))
  }

  function IpWithChecksum(h: IPv4Header): IPv4Header
    requires h.hlen >= 5
  {
    h.(cksum := ChecksumValue(WordSum(IpHeaderBytes(h.(cksum := 0)), false) % TWO32))
  }

  /** Nothing when the source throws: wrong payload size, wrong version or short header. */
  function SerializeDatagram(d: IPv4Datagram): Option<seq<Byte>> {
    if |d.payload| != PayloadLength(d.header) || d.header.ver != 4 || d.header.hlen < 5 then None
    else Some(IpHeaderBytes(IpWithChecksum(d.header)) + d.payload)
  }

  function AfterFirst(p: Parser): Parser { Skip(Skip(Skip(Skip(p, 1), 1), 2), 2) }

  function AfterSecond(p: Parser): Parser { Skip(Skip(Skip(p, 2), 1), 1) }

  function AfterThird(p: Parser): Parser { Skip(Skip(Skip(p, 2), 4), 4) }

  /** The fields read from `p`, from `q` (fragment word on) and from `r` (checksum on). */
  function IpFieldsAt(p: Parser, q: Parser, r: Parser): IPv4Header {
    var first := U8At(p);
    var fo := U16At(q);
    IPv4Header(first / 16, first % 16,
               U8At(Skip(p, 1)), U16At(Skip(Skip(p, 1), 1)), U16At(Skip(Skip(Skip(p, 1), 1), 2)),
               HasBit(fo, 0x4000), HasBit(fo, 0x2000), fo % 0x2000,
               U8At(Skip(q, 2)), U8At(Skip(Skip(q, 2), 1)),
               U16At(r), U32At(Skip(r, 2)), U32At(Skip(Skip(r, 2), 4)))
  }

  /** The fixed part of a header, and the parser after it. */
  function IpFixed(p: Parser): Parsed<IPv4Header> {
    var q := AfterFirst(p);
    var r := AfterSecond(q);
    Parsed(IpFieldsAt(p, q, r), AfterThird(r))
  }

  datatype IpHeaderResult = IpHeaderResult(result: ParseResult, header: IPv4Header, rest: Parser)

  function ParseIpHeader(prior: IPv4Header, p: Parser): IpHeaderResult {
    if |p.buffer| < IP_HEADER_LENGTH then IpHeaderResult(PacketTooShort, prior, p)
    else CheckIpHeader(p.buffer, IpFixed(p).value, IpFixed(p).rest)
  }

  /** The tests on a header whose fields have been read, in order. (Skipping the options cannot run out of
      bytes: the first test has seen to that.) */
  function CheckIpHeader(data: seq<Byte>, h: IPv4Header, rest: Parser): IpHeaderResult {
    if |data| < 4 * h.hlen then IpHeaderResult(PacketTooShort, h, rest)
    else if h.ver != 4 then IpHeaderResult(WrongIPVersion, h, rest)
    else if h.hlen < 5 then IpHeaderResult(HeaderTooShort, h, rest)
    else if |data| != h.len then IpHeaderResult(TruncatedPacket, h, rest)
    else
      var body := Skip(rest, 4 * h.hlen - IP_HEADER_LENGTH);
      if ChecksumValue(WordSum(data[..4 * h.hlen], false) % TWO32) != 0 then IpHeaderResult(BadChecksum, h, body)
      else IpHeaderResult(NoError, h, body)
  }

  datatype DatagramResult = DatagramResult(result: ParseResult, dgram: IPv4Datagram)

  /** The header's own result is not looked at. */
  function ParseDatagram(prior: IPv4Datagram, data: seq<Byte>): DatagramResult {
    var parsed := ParseIpHeader(prior.header, Parser(data, NoError));
    var payload := parsed.rest.buffer;
    DatagramResult(if |payload| != PayloadLength(parsed.header) then PacketTooShort else parsed.rest.error,
                   IPv4Datagram(parsed.header, payload))
  }

  // ---------------------------------------------------------------- fields

  lemma FragmentRoundTrip(h: IPv4Header)
    requires h.offset < 0x2000
    ensures var f := FragmentWord(h);
            && f < 0x1_0000
            && HasBit(f, 0x4000) == h.df && HasBit(f, 0x2000) == h.mf && f % 0x2000 == h.offset
  {
  }

  lemma {:induction false} FirstRoundTrip(h: IPv4Header, tail: seq<Byte>)
    ensures var p := Parser(IpFirst(h, tail), NoError);
            && ParseValue(p, 1) == 16 * h.ver + h.hlen && ParseValue(Skip(p, 1), 1) == h.tos
            && ParseValue(Skip(Skip(p, 1), 1), 2) == h.len
            && ParseValue(Skip(Skip(Skip(p, 1), 1), 2), 2) == h.id
            && AfterFirst(p) == Parser(tail, NoError)
  {
    Pow256Values();
    var t3 := Unparse(h.id, 2) + tail;
    var t2 := Unparse(h.len, 2) + t3;
    ParseUnparse(16 * h.ver + h.hlen, 1, Unparse(h.tos, 1) + t2);
    ParseUnparse(h.tos, 1, t2);
    ParseUnparse(h.len, 2, t3);
    ParseUnparse(h.id, 2, tail);
  }

  lemma {:induction false} SecondRoundTrip(h: IPv4Header, tail: seq<Byte>)
    requires h.offset < 0x2000
    ensures var p := Parser(IpSecond(h, tail), NoError);
            && ParseValue(p, 2) == FragmentWord(h) && ParseValue(Skip(p, 2), 1) == h.ttl
            && ParseValue(Skip(Skip(p, 2), 1), 1) == h.proto
            && AfterSecond(p) == Parser(tail, NoError)
  {
    Pow256Values();
    FragmentRoundTrip(h);
    var t2 := Unparse(h.proto, 1) + tail;
    ParseUnparse(FragmentWord(h), 2, Unparse(h.ttl, 1) + t2);
    ParseUnparse(h.ttl, 1, t2);
    ParseUnparse(h.proto, 1, tail);
  }

  lemma {:induction false} ThirdRoundTrip(h: IPv4Header, tail: seq<Byte>)
    ensures var p := Parser(IpThird(h, tail), NoError);
            && ParseValue(p, 2) == h.cksum && ParseValue(Skip(p, 2), 4) == h.src
            && ParseValue(Skip(Skip(p, 2), 4), 4) == h.dst
            && AfterThird(p) == Parser(tail, NoError)
  {
    Pow256Values();
    var t2 := Unparse(h.dst, 4) + tail;
    ParseUnparse(h.cksum, 2, Unparse(h.src, 4) + t2);
    ParseUnparse(h.src, 4, t2);
    ParseUnparse(h.dst, 4, tail);
  }

  lemma {:induction false} IpFieldsRoundTrip(h: IPv4Header, tail: seq<Byte>)
    requires h.offset < 0x2000
    ensures var r := IpThird(h, tail);
            var q := IpSecond(h, r);
            IpFieldsAt(Parser(IpFirst(h, q), NoError), Parser(q, NoError), Parser(r, NoError)) == h
  {
    FirstRoundTrip(h, IpSecond(h, IpThird(h, tail)));
    SecondRoundTrip(h, IpThird(h, tail));
    ThirdRoundTrip(h, tail);
    FragmentRoundTrip(h);
  }

  lemma {:induction false} IpFixedRoundTrip(h: IPv4Header, tail: seq<Byte>)
    requires h.offset < 0x2000
    ensures IpFixed(Parser(IpFields(h, tail), NoError)) == Parsed(h, Parser(tail, NoError))
  {
    IpFieldsRoundTrip(h, tail);
    FirstRoundTrip(h, IpSecond(h, IpThird(h, tail)));
    SecondRoundTrip(h, IpThird(h, tail));
    ThirdRoundTrip(h, tail);
  }

  lemma {:induction false} IpWithRest(h: IPv4Header, tail: seq<Byte>, rest: seq<Byte>)
    ensures IpFields(h, tail) + rest == IpFields(h, tail + rest)
  {
    assert IpThird(h, tail) + rest == IpThird(h, tail + rest);
    assert IpSecond(h, IpThird(h, tail)) + rest == IpSecond(h, IpThird(h, tail) + rest);
  }

  // ---------------------------------------------------------------- checksum

  lemma {:induction false} IpHeaderLength(h: IPv4Header)
    requires h.hlen >= 5
    ensures |IpHeaderBytes(h)| == 4 * h.hlen
  {
  }

  lemma {:induction false} IpFieldSum(h: IPv4Header)
    requires h.hlen >= 5
    ensures WordSum(IpHeaderBytes(h), false) == WordSum(IpHeaderBytes(h.(cksum := 0)), false) + h.cksum
  {
    IpSplit(h);
    IpSplit(h.(cksum := 0));
  }

  lemma {:induction false} IpSplit(h: IPv4Header)
    requires h.hlen >= 5
    ensures var front := IpFirst(h.(cksum := 0), IpSecond(h.(cksum := 0), []));
            var back := Unparse(h.src, 4) + (Unparse(h.dst, 4) + Zeros(4 * h.hlen - IP_HEADER_LENGTH));
            WordSum(IpHeaderBytes(h), false) == WordSum(front, false) + h.cksum + WordSum(back, false)
  {
    var front := IpFirst(h, IpSecond(h, []));
    var back := Unparse(h.src, 4) + (Unparse(h.dst, 4) + Zeros(4 * h.hlen - IP_HEADER_LENGTH));
    var third := Unparse(h.cksum, 2) + back;
    assert IpSecond(h, third) == IpSecond(h, []) + third;
    assert IpFirst(h, IpSecond(h, []) + third) == front + third;
    assert front == IpFirst(h.(cksum := 0), IpSecond(h.(cksum := 0), []));
    assert |front| == 10;
    WordSumConcat(front, third, false);
    WordSumConcat(Unparse(h.cksum, 2), back, false);
    WordOf16(h.cksum);
  }

  lemma {:induction false} IpHeaderChecks(h: IPv4Header)
    requires h.hlen >= 5
    ensures ChecksumValue(WordSum(IpHeaderBytes(IpWithChecksum(h)), false) % TWO32) == 0
  {
    var h0 := h.(cksum := 0);
    IpFieldSum(IpWithChecksum(h));
    AccumulatorCompletes(WordSum(IpHeaderBytes(h0), false));
  }

  ghost predicate WellFormed(d: IPv4Datagram) {
    && d.header.ver == 4 && d.header.hlen >= 5 && d.header.offset < 0x2000
    && d.header.len == 4 * d.header.hlen + |d.payload|
  }

  /** A well-formed datagram survives the round trip with every field and byte, its header verified. */
  lemma {:induction false} DatagramRoundTrip(d: IPv4Datagram, prior: IPv4Datagram)
    requires WellFormed(d)
    ensures var sent := IPv4Datagram(IpWithChecksum(d.header), d.payload);
            && SerializeDatagram(d).Some?
            && ParseDatagram(prior, SerializeDatagram(d).value) == DatagramResult(NoError, sent)
            && ParseIpHeader(prior.header, Parser(SerializeDatagram(d).value, NoError)).result == NoError
  {
    var h := IpWithChecksum(d.header);
    var data := IpHeaderBytes(h) + d.payload;
    IpHeaderChecks(d.header);
    IpHeaderRoundTrip(h, d.payload, prior.header);
    PayloadLengthOf(d.header, |d.payload|);
    PayloadLengthOf(h, |d.payload|);
    ParsedDatagram(prior, data, h, d.payload);
    assert SerializeDatagram(d) == Some(data);
  }

  lemma PayloadLengthOf(h: IPv4Header, n: nat)
    requires h.len == 4 * h.hlen + n
    ensures PayloadLength(h) == n
  {
  }

  lemma {:induction false} ParsedDatagram(prior: IPv4Datagram, data: seq<Byte>, h: IPv4Header, payload: seq<Byte>)
    requires ParseIpHeader(prior.header, Parser(data, NoError)) == IpHeaderResult(NoError, h, Parser(payload, NoError))
    requires PayloadLength(h) == |payload|
    ensures ParseDatagram(prior, data) == DatagramResult(NoError, IPv4Datagram(h, payload))
  {
  }

  lemma {:induction false} IpHeaderRoundTrip(h: IPv4Header, rest: seq<Byte>, prior: IPv4Header)
    requires h.ver == 4 && h.hlen >= 5 && h.offset < 0x2000 && h.len == 4 * h.hlen + |rest|
    requires ChecksumValue(WordSum(IpHeaderBytes(h), false) % TWO32) == 0
    ensures ParseIpHeader(prior, Parser(IpHeaderBytes(h) + rest, NoError))
            == IpHeaderResult(NoError, h, Parser(rest, NoError))
  {
    var n := 4 * h.hlen - IP_HEADER_LENGTH;
    var data := IpHeaderBytes(h) + rest;
    IpHeaderLength(h);
    IpWithRest(h, Zeros(n), rest);
    IpFixedRoundTrip(h, Zeros(n) + rest);
    PadRoundTrip(n, rest);
    HeaderAccepted(data, h, Parser(Zeros(n) + rest, NoError), Parser(rest, NoError));
  }

  lemma {:induction false} HeaderAccepted(data: seq<Byte>, h: IPv4Header, p: Parser, body: Parser)
    requires h.ver == 4 && h.hlen >= 5 && |data| == h.len && 4 * h.hlen <= h.len
    requires Skip(p, 4 * h.hlen - IP_HEADER_LENGTH) == body && body.error == NoError
    requires data[..4 * h.hlen] == IpHeaderBytes(h)
    requires ChecksumValue(WordSum(IpHeaderBytes(h), false) % TWO32) == 0
    ensures CheckIpHeader(data, h, p) == IpHeaderResult(NoError, h, body)
  {
  }

  // ---------------------------------------------------------------- TCP inside IPv4

  /** The datagram an adapter makes of a segment: default header, length in 16 bits, and the TCP checksum over the
      pseudo-header. */
  function WrapTcp(seg: TCPSegment, src: U32, dst: U32): IPv4Datagram
    requires 5 <= seg.header.doff
  {
    var len := (20 + 4 * seg.header.doff + |seg.payload|) % 0x1_0000;
    var h := IPv4Header(4, 5, 0, len, 0, true, false, 0, 128, 6, 0, src, dst);
    IPv4Datagram(h, Serialize(seg, PseudoSum(h)).value)
  }

  /** Through both layers: the datagram's bytes, parsed as IPv4 and its payload as TCP, give the segment back. */
  lemma {:induction false} StackRoundTrip(seg: TCPSegment, src: U32, dst: U32, priorD: IPv4Datagram, priorS: TCPSegment)
    requires 5 <= seg.header.doff && 20 + 4 * seg.header.doff + |seg.payload| <= 0xFFFF
    ensures var d := WrapTcp(seg, src, dst);
            && SerializeDatagram(d).Some?
            && var got := ParseDatagram(priorD, SerializeDatagram(d).value);
            && got.result == NoError && got.dgram.header == IpWithChecksum(d.header)
            && got.dgram.header.src == src && got.dgram.header.dst == dst && got.dgram.header.proto == 6
            && Parse(priorS, got.dgram.payload, PseudoSum(got.dgram.header))
               == SegmentResult(NoError, WithChecksum(seg, PseudoSum(d.header)))
  {
    var d := WrapTcp(seg, src, dst);
    var pseudo := PseudoSum(d.header);
    WrapTcpWellFormed(seg, src, dst);
    DatagramRoundTrip(d, priorD);
    SamePseudoSum(d.header, IpWithChecksum(d.header));
    SegmentRoundTrip(seg, pseudo, priorS);
  }

  lemma {:induction false} WrapTcpWellFormed(seg: TCPSegment, src: U32, dst: U32)
    requires 5 <= seg.header.doff && 20 + 4 * seg.header.doff + |seg.payload| <= 0xFFFF
    ensures var d := WrapTcp(seg, src, dst);
            && WellFormed(d) && d.header.src == src && d.header.dst == dst && d.header.proto == 6
            && d.payload == Serialize(seg, PseudoSum(d.header)).value
  {
    var d := WrapTcp(seg, src, dst);
    ShortLength(20 + 4 * seg.header.doff + |seg.payload|);
    HeaderLength(WithChecksum(seg, PseudoSum(d.header)).header);
  }

  lemma ShortLength(n: nat)
    requires n <= 0xFFFF
    ensures n % 0x1_0000 == n
  {
  }

  lemma SamePseudoSum(h: IPv4Header, h': IPv4Header)
    requires h' == h.(cksum := h'.cksum)
    ensures PseudoSum(h') == PseudoSum(h)
  {
  }
}
