/** Where each field is on the wire, as the diagrams of section 3.1 of RFC 793 and section 3.1 of RFC 791 draw it,
    what the checksums cover, and exactly what is accepted. */
module WireLayout {
  import opened Basics
  import opened Segments
  import opened Checksums
  import opened Parsing
  import opened TcpWire
  import opened Ipv4Wire

  // ---------------------------------------------------------------- reading at an offset

  /** The number that starts at byte `at`. */
  function Field(data: seq<Byte>, at: nat, len: nat): nat
    requires at + len <= |data|
  {
    BigEndian(data[at..at + len])
  }

  lemma {:induction false} ReadAt(data: seq<Byte>, at: nat, len: nat)
    requires at + len <= |data|
    ensures ParseValue(Parser(data[at..], NoError), len) == Field(data, at, len)
    ensures Skip(Parser(data[at..], NoError), len) == Parser(data[at + len..], NoError)
  {
    assert data[at..][..len] == data[at..at + len];
    assert data[at..][len..] == data[at + len..];
  }

  lemma {:induction false} OneByteField(data: seq<Byte>, at: nat)
    requires at < |data|
    ensures Field(data, at, 1) == data[at]
  {
    var one := data[at..at + 1];
    assert one[..|one| - 1] == [];
    assert BigEndian(one) == 256 * BigEndian(one[..|one| - 1]) + one[|one| - 1];
  }

  // ---------------------------------------------------------------- TCP

  predicate HasFlags(b: Byte, h: TCPHeader) {
    && h.urg == HasBit(b, 32) && h.ack == HasBit(b, 16) && h.psh == HasBit(b, 8)
    && h.rst == HasBit(b, 4) && h.syn == HasBit(b, 2) && h.fin == HasBit(b, 1)
  }

  predicate TcpLayout(data: seq<Byte>, h: TCPHeader)
    requires |data| >= TCP_HEADER_LENGTH
  {
    && h.sport == Field(data, 0, 2) && h.dport == Field(data, 2, 2)
    && h.seqno == Field(data, 4, 4) && h.ackno == Field(data, 8, 4)
    && h.doff == data[12] / 16 && HasFlags(data[13], h) && h.win == Field(data, 14, 2)
    && h.cksum == Field(data, 16, 2) && h.uptr == Field(data, 18, 2)
  }

  lemma {:induction false} PortsAt(data: seq<Byte>)
    requires |data| >= TCP_HEADER_LENGTH
    ensures var p := Parser(data[0..], NoError);
            && ParseValue(p, 2) == Field(data, 0, 2) && ParseValue(Skip(p, 2), 2) == Field(data, 2, 2)
            && ParseValue(Skip(Skip(p, 2), 2), 4) == Field(data, 4, 4)
            && ParseValue(Skip(Skip(Skip(p, 2), 2), 4), 4) == Field(data, 8, 4)
            && AfterPorts(p) == Parser(data[12..], NoError)
  {
    ReadAt(data, 0, 2);
    ReadAt(data, 2, 2);
    ReadAt(data, 4, 4);
    ReadAt(data, 8, 4);
  }

  lemma {:induction false} MiddleAt(data: seq<Byte>)
    requires |data| >= TCP_HEADER_LENGTH
    ensures var q := Parser(data[12..], NoError);
            && ParseValue(q, 1) == data[12] && ParseValue(Skip(q, 1), 1) == data[13]
            && ParseValue(Skip(Skip(q, 1), 1), 2) == Field(data, 14, 2)
            && AfterMiddle(q) == Parser(data[16..], NoError)
  {
    ReadAt(data, 12, 1);
    ReadAt(data, 13, 1);
    ReadAt(data, 14, 2);
    OneByteField(data, 12);
    OneByteField(data, 13);
  }

  lemma {:induction false} BackAt(data: seq<Byte>)
    requires |data| >= TCP_HEADER_LENGTH
    ensures var r := Parser(data[16..], NoError);
            && ParseValue(r, 2) == Field(data, 16, 2) && ParseValue(Skip(r, 2), 2) == Field(data, 18, 2)
            && AfterBack(r) == Parser(data[20..], NoError)
  {
    ReadAt(data, 16, 2);
    ReadAt(data, 18, 2);
  }

  /** Any bytes long enough for a header are read so, whatever they are. */
  lemma {:induction false} TcpHeaderAt(data: seq<Byte>)
    requires |data| >= TCP_HEADER_LENGTH
    ensures var parsed := ParseHeader(Parser(data, NoError));
            && TcpLayout(data, parsed.value)
            && parsed.rest == (if parsed.value.doff < 5 then Parser(data[20..], NoError)
                               else Skip(Parser(data[20..], NoError), 4 * parsed.value.doff - TCP_HEADER_LENGTH))
  {
    assert data[0..] == data;
    PortsAt(data);
    MiddleAt(data);
    BackAt(data);
  }

  /** Exactly when bytes that check are accepted, and what they are taken for: the fields of the diagram, and the
      payload after the data offset, or after the fixed part if that is longer. */
  lemma {:induction false} TcpAccepts(prior: TCPSegment, data: seq<Byte>, pseudo: U32)
    ensures var r := Parse(prior, data, pseudo);
            r.result == NoError <==>
              Checks(data, pseudo) && |data| >= TCP_HEADER_LENGTH && 4 * (data[12] / 16) <= |data|
    ensures var r := Parse(prior, data, pseudo);
            r.result == NoError ==>
              TcpLayout(data, r.seg.header) && r.seg.payload == data[Max(20, 4 * (data[12] / 16))..]
  {
    if |data| >= TCP_HEADER_LENGTH {
      TcpHeaderAt(data);
      var n := 4 * (data[12] / 16);
      if 20 <= n <= |data| { ReadAt(data, 20, n - 20); }
    } else {
      ShortHeader(data);
    }
  }

  /** An error, once recorded, stays. */
  lemma ErrorStays(p: Parser, len: nat)
    ensures p.error != NoError ==> Skip(p, len).error != NoError
    ensures Skip(p, len).error == NoError ==> |p.buffer| == |Skip(p, len).buffer| + len
  {
  }

  lemma {:induction false} ShortHeader(data: seq<Byte>)
    requires |data| < TCP_HEADER_LENGTH
    ensures ParseHeader(Parser(data, NoError)).rest.error != NoError
  {
    var p := Parser(data, NoError);
    var p1, p2, p3 := Skip(p, 2), Skip(Skip(p, 2), 2), Skip(Skip(Skip(p, 2), 2), 4);
    var q := AfterPorts(p);
    var q1, q2 := Skip(q, 1), Skip(Skip(q, 1), 1);
    var r := AfterMiddle(q);
    ErrorStays(p, 2);
    ErrorStays(p1, 2);
    ErrorStays(p2, 4);
    ErrorStays(p3, 4);
    ErrorStays(q, 1);
    ErrorStays(q1, 1);
    ErrorStays(q2, 2);
    ErrorStays(r, 2);
    ErrorStays(Skip(r, 2), 2);
    var h := ParseHeader(p).value;
    if h.doff >= 5 { ErrorStays(AfterBack(r), 4 * h.doff - TCP_HEADER_LENGTH); }
  }

  /** A segment is put on the wire so: the fields of the diagram, zeros for the options, the payload. */
  lemma {:induction false} TcpOnTheWire(seg: TCPSegment, pseudo: U32)
    requires seg.header.doff >= 5
    ensures var data := Serialize(seg, pseudo).value;
            && |data| == 4 * seg.header.doff + |seg.payload|
            && TcpLayout(data, WithChecksum(seg, pseudo).header)
            && data[20..4 * seg.header.doff] == Zeros(4 * seg.header.doff - 20)
            && data[4 * seg.header.doff..] == seg.payload
  {
    var h := WithChecksum(seg, pseudo).header;
    HeaderRoundTrip(h, seg.payload);
    HeaderPad(h);
    SplitAfter(HeaderBytes(h), seg.payload, 20);
    TcpHeaderAt(Serialize(seg, pseudo).value);
  }

  lemma {:induction false} SplitAfter(a: seq<Byte>, b: seq<Byte>, i: nat)
    requires i <= |a|
    ensures (a + b)[|a|..] == b && (a + b)[i..|a|] == a[i..]
  {
  }

  lemma {:induction false} HeaderPad(h: TCPHeader)
    requires h.doff >= 5
    ensures |HeaderBytes(h)| == 4 * h.doff && HeaderBytes(h)[20..] == Zeros(4 * h.doff - 20)
  {
    var pad := Zeros(4 * h.doff - TCP_HEADER_LENGTH);
    FrontWithRest(h, [], BackFields(h, pad));
    FrontLength(h);
    BackWithRest(h, [], pad);
    SplitAfter(FrontFields(h, []) + BackFields(h, []), pad, 0);
    assert HeaderBytes(h) == FrontFields(h, []) + BackFields(h, []) + pad;
  }

  // ---------------------------------------------------------------- IPv4

  predicate IpLayout(data: seq<Byte>, h: IPv4Header)
    requires |data| >= IP_HEADER_LENGTH
  {
    && h.ver == data[0] / 16 && h.hlen == data[0] % 16 && h.tos == data[1]
    && h.len == Field(data, 2, 2) && h.id == Field(data, 4, 2)
    && h.df == HasBit(Field(data, 6, 2), 0x4000) && h.mf == HasBit(Field(data, 6, 2), 0x2000)
    && h.offset == Field(data, 6, 2) % 0x2000
    && h.ttl == data[8] && h.proto == data[9] && h.cksum == Field(data, 10, 2)
    && h.src == Field(data, 12, 4) && h.dst == Field(data, 16, 4)
  }

  lemma {:induction false} IpFirstAt(data: seq<Byte>)
    requires |data| >= IP_HEADER_LENGTH
    ensures var p := Parser(data[0..], NoError);
            && ParseValue(p, 1) == data[0] && ParseValue(Skip(p, 1), 1) == data[1]
            && ParseValue(Skip(Skip(p, 1), 1), 2) == Field(data, 2, 2)
            && ParseValue(Skip(Skip(Skip(p, 1), 1), 2), 2) == Field(data, 4, 2)
            && AfterFirst(p) == Parser(data[6..], NoError)
  {
    ReadAt(data, 0, 1);
    ReadAt(data, 1, 1);
    ReadAt(data, 2, 2);
    ReadAt(data, 4, 2);
    OneByteField(data, 0);
    OneByteField(data, 1);
  }

  lemma {:induction false} IpSecondAt(data: seq<Byte>)
    requires |data| >= IP_HEADER_LENGTH
    ensures var q := Parser(data[6..], NoError);
            && ParseValue(q, 2) == Field(data, 6, 2) && ParseValue(Skip(q, 2), 1) == data[8]
            && ParseValue(Skip(Skip(q, 2), 1), 1) == data[9]
            && AfterSecond(q) == Parser(data[10..], NoError)
  {
    ReadAt(data, 6, 2);
    ReadAt(data, 8, 1);
    ReadAt(data, 9, 1);
    OneByteField(data, 8);
    OneByteField(data, 9);
  }

  lemma {:induction false} IpThirdAt(data: seq<Byte>)
    requires |data| >= IP_HEADER_LENGTH
    ensures var r := Parser(data[10..], NoError);
            && ParseValue(r, 2) == Field(data, 10, 2) && ParseValue(Skip(r, 2), 4) == Field(data, 12, 4)
            && ParseValue(Skip(Skip(r, 2), 4), 4) == Field(data, 16, 4)
            && AfterThird(r) == Parser(data[20..], NoError)
  {
    ReadAt(data, 10, 2);
    ReadAt(data, 12, 4);
    ReadAt(data, 16, 4);
  }

  lemma {:induction false} IpHeaderAt(data: seq<Byte>)
    requires |data| >= IP_HEADER_LENGTH
    ensures var parsed := IpFixed(Parser(data, NoError));
            IpLayout(data, parsed.value) && parsed.rest == Parser(data[20..], NoError)
  {
    assert data[0..] == data;
    IpFirstAt(data);
    IpSecondAt(data);
    IpThirdAt(data);
  }

  /** What a header has to be for its bytes. */
  predicate Fits(data: seq<Byte>, h: IPv4Header) { h.ver == 4 && 5 <= h.hlen && 4 * h.hlen <= |data| == h.len }

  predicate HeaderChecks(data: seq<Byte>, h: IPv4Header)
    requires 4 * h.hlen <= |data|
  {
    ChecksumValue(WordSum(data[..4 * h.hlen], false) % TWO32) == 0
  }

  lemma {:induction false} TestsAccept(data: seq<Byte>, h: IPv4Header, rest: Parser)
    requires |rest.buffer| + IP_HEADER_LENGTH == |data| && rest.error == NoError
    ensures var r := CheckIpHeader(data, h, rest);
            && r.header == h
            && (r.result == NoError <==> Fits(data, h) && HeaderChecks(data, h))
            && r.rest == (if Fits(data, h) then Parser(rest.buffer[4 * h.hlen - 20..], NoError) else rest)
  {
  }

  /** A header is accepted exactly if it fits and its bytes check. */
  lemma {:induction false} HeaderAccepts(prior: IPv4Header, data: seq<Byte>)
    ensures var r := ParseIpHeader(prior, Parser(data, NoError));
            if |data| < IP_HEADER_LENGTH then r == IpHeaderResult(PacketTooShort, prior, Parser(data, NoError))
            else
              && IpLayout(data, r.header)
              && (r.result == NoError <==> Fits(data, r.header) && HeaderChecks(data, r.header))
              && r.rest == Parser(data[if Fits(data, r.header) then 4 * r.header.hlen else 20..], NoError)
  {
    if |data| >= IP_HEADER_LENGTH {
      IpHeaderAt(data);
      var h := IpFixed(Parser(data, NoError)).value;
      TestsAccept(data, h, Parser(data[20..], NoError));
      if Fits(data, h) { assert data[20..][4 * h.hlen - 20..] == data[4 * h.hlen..]; }
    }
  }

  /** A datagram is accepted exactly if what follows the header, or the fixed part of one that does not fit, is as
      long as its length fields say: the header's own result is not looked at. */
  lemma {:induction false} DatagramAccepts(prior: IPv4Datagram, data: seq<Byte>)
    requires |data| >= IP_HEADER_LENGTH
    ensures var r := ParseDatagram(prior, data);
            var h := r.dgram.header;
            && IpLayout(data, h)
            && r.dgram.payload == data[if Fits(data, h) then 4 * h.hlen else 20..]
            && (r.result == NoError <==> |r.dgram.payload| == PayloadLength(h))
  {
    HeaderAccepts(prior.header, data);
  }

  /** So a header that fits is never refused, whether its bytes check or not. */
  lemma {:induction false} ChecksumIgnored(prior: IPv4Datagram, data: seq<Byte>)
    requires |data| >= IP_HEADER_LENGTH && Fits(data, ParseDatagram(prior, data).dgram.header)
    ensures ParseDatagram(prior, data).result == NoError
  {
    var h := ParseDatagram(prior, data).dgram.header;
    DatagramAccepts(prior, data);
    PayloadLengthOf(h, |data| - 4 * h.hlen);
  }

  /** A datagram is put on the wire so. */
  lemma {:induction false} IpOnTheWire(d: IPv4Datagram)
    requires WellFormed(d)
    ensures SerializeDatagram(d).Some?
    ensures var data := SerializeDatagram(d).value;
            && |data| == 4 * d.header.hlen + |d.payload|
            && |data| >= 20 && IpLayout(data, IpWithChecksum(d.header)) && HeaderChecks(data, d.header)
            && data[20..4 * d.header.hlen] == Zeros(4 * d.header.hlen - 20)
            && data[4 * d.header.hlen..] == d.payload
  {
    var h := IpWithChecksum(d.header);
    DatagramRoundTrip(d, d);
    HeaderAccepts(d.header, SerializeDatagram(d).value);
    IpPad(h);
    SplitAfter(IpHeaderBytes(h), d.payload, 20);
    assert SerializeDatagram(d).value == IpHeaderBytes(h) + d.payload;
  }

  lemma {:induction false} IpPad(h: IPv4Header)
    requires h.hlen >= 5
    ensures |IpHeaderBytes(h)| == 4 * h.hlen && IpHeaderBytes(h)[20..] == Zeros(4 * h.hlen - 20)
  {
    var pad := Zeros(4 * h.hlen - 20);
    IpWithRest(h, [], pad);
    SplitAfter(IpFields(h, []), pad, 0);
    assert [] + pad == pad;
  }

  // ---------------------------------------------------------------- the pseudo-header

  /** The pseudo-header of section 3.1 of RFC 793. */
  function PseudoHeader(h: IPv4Header): seq<Byte> {
    Unparse(h.src, 4) + (Unparse(h.dst, 4) + PseudoTail(h))
  }

  function PseudoTail(h: IPv4Header): seq<Byte> { [0, h.proto] + Unparse(PayloadLength(h), 2) }

  lemma {:induction false} WordOf32(v: U32)
    ensures WordSum(Unparse(v, 4), false) == v / 0x1_0000 + v % 0x1_0000
  {
    assert Unparse(v, 4) == Unparse(v / 256, 3) + [v % 256];
    assert Unparse(v / 256, 3) == Unparse(v / 256 / 256, 2) + [v / 256 % 256];
    assert Unparse(v % 0x1_0000, 2) == Unparse(v % 0x1_0000 / 256, 1) + [v % 0x1_0000 % 256];
    assert Unparse(v % 0x1_0000 / 256, 1) == Unparse(v % 0x1_0000 / 256 / 256, 0) + [v % 0x1_0000 / 256 % 256];
    assert v / 256 / 256 == v / 0x1_0000;
    assert Unparse(v, 4) == Unparse(v / 0x1_0000, 2) + Unparse(v % 0x1_0000, 2);
    WordSumConcat(Unparse(v / 0x1_0000, 2), Unparse(v % 0x1_0000, 2), false);
    WordOf16(v / 0x1_0000);
    WordOf16(v % 0x1_0000);
  }

  /** The sum a segment's checksum starts from is that of the pseudo-header: addresses, protocol and length. */
  lemma {:induction false} PseudoSumCovers(h: IPv4Header)
    ensures PseudoSum(h) == WordSum(PseudoHeader(h), false)
  {
    WordSumConcat(Unparse(h.src, 4), Unparse(h.dst, 4) + PseudoTail(h), false);
    WordSumConcat(Unparse(h.dst, 4), PseudoTail(h), false);
    WordSumConcat([0, h.proto], Unparse(PayloadLength(h), 2), false);
    WordOf32(h.src);
    WordOf32(h.dst);
    WordOf16(PayloadLength(h));
    assert [0, h.proto][1..] == [h.proto] && [h.proto][1..] == [];
    assert WordSum([0, h.proto], false) == WordSum([h.proto], true) == h.proto;
  }

  /** So a segment is checked as one with its pseudo-header. */
  lemma {:induction false} ChecksTogether(h: IPv4Header, data: seq<Byte>)
    ensures Checks(data, PseudoSum(h)) <==> Checks(PseudoHeader(h) + data, 0)
  {
    PseudoSumCovers(h);
    WordSumConcat(PseudoHeader(h), data, false);
  }

  /** Changing one byte of a segment, of either address, of the protocol or of the length gets it refused. */
  lemma {:induction false} AnyByteNoticed(h: IPv4Header, data: seq<Byte>, h': IPv4Header, data': seq<Byte>,
                                          i: nat, v: Byte, prior: TCPSegment, prior': TCPSegment)
    requires i < |PseudoHeader(h) + data| && v != (PseudoHeader(h) + data)[i]
    requires PseudoHeader(h') + data' == (PseudoHeader(h) + data)[i := v]
    requires Parse(prior, data, PseudoSum(h)).result != BadChecksum
    ensures Parse(prior', data', PseudoSum(h')) == SegmentResult(BadChecksum, prior')
  {
    ParserNeverBad(data, PseudoSum(h), prior);
    ChecksTogether(h, data);
    ChecksTogether(h', data');
    ChangeFailsCheck(PseudoHeader(h) + data, 0, i, v);
  }

  /** What an address adds to the sum: its two halves. */
  function Halves(addr: U32): nat { addr / 0x1_0000 + addr % 0x1_0000 }

  /** In particular a segment is refused under another source or destination address whenever the halves of the two
      addresses add up to different sums less than 65535 apart, as they do if the addresses differ in one byte. */
  lemma {:induction false} WrongAddressRefused(h: IPv4Header, h': IPv4Header, data: seq<Byte>,
                                               prior: TCPSegment, prior': TCPSegment)
    requires h' == h.(src := h'.src) || h' == h.(dst := h'.dst)
    requires var step := Halves(h'.src) + Halves(h'.dst) - Halves(h.src) - Halves(h.dst);
             step != 0 && -0xFFFF < step < 0xFFFF
    requires Parse(prior, data, PseudoSum(h)).result != BadChecksum
    ensures Parse(prior', data, PseudoSum(h')) == SegmentResult(BadChecksum, prior')
  {
    ParserNeverBad(data, PseudoSum(h), prior);
    var x, y := PseudoSum(h) + WordSum(data, false), PseudoSum(h') + WordSum(data, false);
    if x < y { NearbyAccumulatorsDiffer(x, y); } else { NearbyAccumulatorsDiffer(y, x); }
  }
}
