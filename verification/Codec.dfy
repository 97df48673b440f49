/** Serializing and parsing step by step, with the parser and checksum objects. */
module Codec {
  import opened Basics
  import opened Segments
  import opened Checksums
  import opened Parsing
  import opened TcpWire
  import opened Ipv4Wire

  lemma {:induction false} Appends3(a: seq<Byte>, b: seq<Byte>, c: seq<Byte>, tail: seq<Byte>)
    ensures a + (b + (c + tail)) == [] + a + b + c + tail
  {
  }

  lemma {:induction false} Appends4(a: seq<Byte>, b: seq<Byte>, c: seq<Byte>, d: seq<Byte>, tail: seq<Byte>)
    ensures a + (b + (c + (d + tail))) == [] + a + b + c + d + tail
  {
  }

  method PutPorts(h: TCPHeader, ghost tail: seq<Byte>) returns (ret: seq<Byte>)
    ensures ret + tail == Ports(h, tail)
  {
    ret := UnparseInt([], h.sport, 2);
    ret := UnparseInt(ret, h.dport, 2);
    ret := UnparseInt(ret, h.seqno, 4);
    ret := UnparseInt(ret, h.ackno, 4);
    Appends4(Unparse(h.sport, 2), Unparse(h.dport, 2), Unparse(h.seqno, 4), Unparse(h.ackno, 4), tail);
  }

  method PutMiddle(h: TCPHeader, ghost tail: seq<Byte>) returns (ret: seq<Byte>)
    ensures ret + tail == Middle(h, tail)
  {
    ret := UnparseInt([], 16 * h.doff, 1);
    ret := UnparseInt(ret, FlagByte(h), 1);
    ret := UnparseInt(ret, h.win, 2);
    Appends3(Unparse(16 * h.doff, 1), Unparse(FlagByte(h), 1), Unparse(h.win, 2), tail);
  }

  method PutBack(h: TCPHeader, ghost tail: seq<Byte>) returns (ret: seq<Byte>)
    ensures ret + tail == BackFields(h, tail)
  {
    ret := UnparseInt([], h.cksum, 2);
    ret := UnparseInt(ret, h.uptr, 2);
    Appends3(Unparse(h.cksum, 2), Unparse(h.uptr, 2), [], tail);
  }

  method SerializeTcpHeader(h: TCPHeader) returns (ret: seq<Byte>)
    requires h.doff >= 5
    ensures ret == HeaderBytes(h)
  {
    var pad := Zeros(4 * h.doff - TCP_HEADER_LENGTH);
    ghost var back := BackFields(h, pad);
    ghost var middle := Middle(h, back);
    ret := PutPorts(h, middle);
    var next := PutMiddle(h, back);
    var last := PutBack(h, pad);
    Appends3(ret, next, last, pad);
    ret := ret + next + last + pad;
  }

  /** Header and payload added one after the other give the sum of the whole. */
  method ChecksumOf(header: seq<Byte>, payload: seq<Byte>, pseudo: U32) returns (cksum: U16)
    requires |header| % 2 == 0
    ensures cksum == ChecksumValue((pseudo + WordSum(header + payload, false)) % TWO32)
  {
    var check := new InternetChecksum(pseudo);
    check.Add(header);
    check.Add(payload);
    WordSumConcat(header, payload, false);
    AddMod(pseudo + WordSum(header, false), WordSum(payload, false));
    cksum := check.Value();
  }

  method SerializeSegment(seg: TCPSegment, pseudo: U32) returns (ret: Option<seq<Byte>>)
    ensures ret == Serialize(seg, pseudo)
  {
    if seg.header.doff < 5 {
      return None;
    }
    var header := seg.header.(cksum := 0);
    var zeroed := SerializeTcpHeader(header);
    HeaderLength(header);
    var cksum := ChecksumOf(zeroed, seg.payload, pseudo);
    header := header.(cksum := cksum);
    assert header == WithChecksum(seg, pseudo).header;
    var bytes := SerializeTcpHeader(header);
    ret := Some(bytes + seg.payload);
  }

  method ParseTcpHeader(p: NetParser) returns (h: TCPHeader)
    modifies p
    ensures Parsed(h, p.State()) == ParseHeader(old(p.State()))
  {
    Pow256Values();
    var sport := p.ParseInt(2);
    var dport := p.ParseInt(2);
    var seqno := p.ParseInt(4);
    var ackno := p.ParseInt(4);
    var doff := p.ParseInt(1);
    doff := doff / 16;
    var flags := p.ParseInt(1);
    var win := p.ParseInt(2);
    var cksum := p.ParseInt(2);
    var uptr := p.ParseInt(2);
    h := TCPHeader(sport, dport, seqno, ackno, doff,
                   HasBit(flags, 32), HasBit(flags, 16), HasBit(flags, 8), HasBit(flags, 4), HasBit(flags, 2),
                   HasBit(flags, 1), win, cksum, uptr);
    if doff >= 5 {
      p.RemovePrefix(4 * doff - TCP_HEADER_LENGTH);
    }
  }

  method ParseSegment(prior: TCPSegment, data: seq<Byte>, pseudo: U32) returns (r: SegmentResult)
    ensures r == Parse(prior, data, pseudo)
  {
    var check := new InternetChecksum(pseudo);
    check.Add(data);
    var value := check.Value();
    if value != 0 {
      return SegmentResult(BadChecksum, prior);
    }
    var p := new NetParser(data);
    var h := ParseTcpHeader(p);
    r := SegmentResult(p.error, TCPSegment(h, p.buffer));
  }

  method PutIpFirst(h: IPv4Header, ghost tail: seq<Byte>) returns (ret: seq<Byte>)
    ensures ret + tail == IpFirst(h, tail)
  {
    ret := UnparseInt([], 16 * h.ver + h.hlen, 1);
    ret := UnparseInt(ret, h.tos, 1);
    ret := UnparseInt(ret, h.len, 2);
    ret := UnparseInt(ret, h.id, 2);
    Appends4(Unparse(16 * h.ver + h.hlen, 1), Unparse(h.tos, 1), Unparse(h.len, 2), Unparse(h.id, 2), tail);
  }

  method PutIpSecond(h: IPv4Header, ghost tail: seq<Byte>) returns (ret: seq<Byte>)
    ensures ret + tail == IpSecond(h, tail)
  {
    ret := UnparseInt([], FragmentWord(h), 2);
    ret := UnparseInt(ret, h.ttl, 1);
    ret := UnparseInt(ret, h.proto, 1);
    Appends3(Unparse(FragmentWord(h), 2), Unparse(h.ttl, 1), Unparse(h.proto, 1), tail);
  }

  method PutIpThird(h: IPv4Header, ghost tail: seq<Byte>) returns (ret: seq<Byte>)
    ensures ret + tail == IpThird(h, tail)
  {
    ret := UnparseInt([], h.cksum, 2);
    ret := UnparseInt(ret, h.src, 4);
    ret := UnparseInt(ret, h.dst, 4);
    Appends3(Unparse(h.cksum, 2), Unparse(h.src, 4), Unparse(h.dst, 4), tail);
  }

  method SerializeIpHeader(h: IPv4Header) returns (ret: seq<Byte>)
    requires h.hlen >= 5
    ensures ret == IpHeaderBytes(h)
  {
    var pad := Zeros(4 * h.hlen - IP_HEADER_LENGTH);
    ghost var third := IpThird(h, pad);
    ghost var second := IpSecond(h, third);
    ret := PutIpFirst(h, second);
    var next := PutIpSecond(h, third);
    var last := PutIpThird(h, pad);
    Appends3(ret, next, last, pad);
    ret := ret + next + last + pad;
  }

  method SerializeIp(d: IPv4Datagram) returns (ret: Option<seq<Byte>>)
    ensures ret == SerializeDatagram(d)
  {
    if |d.payload| != PayloadLength(d.header) || d.header.ver != 4 || d.header.hlen < 5 {
      return None;
    }
    var header := d.header.(cksum := 0);
    var zeroed := SerializeIpHeader(header);
    var check := new InternetChecksum(0);
    check.Add(zeroed);
    var cksum := check.Value();
    var bytes := SerializeIpHeader(header.(cksum := cksum));
    ret := Some(bytes + d.payload);
  }

  method TakeIpFirst(p: NetParser) returns (first: Byte, tos: Byte, len: U16, id: U16)
    modifies p
    ensures var q := old(p.State());
            && first == U8At(q) && tos == U8At(Skip(q, 1)) && len == U16At(Skip(Skip(q, 1), 1))
            && id == U16At(Skip(Skip(Skip(q, 1), 1), 2)) && p.State() == AfterFirst(q)
  {
    Pow256Values();
    first := p.ParseInt(1);
    tos := p.ParseInt(1);
    len := p.ParseInt(2);
    id := p.ParseInt(2);
  }

  method TakeIpSecond(p: NetParser) returns (fo: U16, ttl: Byte, proto: Byte)
    modifies p
    ensures var q := old(p.State());
            && fo == U16At(q) && ttl == U8At(Skip(q, 2)) && proto == U8At(Skip(Skip(q, 2), 1))
            && p.State() == AfterSecond(q)
  {
    Pow256Values();
    fo := p.ParseInt(2);
    ttl := p.ParseInt(1);
    proto := p.ParseInt(1);
  }

  method TakeIpThird(p: NetParser) returns (cksum: U16, src: U32, dst: U32)
    modifies p
    ensures var q := old(p.State());
            && cksum == U16At(q) && src == U32At(Skip(q, 2)) && dst == U32At(Skip(Skip(q, 2), 4))
            && p.State() == AfterThird(q)
  {
    Pow256Values();
    cksum := p.ParseInt(2);
    src := p.ParseInt(4);
    dst := p.ParseInt(4);
  }

  method ParseIpFields(p: NetParser) returns (h: IPv4Header)
    modifies p
    ensures Parsed(h, p.State()) == IpFixed(old(p.State()))
  {
    var first, tos, len, id := TakeIpFirst(p);
    var fo, ttl, proto := TakeIpSecond(p);
    var cksum, src, dst := TakeIpThird(p);
    h := IPv4Header(first / 16, first % 16, tos, len, id, HasBit(fo, 0x4000), HasBit(fo, 0x2000), fo % 0x2000,
                    ttl, proto, cksum, src, dst);
  }

  /** The tests on a header whose fields have been read. */
  method CheckIp(original: seq<Byte>, h: IPv4Header, p: NetParser) returns (result: ParseResult)
    modifies p
    ensures IpHeaderResult(result, h, p.State()) == CheckIpHeader(original, h, old(p.State()))
  {
    if |original| < 4 * h.hlen {
      return PacketTooShort;
    }
    if h.ver != 4 {
      return WrongIPVersion;
    }
    if h.hlen < 5 {
      return HeaderTooShort;
    }
    if |original| != h.len {
      return TruncatedPacket;
    }
    p.RemovePrefix(4 * h.hlen - IP_HEADER_LENGTH);
    var check := new InternetChecksum(0);
    check.Add(original[..4 * h.hlen]);
    var value := check.Value();
    result := if value != 0 then BadChecksum else NoError;
  }

  method ParseIp(prior: IPv4Header, p: NetParser) returns (result: ParseResult, h: IPv4Header)
    modifies p
    ensures IpHeaderResult(result, h, p.State()) == ParseIpHeader(prior, old(p.State()))
  {
    var original := p.buffer;
    if |original| < IP_HEADER_LENGTH {
      return PacketTooShort, prior;
    }
    h := ParseIpFields(p);
    result := CheckIp(original, h, p);
  }

  method ParseIpDatagram(prior: IPv4Datagram, data: seq<Byte>) returns (r: DatagramResult)
    ensures r == ParseDatagram(prior, data)
  {
    var p := new NetParser(data);
    var _, h := ParseIp(prior.header, p);
    var dgram := IPv4Datagram(h, p.buffer);
    if |dgram.payload| != PayloadLength(h) {
      return DatagramResult(PacketTooShort, dgram);
    }
    r := DatagramResult(p.error, dgram);
  }
}
