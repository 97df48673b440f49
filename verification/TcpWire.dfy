/** TCP segments on the wire (section 3.1 of RFC 793). */
module TcpWire {
  import opened Basics
  import opened Segments
  import opened Checksums
  import opened Parsing

  const TCP_HEADER_LENGTH: nat := 20

  function Zeros(n: nat): (z: seq<Byte>)
    ensures |z| == n
  {
    seq(n, _ => 0)
  }

  function Bit(b: bool, weight: nat): nat { if b then weight else 0 }

  predicate HasBit(x: nat, weight: nat)
    requires weight > 0
  {
    (x / weight) % 2 == 1
  }

  function FlagByte(h: TCPHeader): nat {
    Bit(h.urg, 32) + Bit(h.ack, 16) + Bit(h.psh, 8) + Bit(h.rst, 4) + Bit(h.syn, 2) + Bit(h.fin, 1)
  }

  function Ports(h: TCPHeader, tail: seq<Byte>): seq<Byte> {
    Unparse(h.sport, 2) + (Unparse(h.dport, 2) + (Unparse(h.seqno, 4) + (Unparse(h.ackno, 4) + tail)))
  }

  function Middle(h: TCPHeader, tail: seq<Byte>): seq<Byte> {
    Unparse(16 * h.doff, 1) + (Unparse(FlagByte(h), 1) + (Unparse(h.win, 2) + tail))
  }

  /** The fields before the checksum, and the ones from it on, followed by `tail`. */
  function FrontFields(h: TCPHeader, tail: seq<Byte>): seq<Byte> {
    Ports(h, Middle(h, tail))
  }

  function BackFields(h: TCPHeader, tail: seq<Byte>): seq<Byte> {
    Unparse(h.cksum, 2) + (Unparse(h.uptr, 2) + tail)
  }

  /** A header of `doff` words: the fields and zeros for the options. */
  function HeaderBytes(h: TCPHeader): seq<Byte>
    requires h.doff >= 5
  {
    FrontFields(h, BackFields(h, Zeros(4 * h.doff - TCP_HEADER_LENGTH)))
  }

  function SegmentSum(seg: TCPSegment, pseudo: U32): nat
    requires seg.header.doff >= 5
  {
    pseudo + WordSum(HeaderBytes(seg.header.(cksum := 0)) + seg.payload, false)
  }

  /** The segment with the checksum it is sent with; the accumulator has 32 bits. */
  function WithChecksum(seg: TCPSegment, pseudo: U32): TCPSegment
    requires seg.header.doff >= 5
  {
    seg.(header := seg.header.(cksum := ChecksumValue(SegmentSum(seg, pseudo) % TWO32)))
  }

  /** Nothing when the header is too short: the source throws. */
  function Serialize(seg: TCPSegment, pseudo: U32): Option<seq<Byte>> {
    if seg.header.doff < 5 then None
    else Some(HeaderBytes(WithChecksum(seg, pseudo).header) + seg.payload)
  }

  function U16At(p: Parser): U16 {
    ParseBound(p, 2);
    ParseValue(p, 2)
  }

  function U32At(p: Parser): U32 {
    ParseBound(p, 4);
    ParseValue(p, 4)
  }

  function U8At(p: Parser): Byte {
    ParseBound(p, 1);
    ParseValue(p, 1)
  }

  lemma {:induction false} ParseBound(p: Parser, len: nat)
    ensures 0 <= ParseValue(p, len) < Pow256(len)
    ensures Pow256(1) == 256 && Pow256(2) == 0x1_0000 && Pow256(4) == 0x1_0000_0000
  {
    Pow256Positive(len);
    assert Pow256(2) == 256 * Pow256(1);
    assert Pow256(3) == 256 * Pow256(2);
    if CheckSize(p, len).error == NoError { BigEndianBound(p.buffer[..len]); }
  }

  datatype Parsed<T> = Parsed(value: T, rest: Parser)

  function AfterPorts(p: Parser): Parser { Skip(Skip(Skip(Skip(p, 2), 2), 4), 4) }

  function AfterMiddle(p: Parser): Parser { Skip(Skip(Skip(p, 1), 1), 2) }

  function AfterBack(p: Parser): Parser { Skip(Skip(p, 2), 2) }

  /** The fields read from `p`, from `q` (data offset on) and from `r` (checksum on). */
  function FieldsAt(p: Parser, q: Parser, r: Parser): TCPHeader {
    var flags := U8At(Skip(q, 1));
    TCPHeader(U16At(p), U16At(Skip(p, 2)), U32At(Skip(Skip(p, 2), 2)), U32At(Skip(Skip(Skip(p, 2), 2), 4)),
              U8At(q) / 16,
              HasBit(flags, 32), HasBit(flags, 16), HasBit(flags, 8), HasBit(flags, 4), HasBit(flags, 2),
              HasBit(flags, 1),
              U16At(Skip(Skip(q, 1), 1)), U16At(r), U16At(Skip(r, 2)))
  }

  function ParseHeader(p: Parser): Parsed<TCPHeader> {
    var q := AfterPorts(p);
    var r := AfterMiddle(q);
    var h := FieldsAt(p, q, r);
    Parsed(h, if h.doff < 5 then AfterBack(r) else Skip(AfterBack(r), 4 * h.doff - TCP_HEADER_LENGTH))
  }

  datatype SegmentResult = SegmentResult(result: ParseResult, seg: TCPSegment)

  predicate Checks(data: seq<Byte>, pseudo: U32) {
    ChecksumValue((pseudo + WordSum(data, false)) % TWO32) == 0
  }

  /** `prior` is the segment object before the call, left as it is by a bad checksum. A header that is too short
      is not reported. */
  function Parse(prior: TCPSegment, data: seq<Byte>, pseudo: U32): SegmentResult {
    if !Checks(data, pseudo) then SegmentResult(BadChecksum, prior)
    else
      var parsed := ParseHeader(Parser(data, NoError));
      SegmentResult(parsed.rest.error, TCPSegment(parsed.value, parsed.rest.buffer))
  }

  // ---------------------------------------------------------------- fields

  lemma FlagsRoundTrip(h: TCPHeader)
    ensures var f := FlagByte(h);
            && f < 256
            && HasBit(f, 32) == h.urg && HasBit(f, 16) == h.ack && HasBit(f, 8) == h.psh
            && HasBit(f, 4) == h.rst && HasBit(f, 2) == h.syn && HasBit(f, 1) == h.fin
  {
  }

  lemma Pow256Values()
    ensures Pow256(1) == 256 && Pow256(2) == 0x1_0000 && Pow256(4) == 0x1_0000_0000
  {
    assert Pow256(2) == 256 * Pow256(1);
    assert Pow256(3) == 256 * Pow256(2);
  }

  lemma {:induction false} PortsRoundTrip(h: TCPHeader, tail: seq<Byte>)
    ensures var p := Parser(Ports(h, tail), NoError);
            && ParseValue(p, 2) == h.sport && ParseValue(Skip(p, 2), 2) == h.dport
            && ParseValue(Skip(Skip(p, 2), 2), 4) == h.seqno
            && ParseValue(Skip(Skip(Skip(p, 2), 2), 4), 4) == h.ackno
            && AfterPorts(p) == Parser(tail, NoError)
  {
    Pow256Values();
    var t3 := Unparse(h.ackno, 4) + tail;
    var t2 := Unparse(h.seqno, 4) + t3;
    ParseUnparse(h.sport, 2, Unparse(h.dport, 2) + t2);
    ParseUnparse(h.dport, 2, t2);
    ParseUnparse(h.seqno, 4, t3);
    ParseUnparse(h.ackno, 4, tail);
  }

  lemma {:induction false} MiddleRoundTrip(h: TCPHeader, tail: seq<Byte>)
    ensures var p := Parser(Middle(h, tail), NoError);
            && ParseValue(p, 1) == 16 * h.doff && ParseValue(Skip(p, 1), 1) == FlagByte(h)
            && ParseValue(Skip(Skip(p, 1), 1), 2) == h.win
            && AfterMiddle(p) == Parser(tail, NoError)
  {
    Pow256Values();
    FlagsRoundTrip(h);
    var t2 := Unparse(h.win, 2) + tail;
    ParseUnparse(16 * h.doff, 1, Unparse(FlagByte(h), 1) + t2);
    ParseUnparse(FlagByte(h), 1, t2);
    ParseUnparse(h.win, 2, tail);
  }

  lemma {:induction false} BackRoundTrip(h: TCPHeader, tail: seq<Byte>)
    ensures var p := Parser(BackFields(h, tail), NoError);
            && ParseValue(p, 2) == h.cksum && ParseValue(Skip(p, 2), 2) == h.uptr
            && AfterBack(p) == Parser(tail, NoError)
  {
    Pow256Values();
    ParseUnparse(h.cksum, 2, Unparse(h.uptr, 2) + tail);
    ParseUnparse(h.uptr, 2, tail);
  }

  lemma {:induction false} FieldsRoundTrip(h: TCPHeader, tail: seq<Byte>)
    ensures var r := BackFields(h, tail);
            var q := Middle(h, r);
            FieldsAt(Parser(Ports(h, q), NoError), Parser(q, NoError), Parser(r, NoError)) == h
  {
    PortsRoundTrip(h, Middle(h, BackFields(h, tail)));
    MiddleRoundTrip(h, BackFields(h, tail));
    BackRoundTrip(h, tail);
    FlagsRoundTrip(h);
  }

  lemma {:induction false} PadRoundTrip(n: nat, rest: seq<Byte>)
    ensures Skip(Parser(Zeros(n) + rest, NoError), n) == Parser(rest, NoError)
  {
    assert (Zeros(n) + rest)[n..] == rest;
  }

  /** The header comes back field by field, and what follows it is left over. */
  lemma {:induction false} HeaderRoundTrip(h: TCPHeader, rest: seq<Byte>)
    requires h.doff >= 5
    ensures ParseHeader(Parser(HeaderBytes(h) + rest, NoError)) == Parsed(h, Parser(rest, NoError))
  {
    var tail := Zeros(4 * h.doff - TCP_HEADER_LENGTH) + rest;
    HeaderWithRest(h, rest);
    FieldsRoundTrip(h, tail);
    PortsRoundTrip(h, Middle(h, BackFields(h, tail)));
    MiddleRoundTrip(h, BackFields(h, tail));
    BackRoundTrip(h, tail);
    PadRoundTrip(4 * h.doff - TCP_HEADER_LENGTH, rest);
  }

  lemma {:induction false} HeaderWithRest(h: TCPHeader, rest: seq<Byte>)
    requires h.doff >= 5
    ensures HeaderBytes(h) + rest == FrontFields(h, BackFields(h, Zeros(4 * h.doff - TCP_HEADER_LENGTH) + rest))
  {
    var pad := Zeros(4 * h.doff - TCP_HEADER_LENGTH);
    BackWithRest(h, pad, rest);
    FrontWithRest(h, BackFields(h, pad), rest);
  }

  lemma {:induction false} FrontWithRest(h: TCPHeader, tail: seq<Byte>, rest: seq<Byte>)
    ensures FrontFields(h, tail) + rest == FrontFields(h, tail + rest)
  {
  }

  lemma {:induction false} BackWithRest(h: TCPHeader, tail: seq<Byte>, rest: seq<Byte>)
    ensures BackFields(h, tail) + rest == BackFields(h, tail + rest)
  {
  }

  // ---------------------------------------------------------------- checksum

  lemma {:induction false} WordOf16(v: U16)
    ensures WordSum(Unparse(v, 2), false) == v
  {
    var data := Unparse(v, 2);
    assert Unparse(v / 256, 1) == Unparse(v / 256 / 256, 0) + [v / 256 % 256];
    assert data == [v / 256 % 256, v % 256];
    assert data[1..] == [v % 256] && data[1..][1..] == [];
    assert WordSum(data[1..], true) == v % 256;
  }

  /** The checksum field contributes its own value and nothing else. */
  lemma {:induction false} HeaderSum(h: TCPHeader, rest: seq<Byte>)
    requires h.doff >= 5
    ensures WordSum(HeaderBytes(h) + rest, false) == WordSum(HeaderBytes(h.(cksum := 0)) + rest, false) + h.cksum
  {
    FieldSum(h, rest);
    FieldSum(h.(cksum := 0), rest);
  }

  lemma {:induction false} FieldSum(h: TCPHeader, rest: seq<Byte>)
    requires h.doff >= 5
    ensures var front := FrontFields(h.(cksum := 0), []);
            var back := Unparse(h.uptr, 2) + (Zeros(4 * h.doff - TCP_HEADER_LENGTH) + rest);
            WordSum(HeaderBytes(h) + rest, false) == WordSum(front, false) + h.cksum + WordSum(back, false)
  {
    var front := FrontFields(h, []);
    var tail := Unparse(h.uptr, 2) + (Zeros(4 * h.doff - TCP_HEADER_LENGTH) + rest);
    HeaderWithRest(h, rest);
    FrontWithRest(h, [], Unparse(h.cksum, 2) + tail);
    assert HeaderBytes(h) + rest == front + (Unparse(h.cksum, 2) + tail);
    assert front == FrontFields(h.(cksum := 0), []);
    FrontLength(h);
    WordSumConcat(front, Unparse(h.cksum, 2) + tail, false);
    WordSumConcat(Unparse(h.cksum, 2), tail, false);
    WordOf16(h.cksum);
  }

  lemma FrontLength(h: TCPHeader)
    ensures |FrontFields(h, [])| == 16
  {
  }

  lemma {:induction false} SerializedChecks(seg: TCPSegment, pseudo: U32)
    requires seg.header.doff >= 5
    ensures Checks(Serialize(seg, pseudo).value, pseudo)
  {
    HeaderSum(WithChecksum(seg, pseudo).header, seg.payload);
    AccumulatorCompletes(SegmentSum(seg, pseudo));
  }

  /** The round trip: a serialized segment of any length is accepted, and comes back with every field and byte
      it had and the checksum it was sent with. */
  lemma {:induction false} SegmentRoundTrip(seg: TCPSegment, pseudo: U32, prior: TCPSegment)
    requires seg.header.doff >= 5
    ensures Parse(prior, Serialize(seg, pseudo).value, pseudo) == SegmentResult(NoError, WithChecksum(seg, pseudo))
  {
    SerializedChecks(seg, pseudo);
    HeaderRoundTrip(WithChecksum(seg, pseudo).header, seg.payload);
  }

  lemma {:induction false} HeaderLength(h: TCPHeader)
    requires h.doff >= 5
    ensures |HeaderBytes(h)| == 4 * h.doff
  {
  }

  /** Changing any one byte of anything that is accepted gets it refused. */
  lemma {:induction false} OneByteNoticed(data: seq<Byte>, pseudo: U32, i: nat, v: Byte,
                                          prior: TCPSegment, prior': TCPSegment)
    requires i < |data| && v != data[i]
    requires Parse(prior, data, pseudo).result != BadChecksum
    ensures Parse(prior', data[i := v], pseudo) == SegmentResult(BadChecksum, prior')
  {
    ParserNeverBad(data, pseudo, prior);
    ChangeFailsCheck(data, pseudo, i, v);
  }

  lemma {:induction false} ChangeFailsCheck(data: seq<Byte>, pseudo: U32, i: nat, v: Byte)
    requires i < |data| && v != data[i]
    requires Checks(data, pseudo)
    ensures !Checks(data[i := v], pseudo)
  {
    var x, y := pseudo + WordSum(data, false), pseudo + WordSum(data[i := v], false);
    WordSumUpdate(data, i, v, false);
    if x < y { NearbyAccumulatorsDiffer(x, y); } else { NearbyAccumulatorsDiffer(y, x); }
  }

  /** Only the checksum test reports a bad checksum. */
  lemma {:induction false} ParserNeverBad(data: seq<Byte>, pseudo: U32, prior: TCPSegment)
    ensures Parse(prior, data, pseudo).result == BadChecksum <==> !Checks(data, pseudo)
  {
  }
}
