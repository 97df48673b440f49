/** The TCP segment as the engine and the wire code share it. */
module Segments {
  import opened Basics

  datatype TCPHeader = TCPHeader(
    sport: U16, dport: U16, seqno: U32, ackno: U32, doff: Nibble,
    urg: bool, ack: bool, psh: bool, rst: bool, syn: bool, fin: bool,
    win: U16, cksum: U16, uptr: U16)

  datatype TCPSegment = TCPSegment(header: TCPHeader, payload: seq<Byte>)

  const DEFAULT_HEADER := TCPHeader(0, 0, 0, 0, 5, false, false, false, false, false, false, 0, 0, 0)

  /** Length in sequence space: SYN and FIN occupy one number each. */
  function SeqLength(seg: TCPSegment): nat {
    |seg.payload| + (if seg.header.syn then 1 else 0) + (if seg.header.fin then 1 else 0)
  }

  /** A segment together with the absolute number its wire seqno stands for. */
  datatype Numbered = Numbered(seqno: nat, seg: TCPSegment) {
    function End(): nat { seqno + SeqLength(seg) }
  }
}
