/** The receiving half of an endpoint, as a value. */
module ReceiverModel {
  import opened Basics
  import opened WrappingIntegers
  import opened StreamModel
  import opened ReassemblerModel
  import opened Reassembler64
  import opened Segments

  datatype Receiver = Receiver(inListen: bool, isn: U32, reasm: Reassembler)

  function NewReceiver(capacity: nat, isn: U32): Receiver {
    Receiver(true, isn, NewReassembler(capacity))
  }

  function Output(r: Receiver): Stream { r.reasm.output }

  /** The absolute acknowledgment number: SYN, bytes assembled, and FIN once reached. */
  function AbsAck(r: Receiver): nat {
    |Output(r).history| + 1 + (if Output(r).ended then 1 else 0)
  }

  function WindowSize(r: Receiver): nat { Remaining(Output(r)) }

  function Ackno(r: Receiver): Option<U32> {
    if r.inListen then None else Some(Wrap(AbsAck(r), r.isn))
  }

  /** The first absolute number beyond what the receiver will take. */
  function RightEdge(r: Receiver): nat { AbsAck(r) + WindowSize(r) }

  /** `abs_seq - !syn` in unsigned 64-bit arithmetic. */
  function StreamIndex(absSeq: nat, syn: bool): nat {
    if syn then absSeq else if absSeq == 0 then TWO64 - 1 else absSeq - 1
  }

  function Accept(r: Receiver, seg: TCPSegment): Receiver {
    var absSeq := Unwrap64(seg.header.seqno, r.isn, |Output(r).history|);
    if absSeq >= RightEdge(r) then r
    else r.(reasm := Push64(r.reasm, seg.payload, StreamIndex(absSeq, seg.header.syn), seg.header.fin))
  }

  function SegmentReceived(r: Receiver, seg: TCPSegment): Receiver {
    if r.inListen then
      if seg.header.syn then Accept(r.(inListen := false, isn := seg.header.seqno), seg) else r
    else Accept(r, seg)
  }

  function ReadFrom(r: Receiver, len: nat): Receiver {
    r.(reasm := ReadOut(r.reasm, len))
  }

  // ---------------------------------------------------------------- promises

  /** The window as put on a segment. */
  function AdvertisedWindow(r: Receiver): U16 { Min(0xFFFF, WindowSize(r)) }

  datatype ReceiverEvent = Arrive(seg: TCPSegment) | Consume(len: nat)

  function ReceiverStep(r: Receiver, ev: ReceiverEvent): Receiver {
    match ev
    case Arrive(seg) => SegmentReceived(r, seg)
    case Consume(len) => ReadFrom(r, len)
  }

  function ReceiverRun(r: Receiver, evs: seq<ReceiverEvent>): Receiver
    decreases |evs|
  {
    if evs == [] then r else ReceiverRun(ReceiverStep(r, evs[0]), evs[1..])
  }

  /** One promise against a later one: the connection is not forgotten, the acknowledgment number does not
      fall and the advertised right edge does not move left. */
  ghost predicate KeepsPromise(r: Receiver, r': Receiver) {
    && (r.inListen || (!r'.inListen && r'.isn == r.isn))
    && AbsAck(r) <= AbsAck(r')
    && RightEdge(r) <= RightEdge(r')
    && AbsAck(r) + AdvertisedWindow(r) <= AbsAck(r') + AdvertisedWindow(r')
  }

  lemma {:induction false} StepKeepsPromise(r: Receiver, ev: ReceiverEvent)
    ensures KeepsPromise(r, ReceiverStep(r, ev))
  {
    if ev.Arrive? {
      var seg := ev.seg;
      var r1 := if r.inListen then r.(inListen := false, isn := seg.header.seqno) else r;
      var absSeq := Unwrap64(seg.header.seqno, r1.isn, |Output(r1).history|);
      Push64Grows(r1.reasm, seg.payload, StreamIndex(absSeq, seg.header.syn), seg.header.fin);
    }
  }

  /** Over every run of segments, whatever they contain, and reads. */
  lemma {:induction false} NeverRetracts(r: Receiver, evs: seq<ReceiverEvent>)
    ensures KeepsPromise(r, ReceiverRun(r, evs))
    decreases |evs|
  {
    if evs != [] {
      StepKeepsPromise(r, evs[0]);
      NeverRetracts(ReceiverStep(r, evs[0]), evs[1..]);
    }
  }

  // ---------------------------------------------------------------- the first segment

  /** A SYN fixes the initial number, and what it carries is taken: bytes up to the capacity, and a FIN if all of
      them fit. */
  lemma {:induction false} FirstSegment(capacity: nat, someIsn: U32, seg: TCPSegment)
    requires seg.header.syn && |seg.payload| < TWO64 - 1
    ensures var r := SegmentReceived(NewReceiver(capacity, someIsn), seg);
            && !r.inListen && r.isn == seg.header.seqno
            && Output(r).history == seg.payload[..Min(|seg.payload|, capacity)]
            && (Output(r).ended <==> seg.header.fin && |seg.payload| <= capacity)
  {
    FirstPush(capacity, seg.payload, seg.header.fin);
    FirstNumber(seg.header.seqno);
  }

  lemma FirstNumber(isn: U32)
    ensures Unwrap64(isn, isn, 0) == 0
  {
  }

  lemma {:induction false} FirstPush(capacity: nat, data: seq<Byte>, fin: bool)
    requires |data| < TWO64 - 1
    ensures var r' := Push64(NewReassembler(capacity), data, 0, fin);
            && r'.output.history == data[..Min(|data|, capacity)]
            && (r'.output.ended <==> fin && |data| <= capacity)
  {
    var r := NewReassembler(capacity);
    var r' := Push(r, data, 0, fin);
    Push64IsPush(r, data, 0, fin);
    NextMissingIsLeast(r, data, 0);
    assert !Has(r, |data|) && !InPush(|data|, 0, data);
    assert NextMissing(r, data, 0) == |data|;
    PushKeeps(r, data, 0, fin);
    PushOrders(r, data, 0, fin);
    PushSlices(r, data, 0, fin, data);
    assert r'.output.history == data[..|r'.output.history|];
  }

  // ---------------------------------------------------------------- a segment at the initial number without SYN

  /** Bytes that claim the number of the SYN. */
  predicate ClaimsSyn(absSeq: nat, seg: TCPSegment) {
    absSeq == 0 && !seg.header.syn && seg.payload != []
  }

  /** The end of a push wraps exactly for such a segment; for any other it is where the payload ends. */
  lemma IndexWrapsIff(absSeq: nat, seg: TCPSegment)
    requires absSeq + |seg.payload| < TWO64
    ensures var index := StreamIndex(absSeq, seg.header.syn);
            && (index + |seg.payload| >= TWO64 <==> ClaimsSyn(absSeq, seg))
            && (ClaimsSyn(absSeq, seg) ==> Plus64(index, |seg.payload|) == |seg.payload| - 1)
  {
  }

  /** Its FIN is taken for one `|payload| - 1` bytes into the stream: it ends input there, whatever is missing. */
  lemma {:induction false} ClaimedSynEnds(r: Receiver, seg: TCPSegment)
    requires !r.inListen && Beyond(r.reasm.entries, r.reasm.expected) && r.reasm.expected < TWO64 - 1
    requires seg.header.fin && |seg.payload| < TWO64
    requires ClaimsSyn(Unwrap64(seg.header.seqno, r.isn, |Output(r).history|), seg)
    ensures var r' := SegmentReceived(r, seg);
            && Output(r').history == Output(r).history
            && (Output(r').ended <==> Output(r).ended || |seg.payload| == r.reasm.expected + 1)
  {
    IndexWrapsIff(0, seg);
    var re := r.reasm.(eofIndex := |seg.payload| - 1);
    InsertAtTop(re, seg.payload, re.expected);
    Insert64Frame(re, TWO64 - 1, seg.payload);
    assert Assemble64(Insert64(re, TWO64 - 1, seg.payload)) == Insert64(re, TWO64 - 1, seg.payload);
  }

  /** Right after the handshake one byte is enough: input ends and nothing was delivered. */
  lemma {:induction false} EarlyEnd(capacity: nat, someIsn: U32, isn: U32, b: Byte)
    ensures var syn := TCPSegment(DEFAULT_HEADER.(seqno := isn, syn := true), []);
            var seg := TCPSegment(DEFAULT_HEADER.(seqno := isn, fin := true), [b]);
            var r := SegmentReceived(SegmentReceived(NewReceiver(capacity, someIsn), syn), seg);
            Output(r).ended && Output(r).history == []
  {
    var syn := TCPSegment(DEFAULT_HEADER.(seqno := isn, syn := true), []);
    var seg := TCPSegment(DEFAULT_HEADER.(seqno := isn, fin := true), [b]);
    assert Unwrap64(isn, isn, 0) == 0;
    var r := SegmentReceived(NewReceiver(capacity, someIsn), syn);
    assert r == NewReceiver(capacity, someIsn).(inListen := false, isn := isn);
    ClaimedSynEnds(r, seg);
  }
}
