/** One direction of a connection: a sender, the receiver at the other end, every packet the sender's side
    has ever put on the network and every acknowledgment that has ever come back. Nothing is ever taken out
    of the two sets, so losing, repeating and reordering are all included. */
module Link {
  import opened Basics
  import opened WrappingIntegers
  import opened StreamModel
  import opened ReassemblerModel
  import opened Reassembler64
  import opened Segments
  import opened ReceiverModel
  import opened SenderModel
  import opened ConnectionModel

  /** The packet as it left the sender, before the receiver's stamp. */
  function Num(p: Packet): Numbered {
    Numbered(p.seqno, p.seg.(header := p.seg.header.(ack := false)))
  }

  /** The payload ends inside what the receiver has room for, or is a one-byte probe. */
  ghost predicate WithinEdge(r: Receiver, n: Numbered) {
    |n.seg.payload| <= 1 || n.seqno - 1 + |n.seg.payload| <= Output(r).popped + Output(r).capacity
  }

  ghost predicate DataOk(s: Sender, r: Receiver, n: Numbered) {
    Sent(s, n) && (n.seg.header.syn || n.seqno >= 1) && WithinEdge(r, n)
  }

  ghost predicate QueueOk(s: Sender, r: Receiver, q: seq<Numbered>) {
    forall i | 0 <= i < |q| :: DataOk(s, r, q[i])
  }

  ghost predicate DataPacketsOk(s: Sender, r: Receiver, data: set<Packet>) {
    forall p | p in data && !p.seg.header.rst :: DataOk(s, r, Num(p))
  }

  /** An acknowledgment is of something assembled, and promises no more than the receiver will take. */
  ghost predicate AckOk(s: Sender, r: Receiver, p: Packet) {
    && !r.inListen
    && p.seg.header.ackno == Wrap(p.ackno, s.isn)
    && 1 <= p.ackno <= AbsAck(r)
    && p.ackno + p.seg.header.win <= RightEdge(r)
  }

  ghost predicate AckPacketsOk(s: Sender, r: Receiver, acks: set<Packet>) {
    forall p | p in acks && !p.seg.header.rst && p.seg.header.ack :: AckOk(s, r, p)
  }

  /** What the receiver holds is part of what the sender has sent. */
  ghost predicate Holds(s: Sender, r: Receiver) {
    var re := r.reasm;
    && Inv(re)
    && Slices(re.entries, s.stream.history)
    && re.output.history <= s.stream.history
    && re.expected <= s.stream.popped
    && EndsBy(re.entries, s.stream.popped)
    && EndsBy(re.entries, re.output.popped + re.output.capacity)
    && (re.eofIndex == NO_EOF || (s.phase == FinSent && re.eofIndex == |s.stream.history|))
    && Narrow(re.entries)
    && (re.output.ended ==> s.phase == FinSent && re.expected == re.eofIndex == |s.stream.history|)
  }

  /** How the two ends see the handshake and the window. */
  ghost predicate EndsAgree(s: Sender, r: Receiver) {
    && (r.inListen ==> Lowest(s) == 0 && r.reasm.expected == 0 && r.reasm.entries == [] && r.reasm.eofIndex == NO_EOF)
    && (!r.inListen ==> r.isn == s.isn && s.phase != Closed && Lowest(s) <= AbsAck(r))
    && (s.phase == SynAcked ==> Lowest(s) + s.window <= RightEdge(r))
    && |s.stream.history| < TWO64 - TWO32
  }

  ghost predicate LinkInv(s: Sender, r: Receiver, data: set<Packet>, acks: set<Packet>) {
    && SenderInv(s)
    && QueueOk(s, r, s.out) && QueueOk(s, r, s.outstanding)
    && DataPacketsOk(s, r, data)
    && AckPacketsOk(s, r, acks)
    && Holds(s, r)
    && EndsAgree(s, r)
  }

  // ---------------------------------------------------------------- consequences

  /** Nothing is acknowledged that was not sent, and nothing unacknowledged is forgotten. */
  lemma AckBetween(s: Sender, r: Receiver, data: set<Packet>, acks: set<Packet>)
    requires LinkInv(s, r, data, acks) && !r.inListen
    ensures Lowest(s) <= AbsAck(r) <= s.next
  {
  }

  /** Bytes waiting to be read and bytes stored out of order fit the capacity together. */
  lemma MemoryBounded(s: Sender, r: Receiver, data: set<Packet>, acks: set<Packet>)
    requires LinkInv(s, r, data, acks)
    ensures |Unread(Output(r))| + Total(r.reasm.entries) <= Output(r).capacity
  {
    var re := r.reasm;
    TotalBound(re.entries, re.expected, re.output.popped + re.output.capacity);
  }

  // ---------------------------------------------------------------- sender steps

  lemma {:induction false} QueueStays(s: Sender, s': Sender, r: Receiver, q: seq<Numbered>)
    requires Advances(s, s') && QueueOk(s, r, q)
    ensures QueueOk(s', r, q)
  {
    forall i | 0 <= i < |q| ensures DataOk(s', r, q[i]) { SentStays(s, s', q[i]); }
  }

  lemma {:induction false} DataStays(s: Sender, s': Sender, r: Receiver, data: set<Packet>)
    requires Advances(s, s') && DataPacketsOk(s, r, data)
    ensures DataPacketsOk(s', r, data)
  {
    forall p | p in data && !p.seg.header.rst ensures DataOk(s', r, Num(p)) { SentStays(s, s', Num(p)); }
  }

  lemma {:induction false} HoldsStays(s: Sender, s': Sender, r: Receiver)
    requires Advances(s, s') && Holds(s, r) && s.stream.popped <= s'.stream.popped
    requires s.phase == FinSent ==> s.stream.ended
    ensures Holds(s', r)
  {
    var w, w' := s.stream.history, s'.stream.history;
    forall i | 0 <= i < |r.reasm.entries| ensures SliceOf(r.reasm.entries[i].index, r.reasm.entries[i].data, w') {
      assert SliceOf(r.reasm.entries[i].index, r.reasm.entries[i].data, w);
    }
  }

  /** A sender step that sends nothing new, or only what it already had. */
  lemma {:induction false} LinkQuiet(s: Sender, s': Sender, r: Receiver, data: set<Packet>, acks: set<Packet>)
    requires LinkInv(s, r, data, acks)
    requires SenderInv(s') && Advances(s, s') && s.stream.popped <= s'.stream.popped
    requires QueueOk(s', r, s'.out) && QueueOk(s', r, s'.outstanding)
    requires EndsAgree(s', r)
    ensures LinkInv(s', r, data, acks)
  {
    DataStays(s, s', r, data);
    HoldsStays(s, s', r);
  }

  lemma {:induction false} LinkWrite(s: Sender, r: Receiver, data: set<Packet>, acks: set<Packet>, bytes: seq<Byte>)
    requires LinkInv(s, r, data, acks) && |s.stream.history| + |bytes| < TWO64 - TWO32
    ensures LinkInv(WriteData(s, bytes), r, data, acks)
  {
    var s' := WriteData(s, bytes);
    WriteKeeps(s, bytes);
    QueueStays(s, s', r, s.out);
    QueueStays(s, s', r, s.outstanding);
    LinkQuiet(s, s', r, data, acks);
  }

  lemma {:induction false} LinkEnd(s: Sender, r: Receiver, data: set<Packet>, acks: set<Packet>)
    requires LinkInv(s, r, data, acks)
    ensures LinkInv(EndData(s), r, data, acks)
  {
    var s' := EndData(s);
    EndKeeps(s);
    QueueStays(s, s', r, s.out);
    QueueStays(s, s', r, s.outstanding);
    LinkQuiet(s, s', r, data, acks);
  }

  lemma {:induction false} LinkSenderError(s: Sender, r: Receiver, data: set<Packet>, acks: set<Packet>)
    requires LinkInv(s, r, data, acks)
    ensures LinkInv(s.(stream := SetError(s.stream)), r, data, acks)
  {
    var s' := s.(stream := SetError(s.stream));
    AllSentStays(s, s', s.out);
    AllSentStays(s, s', s.outstanding);
    QueueStays(s, s', r, s.out);
    QueueStays(s, s', r, s.outstanding);
    LinkQuiet(s, s', r, data, acks);
  }

  /** What filling the window sends lies within the edge the receiver has promised. */
  lemma {:induction false} FillWithin(s: Sender, r: Receiver)
    requires SenderInv(s) && s.phase == SynAcked && EndsAgree(s, r) && Holds(s, r)
    ensures var s' := FillWindow(s);
            QueueOk(s', r, FillSent(s, EffectiveWindow(s)))
  {
    var w := EffectiveWindow(s);
    var s' := FillWindow(s);
    var sent := FillSent(s, w);
    FillLoopKeeps(s, w);
    FillLoopExtends(s, w);
    TilesBounds(sent, s.next, s'.next);
    forall i | 0 <= i < |sent| ensures DataOk(s', r, sent[i]) {
      assert sent[i] == s'.out[|s.out| + i];
      assert Sent(s', sent[i]);
    }
  }

  lemma {:induction false} QueueConcat(s: Sender, r: Receiver, a: seq<Numbered>, b: seq<Numbered>)
    requires QueueOk(s, r, a) && QueueOk(s, r, b)
    ensures QueueOk(s, r, a + b)
  {
  }

  lemma {:induction false} LinkFill(s: Sender, r: Receiver, data: set<Packet>, acks: set<Packet>)
    requires LinkInv(s, r, data, acks)
    ensures LinkInv(FillWindow(s), r, data, acks)
  {
    var s' := FillWindow(s);
    FillKeeps(s);
    QueueStays(s, s', r, s.out);
    QueueStays(s, s', r, s.outstanding);
    if s.phase == Closed {
      var syn := s'.out[|s.out|];
      assert Sent(s', syn);
      QueueConcat(s', r, s.out, [syn]);
      QueueConcat(s', r, s.outstanding, [syn]);
    } else if s.phase == SynAcked {
      var sent := FillSent(s, EffectiveWindow(s));
      FillLoopExtends(s, EffectiveWindow(s));
      FillWithin(s, r);
      QueueConcat(s', r, s.out, sent);
      QueueConcat(s', r, s.outstanding, sent);
    }
    LinkQuiet(s, s', r, data, acks);
  }

  lemma {:induction false} PopQueueOk(s: Sender, ack: nat, t: Sender, r: Receiver)
    requires QueueOk(t, r, s.outstanding)
    ensures QueueOk(t, r, PopAcked(s, ack).outstanding)
    decreases |s.outstanding|
  {
    if s.outstanding != [] && s.outstanding[0].End() <= ack {
      PopQueueOk(s.(outstanding := s.outstanding[1..],
                    inFlight := s.inFlight - SeqLength(s.outstanding[0].seg),
                    elapsed := 0, rto := s.initialRto), ack, t, r);
    }
  }

  /** Delivered within its lifetime (section 3.3 of RFC 793): less than half the number space from what the
      other side has reached. */
  predicate Recent(v: nat, checkpoint: nat) {
    checkpoint - v <= TWO31 && v - checkpoint < TWO31
  }

  lemma {:induction false} LinkTakeAck(s: Sender, r: Receiver, data: set<Packet>, acks: set<Packet>, p: Packet)
    requires LinkInv(s, r, data, acks) && AckOk(s, r, p)
    requires ReceivedAck(s, p.seg.header.ackno) == p.ackno && Accepts(s, p.seg.header.ackno)
    ensures LinkInv(TakeAck(s, p.seg.header.ackno, p.seg.header.win), r, data, acks)
  {
    var ackno, win := p.seg.header.ackno, p.seg.header.win;
    var s' := TakeAck(s, ackno, win);
    TakeAckKeeps(s, ackno, win);
    QueueStays(s, s', r, s.out);
    QueueStays(s, s', r, s.outstanding);
    PopQueueOk(s.(window := win, retransmissions := 0), p.ackno, s', r);
    LinkQuiet(s, s', r, data, acks);
  }

  lemma {:induction false} LinkAck(s: Sender, r: Receiver, data: set<Packet>, acks: set<Packet>, p: Packet)
    requires LinkInv(s, r, data, acks)
    requires p in acks && !p.seg.header.rst && p.seg.header.ack
    requires Recent(p.ackno, s.stream.popped)
    ensures ReceivedAck(s, p.seg.header.ackno) == p.ackno
    ensures LinkInv(AckReceived(s, p.seg.header.ackno, p.seg.header.win), r, data, acks)
  {
    var ackno, win := p.seg.header.ackno, p.seg.header.win;
    assert AckOk(s, r, p);
    Unwrap64Wrap(p.ackno, s.isn, s.stream.popped);
    if Accepts(s, ackno) {
      LinkTakeAck(s, r, data, acks, p);
      var s1 := TakeAck(s, ackno, win);
      if s1.phase == SynAcked { LinkFill(s1, r, data, acks); }
    }
  }

  lemma {:induction false} LinkTick(s: Sender, r: Receiver, data: set<Packet>, acks: set<Packet>, ms: nat)
    requires LinkInv(s, r, data, acks)
    ensures LinkInv(SenderModel.Tick(s, ms), r, data, acks)
  {
    var s' := SenderModel.Tick(s, ms);
    TickKeeps(s, ms);
    QueueStays(s, s', r, s.out);
    QueueStays(s, s', r, s.outstanding);
    if Expires(s, ms) { QueueConcat(s', r, s.out, [s.outstanding[0]]); }
    LinkQuiet(s, s', r, data, acks);
  }

  lemma {:induction false} LinkEmpty(s: Sender, r: Receiver, data: set<Packet>, acks: set<Packet>)
    requires LinkInv(s, r, data, acks) && s.phase != Closed
    ensures LinkInv(SendEmpty(s), r, data, acks)
  {
    var s' := SendEmpty(s);
    SendEmptyKeeps(s);
    QueueStays(s, s', r, s.out);
    QueueStays(s, s', r, s.outstanding);
    var n := s'.out[|s.out|];
    assert Sent(s', n);
    QueueConcat(s', r, s.out, [n]);
    LinkQuiet(s, s', r, data, acks);
  }

  /** Any part of the outbound queue may be dropped. */
  lemma {:induction false} LinkDequeue(s: Sender, r: Receiver, data: set<Packet>, acks: set<Packet>, k: nat)
    requires LinkInv(s, r, data, acks) && k <= |s.out|
    ensures LinkInv(s.(out := s.out[k..]), r, data, acks)
  {
    var s' := s.(out := s.out[k..]);
    AllSentStays(s, s', s.out);
    AllSentStays(s, s', s.outstanding);
    QueueStays(s, s', r, s.out);
    QueueStays(s, s', r, s.outstanding);
    LinkQuiet(s, s', r, data, acks);
  }

  // ---------------------------------------------------------------- receiver steps

  lemma {:induction false} EdgeStays(s: Sender, r: Receiver, r': Receiver, data: set<Packet>, acks: set<Packet>)
    requires KeepsPromise(r, r')
    requires Output(r').capacity == Output(r).capacity && Output(r).popped <= Output(r').popped
    ensures forall q :: QueueOk(s, r, q) ==> QueueOk(s, r', q)
    ensures DataPacketsOk(s, r, data) ==> DataPacketsOk(s, r', data)
    ensures AckPacketsOk(s, r, acks) ==> AckPacketsOk(s, r', acks)
  {
    forall n | DataOk(s, r, n) ensures DataOk(s, r', n) {}
    forall p | AckOk(s, r, p) ensures AckOk(s, r', p) {}
  }

  lemma {:induction false} LinkRead(s: Sender, r: Receiver, data: set<Packet>, acks: set<Packet>, len: nat)
    requires LinkInv(s, r, data, acks)
    ensures LinkInv(s, ReadFrom(r, len), data, acks)
  {
    var r' := ReadFrom(r, len);
    StepKeepsPromise(r, Consume(len));
    EdgeStays(s, r, r', data, acks);
  }

  lemma {:induction false} LinkReceiverError(s: Sender, r: Receiver, data: set<Packet>, acks: set<Packet>)
    requires LinkInv(s, r, data, acks)
    ensures LinkInv(s, r.(reasm := r.reasm.(output := SetError(Output(r)))), data, acks)
  {
    EdgeStays(s, r, r.(reasm := r.reasm.(output := SetError(Output(r)))), data, acks);
  }

  /** The push a data packet causes: a genuine slice that fits, so nothing is cut. */
  lemma {:induction false} PushFits(s: Sender, r: Receiver, n: Numbered, index: nat)
    requires SenderInv(s) && Holds(s, r) && EndsAgree(s, r) && !r.inListen
    requires DataOk(s, r, n) && n.seqno < RightEdge(r)
    requires index == StreamIndex(n.seqno, n.seg.header.syn)
    ensures SliceOf(index, n.seg.payload, s.stream.history)
    ensures !OverrunsEnd(r.reasm, n.seg.payload, index)
    ensures index + |n.seg.payload| < TWO64
    ensures n.seg.payload == [] || index + |n.seg.payload| <= Output(r).popped + Output(r).capacity
    ensures n.seg.payload == [] || index + |n.seg.payload| <= s.stream.popped
    ensures n.seg.header.fin ==> index + |n.seg.payload| == |s.stream.history|
  {
    var data := n.seg.payload;
    if data != [] {
      assert index == n.seqno - 1;
      assert SliceOf(index, data, s.stream.history);
      SliceEnd(index, data, s.stream.history);
    }
  }

  lemma {:induction false} PushHolds(s: Sender, r: Receiver, n: Numbered, index: nat)
    requires SenderInv(s) && Holds(s, r) && EndsAgree(s, r) && !r.inListen
    requires DataOk(s, r, n) && n.seqno < RightEdge(r)
    requires index == StreamIndex(n.seqno, n.seg.header.syn)
    ensures Push64(r.reasm, n.seg.payload, index, n.seg.header.fin)
            == Push(r.reasm, n.seg.payload, index, n.seg.header.fin)
    ensures Holds(s, r.(reasm := Push(r.reasm, n.seg.payload, index, n.seg.header.fin)))
    ensures NextMissing(r.reasm, n.seg.payload, index) <= Output(r).popped + Output(r).capacity
  {
    var data, eof := n.seg.payload, n.seg.header.fin;
    var re := r.reasm;
    PushFits(s, r, n, index);
    PushKeeps(re, data, index, eof);
    PushOrders(re, data, index, eof);
    Push64IsPush(re, data, index, eof);
    PushSlices(re, data, index, eof, s.stream.history);
    PushEndsBy(re, data, index, eof, s.stream.popped);
    PushEndsBy(re, data, index, eof, re.output.popped + re.output.capacity);
  }

  /** The receiver after taking note of a SYN. */
  function Synced(r: Receiver, seg: TCPSegment): Receiver {
    if r.inListen then r.(inListen := false, isn := seg.header.seqno) else r
  }

  lemma {:induction false} SyncedAgrees(s: Sender, r: Receiver, p: Packet)
    requires SenderInv(s) && EndsAgree(s, r) && Holds(s, r)
    requires DataOk(s, r, Num(p)) && (r.inListen ==> p.seg.header.syn)
    ensures Holds(s, Synced(r, p.seg)) && EndsAgree(s, Synced(r, p.seg)) && DataOk(s, Synced(r, p.seg), Num(p))
    ensures Synced(r, p.seg).isn == s.isn
  {
    assert Wrap(0, s.isn) == s.isn;
  }

  /** What the arrival of a packet comes to, with `p.seqno` the number it was sent with. */
  function Arrival(r: Receiver, p: Packet): Receiver {
    var r1 := Synced(r, p.seg);
    if r.inListen && !p.seg.header.syn then r
    else if p.seqno >= RightEdge(r1) then r1
    else r1.(reasm := Push(r1.reasm, p.seg.payload, StreamIndex(p.seqno, p.seg.header.syn), p.seg.header.fin))
  }

  /** In 64-bit arithmetic the receiver reads every packet delivered in its lifetime as the number it was sent
      with, and nothing wraps. */
  lemma {:induction false} ArrivalRead(s: Sender, r: Receiver, p: Packet)
    requires SenderInv(s) && Holds(s, r) && EndsAgree(s, r) && DataOk(s, r, Num(p))
    requires Recent(p.seqno, |Output(r).history|)
    ensures SegmentReceived(r, p.seg) == Arrival(r, p)
    ensures Holds(s, Arrival(r, p))
  {
    if !r.inListen || p.seg.header.syn {
      var r1 := Synced(r, p.seg);
      SyncedAgrees(s, r, p);
      Unwrap64Wrap(p.seqno, s.isn, |Output(r1).history|);
      if p.seqno < RightEdge(r1) { PushHolds(s, r1, Num(p), StreamIndex(p.seqno, p.seg.header.syn)); }
    }
  }

  lemma {:induction false} LinkReceive(s: Sender, r: Receiver, data: set<Packet>, acks: set<Packet>, p: Packet)
    requires LinkInv(s, r, data, acks)
    requires p in data && !p.seg.header.rst
    requires Recent(p.seqno, |Output(r).history|)
    ensures LinkInv(s, SegmentReceived(r, p.seg), data, acks)
  {
    var r' := SegmentReceived(r, p.seg);
    assert DataOk(s, r, Num(p));
    StepKeepsPromise(r, Arrive(p.seg));
    ArrivalRead(s, r, p);
    ReceiveKeepsOutput(r, p.seg);
    EdgeStays(s, r, r', data, acks);
    if r.inListen && p.seg.header.syn { SyncedAgrees(s, r, p); }
    assert EndsAgree(s, r');
  }

  lemma {:induction false} ReceiveKeepsOutput(r: Receiver, seg: TCPSegment)
    ensures var r' := SegmentReceived(r, seg);
            && Output(r').capacity == Output(r).capacity && Output(r').popped == Output(r).popped
            && (!r'.inListen && r.inListen ==> r'.isn == seg.header.seqno)
            && (r'.inListen ==> r' == r)
  {
    var r1 := Synced(r, seg);
    var absSeq := Unwrap64(seg.header.seqno, r1.isn, |Output(r1).history|);
    Push64Grows(r1.reasm, seg.payload, StreamIndex(absSeq, seg.header.syn), seg.header.fin);
  }

  // ---------------------------------------------------------------- putting packets on the network

  lemma {:induction false} LinkData(s: Sender, r: Receiver, data: set<Packet>, acks: set<Packet>, p: Packet)
    requires LinkInv(s, r, data, acks)
    requires p.seg.header.rst || DataOk(s, r, Num(p))
    ensures LinkInv(s, r, data + {p}, acks)
  {
  }

  lemma {:induction false} LinkAckOut(s: Sender, r: Receiver, data: set<Packet>, acks: set<Packet>, p: Packet)
    requires LinkInv(s, r, data, acks)
    requires p.seg.header.rst || (p.seg.header.ack ==> AckOk(s, r, p))
    ensures LinkInv(s, r, data, acks + {p})
  {
  }
}
