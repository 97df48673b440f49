/** What a delivery achieves: retransmission heals every loss that leaves the window open, and a connection with
    nothing left to do closes. */
module Progress {
  import opened Basics
  import opened ReassemblerModel
  import opened Segments
  import opened ReceiverModel
  import opened SenderModel
  import opened TcpState
  import opened ConnectionModel
  import opened Link
  import opened Duplex
  import EndToEnd

  // ---------------------------------------------------------------- the receiving end

  /** A push that starts at or below the mark moves it at least to the end of the push. */
  lemma {:induction false} PushReaches(r: Reassembler, data: seq<Byte>, index: nat)
    requires Inv(r) && index <= r.expected
    ensures NextMissing(r, data, index) >= index + |data|
  {
    NextMissingIsLeast(r, data, index);
  }

  /** Where a push that cuts nothing leaves the output. */
  lemma {:induction false} PushAssembles(r: Reassembler, data: seq<Byte>, index: nat, eof: bool)
    requires Inv(r) && !OverrunsEnd(r, data, index)
    requires NextMissing(r, data, index) <= r.output.popped + r.output.capacity
    ensures var r' := Push(r, data, index, eof);
            && |r'.output.history| == NextMissing(r, data, index)
            && (r.output.ended ==> r'.output.ended)
            && (eof && |r'.output.history| == index + |data| ==> r'.output.ended)
            && (index <= r.expected ==> |r'.output.history| >= index + |data|)
  {
    PushKeeps(r, data, index, eof);
    PushOrders(r, data, index, eof);
    if index <= r.expected { PushReaches(r, data, index); }
  }

  /** A genuine segment that starts at or below the acknowledgment number is acknowledged in full. */
  lemma {:induction false} PushAcknowledges(s: Sender, r: Receiver, n: Numbered, index: nat)
    requires SenderInv(s) && Holds(s, r) && EndsAgree(s, r) && !r.inListen
    requires DataOk(s, r, n) && n.seqno <= AbsAck(r) && n.seqno < RightEdge(r)
    requires index == StreamIndex(n.seqno, n.seg.header.syn)
    ensures AbsAck(r.(reasm := Push(r.reasm, n.seg.payload, index, n.seg.header.fin))) >= n.End()
  {
    PushFits(s, r, n, index);
    PushHolds(s, r, n, index);
    PushAssembles(r.reasm, n.seg.payload, index, n.seg.header.fin);
  }

  lemma {:induction false} OldestIsAssembled(s: Sender, r: Receiver, data: set<Packet>, acks: set<Packet>, p: Packet)
    requires LinkInv(s, r, data, acks)
    requires p in data && !p.seg.header.rst && Recent(p.seqno, |Output(r).history|)
    requires p.seqno == Lowest(s) < RightEdge(r) && SeqLength(p.seg) > 0
    ensures var r' := SegmentReceived(r, p.seg);
            !r'.inListen && AbsAck(r') >= p.seqno + SeqLength(p.seg)
  {
    assert DataOk(s, r, Num(p));
    SyncedAgrees(s, r, p);
    ArrivalRead(s, r, p);
    PushAcknowledges(s, Synced(r, p.seg), Num(p), StreamIndex(p.seqno, p.seg.header.syn));
  }

  /** An acknowledgment of all that `r` has. */
  predicate Acknowledges(q: Packet, r: Receiver) {
    !q.seg.header.rst && q.seg.header.ack && q.ackno == AbsAck(r)
  }

  /** The answer: it carries the new acknowledgment, and if nothing was queued before, it starts at the number
      that was next. */
  predicate Answers(q: Packet, c: Connection, seg: TCPSegment) {
    && Acknowledges(q, SegmentReceived(c.receiver, seg))
    && (c.sender.out == [] ==> q.seqno == c.sender.next)
  }

  /** A segment that occupies numbers is answered. */
  lemma {:induction false} AnswerAcknowledges(c: Connection, seg: TCPSegment)
    requires SenderInv(c.sender) && c.active && !seg.header.rst && SeqLength(seg) > 0
    requires !SegmentReceived(c.receiver, seg).inListen
    ensures exists q | q in ReceiveSegment(c, seg).out :: Answers(q, c, seg)
  {
    ReceiveShape(c, seg);
    var c1 := TryCleanShutdown(Digest(c, seg));
    TryCleanFrame(Digest(c, seg));
    DigestHead(c, seg);
    ReplySends(c1, seg, c.sender.next);
    var s := Reply(c1, seg).sender;
    var q := Stamp(s.out[0], c1.receiver);
    assert StampAll(s.out, c1.receiver)[0] == q;
    assert Answered(c, seg).out == c1.out + StampAll(s.out, c1.receiver);
    assert Answered(c, seg).out[|c1.out|] == q;
    assert Answers(q, c, seg);
    assert q in ReceiveSegment(c, seg).out;
  }

  /** The queue starts at `from`, or will. */
  predicate HeadAt(s: Sender, from: nat) { if s.out == [] then s.next == from else s.out[0].seqno == from }

  lemma {:induction false} FillHead(s: Sender, from: nat)
    requires HeadAt(s, from)
    ensures HeadAt(FillWindow(s), from)
  {
    if s.phase != Closed { FillLoopExtends(s, EffectiveWindow(s)); }
  }

  lemma {:induction false} AckHead(s: Sender, ackno: U32, win: U16, from: nat)
    requires SenderInv(s) && HeadAt(s, from)
    ensures HeadAt(AckReceived(s, ackno, win), from)
  {
    if Accepts(s, ackno) {
      TakeAckKeeps(s, ackno, win);
      FillHead(TakeAck(s, ackno, win), from);
    }
  }

  lemma {:induction false} DigestHead(c: Connection, seg: TCPSegment)
    requires SenderInv(c.sender)
    ensures SenderInv(Digest(c, seg).sender)
    ensures c.sender.out == [] ==> HeadAt(Digest(c, seg).sender, c.sender.next)
  {
    if seg.header.ack {
      AckKeeps(c.sender, seg.header.ackno, seg.header.win);
      if c.sender.out == [] { AckHead(c.sender, seg.header.ackno, seg.header.win, c.sender.next); }
    }
  }

  lemma {:induction false} ReplySends(c1: Connection, seg: TCPSegment, from: nat)
    requires SenderInv(c1.sender) && SeqLength(seg) > 0
    ensures var t := Reply(c1, seg).sender;
            t.out != [] && !t.out[0].seg.header.rst && (HeadAt(c1.sender, from) ==> t.out[0].seqno == from)
  {
    if HeadAt(c1.sender, from) { FillHead(c1.sender, from); }
    FillKeeps(c1.sender);
    SendEmptyKeeps(FillWindow(c1.sender));
    var t := Reply(c1, seg).sender;
    assert SenderInv(t) && t.out != [];
    assert Sent(t, t.out[0]);
  }

  // ---------------------------------------------------------------- the sending end

  lemma {:induction false} PopsOldest(s: Sender, ack: nat)
    requires Tiles(s.outstanding, Lowest(s), s.next) && s.outstanding != [] && s.outstanding[0].End() <= ack <= s.next
    ensures Lowest(PopAcked(s, ack)) >= s.outstanding[0].End()
  {
    PopKeeps(s.(outstanding := s.outstanding[1..], inFlight := s.inFlight - SeqLength(s.outstanding[0].seg),
                elapsed := 0, rto := s.initialRto), ack);
  }

  lemma {:induction false} FillKeepsLowest(s: Sender)
    requires s.phase != Closed
    ensures Lowest(FillWindow(s)) == Lowest(s) && FillWindow(s).phase != Closed
  {
    FillLoopExtends(s, EffectiveWindow(s));
  }

  lemma {:induction false} AckRetires(s: Sender, ackno: U32, win: U16)
    requires SenderInv(s) && s.outstanding != []
    requires s.outstanding[0].End() <= ReceivedAck(s, ackno) <= s.next
    ensures var s' := AckReceived(s, ackno, win);
            Lowest(s') >= s.outstanding[0].End() && s'.phase != Closed
  {
    TilesOrder(s.outstanding, Lowest(s), s.next);
    TakeAckKeeps(s, ackno, win);
    PopsOldest(s.(window := win, retransmissions := 0), ReceivedAck(s, ackno));
    FillKeepsLowest(TakeAck(s, ackno, win));
  }

  lemma {:induction false} ReceiveRetires(c: Connection, seg: TCPSegment)
    requires SenderInv(c.sender) && c.active && !seg.header.rst && seg.header.ack && c.sender.outstanding != []
    requires c.sender.outstanding[0].End() <= ReceivedAck(c.sender, seg.header.ackno) <= c.sender.next
    ensures Lowest(ReceiveSegment(c, seg).sender) >= c.sender.outstanding[0].End()
  {
    ReceiveShape(c, seg);
    AckRetires(c.sender, seg.header.ackno, seg.header.win);
    TryCleanFrame(Digest(c, seg));
    FillKeepsLowest(Digest(c, seg).sender);
  }

  // ---------------------------------------------------------------- round trips

  /** Delivering `q` to the first endpoint retires everything below `end`. */
  ghost predicate Retires(y: System, q: Packet, end: int) {
    var back := Move(true, Receive(q));
    y.a.active && MoveEnabled(y, back) ==> Lowest(MoveTo(y, back).a.sender) >= end
  }

  /** In every reachable state: a copy of the oldest outstanding segment, delivered while the window is open,
      is assembled and acknowledged in full, and that acknowledgment, delivered in turn, retires it. */
  lemma {:induction false} RoundTripProgress(ca: Config, cb: Config, moves: seq<Move>, p: Packet)
    requires Legal(NewSystem(ca, cb), moves)
    requires var y := Exec(NewSystem(ca, cb), moves);
             && y.b.active && y.a.sender.outstanding != []
             && MoveEnabled(y, Move(false, Receive(p))) && !p.seg.header.rst
             && p.seqno == Lowest(y.a.sender) < RightEdge(y.b.receiver)
             && SeqLength(p.seg) == SeqLength(y.a.sender.outstanding[0].seg)
    ensures var y := Exec(NewSystem(ca, cb), moves);
            var y1 := MoveTo(y, Move(false, Receive(p)));
            var end := y.a.sender.outstanding[0].End();
            && AbsAck(y1.b.receiver) >= end
            && exists q | q in y1.fromB :: Acknowledges(q, y1.b.receiver) && Retires(y1, q, end)
  {
    EndToEnd.Reachable(ca, cb, moves);
    RoundTrip(Exec(NewSystem(ca, cb), moves), p);
  }

  lemma {:induction false} RoundTrip(y: System, p: Packet)
    requires SysInv(y) && y.b.active && y.a.sender.outstanding != []
    requires MoveEnabled(y, Move(false, Receive(p))) && !p.seg.header.rst
    requires p.seqno == Lowest(y.a.sender) < RightEdge(y.b.receiver)
    requires SeqLength(p.seg) == SeqLength(y.a.sender.outstanding[0].seg)
    ensures var y1 := MoveTo(y, Move(false, Receive(p)));
            var end := y.a.sender.outstanding[0].End();
            && AbsAck(y1.b.receiver) >= end
            && exists q | q in y1.fromB :: Acknowledges(q, y1.b.receiver) && Retires(y1, q, end)
                                           && (y.b.sender.out == [] ==> q.seqno == y.b.sender.next)
  {
    var y1 := MoveTo(y, Move(false, Receive(p)));
    var end := y.a.sender.outstanding[0].End();
    MoveKeeps(y, Move(false, Receive(p)));
    OldestIsAssembled(y.a.sender, y.b.receiver, y.fromA + Elems(y.a.out), y.fromB + Elems(y.b.out), p);
    ReceiveShape(y.b, p.seg);
    AnswerAcknowledges(y.b, p.seg);
    var q :| q in ReceiveSegment(y.b, p.seg).out && Answers(q, y.b, p.seg);
    assert q in y1.fromB;
    if y1.a.active && MoveEnabled(y1, Move(true, Receive(q))) { AckComesBack(y1, q, end); }
  }

  lemma {:induction false} AckComesBack(y: System, q: Packet, end: int)
    requires SysInv(y) && y.a.active && y.a.sender.outstanding != []
    requires Enabled(y, Receive(q)) && Acknowledges(q, y.b.receiver)
    requires y.a.sender.outstanding[0].End() == end <= AbsAck(y.b.receiver)
    ensures Lowest(Act(y, Receive(q)).a.sender) >= end
  {
    var fa, fb := y.fromA + Elems(y.a.out), y.fromB + Elems(y.b.out);
    LinkAck(y.a.sender, y.b.receiver, fa, fb, q);
    assert AckOk(y.a.sender, y.b.receiver, q);
    AckBetween(y.a.sender, y.b.receiver, fa, fb);
    ReceiveRetires(y.a, q.seg);
  }

  // ---------------------------------------------------------------- closing

  /** A connection that has everything and has been acknowledged closes on the next tick, once it need not
      linger or has truly waited long enough. */
  lemma {:induction false} ClosesWhenDone(ca: Config, cb: Config, moves: seq<Move>, ms: nat)
    requires Legal(NewSystem(ca, cb), moves)
    requires var y := Exec(NewSystem(ca, cb), moves);
             && Output(y.a.receiver).ended && FinAcked(y.a.sender)
             && (!y.a.linger || 10 * y.a.rtTimeout <= y.waitedA + ms < TWO31)
    ensures !TickConnection(Exec(NewSystem(ca, cb), moves).a, ms).active
  {
    EndToEnd.Reachable(ca, cb, moves);
    EndToEnd.ExecWaits(NewSystem(ca, cb), moves);
    var y := Exec(NewSystem(ca, cb), moves);
    if y.a.active { DoneCloses(y.a, y.waitedA, ms); }
  }

  lemma {:induction false} DoneCloses(c: Connection, waited: nat, ms: nat)
    requires SenderInv(c.sender) && LocalInv(c) && c.active && EndToEnd.WaitInv(c, waited)
    requires Output(c.receiver).ended && FinAcked(c.sender)
    requires !c.linger || 10 * c.rtTimeout <= waited + ms < TWO31
    ensures !TickConnection(c, ms).active
  {
    TilesOrder(c.sender.outstanding, Lowest(c.sender), c.sender.next);
    SummaryTellsPhase(c.sender.(elapsed := 0));
    ToInt32Adds(waited, ms);
    assert c.linger ==> ToInt32(c.idle + ms) == waited + ms;
  }
}
