/** Without writes, reads or timeouts two connections fall silent: after finitely many deliveries nothing is
    left to deliver. The network may lose and reorder packets but not repeat them. */
module Quiescence {
  import opened Basics
  import opened WrappingIntegers
  import opened ReassemblerModel
  import opened Reassembler64
  import opened Segments
  import opened ReceiverModel
  import opened SenderModel
  import opened TcpState
  import opened ConnectionModel
  import opened Link
  import opened Duplex

  /** A system and the packets in transit in each direction. */
  datatype Net = Net(y: System, fromA: seq<Packet>, fromB: seq<Packet>)

  function NetSwap(x: Net): Net { Net(Swap(x.y), x.fromB, x.fromA) }

  datatype NetMove = NetMove(toA: bool, k: nat, lost: bool)

  function Without(q: seq<Packet>, k: nat): seq<Packet>
    requires k < |q|
  {
    q[..k] + q[k + 1..]
  }

  predicate Deliverable(x: Net, k: nat, lost: bool) {
    k < |x.fromB| && (lost || Enabled(x.y, Receive(x.fromB[k])))
  }

  /** The packet at position `k` reaches `a`, whose answers join the packets in transit, or is lost. */
  function Deliver(x: Net, k: nat, lost: bool): Net
    requires Deliverable(x, k, lost)
  {
    if lost then x.(fromB := Without(x.fromB, k))
    else
      var act := Receive(x.fromB[k]);
      Net(Act(x.y, act), x.fromA + Perform(x.y.a, act).out, Without(x.fromB, k))
  }

  predicate NetEnabled(x: Net, m: NetMove) {
    Deliverable(if m.toA then x else NetSwap(x), m.k, m.lost)
  }

  function NetTo(x: Net, m: NetMove): Net
    requires NetEnabled(x, m)
  {
    if m.toA then Deliver(x, m.k, m.lost) else NetSwap(Deliver(NetSwap(x), m.k, m.lost))
  }

  ghost predicate NetStep(x: Net, x': Net) {
    exists m: NetMove | NetEnabled(x, m) :: x' == NetTo(x, m)
  }

  ghost predicate NetInv(x: Net) {
    && SysInv(x.y)
    && x.y.a.out == [] && x.y.b.out == []
    && (forall p | p in x.fromA :: p in x.y.fromA)
    && (forall p | p in x.fromB :: p in x.y.fromB)
  }

  // ---------------------------------------------------------------- the measure

  /** Sequence numbers still to be used: the SYN, unread bytes, and the FIN of an ended stream. */
  function Unsent(s: Sender): nat {
    (if s.phase == Closed then 1 else 0) + (|s.stream.history| - s.stream.popped)
    + (if s.stream.ended && s.phase != FinSent then 1 else 0)
  }

  /** How much a segment counts, given whether it occupies sequence numbers and where it starts. */
  type Weight = (bool, U32) -> nat

  /** Segments that occupy sequence numbers; empty ones; empty ones the receiver at the other end answers. */
  function Occupying(): Weight { (occupies, seqno) => if occupies then 1 else 0 }

  function Pure(): Weight { (occupies, seqno) => if occupies then 0 else 1 }

  function Probe(number: Option<U32>): Weight {
    (occupies, seqno) => if !occupies && number == Some(seqno) then 1 else 0
  }

  function Weigh(seg: TCPSegment, w: Weight): nat { w(SeqLength(seg) > 0, seg.header.seqno) }

  function Transit(q: seq<Packet>, w: Weight): nat {
    if q == [] then 0 else Weigh(q[0].seg, w) + Transit(q[1..], w)
  }

  function Queued(q: seq<Numbered>, w: Weight): nat {
    if q == [] then 0 else Weigh(q[0].seg, w) + Queued(q[1..], w)
  }

  /** The number on which the receiver answers an empty segment. */
  function ProbeNumber(r: Receiver): Option<U32> {
    match Ackno(r)
    case None => None
    case Some(ackno) => Some((ackno - 1) % TWO32)
  }

  /** Everything on the way from a sender. */
  function Path(transit: seq<Packet>, s: Sender, w: Weight): nat { Transit(transit, w) + Queued(s.out, w) }

  function NetUnsent(x: Net): nat { Unsent(x.y.a.sender) + Unsent(x.y.b.sender) }

  function NetWeight(x: Net, w: Weight): nat { Path(x.fromA, x.y.a.sender, w) + Path(x.fromB, x.y.b.sender, w) }

  function NetProbes(x: Net): nat {
    Path(x.fromA, x.y.a.sender, Probe(ProbeNumber(x.y.b.receiver)))
    + Path(x.fromB, x.y.b.sender, Probe(ProbeNumber(x.y.a.receiver)))
  }

  /** Lexicographically: unsent numbers, occupying segments, probes, empty segments. */
  datatype Rank = Rank(unsent: nat, occupying: nat, probes: nat, pure: nat)

  function RankOf(x: Net): Rank {
    Rank(NetUnsent(x), NetWeight(x, Occupying()), NetProbes(x), NetWeight(x, Pure()))
  }

  predicate Below(r': Rank, r: Rank) {
    || r'.unsent < r.unsent
    || (r'.unsent == r.unsent && r'.occupying < r.occupying)
    || (r'.unsent == r.unsent && r'.occupying == r.occupying && r'.probes < r.probes)
    || (r'.unsent == r.unsent && r'.occupying == r.occupying && r'.probes == r.probes && r'.pure < r.pure)
  }

  // ---------------------------------------------------------------- weights

  lemma {:induction false} TransitConcat(a: seq<Packet>, b: seq<Packet>, w: Weight)
    ensures Transit(a + b, w) == Transit(a, w) + Transit(b, w)
  {
    if a == [] {
      assert a + b == b;
    } else {
      assert (a + b)[1..] == a[1..] + b;
      TransitConcat(a[1..], b, w);
    }
  }

  lemma {:induction false} QueuedConcat(a: seq<Numbered>, b: seq<Numbered>, w: Weight)
    ensures Queued(a + b, w) == Queued(a, w) + Queued(b, w)
  {
    if a == [] {
      assert a + b == b;
    } else {
      assert (a + b)[1..] == a[1..] + b;
      QueuedConcat(a[1..], b, w);
    }
  }

  lemma {:induction false} TransitWithout(q: seq<Packet>, k: nat, w: Weight)
    requires k < |q|
    ensures Transit(q, w) == Transit(Without(q, k), w) + Weigh(q[k].seg, w)
  {
    var a, b := q[..k], q[k + 1..];
    assert q == a + ([q[k]] + b);
    assert ([q[k]] + b)[1..] == b;
    TransitConcat(a, [q[k]] + b, w);
    TransitConcat(a, b, w);
  }

  /** Stamping changes no weight. */
  lemma {:induction false} StampWeight(q: seq<Numbered>, r: Receiver, w: Weight)
    ensures Transit(StampAll(q, r), w) == Queued(q, w)
  {
    if q != [] {
      StampWeight(q[1..], r, w);
      assert StampAll(q, r)[1..] == StampAll(q[1..], r);
    }
  }

  // ---------------------------------------------------------------- what one side does

  /** Filling the window turns unsent numbers into queued segments, one for one. */
  lemma {:induction false} FillQueues(s: Sender) returns (fills: seq<Numbered>)
    requires SenderInv(s)
    ensures var s' := FillWindow(s);
            && s'.out == s.out + fills
            && s.next <= s'.next && (s.next == s'.next ==> fills == [] && s'.phase == s.phase)
            && Unsent(s') + s'.next == Unsent(s) + s.next
  {
    var s' := FillWindow(s);
    FillKeeps(s);
    if s.phase == Closed {
      fills := [s'.out[|s.out|]];
    } else {
      fills := FillSent(s, EffectiveWindow(s));
      FillLoopExtends(s, EffectiveWindow(s));
      TilesOrder(fills, s.next, s'.next);
    }
  }

  lemma {:induction false} AckQueues(s: Sender, ackno: U32, win: U16) returns (fills: seq<Numbered>)
    requires SenderInv(s)
    ensures var s' := AckReceived(s, ackno, win);
            && s'.out == s.out + fills
            && s.next <= s'.next && (s.next == s'.next ==> fills == [])
            && Unsent(s') + s'.next == Unsent(s) + s.next
  {
    fills := [];
    if Accepts(s, ackno) {
      TakeAckKeeps(s, ackno, win);
      var s1 := TakeAck(s, ackno, win);
      if s1.phase == SynAcked { fills := FillQueues(s1); }
    }
  }

  function EmptyNumbered(s: Sender): Numbered {
    Numbered(s.next, TCPSegment(DEFAULT_HEADER.(seqno := Wrap(s.next, s.isn)), []))
  }

  /** All that `c` has queued or handed over. */
  function Pending(c: Connection, w: Weight): nat { Transit(c.out, w) + Queued(c.sender.out, w) }

  predicate Answers(c: Connection, seg: TCPSegment) {
    (SeqLength(seg) != 0 && FillWindow(c.sender).out == []) || KeepAlive(c.receiver, seg)
  }

  /** The reply either uses up unsent numbers or adds at most one empty segment. */
  lemma {:induction false} ReplyQueue(c: Connection, seg: TCPSegment)
    requires SenderInv(c.sender)
    ensures var s := Reply(c, seg).sender;
            && c.sender.next <= s.next
            && Unsent(s) + s.next == Unsent(c.sender) + c.sender.next
            && s.isn == c.sender.isn
            && (c.sender.next == s.next ==>
                  s.out == c.sender.out + if Answers(c, seg) then [EmptyNumbered(s)] else [])
  {
    var fills := FillQueues(c.sender);
    FillKeeps(c.sender);
    assert c.sender.next == FillWindow(c.sender).next ==> FillWindow(c.sender).out == c.sender.out;
  }

  lemma {:induction false} FetchWeight(c: Connection, w: Weight)
    ensures Pending(FetchSegments(c), w) == Pending(c, w)
  {
    TransitConcat(c.out, StampAll(c.sender.out, c.receiver), w);
    StampWeight(c.sender.out, c.receiver, w);
  }

  lemma {:induction false} ReplyWeight(c: Connection, seg: TCPSegment, w: Weight)
    requires SenderInv(c.sender)
    ensures var c' := FetchSegments(Reply(c, seg));
            c.sender.next == c'.sender.next ==>
              Pending(c', w) ==
              Pending(c, w) + if Answers(c, seg) then w(false, Wrap(c.sender.next, c.sender.isn)) else 0
  {
    ReplyQueue(c, seg);
    FetchWeight(Reply(c, seg), w);
    if c.sender.next == Reply(c, seg).sender.next {
      var n := EmptyNumbered(c.sender);
      QueuedConcat(c.sender.out, if Answers(c, seg) then [n] else [], w);
      assert [n][1..] == [];
    }
  }

  lemma {:induction false} DigestQueue(c: Connection, seg: TCPSegment)
    requires SenderInv(c.sender)
    ensures var c' := Digest(c, seg);
            && SenderInv(c'.sender)
            && c.sender.next <= c'.sender.next
            && Unsent(c'.sender) + c'.sender.next == Unsent(c.sender) + c.sender.next
            && c'.out == c.out && c'.sender.isn == c.sender.isn
            && (c.sender.next == c'.sender.next ==> c'.sender.out == c.sender.out)
  {
    if seg.header.ack {
      var fills := AckQueues(c.sender, seg.header.ackno, seg.header.win);
      AckKeeps(c.sender, seg.header.ackno, seg.header.win);
      assert c.sender.out + [] == c.sender.out;
    }
  }

  /** Whether a delivery makes `c` queue an empty segment of its own. */
  predicate AnswersDelivery(c: Connection, seg: TCPSegment) {
    && c.active && !seg.header.rst
    && SummarizeReceiver(Digest(c, seg).receiver) != Listen
    && Answers(TryCleanShutdown(Digest(c, seg)), seg)
  }

  lemma {:induction false} AnsweredUnsent(c: Connection, seg: TCPSegment)
    requires SenderInv(c.sender)
    ensures var s := Answered(c, seg).sender;
            && c.sender.next <= s.next
            && Unsent(s) + s.next == Unsent(c.sender) + c.sender.next
            && s.isn == c.sender.isn
  {
    DigestQueue(c, seg);
    ReplyQueue(TryCleanShutdown(Digest(c, seg)), seg);
  }

  lemma {:induction false} AnsweredWeight(c: Connection, seg: TCPSegment, w: Weight)
    requires SenderInv(c.sender)
    requires c.sender.next == Answered(c, seg).sender.next
    ensures Pending(Answered(c, seg), w) ==
            Pending(c, w) + if Answers(TryCleanShutdown(Digest(c, seg)), seg)
                            then w(false, Wrap(c.sender.next, c.sender.isn)) else 0
  {
    var c1 := TryCleanShutdown(Digest(c, seg));
    DigestQueue(c, seg);
    ReplyQueue(c1, seg);
    ReplyWeight(c1, seg, w);
  }

  /** One delivery, seen from the side that receives it: unsent numbers are used up, or only the answer is added. */
  lemma {:induction false} ReceiveUnsent(c: Connection, seg: TCPSegment)
    requires SenderInv(c.sender)
    ensures var s := ReceiveSegment(c, seg).sender;
            && c.sender.next <= s.next
            && Unsent(s) + s.next == Unsent(c.sender) + c.sender.next
            && s.isn == c.sender.isn
  {
    ReceiveShape(c, seg);
    DigestQueue(c, seg);
    AnsweredUnsent(c, seg);
  }

  lemma {:induction false} ReceiveWeight(c: Connection, seg: TCPSegment, w: Weight)
    requires SenderInv(c.sender)
    requires c.sender.next == ReceiveSegment(c, seg).sender.next
    ensures Pending(ReceiveSegment(c, seg), w) ==
            Pending(c, w) + if AnswersDelivery(c, seg) then w(false, Wrap(c.sender.next, c.sender.isn)) else 0
  {
    ReceiveShape(c, seg);
    if c.active && !seg.header.rst {
      DigestQueue(c, seg);
      if SummarizeReceiver(Digest(c, seg).receiver) != Listen { AnsweredWeight(c, seg, w); }
    }
  }

  /** A sound reassembler that has not come near the end of the number range. */
  ghost predicate Sound(r: Reassembler) { Inv(r) && Narrow(r.entries) && r.expected < TWO64 }

  lemma {:induction false} SameProbe(r: Receiver, r': Receiver, seg: TCPSegment)
    requires Ackno(r) == Ackno(r') && KeepAlive(r, seg)
    ensures ProbeNumber(r') == Some(seg.header.seqno)
  {
  }

  lemma {:induction false} AnswerCause(c: Connection, seg: TCPSegment)
    requires Sound(c.receiver.reasm) && AnswersDelivery(c, seg) && SeqLength(seg) == 0
    ensures ProbeNumber(c.receiver) == Some(seg.header.seqno)
  {
    EmptyKeepsAckno(c.receiver, seg);
    TryCleanFrame(Digest(c, seg));
    SameProbe(SegmentReceived(c.receiver, seg), c.receiver, seg);
  }

  /** A segment that occupies no numbers does not move the acknowledgment number. */
  lemma {:induction false} EmptyKeepsAckno(r: Receiver, seg: TCPSegment)
    requires Sound(r.reasm) && SeqLength(seg) == 0
    ensures Ackno(SegmentReceived(r, seg)) == Ackno(r)
  {
    if !r.inListen {
      var absSeq := Unwrap64(seg.header.seqno, r.isn, |Output(r).history|);
      if absSeq < RightEdge(r) { EmptyPush(r.reasm, StreamIndex(absSeq, false)); }
    }
  }

  lemma {:induction false} EmptyPush(r: Reassembler, index: nat)
    requires Sound(r) && index < TWO64
    ensures var r' := Push64(r, [], index, false);
            r'.output.history == r.output.history && r'.output.ended == r.output.ended
  {
    Push64IsPush(r, [], index, false);
    PushOrders(r, [], index, false);
    PushKeeps(r, [], index, false);
    NextMissingIsLeast(r, [], index);
    assert !Has(r, r.expected);
  }

  lemma {:induction false} ReceiveKeepsAckno(c: Connection, seg: TCPSegment)
    requires Sound(c.receiver.reasm) && SeqLength(seg) == 0
    ensures Ackno(ReceiveSegment(c, seg).receiver) == Ackno(c.receiver)
  {
    ReceiveShape(c, seg);
    EmptyKeepsAckno(c.receiver, seg);
  }

  lemma WrapPred(n: nat, isn: U32)
    requires n >= 1
    ensures (Wrap(n, isn) - 1) % TWO32 == Wrap(n - 1, isn)
  {
  }

  /** A segment just sent empty is never one the peer answers. */
  lemma {:induction false} EmptyIsNoProbe(s: Sender, r: Receiver, data: set<Packet>, acks: set<Packet>)
    requires LinkInv(s, r, data, acks)
    ensures ProbeNumber(r) != Some(Wrap(s.next, s.isn))
  {
    if !r.inListen {
      AckBetween(s, r, data, acks);
      WrapPred(AbsAck(r), s.isn);
      WrapInjectiveNear(s.next, AbsAck(r) - 1, s.isn);
    }
  }

  // ---------------------------------------------------------------- every step goes down

  lemma {:induction false} LossGoesDown(x: Net, k: nat)
    requires k < |x.fromB|
    ensures Below(RankOf(Deliver(x, k, true)), RankOf(x))
  {
    TransitWithout(x.fromB, k, Occupying());
    TransitWithout(x.fromB, k, Pure());
    TransitWithout(x.fromB, k, Probe(ProbeNumber(x.y.a.receiver)));
  }

  /** What a delivery to `a` does to a weight, when `a` sends nothing new. */
  lemma {:induction false} DeliveryWeight(x: Net, k: nat, w: Weight)
    requires Deliverable(x, k, false) && SenderInv(x.y.a.sender) && x.y.a.out == []
    requires ReceiveSegment(x.y.a, x.fromB[k].seg).sender.next == x.y.a.sender.next
    ensures var x' := Deliver(x, k, false);
            var seg := x.fromB[k].seg;
            && Path(x'.fromA, x'.y.a.sender, w) == Path(x.fromA, x.y.a.sender, w)
                 + (if AnswersDelivery(x.y.a, seg) then w(false, Wrap(x.y.a.sender.next, x.y.a.sender.isn)) else 0)
            && Path(x.fromB, x.y.b.sender, w) == Path(x'.fromB, x'.y.b.sender, w) + Weigh(seg, w)
  {
    var c := ReceiveSegment(x.y.a, x.fromB[k].seg);
    ReceiveWeight(x.y.a, x.fromB[k].seg, w);
    TransitConcat(x.fromA, c.out, w);
    TransitWithout(x.fromB, k, w);
  }

  lemma {:induction false} DeliverShape(x: Net, k: nat)
    requires Deliverable(x, k, false)
    ensures var y', c := Deliver(x, k, false).y, ReceiveSegment(x.y.a, x.fromB[k].seg);
            y'.a.receiver == c.receiver && y'.a.sender == c.sender && y'.b == x.y.b
  {
  }

  lemma {:induction false} DeliveryUnsent(x: Net, k: nat)
    requires Deliverable(x, k, false) && SenderInv(x.y.a.sender)
    ensures var s, s' := x.y.a.sender, ReceiveSegment(x.y.a, x.fromB[k].seg).sender;
            && s.next <= s'.next
            && NetUnsent(Deliver(x, k, false)) + s'.next == NetUnsent(x) + s.next
  {
    ReceiveUnsent(x.y.a, x.fromB[k].seg);
    DeliverShape(x, k);
  }

  lemma {:induction false} DeliveryOccupying(x: Net, k: nat)
    requires Deliverable(x, k, false) && SenderInv(x.y.a.sender) && x.y.a.out == []
    requires ReceiveSegment(x.y.a, x.fromB[k].seg).sender.next == x.y.a.sender.next
    ensures NetWeight(Deliver(x, k, false), Occupying()) + (if SeqLength(x.fromB[k].seg) > 0 then 1 else 0)
            == NetWeight(x, Occupying())
  {
    DeliveryWeight(x, k, Occupying());
  }

  lemma {:induction false} DeliveryGoesDown(x: Net, k: nat)
    requires NetInv(x) && Deliverable(x, k, false)
    ensures Below(RankOf(Deliver(x, k, false)), RankOf(x))
  {
    DeliveryUnsent(x, k);
    if ReceiveSegment(x.y.a, x.fromB[k].seg).sender.next == x.y.a.sender.next {
      DeliveryOccupying(x, k);
      if SeqLength(x.fromB[k].seg) == 0 { EmptyDeliveryGoesDown(x, k); }
    }
  }

  lemma {:induction false} SameAckno(r: Receiver, r': Receiver)
    requires Ackno(r) == Ackno(r')
    ensures ProbeNumber(r) == ProbeNumber(r')
  {
  }

  lemma {:induction false} EmptyDeliveryReceivers(x: Net, k: nat)
    requires Sound(x.y.a.receiver.reasm) && Deliverable(x, k, false) && SeqLength(x.fromB[k].seg) == 0
    ensures var y' := Deliver(x, k, false).y;
            && ProbeNumber(y'.a.receiver) == ProbeNumber(x.y.a.receiver)
            && ProbeNumber(y'.b.receiver) == ProbeNumber(x.y.b.receiver)
  {
    DeliverShape(x, k);
    ReceiveKeepsAckno(x.y.a, x.fromB[k].seg);
    SameAckno(Deliver(x, k, false).y.a.receiver, x.y.a.receiver);
  }

  /** The count of probes, with the two probe numbers held fixed. */
  function ProbesAt(x: Net, atA: Option<U32>, atB: Option<U32>): nat {
    Path(x.fromA, x.y.a.sender, Probe(atB)) + Path(x.fromB, x.y.b.sender, Probe(atA))
  }

  lemma {:induction false} EmptyDeliveryProbes(x: Net, k: nat, atA: Option<U32>, atB: Option<U32>)
    requires Deliverable(x, k, false) && SenderInv(x.y.a.sender) && x.y.a.out == []
    requires ReceiveSegment(x.y.a, x.fromB[k].seg).sender.next == x.y.a.sender.next
    requires atB != Some(Wrap(x.y.a.sender.next, x.y.a.sender.isn))
    ensures ProbesAt(Deliver(x, k, false), atA, atB) + Weigh(x.fromB[k].seg, Probe(atA)) == ProbesAt(x, atA, atB)
  {
    DeliveryWeight(x, k, Probe(atB));
    DeliveryWeight(x, k, Probe(atA));
  }

  lemma {:induction false} EmptyDeliveryGoesDown(x: Net, k: nat)
    requires NetInv(x) && Deliverable(x, k, false) && SeqLength(x.fromB[k].seg) == 0
    requires ReceiveSegment(x.y.a, x.fromB[k].seg).sender.next == x.y.a.sender.next
    ensures var r', r := RankOf(Deliver(x, k, false)), RankOf(x);
            r'.probes < r.probes || (r'.probes == r.probes && r'.pure < r.pure)
  {
    var seg := x.fromB[k].seg;
    var atA, atB := ProbeNumber(x.y.a.receiver), ProbeNumber(x.y.b.receiver);
    EmptyDeliveryReceivers(x, k);
    EmptyIsNoProbe(x.y.a.sender, x.y.b.receiver, x.y.fromA + Elems(x.y.a.out), x.y.fromB + Elems(x.y.b.out));
    EmptyDeliveryProbes(x, k, atA, atB);
    ProbesAreAt(x, atA, atB);
    ProbesAreAt(Deliver(x, k, false), atA, atB);
    EmptyDeliveryPure(x, k);
    if AnswersDelivery(x.y.a, seg) { AnswerCause(x.y.a, seg); }
  }

  lemma {:induction false} ProbesAreAt(x: Net, atA: Option<U32>, atB: Option<U32>)
    requires atA == ProbeNumber(x.y.a.receiver) && atB == ProbeNumber(x.y.b.receiver)
    ensures NetProbes(x) == ProbesAt(x, atA, atB)
  {
  }

  lemma {:induction false} EmptyDeliveryPure(x: Net, k: nat)
    requires Deliverable(x, k, false) && SenderInv(x.y.a.sender) && x.y.a.out == []
    requires SeqLength(x.fromB[k].seg) == 0
    requires ReceiveSegment(x.y.a, x.fromB[k].seg).sender.next == x.y.a.sender.next
    ensures NetWeight(Deliver(x, k, false), Pure()) + 1
            == NetWeight(x, Pure()) + (if AnswersDelivery(x.y.a, x.fromB[k].seg) then 1 else 0)
  {
    DeliveryWeight(x, k, Pure());
  }

  lemma {:induction false} DeliverKeeps(x: Net, k: nat, lost: bool)
    requires NetInv(x) && Deliverable(x, k, lost)
    ensures NetInv(Deliver(x, k, lost))
  {
    if !lost {
      var p := x.fromB[k];
      MoveKeeps(x.y, Move(true, Receive(p)));
    }
  }

  lemma {:induction false} SwapRank(x: Net)
    ensures RankOf(NetSwap(x)) == RankOf(x)
    ensures NetInv(NetSwap(x)) <==> NetInv(x)
  {
    SwapInv(x.y);
  }

  lemma {:induction false} StepGoesDown(x: Net, x': Net)
    requires NetInv(x) && NetStep(x, x')
    ensures NetInv(x') && Below(RankOf(x'), RankOf(x))
  {
    var m: NetMove :| NetEnabled(x, m) && x' == NetTo(x, m);
    var z := if m.toA then x else NetSwap(x);
    SwapRank(x);
    DeliverKeeps(z, m.k, m.lost);
    SwapRank(Deliver(z, m.k, m.lost));
    if m.lost { LossGoesDown(z, m.k); } else { DeliveryGoesDown(z, m.k); }
  }

  ghost predicate StepsThrough(step: nat -> bool, n: nat, i: nat) {
    forall j: nat | n <= j <= i :: step(j)
  }

  /** Below any rank there are only finitely many. */
  lemma {:induction false} FindSilence(step: nat -> bool, rank: nat -> Rank, n: nat) returns (m: nat)
    requires forall i: nat | n <= i && StepsThrough(step, n, i) :: Below(rank(i + 1), rank(i))
    ensures n <= m && !step(m)
    decreases rank(n).unsent, rank(n).occupying, rank(n).probes, rank(n).pure
  {
    if step(n) {
      assert StepsThrough(step, n, n);
      assert forall i: nat | n < i && StepsThrough(step, n + 1, i) :: StepsThrough(step, n, i);
      m := FindSilence(step, rank, n + 1);
    } else {
      m := n;
    }
  }

  lemma {:induction false} StaysSound(run: nat -> Net, n: nat)
    requires NetInv(run(0)) && forall j: nat | j < n :: NetStep(run(j), run(j + 1))
    ensures NetInv(run(n))
  {
    if n > 0 {
      StaysSound(run, n - 1);
      StepGoesDown(run(n - 1), run(n));
    }
  }

  lemma {:induction false} RunGoesDown(run: nat -> Net, i: nat)
    requires NetInv(run(0)) && forall j: nat | j <= i :: NetStep(run(j), run(j + 1))
    ensures Below(RankOf(run(i + 1)), RankOf(run(i)))
  {
    StaysSound(run, i);
    StepGoesDown(run(i), run(i + 1));
  }

  ghost predicate StepAt(run: nat -> Net, n: nat) { NetStep(run(n), run(n + 1)) }

  /** No infinite run of steps from a sound state. */
  lemma {:induction false} FallsSilent(run: nat -> Net)
    requires NetInv(run(0))
    ensures exists n: nat :: !StepAt(run, n)
  {
    var step := (n: nat) => StepAt(run, n);
    var rank := (n: nat) => RankOf(run(n));
    forall i: nat | StepsThrough(step, 0, i) ensures Below(rank(i + 1), rank(i)) {
      forall j: nat | j <= i ensures NetStep(run(j), run(j + 1)) { assert step(j); }
      RunGoesDown(run, i);
    }
    var m := FindSilence(step, rank, 0);
    assert !StepAt(run, m);
  }

  lemma {:induction false} ExecFlushed(y: System, moves: seq<Move>)
    requires y.a.out == [] && y.b.out == []
    ensures Exec(y, moves).a.out == [] && Exec(y, moves).b.out == []
    decreases |moves|
  {
    if moves != [] { ExecFlushed(MoveTo(y, moves[0]), moves[1..]); }
  }

  /** However two connections got where they are, and whatever of their packets is still in transit: once
      there are no more writes, reads or timeouts, deliveries come to an end. */
  lemma {:induction false} DeliveriesEnd(ca: Config, cb: Config, moves: seq<Move>, run: nat -> Net)
    requires Legal(NewSystem(ca, cb), moves)
    requires run(0).y == Exec(NewSystem(ca, cb), moves)
    requires forall p | p in run(0).fromA :: p in run(0).y.fromA
    requires forall p | p in run(0).fromB :: p in run(0).y.fromB
    ensures exists n: nat :: !StepAt(run, n)
  {
    NewSystemInv(ca, cb);
    ExecKeeps(NewSystem(ca, cb), moves);
    ExecFlushed(NewSystem(ca, cb), moves);
    FallsSilent(run);
  }
}
