/** What two connections guarantee over every run, whatever the network loses, repeats or reorders. */
module EndToEnd {
  import opened Basics
  import opened StreamModel
  import opened ReassemblerModel
  import opened Segments
  import opened ReceiverModel
  import opened SenderModel
  import opened ConnectionModel
  import opened Link
  import opened Duplex

  lemma {:induction false} Reachable(ca: Config, cb: Config, moves: seq<Move>)
    requires Legal(NewSystem(ca, cb), moves)
    ensures SysInv(Exec(NewSystem(ca, cb), moves))
  {
    NewSystemInv(ca, cb);
    ExecKeeps(NewSystem(ca, cb), moves);
  }

  // ---------------------------------------------------------------- delivery

  /** What `r` has put out is a prefix of what was written at `s`, and all of it once `r` reports the end. */
  ghost predicate Delivers(s: Sender, r: Receiver) {
    && Output(r).history <= s.stream.history
    && (Output(r).ended ==> s.stream.ended && Output(r).history == s.stream.history)
  }

  lemma {:induction false} EndToEndSafety(ca: Config, cb: Config, moves: seq<Move>)
    requires Legal(NewSystem(ca, cb), moves)
    ensures var y := Exec(NewSystem(ca, cb), moves);
            Delivers(y.a.sender, y.b.receiver) && Delivers(y.b.sender, y.a.receiver)
  {
    Reachable(ca, cb, moves);
  }

  /** Every written byte the receiver has not assembled is waiting to be sent or is in an outstanding segment,
      and the receiver acknowledges nothing that was not sent. */
  ghost predicate LosesNothing(s: Sender, r: Receiver) {
    && (!r.inListen ==> Lowest(s) <= AbsAck(r) <= s.next)
    && forall i | |Output(r).history| <= i < s.stream.popped :: InQueue(s, i)
  }

  ghost predicate InQueue(s: Sender, i: nat) {
    exists k | 0 <= k < |s.outstanding| ::
      var n := s.outstanding[k];
      n.seqno - 1 <= i < n.seqno - 1 + |n.seg.payload| <= |s.stream.history|
      && n.seg.payload[i - (n.seqno - 1)] == s.stream.history[i]
  }

  lemma {:induction false} NothingLost(ca: Config, cb: Config, moves: seq<Move>)
    requires Legal(NewSystem(ca, cb), moves)
    ensures var y := Exec(NewSystem(ca, cb), moves);
            LosesNothing(y.a.sender, y.b.receiver) && LosesNothing(y.b.sender, y.a.receiver)
  {
    Reachable(ca, cb, moves);
    var y := Exec(NewSystem(ca, cb), moves);
    LinkLosesNothing(y.a.sender, y.b.receiver, y.fromA + Elems(y.a.out), y.fromB + Elems(y.b.out));
    LinkLosesNothing(y.b.sender, y.a.receiver, y.fromB + Elems(y.b.out), y.fromA + Elems(y.a.out));
  }

  lemma {:induction false} LinkLosesNothing(s: Sender, r: Receiver, data: set<Packet>, acks: set<Packet>)
    requires LinkInv(s, r, data, acks)
    ensures LosesNothing(s, r)
  {
    forall i | |Output(r).history| <= i < s.stream.popped ensures InQueue(s, i) {
      QueuedByte(s, i, Lowest(s));
    }
  }

  lemma {:induction false} QueuedByte(s: Sender, i: nat, lowest: int)
    requires SenderInv(s) && lowest == Lowest(s) <= i + 1 && i < s.stream.popped
    ensures InQueue(s, i)
  {
    var q := s.outstanding;
    TilesUnique(q, lowest, s.next, i + 1);
    var k :| 0 <= k < |q| && q[k].seqno <= i + 1 < q[k].End();
    assert Sent(s, q[k]);
    SentByte(s, q[k], i);
  }

  /** A sent segment that spans a byte's number carries that byte. */
  lemma {:induction false} SentByte(s: Sender, n: Numbered, i: nat)
    requires Sent(s, n) && i < |s.stream.history| && n.seqno <= i + 1 < n.End()
    ensures n.seqno >= 1 && n.seqno - 1 <= i < n.seqno - 1 + |n.seg.payload| <= |s.stream.history|
    ensures n.seg.payload[i - (n.seqno - 1)] == s.stream.history[i]
  {
    SliceEnd(n.seqno - 1, n.seg.payload, s.stream.history);
  }

  // ---------------------------------------------------------------- memory

  ghost predicate FitsMemory(r: Receiver) {
    |Unread(Output(r))| + Total(r.reasm.entries) <= Output(r).capacity
  }

  /** The capacity is never exceeded, though nothing in the reassembler enforces it. */
  lemma {:induction false} MemoryBound(ca: Config, cb: Config, moves: seq<Move>)
    requires Legal(NewSystem(ca, cb), moves)
    ensures var y := Exec(NewSystem(ca, cb), moves);
            FitsMemory(y.a.receiver) && FitsMemory(y.b.receiver)
  {
    Reachable(ca, cb, moves);
    var y := Exec(NewSystem(ca, cb), moves);
    MemoryBounded(y.a.sender, y.b.receiver, y.fromA + Elems(y.a.out), y.fromB + Elems(y.b.out));
    MemoryBounded(y.b.sender, y.a.receiver, y.fromB + Elems(y.b.out), y.fromA + Elems(y.a.out));
  }

  /** No arriving byte is ever cut for capacity: if the packet is taken, what the receiver then holds is what
      it held and the payload, byte for byte where the packet says. */
  lemma {:induction false} NothingCut(ca: Config, cb: Config, moves: seq<Move>, p: Packet, x: nat)
    requires Legal(NewSystem(ca, cb), moves)
    requires var y := Exec(NewSystem(ca, cb), moves);
             p in y.fromA && !p.seg.header.rst && Recent(p.seqno, |Output(y.b.receiver).history|)
             && (y.b.receiver.inListen ==> p.seg.header.syn)
    ensures var y := Exec(NewSystem(ca, cb), moves);
            var r, r' := y.b.receiver, SegmentReceived(y.b.receiver, p.seg);
            Has(r'.reasm, x) <==>
              Has(r.reasm, x) || (p.seqno < RightEdge(r) && p.seqno - 1 <= x < p.seqno - 1 + |p.seg.payload|)
  {
    Reachable(ca, cb, moves);
    var y := Exec(NewSystem(ca, cb), moves);
    assert p in y.fromA + Elems(y.a.out);
    PacketNotCut(y.a.sender, y.b.receiver, y.fromA + Elems(y.a.out), y.fromB + Elems(y.b.out), p, x);
  }

  lemma {:induction false} PacketNotCut(s: Sender, r: Receiver, data: set<Packet>, acks: set<Packet>, p: Packet, x: nat)
    requires LinkInv(s, r, data, acks)
    requires p in data && !p.seg.header.rst && Recent(p.seqno, |Output(r).history|)
    requires r.inListen ==> p.seg.header.syn
    ensures Has(SegmentReceived(r, p.seg).reasm, x) <==>
              Has(r.reasm, x) || (p.seqno < RightEdge(r) && p.seqno - 1 <= x < p.seqno - 1 + |p.seg.payload|)
  {
    assert DataOk(s, r, Num(p));
    SyncedAgrees(s, r, p);
    ArrivalRead(s, r, p);
    var r1 := Synced(r, p.seg);
    var index := StreamIndex(p.seqno, p.seg.header.syn);
    if p.seqno < RightEdge(r1) {
      PushFits(s, r1, Num(p), index);
      PushHolds(s, r1, Num(p), index);
      NothingCutIff(r1.reasm, p.seg.payload, index);
      PushHas(r1.reasm, p.seg.payload, index, p.seg.header.fin, x);
    }
  }

  // ---------------------------------------------------------------- closing

  /** The endpoint's clock is the time truly waited, in 32 bits; and what it takes to close cleanly while
      lingering. */
  ghost predicate WaitInv(c: Connection, waited: nat) {
    && c.idle == ToInt32(waited)
    && (!c.active && !Failed(c) ==> !c.linger || c.idle >= 10 * c.rtTimeout)
  }

  lemma {:induction false} FillKeepsError(s: Sender)
    ensures FillWindow(s).stream.error == s.stream.error
  {
    if s.phase != Closed { FillLoopExtends(s, EffectiveWindow(s)); }
  }

  lemma {:induction false} TryCleanWaits(c: Connection, waited: nat)
    requires WaitInv(c, waited)
    ensures WaitInv(TryCleanShutdown(c), waited)
  {
  }

  lemma {:induction false} DigestWaits(c: Connection, seg: TCPSegment)
    requires c.active
    ensures WaitInv(Digest(c, seg), 0)
  {
  }

  lemma {:induction false} ReplyWaits(c: Connection, seg: TCPSegment, waited: nat)
    requires WaitInv(c, waited)
    ensures WaitInv(FetchSegments(Reply(c, seg)), waited)
  {
    FillKeepsError(c.sender);
  }

  lemma {:induction false} ReceiveWaits(c: Connection, seg: TCPSegment, waited: nat)
    requires WaitInv(c, waited) && c.active && !seg.header.rst
    ensures WaitInv(ReceiveSegment(c, seg), 0)
  {
    var c1 := Digest(c, seg);
    DigestWaits(c, seg);
    TryCleanWaits(c1, 0);
    ReplyWaits(TryCleanShutdown(c1), seg, 0);
    TryCleanWaits(FetchSegments(Reply(TryCleanShutdown(c1), seg)), 0);
  }

  lemma {:induction false} PerformWaits(c: Connection, act: Action, waited: nat)
    requires WaitInv(c, waited)
    ensures WaitInv(Perform(c, act), Waited(c, waited, act))
  {
    match act
    case Connect => FillKeepsError(c.sender);
    case WriteOut(data) => FillKeepsError(WriteData(c.sender, data));
    case EndOut => FillKeepsError(EndData(c.sender));
    case TickBy(ms) => ToInt32Adds(waited, ms);
    case Receive(p) => if c.active && !p.seg.header.rst { ReceiveWaits(c, p.seg, waited); }
    case _ =>
  }

  lemma {:induction false} ExecWaits(y: System, moves: seq<Move>)
    requires WaitInv(y.a, y.waitedA) && WaitInv(y.b, y.waitedB)
    ensures var z := Exec(y, moves); WaitInv(z.a, z.waitedA) && WaitInv(z.b, z.waitedB)
    decreases |moves|
  {
    if moves != [] {
      var m := moves[0];
      if m.atA { PerformWaits(y.a, m.act, y.waitedA); } else { PerformWaits(y.b, m.act, y.waitedB); }
      ExecWaits(MoveTo(y, m), moves[1..]);
    }
  }

  /** What a clean close of `c` means: it has all of the peer's stream, the peer has all of its stream, and it
      either stopped lingering because the peer ended first or waited long enough. */
  ghost predicate ClosedCleanly(c: Connection, peer: Connection, waited: nat) {
    && Output(c.receiver).ended && peer.sender.stream.ended
    && Output(c.receiver).history == peer.sender.stream.history
    && Output(peer.receiver).ended && c.sender.stream.ended
    && Output(peer.receiver).history == c.sender.stream.history
    && (!c.linger || waited >= 10 * c.rtTimeout)
  }

  lemma {:induction false} CleanCloseMeansDelivered(ca: Config, cb: Config, moves: seq<Move>)
    requires Legal(NewSystem(ca, cb), moves)
    ensures var y := Exec(NewSystem(ca, cb), moves);
            && (!y.a.active && !Failed(y.a) ==> ClosedCleanly(y.a, y.b, y.waitedA))
            && (!y.b.active && !Failed(y.b) ==> ClosedCleanly(y.b, y.a, y.waitedB))
  {
    Reachable(ca, cb, moves);
    ExecWaits(NewSystem(ca, cb), moves);
    var y := Exec(NewSystem(ca, cb), moves);
    if !y.a.active && !Failed(y.a) { CloseDelivers(y); }
    if !y.b.active && !Failed(y.b) { SwapInv(y); CloseDelivers(Swap(y)); }
  }

  lemma {:induction false} CloseDelivers(y: System)
    requires SysInv(y) && WaitInv(y.a, y.waitedA) && !y.a.active && !Failed(y.a)
    ensures ClosedCleanly(y.a, y.b, y.waitedA)
  {
    var fa, fb := y.fromA + Elems(y.a.out), y.fromB + Elems(y.b.out);
    assert Lowest(y.a.sender) == y.a.sender.next;
    ToInt32Below(y.waitedA);
    AckBetween(y.a.sender, y.b.receiver, fa, fb);
  }

  /** An endpoint that closes without lingering can do so safely: each FIN it ever sent acknowledged the peer's
      own FIN, and the peer, which has received one, has nothing left to retransmit. */
  lemma {:induction false} NoLingerIsSafe(ca: Config, cb: Config, moves: seq<Move>)
    requires Legal(NewSystem(ca, cb), moves)
    ensures var y := Exec(NewSystem(ca, cb), moves);
            !y.a.active && !Failed(y.a) && !y.a.linger ==>
              && FinsCarryAck(y.fromA, |y.b.sender.stream.history| + 2)
              && y.b.sender.outstanding == []
  {
    Reachable(ca, cb, moves);
    var y := Exec(NewSystem(ca, cb), moves);
    if !y.a.active && !Failed(y.a) && !y.a.linger {
      ExecWaits(NewSystem(ca, cb), moves);
      CloseDelivers(y);
      TilesOrder(y.b.sender.outstanding, Lowest(y.b.sender), y.b.sender.next);
    }
  }

  /** Once inactive, always inactive, and a clean close is never turned into a failure. */
  lemma {:induction false} InactiveStays(c: Connection, act: Action)
    requires !c.active
    ensures !Perform(c, act).active
    ensures Failed(Perform(c, act)) == Failed(c)
  {
    match act
    case Connect => FillKeepsError(c.sender);
    case WriteOut(data) => FillKeepsError(WriteData(c.sender, data));
    case EndOut => FillKeepsError(EndData(c.sender));
    case _ =>
  }

  lemma {:induction false} InactiveForever(y: System, moves: seq<Move>)
    ensures var z := Exec(y, moves);
            && (!y.a.active ==> !z.a.active && Failed(z.a) == Failed(y.a))
            && (!y.b.active ==> !z.b.active && Failed(z.b) == Failed(y.b))
    decreases |moves|
  {
    if moves != [] {
      var m := moves[0];
      if m.atA {
        if !y.a.active { InactiveStays(y.a, m.act); }
      } else {
        if !y.b.active { InactiveStays(y.b, m.act); }
      }
      InactiveForever(MoveTo(y, m), moves[1..]);
    }
  }
}
