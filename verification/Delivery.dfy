/** From every reachable state with both ends open, all that has been written can still be delivered: no loss,
    delay or full buffer leaves two connections stuck. */
module Delivery {
  import opened Basics
  import opened StreamModel
  import opened Segments
  import opened ReceiverModel
  import opened SenderModel
  import opened SenderRuns
  import opened ConnectionModel
  import opened Link
  import opened Duplex
  import opened Progress
  import EndToEnd

  /** All that was written at `a` is assembled at `b`, and so is its end. */
  ghost predicate Delivered(y: System) {
    && Output(y.b.receiver).history == y.a.sender.stream.history
    && (y.a.sender.stream.ended ==> Output(y.b.receiver).ended)
  }

  /** A copy of the oldest outstanding segment is in the network, and not much has been received since it left. */
  ghost predicate Copy(y: System, p: Packet) {
    && p in y.fromA && !p.seg.header.rst
    && y.a.sender.outstanding != [] && p.seqno == Lowest(y.a.sender)
    && SeqLength(p.seg) == SeqLength(y.a.sender.outstanding[0].seg)
    && (p.seg.header.ack ==> AbsAck(y.a.receiver) <= p.ackno + 0x4000_0000)
  }

  /** `a` may still retransmit, or need not. */
  ghost predicate CanSend(y: System) {
    || y.a.sender.retransmissions < MAX_RETX_ATTEMPTS
    || y.a.sender.outstanding == []
    || exists p | p in y.fromA :: Copy(y, p)
  }

  /** Both ends are open, `a` can send, and `b` has a buffer at all. */
  ghost predicate Working(y: System) {
    SysInv(y) && y.a.active && y.b.active && CanSend(y) && Output(y.b.receiver).capacity > 0
  }

  predicate SameWritten(y: System, y': System) {
    && y'.a.sender.stream.history == y.a.sender.stream.history
    && y'.a.sender.stream.ended == y.a.sender.stream.ended
  }

  function AtA(act: Action): Move { Move(true, act) }

  function AtB(act: Action): Move { Move(false, act) }

  // ---------------------------------------------------------------- when it is done

  lemma {:induction false} AllAcknowledged(y: System)
    requires SysInv(y)
    requires var s := y.a.sender;
             && s.phase != Closed && s.outstanding == [] && Unread(s.stream) == []
             && (s.stream.ended ==> s.phase == FinSent)
    ensures Delivered(y)
  {
    var s := y.a.sender;
    TilesOrder(s.outstanding, Lowest(s), s.next);
  }

  /** An end that closes without error leaves nothing to deliver. */
  lemma {:induction false} ClosedIsDelivered(y: System)
    requires SysInv(y)
    requires (!y.a.active && !Failed(y.a)) || (!y.b.active && !Failed(y.b))
    ensures Delivered(y)
  {
    if !y.a.active && !Failed(y.a) {
      TilesOrder(y.a.sender.outstanding, Lowest(y.a.sender), y.a.sender.next);
      AllAcknowledged(y);
    }
  }

  // ---------------------------------------------------------------- numbers are near each other

  lemma {:induction false} NearNumbers(s: Sender, r: Receiver, data: set<Packet>, acks: set<Packet>)
    requires LinkInv(s, r, data, acks)
    ensures Recent(Lowest(s), |Output(r).history|) && Recent(s.next, |Output(r).history|)
    ensures !r.inListen ==> s.stream.popped - 0x1_0000 <= AbsAck(r) <= s.stream.popped + 2
  {
    if !r.inListen { AckBetween(s, r, data, acks); }
  }

  // ---------------------------------------------------------------- `b` makes room

  lemma {:induction false} WriteNothing(s: Sender)
    ensures WriteData(s, []) == s
  {
    assert Write(s.stream, []).history == s.stream.history;
  }

  /** An empty write hands over whatever is queued. */
  lemma {:induction false} Flushes(c: Connection)
    ensures var c' := WriteConnection(c, []);
            && c'.sender == FillWindow(c.sender).(out := [])
            && c'.receiver == c.receiver && c'.active == c.active
  {
    WriteNothing(c.sender);
  }

  function ReadAll(c: Connection): Action { ReadIn(|Unread(Output(c.receiver))|) }

  /** Then the peer hands over what it has queued and its owner reads everything. */
  lemma {:induction false} MakesRoom(y: System)
    requires Working(y)
    ensures var moves := [AtB(WriteOut([])), AtB(ReadAll(y.b))];
            var y' := Exec(y, moves);
            && Legal(y, moves) && Working(y')
            && y'.a == y.a && y'.fromA == y.fromA && y'.b.sender.out == []
            && Lowest(y'.a.sender) < RightEdge(y'.b.receiver)
  {
    var y1 := MoveTo(y, AtB(WriteOut([])));
    var y2 := MoveTo(y1, AtB(ReadAll(y.b)));
    TwoMoves(y, AtB(WriteOut([])), AtB(ReadAll(y.b)));
    Flushes(y.b);
    assert MoveEnabled(y, AtB(WriteOut([])));
    MoveKeeps(y, AtB(WriteOut([])));
    MoveKeeps(y1, AtB(ReadAll(y.b)));
    ReadsAll(y1.b);
    assert CanSend(y2) by {
      if p :| p in y.fromA && Copy(y, p) { assert Copy(y2, p); }
    }
    assert y2.b.receiver == ReadFrom(y.b.receiver, |Unread(Output(y.b.receiver))|);
    assert EndsAgree(y2.a.sender, y2.b.receiver);
  }

  lemma {:induction false} ReadsAll(c: Connection)
    ensures var r := ReadFrom(c.receiver, |Unread(Output(c.receiver))|);
            && WindowSize(r) == Output(r).capacity == Output(c.receiver).capacity
            && AbsAck(r) == AbsAck(c.receiver)
  {
  }

  // ---------------------------------------------------------------- `a` sends the oldest segment again

  function ExpiryTime(s: Sender): nat { TWO32 - 1 - s.elapsed % TWO32 }

  lemma ExpiresThen(s: Sender)
    requires s.alarm && s.outstanding != []
    ensures Expires(s, ExpiryTime(s))
  {
  }

  lemma {:induction false} TickSends(c: Connection)
    requires SenderInv(c.sender) && c.active && c.sender.outstanding != []
    requires c.sender.retransmissions < MAX_RETX_ATTEMPTS
    ensures var c' := TickConnection(c, ExpiryTime(c.sender));
            && c'.active && c'.receiver == c.receiver
            && c'.sender.stream == c.sender.stream && c'.sender.outstanding == c.sender.outstanding
            && Lowest(c'.sender) == Lowest(c.sender)
            && Stamp(c.sender.outstanding[0], c.receiver) in c'.out
  {
    TilesOrder(c.sender.outstanding, Lowest(c.sender), c.sender.next);
    ExpiresThen(c.sender);
    var s := SenderModel.Tick(c.sender, ExpiryTime(c.sender));
    StampMember(s.out, |c.sender.out|, c.receiver);
    var stamped := StampAll(s.out, c.receiver);
    assert Stamp(c.sender.outstanding[0], c.receiver) in c.out + stamped;
  }

  lemma {:induction false} StampMember(q: seq<Numbered>, i: nat, r: Receiver)
    requires i < |q|
    ensures Stamp(q[i], r) in StampAll(q, r)
    decreases |q|
  {
    if i > 0 {
      assert q[i] == q[1..][i - 1];
      StampMember(q[1..], i - 1, r);
    }
  }

  /** A fresh stamp is a copy. */
  lemma {:induction false} StampIsCopy(y: System, p: Packet)
    requires SysInv(y) && y.a.sender.outstanding != []
    requires p in y.fromA && p == Stamp(y.a.sender.outstanding[0], y.a.receiver)
    ensures Copy(y, p)
  {
    assert Sent(y.a.sender, y.a.sender.outstanding[0]);
  }

  /** What `a` can have delivered when it has something outstanding and `b` has room. */
  ghost predicate Ready(y: System, p: Packet) {
    && SysInv(y) && y.a.active && y.b.active && Output(y.b.receiver).capacity > 0
    && y.b.sender.out == [] && Lowest(y.a.sender) < RightEdge(y.b.receiver)
    && Copy(y, p)
  }

  lemma {:induction false} SendsAgain(y: System) returns (p: Packet)
    requires Working(y) && y.a.sender.outstanding != [] && y.a.sender.retransmissions < MAX_RETX_ATTEMPTS
    requires y.b.sender.out == [] && Lowest(y.a.sender) < RightEdge(y.b.receiver)
    ensures var m := AtA(TickBy(ExpiryTime(y.a.sender)));
            var y' := MoveTo(y, m);
            && MoveEnabled(y, m) && Ready(y', p) && SameWritten(y, y')
            && Lowest(y'.a.sender) == Lowest(y.a.sender)
  {
    p := Stamp(y.a.sender.outstanding[0], y.a.receiver);
    MoveKeeps(y, AtA(TickBy(ExpiryTime(y.a.sender))));
    TickSends(y.a);
    StampIsCopy(MoveTo(y, AtA(TickBy(ExpiryTime(y.a.sender)))), p);
  }

  /** The oldest segment is sent again, or a copy of it is still there. */
  lemma {:induction false} HasCopy(y: System) returns (moves: seq<Move>, p: Packet)
    requires Working(y) && y.a.sender.outstanding != []
    requires y.b.sender.out == [] && Lowest(y.a.sender) < RightEdge(y.b.receiver)
    ensures var y' := Exec(y, moves);
            && Legal(y, moves) && Ready(y', p) && SameWritten(y, y') && Lowest(y'.a.sender) == Lowest(y.a.sender)
  {
    if y.a.sender.retransmissions < MAX_RETX_ATTEMPTS {
      p := SendsAgain(y);
      moves := [AtA(TickBy(ExpiryTime(y.a.sender)))];
      OneMove(y, moves[0]);
    } else {
      p :| p in y.fromA && Copy(y, p);
      moves := [];
    }
  }

  // ---------------------------------------------------------------- there and back

  /** Nothing that is not a reset makes an endpoint fail. */
  lemma {:induction false} ReceiveKeepsWhole(c: Connection, seg: TCPSegment)
    requires SenderInv(c.sender) && !seg.header.rst
    ensures var c' := ReceiveSegment(c, seg);
            && Failed(c') == Failed(c)
            && c'.sender.stream.history == c.sender.stream.history
            && c'.sender.stream.ended == c.sender.stream.ended
  {
    ReceiveShape(c, seg);
    DigestKeepsWhole(c, seg);
    FillFrame(Digest(c, seg).sender);
    TryCleanFrame(Digest(c, seg));
  }

  lemma {:induction false} DigestKeepsWhole(c: Connection, seg: TCPSegment)
    requires SenderInv(c.sender)
    ensures var s := Digest(c, seg).sender;
            s.stream == c.sender.stream.(popped := s.stream.popped)
  {
    if seg.header.ack && Accepts(c.sender, seg.header.ackno) {
      TakeAckKeeps(c.sender, seg.header.ackno, seg.header.win);
      FillFrame(TakeAck(c.sender, seg.header.ackno, seg.header.win));
    }
  }

  /** An accepted acknowledgment clears the count of retransmissions. */
  lemma {:induction false} ReceiveClearsCount(c: Connection, seg: TCPSegment)
    requires SenderInv(c.sender) && c.active && !seg.header.rst && seg.header.ack
    requires Accepts(c.sender, seg.header.ackno)
    ensures ReceiveSegment(c, seg).sender.retransmissions == 0
  {
    ReceiveShape(c, seg);
    AckClearsCount(c.sender, seg.header.ackno, seg.header.win);
    FillFrame(Digest(c, seg).sender);
    TryCleanFrame(Digest(c, seg));
  }

  lemma {:induction false} AckClearsCount(s: Sender, ackno: U32, win: U16)
    requires SenderInv(s) && Accepts(s, ackno)
    ensures AckReceived(s, ackno, win).retransmissions == 0
  {
    PopKeeps(s.(window := win, retransmissions := 0), ReceivedAck(s, ackno));
    FillFrame(TakeAck(s, ackno, win));
  }

  lemma {:induction false} ArrivesEnabled(y: System, p: Packet)
    requires Ready(y, p)
    ensures MoveEnabled(y, AtB(Receive(p)))
  {
    var fa, fb := y.fromA + Elems(y.a.out), y.fromB + Elems(y.b.out);
    NearNumbers(y.a.sender, y.b.receiver, fa, fb);
    NearNumbers(y.b.sender, y.a.receiver, fb, fa);
    assert p.seg.header.ack ==> AckOk(y.b.sender, y.a.receiver, p);
  }

  /** The oldest segment arrives: all is delivered, or its answer can be delivered in turn. */
  lemma {:induction false} Arrives(y: System, p: Packet) returns (q: Packet)
    requires Ready(y, p)
    ensures var y' := MoveTo(y, AtB(Receive(p)));
            && MoveEnabled(y, AtB(Receive(p))) && SysInv(y') && y'.a == y.a
            && Output(y'.b.receiver).capacity > 0
            && (if !y'.b.active then Delivered(y')
                else MoveEnabled(y', AtA(Receive(q))) && Acknowledges(q, y'.b.receiver)
                     && AbsAck(y'.b.receiver) >= y.a.sender.outstanding[0].End())
  {
    var y' := MoveTo(y, AtB(Receive(p)));
    ArrivesEnabled(y, p);
    MoveKeeps(y, AtB(Receive(p)));
    RoundTrip(y, p);
    q :| q in y'.fromB && Acknowledges(q, y'.b.receiver) && q.seqno == y.b.sender.next;
    ReceiveKeepsWhole(y.b, p.seg);
    ReceiveShape(y.b, p.seg);
    ReceiveKeepsOutput(y.b.receiver, p.seg);
    if !y'.b.active {
      ClosedIsDelivered(y');
    } else {
      NearNumbers(y.b.sender, y.a.receiver, y.fromB + Elems(y.b.out), y.fromA + Elems(y.a.out));
      NearNumbers(y'.a.sender, y'.b.receiver, y'.fromA + Elems(y'.a.out), y'.fromB + Elems(y'.b.out));
    }
  }

  /** And the answer: all is delivered, or there is less to do. */
  lemma {:induction false} AnswerArrives(y: System, q: Packet)
    requires SysInv(y) && y.a.active && y.b.active && Output(y.b.receiver).capacity > 0
    requires y.a.sender.outstanding != [] && y.a.sender.outstanding[0].End() <= AbsAck(y.b.receiver)
    requires Enabled(y, Receive(q)) && Acknowledges(q, y.b.receiver)
    ensures var y' := MoveTo(y, AtA(Receive(q)));
            && SameWritten(y, y')
            && (Delivered(y') || (Working(y') && Lowest(y'.a.sender) > Lowest(y.a.sender)))
  {
    var y' := MoveTo(y, AtA(Receive(q)));
    MoveKeeps(y, AtA(Receive(q)));
    AckComesBack(y, q, y.a.sender.outstanding[0].End());
    ReceiveKeepsWhole(y.a, q.seg);
    if y'.a.active {
      AckIsAccepted(y, q);
      ReceiveClearsCount(y.a, q.seg);
    } else {
      ClosedIsDelivered(y');
    }
  }

  lemma {:induction false} AckIsAccepted(y: System, q: Packet)
    requires SysInv(y) && !y.b.receiver.inListen && Enabled(y, Receive(q)) && Acknowledges(q, y.b.receiver)
    ensures Accepts(y.a.sender, q.seg.header.ackno)
  {
    var fa, fb := y.fromA + Elems(y.a.out), y.fromB + Elems(y.b.out);
    LinkAck(y.a.sender, y.b.receiver, fa, fb, q);
    AckBetween(y.a.sender, y.b.receiver, fa, fb);
  }

  // ---------------------------------------------------------------- until it is done

  ghost predicate Improves(y: System, moves: seq<Move>) {
    var y' := Exec(y, moves);
    && Legal(y, moves) && SameWritten(y, y')
    && (Delivered(y') || (Working(y') && Lowest(y'.a.sender) > Lowest(y.a.sender)))
  }

  /** One round: room is made, and the oldest segment delivered and acknowledged. */
  lemma {:induction false} Round(y: System) returns (moves: seq<Move>)
    requires Working(y) && y.a.sender.outstanding != []
    ensures Improves(y, moves)
  {
    var open := [AtB(WriteOut([])), AtB(ReadAll(y.b))];
    MakesRoom(y);
    var y1 := Exec(y, open);
    var resend, p := HasCopy(y1);
    ExecConcat(y, open, resend);
    var there := ThereAndBack(Exec(y1, resend), p);
    ExecConcat(y, open + resend, there);
    moves := open + resend + there;
  }

  lemma {:induction false} ThereAndBack(y: System, p: Packet) returns (moves: seq<Move>)
    requires Ready(y, p)
    ensures Improves(y, moves)
  {
    var q := Arrives(y, p);
    var y1 := MoveTo(y, AtB(Receive(p)));
    OneMove(y, AtB(Receive(p)));
    moves := [AtB(Receive(p))];
    if y1.b.active {
      AnswerArrives(y1, q);
      TwoMoves(y, AtB(Receive(p)), AtA(Receive(q)));
      moves := [AtB(Receive(p)), AtA(Receive(q))];
    }
  }

  /** With nothing outstanding, `a` has sent everything or sends more. */
  lemma {:induction false} SendsMore(y: System)
    requires Working(y) && y.a.sender.outstanding == []
    ensures var y' := MoveTo(y, AtA(WriteOut([])));
            && MoveEnabled(y, AtA(WriteOut([]))) && SameWritten(y, y') && Working(y')
            && Lowest(y'.a.sender) == Lowest(y.a.sender)
            && (Delivered(y') || y'.a.sender.outstanding != [])
  {
    var s := y.a.sender;
    var y' := MoveTo(y, AtA(WriteOut([])));
    MoveKeeps(y, AtA(WriteOut([])));
    Flushes(y.a);
    FillFrame(s);
    FillKeepsTimer(s);
    TilesOrder(s.outstanding, Lowest(s), s.next);
    FillIsMaximal(s);
    if y'.a.sender.outstanding == [] {
      TilesOrder(y'.a.sender.outstanding, Lowest(y'.a.sender), y'.a.sender.next);
      AllAcknowledged(y');
    } else {
      NewIsSent(y.a);
      StampIsCopy(y', Stamp(y'.a.sender.outstanding[0], y'.a.receiver));
    }
  }

  /** What an empty write puts first into an empty queue of outstanding segments goes out with it. */
  lemma {:induction false} NewIsSent(c: Connection)
    requires SenderInv(c.sender) && c.sender.outstanding == []
    ensures var c' := WriteConnection(c, []);
            c'.sender.outstanding != [] ==> Stamp(c'.sender.outstanding[0], c.receiver) in c'.out
  {
    var s, s' := c.sender, FillWindow(c.sender);
    WriteNothing(s);
    if s.phase != Closed { FillLoopExtends(s, EffectiveWindow(s)); }
    if s'.outstanding != [] {
      assert |s.out| < |s'.out| && s'.out[|s.out|] == s'.outstanding[0];
      StampMember(s'.out, |s.out|, c.receiver);
      assert Stamp(s'.outstanding[0], c.receiver) in c.out + StampAll(s'.out, c.receiver);
    }
  }

  lemma {:induction false} Finish(y: System) returns (more: seq<Move>)
    requires Working(y)
    ensures Legal(y, more) && SameWritten(y, Exec(y, more)) && Delivered(Exec(y, more))
    decreases |y.a.sender.stream.history| + 2 - Lowest(y.a.sender), if y.a.sender.outstanding == [] then 1 else 0
  {
    TilesOrder(y.a.sender.outstanding, Lowest(y.a.sender), y.a.sender.next);
    if y.a.sender.outstanding == [] {
      SendsMore(y);
      OneMove(y, AtA(WriteOut([])));
      more := [AtA(WriteOut([]))];
    } else {
      more := Round(y);
    }
    var y1 := Exec(y, more);
    if !Delivered(y1) {
      var rest := Finish(y1);
      ExecConcat(y, more, rest);
      more := more + rest;
    }
  }

  /** The run goes on to a state where all that was written is delivered. */
  ghost predicate Completes(y: System, more: seq<Move>) {
    Legal(y, more) && SameWritten(y, Exec(y, more)) && Delivered(Exec(y, more))
  }

  /** Wherever a run has got to, if both ends are open, the sender can send and the receiver has a buffer, finitely
      many more calls and deliveries complete it. */
  lemma {:induction false} AlwaysDeliverable(ca: Config, cb: Config, moves: seq<Move>)
    requires Legal(NewSystem(ca, cb), moves)
    requires var y := Exec(NewSystem(ca, cb), moves);
             y.a.active && y.b.active && CanSend(y) && Output(y.b.receiver).capacity > 0
    ensures exists more :: Completes(Exec(NewSystem(ca, cb), moves), more)
  {
    EndToEnd.Reachable(ca, cb, moves);
    var y := Exec(NewSystem(ca, cb), moves);
    var more := Finish(y);
    assert Completes(y, more);
  }
}
