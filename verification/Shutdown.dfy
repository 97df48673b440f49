/** When an endpoint closes: exactly when both directions are finished and it need not linger any longer. */
module Shutdown {
  import opened Basics
  import opened Segments
  import opened ReceiverModel
  import opened SenderModel
  import opened TcpState
  import opened ConnectionModel
  import opened Link
  import opened Duplex
  import opened EndToEnd

  /** While open: an endpoint whose peer ended first does not mean to linger, and one that has finished in both
      directions is lingering. */
  ghost predicate OpenInv(c: Connection) {
    c.active && Output(c.receiver).ended ==>
      && (c.sender.phase == SynAcked ==> !c.linger)
      && (FinAcked(c.sender) ==> c.linger && c.idle < 10 * c.rtTimeout)
  }

  lemma {:induction false} TryCleanOpens(c: Connection)
    requires SenderInv(c.sender) && !Failed(c)
    ensures OpenInv(TryCleanShutdown(c))
  {
    SummaryTellsPhase(c.sender);
    TilesOrder(c.sender.outstanding, Lowest(c.sender), c.sender.next);
  }

  /** Filling the window does not acknowledge anything. */
  lemma {:induction false} FillOpens(c: Connection, s: Sender)
    requires OpenInv(c) && SenderInv(s) && s.phase == c.sender.phase && s.inFlight == c.sender.inFlight
    ensures OpenInv(SendSegments(c.(sender := s)))
  {
    FillKeeps(s);
    if s.phase != Closed { FillLoopExtends(s, EffectiveWindow(s)); }
  }

  lemma {:induction false} AnswerOpens(c: Connection, seg: TCPSegment)
    requires SenderInv(c.sender) && !Failed(c)
    ensures OpenInv(TryCleanShutdown(Answered(c, seg)))
  {
    if seg.header.ack {
      AckKeeps(c.sender, seg.header.ackno, seg.header.win);
      AckFrame(c.sender, seg.header.ackno, seg.header.win);
    }
    var s := Digest(c, seg).sender;
    AnsweredSender(c, seg);
    FillKeeps(s);
    FillKeepsError(s);
    TryCleanOpens(Answered(c, seg));
  }

  lemma {:induction false} ReceiveOpens(c: Connection, seg: TCPSegment)
    requires SenderInv(c.sender) && LocalInv(c) && OpenInv(c) && (c.receiver.inListen ==> !Output(c.receiver).ended)
    ensures OpenInv(ReceiveSegment(c, seg))
  {
    if c.active && !seg.header.rst { AnswerOpens(c, seg); }
  }

  lemma {:induction false} TickOpens(c: Connection, ms: nat)
    requires SenderInv(c.sender) && LocalInv(c) && OpenInv(c)
    ensures OpenInv(TickConnection(c, ms))
  {
    if c.active { TimeoutOpens(c, ms, ToInt32(c.idle + ms)); }
  }

  lemma {:induction false} TimeoutOpens(c: Connection, ms: nat, idle: int)
    requires SenderInv(c.sender) && !Failed(c)
    ensures OpenInv(Timeout(c, idle, ms))
  {
    var s := SenderModel.Tick(c.sender, ms);
    if s.retransmissions <= MAX_RETX_ATTEMPTS { CarryOnOpens(c, s, idle, ms); }
  }

  lemma {:induction false} CarryOnOpens(c: Connection, s: Sender, idle: int, ms: nat)
    requires SenderInv(c.sender) && !Failed(c) && s == SenderModel.Tick(c.sender, ms)
    ensures OpenInv(TryCleanShutdown(FetchSegments(c.(idle := idle, sender := s))))
  {
    TickKeeps(c.sender, ms);
    TryCleanOpens(FetchSegments(c.(idle := idle, sender := s)));
  }

  lemma {:induction false} PerformOpens(c: Connection, act: Action)
    requires SenderInv(c.sender) && LocalInv(c) && OpenInv(c) && (c.receiver.inListen ==> !Output(c.receiver).ended)
    ensures OpenInv(Perform(c, act))
  {
    match act
    case Connect => FillOpens(c, c.sender);
    case WriteOut(data) => WriteKeeps(c.sender, data); FillOpens(c, WriteData(c.sender, data));
    case EndOut => EndKeeps(c.sender); FillOpens(c, EndData(c.sender));
    case TickBy(ms) => TickOpens(c, ms);
    case Receive(p) => ReceiveOpens(c, p.seg);
    case _ =>
  }

  lemma {:induction false} MoveOpens(y: System, m: Move)
    requires SysInv(y) && MoveEnabled(y, m) && OpenInv(y.a) && OpenInv(y.b)
    ensures OpenInv(MoveTo(y, m).a) && OpenInv(MoveTo(y, m).b)
  {
    PerformOpens(if m.atA then y.a else y.b, m.act);
  }

  lemma {:induction false} ExecOpens(y: System, moves: seq<Move>)
    requires SysInv(y) && Legal(y, moves) && OpenInv(y.a) && OpenInv(y.b)
    ensures OpenInv(Exec(y, moves).a) && OpenInv(Exec(y, moves).b)
    decreases |moves|
  {
    if moves != [] {
      MoveKeeps(y, moves[0]);
      MoveOpens(y, moves[0]);
      ExecOpens(MoveTo(y, moves[0]), moves[1..]);
    }
  }

  lemma {:induction false} ReachableOpen(ca: Config, cb: Config, moves: seq<Move>)
    requires Legal(NewSystem(ca, cb), moves)
    ensures var y := Exec(NewSystem(ca, cb), moves); OpenInv(y.a) && OpenInv(y.b)
  {
    NewSystemInv(ca, cb);
    ExecOpens(NewSystem(ca, cb), moves);
  }

  /** Both directions finished, and no reason to stay: the peer ended first, or the clock has run ten timeouts. */
  predicate MayClose(c: Connection, clock: int) {
    Output(c.receiver).ended && FinAcked(c.sender) && (!c.linger || clock >= 10 * c.rtTimeout)
  }

  /** Open exactly as long as it may not close, and not going to linger if the peer ended first. */
  predicate ClosesExactly(c: Connection, clock: int) {
    && (c.active <==> !MayClose(c, clock))
    && (c.active && Output(c.receiver).ended && c.sender.phase == SynAcked ==> !c.linger)
  }

  /** In every reachable state an endpoint that has not failed is open exactly as long as it may not close, by the
      time it has truly waited, cut to 32 bits; and it never means to linger if its peer ended first. */
  lemma {:induction false} CloseIsExact(ca: Config, cb: Config, moves: seq<Move>)
    requires Legal(NewSystem(ca, cb), moves)
    ensures var y := Exec(NewSystem(ca, cb), moves);
            && (!Failed(y.a) ==> ClosesExactly(y.a, ToInt32(y.waitedA)))
            && (!Failed(y.b) ==> ClosesExactly(y.b, ToInt32(y.waitedB)))
  {
    Reachable(ca, cb, moves);
    ReachableOpen(ca, cb, moves);
    ExecWaits(NewSystem(ca, cb), moves);
    var y := Exec(NewSystem(ca, cb), moves);
    if !Failed(y.a) { ClosesNow(y.a, y.waitedA); }
    if !Failed(y.b) { ClosesNow(y.b, y.waitedB); }
  }

  lemma {:induction false} ClosesNow(c: Connection, waited: nat)
    requires LocalInv(c) && OpenInv(c) && WaitInv(c, waited) && !Failed(c)
    ensures ClosesExactly(c, ToInt32(waited))
  {
  }

  /** Once decided, an endpoint does not linger again. */
  lemma {:induction false} NeverLingersAgain(y: System, moves: seq<Move>)
    requires !y.a.linger
    ensures !Exec(y, moves).a.linger
    decreases |moves|
  {
    if moves != [] { NeverLingersAgain(MoveTo(y, moves[0]), moves[1..]); }
  }

  /** The endpoint whose peer ended first is closed by the very segment that acknowledges its FIN. */
  lemma {:induction false} PassiveCloseIsPrompt(ca: Config, cb: Config, early: seq<Move>, late: seq<Move>, q: Packet)
    requires Legal(NewSystem(ca, cb), early + late)
    requires var y := Exec(NewSystem(ca, cb), early);
             y.a.active && Output(y.a.receiver).ended && y.a.sender.phase == SynAcked
    requires var z := Exec(NewSystem(ca, cb), early + late);
             && !Failed(z.a) && z.a.sender.phase == FinSent
             && MoveEnabled(z, Move(true, Receive(q))) && !q.seg.header.rst
             && q.seg.header.ack && q.ackno == z.a.sender.next
    ensures var z := Exec(NewSystem(ca, cb), early + late);
            var c := MoveTo(z, Move(true, Receive(q))).a; !c.active && !Failed(c)
  {
    var x := NewSystem(ca, cb);
    var y, z := Exec(x, early), Exec(x, early + late);
    ExecConcat(x, early, late);
    Reachable(ca, cb, early);
    CloseIsExact(ca, cb, early);
    NeverLingersAgain(y, late);
    Reachable(ca, cb, early + late);
    ReachableOpen(ca, cb, early + late);
    if z.a.active { LastAckCloses(z, q); }
  }

  lemma {:induction false} LastAckCloses(z: System, q: Packet)
    requires SysInv(z) && OpenInv(z.a) && z.a.active && !z.a.linger
    requires Enabled(z, Receive(q)) && z.a.sender.phase == FinSent
    requires !q.seg.header.rst && q.seg.header.ack && q.ackno == z.a.sender.next
    ensures var c := Act(z, Receive(q)).a; !c.active && !Failed(c)
  {
    FinIsAcked(z, q);
    MoveKeeps(z, Move(true, Receive(q)));
    PerformOpens(z.a, Receive(q));
  }

  lemma {:induction false} FinIsAcked(z: System, q: Packet)
    requires SysInv(z) && z.a.active && Enabled(z, Receive(q)) && z.a.sender.phase == FinSent
    requires !q.seg.header.rst && q.seg.header.ack && q.ackno == z.a.sender.next
    ensures var c := ReceiveSegment(z.a, q.seg);
            FinAcked(c.sender) && !Failed(c) && (!z.a.linger ==> !c.linger)
  {
    var fa, fb := z.fromA + Elems(z.a.out), z.fromB + Elems(z.b.out);
    LinkAck(z.a.sender, z.b.receiver, fa, fb, q);
    AckFrame(z.a.sender, q.seg.header.ackno, q.seg.header.win);
    ReceiveShape(z.a, q.seg);
    AnsweredSender(z.a, q.seg);
    FillFrame(Digest(z.a, q.seg).sender);
  }
}
