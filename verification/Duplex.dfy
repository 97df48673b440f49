/** Two connections and a network that may lose, repeat and reorder whatever it carries. */
module Duplex {
  import opened Basics
  import opened WrappingIntegers
  import opened StreamModel
  import opened ReassemblerModel
  import opened Reassembler64
  import opened Segments
  import opened ReceiverModel
  import opened SenderModel
  import opened TcpState
  import opened ConnectionModel
  import opened Link

  /** Two endpoints, every packet either has ever sent, and the true time each has waited since it last
      processed a segment. */
  datatype System = System(a: Connection, b: Connection, fromA: set<Packet>, fromB: set<Packet>,
                           waitedA: nat, waitedB: nat)

  function Swap(y: System): System { System(y.b, y.a, y.fromB, y.fromA, y.waitedB, y.waitedA) }

  datatype Action =
    | Connect
    | WriteOut(data: seq<Byte>)
    | EndOut
    | ReadIn(len: nat)
    | TickBy(ms: nat)
    | Destroy
    | Receive(p: Packet)

  function Perform(c: Connection, act: Action): Connection {
    match act
    case Connect => SendSegments(c)
    case WriteOut(data) => WriteConnection(c, data)
    case EndOut => EndConnection(c)
    case ReadIn(len) => ReadConnection(c, len)
    case TickBy(ms) => TickConnection(c, ms)
    case Destroy => DestroyConnection(c)
    case Receive(p) => ReceiveSegment(c, p.seg)
  }

  /** 64-bit counters must not overflow, and packets are delivered within their lifetime. */
  predicate Enabled(y: System, act: Action) {
    match act
    case WriteOut(data) => |y.a.sender.stream.history| + |data| < TWO64 - TWO32
    case Receive(p) =>
      && p in y.fromB
      && (p.seg.header.rst ||
          (&& Recent(p.seqno, |Output(y.a.receiver).history|)
           && (p.seg.header.ack ==> Recent(p.ackno, y.a.sender.stream.popped))))
    case _ => true
  }

  function Elems(q: seq<Packet>): set<Packet> { set p | p in q }

  function Waited(c: Connection, waited: nat, act: Action): nat {
    if !c.active then waited
    else match act
      case TickBy(ms) => waited + ms
      case Receive(p) => if p.seg.header.rst then waited else 0
      case _ => waited
  }

  /** Endpoint `a` acts and hands what it queued to the network. */
  function Act(y: System, act: Action): System {
    var c := Perform(y.a, act);
    y.(a := c.(out := []), fromA := y.fromA + Elems(c.out), waitedA := Waited(y.a, y.waitedA, act))
  }

  datatype Move = Move(atA: bool, act: Action)

  predicate MoveEnabled(y: System, m: Move) {
    Enabled(if m.atA then y else Swap(y), m.act)
  }

  function MoveTo(y: System, m: Move): System {
    if m.atA then Act(y, m.act) else Swap(Act(Swap(y), m.act))
  }

  predicate Legal(y: System, moves: seq<Move>)
    decreases |moves|
  {
    moves == [] || (MoveEnabled(y, moves[0]) && Legal(MoveTo(y, moves[0]), moves[1..]))
  }

  function Exec(y: System, moves: seq<Move>): System
    decreases |moves|
  {
    if moves == [] then y else Exec(MoveTo(y, moves[0]), moves[1..])
  }

  lemma {:induction false} ExecConcat(y: System, a: seq<Move>, b: seq<Move>)
    ensures Exec(y, a + b) == Exec(Exec(y, a), b)
    ensures Legal(y, a) && Legal(Exec(y, a), b) <==> Legal(y, a + b)
    decreases |a|
  {
    if a == [] {
      assert a + b == b;
    } else {
      assert (a + b)[1..] == a[1..] + b;
      ExecConcat(MoveTo(y, a[0]), a[1..], b);
    }
  }

  lemma {:induction false} OneMove(y: System, m: Move)
    ensures Exec(y, [m]) == MoveTo(y, m) && (Legal(y, [m]) <==> MoveEnabled(y, m))
  {
    assert [m][1..] == [];
  }

  lemma {:induction false} TwoMoves(y: System, m: Move, n: Move)
    ensures Exec(y, [m, n]) == MoveTo(MoveTo(y, m), n)
    ensures Legal(y, [m, n]) <==> MoveEnabled(y, m) && MoveEnabled(MoveTo(y, m), n)
  {
    assert [m, n][1..] == [n] && [n][1..] == [];
    var y1 := MoveTo(y, m);
    assert Exec(y1, [n]) == Exec(MoveTo(y1, n), []);
    assert Legal(y1, [n]) <==> MoveEnabled(y1, n) && Legal(MoveTo(y1, n), []);
  }

  datatype Config = Config(rtTimeout: U16, sendCapacity: nat, recvCapacity: nat, isn: U32, recvIsn: U32)

  function NewEndpoint(cfg: Config): Connection {
    NewConnection(cfg.rtTimeout, cfg.sendCapacity, cfg.recvCapacity, cfg.isn, cfg.recvIsn)
  }

  function NewSystem(ca: Config, cb: Config): System {
    System(NewEndpoint(ca), NewEndpoint(cb), {}, {}, 0, 0)
  }

  // ---------------------------------------------------------------- invariant

  predicate Failed(c: Connection) { c.sender.stream.error }

  predicate FinAcked(s: Sender) { s.phase == FinSent && s.inFlight == 0 }

  ghost predicate LocalInv(c: Connection) {
    && (c.active ==> !Failed(c) && !Output(c.receiver).error && c.sender.retransmissions <= MAX_RETX_ATTEMPTS)
    && (c.sender.phase == Closed ==> c.sender.out == [])
    && (!c.active && !Failed(c) ==>
          Output(c.receiver).ended && FinAcked(c.sender))
  }

  ghost predicate FinsCarryAck(sent: set<Packet>, ackno: nat) {
    forall p | p in sent && !p.seg.header.rst && p.seg.header.fin :: p.seg.header.ack && p.ackno == ackno
  }

  /** An endpoint that has decided not to linger has the peer's whole stream, acknowledges the peer's FIN on
      every FIN it sends, and so a peer that has seen its FIN has nothing left unacknowledged. */
  ghost predicate Closing(c: Connection, peer: Connection, sent: set<Packet>) {
    !c.linger && !Failed(c) ==>
      && Output(c.receiver).ended
      && FinsCarryAck(sent, AbsAck(c.receiver))
      && (peer.receiver.reasm.eofIndex != NO_EOF ==> FinAcked(peer.sender))
  }

  ghost predicate Half(c: Connection, peer: Connection, sent: set<Packet>, got: set<Packet>) {
    LinkInv(c.sender, peer.receiver, sent, got) && LocalInv(c) && Closing(c, peer, sent)
  }

  /** What an endpoint has queued counts as sent. */
  ghost predicate SysInv(y: System) {
    var fa, fb := y.fromA + Elems(y.a.out), y.fromB + Elems(y.b.out);
    Half(y.a, y.b, fa, fb) && Half(y.b, y.a, fb, fa)
  }

  lemma SwapInv(y: System)
    ensures SysInv(Swap(y)) <==> SysInv(y)
  {
  }

  // ---------------------------------------------------------------- steps of `a` on its sender

  /** The sender at `a` moves; nothing else does. */
  lemma {:induction false} SenderMoves(y: System, s: Sender)
    requires SysInv(y)
    requires LinkInv(s, y.b.receiver, y.fromA + Elems(y.a.out), y.fromB + Elems(y.b.out))
    requires s.stream.error == y.a.sender.stream.error
    requires FinAcked(y.a.sender) ==> FinAcked(s)
    requires s.phase == Closed ==> s.out == []
    requires y.a.active ==> s.retransmissions <= MAX_RETX_ATTEMPTS
    ensures SysInv(y.(a := y.a.(sender := s)))
  {
  }

  lemma {:induction false} FillMoves(y: System)
    requires SysInv(y)
    ensures SysInv(y.(a := y.a.(sender := FillWindow(y.a.sender))))
  {
    LinkFill(y.a.sender, y.b.receiver, y.fromA + Elems(y.a.out), y.fromB + Elems(y.b.out));
    FillFrame(y.a.sender);
    SenderMoves(y, FillWindow(y.a.sender));
  }

  lemma {:induction false} FillFrame(s: Sender)
    ensures var s' := FillWindow(s);
            && s'.retransmissions == s.retransmissions
            && s'.stream == s.stream.(popped := s'.stream.popped)
            && s'.phase != Closed
            && (s.phase == FinSent ==> s' == s)
  {
    if s.phase != Closed { FillLoopExtends(s, EffectiveWindow(s)); }
  }

  lemma {:induction false} AckFrame(s: Sender, ackno: U32, win: U16)
    requires SenderInv(s)
    ensures var s' := AckReceived(s, ackno, win);
            && s'.retransmissions <= s.retransmissions
            && s'.stream.error == s.stream.error
            && s'.stream.history == s.stream.history
            && (FinAcked(s) ==> FinAcked(s'))
            && (s.phase == Closed ==> s'.phase == Closed && s'.out == s.out)
            && (s'.phase == Closed ==> s.phase == Closed)
            && (s.phase == FinSent && Accepts(s, ackno) && ReceivedAck(s, ackno) == s.next ==> FinAcked(s'))
  {
    if Accepts(s, ackno) {
      TakeAckKeeps(s, ackno, win);
      PopKeeps(s.(window := win, retransmissions := 0), ReceivedAck(s, ackno));
      FillFrame(TakeAck(s, ackno, win));
    }
  }

  // ---------------------------------------------------------------- `a` hands segments over

  lemma {:induction false} StampLinks(c: Connection, peer: Connection, n: Numbered, fa: set<Packet>, fb: set<Packet>)
    requires LinkInv(c.sender, peer.receiver, fa, fb) && LinkInv(peer.sender, c.receiver, fb, fa)
    requires DataOk(c.sender, peer.receiver, n)
    ensures var p := Stamp(n, c.receiver);
            LinkInv(c.sender, peer.receiver, fa + {p}, fb) && LinkInv(peer.sender, c.receiver, fb, fa + {p})
  {
    var p := Stamp(n, c.receiver);
    assert DataOk(c.sender, peer.receiver, Num(p));
    LinkData(c.sender, peer.receiver, fa, fb, p);
    assert !c.receiver.inListen ==> AckOk(peer.sender, c.receiver, p);
    assert c.receiver.inListen ==> p.seg == n.seg;
    LinkAckOut(peer.sender, c.receiver, fb, fa, p);
  }

  lemma {:induction false} StampAllLinks(c: Connection, peer: Connection, q: seq<Numbered>,
                                         fa: set<Packet>, fb: set<Packet>)
    requires LinkInv(c.sender, peer.receiver, fa, fb) && LinkInv(peer.sender, c.receiver, fb, fa)
    requires QueueOk(c.sender, peer.receiver, q)
    requires Closing(c, peer, fa)
    ensures var fa' := fa + Elems(StampAll(q, c.receiver));
            && LinkInv(c.sender, peer.receiver, fa', fb) && LinkInv(peer.sender, c.receiver, fb, fa')
            && Closing(c, peer, fa')
    decreases |q|
  {
    if q == [] {
      assert fa + Elems([]) == fa;
    } else {
      var p := Stamp(q[0], c.receiver);
      StampLinks(c, peer, q[0], fa, fb);
      assert Output(c.receiver).ended ==> !c.receiver.inListen;
      StampAllLinks(c, peer, q[1..], fa + {p}, fb);
      var rest := StampAll(q[1..], c.receiver);
      assert Elems([p] + rest) == {p} + Elems(rest);
      assert fa + Elems(StampAll(q, c.receiver)) == (fa + {p}) + Elems(rest);
    }
  }

  lemma {:induction false} FetchMoves(y: System)
    requires SysInv(y)
    ensures SysInv(y.(a := FetchSegments(y.a)))
  {
    var fa, fb := y.fromA + Elems(y.a.out), y.fromB + Elems(y.b.out);
    var s := y.a.sender;
    var stamped := StampAll(s.out, y.a.receiver);
    StampAllLinks(y.a, y.b, s.out, fa, fb);
    var fa' := fa + Elems(stamped);
    LinkDequeue(s, y.b.receiver, fa', fb, |s.out|);
    assert s.out[|s.out|..] == [];
    assert y.fromA + Elems(y.a.out + stamped) == fa';
  }

  lemma {:induction false} SendMoves(y: System)
    requires SysInv(y)
    ensures SysInv(y.(a := SendSegments(y.a)))
  {
    FillMoves(y);
    FetchMoves(y.(a := y.a.(sender := FillWindow(y.a.sender))));
  }

  // ---------------------------------------------------------------- shutting down

  lemma {:induction false} TryCleanMoves(y: System)
    requires SysInv(y) && !Failed(y.a)
    ensures SysInv(y.(a := TryCleanShutdown(y.a)))
  {
    SummaryTellsPhase(y.a.sender);
    TilesOrder(y.a.sender.outstanding, Lowest(y.a.sender), y.a.sender.next);
    if y.a.sender.phase == SynAcked {
      NoFinYet(y.a.sender, y.b.receiver, y.fromA + Elems(y.a.out));
    }
  }

  lemma {:induction false} NoFinYet(s: Sender, r: Receiver, sent: set<Packet>)
    requires DataPacketsOk(s, r, sent) && s.phase != FinSent
    ensures forall p | p in sent && !p.seg.header.rst :: !p.seg.header.fin
  {
    forall p | p in sent && !p.seg.header.rst ensures !p.seg.header.fin {
      assert Sent(s, Num(p));
    }
  }

  lemma {:induction false} KillMoves(y: System)
    requires SysInv(y)
    ensures SysInv(y.(a := KillConnection(y.a)))
  {
    var fa, fb := y.fromA + Elems(y.a.out), y.fromB + Elems(y.b.out);
    LinkSenderError(y.a.sender, y.b.receiver, fa, fb);
    LinkReceiverError(y.b.sender, y.a.receiver, fb, fa);
  }

  /** The queue after a reset: what was there without its head, or the empty segment that was just queued. */
  lemma {:induction false} ResetQueue(s: Sender, r: Receiver, fa: set<Packet>, fb: set<Packet>)
    requires LinkInv(s, r, fa, fb) && (s.phase == Closed ==> s.out == [])
    ensures var s1 := SendEmpty(s);
            && LinkInv(s1.(out := s1.out[1..]), r, fa, fb)
            && (s.phase == Closed ==> s1.out[1..] == [])
  {
    var s1 := SendEmpty(s);
    if s.phase != Closed {
      LinkEmpty(s, r, fa, fb);
      LinkDequeue(s1, r, fa, fb, 1);
    } else {
      assert s1.(out := s1.out[1..]) == s;
    }
  }

  /** What is left of the invariant while `a` is giving up: nothing is asked of its flags or its count of
      retransmissions. */
  ghost predicate FallingInv(y: System) {
    var fa, fb := y.fromA + Elems(y.a.out), y.fromB + Elems(y.b.out);
    && LinkInv(y.a.sender, y.b.receiver, fa, fb)
    && (y.a.sender.phase == Closed ==> y.a.sender.out == [])
    && Half(y.b, y.a, fb, fa)
  }

  lemma {:induction false} ResetLinks(s: Sender, r: Receiver, peerS: Sender, peerR: Receiver,
                                      fa: set<Packet>, fb: set<Packet>, p: Packet)
    requires LinkInv(s, peerR, fa, fb) && LinkInv(peerS, r, fb, fa) && p.seg.header.rst
    ensures LinkInv(s.(stream := SetError(s.stream)), peerR, fa + {p}, fb)
    ensures LinkInv(peerS, r.(reasm := r.reasm.(output := SetError(Output(r)))), fb, fa + {p})
  {
    LinkData(s, peerR, fa, fb, p);
    LinkAckOut(peerS, r, fb, fa, p);
    LinkSenderError(s, peerR, fa + {p}, fb);
    LinkReceiverError(peerS, r, fb, fa + {p});
  }

  function ResetPacket(c: Connection): Packet { StampReset(SendEmpty(c.sender).out[0], c.receiver) }

  lemma {:induction false} AbortLinks(y: System)
    requires FallingInv(y)
    ensures var fa, fb := y.fromA + Elems(y.a.out) + {ResetPacket(y.a)}, y.fromB + Elems(y.b.out);
            && LinkInv(Abort(y.a).sender, y.b.receiver, fa, fb)
            && LinkInv(y.b.sender, Abort(y.a).receiver, fb, fa)
            && (y.a.sender.phase == Closed ==> Abort(y.a).sender.out == [])
  {
    var fa, fb := y.fromA + Elems(y.a.out), y.fromB + Elems(y.b.out);
    var s1 := SendEmpty(y.a.sender);
    ResetQueue(y.a.sender, y.b.receiver, fa, fb);
    ResetLinks(s1.(out := s1.out[1..]), y.a.receiver, y.b.sender, y.b.receiver, fa, fb, ResetPacket(y.a));
  }

  lemma {:induction false} ResetMoves(y: System)
    requires FallingInv(y)
    ensures SysInv(y.(a := Abort(y.a)))
  {
    AbortLinks(y);
    assert Elems(y.a.out + [ResetPacket(y.a)]) == Elems(y.a.out) + {ResetPacket(y.a)};
    assert y.fromA + Elems(Abort(y.a).out) == y.fromA + Elems(y.a.out) + {ResetPacket(y.a)};
  }

  // ---------------------------------------------------------------- `a` receives

  /** The end of the peer's stream, once reached, is where the acknowledgment number stays. */
  lemma {:induction false} ReceiveFrame(s: Sender, r: Receiver, seg: TCPSegment)
    requires SenderInv(s) && Holds(s, r) && Holds(s, SegmentReceived(r, seg))
    ensures var r' := SegmentReceived(r, seg);
            && Output(r').error == Output(r).error
            && (Output(r).ended ==> Output(r').ended && AbsAck(r') == AbsAck(r))
            && (r'.reasm.eofIndex != NO_EOF ==> r.reasm.eofIndex != NO_EOF || seg.header.fin)
  {
    if r.inListen && !seg.header.syn {
    } else {
      var r1 := Synced(r, seg);
      var absSeq := Unwrap64(seg.header.seqno, r1.isn, |Output(r1).history|);
      var index := StreamIndex(absSeq, seg.header.syn);
      Push64Grows(r1.reasm, seg.payload, index, seg.header.fin);
    }
  }

  /** Acknowledgment and data of one packet. If it is the FIN of a peer that will not linger, it has
      acknowledged everything. */
  lemma {:induction false} DigestMoves(y: System, p: Packet)
    requires SysInv(y) && y.a.active && Enabled(y, Receive(p)) && !p.seg.header.rst
    ensures SysInv(y.(a := Digest(y.a, p.seg)))
  {
    var fa, fb := y.fromA + Elems(y.a.out), y.fromB + Elems(y.b.out);
    var a, b := y.a, y.b;
    var c := Digest(a, p.seg);
    assert LinkInv(c.sender, b.receiver, fa, fb) by {
      if p.seg.header.ack { LinkAck(a.sender, b.receiver, fa, fb, p); }
    }
    LinkReceive(b.sender, a.receiver, fb, fa, p);
    ReceiveFrame(b.sender, a.receiver, p.seg);
    if p.seg.header.ack { AckFrame(a.sender, p.seg.header.ackno, p.seg.header.win); }
    assert Closing(a, b, fa) ==> Closing(c, b, fa);
    DigestClosing(y, p);
  }

  lemma {:induction false} DigestClosing(y: System, p: Packet)
    requires SysInv(y) && y.a.active && Enabled(y, Receive(p)) && !p.seg.header.rst
    ensures Closing(y.b, Digest(y.a, p.seg), y.fromB + Elems(y.b.out))
  {
    var fa, fb := y.fromA + Elems(y.a.out), y.fromB + Elems(y.b.out);
    var a, b := y.a, y.b;
    var c := Digest(a, p.seg);
    LinkReceive(b.sender, a.receiver, fb, fa, p);
    ReceiveFrame(b.sender, a.receiver, p.seg);
    if p.seg.header.ack {
      LinkAck(a.sender, b.receiver, fa, fb, p);
      AckFrame(a.sender, p.seg.header.ackno, p.seg.header.win);
    }
    if !b.linger && !Failed(b) && p.seg.header.fin {
      assert p in fb;
      assert p.ackno == AbsAck(b.receiver) == a.sender.next;
    }
  }

  lemma {:induction false} ReplyMoves(y: System, seg: TCPSegment)
    requires SysInv(y)
    ensures SysInv(y.(a := Reply(y.a, seg)))
  {
    var fa, fb := y.fromA + Elems(y.a.out), y.fromB + Elems(y.b.out);
    var s := FillWindow(y.a.sender);
    FillMoves(y);
    FillFrame(y.a.sender);
    LinkEmpty(s, y.b.receiver, fa, fb);
    SenderMoves(y.(a := y.a.(sender := s)), SendEmpty(s));
  }

  /** The reply is queued whether or not the first shutdown test has just closed the connection. */
  lemma {:induction false} AnswerMoves(y: System, seg: TCPSegment)
    requires SysInv(y) && !Failed(y.a)
    ensures SysInv(y.(a := TryCleanShutdown(FetchSegments(Reply(y.a, seg)))))
  {
    FillFrame(y.a.sender);
    ReplyMoves(y, seg);
    var y1 := y.(a := Reply(y.a, seg));
    FetchMoves(y1);
    TryCleanMoves(y1.(a := FetchSegments(y1.a)));
  }

  lemma {:induction false} ConnectedMoves(y: System, seg: TCPSegment)
    requires SysInv(y) && !Failed(y.a)
    ensures SysInv(y.(a := TryCleanShutdown(FetchSegments(Reply(TryCleanShutdown(y.a), seg)))))
  {
    TryCleanMoves(y);
    AnswerMoves(y.(a := TryCleanShutdown(y.a)), seg);
  }

  lemma {:induction false} ReceiveMoves(y: System, p: Packet)
    requires SysInv(y) && Enabled(y, Receive(p))
    ensures SysInv(y.(a := ReceiveSegment(y.a, p.seg)))
  {
    if y.a.active {
      if p.seg.header.rst {
        KillMoves(y);
      } else {
        DigestMoves(y, p);
        if p.seg.header.ack { AckFrame(y.a.sender, p.seg.header.ackno, p.seg.header.win); }
        ConnectedMoves(y.(a := Digest(y.a, p.seg)), p.seg);
      }
    }
  }

  // ---------------------------------------------------------------- `a` is called by its owner

  lemma {:induction false} TickIsTimeout(y: System, ms: nat, idle: int)
    requires y.a.active && idle == ToInt32(y.a.idle + ms)
    ensures y.(a := TickConnection(y.a, ms)) == y.(a := Timeout(y.a, idle, ms))
  {
  }

  lemma {:induction false} TickMoves(y: System, ms: nat)
    requires SysInv(y)
    ensures SysInv(y.(a := TickConnection(y.a, ms)))
  {
    if y.a.active {
      var idle := ToInt32(y.a.idle + ms);
      TickIsTimeout(y, ms, idle);
      TimeoutMoves(y, idle, ms);
    }
  }

  lemma {:induction false} TimeoutMoves(y: System, idle: int, ms: nat)
    requires SysInv(y) && y.a.active
    ensures SysInv(y.(a := Timeout(y.a, idle, ms)))
  {
    var s := SenderModel.Tick(y.a.sender, ms);
    LinkTick(y.a.sender, y.b.receiver, y.fromA + Elems(y.a.out), y.fromB + Elems(y.b.out), ms);
    TimeoutCases(y, idle, ms);
    TickFrame(y.a.sender, ms);
    if s.retransmissions > MAX_RETX_ATTEMPTS {
      GiveUpMoves(y, s, idle);
    } else {
      CarryOnMoves(y, s, idle);
    }
  }

  lemma {:induction false} TickFrame(s: Sender, ms: nat)
    requires SenderInv(s) && (s.phase == Closed ==> s.out == [])
    ensures var s' := SenderModel.Tick(s, ms);
            && s'.stream == s.stream && s'.phase == s.phase && s'.inFlight == s.inFlight
            && (s'.phase == Closed ==> s'.out == [])
            && (s'.retransmissions > s.retransmissions ==> s'.out != [] && s'.phase != Closed)
  {
    TilesOrder(s.outstanding, Lowest(s), s.next);
  }

  lemma {:induction false} TimeoutCases(y: System, idle: int, ms: nat)
    ensures var s := SenderModel.Tick(y.a.sender, ms);
            if s.retransmissions > MAX_RETX_ATTEMPTS
            then s.out != [] ==>
                   y.(a := Timeout(y.a, idle, ms))
                   == y.(a := Abort(y.a.(idle := idle, sender := s.(out := s.out[1..]))))
            else y.(a := Timeout(y.a, idle, ms))
                 == y.(a := TryCleanShutdown(FetchSegments(y.a.(idle := idle, sender := s))))
  {
  }

  /** The tick that exceeds the limit has just queued a retransmission; it is dropped and a reset goes out. */
  lemma {:induction false} GiveUpMoves(y: System, s: Sender, idle: int)
    requires SysInv(y) && s.out != []
    requires LinkInv(s, y.b.receiver, y.fromA + Elems(y.a.out), y.fromB + Elems(y.b.out))
    requires s.phase != Closed && (FinAcked(y.a.sender) ==> FinAcked(s))
    ensures SysInv(y.(a := Abort(y.a.(idle := idle, sender := s.(out := s.out[1..])))))
  {
    LinkDequeue(s, y.b.receiver, y.fromA + Elems(y.a.out), y.fromB + Elems(y.b.out), 1);
    ResetMoves(y.(a := y.a.(idle := idle, sender := s.(out := s.out[1..]))));
  }

  lemma {:induction false} CarryOnMoves(y: System, s: Sender, idle: int)
    requires SysInv(y) && y.a.active
    requires LinkInv(s, y.b.receiver, y.fromA + Elems(y.a.out), y.fromB + Elems(y.b.out))
    requires s.stream.error == y.a.sender.stream.error
    requires FinAcked(y.a.sender) ==> FinAcked(s)
    requires s.phase == Closed ==> s.out == []
    requires s.retransmissions <= MAX_RETX_ATTEMPTS
    ensures SysInv(y.(a := TryCleanShutdown(FetchSegments(y.a.(idle := idle, sender := s)))))
  {
    var y1 := y.(a := y.a.(idle := idle, sender := s));
    FetchMoves(y1);
    TryCleanMoves(y1.(a := FetchSegments(y1.a)));
  }

  lemma {:induction false} WriteMoves(y: System, data: seq<Byte>)
    requires SysInv(y) && Enabled(y, WriteOut(data))
    ensures SysInv(y.(a := WriteConnection(y.a, data)))
  {
    LinkWrite(y.a.sender, y.b.receiver, y.fromA + Elems(y.a.out), y.fromB + Elems(y.b.out), data);
    SenderMoves(y, WriteData(y.a.sender, data));
    SendMoves(y.(a := y.a.(sender := WriteData(y.a.sender, data))));
  }

  lemma {:induction false} EndMoves(y: System)
    requires SysInv(y)
    ensures SysInv(y.(a := EndConnection(y.a)))
  {
    LinkEnd(y.a.sender, y.b.receiver, y.fromA + Elems(y.a.out), y.fromB + Elems(y.b.out));
    SenderMoves(y, EndData(y.a.sender));
    SendMoves(y.(a := y.a.(sender := EndData(y.a.sender))));
  }

  lemma {:induction false} ReadMoves(y: System, len: nat)
    requires SysInv(y)
    ensures SysInv(y.(a := ReadConnection(y.a, len)))
  {
    LinkRead(y.b.sender, y.a.receiver, y.fromB + Elems(y.b.out), y.fromA + Elems(y.a.out), len);
  }

  lemma {:induction false} PerformMoves(y: System, act: Action)
    requires SysInv(y) && Enabled(y, act)
    ensures SysInv(y.(a := Perform(y.a, act)))
  {
    match act
    case Connect => SendMoves(y);
    case WriteOut(data) => WriteMoves(y, data);
    case EndOut => EndMoves(y);
    case ReadIn(len) => ReadMoves(y, len);
    case TickBy(ms) => TickMoves(y, ms);
    case Destroy => ResetMoves(y);
    case Receive(p) => ReceiveMoves(y, p);
  }

  lemma {:induction false} FlushMoves(y: System)
    requires SysInv(y)
    ensures SysInv(y.(a := y.a.(out := []), fromA := y.fromA + Elems(y.a.out)))
  {
    assert y.fromA + Elems(y.a.out) + Elems([]) == y.fromA + Elems(y.a.out);
  }

  lemma {:induction false} MoveKeeps(y: System, m: Move)
    requires SysInv(y) && MoveEnabled(y, m)
    ensures SysInv(MoveTo(y, m))
  {
    var z := if m.atA then y else Swap(y);
    SwapInv(y);
    PerformMoves(z, m.act);
    FlushMoves(z.(a := Perform(z.a, m.act)));
    SwapInv(Act(z, m.act));
  }

  lemma {:induction false} ExecKeeps(y: System, moves: seq<Move>)
    requires SysInv(y) && Legal(y, moves)
    ensures SysInv(Exec(y, moves))
    decreases |moves|
  {
    if moves != [] {
      MoveKeeps(y, moves[0]);
      ExecKeeps(MoveTo(y, moves[0]), moves[1..]);
    }
  }

  lemma {:induction false} NewSystemInv(ca: Config, cb: Config)
    ensures SysInv(NewSystem(ca, cb))
  {
    assert Elems([]) == {};
  }
}
