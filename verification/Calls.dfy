/** What each call on a connection sends and leaves behind, and how it closes. */
module Calls {
  import opened Basics
  import opened WrappingIntegers
  import opened StreamModel
  import opened Segments
  import opened Reassembler64
  import opened ReceiverModel
  import opened SenderModel
  import opened TcpState
  import opened ConnectionModel
  import opened Link
  import opened Duplex
  import opened Quiescence

  // ---------------------------------------------------------------- what goes out

  /** A packet says what the receiver beside it has to say: nothing before a SYN, then all that is assembled and all
      the room that reading has left. */
  predicate SpeaksFor(p: Packet, r: Receiver) {
    if r.inListen then !p.seg.header.ack
    else
      && p.seg.header.ack && p.ackno == AbsAck(r) && p.seg.header.ackno == Wrap(AbsAck(r), r.isn)
      && p.seg.header.win == Min(0xFFFF, Output(r).capacity - |Unread(Output(r))|)
  }

  /** A packet is the segment it was made of in everything else. */
  predicate Carries(p: Packet, n: Numbered) {
    var h, g := p.seg.header, n.seg.header;
    && p.seqno == n.seqno && p.seg.payload == n.seg.payload
    && h.seqno == g.seqno && h.syn == g.syn && h.fin == g.fin && h.rst == g.rst
  }

  lemma {:induction false} StampSpeaks(q: seq<Numbered>, r: Receiver)
    ensures var ps := StampAll(q, r);
            && |ps| == |q|
            && forall i | 0 <= i < |q| :: Carries(ps[i], q[i]) && (q[i].seg.header.ack || SpeaksFor(ps[i], r))
  {
    if q != [] {
      StampSpeaks(q[1..], r);
      var rest := StampAll(q[1..], r);
      assert StampAll(q, r) == [Stamp(q[0], r)] + rest;
      forall i | 0 < i < |q| ensures StampAll(q, r)[i] == rest[i - 1] && q[i] == q[1..][i - 1] {}
    }
  }

  /** Everything the sender has queued leaves, once, in order and unchanged, and speaks for the receiver. */
  lemma {:induction false} FetchHandsOver(c: Connection)
    requires SenderInv(c.sender)
    ensures var c' := FetchSegments(c);
            && c'.sender == c.sender.(out := []) && c'.receiver == c.receiver
            && c.out <= c'.out
            && var added := c'.out[|c.out|..];
               && |added| == |c.sender.out|
               && forall i | 0 <= i < |added| :: Carries(added[i], c.sender.out[i]) && SpeaksFor(added[i], c.receiver)
  {
    var ps := StampAll(c.sender.out, c.receiver);
    StampSpeaks(c.sender.out, c.receiver);
    assert FetchSegments(c).out[|c.out|..] == ps;
    forall i | 0 <= i < |ps| ensures SpeaksFor(ps[i], c.receiver) { assert Sent(c.sender, c.sender.out[i]); }
  }

  /** Reading gives all of the window back. */
  lemma {:induction false} ReadingReopens(r: Receiver, p: Packet)
    requires !r.inListen && SpeaksFor(p, ReadFrom(r, |Unread(Output(r))|))
    ensures p.seg.header.win == Min(0xFFFF, Output(r).capacity)
  {
  }

  ghost predicate AllSpeak(c: Connection) {
    forall p | p in c.out :: p.seg.header.rst || SpeaksFor(p, c.receiver)
  }

  lemma {:induction false} FetchSpeaks(c: Connection)
    requires SenderInv(c.sender) && AllSpeak(c)
    ensures AllSpeak(FetchSegments(c))
  {
    var ps := StampAll(c.sender.out, c.receiver);
    StampSpeaks(c.sender.out, c.receiver);
    forall i | 0 <= i < |ps| ensures SpeaksFor(ps[i], c.receiver) { assert Sent(c.sender, c.sender.out[i]); }
    assert forall p | p in ps :: SpeaksFor(p, c.receiver);
  }

  lemma {:induction false} AnswerSpeaks(c: Connection, seg: TCPSegment)
    requires SenderInv(c.sender) && c.out == [] && c.active && !seg.header.rst
    ensures AllSpeak(ReceiveSegment(c, seg))
  {
    ReceiveShape(c, seg);
    var c1 := TryCleanShutdown(Digest(c, seg));
    TryCleanFrame(Digest(c, seg));
    if seg.header.ack { AckKeeps(c.sender, seg.header.ackno, seg.header.win); }
    FillKeeps(c1.sender);
    SendEmptyKeeps(FillWindow(c1.sender));
    FetchSpeaks(Reply(c1, seg));
  }

  /** Whatever is called or arrives: every packet that goes out then, unless it is a reset, acknowledges exactly what
      the endpoint has assembled by then and offers exactly the room it has left. */
  lemma {:induction false} EveryCallSpeaks(c: Connection, act: Action)
    requires SenderInv(c.sender) && c.out == []
    ensures AllSpeak(Perform(c, act))
  {
    match act
    case Connect => FillKeeps(c.sender); FetchSpeaks(c.(sender := FillWindow(c.sender)));
    case WriteOut(data) =>
      var s := WriteData(c.sender, data);
      WriteKeeps(c.sender, data);
      FillKeeps(s);
      FetchSpeaks(c.(sender := FillWindow(s)));
    case EndOut =>
      var s := EndData(c.sender);
      EndKeeps(c.sender);
      FillKeeps(s);
      FetchSpeaks(c.(sender := FillWindow(s)));
    case TickBy(ms) => TickSpeaks(c, ms);
    case Receive(p) => if c.active && !p.seg.header.rst { AnswerSpeaks(c, p.seg); }
    case _ =>
  }

  lemma {:induction false} TickSpeaks(c: Connection, ms: nat)
    requires SenderInv(c.sender) && c.out == []
    ensures AllSpeak(TickConnection(c, ms))
  {
    var s := SenderModel.Tick(c.sender, ms);
    TickKeeps(c.sender, ms);
    if s.retransmissions <= MAX_RETX_ATTEMPTS {
      var c1 := c.(idle := ToInt32(c.idle + ms), sender := s);
      FetchSpeaks(c1);
      TryCleanFrame(FetchSegments(c1));
    }
  }

  // ---------------------------------------------------------------- nothing is left behind

  /** Nothing stays queued, and the window is used. */
  predicate Drained(c: Connection) { c.sender.out == [] && c.sender.phase != Closed && WindowUsed(c.sender) }

  lemma {:induction false} SendDrains(c: Connection)
    ensures Drained(SendSegments(c))
  {
    FillIsMaximal(c.sender);
    FillFrame(c.sender);
  }

  lemma {:induction false} ReceiveDrains(c: Connection, seg: TCPSegment)
    requires c.active && !seg.header.rst && !Digest(c, seg).receiver.inListen
    ensures Drained(ReceiveSegment(c, seg))
  {
    ReceiveShape(c, seg);
    AnsweredSender(c, seg);
    FillIsMaximal(Digest(c, seg).sender);
    FillFrame(Digest(c, seg).sender);
  }

  /** After connecting, writing, ending and receiving, all that may be sent has been handed over. */
  lemma {:induction false} CallsDrain(c: Connection, act: Action)
    requires act.Connect? || act.WriteOut? || act.EndOut?
             || (act.Receive? && c.active && !act.p.seg.header.rst && !Digest(c, act.p.seg).receiver.inListen)
    ensures Drained(Perform(c, act))
  {
    match act
    case Connect => SendDrains(c);
    case WriteOut(data) => SendDrains(c.(sender := WriteData(c.sender, data)));
    case EndOut => SendDrains(c.(sender := EndData(c.sender)));
    case Receive(p) => ReceiveDrains(c, p.seg);
  }

  /** Before a SYN nothing is assembled and nothing answered. */
  lemma {:induction false} ListenIsSilent(c: Connection, seg: TCPSegment)
    requires c.active && c.receiver.inListen && !seg.header.syn && !seg.header.rst && !Output(c.receiver).error
    ensures var c' := ReceiveSegment(c, seg); c'.receiver == c.receiver && c'.out == c.out && c'.active
  {
  }

  // ---------------------------------------------------------------- whose call changes what

  function Accepted(c: Connection, act: Action): seq<Byte> {
    if act.WriteOut? then act.data[..WriteSize(c.sender.stream, act.data)] else []
  }

  function Taken(c: Connection, act: Action): nat {
    if act.ReadIn? then Min(act.len, |Unread(Output(c.receiver))|) else 0
  }

  /** How the owner's ends of the two streams move. */
  predicate EndsMove(c: Connection, c': Connection, added: seq<Byte>, ends: bool, taken: nat) {
    && c'.sender.stream.history == c.sender.stream.history + added
    && (c'.sender.stream.ended <==> c.sender.stream.ended || ends)
    && Output(c'.receiver).popped == Output(c.receiver).popped + taken
  }

  /** Only the owner's calls move them: a write adds what fits, an end ends, a read takes the oldest bytes, and nothing
      else does. */
  lemma {:induction false} OwnersEnds(c: Connection, act: Action)
    requires SenderInv(c.sender)
    ensures EndsMove(c, Perform(c, act), Accepted(c, act), act.EndOut?, Taken(c, act))
  {
    match act
    case Connect => SendEnds(c);
    case WriteOut(data) => WriteEnds(c, data);
    case EndOut => EndEnds(c);
    case ReadIn(len) => ReadEnds(c, len);
    case TickBy(ms) => TickEnds(c, ms);
    case Destroy => DestroyEnds(c);
    case Receive(p) => AnswerEnds(c, p.seg);
  }

  lemma {:induction false} WriteEnds(c: Connection, data: seq<Byte>)
    ensures EndsMove(c, WriteConnection(c, data), Accepted(c, WriteOut(data)), false, 0)
  {
    SendEnds(c.(sender := WriteData(c.sender, data)));
  }

  lemma {:induction false} EndEnds(c: Connection)
    ensures EndsMove(c, EndConnection(c), [], true, 0)
  {
    SendEnds(c.(sender := EndData(c.sender)));
  }

  lemma {:induction false} ReadEnds(c: Connection, len: nat)
    ensures EndsMove(c, ReadConnection(c, len), [], false, Taken(c, ReadIn(len)))
  {
  }

  lemma {:induction false} DestroyEnds(c: Connection)
    ensures EndsMove(c, DestroyConnection(c), [], false, 0)
  {
  }

  lemma {:induction false} SendEnds(c: Connection)
    ensures EndsMove(c, SendSegments(c), [], false, 0)
  {
    FillFrame(c.sender);
  }

  lemma {:induction false} TickEnds(c: Connection, ms: nat)
    ensures EndsMove(c, TickConnection(c, ms), [], false, 0)
  {
    if c.active { TimeoutEnds(c, ms, ToInt32(c.idle + ms)); }
  }

  lemma {:induction false} TimeoutEnds(c: Connection, ms: nat, idle: int)
    ensures EndsMove(c, Timeout(c, idle, ms), [], false, 0)
  {
    var s := SenderModel.Tick(c.sender, ms);
    if s.retransmissions <= MAX_RETX_ATTEMPTS { TryCleanFrame(FetchSegments(c.(idle := idle, sender := s))); }
  }

  lemma {:induction false} AnswerEnds(c: Connection, seg: TCPSegment)
    requires SenderInv(c.sender)
    ensures EndsMove(c, ReceiveSegment(c, seg), [], false, 0)
  {
    ReceiveShape(c, seg);
    if c.active && !seg.header.rst {
      if seg.header.ack { AckEnds(c.sender, seg.header.ackno, seg.header.win); }
      AnsweredSender(c, seg);
      FillFrame(Digest(c, seg).sender);
      ArrivalFrame(c.receiver, seg);
    }
  }

  lemma {:induction false} AckEnds(s: Sender, ackno: U32, win: U16)
    requires SenderInv(s)
    ensures var s' := AckReceived(s, ackno, win);
            s'.stream.history == s.stream.history && s'.stream.ended == s.stream.ended
  {
    if Accepts(s, ackno) {
      TakeAckKeeps(s, ackno, win);
      FillFrame(TakeAck(s, ackno, win));
    }
  }

  // ---------------------------------------------------------------- the window is used

  /** In every reachable state: an acknowledgment that is accepted sets the window it carries, and as many numbers
      as that allows are in flight then, unless there is nothing left to send. */
  lemma {:induction false} WindowIsUsed(ca: Config, cb: Config, moves: seq<Move>, q: Packet)
    requires Legal(NewSystem(ca, cb), moves)
    requires var y := Exec(NewSystem(ca, cb), moves);
             && y.a.active && MoveEnabled(y, Move(true, Receive(q))) && !q.seg.header.rst && q.seg.header.ack
             && Lowest(y.a.sender) <= q.ackno
    ensures var y := Exec(NewSystem(ca, cb), moves);
            var s := MoveTo(y, Move(true, Receive(q))).a.sender;
            && s.window == q.seg.header.win
            && (s.phase == SynAcked ==>
                  s.inFlight >= Max(1, q.seg.header.win) || (Unread(s.stream) == [] && !s.stream.ended))
  {
    NewSystemInv(ca, cb);
    ExecKeeps(NewSystem(ca, cb), moves);
    var y := Exec(NewSystem(ca, cb), moves);
    AckIsTaken(y, q);
  }

  lemma {:induction false} AckIsTaken(y: System, q: Packet)
    requires SysInv(y) && y.a.active && Enabled(y, Receive(q)) && !q.seg.header.rst && q.seg.header.ack
    requires Lowest(y.a.sender) <= q.ackno
    ensures var s := ReceiveSegment(y.a, q.seg).sender; s.window == q.seg.header.win && WindowUsed(s)
  {
    var fa, fb := y.fromA + Elems(y.a.out), y.fromB + Elems(y.b.out);
    LinkAck(y.a.sender, y.b.receiver, fa, fb, q);
    assert AckOk(y.a.sender, y.b.receiver, q);
    AckBetween(y.a.sender, y.b.receiver, fa, fb);
    TakenWindow(y.a, q.seg);
  }

  lemma {:induction false} TakenWindow(c: Connection, seg: TCPSegment)
    requires SenderInv(c.sender) && c.active && !seg.header.rst && seg.header.ack
    requires Accepts(c.sender, seg.header.ackno)
    ensures var s := ReceiveSegment(c, seg).sender; s.window == seg.header.win && WindowUsed(s)
  {
    AckSetsWindow(c.sender, seg.header.ackno, seg.header.win);
    AckIsUsed(c.sender, seg.header.ackno, seg.header.win);
    var s := Digest(c, seg).sender;
    ReceiveShape(c, seg);
    AnsweredSender(c, seg);
    FillKeepsWindow(s);
    FillIsMaximal(s);
  }

  lemma {:induction false} AckSetsWindow(s: Sender, ackno: U32, win: U16)
    requires SenderInv(s) && Accepts(s, ackno)
    ensures AckReceived(s, ackno, win).window == win
  {
    TakeAckKeeps(s, ackno, win);
    FillKeepsWindow(TakeAck(s, ackno, win));
  }

  lemma {:induction false} FillKeepsWindow(s: Sender)
    ensures FillWindow(s).window == s.window
  {
    if s.phase != Closed { FillLoopExtends(s, EffectiveWindow(s)); }
  }

  /** The window an endpoint offers in any call is the one its peer works with once it accepts that packet, however
      late: the room that was left when the packet was sent. */
  lemma {:induction false} WindowTravels(ca: Config, cb: Config, early: seq<Move>, act: Action, late: seq<Move>,
                                         q: Packet)
    requires Legal(NewSystem(ca, cb), early + [Move(false, act)] + late)
    requires var y := Exec(NewSystem(ca, cb), early); q in Perform(y.b, act).out
    requires var z := Exec(NewSystem(ca, cb), early + [Move(false, act)] + late);
             && z.a.active && MoveEnabled(z, Move(true, Receive(q))) && !q.seg.header.rst && q.seg.header.ack
             && Lowest(z.a.sender) <= q.ackno
    ensures var r := Perform(Exec(NewSystem(ca, cb), early).b, act).receiver;
            var z := Exec(NewSystem(ca, cb), early + [Move(false, act)] + late);
            MoveTo(z, Move(true, Receive(q))).a.sender.window
            == Min(0xFFFF, Output(r).capacity - |Unread(Output(r))|)
  {
    var x := NewSystem(ca, cb);
    ExecConcat(x, early + [Move(false, act)], late);
    ExecConcat(x, early, [Move(false, act)]);
    NewSystemInv(ca, cb);
    ExecKeeps(x, early);
    ExecFlushes(x, early);
    EveryCallSpeaks(Exec(x, early).b, act);
    WindowIsUsed(ca, cb, early + [Move(false, act)] + late, q);
  }

  /** Between moves nothing is queued. */
  lemma {:induction false} ExecFlushes(y: System, moves: seq<Move>)
    requires y.a.out == [] && y.b.out == []
    ensures var z := Exec(y, moves); z.a.out == [] && z.b.out == []
    decreases |moves|
  {
    if moves != [] { ExecFlushes(MoveTo(y, moves[0]), moves[1..]); }
  }

  // ---------------------------------------------------------------- answers

  lemma {:induction false} TilesConcat(p: seq<Numbered>, q: seq<Numbered>, from: int, mid: int, to: int)
    requires Tiles(p, from, mid) && Tiles(q, mid, to)
    ensures Tiles(p + q, from, to)
    decreases |p|
  {
    if p == [] {
      assert p + q == q;
    } else {
      assert (p + q)[1..] == p[1..] + q;
      TilesConcat(p[1..], q, from + SeqLength(p[0].seg), mid, to);
    }
  }

  lemma {:induction false} FillTiles(s: Sender, from: int)
    requires Tiles(s.out, from, s.next) && SenderInv(s)
    ensures Tiles(FillWindow(s).out, from, FillWindow(s).next)
  {
    if s.phase == Closed {
      TilesSnoc(s.out, from, FillWindow(s).out[|s.out|]);
    } else {
      FillLoopExtends(s, EffectiveWindow(s));
      TilesConcat(s.out, FillSent(s, EffectiveWindow(s)), from, s.next, FillWindow(s).next);
    }
  }

  lemma {:induction false} DigestTiles(c: Connection, seg: TCPSegment)
    requires SenderInv(c.sender) && c.sender.out == []
    ensures var s := Digest(c, seg).sender; SenderInv(s) && Tiles(s.out, c.sender.next, s.next)
  {
    if seg.header.ack {
      AckKeeps(c.sender, seg.header.ackno, seg.header.win);
      if Accepts(c.sender, seg.header.ackno) {
        TakeAckKeeps(c.sender, seg.header.ackno, seg.header.win);
        FillTiles(TakeAck(c.sender, seg.header.ackno, seg.header.win), c.sender.next);
      }
    }
  }

  /** The segments that a delivery lets out. */
  function LetsOut(c: Connection, seg: TCPSegment): seq<Numbered> { FillWindow(Digest(c, seg).sender).out }

  /** What comes out: those segments, and one empty one after them if it is owed. */
  predicate ComesBack(out: seq<Packet>, sent: seq<Numbered>, owed: bool, next: nat) {
    && |out| == |sent| + (if owed then 1 else 0)
    && (forall i | 0 <= i < |sent| :: Carries(out[i], sent[i]))
    && (owed ==> SeqLength(out[|sent|].seg) == 0 && out[|sent|].seqno == next)
  }

  /** A delivered segment brings back the new numbers it lets out, each once and in order, and one empty segment
      exactly if it occupies numbers and nothing else would acknowledge them, or is a probe. */
  lemma {:induction false} AnswersOnce(c: Connection, seg: TCPSegment)
    requires SenderInv(c.sender) && c.active && c.out == [] && c.sender.out == [] && !seg.header.rst
    requires !SegmentReceived(c.receiver, seg).inListen
    ensures var c', sent := ReceiveSegment(c, seg), LetsOut(c, seg);
            && Tiles(sent, c.sender.next, c'.sender.next)
            && ComesBack(c'.out, sent, (SeqLength(seg) > 0 && sent == []) || IsProbe(c'.receiver, seg), c'.sender.next)
  {
    DigestTiles(c, seg);
    FillTiles(Digest(c, seg).sender, c.sender.next);
    ReceiveShape(c, seg);
    AnsweredSender(c, seg);
    AnswerComesBack(c, seg);
  }

  lemma {:induction false} AnswerComesBack(c: Connection, seg: TCPSegment)
    requires SenderInv(Digest(c, seg).sender) && c.out == []
    ensures var sent, r := LetsOut(c, seg), SegmentReceived(c.receiver, seg);
            ComesBack(Answered(c, seg).out, sent, (SeqLength(seg) > 0 && sent == []) || IsProbe(r, seg),
                      FillWindow(Digest(c, seg).sender).next)
  {
    var d := TryCleanShutdown(Digest(c, seg));
    TryCleanFrame(Digest(c, seg));
    ProbeIsKeepAlive(d.receiver, seg);
    var s := FillWindow(d.sender);
    FillKeeps(d.sender);
    SendEmptyKeeps(s);
    var e := Reply(d, seg);
    HandsBack(e, s.out, EmptyNumbered(s), e.sender.out != s.out);
  }

  lemma {:induction false} HandsBack(e: Connection, sent: seq<Numbered>, n: Numbered, owed: bool)
    requires SenderInv(e.sender) && e.out == [] && SeqLength(n.seg) == 0
    requires e.sender.out == if owed then sent + [n] else sent
    ensures ComesBack(FetchSegments(e).out, sent, owed, n.seqno)
  {
    FetchHandsOver(e);
    var out := FetchSegments(e).out;
    assert out[|e.out|..] == out;
    assert forall i | 0 <= i < |out| :: Carries(out[i], e.sender.out[i]);
  }

  // ---------------------------------------------------------------- probes

  /** An empty segment one below what we acknowledge asks whether we are there. */
  predicate IsProbe(r: Receiver, seg: TCPSegment) {
    !r.inListen && SeqLength(seg) == 0 && seg.header.seqno == Wrap(AbsAck(r) - 1, r.isn)
  }

  lemma {:induction false} ProbeIsKeepAlive(r: Receiver, seg: TCPSegment)
    ensures IsProbe(r, seg) <==> KeepAlive(r, seg)
  {
    WrapPred(AbsAck(r), r.isn);
  }

  /** Such a segment is answered, and the answer is our acknowledgment number. */
  lemma {:induction false} ProbeIsAnswered(c: Connection, seg: TCPSegment)
    requires SenderInv(c.sender) && Sound(c.receiver.reasm) && c.active && !seg.header.rst
    requires IsProbe(c.receiver, seg)
    ensures var c' := ReceiveSegment(c, seg);
            && |c.out| < |c'.out|
            && SpeaksFor(c'.out[|c'.out| - 1], c'.receiver)
            && Some(c'.out[|c'.out| - 1].seg.header.ackno) == Ackno(c.receiver)
  {
    ProbeIsKeepAlive(c.receiver, seg);
    ProbeStays(c.receiver, seg);
    if seg.header.ack { AckKeeps(c.sender, seg.header.ackno, seg.header.win); }
    ProbeReply(c, seg);
    ReceiveShape(c, seg);
  }

  lemma {:induction false} ProbeStays(r: Receiver, seg: TCPSegment)
    requires Sound(r.reasm) && KeepAlive(r, seg)
    ensures var r' := SegmentReceived(r, seg);
            && Ackno(r') == Ackno(r) && KeepAlive(r', seg) && SummarizeReceiver(r') != Listen
            && forall p | SpeaksFor(p, r') :: Some(p.seg.header.ackno) == Ackno(r)
  {
    EmptyKeepsAckno(r, seg);
  }

  lemma {:induction false} ProbeReply(c: Connection, seg: TCPSegment)
    requires SenderInv(Digest(c, seg).sender) && KeepAlive(SegmentReceived(c.receiver, seg), seg)
    ensures var e := Answered(c, seg);
            |c.out| < |e.out| && SpeaksFor(e.out[|e.out| - 1], SegmentReceived(c.receiver, seg))
  {
    var d := TryCleanShutdown(Digest(c, seg));
    TryCleanFrame(Digest(c, seg));
    FillKeeps(d.sender);
    SendEmptyKeeps(FillWindow(d.sender));
    LastSpeaks(d.(sender := SendEmpty(FillWindow(d.sender))));
  }

  lemma {:induction false} LastSpeaks(e: Connection)
    requires SenderInv(e.sender) && e.sender.out != []
    ensures var e' := FetchSegments(e); |e.out| < |e'.out| && SpeaksFor(e'.out[|e'.out| - 1], e.receiver)
  {
    FetchHandsOver(e);
    var added := FetchSegments(e).out[|e.out|..];
    assert FetchSegments(e).out[|FetchSegments(e).out| - 1] == added[|added| - 1];
  }

  // ---------------------------------------------------------------- failing

  /** A reset from the peer, too many retransmissions, or the owner letting go of an open connection. */
  predicate Fatal(c: Connection, act: Action) {
    match act
    case Receive(p) => p.seg.header.rst
    case TickBy(ms) => SenderModel.Tick(c.sender, ms).retransmissions > MAX_RETX_ATTEMPTS
    case Destroy => true
    case _ => false
  }

  /** A reset, numbered and acknowledging like any empty segment, with the window cut to 16 bits. */
  predicate IsReset(p: Packet, c: Connection) {
    var h := p.seg.header;
    && h.rst && p.seqno == c.sender.next && h.seqno == Wrap(c.sender.next, c.sender.isn) && SeqLength(p.seg) == 0
    && (h.ack <==> !c.receiver.inListen)
    && (h.ack ==> p.ackno == AbsAck(c.receiver) && Some(h.ackno) == Ackno(c.receiver)
                  && h.win == WindowSize(c.receiver) % 0x1_0000)
  }

  lemma {:induction false} AbortResets(c: Connection)
    requires c.sender.out == []
    ensures var c' := Abort(c);
            && !c'.active && Failed(c') && Output(c'.receiver).error
            && |c'.out| == |c.out| + 1 && c.out <= c'.out && IsReset(c'.out[|c.out|], c)
  {
  }

  /** How an open connection comes out of a call: whole, or closed with both its streams in error and, if it is for us
      to tell the peer, exactly one reset sent. */
  predicate ComesOut(c: Connection, c': Connection, fatal: bool, tell: bool) {
    && (Failed(c') <==> fatal) && (Output(c'.receiver).error <==> fatal)
    && (fatal ==> !c'.active && !c'.linger && if tell then |c'.out| == 1 && IsReset(c'.out[0], c) else c'.out == [])
  }

  /** An open connection fails exactly so, and tells the peer unless the peer did it. */
  lemma {:induction false} FailsExactly(c: Connection, act: Action)
    requires SenderInv(c.sender) && LocalInv(c) && c.active && c.out == [] && c.sender.out == []
    ensures ComesOut(c, Perform(c, act), Fatal(c, act), !act.Receive?)
  {
    match act
    case Connect => SendFails(c, c.sender);
    case WriteOut(data) => SendFails(c, WriteData(c.sender, data));
    case EndOut => SendFails(c, EndData(c.sender));
    case ReadIn(len) =>
    case TickBy(ms) => TickFails(c, ms);
    case Destroy => AbortResets(c);
    case Receive(p) => AnswerFails(c, p.seg);
  }

  lemma {:induction false} SendFails(c: Connection, s: Sender)
    requires !s.stream.error && !Output(c.receiver).error
    ensures ComesOut(c, SendSegments(c.(sender := s)), false, true)
  {
    FillFrame(s);
  }

  lemma {:induction false} TickFails(c: Connection, ms: nat)
    requires SenderInv(c.sender) && LocalInv(c) && c.active && c.out == [] && c.sender.out == []
    ensures ComesOut(c, TickConnection(c, ms), Fatal(c, TickBy(ms)), true)
  {
    TimeoutFails(c, ms, ToInt32(c.idle + ms));
  }

  lemma {:induction false} TimeoutFails(c: Connection, ms: nat, idle: int)
    requires SenderInv(c.sender) && LocalInv(c) && c.active && c.out == [] && c.sender.out == []
    ensures ComesOut(c, Timeout(c, idle, ms), Fatal(c, TickBy(ms)), true)
  {
    var s := SenderModel.Tick(c.sender, ms);
    if Fatal(c, TickBy(ms)) {
      AbortResets(c.(idle := idle, sender := s.(out := [])));
    } else {
      TryCleanFrame(FetchSegments(c.(idle := idle, sender := s)));
    }
  }

  lemma {:induction false} AnswerFails(c: Connection, seg: TCPSegment)
    requires SenderInv(c.sender) && LocalInv(c) && c.active && c.out == []
    ensures ComesOut(c, ReceiveSegment(c, seg), seg.header.rst, false)
  {
    ReceiveShape(c, seg);
    if !seg.header.rst {
      if seg.header.ack { AckFrame(c.sender, seg.header.ackno, seg.header.win); }
      AnsweredSender(c, seg);
      FillFrame(Digest(c, seg).sender);
      ArrivalFrame(c.receiver, seg);
    }
  }

  lemma {:induction false} ArrivalFrame(r: Receiver, seg: TCPSegment)
    ensures var o, o' := Output(r), Output(SegmentReceived(r, seg)); o'.error == o.error && o'.popped == o.popped
  {
    var r1 := if r.inListen then r.(inListen := false, isn := seg.header.seqno) else r;
    var absSeq := Unwrap64(seg.header.seqno, r1.isn, |Output(r1).history|);
    Push64Grows(r1.reasm, seg.payload, StreamIndex(absSeq, seg.header.syn), seg.header.fin);
  }
}
