/** How long a connection keeps retransmitting before it gives up. */
module GivingUp {
  import opened Basics
  import opened WrappingIntegers
  import opened Segments
  import opened ReceiverModel
  import opened SenderModel
  import opened SenderRuns
  import opened ConnectionModel
  import opened StreamModel
  import opened ReassemblerModel
  import opened Duplex

  function Live(c: Connection, acts: seq<Action>): Connection
    decreases |acts|
  {
    if acts == [] then c else Live(Perform(c, acts[0]), acts[1..])
  }

  predicate TimesOut(c: Connection, act: Action) {
    act.TickBy? && c.active && Expires(c.sender, act.ms)
  }

  /** How often the timer expires in a life. */
  function Expiries(c: Connection, acts: seq<Action>): nat
    decreases |acts|
  {
    if acts == [] then 0
    else (if TimesOut(c, acts[0]) then 1 else 0) + Expiries(Perform(c, acts[0]), acts[1..])
  }

  predicate AcceptedBy(c: Connection, act: Action) {
    && act.Receive? && c.active
    && !act.p.seg.header.rst && act.p.seg.header.ack
    && Accepts(c.sender, act.p.seg.header.ackno)
  }

  /** No acknowledgment that arrives is accepted. */
  predicate Unacknowledged(c: Connection, acts: seq<Action>)
    decreases |acts|
  {
    acts == [] || (!AcceptedBy(c, acts[0]) && Unacknowledged(Perform(c, acts[0]), acts[1..]))
  }

  /** Only an accepted acknowledgment or an expiry touches the timeout and the count. */
  lemma {:induction false} TimerFrame(c: Connection, act: Action)
    requires !AcceptedBy(c, act)
    ensures var s, s' := c.sender, Perform(c, act).sender;
            && s'.initialRto == s.initialRto
            && s'.retransmissions == s.retransmissions + (if TimesOut(c, act) then 1 else 0)
            && (s'.rto == s.rto || (TimesOut(c, act) && s'.rto == (s.rto * 2) % TWO32))
  {
    match act
    case Connect => FillKeepsTimer(c.sender);
    case WriteOut(data) => FillKeepsTimer(WriteData(c.sender, data));
    case EndOut => FillKeepsTimer(EndData(c.sender));
    case Receive(p) => ReceiveTimer(c, p.seg);
    case TickBy(ms) => TickTimer(c, ms);
    case _ =>
  }

  lemma {:induction false} ReceiveTimer(c: Connection, seg: TCPSegment)
    requires seg.header.ack && c.active && !seg.header.rst ==> !Accepts(c.sender, seg.header.ackno)
    ensures var s, s' := c.sender, ReceiveSegment(c, seg).sender;
            s'.initialRto == s.initialRto && s'.retransmissions == s.retransmissions && s'.rto == s.rto
  {
    ReceiveShape(c, seg);
    FillKeepsTimer(c.sender);
    TryCleanFrame(Digest(c, seg));
  }

  lemma {:induction false} TickTimer(c: Connection, ms: nat)
    ensures var s, s' := c.sender, TickConnection(c, ms).sender;
            && s'.initialRto == s.initialRto
            && s'.retransmissions == s.retransmissions + (if TimesOut(c, TickBy(ms)) then 1 else 0)
            && (s'.rto == s.rto || (TimesOut(c, TickBy(ms)) && s'.rto == (s.rto * 2) % TWO32))
  {
  }

  /** The count exceeds the limit only in the tick that closes the connection. */
  lemma {:induction false} LimitKept(c: Connection, act: Action)
    requires c.active ==> c.sender.retransmissions <= MAX_RETX_ATTEMPTS
    ensures var c' := Perform(c, act); c'.active ==> c'.sender.retransmissions <= MAX_RETX_ATTEMPTS
  {
    match act
    case Connect => FillKeepsTimer(c.sender);
    case WriteOut(data) => FillKeepsTimer(WriteData(c.sender, data));
    case EndOut => FillKeepsTimer(EndData(c.sender));
    case Receive(p) => if c.active && !p.seg.header.rst { ReceiveLimit(c, p.seg); }
    case _ =>
  }

  lemma {:induction false} PopCount(s: Sender, ack: nat)
    ensures PopAcked(s, ack).retransmissions == s.retransmissions
    decreases |s.outstanding|
  {
    if s.outstanding != [] && s.outstanding[0].End() <= ack {
      PopCount(s.(outstanding := s.outstanding[1..],
                  inFlight := s.inFlight - SeqLength(s.outstanding[0].seg),
                  elapsed := 0, rto := s.initialRto), ack);
    }
  }

  lemma {:induction false} DigestCount(c: Connection, seg: TCPSegment)
    ensures Digest(c, seg).sender.retransmissions <= c.sender.retransmissions
  {
    if seg.header.ack && Accepts(c.sender, seg.header.ackno) {
      PopCount(c.sender.(window := seg.header.win, retransmissions := 0), ReceivedAck(c.sender, seg.header.ackno));
      FillKeepsTimer(TakeAck(c.sender, seg.header.ackno, seg.header.win));
    }
  }

  lemma {:induction false} ReceiveLimit(c: Connection, seg: TCPSegment)
    requires c.sender.retransmissions <= MAX_RETX_ATTEMPTS
    ensures ReceiveSegment(c, seg).sender.retransmissions <= MAX_RETX_ATTEMPTS
  {
    ReceiveShape(c, seg);
    DigestCount(c, seg);
    FillKeepsTimer(Digest(c, seg).sender);
    TryCleanFrame(Digest(c, seg));
  }

  /** The count exceeds the limit by at most one, and then the connection is closed. */
  predicate CountBounded(c: Connection) {
    c.sender.retransmissions <= (if c.active then MAX_RETX_ATTEMPTS else MAX_RETX_ATTEMPTS + 1)
  }

  lemma {:induction false} CountKept(c: Connection, act: Action)
    requires CountBounded(c)
    ensures CountBounded(Perform(c, act))
  {
    LimitKept(c, act);
    if AcceptedBy(c, act) { ReceiveLimit(c, act.p.seg); } else { TimerFrame(c, act); }
  }

  lemma {:induction false} CountLives(c: Connection, acts: seq<Action>)
    requires CountBounded(c)
    ensures CountBounded(Live(c, acts))
    decreases |acts|
  {
    if acts != [] {
      CountKept(c, acts[0]);
      CountLives(Perform(c, acts[0]), acts[1..]);
    }
  }

  /** At every moment of every life: an open connection has at most eight retransmissions counted. */
  lemma {:induction false} LimitAlways(cfg: Config, acts: seq<Action>)
    ensures var c := Live(NewEndpoint(cfg), acts); c.active ==> c.sender.retransmissions <= MAX_RETX_ATTEMPTS
  {
    CountLives(NewEndpoint(cfg), acts);
  }

  /** From any moment of any life, with whatever timeout it has got to: as long as no acknowledgment is accepted
      every expiry is counted, and the connection is closed when the count reaches nine. */
  lemma {:induction false} GivesUpOnNinthExpiry(cfg: Config, before: seq<Action>, acts: seq<Action>)
    requires Unacknowledged(Live(NewEndpoint(cfg), before), acts)
    ensures var c := Live(NewEndpoint(cfg), before);
            var c' := Live(c, acts);
            && c'.sender.retransmissions == c.sender.retransmissions + Expiries(c, acts) <= 9
            && (c.sender.retransmissions + Expiries(c, acts) == 9 ==> !c'.active)
  {
    CountLives(NewEndpoint(cfg), before);
    EveryExpiryCounts(Live(NewEndpoint(cfg), before), acts);
  }

  lemma {:induction false} EveryExpiryCounts(c: Connection, acts: seq<Action>)
    requires Unacknowledged(c, acts) && CountBounded(c)
    ensures CountBounded(Live(c, acts))
    ensures Live(c, acts).sender.retransmissions == c.sender.retransmissions + Expiries(c, acts)
    decreases |acts|
  {
    if acts != [] {
      TimerFrame(c, acts[0]);
      CountKept(c, acts[0]);
      EveryExpiryCounts(Perform(c, acts[0]), acts[1..]);
    }
  }

  /** If the timeout has been doubled at most once for each expiry counted, as it has in a new connection and
      whenever a segment has just been popped, it stays within 512 times the initial one until the next
      acknowledgment is accepted. */
  lemma {:induction false} TimeoutWithin512(c: Connection, acts: seq<Action>, k: nat)
    requires Unacknowledged(c, acts) && CountBounded(c)
    requires k <= c.sender.retransmissions && c.sender.rto == c.sender.initialRto * Pow2(k)
    ensures Live(c, acts).sender.rto <= 512 * c.sender.initialRto
    decreases |acts|
  {
    DoublingBound(c.sender.initialRto, k);
    if acts != [] {
      var c1 := Perform(c, acts[0]);
      TimerFrame(c, acts[0]);
      CountKept(c, acts[0]);
      if k < 9 { DoublingBound(c.sender.initialRto, k + 1); }
      TimeoutWithin512(c1, acts[1..], if c1.sender.rto == c.sender.rto then k else k + 1);
    }
  }

  /** Nine doublings of a 16-bit number neither overflow nor exceed 512 times it. */
  lemma {:induction false} DoublingBound(rto: U16, k: nat)
    requires k <= 9
    ensures rto * Pow2(k) <= 512 * rto
    ensures k > 0 ==> (rto * Pow2(k - 1) * 2) % TWO32 == rto * Pow2(k)
  {
    Pow2Values();
    Pow2Monotone(k, 9);
    MulMonotone(rto, Pow2(k), 512);
    if k > 0 {
      Regroup(rto, 2, Pow2(k - 1), 0);
      var doubled := rto * Pow2(k);
      assert rto * Pow2(k - 1) * 2 == doubled;
    }
  }

  // ---------------------------------------------------------------- when an acknowledgment is repeated

  /** The packets of a handshake. */
  function SynOf(cfg: Config): Packet {
    Packet(0, TCPSegment(DEFAULT_HEADER.(seqno := Wrap(0, cfg.isn), syn := true), []), 0)
  }

  function SynAckOf(ca: Config, cb: Config): Packet {
    Packet(0,
           TCPSegment(DEFAULT_HEADER.(seqno := Wrap(0, cb.isn), syn := true,
                                      ack := true, ackno := Wrap(1, ca.isn), win := Min(0xFFFF, cb.recvCapacity)), []),
           1)
  }

  function Handshake(ca: Config, cb: Config): seq<Move> {
    [Move(true, Connect), Move(false, Receive(SynOf(ca))), Move(true, Receive(SynAckOf(ca, cb)))]
  }

  function Expire(n: nat): seq<Move> { if n == 0 then [] else [Move(true, TickBy(TWO32 - 1))] + Expire(n - 1) }

  /** `n` expiries and then the last acknowledgment once more, `m` times over. */
  function Rounds(again: Move, n: nat, m: nat): seq<Move> {
    if m == 0 then [] else Expire(n) + [again] + Rounds(again, n, m - 1)
  }

  /** A byte is written and never acknowledged. Each time `n` expiries have passed, the network repeats the last
      acknowledgment it has delivered. */
  function RepeatedAckRun(ca: Config, cb: Config, n: nat, m: nat): seq<Move> {
    Handshake(ca, cb) + [Move(true, WriteOut([0]))] + Rounds(Move(true, Receive(SynAckOf(ca, cb))), n, m)
  }

  /** Connected, and nothing heard but the handshake. */
  ghost predicate Quiet(c: Connection, ca: Config, cb: Config) {
    && c.active && !Output(c.receiver).error
    && c.receiver == Receiver(false, Wrap(0, cb.isn), NewReassembler(ca.recvCapacity))
    && c.sender.phase == SynAcked && c.sender.alarm && c.sender.isn == ca.isn && c.sender.window > 0
    && c.sender.initialRto == ca.rtTimeout && c.sender.elapsed == 0 && c.sender.out == []
    && !c.sender.stream.ended && !c.sender.stream.error && c.sender.stream.capacity == ca.sendCapacity
  }

  /** One byte out for which nothing has come back, `r` retransmissions counted and the timeout at `rto`. */
  ghost predicate Waiting(c: Connection, ca: Config, cb: Config, r: nat, rto: U32) {
    var s := c.sender;
    && Quiet(c, ca, cb)
    && s.next == 2 && s.inFlight == 1 && s.stream.popped == 1 == |s.stream.history|
    && |s.outstanding| == 1 && s.outstanding[0].End() == 2
    && s.retransmissions == r && s.rto == rto
  }

  lemma {:induction false} ExpireWaiting(c: Connection, ca: Config, cb: Config, r: nat, rto: U32)
    requires Waiting(c, ca, cb, r, rto) && r < 8
    ensures Waiting(Perform(c, TickBy(TWO32 - 1)), ca, cb, r + 1, (rto * 2) % TWO32)
  {
    assert Expires(c.sender, TWO32 - 1);
  }

  lemma {:induction false} RepeatWaiting(c: Connection, ca: Config, cb: Config, r: nat, rto: U32)
    requires Waiting(c, ca, cb, r, rto) && cb.recvCapacity > 0
    ensures Waiting(Perform(c, Receive(SynAckOf(ca, cb))), ca, cb, 0, rto)
  {
    assert Unwrap64(Wrap(1, ca.isn), ca.isn, 1) == 1 by { Unwrap64Wrap(1, ca.isn, 1); }
    assert Unwrap64(Wrap(0, cb.isn), Wrap(0, cb.isn), 0) == 0;
  }

  lemma {:induction false} ConnectSends(cfg: Config)
    ensures var c := Perform(NewEndpoint(cfg), Connect);
            && c.out == [SynOf(cfg)] && c.active && !Failed(c)
            && c.sender == SendSyn(NewEndpoint(cfg).sender).(out := [])
            && c.receiver == NewEndpoint(cfg).receiver && c.linger
  {
    var c := NewEndpoint(cfg);
    var q := SendSyn(c.sender).out;
    assert q == [Numbered(0, SynOf(cfg).seg)] && q[1..] == [];
    assert StampAll(q, c.receiver) == [Stamp(q[0], c.receiver)] + StampAll([], c.receiver);
    assert c.out + [SynOf(cfg)] == [SynOf(cfg)];
  }

  /** The acknowledgment of a SYN pops it and leaves a window with nothing to fill it. */
  lemma {:induction false} SynIsAcked(s: Sender, ackno: U32, win: U16)
    requires s.phase == SynSent && s.next == 1 == s.inFlight && s.stream.popped == 0 == |s.stream.history|
    requires !s.stream.ended && |s.outstanding| == 1 && s.outstanding[0].End() == 1
    requires SeqLength(s.outstanding[0].seg) == 1 && ReceivedAck(s, ackno) == 1
    ensures AckReceived(s, ackno, win) ==
            s.(window := win, retransmissions := 0, outstanding := [], inFlight := 0, elapsed := 0,
               rto := s.initialRto, phase := SynAcked)
  {
    var s0 := s.(window := win, retransmissions := 0);
    var s1 := s0.(outstanding := [], inFlight := 0, elapsed := 0, rto := s.initialRto);
    assert s.outstanding[1..] == [];
    assert PopAcked(s0, 1) == PopAcked(s1, 1) == s1;
    NothingToFill(s1.(phase := SynAcked));
  }

  lemma {:induction false} NothingToFill(s: Sender)
    requires s.phase == SynAcked && Unread(s.stream) == [] && !s.stream.ended
    ensures FillWindow(s) == s
  {
  }

  lemma {:induction false} SynAnswered(ca: Config, cb: Config)
    ensures SynAckOf(ca, cb) in Perform(NewEndpoint(cb), Receive(SynOf(ca))).out
  {
    var c := NewEndpoint(cb);
    var seg := SynOf(ca).seg;
    assert Unwrap64(Wrap(0, ca.isn), Wrap(0, ca.isn), 0) == 0;
    assert SegmentReceived(c.receiver, seg) == c.receiver.(inListen := false, isn := Wrap(0, ca.isn));
    var s := Answered(c, seg);
    assert s.out == StampAll(SendSyn(c.sender).out, SegmentReceived(c.receiver, seg));
    assert s.out[0] == SynAckOf(ca, cb);
    ReceiveShape(c, seg);
  }

  /** Connected with nothing outstanding. */
  ghost predicate Idle(c: Connection, ca: Config, cb: Config) {
    var s := c.sender;
    && Quiet(c, ca, cb)
    && s.next == 1 && s.inFlight == 0 && s.stream.popped == 0 == |s.stream.history| && s.outstanding == []
    && s.retransmissions == 0 && s.rto == ca.rtTimeout
  }

  lemma {:induction false} SynAckConnects(c: Connection, ca: Config, cb: Config)
    requires c == Perform(NewEndpoint(ca), Connect).(out := []) && cb.recvCapacity > 0
    ensures Idle(Perform(c, Receive(SynAckOf(ca, cb))), ca, cb)
  {
    var seg := SynAckOf(ca, cb).seg;
    ConnectSends(ca);
    assert Unwrap64(Wrap(1, ca.isn), ca.isn, 0) == 1 by { Unwrap64Wrap(1, ca.isn, 0); }
    SynIsAcked(c.sender, seg.header.ackno, seg.header.win);
    NothingToFill(Digest(c, seg).sender);
    assert Unwrap64(Wrap(0, cb.isn), Wrap(0, cb.isn), 0) == 0;
    ReceiveShape(c, seg);
  }

  lemma {:induction false} ByteWaits(c: Connection, ca: Config, cb: Config)
    requires Idle(c, ca, cb) && ca.sendCapacity > 0
    ensures Waiting(Perform(c, WriteOut([0])), ca, cb, 0, ca.rtTimeout)
  {
    var s := WriteData(c.sender, [0]);
    assert s.stream.history == [0];
    var n := NextSegment(s, EffectiveWindow(s));
    assert n.seg.payload == [0];
    var t := Transmit(s, EffectiveWindow(s));
    assert t.outstanding == [n];
    assert FillLoop(t, EffectiveWindow(s)) == t;
  }

  /** The timeout after `k` more expiries, each doubling it in 32 bits. */
  function Doubled(rto: U32, k: nat): U32
    decreases k
  {
    if k == 0 then rto else Doubled((rto * 2) % TWO32, k - 1)
  }

  lemma {:induction false} DoubledTwice(rto: U32, j: nat, k: nat)
    ensures Doubled(Doubled(rto, j), k) == Doubled(rto, j + k)
    decreases j
  {
    if j > 0 { DoubledTwice((rto * 2) % TWO32, j - 1, k); }
  }

  lemma {:induction false} DoubledIs(rto: U32, x: nat, k: nat)
    requires rto == x % TWO32
    ensures Doubled(rto, k) == (x * Pow2(k)) % TWO32
    decreases k
  {
    if k > 0 {
      DoubledMod(x, 0);
      assert x * Pow2(0) == x && x * Pow2(1) == x * 2;
      DoubledIs((rto * 2) % TWO32, x * 2, k - 1);
      Regroup(x, 2, Pow2(k - 1), 0);
    }
  }

  /** The system while `a` waits, the handshake's answer still in the network. */
  ghost predicate Stalled(y: System, ca: Config, cb: Config, r: nat, rto: U32) {
    Waiting(y.a, ca, cb, r, rto) && SynAckOf(ca, cb) in y.fromB
  }

  ghost predicate StallsThrough(y: System, moves: seq<Move>, ca: Config, cb: Config, r: nat, rto: U32) {
    Legal(y, moves) && Stalled(Exec(y, moves), ca, cb, r, rto)
  }

  lemma {:induction false} ExpiresStalled(y: System, ca: Config, cb: Config, r: nat, rto: U32, n: nat)
    requires Stalled(y, ca, cb, r, rto) && r + n <= 8
    ensures StallsThrough(y, Expire(n), ca, cb, r + n, Doubled(rto, n))
    decreases n
  {
    if n > 0 {
      ExpireWaiting(y.a, ca, cb, r, rto);
      assert Expire(n)[1..] == Expire(n - 1);
      ExpiresStalled(MoveTo(y, Move(true, TickBy(TWO32 - 1))), ca, cb, r + 1, (rto * 2) % TWO32, n - 1);
    }
  }

  lemma {:induction false} RepeatsStalled(y: System, ca: Config, cb: Config, r: nat, rto: U32)
    requires Stalled(y, ca, cb, r, rto) && cb.recvCapacity > 0
    ensures var m := Move(true, Receive(SynAckOf(ca, cb)));
            MoveEnabled(y, m) && Stalled(MoveTo(y, m), ca, cb, 0, rto)
  {
    RepeatWaiting(y.a, ca, cb, r, rto);
  }

  lemma {:induction false} ShakesHands(ca: Config, cb: Config)
    requires cb.recvCapacity > 0
    ensures var y := NewSystem(ca, cb);
            var y' := Exec(y, Handshake(ca, cb));
            Legal(y, Handshake(ca, cb)) && Idle(y'.a, ca, cb) && SynAckOf(ca, cb) in y'.fromB
  {
    var y := NewSystem(ca, cb);
    var y1 := MoveTo(y, Move(true, Connect));
    ConnectSends(ca);
    assert SynOf(ca) in y1.fromA by { assert [SynOf(ca)][0] == SynOf(ca); }
    var arrive := Move(false, Receive(SynOf(ca)));
    var y2 := MoveTo(y1, arrive);
    SynAnswered(ca, cb);
    var back := Move(true, Receive(SynAckOf(ca, cb)));
    SynAckConnects(y2.a, ca, cb);
    assert Handshake(ca, cb)[1..] == [arrive, back];
    TwoMoves(y1, arrive, back);
  }

  lemma {:induction false} Writes(y: System, ca: Config, cb: Config)
    requires Idle(y.a, ca, cb) && SynAckOf(ca, cb) in y.fromB && ca.sendCapacity > 0
    ensures var moves := [Move(true, WriteOut([0]))];
            StallsThrough(y, moves, ca, cb, 0, ca.rtTimeout)
  {
    OneMove(y, Move(true, WriteOut([0])));
    ByteWaits(y.a, ca, cb);
  }

  /** A round leaves a stalled system stalled. */
  lemma {:induction false} OneRound(y: System, ca: Config, cb: Config, rto: U32, n: nat)
    requires Stalled(y, ca, cb, 0, rto) && cb.recvCapacity > 0 && n <= 8
    ensures var moves := Expire(n) + [Move(true, Receive(SynAckOf(ca, cb)))];
            StallsThrough(y, moves, ca, cb, 0, Doubled(rto, n))
  {
    var again := Move(true, Receive(SynAckOf(ca, cb)));
    ExpiresStalled(y, ca, cb, 0, rto, n);
    var y1 := Exec(y, Expire(n));
    RepeatsStalled(y1, ca, cb, n, Doubled(rto, n));
    OneMove(y1, again);
    ExecConcat(y, Expire(n), [again]);
  }

  /** How many expiries there are in `m` rounds of `n`. */
  function InRounds(n: nat, m: nat): nat { if m == 0 then 0 else n + InRounds(n, m - 1) }

  lemma {:induction false} RoundsStalled(y: System, ca: Config, cb: Config, rto: U32, n: nat, m: nat)
    requires Stalled(y, ca, cb, 0, rto) && cb.recvCapacity > 0 && n <= 8
    ensures var moves := Rounds(Move(true, Receive(SynAckOf(ca, cb))), n, m);
            StallsThrough(y, moves, ca, cb, 0, Doubled(rto, InRounds(n, m)))
    decreases m, 0
  {
    if m > 0 {
      var again := Move(true, Receive(SynAckOf(ca, cb)));
      OneRound(y, ca, cb, rto, n);
      RoundsAfter(y, Expire(n) + [again], ca, cb, Doubled(rto, n), n, m - 1);
      DoubledTwice(rto, n, InRounds(n, m - 1));
    }
  }

  lemma {:induction false} RoundsAfter(y: System, first: seq<Move>, ca: Config, cb: Config, rto: U32, n: nat, m: nat)
    requires StallsThrough(y, first, ca, cb, 0, rto) && cb.recvCapacity > 0 && n <= 8
    ensures var moves := first + Rounds(Move(true, Receive(SynAckOf(ca, cb))), n, m);
            StallsThrough(y, moves, ca, cb, 0, Doubled(rto, InRounds(n, m)))
    decreases m, 1
  {
    RoundsStalled(Exec(y, first), ca, cb, rto, n, m);
    ExecConcat(y, first, Rounds(Move(true, Receive(SynAckOf(ca, cb))), n, m));
  }

  lemma {:induction false} WritesAndStalls(y: System, shake: seq<Move>, ca: Config, cb: Config, n: nat, m: nat)
    requires Legal(y, shake) && Idle(Exec(y, shake).a, ca, cb) && SynAckOf(ca, cb) in Exec(y, shake).fromB
    requires ca.sendCapacity > 0 && cb.recvCapacity > 0 && n <= 8
    ensures var run := shake + [Move(true, WriteOut([0]))] + Rounds(Move(true, Receive(SynAckOf(ca, cb))), n, m);
            StallsThrough(y, run, ca, cb, 0, Doubled(ca.rtTimeout, InRounds(n, m)))
  {
    var write := [Move(true, WriteOut([0]))];
    Writes(Exec(y, shake), ca, cb);
    ExecConcat(y, shake, write);
    RoundsAfter(y, shake + write, ca, cb, ca.rtTimeout, n, m);
  }

  /** An accepted acknowledgment zeroes the count of retransmissions but not the timeout unless it pops a segment.
      So a network that merely repeats one after every `n` expiries, `n` at most eight, keeps the connection open
      through any number `m` of rounds, and every expiry in them has doubled the timeout. */
  lemma {:induction false} RepeatedAckDefeatsLimit(ca: Config, cb: Config, n: nat, m: nat)
    requires ca.sendCapacity > 0 && cb.recvCapacity > 0 && n <= MAX_RETX_ATTEMPTS
    ensures Legal(NewSystem(ca, cb), RepeatedAckRun(ca, cb, n, m))
    ensures var c := Exec(NewSystem(ca, cb), RepeatedAckRun(ca, cb, n, m)).a;
            && c.active && c.sender.initialRto == ca.rtTimeout && c.sender.outstanding != []
            && c.sender.rto == (ca.rtTimeout * Pow2(InRounds(n, m))) % TWO32
            && (InRounds(n, m) == 16 ==> c.sender.rto == 65536 * ca.rtTimeout)
  {
    ShakesHands(ca, cb);
    WritesAndStalls(NewSystem(ca, cb), Handshake(ca, cb), ca, cb, n, m);
    DoubledIs(ca.rtTimeout, ca.rtTimeout, InRounds(n, m));
    SixteenDoublings(ca.rtTimeout);
  }

  lemma SixteenDoublings(rto: U16)
    ensures (rto * Pow2(16)) % TWO32 == 65536 * rto
  {
    Pow2Values();
  }
}
