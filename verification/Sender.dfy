/** The sending half of an endpoint, as a value: window filling, the retransmission queue and its timer. */
module SenderModel {
  import opened Basics
  import opened WrappingIntegers
  import opened StreamModel
  import opened ReassemblerModel
  import opened Segments

  const MAX_PAYLOAD_SIZE: nat := 1000

  datatype Phase = Closed | SynSent | SynAcked | FinSent

  /** Queued segments carry the absolute number their seqno stands for; only the segment itself leaves. */
  datatype Sender = Sender(
    isn: U32,
    initialRto: U16,
    stream: Stream,
    next: nat,
    outstanding: seq<Numbered>,
    out: seq<Numbered>,
    elapsed: nat,
    rto: U32,
    alarm: bool,
    inFlight: int,
    phase: Phase,
    window: nat,
    retransmissions: nat)

  function NewSender(capacity: nat, rto: U16, isn: U32): Sender {
    Sender(isn, rto, EmptyStream(capacity), 0, [], [], 0, rto, false, 0, Closed, 1, 0)
  }

  /** The oldest unacknowledged absolute number. */
  function Lowest(s: Sender): int { s.next - s.inFlight }

  function EffectiveWindow(s: Sender): nat { if s.window == 0 then 1 else s.window }

  // ---------------------------------------------------------------- operations

  function SendSyn(s: Sender): Sender {
    var syn := Numbered(s.next, TCPSegment(DEFAULT_HEADER.(seqno := Wrap(s.next, s.isn), syn := true), []));
    s.(phase := SynSent, next := 1, inFlight := 1, alarm := true,
       out := s.out + [syn], outstanding := s.outstanding + [syn.(seqno := 0)])
  }

  /** The next segment with `room` numbers of window left: as much as may be read, and the FIN if it fits. */
  function NextSegment(s: Sender, room: nat): Numbered {
    var size := Min(MAX_PAYLOAD_SIZE, room);
    var payload := Peek(s.stream, size);
    var fin := Eof(Pop(s.stream, size)) && room > |payload|;
    Numbered(s.next, TCPSegment(DEFAULT_HEADER.(seqno := Wrap(s.next, s.isn), fin := fin), payload))
  }

  /** One turn of the loop in `fill_window` that has something to send. */
  function Transmit(s: Sender, room: nat): Sender {
    var n := NextSegment(s, room);
    s.(stream := Pop(s.stream, Min(MAX_PAYLOAD_SIZE, room)),
       phase := if n.seg.header.fin then FinSent else s.phase,
       out := s.out + [n],
       outstanding := s.outstanding + [n],
       inFlight := s.inFlight + SeqLength(n.seg),
       next := s.next + SeqLength(n.seg))
  }

  function FillLoop(s: Sender, window: nat): Sender
    decreases window - s.inFlight
  {
    if s.phase != SynAcked || window <= s.inFlight then s
    else if SeqLength(NextSegment(s, window - s.inFlight).seg) == 0 then s
    else FillLoop(Transmit(s, window - s.inFlight), window)
  }

  function FillWindow(s: Sender): Sender {
    if s.phase == Closed then SendSyn(s) else FillLoop(s, EffectiveWindow(s))
  }

  function PopAcked(s: Sender, ack: nat): Sender
    decreases |s.outstanding|
  {
    if s.outstanding == [] || s.outstanding[0].End() > ack then s
    else PopAcked(s.(outstanding := s.outstanding[1..],
                     inFlight := s.inFlight - SeqLength(s.outstanding[0].seg),
                     elapsed := 0, rto := s.initialRto), ack)
  }

  function ReceivedAck(s: Sender, ackno: U32): nat { Unwrap64(ackno, s.isn, s.stream.popped) }

  /** An acknowledgment of something sent and not of the past. */
  predicate Accepts(s: Sender, ackno: U32) {
    Lowest(s) <= ReceivedAck(s, ackno) <= s.next
  }

  /** The part of `ack_received` before the window is filled again. */
  function TakeAck(s: Sender, ackno: U32, win: U16): Sender
    requires Accepts(s, ackno)
  {
    var popped := PopAcked(s.(window := win, retransmissions := 0), ReceivedAck(s, ackno));
    if popped.phase == SynSent && popped.inFlight < popped.next then popped.(phase := SynAcked) else popped
  }

  function AckReceived(s: Sender, ackno: U32, win: U16): Sender {
    if !Accepts(s, ackno) then s
    else
      var s1 := TakeAck(s, ackno, win);
      if s1.phase == SynAcked then FillWindow(s1) else s1
  }

  predicate Expires(s: Sender, ms: nat) {
    s.alarm && s.outstanding != [] && (s.elapsed + ms) % TWO32 >= s.rto
  }

  function Tick(s: Sender, ms: nat): Sender {
    if !s.alarm then s
    else if s.outstanding == [] then s.(elapsed := 0)
    else if Expires(s, ms) then
      s.(rto := if s.window != 0 then (s.rto * 2) % TWO32 else s.rto,
         out := s.out + [s.outstanding[0]],
         retransmissions := s.retransmissions + 1,
         elapsed := 0)
    else s.(elapsed := (s.elapsed + ms) % TWO32)
  }

  function SendEmpty(s: Sender): Sender {
    s.(out := s.out + [Numbered(s.next, TCPSegment(DEFAULT_HEADER.(seqno := Wrap(s.next, s.isn)), []))])
  }

  function WriteData(s: Sender, data: seq<Byte>): Sender { s.(stream := Write(s.stream, data)) }

  function EndData(s: Sender): Sender { s.(stream := EndInput(s.stream)) }

  // ---------------------------------------------------------------- invariant

  /** The segments of `q` follow each other from `from` to `to` without gap or overlap. */
  ghost predicate Tiles(q: seq<Numbered>, from: int, to: int)
    decreases |q|
  {
    if q == [] then from == to
    else q[0].seqno == from && SeqLength(q[0].seg) > 0 && Tiles(q[1..], from + SeqLength(q[0].seg), to)
  }

  /** `n` is SYN at zero, or carries the slice of the written stream its number says; FIN only at its end. */
  ghost predicate Genuine(stream: Stream, isn: U32, n: Numbered) {
    && n.seg.header.seqno == Wrap(n.seqno, isn)
    && !n.seg.header.rst && !n.seg.header.ack
    && |n.seg.payload| <= MAX_PAYLOAD_SIZE
    && (n.seg.header.syn ==> n.seqno == 0 && n.seg.payload == [] && !n.seg.header.fin)
    && (n.seg.payload != [] || n.seg.header.fin ==>
          n.seqno >= 1 && SliceOf(n.seqno - 1, n.seg.payload, stream.history))
    && (n.seg.header.fin ==> stream.ended && n.seqno - 1 + |n.seg.payload| == |stream.history|)
  }

  ghost predicate Sent(s: Sender, n: Numbered) {
    && Genuine(s.stream, s.isn, n)
    && n.End() <= s.next
    && (n.seg.header.fin ==> s.phase == FinSent)
  }

  ghost predicate AllSent(s: Sender, q: seq<Numbered>) {
    forall i | 0 <= i < |q| :: Sent(s, q[i])
  }

  /** What the counters say about each other in each phase. */
  ghost predicate CountersAgree(s: Sender) {
    && 0 <= s.inFlight <= 0xFFFF && s.window <= 0xFFFF
    && (s.phase == Closed ==> s.next == 0 && s.stream.popped == 0)
    && (s.phase != Closed ==> s.alarm && s.next == 1 + s.stream.popped + (if s.phase == FinSent then 1 else 0))
    && (s.phase == SynSent ==> s.stream.popped == 0 && s.inFlight == 1)
    && (s.phase == SynAcked || s.phase == FinSent ==> s.inFlight < s.next)
    && (s.phase == FinSent ==> Eof(s.stream))
    && (s.outstanding == [] ==> s.elapsed == 0)
  }

  ghost predicate SenderInv(s: Sender) {
    && CountersAgree(s)
    && Tiles(s.outstanding, Lowest(s), s.next)
    && AllSent(s, s.outstanding)
    && AllSent(s, s.out)
  }

  // ---------------------------------------------------------------- tiling

  lemma {:induction false} TilesSnoc(q: seq<Numbered>, from: int, n: Numbered)
    requires Tiles(q, from, n.seqno) && SeqLength(n.seg) > 0
    ensures Tiles(q + [n], from, n.End())
    decreases |q|
  {
    if q == [] {
      assert (q + [n])[1..] == [];
    } else {
      assert (q + [n])[1..] == q[1..] + [n];
      TilesSnoc(q[1..], from + SeqLength(q[0].seg), n);
    }
  }

  lemma {:induction false} TilesOrder(q: seq<Numbered>, from: int, to: int)
    requires Tiles(q, from, to)
    ensures from <= to && (from == to <==> q == [])
    decreases |q|
  {
    if q != [] { TilesOrder(q[1..], from + SeqLength(q[0].seg), to); }
  }

  /** What tiling means for any two segments: each number in the range belongs to exactly one of them. */
  lemma {:induction false} TilesUnique(q: seq<Numbered>, from: int, to: int, x: int)
    requires Tiles(q, from, to) && from <= x < to
    ensures exists i | 0 <= i < |q| :: q[i].seqno <= x < q[i].End()
    ensures forall i, j | 0 <= i < |q| && 0 <= j < |q| && q[i].seqno <= x < q[i].End() && q[j].seqno <= x < q[j].End()
              :: i == j
    decreases |q|
  {
    var mid := from + SeqLength(q[0].seg);
    TilesBounds(q[1..], mid, to);
    if x < mid {
      assert q[0].seqno <= x < q[0].End();
      forall i | 0 < i < |q| ensures q[i].seqno >= mid { assert q[i] == q[1..][i - 1]; }
    } else {
      TilesUnique(q[1..], mid, to, x);
      var k :| 0 <= k < |q[1..]| && q[1..][k].seqno <= x < q[1..][k].End();
      assert q[k + 1] == q[1..][k];
      forall i | 0 <= i < |q| && q[i].seqno <= x < q[i].End() ensures i == k + 1 {
        assert q[i] == q[1..][i - 1];
      }
    }
  }

  lemma {:induction false} TilesBounds(q: seq<Numbered>, from: int, to: int)
    requires Tiles(q, from, to)
    ensures forall i | 0 <= i < |q| :: from <= q[i].seqno && q[i].End() <= to
    decreases |q|
  {
    TilesOrder(q, from, to);
    if q != [] {
      TilesBounds(q[1..], from + SeqLength(q[0].seg), to);
      TilesOrder(q[1..], from + SeqLength(q[0].seg), to);
      forall i | 0 <= i < |q| ensures from <= q[i].seqno && q[i].End() <= to {
        if i > 0 { assert q[i] == q[1..][i - 1]; }
      }
    }
  }

  // ---------------------------------------------------------------- each operation keeps the invariant

  /** What is sent stays genuine when the sender moves on: the stream only grows, and not past its end. */
  ghost predicate Advances(s: Sender, s': Sender) {
    && s'.isn == s.isn
    && s.next <= s'.next
    && s.stream.history <= s'.stream.history
    && (s.stream.ended ==> s'.stream.ended && s'.stream.history == s.stream.history)
    && (s.phase == FinSent ==> s'.phase == FinSent)
  }

  lemma {:induction false} SentStays(s: Sender, s': Sender, n: Numbered)
    requires Advances(s, s') && Sent(s, n)
    ensures Sent(s', n)
  {
  }

  lemma {:induction false} AllSentStays(s: Sender, s': Sender, q: seq<Numbered>)
    requires Advances(s, s') && AllSent(s, q)
    ensures AllSent(s', q)
  {
    forall i | 0 <= i < |q| ensures Sent(s', q[i]) { SentStays(s, s', q[i]); }
  }

  lemma {:induction false} SendSynKeeps(s: Sender)
    requires SenderInv(s) && s.phase == Closed
    ensures SenderInv(SendSyn(s)) && Advances(s, SendSyn(s))
  {
    var s' := SendSyn(s);
    TilesOrder(s.outstanding, Lowest(s), s.next);
    AllSentStays(s, s', s.out);
    assert s'.outstanding[1..] == [];
  }

  /** A turn of the loop sends the next slice of the stream, within the window, and the FIN exactly when it
      is reached. */
  lemma {:induction false} TransmitKeeps(s: Sender, window: nat)
    requires SenderInv(s) && s.phase == SynAcked && s.inFlight < window <= 0xFFFF
    requires SeqLength(NextSegment(s, window - s.inFlight).seg) > 0
    ensures var s' := Transmit(s, window - s.inFlight);
            SenderInv(s') && Advances(s, s') && s'.next <= Lowest(s) + window && Lowest(s') == Lowest(s)
  {
    var room := window - s.inFlight;
    var n := NextSegment(s, room);
    var s' := Transmit(s, room);
    TransmitSends(s, room);
    AllSentStays(s, s', s.out);
    AllSentStays(s, s', s.outstanding);
    TilesSnoc(s.outstanding, Lowest(s), n);
  }

  lemma {:induction false} TransmitSends(s: Sender, room: nat)
    requires CountersAgree(s) && s.phase == SynAcked
    ensures Sent(Transmit(s, room), NextSegment(s, room))
  {
    var n := NextSegment(s, room);
    assert SliceOf(n.seqno - 1, n.seg.payload, s.stream.history);
  }

  /** What one filling sends, and nothing else: segments that tile the numbers from the old `next` to the new. */
  ghost predicate Extends(s: Sender, s': Sender, sent: seq<Numbered>) {
    && s'.out == s.out + sent
    && s'.outstanding == s.outstanding + sent
    && Tiles(sent, s.next, s'.next)
    && s' == s.(stream := s'.stream, next := s'.next, outstanding := s'.outstanding, out := s'.out,
                inFlight := s'.inFlight, phase := s'.phase)
    && s'.stream == s.stream.(popped := s'.stream.popped)
    && s.stream.popped <= s'.stream.popped
    && (s'.phase == s.phase || s'.phase == FinSent)
    && Lowest(s') == Lowest(s)
  }

  /** The new segments, in order. */
  function FillSent(s: Sender, window: nat): seq<Numbered>
    decreases window - s.inFlight
  {
    if s.phase != SynAcked || window <= s.inFlight then []
    else
      var n := NextSegment(s, window - s.inFlight);
      if SeqLength(n.seg) == 0 then []
      else [n] + FillSent(Transmit(s, window - s.inFlight), window)
  }

  lemma {:induction false} TransmitExtends(s: Sender, room: nat)
    requires SeqLength(NextSegment(s, room).seg) > 0
    ensures Extends(s, Transmit(s, room), [NextSegment(s, room)])
  {
    var n, t := NextSegment(s, room), Transmit(s, room);
    assert t.next == n.End() && t.inFlight == s.inFlight + SeqLength(n.seg);
    assert [n][1..] == [];
  }

  lemma {:induction false} ExtendsOn(s: Sender, t: Sender, u: Sender, n: Numbered, rest: seq<Numbered>)
    requires Extends(s, t, [n]) && Extends(t, u, rest)
    ensures Extends(s, u, [n] + rest)
  {
    assert s.out + ([n] + rest) == t.out + rest;
    assert s.outstanding + ([n] + rest) == t.outstanding + rest;
    assert [n][1..] == [] && ([n] + rest)[1..] == rest;
    assert Tiles([], s.next + SeqLength(n.seg), t.next);
  }

  lemma {:induction false} FillLoopExtends(s: Sender, window: nat)
    ensures Extends(s, FillLoop(s, window), FillSent(s, window))
    decreases window - s.inFlight
  {
    if s.phase == SynAcked && s.inFlight < window {
      var room := window - s.inFlight;
      var n := NextSegment(s, room);
      if SeqLength(n.seg) > 0 {
        var t := Transmit(s, room);
        FillLoopExtends(t, window);
        TransmitExtends(s, room);
        ExtendsOn(s, t, FillLoop(t, window), n, FillSent(t, window));
      }
    }
  }

  lemma {:induction false} FillLoopKeeps(s: Sender, window: nat)
    requires SenderInv(s) && s.phase != Closed && window <= 0xFFFF
    ensures var s' := FillLoop(s, window);
            && SenderInv(s') && Advances(s, s')
            && (s'.next == s.next || s'.next <= Lowest(s) + window)
    decreases window - s.inFlight
  {
    if s.phase == SynAcked && s.inFlight < window {
      var room := window - s.inFlight;
      if SeqLength(NextSegment(s, room).seg) > 0 {
        TransmitKeeps(s, window);
        FillLoopKeeps(Transmit(s, room), window);
      }
    }
  }

  /** A turn of the loop finds nothing to send only when there is nothing. */
  lemma NothingToSend(s: Sender, room: nat)
    requires SeqLength(NextSegment(s, room).seg) == 0 && room > 0
    ensures Unread(s.stream) == [] && !s.stream.ended
  {
  }

  /** The window is used up, or there is nothing left to send: every byte read, and the FIN sent if the stream has
      ended. */
  predicate WindowUsed(s: Sender) {
    s.phase == SynAcked ==> s.inFlight >= EffectiveWindow(s) || (Unread(s.stream) == [] && !s.stream.ended)
  }

  lemma {:induction false} FillLoopIsMaximal(s: Sender, window: nat)
    ensures var s' := FillLoop(s, window);
            s'.phase == SynAcked ==> s'.inFlight >= window || (Unread(s'.stream) == [] && !s'.stream.ended)
    decreases window - s.inFlight
  {
    if s.phase == SynAcked && s.inFlight < window {
      var room := window - s.inFlight;
      if SeqLength(NextSegment(s, room).seg) > 0 {
        FillLoopIsMaximal(Transmit(s, room), window);
      } else {
        NothingToSend(s, room);
      }
    }
  }

  /** Filling stops only with the window used, and the FIN goes out as soon as it is reached. */
  lemma {:induction false} FillIsMaximal(s: Sender)
    ensures WindowUsed(FillWindow(s))
    ensures FillWindow(s).phase == FinSent && s.phase == SynAcked ==> Eof(FillWindow(s).stream)
  {
    if s.phase != Closed {
      FillLoopIsMaximal(s, EffectiveWindow(s));
      FillLoopExtends(s, EffectiveWindow(s));
      FillReadsAll(s, EffectiveWindow(s));
    }
  }

  lemma {:induction false} FillReadsAll(s: Sender, window: nat)
    ensures FillLoop(s, window).phase == FinSent && s.phase == SynAcked ==> Eof(FillLoop(s, window).stream)
    decreases window - s.inFlight
  {
    if s.phase == SynAcked && s.inFlight < window {
      var room := window - s.inFlight;
      if SeqLength(NextSegment(s, room).seg) > 0 {
        var t := Transmit(s, room);
        if t.phase == SynAcked { FillReadsAll(t, window); }
      }
    }
  }

  /** An accepted acknowledgment is followed by as much as it allows. */
  lemma {:induction false} AckIsUsed(s: Sender, ackno: U32, win: U16)
    requires Accepts(s, ackno)
    ensures WindowUsed(AckReceived(s, ackno, win))
  {
    FillIsMaximal(TakeAck(s, ackno, win));
  }

  /** No segment is smaller than it has to be: within one filling all but the last are of the maximal size, and a
      FIN travels with the last bytes. */
  lemma {:induction false} FillsFullSegments(s: Sender, window: nat)
    ensures var q := FillSent(s, window);
            && (forall i | 0 <= i < |q| - 1 :: |q[i].seg.payload| == MAX_PAYLOAD_SIZE && !q[i].seg.header.fin)
            && (forall i | 0 <= i < |q| && q[i].seg.payload == [] :: i == 0 && Unread(s.stream) == [])
    decreases window - s.inFlight
  {
    if s.phase == SynAcked && s.inFlight < window {
      var room := window - s.inFlight;
      var n := NextSegment(s, room);
      if SeqLength(n.seg) > 0 {
        var t := Transmit(s, room);
        var rest := FillSent(t, window);
        FillsFullSegments(t, window);
        ShortIsLast(s, window);
        var q := [n] + rest;
        assert q == FillSent(s, window);
        forall i | 0 <= i < |q| - 1 ensures |q[i].seg.payload| == MAX_PAYLOAD_SIZE && !q[i].seg.header.fin {
          if i > 0 { assert q[i] == rest[i - 1]; }
        }
        forall i | 0 < i < |q| ensures q[i].seg.payload != [] { assert q[i] == rest[i - 1]; }
      }
    }
  }

  /** A segment that is short or ends the stream is the last of its filling, and no empty one follows. */
  lemma {:induction false} ShortIsLast(s: Sender, window: nat)
    requires s.phase == SynAcked && s.inFlight < window
    requires SeqLength(NextSegment(s, window - s.inFlight).seg) > 0
    ensures var n := NextSegment(s, window - s.inFlight);
            var rest := FillSent(Transmit(s, window - s.inFlight), window);
            && (|n.seg.payload| < MAX_PAYLOAD_SIZE || n.seg.header.fin ==> rest == [])
            && (rest != [] ==> rest[0].seg.payload != [])
            && (n.seg.payload == [] ==> Unread(s.stream) == [])
  {
    var room := window - s.inFlight;
    var n, t := NextSegment(s, room), Transmit(s, room);
    assert |n.seg.payload| == Min(Min(MAX_PAYLOAD_SIZE, room), |Unread(s.stream)|);
    assert |Unread(t.stream)| == |Unread(s.stream)| - |n.seg.payload|;
    if t.phase == SynAcked && t.inFlight < window {
      assert |n.seg.payload| < room;
      assert Unread(t.stream) == [] ==> !t.stream.ended;
    }
  }

  lemma {:induction false} FillKeeps(s: Sender)
    requires SenderInv(s)
    ensures SenderInv(FillWindow(s)) && Advances(s, FillWindow(s))
  {
    if s.phase == Closed { SendSynKeeps(s); } else { FillLoopKeeps(s, EffectiveWindow(s)); }
  }

  /** Popping leaves the segments that reach past `ack`: the oldest remaining one contains it, or nothing is left. */
  lemma {:induction false} PopKeeps(s: Sender, ack: nat)
    requires Tiles(s.outstanding, Lowest(s), s.next) && Lowest(s) <= ack <= s.next
    ensures var s' := PopAcked(s, ack);
            && Tiles(s'.outstanding, Lowest(s'), s'.next)
            && Lowest(s) <= Lowest(s') <= ack
            && (if s'.outstanding == [] then Lowest(s') == ack == s.next else ack < s'.outstanding[0].End())
            && s' == s.(outstanding := s'.outstanding, inFlight := s'.inFlight, elapsed := s'.elapsed, rto := s'.rto)
            && s'.inFlight <= s.inFlight
            && (s' == s || (s'.elapsed == 0 && s'.rto == s.initialRto && s'.inFlight < s.inFlight))
    decreases |s.outstanding|
  {
    TilesOrder(s.outstanding, Lowest(s), s.next);
    if s.outstanding != [] && s.outstanding[0].End() <= ack {
      var t := s.(outstanding := s.outstanding[1..],
                  inFlight := s.inFlight - SeqLength(s.outstanding[0].seg),
                  elapsed := 0, rto := s.initialRto);
      PopKeeps(t, ack);
    }
  }

  lemma {:induction false} PopAllSent(s: Sender, ack: nat, t: Sender)
    requires AllSent(t, s.outstanding)
    ensures AllSent(t, PopAcked(s, ack).outstanding)
    decreases |s.outstanding|
  {
    if s.outstanding != [] && s.outstanding[0].End() <= ack {
      PopAllSent(s.(outstanding := s.outstanding[1..],
                    inFlight := s.inFlight - SeqLength(s.outstanding[0].seg),
                    elapsed := 0, rto := s.initialRto), ack, t);
    }
  }

  lemma {:induction false} TakeAckKeeps(s: Sender, ackno: U32, win: U16)
    requires SenderInv(s) && Accepts(s, ackno)
    ensures var s' := TakeAck(s, ackno, win);
            && SenderInv(s') && Advances(s, s')
            && s'.next == s.next && s'.out == s.out && s'.stream == s.stream && s'.window == win
            && Lowest(s) <= Lowest(s') <= ReceivedAck(s, ackno)
            && (s'.outstanding == [] <==> ReceivedAck(s, ackno) == s.next)
            && (s'.phase == s.phase || (s.phase == SynSent && s'.phase == SynAcked))
            && (s'.phase == SynSent || s'.phase == Closed ==> Lowest(s') == 0)
  {
    var ack := ReceivedAck(s, ackno);
    var s0 := s.(window := win, retransmissions := 0);
    PopKeeps(s0, ack);
    var p := PopAcked(s0, ack);
    var s' := TakeAck(s, ackno, win);
    TilesOrder(p.outstanding, Lowest(p), p.next);
    TilesOrder(s.outstanding, Lowest(s), s.next);
    TilesBounds(p.outstanding, Lowest(p), p.next);
    AllSentStays(s, s', s.out);
    AllSentStays(s, s', s.outstanding);
    PopAllSent(s0, ack, s');
  }

  lemma {:induction false} AckKeeps(s: Sender, ackno: U32, win: U16)
    requires SenderInv(s)
    ensures SenderInv(AckReceived(s, ackno, win)) && Advances(s, AckReceived(s, ackno, win))
  {
    if Accepts(s, ackno) {
      TakeAckKeeps(s, ackno, win);
      var s1 := TakeAck(s, ackno, win);
      if s1.phase == SynAcked { FillKeeps(s1); }
    }
  }

  lemma {:induction false} TickKeeps(s: Sender, ms: nat)
    requires SenderInv(s)
    ensures SenderInv(Tick(s, ms)) && Advances(s, Tick(s, ms))
  {
    AllSentStays(s, Tick(s, ms), s.out);
    AllSentStays(s, Tick(s, ms), s.outstanding);
  }

  lemma {:induction false} SendEmptyKeeps(s: Sender)
    requires SenderInv(s)
    ensures SenderInv(SendEmpty(s)) && Advances(s, SendEmpty(s))
  {
    AllSentStays(s, SendEmpty(s), s.out);
    AllSentStays(s, SendEmpty(s), s.outstanding);
  }

  lemma {:induction false} WriteKeeps(s: Sender, data: seq<Byte>)
    requires SenderInv(s)
    ensures SenderInv(WriteData(s, data)) && Advances(s, WriteData(s, data))
  {
    AllSentStays(s, WriteData(s, data), s.out);
    AllSentStays(s, WriteData(s, data), s.outstanding);
  }

  lemma {:induction false} EndKeeps(s: Sender)
    requires SenderInv(s)
    ensures SenderInv(EndData(s)) && Advances(s, EndData(s))
  {
    AllSentStays(s, EndData(s), s.out);
    AllSentStays(s, EndData(s), s.outstanding);
  }

  /** What an expiry sends again is the segment that starts at the oldest unacknowledged number. */
  lemma {:induction false} RetransmitsOldest(s: Sender, ms: nat)
    requires SenderInv(s) && Expires(s, ms)
    ensures var q := Tick(s, ms).out;
            |q| == |s.out| + 1 && q[|s.out|] == s.outstanding[0] && q[|s.out|].seqno == Lowest(s) < s.next
  {
    TilesOrder(s.outstanding, Lowest(s), s.next);
  }
}
