/** What holds of a sender over every run, whatever acknowledgments arrive. */
module SenderRuns {
  import opened Basics
  import opened Segments
  import opened SenderModel

  datatype SenderEvent =
    | DoWrite(data: seq<Byte>)
    | DoEnd
    | DoFill
    | DoAck(ackno: U32, win: U16)
    | DoTick(ms: nat)
    | DoEmpty
    | DoDequeue

  function SenderStep(s: Sender, ev: SenderEvent): Sender {
    match ev
    case DoWrite(data) => WriteData(s, data)
    case DoEnd => EndData(s)
    case DoFill => FillWindow(s)
    case DoAck(ackno, win) => AckReceived(s, ackno, win)
    case DoTick(ms) => Tick(s, ms)
    case DoEmpty => SendEmpty(s)
    case DoDequeue => if s.out == [] then s else s.(out := s.out[1..])
  }

  /** A sender with facts about its past: the last acknowledgment number it accepted; how many times the timer has
      expired at a non-zero window since a segment was last popped; the true time since the timer last started
      over; and every segment ever queued for sending. */
  datatype Tracked = Tracked(s: Sender, lastAck: nat, backoffs: nat, clock: nat, sent: seq<Numbered>)

  /** Something is outstanding and the clock, in 32 bits, reaches the timeout. */
  predicate TimeIsUp(t: Tracked, ms: nat) { t.s.outstanding != [] && (t.clock + ms) % TWO32 >= t.s.rto }

  /** What a step puts behind the queue. */
  function Queues(s: Sender, s': Sender): seq<Numbered> { if |s.out| <= |s'.out| then s'.out[|s.out|..] else [] }

  /** The clock starts over when a segment is popped, when the time is up and while nothing is outstanding. */
  function TrackedStep(t: Tracked, ev: SenderEvent): Tracked {
    var s' := SenderStep(t.s, ev);
    var t' := t.(s := s', sent := t.sent + Queues(t.s, s'));
    match ev
    case DoAck(ackno, win) =>
      if !Accepts(t.s, ackno) then t'
      else if Pops(t.s, ackno) then t'.(lastAck := ReceivedAck(t.s, ackno), backoffs := 0, clock := 0)
      else t'.(lastAck := ReceivedAck(t.s, ackno))
    case DoTick(ms) =>
      if TimeIsUp(t, ms) then t'.(clock := 0, backoffs := if t.s.window != 0 then t.backoffs + 1 else t.backoffs)
      else t'.(clock := if t.s.outstanding == [] then 0 else t.clock + ms)
    case _ => t'
  }

  function TrackedRun(t: Tracked, evs: seq<SenderEvent>): Tracked
    decreases |evs|
  {
    if evs == [] then t else TrackedRun(TrackedStep(t, evs[0]), evs[1..])
  }

  function NewTracked(capacity: nat, rto: U16, isn: U32): Tracked {
    Tracked(NewSender(capacity, rto, isn), 0, 0, 0, [])
  }

  /** The timer against the true count of doublings and the true time. */
  ghost predicate TimerInv(s: Sender, backoffs: nat, clock: nat) {
    && s.rto == (s.initialRto * Pow2(backoffs)) % TWO32
    && s.elapsed == clock % TWO32
    && (s.outstanding == [] ==> clock == 0)
  }

  ghost predicate TrackedInv(t: Tracked) {
    SenderInv(t.s) && Lowest(t.s) <= t.lastAck && TimerInv(t.s, t.backoffs, t.clock)
  }

  lemma {:induction false} TimerRestarts(s: Sender)
    requires s.rto == s.initialRto && s.elapsed == 0
    ensures TimerInv(s, 0, 0)
  {
    assert s.initialRto * Pow2(0) == s.initialRto;
  }

  lemma {:induction false} TimerRuns(s: Sender, s': Sender, backoffs: nat, clock: nat)
    requires TimerInv(s, backoffs, clock)
    requires s'.rto == s.rto && s'.initialRto == s.initialRto && s'.elapsed == s.elapsed
    requires s'.outstanding == [] ==> s.outstanding == []
    ensures TimerInv(s', backoffs, clock)
  {
  }

  /** The timer only changes on acknowledgments and ticks. */
  lemma {:induction false} FillKeepsTimer(s: Sender)
    ensures var s' := FillWindow(s);
            && s'.rto == s.rto && s'.initialRto == s.initialRto && s'.retransmissions == s.retransmissions
            && Lowest(s') == (if s.phase == Closed then 0 else Lowest(s))
            && s'.elapsed == s.elapsed && s'.window == s.window
  {
    if s.phase != Closed { FillLoopExtends(s, EffectiveWindow(s)); }
  }

  lemma {:induction false} DoubledMod(a: nat, k: nat)
    ensures ((a * Pow2(k)) % TWO32 * 2) % TWO32 == (a * Pow2(k + 1)) % TWO32
  {
    TwiceProduct(a, Pow2(k));
    TwiceMod(a * Pow2(k));
  }

  lemma TwiceProduct(a: nat, b: nat)
    ensures a * (2 * b) == (a * b) * 2
  {
  }

  lemma TwiceMod(x: nat)
    ensures (x % TWO32 * 2) % TWO32 == (x * 2) % TWO32
  {
  }

  predicate Pops(s: Sender, ackno: U32) {
    s.outstanding != [] && s.outstanding[0].End() <= ReceivedAck(s, ackno)
  }

  lemma {:induction false} AckTimer(s: Sender, ackno: U32, win: U16)
    requires SenderInv(s) && Accepts(s, ackno)
    ensures var s' := AckReceived(s, ackno, win);
            && s'.initialRto == s.initialRto
            && s'.rto == (if Pops(s, ackno) then s.initialRto else s.rto)
            && s'.elapsed == (if Pops(s, ackno) then 0 else s.elapsed)
            && (s'.outstanding == [] ==> s.outstanding == [] || Pops(s, ackno))
            && Lowest(s') <= ReceivedAck(s, ackno)
  {
    TakeAckKeeps(s, ackno, win);
    PopTimer(s.(window := win, retransmissions := 0), ReceivedAck(s, ackno));
    var s1 := TakeAck(s, ackno, win);
    FillKeepsTimer(s1);
    FillLoopExtends(s1, EffectiveWindow(s1));
  }

  /** Popping anything starts the timer over; popping nothing changes nothing. */
  lemma {:induction false} PopTimer(s: Sender, ack: nat)
    ensures var s' := PopAcked(s, ack);
            if s.outstanding != [] && s.outstanding[0].End() <= ack
            then s'.rto == s.initialRto && s'.elapsed == 0 && s'.initialRto == s.initialRto
            else s' == s
    decreases |s.outstanding|
  {
    if s.outstanding != [] && s.outstanding[0].End() <= ack {
      PopTimer(s.(outstanding := s.outstanding[1..], inFlight := s.inFlight - SeqLength(s.outstanding[0].seg),
                  elapsed := 0, rto := s.initialRto), ack);
    }
  }

  lemma {:induction false} AckKeepsTracked(t: Tracked, ackno: U32, win: U16)
    requires TrackedInv(t)
    ensures TrackedInv(TrackedStep(t, DoAck(ackno, win)))
  {
    AckKeeps(t.s, ackno, win);
    if Accepts(t.s, ackno) {
      var s' := AckReceived(t.s, ackno, win);
      AckTimer(t.s, ackno, win);
      if Pops(t.s, ackno) { TimerRestarts(s'); } else { TimerRuns(t.s, s', t.backoffs, t.clock); }
    }
  }

  lemma {:induction false} StepKeepsTracked(t: Tracked, ev: SenderEvent)
    requires TrackedInv(t)
    ensures TrackedInv(TrackedStep(t, ev))
  {
    match ev
    case DoAck(ackno, win) => AckKeepsTracked(t, ackno, win);
    case DoTick(ms) => TickKeepsTracked(t, ms);
    case _ => OtherKeepsSender(t.s, ev); TimerRuns(t.s, SenderStep(t.s, ev), t.backoffs, t.clock);
  }

  /** Neither an acknowledgment nor a tick: the timer is left alone. */
  lemma {:induction false} OtherKeepsSender(s: Sender, ev: SenderEvent)
    requires SenderInv(s) && !ev.DoAck? && !ev.DoTick?
    ensures var s' := SenderStep(s, ev);
            && SenderInv(s') && Lowest(s') <= Lowest(s)
            && s'.rto == s.rto && s'.initialRto == s.initialRto && s'.elapsed == s.elapsed
            && (s'.outstanding == [] ==> s.outstanding == [])
  {
    match ev
    case DoWrite(data) => WriteKeeps(s, data);
    case DoEnd => EndKeeps(s);
    case DoFill => FillKeeps(s); FillKeepsTimer(s); FillLoopExtends(s, EffectiveWindow(s));
    case DoEmpty => SendEmptyKeeps(s);
    case DoDequeue =>
      var s' := SenderStep(s, ev);
      AllSentStays(s, s', s.out);
      AllSentStays(s, s', s.outstanding);
  }

  lemma {:induction false} TickKeepsTracked(t: Tracked, ms: nat)
    requires TrackedInv(t)
    ensures TrackedInv(TrackedStep(t, DoTick(ms)))
  {
    TickKeeps(t.s, ms);
    DoubledMod(t.s.initialRto, t.backoffs);
    ExpiresOnTime(t, ms);
    AddedTime(t.clock, ms);
  }

  lemma AddedTime(x: nat, y: nat)
    ensures (x % TWO32 + y) % TWO32 == (x + y) % TWO32
  {
  }

  /** The sender's own test is the clock's. */
  lemma {:induction false} ExpiresOnTime(t: Tracked, ms: nat)
    requires TrackedInv(t)
    ensures Expires(t.s, ms) <==> TimeIsUp(t, ms)
  {
    AddedTime(t.clock, ms);
    TilesOrder(t.s.outstanding, Lowest(t.s), t.s.next);
  }

  lemma {:induction false} RunKeepsTracked(t: Tracked, evs: seq<SenderEvent>)
    requires TrackedInv(t)
    ensures TrackedInv(TrackedRun(t, evs))
    decreases |evs|
  {
    if evs != [] {
      StepKeepsTracked(t, evs[0]);
      RunKeepsTracked(TrackedStep(t, evs[0]), evs[1..]);
    }
  }

  lemma {:induction false} NewTrackedInv(capacity: nat, rto: U16, isn: U32)
    ensures TrackedInv(NewTracked(capacity, rto, isn))
  {
    TimerRestarts(NewSender(capacity, rto, isn));
  }

  // ---------------------------------------------------------------- theorems over runs

  /** The retransmission queue: in every reachable state each unacknowledged number belongs to exactly one
      outstanding segment, nothing else is outstanding, every payload is the slice of the written stream its
      number says, and the counters tell how far the stream has been read. */
  lemma {:induction false} QueueTiles(capacity: nat, rto: U16, isn: U32, evs: seq<SenderEvent>, x: nat)
    ensures var s := TrackedRun(NewTracked(capacity, rto, isn), evs).s;
            var q := s.outstanding;
            && (Lowest(s) <= x < s.next <==> exists i | 0 <= i < |q| :: q[i].seqno <= x < q[i].End())
            && (forall i, j | 0 <= i < |q| && 0 <= j < |q| && q[i].seqno <= x < q[i].End()
                              && q[j].seqno <= x < q[j].End() :: i == j)
            && (forall i | 0 <= i < |q| :: Genuine(s.stream, isn, q[i]))
            && (s.next > 0 ==> s.next == 1 + s.stream.popped + if s.phase == FinSent then 1 else 0)
  {
    var t0 := NewTracked(capacity, rto, isn);
    NewTrackedInv(capacity, rto, isn);
    RunKeepsTracked(t0, evs);
    RunKeepsConstants(t0, evs);
    var s := TrackedRun(t0, evs).s;
    TilesBounds(s.outstanding, Lowest(s), s.next);
    if Lowest(s) <= x < s.next {
      TilesUnique(s.outstanding, Lowest(s), s.next, x);
    }
    assert forall i | 0 <= i < |s.outstanding| :: Sent(s, s.outstanding[i]);
  }

  lemma {:induction false} PopKeepsConstants(s: Sender, ack: nat)
    ensures var s' := PopAcked(s, ack); s'.isn == s.isn && s'.initialRto == s.initialRto && s'.stream == s.stream
    decreases |s.outstanding|
  {
    if s.outstanding != [] && s.outstanding[0].End() <= ack {
      PopKeepsConstants(s.(outstanding := s.outstanding[1..],
                           inFlight := s.inFlight - SeqLength(s.outstanding[0].seg),
                           elapsed := 0, rto := s.initialRto), ack);
    }
  }

  ghost predicate SameConstants(s: Sender, s': Sender) {
    s'.isn == s.isn && s'.initialRto == s.initialRto && s'.stream.error == s.stream.error
  }

  lemma {:induction false} StepKeepsConstants(s: Sender, ev: SenderEvent)
    ensures SameConstants(s, SenderStep(s, ev))
  {
    if ev.DoFill? { FillLoopExtends(s, EffectiveWindow(s)); }
    if ev.DoAck? && Accepts(s, ev.ackno) {
      PopKeepsConstants(s.(window := ev.win, retransmissions := 0), ReceivedAck(s, ev.ackno));
      var s1 := TakeAck(s, ev.ackno, ev.win);
      FillLoopExtends(s1, EffectiveWindow(s1));
    }
  }

  lemma {:induction false} RunKeepsConstants(t: Tracked, evs: seq<SenderEvent>)
    ensures SameConstants(t.s, TrackedRun(t, evs).s)
    decreases |evs|
  {
    if evs != [] {
      StepKeepsConstants(t.s, evs[0]);
      RunKeepsConstants(TrackedStep(t, evs[0]), evs[1..]);
    }
  }

  /** Window obedience: in every run, every sequence number sent for the first time after the SYN lies below
      the last accepted acknowledgment number plus its window, a zero window counting as one. */
  lemma {:induction false} WindowObeyed(capacity: nat, rto: U16, isn: U32, evs: seq<SenderEvent>,
                                        ev: SenderEvent, x: nat)
    ensures var t := TrackedRun(NewTracked(capacity, rto, isn), evs);
            var t' := TrackedStep(t, ev);
            t.s.phase != Closed && t.s.next <= x < t'.s.next
            ==> x < t'.lastAck + EffectiveWindow(t'.s)
  {
    var t := TrackedRun(NewTracked(capacity, rto, isn), evs);
    NewTrackedInv(capacity, rto, isn);
    RunKeepsTracked(NewTracked(capacity, rto, isn), evs);
    if t.s.phase != Closed {
      if ev.DoFill? {
        FillLoopKeeps(t.s, EffectiveWindow(t.s));
        FillKeepsTimer(t.s);
      }
      if ev.DoAck? && Accepts(t.s, ev.ackno) {
        TakeAckKeeps(t.s, ev.ackno, ev.win);
        var s1 := TakeAck(t.s, ev.ackno, ev.win);
        if s1.phase == SynAcked {
          FillLoopKeeps(s1, EffectiveWindow(s1));
          FillKeepsTimer(s1);
        }
      }
    }
  }

  /** A tick after which the elapsed time is not below the timeout: the timeout is zero, or this tick doubles it
      out of 32 bits. */
  predicate LosesTimeout(s: Sender, ms: nat) {
    s.rto == 0 || (s.rto == TWO31 && s.window != 0 && Expires(s, ms))
  }

  /** Timer discipline (section 5 of RFC 6298): the timeout is the initial one doubled for each expiry since
      the last popped segment, in 32 bits; the elapsed time is the true time since the timer started over, in 32
      bits, and none counts while nothing is outstanding; after a tick it is below the timeout, exactly unless the
      timeout is lost to overflow. */
  lemma {:induction false} TimerDiscipline(capacity: nat, rto: U16, isn: U32, evs: seq<SenderEvent>, ms: nat)
    ensures var t := TrackedRun(NewTracked(capacity, rto, isn), evs);
            var s' := Tick(t.s, ms);
            && t.s.initialRto == rto
            && t.s.rto == (rto * Pow2(t.backoffs)) % TWO32
            && t.s.elapsed == t.clock % TWO32
            && (t.s.outstanding == [] ==> t.clock == 0)
            && (s'.elapsed < s'.rto <==> !LosesTimeout(t.s, ms))
  {
    var t := TrackedRun(NewTracked(capacity, rto, isn), evs);
    NewTrackedInv(capacity, rto, isn);
    RunKeepsTracked(NewTracked(capacity, rto, isn), evs);
    RunKeepsConstants(NewTracked(capacity, rto, isn), evs);
    TilesOrder(t.s.outstanding, Lowest(t.s), t.s.next);
    assert t.s.phase == Closed ==> t.s.outstanding == [];
    DoubledToZero(t.s.rto);
  }

  /** In every run a tick retransmits exactly when the true time since the timer started over reaches the timeout
      (in 32 bits), and what it queues is then the oldest outstanding segment and nothing else. */
  lemma {:induction false} RetransmitsOnTime(capacity: nat, rto: U16, isn: U32, evs: seq<SenderEvent>, ms: nat)
    ensures var t := TrackedRun(NewTracked(capacity, rto, isn), evs);
            Tick(t.s, ms).out == t.s.out + (if TimeIsUp(t, ms) then [t.s.outstanding[0]] else [])
  {
    var t := TrackedRun(NewTracked(capacity, rto, isn), evs);
    NewTrackedInv(capacity, rto, isn);
    RunKeepsTracked(NewTracked(capacity, rto, isn), evs);
    ExpiresOnTime(t, ms);
    assert t.s.out + [] == t.s.out;
  }

  // ---------------------------------------------------------------- everything numbered is sent

  ghost predicate Spans(q: seq<Numbered>, x: nat) {
    exists i | 0 <= i < |q| :: q[i].seqno <= x < q[i].End()
  }

  lemma {:induction false} SpansMore(q: seq<Numbered>, more: seq<Numbered>, x: nat)
    requires Spans(q, x) || Spans(more, x)
    ensures Spans(q + more, x)
  {
    if Spans(q, x) {
      var i :| 0 <= i < |q| && q[i].seqno <= x < q[i].End();
      assert (q + more)[i] == q[i];
    } else {
      var i :| 0 <= i < |more| && more[i].seqno <= x < more[i].End();
      assert (q + more)[|q| + i] == more[i];
    }
  }

  /** A step that uses new numbers queues segments that span them. */
  lemma {:induction false} StepSpans(t: Tracked, ev: SenderEvent, x: nat)
    requires TrackedInv(t) && t.s.next <= x < SenderStep(t.s, ev).next
    ensures Spans(Queues(t.s, SenderStep(t.s, ev)), x)
  {
    if ev.DoFill? {
      FillSpans(t.s, x);
    } else {
      TakeAckKeeps(t.s, ev.ackno, ev.win);
      FillSpans(TakeAck(t.s, ev.ackno, ev.win), x);
    }
  }

  lemma {:induction false} FillSpans(s: Sender, x: nat)
    requires SenderInv(s) && s.next <= x < FillWindow(s).next
    ensures Spans(Queues(s, FillWindow(s)), x)
  {
    var s' := FillWindow(s);
    var q := Queues(s, s');
    if s.phase == Closed {
      assert q[0].seqno <= x < q[0].End();
    } else {
      var sent := FillSent(s, EffectiveWindow(s));
      FillLoopExtends(s, EffectiveWindow(s));
      assert q == sent;
      TilesUnique(sent, s.next, s'.next, x);
    }
  }

  lemma {:induction false} RunSpans(t: Tracked, evs: seq<SenderEvent>, x: nat)
    requires TrackedInv(t) && (x < t.s.next ==> Spans(t.sent, x))
    ensures var t' := TrackedRun(t, evs); x < t'.s.next ==> Spans(t'.sent, x)
    decreases |evs|
  {
    if evs != [] {
      var t1 := TrackedStep(t, evs[0]);
      StepKeepsTracked(t, evs[0]);
      if x < t1.s.next {
        if x >= t.s.next { StepSpans(t, evs[0], x); }
        SpansMore(t.sent, Queues(t.s, t1.s), x);
      }
      RunSpans(t1, evs[1..], x);
    }
  }

  /** In every run each number below the next one, the SYN's and the FIN's included, has been queued for sending. */
  lemma {:induction false} EveryNumberSent(capacity: nat, rto: U16, isn: U32, evs: seq<SenderEvent>, x: nat)
    ensures var t := TrackedRun(NewTracked(capacity, rto, isn), evs);
            x < t.s.next ==> Spans(t.sent, x)
  {
    NewTrackedInv(capacity, rto, isn);
    RunSpans(NewTracked(capacity, rto, isn), evs, x);
  }

  lemma DoubledToZero(x: U32)
    ensures (x * 2) % TWO32 == 0 <==> x == 0 || x == TWO31
  {
  }

  /** As long as doubling has not overflowed, the timeout is within 512 times its initial value exactly when it
      has been doubled at most nine times since a segment was last popped. */
  lemma {:induction false} RtoBound(capacity: nat, rto: U16, isn: U32, evs: seq<SenderEvent>)
    ensures var t := TrackedRun(NewTracked(capacity, rto, isn), evs);
            rto * Pow2(t.backoffs) < TWO32 ==> (t.s.rto <= 512 * rto <==> t.backoffs <= 9 || rto == 0)
  {
    TimerDiscipline(capacity, rto, isn, evs, 0);
    WithinUnlessOverflown(rto, TrackedRun(NewTracked(capacity, rto, isn), evs).backoffs);
  }

  lemma {:induction false} WithinUnlessOverflown(rto: nat, k: nat)
    ensures rto * Pow2(k) < TWO32 ==> ((rto * Pow2(k)) % TWO32 <= 512 * rto <==> k <= 9 || rto == 0)
  {
    DoublingsWithin(rto, k);
    var doubled := rto * Pow2(k);
    if doubled < TWO32 { assert doubled % TWO32 == doubled; }
  }

  lemma {:induction false} DoublingsWithin(rto: nat, k: nat)
    ensures rto * Pow2(k) <= 512 * rto <==> k <= 9 || rto == 0
  {
    Pow2Values();
    if k <= 9 {
      Pow2Monotone(k, 9);
      MulMonotone(rto, Pow2(k), 512);
    } else {
      Pow2Monotone(10, k);
      MulMonotone(rto, 1024, Pow2(k));
    }
  }

  /** A SYN that is never acknowledged, and `k` expiries. */
  function Unanswered(k: nat): seq<SenderEvent> {
    if k == 0 then [DoFill] else Unanswered(k - 1) + [DoTick(TWO32 - 1)]
  }

  lemma {:induction false} TrackedRunSnoc(t: Tracked, evs: seq<SenderEvent>, ev: SenderEvent)
    ensures TrackedRun(t, evs + [ev]) == TrackedStep(TrackedRun(t, evs), ev)
    decreases |evs|
  {
    if evs == [] {
      assert (evs + [ev])[1..] == [];
    } else {
      assert (evs + [ev])[1..] == evs[1..] + [ev];
      TrackedRunSnoc(TrackedStep(t, evs[0]), evs[1..], ev);
    }
  }

  lemma {:induction false} UnansweredState(capacity: nat, rto: U16, isn: U32, k: nat)
    ensures var t := TrackedRun(NewTracked(capacity, rto, isn), Unanswered(k));
            t.backoffs == k && t.s.phase == SynSent && t.s.window == 1 && t.s.elapsed == 0 == t.clock && t.s.alarm
            && t.s.outstanding != [] && t.s.rto < TWO32
  {
    if k > 0 {
      UnansweredState(capacity, rto, isn, k - 1);
      TrackedRunSnoc(NewTracked(capacity, rto, isn), Unanswered(k - 1), DoTick(TWO32 - 1));
    } else {
      TrackedRunSnoc(NewTracked(capacity, rto, isn), [], DoFill);
    }
  }

  /** Nothing in the sender stops the doubling: with the default timeout of 1000 ms, after 29 expiries or more
      the 32-bit timeout is zero, and every tick retransmits. */
  lemma {:induction false} TimeoutCollapses(capacity: nat, isn: U32, ms: nat, k: nat)
    requires k >= 29
    ensures var s := TrackedRun(NewTracked(capacity, 1000, isn), Unanswered(k)).s;
            s.rto == 0 && Expires(s, ms)
  {
    UnansweredState(capacity, 1000, isn, k);
    TimerDiscipline(capacity, 1000, isn, Unanswered(k), 0);
    Pow2Splits(29, k - 29);
    Pow2Values();
    MultipleMod(Pow2(k - 29));
  }

  lemma MultipleMod(x: nat)
    ensures (1000 * (0x2000_0000 * x)) % TWO32 == 0
  {
    assert 1000 * (0x2000_0000 * x) == TWO32 * (125 * x);
  }
}
