/** The state summaries computed from counters, and the sender's own record of its phase. */
module TcpState {
  import opened Basics
  import opened WrappingIntegers
  import opened StreamModel
  import opened Reassembler64
  import opened ReceiverModel
  import opened SenderModel
  import opened SenderRuns

  datatype SenderSummary = SenderError | SenderClosed | SenderSynSent | SenderSynAcked | SenderFinSent | SenderFinAcked

  datatype ReceiverSummary = ReceiverError | Listen | SynReceived | FinReceived

  function SummarizeSender(s: Sender): SenderSummary {
    if s.stream.error then SenderError
    else if s.next == 0 then SenderClosed
    else if s.next == s.inFlight then SenderSynSent
    else if !Eof(s.stream) then SenderSynAcked
    else if s.next < |s.stream.history| + 2 then SenderSynAcked
    else if s.inFlight != 0 then SenderFinSent
    else SenderFinAcked
  }

  function SummarizeReceiver(r: Receiver): ReceiverSummary {
    if Output(r).error then ReceiverError
    else if r.inListen then Listen
    else if Output(r).ended then FinReceived
    else SynReceived
  }

  /** The summary tells the phase, and splits the last one by whether anything is in flight. */
  lemma SummaryTellsPhase(s: Sender)
    requires SenderInv(s) && !s.stream.error
    ensures SummarizeSender(s) ==
            match s.phase {
              case Closed => SenderClosed
              case SynSent => SenderSynSent
              case SynAcked => SenderSynAcked
              case FinSent => if s.outstanding == [] then SenderFinAcked else SenderFinSent
            }
  {
    TilesOrder(s.outstanding, Lowest(s), s.next);
  }

  predicate BringsSyn(evs: seq<ReceiverEvent>) {
    exists k | 0 <= k < |evs| :: evs[k].Arrive? && evs[k].seg.header.syn
  }

  lemma {:induction false} RunListens(r: Receiver, evs: seq<ReceiverEvent>)
    requires r.inListen ==> !Output(r).ended
    ensures var r' := ReceiverRun(r, evs);
            && (r'.inListen <==> r.inListen && !BringsSyn(evs))
            && Output(r').error == Output(r).error
            && (r'.inListen ==> !Output(r').ended)
    decreases |evs|
  {
    if evs != [] {
      var r1 := ReceiverStep(r, evs[0]);
      StepListens(r, evs[0]);
      RunListens(r1, evs[1..]);
      if BringsSyn(evs) {
        var k :| 0 <= k < |evs| && evs[k].Arrive? && evs[k].seg.header.syn;
        if k > 0 { assert evs[1..][k - 1] == evs[k]; }
      }
      if BringsSyn(evs[1..]) {
        var k :| 0 <= k < |evs[1..]| && evs[1..][k].Arrive? && evs[1..][k].seg.header.syn;
        assert evs[k + 1] == evs[1..][k];
      }
    }
  }

  lemma {:induction false} StepListens(r: Receiver, ev: ReceiverEvent)
    ensures var r' := ReceiverStep(r, ev);
            && (r'.inListen <==> r.inListen && !(ev.Arrive? && ev.seg.header.syn))
            && Output(r').error == Output(r).error
            && (r'.inListen ==> Output(r').ended == Output(r).ended)
  {
    if ev.Arrive? {
      var seg := ev.seg;
      var r1 := if r.inListen then r.(inListen := false, isn := seg.header.seqno) else r;
      var absSeq := Unwrap64(seg.header.seqno, r1.isn, |Output(r1).history|);
      Push64Grows(r1.reasm, seg.payload, StreamIndex(absSeq, seg.header.syn), seg.header.fin);
    }
  }

  /** In every run of a receiver: it listens exactly until a SYN arrives, and has received a FIN exactly when its
      output has ended. */
  lemma {:induction false} ReceiverSummaryOverRuns(capacity: nat, isn: U32, evs: seq<ReceiverEvent>)
    ensures var r := ReceiverRun(NewReceiver(capacity, isn), evs);
            var sum := SummarizeReceiver(r);
            && sum != ReceiverError
            && (sum == Listen <==> !BringsSyn(evs))
            && (sum == FinReceived <==> Output(r).ended)
  {
    RunListens(NewReceiver(capacity, isn), evs);
  }

  /** In every reachable state of a sender. */
  lemma {:induction false} SummaryOverRuns(capacity: nat, rto: U16, isn: U32, evs: seq<SenderEvent>)
    ensures var s := TrackedRun(NewTracked(capacity, rto, isn), evs).s;
            var sum := SummarizeSender(s);
            && !s.stream.error
            && (sum == SenderClosed <==> s.phase == Closed)
            && (sum == SenderSynSent <==> s.phase == SynSent)
            && (sum == SenderSynAcked <==> s.phase == SynAcked)
            && (sum == SenderFinSent <==> s.phase == FinSent && s.inFlight > 0)
            && (sum == SenderFinAcked <==> s.phase == FinSent && s.inFlight == 0)
  {
    NewTrackedInv(capacity, rto, isn);
    RunKeepsTracked(NewTracked(capacity, rto, isn), evs);
    RunKeepsConstants(NewTracked(capacity, rto, isn), evs);
    var s := TrackedRun(NewTracked(capacity, rto, isn), evs).s;
    SummaryTellsPhase(s);
    TilesOrder(s.outstanding, Lowest(s), s.next);
  }
}
