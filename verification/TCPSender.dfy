/** The sender object: queues pushed and popped in loops, counters and a timer updated in place. */
module Senders {
  import opened Basics
  import opened WrappingIntegers
  import opened StreamModel
  import opened Segments
  import opened SenderModel
  import opened ByteStreams

  class TCPSender {
    const isn: U32
    const initialTimeout: U16
    const stream: ByteStream
    var segmentsOut: seq<TCPSegment>
    var nextSeqno: nat
    var outstanding: seq<Numbered>
    var remainingTime: nat
    var timeout: U32
    var alarmRun: bool
    var bytesInFlight: nat
    var phase: Phase
    var windowSize: nat
    var retransmissionCount: nat
    /** The absolute numbers of the queued segments. */
    ghost var queued: seq<Numbered>

    ghost predicate Represented()
      reads this, stream
    {
      && stream.Valid()
      && |queued| == |segmentsOut|
      && forall i | 0 <= i < |queued| :: queued[i].seg == segmentsOut[i]
    }

    ghost function State(): Sender
      requires Represented()
      reads this, stream
    {
      Sender(isn, initialTimeout, stream.State(), nextSeqno, outstanding, queued, remainingTime, timeout,
             alarmRun, bytesInFlight, phase, windowSize, retransmissionCount)
    }

    ghost predicate Valid()
      reads this, stream
    {
      Represented() && SenderInv(State())
    }

    constructor (capacity: nat, retxTimeout: U16, fixedIsn: U32)
      ensures Valid() && State() == NewSender(capacity, retxTimeout, fixedIsn)
      ensures fresh(stream)
    {
      isn, initialTimeout := fixedIsn, retxTimeout;
      stream := new ByteStream(capacity);
      segmentsOut, queued, outstanding := [], [], [];
      nextSeqno, bytesInFlight, remainingTime, retransmissionCount := 0, 0, 0, 0;
      timeout, alarmRun, phase, windowSize := retxTimeout, false, Closed, 1;
    }

    method Enqueue(n: Numbered)
      requires Represented()
      modifies this
      ensures Represented() && State() == old(State()).(out := old(State()).out + [n])
    {
      segmentsOut := segmentsOut + [n.seg];
      queued := queued + [n];
    }

    /** The owner takes the segment at the head of the queue. */
    method Dequeue() returns (seg: TCPSegment)
      requires Valid() && segmentsOut != []
      modifies this
      ensures Valid() && State() == old(State()).(out := old(State()).out[1..])
      ensures seg == old(segmentsOut)[0] == old(State()).out[0].seg
    {
      seg := segmentsOut[0];
      segmentsOut := segmentsOut[1..];
      queued := queued[1..];
      AllSentStays(old(State()), State(), old(State()).out);
      AllSentStays(old(State()), State(), outstanding);
    }

    method SendSynSegment()
      requires Valid() && phase == Closed
      modifies this
      ensures Valid() && State() == SendSyn(old(State()))
    {
      SendSynKeeps(State());
      var segment := TCPSegment(DEFAULT_HEADER.(seqno := Wrap(nextSeqno, isn), syn := true), []);
      var seqno := nextSeqno;
      phase := SynSent;
      nextSeqno := 1;
      bytesInFlight := 1;
      alarmRun := true;
      Enqueue(Numbered(seqno, segment));
      outstanding := outstanding + [Numbered(0, segment)];
    }

    /** Read the next payload and decide on the FIN. */
    method MakeSegment(room: nat) returns (segment: TCPSegment)
      requires Represented()
      modifies this, stream
      ensures Represented()
      ensures segment == NextSegment(old(State()), room).seg
      ensures State() == old(State()).(stream := Pop(old(State()).stream, Min(MAX_PAYLOAD_SIZE, room)),
                                       phase := if segment.header.fin then FinSent else old(phase))
    {
      var header := DEFAULT_HEADER.(seqno := Wrap(nextSeqno, isn));
      var payload := stream.Read(Min(MAX_PAYLOAD_SIZE, room));
      if stream.AtEof() && room > |payload| {
        header := header.(fin := true);
        phase := FinSent;
      }
      segment := TCPSegment(header, payload);
    }

    /** Queue a segment, for sending and for a possible retransmission. */
    method Record(segment: TCPSegment)
      requires Represented()
      modifies this
      ensures Represented()
      ensures var n := Numbered(old(nextSeqno), segment);
              State() == old(State()).(out := old(State()).out + [n],
                                       outstanding := old(outstanding) + [n],
                                       inFlight := old(State()).inFlight + SeqLength(segment),
                                       next := old(nextSeqno) + SeqLength(segment))
    {
      var n := Numbered(nextSeqno, segment);
      Enqueue(n);
      outstanding := outstanding + [n];
      bytesInFlight := bytesInFlight + SeqLength(segment);
      nextSeqno := nextSeqno + SeqLength(segment);
    }

    /** One turn of the loop below. */
    method SendNext(room: nat) returns (more: bool)
      requires Valid() && phase == SynAcked && 0 < room && bytesInFlight + room <= 0xFFFF
      modifies this, stream
      ensures Valid()
      ensures more <==> SeqLength(NextSegment(old(State()), room).seg) > 0
      ensures State() == if more then Transmit(old(State()), room) else old(State())
    {
      ghost var before := State();
      var segment := MakeSegment(room);
      if SeqLength(segment) == 0 {
        assert State() == before;
        return false;
      }
      Record(segment);
      TransmitKeeps(before, before.inFlight + room);
      assert State() == Transmit(before, room);
      return true;
    }

    method FillWindow()
      requires Valid()
      modifies this, stream
      ensures Valid() && State() == SenderModel.FillWindow(old(State()))
    {
      if phase == Closed {
        SendSynSegment();
        return;
      }
      var window := if windowSize == 0 then 1 else windowSize;
      var more := true;
      while more && phase == SynAcked && window > bytesInFlight
        invariant Valid() && windowSize == old(windowSize)
        invariant FillLoop(State(), window) == FillLoop(old(State()), window)
        invariant !more ==> FillLoop(State(), window) == State()
        decreases more, window - bytesInFlight
      {
        more := SendNext(window - bytesInFlight);
      }
    }

    /** Take the oldest outstanding segment off the queue and restart the timer. */
    method PopFront()
      requires Represented() && outstanding != [] && SeqLength(outstanding[0].seg) <= bytesInFlight
      modifies this
      ensures Represented()
      ensures State() == old(State()).(outstanding := old(outstanding)[1..],
                                       inFlight := old(State()).inFlight - SeqLength(old(outstanding)[0].seg),
                                       elapsed := 0, rto := initialTimeout)
    {
      bytesInFlight := bytesInFlight - SeqLength(outstanding[0].seg);
      outstanding := outstanding[1..];
      remainingTime := 0;
      timeout := initialTimeout;
    }

    /** Pop every segment that ends by `ack`. */
    method PopOutstanding(ack: nat)
      requires Represented() && Tiles(outstanding, Lowest(State()), nextSeqno) && Lowest(State()) <= ack <= nextSeqno
      modifies this
      ensures Represented() && State() == PopAcked(old(State()), ack)
    {
      while outstanding != []
        invariant Represented() && Tiles(outstanding, Lowest(State()), nextSeqno)
        invariant nextSeqno == old(nextSeqno)
        invariant PopAcked(State(), ack) == PopAcked(old(State()), ack)
        decreases |outstanding|
      {
        var front := outstanding[0];
        if front.seqno + SeqLength(front.seg) > ack {
          break;
        }
        TilesOrder(outstanding[1..], front.End(), nextSeqno);
        PopFront();
      }
    }

    method AckReceived(ackno: U32, win: U16)
      requires Valid()
      modifies this, stream
      ensures Valid() && State() == SenderModel.AckReceived(old(State()), ackno, win)
    {
      var received := Unwrap64(ackno, isn, stream.bytesRead);
      if received > nextSeqno || received < nextSeqno - bytesInFlight {
        return;
      }
      TakeAckKeeps(State(), ackno, win);
      windowSize := win;
      retransmissionCount := 0;
      PopOutstanding(received);
      if phase == SynSent && bytesInFlight < nextSeqno {
        phase := SynAcked;
      }
      assert State() == TakeAck(old(State()), ackno, win);
      if phase == SynAcked {
        FillWindow();
      }
    }

    method Tick(ms: nat)
      requires Valid()
      modifies this
      ensures Valid() && State() == SenderModel.Tick(old(State()), ms)
    {
      TickKeeps(State(), ms);
      if !alarmRun {
        return;
      }
      remainingTime := (remainingTime + ms) % TWO32;
      if outstanding == [] {
        remainingTime := 0;
      } else if remainingTime >= timeout {
        assert Expires(old(State()), ms);
        if windowSize != 0 {
          timeout := (timeout * 2) % TWO32;
        }
        Enqueue(outstanding[0]);
        retransmissionCount := retransmissionCount + 1;
        remainingTime := 0;
      }
      assert State() == SenderModel.Tick(old(State()), ms);
    }

    method SendEmptySegment()
      requires Valid()
      modifies this
      ensures Valid() && State() == SendEmpty(old(State()))
    {
      SendEmptyKeeps(State());
      Enqueue(Numbered(nextSeqno, TCPSegment(DEFAULT_HEADER.(seqno := Wrap(nextSeqno, isn)), [])));
    }

    method WriteStream(data: seq<Byte>) returns (accepted: nat)
      requires Valid()
      modifies stream
      ensures Valid() && State() == WriteData(old(State()), data)
      ensures accepted == WriteSize(old(State()).stream, data)
    {
      WriteKeeps(State(), data);
      accepted := stream.Write(data);
    }

    method EndStream()
      requires Valid()
      modifies stream
      ensures Valid() && State() == EndData(old(State()))
    {
      EndKeeps(State());
      stream.EndInput();
    }
  }
}
