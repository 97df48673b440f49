/** The endpoint object, which owns a sender and a receiver. */
module Connections {
  import opened Basics
  import opened StreamModel
  import opened Segments
  import opened SenderModel
  import opened TcpState
  import opened ConnectionModel
  import opened Receivers
  import opened Senders

  class TCPConnection {
    const rtTimeout: U16
    const receiver: TCPReceiver
    const sender: TCPSender
    var segmentsOut: seq<TCPSegment>
    var linger: bool
    var active: bool
    var timeSinceLastSegment: int
    /** The queued segments with their absolute numbers. */
    ghost var packets: seq<Packet>

    ghost function Parts(): set<object> {
      {sender, sender.stream, receiver, receiver.reassembler, receiver.reassembler.output}
    }

    ghost predicate Valid()
      reads this, Parts()
    {
      && sender.Valid() && receiver.Valid()
      && sender.stream != receiver.reassembler.output
      && |packets| == |segmentsOut|
      && forall i | 0 <= i < |packets| :: packets[i].seg == segmentsOut[i]
    }

    ghost function State(): Connection
      requires Valid()
      reads this, Parts()
    {
      Connection(rtTimeout, sender.State(), receiver.State(), packets, linger, active, timeSinceLastSegment)
    }

    constructor (rtTimeout: U16, sendCapacity: nat, recvCapacity: nat, isn: U32, recvIsn: U32)
      ensures Valid() && State() == NewConnection(rtTimeout, sendCapacity, recvCapacity, isn, recvIsn)
    {
      this.rtTimeout := rtTimeout;
      receiver := new TCPReceiver(recvCapacity, recvIsn);
      sender := new TCPSender(sendCapacity, rtTimeout, isn);
      segmentsOut, packets := [], [];
      linger, active, timeSinceLastSegment := true, true, 0;
    }

    function SenderState(): (s: SenderSummary)
      requires Valid()
      reads this, Parts()
      ensures s == SummarizeSender(State().sender)
    {
      if sender.stream.hasError then SenderError
      else if sender.nextSeqno == 0 then SenderClosed
      else if sender.nextSeqno == sender.bytesInFlight then SenderSynSent
      else if !sender.stream.AtEof() then SenderSynAcked
      else if sender.nextSeqno < sender.stream.bytesWritten + 2 then SenderSynAcked
      else if sender.bytesInFlight != 0 then SenderFinSent
      else SenderFinAcked
    }

    function ReceiverState(): (s: ReceiverSummary)
      requires Valid()
      reads this, Parts()
      ensures s == SummarizeReceiver(State().receiver)
    {
      if receiver.reassembler.output.hasError then ReceiverError
      else if receiver.Ackno().None? then Listen
      else if receiver.reassembler.output.inputEnded then FinReceived
      else SynReceived
    }

    method TryCleanShutdown()
      requires Valid()
      modifies this
      ensures Valid() && State() == ConnectionModel.TryCleanShutdown(old(State()))
    {
      if receiver.reassembler.output.inputEnded {
        if SenderState() == SenderSynAcked {
          linger := false;
        } else if SenderState() == SenderFinAcked {
          if !linger || timeSinceLastSegment >= 10 * rtTimeout {
            active := false;
          }
        }
      }
    }

    method KillConnection()
      requires Valid()
      modifies this, sender.stream, receiver.reassembler.output
      ensures Valid() && State() == ConnectionModel.KillConnection(old(State()))
    {
      ghost var s := sender.State();
      sender.stream.SetError();
      AllSentStays(s, sender.State(), s.out);
      AllSentStays(s, sender.State(), s.outstanding);
      receiver.reassembler.output.SetError();
      active := false;
      linger := false;
    }

    method Emit(seg: TCPSegment, ghost p: Packet)
      requires Valid() && p.seg == seg
      modifies this
      ensures Valid() && State() == old(State()).(out := old(State()).out + [p])
    {
      segmentsOut := segmentsOut + [seg];
      packets := packets + [p];
    }

    /** Move the segment at the head of the sender's queue to the connection's. */
    method FetchOne()
      requires Valid() && sender.segmentsOut != []
      modifies this, sender
      ensures Valid()
      ensures var c := old(State());
              State() == c.(sender := c.sender.(out := c.sender.out[1..]),
                            out := c.out + [Stamp(c.sender.out[0], c.receiver)])
    {
      ghost var n := sender.queued[0];
      var segment := sender.Dequeue();
      var ackno := receiver.Ackno();
      if ackno.Some? {
        segment := segment.(header := segment.header.(ack := true, ackno := ackno.value,
                                                      win := Min(0xFFFF, receiver.Window())));
      }
      Emit(segment, Stamp(n, receiver.State()));
    }

    /** A turn of the loop below leaves the rest to be fetched; with an empty queue nothing is left. */
    lemma FetchTurn(c: Connection)
      ensures if c.sender.out == [] then FetchSegments(c) == c
              else FetchSegments(c) == FetchSegments(c.(sender := c.sender.(out := c.sender.out[1..]),
                                                        out := c.out + [Stamp(c.sender.out[0], c.receiver)]))
    {
      assert c.out + [] == c.out;
      if c.sender.out != [] {
        assert c.out + StampAll(c.sender.out, c.receiver)
            == (c.out + [Stamp(c.sender.out[0], c.receiver)]) + StampAll(c.sender.out[1..], c.receiver);
      }
    }

    method FetchSegment()
      requires Valid()
      modifies this, sender
      ensures Valid() && State() == FetchSegments(old(State()))
    {
      while sender.segmentsOut != []
        invariant Valid()
        invariant FetchSegments(State()) == FetchSegments(old(State()))
        decreases |sender.segmentsOut|
      {
        FetchTurn(State());
        FetchOne();
      }
      FetchTurn(State());
    }

    method SendRstSegment()
      requires Valid()
      modifies this, sender
      ensures Valid() && State() == SendReset(old(State()))
    {
      sender.SendEmptySegment();
      ghost var n := sender.queued[0];
      var segment := sender.Dequeue();
      segment := segment.(header := segment.header.(rst := true));
      var ackno := receiver.Ackno();
      if ackno.Some? {
        segment := segment.(header := segment.header.(ack := true, ackno := ackno.value,
                                                      win := receiver.Window() % 0x1_0000));
      }
      Emit(segment, StampReset(n, receiver.State()));
      active := false;
    }

    method SendSegment()
      requires Valid()
      modifies this, sender, sender.stream
      ensures Valid() && State() == SendSegments(old(State()))
    {
      sender.FillWindow();
      FetchSegment();
    }

    /** Fill the window, and queue an empty segment if the peer must hear something and nothing else goes out. */
    method Answer(seg: TCPSegment)
      requires Valid()
      modifies sender, sender.stream
      ensures Valid() && State() == Reply(old(State()), seg)
    {
      sender.FillWindow();
      if SeqLength(seg) != 0 {
        if sender.segmentsOut == [] {
          sender.SendEmptySegment();
        }
      } else {
        var ackno := receiver.Ackno();
        if ackno.Some? && seg.header.seqno == (ackno.value - 1) % TWO32 {
          sender.SendEmptySegment();
        }
      }
    }

    method TakeSegment(seg: TCPSegment)
      requires Valid()
      modifies this, Parts()
      ensures Valid() && State() == Digest(old(State()), seg)
    {
      timeSinceLastSegment := 0;
      if seg.header.ack {
        sender.AckReceived(seg.header.ackno, seg.header.win);
      }
      receiver.SegmentReceived(seg);
    }

    method SegmentReceived(seg: TCPSegment)
      requires Valid()
      modifies this, Parts()
      ensures Valid() && State() == ReceiveSegment(old(State()), seg)
    {
      if !active {
        return;
      }
      if seg.header.rst {
        KillConnection();
        return;
      }
      TakeSegment(seg);
      if ReceiverState() == Listen {
        return;
      }
      TryCleanShutdown();
      Answer(seg);
      FetchSegment();
      TryCleanShutdown();
    }

    method Write(data: seq<Byte>) returns (accepted: nat)
      requires Valid()
      modifies this, sender, sender.stream
      ensures Valid() && State() == WriteConnection(old(State()), data)
      ensures accepted == WriteSize(old(State()).sender.stream, data)
    {
      accepted := sender.WriteStream(data);
      SendSegment();
    }

    /** Drop the retransmission just queued and reset the connection. */
    method GiveUp()
      requires Valid()
      modifies this, Parts()
      ensures Valid()
      ensures var s := old(State()).sender;
              State() == Abort(old(State()).(sender := s.(out := if s.out == [] then [] else s.out[1..])))
    {
      if sender.segmentsOut != [] {
        var _ := sender.Dequeue();
      }
      SendRstSegment();
      KillConnection();
    }

    method Tick(ms: nat)
      requires Valid()
      modifies this, Parts()
      ensures Valid() && State() == TickConnection(old(State()), ms)
    {
      if !active {
        return;
      }
      timeSinceLastSegment := ToInt32(timeSinceLastSegment + ms);
      sender.Tick(ms);
      assert State() == old(State()).(idle := timeSinceLastSegment,
                                      sender := SenderModel.Tick(old(State()).sender, ms));
      if sender.retransmissionCount > MAX_RETX_ATTEMPTS {
        GiveUp();
      } else {
        CarryOn();
      }
    }

    method CarryOn()
      requires Valid()
      modifies this, sender
      ensures Valid()
      ensures State() == ConnectionModel.TryCleanShutdown(FetchSegments(old(State())))
    {
      FetchSegment();
      TryCleanShutdown();
    }

    method EndInputStream()
      requires Valid()
      modifies this, sender, sender.stream
      ensures Valid() && State() == EndConnection(old(State()))
    {
      sender.EndStream();
      SendSegment();
    }

    method Connect()
      requires Valid()
      modifies this, sender, sender.stream
      ensures Valid() && State() == SendSegments(old(State()))
    {
      SendSegment();
    }

    /** What the destructor does. */
    method Destroy()
      requires Valid()
      modifies this, Parts()
      ensures Valid() && State() == DestroyConnection(old(State()))
    {
      if active {
        SendRstSegment();
        KillConnection();
      }
    }
  }
}
