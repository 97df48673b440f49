/** The receiver object. */
module Receivers {
  import opened Basics
  import opened WrappingIntegers
  import opened Segments
  import opened ReceiverModel
  import opened Reassemblers

  class TCPReceiver {
    const reassembler: StreamReassembler
    var isn: U32
    var inListen: bool

    ghost predicate Valid()
      reads this, reassembler, reassembler.output
    {
      reassembler.Valid()
    }

    ghost function State(): Receiver
      requires Valid()
      reads this, reassembler, reassembler.output
    {
      Receiver(inListen, isn, reassembler.State())
    }

    /** The initial `_isn` is arbitrary: it is read only after a SYN has set it. */
    constructor (capacity: nat, someIsn: U32)
      ensures Valid() && State() == NewReceiver(capacity, someIsn)
      ensures fresh(reassembler) && fresh(reassembler.output)
    {
      reassembler := new StreamReassembler(capacity);
      isn, inListen := someIsn, true;
    }

    function AbsoluteAck(): (ack: nat)
      requires Valid()
      reads this, reassembler, reassembler.output
      ensures ack == AbsAck(State())
    {
      reassembler.output.bytesWritten + 1 + if reassembler.output.inputEnded then 1 else 0
    }

    function Ackno(): (ackno: Option<U32>)
      requires Valid()
      reads this, reassembler, reassembler.output
      ensures ackno == ReceiverModel.Ackno(State())
    {
      if inListen then None else Some(Wrap(AbsoluteAck(), isn))
    }

    function Window(): (size: nat)
      requires Valid()
      reads this, reassembler, reassembler.output
      ensures size == WindowSize(State())
    {
      reassembler.output.RemainingCapacity()
    }

    method SegmentReceived(seg: TCPSegment)
      requires Valid()
      modifies this, reassembler, reassembler.output
      ensures Valid() && State() == ReceiverModel.SegmentReceived(old(State()), seg)
    {
      if inListen {
        if !seg.header.syn {
          return;
        }
        inListen := false;
        isn := seg.header.seqno;
      }
      var checkpoint := reassembler.output.bytesWritten;
      var absSeq := Unwrap64(seg.header.seqno, isn, checkpoint);
      if absSeq >= AbsoluteAck() + Window() {
        return;
      }
      reassembler.PushSubstring(seg.payload, StreamIndex(absSeq, seg.header.syn), seg.header.fin);
    }
  }
}
