/** One endpoint of a TCP connection, as a value: sender, receiver, and the shutdown state machine. */
module ConnectionModel {
  import opened Basics
  import opened StreamModel
  import opened Segments
  import opened ReceiverModel
  import opened SenderModel
  import opened TcpState

  const MAX_RETX_ATTEMPTS: nat := 8

  /** A segment on its way, with the absolute numbers its seqno and ackno stand for. */
  datatype Packet = Packet(seqno: nat, seg: TCPSegment, ackno: nat)

  datatype Connection = Connection(
    rtTimeout: U16,
    sender: Sender,
    receiver: Receiver,
    out: seq<Packet>,
    linger: bool,
    active: bool,
    idle: int)

  function NewConnection(rtTimeout: U16, sendCapacity: nat, recvCapacity: nat, isn: U32, recvIsn: U32): Connection {
    Connection(rtTimeout, NewSender(sendCapacity, rtTimeout, isn), NewReceiver(recvCapacity, recvIsn), [],
               true, true, 0)
  }

  // ---------------------------------------------------------------- shutting down

  function TryCleanShutdown(c: Connection): Connection {
    if !Output(c.receiver).ended then c
    else if SummarizeSender(c.sender) == SenderSynAcked then c.(linger := false)
    else if SummarizeSender(c.sender) == SenderFinAcked && (!c.linger || c.idle >= 10 * c.rtTimeout) then
      c.(active := false)
    else c
  }

  function KillConnection(c: Connection): Connection {
    c.(sender := c.sender.(stream := SetError(c.sender.stream)),
       receiver := c.receiver.(reasm := c.receiver.reasm.(output := SetError(Output(c.receiver)))),
       active := false, linger := false)
  }

  // ---------------------------------------------------------------- sending

  /** Fill in what the receiver has to say. */
  function Stamp(n: Numbered, r: Receiver): Packet {
    match Ackno(r)
    case None => Packet(n.seqno, n.seg, 0)
    case Some(ackno) =>
      Packet(n.seqno,
             n.seg.(header := n.seg.header.(ack := true, ackno := ackno, win := AdvertisedWindow(r))),
             AbsAck(r))
  }

  function StampAll(q: seq<Numbered>, r: Receiver): seq<Packet> {
    if q == [] then [] else [Stamp(q[0], r)] + StampAll(q[1..], r)
  }

  function FetchSegments(c: Connection): Connection {
    c.(sender := c.sender.(out := []), out := c.out + StampAll(c.sender.out, c.receiver))
  }

  /** A reset carries the window truncated to 16 bits, not capped. */
  function StampReset(n: Numbered, r: Receiver): Packet {
    var header := n.seg.header.(rst := true);
    match Ackno(r)
    case None => Packet(n.seqno, n.seg.(header := header), 0)
    case Some(ackno) =>
      Packet(n.seqno,
             n.seg.(header := header.(ack := true, ackno := ackno, win := WindowSize(r) % 0x1_0000)),
             AbsAck(r))
  }

  /** The segment at the head of the sender's queue, flagged as a reset: the empty one just queued unless
      others were waiting. */
  function SendReset(c: Connection): Connection {
    var s := SendEmpty(c.sender);
    c.(sender := s.(out := s.out[1..]), out := c.out + [StampReset(s.out[0], c.receiver)], active := false)
  }

  /** A reset is always followed by a kill. */
  function Abort(c: Connection): Connection { KillConnection(SendReset(c)) }

  function SendSegments(c: Connection): Connection {
    FetchSegments(c.(sender := FillWindow(c.sender)))
  }

  // ---------------------------------------------------------------- receiving

  /** An empty segment one below the acknowledgment number asks whether the peer is alive. */
  predicate KeepAlive(r: Receiver, seg: TCPSegment) {
    SeqLength(seg) == 0 && match Ackno(r)
                           case None => false
                           case Some(ackno) => seg.header.seqno == (ackno - 1) % TWO32
  }

  function Reply(c: Connection, seg: TCPSegment): Connection {
    var s := FillWindow(c.sender);
    if (SeqLength(seg) != 0 && s.out == []) || KeepAlive(c.receiver, seg)
    then c.(sender := SendEmpty(s)) else c.(sender := s)
  }

  /** Acknowledgment first, then the data. */
  function Digest(c: Connection, seg: TCPSegment): Connection {
    var sender := if seg.header.ack then AckReceived(c.sender, seg.header.ackno, seg.header.win) else c.sender;
    c.(idle := 0, sender := sender, receiver := SegmentReceived(c.receiver, seg))
  }

  /** The connection once a segment is processed, apart from the last shutdown test. */
  function Answered(c: Connection, seg: TCPSegment): Connection {
    FetchSegments(Reply(TryCleanShutdown(Digest(c, seg)), seg))
  }

  function ReceiveSegment(c: Connection, seg: TCPSegment): Connection {
    if !c.active then c
    else if seg.header.rst then KillConnection(c)
    else
      var c1 := Digest(c, seg);
      if SummarizeReceiver(c1.receiver) == Listen then c1
      else TryCleanShutdown(Answered(c, seg))
  }

  // ---------------------------------------------------------------- the owner's calls

  /** What a tick does to the sender: carry on, or give up once there have been too many retransmissions,
      dropping the one just queued. */
  function Timeout(c: Connection, idle: int, ms: nat): Connection {
    var s := SenderModel.Tick(c.sender, ms);
    if s.retransmissions > MAX_RETX_ATTEMPTS
    then Abort(c.(idle := idle, sender := s.(out := if s.out == [] then [] else s.out[1..])))
    else TryCleanShutdown(FetchSegments(c.(idle := idle, sender := s)))
  }

  function TickConnection(c: Connection, ms: nat): Connection {
    if !c.active then c else Timeout(c, ToInt32(c.idle + ms), ms)
  }

  function WriteConnection(c: Connection, data: seq<Byte>): Connection {
    SendSegments(c.(sender := WriteData(c.sender, data)))
  }

  function EndConnection(c: Connection): Connection {
    SendSegments(c.(sender := EndData(c.sender)))
  }

  function ReadConnection(c: Connection, len: nat): Connection {
    c.(receiver := ReadFrom(c.receiver, len))
  }

  function DestroyConnection(c: Connection): Connection {
    if c.active then Abort(c) else c
  }

  // ---------------------------------------------------------------- frames

  lemma {:induction false} ReceiveShape(c: Connection, seg: TCPSegment)
    ensures var c' := ReceiveSegment(c, seg);
            && (!c.active ==> c' == c)
            && (c.active && seg.header.rst ==> c' == KillConnection(c))
            && (c.active && !seg.header.rst ==>
                  if SummarizeReceiver(Digest(c, seg).receiver) == Listen then c' == Digest(c, seg)
                  else c'.sender == Answered(c, seg).sender && c'.out == Answered(c, seg).out
                       && c'.receiver == Digest(c, seg).receiver)
  {
    TryCleanFrame(Digest(c, seg));
    TryCleanFrame(Answered(c, seg));
  }

  /** After the answer, the sender is the one that took the acknowledgment, filled and emptied. */
  lemma {:induction false} AnsweredSender(c: Connection, seg: TCPSegment)
    ensures Answered(c, seg).sender == FillWindow(Digest(c, seg).sender).(out := [])
  {
    TryCleanFrame(Digest(c, seg));
    ReplySender(TryCleanShutdown(Digest(c, seg)), seg);
  }

  lemma {:induction false} ReplySender(c: Connection, seg: TCPSegment)
    ensures FetchSegments(Reply(c, seg)).sender == FillWindow(c.sender).(out := [])
  {
  }

  lemma {:induction false} TryCleanFrame(c: Connection)
    ensures var c' := TryCleanShutdown(c);
            c'.sender == c.sender && c'.receiver == c.receiver && c'.out == c.out
  {
  }
}
