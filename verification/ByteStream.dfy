/** The bounded in-order byte stream under the sender and under the reassembler, as a value. */
module StreamModel {
  import opened Basics

  /** A stream as a value: everything ever accepted, and how much of it has been popped.
      The deque holds the difference. */
  datatype StreamState = StreamState(capacity: nat, history: seq<Byte>, popped: nat, ended: bool, error: bool)

  type Stream = s: StreamState | s.popped <= |s.history| <= s.popped + s.capacity
    witness StreamState(0, [], 0, false, false)

  function EmptyStream(capacity: nat): Stream {
    StreamState(capacity, [], 0, false, false)
  }

  function Unread(s: Stream): seq<Byte> { s.history[s.popped..] }

  function Remaining(s: Stream): nat { s.capacity - (|s.history| - s.popped) }

  predicate Eof(s: Stream) { s.ended && s.popped == |s.history| }

  function WriteSize(s: Stream, data: seq<Byte>): nat {
    if s.ended then 0 else Min(|data|, Remaining(s))
  }

  function Write(s: Stream, data: seq<Byte>): Stream {
    s.(history := s.history + data[..WriteSize(s, data)])
  }

  function Peek(s: Stream, len: nat): seq<Byte> {
    Unread(s)[..Min(len, |Unread(s)|)]
  }

  function Pop(s: Stream, len: nat): Stream {
    s.(popped := s.popped + Min(len, |Unread(s)|))
  }

  function EndInput(s: Stream): Stream { s.(ended := true) }

  function SetError(s: Stream): Stream { s.(error := true) }

  lemma PrefixByIndex(a: seq<Byte>, b: seq<Byte>)
    requires forall i | 0 <= i < |a| :: i < |b| && a[i] == b[i]
    ensures a <= b
  {
    if a != [] {
      var last := a[|a| - 1];
    }
  }

  datatype StreamOp = OpWrite(data: seq<Byte>) | OpRead(len: nat) | OpEnd | OpError

  function StreamStep(s: Stream, op: StreamOp): Stream {
    match op
    case OpWrite(data) => Write(s, data)
    case OpRead(len) => Pop(s, len)
    case OpEnd => EndInput(s)
    case OpError => SetError(s)
  }

  function StreamRun(s: Stream, ops: seq<StreamOp>): Stream
    decreases |ops|
  {
    if ops == [] then s else StreamRun(StreamStep(s, ops[0]), ops[1..])
  }

  /** What a reader collects over a run. */
  function Collected(s: Stream, ops: seq<StreamOp>): seq<Byte>
    decreases |ops|
  {
    if ops == [] then []
    else (if ops[0].OpRead? then Peek(s, ops[0].len) else []) + Collected(StreamStep(s, ops[0]), ops[1..])
  }

  /** One step reads the next bytes and otherwise only appends. */
  lemma StepKeeps(s: Stream, op: StreamOp)
    ensures var t := StreamStep(s, op);
            && s.history <= t.history
            && (s.ended ==> t.ended && t.history == s.history)
            && t.capacity == s.capacity && s.popped <= t.popped
            && (if op.OpRead? then Peek(s, op.len) else []) == t.history[s.popped..t.popped]
  {
  }

  /** Nothing is held back: a write is accepted whole unless it fills the buffer or comes after the end, a read gets
      what it asked for unless it empties the buffer, and only the two flags' own calls set them. */
  lemma NothingHeldBack(s: Stream, op: StreamOp)
    ensures var t := StreamStep(s, op);
            && (op.OpWrite? ==> || (s.ended && t == s)
                                || t.history == s.history + op.data
                                || (t.history <= s.history + op.data && |Unread(t)| == s.capacity))
            && (op.OpRead? ==> |Peek(s, op.len)| == op.len || Unread(t) == [])
            && (t.ended <==> s.ended || op.OpEnd?)
            && (t.error <==> s.error || op.OpError?)
  {
    if op.OpWrite? {
      assert op.data[..|op.data|] == op.data;
      assert s.history + op.data[..WriteSize(s, op.data)] <= s.history + op.data;
    }
  }

  lemma PrefixSlice(a: seq<Byte>, b: seq<Byte>, i: nat, j: nat, k: nat)
    requires a <= b && i <= j <= |a| && j <= k <= |b|
    ensures a[i..j] + b[j..k] == b[i..k]
  {
    assert a == b[..|a|];
  }

  /** Over every run the reader gets exactly the accepted bytes, in order, without gap or repetition;
      nothing already accepted is altered, and nothing is accepted once input has ended. */
  lemma {:induction false} FifoOverRuns(s: Stream, ops: seq<StreamOp>)
    ensures var t := StreamRun(s, ops);
            && s.history <= t.history
            && (s.ended ==> t.ended && t.history == s.history)
            && t.capacity == s.capacity
            && s.popped <= t.popped
            && Collected(s, ops) == t.history[s.popped..t.popped]
    decreases |ops|
  {
    if ops != [] {
      var u := StreamStep(s, ops[0]);
      var t := StreamRun(s, ops);
      StepKeeps(s, ops[0]);
      FifoOverRuns(u, ops[1..]);
      PrefixSlice(u.history, t.history, s.popped, u.popped, t.popped);
    }
  }
}

/** The stream object: a deque updated in place, counters and flags. */
module ByteStreams {
  import opened Basics
  import opened StreamModel

  class ByteStream {
    const capacity: nat
    var buffer: seq<Byte>
    var bytesWritten: nat
    var bytesRead: nat
    var inputEnded: bool
    var hasError: bool
    ghost var history: seq<Byte>

    ghost predicate Valid()
      reads this
    {
      && bytesWritten == |history|
      && bytesRead <= bytesWritten
      && buffer == history[bytesRead..]
      && |buffer| <= capacity
    }

    ghost function State(): Stream
      requires Valid()
      reads this
    {
      StreamState(capacity, history, bytesRead, inputEnded, hasError)
    }

    constructor (capacity: nat)
      ensures Valid() && this.capacity == capacity && State() == EmptyStream(capacity)
    {
      this.capacity := capacity;
      buffer, bytesWritten, bytesRead := [], 0, 0;
      inputEnded, hasError := false, false;
      history := [];
    }

    method Write(data: seq<Byte>) returns (accepted: nat)
      requires Valid()
      modifies this
      ensures Valid() && State() == StreamModel.Write(old(State()), data)
      ensures accepted == WriteSize(old(State()), data)
    {
      if inputEnded {
        assert data[..0] == [];
        return 0;
      }
      var size := Min(|data|, capacity - |buffer|);
      for i := 0 to size
        invariant buffer == old(buffer) + data[..i]
        invariant bytesWritten == old(bytesWritten) && bytesRead == old(bytesRead) && history == old(history)
        invariant inputEnded == old(inputEnded) && hasError == old(hasError)
      {
        buffer := buffer + [data[i]];
        assert data[..i + 1] == data[..i] + [data[i]];
      }
      bytesWritten := bytesWritten + size;
      history := history + data[..size];
      return size;
    }

    method PeekOutput(len: nat) returns (s: seq<Byte>)
      requires Valid()
      ensures s == Peek(State(), len)
    {
      s := buffer[..Min(len, |buffer|)];
    }

    method PopOutput(len: nat)
      requires Valid()
      modifies this
      ensures Valid() && State() == Pop(old(State()), len)
    {
      var size := Min(len, |buffer|);
      bytesRead := bytesRead + size;
      while size > 0
        invariant bytesRead == old(bytesRead) + Min(len, |old(buffer)|)
        invariant 0 <= size <= bytesRead <= |old(history)|
        invariant buffer == old(history)[bytesRead - size..]
        invariant bytesWritten == old(bytesWritten) && history == old(history)
        invariant inputEnded == old(inputEnded) && hasError == old(hasError)
      {
        buffer := buffer[1..];
        size := size - 1;
      }
    }

    method Read(len: nat) returns (s: seq<Byte>)
      requires Valid()
      modifies this
      ensures Valid() && State() == Pop(old(State()), len)
      ensures s == Peek(old(State()), len)
    {
      s := PeekOutput(len);
      PopOutput(len);
    }

    method EndInput()
      requires Valid()
      modifies this
      ensures Valid() && State() == StreamModel.EndInput(old(State()))
    {
      inputEnded := true;
    }

    method SetError()
      requires Valid()
      modifies this
      ensures Valid() && State() == StreamModel.SetError(old(State()))
    {
      hasError := true;
    }

    function RemainingCapacity(): (n: nat)
      requires Valid()
      reads this
      ensures n == Remaining(State())
    {
      capacity - |buffer|
    }

    predicate AtEof()
      requires Valid()
      reads this
      ensures AtEof() <==> Eof(State())
    {
      inputEnded && |buffer| == 0
    }
  }
}
