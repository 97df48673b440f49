/** The reassembler object: the ordered map is erased from and inserted into in place. */
module Reassemblers {
  import opened Basics
  import opened ReassemblerModel
  import opened Reassembler64
  import opened ByteStreams

  class StreamReassembler {
    var buffer: seq<Entry>
    var expected: nat
    var eofIndex: nat
    var unassembledBytes: nat
    const output: ByteStream

    ghost predicate Valid()
      reads this, output
    {
      output.Valid() && KeysOrdered(buffer) && unassembledBytes >= Total(buffer)
    }

    ghost function State(): Reassembler
      requires Valid()
      reads this, output
    {
      Reassembler(buffer, expected, eofIndex, unassembledBytes, output.State())
    }

    constructor (capacity: nat)
      ensures Valid() && State() == NewReassembler(capacity)
      ensures fresh(output)
    {
      buffer, expected, eofIndex, unassembledBytes := [], 0, NO_EOF, 0;
      output := new ByteStream(capacity);
    }

    /** Merge forward: erase what the substring swallows. */
    method EraseSwallowed(index: nat, end: nat) returns (k: nat)
      requires Valid()
      modifies this
      ensures Valid()
      ensures k == LowerBound(old(buffer), index)
      ensures buffer == EraseFrom(old(buffer), k, end)
      ensures k < |buffer| ==> index <= buffer[k].index
      ensures unassembledBytes == old(unassembledBytes) - (Total(old(buffer)) - Total(buffer))
      ensures expected == old(expected) && eofIndex == old(eofIndex)
    {
      k := LowerBound(buffer, index);
      while k < |buffer| && End64(buffer[k]) <= end
        invariant k <= |buffer| && KeysOrdered(buffer)
        invariant k < |buffer| ==> index <= buffer[k].index
        invariant EraseFrom(buffer, k, end) == EraseFrom(old(buffer), k, end)
        invariant unassembledBytes - Total(buffer) == old(unassembledBytes) - Total(old(buffer))
        invariant expected == old(expected) && eofIndex == old(eofIndex)
        decreases |buffer| - k
      {
        EraseTurn(buffer, k, end);
        unassembledBytes := unassembledBytes - |buffer[k].data|;
        buffer := buffer[..k] + buffer[k + 1..];
      }
      EraseTurn(buffer, k, end);
    }

    /** Erase what the substring swallows and trim it against its neighbours. */
    method Merge(index: nat, data: seq<Byte>) returns (trimmed: Option<Entry>)
      requires Valid()
      modifies this
      ensures Valid()
      ensures var k := LowerBound(old(buffer), index);
              buffer == EraseFrom(old(buffer), k, Plus64(index, |data|)) && trimmed == Trim64(buffer, k, index, data)
      ensures unassembledBytes == old(unassembledBytes) - (Total(old(buffer)) - Total(buffer))
      ensures expected == old(expected) && eofIndex == old(eofIndex)
    {
      var k := EraseSwallowed(index, Plus64(index, |data|));
      trimmed := TrimAt(k, index, data);
    }

    /** Cut the substring at the next entry and after the previous one. */
    method TrimAt(k: nat, index: nat, data: seq<Byte>) returns (trimmed: Option<Entry>)
      requires k <= |buffer| && (k < |buffer| ==> index <= buffer[k].index)
      ensures trimmed == Trim64(buffer, k, index, data)
    {
      var front := data;
      if k < |buffer| {
        if buffer[k].index == index {
          return None;
        } else if buffer[k].index < Plus64(index, |data|) {
          front := data[..buffer[k].index - index];
        }
      }
      if k > 0 {
        var left := End64(buffer[k - 1]);
        if left > index {
          if left > Plus64(index, |front|) {
            return None;
          }
          return Some(Entry(left, front[left - index..]));
        }
      }
      return Some(Entry(index, front));
    }

    method Insert(index: nat, data: seq<Byte>)
      requires Valid()
      modifies this
      ensures Valid() && State() == Insert64(old(State()), index, data)
    {
      if buffer == [] {
        unassembledBytes := unassembledBytes + |data|;
        buffer := [Entry(index, data)];
        return;
      }
      var trimmed := Merge(index, data);
      Keep(trimmed, old(State()));
      assert State() == Insert64(old(State()), index, data);
    }

    /** Count and store what is left of the substring. */
    method Keep(trimmed: Option<Entry>, ghost before: Reassembler)
      requires Valid()
      requires unassembledBytes == before.unassembled - (Total(before.entries) - Total(buffer))
      requires State() == before.(entries := buffer, unassembled := unassembledBytes)
      modifies this
      ensures Valid() && State() == Place64(before, old(buffer), trimmed)
    {
      if trimmed.Some? {
        EmplaceKeeps(buffer, trimmed.value);
        unassembledBytes := unassembledBytes + |trimmed.value.data|;
        buffer := Emplace(buffer, trimmed.value);
      }
    }

    /** One turn of the loop below: write what is new of the first entry, and erase it. */
    method SendFirst()
      requires Valid() && buffer != [] && buffer[0].index <= expected
      modifies this, output
      ensures Valid() && State() == AssembleFirst64(old(State()))
    {
      var data, index := buffer[0].data, buffer[0].index;
      if Plus64(index, |data|) > expected {
        ghost var newer := data[expected - index..];
        if index < expected {
          data := data[expected - index..];
        }
        assert data == newer;
        if |data| > output.RemainingCapacity() {
          data := data[..output.RemainingCapacity()];
        }
        assert data == newer[..Min(|newer|, output.RemainingCapacity())];
        var _ := output.Write(data);
        expected := Plus64(expected, |data|);
        unassembledBytes := unassembledBytes - |data|;
      }
      buffer := buffer[1..];
    }

    method SendToBytestream()
      requires Valid()
      modifies this, output
      ensures Valid() && State() == Assemble64(old(State()))
    {
      while buffer != [] && buffer[0].index <= expected
        invariant Valid()
        invariant Assemble64(State()) == Assemble64(old(State()))
        decreases |buffer|
      {
        SendFirst();
      }
    }

    method PushSubstring(data: seq<Byte>, index: nat, eof: bool)
      requires Valid()
      modifies this, output
      ensures Valid() && State() == Push64(old(State()), data, index, eof)
    {
      if eof {
        eofIndex := Plus64(index, |data|);
      }
      if Plus64(index, |data|) > expected {
        Insert(index, data);
        SendToBytestream();
      }
      if expected == eofIndex {
        output.EndInput();
      }
    }
  }
}
