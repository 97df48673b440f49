/** Network-order integers in and out of byte strings. */
module Parsing {
  import opened Basics

  datatype ParseResult = NoError | BadChecksum | PacketTooShort | WrongIPVersion | HeaderTooShort | TruncatedPacket

  datatype Parser = Parser(buffer: seq<Byte>, error: ParseResult)

  /** The integer that `len` bytes spell, most significant first. */
  function BigEndian(data: seq<Byte>): nat {
    if data == [] then 0 else 256 * BigEndian(data[..|data| - 1]) + data[|data| - 1]
  }

  function Pow256(n: nat): nat { if n == 0 then 1 else 256 * Pow256(n - 1) }

  /** The `len` low bytes of `val`, most significant first. */
  function Unparse(val: nat, len: nat): (data: seq<Byte>)
    ensures |data| == len
  {
    if len == 0 then [] else Unparse(val / 256, len - 1) + [val % 256]
  }

  /** Take `len` bytes, unless there are too few or an error is already recorded. */
  function CheckSize(p: Parser, len: nat): Parser {
    if len > |p.buffer| then p.(error := PacketTooShort) else p
  }

  function ParseValue(p: Parser, len: nat): nat {
    if CheckSize(p, len).error == NoError then BigEndian(p.buffer[..len]) else 0
  }

  function Skip(p: Parser, len: nat): Parser {
    var q := CheckSize(p, len);
    if q.error == NoError then q.(buffer := q.buffer[len..]) else q
  }

  lemma {:induction false} BigEndianBound(data: seq<Byte>)
    ensures BigEndian(data) < Pow256(|data|)
  {
    if data != [] { BigEndianBound(data[..|data| - 1]); }
  }

  /** Bytes that are too few keep the low end of a value. */
  lemma {:induction false} BigEndianUnparse(val: nat, len: nat)
    ensures Pow256(len) > 0 && BigEndian(Unparse(val, len)) == val % Pow256(len)
  {
    Pow256Positive(len);
    if len > 0 {
      var front := Unparse(val / 256, len - 1);
      assert Unparse(val, len)[..len - 1] == front;
      BigEndianUnparse(val / 256, len - 1);
      ModByParts(val, 256, Pow256(len - 1));
    }
  }

  lemma {:induction false} UnparseBigEndian(data: seq<Byte>)
    ensures Unparse(BigEndian(data), |data|) == data
  {
    if data != [] {
      UnparseBigEndian(data[..|data| - 1]);
      assert data == data[..|data| - 1] + [data[|data| - 1]];
    }
  }

  /** Reading what was written gives it back and leaves the rest. */
  lemma {:induction false} ParseUnparse(val: nat, len: nat, rest: seq<Byte>)
    requires val < Pow256(len)
    ensures var p := Parser(Unparse(val, len) + rest, NoError);
            ParseValue(p, len) == val && Skip(p, len) == Parser(rest, NoError)
  {
    BigEndianUnparse(val, len);
    DivUnique(val, Pow256(len), 0, val);
    assert (Unparse(val, len) + rest)[..len] == Unparse(val, len);
    assert (Unparse(val, len) + rest)[len..] == rest;
  }

  /** The parser object and the two loops. */
  class NetParser {
    var buffer: seq<Byte>
    var error: ParseResult

    ghost function State(): Parser
      reads this
    {
      Parser(buffer, error)
    }

    constructor (buffer: seq<Byte>)
      ensures State() == Parser(buffer, NoError)
    {
      this.buffer, error := buffer, NoError;
    }

    method ParseInt(len: nat) returns (val: nat)
      modifies this
      ensures val == ParseValue(old(State()), len) && State() == Skip(old(State()), len)
      ensures val < Pow256(len)
    {
      if len > |buffer| {
        error := PacketTooShort;
      }
      BigEndianBound([]);
      if error != NoError {
        Pow256Positive(len);
        return 0;
      }
      val := 0;
      for i := 0 to len
        invariant val == BigEndian(buffer[..i])
        invariant State() == old(State())
      {
        assert buffer[..i + 1][..i] == buffer[..i];
        val := val * 256;
        val := val + buffer[i];
      }
      BigEndianBound(buffer[..len]);
      buffer := buffer[len..];
    }

    method RemovePrefix(n: nat)
      modifies this
      ensures State() == Skip(old(State()), n)
    {
      if n > |buffer| {
        error := PacketTooShort;
      }
      if error == NoError {
        buffer := buffer[n..];
      }
    }
  }

  lemma {:induction false} Pow256Positive(n: nat)
    ensures Pow256(n) > 0
  {
    if n > 0 { Pow256Positive(n - 1); }
  }

  /** Byte `i` of `len` is `val` shifted right by the bytes after it, masked. */
  lemma {:induction false} UnparseAt(val: nat, len: nat, i: nat)
    requires i < len
    ensures Pow256(len - i - 1) > 0
    ensures Unparse(val, len)[i] == (val / Pow256(len - i - 1)) % 256
  {
    Pow256Positive(len - i - 1);
    if i < len - 1 {
      UnparseAt(val / 256, len - 1, i);
      Pow256Positive(len - i - 2);
      DivDiv(val, 256, Pow256(len - i - 2));
    }
  }

  method UnparseInt(s: seq<Byte>, val: nat, len: nat) returns (t: seq<Byte>)
    ensures t == s + Unparse(val, len)
  {
    t := s;
    for i := 0 to len
      invariant t == s + Unparse(val, len)[..i]
    {
      UnparseAt(val, len, i);
      var theByte := (val / Pow256(len - i - 1)) % 256;
      t := t + [theByte];
      assert Unparse(val, len)[..i + 1] == Unparse(val, len)[..i] + [theByte];
    }
    assert Unparse(val, len)[..len] == Unparse(val, len);
  }
}
