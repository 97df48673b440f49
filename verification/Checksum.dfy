/** The Internet checksum (section 1 of RFC 1071): 16-bit one's complement sum with byte parity carried from
    one call to the next, in a 32-bit accumulator. */
module Checksums {
  import opened Basics

  /** What the bytes add up to, the first counting as a high byte unless `parity` is set. */
  function WordSum(data: seq<Byte>, parity: bool): nat {
    if data == [] then 0 else (if parity then data[0] else 256 * data[0]) + WordSum(data[1..], !parity)
  }

  predicate Odd(data: seq<Byte>) { |data| % 2 == 1 }

  /** End-around folding to 16 bits. */
  function Fold(x: nat): nat
    decreases x
  {
    if x <= 0xFFFF then x else Fold(x / 0x1_0000 + x % 0x1_0000)
  }

  function ChecksumValue(sum: nat): U16
  {
    FoldMeaning(sum);
    0xFFFF - Fold(sum)
  }

  /** Folding keeps the residue modulo 65535, and yields zero only for zero. */
  lemma {:induction false} FoldMeaning(x: nat)
    ensures Fold(x) <= 0xFFFF
    ensures Fold(x) % 0xFFFF == x % 0xFFFF
    ensures Fold(x) == 0 <==> x == 0
  {
    if x > 0xFFFF {
      var y := x / 0x1_0000 + x % 0x1_0000;
      FoldMeaning(y);
      assert x == y + 0xFFFF * (x / 0x1_0000);
      ModMultiple(y, x / 0x1_0000);
    }
  }

  lemma ModMultiple(y: nat, q: nat)
    ensures (y + 0xFFFF * q) % 0xFFFF == y % 0xFFFF
  {
  }

  /** A sum checks when it is a positive multiple of 65535. */
  lemma {:induction false} CheckMeaning(sum: nat)
    ensures ChecksumValue(sum) == 0 <==> sum > 0 && sum % 0xFFFF == 0
  {
    FoldMeaning(sum);
  }

  /** Adding the checksum of a sum makes it check. */
  lemma {:induction false} ChecksumCompletes(sum: nat)
    ensures ChecksumValue(sum + ChecksumValue(sum)) == 0
  {
    FoldMeaning(sum);
    var f := Fold(sum);
    CheckMeaning(sum + (0xFFFF - f));
    Complement(sum, f);
  }

  lemma {:induction false} Complement(sum: nat, f: U16)
    requires f % 0xFFFF == sum % 0xFFFF
    ensures (sum + (0xFFFF - f)) % 0xFFFF == 0
  {
    ModMultiple(0, sum / 0xFFFF - f / 0xFFFF + 1);
  }

  /** 2^32 - 1 is a multiple of 65535, so completing a sum never leaves 32 bits. */
  lemma {:induction false} CompletionFits(sum: nat)
    requires sum < TWO32
    ensures sum + ChecksumValue(sum) < TWO32
  {
    FoldMeaning(sum);
    ChecksumCompletes(sum);
    CheckMeaning(sum + ChecksumValue(sum));
    MultipleBelow(sum + ChecksumValue(sum));
  }

  lemma MultipleBelow(x: nat)
    requires x % 0xFFFF == 0 && x < TWO32 - 1 + 0xFFFF
    ensures x <= TWO32 - 1
  {
    assert x == 0xFFFF * (x / 0xFFFF);
  }

  /** The same in the 32-bit accumulator, for sums of any size. */
  lemma {:induction false} AccumulatorCompletes(sum: nat)
    ensures ChecksumValue((sum + ChecksumValue(sum % TWO32)) % TWO32) == 0
  {
    var low := sum % TWO32;
    var ck := ChecksumValue(low);
    AddMod(sum, ck);
    CompletionFits(low);
    ChecksumCompletes(low);
    assert (low + ck) % TWO32 == low + ck;
  }

  lemma {:induction false} WordSumConcat(a: seq<Byte>, b: seq<Byte>, parity: bool)
    ensures WordSum(a + b, parity) == WordSum(a, parity) + WordSum(b, parity != Odd(a))
  {
    if a == [] {
      assert a + b == b;
    } else {
      assert (a + b)[1..] == a[1..] + b;
      WordSumConcat(a[1..], b, !parity);
    }
  }

  /** Replacing one byte moves the sum by a non-zero amount smaller than 65535. */
  lemma {:induction false} WordSumUpdate(data: seq<Byte>, i: nat, v: Byte, parity: bool)
    requires i < |data|
    ensures var step := if parity != (i % 2 == 1) then 1 else 256;
            WordSum(data[i := v], parity) == WordSum(data, parity) + step * (v - data[i])
  {
    if i > 0 {
      assert data[i := v][1..] == data[1..][i - 1 := v];
      WordSumUpdate(data[1..], i - 1, v, !parity);
    } else {
      assert data[i := v][1..] == data[1..];
    }
  }

  /** A single changed byte is always noticed: of two sums that differ by less than 65535 and are not equal,
      not both check. */
  lemma {:induction false} NearbySumsDiffer(x: nat, y: nat)
    requires x != y && x - y < 0xFFFF && y - x < 0xFFFF
    requires ChecksumValue(x) == 0
    ensures ChecksumValue(y) != 0
  {
    CheckMeaning(x);
    CheckMeaning(y);
  }

  /** Nor do both check in the accumulator, wherever it wraps. */
  lemma {:induction false} NearbyAccumulatorsDiffer(x: nat, y: nat)
    requires x < y < x + 0xFFFF
    ensures !(ChecksumValue(x % TWO32) == 0 && ChecksumValue(y % TWO32) == 0)
  {
    WrapOfNear(x, y);
    var low, high := x % TWO32, y % TWO32;
    if low < high {
      if ChecksumValue(low) == 0 { NearbySumsDiffer(low, high); }
    } else {
      CheckMeaning(high);
    }
  }

  lemma WrapOfNear(x: nat, y: nat)
    requires x < y < x + 0xFFFF
    ensures y % TWO32 == x % TWO32 + (y - x) || y % TWO32 == x % TWO32 + (y - x) - TWO32
  {
    assert y == TWO32 * (x / TWO32) + (x % TWO32 + (y - x));
  }

  class InternetChecksum {
    var sum: U32
    var parity: bool

    constructor (initial: U32)
      ensures sum == initial && !parity
    {
      sum, parity := initial, false;
    }

    method Add(data: seq<Byte>)
      modifies this
      ensures sum == (old(sum) + WordSum(data, old(parity))) % TWO32
      ensures parity == (old(parity) != Odd(data))
    {
      for i := 0 to |data|
        invariant sum == (old(sum) + WordSum(data[..i], old(parity))) % TWO32
        invariant parity == (old(parity) != (i % 2 == 1))
      {
        var val: int := data[i];
        if !parity {
          val := val * 256;
        }
        ghost var before := old(sum) + WordSum(data[..i], old(parity));
        assert data[..i + 1] == data[..i] + [data[i]];
        WordSumConcat(data[..i], [data[i]], old(parity));
        assert WordSum([data[i]], parity) == val;
        AddMod(before, val);
        sum := (sum + val) % TWO32;
        parity := !parity;
      }
      assert data[..|data|] == data;
    }

    method Value() returns (v: U16)
      ensures v == ChecksumValue(sum)
    {
      var ret := sum;
      while ret > 0xFFFF
        invariant 0 <= ret
        invariant Fold(ret) == Fold(sum)
        decreases ret
      {
        ret := ret / 0x1_0000 + ret % 0x1_0000;
      }
      FoldMeaning(sum);
      v := 0xFFFF - ret;
    }
  }

  lemma AddMod(x: nat, y: nat)
    ensures (x % TWO32 + y) % TWO32 == (x + y) % TWO32
  {
  }
}
