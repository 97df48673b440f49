/** Machine integer ranges, options and a little arithmetic that several components share. */
module Basics {

  const TWO31: int := 0x8000_0000
  const TWO32: int := 0x1_0000_0000
  const TWO64: int := 0x1_0000_0000_0000_0000

  type Byte = x: int | 0 <= x < 0x100
  type Nibble = x: int | 0 <= x < 0x10
  type U16 = x: int | 0 <= x < 0x1_0000
  type U32 = x: int | 0 <= x < 0x1_0000_0000

  datatype Option<T> = None | Some(value: T)

  function Min(a: int, b: int): int { if a < b then a else b }

  function Max(a: int, b: int): int { if a < b then b else a }

  /** Truncation to a signed 32-bit integer. */
  function ToInt32(x: int): int {
    var m := x % TWO32;
    if m < TWO31 then m else m - TWO32
  }

  /** A clock kept in 32 bits never runs ahead of the true one. */
  lemma ToInt32Below(x: int)
    requires -TWO31 <= x
    ensures -TWO31 <= ToInt32(x) <= x
  {
  }

  /** Time added to a 32-bit clock or to the true one before it is cut to 32 bits is the same. */
  lemma ToInt32Adds(x: int, ms: int)
    ensures ToInt32(ToInt32(x) + ms) == ToInt32(x + ms)
  {
  }

  function Pow2(k: nat): nat { if k == 0 then 1 else 2 * Pow2(k - 1) }

  lemma {:induction false} Pow2Monotone(j: nat, k: nat)
    requires j <= k
    ensures 0 < Pow2(j) <= Pow2(k)
    decreases k
  {
    if j < k {
      Pow2Monotone(j, k - 1);
    } else if k > 0 {
      Pow2Monotone(k - 1, k - 1);
    }
  }

  lemma {:induction false} Pow2Splits(j: nat, k: nat)
    ensures Pow2(j + k) == Pow2(j) * Pow2(k)
  {
    if k > 0 {
      Pow2Splits(j, k - 1);
      assert Pow2(j + k) == 2 * Pow2(j + k - 1);
    }
  }

  lemma Pow2Values()
    ensures Pow2(9) == 512 && Pow2(10) == 1024 && Pow2(16) == 65536 && Pow2(29) == 0x2000_0000
  {
    assert Pow2(4) == 16;
    assert Pow2(8) == 256;
    assert Pow2(12) == 4096;
    assert Pow2(16) == 65536;
    assert Pow2(20) == 0x10_0000;
    assert Pow2(24) == 0x100_0000;
    assert Pow2(28) == 0x1000_0000;
  }

  lemma MulMonotone(a: nat, x: nat, y: nat)
    requires x <= y
    ensures a * x <= a * y
  {
  }

  lemma MulAtLeast(b: nat, d: int)
    ensures d >= 1 ==> b * d >= b
    ensures d <= -1 ==> b * d <= 0 - b
  {
  }

  lemma {:induction false} DivUnique(x: nat, b: nat, q: nat, r: nat)
    requires b > 0 && x == b * q + r && r < b
    ensures x / b == q
  {
    var d := x / b - q;
    assert b * d == r - x % b;
    MulAtLeast(b, d);
  }

  /** Dividing twice is dividing once by the product. */
  lemma {:induction false} DivDiv(x: nat, a: nat, b: nat)
    requires a > 0 && b > 0
    ensures a * b > 0 && (x / a) / b == x / (a * b)
  {
    MulAtLeast(a, b);
    var q, r := x / (a * b), x % (a * b);
    var c, d := r / a, r % a;
    var excess := c - b;
    assert a * excess == a * c - a * b;
    MulAtLeast(a, excess);
    Regroup(a, b, q, c);
    DivUnique(x, a, b * q + c, d);
    DivUnique(x / a, b, q, c);
  }

  lemma Regroup(a: nat, b: nat, q: nat, c: nat)
    ensures a * (b * q + c) == (a * b) * q + a * c
  {
  }

  /** The remainder by a product, from the remainders by its factors. */
  lemma {:induction false} ModByParts(x: nat, a: nat, b: nat)
    requires a > 0 && b > 0
    ensures a * b > 0 && a * ((x / a) % b) + x % a == x % (a * b)
  {
    var q, r := (x / a) / b, (x / a) % b;
    DivDiv(x, a, b);
    Regroup(a, b, q, r);
    assert x / a == b * q + r;
    assert x == (a * b) * q + (a * r + x % a);
  }

  lemma DivLess(x: nat, d: nat)
    requires d > 0
    ensures x / d <= x
  {
    MulAtLeast(x / d, d);
    assert x == (x / d) * d + x % d;
  }
}
