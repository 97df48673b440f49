/** 32-bit wrapping sequence numbers and their 64-bit absolute counterparts. */
module WrappingIntegers {
  import opened Basics

  /** The wire form of absolute sequence number `n`. The 64-bit sum is truncated to 32 bits. */
  function Wrap(n: nat, isn: U32): U32 {
    (n + isn) % TWO32
  }

  /** The absolute sequence number that `n` stands for, given a recent one. */
  function Unwrap(n: U32, isn: U32, checkpoint: nat): (v: nat)
    ensures Wrap(v, isn) == n
  {
    var offset := (n - isn) % TWO32;
    assert Wrap(offset, isn) == n;
    if checkpoint > offset then
      var factor := (checkpoint - offset) / TWO32;
      WrapPeriodic(offset, isn, factor);
      WrapPeriodic(offset, isn, factor + 1);
      var below := offset + TWO32 * factor;
      if below + TWO32 - checkpoint < checkpoint - below then below + TWO32 else below
    else
      offset
  }

  /** The same computation in unsigned 64-bit arithmetic, every operation truncated. */
  function Unwrap64(n: U32, isn: U32, checkpoint: nat): (v: nat)
    ensures v < TWO64
  {
    var offset := (n - isn) % TWO32;
    if checkpoint > offset then
      var factor := ((checkpoint - offset) % TWO64) / TWO32;
      var below := (offset + (TWO32 * factor) % TWO64) % TWO64;
      if (below + TWO32 - checkpoint) % TWO64 < (checkpoint - below) % TWO64
      then (below + TWO32) % TWO64
      else below
    else
      offset
  }

  function Distance(a: nat, b: nat): nat {
    if a < b then b - a else a - b
  }

  /** `v` wraps to `n` and no other number that does is nearer to `checkpoint`; of two at the same
      distance `v` is the lower one. */
  ghost predicate IsClosest(v: nat, n: U32, isn: U32, checkpoint: nat) {
    && Wrap(v, isn) == n
    && forall u: nat | Wrap(u, isn) == n && u != v ::
         || Distance(v, checkpoint) < Distance(u, checkpoint)
         || (Distance(v, checkpoint) == Distance(u, checkpoint) && v < u)
  }

  lemma WrapPeriodic(n: nat, isn: U32, k: nat)
    ensures Wrap(n + TWO32 * k, isn) == Wrap(n, isn)
  {
  }

  /** Two absolute numbers with one wire form are a whole number of wraps apart. */
  lemma SameWrap(u: nat, v: nat, isn: U32)
    requires Wrap(u, isn) == Wrap(v, isn)
    requires u <= v
    ensures u == v || u + TWO32 <= v
  {
  }

  /** Fewer than 2^32 apart and different means different on the wire. */
  lemma WrapInjectiveNear(u: nat, v: nat, isn: U32)
    requires Distance(u, v) < TWO32
    ensures Wrap(u, isn) == Wrap(v, isn) <==> u == v
  {
  }

  lemma UnwrapClosest(n: U32, isn: U32, checkpoint: nat)
    ensures IsClosest(Unwrap(n, isn, checkpoint), n, isn, checkpoint)
  {
    var v := Unwrap(n, isn, checkpoint);
    UnwrapNear(n, isn, checkpoint);
    forall u: nat | Wrap(u, isn) == n && u != v
      ensures Distance(v, checkpoint) < Distance(u, checkpoint)
              || (Distance(v, checkpoint) == Distance(u, checkpoint) && v < u)
    {
      if u < v { SameWrap(u, v, isn); } else { SameWrap(v, u, isn); }
    }
  }

  /** At most half a period below the checkpoint, and less than half above it unless nothing lower exists. */
  lemma UnwrapNear(n: U32, isn: U32, checkpoint: nat)
    ensures var v := Unwrap(n, isn, checkpoint);
            checkpoint - v <= TWO31 && (v - checkpoint < TWO31 || v < TWO32)
  {
    var offset := (n - isn) % TWO32;
    if checkpoint > offset {
      var factor := (checkpoint - offset) / TWO32;
      var below := offset + TWO32 * factor;
      assert 0 <= checkpoint - below < TWO32;
    }
  }

  /** Only one number satisfies the definition. */
  lemma ClosestUnique(u: nat, v: nat, n: U32, isn: U32, checkpoint: nat)
    requires IsClosest(u, n, isn, checkpoint) && IsClosest(v, n, isn, checkpoint)
    ensures u == v
  {
  }

  /** The round trip holds exactly within half a period of the checkpoint (or when no lower candidate exists). */
  lemma UnwrapWrap(v: nat, isn: U32, checkpoint: nat)
    ensures Unwrap(Wrap(v, isn), isn, checkpoint) == v
            <==> checkpoint - v <= TWO31 && (v - checkpoint < TWO31 || v < TWO32)
  {
    var u := Unwrap(Wrap(v, isn), isn, checkpoint);
    UnwrapNear(Wrap(v, isn), isn, checkpoint);
    if u < v { SameWrap(u, v, isn); } else { SameWrap(v, u, isn); }
  }

  /** The last 2^32 checkpoints, and a wire number that stands more than half a period below: the nearest
      number is in the next period, which 64 bits do not reach. */
  predicate PastTheTop(n: U32, isn: U32, checkpoint: nat) {
    checkpoint >= TWO64 - TWO32 && checkpoint % TWO32 - (n - isn) % TWO32 > TWO31
  }

  /** The 64-bit computation gives the nearest number truncated to 64 bits, and the nearest number itself
      exactly when the arguments are not past the top. */
  lemma Unwrap64Agrees(n: U32, isn: U32, checkpoint: nat)
    requires checkpoint < TWO64
    ensures Unwrap64(n, isn, checkpoint) == Unwrap(n, isn, checkpoint) % TWO64
    ensures Unwrap64(n, isn, checkpoint) == Unwrap(n, isn, checkpoint) <==> !PastTheTop(n, isn, checkpoint)
    ensures PastTheTop(n, isn, checkpoint) <==> Unwrap(n, isn, checkpoint) >= TWO64
  {
    var offset := (n - isn) % TWO32;
    if checkpoint > offset {
      var factor := (checkpoint - offset) / TWO32;
      var below := offset + TWO32 * factor;
      assert 0 <= checkpoint - below < TWO32;
      SmallMod(checkpoint - offset);
      SmallMod(TWO32 * factor);
      SmallMod(below);
      SmallMod(below + TWO32 - checkpoint);
      SmallMod(checkpoint - below);
      TopPeriod(checkpoint, offset, below);
    } else {
      SmallMod(offset);
    }
  }

  lemma TopPeriod(checkpoint: nat, offset: U32, below: nat)
    requires below % TWO32 == offset && below <= checkpoint < below + TWO32 && checkpoint < TWO64
    ensures checkpoint >= TWO64 - TWO32 && checkpoint % TWO32 - offset > TWO31
            <==> below + TWO32 >= TWO64 && checkpoint - below > TWO31
  {
  }

  /** The round trip in 64 bits, for every number within half a period of a checkpoint below 2^64 - 2^32. */
  lemma Unwrap64Wrap(v: nat, isn: U32, checkpoint: nat)
    requires checkpoint < TWO64 - TWO32 && checkpoint - v <= TWO31 && v - checkpoint < TWO31
    ensures Unwrap64(Wrap(v, isn), isn, checkpoint) == v
  {
    UnwrapWrap(v, isn, checkpoint);
    Unwrap64Agrees(Wrap(v, isn), isn, checkpoint);
  }

  /** Past that range the promise fails: the nearest number no longer fits in 64 bits. */
  lemma Unwrap64Overflows()
    ensures Unwrap64(0, 0, TWO64 - 1) == 0 < Unwrap(0, 0, TWO64 - 1)
  {
    assert (TWO64 - 1) / TWO32 == TWO32 - 1;
  }

  lemma SmallMod(x: nat)
    requires x < TWO64
    ensures x % TWO64 == x
  {
  }
}
