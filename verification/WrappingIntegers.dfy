/**
 32-bit sequence numbers relative to an initial sequence number, and the 64-bit
 absolute numbers they stand for (libsponge/wrapping_integers.cc).
 */
module WrappingIntegers {
  import opened Types

  function Wrap(n: nat, isn: U32): U32 {
    (isn + n % TWO32) % TWO32
  }

  /** The distance of n from the initial sequence number, in 32-bit arithmetic. */
  function Offset(n: U32, isn: U32): U32 {
    (n - isn) % TWO32
  }

  /** unwrap, in 64-bit unsigned arithmetic. */
  function Unwrap(n: U32, isn: U32, checkpoint: nat): nat {
    var num := Offset(n, isn);
    if checkpoint > num then
      var rank := ((checkpoint - num + TWO31) % TWO64) / TWO32;
      (num + rank * TWO32) % TWO64
    else
      num
  }

  function Distance(a: nat, b: nat): nat {
    if a <= b then b - a else a - b
  }

  /** v is a 64-bit number that wraps to n. */
  predicate Stands(v: nat, n: U32, isn: U32) {
    v < TWO64 && Wrap(v, isn) == n
  }

  /** v is the closest number to the checkpoint that wraps to n, the larger of two equally close. */
  ghost predicate Nearest(v: nat, n: U32, isn: U32, checkpoint: nat) {
    && Stands(v, n, isn)
    && forall w: nat :: Stands(w, n, isn) ==>
         Distance(v, checkpoint) < Distance(w, checkpoint)
             || (Distance(v, checkpoint) == Distance(w, checkpoint) && w <= v)
  }

  lemma StandsIff(v: nat, n: U32, isn: U32)
    ensures Wrap(v, isn) == n <==> v % TWO32 == Offset(n, isn)
  {
  }

  // A candidate is a whole number of turns from the offset.
  lemma Turns(v: nat, n: U32, isn: U32) returns (k: nat)
    requires Stands(v, n, isn)
    ensures v == Offset(n, isn) + k * TWO32
  {
    StandsIff(v, n, isn);
    k := v / TWO32;
  }

  /**
   unwrap returns the nearest candidate if and only if rounding the checkpoint
   up by half a turn does not overflow 64 bits.
   */
  lemma UnwrapNearestIff(n: U32, isn: U32, checkpoint: nat)
    requires checkpoint < TWO64
    ensures Nearest(Unwrap(n, isn, checkpoint), n, isn, checkpoint) <==>
            (checkpoint <= Offset(n, isn) || checkpoint - Offset(n, isn) + TWO31 < TWO64)
  {
    hide Unwrap, Offset;
    if checkpoint <= Offset(n, isn) || checkpoint - Offset(n, isn) + TWO31 < TWO64 {
      UnwrapStands(n, isn, checkpoint);
      forall w: nat | Stands(w, n, isn)
        ensures var v := Unwrap(n, isn, checkpoint);
                Distance(v, checkpoint) < Distance(w, checkpoint)
                    || (Distance(v, checkpoint) == Distance(w, checkpoint) && w <= v)
      {
        UnwrapBeats(n, isn, checkpoint, w);
      }
    } else {
      UnwrapFar(n, isn, checkpoint);
    }
  }

  lemma UnwrapStands(n: U32, isn: U32, checkpoint: nat)
    requires checkpoint < TWO64
    requires checkpoint <= Offset(n, isn) || checkpoint - Offset(n, isn) + TWO31 < TWO64
    ensures Stands(Unwrap(n, isn, checkpoint), n, isn)
  {
    hide Unwrap;
    var rank := UnwrapClose(n, isn, checkpoint);
    StandsIff(Unwrap(n, isn, checkpoint), n, isn);
  }

  // On overflow the least candidate is returned although the greatest one is closer.
  lemma UnwrapFar(n: U32, isn: U32, checkpoint: nat)
    requires checkpoint < TWO64
    requires Offset(n, isn) < checkpoint && TWO64 <= checkpoint - Offset(n, isn) + TWO31
    ensures !Nearest(Unwrap(n, isn, checkpoint), n, isn, checkpoint)
  {
    var last := Offset(n, isn) + (TWO32 - 1) * TWO32;
    StandsIff(last, n, isn);
    assert Stands(last, n, isn) && Unwrap(n, isn, checkpoint) == Offset(n, isn);
  }

  lemma UnwrapBeats(n: U32, isn: U32, checkpoint: nat, w: nat)
    requires checkpoint < TWO64 && Stands(w, n, isn)
    requires checkpoint <= Offset(n, isn) || checkpoint - Offset(n, isn) + TWO31 < TWO64
    ensures var v := Unwrap(n, isn, checkpoint);
            Distance(v, checkpoint) < Distance(w, checkpoint)
                || (Distance(v, checkpoint) == Distance(w, checkpoint) && w <= v)
  {
    hide Unwrap, Offset;
    var rank := UnwrapClose(n, isn, checkpoint);
    var k := Turns(w, n, isn);
  }

  // The result is a candidate within half a turn of the checkpoint, or the least candidate.
  lemma UnwrapClose(n: U32, isn: U32, checkpoint: nat) returns (rank: nat)
    requires checkpoint < TWO64
    requires checkpoint <= Offset(n, isn) || checkpoint - Offset(n, isn) + TWO31 < TWO64
    ensures var v := Unwrap(n, isn, checkpoint);
            && v == Offset(n, isn) + rank * TWO32 && v < TWO64
            && checkpoint < v + TWO31 && (v <= checkpoint + TWO31 || rank == 0)
  {
    var num := Offset(n, isn);
    rank := if checkpoint > num then (checkpoint - num + TWO31) / TWO32 else 0;
  }

  /**
   unwrap undoes wrap if and only if the number is less than half a turn below
   the checkpoint and at most half a turn above it, or has not turned at all.
   */
  lemma UnwrapWrapIff(v: nat, isn: U32, checkpoint: nat)
    requires v < TWO64 && checkpoint + TWO31 < TWO64
    ensures Unwrap(Wrap(v, isn), isn, checkpoint) == v <==>
            checkpoint < v + TWO31 && (v <= checkpoint + TWO31 || v < TWO32)
  {
    StandsIff(v, Wrap(v, isn), isn);
    var k := Turns(v, Wrap(v, isn), isn);
    var rank := UnwrapClose(Wrap(v, isn), isn, checkpoint);
  }

  /** The two directions of the program's use of it: exact within half a turn. */
  lemma UnwrapWrap(v: nat, isn: U32, checkpoint: nat)
    requires checkpoint + TWO31 < TWO64 && checkpoint < v + TWO31 && v <= checkpoint + TWO31 && v < TWO64
    ensures Unwrap(Wrap(v, isn), isn, checkpoint) == v
  {
    UnwrapWrapIff(v, isn, checkpoint);
  }

  /** The last checkpoint of all unwraps the initial sequence number to 0, a whole range away. */
  lemma UnwrapOverflows(isn: U32)
    ensures Unwrap(isn, isn, SIZE_MAX) == 0 && !Nearest(0, isn, isn, SIZE_MAX)
  {
    UnwrapNearestIff(isn, isn, SIZE_MAX);
  }

  /** Numbers less than a whole turn apart wrap differently. */
  lemma WrapInjective(v: nat, w: nat, isn: U32)
    requires Wrap(v, isn) == Wrap(w, isn) && Distance(v, w) < TWO32
    ensures v == w
  {
    StandsIff(v, Wrap(v, isn), isn);
    StandsIff(w, Wrap(w, isn), isn);
  }
}
