/**
 Machine integers, bytes and the few generic definitions every other module uses.

 Counters that the program keeps in 64-bit variables are unbounded naturals in
 the model; where a width matters (sequence numbers, checksums, header fields)
 the reduction is written out.
 */
module Types {
  const TWO31: int := 0x8000_0000
  const TWO32: int := 0x1_0000_0000
  const TWO64: int := 0x1_0000_0000_0000_0000

  // numeric_limits<size_t>::max()
  const SIZE_MAX: int := TWO64 - 1

  type Byte = x: int | 0 <= x < 0x100
  type U16 = x: int | 0 <= x < 0x1_0000
  type U32 = x: int | 0 <= x < 0x1_0000_0000

  datatype Option<+T> = None | Some(value: T)

  function Min(a: int, b: int): int {
    if a <= b then a else b
  }

  function Max(a: int, b: int): int {
    if a <= b then b else a
  }

  /** The natural numbers from lo up to, and not including, hi. */
  function Range(lo: nat, hi: nat): (r: set<nat>)
    ensures forall i: nat :: i in r <==> lo <= i < hi
    ensures |r| == Max(0, hi - lo)
    decreases hi - lo
  {
    if hi <= lo then {} else {lo} + Range(lo + 1, hi)
  }
}
