/** The Internet checksum (RFC 1071; InternetChecksum in libsponge/util/util.cc). */
module Checksums {
  import opened Types

  /** One byte's contribution to the sum: the high byte of a 16-bit word when the parity is even. */
  function Weight(b: Byte, odd: bool): nat {
    if odd then b else 0x100 * b
  }

  /** The sum of the 16-bit words that `data` spells, starting at an even or odd position. */
  function WordSum(data: seq<Byte>, odd: bool): nat {
    if data == [] then 0 else Weight(data[0], odd) + WordSum(data[1..], !odd)
  }

  predicate Odd(n: nat) {
    n % 2 == 1
  }

  /** The running checksum: a 32-bit sum and whether an odd number of bytes has been added. */
  datatype Running = Running(sum: U32, odd: bool)
  {
    /** The sum as the program keeps it, modulo 2^32. */
    function Add(data: seq<Byte>): Running {
      Running((sum + WordSum(data, odd)) % TWO32, odd != Odd(|data|))
    }
  }

  lemma {:induction false} WordSumConcat(a: seq<Byte>, b: seq<Byte>, odd: bool)
    ensures WordSum(a + b, odd) == WordSum(a, odd) + WordSum(b, odd != Odd(|a|))
  {
    if a == [] {
      assert a + b == b;
    } else {
      assert (a + b)[1..] == a[1..] + b;
      WordSumConcat(a[1..], b, !odd);
    }
  }

  /** Splitting the input into pieces of any length and parity does not change the result. */
  lemma AddConcat(c: Running, a: seq<Byte>, b: seq<Byte>)
    ensures c.Add(a).Add(b) == c.Add(a + b)
  {
    WordSumConcat(a, b, c.odd);
    ModAdd(c.sum + WordSum(a, c.odd), WordSum(b, c.odd != Odd(|a|)));
    assert Odd(|a + b|) == (Odd(|a|) != Odd(|b|));
  }

  lemma ModAdd(a: nat, b: nat)
    ensures (a % TWO32 + b) % TWO32 == (a + b) % TWO32
  {
    var q := a / TWO32;
    assert a + b == (a % TWO32 + b) + q * TWO32;
  }

  lemma {:induction false} WordSumBound(data: seq<Byte>, odd: bool)
    ensures WordSum(data, odd) <= 0x8000 * |data| + if odd then 0 else 0x7f00
  {
    if data == [] {
    } else {
      WordSumBound(data[1..], !odd);
    }
  }

  lemma {:induction false} WordSumPositive(data: seq<Byte>, odd: bool, i: nat)
    requires i < |data| && data[i] > 0
    ensures WordSum(data, odd) > 0
  {
    if i == 0 {
    } else {
      WordSumPositive(data[1..], !odd, i - 1);
    }
  }

  /** Over at most 65535 bytes, with an initial sum such as a pseudo-header's, 32 bits never overflow. */
  lemma NoOverflow(c: Running, data: seq<Byte>)
    requires |data| <= 0xffff && c.sum < 0x8000_0000
    ensures c.Add(data).sum == c.sum + WordSum(data, c.odd)
  {
    WordSumBound(data, c.odd);
  }

  /** The representative of s modulo 65535 that folding yields: 65535 itself for a positive multiple. */
  function Folded(s: nat): U16 {
    if s == 0 then 0 else (s - 1) % 0xffff + 1
  }

  /** value(): the complement of the folded sum. */
  function ValueOf(s: nat): U16 {
    0xffff - Folded(s)
  }

  lemma FoldStep(s: nat)
    requires s > 0xffff
    ensures var t := s / 0x1_0000 + s % 0x1_0000; 0 < t < s && Folded(t) == Folded(s)
  {
    var q, r := s / 0x1_0000, s % 0x1_0000;
    assert s - 1 == (q + r - 1) + q * 0xffff;
    ModShift(q + r - 1, q);
  }

  lemma {:induction false} ModShift(a: nat, q: nat)
    ensures (a + q * 0xffff) % 0xffff == a % 0xffff
  {
    if q == 0 {
    } else {
      ModShift(a, q - 1);
      assert a + q * 0xffff == (a + (q - 1) * 0xffff) + 0xffff;
    }
  }

  /** Verification yields 0 exactly for sums that are positive multiples of 65535. */
  lemma ValueZeroIff(s: nat)
    ensures ValueOf(s) == 0 <==> s > 0 && s % 0xffff == 0
  {
    if s > 0 {
      var q := (s - 1) / 0xffff;
      assert s - 1 == q * 0xffff + (s - 1) % 0xffff;
      ModShift((s - 1) % 0xffff + 1, q);
    }
  }

  /** Adding the checksum of a sum to it makes verification yield 0. */
  lemma ChecksumVerifies(s: nat)
    ensures ValueOf(s + ValueOf(s)) == 0
  {
    if s > 0 {
      var q := (s - 1) / 0xffff;
      assert s + ValueOf(s) == 0 + (q + 1) * 0xffff;
      ModShift(0, q + 1);
    }
    ValueZeroIff(s + ValueOf(s));
  }

  /** The two bytes of a 16-bit field in network order. */
  function Word(w: U16): seq<Byte> {
    [w / 0x100, w % 0x100]
  }

  /**
   Filling in a checksum field that was zero while the sum was taken, at any even
   offset, makes the sum over the whole packet verify.
   */
  lemma FilledFieldVerifies(initial: nat, before: seq<Byte>, after: seq<Byte>)
    requires !Odd(|before|)
    ensures var blank := before + Word(0) + after;
            var filled := before + Word(ValueOf(initial + WordSum(blank, false))) + after;
            ValueOf(initial + WordSum(filled, false)) == 0
  {
    var blank := before + Word(0) + after;
    var sum := initial + WordSum(blank, false);
    FieldSum(before, 0, after);
    FieldSum(before, ValueOf(sum), after);
    ChecksumVerifies(sum);
  }

  // A 16-bit field at an even offset contributes its own value.
  lemma FieldSum(before: seq<Byte>, w: U16, after: seq<Byte>)
    requires !Odd(|before|)
    ensures WordSum(before + Word(w) + after, false) == WordSum(before, false) + w + WordSum(after, false)
  {
    WordSumConcat(before + Word(w), after, false);
    WordSumConcat(before, Word(w), false);
    assert WordSum(Word(w), false) == w by {
      assert Word(w)[1..] == [w % 0x100];
      assert WordSum([w % 0x100], true) == w % 0x100;
    }
    assert !Odd(|before + Word(w)|);
  }

  /**
   A verified packet in which one 16-bit word is altered still verifies exactly when
   the word went between 0x0000 and 0xffff, the two forms of zero, and the packet did
   not become all zero.
   */
  lemma CorruptedWordIff(initial: nat, before: seq<Byte>, after: seq<Byte>, w: U16, w': U16)
    requires !Odd(|before|) && w != w'
    requires ValueOf(initial + WordSum(before + Word(w) + after, false)) == 0
    ensures ValueOf(initial + WordSum(before + Word(w') + after, false)) == 0 <==>
            (w == 0 && w' == 0xffff)
            || (w == 0xffff && w' == 0 && initial + WordSum(before + Word(w') + after, false) > 0)
  {
    FieldSum(before, w, after);
    FieldSum(before, w', after);
    var rest := initial + WordSum(before, false) + WordSum(after, false);
    ValueZeroIff(rest + w);
    ValueZeroIff(rest + w');
    MultiplesApart(rest + w, rest + w');
  }

  lemma MultiplesApart(a: nat, b: nat)
    requires a % 0xffff == 0 && a != b && -0xffff <= b - a <= 0xffff
    ensures b % 0xffff == 0 <==> b - a == 0xffff || a - b == 0xffff
  {
    var q := a / 0xffff;
    assert a == q * 0xffff;
    if b > a {
      ModShift(b - a, q);
    } else {
      ModShift(b - a + 0xffff, q - 1);
    }
  }

  class InternetChecksum {
    var sum: U32
    var parity: bool

    ghost function Model(): Running
      reads this
    {
      Running(sum, parity)
    }

    constructor (initialSum: U32)
      ensures Model() == Running(initialSum, false)
    {
      sum, parity := initialSum, false;
    }

    method Add(data: seq<Byte>)
      modifies this
      ensures Model() == old(Model()).Add(data)
    {
      for i := 0 to |data|
        invariant Model() == old(Model()).Add(data[..i])
      {
        var val: nat := data[i];
        if !parity {
          val := val * 0x100;
        }
        AddConcat(old(Model()), data[..i], [data[i]]);
        assert WordSum([data[i]], parity) == val;
        assert data[..i] + [data[i]] == data[..i + 1];
        sum := (sum + val) % TWO32;
        parity := !parity;
      }
      assert data[..|data|] == data;
    }

    method Value() returns (value: U16)
      ensures value == ValueOf(sum)
    {
      var ret: nat := sum;
      while ret > 0xffff
        invariant Folded(ret) == Folded(sum)
      {
        FoldStep(ret);
        ret := ret / 0x1_0000 + ret % 0x1_0000;
      }
      value := 0xffff - ret;
    }
  }
}
