/** Big-endian integers and the two classes that read and write them (libsponge/util/parser.cc). */
module Parsing {
  import opened Types

  datatype ParseResult =
    | NoError
    | BadChecksum
    | PacketTooShort
    | WrongIPVersion
    | HeaderTooShort
    | TruncatedPacket

  function Pow256(n: nat): nat
    ensures Pow256(n) > 0
  {
    if n == 0 then 1 else 0x100 * Pow256(n - 1)
  }

  /** The number that `bytes` spell, most significant byte first. */
  function BigEndian(bytes: seq<Byte>): (v: nat)
    ensures v < Pow256(|bytes|)
  {
    if bytes == [] then 0 else 0x100 * BigEndian(bytes[..|bytes| - 1]) + bytes[|bytes| - 1]
  }

  /** The low n bytes of v, most significant first. */
  function Encode(v: nat, n: nat): (bytes: seq<Byte>)
    ensures |bytes| == n
  {
    if n == 0 then [] else Encode(v / 0x100, n - 1) + [v % 0x100]
  }

  /** Reading back what was written yields the number, if it fits. */
  lemma {:induction false} DecodeEncode(v: nat, n: nat)
    requires v < Pow256(n)
    ensures BigEndian(Encode(v, n)) == v
  {
    if n == 0 {
    } else {
      DecodeEncode(v / 0x100, n - 1);
      assert Encode(v, n)[..n - 1] == Encode(v / 0x100, n - 1);
    }
  }

  /** Writing what was read yields the bytes. */
  lemma {:induction false} EncodeDecode(bytes: seq<Byte>)
    ensures Encode(BigEndian(bytes), |bytes|) == bytes
  {
    if bytes == [] {
    } else {
      EncodeDecode(bytes[..|bytes| - 1]);
    }
  }

  lemma DivUnique(v: nat, d: nat, t: nat, rem: nat)
    requires rem < d && v == d * t + rem
    ensures v / d == t
  {
    if v / d < t {
      Scale(d, v / d + 1, t);
    } else if v / d > t {
      Scale(d, t + 1, v / d);
    }
  }

  lemma Scale(d: nat, a: nat, b: nat)
    requires a <= b
    ensures d * a <= d * b
  {
  }

  lemma DivTwice(v: nat, p: nat)
    requires p > 0
    ensures v / 0x100 / p == v / (0x100 * p)
  {
    var q := v / 0x100;
    var t := q / p;
    assert 0x100 * q == (0x100 * p) * t + 0x100 * (q % p) by { assert q == p * t + q % p; }
    DivUnique(v, 0x100 * p, t, 0x100 * (q % p) + v % 0x100);
  }

  /** The byte at position i is what shifting the number right by 8 (n - 1 - i) bits leaves. */
  lemma {:induction false} EncodeAt(v: nat, n: nat, i: nat)
    requires i < n
    ensures Encode(v, n)[i] == v / Pow256(n - 1 - i) % 0x100
  {
    if i < n - 1 {
      EncodeAt(v / 0x100, n - 1, i);
      DivTwice(v, Pow256(n - 2 - i));
    }
  }

  /** What a parser has left to read, and the first error it met. */
  datatype Parser = Parser(buffer: seq<Byte>, error: ParseResult)
  {
    function CheckSize(size: nat): Parser {
      if size > |buffer| then Parser(buffer, PacketTooShort) else this
    }

    /** The next n bytes as a number; zero, with nothing consumed, once there is an error. */
    function Number(n: nat): (v: nat)
      ensures v < Pow256(n)
    {
      if CheckSize(n).error != NoError then 0 else BigEndian(buffer[..n])
    }

    /** The parser after the next n bytes. */
    function Skip(n: nat): Parser {
      var p := CheckSize(n);
      if p.error != NoError then p else Parser(buffer[n..], NoError)
    }
  }

  /** A parser positioned at an encoded number reads it and stops right after it. */
  lemma ReadsEncoded(v: nat, n: nat, rest: seq<Byte>)
    requires v < Pow256(n)
    ensures var p := Parser(Encode(v, n) + rest, NoError);
            p.Number(n) == v && p.Skip(n) == Parser(rest, NoError)
  {
    DecodeEncode(v, n);
    assert (Encode(v, n) + rest)[..n] == Encode(v, n);
    assert (Encode(v, n) + rest)[n..] == rest;
  }

  /** Consuming a then b bytes is consuming a + b bytes, and fails exactly when there are not that many. */
  lemma SkipTwice(p: Parser, a: nat, b: nat)
    requires p.error == NoError
    ensures p.Skip(a).Skip(b).error == p.Skip(a + b).error
    ensures a + b <= |p.buffer| ==> p.Skip(a).Skip(b) == p.Skip(a + b)
  {
    if a + b <= |p.buffer| {
      assert p.buffer[a..][b..] == p.buffer[a + b..];
    }
  }

  lemma EncodeByte(v: nat)
    ensures Encode(v, 1) == [v % 0x100]
  {
  }

  lemma ReadAt(b: seq<Byte>, k: nat, n: nat)
    requires k + n <= |b|
    ensures Parser(b, NoError).Skip(k).Number(n) == BigEndian(b[k..k + n])
  {
    assert b[k..][..n] == b[k..k + n];
  }

  // As many bytes that spell the same number are the same bytes.
  lemma SameNumber(x: seq<Byte>, y: seq<Byte>)
    requires |x| == |y| && BigEndian(x) == BigEndian(y)
    ensures x == y
  {
    EncodeDecode(x);
    EncodeDecode(y);
  }

  class NetParser {
    var buffer: seq<Byte>
    var error: ParseResult

    ghost function Model(): Parser
      reads this
    {
      Parser(buffer, error)
    }

    constructor (data: seq<Byte>)
      ensures Model() == Parser(data, NoError)
    {
      buffer, error := data, NoError;
    }

    method CheckSize(size: nat)
      modifies this
      ensures Model() == old(Model()).CheckSize(size)
    {
      if size > |buffer| {
        error := PacketTooShort;
      }
    }

    method ParseInt(len: nat) returns (ret: nat)
      modifies this
      ensures ret == old(Model()).Number(len)
      ensures Model() == old(Model()).Skip(len)
    {
      CheckSize(len);
      if error != NoError {
        return 0;
      }
      ret := 0;
      for i := 0 to len
        invariant ret == BigEndian(buffer[..i])
        invariant Model() == old(Model())
      {
        assert buffer[..i + 1][..i] == buffer[..i];
        ret := ret * 0x100 + buffer[i];
      }
      buffer := buffer[len..];
    }

    method RemovePrefix(n: nat)
      modifies this
      ensures Model() == old(Model()).Skip(n)
    {
      CheckSize(n);
      if error != NoError {
        return;
      }
      buffer := buffer[n..];
    }
  }

  /** _unparse_int: appends the bytes of val, computed by shifting. */
  method UnparseInt(s: seq<Byte>, val: nat, len: nat) returns (r: seq<Byte>)
    ensures r == s + Encode(val, len)
  {
    r := s;
    for i := 0 to len
      invariant r == s + Encode(val, len)[..i]
    {
      EncodeAt(val, len, i);
      r := r + [val / Pow256(len - i - 1) % 0x100];
    }
  }
}
