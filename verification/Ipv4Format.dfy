/** IPv4 headers and datagrams as bytes (libsponge/tcp_helpers/ipv4_header.cc and ipv4_datagram.cc). */
module Ipv4Formats {
  import opened Types
  import opened Segments
  import opened Parsing
  import opened Checksums
  import opened TcpFormats

  const IP_LENGTH: nat := 20
  const PROTO_TCP: Byte := 6

  datatype Ipv4Header = Ipv4Header(
    ver: Byte, hlen: Byte, tos: Byte, len: U16, id: U16, df: bool, mf: bool, offset: U16,
    ttl: Byte, proto: Byte, cksum: U16, src: U32, dst: U32)
  {
    /** payload_length(): a 16-bit subtraction. */
    function PayloadLength(): U16 {
      (len - 4 * hlen) % 0x1_0000
    }

    /** pseudo_cksum(): what the addresses, protocol and length add to a TCP checksum. */
    function PseudoSum(): (s: U32)
      ensures s < TWO31
    {
      src / 0x1_0000 + src % 0x1_0000 + dst / 0x1_0000 + dst % 0x1_0000 + proto + PayloadLength()
    }

    /** The flags and the fragment offset in one 16-bit word. */
    function FragmentWord(): U16 {
      0x4000 * Bit(df) + 0x2000 * Bit(mf) + offset % 0x2000
    }

    /** What serialize() accepts; it throws otherwise. */
    predicate Serializable() {
      ver == 4 && hlen >= 5
    }

    /** A header whose length fits its four bits. */
    predicate Representable() {
      ver == 4 && 5 <= hlen <= 15
    }

    /** The header as it reads after the trip: of the offset only thirteen bits are sent. */
    function Carried(): Ipv4Header {
      this.(offset := offset % 0x2000)
    }
  }

  /** A default-constructed header. */
  const IP_BLANK: Ipv4Header := Ipv4Header(4, 5, 0, 0, 0, true, false, 0, 128, PROTO_TCP, 0, 0, 0)

  datatype Datagram = Datagram(header: Ipv4Header, payload: seq<Byte>)

  function IpFront(h: Ipv4Header): (b: seq<Byte>)
    ensures |b| == 10
  {
    Encode(h.ver * 16 + h.hlen % 16, 1) + Encode(h.tos, 1) + Encode(h.len, 2) + Encode(h.id, 2)
    + Encode(h.FragmentWord(), 2) + Encode(h.ttl, 1) + Encode(h.proto, 1)
  }

  function IpBack(h: Ipv4Header): (b: seq<Byte>)
    requires h.Serializable()
    ensures |b| == 4 * h.hlen - 12
  {
    Encode(h.src, 4) + Encode(h.dst, 4) + Zeros(4 * h.hlen - IP_LENGTH)
  }

  function IpBytes(h: Ipv4Header): (b: seq<Byte>)
    requires h.Serializable()
    ensures |b| == 4 * h.hlen
  {
    IpFront(h) + Encode(h.cksum, 2) + IpBack(h)
  }

  /** The header of section 3.1 of RFC 791: every field in its place, and zeros up to the advertised length. */
  lemma IpLayout(h: Ipv4Header, i: nat)
    requires h.Serializable()
    ensures var b := IpBytes(h);
            && b[0] == 0x40 + h.hlen % 16 && b[1] == h.tos && BigEndian(b[2..4]) == h.len && BigEndian(b[4..6]) == h.id
            && BigEndian(b[6..8]) == (if h.df then 0x4000 else 0) + (if h.mf then 0x2000 else 0) + h.offset % 0x2000
            && b[8] == h.ttl && b[9] == h.proto && BigEndian(b[10..12]) == h.cksum
            && BigEndian(b[12..16]) == h.src && BigEndian(b[16..20]) == h.dst
            && (IP_LENGTH <= i < |b| ==> b[i] == 0)
  {
    hide BigEndian, Encode, IpBytes, Ipv4Header.FragmentWord;
    FragmentWeights(h);
    DecodeEncode(h.len, 2);
    DecodeEncode(h.id, 2);
    DecodeEncode(h.FragmentWord(), 2);
    DecodeEncode(h.cksum, 2);
    DecodeEncode(h.src, 4);
    DecodeEncode(h.dst, 4);
    EncodeByte(h.ver * 16 + h.hlen % 16);
    EncodeByte(h.tos);
    EncodeByte(h.ttl);
    EncodeByte(h.proto);
    IpPlaces(h);
    var b := IpBytes(h);
    if IP_LENGTH <= i < |b| { assert b[i] == b[20..][i - 20]; }
  }

  lemma FragmentWeights(h: Ipv4Header)
    ensures h.FragmentWord() == (if h.df then 0x4000 else 0) + (if h.mf then 0x2000 else 0) + h.offset % 0x2000
  {
  }

  lemma IpPlaces(h: Ipv4Header)
    requires h.Serializable()
    ensures var b := IpBytes(h);
            && b[0..1] == Encode(h.ver * 16 + h.hlen % 16, 1) && b[1..2] == Encode(h.tos, 1)
            && b[2..4] == Encode(h.len, 2) && b[4..6] == Encode(h.id, 2) && b[6..8] == Encode(h.FragmentWord(), 2)
            && b[8..9] == Encode(h.ttl, 1) && b[9..10] == Encode(h.proto, 1) && b[10..12] == Encode(h.cksum, 2)
            && b[12..16] == Encode(h.src, 4) && b[16..20] == Encode(h.dst, 4)
            && b[20..] == Zeros(4 * h.hlen - IP_LENGTH)
            && b[0] == b[0..1][0] && b[1] == b[1..2][0] && b[8] == b[8..9][0] && b[9] == b[9..10][0]
  {
    hide Encode, Ipv4Header.FragmentWord, Zeros;
    var z := Zeros(4 * h.hlen - IP_LENGTH);
    IpBytesNested(h, []);
    assert IpBytes(h) + [] == IpBytes(h) && z + [] == z;
    IpFrontNested(h, Encode(h.cksum, 2) + (Encode(h.src, 4) + (Encode(h.dst, 4) + z)));
  }

  // ---------------------------------------------------------------------
  // The pseudo-header

  /** The pseudo-header of section 3.1 of RFC 793, which the TCP checksum also covers. */
  function PseudoHeader(h: Ipv4Header): (b: seq<Byte>)
    ensures |b| == 12
  {
    Encode(h.src, 4) + Encode(h.dst, 4) + [0, h.proto] + Encode(h.PayloadLength(), 2)
  }

  lemma WordsOf(v: U32)
    ensures WordSum(Encode(v, 4), false) == v / 0x1_0000 + v % 0x1_0000
  {
    var hi, lo := v / 0x1_0000, v % 0x1_0000;
    assert Encode(v, 4) == Encode(hi, 2) + Encode(lo, 2) by { EncodeHalves(v); }
    WordSumConcat(Encode(hi, 2), Encode(lo, 2), false);
    WordOf(hi);
    WordOf(lo);
  }

  lemma WordOf(w: U16)
    ensures WordSum(Encode(w, 2), false) == w
  {
    WordEncoded(w);
    FieldSum([], w, []);
    assert [] + Word(w) + [] == Word(w);
  }

  lemma EncodeHalves(v: U32)
    ensures Encode(v, 4) == Encode(v / 0x1_0000, 2) + Encode(v % 0x1_0000, 2)
  {
    var hi, lo := v / 0x1_0000, v % 0x1_0000;
    WordEncoded(hi);
    WordEncoded(lo);
    assert v / 0x100 / 0x100 == hi;
    assert v / 0x100 % 0x100 == lo / 0x100 && v % 0x100 == lo % 0x100;
    assert Encode(v, 4) == Encode(v / 0x100, 3) + [v % 0x100];
    assert Encode(v / 0x100, 3) == Encode(hi, 2) + [v / 0x100 % 0x100];
    assert Encode(hi, 2) + [lo / 0x100] + [lo % 0x100] == Encode(hi, 2) + [lo / 0x100, lo % 0x100];
  }

  /** What pseudo_cksum adds is the sum of the words of the pseudo-header. */
  lemma PseudoSumWords(h: Ipv4Header)
    ensures h.PseudoSum() == WordSum(PseudoHeader(h), false)
  {
    hide Encode;
    var s, d, p, n := Encode(h.src, 4), Encode(h.dst, 4), [0, h.proto], Encode(h.PayloadLength(), 2);
    WordSumConcat(s + d + p, n, false);
    WordSumConcat(s + d, p, false);
    WordSumConcat(s, d, false);
    WordsOf(h.src);
    WordsOf(h.dst);
    WordOf(h.PayloadLength());
    assert WordSum(p, false) == h.proto by {
      assert p[1..] == [h.proto];
      assert WordSum([h.proto], true) == h.proto;
    }
  }

  /**
   A segment that arrives under a header whose pseudo-header differs in one word, such as
   half an address or the protocol, is rejected if and only if that word did not go between
   the two forms of zero.
   */
  lemma MisaddressedRejected(prior: Segment, seg: Segment, h: Ipv4Header, h': Ipv4Header,
                             before: seq<Byte>, w: U16, w': U16, after: seq<Byte>)
    requires Carriable(seg)
    requires PseudoHeader(h) == before + Word(w) + after && PseudoHeader(h') == before + Word(w') + after
    requires !Odd(|before|) && w != w'
    ensures ParseSegment(prior, SegmentBytes(seg, h.PseudoSum()), h'.PseudoSum()) == SegmentParsed(prior, BadChecksum)
            <==> {w, w'} != {0, 0xffff}
  {
    hide SegmentBytes, PseudoHeader, WordSum, Ipv4Header.PseudoSum, ValueOf, ParseTcpHeader;
    var bytes := SegmentBytes(seg, h.PseudoSum());
    SerializedVerifies(seg, h.PseudoSum());
    PseudoSumWords(h);
    PseudoSumWords(h');
    NoOverflow(Running(h.PseudoSum(), false), bytes);
    NoOverflow(Running(h'.PseudoSum(), false), bytes);
    CorruptedWordIff(WordSum(bytes, false), before, after, w, w');
    OffsetByte(seg, h.PseudoSum());
    ParseNotBadChecksum(bytes);
  }

  datatype IpFields = IpFields(header: Ipv4Header, rest: Parser)
  datatype IpParsed = IpParsed(header: Ipv4Header, result: ParseResult, rest: Parser)

  function ReadIpFields(p: Parser): IpFields {
    var p1 := p.Skip(1);
    var p2 := p1.Skip(1);
    var p3 := p2.Skip(2);
    var p4 := p3.Skip(2);
    var p5 := p4.Skip(2);
    var p6 := p5.Skip(1);
    var p7 := p6.Skip(1);
    var p8 := p7.Skip(2);
    var p9 := p8.Skip(4);
    var first, word := p.Number(1), p4.Number(2);
    IpFields(
      Ipv4Header(first / 16, first % 16, p1.Number(1), p2.Number(2), p3.Number(2),
                 word / 0x4000 % 2 == 1, word / 0x2000 % 2 == 1, word % 0x2000,
                 p5.Number(1), p6.Number(1), p7.Number(2), p8.Number(4), p9.Number(4)),
      p9.Skip(4))
  }

  /** IPv4Header::parse on a header object that held `prior`. */
  function ParseIpHeader(prior: Ipv4Header, p: Parser): IpParsed {
    var size := |p.buffer|;
    if size < IP_LENGTH then IpParsed(prior, PacketTooShort, p)
    else
      var f := ReadIpFields(p);
      var h := f.header;
      if size < 4 * h.hlen then IpParsed(h, PacketTooShort, f.rest)
      else if h.ver != 4 then IpParsed(h, WrongIPVersion, f.rest)
      else if h.hlen < 5 then IpParsed(h, HeaderTooShort, f.rest)
      else if size != h.len then IpParsed(h, TruncatedPacket, f.rest)
      else
        var rest := f.rest.Skip(h.hlen * 4 - IP_LENGTH);
        if rest.error != NoError then IpParsed(h, rest.error, rest)
        else if !HeaderVerifies(p.buffer[..4 * h.hlen]) then IpParsed(h, BadChecksum, rest)
        else IpParsed(h, NoError, rest)
  }

  predicate HeaderVerifies(bytes: seq<Byte>) {
    ValueOf(Running(0, false).Add(bytes).sum) == 0
  }

  datatype DatagramParsed = DatagramParsed(datagram: Datagram, result: ParseResult)

  /** IPv4Datagram::parse on a new datagram object; the header's own result is not looked at. */
  function ParseDatagram(buffer: seq<Byte>): DatagramParsed {
    var q := ParseIpHeader(IP_BLANK, Parser(buffer, NoError));
    var d := Datagram(q.header, q.rest.buffer);
    DatagramParsed(d, if |d.payload| != d.header.PayloadLength() then PacketTooShort else q.rest.error)
  }

  function HeaderChecksum(h: Ipv4Header): U16
    requires h.Serializable()
  {
    ValueOf(Running(0, false).Add(IpBytes(h.(cksum := 0))).sum)
  }

  /** The datagram with its header checksum set as serialize sets it. */
  function Sealed(d: Datagram): Datagram
    requires d.header.Serializable()
  {
    d.(header := d.header.(cksum := HeaderChecksum(d.header)))
  }

  function Arrived(d: Datagram): Datagram {
    d.(header := d.header.Carried())
  }

  function DatagramBytes(d: Datagram): seq<Byte>
    requires d.header.Serializable()
  {
    IpBytes(Sealed(d).header) + d.payload
  }

  // Concatenation regrouped to the right, the way a parser meets the fields.
  lemma IpFrontNested(h: Ipv4Header, tail: seq<Byte>)
    ensures IpFront(h) + tail ==
            Encode(h.ver * 16 + h.hlen % 16, 1) + (Encode(h.tos, 1) + (Encode(h.len, 2) + (Encode(h.id, 2)
            + (Encode(h.FragmentWord(), 2) + (Encode(h.ttl, 1) + (Encode(h.proto, 1) + tail))))))
  {
    hide Encode, Ipv4Header.FragmentWord;
    var a, b, c, d := Encode(h.ver * 16 + h.hlen % 16, 1), Encode(h.tos, 1), Encode(h.len, 2), Encode(h.id, 2);
    var e, f, g := Encode(h.FragmentWord(), 2), Encode(h.ttl, 1), Encode(h.proto, 1);
    Assoc(a + b + c + d + e + f, g, tail);
    Assoc(a + b + c + d + e, f, g + tail);
    Assoc(a + b + c + d, e, f + (g + tail));
    Assoc(a + b + c, d, e + (f + (g + tail)));
    Assoc(a + b, c, d + (e + (f + (g + tail))));
    Assoc(a, b, c + (d + (e + (f + (g + tail)))));
  }

  lemma IpBytesNested(h: Ipv4Header, tail: seq<Byte>)
    requires h.Serializable()
    ensures IpBytes(h) + tail ==
            IpFront(h) + (Encode(h.cksum, 2) + (Encode(h.src, 4) + (Encode(h.dst, 4)
            + (Zeros(4 * h.hlen - IP_LENGTH) + tail))))
  {
    hide Encode, IpFront;
    var f, k, s, d := IpFront(h), Encode(h.cksum, 2), Encode(h.src, 4), Encode(h.dst, 4);
    var z := Zeros(4 * h.hlen - IP_LENGTH);
    Assoc(f + k, s + d + z, tail);
    Assoc(s + d, z, tail);
    Assoc(s, d, z + tail);
    Assoc(f, k, s + (d + (z + tail)));
  }

  lemma FragmentRead(h: Ipv4Header)
    ensures var w := h.FragmentWord();
            (w / 0x4000 % 2 == 1) == h.df && (w / 0x2000 % 2 == 1) == h.mf && w % 0x2000 == h.offset % 0x2000
  {
    var low := h.offset % 0x2000;
    FlagAt(h.FragmentWord(), 0x4000, 0, h.df, 0x2000 * Bit(h.mf) + low);
    FlagAt(h.FragmentWord(), 0x2000, Bit(h.df), h.mf, low);
  }

  // The version and the header length share a byte.
  lemma FirstByteRead(h: Ipv4Header)
    requires h.Representable()
    ensures var first := h.ver * 16 + h.hlen % 16;
            first < Pow256(1) && first / 16 == h.ver && first % 16 == h.hlen
  {
  }

  /** A parser reads back the fields of every representable header. */
  lemma IpFieldsReadBack(h: Ipv4Header, tail: seq<Byte>)
    requires h.Representable()
    ensures ReadIpFields(Parser(IpBytes(h) + tail, NoError))
            == IpFields(h.Carried(), Parser(Zeros(4 * h.hlen - IP_LENGTH) + tail, NoError))
  {
    hide Encode, Ipv4Header.FragmentWord, IpFront, IpBytes, Parser.Number, Parser.Skip, Zeros, BigEndian;
    var t10 := Zeros(4 * h.hlen - IP_LENGTH) + tail;
    var t9 := Encode(h.dst, 4) + t10;
    var t8 := Encode(h.src, 4) + t9;
    var t7 := Encode(h.cksum, 2) + t8;
    var t6 := Encode(h.proto, 1) + t7;
    var t5 := Encode(h.ttl, 1) + t6;
    var t4 := Encode(h.FragmentWord(), 2) + t5;
    var t3 := Encode(h.id, 2) + t4;
    var t2 := Encode(h.len, 2) + t3;
    var t1 := Encode(h.tos, 1) + t2;
    IpBytesNested(h, tail);
    IpFrontNested(h, t7);
    FirstByteRead(h);
    ReadsEncoded(h.ver * 16 + h.hlen % 16, 1, t1);
    ReadsEncoded(h.tos, 1, t2);
    ReadsEncoded(h.len, 2, t3);
    ReadsEncoded(h.id, 2, t4);
    ReadsEncoded(h.FragmentWord(), 2, t5);
    ReadsEncoded(h.ttl, 1, t6);
    ReadsEncoded(h.proto, 1, t7);
    ReadsEncoded(h.cksum, 2, t8);
    ReadsEncoded(h.src, 4, t9);
    ReadsEncoded(h.dst, 4, t10);
    FragmentRead(h);
  }

  lemma SealedVerifies(d: Datagram)
    requires d.header.Serializable()
    ensures HeaderVerifies(IpBytes(Sealed(d).header))
  {
    hide IpFront, IpBack, ValueOf, WordSum;
    var h := d.header;
    var c := Running(0, false);
    NoOverflow(c, IpBytes(h.(cksum := 0)));
    NoOverflow(c, IpBytes(Sealed(d).header));
    IpSplit(h, 0);
    IpSplit(h, HeaderChecksum(h));
    FilledFieldVerifies(0, IpFront(h), IpBack(h));
  }

  // The checksum field of a header stands at an even offset.
  lemma IpSplit(h: Ipv4Header, k: U16)
    requires h.Serializable()
    ensures IpBytes(h.(cksum := k)) == IpFront(h) + Word(k) + IpBack(h)
  {
    WordEncoded(k);
    assert IpFront(h.(cksum := k)) == IpFront(h) && IpBack(h.(cksum := k)) == IpBack(h);
  }

  /** Parsing a serialized datagram returns it, checksum filled in, with no error from the header either. */
  lemma DatagramRoundTrip(d: Datagram)
    requires d.header.Representable() && d.header.len == 4 * d.header.hlen + |d.payload|
    ensures ParseDatagram(DatagramBytes(d)) == DatagramParsed(Arrived(Sealed(d)), NoError)
    ensures ParseIpHeader(IP_BLANK, Parser(DatagramBytes(d), NoError)).result == NoError
  {
    hide ReadIpFields, IpBytes, HeaderVerifies, HeaderChecksum;
    var h := Sealed(d).header;
    IpFieldsReadBack(h, d.payload);
    var z := Zeros(4 * h.hlen - IP_LENGTH);
    assert (z + d.payload)[|z|..] == d.payload;
    assert DatagramBytes(d)[..4 * h.hlen] == IpBytes(h);
    SealedVerifies(d);
  }

  /**
   Without options the round trip needs only what serialize checks, even when the
   whole datagram is longer than its 16-bit length field can say.
   */
  lemma PlainRoundTrip(d: Datagram)
    requires d.header.Serializable() && d.header.hlen == 5 && |d.payload| == d.header.PayloadLength()
    ensures ParseDatagram(DatagramBytes(d)) == DatagramParsed(Arrived(Sealed(d)), NoError)
    ensures ParseIpHeader(IP_BLANK, Parser(DatagramBytes(d), NoError)).result
            == if d.header.len == IP_LENGTH + |d.payload| then NoError else TruncatedPacket
  {
    hide ReadIpFields, IpBytes, HeaderVerifies, HeaderChecksum;
    var h := Sealed(d).header;
    IpFieldsReadBack(h, d.payload);
    assert Zeros(0) + d.payload == d.payload;
    assert DatagramBytes(d)[..4 * h.hlen] == IpBytes(h);
    SealedVerifies(d);
  }

  /** The checks that IPv4Header::parse makes before the checksum. */
  predicate WellFormed(b: seq<Byte>) {
    |b| >= IP_LENGTH &&
    var h := ReadIpFields(Parser(b, NoError)).header;
    h.ver == 4 && h.hlen >= 5 && 4 * h.hlen <= |b| && |b| == h.len
  }

  // The fields occupy twenty bytes.
  lemma IpFieldsConsume(b: seq<Byte>)
    requires |b| >= IP_LENGTH
    ensures ReadIpFields(Parser(b, NoError)).rest == Parser(b[IP_LENGTH..], NoError)
  {
    hide BigEndian;
    var p := Parser(b, NoError);
    SkipTwice(p, 1, 1);
    SkipTwice(p, 2, 2);
    SkipTwice(p, 4, 2);
    SkipTwice(p, 6, 2);
    SkipTwice(p, 8, 1);
    SkipTwice(p, 9, 1);
    SkipTwice(p, 10, 2);
    SkipTwice(p, 12, 4);
    SkipTwice(p, 16, 4);
  }

  /** Each field is read from its place, the short ones from their bits. */
  lemma IpFieldsAt(b: seq<Byte>)
    requires |b| >= IP_LENGTH
    ensures var h, word := ReadIpFields(Parser(b, NoError)).header, BigEndian(b[6..8]);
            && h.ver == b[0] / 16 && h.hlen == b[0] % 16 && h.tos == b[1]
            && h.len == BigEndian(b[2..4]) && h.id == BigEndian(b[4..6])
            && (h.df <==> word / 0x4000 % 2 == 1) && (h.mf <==> word / 0x2000 % 2 == 1) && h.offset == word % 0x2000
            && h.ttl == b[8] && h.proto == b[9] && h.cksum == BigEndian(b[10..12])
            && h.src == BigEndian(b[12..16]) && h.dst == BigEndian(b[16..20])
  {
    hide BigEndian, Parser.Number, Parser.Skip;
    var p := Parser(b, NoError);
    assert p == p.Skip(0) by { SkipNothing(p); }
    SkipTwice(p, 1, 1);
    SkipTwice(p, 2, 2);
    SkipTwice(p, 4, 2);
    SkipTwice(p, 6, 2);
    SkipTwice(p, 8, 1);
    SkipTwice(p, 9, 1);
    SkipTwice(p, 10, 2);
    SkipTwice(p, 12, 4);
    ReadByte(b, 0);
    ReadByte(b, 1);
    ReadAt(b, 2, 2);
    ReadAt(b, 4, 2);
    ReadAt(b, 6, 2);
    ReadByte(b, 8);
    ReadByte(b, 9);
    ReadAt(b, 10, 2);
    ReadAt(b, 12, 4);
    ReadAt(b, 16, 4);
  }

  /** What IPv4Header::parse reports, from the bytes. */
  lemma IpResult(prior: Ipv4Header, b: seq<Byte>)
    ensures ParseIpHeader(prior, Parser(b, NoError)).result
            == if |b| < 20 || |b| < 4 * (b[0] % 16) then PacketTooShort
               else if b[0] / 16 != 4 then WrongIPVersion
               else if b[0] % 16 < 5 then HeaderTooShort
               else if |b| != BigEndian(b[2..4]) then TruncatedPacket
               else if ValueOf(Running(0, false).Add(b[..4 * (b[0] % 16)]).sum) != 0 then BadChecksum
               else NoError
  {
    hide ReadIpFields, BigEndian, ValueOf, WordSum;
    if |b| >= IP_LENGTH {
      IpFieldsAt(b);
      IpFieldsConsume(b);
    }
  }

  // A parsed header is serialized to the bytes it was read from, except for the bit that has no field.
  lemma IpPiecesKept(b: seq<Byte>)
    requires |b| >= IP_LENGTH && b[0] / 16 == 4 && b[0] % 16 >= 5
    ensures ReadIpFields(Parser(b, NoError)).header.Serializable()
    ensures var c := IpBytes(ReadIpFields(Parser(b, NoError)).header);
            && c[0] == b[0] && c[1] == b[1] && b[2..4] == c[2..4] && b[4..6] == c[4..6]
            && BigEndian(c[6..8]) == BigEndian(b[6..8]) % 0x8000
            && c[8] == b[8] && c[9] == b[9] && b[10..12] == c[10..12]
            && b[12..16] == c[12..16] && b[16..20] == c[16..20]
  {
    hide ReadIpFields, IpBytes, BigEndian;
    IpFieldsAt(b);
    var h := ReadIpFields(Parser(b, NoError)).header;
    var c := IpBytes(h);
    IpLayout(h, 0);
    SameNumber(b[2..4], c[2..4]);
    SameNumber(b[4..6], c[4..6]);
    SameNumber(b[10..12], c[10..12]);
    SameNumber(b[12..16], c[12..16]);
    SameNumber(b[16..20], c[16..20]);
    FragmentBits(h.df, h.mf, BigEndian(b[6..8]));
  }

  lemma FragmentBits(df: bool, mf: bool, word: nat)
    requires (df <==> word / 0x4000 % 2 == 1) && (mf <==> word / 0x2000 % 2 == 1)
    ensures word % 0x8000 == (if df then 0x4000 else 0) + (if mf then 0x2000 else 0) + word % 0x2000
  {
    SecondBit(word);
    ThirdBit(word);
  }

  lemma SecondBit(word: nat)
    ensures word % 0x8000 == 0x4000 * (word / 0x4000 % 2) + word % 0x4000
  {
    var q := word / 0x4000;
    assert word == 0x8000 * (q / 2) + 0x4000 * (q % 2) + word % 0x4000;
  }

  lemma ThirdBit(word: nat)
    ensures word % 0x4000 == 0x2000 * (word / 0x2000 % 2) + word % 0x2000
  {
    var q := word / 0x2000;
    assert word == 0x4000 * (q / 2) + 0x2000 * (q % 2) + word % 0x2000;
  }

  // Of sixteen bits, the first is the one that a remainder by half their range drops.
  lemma ReservedBit(b: seq<Byte>, c: seq<Byte>)
    requires |b| == |c| == 2 && BigEndian(c) == BigEndian(b) % 0x8000
    ensures b == c <==> b[0] < 0x80
  {
    assert BigEndian(b[..1]) == b[0];
    if BigEndian(b) < 0x8000 { SameNumber(b, c); }
  }

  // Bytes that agree in these pieces agree throughout exactly if they agree between and after.
  lemma SameIpBytes(b: seq<Byte>, c: seq<Byte>)
    requires IP_LENGTH <= |c| <= |b|
    requires c[0] == b[0] && c[1] == b[1] && b[2..4] == c[2..4] && b[4..6] == c[4..6]
    requires c[8] == b[8] && c[9] == b[9] && b[10..12] == c[10..12] && b[12..16] == c[12..16] && b[16..20] == c[16..20]
    ensures c == b[..|c|] <==> b[6..8] == c[6..8] && c[20..] == b[20..|c|]
  {
    var d := b[..|c|];
    assert d[20..] == b[20..|c|] && d[6..8] == b[6..8];
    if b[6..8] == c[6..8] && c[20..] == d[20..] {
      assert d == [b[0], b[1]] + b[2..4] + b[4..6] + b[6..8] + [b[8], b[9]] + b[10..12] + b[12..16] + b[16..20]
                  + d[20..];
      assert c == [c[0], c[1]] + c[2..4] + c[4..6] + c[6..8] + [c[8], c[9]] + c[10..12] + c[12..16] + c[16..20]
                  + c[20..];
    }
  }

  // A serialized header has no options, so it ends like a parsed one exactly if that has none.
  lemma IpOptionsKept(b: seq<Byte>, h: Ipv4Header)
    requires h.Serializable() && 4 * h.hlen <= |b|
    ensures var c := IpBytes(h); c[20..] == b[20..|c|] <==> NoOptions(b, |c|)
  {
    hide IpBytes;
    var c := IpBytes(h);
    forall i | IP_LENGTH <= i < |c|
      ensures c[i] == 0
    {
      IpLayout(h, i);
    }
    if c[20..] == b[20..|c|] {
      assert forall i :: IP_LENGTH <= i < |c| ==> b[i] == b[20..|c|][i - 20] && c[i] == c[20..][i - 20];
    }
  }

  /**
   Serializing a parsed header returns its bytes if and only if the bit that has no field is
   zero and so are the options.
   */
  lemma IpReserialized(b: seq<Byte>)
    requires |b| >= IP_LENGTH && b[0] / 16 == 4 && b[0] % 16 >= 5 && 4 * (b[0] % 16) <= |b|
    ensures var h := ReadIpFields(Parser(b, NoError)).header;
            && h.Serializable() && h.hlen == b[0] % 16
            && (IpBytes(h) == b[..4 * h.hlen] <==> b[6] < 0x80 && NoOptions(b, 4 * h.hlen))
  {
    hide ReadIpFields, IpBytes, BigEndian, NoOptions;
    IpFieldsAt(b);
    IpPiecesKept(b);
    var h := ReadIpFields(Parser(b, NoError)).header;
    var c := IpBytes(h);
    ReservedBit(b[6..8], c[6..8]);
    IpOptionsKept(b, h);
    SameIpBytes(b, c);
  }

  /**
   What IPv4Datagram::parse accepts. A well-formed datagram is accepted whatever its
   checksum says; any other is accepted when the bytes after the first twenty happen
   to number what its length fields say.
   */
  lemma DatagramAcceptedIff(b: seq<Byte>)
    ensures ParseDatagram(b).result == NoError <==>
            |b| >= IP_LENGTH
            && (WellFormed(b) || |b| - IP_LENGTH == ReadIpFields(Parser(b, NoError)).header.PayloadLength())
  {
    hide ReadIpFields, HeaderVerifies;
    if |b| >= IP_LENGTH {
      IpFieldsConsume(b);
    }
  }

  /** When an error that IPv4Header::parse reports is lost. */
  lemma IpErrorLostIff(b: seq<Byte>)
    requires |b| >= IP_LENGTH
    ensures var h := ReadIpFields(Parser(b, NoError)).header;
            (ParseDatagram(b).result == NoError && ParseIpHeader(IP_BLANK, Parser(b, NoError)).result != NoError)
            <==> if WellFormed(b) then !HeaderVerifies(b[..4 * h.hlen]) else |b| - IP_LENGTH == h.PayloadLength()
  {
    hide ReadIpFields, HeaderVerifies;
    IpFieldsConsume(b);
  }

  /** Every serialized datagram is still accepted after its header checksum was replaced by anything. */
  lemma BadChecksumAccepted(d: Datagram, k: U16)
    requires d.header.Representable() && d.header.len == 4 * d.header.hlen + |d.payload|
    ensures ParseDatagram(IpBytes(d.header.(cksum := k)) + d.payload)
            == DatagramParsed(Arrived(d.(header := d.header.(cksum := k))), NoError)
  {
    hide ReadIpFields, IpBytes, HeaderVerifies, HeaderChecksum;
    var h := d.header.(cksum := k);
    IpFieldsReadBack(h, d.payload);
    var z := Zeros(4 * h.hlen - IP_LENGTH);
    assert (z + d.payload)[|z|..] == d.payload;
  }

  /** IPv4Header::serialize; the thrown errors are None. */
  method SerializeIpHeader(h: Ipv4Header) returns (ret: Option<seq<Byte>>)
    ensures ret == if h.Serializable() then Some(IpBytes(h)) else None
  {
    if h.ver != 4 || 4 * h.hlen < IP_LENGTH {
      return None;
    }
    hide Encode, Ipv4Header.FragmentWord;
    var s := UnparseInt([], h.ver * 16 + h.hlen % 16, 1);
    assert s == Encode(h.ver * 16 + h.hlen % 16, 1);
    s := UnparseInt(s, h.tos, 1);
    s := UnparseInt(s, h.len, 2);
    s := UnparseInt(s, h.id, 2);
    s := UnparseInt(s, h.FragmentWord(), 2);
    s := UnparseInt(s, h.ttl, 1);
    s := UnparseInt(s, h.proto, 1);
    s := UnparseInt(s, h.cksum, 2);
    ghost var front := s;
    s := UnparseInt(s, h.src, 4);
    s := UnparseInt(s, h.dst, 4);
    s := s + Zeros(4 * h.hlen - |s|);
    Assoc(front, Encode(h.src, 4), Encode(h.dst, 4));
    Assoc(front, Encode(h.src, 4) + Encode(h.dst, 4), Zeros(4 * h.hlen - IP_LENGTH));
    return Some(s);
  }

  /** IPv4Header::parse. */
  method ParseIp(prior: Ipv4Header, p: NetParser) returns (h: Ipv4Header, result: ParseResult)
    modifies p
    ensures IpParsed(h, result, p.Model()) == ParseIpHeader(prior, old(p.Model()))
  {
    hide Parser.Skip, Parser.Number, BigEndian, ValueOf, WordSum;
    var original := p.buffer;
    var size := |original|;
    if size < IP_LENGTH {
      return prior, PacketTooShort;
    }
    var first := p.ParseInt(1);
    var tos := p.ParseInt(1);
    var len := p.ParseInt(2);
    var id := p.ParseInt(2);
    var word := p.ParseInt(2);
    var ttl := p.ParseInt(1);
    var proto := p.ParseInt(1);
    var cksum := p.ParseInt(2);
    var src := p.ParseInt(4);
    var dst := p.ParseInt(4);
    h := Ipv4Header(first / 16, first % 16, tos, len, id,
                    word / 0x4000 % 2 == 1, word / 0x2000 % 2 == 1, word % 0x2000, ttl, proto, cksum, src, dst);
    assert IpFields(h, p.Model()) == ReadIpFields(old(p.Model()));
    hide ReadIpFields;
    if size < 4 * h.hlen {
      return h, PacketTooShort;
    }
    if h.ver != 4 {
      return h, WrongIPVersion;
    }
    if h.hlen < 5 {
      return h, HeaderTooShort;
    }
    if size != h.len {
      return h, TruncatedPacket;
    }
    p.RemovePrefix(h.hlen * 4 - IP_LENGTH);
    if p.error != NoError {
      return h, p.error;
    }
    var check := new InternetChecksum(0);
    check.Add(original[..4 * h.hlen]);
    var value := check.Value();
    if value != 0 {
      return h, BadChecksum;
    }
    return h, NoError;
  }

  /** IPv4Datagram::serialize; the thrown errors are None. */
  method SerializeDatagram(d: Datagram) returns (ret: Option<seq<Byte>>)
    ensures ret == if |d.payload| == d.header.PayloadLength() && d.header.Serializable()
                   then Some(DatagramBytes(d)) else None
  {
    if |d.payload| != d.header.PayloadLength() {
      return None;
    }
    var out := d.header.(cksum := 0);
    var blank := SerializeIpHeader(out);
    if blank.None? {
      return None;
    }
    var check := new InternetChecksum(0);
    check.Add(blank.value);
    var value := check.Value();
    out := out.(cksum := value);
    var bytes := SerializeIpHeader(out);
    return Some(bytes.value + d.payload);
  }

  /** IPv4Datagram::parse. */
  method ParseIpDatagram(buffer: seq<Byte>) returns (d: Datagram, result: ParseResult)
    ensures DatagramParsed(d, result) == ParseDatagram(buffer)
  {
    var p := new NetParser(buffer);
    var header, headerResult := ParseIp(IP_BLANK, p);
    d := Datagram(header, p.buffer);
    if |d.payload| != d.header.PayloadLength() {
      return d, PacketTooShort;
    }
    return d, p.error;
  }
}
