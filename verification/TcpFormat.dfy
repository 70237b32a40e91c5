/** TCP headers and segments as bytes (libsponge/tcp_helpers/tcp_header.cc and tcp_segment.cc). */
module TcpFormats {
  import opened Types
  import opened Segments
  import opened Parsing
  import opened Checksums

  const TCP_LENGTH: nat := 20

  /** The byte of flags. */
  function FlagByte(h: TcpHeader): Byte {
    32 * Bit(h.urg) + 16 * Bit(h.ack) + 8 * Bit(h.psh) + 4 * Bit(h.rst) + 2 * Bit(h.syn) + Bit(h.fin)
  }

  function Zeros(n: nat): (z: seq<Byte>)
    ensures |z| == n
  {
    seq(n, _ => 0)
  }

  /** The part of a header before its checksum. */
  function TcpFront(h: TcpHeader): (b: seq<Byte>)
    ensures |b| == 16
  {
    Encode(h.sport, 2) + Encode(h.dport, 2) + Encode(h.seqno, 4) + Encode(h.ackno, 4)
    + Encode(h.doff * 16, 1) + Encode(FlagByte(h), 1) + Encode(h.win, 2)
  }

  /** The part after it: the urgent pointer and the padding up to the advertised length. */
  function TcpBack(h: TcpHeader): (b: seq<Byte>)
    requires h.doff >= 5
    ensures |b| == 4 * h.doff - 18
  {
    Encode(h.uptr, 2) + Zeros(4 * h.doff - TCP_LENGTH)
  }

  function TcpBytes(h: TcpHeader): (b: seq<Byte>)
    requires h.doff >= 5
    ensures |b| == 4 * h.doff
  {
    TcpFront(h) + Encode(h.cksum, 2) + TcpBack(h)
  }

  /**
   The header of section 3.1 of RFC 793: every field in its place, the flags in theirs,
   and zeros up to the advertised length.
   */
  lemma TcpLayout(h: TcpHeader, i: nat)
    requires h.doff >= 5
    ensures var b := TcpBytes(h);
            && BigEndian(b[0..2]) == h.sport && BigEndian(b[2..4]) == h.dport
            && BigEndian(b[4..8]) == h.seqno && BigEndian(b[8..12]) == h.ackno
            && b[12] == h.doff * 16 % 0x100
            && b[13] == (if h.urg then 0x20 else 0) + (if h.ack then 0x10 else 0) + (if h.psh then 8 else 0)
                        + (if h.rst then 4 else 0) + (if h.syn then 2 else 0) + (if h.fin then 1 else 0)
            && BigEndian(b[14..16]) == h.win && BigEndian(b[16..18]) == h.cksum && BigEndian(b[18..20]) == h.uptr
            && (TCP_LENGTH <= i < |b| ==> b[i] == 0)
  {
    hide BigEndian, Encode, TcpBytes, FlagByte;
    DecodeEncode(h.sport, 2);
    DecodeEncode(h.dport, 2);
    DecodeEncode(h.seqno, 4);
    DecodeEncode(h.ackno, 4);
    DecodeEncode(h.win, 2);
    DecodeEncode(h.cksum, 2);
    DecodeEncode(h.uptr, 2);
    EncodeByte(h.doff * 16);
    EncodeByte(FlagByte(h));
    FlagWeights(h);
    TcpPlaces(h);
    var b := TcpBytes(h);
    if TCP_LENGTH <= i < |b| { assert b[i] == b[20..][i - 20]; }
  }

  lemma FlagWeights(h: TcpHeader)
    ensures FlagByte(h) == (if h.urg then 0x20 else 0) + (if h.ack then 0x10 else 0) + (if h.psh then 8 else 0)
                           + (if h.rst then 4 else 0) + (if h.syn then 2 else 0) + (if h.fin then 1 else 0)
  {
  }

  lemma TcpPlaces(h: TcpHeader)
    requires h.doff >= 5
    ensures var b := TcpBytes(h);
            && b[0..2] == Encode(h.sport, 2) && b[2..4] == Encode(h.dport, 2)
            && b[4..8] == Encode(h.seqno, 4) && b[8..12] == Encode(h.ackno, 4)
            && b[12..13] == Encode(h.doff * 16, 1) && b[13..14] == Encode(FlagByte(h), 1)
            && b[14..16] == Encode(h.win, 2) && b[16..18] == Encode(h.cksum, 2) && b[18..20] == Encode(h.uptr, 2)
            && b[20..] == Zeros(4 * h.doff - TCP_LENGTH)
            && b[12] == b[12..13][0] && b[13] == b[13..14][0]
  {
    hide Encode, FlagByte, Zeros;
    var z := Zeros(4 * h.doff - TCP_LENGTH);
    BytesNested(h, []);
    assert TcpBytes(h) + [] == TcpBytes(h) && z + [] == z;
    FrontNested(h, Encode(h.cksum, 2) + (Encode(h.uptr, 2) + z));
  }

  /** The fields read from a parser, and the parser after them. */
  datatype TcpFields = TcpFields(header: TcpHeader, rest: Parser)

  /** What parsing a header leaves behind. */
  datatype TcpParsed = TcpParsed(header: TcpHeader, result: ParseResult, rest: Parser)

  function ReadTcpFields(p: Parser): TcpFields {
    var p1 := p.Skip(2);
    var p2 := p1.Skip(2);
    var p3 := p2.Skip(4);
    var p4 := p3.Skip(4);
    var p5 := p4.Skip(1);
    var p6 := p5.Skip(1);
    var p7 := p6.Skip(2);
    var p8 := p7.Skip(2);
    var flags := p5.Number(1);
    TcpFields(
      TcpHeader(p.Number(2), p1.Number(2), p2.Number(4), p3.Number(4), p4.Number(1) / 16,
                flags / 32 % 2 == 1, flags / 16 % 2 == 1, flags / 8 % 2 == 1,
                flags / 4 % 2 == 1, flags / 2 % 2 == 1, flags / 1 % 2 == 1,
                p6.Number(2), p7.Number(2), p8.Number(2)),
      p8.Skip(2))
  }

  function ParseTcpHeader(p: Parser): TcpParsed {
    var f := ReadTcpFields(p);
    if f.header.doff < 5 then TcpParsed(f.header, HeaderTooShort, f.rest)
    else
      var rest := f.rest.Skip(f.header.doff * 4 - TCP_LENGTH);
      TcpParsed(f.header, rest.error, rest)
  }

  lemma Assoc(a: seq<Byte>, b: seq<Byte>, c: seq<Byte>)
    ensures a + b + c == a + (b + c)
  {
  }

  // Concatenation regrouped to the right, the way a parser meets the fields.
  lemma FrontNested(h: TcpHeader, tail: seq<Byte>)
    ensures TcpFront(h) + tail ==
            Encode(h.sport, 2) + (Encode(h.dport, 2) + (Encode(h.seqno, 4) + (Encode(h.ackno, 4)
            + (Encode(h.doff * 16, 1) + (Encode(FlagByte(h), 1) + (Encode(h.win, 2) + tail))))))
  {
    hide Encode, FlagByte;
    var a, b, c, d := Encode(h.sport, 2), Encode(h.dport, 2), Encode(h.seqno, 4), Encode(h.ackno, 4);
    var e, f, g := Encode(h.doff * 16, 1), Encode(FlagByte(h), 1), Encode(h.win, 2);
    Assoc(a + b + c + d + e + f, g, tail);
    Assoc(a + b + c + d + e, f, g + tail);
    Assoc(a + b + c + d, e, f + (g + tail));
    Assoc(a + b + c, d, e + (f + (g + tail)));
    Assoc(a + b, c, d + (e + (f + (g + tail))));
    Assoc(a, b, c + (d + (e + (f + (g + tail)))));
  }

  lemma BytesNested(h: TcpHeader, tail: seq<Byte>)
    requires h.doff >= 5
    ensures TcpBytes(h) + tail ==
            TcpFront(h) + (Encode(h.cksum, 2) + (Encode(h.uptr, 2) + (Zeros(4 * h.doff - TCP_LENGTH) + tail)))
  {
    hide Encode, FlagByte, TcpFront;
    var f, k, u, z := TcpFront(h), Encode(h.cksum, 2), Encode(h.uptr, 2), Zeros(4 * h.doff - TCP_LENGTH);
    Assoc(f + k, u + z, tail);
    Assoc(u, z, tail);
    Assoc(f, k, u + (z + tail));
  }

  lemma FlagsRead(h: TcpHeader)
    ensures var b := FlagByte(h);
            && (b / 32 % 2 == 1) == h.urg && (b / 16 % 2 == 1) == h.ack && (b / 8 % 2 == 1) == h.psh
            && (b / 4 % 2 == 1) == h.rst && (b / 2 % 2 == 1) == h.syn && (b / 1 % 2 == 1) == h.fin
  {
    var b, u, a, p := FlagByte(h), Bit(h.urg), Bit(h.ack), Bit(h.psh);
    var r, s, f := Bit(h.rst), Bit(h.syn), Bit(h.fin);
    FlagAt(b, 32, 0, h.urg, 16 * a + 8 * p + 4 * r + 2 * s + f);
    FlagAt(b, 16, u, h.ack, 8 * p + 4 * r + 2 * s + f);
    FlagAt(b, 8, 2 * u + a, h.psh, 4 * r + 2 * s + f);
    FlagAt(b, 4, 4 * u + 2 * a + p, h.rst, 2 * s + f);
    FlagAt(b, 2, 8 * u + 4 * a + 2 * p + r, h.syn, f);
    FlagAt(b, 1, 16 * u + 8 * a + 4 * p + 2 * r + s, h.fin, 0);
  }

  // The bit of weight m in a number whose higher and lower parts are given.
  lemma FlagAt(v: nat, m: nat, high: nat, bit: bool, low: nat)
    requires low < m && v == m * (2 * high + Bit(bit)) + low
    ensures (v / m % 2 == 1) == bit
  {
    DivUnique(v, m, 2 * high + Bit(bit), low);
  }

  // A data offset of four bits survives its place in the high half of a byte.
  lemma OffsetRead(doff: Byte)
    requires doff <= 15
    ensures doff * 16 < Pow256(1) && doff * 16 / 16 == doff
  {
  }

  /** A parser reads back the fields of every header whose data offset fits its four bits. */
  lemma FieldsReadBack(h: TcpHeader, tail: seq<Byte>)
    requires 5 <= h.doff <= 15
    ensures ReadTcpFields(Parser(TcpBytes(h) + tail, NoError))
            == TcpFields(h, Parser(Zeros(4 * h.doff - TCP_LENGTH) + tail, NoError))
  {
    hide Encode, FlagByte, TcpFront, TcpBytes, Parser.Number, Parser.Skip, Zeros, BigEndian;
    var t9 := Zeros(4 * h.doff - TCP_LENGTH) + tail;
    var t8 := Encode(h.uptr, 2) + t9;
    var t7 := Encode(h.cksum, 2) + t8;
    var t6 := Encode(h.win, 2) + t7;
    var t5 := Encode(FlagByte(h), 1) + t6;
    var t4 := Encode(h.doff * 16, 1) + t5;
    var t3 := Encode(h.ackno, 4) + t4;
    var t2 := Encode(h.seqno, 4) + t3;
    var t1 := Encode(h.dport, 2) + t2;
    BytesNested(h, tail);
    FrontNested(h, t7);
    ReadsEncoded(h.sport, 2, t1);
    ReadsEncoded(h.dport, 2, t2);
    ReadsEncoded(h.seqno, 4, t3);
    ReadsEncoded(h.ackno, 4, t4);
    OffsetRead(h.doff);
    ReadsEncoded(h.doff * 16, 1, t5);
    ReadsEncoded(FlagByte(h), 1, t6);
    ReadsEncoded(h.win, 2, t7);
    ReadsEncoded(h.cksum, 2, t8);
    ReadsEncoded(h.uptr, 2, t9);
    FlagsRead(h);
  }

  /** Parsing a serialized header returns the header and leaves exactly what followed it. */
  lemma HeaderRoundTrip(h: TcpHeader, tail: seq<Byte>)
    requires 5 <= h.doff <= 15
    ensures ParseTcpHeader(Parser(TcpBytes(h) + tail, NoError)) == TcpParsed(h, NoError, Parser(tail, NoError))
  {
    hide ReadTcpFields, TcpBytes;
    FieldsReadBack(h, tail);
    var z := Zeros(4 * h.doff - TCP_LENGTH);
    assert (z + tail)[|z|..] == tail;
  }

  // The fields occupy twenty bytes; the data offset is in the thirteenth.
  lemma FieldsConsume(b: seq<Byte>)
    ensures var f := ReadTcpFields(Parser(b, NoError));
            if |b| < TCP_LENGTH then f.rest.error == PacketTooShort
            else f.rest == Parser(b[TCP_LENGTH..], NoError) && f.header.doff == b[12] / 16
  {
    hide BigEndian;
    var p := Parser(b, NoError);
    SkipTwice(p, 2, 2);
    SkipMore(p, 4, 4);
    SkipMore(p, 8, 4);
    SkipMore(p, 12, 1);
    SkipMore(p, 13, 1);
    SkipMore(p, 14, 2);
    SkipMore(p, 16, 2);
    SkipMore(p, 18, 2);
    if |b| >= TCP_LENGTH {
      ReadByte(b, 12);
    }
  }

  /** Each field is read from its place, the data offset and the flags from their bits. */
  lemma TcpFieldsAt(b: seq<Byte>)
    requires |b| >= TCP_LENGTH
    ensures var h := ReadTcpFields(Parser(b, NoError)).header;
            && h.sport == BigEndian(b[0..2]) && h.dport == BigEndian(b[2..4])
            && h.seqno == BigEndian(b[4..8]) && h.ackno == BigEndian(b[8..12]) && h.doff == b[12] / 16
            && (h.urg <==> b[13] / 32 % 2 == 1) && (h.ack <==> b[13] / 16 % 2 == 1) && (h.psh <==> b[13] / 8 % 2 == 1)
            && (h.rst <==> b[13] / 4 % 2 == 1) && (h.syn <==> b[13] / 2 % 2 == 1) && (h.fin <==> b[13] % 2 == 1)
            && h.win == BigEndian(b[14..16]) && h.cksum == BigEndian(b[16..18]) && h.uptr == BigEndian(b[18..20])
  {
    hide BigEndian, Parser.Number, Parser.Skip;
    var p := Parser(b, NoError);
    assert p == p.Skip(0) by { SkipNothing(p); }
    SkipTwice(p, 2, 2);
    SkipTwice(p, 4, 4);
    SkipTwice(p, 8, 4);
    SkipTwice(p, 12, 1);
    SkipTwice(p, 13, 1);
    SkipTwice(p, 14, 2);
    SkipTwice(p, 16, 2);
    ReadAt(b, 0, 2);
    ReadAt(b, 2, 2);
    ReadAt(b, 4, 4);
    ReadAt(b, 8, 4);
    ReadByte(b, 12);
    ReadByte(b, 13);
    ReadAt(b, 14, 2);
    ReadAt(b, 16, 2);
    ReadAt(b, 18, 2);
  }

  lemma SkipNothing(p: Parser)
    ensures p.error == NoError ==> p.Skip(0) == p
  {
  }

  // A parsed header is serialized to the bytes it was read from, except for the bits that have no field.
  lemma TcpPiecesKept(b: seq<Byte>)
    requires |b| >= TCP_LENGTH && b[12] / 16 >= 5
    ensures ReadTcpFields(Parser(b, NoError)).header.doff >= 5
    ensures var c := TcpBytes(ReadTcpFields(Parser(b, NoError)).header);
            && b[0..2] == c[0..2] && b[2..4] == c[2..4] && b[4..8] == c[4..8] && b[8..12] == c[8..12]
            && b[14..16] == c[14..16] && b[16..18] == c[16..18] && b[18..20] == c[18..20]
  {
    hide ReadTcpFields, TcpBytes, BigEndian;
    TcpFieldsAt(b);
    var h := ReadTcpFields(Parser(b, NoError)).header;
    var c := TcpBytes(h);
    TcpLayout(h, 0);
    SameNumber(b[0..2], c[0..2]);
    SameNumber(b[2..4], c[2..4]);
    SameNumber(b[4..8], c[4..8]);
    SameNumber(b[8..12], c[8..12]);
    SameNumber(b[14..16], c[14..16]);
    SameNumber(b[16..18], c[16..18]);
    SameNumber(b[18..20], c[18..20]);
  }

  lemma TcpBitsKept(b: seq<Byte>)
    requires |b| >= TCP_LENGTH && b[12] / 16 >= 5
    ensures ReadTcpFields(Parser(b, NoError)).header.doff >= 5
    ensures var c := TcpBytes(ReadTcpFields(Parser(b, NoError)).header);
            c[12] == b[12] - b[12] % 16 && c[13] == b[13] % 64
  {
    hide ReadTcpFields, TcpBytes, BigEndian;
    TcpFieldsAt(b);
    TcpLayout(ReadTcpFields(Parser(b, NoError)).header, 0);
    FlagsMatch(ReadTcpFields(Parser(b, NoError)).header, b[13]);
  }

  lemma FlagsMatch(h: TcpHeader, v: Byte)
    requires (h.urg <==> v / 32 % 2 == 1) && (h.ack <==> v / 16 % 2 == 1) && (h.psh <==> v / 8 % 2 == 1)
    requires (h.rst <==> v / 4 % 2 == 1) && (h.syn <==> v / 2 % 2 == 1) && (h.fin <==> v % 2 == 1)
    ensures v % 64 == (if h.urg then 0x20 else 0) + (if h.ack then 0x10 else 0) + (if h.psh then 8 else 0)
                      + (if h.rst then 4 else 0) + (if h.syn then 2 else 0) + (if h.fin then 1 else 0)
  {
    HighBits(v);
    LowBits(v);
  }

  lemma HighBits(v: Byte)
    ensures v % 64 == 32 * (v / 32 % 2) + 16 * (v / 16 % 2) + 8 * (v / 8 % 2) + v % 8
  {
    assert v % 64 == 32 * (v / 32 % 2) + v % 32;
    assert v % 32 == 16 * (v / 16 % 2) + v % 16;
  }

  lemma LowBits(v: Byte)
    ensures v % 8 == 4 * (v / 4 % 2) + 2 * (v / 2 % 2) + v % 2
  {
    assert v % 8 == 4 * (v / 4 % 2) + v % 4;
  }

  // Bytes that agree in these pieces agree throughout exactly if they agree at the two between and after.
  lemma SameAt(b: seq<Byte>, c: seq<Byte>)
    requires TCP_LENGTH <= |c| <= |b|
    requires b[0..2] == c[0..2] && b[2..4] == c[2..4] && b[4..8] == c[4..8] && b[8..12] == c[8..12]
    requires b[14..16] == c[14..16] && b[16..18] == c[16..18] && b[18..20] == c[18..20]
    ensures c == b[..|c|] <==> c[12] == b[12] && c[13] == b[13] && c[20..] == b[20..|c|]
  {
    var d := b[..|c|];
    assert d[20..] == b[20..|c|];
    if c[12] == b[12] && c[13] == b[13] && c[20..] == d[20..] {
      assert d == b[0..2] + b[2..4] + b[4..8] + b[8..12] + [b[12], b[13]] + b[14..16] + b[16..18] + b[18..20] + d[20..];
      assert c == c[0..2] + c[2..4] + c[4..8] + c[8..12] + [c[12], c[13]] + c[14..16] + c[16..18] + c[18..20] + c[20..];
    }
  }

  /** The bytes of a header of n bytes that follow its fields are zero. */
  predicate NoOptions(b: seq<Byte>, n: nat)
    requires n <= |b|
  {
    forall i :: 20 <= i < n ==> b[i] == 0
  }

  // A serialized header has no options, so it ends like a parsed one exactly if that has none.
  lemma OptionsKept(b: seq<Byte>, h: TcpHeader)
    requires h.doff >= 5 && 4 * h.doff <= |b|
    ensures var c := TcpBytes(h); c[20..] == b[20..|c|] <==> NoOptions(b, |c|)
  {
    hide TcpBytes;
    var c := TcpBytes(h);
    forall i | TCP_LENGTH <= i < |c|
      ensures c[i] == 0
    {
      TcpLayout(h, i);
    }
    if c[20..] == b[20..|c|] {
      assert forall i :: TCP_LENGTH <= i < |c| ==> b[i] == b[20..|c|][i - 20] && c[i] == c[20..][i - 20];
    }
  }

  /**
   Serializing a parsed header returns its bytes if and only if the bits that have no field
   are zero and so are the options.
   */
  lemma TcpReserialized(b: seq<Byte>)
    requires |b| >= TCP_LENGTH && b[12] / 16 >= 5 && 4 * (b[12] / 16) <= |b|
    ensures var h := ParseTcpHeader(Parser(b, NoError)).header;
            && h.doff == b[12] / 16
            && (TcpBytes(h) == b[..4 * h.doff] <==> b[12] % 16 == 0 && b[13] < 64 && NoOptions(b, 4 * h.doff))
  {
    hide ReadTcpFields, TcpBytes, NoOptions;
    FieldsConsume(b);
    TcpPiecesKept(b);
    TcpBitsKept(b);
    var h := ParseTcpHeader(Parser(b, NoError)).header;
    OptionsKept(b, h);
    SameAt(b, TcpBytes(h));
  }

  // Where a buffer ends before the data offset, it reads as zero.
  lemma ShortOffset(b: seq<Byte>)
    ensures ReadTcpFields(Parser(b, NoError)).header.doff == if |b| > 12 then b[12] / 16 else 0
  {
    hide BigEndian;
    var p := Parser(b, NoError);
    SkipTwice(p, 2, 2);
    SkipMore(p, 4, 4);
    SkipMore(p, 8, 4);
    if |b| > 12 {
      ReadByte(b, 12);
    }
  }

  /** What TCPHeader::parse reports, from the bytes; a buffer that ends before the data offset has a short header. */
  lemma TcpResult(b: seq<Byte>)
    ensures ParseTcpHeader(Parser(b, NoError)).result
            == if |b| <= 12 || b[12] / 16 < 5 then HeaderTooShort
               else if |b| < 20 || |b| < 4 * (b[12] / 16) then PacketTooShort
               else NoError
  {
    hide ReadTcpFields;
    FieldsConsume(b);
    ShortOffset(b);
  }

  // One more step of a parser that has skipped a bytes, or has failed to.
  lemma SkipMore(p: Parser, a: nat, b: nat)
    requires p.error == NoError
    ensures a + b <= |p.buffer| ==> p.Skip(a).Skip(b) == p.Skip(a + b)
    ensures a + b > |p.buffer| ==> p.Skip(a).Skip(b).error == PacketTooShort
  {
    SkipTwice(p, a, b);
  }

  lemma ReadByte(b: seq<Byte>, i: nat)
    requires i < |b|
    ensures Parser(b, NoError).Skip(i).Number(1) == b[i]
  {
    assert b[i..][..1] == [b[i]];
  }

  datatype SegmentParsed = SegmentParsed(segment: Segment, result: ParseResult)

  /** Whether the checksum over the whole segment, pseudo-header included, verifies. */
  predicate Verifies(buffer: seq<Byte>, pseudo: U32) {
    ValueOf(Running(pseudo, false).Add(buffer).sum) == 0
  }

  /** TCPSegment::parse on a segment object that held `prior`; the header's own result is not looked at. */
  function ParseSegment(prior: Segment, buffer: seq<Byte>, pseudo: U32): SegmentParsed {
    if !Verifies(buffer, pseudo) then SegmentParsed(prior, BadChecksum)
    else
      var q := ParseTcpHeader(Parser(buffer, NoError));
      SegmentParsed(Segment(q.header, q.rest.buffer), q.rest.error)
  }

  /** The checksum TCPSegment::serialize fills in. */
  function SegmentChecksum(seg: Segment, pseudo: U32): U16
    requires seg.header.doff >= 5
  {
    ValueOf(Running(pseudo, false).Add(TcpBytes(seg.header.(cksum := 0))).Add(seg.payload).sum)
  }

  /** The segment with its checksum field set as serialize sets it. */
  function Filled(seg: Segment, pseudo: U32): Segment
    requires seg.header.doff >= 5
  {
    seg.(header := seg.header.(cksum := SegmentChecksum(seg, pseudo)))
  }

  function SegmentBytes(seg: Segment, pseudo: U32): (b: seq<Byte>)
    requires seg.header.doff >= 5
    ensures |b| == 4 * seg.header.doff + |seg.payload|
  {
    TcpBytes(Filled(seg, pseudo).header) + seg.payload
  }

  /** A segment the format can carry: a data offset of four bits, and a length that fits a datagram. */
  predicate Carriable(seg: Segment) {
    5 <= seg.header.doff <= 15 && 4 * seg.header.doff + |seg.payload| <= 0xffff
  }

  lemma WordEncoded(w: U16)
    ensures Encode(w, 2) == Word(w)
  {
    assert Encode(w / 0x100, 1) == [w / 0x100];
  }

  // The checksum field of a segment stands at an even offset.
  lemma SegmentSplit(h: TcpHeader, payload: seq<Byte>, k: U16)
    requires h.doff >= 5
    ensures TcpBytes(h.(cksum := k)) + payload == TcpFront(h) + Word(k) + (TcpBack(h) + payload)
  {
    WordEncoded(k);
    assert TcpFront(h.(cksum := k)) == TcpFront(h) && TcpBack(h.(cksum := k)) == TcpBack(h);
    Assoc(TcpFront(h) + Word(k), TcpBack(h), payload);
  }

  lemma SerializedVerifies(seg: Segment, pseudo: U32)
    requires seg.header.doff >= 5 && 4 * seg.header.doff + |seg.payload| <= 0xffff && pseudo < TWO31
    ensures Verifies(SegmentBytes(seg, pseudo), pseudo)
  {
    hide TcpFront, TcpBack, TcpBytes, ValueOf, WordSum;
    var h := seg.header;
    var blank := TcpBytes(h.(cksum := 0));
    var c := Running(pseudo, false);
    AddConcat(c, blank, seg.payload);
    NoOverflow(c, blank + seg.payload);
    NoOverflow(c, SegmentBytes(seg, pseudo));
    SegmentSplit(h, seg.payload, 0);
    SegmentSplit(h, seg.payload, SegmentChecksum(seg, pseudo));
    FilledFieldVerifies(pseudo, TcpFront(h), TcpBack(h) + seg.payload);
  }

  /** Parsing a serialized segment with the same pseudo-header sum returns it, checksum filled in. */
  lemma SegmentRoundTrip(prior: Segment, seg: Segment, pseudo: U32)
    requires Carriable(seg) && pseudo < TWO31
    ensures ParseSegment(prior, SegmentBytes(seg, pseudo), pseudo) == SegmentParsed(Filled(seg, pseudo), NoError)
  {
    hide Verifies, ParseTcpHeader, SegmentChecksum, TcpBytes;
    SerializedVerifies(seg, pseudo);
    HeaderRoundTrip(Filled(seg, pseudo).header, seg.payload);
  }

  // The data offset is not zero, so neither is the sum of a serialized segment.
  lemma OffsetByte(seg: Segment, pseudo: U32)
    requires Carriable(seg)
    ensures var b := SegmentBytes(seg, pseudo); |b| >= TCP_LENGTH && b[12] > 0 && b[13] < 64
    ensures WordSum(SegmentBytes(seg, pseudo), false) > 0
  {
    hide TcpBytes, WordSum, SegmentChecksum, BigEndian;
    var b := SegmentBytes(seg, pseudo);
    TcpLayout(Filled(seg, pseudo).header, 0);
    WordSumPositive(b, false, 12);
  }

  // Nor after one of its words was altered from all ones to zero.
  lemma AlteredPositive(seg: Segment, pseudo: U32, before: seq<Byte>, after: seq<Byte>)
    requires Carriable(seg) && SegmentBytes(seg, pseudo) == before + Word(0xffff) + after && !Odd(|before|)
    ensures WordSum(before + Word(0) + after, false) > 0
  {
    hide SegmentBytes, WordSum;
    OffsetByte(seg, pseudo);
    var b := SegmentBytes(seg, pseudo);
    if |before| != 12 {
      assert (before + Word(0) + after)[12] == b[12];
      WordSumPositive(before + Word(0) + after, false, 12);
    }
  }

  /**
   A serialized segment in which one aligned 16-bit word was altered is rejected if and only
   if the word did not go between the two forms of zero.
   */
  lemma AlteredSegmentRejected(prior: Segment, seg: Segment, pseudo: U32,
                               before: seq<Byte>, w: U16, w': U16, after: seq<Byte>)
    requires Carriable(seg) && pseudo < TWO31
    requires SegmentBytes(seg, pseudo) == before + Word(w) + after && !Odd(|before|) && w != w'
    ensures ParseSegment(prior, before + Word(w') + after, pseudo) == SegmentParsed(prior, BadChecksum)
            <==> {w, w'} != {0, 0xffff}
  {
    hide SegmentChecksum, SegmentBytes, TcpBytes, WordSum, ValueOf, ParseTcpHeader;
    var c := Running(pseudo, false);
    SerializedVerifies(seg, pseudo);
    NoOverflow(c, before + Word(w) + after);
    NoOverflow(c, before + Word(w') + after);
    CorruptedWordIff(pseudo, before, after, w, w');
    if w == 0xffff && w' == 0 { AlteredPositive(seg, pseudo, before, after); }
    ParseNotBadChecksum(before + Word(w') + after);
  }

  lemma ParseNotBadChecksum(b: seq<Byte>)
    ensures ParseTcpHeader(Parser(b, NoError)).rest.error != BadChecksum
  {
    hide ReadTcpFields;
    FieldsConsume(b);
  }

  /** What TCPSegment::parse accepts: exactly these buffers. */
  lemma SegmentAcceptedIff(prior: Segment, b: seq<Byte>, pseudo: U32)
    ensures ParseSegment(prior, b, pseudo).result == NoError <==>
            Verifies(b, pseudo) && |b| >= TCP_LENGTH && 4 * (b[12] / 16) <= |b|
  {
    hide Verifies, ReadTcpFields;
    FieldsConsume(b);
  }

  /** A header that claims fewer than twenty bytes is reported by the header parser and accepted all the same. */
  lemma HeaderErrorLostIff(prior: Segment, b: seq<Byte>, pseudo: U32)
    ensures ParseSegment(prior, b, pseudo).result == NoError && ParseTcpHeader(Parser(b, NoError)).result != NoError
            <==> Verifies(b, pseudo) && |b| >= TCP_LENGTH && b[12] / 16 < 5
  {
    hide Verifies, ReadTcpFields;
    FieldsConsume(b);
  }

  /** Such a segment exists: a source port of 0xffff and zeros. */
  lemma ShortHeaderAccepted(prior: Segment)
    ensures var b := [0xff, 0xff] + Zeros(18);
            && ParseSegment(prior, b, 0).result == NoError
            && ParseTcpHeader(Parser(b, NoError)).result == HeaderTooShort
  {
    hide ReadTcpFields, ValueOf;
    var b: seq<Byte> := [0xff, 0xff] + Zeros(18);
    FieldsConsume(b);
    ZerosSum(18, false);
    assert WordSum(b, false) == 0xffff by {
      WordSumConcat([0xff, 0xff], Zeros(18), false);
      assert WordSum([0xff], true) == 0xff;
    }
    ValueZeroIff(0xffff);
  }

  lemma {:induction false} ZerosSum(n: nat, odd: bool)
    ensures WordSum(Zeros(n), odd) == 0
  {
    if n == 0 {
    } else {
      assert Zeros(n)[1..] == Zeros(n - 1);
      ZerosSum(n - 1, !odd);
    }
  }

  /** TCPHeader::serialize; the thrown error is None. */
  method SerializeTcpHeader(h: TcpHeader) returns (ret: Option<seq<Byte>>)
    ensures ret == if h.doff < 5 then None else Some(TcpBytes(h))
  {
    if h.doff < 5 {
      return None;
    }
    hide Encode, FlagByte;
    var s := UnparseInt([], h.sport, 2);
    assert s == Encode(h.sport, 2);
    s := UnparseInt(s, h.dport, 2);
    s := UnparseInt(s, h.seqno, 4);
    s := UnparseInt(s, h.ackno, 4);
    s := UnparseInt(s, h.doff * 16, 1);
    s := UnparseInt(s, FlagByte(h), 1);
    s := UnparseInt(s, h.win, 2);
    s := UnparseInt(s, h.cksum, 2);
    ghost var front := s;
    s := UnparseInt(s, h.uptr, 2);
    s := s + Zeros(4 * h.doff - |s|);
    Assoc(front, Encode(h.uptr, 2), Zeros(4 * h.doff - TCP_LENGTH));
    return Some(s);
  }

  /** TCPHeader::parse. */
  method ParseTcp(p: NetParser) returns (h: TcpHeader, result: ParseResult)
    modifies p
    ensures TcpParsed(h, result, p.Model()) == ParseTcpHeader(old(p.Model()))
  {
    hide Parser.Skip, Parser.Number, BigEndian;
    var sport := p.ParseInt(2);
    var dport := p.ParseInt(2);
    var seqno := p.ParseInt(4);
    var ackno := p.ParseInt(4);
    var doff := p.ParseInt(1);
    var flags := p.ParseInt(1);
    var win := p.ParseInt(2);
    var cksum := p.ParseInt(2);
    var uptr := p.ParseInt(2);
    h := TcpHeader(sport, dport, seqno, ackno, doff / 16,
                   flags / 32 % 2 == 1, flags / 16 % 2 == 1, flags / 8 % 2 == 1,
                   flags / 4 % 2 == 1, flags / 2 % 2 == 1, flags / 1 % 2 == 1, win, cksum, uptr);
    if h.doff < 5 {
      return h, HeaderTooShort;
    }
    p.RemovePrefix(h.doff * 4 - TCP_LENGTH);
    return h, p.error;
  }

  /** TCPSegment::serialize; the error thrown for a short header is None. */
  method SerializeSegment(seg: Segment, pseudo: U32) returns (ret: Option<seq<Byte>>)
    ensures ret == if seg.header.doff < 5 then None else Some(SegmentBytes(seg, pseudo))
  {
    var out := seg.header.(cksum := 0);
    var check := new InternetChecksum(pseudo);
    var bytes := SerializeTcpHeader(out);
    if bytes.None? {
      return None;
    }
    check.Add(bytes.value);
    check.Add(seg.payload);
    var value := check.Value();
    out := out.(cksum := value);
    bytes := SerializeTcpHeader(out);
    return Some(bytes.value + seg.payload);
  }

  /** TCPSegment::parse. */
  method ParseTcpSegment(prior: Segment, buffer: seq<Byte>, pseudo: U32) returns (seg: Segment, result: ParseResult)
    ensures SegmentParsed(seg, result) == ParseSegment(prior, buffer, pseudo)
  {
    var check := new InternetChecksum(pseudo);
    check.Add(buffer);
    var value := check.Value();
    if value != 0 {
      return prior, BadChecksum;
    }
    var p := new NetParser(buffer);
    var header, headerResult := ParseTcp(p);
    return Segment(header, p.buffer), p.error;
  }
}
