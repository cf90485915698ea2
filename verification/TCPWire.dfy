/** TCP segments on the wire (libsponge/tcp_helpers/tcp_header.cc, tcp_segment.cc;
    section 3.1 of RFC 793). */
module TCPWire {
  import opened Results
  import opened Words
  import opened Checksums
  import opened Parsers
  import opened TCPSegments

  function Bit(on: bool, weight: nat): nat {
    if on then weight else 0
  }

  predicate HasBit(b: nat, weight: nat)
    requires weight > 0
  {
    b / weight % 2 == 1
  }

  /** The byte of the six flags. */
  function FlagByte(h: TCPHeader): byte {
    Bit(h.urg, 0x20) + Bit(h.ack, 0x10) + Bit(h.psh, 0x08) + Bit(h.rst, 0x04) + Bit(h.syn, 0x02) + Bit(h.fin, 0x01)
  }

  lemma FlagBits(h: TCPHeader)
    ensures HasBit(FlagByte(h), 0x20) == h.urg && HasBit(FlagByte(h), 0x10) == h.ack
    ensures HasBit(FlagByte(h), 0x08) == h.psh && HasBit(FlagByte(h), 0x04) == h.rst
    ensures HasBit(FlagByte(h), 0x02) == h.syn && HasBit(FlagByte(h), 0x01) == h.fin
  {
  }

  function Zeros(n: nat): (z: seq<byte>)
    ensures |z| == n
  {
    seq(n, i => 0)
  }

  /** The header up to the checksum. */
  function Front(h: TCPHeader): seq<byte> {
    [h.sport / 0x100, h.sport % 0x100, h.dport / 0x100, h.dport % 0x100,
     h.seqno / 0x100_0000, h.seqno / 0x1_0000 % 0x100, h.seqno / 0x100 % 0x100, h.seqno % 0x100,
     h.ackno / 0x100_0000, h.ackno / 0x1_0000 % 0x100, h.ackno / 0x100 % 0x100, h.ackno % 0x100,
     h.doff as int * 0x10 % 0x100, FlagByte(h), h.win / 0x100, h.win % 0x100]
  }

  /** The header after the checksum, padded to the length it claims. */
  function Back(h: TCPHeader): seq<byte>
    requires h.doff >= 5
  {
    [h.uptr / 0x100, h.uptr % 0x100] + Zeros(4 * h.doff as int - 20)
  }

  function HeaderBytes(h: TCPHeader): (b: seq<byte>)
    requires h.doff >= 5
    ensures |b| == 4 * h.doff as int
  {
    Front(h) + [h.cksum / 0x100, h.cksum % 0x100] + Back(h)
  }

  method SerializeHeader(h: TCPHeader) returns (r: Result<seq<byte>>)
    ensures r == if h.doff < 5 then Thrown else Ok(HeaderBytes(h))
  {
    if h.doff < 5 {
      return Thrown;
    }
    var ret := SerializeFront(h);
    ret := UnparseInt(ret, h.cksum, 2);
    ret := UnparseInt(ret, h.uptr, 2);
    Encode2(h.cksum);
    Encode2(h.uptr);
    ret := ret + Zeros(4 * h.doff as int - |ret|);
    assert ret == HeaderBytes(h);
    return Ok(ret);
  }

  method SerializeFront(h: TCPHeader) returns (ret: seq<byte>)
    ensures ret == Front(h)
  {
    ret := UnparseInt([], h.sport, 2);
    ret := UnparseInt(ret, h.dport, 2);
    ret := UnparseInt(ret, h.seqno, 4);
    ret := UnparseInt(ret, h.ackno, 4);
    Encode2(h.sport);
    Encode2(h.dport);
    Encode4(h.seqno);
    Encode4(h.ackno);
    ret := UnparseInt(ret, h.doff as int * 0x10 % 0x100, 1);
    ret := UnparseInt(ret, FlagByte(h), 1);
    ret := UnparseInt(ret, h.win, 2);
    Encode1(h.doff as int * 0x10 % 0x100);
    Encode1(FlagByte(h));
    Encode2(h.win);
  }

  /** What `TCPHeader::parse` leaves: the fields, the parser, and its result. */
  datatype HeaderParse = HeaderParse(header: TCPHeader, rest: Input, result: ParseResult)

  function ParseHeader(p0: Input): HeaderParse {
    var p1 := p0.Skip(2);
    var p2 := p1.Skip(2);
    var p3 := p2.Skip(4);
    var p4 := p3.Skip(4);
    var p5 := p4.Skip(1);
    var p6 := p5.Skip(1);
    var p7 := p6.Skip(2);
    var p8 := p7.Skip(2);
    var p9 := p8.Skip(2);
    var flags := p5.U8();
    var h := TCPHeader(p0.U16(), p1.U16(), p2.U32(), p3.U32(), p4.U8() / 0x10,
                       HasBit(flags, 0x20), HasBit(flags, 0x10), HasBit(flags, 0x08),
                       HasBit(flags, 0x04), HasBit(flags, 0x02), HasBit(flags, 0x01),
                       p6.U16(), p7.U16(), p8.U16());
    if h.doff < 5 then HeaderParse(h, p9, HeaderTooShort)
    else var p10 := p9.Skip(h.doff as int * 4 - 20); HeaderParse(h, p10, p10.error)
  }

  method ParseHeaderFrom(p: NetParser) returns (h: TCPHeader, result: ParseResult)
    modifies p
    ensures HeaderParse(h, p.Value(), result) == ParseHeader(old(p.Value()))
  {
    var sport := p.U16();
    var dport := p.U16();
    var seqno := p.U32();
    var ackno := p.U32();
    var doff := p.U8();
    var flags := p.U8();
    var win := p.U16();
    var cksum := p.U16();
    var uptr := p.U16();
    h := TCPHeader(sport, dport, seqno, ackno, doff / 0x10,
                   HasBit(flags, 0x20), HasBit(flags, 0x10), HasBit(flags, 0x08),
                   HasBit(flags, 0x04), HasBit(flags, 0x02), HasBit(flags, 0x01), win, cksum, uptr);
    if h.doff < 5 {
      return h, HeaderTooShort;
    }
    p.RemovePrefix(h.doff as int * 4 - 20);
    result := p.error;
  }

  /** The header that the first twenty bytes spell. */
  function FieldsAt(b: seq<byte>): TCPHeader
    requires |b| >= 20
  {
    TCPHeader(Word(b, 0), Word(b, 2), Long(b, 4), Long(b, 8), b[12] / 0x10,
              HasBit(b[13], 0x20), HasBit(b[13], 0x10), HasBit(b[13], 0x08),
              HasBit(b[13], 0x04), HasBit(b[13], 0x02), HasBit(b[13], 0x01),
              Word(b, 14), Word(b, 16), Word(b, 18))
  }

  /** Where the payload starts: a data offset below five is not obeyed. */
  function PayloadStart(h: TCPHeader): nat {
    if h.doff < 5 then 20 else 4 * h.doff as int
  }

  lemma ParseHeaderExact(b: seq<byte>)
    ensures |b| < 20 ==> ParseHeader(Input(b, NoError)).rest.error == PacketTooShort
    ensures |b| >= 20 ==> ParseHeader(Input(b, NoError)).header == FieldsAt(b)
    ensures |b| >= 20 ==> At(ParseHeader(Input(b, NoError)).rest, b, PayloadStart(FieldsAt(b)))
  {
    var p0 := Input(b, NoError);
    assert b[0..] == b;
    var p1 := p0.Skip(2);
    var p2 := p1.Skip(2);
    var p3 := p2.Skip(4);
    var p4 := p3.Skip(4);
    var p5 := p4.Skip(1);
    var p6 := p5.Skip(1);
    var p7 := p6.Skip(2);
    var p8 := p7.Skip(2);
    var p9 := p8.Skip(2);
    U16At(p0, b, 0);
    U16At(p1, b, 2);
    U32At(p2, b, 4);
    U32At(p3, b, 8);
    U8At(p4, b, 12);
    U8At(p5, b, 13);
    U16At(p6, b, 14);
    U16At(p7, b, 16);
    U16At(p8, b, 18);
    var doff := p4.U8() / 0x10;
    if doff >= 5 {
      SkipAt(p9, b, 20, doff * 4 - 20);
    }
  }

  lemma JoinWord(x: u16)
    ensures (x / 0x100) * 0x100 + x % 0x100 == x
  {
  }

  lemma JoinLong(x: u32)
    ensures x / 0x100_0000 * 0x100_0000 + x / 0x1_0000 % 0x100 * 0x1_0000 + x / 0x100 % 0x100 * 0x100 + x % 0x100 == x
  {
    var a := x / 0x100;
    var b := a / 0x100;
    DivTwice(x);
    DivTwice(a);
    assert x == a * 0x100 + x % 0x100 && a == b * 0x100 + a % 0x100 && b == b / 0x100 * 0x100 + b % 0x100;
    DivThrice(x);
  }

  lemma DivTwice(x: nat)
    ensures x / 0x100 / 0x100 == x / 0x1_0000
  {
    var a, r := x / 0x100, x % 0x100;
    var b, s := a / 0x100, a % 0x100;
    assert x == b * 0x1_0000 + (s * 0x100 + r);
  }

  lemma DivThrice(x: nat)
    ensures x / 0x100 / 0x100 / 0x100 == x / 0x100_0000
  {
    var b, r := x / 0x1_0000, x % 0x1_0000;
    var c, s := b / 0x100, b % 0x100;
    DivTwice(x);
    assert x == c * 0x100_0000 + (s * 0x1_0000 + r);
  }

  lemma HeaderIndices(h: TCPHeader, payload: seq<byte>)
    requires h.doff >= 5
    ensures (HeaderBytes(h) + payload)[..16] == Front(h)
    ensures (HeaderBytes(h) + payload)[16..20] == [h.cksum / 0x100, h.cksum % 0x100, h.uptr / 0x100, h.uptr % 0x100]
  {
  }

  lemma FrontFields(h: TCPHeader, b: seq<byte>)
    requires |b| >= 20 && b[..16] == Front(h)
    ensures Word(b, 0) == h.sport && Word(b, 2) == h.dport && Long(b, 4) == h.seqno && Long(b, 8) == h.ackno
    ensures b[12] == h.doff as int * 0x10 % 0x100 && b[13] == FlagByte(h) && Word(b, 14) == h.win
  {
    var f := Front(h);
    assert forall i :: 0 <= i < 16 ==> b[i] == b[..16][i];
    JoinWord(h.sport);
    JoinWord(h.dport);
    JoinWord(h.win);
    JoinLong(h.seqno);
    JoinLong(h.ackno);
    assert b[0] == f[0] && b[1] == f[1] && b[2] == f[2] && b[3] == f[3] && b[12] == f[12] && b[13] == f[13];
    assert b[4] == f[4] && b[5] == f[5] && b[6] == f[6] && b[7] == f[7] && b[14] == f[14] && b[15] == f[15];
    assert b[8] == f[8] && b[9] == f[9] && b[10] == f[10] && b[11] == f[11];
  }

  lemma BackFields(h: TCPHeader, b: seq<byte>)
    requires |b| >= 20 && b[16..20] == [h.cksum / 0x100, h.cksum % 0x100, h.uptr / 0x100, h.uptr % 0x100]
    ensures Word(b, 16) == h.cksum && Word(b, 18) == h.uptr
  {
    var c := b[16..20];
    assert b[16] == c[0] && b[17] == c[1] && b[18] == c[2] && b[19] == c[3];
    JoinWord(h.cksum);
    JoinWord(h.uptr);
  }

  lemma Nibble(x: byte)
    ensures x as int * 0x10 % 0x100 / 0x10 == x % 0x10
  {
    assert x as int * 0x10 == 0x100 * (x / 0x10) + 0x10 * (x % 0x10);
    HighNibble(x / 0x10, x % 0x10);
  }

  lemma HighNibble(q: nat, r: nat)
    requires r < 0x10
    ensures (0x100 * q + 0x10 * r) % 0x100 == 0x10 * r && 0x10 * r / 0x10 == r
  {
  }

  /** Parsing a serialized header gives it back, but for the bits of a data offset above 15. */
  lemma HeaderRoundTrip(h: TCPHeader, payload: seq<byte>)
    requires h.doff >= 5
    ensures FieldsAt(HeaderBytes(h) + payload) == h.(doff := h.doff % 0x10)
  {
    var b := HeaderBytes(h) + payload;
    HeaderIndices(h, payload);
    FrontFields(h, b);
    FlagBits(h);
    BackFields(h, b);
    Nibble(h.doff);
  }

  /** The segment as it is sent, its checksum filled in. */
  function Checked(seg: TCPSegment, pseudo: u32): TCPHeader
    requires seg.header.doff >= 5
  {
    seg.header.(cksum := Complement(Sum32(pseudo, HeaderBytes(seg.header.(cksum := 0)) + seg.payload)))
  }

  function SegmentBytes(seg: TCPSegment, pseudo: u32): (b: seq<byte>)
    requires seg.header.doff >= 5
    ensures |b| == 4 * seg.header.doff as int + |seg.payload|
  {
    HeaderBytes(Checked(seg, pseudo)) + seg.payload
  }

  method SerializeSegment(seg: TCPSegment, pseudo: u32) returns (r: Result<seq<byte>>)
    ensures r == if seg.header.doff < 5 then Thrown else Ok(SegmentBytes(seg, pseudo))
  {
    var header := seg.header.(cksum := 0);
    var first := SerializeHeader(header);
    if first.Thrown? {
      return Thrown;
    }
    var cksum := SumSegment(pseudo, first.value, seg.payload);
    var second := SerializeHeader(header.(cksum := cksum));
    return Ok(second.value + seg.payload);
  }

  /** The checksum over header and payload, added one after the other. */
  method SumSegment(pseudo: u32, header: seq<byte>, payload: seq<byte>) returns (v: u16)
    requires |header| % 2 == 0
    ensures v == Complement(Sum32(pseudo, header + payload))
  {
    var check := new InternetChecksum(pseudo);
    check.Add(header);
    check.Add(payload);
    SumOfTwo(pseudo, header, payload);
    v := check.Value();
  }

  /** What `TCPSegment::parse` returns and the segment it leaves. */
  datatype SegmentParse = SegmentParse(result: ParseResult, segment: TCPSegment)

  function ParseSegment(b: seq<byte>, pseudo: u32): SegmentParse {
    if Complement(Sum32(pseudo, b)) != 0 then SegmentParse(BadChecksum, TCPSegment(DEFAULT_HEADER, []))
    else
      var p := ParseHeader(Input(b, NoError));
      SegmentParse(p.rest.error, TCPSegment(p.header, p.rest.buffer))
  }

  method ParseSegmentFrom(b: seq<byte>, pseudo: u32) returns (r: SegmentParse)
    ensures r == ParseSegment(b, pseudo)
  {
    var v := SumBuffer(pseudo, b);
    if v != 0 {
      return SegmentParse(BadChecksum, TCPSegment(DEFAULT_HEADER, []));
    }
    var p := new NetParser(b);
    var h, _ := ParseHeaderFrom(p);
    r := SegmentParse(p.error, TCPSegment(h, p.buffer));
  }

  /** The checksum over a whole buffer. */
  method SumBuffer(pseudo: u32, b: seq<byte>) returns (v: u16)
    ensures v == Complement(Sum32(pseudo, b))
  {
    var check := new InternetChecksum(pseudo);
    check.Add(b);
    v := check.Value();
  }

  /** Exactly which bytes are accepted, and as what: a data offset below five is let through. */
  lemma ParseSegmentExact(b: seq<byte>, pseudo: u32)
    ensures ParseSegment(b, pseudo).result == NoError <==>
            Complement(Sum32(pseudo, b)) == 0 && |b| >= 20 && PayloadStart(FieldsAt(b)) <= |b|
    ensures ParseSegment(b, pseudo).result == NoError ==>
            ParseSegment(b, pseudo).segment == TCPSegment(FieldsAt(b), b[PayloadStart(FieldsAt(b))..])
  {
    ParseHeaderExact(b);
  }

  lemma ChecksumInPlace(h: TCPHeader, c: u16, payload: seq<byte>)
    requires h.doff >= 5
    ensures WordSum(HeaderBytes(h.(cksum := c)) + payload, false)
            == WordSum(HeaderBytes(h.(cksum := 0)) + payload, false) + c
  {
    SplitSum(h.(cksum := c), payload);
    SplitSum(h.(cksum := 0), payload);
  }

  lemma SplitSum(h: TCPHeader, payload: seq<byte>)
    requires h.doff >= 5
    ensures WordSum(HeaderBytes(h) + payload, false)
            == WordSum(Front(h), false) + h.cksum + WordSum(Back(h) + payload, false)
  {
    var word: seq<byte> := [h.cksum / 0x100, h.cksum % 0x100];
    assert HeaderBytes(h) + payload == Front(h) + (word + (Back(h) + payload));
    ChunksAdd(Front(h), word + (Back(h) + payload), false);
    ChunksAdd(word, Back(h) + payload, false);
    assert word[1..] == [h.cksum % 0x100];
    assert WordSum(word[1..], true) == h.cksum % 0x100;
  }

  /** Parsing what was serialized gives the segment back exactly when the data offset fits
      its four bits and adding the checksum does not carry out of the 32-bit sum. */
  lemma SegmentRoundTrip(seg: TCPSegment, pseudo: u32)
    requires seg.header.doff >= 5
    ensures ParseSegment(SegmentBytes(seg, pseudo), pseudo)
            == SegmentParse(NoError, seg.(header := Checked(seg, pseudo)))
            <==> seg.header.doff < 0x10 && Roomy(seg, pseudo)
  {
    var h := Checked(seg, pseudo);
    HeaderRoundTrip(h, seg.payload);
    SumRoomy(seg, pseudo);
    ParseSegmentExact(SegmentBytes(seg, pseudo), pseudo);
    Fit(HeaderBytes(h), h, h.(doff := h.doff % 0x10), seg.payload);
  }

  lemma Fit(front: seq<byte>, h: TCPHeader, f: TCPHeader, payload: seq<byte>)
    requires h.doff >= 5 && |front| == 4 * h.doff as int && f == h.(doff := h.doff % 0x10)
    ensures h.doff < 0x10 ==> PayloadStart(f) == |front| && (front + payload)[PayloadStart(f)..] == payload
    ensures h.doff < 0x10 <==> f == h
  {
  }

  lemma SumRoomy(seg: TCPSegment, pseudo: u32)
    requires seg.header.doff >= 5
    ensures Complement(Sum32(pseudo, SegmentBytes(seg, pseudo))) == 0 <==> Roomy(seg, pseudo)
  {
    var s := pseudo + WordSum(HeaderBytes(seg.header.(cksum := 0)) + seg.payload, false);
    ChecksumInPlace(seg.header, Checked(seg, pseudo).cksum, seg.payload);
    SumAccepted(s);
  }

  predicate Roomy(seg: TCPSegment, pseudo: u32)
    requires seg.header.doff >= 5
  {
    var sum := Sum32(pseudo, HeaderBytes(seg.header.(cksum := 0)) + seg.payload);
    sum + Complement(sum) < 0x1_0000_0000
  }

  lemma SumAccepted(s: nat)
    ensures var sum := s % 0x1_0000_0000;
            Complement((s + Complement(sum)) % 0x1_0000_0000) == 0 <==> sum + Complement(sum) < 0x1_0000_0000
  {
    var sum: u32 := s % 0x1_0000_0000;
    AddMod(s, Complement(sum));
  }

  /** Every error in a single byte of an accepted segment is caught. */
  lemma SingleByteErrorCaught(b: seq<byte>, pseudo: u32, i: nat, v: byte)
    requires pseudo < 0x10_0000 && |b| < 0x1_0000
    requires ParseSegment(b, pseudo).result == NoError
    requires i < |b| && v != b[i]
    ensures ParseSegment(b[i := v], pseudo).result == BadChecksum
  {
    ByteErrorShows(pseudo, b, i, v);
  }
}
