/** IPv4 datagrams (libsponge/tcp_helpers/ipv4_header.cc, ipv4_datagram.cc; section 3.1 of RFC 791). */
module IPv4 {
  import opened Results
  import opened Words
  import opened Checksums
  import opened Parsers
  import TCPWire

  const LENGTH := 20
  const DEFAULT_TTL: byte := 128
  const PROTO_TCP: byte := 6

  datatype IPv4Header = IPv4Header(
    ver: byte, hlen: byte, tos: byte, len: u16, id: u16, df: bool, mf: bool, offset: u16,
    ttl: byte, proto: byte, cksum: u16, src: u32, dst: u32)
  {
    /** The 16-bit subtraction of the original. */
    function PayloadLength(): u16 {
      (len - 4 * hlen as int) % 0x1_0000
    }

    /** The sum of the pseudo-header that a TCP checksum covers. */
    function PseudoChecksum(): u32 {
      src / 0x1_0000 + src % 0x1_0000 + dst / 0x1_0000 + dst % 0x1_0000 + proto + PayloadLength()
    }
  }

  const DEFAULT_HEADER := IPv4Header(4, 5, 0, 0, 0, true, false, 0, DEFAULT_TTL, PROTO_TCP, 0, 0, 0)

  datatype IPv4Datagram = IPv4Datagram(header: IPv4Header, payload: seq<byte>)

  /** The word of the fragmentation flags and offset. */
  function FragmentWord(h: IPv4Header): u16 {
    TCPWire.Bit(h.df, 0x4000) + TCPWire.Bit(h.mf, 0x2000) + h.offset % 0x2000
  }

  lemma FragmentBits(h: IPv4Header)
    ensures TCPWire.HasBit(FragmentWord(h), 0x4000) == h.df && TCPWire.HasBit(FragmentWord(h), 0x2000) == h.mf
    ensures FragmentWord(h) % 0x2000 == h.offset % 0x2000
  {
  }

  /** The header up to the checksum. */
  function Front(h: IPv4Header): seq<byte> {
    [0x40 + h.hlen % 0x10, h.tos, h.len / 0x100, h.len % 0x100, h.id / 0x100, h.id % 0x100,
     FragmentWord(h) / 0x100, FragmentWord(h) % 0x100, h.ttl, h.proto]
  }

  /** The header after the checksum, padded to the length it claims. */
  function Back(h: IPv4Header): seq<byte>
    requires h.hlen >= 5
  {
    [h.src / 0x100_0000, h.src / 0x1_0000 % 0x100, h.src / 0x100 % 0x100, h.src % 0x100,
     h.dst / 0x100_0000, h.dst / 0x1_0000 % 0x100, h.dst / 0x100 % 0x100, h.dst % 0x100]
    + TCPWire.Zeros(4 * h.hlen as int - 20)
  }

  function HeaderBytes(h: IPv4Header): (b: seq<byte>)
    requires h.hlen >= 5
    ensures |b| == 4 * h.hlen as int
  {
    Front(h) + [h.cksum / 0x100, h.cksum % 0x100] + Back(h)
  }

  predicate Serializable(h: IPv4Header) {
    h.ver == 4 && 4 * h.hlen as int >= LENGTH
  }

  method SerializeHeader(h: IPv4Header) returns (r: Result<seq<byte>>)
    ensures r == if Serializable(h) then Ok(HeaderBytes(h)) else Thrown
  {
    if h.ver != 4 {
      return Thrown;
    }
    if 4 * h.hlen as int < LENGTH {
      return Thrown;
    }
    var ret := SerializeFront(h);
    ret := UnparseInt(ret, h.cksum, 2);
    ret := UnparseInt(ret, h.src, 4);
    ret := UnparseInt(ret, h.dst, 4);
    Encode2(h.cksum);
    Encode4(h.src);
    Encode4(h.dst);
    ret := ret + TCPWire.Zeros(4 * h.hlen as int - |ret|);
    assert ret == HeaderBytes(h);
    return Ok(ret);
  }

  method SerializeFront(h: IPv4Header) returns (ret: seq<byte>)
    requires h.ver == 4
    ensures ret == Front(h)
  {
    var firstByte: byte := h.ver * 0x10 + h.hlen % 0x10;
    ret := UnparseInt([], firstByte, 1);
    ret := UnparseInt(ret, h.tos, 1);
    ret := UnparseInt(ret, h.len, 2);
    ret := UnparseInt(ret, h.id, 2);
    Encode1(firstByte);
    Encode1(h.tos);
    Encode2(h.len);
    Encode2(h.id);
    ret := UnparseInt(ret, FragmentWord(h), 2);
    ret := UnparseInt(ret, h.ttl, 1);
    ret := UnparseInt(ret, h.proto, 1);
    Encode2(FragmentWord(h));
    Encode1(h.ttl);
    Encode1(h.proto);
  }

  /** What `IPv4Header::parse` leaves: the fields, the parser, and its result. */
  datatype HeaderParse = HeaderParse(header: IPv4Header, rest: Input, result: ParseResult)

  /** The fields are read in order, then checked in order; a short buffer is not touched. */
  function ParseHeader(p: Input): HeaderParse {
    if |p.buffer| < LENGTH then HeaderParse(DEFAULT_HEADER, p, PacketTooShort)
    else CheckFields(p.buffer, ParseFields(p))
  }

  function CheckFields(b: seq<byte>, f: Fields): HeaderParse {
    var h, p := f.header, f.rest;
    if |b| < 4 * h.hlen as int then HeaderParse(h, p, PacketTooShort)
    else if h.ver != 4 then HeaderParse(h, p, WrongIPVersion)
    else if h.hlen < 5 then HeaderParse(h, p, HeaderTooShort)
    else if |b| != h.len then HeaderParse(h, p, TruncatedPacket)
    else
      var q := p.Skip(h.hlen as int * 4 - LENGTH);
      HeaderParse(h, q, if q.error != NoError then q.error
                        else if Complement(Sum32(0, b[..4 * h.hlen as int])) != 0 then BadChecksum
                        else NoError)
  }

  datatype Fields = Fields(header: IPv4Header, rest: Input)

  function ParseFields(p0: Input): Fields {
    var p1 := p0.Skip(1);
    var p2 := p1.Skip(1);
    var p3 := p2.Skip(2);
    var p4 := p3.Skip(2);
    var p5 := p4.Skip(2);
    var p6 := p5.Skip(1);
    var p7 := p6.Skip(1);
    var p8 := p7.Skip(2);
    var p9 := p8.Skip(4);
    var first := p0.U8();
    var fo := p4.U16();
    Fields(IPv4Header(first / 0x10, first % 0x10, p1.U8(), p2.U16(), p3.U16(),
                      TCPWire.HasBit(fo, 0x4000), TCPWire.HasBit(fo, 0x2000), fo % 0x2000,
                      p5.U8(), p6.U8(), p7.U16(), p8.U32(), p9.U32()),
           p9.Skip(4))
  }

  method ParseFieldsFrom(p: NetParser) returns (h: IPv4Header)
    modifies p
    ensures Fields(h, p.Value()) == ParseFields(old(p.Value()))
  {
    var first := p.U8();
    var tos := p.U8();
    var len := p.U16();
    var id := p.U16();
    var fo := p.U16();
    var ttl := p.U8();
    var proto := p.U8();
    var cksum := p.U16();
    var src := p.U32();
    var dst := p.U32();
    h := IPv4Header(first / 0x10, first % 0x10, tos, len, id,
                    TCPWire.HasBit(fo, 0x4000), TCPWire.HasBit(fo, 0x2000), fo % 0x2000,
                    ttl, proto, cksum, src, dst);
  }

  method ParseHeaderFrom(p: NetParser) returns (h: IPv4Header, result: ParseResult)
    modifies p
    ensures HeaderParse(h, p.Value(), result) == ParseHeader(old(p.Value()))
  {
    var original := p.buffer;
    if |original| < LENGTH {
      return DEFAULT_HEADER, PacketTooShort;
    }
    h := ParseFieldsFrom(p);
    result := CheckFieldsFrom(p, original, h);
  }

  method CheckFieldsFrom(p: NetParser, original: seq<byte>, h: IPv4Header) returns (result: ParseResult)
    modifies p
    ensures HeaderParse(h, p.Value(), result) == CheckFields(original, Fields(h, old(p.Value())))
  {
    if |original| < 4 * h.hlen as int {
      return PacketTooShort;
    }
    if h.ver != 4 {
      return WrongIPVersion;
    }
    if h.hlen < 5 {
      return HeaderTooShort;
    }
    if |original| != h.len {
      return TruncatedPacket;
    }
    p.RemovePrefix(h.hlen as int * 4 - LENGTH);
    if p.error != NoError {
      return p.error;
    }
    var check := new InternetChecksum(0);
    check.Add(original[..4 * h.hlen as int]);
    var v := check.Value();
    result := if v != 0 then BadChecksum else NoError;
  }

  /** The header that the first twenty bytes spell. */
  function FieldsAt(b: seq<byte>): IPv4Header
    requires |b| >= 20
  {
    IPv4Header(b[0] / 0x10, b[0] % 0x10, b[1], Word(b, 2), Word(b, 4),
               TCPWire.HasBit(Word(b, 6), 0x4000), TCPWire.HasBit(Word(b, 6), 0x2000), Word(b, 6) % 0x2000,
               b[8], b[9], Word(b, 10), Long(b, 12), Long(b, 16))
  }

  lemma ParseFieldsExact(b: seq<byte>)
    requires |b| >= 20
    ensures ParseFields(Input(b, NoError)) == Fields(FieldsAt(b), Input(b[20..], NoError))
  {
    var p0 := Input(b, NoError);
    assert b[0..] == b;
    var p1 := p0.Skip(1);
    var p2 := p1.Skip(1);
    var p3 := p2.Skip(2);
    var p4 := p3.Skip(2);
    var p5 := p4.Skip(2);
    var p6 := p5.Skip(1);
    var p7 := p6.Skip(1);
    var p8 := p7.Skip(2);
    var p9 := p8.Skip(4);
    U8At(p0, b, 0);
    U8At(p1, b, 1);
    U16At(p2, b, 2);
    U16At(p3, b, 4);
    U16At(p4, b, 6);
    U8At(p5, b, 8);
    U8At(p6, b, 9);
    U16At(p7, b, 10);
    U32At(p8, b, 12);
    U32At(p9, b, 16);
  }

  /** The four checks that come before the checksum. */
  predicate WellFormed(b: seq<byte>)
    requires |b| >= 20
  {
    var h := FieldsAt(b);
    h.ver == 4 && h.hlen >= 5 && 4 * h.hlen as int <= |b| == h.len
  }

  /** Exactly when the header's own parser is content, and where it leaves the payload. */
  lemma ParseHeaderExact(b: seq<byte>)
    ensures ParseHeader(Input(b, NoError)).result == NoError <==>
            |b| >= 20 && WellFormed(b) && Complement(Sum32(0, b[..4 * FieldsAt(b).hlen as int])) == 0
    ensures ParseHeader(Input(b, NoError)).result == BadChecksum <==>
            |b| >= 20 && WellFormed(b) && Complement(Sum32(0, b[..4 * FieldsAt(b).hlen as int])) != 0
    ensures |b| >= 20 ==> ParseHeader(Input(b, NoError)).header == FieldsAt(b)
    ensures |b| >= 20 ==> ParseHeader(Input(b, NoError)).rest
                          == Input(b[if WellFormed(b) then 4 * FieldsAt(b).hlen as int else 20..], NoError)
  {
    if |b| >= 20 {
      ParseFieldsExact(b);
      CheckFieldsExact(b, FieldsAt(b));
    }
  }

  lemma CheckFieldsExact(b: seq<byte>, h: IPv4Header)
    requires |b| >= 20
    ensures var ok := h.ver == 4 && h.hlen >= 5 && 4 * h.hlen as int <= |b| == h.len;
            var p := CheckFields(b, Fields(h, Input(b[20..], NoError)));
            && (ok ==> p == HeaderParse(h, Input(b[4 * h.hlen as int..], NoError),
                if Complement(Sum32(0, b[..4 * h.hlen as int])) != 0 then BadChecksum else NoError))
            && (!ok ==> p.header == h && p.rest == Input(b[20..], NoError) && p.result !in {NoError, BadChecksum})
  {
    if h.hlen >= 5 && 4 * h.hlen as int <= |b| {
      assert b[20..][h.hlen as int * 4 - 20..] == b[4 * h.hlen as int..];
    }
  }

  /** What `IPv4Datagram::parse` returns and the datagram it leaves. */
  datatype DatagramParse = DatagramParse(result: ParseResult, datagram: IPv4Datagram)

  function ParseDatagram(b: seq<byte>): DatagramParse {
    TakePayload(ParseHeader(Input(b, NoError)))
  }

  function TakePayload(p: HeaderParse): DatagramParse {
    DatagramParse(if |p.rest.buffer| != p.header.PayloadLength() then PacketTooShort else p.rest.error,
                  IPv4Datagram(p.header, p.rest.buffer))
  }

  method ParseDatagramFrom(b: seq<byte>) returns (r: DatagramParse)
    ensures r == ParseDatagram(b)
  {
    var p := new NetParser(b);
    var h, _ := ParseHeaderFrom(p);
    var d := IPv4Datagram(h, p.buffer);
    if |d.payload| != h.PayloadLength() {
      return DatagramParse(PacketTooShort, d);
    }
    r := DatagramParse(p.error, d);
  }

  /** Exactly which bytes are accepted as a datagram, and as which. The header's result is
      dropped: the checksum never matters, and a malformed header passes when its length
      happens to fit. */
  lemma ParseDatagramExact(b: seq<byte>)
    ensures ParseDatagram(b).result == NoError <==>
            |b| >= 20 && (WellFormed(b) || |b| - 20 == FieldsAt(b).PayloadLength())
    ensures ParseDatagram(b).result == NoError ==>
            ParseDatagram(b).datagram
            == IPv4Datagram(FieldsAt(b), b[if WellFormed(b) then 4 * FieldsAt(b).hlen as int else 20..])
  {
    ParseHeaderExact(b);
    TakePayloadExact(b, ParseHeader(Input(b, NoError)));
  }

  lemma TakePayloadExact(b: seq<byte>, p: HeaderParse)
    requires |b| < 20 ==> p.header == DEFAULT_HEADER && p.rest.buffer == b
    requires |b| >= 20 ==> p.header == FieldsAt(b)
    requires |b| >= 20 ==> p.rest == Input(b[if WellFormed(b) then 4 * FieldsAt(b).hlen as int else 20..], NoError)
    ensures TakePayload(p).result == NoError <==>
            |b| >= 20 && (WellFormed(b) || |b| - 20 == FieldsAt(b).PayloadLength())
    ensures TakePayload(p).result == NoError ==> TakePayload(p).datagram == IPv4Datagram(p.header, p.rest.buffer)
  {
    assert DEFAULT_HEADER.PayloadLength() == 0x1_0000 - 20;
    if |b| >= 20 && WellFormed(b) {
      WellFormedLength(p.header);
    }
  }

  lemma WellFormedLength(h: IPv4Header)
    requires 4 * h.hlen as int <= h.len
    ensures h.PayloadLength() == h.len - 4 * h.hlen as int
  {
  }

  /** Every datagram with a correct header is still accepted, payload unchanged, after its
      checksum has been spoilt, although the header's parser notices. */
  lemma BadChecksumAccepted(b: seq<byte>, i: nat, v: byte)
    requires ParseHeader(Input(b, NoError)).result == NoError
    requires i == 10 || i == 11
    requires |b| >= 20 && v != b[i]
    ensures ParseHeader(Input(b[i := v], NoError)).result == BadChecksum
    ensures ParseDatagram(b[i := v]).result == NoError
    ensures ParseDatagram(b[i := v]).datagram.payload == ParseDatagram(b).datagram.payload
  {
    var c := b[i := v];
    ParseHeaderExact(b);
    ParseHeaderExact(c);
    ParseDatagramExact(c);
    ParseDatagramExact(b);
    SpoiltChecksum(b, i, v);
  }

  lemma SpoiltChecksum(b: seq<byte>, i: nat, v: byte)
    requires |b| >= 20 && (i == 10 || i == 11) && v != b[i]
    requires WellFormed(b) && Complement(Sum32(0, b[..4 * FieldsAt(b).hlen as int])) == 0
    ensures WellFormed(b[i := v]) && FieldsAt(b[i := v]).hlen == FieldsAt(b).hlen
    ensures Complement(Sum32(0, b[i := v][..4 * FieldsAt(b).hlen as int])) != 0
    ensures b[i := v][4 * FieldsAt(b).hlen as int..] == b[4 * FieldsAt(b).hlen as int..]
  {
    SameFields(b, i, v);
    var n := 4 * FieldsAt(b).hlen as int;
    ByteErrorShows(0, b[..n], i, v);
    assert b[i := v][..n] == b[..n][i := v];
  }

  lemma SameFields(b: seq<byte>, i: nat, v: byte)
    requires |b| >= 20 && (i == 10 || i == 11)
    ensures FieldsAt(b[i := v]) == FieldsAt(b).(cksum := Word(b[i := v], 10))
  {
  }

  /** The header as it is sent, its checksum filled in. */
  function Checked(h: IPv4Header): IPv4Header
    requires h.hlen >= 5
  {
    h.(cksum := Complement(Sum32(0, HeaderBytes(h.(cksum := 0)))))
  }

  function DatagramBytes(d: IPv4Datagram): seq<byte>
    requires d.header.hlen >= 5
  {
    HeaderBytes(Checked(d.header)) + d.payload
  }

  method SerializeDatagram(d: IPv4Datagram) returns (r: Result<seq<byte>>)
    ensures r == if |d.payload| == d.header.PayloadLength() && Serializable(d.header)
                 then Ok(DatagramBytes(d)) else Thrown
  {
    if |d.payload| != d.header.PayloadLength() {
      return Thrown;
    }
    var header := d.header.(cksum := 0);
    var zero := SerializeHeader(header);
    if zero.Thrown? {
      return Thrown;
    }
    var check := new InternetChecksum(0);
    check.Add(zero.value);
    var cksum := check.Value();
    var out := SerializeHeader(header.(cksum := cksum));
    return Ok(out.value + d.payload);
  }

  lemma HeaderIndices(h: IPv4Header, payload: seq<byte>)
    requires h.hlen >= 5
    ensures (HeaderBytes(h) + payload)[..10] == Front(h)
    ensures (HeaderBytes(h) + payload)[10..12] == [h.cksum / 0x100, h.cksum % 0x100]
    ensures (HeaderBytes(h) + payload)[12..20] == Back(h)[..8]
  {
  }

  lemma FrontFields(h: IPv4Header, b: seq<byte>)
    requires |b| >= 20 && b[..10] == Front(h)
    ensures b[0] == 0x40 + h.hlen % 0x10 && b[1] == h.tos && b[8] == h.ttl && b[9] == h.proto
    ensures Word(b, 2) == h.len && Word(b, 4) == h.id && Word(b, 6) == FragmentWord(h)
  {
    var f := Front(h);
    TCPWire.JoinWord(h.len);
    TCPWire.JoinWord(h.id);
    TCPWire.JoinWord(FragmentWord(h));
    assert b[0] == f[0] && b[1] == f[1] && b[2] == f[2] && b[3] == f[3] && b[4] == f[4];
    assert b[5] == f[5] && b[6] == f[6] && b[7] == f[7] && b[8] == f[8] && b[9] == f[9];
  }

  lemma BackFields(h: IPv4Header, b: seq<byte>)
    requires h.hlen >= 5 && |b| >= 20
    requires b[10..12] == [h.cksum / 0x100, h.cksum % 0x100] && b[12..20] == Back(h)[..8]
    ensures Word(b, 10) == h.cksum && Long(b, 12) == h.src && Long(b, 16) == h.dst
  {
    var c, f := b[10..12], b[12..20];
    TCPWire.JoinWord(h.cksum);
    TCPWire.JoinLong(h.src);
    TCPWire.JoinLong(h.dst);
    assert b[10] == c[0] && b[11] == c[1];
    assert b[12] == f[0] && b[13] == f[1] && b[14] == f[2] && b[15] == f[3];
    assert b[16] == f[4] && b[17] == f[5] && b[18] == f[6] && b[19] == f[7];
  }

  /** The header that comes back: a header length above 15 or an offset above 13 bits is cut. */
  function Cut(h: IPv4Header): IPv4Header {
    h.(ver := 4, hlen := h.hlen % 0x10, offset := h.offset % 0x2000)
  }

  lemma HeaderRoundTrip(h: IPv4Header, payload: seq<byte>)
    requires h.hlen >= 5
    ensures FieldsAt(HeaderBytes(h) + payload) == Cut(h)
  {
    var b := HeaderBytes(h) + payload;
    HeaderIndices(h, payload);
    FrontFields(h, b);
    BackFields(h, b);
    FragmentBits(h);
  }

  lemma SplitSum(h: IPv4Header)
    requires h.hlen >= 5
    ensures WordSum(HeaderBytes(h), false) == WordSum(Front(h), false) + h.cksum + WordSum(Back(h), false)
  {
    var word: seq<byte> := [h.cksum / 0x100, h.cksum % 0x100];
    assert HeaderBytes(h) == Front(h) + (word + Back(h));
    ChunksAdd(Front(h), word + Back(h), false);
    ChunksAdd(word, Back(h), false);
    assert word[1..] == [h.cksum % 0x100];
    assert WordSum(word[1..], true) == h.cksum % 0x100;
  }

  /** The checksum that is sent checks. */
  lemma CheckedChecks(h: IPv4Header)
    requires h.hlen >= 5
    ensures Complement(Sum32(0, HeaderBytes(Checked(h)))) == 0
  {
    var zero := HeaderBytes(h.(cksum := 0));
    SumFits(0, zero);
    ChecksumInPlace(h, Checked(h).cksum);
    InsertedSum(WordSum(zero, false));
  }

  lemma ChecksumInPlace(h: IPv4Header, c: u16)
    requires h.hlen >= 5
    ensures WordSum(HeaderBytes(h.(cksum := c)), false) == WordSum(HeaderBytes(h.(cksum := 0)), false) + c
  {
    SplitSum(h.(cksum := c));
    SplitSum(h.(cksum := 0));
  }

  /** Parsing what was serialized gives the datagram back exactly when header length and offset
      fit their fields and the 16-bit length did not wrap under a header with options. */
  lemma DatagramRoundTrip(d: IPv4Datagram)
    requires Serializable(d.header) && |d.payload| == d.header.PayloadLength()
    ensures ParseDatagram(DatagramBytes(d)) == DatagramParse(NoError, d.(header := Checked(d.header)))
            <==> d.header.hlen < 0x10 && d.header.offset < 0x2000
                 && (d.header.hlen == 5 || 4 * d.header.hlen as int <= d.header.len)
  {
    var h := Checked(d.header);
    HeaderRoundTrip(h, d.payload);
    ParsesBack(DatagramBytes(d), HeaderBytes(h), h, d.payload);
  }

  lemma ParsesBack(b: seq<byte>, front: seq<byte>, h: IPv4Header, payload: seq<byte>)
    requires Serializable(h) && |payload| == h.PayloadLength()
    requires |front| == 4 * h.hlen as int && b == front + payload && FieldsAt(b) == Cut(h)
    ensures ParseDatagram(b) == DatagramParse(NoError, IPv4Datagram(h, payload))
            <==> h.hlen < 0x10 && h.offset < 0x2000 && (h.hlen == 5 || 4 * h.hlen as int <= h.len)
  {
    ParseDatagramExact(b);
    Fit(b, front, h, payload);
  }

  lemma Fit(b: seq<byte>, front: seq<byte>, h: IPv4Header, payload: seq<byte>)
    requires Serializable(h) && |payload| == h.PayloadLength()
    requires |front| == 4 * h.hlen as int && b == front + payload && FieldsAt(b) == Cut(h)
    ensures Cut(h) == h <==> h.hlen < 0x10 && h.offset < 0x2000
    ensures Cut(h) == h ==> (WellFormed(b) <==> 4 * h.hlen as int <= h.len)
    ensures Cut(h) == h ==> b[4 * h.hlen as int..] == payload
    ensures Cut(h) == h && h.len < 4 * h.hlen as int ==>
            (|b| - 20 == h.PayloadLength() <==> h.hlen == 5)
  {
  }

  /** What was serialized also passes the header's own checks, the checksum among them. */
  lemma SerializedHeaderChecks(d: IPv4Datagram)
    requires Serializable(d.header) && d.header.hlen < 0x10
    requires d.header.len == 4 * d.header.hlen as int + |d.payload|
    ensures ParseHeader(Input(DatagramBytes(d), NoError)).result == NoError
  {
    var h := Checked(d.header);
    var b := DatagramBytes(d);
    HeaderRoundTrip(h, d.payload);
    CheckedChecks(d.header);
    Passes(b, HeaderBytes(h), h, d.payload);
  }

  lemma Passes(b: seq<byte>, front: seq<byte>, h: IPv4Header, payload: seq<byte>)
    requires Serializable(h) && h.hlen < 0x10 && h.len == 4 * h.hlen as int + |payload|
    requires |front| == 4 * h.hlen as int && b == front + payload && FieldsAt(b) == Cut(h)
    requires Complement(Sum32(0, front)) == 0
    ensures ParseHeader(Input(b, NoError)).result == NoError
  {
    FrontPasses(b, front, h, payload);
    ParseHeaderExact(b);
  }

  lemma FrontPasses(b: seq<byte>, front: seq<byte>, h: IPv4Header, payload: seq<byte>)
    requires Serializable(h) && h.hlen < 0x10 && h.len == 4 * h.hlen as int + |payload|
    requires |front| == 4 * h.hlen as int && b == front + payload && FieldsAt(b) == Cut(h)
    ensures WellFormed(b) && b[..4 * FieldsAt(b).hlen as int] == front
  {
    assert Cut(h).hlen == h.hlen && Cut(h).len == h.len;
    assert b[..4 * h.hlen as int] == front;
  }

  /** The pseudo-header of section 3.1 of RFC 793: addresses, zero, protocol, length. */
  function PseudoHeader(h: IPv4Header): seq<byte> {
    Encode(h.src, 4) + Encode(h.dst, 4) + [0, h.proto] + Encode(h.PayloadLength(), 2)
  }

  lemma LongSum(x: u32)
    ensures WordSum(Encode(x, 4), false) == x / 0x1_0000 + x % 0x1_0000
  {
    Encode4(x);
    var a: seq<byte> := [x / 0x100_0000, x / 0x1_0000 % 0x100];
    var b: seq<byte> := [x / 0x100 % 0x100, x % 0x100];
    assert Encode(x, 4) == a + b;
    ChunksAdd(a, b, false);
    PairSum(a);
    PairSum(b);
    Halves(x);
  }

  lemma Halves(x: u32)
    ensures x / 0x100_0000 * 0x100 + x / 0x1_0000 % 0x100 == x / 0x1_0000
    ensures x / 0x100 % 0x100 * 0x100 + x % 0x100 == x % 0x1_0000
  {
    TCPWire.JoinLong(x);
  }

  lemma PairSum(b: seq<byte>)
    requires |b| == 2
    ensures WordSum(b, false) == b[0] as int * 0x100 + b[1]
  {
    assert WordSum(b[1..], true) == b[1] + WordSum(b[1..][1..], false);
    assert b[1..][1..] == [];
  }

  /** The sum computed from the fields is the checksum's sum over the pseudo-header's bytes. */
  lemma PseudoHeaderSum(h: IPv4Header)
    ensures h.PseudoChecksum() == WordSum(PseudoHeader(h), false)
  {
    var s, d, p, l: seq<byte> := Encode(h.src, 4), Encode(h.dst, 4), [0, h.proto], Encode(h.PayloadLength(), 2);
    LongSum(h.src);
    LongSum(h.dst);
    PairSum(p);
    Encode2(h.PayloadLength());
    PairSum(l);
    TCPWire.JoinWord(h.PayloadLength());
    ChunksAdd(s + d + p, l, false);
    ChunksAdd(s + d, p, false);
    ChunksAdd(s, d, false);
  }
}
