/** Ethernet frames and ARP messages (libsponge/tcp_helpers/ethernet_header.hh, arp_message.cc; RFC 826). */
module ARP {
  import opened Results
  import opened Words
  import opened Parsers

  /** Six bytes, read as one number. */
  type EthernetAddress = x: int | 0 <= x < 0x1_0000_0000_0000

  const ETHERNET_BROADCAST: EthernetAddress := 0xFFFF_FFFF_FFFF

  const TYPE_IPv4: u16 := 0x800
  const TYPE_ARP: u16 := 0x806

  datatype EthernetFrame = EthernetFrame(dst: EthernetAddress, src: EthernetAddress, ethertype: u16, payload: seq<byte>)

  const LENGTH := 28
  const TYPE_ETHERNET: u16 := 1
  const OPCODE_REQUEST: u16 := 1
  const OPCODE_REPLY: u16 := 2

  datatype ARPMessage = ARPMessage(
    hardwareType: u16, protocolType: u16, hardwareSize: byte, protocolSize: byte, opcode: u16,
    senderEthernet: EthernetAddress, senderIP: u32, targetEthernet: EthernetAddress, targetIP: u32)
  {
    predicate Supported() {
      && hardwareType == TYPE_ETHERNET && protocolType == TYPE_IPv4
      && hardwareSize == 6 && protocolSize == 4 && (opcode == OPCODE_REQUEST || opcode == OPCODE_REPLY)
    }
  }

  function NewMessage(opcode: u16, senderEthernet: EthernetAddress, senderIP: u32,
                      targetEthernet: EthernetAddress, targetIP: u32): ARPMessage
  {
    ARPMessage(TYPE_ETHERNET, TYPE_IPv4, 6, 4, opcode, senderEthernet, senderIP, targetEthernet, targetIP)
  }

  function Addresses(m: ARPMessage): seq<byte> {
    Encode(m.senderEthernet, 6) + (Encode(m.senderIP, 4) + (Encode(m.targetEthernet, 6) + (Encode(m.targetIP, 4) + [])))
  }

  function MessageBytes(m: ARPMessage): (b: seq<byte>)
    ensures |b| == LENGTH
  {
    Encode(m.hardwareType, 2) + (Encode(m.protocolType, 2) + (Encode(m.hardwareSize, 1)
    + (Encode(m.protocolSize, 1) + (Encode(m.opcode, 2) + Addresses(m)))))
  }

  method Serialize(m: ARPMessage) returns (r: Result<seq<byte>>)
    ensures r == if m.Supported() then Ok(MessageBytes(m)) else Thrown
  {
    if !m.Supported() {
      return Thrown;
    }
    var ret := UnparseInt([], m.hardwareType, 2);
    ret := UnparseInt(ret, m.protocolType, 2);
    ret := UnparseInt(ret, m.hardwareSize, 1);
    ret := UnparseInt(ret, m.protocolSize, 1);
    ret := UnparseInt(ret, m.opcode, 2);
    ret := SerializeAddresses(ret, m);
    assert ret == MessageBytes(m);
    return Ok(ret);
  }

  method SerializeAddresses(s: seq<byte>, m: ARPMessage) returns (ret: seq<byte>)
    ensures ret == s + Addresses(m)
  {
    ret := UnparseInt(s, m.senderEthernet, 6);
    ret := UnparseInt(ret, m.senderIP, 4);
    ret := UnparseInt(ret, m.targetEthernet, 6);
    ret := UnparseInt(ret, m.targetIP, 4);
  }

  /** What `ARPMessage::parse` returns and the message it leaves. */
  datatype ARPParse = ARPParse(result: ParseResult, message: ARPMessage)

  function Parse(b: seq<byte>): ARPParse {
    if |b| < LENGTH then ARPParse(PacketTooShort, NewMessage(0, 0, 0, 0, 0))
    else
      var p0 := Input(b, NoError);
      var p1 := p0.Skip(2);
      var p2 := p1.Skip(2);
      var p3 := p2.Skip(1);
      var p4 := p3.Skip(1);
      var m := ARPMessage(p0.U16(), p1.U16(), p2.U8(), p3.U8(), p4.U16(), 0, 0, 0, 0);
      if !m.Supported() then ARPParse(Unsupported, m) else ParseAddresses(p4.Skip(2), m)
  }

  function U48(p: Input): EthernetAddress {
    IntBound(p, 6);
    p.Int(6)
  }

  function ParseAddresses(p5: Input, m: ARPMessage): ARPParse {
    var p6 := p5.Skip(6);
    var p7 := p6.Skip(4);
    var p8 := p7.Skip(6);
    ARPParse(p8.Skip(4).error,
             m.(senderEthernet := U48(p5), senderIP := p6.U32(), targetEthernet := U48(p7), targetIP := p8.U32()))
  }

  method ParseFrom(b: seq<byte>) returns (r: ARPParse)
    ensures r == Parse(b)
  {
    var p := new NetParser(b);
    if |p.buffer| < LENGTH {
      return ARPParse(PacketTooShort, NewMessage(0, 0, 0, 0, 0));
    }
    var hardwareType := p.U16();
    var protocolType := p.U16();
    var hardwareSize := p.U8();
    var protocolSize := p.U8();
    var opcode := p.U16();
    var m := ARPMessage(hardwareType, protocolType, hardwareSize, protocolSize, opcode, 0, 0, 0, 0);
    if !m.Supported() {
      return ARPParse(Unsupported, m);
    }
    r := ParseAddressesFrom(p, m);
  }

  method ParseAddressesFrom(p: NetParser, m: ARPMessage) returns (r: ARPParse)
    modifies p
    ensures r == ParseAddresses(old(p.Value()), m)
  {
    IntBound(p.Value(), 6);
    var senderEthernet := p.ParseInt(6);
    var senderIP := p.U32();
    IntBound(p.Value(), 6);
    var targetEthernet := p.ParseInt(6);
    var targetIP := p.U32();
    r := ARPParse(p.error, m.(senderEthernet := senderEthernet, senderIP := senderIP,
                              targetEthernet := targetEthernet, targetIP := targetIP));
  }

  /** Parsing what was serialized gives the message back, if it is one that is supported. */
  lemma MessageRoundTrip(m: ARPMessage)
    ensures Parse(MessageBytes(m)) == ARPParse(NoError, m) <==> m.Supported()
  {
    var a4 := Addresses(m);
    var a3 := Encode(m.opcode, 2) + a4;
    var a2 := Encode(m.protocolSize, 1) + a3;
    var a1 := Encode(m.hardwareSize, 1) + a2;
    assert Pow256(2) == 0x1_0000;
    Reads(m.hardwareType, 2, Encode(m.protocolType, 2) + a1);
    Reads(m.protocolType, 2, a1);
    Reads(m.hardwareSize, 1, a2);
    Reads(m.protocolSize, 1, a3);
    Reads(m.opcode, 2, a4);
    AddressesRoundTrip(m, m.(senderEthernet := 0, senderIP := 0, targetEthernet := 0, targetIP := 0));
  }

  lemma AddressesRoundTrip(m: ARPMessage, n: ARPMessage)
    requires n == m.(senderEthernet := 0, senderIP := 0, targetEthernet := 0, targetIP := 0)
    ensures ParseAddresses(Input(Addresses(m), NoError), n) == ARPParse(NoError, m)
  {
    assert Pow256(4) == 0x1_0000_0000 && Pow256(6) == 0x1_0000_0000_0000;
    var a2 := Encode(m.targetIP, 4) + [];
    var a1 := Encode(m.targetEthernet, 6) + a2;
    Reads(m.senderEthernet, 6, Encode(m.senderIP, 4) + a1);
    Reads(m.senderIP, 4, a1);
    Reads(m.targetEthernet, 6, a2);
    Reads(m.targetIP, 4, []);
  }

  /** The message on the wire: the fields of RFC 826 in its order, most significant byte first. */
  lemma MessageLayout(m: ARPMessage)
    ensures var b := MessageBytes(m);
            && BigEndian(b[0..2]) == m.hardwareType && BigEndian(b[2..4]) == m.protocolType
            && BigEndian(b[4..5]) == m.hardwareSize as int && BigEndian(b[5..6]) == m.protocolSize as int
            && BigEndian(b[6..8]) == m.opcode
            && BigEndian(b[8..14]) == m.senderEthernet && BigEndian(b[14..18]) == m.senderIP
            && BigEndian(b[18..24]) == m.targetEthernet && BigEndian(b[24..28]) == m.targetIP
  {
    var b, a := MessageBytes(m), Addresses(m);
    FixedLayout(m);
    AddressLayout(m);
    assert b[8..14] == a[0..6] && b[14..18] == a[6..10] && b[18..24] == a[10..16] && b[24..28] == a[16..20];
  }

  lemma FixedLayout(m: ARPMessage)
    ensures var b := MessageBytes(m);
            && BigEndian(b[0..2]) == m.hardwareType && BigEndian(b[2..4]) == m.protocolType
            && BigEndian(b[4..5]) == m.hardwareSize as int && BigEndian(b[5..6]) == m.protocolSize as int
            && BigEndian(b[6..8]) == m.opcode && b[8..] == Addresses(m)
  {
    var b := MessageBytes(m);
    assert Pow256(1) == 0x100 && Pow256(2) == 0x1_0000;
    assert b[0..2] == Encode(m.hardwareType, 2) && b[2..4] == Encode(m.protocolType, 2);
    assert b[4..5] == Encode(m.hardwareSize, 1) && b[5..6] == Encode(m.protocolSize, 1);
    assert b[6..8] == Encode(m.opcode, 2);
    DecodeEncode(m.hardwareType, 2);
    DecodeEncode(m.protocolType, 2);
    DecodeEncode(m.hardwareSize, 1);
    DecodeEncode(m.protocolSize, 1);
    DecodeEncode(m.opcode, 2);
  }

  lemma AddressLayout(m: ARPMessage)
    ensures var a := Addresses(m);
            && |a| == 20
            && BigEndian(a[0..6]) == m.senderEthernet && BigEndian(a[6..10]) == m.senderIP
            && BigEndian(a[10..16]) == m.targetEthernet && BigEndian(a[16..20]) == m.targetIP
  {
    var a := Addresses(m);
    assert Pow256(4) == 0x1_0000_0000 && Pow256(6) == 0x1_0000_0000_0000;
    assert a[0..6] == Encode(m.senderEthernet, 6) && a[6..10] == Encode(m.senderIP, 4);
    assert a[10..16] == Encode(m.targetEthernet, 6) && a[16..20] == Encode(m.targetIP, 4);
    DecodeEncode(m.senderEthernet, 6);
    DecodeEncode(m.senderIP, 4);
    DecodeEncode(m.targetEthernet, 6);
    DecodeEncode(m.targetIP, 4);
  }
}
