/** TCP segments inside IPv4 datagrams (libsponge/tcp_helpers/tcp_over_ip.cc). */
module TCPOverIP {
  import opened Results
  import opened Words
  import opened Parsers
  import opened TCPSegments
  import opened IPv4
  import TCPWire
  import Checksums

  datatype Address = Address(ip: u32, port: u16)

  datatype Config = Config(source: Address, destination: Address)

  /** The same connection seen from the other end. */
  function Mirror(c: Config): Config {
    Config(c.destination, c.source)
  }

  /** The segment with the connection's ports. */
  function Addressed(c: Config, seg: TCPSegment): TCPSegment {
    seg.(header := seg.header.(sport := c.source.port, dport := c.destination.port))
  }

  /** The IP header of a segment; the length is cut to 16 bits. */
  function Envelope(c: Config, seg: TCPSegment): IPv4Header {
    IPv4.DEFAULT_HEADER.(src := c.source.ip, dst := c.destination.ip,
                    len := (20 + 4 * seg.header.doff as int + |seg.payload|) % 0x1_0000)
  }

  function Wrapped(c: Config, seg: TCPSegment): IPv4Datagram
    requires seg.header.doff >= 5
  {
    IPv4Datagram(Envelope(c, seg), TCPWire.SegmentBytes(Addressed(c, seg), Envelope(c, seg).PseudoChecksum()))
  }

  datatype Adapter = Adapter(config: Config, listening: bool)
  {
    predicate ForUs(d: IPv4Datagram) {
      !listening ==> d.header.dst == config.source.ip && d.header.src == config.destination.ip
    }

    /** A listening adapter takes its two addresses from a SYN. */
    function Learn(d: IPv4Datagram, seg: TCPSegment): Adapter {
      Adapter(Config(Address(d.header.dst, config.source.port), Address(d.header.src, seg.header.sport)), false)
    }

    /** The state after `d`, and the segment taken from it. */
    function Unwrap(d: IPv4Datagram): (Adapter, Option<TCPSegment>) {
      if !ForUs(d) || d.header.proto != PROTO_TCP then (this, None)
      else
        var p := TCPWire.ParseSegment(d.payload, d.header.PseudoChecksum());
        if p.result != NoError then (this, None) else Accept(d, p.segment)
    }

    function Accept(d: IPv4Datagram, seg: TCPSegment): (Adapter, Option<TCPSegment>) {
      if seg.header.dport != config.source.port then (this, None)
      else if listening then
        if seg.header.syn && !seg.header.rst then (Learn(d, seg), Some(seg)) else (this, None)
      else (this, if seg.header.sport == config.destination.port then Some(seg) else None)
    }
  }

  class TCPOverIPv4Adapter {
    var config: Config
    var listening: bool

    ghost function Value(): Adapter
      reads this
    {
      Adapter(config, listening)
    }

    constructor (config: Config, listening: bool)
      ensures Value() == Adapter(config, listening)
    {
      this.config, this.listening := config, listening;
    }

    method UnwrapTCPInIP(d: IPv4Datagram) returns (r: Option<TCPSegment>)
      modifies this
      ensures (Value(), r) == old(Value()).Unwrap(d)
    {
      if !listening && d.header.dst != config.source.ip {
        return None;
      }
      if !listening && d.header.src != config.destination.ip {
        return None;
      }
      if d.header.proto != PROTO_TCP {
        return None;
      }
      var p := TCPWire.ParseSegmentFrom(d.payload, d.header.PseudoChecksum());
      if p.result != NoError {
        return None;
      }
      r := AcceptSegment(d, p.segment);
    }

    method AcceptSegment(d: IPv4Datagram, seg: TCPSegment) returns (r: Option<TCPSegment>)
      modifies this
      ensures (Value(), r) == old(Value()).Accept(d, seg)
    {
      if seg.header.dport != config.source.port {
        return None;
      }
      if listening {
        if seg.header.syn && !seg.header.rst {
          config := Config(Address(d.header.dst, config.source.port), Address(d.header.src, seg.header.sport));
          listening := false;
        } else {
          return None;
        }
      }
      if seg.header.sport != config.destination.port {
        return None;
      }
      return Some(seg);
    }

    /** Wraps a segment; serializing throws when its data offset is below five. */
    method WrapTCPInIP(seg: TCPSegment) returns (sent: TCPSegment, r: Result<IPv4Datagram>)
      ensures sent == Addressed(config, seg)
      ensures r == if seg.header.doff < 5 then Thrown else Ok(Wrapped(config, seg))
    {
      sent := seg.(header := seg.header.(sport := config.source.port, dport := config.destination.port));
      var header := IPv4.DEFAULT_HEADER.(src := config.source.ip, dst := config.destination.ip);
      var len := header.hlen as int * 4 + sent.header.doff as int * 4 + |sent.payload|;
      assert len == 20 + 4 * seg.header.doff as int + |seg.payload|;
      header := header.(len := len % 0x1_0000);
      assert header == Envelope(config, seg) && sent == Addressed(config, seg);
      var payload := TCPWire.SerializeSegment(sent, header.PseudoChecksum());
      if payload.Thrown? {
        return sent, Thrown;
      }
      return sent, Ok(IPv4Datagram(header, payload.value));
    }
  }

  /** A segment that fits: four bits of data offset, 16 bits of total length. */
  predicate Fits(seg: TCPSegment) {
    5 <= seg.header.doff < 0x10 && 20 + 4 * seg.header.doff as int + |seg.payload| < 0x1_0000
  }

  /** The segment that arrives: ports and checksum filled in. */
  function Arriving(c: Config, seg: TCPSegment): TCPSegment
    requires seg.header.doff >= 5
  {
    var s := Addressed(c, seg);
    s.(header := TCPWire.Checked(s, Envelope(c, seg).PseudoChecksum()))
  }

  lemma PseudoBound(h: IPv4Header)
    ensures h.PseudoChecksum() < 0x10_0000
  {
  }

  /** The bytes of a wrapped segment parse to the datagram, its checksum filled in. */
  lemma DatagramArrives(c: Config, seg: TCPSegment)
    requires Fits(seg)
    ensures Serializable(Envelope(c, seg)) && |Wrapped(c, seg).payload| == Envelope(c, seg).PayloadLength()
    ensures ParseDatagram(DatagramBytes(Wrapped(c, seg)))
            == DatagramParse(NoError, IPv4Datagram(IPv4.Checked(Envelope(c, seg)), Wrapped(c, seg).payload))
  {
    EnvelopeFits(c, seg);
    DatagramRoundTrip(Wrapped(c, seg));
  }

  lemma EnvelopeFits(c: Config, seg: TCPSegment)
    requires Fits(seg)
    ensures Envelope(c, seg).len == 20 + 4 * seg.header.doff as int + |seg.payload|
    ensures Envelope(c, seg).PayloadLength() == 4 * seg.header.doff as int + |seg.payload|
  {
  }

  lemma SegmentArrives(c: Config, seg: TCPSegment)
    requires Fits(seg)
    ensures TCPWire.ParseSegment(Wrapped(c, seg).payload, Envelope(c, seg).PseudoChecksum())
            == TCPWire.SegmentParse(NoError, Arriving(c, seg))
  {
    var s, pseudo := Addressed(c, seg), Envelope(c, seg).PseudoChecksum();
    PseudoBound(Envelope(c, seg));
    Checksums.SumFits(pseudo, TCPWire.HeaderBytes(s.header.(cksum := 0)) + s.payload);
    TCPWire.SegmentRoundTrip(s, pseudo);
  }

  lemma UnwrapsTo(a: Adapter, d: IPv4Datagram, seg: TCPSegment)
    requires a.ForUs(d) && d.header.proto == PROTO_TCP
    requires TCPWire.ParseSegment(d.payload, d.header.PseudoChecksum()) == TCPWire.SegmentParse(NoError, seg)
    ensures a.Unwrap(d) == a.Accept(d, seg)
  {
  }

  /** What a datagram that arrives gives an adapter it is for. */
  lemma Unwraps(c: Config, seg: TCPSegment, a: Adapter, d: IPv4Datagram)
    requires Fits(seg) && d == IPv4Datagram(IPv4.Checked(Envelope(c, seg)), Wrapped(c, seg).payload)
    requires a.listening || a.config == Mirror(c)
    ensures a.Unwrap(d) == a.Accept(d, Arriving(c, seg))
  {
    SegmentArrives(c, seg);
    SamePseudo(Envelope(c, seg));
    UnwrapsTo(a, d, Arriving(c, seg));
  }

  lemma SamePseudo(h: IPv4Header)
    requires h.hlen >= 5
    ensures IPv4.Checked(h).PseudoChecksum() == h.PseudoChecksum()
  {
  }

  /** Wrap, serialize, parse, unwrap: the other end of the connection receives the segment. */
  lemma WireRoundTrip(c: Config, seg: TCPSegment)
    requires Fits(seg)
    ensures ParseDatagram(DatagramBytes(Wrapped(c, seg))).result == NoError
    ensures Adapter(Mirror(c), false).Unwrap(ParseDatagram(DatagramBytes(Wrapped(c, seg))).datagram)
            == (Adapter(Mirror(c), false), Some(Arriving(c, seg)))
  {
    DatagramArrives(c, seg);
    Unwraps(c, seg, Adapter(Mirror(c), false), ParseDatagram(DatagramBytes(Wrapped(c, seg))).datagram);
  }

  /** A listener on the destination port takes the segment exactly when it opens a connection,
      and is then the other end of it. */
  lemma ListenerLearns(c: Config, seg: TCPSegment, own: Config)
    requires Fits(seg) && own.source.port == c.destination.port
    ensures Adapter(own, true).Unwrap(ParseDatagram(DatagramBytes(Wrapped(c, seg))).datagram)
            == if seg.header.syn && !seg.header.rst then (Adapter(Mirror(c), false), Some(Arriving(c, seg)))
               else (Adapter(own, true), None)
  {
    DatagramArrives(c, seg);
    Unwraps(c, seg, Adapter(own, true), ParseDatagram(DatagramBytes(Wrapped(c, seg))).datagram);
  }

  /** A connected adapter keeps its state, and takes a datagram exactly when it comes from the
      other end to this one, by TCP, intact. */
  lemma TakesOnlyItsOwn(a: Adapter, d: IPv4Datagram)
    requires !a.listening
    ensures a.Unwrap(d).0 == a
    ensures var p := TCPWire.ParseSegment(d.payload, d.header.PseudoChecksum());
            && (a.Unwrap(d).1 != None <==>
                && d.header.dst == a.config.source.ip && d.header.src == a.config.destination.ip
                && d.header.proto == PROTO_TCP && p.result == NoError
                && p.segment.header.dport == a.config.source.port
                && p.segment.header.sport == a.config.destination.port)
            && (a.Unwrap(d).1 != None ==> a.Unwrap(d).1 == Some(p.segment))
  {
  }

  /** What one end sends, a connected adapter takes if and only if it is the other end. */
  lemma OnlyOtherEnd(c: Config, seg: TCPSegment, own: Config)
    requires Fits(seg)
    ensures Adapter(own, false).Unwrap(ParseDatagram(DatagramBytes(Wrapped(c, seg))).datagram)
            == (Adapter(own, false), if own == Mirror(c) then Some(Arriving(c, seg)) else None)
  {
    DatagramArrives(c, seg);
    SegmentArrives(c, seg);
    SamePseudo(Envelope(c, seg));
    TakesOnlyItsOwn(Adapter(own, false), ParseDatagram(DatagramBytes(Wrapped(c, seg))).datagram);
  }

  /** A listener on another port takes nothing. */
  lemma ListenerRefuses(c: Config, seg: TCPSegment, own: Config)
    requires Fits(seg) && own.source.port != c.destination.port
    ensures Adapter(own, true).Unwrap(ParseDatagram(DatagramBytes(Wrapped(c, seg))).datagram)
            == (Adapter(own, true), None)
  {
    DatagramArrives(c, seg);
    Unwraps(c, seg, Adapter(own, true), ParseDatagram(DatagramBytes(Wrapped(c, seg))).datagram);
  }
}
