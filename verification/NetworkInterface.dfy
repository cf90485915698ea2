/** An interface that resolves next hops by ARP (libsponge/network_interface.cc; RFC 826). */
module NetworkInterfaces {
  import opened Results
  import opened Words
  import opened Parsers
  import opened ARP
  import IPv4

  const REQUEST_LIFE := 5000
  const MAPPING_LIFE := 30000

  /** A cached address and its age. A request that awaits its reply is cached as broadcast. */
  datatype Entry = Entry(address: EthernetAddress, age: nat)

  datatype Pending = Pending(datagram: IPv4.IPv4Datagram, hop: u32)

  function Life(address: EthernetAddress): nat {
    if address == ETHERNET_BROADCAST then REQUEST_LIFE else MAPPING_LIFE
  }

  /** Whether serializing a datagram does not throw. */
  predicate Sendable(d: IPv4.IPv4Datagram) {
    |d.payload| == d.header.PayloadLength() && IPv4.Serializable(d.header)
  }

  /** The first datagram that waits for `hop`, or the length of the queue. */
  function FirstFor(queue: seq<Pending>, hop: u32): (i: nat)
    ensures i <= |queue| && (i < |queue| ==> queue[i].hop == hop)
  {
    if queue == [] || queue[0].hop == hop then 0 else 1 + FirstFor(queue[1..], hop)
  }

  datatype Interface = Interface(
    ethernet: EthernetAddress, ip: u32, frames: seq<EthernetFrame>, cache: map<u32, Entry>, queue: seq<Pending>)
  {
    function DataFrame(d: IPv4.IPv4Datagram, to: EthernetAddress): EthernetFrame
      requires Sendable(d)
    {
      EthernetFrame(to, ethernet, TYPE_IPv4, IPv4.DatagramBytes(d))
    }

    function RequestFrame(hop: u32): EthernetFrame {
      EthernetFrame(ETHERNET_BROADCAST, ethernet, TYPE_ARP,
                    MessageBytes(NewMessage(OPCODE_REQUEST, ethernet, ip, 0, hop)))
    }

    function ReplyFrame(m: ARPMessage): EthernetFrame {
      EthernetFrame(m.senderEthernet, ethernet, TYPE_ARP,
                    MessageBytes(NewMessage(OPCODE_REPLY, ethernet, ip, m.senderEthernet, m.senderIP)))
    }

    predicate Waiting(hop: u32) {
      hop in cache && cache[hop].address == ETHERNET_BROADCAST
    }

    predicate Knows(hop: u32) {
      hop in cache && cache[hop].address != ETHERNET_BROADCAST
    }

    /** Whether sending throws: only a frame that is really built can. */
    predicate Throws(d: IPv4.IPv4Datagram, hop: u32) {
      Knows(hop) && !Sendable(d)
    }

    /** A datagram for a hop that is being asked for is dropped. */
    function Send(d: IPv4.IPv4Datagram, hop: u32): Interface {
      if Waiting(hop) || Throws(d, hop) then this
      else if Knows(hop) then this.(frames := frames + [DataFrame(d, cache[hop].address)])
      else this.(frames := frames + [RequestFrame(hop)], queue := queue + [Pending(d, hop)],
                 cache := cache[hop := Entry(ETHERNET_BROADCAST, 0)])
    }

    function Learn(m: ARPMessage): Interface {
      this.(cache := cache[m.senderIP := Entry(m.senderEthernet, 0)])
    }

    function Reply(m: ARPMessage): Interface {
      if ip == m.targetIP then this.(frames := frames + [ReplyFrame(m)]) else this
    }

    /** A reply releases the first datagram that waits for the sender, and only that. */
    function Flush(hop: u32): Interface {
      var i := FirstFor(queue, hop);
      if i == |queue| || Throws(queue[i].datagram, hop) then this
      else
        var s := Send(queue[i].datagram, hop);
        s.(queue := Without(s.queue, i))
    }

    predicate FlushThrows(hop: u32) {
      var i := FirstFor(queue, hop);
      i < |queue| && Throws(queue[i].datagram, hop)
    }

    function TakeARP(m: ARPMessage): Interface {
      if m.opcode == OPCODE_REQUEST then Learn(m).Reply(m)
      else if m.opcode == OPCODE_REPLY then Learn(m).Flush(m.senderIP)
      else Learn(m)
    }

    predicate Accepts(frame: EthernetFrame) {
      frame.dst == ETHERNET_BROADCAST || frame.dst == ethernet
    }

    /** The ARP message that a frame brings, if it brings one. */
    function Message(frame: EthernetFrame): Option<ARPMessage> {
      if Accepts(frame) && frame.ethertype == TYPE_ARP && Parse(frame.payload).result == NoError
      then Some(Parse(frame.payload).message) else None
    }

    /** The datagram that a frame brings, if it brings one. */
    function Datagram(frame: EthernetFrame): Option<IPv4.IPv4Datagram> {
      if Accepts(frame) && frame.ethertype == TYPE_IPv4 && IPv4.ParseDatagram(frame.payload).result == NoError
      then Some(IPv4.ParseDatagram(frame.payload).datagram) else None
    }

    function Receive(frame: EthernetFrame): Interface {
      match Message(frame)
      case None => this
      case Some(m) => TakeARP(m)
    }

    /** Whether receiving throws: a reply that releases a datagram that does not serialize. */
    predicate ReceiveThrows(frame: EthernetFrame) {
      match Message(frame)
      case None => false
      case Some(m) => m.opcode == OPCODE_REPLY && Learn(m).FlushThrows(m.senderIP)
    }

    function Tick(ms: nat): Interface {
      this.(cache := Aged(cache, ms))
    }
  }

  function Without(queue: seq<Pending>, i: nat): seq<Pending> {
    if i < |queue| then queue[..i] + queue[i + 1..] else queue
  }

  predicate Survives(e: Entry, ms: nat) {
    e.age + ms < Life(e.address)
  }

  function Aged(cache: map<u32, Entry>, ms: nat): map<u32, Entry> {
    map hop | hop in cache && Survives(cache[hop], ms) :: Entry(cache[hop].address, cache[hop].age + ms)
  }

  function NewInterface(ethernet: EthernetAddress, ip: u32): Interface {
    Interface(ethernet, ip, [], map[], [])
  }

  class NetworkInterface {
    var ethernet: EthernetAddress
    var ip: u32
    var frames: seq<EthernetFrame>
    var cache: map<u32, Entry>
    var queue: seq<Pending>

    ghost function Value(): Interface
      reads this
    {
      Interface(ethernet, ip, frames, cache, queue)
    }

    constructor (ethernet: EthernetAddress, ip: u32)
      ensures Value() == NewInterface(ethernet, ip)
    {
      this.ethernet, this.ip := ethernet, ip;
      frames, cache, queue := [], map[], [];
    }

    method SendDatagram(d: IPv4.IPv4Datagram, hop: u32) returns (thrown: bool)
      modifies this
      ensures Value() == old(Value()).Send(d, hop)
      ensures thrown == old(Value()).Throws(d, hop)
    {
      if hop in cache && cache[hop].address == ETHERNET_BROADCAST {
        return false;
      }
      if hop in cache {
        var payload := IPv4.SerializeDatagram(d);
        if payload.Thrown? {
          return true;
        }
        frames := frames + [EthernetFrame(cache[hop].address, ethernet, TYPE_IPv4, payload.value)];
      } else {
        var payload := Serialize(NewMessage(OPCODE_REQUEST, ethernet, ip, 0, hop));
        frames := frames + [EthernetFrame(ETHERNET_BROADCAST, ethernet, TYPE_ARP, payload.value)];
        queue := queue + [Pending(d, hop)];
        cache := cache[hop := Entry(ETHERNET_BROADCAST, 0)];
      }
      return false;
    }

    method RecvFrame(frame: EthernetFrame) returns (r: Option<IPv4.IPv4Datagram>, thrown: bool)
      modifies this
      ensures Value() == old(Value()).Receive(frame)
      ensures r == old(Value()).Datagram(frame)
      ensures thrown == old(Value()).ReceiveThrows(frame)
    {
      if frame.dst != ETHERNET_BROADCAST && frame.dst != ethernet {
        return None, false;
      }
      if frame.ethertype == TYPE_IPv4 {
        var p := IPv4.ParseDatagramFrom(frame.payload);
        if p.result == NoError {
          return Some(p.datagram), false;
        }
      } else if frame.ethertype == TYPE_ARP {
        var p := ParseFrom(frame.payload);
        if p.result == NoError {
          thrown := TakeMessage(p.message);
          return None, thrown;
        }
      }
      return None, false;
    }

    method TakeMessage(m: ARPMessage) returns (thrown: bool)
      modifies this
      ensures Value() == old(Value()).TakeARP(m)
      ensures thrown == (m.opcode == OPCODE_REPLY && old(Value()).Learn(m).FlushThrows(m.senderIP))
    {
      cache := cache[m.senderIP := Entry(m.senderEthernet, 0)];
      if m.opcode == OPCODE_REQUEST {
        if ip == m.targetIP {
          var payload := Serialize(NewMessage(OPCODE_REPLY, ethernet, ip, m.senderEthernet, m.senderIP));
          frames := frames + [EthernetFrame(m.senderEthernet, ethernet, TYPE_ARP, payload.value)];
        }
      } else if m.opcode == OPCODE_REPLY {
        thrown := FlushOne(m.senderIP);
        return;
      }
      return false;
    }

    /** The loop over the queue, which stops at the first datagram it releases. */
    method FlushOne(hop: u32) returns (thrown: bool)
      modifies this
      ensures Value() == old(Value()).Flush(hop)
      ensures thrown == old(Value()).FlushThrows(hop)
    {
      var i := 0;
      while i < |queue|
        invariant i <= |queue| && Value() == old(Value())
        invariant FirstFor(queue, hop) == i + FirstFor(queue[i..], hop)
      {
        if queue[i].hop == hop {
          thrown := Release(i);
          return;
        }
        assert queue[i..][1..] == queue[i + 1..];
        i := i + 1;
      }
      return false;
    }

    method Release(i: nat) returns (thrown: bool)
      requires i < |queue| && i == FirstFor(queue, queue[i].hop)
      modifies this
      ensures Value() == old(Value()).Flush(old(queue)[i].hop)
      ensures thrown == old(Value()).FlushThrows(old(queue)[i].hop)
    {
      thrown := SendDatagram(queue[i].datagram, queue[i].hop);
      if !thrown {
        queue := queue[..i] + queue[i + 1..];
      }
    }

    /** Ages every entry and erases those that have expired. */
    method Tick(ms: nat)
      modifies this
      ensures Value() == old(Value()).Tick(ms)
    {
      var left := cache.Keys;
      while left != {}
        invariant left <= old(cache).Keys && Value() == old(Value()).(cache := cache)
        invariant forall hop :: hop in left ==> hop in cache && cache[hop] == old(cache)[hop]
        invariant forall hop :: hop !in left ==> (hop in cache <==> hop in Aged(old(cache), ms))
        invariant forall hop :: hop !in left && hop in cache ==> cache[hop] == Aged(old(cache), ms)[hop]
        decreases left
      {
        var hop :| hop in left;
        var e := Entry(cache[hop].address, cache[hop].age + ms);
        if e.age >= Life(e.address) {
          cache := cache - {hop};
        } else {
          cache := cache[hop := e];
        }
        left := left - {hop};
      }
      assert cache == Aged(old(cache), ms);
    }
  }
}
