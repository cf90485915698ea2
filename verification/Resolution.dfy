/** Two interfaces on one link: an unknown next hop is resolved and the datagram delivered. */
module Resolution {
  import opened Results
  import opened Words
  import opened Parsers
  import opened ARP
  import opened NetworkInterfaces
  import opened InterfaceRuns
  import opened InterfaceFrames
  import IPv4

  /** A datagram that survives the wire (see `IPv4.DatagramRoundTrip`). */
  predicate Portable(d: IPv4.IPv4Datagram) {
    && Sendable(d) && d.header.hlen < 0x10 && d.header.offset < 0x2000
    && (d.header.hlen == 5 || 4 * d.header.hlen as int <= d.header.len)
  }

  lemma Brings(s: Interface, frame: EthernetFrame, m: ARPMessage)
    requires s.Accepts(frame) && frame.ethertype == TYPE_ARP && frame.payload == MessageBytes(m) && m.Supported()
    ensures s.Receive(frame) == s.TakeARP(m)
  {
    MessageRoundTrip(m);
  }

  /** The owner of the address answers a request, to the one who asked, and learns who that is. */
  lemma RequestAnswered(a: Interface, b: Interface)
    ensures b.Receive(a.RequestFrame(b.ip)).frames
            == b.frames + [b.ReplyFrame(NewMessage(OPCODE_REQUEST, a.ethernet, a.ip, 0, b.ip))]
    ensures b.Receive(a.RequestFrame(b.ip)).cache == b.cache[a.ip := Entry(a.ethernet, 0)]
    ensures b.Receive(a.RequestFrame(b.ip)).ethernet == b.ethernet
  {
    Brings(b, a.RequestFrame(b.ip), NewMessage(OPCODE_REQUEST, a.ethernet, a.ip, 0, b.ip));
  }

  /** Everyone else stays silent. */
  lemma RequestIgnored(a: Interface, c: Interface, hop: u32)
    requires c.ip != hop
    ensures c.Receive(a.RequestFrame(hop)).frames == c.frames
  {
    Brings(c, a.RequestFrame(hop), NewMessage(OPCODE_REQUEST, a.ethernet, a.ip, 0, hop));
  }

  /** The answer is learned, and the oldest datagram that waits for the answerer goes out to it; it
      stays if it does not serialize, and is lost if the answerer gives the broadcast address. */
  lemma ReplyReleases(a: Interface, b: Interface, reply: EthernetFrame)
    requires reply == b.ReplyFrame(NewMessage(OPCODE_REQUEST, a.ethernet, a.ip, 0, b.ip))
    requires For(a.queue, b.ip) != []
    ensures var first := For(a.queue, b.ip)[0];
            && a.Receive(reply).cache == a.cache[b.ip := Entry(b.ethernet, 0)]
            && (b.ethernet == ETHERNET_BROADCAST ==>
                  a.Receive(reply).frames == a.frames && For(a.Receive(reply).queue, b.ip) == For(a.queue, b.ip)[1..])
            && (b.ethernet != ETHERNET_BROADCAST && Sendable(first) ==>
                  && a.Receive(reply).frames == a.frames + [a.DataFrame(first, b.ethernet)]
                  && For(a.Receive(reply).queue, b.ip) == For(a.queue, b.ip)[1..])
            && (b.ethernet != ETHERNET_BROADCAST && !Sendable(first) ==>
                  a.Receive(reply).frames == a.frames && a.Receive(reply).queue == a.queue)
  {
    var m := NewMessage(OPCODE_REPLY, b.ethernet, b.ip, a.ethernet, a.ip);
    Brings(a, reply, m);
    TakeOnlyLearns(a, m);
    MessageReleases(a, m);
  }

  lemma MessageReleases(s: Interface, m: ARPMessage)
    requires m.opcode == OPCODE_REPLY && For(s.queue, m.senderIP) != []
    ensures var first, t := For(s.queue, m.senderIP)[0], s.TakeARP(m);
            && (m.senderEthernet == ETHERNET_BROADCAST ==>
                  t.frames == s.frames && For(t.queue, m.senderIP) == For(s.queue, m.senderIP)[1..])
            && (m.senderEthernet != ETHERNET_BROADCAST && Sendable(first) ==>
                  && t.frames == s.frames + [s.DataFrame(first, m.senderEthernet)]
                  && For(t.queue, m.senderIP) == For(s.queue, m.senderIP)[1..])
            && (m.senderEthernet != ETHERNET_BROADCAST && !Sendable(first) ==>
                  t.frames == s.frames && t.queue == s.queue)
  {
    SomeWaits(s.queue, m.senderIP);
    ReleaseFirst(s.queue, m.senderIP);
    assert For(s.queue, m.senderIP)[0] == s.queue[FirstFor(s.queue, m.senderIP)].datagram;
    assert Released(s, m) == [] <==>
           m.senderEthernet != ETHERNET_BROADCAST && !Sendable(For(s.queue, m.senderIP)[0]);
    ReplyFrames(s, m);
    TakeOnlyReleases(s, m);
  }

  lemma DataDelivered(a: Interface, b: Interface, d: IPv4.IPv4Datagram)
    requires Portable(d)
    ensures b.Datagram(a.DataFrame(d, b.ethernet)) == Some(d.(header := IPv4.Checked(d.header)))
    ensures b.Receive(a.DataFrame(d, b.ethernet)) == b
  {
    IPv4.DatagramRoundTrip(d);
  }

  /** Ask, answer, release, deliver. The exchange for a datagram whose hop is unknown carries over
      the oldest one that waits for that hop: the datagram itself exactly when none waited before.
      It is lost if the owner of the hop gives the broadcast address. */
  lemma Resolves(a: Interface, b: Interface, d: IPv4.IPv4Datagram)
    requires b.ip !in a.cache
    ensures
      var waiting := For(a.queue, b.ip) + [d];
      var asked := a.Send(d, b.ip);
      var answered := b.Receive(asked.frames[|a.frames|]);
      && |answered.frames| == |b.frames| + 1
      && var sent := asked.Receive(answered.frames[|b.frames|]);
      && (b.ethernet == ETHERNET_BROADCAST ==>
            |sent.frames| == |a.frames| + 1 && For(sent.queue, b.ip) == waiting[1..])
      && (b.ethernet != ETHERNET_BROADCAST && Sendable(waiting[0]) ==>
            |sent.frames| == |a.frames| + 2 && For(sent.queue, b.ip) == waiting[1..] && sent.Knows(b.ip))
      && (b.ethernet != ETHERNET_BROADCAST && Portable(waiting[0]) ==>
            answered.Datagram(sent.frames[|a.frames| + 1])
            == Some(waiting[0].(header := IPv4.Checked(waiting[0].header))))
      && (b.ethernet != ETHERNET_BROADCAST && !Sendable(waiting[0]) ==>
            |sent.frames| == |a.frames| + 1 && For(sent.queue, b.ip) == waiting)
    ensures For(a.Send(d, b.ip).queue, b.ip) == For(a.queue, b.ip) + [d]
    ensures FirstFor(a.Send(d, b.ip).queue, b.ip) == |a.queue| <==> For(a.queue, b.ip) == []
  {
    ForAppend(a.queue, Pending(d, b.ip), b.ip);
    OldestIndex(a.queue, Pending(d, b.ip));
    Asks(a, d, b.ip);
    RequestAnswered(a, b);
    Delivers(a.Send(d, b.ip), a, b, b.Receive(a.RequestFrame(b.ip)));
  }

  lemma Asks(a: Interface, d: IPv4.IPv4Datagram, hop: u32)
    requires hop !in a.cache
    ensures var asked := a.Send(d, hop);
            && asked.frames == a.frames + [a.RequestFrame(hop)] && asked.frames[|a.frames|] == a.RequestFrame(hop)
            && asked.queue == a.queue + [Pending(d, hop)]
            && asked.ethernet == a.ethernet && asked.ip == a.ip
  {
  }

  /** The entry just queued is the first for its hop exactly when none was there. */
  lemma OldestIndex(q: seq<Pending>, p: Pending)
    ensures FirstFor(q + [p], p.hop) == FirstFor(q, p.hop)
    ensures FirstFor(q, p.hop) == |q| <==> For(q, p.hop) == []
  {
    FirstForAppend(q, p);
    SomeWaits(q, p.hop);
  }

  lemma {:induction false} FirstForAppend(q: seq<Pending>, p: Pending)
    ensures FirstFor(q + [p], p.hop) == FirstFor(q, p.hop)
  {
    if q != [] {
      assert (q + [p])[1..] == q[1..] + [p];
      FirstForAppend(q[1..], p);
    }
  }

  lemma Delivers(asked: Interface, a: Interface, b: Interface, answered: Interface)
    requires For(asked.queue, b.ip) != []
    requires asked.ethernet == a.ethernet && asked.ip == a.ip
    requires answered.frames == b.frames + [b.ReplyFrame(NewMessage(OPCODE_REQUEST, a.ethernet, a.ip, 0, b.ip))]
    requires answered.ethernet == b.ethernet
    ensures
      var first := For(asked.queue, b.ip)[0];
      var sent := asked.Receive(answered.frames[|b.frames|]);
      && (b.ethernet == ETHERNET_BROADCAST ==>
            sent.frames == asked.frames && For(sent.queue, b.ip) == For(asked.queue, b.ip)[1..])
      && (b.ethernet != ETHERNET_BROADCAST && Sendable(first) ==>
            && |sent.frames| == |asked.frames| + 1 && sent.Knows(b.ip)
            && For(sent.queue, b.ip) == For(asked.queue, b.ip)[1..])
      && (b.ethernet != ETHERNET_BROADCAST && Portable(first) ==>
            answered.Datagram(sent.frames[|asked.frames|]) == Some(first.(header := IPv4.Checked(first.header))))
      && (b.ethernet != ETHERNET_BROADCAST && !Sendable(first) ==>
            sent.frames == asked.frames && sent.queue == asked.queue)
  {
    var first := For(asked.queue, b.ip)[0];
    ReplyReleases(asked, b, answered.frames[|b.frames|]);
    if Portable(first) {
      DataDelivered(asked, answered, first);
    }
  }
}
