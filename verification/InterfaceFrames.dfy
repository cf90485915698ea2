/** The frames of a network interface over whole runs: what each of them is, where it goes, and
    what became of every datagram that was queued. */
module InterfaceFrames {
  import opened Results
  import opened Words
  import opened Parsers
  import opened ARP
  import opened NetworkInterfaces
  import opened InterfaceRuns
  import IPv4

  predicate IsFrame(s: Interface, f: EthernetFrame, x: Sent) {
    match x
    case Request(hop) => f == s.RequestFrame(hop)
    case Answer(m) => f == s.ReplyFrame(m)
    case Data(p, address, _) =>
      Sendable(p.datagram) && address != ETHERNET_BROADCAST && f == s.DataFrame(p.datagram, address)
  }

  /** The frames that a reply makes: the datagram that it releases, to the address it names, and
      nothing if it releases none or names the broadcast address. */
  lemma ReplyFrames(s: Interface, m: ARPMessage)
    requires m.opcode == OPCODE_REPLY
    ensures Released(s, m) != [] && m.senderEthernet != ETHERNET_BROADCAST ==> Sendable(Released(s, m)[0].datagram)
    ensures s.TakeARP(m).frames ==
            if Released(s, m) != [] && m.senderEthernet != ETHERNET_BROADCAST
            then s.frames + [s.DataFrame(Released(s, m)[0].datagram, m.senderEthernet)] else s.frames
  {
  }

  /** The frames of `t` are those of `s` and then those that `xs` says. */
  ghost predicate Sends(s: Interface, t: Interface, xs: seq<Sent>) {
    && t.ethernet == s.ethernet && t.ip == s.ip
    && s.frames <= t.frames && |t.frames| == |s.frames| + |xs| && |xs| <= 1
    && (xs != [] ==> IsFrame(s, t.frames[|s.frames|], xs[0]))
  }

  lemma MessageSends(s: Interface, m: ARPMessage)
    requires m.Supported()
    ensures Sends(s, s.TakeARP(m), Replies(s, m))
  {
    if m.opcode == OPCODE_REPLY {
      ReplyFrames(s, m);
    }
  }

  lemma MessageSupported(s: Interface, frame: EthernetFrame)
    ensures s.Message(frame).Some? ==> s.Message(frame).value.Supported()
  {
  }

  /** What a call sends. */
  lemma StepSends(h: History, call: Call)
    ensures h.sent <= h.Step(call).sent
    ensures Sends(h.s, h.Step(call).s, h.Step(call).sent[|h.sent|..])
  {
    match call
    case Send(d, hop) =>
    case Receive(frame) =>
      MessageSupported(h.s, frame);
      if h.s.Message(frame).Some? {
        MessageSends(h.s, h.s.Message(frame).value);
      }
    case Tick(ms) =>
  }

  /** Every frame ever sent is the one that the history tells. */
  ghost predicate Told(h: History) {
    |h.sent| == |h.s.frames| && forall i :: 0 <= i < |h.sent| ==> IsFrame(h.s, h.s.frames[i], h.sent[i])
  }

  lemma SendsTold(h: History, h': History)
    requires Told(h) && h.sent <= h'.sent && Sends(h.s, h'.s, h'.sent[|h.sent|..])
    ensures Told(h')
  {
    forall i | 0 <= i < |h'.sent| ensures IsFrame(h'.s, h'.s.frames[i], h'.sent[i]) {
      if i < |h.sent| {
        assert IsFrame(h.s, h.s.frames[i], h.sent[i]);
      }
    }
  }

  // Requests

  function RequestHops(sent: seq<Sent>): seq<u32> {
    if sent == [] then []
    else RequestHops(sent[..|sent| - 1]) + (if sent[|sent| - 1].Request? then [sent[|sent| - 1].hop] else [])
  }

  function NoteHops(notes: seq<Note>): seq<u32> {
    if notes == [] then [] else NoteHops(notes[..|notes| - 1]) + [notes[|notes| - 1].hop]
  }

  lemma AskRequests(sent: seq<Sent>, notes: seq<Note>, n: Note)
    requires RequestHops(sent) == NoteHops(notes)
    ensures RequestHops(sent + [Request(n.hop)]) == NoteHops(notes + [n])
  {
    assert (sent + [Request(n.hop)])[..|sent|] == sent && (notes + [n])[..|notes|] == notes;
  }

  lemma NoRequests(a: seq<Sent>, b: seq<Sent>)
    requires |b| <= 1 && (b != [] ==> !b[0].Request?)
    ensures RequestHops(a + b) == RequestHops(a)
  {
    if b == [] {
      assert a + b == a;
    } else {
      assert (a + b)[..|a|] == a && RequestHops(a) + [] == RequestHops(a);
    }
  }

  lemma StepRequests(h: History, call: Call)
    requires RequestHops(h.sent) == NoteHops(h.requests)
    ensures RequestHops(h.Step(call).sent) == NoteHops(h.Step(call).requests)
  {
    match call
    case Send(d, hop) =>
      if hop !in h.s.cache {
        AskRequests(h.sent, h.requests, Note(h.now, hop, ETHERNET_BROADCAST));
      } else if h.s.Knows(hop) && Sendable(d) {
        NoRequests(h.sent, [Data(Pending(d, hop), h.s.cache[hop].address, false)]);
      } else {
        NoRequests(h.sent, []);
      }
    case Receive(frame) =>
      if h.s.Message(frame).Some? {
        NoRequests(h.sent, Replies(h.s, h.s.Message(frame).value));
      }
    case Tick(ms) =>
  }

  // Datagrams that waited

  /** The datagrams that were sent after they had waited. */
  function Waited(sent: seq<Sent>): seq<Pending> {
    if sent == [] then []
    else
      var x := sent[|sent| - 1];
      Waited(sent[..|sent| - 1]) + (if x.Data? && x.waited then [x.p] else [])
  }

  lemma {:induction false} WaitedConcat(a: seq<Sent>, b: seq<Sent>)
    requires |b| <= 1
    ensures Waited(a + b) == Waited(a) + Waited(b)
  {
    if b == [] {
      assert a + b == a;
    } else {
      assert (a + b)[..|a|] == a && b[..0] == [];
    }
  }

  /** `c` is made of `a` and `b`, each in its order. */
  predicate Interleaves<T(==)>(a: seq<T>, b: seq<T>, c: seq<T>) {
    if c == [] then a == [] && b == []
    else
      var last := c[|c| - 1];
      || (a != [] && a[|a| - 1] == last && Interleaves(a[..|a| - 1], b, c[..|c| - 1]))
      || (b != [] && b[|b| - 1] == last && Interleaves(a, b[..|b| - 1], c[..|c| - 1]))
  }

  lemma InterleavesMore<T>(a: seq<T>, b: seq<T>, c: seq<T>, x: T)
    requires Interleaves(a, b, c)
    ensures Interleaves(a + [x], b, c + [x]) && Interleaves(a, b + [x], c + [x])
  {
    assert (a + [x])[..|a|] == a && (b + [x])[..|b|] == b && (c + [x])[..|c|] == c;
  }

  lemma {:induction false} InterleavesFor(a: seq<Pending>, b: seq<Pending>, c: seq<Pending>, hop: u32)
    requires Interleaves(a, b, c)
    ensures Interleaves(For(a, hop), For(b, hop), For(c, hop))
  {
    if c != [] {
      var last, c' := c[|c| - 1], c[..|c| - 1];
      if a != [] && a[|a| - 1] == last && Interleaves(a[..|a| - 1], b, c') {
        InterleavesFor(a[..|a| - 1], b, c', hop);
        LastFor(a, hop);
        LastFor(c, hop);
        if last.hop == hop {
          InterleavesMore(For(a[..|a| - 1], hop), For(b, hop), For(c', hop), last.datagram);
        }
      } else {
        InterleavesFor(a, b[..|b| - 1], c', hop);
        LastFor(b, hop);
        LastFor(c, hop);
        if last.hop == hop {
          InterleavesMore(For(a, hop), For(b[..|b| - 1], hop), For(c', hop), last.datagram);
        }
      }
    }
  }

  lemma LastFor(q: seq<Pending>, hop: u32)
    requires q != []
    ensures var last := q[|q| - 1];
            For(q, hop) == if last.hop == hop then For(q[..|q| - 1], hop) + [last.datagram] else For(q[..|q| - 1], hop)
  {
    assert For(q[..|q| - 1], hop) + [] == For(q[..|q| - 1], hop);
  }

  lemma {:induction false} InterleavesLength<T>(a: seq<T>, b: seq<T>, c: seq<T>)
    requires Interleaves(a, b, c)
    ensures |c| == |a| + |b|
    ensures b == [] ==> a == c
  {
    if c != [] {
      var last, c' := c[|c| - 1], c[..|c| - 1];
      if a != [] && a[|a| - 1] == last && Interleaves(a[..|a| - 1], b, c') {
        InterleavesLength(a[..|a| - 1], b, c');
        assert a == a[..|a| - 1] + [last] && c == c' + [last];
      } else {
        InterleavesLength(a, b[..|b| - 1], c');
      }
    }
  }

  /** What was released was either sent or lost. */
  predicate Settled(h: History) {
    Interleaves(Waited(h.sent), h.lost, h.released)
  }

  lemma HearSettled(h: History, m: ARPMessage)
    requires Settled(h)
    ensures Settled(h.Hear(m))
  {
    WaitedConcat(h.sent, Replies(h.s, m));
    WaitedReplies(h.s, m);
    OneOrNone(Waited(h.sent), h.lost, h.released, Released(h.s, m));
  }

  lemma OneOrNone<T>(a: seq<T>, b: seq<T>, c: seq<T>, x: seq<T>)
    requires Interleaves(a, b, c) && |x| <= 1
    ensures Interleaves(a + x, b + [], c + x) && Interleaves(a + [], b + x, c + x)
  {
    assert a + [] == a && b + [] == b;
    if x == [] {
      assert a + x == a && b + x == b && c + x == c;
    } else {
      assert x == [x[0]];
      InterleavesMore(a, b, c, x[0]);
    }
  }

  /** A message that releases a datagram sends it, unless it names the broadcast address. */
  lemma WaitedReplies(s: Interface, m: ARPMessage)
    ensures Waited(Replies(s, m)) == if m.senderEthernet == ETHERNET_BROADCAST then [] else Released(s, m)
  {
    assert Replies(s, m) != [] ==> Replies(s, m)[..0] == [];
  }

  lemma StepSettled(h: History, call: Call)
    requires Settled(h)
    ensures Settled(h.Step(call))
  {
    match call
    case Send(d, hop) =>
      var more := h.Step(call).sent[|h.sent|..];
      assert h.Step(call).sent == h.sent + more;
      NotWaited(h.sent, more);
    case Receive(frame) =>
      if h.s.Message(frame).Some? {
        HearSettled(h, h.s.Message(frame).value);
      }
    case Tick(ms) =>
  }

  lemma NotWaited(sent: seq<Sent>, more: seq<Sent>)
    requires |more| <= 1 && (more != [] && more[0].Data? ==> !more[0].waited)
    ensures Waited(sent + more) == Waited(sent)
  {
    WaitedConcat(sent, more);
    assert more != [] ==> more[..0] == [];
    assert Waited(sent) + [] == Waited(sent);
  }

  /** Per hop: the datagrams queued are, in order, those that were sent after waiting mixed with
      those that were lost, and then those that wait. */
  predicate AccountedFor(h: History, hop: u32) {
    && Interleaves(For(Waited(h.sent), hop), For(h.lost, hop), For(h.released, hop))
    && For(h.queued, hop) == For(h.released, hop) + For(h.s.queue, hop)
  }

  lemma {:induction false} RunSettled(ethernet: EthernetAddress, ip: u32, calls: seq<Call>)
    ensures var h := Run(Start(ethernet, ip), calls);
            Told(h) && Settled(h) && RequestHops(h.sent) == NoteHops(h.requests)
  {
    if calls != [] {
      var k := |calls| - 1;
      var h := Run(Start(ethernet, ip), calls[..k]);
      RunSettled(ethernet, ip, calls[..k]);
      StepSends(h, calls[k]);
      SendsTold(h, h.Step(calls[k]));
      StepSettled(h, calls[k]);
      StepRequests(h, calls[k]);
    }
  }

  /** Over every run of a new interface: each frame is the one told, the requests told are those
      of the log, and every datagram queued for a hop was sent once, in order, or lost, or waits. */
  lemma RunFrames(ethernet: EthernetAddress, ip: u32, calls: seq<Call>, hop: u32)
    ensures var h := Run(Start(ethernet, ip), calls);
            Told(h) && RequestHops(h.sent) == NoteHops(h.requests) && AccountedFor(h, hop)
  {
    var h := Run(Start(ethernet, ip), calls);
    RunSettled(ethernet, ip, calls);
    RunKeeps(ethernet, ip, calls);
    InterleavesFor(Waited(h.sent), h.lost, h.released, hop);
    assert ConservedAt(h, hop);
  }

  /** None was lost for a hop exactly when all that were queued for it are those sent after
      waiting and those that wait. */
  lemma NoneLost(h: History, hop: u32)
    requires AccountedFor(h, hop)
    ensures For(h.lost, hop) == [] <==> For(h.queued, hop) == For(Waited(h.sent), hop) + For(h.s.queue, hop)
  {
    InterleavesLength(For(Waited(h.sent), hop), For(h.lost, hop), For(h.released, hop));
  }

  /** A hop's oldest datagram is lost exactly by a reply that names the broadcast address. */
  lemma LostToBroadcast(h: History, m: ARPMessage)
    requires m.opcode == OPCODE_REPLY && For(h.s.queue, m.senderIP) != []
    ensures h.Hear(m).lost != h.lost <==> m.senderEthernet == ETHERNET_BROADCAST
    ensures m.senderEthernet == ETHERNET_BROADCAST ==>
            && h.Hear(m).s.frames == h.s.frames
            && For(h.Hear(m).s.queue, m.senderIP) == For(h.s.queue, m.senderIP)[1..]
  {
    var s := h.s.Learn(m);
    SomeWaits(h.s.queue, m.senderIP);
    ReplyFrames(h.s, m);
    TakeOnlyReleases(h.s, m);
    ReleaseOldest(h.s.queue, m.senderIP, m.senderIP);
  }

  lemma {:induction false} SomeWaits(q: seq<Pending>, hop: u32)
    ensures FirstFor(q, hop) < |q| <==> For(q, hop) != []
  {
    NoneBefore(q, hop);
    var i := FirstFor(q, hop);
    if i < |q| {
      ReleaseFirst(q, hop);
    } else {
      assert q[..i] == q;
    }
  }

  /** `x` is what its call gave, or what a reply released: the oldest that waited for its hop. */
  predicate Sourced(h: History, call: Call, x: Sent)
    requires x.Data?
  {
    if !x.waited then call == Send(x.p.datagram, x.p.hop)
    else && For(h.s.queue, x.p.hop) == [x.p.datagram] + For(h.Step(call).s.queue, x.p.hop)
         && call.Receive? && h.s.Message(call.frame).Some?
         && Released(h.s, h.s.Message(call.frame).value) == [x.p]
  }

  /** Every IPv4 frame that a call sends goes to the address last learned for its hop, less than
      30000 ms ago, and carries that call's datagram or the oldest that waited, which leaves. */
  lemma FramesGoWhereLearned(h: History, call: Call)
    requires Agrees(h)
    ensures h.sent <= h.Step(call).sent
    ensures forall x :: x in h.Step(call).sent[|h.sent|..] && x.Data? ==>
              LearnedLately(h.Step(call), x.p.hop, x.address) && Sourced(h, call, x)
  {
    match call
    case Send(d, hop) =>
      assert AgreesAt(h, hop);
    case Receive(frame) =>
      if h.s.Message(frame).Some? {
        HearSourced(h, h.s.Message(frame).value);
      }
    case Tick(ms) =>
  }

  lemma HearSourced(h: History, m: ARPMessage)
    ensures forall x :: x in Replies(h.s, m) && x.Data? ==>
              && LearnedLately(h.Hear(m), x.p.hop, x.address) && x.waited && Released(h.s, m) == [x.p]
              && For(h.s.queue, x.p.hop) == [x.p.datagram] + For(h.Hear(m).s.queue, x.p.hop)
  {
    LastAppend(h.log, Note(h.now, m.senderIP, m.senderEthernet), m.senderIP);
    TakeOnlyReleases(h.s, m);
    if Released(h.s, m) != [] {
      ReleaseOldest(h.s.queue, m.senderIP, m.senderIP);
    }
  }

  // Single frames

  /** A frame for another interface changes nothing, hands up nothing and throws nothing. */
  lemma OthersIgnored(s: Interface, frame: EthernetFrame)
    requires frame.dst != s.ethernet && frame.dst != ETHERNET_BROADCAST
    ensures s.Receive(frame) == s && s.Datagram(frame) == None && !s.ReceiveThrows(frame)
  {
  }

  /** A request asks everyone, in our name, for the hop; a reply tells the asker, in our name. */
  lemma FramesSay(s: Interface, hop: u32, m: ARPMessage)
    ensures var f := s.RequestFrame(hop);
            && f.dst == ETHERNET_BROADCAST && f.src == s.ethernet && f.ethertype == TYPE_ARP
            && Parse(f.payload) == ARPParse(NoError, ARPMessage(1, 0x800, 6, 4, 1, s.ethernet, s.ip, 0, hop))
    ensures var f := s.ReplyFrame(m);
            && f.dst == m.senderEthernet && f.src == s.ethernet && f.ethertype == TYPE_ARP
            && Parse(f.payload) ==
               ARPParse(NoError, ARPMessage(1, 0x800, 6, 4, 2, s.ethernet, s.ip, m.senderEthernet, m.senderIP))
  {
    MessageRoundTrip(NewMessage(OPCODE_REQUEST, s.ethernet, s.ip, 0, hop));
    MessageRoundTrip(NewMessage(OPCODE_REPLY, s.ethernet, s.ip, m.senderEthernet, m.senderIP));
  }

  /** A datagram goes out under our address to the one known for its hop, and parses again. */
  lemma DataFrameSays(s: Interface, d: IPv4.IPv4Datagram, to: EthernetAddress)
    requires Sendable(d)
    ensures var f := s.DataFrame(d, to); f.dst == to && f.src == s.ethernet && f.ethertype == TYPE_IPv4
    ensures IPv4.ParseDatagram(s.DataFrame(d, to).payload) ==
            IPv4.DatagramParse(NoError, IPv4.IPv4Datagram(IPv4.Checked(d.header), d.payload))
            <==> d.header.hlen < 0x10 && d.header.offset < 0x2000
                 && (d.header.hlen == 5 || 4 * d.header.hlen as int <= d.header.len)
  {
    IPv4.DatagramRoundTrip(d);
  }
}
