/** What routing does with each datagram, and with one that passes many routers. */
module RouterRuns {
  import opened Results
  import opened Words
  import opened Parsers
  import opened ARP
  import opened NetworkInterfaces
  import opened IPv4
  import opened Routers
  import InterfaceRuns
  import InterfaceFrames
  import Resolution

  /** One datagram, said without the scan: dropped when it expires or has no route, and
      otherwise sent once, one hop older, over the interface of the longest prefix. */
  lemma RoutedByLongestPrefix(links: seq<Interface>, table: seq<Route>, d: IPv4Datagram, i: nat)
    ensures d.header.ttl <= 1 || NoRoute(table, d.header.dst) ==> RouteOne(links, table, d) == Outcome(links, false)
    ensures d.header.ttl > 1 && IsLongest(table, d.header.dst, i) ==>
            var r := table[i];
            var sent := d.(header := d.header.(ttl := d.header.ttl - 1));
            var hop := if r.nextHop.Some? then r.nextHop.value else d.header.dst;
            RouteOne(links, table, d) ==
            if r.interfaceNum < |links|
            then Outcome(links[r.interfaceNum := links[r.interfaceNum].Send(sent, hop)],
                         links[r.interfaceNum].Throws(sent, hop))
            else Outcome(links, true)
  {
    LongestIsUnique(table, d.header.dst, i);
    if d.header.ttl > 1 && IsLongest(table, d.header.dst, i) {
      assert RouteOne(links, table, d) == Forward(links, table[i], Older(d));
    }
  }

  predicate AllSendable(ds: seq<IPv4Datagram>) {
    forall i :: 0 <= i < |ds| ==> Sendable(ds[i])
  }

  predicate InterfacesExist(table: seq<Route>, n: nat) {
    forall i :: 0 <= i < |table| ==> table[i].interfaceNum < n
  }

  /** With interfaces that exist and datagrams that serialize, routing handles all of them. */
  lemma {:induction false} RoutesAll(links: seq<Interface>, table: seq<Route>, ds: seq<IPv4Datagram>)
    requires InterfacesExist(table, |links|) && AllSendable(ds)
    ensures !RouteAll(links, table, ds).thrown && RouteAll(links, table, ds).left == []
    decreases |ds|
  {
    if ds != [] {
      var o := RouteOne(links, table, ds[0]);
      OlderSendable(ds[0]);
      assert !o.thrown;
      RoutesAll(o.links, table, ds[1..]);
    }
  }

  lemma OlderSendable(d: IPv4Datagram)
    ensures Sendable(Older(d)) <==> Sendable(d)
  {
  }

  /** Every IPv4 frame that routing `d` sends, and every datagram that it queues, is `d` one hop older. */
  lemma RoutingSendsOlder(links: seq<Interface>, table: seq<Route>, d: IPv4Datagram, n: nat)
    requires n < |links|
    ensures var was, now := links[n], RouteOne(links, table, d).links[n];
            && was.frames <= now.frames && was.queue <= now.queue
            && (forall f :: f in now.frames[|was.frames|..] && f.ethertype == TYPE_IPv4 ==>
                  d.header.ttl > 1 && Sendable(Older(d)) && f.payload == DatagramBytes(Older(d)))
            && (forall p :: p in now.queue[|was.queue|..] ==> d.header.ttl > 1 && p.datagram == Older(d))
  {
    if d.header.ttl > 1 {
      match Scan(table, d.header.dst)
      case None =>
      case Some(i) =>
        if table[i].interfaceNum == n {
          SendAppends(links[n], Older(d), table[i].Hop(d.header.dst));
        }
    }
  }

  lemma SendAppends(s: Interface, d: IPv4Datagram, hop: u32)
    ensures var t := s.Send(d, hop);
            && s.frames <= t.frames && s.queue <= t.queue
            && (forall f :: f in t.frames[|s.frames|..] && f.ethertype == TYPE_IPv4 ==>
                  Sendable(d) && f.payload == DatagramBytes(d))
            && (forall p :: p in t.queue[|s.queue|..] ==> p.datagram == d)
  {
  }

  // Datagrams that pass many routers

  /** An interface after any calls. */
  function After(s: Interface, calls: seq<InterfaceRuns.Call>): Interface {
    if calls == [] then s
    else
      var t := After(s, calls[..|calls| - 1]);
      match calls[|calls| - 1]
      case Send(d, hop) => t.Send(d, hop)
      case Receive(frame) => t.Receive(frame)
      case Tick(ms) => t.Tick(ms)
  }

  /** The calls after which, and the frame with which, a reply arrives. */
  datatype Wait = Wait(calls: seq<InterfaceRuns.Call>, reply: EthernetFrame)

  /** One hop: a router in some state, the interface it sends on, the frame sent, now or after a
      wait for a reply, and the interface that receives it. */
  datatype Hop = Hop(
    links: seq<Interface>, table: seq<Route>, n: nat, wait: Option<Wait>, frame: EthernetFrame, next: Interface)
  {
    /** The interface after the router has routed `d`. */
    function Routed(d: IPv4Datagram): Interface
      requires n < |links|
    {
      RouteOne(links, table, d).links[n]
    }

    /** Routing `d` sends the frame. */
    predicate SendsNow(d: IPv4Datagram)
      requires n < |links|
    {
      frame in Routed(d).frames[Min(|links[n].frames|, |Routed(d).frames|)..]
    }

    /** Routing `d` queues it, and after the wait a reply releases that entry in the frame. */
    predicate SendsLater(d: IPv4Datagram, w: Wait)
      requires n < |links|
    {
      var s := After(Routed(d), w.calls);
      && |Routed(d).queue| > |links[n].queue|
      && s.Message(w.reply).Some?
      && InterfaceRuns.Released(s, s.Message(w.reply).value) == [Routed(d).queue[|links[n].queue|]]
      && frame in s.Receive(w.reply).frames[Min(|s.frames|, |s.Receive(w.reply).frames|)..]
    }

    /** The router forwards `d` and the next interface hands it up as `e`. */
    predicate Carries(d: IPv4Datagram, e: IPv4Datagram) {
      && n < |links| && frame.ethertype == TYPE_IPv4 && next.Datagram(frame) == Some(e)
      && (match wait case None => SendsNow(d) case Some(w) => SendsLater(d, w))
    }
  }

  /** A router that has a route for `d` and knows the hop carries `d` on to whoever is at the
      address it knows. */
  lemma HopHappens(links: seq<Interface>, table: seq<Route>, d: IPv4Datagram, i: nat, next: Interface)
    requires d.header.ttl > 1 && IsLongest(table, d.header.dst, i) && table[i].interfaceNum < |links|
    requires var s, hop := links[table[i].interfaceNum], table[i].Hop(d.header.dst);
             s.Knows(hop) && s.cache[hop].address == next.ethernet
    requires Resolution.Portable(Older(d))
    ensures var n := table[i].interfaceNum;
            Hop(links, table, n, None, links[n].DataFrame(Older(d), next.ethernet), next)
            .Carries(d, Older(d).(header := IPv4.Checked(Older(d).header)))
  {
    var n := table[i].interfaceNum;
    var f := links[n].DataFrame(Older(d), next.ethernet);
    LongestIsUnique(table, d.header.dst, i);
    assert RouteOne(links, table, d).links[n].frames == links[n].frames + [f];
    Resolution.DataDelivered(links[n], next, Older(d));
  }

  /** What goes out for `d`, now or later, is `d` one hop older. */
  lemma CarriesOlder(h: Hop, d: IPv4Datagram, e: IPv4Datagram)
    requires h.Carries(d, e)
    ensures d.header.ttl > 1 && Sendable(Older(d)) && h.frame.payload == DatagramBytes(Older(d))
  {
    RoutingSendsOlder(h.links, h.table, d, h.n);
    match h.wait
    case None =>
    case Some(w) =>
      var p := h.Routed(d).queue[|h.links[h.n].queue|];
      assert p in h.Routed(d).queue[|h.links[h.n].queue|..];
      ReleasedFrame(After(h.Routed(d), w.calls), w.reply, p, h.frame);
  }

  /** The IPv4 frame of a reply carries the entry that it releases. */
  lemma ReleasedFrame(s: Interface, reply: EthernetFrame, p: Pending, f: EthernetFrame)
    requires s.Message(reply).Some? && InterfaceRuns.Released(s, s.Message(reply).value) == [p]
    requires f.ethertype == TYPE_IPv4
    requires f in s.Receive(reply).frames[Min(|s.frames|, |s.Receive(reply).frames|)..]
    ensures Sendable(p.datagram) && f.payload == DatagramBytes(p.datagram)
  {
    InterfaceFrames.ReplyFrames(s, s.Message(reply).value);
  }

  /** Forwarded by a router and received by the next, a datagram has its TTL one less. */
  lemma HopAges(h: Hop, d: IPv4Datagram, e: IPv4Datagram)
    requires h.Carries(d, e)
    ensures d.header.ttl > 1 && e.header.ttl == d.header.ttl - 1
  {
    CarriesOlder(h, d, e);
    WireKeepsTTL(Older(d), e);
  }

  lemma WireKeepsTTL(d: IPv4Datagram, e: IPv4Datagram)
    requires Sendable(d) && ParseDatagram(DatagramBytes(d)) == DatagramParse(NoError, e)
    ensures e.header.ttl == d.header.ttl
  {
    HeaderRoundTrip(IPv4.Checked(d.header), d.payload);
    ParseDatagramExact(DatagramBytes(d));
  }

  /** A datagram on its way: each hop carries it on from the one before. */
  predicate Chain(hops: seq<Hop>, ds: seq<IPv4Datagram>) {
    && |ds| == |hops| + 1
    && (hops != [] ==> hops[0].Carries(ds[0], ds[1]) && Chain(hops[1..], ds[1..]))
  }

  /** Across any chain of routers, in whatever states, a datagram is forwarded fewer times than
      its TTL says. */
  lemma {:induction false} TTLBoundsTheChain(hops: seq<Hop>, ds: seq<IPv4Datagram>)
    requires Chain(hops, ds)
    ensures hops != [] ==> |hops| < ds[0].header.ttl
    ensures ds[|hops|].header.ttl == ds[0].header.ttl - |hops|
  {
    if hops != [] {
      HopAges(hops[0], ds[0], ds[1]);
      TTLBoundsTheChain(hops[1..], ds[1..]);
    }
  }
}
