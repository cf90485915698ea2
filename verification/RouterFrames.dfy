/** What routing a queue of datagrams puts on each link: which frames, once each and in order. */
module RouterFrames {
  import opened Results
  import opened Words
  import opened ARP
  import opened NetworkInterfaces
  import opened IPv4
  import opened Routers

  /** `d` is alive, and route `i`, the longest prefix of its destination, leads over link `n`. */
  ghost predicate Leads(table: seq<Route>, d: IPv4Datagram, i: nat, n: nat) {
    d.header.ttl > 1 && IsLongest(table, d.header.dst, i) && table[i].interfaceNum == n
  }

  /** A datagram goes over one link at most, by one route. */
  lemma LeadsOnce(table: seq<Route>, d: IPv4Datagram, i: nat, n: nat, i': nat, n': nat)
    requires Leads(table, d, i, n) && Leads(table, d, i', n')
    ensures i == i' && n == n'
  {
    LongestIsUnique(table, d.header.dst, i);
    LongestIsUnique(table, d.header.dst, i');
  }

  /** Datagram `j`, forwarded by a route: in a frame of its own, or behind a request for the hop. */
  datatype Act = Act(j: nat, route: nat, asked: bool)

  /** `d` goes over link `n` to `hop`. */
  ghost predicate GoesTo(table: seq<Route>, d: IPv4Datagram, n: nat, hop: u32) {
    exists i: nat :: Leads(table, d, i, n) && table[i].Hop(d.header.dst) == hop
  }

  /** None of the first `j` datagrams goes over link `n` to `hop`. */
  ghost predicate Unasked(table: seq<Route>, ds: seq<IPv4Datagram>, n: nat, j: nat, hop: u32)
    requires j <= |ds|
  {
    forall k :: 0 <= k < j ==> !GoesTo(table, ds[k], n, hop)
  }

  /** What is to be done on link `n` in state `s`: a datagram with a known hop is sent, and the
      first of those with an unknown hop asks for it. */
  ghost predicate Due(s: Interface, table: seq<Route>, ds: seq<IPv4Datagram>, n: nat, a: Act) {
    && a.j < |ds| && Leads(table, ds[a.j], a.route, n)
    && var hop := table[a.route].Hop(ds[a.j].header.dst);
       if a.asked then hop !in s.cache && Unasked(table, ds, n, a.j, hop) else s.Knows(hop)
  }

  function HopOf(table: seq<Route>, ds: seq<IPv4Datagram>, a: Act): u32 {
    if a.j < |ds| && a.route < |table| then table[a.route].Hop(ds[a.j].header.dst) else 0
  }

  /** The frame with the datagram, or the request for its hop. */
  function FrameOf(s: Interface, table: seq<Route>, ds: seq<IPv4Datagram>, a: Act): EthernetFrame {
    var hop := HopOf(table, ds, a);
    if !a.asked && a.j < |ds| && hop in s.cache && Sendable(Older(ds[a.j]))
    then s.DataFrame(Older(ds[a.j]), s.cache[hop].address)
    else s.RequestFrame(hop)
  }

  function EntryOf(table: seq<Route>, ds: seq<IPv4Datagram>, a: Act): seq<Pending> {
    if a.asked && a.j < |ds| then [Pending(Older(ds[a.j]), HopOf(table, ds, a))] else []
  }

  function FramesOf(s: Interface, table: seq<Route>, ds: seq<IPv4Datagram>, acts: seq<Act>): seq<EthernetFrame> {
    if acts == [] then []
    else FramesOf(s, table, ds, acts[..|acts| - 1]) + [FrameOf(s, table, ds, acts[|acts| - 1])]
  }

  function EntriesOf(table: seq<Route>, ds: seq<IPv4Datagram>, acts: seq<Act>): seq<Pending> {
    if acts == [] then [] else EntriesOf(table, ds, acts[..|acts| - 1]) + EntryOf(table, ds, acts[|acts| - 1])
  }

  predicate InOrder(acts: seq<Act>) {
    forall x, y :: 0 <= x < y < |acts| ==> acts[x].j < acts[y].j
  }

  /** The acts are what is to be done for the first `m` datagrams, in their order. */
  ghost predicate Exactly(s: Interface, table: seq<Route>, ds: seq<IPv4Datagram>, n: nat, m: nat, acts: seq<Act>) {
    InOrder(acts) && forall a :: a in acts <==> Due(s, table, ds, n, a) && a.j < m
  }

  ghost predicate RemembersHop(
    s: Interface, table: seq<Route>, ds: seq<IPv4Datagram>, n: nat, m: nat, t: Interface, hop: u32)
    requires m <= |ds|
  {
    && (hop in t.cache <==> hop in s.cache || !Unasked(table, ds, n, m, hop))
    && (hop in t.cache ==> t.cache[hop] == if hop in s.cache then s.cache[hop] else Entry(ETHERNET_BROADCAST, 0))
  }

  /** The hops asked for are remembered as such, the others as they were. */
  ghost predicate Remembers(s: Interface, table: seq<Route>, ds: seq<IPv4Datagram>, n: nat, m: nat, t: Interface)
    requires m <= |ds|
  {
    forall hop: u32 :: RemembersHop(s, table, ds, n, m, t, hop)
  }

  /** The link `s` has become `t` by those acts and nothing else. */
  ghost predicate DidExactly(
    s: Interface, table: seq<Route>, ds: seq<IPv4Datagram>, n: nat, m: nat, acts: seq<Act>, t: Interface)
    requires m <= |ds|
  {
    && Exactly(s, table, ds, n, m, acts) && Remembers(s, table, ds, n, m, t)
    && t.ethernet == s.ethernet && t.ip == s.ip
    && t.frames == s.frames + FramesOf(s, table, ds, acts)
    && t.queue == s.queue + EntriesOf(table, ds, acts)
  }

  // One datagram more

  lemma UnaskedMore(table: seq<Route>, ds: seq<IPv4Datagram>, n: nat, j: nat, hop: u32)
    requires j < |ds|
    ensures Unasked(table, ds, n, j + 1, hop) <==> Unasked(table, ds, n, j, hop) && !GoesTo(table, ds[j], n, hop)
  {
  }

  lemma OnlyHop(table: seq<Route>, d: IPv4Datagram, i: nat, n: nat, hop: u32)
    requires Leads(table, d, i, n)
    ensures GoesTo(table, d, n, hop) <==> table[i].Hop(d.header.dst) == hop
  {
    forall k: nat | Leads(table, d, k, n) ensures k == i {
      LeadsOnce(table, d, i, n, k, n);
    }
  }

  lemma ActMore(s: Interface, table: seq<Route>, ds: seq<IPv4Datagram>, acts: seq<Act>, a: Act)
    ensures FramesOf(s, table, ds, acts + [a]) == FramesOf(s, table, ds, acts) + [FrameOf(s, table, ds, a)]
    ensures EntriesOf(table, ds, acts + [a]) == EntriesOf(table, ds, acts) + EntryOf(table, ds, a)
  {
    assert (acts + [a])[..|acts|] == acts;
  }

  lemma ExactlyMore(s: Interface, table: seq<Route>, ds: seq<IPv4Datagram>, n: nat, m: nat, acts: seq<Act>, a: Act)
    requires m < |ds| && Exactly(s, table, ds, n, m, acts) && Due(s, table, ds, n, a) && a.j == m
    ensures Exactly(s, table, ds, n, m + 1, acts + [a])
  {
    forall b | Due(s, table, ds, n, b) && b.j == m ensures b == a {
      LeadsOnce(table, ds[m], a.route, n, b.route, n);
    }
  }

  lemma ExactlySame(s: Interface, table: seq<Route>, ds: seq<IPv4Datagram>, n: nat, m: nat, acts: seq<Act>)
    requires m < |ds| && Exactly(s, table, ds, n, m, acts)
    requires forall a :: Due(s, table, ds, n, a) ==> a.j != m
    ensures Exactly(s, table, ds, n, m + 1, acts)
  {
  }

  /** Nothing new to remember, as every hop the datagram may go to was there or asked for. */
  lemma RemembersSame(
    s: Interface, table: seq<Route>, ds: seq<IPv4Datagram>, n: nat, m: nat, t: Interface, t': Interface)
    requires m < |ds| && Remembers(s, table, ds, n, m, t) && t'.cache == t.cache
    requires forall hop: u32 :: GoesTo(table, ds[m], n, hop) ==> hop in s.cache || !Unasked(table, ds, n, m, hop)
    ensures Remembers(s, table, ds, n, m + 1, t')
  {
    var next := m + 1;
    forall hop: u32 ensures RemembersHop(s, table, ds, n, next, t', hop) {
      assert RemembersHop(s, table, ds, n, m, t, hop);
      UnaskedMore(table, ds, n, m, hop);
    }
  }

  lemma RemembersMore(
    s: Interface, table: seq<Route>, ds: seq<IPv4Datagram>, n: nat, m: nat, t: Interface, i: nat, t': Interface)
    requires m < |ds| && Remembers(s, table, ds, n, m, t) && Leads(table, ds[m], i, n)
    requires var hop := table[i].Hop(ds[m].header.dst);
             && hop !in s.cache && Unasked(table, ds, n, m, hop)
             && t'.cache == t.cache[hop := Entry(ETHERNET_BROADCAST, 0)]
    ensures Remembers(s, table, ds, n, m + 1, t')
  {
    var next := m + 1;
    forall hop: u32 ensures RemembersHop(s, table, ds, n, next, t', hop) {
      assert RemembersHop(s, table, ds, n, m, t, hop);
      UnaskedMore(table, ds, n, m, hop);
      OnlyHop(table, ds[m], i, n, hop);
    }
  }

  /** Nothing is done for a datagram that goes nowhere on this link, or waits for an answer. */
  lemma SkipMore(s: Interface, table: seq<Route>, ds: seq<IPv4Datagram>, n: nat, m: nat, acts: seq<Act>, t: Interface)
    requires m < |ds| && DidExactly(s, table, ds, n, m, acts, t)
    requires forall a :: Due(s, table, ds, n, a) ==> a.j != m
    requires forall hop: u32 :: GoesTo(table, ds[m], n, hop) ==> hop in s.cache || !Unasked(table, ds, n, m, hop)
    ensures DidExactly(s, table, ds, n, m + 1, acts, t)
  {
    ExactlySame(s, table, ds, n, m, acts);
    RemembersSame(s, table, ds, n, m, t, t);
  }

  /** The link has done one act more. */
  predicate Acted(s: Interface, table: seq<Route>, ds: seq<IPv4Datagram>, t: Interface, a: Act, t': Interface) {
    && t'.ethernet == t.ethernet && t'.ip == t.ip
    && t'.frames == t.frames + [FrameOf(s, table, ds, a)] && t'.queue == t.queue + EntryOf(table, ds, a)
  }

  lemma DidMore(
    s: Interface, table: seq<Route>, ds: seq<IPv4Datagram>, n: nat, m: nat, acts: seq<Act>, t: Interface,
    a: Act, t': Interface)
    requires m < |ds| && DidExactly(s, table, ds, n, m, acts, t) && Due(s, table, ds, n, a) && a.j == m
    requires Acted(s, table, ds, t, a, t') && Remembers(s, table, ds, n, m + 1, t')
    ensures DidExactly(s, table, ds, n, m + 1, acts + [a], t')
  {
    ExactlyMore(s, table, ds, n, m, acts, a);
    ActMore(s, table, ds, acts, a);
    Regroup(s.frames, FramesOf(s, table, ds, acts), [FrameOf(s, table, ds, a)]);
    Regroup(s.queue, EntriesOf(table, ds, acts), EntryOf(table, ds, a));
  }

  lemma Regroup<T>(a: seq<T>, b: seq<T>, c: seq<T>)
    ensures a + (b + c) == (a + b) + c
  {
  }

  lemma SendMore(
    s: Interface, table: seq<Route>, ds: seq<IPv4Datagram>, n: nat, m: nat, t: Interface, i: nat, hop: u32)
    requires m < |ds| && Remembers(s, table, ds, n, m, t) && Leads(table, ds[m], i, n)
    requires t.ethernet == s.ethernet
    requires hop == table[i].Hop(ds[m].header.dst) && s.Knows(hop) && !t.Throws(Older(ds[m]), hop)
    ensures var t' := t.Send(Older(ds[m]), hop);
            Acted(s, table, ds, t, Act(m, i, false), t') && Remembers(s, table, ds, n, m + 1, t')
  {
    assert RemembersHop(s, table, ds, n, m, t, hop);
    forall h: u32 ensures GoesTo(table, ds[m], n, h) <==> h == hop {
      OnlyHop(table, ds[m], i, n, h);
    }
    RemembersSame(s, table, ds, n, m, t, t.Send(Older(ds[m]), hop));
    assert t.queue + [] == t.queue;
  }

  lemma AskMore(
    s: Interface, table: seq<Route>, ds: seq<IPv4Datagram>, n: nat, m: nat, t: Interface, i: nat, hop: u32)
    requires m < |ds| && Remembers(s, table, ds, n, m, t) && Leads(table, ds[m], i, n)
    requires t.ethernet == s.ethernet && t.ip == s.ip
    requires hop == table[i].Hop(ds[m].header.dst) && hop !in s.cache && Unasked(table, ds, n, m, hop)
    ensures var t' := t.Send(Older(ds[m]), hop);
            Acted(s, table, ds, t, Act(m, i, true), t') && Remembers(s, table, ds, n, m + 1, t')
  {
    assert RemembersHop(s, table, ds, n, m, t, hop);
    RemembersMore(s, table, ds, n, m, t, i, t.Send(Older(ds[m]), hop));
  }

  /** A hop that was asked for, before this queue or in it, is waited for. */
  lemma WaitMore(
    s: Interface, table: seq<Route>, ds: seq<IPv4Datagram>, n: nat, m: nat, acts: seq<Act>, t: Interface,
    i: nat, hop: u32)
    requires m < |ds| && DidExactly(s, table, ds, n, m, acts, t) && Leads(table, ds[m], i, n)
    requires hop == table[i].Hop(ds[m].header.dst) && !s.Knows(hop)
    requires hop in s.cache || !Unasked(table, ds, n, m, hop)
    ensures DidExactly(s, table, ds, n, m + 1, acts, t.Send(Older(ds[m]), hop))
  {
    assert RemembersHop(s, table, ds, n, m, t, hop);
    forall h: u32 ensures GoesTo(table, ds[m], n, h) <==> h == hop {
      OnlyHop(table, ds[m], i, n, h);
    }
    forall a | Due(s, table, ds, n, a) ensures a.j != m {
      if a.j == m {
        LeadsOnce(table, ds[m], i, n, a.route, n);
      }
    }
    SkipMore(s, table, ds, n, m, acts, t);
  }

  /** One datagram more, on the link that its route leads over. */
  lemma LeadsMore(
    s: Interface, table: seq<Route>, ds: seq<IPv4Datagram>, n: nat, m: nat, acts: seq<Act>, t: Interface, i: nat)
    returns (acts': seq<Act>)
    requires m < |ds| && DidExactly(s, table, ds, n, m, acts, t) && Leads(table, ds[m], i, n)
    requires !t.Throws(Older(ds[m]), table[i].Hop(ds[m].header.dst))
    ensures DidExactly(s, table, ds, n, m + 1, acts', t.Send(Older(ds[m]), table[i].Hop(ds[m].header.dst)))
  {
    var hop := table[i].Hop(ds[m].header.dst);
    if s.Knows(hop) {
      SendMore(s, table, ds, n, m, t, i, hop);
      DidMore(s, table, ds, n, m, acts, t, Act(m, i, false), t.Send(Older(ds[m]), hop));
      acts' := acts + [Act(m, i, false)];
    } else if hop !in s.cache && Unasked(table, ds, n, m, hop) {
      AskMore(s, table, ds, n, m, t, i, hop);
      DidMore(s, table, ds, n, m, acts, t, Act(m, i, true), t.Send(Older(ds[m]), hop));
      acts' := acts + [Act(m, i, true)];
    } else {
      WaitMore(s, table, ds, n, m, acts, t, i, hop);
      acts' := acts;
    }
  }

  /** One datagram more, on any link. */
  lemma OneMore(
    links: seq<Interface>, s: Interface, table: seq<Route>, ds: seq<IPv4Datagram>, n: nat, m: nat, acts: seq<Act>)
    returns (acts': seq<Act>)
    requires m < |ds| && n < |links| && DidExactly(s, table, ds, n, m, acts, links[n])
    requires !RouteOne(links, table, ds[m]).thrown
    ensures DidExactly(s, table, ds, n, m + 1, acts', RouteOne(links, table, ds[m]).links[n])
  {
    var d := ds[m];
    var r := Scan(table, d.header.dst);
    ScanIsLongest(table, d.header.dst);
    if d.header.ttl > 1 && r.Some? && table[r.value].interfaceNum == n {
      acts' := LeadsMore(s, table, ds, n, m, acts, links[n], r.value);
    } else {
      forall i: nat ensures !Leads(table, d, i, n) {
        LongestIsUnique(table, d.header.dst, i);
      }
      SkipMore(s, table, ds, n, m, acts, links[n]);
      acts' := acts;
    }
  }

  /** The first `m` datagrams, of a queue that is routed without a throw. */
  lemma {:induction false} RoutedTo(links: seq<Interface>, table: seq<Route>, ds: seq<IPv4Datagram>, n: nat, m: nat)
    returns (acts: seq<Act>)
    requires n < |links| && m <= |ds| && !RouteAll(links, table, ds[..m]).thrown
    ensures DidExactly(links[n], table, ds, n, m, acts, RouteAll(links, table, ds[..m]).links[n])
  {
    if m == 0 {
      acts := [];
    } else {
      assert ds[..m] == ds[..m - 1] + [ds[m - 1]];
      RouteAllConcat(links, table, ds[..m - 1], [ds[m - 1]]);
      var p := RouteAll(links, table, ds[..m - 1]);
      RouteLast(p.links, table, ds[m - 1]);
      acts := RoutedTo(links, table, ds, n, m - 1);
      acts := OneMore(p.links, links[n], table, ds, n, m - 1, acts);
    }
  }

  lemma RouteLast(links: seq<Interface>, table: seq<Route>, d: IPv4Datagram)
    ensures var o, p := RouteOne(links, table, d), RouteAll(links, table, [d]);
            p.thrown == o.thrown && p.links == o.links
  {
  }

  /** Routing a queue does on every link exactly what is to be done there, in the order of the
      queue: each datagram whose hop the link knows goes out in one frame, the first for each
      unknown hop is queued behind one request, and for the others nothing is done. */
  lemma RoutedExactly(links: seq<Interface>, table: seq<Route>, ds: seq<IPv4Datagram>, n: nat)
    returns (acts: seq<Act>)
    requires n < |links| && !RouteAll(links, table, ds).thrown
    ensures DidExactly(links[n], table, ds, n, |ds|, acts, RouteAll(links, table, ds).links[n])
  {
    assert ds[..|ds|] == ds;
    acts := RoutedTo(links, table, ds, n, |ds|);
  }

  /** A queue whose routing throws was routed up to the datagram that threw, which did nothing. */
  lemma {:induction false} ThrowStops(links: seq<Interface>, table: seq<Route>, ds: seq<IPv4Datagram>)
    requires RouteAll(links, table, ds).thrown
    ensures StopsAt(links, table, ds, RouteAll(links, table, ds))
    decreases |ds|
  {
    var o := RouteOne(links, table, ds[0]);
    if o.thrown {
      ThrowKeeps(links, table, ds[0]);
      assert ds[..0] == [];
    } else {
      ThrowStops(o.links, table, ds[1..]);
      StopsLater(links, table, ds[0], ds[1..], RouteAll(o.links, table, ds[1..]));
      assert ds == [ds[0]] + ds[1..];
    }
  }

  /** What was done before the throw, what is left, and that the datagram at the front throws. */
  ghost predicate StopsAt(links: seq<Interface>, table: seq<Route>, ds: seq<IPv4Datagram>, p: Progress) {
    && 0 < |p.left| <= |ds|
    && var m := |ds| - |p.left|;
    && p.left == [Older(ds[m])] + ds[m + 1..]
    && RouteAll(links, table, ds[..m]) == Progress(p.links, false, [])
    && RouteOne(p.links, table, ds[m]) == Outcome(p.links, true)
  }

  lemma StopsLater(links: seq<Interface>, table: seq<Route>, d: IPv4Datagram, rest: seq<IPv4Datagram>, p: Progress)
    requires !RouteOne(links, table, d).thrown && StopsAt(RouteOne(links, table, d).links, table, rest, p)
    ensures StopsAt(links, table, [d] + rest, p)
  {
    var k := |rest| - |p.left|;
    var all := [d] + rest;
    assert all[k + 2..] == rest[k + 1..] && all[k + 1] == rest[k];
    RouteFirst(links, table, d, rest[..k]);
    assert all[..k + 1] == [d] + rest[..k];
  }

  lemma RouteFirst(links: seq<Interface>, table: seq<Route>, d: IPv4Datagram, rest: seq<IPv4Datagram>)
    requires !RouteOne(links, table, d).thrown
    ensures RouteAll(links, table, [d] + rest) == RouteAll(RouteOne(links, table, d).links, table, rest)
  {
    assert ([d] + rest)[1..] == rest;
  }

  lemma ThrowKeeps(links: seq<Interface>, table: seq<Route>, d: IPv4Datagram)
    requires RouteOne(links, table, d).thrown
    ensures RouteOne(links, table, d).links == links
  {
  }

  /** One frame for each act. */
  lemma {:induction false} FramesAt(s: Interface, table: seq<Route>, ds: seq<IPv4Datagram>, acts: seq<Act>, x: nat)
    ensures |FramesOf(s, table, ds, acts)| == |acts|
    ensures x < |acts| ==> FramesOf(s, table, ds, acts)[x] == FrameOf(s, table, ds, acts[x])
  {
    if acts != [] {
      FramesAt(s, table, ds, acts[..|acts| - 1], x);
    }
  }

  lemma {:induction false} NoEntries(table: seq<Route>, ds: seq<IPv4Datagram>, acts: seq<Act>)
    requires forall x :: 0 <= x < |acts| ==> !acts[x].asked
    ensures EntriesOf(table, ds, acts) == []
  {
    if acts != [] {
      NoEntries(table, ds, acts[..|acts| - 1]);
    }
  }

  predicate Sent(s: Interface, table: seq<Route>, ds: seq<IPv4Datagram>, a: Act) {
    !a.asked && a.j < |ds| && s.Knows(HopOf(table, ds, a)) && Sendable(Older(ds[a.j]))
  }

  /** Every hop over link `n` is known, and the datagrams for it serialize. */
  ghost predicate AllKnown(s: Interface, table: seq<Route>, ds: seq<IPv4Datagram>, n: nat) {
    forall j, i: nat :: 0 <= j < |ds| && Leads(table, ds[j], i, n) ==>
      s.Knows(table[i].Hop(ds[j].header.dst)) && Sendable(Older(ds[j]))
  }

  lemma AllKnownDue(s: Interface, table: seq<Route>, ds: seq<IPv4Datagram>, n: nat, a: Act)
    requires AllKnown(s, table, ds, n)
    ensures Due(s, table, ds, n, a) <==> a.j < |ds| && Leads(table, ds[a.j], a.route, n) && !a.asked
    ensures Due(s, table, ds, n, a) ==> Sent(s, table, ds, a)
  {
  }

  /** With every hop known, the frames on a link are exactly those of the datagrams that it is
      the way for, each once and in order, and nothing is queued. */
  lemma KnownSent(links: seq<Interface>, table: seq<Route>, ds: seq<IPv4Datagram>, n: nat) returns (acts: seq<Act>)
    requires n < |links| && !RouteAll(links, table, ds).thrown && AllKnown(links[n], table, ds, n)
    ensures InOrder(acts)
    ensures forall a :: a in acts <==> a.j < |ds| && Leads(table, ds[a.j], a.route, n) && !a.asked
    ensures SentOnly(links[n], table, ds, acts, RouteAll(links, table, ds).links[n])
  {
    acts := RoutedExactly(links, table, ds, n);
    KnownDid(links[n], table, ds, n, acts, RouteAll(links, table, ds).links[n]);
  }

  /** The link has sent the datagrams in frames of their own, in order, and queued nothing. */
  predicate SentOnly(s: Interface, table: seq<Route>, ds: seq<IPv4Datagram>, acts: seq<Act>, t: Interface) {
    && s.frames <= t.frames && t.queue == s.queue
    && AreDataFrames(s, table, ds, acts, t.frames[|s.frames|..])
  }

  lemma KnownDid(
    s: Interface, table: seq<Route>, ds: seq<IPv4Datagram>, n: nat, acts: seq<Act>, t: Interface)
    requires AllKnown(s, table, ds, n) && DidExactly(s, table, ds, n, |ds|, acts, t)
    ensures forall a :: a in acts <==> a.j < |ds| && Leads(table, ds[a.j], a.route, n) && !a.asked
    ensures SentOnly(s, table, ds, acts, t)
  {
    KnownActs(s, table, ds, n, acts);
    NoEntries(table, ds, acts);
    assert s.queue + [] == s.queue;
    SentFrames(s, table, ds, acts);
    assert t.frames[|s.frames|..] == FramesOf(s, table, ds, acts);
  }

  lemma KnownActs(s: Interface, table: seq<Route>, ds: seq<IPv4Datagram>, n: nat, acts: seq<Act>)
    requires AllKnown(s, table, ds, n) && Exactly(s, table, ds, n, |ds|, acts)
    ensures forall a :: a in acts <==> a.j < |ds| && Leads(table, ds[a.j], a.route, n) && !a.asked
    ensures forall x :: 0 <= x < |acts| ==> Sent(s, table, ds, acts[x]) && acts[x].route < |table|
  {
    forall a ensures Due(s, table, ds, n, a) <==> a.j < |ds| && Leads(table, ds[a.j], a.route, n) && !a.asked {
      AllKnownDue(s, table, ds, n, a);
    }
    forall x | 0 <= x < |acts| ensures Sent(s, table, ds, acts[x]) && acts[x].route < |table| {
      assert acts[x] in acts;
      AllKnownDue(s, table, ds, n, acts[x]);
    }
  }

  lemma SentFrames(s: Interface, table: seq<Route>, ds: seq<IPv4Datagram>, acts: seq<Act>)
    requires forall x :: 0 <= x < |acts| ==> Sent(s, table, ds, acts[x]) && acts[x].route < |table|
    ensures AreDataFrames(s, table, ds, acts, FramesOf(s, table, ds, acts))
  {
    FramesAt(s, table, ds, acts, 0);
    forall x | 0 <= x < |acts| ensures IsDataFrame(s, table, ds, acts[x], FramesOf(s, table, ds, acts)[x]) {
      FramesAt(s, table, ds, acts, x);
      SentIs(s, table, ds, acts[x], FrameOf(s, table, ds, acts[x]));
    }
  }

  lemma SentIs(s: Interface, table: seq<Route>, ds: seq<IPv4Datagram>, a: Act, f: EthernetFrame)
    requires Sent(s, table, ds, a) && a.route < |table| && FrameOf(s, table, ds, a) == f
    ensures IsDataFrame(s, table, ds, a, f)
  {
  }

  /** The frame carries the datagram, one hop older, to the address known for its hop. */
  predicate IsDataFrame(s: Interface, table: seq<Route>, ds: seq<IPv4Datagram>, a: Act, f: EthernetFrame) {
    && a.j < |ds| && a.route < |table|
    && var hop := table[a.route].Hop(ds[a.j].header.dst);
    && hop in s.cache && Sendable(Older(ds[a.j]))
    && f == EthernetFrame(s.cache[hop].address, s.ethernet, TYPE_IPv4, DatagramBytes(Older(ds[a.j])))
  }

  predicate AreDataFrames(
    s: Interface, table: seq<Route>, ds: seq<IPv4Datagram>, acts: seq<Act>, fs: seq<EthernetFrame>)
  {
    |fs| == |acts| && forall x :: 0 <= x < |acts| ==> IsDataFrame(s, table, ds, acts[x], fs[x])
  }

  // All links together

  /** The frames sent and the datagrams queued so far, over all links. */
  function Size(links: seq<Interface>): nat {
    if links == [] then 0 else Size(links[1..]) + |links[0].frames| + |links[0].queue|
  }

  lemma {:induction false} SizeUpdate(links: seq<Interface>, n: nat, t: Interface)
    requires n < |links|
    ensures Size(links[n := t]) + |links[n].frames| + |links[n].queue| == Size(links) + |t.frames| + |t.queue|
    decreases |links|
  {
    if n == 0 {
      assert links[0 := t][1..] == links[1..];
    } else {
      SizeUpdate(links[1..], n - 1, t);
      assert links[n := t][1..] == links[1..][n - 1 := t];
    }
  }

  /** What a datagram may cost: nothing if it has expired or has no route, two if its hop has to
      be asked for, and one otherwise. */
  ghost function Cost(links: seq<Interface>, table: seq<Route>, d: IPv4Datagram): nat {
    if d.header.ttl <= 1 || NoRoute(table, d.header.dst) then 0
    else if exists n: nat, hop: u32 :: n < |links| && GoesTo(table, d, n, hop) && hop !in links[n].cache then 2
    else 1
  }

  ghost function Costs(links: seq<Interface>, table: seq<Route>, ds: seq<IPv4Datagram>): nat
    decreases |ds|
  {
    if ds == [] then 0 else Cost(links, table, ds[0]) + Costs(RouteOne(links, table, ds[0]).links, table, ds[1..])
  }

  lemma OneCosts(links: seq<Interface>, table: seq<Route>, d: IPv4Datagram)
    ensures Size(links) <= Size(RouteOne(links, table, d).links) <= Size(links) + Cost(links, table, d)
  {
    ScanIsLongest(table, d.header.dst);
    var r := Scan(table, d.header.dst);
    if d.header.ttl > 1 && r.Some? && table[r.value].interfaceNum < |links| {
      var n, hop := table[r.value].interfaceNum, table[r.value].Hop(d.header.dst);
      assert Leads(table, d, r.value, n);
      OnlyHop(table, d, r.value, n, hop);
      SizeUpdate(links, n, links[n].Send(Older(d), hop));
    }
  }

  /** Routing a queue adds no more frames and entries than its datagrams cost. */
  lemma {:induction false} AllCosts(links: seq<Interface>, table: seq<Route>, ds: seq<IPv4Datagram>)
    ensures Size(links) <= Size(RouteAll(links, table, ds).links) <= Size(links) + Costs(links, table, ds)
    decreases |ds|
  {
    if ds != [] {
      OneCosts(links, table, ds[0]);
      AllCosts(RouteOne(links, table, ds[0]).links, table, ds[1..]);
    }
  }
}
