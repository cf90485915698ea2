/** A longest-prefix-match router (libsponge/router.cc, router.hh). */
module Routers {
  import opened Results
  import opened Words
  import opened Prefixes
  import opened ARP
  import opened NetworkInterfaces
  import opened IPv4

  /** A prefix length that the shift by 32 minus it allows. */
  type PrefixLength = x: int | 0 <= x <= 32

  datatype Route = Rule(prefix: u32, length: PrefixLength, nextHop: Option<u32>, interfaceNum: nat)
  {
    predicate Matches(dst: u32) {
      And(dst, PrefixMask(length), 32) == prefix
    }

    /** A directly attached network has no next hop but the destination. */
    function Hop(dst: u32): u32 {
      match nextHop
      case Some(h) => h
      case None => dst
    }
  }

  /** The scan of the first `n` routes: a later one replaces the best so far only if it is longer. */
  function ScanTo(table: seq<Route>, n: nat, dst: u32): (r: Option<nat>)
    requires n <= |table|
    ensures r.Some? ==> r.value < n
  {
    if n == 0 then None
    else
      var best := ScanTo(table, n - 1, dst);
      if table[n - 1].Matches(dst) && (best.None? || table[n - 1].length > table[best.value].length)
      then Some(n - 1) else best
  }

  function Scan(table: seq<Route>, dst: u32): (r: Option<nat>)
    ensures r.Some? ==> r.value < |table|
  {
    ScanTo(table, |table|, dst)
  }

  predicate HasPrefix(r: Route, dst: u32) {
    IsPrefix(r.prefix, r.length, dst)
  }

  /** Of the first `n` routes, `i` is the first of the longest among those whose prefix is one
      of `dst`. */
  ghost predicate IsLongestTo(table: seq<Route>, n: nat, dst: u32, i: nat) {
    && i < n <= |table| && HasPrefix(table[i], dst)
    && forall j :: 0 <= j < n && HasPrefix(table[j], dst) ==>
         table[j].length < table[i].length || (table[j].length == table[i].length && i <= j)
  }

  ghost predicate NoRouteTo(table: seq<Route>, n: nat, dst: u32)
    requires n <= |table|
  {
    forall j :: 0 <= j < n ==> !HasPrefix(table[j], dst)
  }

  ghost predicate IsLongest(table: seq<Route>, dst: u32, i: nat) {
    IsLongestTo(table, |table|, dst, i)
  }

  ghost predicate NoRoute(table: seq<Route>, dst: u32) {
    NoRouteTo(table, |table|, dst)
  }

  lemma {:induction false} ScanToIsLongest(table: seq<Route>, n: nat, dst: u32)
    requires n <= |table|
    ensures ScanTo(table, n, dst).None? ==> NoRouteTo(table, n, dst)
    ensures ScanTo(table, n, dst).Some? ==> IsLongestTo(table, n, dst, ScanTo(table, n, dst).value)
  {
    if n > 0 {
      ScanToIsLongest(table, n - 1, dst);
      MaskIsPrefix(table[n - 1].prefix, table[n - 1].length, dst);
      LongestMore(table, n, dst, ScanTo(table, n - 1, dst));
    }
  }

  /** One route more: it is the longest now, or the one before still is. */
  lemma LongestMore(table: seq<Route>, n: nat, dst: u32, best: Option<nat>)
    requires 0 < n <= |table|
    requires if best.None? then NoRouteTo(table, n - 1, dst) else IsLongestTo(table, n - 1, dst, best.value)
    ensures if HasPrefix(table[n - 1], dst) && (best.None? || table[n - 1].length > table[best.value].length)
            then IsLongestTo(table, n, dst, n - 1)
            else if best.None? then NoRouteTo(table, n, dst) else IsLongestTo(table, n, dst, best.value)
  {
  }

  /** The mask-and-scan loop finds the longest prefix match, the first added on a tie. */
  lemma ScanIsLongest(table: seq<Route>, dst: u32)
    ensures Scan(table, dst).None? ==> NoRoute(table, dst)
    ensures Scan(table, dst).Some? ==> IsLongest(table, dst, Scan(table, dst).value)
  {
    ScanToIsLongest(table, |table|, dst);
  }

  /** There is only one such route, so the scan finds a given one exactly when it is it. */
  lemma LongestIsUnique(table: seq<Route>, dst: u32, i: nat)
    ensures IsLongest(table, dst, i) <==> Scan(table, dst) == Some(i)
    ensures NoRoute(table, dst) <==> Scan(table, dst) == None
  {
    ScanIsLongest(table, dst);
  }

  /** The datagram as it leaves: one hop older. */
  function Older(d: IPv4Datagram): IPv4Datagram {
    if d.header.ttl <= 1 then d else d.(header := d.header.(ttl := d.header.ttl - 1))
  }

  datatype Outcome = Outcome(links: seq<Interface>, thrown: bool)

  /** Routing one datagram: an expired one or one without a route is dropped; a route over
      an interface that does not exist throws. */
  function RouteOne(links: seq<Interface>, table: seq<Route>, d: IPv4Datagram): (o: Outcome)
    ensures |o.links| == |links|
  {
    if d.header.ttl <= 1 then Outcome(links, false)
    else match Scan(table, d.header.dst)
      case None => Outcome(links, false)
      case Some(i) => Forward(links, table[i], Older(d))
  }

  function Forward(links: seq<Interface>, r: Route, d: IPv4Datagram): (o: Outcome)
    ensures |o.links| == |links|
  {
    var n, hop := r.interfaceNum, r.Hop(d.header.dst);
    if n >= |links| then Outcome(links, true)
    else Outcome(links[n := links[n].Send(d, hop)], links[n].Throws(d, hop))
  }

  /** What routing a queue leaves: the links, whether it threw, and the datagrams not handled. */
  datatype Progress = Progress(links: seq<Interface>, thrown: bool, left: seq<IPv4Datagram>)

  /** The datagram that throws stays at the front, already aged. */
  function RouteAll(links: seq<Interface>, table: seq<Route>, ds: seq<IPv4Datagram>): (p: Progress)
    ensures |p.links| == |links| && (!p.thrown ==> p.left == [])
    decreases |ds|
  {
    if ds == [] then Progress(links, false, [])
    else
      var o := RouteOne(links, table, ds[0]);
      if o.thrown then Progress(o.links, true, [Older(ds[0])] + ds[1..]) else RouteAll(o.links, table, ds[1..])
  }

  /** The datagrams of all interfaces, in the order in which they are routed. */
  function Flatten(queues: seq<seq<IPv4Datagram>>): seq<IPv4Datagram> {
    if queues == [] then [] else queues[0] + Flatten(queues[1..])
  }

  lemma {:induction false} RouteAllConcat(
    links: seq<Interface>, table: seq<Route>, a: seq<IPv4Datagram>, b: seq<IPv4Datagram>)
    ensures var p := RouteAll(links, table, a);
            RouteAll(links, table, a + b) ==
            if p.thrown then p.(left := p.left + b) else RouteAll(p.links, table, b)
    decreases |a|
  {
    if a == [] {
      assert a + b == b;
    } else {
      var o := RouteOne(links, table, a[0]);
      assert (a + b)[1..] == a[1..] + b && (a + b)[0] == a[0];
      if o.thrown {
        assert [Older(a[0])] + (a[1..] + b) == ([Older(a[0])] + a[1..]) + b;
      } else {
        RouteAllConcat(o.links, table, a[1..], b);
      }
    }
  }

  class Router {
    var links: seq<Interface>
    var inbound: seq<seq<IPv4Datagram>>
    var table: seq<Route>

    ghost predicate Valid()
      reads this
    {
      |links| == |inbound|
    }

    constructor ()
      ensures Valid() && links == [] && inbound == [] && table == []
    {
      links, inbound, table := [], [], [];
    }

    method AddInterface(link: Interface) returns (n: nat)
      requires Valid()
      modifies this
      ensures Valid() && table == old(table)
      ensures n == |old(links)| && links == old(links) + [link] && inbound == old(inbound) + [[]]
    {
      links, inbound := links + [link], inbound + [[]];
      n := |links| - 1;
    }

    method AddRoute(prefix: u32, length: PrefixLength, nextHop: Option<u32>, interfaceNum: nat)
      requires Valid()
      modifies this`table
      ensures table == old(table) + [Rule(prefix, length, nextHop, interfaceNum)]
    {
      table := table + [Rule(prefix, length, nextHop, interfaceNum)];
    }

    /** An interface keeps the datagrams it receives until they are routed. Releasing one that
        does not serialize throws. */
    method RecvFrame(n: nat, frame: EthernetFrame) returns (thrown: bool)
      requires Valid() && n < |links|
      modifies this
      ensures Valid() && table == old(table)
      ensures links == old(links)[n := old(links)[n].Receive(frame)]
      ensures inbound == old(inbound)[n := old(inbound)[n] +
              (match old(links)[n].Datagram(frame) case None => [] case Some(d) => [d])]
      ensures thrown == old(links)[n].ReceiveThrows(frame)
    {
      thrown := links[n].ReceiveThrows(frame);
      var d := links[n].Datagram(frame);
      if d.Some? {
        inbound := inbound[n := inbound[n] + [d.value]];
      } else {
        assert inbound[n] + [] == inbound[n];
      }
      links := links[n := links[n].Receive(frame)];
    }

    /** The loop over the routing table. */
    method FindRoute(dst: u32) returns (best: Option<nat>)
      ensures best == Scan(table, dst)
    {
      best := None;
      var longest: int := -1;
      var i := 0;
      while i < |table|
        invariant 0 <= i <= |table|
        invariant best == ScanTo(table, i, dst)
        invariant longest == if best.None? then -1 else table[best.value].length
      {
        var length := table[i].length;
        var mask := if length == 0 then 0 else Mask(32 - length);
        if And(dst, mask, 32) == table[i].prefix {
          if length > longest {
            best, longest := Some(i), length;
          }
        }
        i := i + 1;
      }
    }

    method RouteOneDatagram(d: IPv4Datagram) returns (after: IPv4Datagram, thrown: bool)
      requires Valid()
      modifies this`links
      ensures Valid() && after == Older(d)
      ensures Outcome(links, thrown) == RouteOne(old(links), table, d)
    {
      if d.header.ttl <= 1 {
        return d, false;
      }
      after := d.(header := d.header.(ttl := d.header.ttl - 1));
      var best := FindRoute(after.header.dst);
      if best.None? {
        return after, false;
      }
      var route := table[best.value];
      var n := route.interfaceNum;
      if n >= |links| {
        return after, true;
      }
      var hop := if route.nextHop.Some? then route.nextHop.value else after.header.dst;
      thrown := links[n].Throws(after, hop);
      links := links[n := links[n].Send(after, hop)];
    }

    /** Routes everything that interface `i` has received. */
    method RouteQueue(i: nat) returns (thrown: bool)
      requires Valid() && i < |inbound|
      modifies this`links, this`inbound
      ensures Valid()
      ensures var p := RouteAll(old(links), table, old(inbound)[i]);
              links == p.links && thrown == p.thrown && inbound == old(inbound)[i := p.left]
    {
      while inbound[i] != []
        invariant Valid() && |inbound| == |old(inbound)|
        invariant inbound == old(inbound)[i := inbound[i]]
        invariant RouteAll(links, table, inbound[i]) == RouteAll(old(links), table, old(inbound)[i])
        decreases |inbound[i]|
      {
        var front := inbound[i][0];
        var after;
        after, thrown := RouteOneDatagram(front);
        if thrown {
          inbound := inbound[i := [after] + inbound[i][1..]];
          return;
        }
        inbound := inbound[i := inbound[i][1..]];
      }
      thrown := false;
    }

    /** Routes everything that has been received. */
    method Route() returns (thrown: bool)
      requires Valid()
      modifies this`links, this`inbound
      ensures Valid()
      ensures Progress(links, thrown, Flatten(inbound)) == RouteAll(old(links), table, Flatten(old(inbound)))
      ensures !thrown ==> Emptied(inbound)
    {
      ghost var goal := RouteAll(links, table, Flatten(inbound));
      assert inbound[0..] == inbound;
      var i := 0;
      thrown := false;
      while i < |inbound|
        invariant 0 <= i <= |inbound| && Valid() && !thrown
        invariant Emptied(inbound[..i]) && RouteAll(links, table, Flatten(inbound[i..])) == goal
      {
        thrown := RouteNext(i, goal);
        if thrown {
          return;
        }
        i := i + 1;
      }
      AllEmptied(inbound, i);
    }

    /** One turn of the loop over the interfaces. */
    method RouteNext(i: nat, ghost goal: Progress) returns (thrown: bool)
      requires Valid() && i < |inbound| && Emptied(inbound[..i])
      requires RouteAll(links, table, Flatten(inbound[i..])) == goal
      modifies this`links, this`inbound
      ensures Valid() && |inbound| == |old(inbound)|
      ensures thrown ==> Progress(links, true, Flatten(inbound)) == goal
      ensures !thrown ==> Emptied(inbound[..i + 1]) && RouteAll(links, table, Flatten(inbound[i + 1..])) == goal
    {
      ghost var left := RouteAll(links, table, inbound[i]).left;
      NextQueue(links, table, inbound, i);
      Replaced(inbound, i, left);
      thrown := RouteQueue(i);
    }
  }

  ghost predicate Emptied(queues: seq<seq<IPv4Datagram>>) {
    forall i :: 0 <= i < |queues| ==> queues[i] == []
  }

  lemma AllEmptied(queues: seq<seq<IPv4Datagram>>, i: nat)
    requires i == |queues| && Emptied(queues[..i])
    ensures Emptied(queues) && Flatten(queues) == Flatten(queues[i..]) == []
  {
    assert queues[..i] == queues && queues[i..] == [];
    FlattenEmptied(queues, i);
  }

  lemma NextQueue(links: seq<Interface>, table: seq<Route>, queues: seq<seq<IPv4Datagram>>, i: nat)
    requires i < |queues|
    ensures var p := RouteAll(links, table, queues[i]);
            RouteAll(links, table, Flatten(queues[i..])) ==
            if p.thrown then p.(left := p.left + Flatten(queues[i + 1..]))
            else RouteAll(p.links, table, Flatten(queues[i + 1..]))
  {
    assert queues[i..][1..] == queues[i + 1..];
    RouteAllConcat(links, table, queues[i], Flatten(queues[i + 1..]));
  }

  lemma Replaced(queues: seq<seq<IPv4Datagram>>, i: nat, left: seq<IPv4Datagram>)
    requires i < |queues| && Emptied(queues[..i])
    ensures Flatten(queues[i := left]) == left + Flatten(queues[i + 1..])
    ensures queues[i := left][i + 1..] == queues[i + 1..]
    ensures left == [] ==> Emptied(queues[i := left][..i + 1])
  {
    var r := queues[i := left];
    assert r[..i] == queues[..i] && r[..i + 1] == queues[..i] + [left];
    FlattenEmptied(r, i);
    assert r[i..][1..] == queues[i + 1..];
  }

  lemma {:induction false} FlattenEmptied(queues: seq<seq<IPv4Datagram>>, i: nat)
    requires i <= |queues| && Emptied(queues[..i])
    ensures Flatten(queues) == Flatten(queues[i..])
    decreases i
  {
    if i > 0 {
      assert queues[..i][0] == [];
      assert queues[1..][..i - 1] == queues[..i][1..];
      FlattenEmptied(queues[1..], i - 1);
      assert queues[1..][i - 1..] == queues[i..];
    } else {
      assert queues[0..] == queues;
    }
  }
}
