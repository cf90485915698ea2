/** Whole runs of a network interface: its cache against a timestamped log, and its queue
    against the datagrams that went through it. */
module InterfaceRuns {
  import opened Results
  import opened Words
  import opened Parsers
  import opened ARP
  import opened NetworkInterfaces
  import IPv4

  /** At `time`, `hop` was asked for (broadcast) or learned to be at `address`. */
  datatype Note = Note(time: nat, hop: u32, address: EthernetAddress)

  datatype Call = Send(d: IPv4.IPv4Datagram, hop: u32) | Receive(frame: EthernetFrame) | Tick(ms: nat)

  /** What a message releases from the queue. */
  function Released(s: Interface, m: ARPMessage): seq<Pending> {
    var i := FirstFor(s.queue, m.senderIP);
    if m.opcode == OPCODE_REPLY && i < |s.queue| && !s.Learn(m).FlushThrows(m.senderIP) then [s.queue[i]] else []
  }

  /** A frame that was sent: a request, an answer, or a datagram, which may have waited. */
  datatype Sent = Request(hop: u32) | Answer(m: ARPMessage) | Data(p: Pending, address: EthernetAddress, waited: bool)

  /** What a message makes an interface send: an answer, or the datagram that it releases,
      unless the reply names the broadcast address. */
  function Replies(s: Interface, m: ARPMessage): seq<Sent> {
    if m.opcode == OPCODE_REQUEST then if s.ip == m.targetIP then [Answer(m)] else []
    else if Released(s, m) != [] && m.senderEthernet != ETHERNET_BROADCAST
    then [Data(Released(s, m)[0], m.senderEthernet, true)] else []
  }

  /** What a message releases without its being sent. */
  function Lost(s: Interface, m: ARPMessage): seq<Pending> {
    if m.senderEthernet == ETHERNET_BROADCAST then Released(s, m) else []
  }

  /** An interface, the clock, and what has happened: the notes, the requests among them, the
      datagrams that were queued, those that were released from the queue, those of them that
      were lost, and the frames sent. */
  datatype History = History(
    s: Interface, now: nat, log: seq<Note>, requests: seq<Note>,
    queued: seq<Pending>, released: seq<Pending>, lost: seq<Pending>, sent: seq<Sent>)
  {
    function Ask(d: IPv4.IPv4Datagram, hop: u32): History {
      var n := Note(now, hop, ETHERNET_BROADCAST);
      this.(s := s.Send(d, hop), log := log + [n], requests := requests + [n],
            queued := queued + [Pending(d, hop)], sent := sent + [Request(hop)])
    }

    /** Sending to a hop that is cached. */
    function Pass(d: IPv4.IPv4Datagram, hop: u32): History
      requires hop in s.cache
    {
      this.(s := s.Send(d, hop),
            sent := sent + (if s.Knows(hop) && Sendable(d)
                            then [Data(Pending(d, hop), s.cache[hop].address, false)] else []))
    }

    function Hear(m: ARPMessage): History {
      this.(s := s.TakeARP(m), log := log + [Note(now, m.senderIP, m.senderEthernet)],
            released := released + Released(s, m), lost := lost + Lost(s, m), sent := sent + Replies(s, m))
    }

    function Step(call: Call): History {
      match call
      case Send(d, hop) => if hop in s.cache then Pass(d, hop) else Ask(d, hop)
      case Receive(frame) => (match s.Message(frame) case None => this case Some(m) => Hear(m))
      case Tick(ms) => this.(s := s.Tick(ms), now := now + ms)
    }
  }

  function Start(ethernet: EthernetAddress, ip: u32): History {
    History(NewInterface(ethernet, ip), 0, [], [], [], [], [], [])
  }

  function Run(h: History, calls: seq<Call>): History {
    if calls == [] then h else Run(h, calls[..|calls| - 1]).Step(calls[|calls| - 1])
  }

  /** The history's interface is the interface. */
  lemma StepIsInterface(h: History, call: Call)
    ensures h.Step(call).s == match call
                              case Send(d, hop) => h.s.Send(d, hop)
                              case Receive(frame) => h.s.Receive(frame)
                              case Tick(ms) => h.s.Tick(ms)
  {
  }

  /** The last note about `hop`. */
  function Last(log: seq<Note>, hop: u32): (r: Option<Note>)
    ensures r.Some? ==> r.value.hop == hop && r.value in log
  {
    if log == [] then None
    else if log[|log| - 1].hop == hop then Some(log[|log| - 1])
    else Last(log[..|log| - 1], hop)
  }

  lemma LastAppend(log: seq<Note>, n: Note, hop: u32)
    ensures Last(log + [n], hop) == if n.hop == hop then Some(n) else Last(log, hop)
  {
    assert (log + [n])[..|log|] == log;
  }

  /** What the log says the cache holds for `hop`: the last note, while it lives. */
  function Cached(log: seq<Note>, now: int, hop: u32): Option<Entry> {
    match Last(log, hop)
    case None => None
    case Some(n) =>
      if 0 <= now - n.time < Life(n.address) then Some(Entry(n.address, now - n.time)) else None
  }

  function Lookup(cache: map<u32, Entry>, hop: u32): Option<Entry> {
    if hop in cache then Some(cache[hop]) else None
  }

  predicate AgreesAt(h: History, hop: u32) {
    Lookup(h.s.cache, hop) == Cached(h.log, h.now, hop)
  }

  /** The cache holds what the log says, and the log is not from the future. */
  ghost predicate Agrees(h: History) {
    (forall hop :: AgreesAt(h, hop)) && Past(h.log, h.now)
  }

  ghost predicate Past(log: seq<Note>, now: nat) {
    forall n :: n in log ==> n.time <= now
  }

  /** Two requests for one hop are a request's life apart, and the log remembers the last. */
  ghost predicate Spaced(h: History) {
    Apart(h.requests) && forall i :: 0 <= i < |h.requests| ==> Remembered(h.log, h.requests[i])
  }

  ghost predicate Apart(rs: seq<Note>) {
    forall i, j :: 0 <= i < j < |rs| && rs[i].hop == rs[j].hop ==> rs[i].time + REQUEST_LIFE <= rs[j].time
  }

  lemma ApartMore(rs: seq<Note>, n: Note)
    requires Apart(rs)
    requires forall i :: 0 <= i < |rs| && rs[i].hop == n.hop ==> rs[i].time + REQUEST_LIFE <= n.time
    ensures Apart(rs + [n])
  {
  }

  predicate Remembered(log: seq<Note>, r: Note) {
    Last(log, r.hop).Some? && r.time <= Last(log, r.hop).value.time
  }

  /** The datagrams in `q` for one hop, in order. */
  function For(q: seq<Pending>, hop: u32): seq<IPv4.IPv4Datagram> {
    if q == [] then []
    else For(q[..|q| - 1], hop) + (if q[|q| - 1].hop == hop then [q[|q| - 1].datagram] else [])
  }

  /** Per hop, what was queued is what was released, in that order, and then what waits. */
  ghost predicate Conserved(h: History) {
    forall hop :: ConservedAt(h, hop)
  }

  predicate ConservedAt(h: History, hop: u32) {
    For(h.queued, hop) == For(h.released, hop) + For(h.s.queue, hop)
  }

  /** Writing down and caching a note are the same thing. */
  lemma NoteAt(cache: map<u32, Entry>, log: seq<Note>, n: Note, k: u32)
    requires Lookup(cache, k) == Cached(log, n.time, k)
    ensures Lookup(cache[n.hop := Entry(n.address, 0)], k) == Cached(log + [n], n.time, k)
  {
    LastAppend(log, n, k);
  }

  lemma AskAt(h: History, d: IPv4.IPv4Datagram, hop: u32, k: u32)
    requires AgreesAt(h, k) && hop !in h.s.cache
    ensures AgreesAt(h.Ask(d, hop), k)
  {
    NoteAt(h.s.cache, h.log, Note(h.now, hop, ETHERNET_BROADCAST), k);
  }

  /** The resend for a reply never asks: it changes neither cache nor the rest of the queue. */
  lemma FlushOnlySends(s: Interface, hop: u32)
    requires hop in s.cache
    ensures s.Flush(hop).cache == s.cache
    ensures s.Flush(hop).queue == if s.FlushThrows(hop) then s.queue else Without(s.queue, FirstFor(s.queue, hop))
  {
  }

  lemma TakeOnlyLearns(s: Interface, m: ARPMessage)
    ensures s.TakeARP(m).cache == s.cache[m.senderIP := Entry(m.senderEthernet, 0)]
  {
    FlushOnlySends(s.Learn(m), m.senderIP);
  }

  lemma HearAt(h: History, m: ARPMessage, k: u32)
    requires AgreesAt(h, k)
    ensures AgreesAt(h.Hear(m), k)
  {
    NoteAt(h.s.cache, h.log, Note(h.now, m.senderIP, m.senderEthernet), k);
    TakeOnlyLearns(h.s, m);
  }

  lemma TickAt(h: History, ms: nat, k: u32)
    requires AgreesAt(h, k) && Past(h.log, h.now)
    ensures AgreesAt(h.Step(Tick(ms)), k)
  {
  }

  /** Every step keeps the cache equal to what the log says. */
  lemma StepAgrees(h: History, call: Call)
    requires Agrees(h)
    ensures Agrees(h.Step(call))
  {
    forall k ensures AgreesAt(h.Step(call), k) {
      assert AgreesAt(h, k);
      StepAt(h, call, k);
    }
  }

  lemma StepAt(h: History, call: Call, k: u32)
    requires AgreesAt(h, k) && Past(h.log, h.now)
    ensures AgreesAt(h.Step(call), k)
  {
    match call
    case Send(d, hop) =>
      if hop !in h.s.cache {
        AskAt(h, d, hop, k);
      }
    case Receive(frame) =>
      if h.s.Message(frame).Some? {
        HearAt(h, h.s.Message(frame).value, k);
      }
    case Tick(ms) =>
      TickAt(h, ms, k);
  }

  lemma RememberedAppend(log: seq<Note>, n: Note, r: Note)
    requires r.time <= n.time
    requires Remembered(log, r) || n.hop == r.hop
    ensures Remembered(log + [n], r)
  {
    LastAppend(log, n, r.hop);
  }

  /** A hop that is not cached was last asked for a request's life ago, if ever. */
  lemma AskSpaced(h: History, d: IPv4.IPv4Datagram, hop: u32)
    requires Agrees(h) && Spaced(h) && hop !in h.s.cache
    ensures Spaced(h.Ask(d, hop))
  {
    var n := Note(h.now, hop, ETHERNET_BROADCAST);
    forall i | 0 <= i < |h.requests|
      ensures Remembered(h.log + [n], h.requests[i])
      ensures h.requests[i].hop == hop ==> h.requests[i].time + REQUEST_LIFE <= h.now
    {
      assert Remembered(h.log, h.requests[i]);
      assert AgreesAt(h, h.requests[i].hop);
      RequestIsOld(h, h.requests[i]);
      RememberedAppend(h.log, n, h.requests[i]);
    }
    LastAppend(h.log, n, hop);
    ApartMore(h.requests, n);
  }

  lemma RequestIsOld(h: History, r: Note)
    requires AgreesAt(h, r.hop) && Past(h.log, h.now) && Remembered(h.log, r)
    ensures r.time <= h.now
    ensures r.hop !in h.s.cache ==> r.time + REQUEST_LIFE <= h.now
  {
  }

  lemma HearSpaced(h: History, m: ARPMessage)
    requires Agrees(h) && Spaced(h)
    ensures Spaced(h.Hear(m))
  {
    var n := Note(h.now, m.senderIP, m.senderEthernet);
    forall i | 0 <= i < |h.requests| ensures Remembered(h.log + [n], h.requests[i]) {
      assert Remembered(h.log, h.requests[i]);
      RememberedAppend(h.log, n, h.requests[i]);
    }
  }

  lemma StepSpaced(h: History, call: Call)
    requires Agrees(h) && Spaced(h)
    ensures Spaced(h.Step(call))
  {
    match call
    case Send(d, hop) =>
      if hop !in h.s.cache {
        AskSpaced(h, d, hop);
      }
    case Receive(frame) =>
      if h.s.Message(frame).Some? {
        HearSpaced(h, h.s.Message(frame).value);
      }
    case Tick(ms) =>
  }

  lemma ForAppend(q: seq<Pending>, p: Pending, hop: u32)
    ensures For(q + [p], hop) == For(q, hop) + (if p.hop == hop then [p.datagram] else [])
  {
    assert (q + [p])[..|q|] == q;
  }

  lemma {:induction false} ForConcat(q: seq<Pending>, r: seq<Pending>, hop: u32)
    ensures For(q + r, hop) == For(q, hop) + For(r, hop)
  {
    if r == [] {
      assert q + r == q;
    } else {
      var k := |r| - 1;
      assert q + r == (q + r[..k]) + [r[k]];
      ForAppend(q + r[..k], r[k], hop);
      ForConcat(q, r[..k], hop);
    }
  }

  /** Nothing before the first datagram for a hop is for that hop. */
  lemma {:induction false} NoneBefore(q: seq<Pending>, hop: u32)
    ensures For(q[..FirstFor(q, hop)], hop) == []
    decreases |q|
  {
    if q != [] && q[0].hop != hop {
      var i := FirstFor(q[1..], hop);
      NoneBefore(q[1..], hop);
      ForConcat([q[0]], q[1..][..i], hop);
      assert [q[0]] + q[1..][..i] == q[..i + 1];
      assert For([q[0]], hop) == [];
    }
  }

  lemma Split(q: seq<Pending>, i: nat, k: u32)
    requires i < |q|
    ensures For(q, k) == For(q[..i], k) + For([q[i]], k) + For(q[i + 1..], k)
    ensures For(Without(q, i), k) == For(q[..i], k) + For(q[i + 1..], k)
    ensures For([q[i]], k) == if q[i].hop == k then [q[i].datagram] else []
  {
    assert q == q[..i] + [q[i]] + q[i + 1..];
    ForConcat(q[..i] + [q[i]], q[i + 1..], k);
    ForConcat(q[..i], [q[i]], k);
    ForConcat(q[..i], q[i + 1..], k);
    assert [q[i]][..0] == [];
  }

  /** Releasing takes the oldest datagram of its hop and leaves those of other hops. */
  lemma ReleaseOldest(q: seq<Pending>, hop: u32, k: u32)
    requires FirstFor(q, hop) < |q|
    ensures For(q, hop) == [q[FirstFor(q, hop)].datagram] + For(Without(q, FirstFor(q, hop)), hop)
    ensures k != hop ==> For(Without(q, FirstFor(q, hop)), k) == For(q, k)
  {
    var i := FirstFor(q, hop);
    Split(q, i, k);
    ReleaseFirst(q, hop);
  }

  lemma ReleaseFirst(q: seq<Pending>, hop: u32)
    requires FirstFor(q, hop) < |q|
    ensures For(q, hop) == [q[FirstFor(q, hop)].datagram] + For(Without(q, FirstFor(q, hop)), hop)
  {
    var i := FirstFor(q, hop);
    var rest := For(q[i + 1..], hop);
    NoneBefore(q, hop);
    Split(q, i, hop);
    assert [] + [q[i].datagram] + rest == [q[i].datagram] + rest && [] + rest == rest;
  }

  lemma TakeOnlyReleases(s: Interface, m: ARPMessage)
    ensures var i := FirstFor(s.queue, m.senderIP);
            if Released(s, m) == [] then s.TakeARP(m).queue == s.queue
            else i < |s.queue| && Released(s, m) == [s.queue[i]] && s.TakeARP(m).queue == Without(s.queue, i)
  {
    FlushOnlySends(s.Learn(m), m.senderIP);
  }

  lemma ReleaseConserves(queued: seq<Pending>, released: seq<Pending>, queue: seq<Pending>, hop: u32, k: u32)
    requires For(queued, k) == For(released, k) + For(queue, k) && FirstFor(queue, hop) < |queue|
    ensures var i := FirstFor(queue, hop);
            For(queued, k) == For(released + [queue[i]], k) + For(Without(queue, i), k)
  {
    var i := FirstFor(queue, hop);
    ReleaseOldest(queue, hop, k);
    ForAppend(released, queue[i], k);
    Moves(For(released, k), if queue[i].hop == k then [queue[i].datagram] else [], For(Without(queue, i), k));
  }

  lemma Moves<T>(a: seq<T>, b: seq<T>, c: seq<T>)
    ensures a + (b + c) == (a + b) + c
    ensures b == [] ==> b + c == c
  {
  }

  lemma HearConserved(h: History, m: ARPMessage, k: u32)
    requires ConservedAt(h, k)
    ensures ConservedAt(h.Hear(m), k)
  {
    TakeOnlyReleases(h.s, m);
    if Released(h.s, m) == [] {
      assert h.released + [] == h.released;
    } else {
      ReleaseConserves(h.queued, h.released, h.s.queue, m.senderIP, k);
    }
  }

  lemma StepConserved(h: History, call: Call, k: u32)
    requires ConservedAt(h, k)
    ensures ConservedAt(h.Step(call), k)
  {
    match call
    case Send(d, hop) =>
      if hop !in h.s.cache {
        AskConserved(h, d, hop, k);
      }
    case Receive(frame) =>
      if h.s.Message(frame).Some? {
        HearConserved(h, h.s.Message(frame).value, k);
      }
    case Tick(ms) =>
  }

  lemma AskConserved(h: History, d: IPv4.IPv4Datagram, hop: u32, k: u32)
    requires ConservedAt(h, k) && hop !in h.s.cache
    ensures ConservedAt(h.Ask(d, hop), k)
  {
    ForAppend(h.queued, Pending(d, hop), k);
    ForAppend(h.s.queue, Pending(d, hop), k);
  }

  /** Over every run of a new interface: the cache is what the log says, requests for one hop
      are at least 5000 ms apart, and datagrams leave the queue once and in order per hop. */
  lemma {:induction false} RunKeeps(ethernet: EthernetAddress, ip: u32, calls: seq<Call>)
    ensures Agrees(Run(Start(ethernet, ip), calls))
    ensures Spaced(Run(Start(ethernet, ip), calls))
    ensures Conserved(Run(Start(ethernet, ip), calls))
  {
    if calls != [] {
      var k := |calls| - 1;
      var h := Run(Start(ethernet, ip), calls[..k]);
      RunKeeps(ethernet, ip, calls[..k]);
      StepAgrees(h, calls[k]);
      StepSpaced(h, calls[k]);
      forall hop ensures ConservedAt(h.Step(calls[k]), hop) {
        StepConserved(h, calls[k], hop);
      }
    }
  }

  /** What sending does, said by the log alone: a live mapping is used, a live request makes the
      datagram vanish, and otherwise the hop is asked for and the datagram queued. */
  lemma SendByLog(h: History, d: IPv4.IPv4Datagram, hop: u32)
    requires Agrees(h)
    ensures match Cached(h.log, h.now, hop)
            case None =>
              h.s.Send(d, hop).frames == h.s.frames + [h.s.RequestFrame(hop)]
              && h.s.Send(d, hop).queue == h.s.queue + [Pending(d, hop)]
            case Some(e) =>
              h.s.Send(d, hop) ==
              if e.address != ETHERNET_BROADCAST && Sendable(d)
              then h.s.(frames := h.s.frames + [h.s.DataFrame(d, e.address)]) else h.s
  {
    assert AgreesAt(h, hop);
  }

  /** `address` is the last one learned for `hop`, less than 30000 ms ago. */
  predicate LearnedLately(h: History, hop: u32, address: EthernetAddress) {
    && Last(h.log, hop).Some? && Last(h.log, hop).value.address == address != ETHERNET_BROADCAST
    && 0 <= h.now - Last(h.log, hop).value.time < MAPPING_LIFE
  }
}
