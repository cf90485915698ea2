/** One endpoint over every run of calls and of segments of any kind: its sender runs as
    the sender theorems say, its shutdown waits as it should. */
module ConnectionRuns {
  import opened Words
  import opened WrappingIntegers
  import opened ByteStreams
  import opened StreamReassemblers
  import opened TCPSegments
  import opened TCPReceivers
  import opened SenderModel
  import opened SenderAccounting
  import opened ConnectionModel
  import opened SenderTimer

  datatype Call =
    | Connect
    | Write(data: seq<byte>)
    | Close
    | Tick(ms: nat)
    | Read(n: nat)
    | Receive(seg: TCPSegment)
    | Transmit

  function Do(c: Connection, call: Call): Connection
    requires c.Valid()
  {
    match call
    case Connect => c.Connect()
    case Write(data) => c.Write(data)
    case Close => c.EndInput()
    case Tick(ms) => c.Tick(ms)
    case Read(n) => c.Read(n)
    case Receive(seg) => c.SegmentReceived(seg)
    case Transmit => if c.out == [] then c else c.(out := c.out[1..])
  }

  lemma DoKeeps(c: Connection, call: Call)
    requires c.Valid()
    ensures Do(c, call).Valid()
  {
    match call
    case Connect => ConnectKeeps(c);
    case Write(data) => WriteKeeps(c, data);
    case Close => EndInputKeeps(c);
    case Tick(ms) => TickKeepsValid(c, ms);
    case Read(n) => ReadKeeps(c, n);
    case Receive(seg) => SegmentReceivedKeeps(c, seg);
    case Transmit =>
  }

  function Run(timeout: u16, recvCapacity: nat, sendCapacity: nat, isn: u32, calls: seq<Call>): (c: Connection)
    ensures c.Valid()
  {
    if calls == [] then NewConnection(timeout, recvCapacity, sendCapacity, isn)
    else
      var c := Run(timeout, recvCapacity, sendCapacity, isn, calls[..|calls| - 1]);
      DoKeeps(c, calls[|calls| - 1]);
      Do(c, calls[|calls| - 1])
  }

  // Time and retransmissions

  /** The first sequence number still outstanding. */
  function StartOf(s: Sender): int {
    s.next - s.inFlight
  }

  /** The call newly acknowledged a segment. */
  predicate NewlyAcks(c: Connection, c': Connection) {
    StartOf(c.sender) < StartOf(c'.sender)
  }

  /** Milliseconds ticked since a segment was last newly acknowledged. */
  function SinceAck(timeout: u16, recvCapacity: nat, sendCapacity: nat, isn: u32, calls: seq<Call>): nat {
    if calls == [] then 0
    else
      var before, call := calls[..|calls| - 1], calls[|calls| - 1];
      var c := Run(timeout, recvCapacity, sendCapacity, isn, before);
      if NewlyAcks(c, Do(c, call)) then 0
      else SinceAck(timeout, recvCapacity, sendCapacity, isn, before) + (if call.Tick? then call.ms else 0)
  }

  /** Milliseconds ticked since a segment last arrived. */
  function SinceSegment(calls: seq<Call>): nat {
    if calls == [] then 0
    else if calls[|calls| - 1].Receive? then 0
    else SinceSegment(calls[..|calls| - 1]) + (if calls[|calls| - 1].Tick? then calls[|calls| - 1].ms else 0)
  }

  /** The sender's timing, and the limit on retransmissions of an active connection. */
  predicate TimedConnection(c: Connection, since: nat, backoffs: nat) {
    && TimedFor(c.sender, since, backoffs)
    && c.sender.initialRto == c.timeout
    && (c.active ==> backoffs <= MAX_RETX_ATTEMPTS)
  }

  /** Nothing but an acknowledgement moves the start of the queue. */
  lemma {:induction false} FillStart(s: Sender)
    ensures StartOf(s.FillWindow()) == StartOf(s)
    decreases if s.next == 0 then 1 else 0, s.Room()
  {
    if !s.Filled() {
      FillStart(s.Send());
    }
  }

  /** Popping moves the start exactly when it shortens the queue. */
  lemma {:induction false} PopAckedStart(s: Sender, abs: u64)
    requires Spaced(s)
    ensures var s' := s.PopAcked(abs);
            && |s'.outstanding| <= |s.outstanding|
            && StartOf(s) <= StartOf(s')
            && (|s'.outstanding| < |s.outstanding| <==> StartOf(s) < StartOf(s'))
    decreases |s.outstanding|
  {
    if s.FrontAcked(abs) {
      PopFrontKeeps(s);
      PopAckedStart(s.PopFront(), abs);
    }
  }

  lemma AckStart(s: Sender, ackno: u32, win: u16)
    requires Accounted(s)
    ensures var s' := s.AckReceived(ackno, win);
            && StartOf(s) <= StartOf(s')
            && (|s'.outstanding| < |s.outstanding| <==> StartOf(s) < StartOf(s'))
  {
    SetWindowKeeps(s, win);
    PopAckedStart(s.SetWindow(win), Unwrap(ackno, s.isn, s.recent));
  }

  /** The state of the timing after an acknowledgement has been taken. */
  predicate After(moved: bool, c': Connection, since: nat, backoffs: nat) {
    && TimedFor(c'.sender, if moved then 0 else since, if moved then 0 else backoffs)
    && c'.sender.initialRto == c'.timeout
  }

  lemma TakeAckTimed(c: Connection, seg: TCPSegment, since: nat, backoffs: nat)
    requires c.Valid() && TimedFor(c.sender, since, backoffs) && c.sender.initialRto == c.timeout
    ensures After(NewlyAcks(c, c.TakeAck(seg)), c.TakeAck(seg), since, backoffs)
    ensures StartOf(c.sender) <= StartOf(c.TakeAck(seg).sender)
  {
    if seg.header.ack {
      var s := c.sender.AckReceived(seg.header.ackno, seg.header.win);
      AckStart(c.sender, seg.header.ackno, seg.header.win);
      AckTimed(c.sender, since, backoffs, seg.header.ackno, seg.header.win);
      AckTimer(c.sender, seg.header.ackno, seg.header.win);
      FillStart(s);
      var moved := |s.outstanding| < |c.sender.outstanding|;
      FillWindowTimed(s, if moved then 0 else since, if moved then 0 else backoffs);
    }
  }

  lemma AnswerTimed(c: Connection, seg: TCPSegment, since: nat, backoffs: nat)
    requires TimedFor(c.sender, since, backoffs)
    ensures var s := c.Answer(seg).sender;
            TimedFor(s, since, backoffs) && s.initialRto == c.sender.initialRto && StartOf(s) == StartOf(c.sender)
  {
    FillWindowTimed(c.sender, since, backoffs);
    FillStart(c.sender);
    SameTimed(c.sender, c.sender.SendEmpty(), since, backoffs);
  }

  /** Answering, remembering and sending do not touch the timing or the start. */
  lemma RespondTimed(c: Connection, seg: TCPSegment, since: nat, backoffs: nat)
    requires TimedFor(c.sender, since, backoffs)
    ensures TimedFor(c.Respond(seg).sender, since, backoffs)
    ensures c.Respond(seg).sender.initialRto == c.sender.initialRto && c.Respond(seg).timeout == c.timeout
    ensures StartOf(c.Respond(seg).sender) == StartOf(c.sender) && c.Respond(seg).active == c.active
  {
    AnswerTimed(c, seg, since, backoffs);
    SameTimed(c.Answer(seg).sender, c.Respond(seg).sender, since, backoffs);
  }

  lemma DigestTimed(c: Connection, seg: TCPSegment, since: nat, backoffs: nat)
    requires c.Valid() && TimedFor(c.sender, since, backoffs) && c.sender.initialRto == c.timeout
    ensures After(NewlyAcks(c, c.Digest(seg)), c.Digest(seg), since, backoffs)
    ensures StartOf(c.sender) <= StartOf(c.Digest(seg).sender)
    ensures c.Digest(seg).active ==> c.active
  {
    FailKeeps(c);
    var c0 := c.TakeReset(seg);
    SameTimed(c.sender, c0.sender, since, backoffs);
    SegmentReceivedKeepsValid(c0.receiver, seg);
    TakeAckTimed(c0.TakeSegment(seg), seg, since, backoffs);
  }

  lemma ReceiveTimed(c: Connection, seg: TCPSegment, since: nat, backoffs: nat)
    requires c.Valid() && TimedConnection(c, since, backoffs)
    ensures var c' := c.SegmentReceived(seg);
            var moved := NewlyAcks(c, c');
            TimedConnection(c', if moved then 0 else since, if moved then 0 else backoffs)
  {
    DigestTimed(c, seg, since, backoffs);
    var d := c.Digest(seg);
    var moved := NewlyAcks(c, d);
    RespondTimed(d, seg, if moved then 0 else since, if moved then 0 else backoffs);
  }

  /** A change of the stream and a filled window. */
  lemma FlushTimed(c: Connection, stream: Stream, since: nat, backoffs: nat)
    requires TimedConnection(c, since, backoffs)
    ensures TimedConnection(c.WithStream(stream).Flush(), since, backoffs)
    ensures StartOf(c.WithStream(stream).Flush().sender) == StartOf(c.sender)
  {
    var s := c.sender.(stream := stream);
    SameTimed(c.sender, s, since, backoffs);
    FillWindowTimed(s, since, backoffs);
    FillStart(s);
    SameTimed(s.FillWindow(), s.FillWindow().(out := []), since, backoffs);
  }

  lemma ReviewTimed(c: Connection, since: nat, backoffs: nat)
    requires TimedFor(c.sender, since, backoffs) && c.sender.initialRto == c.timeout
    requires c.active ==> backoffs <= 9
    ensures TimedConnection(c.Review(), since, backoffs) && StartOf(c.Review().sender) == StartOf(c.sender)
  {
    SameTimed(c.sender, c.Review().sender, since, backoffs);
  }

  lemma TickTimedConnection(c: Connection, ms: nat, since: nat, backoffs: nat) returns (k: nat)
    requires c.Valid() && TimedConnection(c, since, backoffs)
    ensures TimedConnection(c.Tick(ms), since + ms, k) && StartOf(c.Tick(ms).sender) == StartOf(c.sender)
  {
    k := if Expires(c.sender, ms) && !c.sender.zeroWindow then backoffs + 1 else backoffs;
    TickTimed(c.sender, since, backoffs, ms);
    TickKeeps(c.sender, ms);
    ReviewTimed(c.Elapse(ms), since + ms, k);
  }

  lemma DoTimed(c: Connection, call: Call, since: nat, backoffs: nat) returns (k: nat)
    requires c.Valid() && TimedConnection(c, since, backoffs)
    ensures var c' := Do(c, call);
            TimedConnection(c', if NewlyAcks(c, c') then 0 else since + (if call.Tick? then call.ms else 0), k)
  {
    k := backoffs;
    match call
    case Connect => FlushTimed(c, c.sender.stream, since, backoffs);
    case Write(data) => FlushTimed(c, c.sender.stream.Write(data), since, backoffs);
    case Close => FlushTimed(c, c.sender.stream.EndInput(), since, backoffs);
    case Tick(ms) => k := TickTimedConnection(c, ms, since, backoffs);
    case Receive(seg) =>
      ReceiveTimed(c, seg, since, backoffs);
      k := if NewlyAcks(c, c.SegmentReceived(seg)) then 0 else backoffs;
    case _ =>
  }

  lemma {:induction false} RunTimed(timeout: u16, recvCapacity: nat, sendCapacity: nat, isn: u32, calls: seq<Call>)
    returns (k: nat)
    ensures TimedConnection(Run(timeout, recvCapacity, sendCapacity, isn, calls),
                            SinceAck(timeout, recvCapacity, sendCapacity, isn, calls), k)
  {
    k := 0;
    if calls != [] {
      var before := calls[..|calls| - 1];
      k := RunTimed(timeout, recvCapacity, sendCapacity, isn, before);
      k := DoTimed(Run(timeout, recvCapacity, sendCapacity, isn, before), calls[|calls| - 1],
                   SinceAck(timeout, recvCapacity, sendCapacity, isn, before), k);
    }
  }

  lemma {:induction false} RunTimeout(timeout: u16, recvCapacity: nat, sendCapacity: nat, isn: u32, calls: seq<Call>)
    ensures Run(timeout, recvCapacity, sendCapacity, isn, calls).timeout == timeout
  {
    if calls != [] {
      RunTimeout(timeout, recvCapacity, sendCapacity, isn, calls[..|calls| - 1]);
      SameTimeout(Run(timeout, recvCapacity, sendCapacity, isn, calls[..|calls| - 1]), calls[|calls| - 1]);
    }
  }

  lemma SameTimeout(c: Connection, call: Call)
    requires c.Valid()
    ensures Do(c, call).timeout == c.timeout
  {
    match call
    case Receive(seg) =>
      ReceiveTimeout(c, seg);
    case _ =>
  }

  lemma ReceiveTimeout(c: Connection, seg: TCPSegment)
    ensures c.SegmentReceived(seg).timeout == c.timeout
  {
    assert c.Digest(seg).timeout == c.timeout;
  }

  /** In every run: while a connection is active its timeout is exactly the configured one
      times 2^k after k counted retransmissions, and it never counted more than eight. */
  lemma ActiveTimeout(timeout: u16, recvCapacity: nat, sendCapacity: nat, isn: u32, calls: seq<Call>)
    ensures var c := Run(timeout, recvCapacity, sendCapacity, isn, calls);
            c.active ==> c.sender.retransmissions <= 8 && c.sender.rto == timeout * Pow2(c.sender.retransmissions)
  {
    var c := Run(timeout, recvCapacity, sendCapacity, isn, calls);
    var k := RunTimed(timeout, recvCapacity, sendCapacity, isn, calls);
    RunTimeout(timeout, recvCapacity, sendCapacity, isn, calls);
    TimedMeans(c.sender, SinceAck(timeout, recvCapacity, sendCapacity, isn, calls), k);
  }

  /** The tick makes the connection give up and send a reset. */
  predicate GivesUp(c: Connection, ms: nat)
    requires c.Valid()
  {
    c.Elapse(ms).sender.retransmissions > MAX_RETX_ATTEMPTS
  }

  /** In every run: giving up takes at least 511 timeouts since a segment was last newly
      acknowledged. */
  lemma GivingUpTakesTime(timeout: u16, recvCapacity: nat, sendCapacity: nat, isn: u32, calls: seq<Call>, ms: nat)
    requires GivesUp(Run(timeout, recvCapacity, sendCapacity, isn, calls), ms)
    ensures SinceAck(timeout, recvCapacity, sendCapacity, isn, calls) + ms >= 511 * timeout
  {
    var c := Run(timeout, recvCapacity, sendCapacity, isn, calls);
    var since := SinceAck(timeout, recvCapacity, sendCapacity, isn, calls);
    var k := RunTimed(timeout, recvCapacity, sendCapacity, isn, calls);
    RunTimeout(timeout, recvCapacity, sendCapacity, isn, calls);
    GivingUpNow(c, ms, since, k);
  }

  lemma GivingUpNow(c: Connection, ms: nat, since: nat, backoffs: nat)
    requires c.Valid() && TimedConnection(c, since, backoffs) && GivesUp(c, ms)
    ensures since + ms >= 511 * c.timeout
  {
    TickTimed(c.sender, since, backoffs, ms);
    SameInitialRto(c.sender, ms);
    ManyRetransmissions(c.sender.Tick(ms), since + ms,
                        if Expires(c.sender, ms) && !c.sender.zeroWindow then backoffs + 1 else backoffs);
  }

  lemma SameInitialRto(s: Sender, ms: nat)
    requires Accounted(s)
    ensures s.Tick(ms).initialRto == s.initialRto
  {
  }
}
