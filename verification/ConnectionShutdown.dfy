/** Closing a connection (section 3.6 of RFC 9293): when it lingers, and what a clean
    close has waited for. */
module ConnectionShutdown {
  import opened Words
  import opened ByteStreams
  import opened StreamReassemblers
  import opened TCPSegments
  import opened TCPReceivers
  import opened SenderModel
  import opened SenderAccounting
  import opened ConnectionModel
  import opened ConnectionRuns
  import opened TCPStates

  /** The peer's stream has ended. */
  predicate InboundEnded(c: Connection) {
    c.receiver.reassembler.output.ended
  }

  /** A call turns lingering off only before the FIN and after the peer's end. */
  lemma LingerStep(c: Connection, call: Call)
    requires c.Valid()
    ensures c.linger && !Do(c, call).linger ==> !c.sender.finSet && InboundEnded(Do(c, call))
    ensures !c.linger ==> !Do(c, call).linger
  {
    match call
    case Receive(seg) =>
      DigestForward(c, seg);
      RespondForward(c.Digest(seg), seg);
      AnswerForward(c.Digest(seg), seg);
    case _ =>
  }

  /** Lingering was turned off only once the peer's stream had ended. */
  lemma {:induction false} LingerUntilEnd(
    timeout: u16, recvCapacity: nat, sendCapacity: nat, isn: u32, calls: seq<Call>)
    ensures var c := Run(timeout, recvCapacity, sendCapacity, isn, calls); c.linger || InboundEnded(c)
  {
    if calls != [] {
      var c := Run(timeout, recvCapacity, sendCapacity, isn, calls[..|calls| - 1]);
      LingerUntilEnd(timeout, recvCapacity, sendCapacity, isn, calls[..|calls| - 1]);
      LingerStep(c, calls[|calls| - 1]);
      DoForward(c, calls[|calls| - 1]);
    }
  }

  /** If the FIN was sent while the peer's stream was open, the connection lingers for the
      rest of the run. */
  lemma {:induction false} ActiveCloserLingers(
    timeout: u16, recvCapacity: nat, sendCapacity: nat, isn: u32, calls: seq<Call>, n: nat)
    requires n <= |calls|
    requires var c := Run(timeout, recvCapacity, sendCapacity, isn, calls[..n]); c.sender.finSet && !InboundEnded(c)
    ensures var c' := Run(timeout, recvCapacity, sendCapacity, isn, calls); c'.linger && c'.sender.finSet
    decreases |calls|
  {
    if n == |calls| {
      assert calls[..n] == calls;
      LingerUntilEnd(timeout, recvCapacity, sendCapacity, isn, calls);
    } else {
      var before := calls[..|calls| - 1];
      assert before[..n] == calls[..n];
      ActiveCloserLingers(timeout, recvCapacity, sendCapacity, isn, before, n);
      var c := Run(timeout, recvCapacity, sendCapacity, isn, before);
      LingerStep(c, calls[|calls| - 1]);
      DoForward(c, calls[|calls| - 1]);
    }
  }

  lemma QuietStep(c: Connection, call: Call)
    requires c.Valid()
    ensures Do(c, call).quiet == if call.Receive? then 0 else c.quiet + (if call.Tick? then call.ms else 0)
  {
    match call
    case Receive(seg) =>
      DigestForward(c, seg);
      RespondForward(c.Digest(seg), seg);
    case _ =>
  }

  lemma {:induction false} QuietIs(timeout: u16, recvCapacity: nat, sendCapacity: nat, isn: u32, calls: seq<Call>)
    ensures Run(timeout, recvCapacity, sendCapacity, isn, calls).quiet == SinceSegment(calls)
  {
    if calls != [] {
      QuietIs(timeout, recvCapacity, sendCapacity, isn, calls[..|calls| - 1]);
      QuietStep(Run(timeout, recvCapacity, sendCapacity, isn, calls[..|calls| - 1]), calls[|calls| - 1]);
    }
  }

  /** The whole stream and its FIN are sent and acknowledged, and the peer's has ended. */
  predicate Done(c: Connection) {
    && c.sender.stream.ended && c.sender.stream.taken == |c.sender.stream.history|
    && c.sender.finSet && c.sender.next == c.sender.recent == |c.sender.stream.history| + 2
    && c.sender.outstanding == []
    && InboundEnded(c) && c.receiver.reassembler.unassembled == map[]
  }

  lemma FinishedIsDone(c: Connection)
    requires Accounted(c.sender)
    ensures c.Finished() <==> Done(c)
  {
    QueueIsEmpty(c.sender, c.sender.outstanding, c.sender.next - c.sender.inFlight);
  }

  /** A tick takes an active connection down exactly when it gives up, or when both streams are
      through and it either need not linger or has heard nothing for ten timeouts. */
  lemma ClosesExactly(c: Connection, ms: nat)
    requires c.Valid()
    ensures c.Tick(ms).active <==>
            c.active && !GivesUp(c, ms) && !(Done(c) && (!c.linger || c.quiet + ms >= 10 * c.timeout))
  {
    TickKeeps(c.sender, ms);
    FinishedIsDone(c.Elapse(ms));
    TickKeepsDone(c, ms);
  }

  lemma TickKeepsDone(c: Connection, ms: nat)
    requires c.Valid()
    ensures Done(c.Elapse(ms)) <==> Done(c)
  {
  }

  /** A segment stops the lingering exactly when the peer's stream has then ended and our FIN has
      not been sent. */
  lemma LingerExactly(c: Connection, seg: TCPSegment)
    requires c.Valid()
    ensures var c' := c.SegmentReceived(seg); c'.linger <==> c.linger && (c'.sender.finSet || !InboundEnded(c'))
  {
    DigestForward(c, seg);
    RespondLinger(c.Digest(seg), seg);
  }

  lemma RespondLinger(d: Connection, seg: TCPSegment)
    ensures var c' := d.Respond(seg); c'.linger <==> d.linger && (c'.sender.finSet || !InboundEnded(c'))
  {
  }

  /** A call other than a tick that takes the connection down marks an error. */
  lemma OnlyTicksClose(c: Connection, call: Call)
    requires c.Valid() && c.active && !Do(c, call).active && !Do(c, call).sender.stream.error
    ensures call.Tick?
  {
    match call
    case Receive(seg) =>
      ResetMarks(c, seg);
    case _ =>
  }

  lemma ResetMarks(c: Connection, seg: TCPSegment)
    requires c.Valid() && c.active
    ensures c.SegmentReceived(seg).active <==> !seg.header.rst
    ensures seg.header.rst ==>
              c.SegmentReceived(seg).sender.stream.error && c.SegmentReceived(seg).receiver.reassembler.output.error
  {
    SegmentActive(c, seg);
    if seg.header.rst {
      DigestMarks(c, seg);
      RespondForward(c.Digest(seg), seg);
    }
  }

  lemma SegmentActive(c: Connection, seg: TCPSegment)
    ensures c.SegmentReceived(seg).active == c.TakeReset(seg).active
  {
  }

  lemma DigestMarks(c: Connection, seg: TCPSegment)
    requires c.Valid() && seg.header.rst
    ensures c.Digest(seg).sender.stream.error && Accounted(c.Digest(seg).sender)
    ensures c.Digest(seg).receiver.reassembler.output.error
  {
    FailKeeps(c);
    var c0 := c.TakeReset(seg);
    SegmentReceivedKeepsValid(c0.receiver, seg);
    ReceiverSegmentForward(c0.receiver, seg);
    TakeAckForward(c0.TakeSegment(seg), seg);
  }

  lemma CloseStep(c: Connection, ms: nat)
    requires c.Valid() && c.active && !c.Tick(ms).active && !c.Tick(ms).sender.stream.error
    ensures c.Elapse(ms).Finished() && (c.linger ==> c.quiet + ms >= 10 * c.timeout)
    ensures c.Tick(ms) == c.Elapse(ms).(active := false).SendSegments()
  {
  }

  /** In every run: a connection that closes without an error has had its whole stream and
      FIN acknowledged and seen the peer's stream end, and if it lingers, at least ten
      timeouts were ticked since the last segment arrived. */
  lemma CleanClose(timeout: u16, recvCapacity: nat, sendCapacity: nat, isn: u32, calls: seq<Call>, call: Call)
    requires var c := Run(timeout, recvCapacity, sendCapacity, isn, calls);
             c.active && !Do(c, call).active && !Do(c, call).sender.stream.error
    ensures var c := Run(timeout, recvCapacity, sendCapacity, isn, calls);
            && Done(Do(c, call))
            && (c.linger ==> SinceSegment(calls + [call]) >= 10 * timeout)
  {
    var c := Run(timeout, recvCapacity, sendCapacity, isn, calls);
    OnlyTicksClose(c, call);
    CloseStep(c, call.ms);
    TickKeeps(c.sender, call.ms);
    FinishedIsDone(c.Elapse(call.ms));
    RunTimeout(timeout, recvCapacity, sendCapacity, isn, calls);
    QuietIs(timeout, recvCapacity, sendCapacity, isn, calls);
    assert (calls + [call])[..|calls|] == calls;
  }

  // Errors

  /** The call is an unclean shutdown: a reset received, or the connection given up. */
  predicate Unclean(c: Connection, call: Call)
    requires c.Valid()
  {
    (call.Receive? && call.seg.header.rst) || (call.Tick? && GivesUp(c, call.ms))
  }

  predicate Marked(c: Connection, c': Connection, unclean: bool) {
    && (c'.sender.stream.error <==> c.sender.stream.error || unclean)
    && (c'.receiver.reassembler.output.error <==> c.receiver.reassembler.output.error || unclean)
  }

  /** Both streams are marked by an unclean shutdown, and by nothing else. */
  lemma ErrorsExactly(c: Connection, call: Call)
    requires c.Valid()
    ensures Marked(c, Do(c, call), Unclean(c, call))
  {
    match call
    case Connect => FillKeepsError(c.sender);
    case Write(data) => FillKeepsError(c.sender.(stream := c.sender.stream.Write(data)));
    case Close => FillKeepsError(c.sender.(stream := c.sender.stream.EndInput()));
    case Tick(ms) => TickMarks(c, ms);
    case Read(_) =>
    case Receive(seg) => SegmentMarks(c, seg);
    case Transmit =>
  }

  lemma TickMarks(c: Connection, ms: nat)
    requires c.Valid()
    ensures Marked(c, c.Tick(ms), GivesUp(c, ms))
  {
  }

  lemma SegmentMarks(c: Connection, seg: TCPSegment)
    requires c.Valid()
    ensures Marked(c, c.SegmentReceived(seg), seg.header.rst)
  {
    FailKeeps(c);
    var c0 := c.TakeReset(seg);
    assert Marked(c, c0, seg.header.rst);
    TakeSegmentMarks(c0, seg);
    TakeAckMarks(c0.TakeSegment(seg), seg);
    RespondMarks(c.Digest(seg), seg);
  }

  lemma TakeSegmentMarks(c: Connection, seg: TCPSegment)
    ensures Marked(c, c.TakeSegment(seg), false) && c.TakeSegment(seg).sender == c.sender
  {
    var noted := c.receiver.NoteSyn(seg).NoteFin(seg);
    PushForward(noted.reassembler, seg.payload, noted.Index(seg), seg.header.fin);
  }

  lemma TakeAckMarks(c: Connection, seg: TCPSegment)
    requires Accounted(c.sender)
    ensures Marked(c, c.TakeAck(seg), false)
  {
    AckReceivedKeeps(c.sender, seg.header.ackno, seg.header.win);
    FillKeepsError(c.sender.AckReceived(seg.header.ackno, seg.header.win));
  }

  lemma RespondMarks(d: Connection, seg: TCPSegment)
    ensures Marked(d, d.Respond(seg), false)
  {
    AnswerMarks(d, seg);
    SendMarks(d.Answer(seg), seg);
  }

  lemma AnswerMarks(d: Connection, seg: TCPSegment)
    ensures Marked(d, d.Answer(seg), false)
  {
    FillKeepsError(d.sender);
  }

  lemma SendMarks(a: Connection, seg: TCPSegment)
    ensures Marked(a, a.AnswerKeepAlive(seg).Remember().SendSegments(), false)
  {
  }
}
