/** The summaries of sender and receiver (libsponge/tcp_helpers/tcp_state.cc) only ever
    move forward, and so does what they summarise. */
module TCPStates {
  import opened Words
  import opened WrappingIntegers
  import opened ByteStreams
  import opened StreamReassemblers
  import opened TCPSegments
  import opened TCPReceivers
  import opened SenderModel
  import opened SenderAccounting
  import opened SenderWindow
  import opened ConnectionModel
  import opened ConnectionRuns

  datatype SenderSummary = SenderError | Closed | SynSent | SynAcked | FinSent | FinAcked
  {
    function Rank(): nat {
      match this
      case SenderError => 5
      case Closed => 0
      case SynSent => 1
      case SynAcked => 2
      case FinSent => 3
      case FinAcked => 4
    }
  }

  datatype ReceiverSummary = ReceiverError | Listen | SynRecv | FinRecv
  {
    function Rank(): nat {
      match this
      case ReceiverError => 3
      case Listen => 0
      case SynRecv => 1
      case FinRecv => 2
    }
  }

  function SenderState(s: Sender): SenderSummary {
    if s.stream.error then SenderError
    else if s.next == 0 then Closed
    else if s.next == s.inFlight then SynSent
    else if !s.stream.Eof() then SynAcked
    else if s.next < |s.stream.history| + 2 then SynAcked
    else if s.inFlight != 0 then FinSent
    else FinAcked
  }

  function ReceiverState(r: Receiver): ReceiverSummary {
    if r.reassembler.output.error then ReceiverError
    else if r.Ackno().None? then Listen
    else if r.reassembler.output.ended then FinRecv
    else SynRecv
  }

  /** What no call takes back of a sender. */
  predicate SenderForward(s: Sender, s': Sender) {
    && s.next <= s'.next && StartOf(s) <= StartOf(s')
    && (s.finSet ==> s'.finSet && s'.next == s.next)
    && (s.stream.error ==> s'.stream.error)
  }

  /** What no call takes back of a receiver. */
  predicate ReceiverForward(r: Receiver, r': Receiver) {
    && (r.synSet ==> r'.synSet)
    && (r.reassembler.output.ended ==> r'.reassembler.output.ended)
    && (r.reassembler.output.error ==> r'.reassembler.output.error)
  }

  predicate Forward(c: Connection, c': Connection) {
    SenderForward(c.sender, c'.sender) && ReceiverForward(c.receiver, c'.receiver)
  }

  lemma {:induction false} FillKeepsError(s: Sender)
    ensures s.FillWindow().stream.error == s.stream.error
    decreases if s.next == 0 then 1 else 0, s.Room()
  {
    if !s.Filled() {
      FillKeepsError(s.Send());
    }
  }

  lemma FillForward(s: Sender)
    requires Accounted(s)
    ensures SenderForward(s, s.FillWindow()) && Accounted(s.FillWindow())
  {
    FillWindowKeeps(s);
    FillStart(s);
    FillKeepsError(s);
    if s.finSet {
      NothingAfterFin(s);
    }
  }

  lemma AckForward(s: Sender, ackno: u32, win: u16)
    requires Accounted(s)
    ensures SenderForward(s, s.AckReceived(ackno, win)) && Accounted(s.AckReceived(ackno, win))
  {
    AckReceivedKeeps(s, ackno, win);
    AckStart(s, ackno, win);
  }

  lemma TakeAckForward(c: Connection, seg: TCPSegment)
    requires c.Valid()
    ensures SenderForward(c.sender, c.TakeAck(seg).sender) && Accounted(c.TakeAck(seg).sender)
  {
    if seg.header.ack {
      AckForward(c.sender, seg.header.ackno, seg.header.win);
      FillForward(c.sender.AckReceived(seg.header.ackno, seg.header.win));
    }
  }

  lemma AnswerForward(c: Connection, seg: TCPSegment)
    requires Accounted(c.sender)
    ensures SenderForward(c.sender, c.Answer(seg).sender) && Accounted(c.Answer(seg).sender)
  {
    FillForward(c.sender);
    AnswerKeeps(c, seg);
  }

  lemma PushForward(r: Reassembler, data: seq<byte>, index: nat, eof: bool)
    ensures r.output.ended ==> r.Push(data, index, eof).output.ended
    ensures r.Push(data, index, eof).output.error == r.output.error
  {
  }

  lemma ReceiverSegmentForward(r: Receiver, seg: TCPSegment)
    ensures ReceiverForward(r, r.SegmentReceived(seg))
  {
    var noted := r.NoteSyn(seg).NoteFin(seg);
    PushForward(noted.reassembler, seg.payload, noted.Index(seg), seg.header.fin);
  }

  lemma DigestForward(c: Connection, seg: TCPSegment)
    requires c.Valid()
    ensures Forward(c, c.Digest(seg)) && Accounted(c.Digest(seg).sender)
    ensures c.Digest(seg).linger == c.linger && c.Digest(seg).quiet == c.quiet
  {
    FailKeeps(c);
    var c0 := c.TakeReset(seg);
    ReceiverSegmentForward(c0.receiver, seg);
    SegmentReceivedKeepsValid(c0.receiver, seg);
    TakeAckForward(c0.TakeSegment(seg), seg);
  }

  lemma RespondForward(c: Connection, seg: TCPSegment)
    requires Accounted(c.sender)
    ensures Forward(c, c.Respond(seg))
    ensures c.linger && c.sender.finSet ==> c.Respond(seg).linger
    ensures !c.Respond(seg).linger ==> !c.linger || c.receiver.reassembler.output.ended
    ensures c.Respond(seg).quiet == 0
  {
    var c1 := c.Answer(seg).AnswerKeepAlive(seg);
    AnswerForward(c, seg);
    assert c1 == c.(sender := c1.sender) && SenderForward(c.sender, c1.sender);
    SendForward(c1.Remember());
  }

  lemma SendForward(c: Connection)
    ensures Forward(c, c.SendSegments())
    ensures c.SendSegments().linger == c.linger && c.SendSegments().quiet == c.quiet
  {
  }

  lemma ReceiveForward(c: Connection, seg: TCPSegment)
    requires c.Valid()
    ensures Forward(c, c.SegmentReceived(seg))
  {
    DigestForward(c, seg);
    RespondForward(c.Digest(seg), seg);
  }

  lemma FlushForward(c: Connection, stream: Stream)
    requires c.Valid() && Accounted(c.sender.(stream := stream)) && stream.error == c.sender.stream.error
    ensures Forward(c, c.WithStream(stream).Flush())
  {
    FillForward(c.sender.(stream := stream));
  }

  lemma ReviewForward(c: Connection)
    ensures Forward(c, c.Review())
  {
  }

  lemma TickForward(c: Connection, ms: nat)
    requires c.Valid()
    ensures Forward(c, c.Tick(ms))
  {
    ReviewForward(c.Elapse(ms));
    assert Forward(c, c.Elapse(ms));
  }

  lemma DoForward(c: Connection, call: Call)
    requires c.Valid()
    ensures Forward(c, Do(c, call))
  {
    match call
    case Connect => FillForward(c.sender);
    case Write(data) =>
      StreamKeeps(c.sender, c.sender.stream.Write(data));
      FlushForward(c, c.sender.stream.Write(data));
    case Close =>
      StreamKeeps(c.sender, c.sender.stream.EndInput());
      FlushForward(c, c.sender.stream.EndInput());
    case Tick(ms) => TickForward(c, ms);
    case Receive(seg) => ReceiveForward(c, seg);
    case _ =>
  }

  /** Forward in what is summarised is forward in the summary. */
  lemma SummaryForward(s: Sender, s': Sender)
    requires Accounted(s) && Accounted(s') && SenderForward(s, s')
    ensures SenderState(s).Rank() <= SenderState(s').Rank()
  {
  }

  /** What the sender's summary, computed from counters, says about its flags and its queue:
      nothing sent, the SYN outstanding, past it, the FIN sent, the FIN acknowledged. */
  lemma SummaryMeans(s: Sender)
    requires Accounted(s) && !s.stream.error
    ensures SenderState(s) == Closed <==> !s.synSet
    ensures SenderState(s) == SynSent <==> s.outstanding != [] && s.outstanding[0].header.syn
    ensures SenderState(s) == SynAcked <==> StartOf(s) > 0 && !s.finSet
    ensures SenderState(s) == FinSent <==> StartOf(s) > 0 && s.finSet && s.outstanding != []
    ensures SenderState(s) == FinAcked <==> s.finSet && s.outstanding == []
  {
    QueueIsEmpty(s, s.outstanding, StartOf(s));
  }

  /** What the receiver's summary says: no SYN yet, a SYN and an open stream, a stream that ended
      after a SYN. */
  lemma ReceiverMeans(r: Receiver)
    ensures ReceiverState(r) == ReceiverError <==> r.reassembler.output.error
    ensures ReceiverState(r) == Listen <==> !r.reassembler.output.error && !r.synSet
    ensures ReceiverState(r) == SynRecv <==>
            !r.reassembler.output.error && r.synSet && !r.reassembler.output.ended
    ensures ReceiverState(r) == FinRecv <==>
            !r.reassembler.output.error && r.synSet && r.reassembler.output.ended
  {
  }

  lemma QueueIsEmpty(s: Sender, q: seq<TCPSegment>, pos: nat)
    requires Chain(s, q, pos)
    ensures q == [] <==> TotalLength(q) == 0
    ensures q != [] ==> (q[0].header.syn <==> pos == 0)
  {
  }

  lemma CallForward(c: Connection, call: Call)
    requires c.Valid()
    ensures SenderState(c.sender).Rank() <= SenderState(Do(c, call).sender).Rank()
    ensures ReceiverState(c.receiver).Rank() <= ReceiverState(Do(c, call).receiver).Rank()
  {
    DoKeeps(c, call);
    DoForward(c, call);
    StatesForward(c, Do(c, call));
  }

  lemma StatesForward(c: Connection, c': Connection)
    requires Accounted(c.sender) && Accounted(c'.sender) && Forward(c, c')
    ensures SenderState(c.sender).Rank() <= SenderState(c'.sender).Rank()
    ensures ReceiverState(c.receiver).Rank() <= ReceiverState(c'.receiver).Rank()
  {
    SummaryForward(c.sender, c'.sender);
  }

  /** Along every run, whatever segments arrive, the summaries move only forward, and an
      error stays. */
  lemma {:induction false} SummariesMoveForward(
    timeout: u16, recvCapacity: nat, sendCapacity: nat, isn: u32, calls: seq<Call>, n: nat)
    requires n <= |calls|
    ensures var c := Run(timeout, recvCapacity, sendCapacity, isn, calls[..n]);
            var c' := Run(timeout, recvCapacity, sendCapacity, isn, calls);
            && SenderState(c.sender).Rank() <= SenderState(c'.sender).Rank()
            && ReceiverState(c.receiver).Rank() <= ReceiverState(c'.receiver).Rank()
    decreases |calls|
  {
    if n == |calls| {
      assert calls[..n] == calls;
    } else {
      var before := calls[..|calls| - 1];
      SummariesMoveForward(timeout, recvCapacity, sendCapacity, isn, before, n);
      assert before[..n] == calls[..n];
      CallForward(Run(timeout, recvCapacity, sendCapacity, isn, before), calls[|calls| - 1]);
    }
  }
}
