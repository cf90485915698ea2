/** When the output of an endpoint that has ended is the whole stream of its peer. */
module StreamEnds {
  import opened Words
  import opened ByteStreams
  import opened StreamReassemblers
  import opened ReassemblerSlices
  import opened TCPSegments
  import opened TCPReceivers
  import opened SenderModel
  import opened SenderAccounting
  import opened ConnectionModel
  import opened TwoEndpoints
  import opened NetworkRuns
  import opened WindowRuns

  /** The end is known exactly when a FIN has been noted, and the output has ended if nothing
      waits then. */
  predicate EndsAtFin(r: Receiver) {
    var q := r.reassembler;
    && (q.eofSeen <==> r.finSet)
    && (q.output.ended ==> r.finSet) && (r.finSet && q.unassembled == map[] ==> q.output.ended)
  }

  lemma SegmentEnds(r: Receiver, seg: TCPSegment)
    requires EndsAtFin(r) && (r.SegmentReceived(seg).finSet ==> r.SegmentReceived(seg).synSet)
    ensures EndsAtFin(r.SegmentReceived(seg))
  {
    assert seg.header.fin ==> seg.Length() > 0;
  }

  lemma FollowsEnds(s: Sender, r: Receiver, act: Act, r': Receiver)
    requires EndsAtFin(r) && Follows(r, act, r') && Hears(s, r')
    ensures EndsAtFin(r')
  {
    match act
    case Deliver(seg) => SegmentEnds(if seg.header.rst then Marked(r) else r, seg);
    case _ =>
  }

  /** An output that ends holds all that was assembled, and nothing waits. */
  lemma SegmentEnding(r: Receiver, seg: TCPSegment)
    requires r.Valid() && !r.reassembler.output.ended
    ensures var q, q' := r.reassembler, r.SegmentReceived(seg).reassembler;
            && |q'.output.history| == |q.output.history| + (q'.next - q.next)
            && (q'.output.ended ==> q'.unassembled == map[])
  {
    var noted := r.NoteSyn(seg).NoteFin(seg);
    PushWrites(noted.reassembler, seg.payload, noted.Index(seg), seg.header.fin);
  }

  /** An output that has ended takes nothing more. */
  lemma SegmentEnded(r: Receiver, seg: TCPSegment)
    requires r.Valid() && r.reassembler.output.ended
    ensures r.SegmentReceived(seg).reassembler.output.ended
    ensures r.SegmentReceived(seg).reassembler.output.history == r.reassembler.output.history
  {
    var noted := r.NoteSyn(seg).NoteFin(seg);
    PushEnded(noted.reassembler, seg.payload, noted.Index(seg), seg.header.fin);
  }

  lemma PushEnded(r: Reassembler, data: seq<byte>, index: nat, eof: bool)
    requires r.output.ended
    ensures r.Push(data, index, eof).output == r.output
  {
    var stored := r.Stored(data, index);
    WriteEnded(r.output, Bytes(stored, r.next, RunLength(stored, r.next, r.output.Room())));
  }

  lemma WriteEnded(s: Stream, data: seq<byte>)
    requires s.ended
    ensures s.Write(data) == s && s.EndInput() == s
  {
    assert s.history + [] == s.history;
  }

  /** If the output ends with this step, it holds all that was assembled. */
  predicate EndsWith(r: Receiver, r': Receiver) {
    var q, q' := r.reassembler, r'.reassembler;
    if q.output.ended then q'.output.ended && q'.output.history == q.output.history
    else q'.output.ended ==> q'.unassembled == map[] && |q'.output.history| == q'.next
  }

  lemma FollowsEnding(s: Sender, r: Receiver, act: Act, r': Receiver)
    requires Hears(s, r) && Follows(r, act, r')
    ensures EndsWith(r, r')
  {
    match act
    case Deliver(seg) =>
      var q := if seg.header.rst then Marked(r) else r;
      if r.reassembler.output.ended {
        SegmentEnded(q, seg);
      } else {
        SegmentEnding(q, seg);
      }
    case _ =>
  }

  // The peer's stream does not grow once it has ended

  lemma {:induction false} FillHistory(s: Sender)
    ensures s.FillWindow().stream.history == s.stream.history
    decreases if s.next == 0 then 1 else 0, s.Room()
  {
    if !s.Filled() {
      FillHistory(s.Send());
    }
  }

  lemma DeliverHistory(x: Connection, seg: TCPSegment)
    requires x.Valid()
    ensures x.SegmentReceived(seg).sender.stream.history == x.sender.stream.history
  {
    DigestHistory(x, seg);
    RespondHistory(x.Digest(seg), seg);
  }

  lemma DigestHistory(x: Connection, seg: TCPSegment)
    requires x.Valid()
    ensures x.Digest(seg).sender.stream.history == x.sender.stream.history
  {
    FailKeeps(x);
    var s := x.TakeReset(seg).sender;
    if seg.header.ack {
      AckReceivedKeeps(s, seg.header.ackno, seg.header.win);
      FillHistory(s.AckReceived(seg.header.ackno, seg.header.win));
    }
  }

  lemma RespondHistory(x: Connection, seg: TCPSegment)
    ensures x.Respond(seg).sender.stream.history == x.sender.stream.history
  {
    FillHistory(x.sender);
    var x1 := x.Answer(seg);
    assert x1.sender.stream.history == x.sender.stream.history;
    assert x1.AnswerKeepAlive(seg).sender.stream == x1.sender.stream;
  }

  lemma TickHistory(x: Connection, ms: nat)
    requires Accounted(x.sender)
    ensures x.Tick(ms).sender.stream.history == x.sender.stream.history
  {
    assert x.sender.Tick(ms).stream == x.sender.stream;
    ReviewHistory(x.Elapse(ms));
  }

  lemma ReviewHistory(x: Connection)
    ensures x.Review().sender.stream.history == x.sender.stream.history
  {
    assert x.GiveUp().sender.stream.history == x.sender.stream.history;
  }

  lemma FlushHistory(x: Connection)
    ensures x.Flush().sender.stream.history == x.sender.stream.history
  {
    FillHistory(x.sender);
  }

  lemma LocalHistory(x: Connection, act: Act, x': Connection)
    requires Accounted(x.sender) && Local(x, act, x') && x.sender.stream.ended
    ensures x'.sender.stream.history == x.sender.stream.history
  {
    var stream := x.sender.stream;
    match act
    case Connect => FlushHistory(x);
    case Write(data) =>
      WriteEnded(stream, data);
      FlushHistory(x.WithStream(stream.Write(data)));
    case Close => FlushHistory(x.WithStream(stream.EndInput()));
    case Tick(ms) => TickHistory(x, ms);
    case Read(n) =>
  }

  lemma StepHistory(s: System, act: Act, s': System)
    requires s.a.Valid() && StepAtA(s, act, s') && s.a.sender.stream.ended
    ensures s'.a.sender.stream.history == s.a.sender.stream.history
  {
    match act
    case Transmit =>
    case Deliver(seg) => DeliverHistory(s.a, seg);
    case _ => LocalHistory(s.a, act, s'.a);
  }

  // Both endpoints

  /** The output of `y` has not ended, or holds the whole stream of `x`. */
  predicate Whole(x: Connection, y: Connection) {
    y.receiver.reassembler.output.ended ==> y.receiver.reassembler.output.history == x.sender.stream.history
  }

  /** `y` has the FIN of `x`, nothing waits at `y`, and part of the stream has not arrived. */
  predicate FinOverGap(x: Connection, y: Connection) {
    && y.receiver.finSet && y.receiver.reassembler.unassembled == map[]
    && y.receiver.reassembler.next < |x.sender.stream.history|
  }

  lemma GapEndsShort(x: Connection, y: Connection)
    requires Hears(x.sender, y.receiver) && EndsAtFin(y.receiver) && FinOverGap(x, y)
    ensures !Whole(x, y)
  {
  }

  /** Without a gap an output that ends is whole. */
  lemma ReceiverWhole(x: Connection, y: Connection, y': Connection)
    requires Hears(x.sender, y.receiver) && Hears(x.sender, y'.receiver) && EndsAtFin(y'.receiver)
    requires Whole(x, y) && EndsWith(y.receiver, y'.receiver) && !FinOverGap(x, y')
    ensures Whole(x, y')
  {
    var q := y'.receiver.reassembler;
    if !y.receiver.reassembler.output.ended && q.output.ended {
      assert q.next == |x.sender.stream.history|;
      assert q.output.history == x.sender.stream.history[..|q.output.history|];
    }
  }

  lemma SenderWhole(x: Connection, x': Connection, y: Connection)
    requires Accounted(x.sender) && Hears(x.sender, y.receiver) && EndsAtFin(y.receiver) && Whole(x, y)
    requires x.sender.stream.ended ==> x'.sender.stream.history == x.sender.stream.history
    ensures Whole(x', y)
  {
  }

  ghost predicate Ends(s: System) {
    EndsAtFin(s.a.receiver) && EndsAtFin(s.b.receiver)
  }

  lemma StepAtAEnds(s: System, act: Act, s': System)
    requires SoundSystem(s) && StepAtA(s, act, s') && FreshAtA(s, act) && Ends(s)
    ensures Ends(s') && SoundSystem(s')
    ensures Whole(s.b, s.a) && !FinOverGap(s'.b, s'.a) ==> Whole(s'.b, s'.a)
    ensures Whole(s.a, s.b) ==> Whole(s'.a, s'.b)
  {
    StepAtASound(s, act, s');
    StepFollows(s, act, s');
    FollowsEnds(s.b.sender, s.a.receiver, act, s'.a.receiver);
    FollowsEnding(s.b.sender, s.a.receiver, act, s'.a.receiver);
    if Whole(s.b, s.a) && !FinOverGap(s'.b, s'.a) {
      ReceiverWhole(s.b, s.a, s'.a);
    }
    if s.a.sender.stream.ended {
      StepHistory(s, act, s');
    }
    if Whole(s.a, s.b) {
      SenderWhole(s.a, s'.a, s.b);
    }
  }

  predicate BothWhole(s: System) {
    Whole(s.a, s.b) && Whole(s.b, s.a)
  }

  predicate NoGap(s: System) {
    !FinOverGap(s.a, s.b) && !FinOverGap(s.b, s.a)
  }

  lemma StepEnds(s: System, step: Step, s': System)
    requires SoundSystem(s) && Takes(s, step, s') && FreshStep(s, step) && Ends(s)
    ensures Ends(s') && SoundSystem(s')
    ensures BothWhole(s) && NoGap(s') ==> BothWhole(s')
  {
    if step.atA {
      StepAtAEnds(s, step.act, s');
    } else {
      StepAtAEnds(Swap(s), step.act, Swap(s'));
    }
  }

  lemma {:induction false} RunEnds(trace: seq<System>, steps: seq<Step>, n: nat)
    requires IsRun(trace, steps) && n < |trace|
    requires forall i :: 0 <= i < n ==> FreshStep(trace[i], steps[i])
    ensures Ends(trace[n]) && SoundSystem(trace[n])
    ensures (forall i :: 0 <= i <= n ==> NoGap(trace[i])) ==> BothWhole(trace[n])
  {
    if n == 0 {
      InitialSound(trace[0]);
    } else {
      RunEnds(trace, steps, n - 1);
      StepEnds(trace[n - 1], steps[n - 1], trace[n]);
    }
  }

  /** In every run: outputs end only with the whole stream of the peer in them, if and only if
      there is no moment at which one has the peer's FIN, nothing waits, and part of the stream
      has not arrived. */
  lemma EndsWholeExactly(trace: seq<System>, steps: seq<Step>, n: nat)
    requires IsRun(trace, steps) && n < |trace|
    requires forall i :: 0 <= i < n ==> FreshStep(trace[i], steps[i])
    ensures (forall i :: 0 <= i <= n ==> BothWhole(trace[i])) <==> (forall i :: 0 <= i <= n ==> NoGap(trace[i]))
  {
    forall i | 0 <= i <= n ensures BothWhole(trace[i]) ==> NoGap(trace[i]) {
      RunEnds(trace, steps, i);
      NoGapIfWhole(trace[i]);
    }
    forall i | 0 <= i <= n ensures (forall k :: 0 <= k <= i ==> NoGap(trace[k])) ==> BothWhole(trace[i]) {
      RunEnds(trace, steps, i);
    }
  }

  lemma NoGapIfWhole(s: System)
    requires SoundSystem(s) && Ends(s)
    ensures BothWhole(s) ==> NoGap(s)
  {
    if FinOverGap(s.a, s.b) {
      GapEndsShort(s.a, s.b);
    }
    if FinOverGap(s.b, s.a) {
      GapEndsShort(s.b, s.a);
    }
  }
}
