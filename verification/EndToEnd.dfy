/** The promises of the transport, for every run of two endpoints over a network that
    drops, duplicates and reorders. */
module EndToEnd {
  import opened Words
  import opened WrappingIntegers
  import opened ByteStreams
  import opened StreamReassemblers
  import opened TCPSegments
  import opened TCPReceivers
  import opened SenderModel
  import opened SenderAccounting
  import opened SenderAcks
  import opened ConnectionModel
  import opened TwoEndpoints
  import opened NetworkRuns
  import opened WindowRuns
  import opened AckRuns
  import opened StreamEnds

  /** What `y` has received, handed out or not, is a prefix of what `x` accepted, and while
      its stream is open that is everything it has assembled and so acknowledges. */
  predicate Delivers(x: Connection, y: Connection) {
    var r := y.receiver.reassembler;
    r.output.history <= x.sender.stream.history && (!r.output.ended ==> |r.output.history| == r.next)
  }

  /** The first data byte of `x` that is still outstanding, or not yet sent. */
  function Unconfirmed(s: Sender): int {
    Min(s.next - s.inFlight - 1, s.stream.taken)
  }

  /** All of `x`'s bytes before the outstanding ones were assembled by `y`, and once `x`
      holds its FIN acknowledged `y` assembled the whole stream. */
  predicate Confirms(x: Connection, y: Connection) {
    && Unconfirmed(x.sender) <= y.receiver.reassembler.next
    && (x.sender.FinAcked() ==> y.receiver.reassembler.next == |x.sender.stream.history|)
  }

  /** No acknowledgement under way to `x` is past what `x` sent. */
  ghost predicate AcksSent(x: Connection, y: Connection, yx: set<TCPSegment>) {
    forall seg :: seg in yx && seg.header.ack ==>
      exists a: nat :: 1 <= a <= x.sender.next && seg.header.ackno == Wrap(a, x.sender.isn)
  }

  /** Until `y` has the SYN, nothing of `x` but its SYN is under way. */
  predicate SynFirst(x: Connection, y: Connection, xy: set<TCPSegment>) {
    !y.receiver.synSet ==> forall seg :: seg in xy ==> seg.Length() == 0 || seg.header.syn
  }

  ghost predicate Promises(x: Connection, y: Connection, xy: set<TCPSegment>, yx: set<TCPSegment>) {
    Delivers(x, y) && Confirms(x, y) && AcksSent(x, y, yx) && SynFirst(x, y, xy)
  }

  lemma HalfConfirms(x: Connection, y: Connection, xy: set<TCPSegment>, yx: set<TCPSegment>)
    requires Half(x, y, xy, yx)
    ensures Delivers(x, y) && Confirms(x, y)
  {
    AckedIsSent(x.sender, y.receiver);
  }

  lemma HalfPromises(x: Connection, y: Connection, xy: set<TCPSegment>, yx: set<TCPSegment>)
    requires Half(x, y, xy, yx)
    ensures Promises(x, y, xy, yx)
  {
    HalfConfirms(x, y, xy, yx);
    AckedIsSent(x.sender, y.receiver);
    forall seg | seg in yx && seg.header.ack
      ensures exists a: nat :: 1 <= a <= x.sender.next && seg.header.ackno == Wrap(a, x.sender.isn)
    {
      assert Launched(y, yx, seg);
      var a: nat :| 1 <= a <= y.receiver.AckAbs() && seg.header.ackno == Wrap(a, x.sender.isn);
      assert 1 <= a <= x.sender.next;
    }
    forall seg | seg in xy ensures Made(x, xy, seg) {
    }
  }

  /** End-to-end safety and acknowledgement soundness, in both directions, in every state
      of every run in which nothing stale by 2^31 arrives, however long the streams. Every
      acknowledgement under way is, as an absolute number, that of some moment of the run. */
  lemma TransportIsSafe(trace: seq<System>, steps: seq<Step>, n: nat)
    requires IsRun(trace, steps) && n < |trace|
    requires forall i :: 0 <= i < n ==> FreshStep(trace[i], steps[i])
    ensures var s := trace[n];
            Promises(s.a, s.b, s.ab, s.ba) && Promises(s.b, s.a, s.ba, s.ab)
    ensures AcksOfRun(trace, n)
  {
    RunSound(trace, steps, n);
    AcksAreTruthful(trace, steps, n);
    var s := trace[n];
    HalfPromises(s.a, s.b, s.ab, s.ba);
    HalfPromises(s.b, s.a, s.ba, s.ab);
  }

  // Short streams need no such assumption

  predicate Short(c: Connection) {
    |c.sender.stream.history| < 0x8000_0000 - 2
  }

  lemma ShortIsFresh(x: Connection, y: Connection, xy: set<TCPSegment>, yx: set<TCPSegment>, seg: TCPSegment)
    requires Half(x, y, xy, yx) && Short(x) && seg in xy
    ensures Fresh(x.sender, y.receiver, seg)
  {
    assert Made(x, xy, seg);
    if seg.Length() != 0 {
      var pos: nat :| Occupies(x.sender, seg, pos);
      assert Near(y.receiver, seg, pos);
    }
  }

  lemma ShortAckIsFresh(x: Connection, y: Connection, xy: set<TCPSegment>, yx: set<TCPSegment>, seg: TCPSegment)
    requires Half(x, y, xy, yx) && Short(x) && seg in yx
    ensures FreshAck(x.sender, y.receiver, seg)
  {
    AckedIsSent(x.sender, y.receiver);
    assert Launched(y, yx, seg);
    if seg.header.ack {
      var a: nat :| 1 <= a <= y.receiver.AckAbs() && seg.header.ackno == Wrap(a, x.sender.isn);
      assert 1 <= a <= Acked(y.receiver) && -0x8000_0000 <= a - x.sender.recent < 0x8000_0000;
    }
  }

  lemma ShortStepIsFresh(s: System, step: Step, s': System)
    requires SoundSystem(s) && Takes(s, step, s') && Short(s.a) && Short(s.b)
    ensures FreshStep(s, step)
  {
    if step.act.Deliver? {
      if step.atA {
        ShortIsFresh(s.b, s.a, s.ba, s.ab, step.act.seg);
        ShortAckIsFresh(s.a, s.b, s.ab, s.ba, step.act.seg);
      } else {
        ShortIsFresh(s.a, s.b, s.ab, s.ba, step.act.seg);
        ShortAckIsFresh(s.b, s.a, s.ba, s.ab, step.act.seg);
      }
    }
  }

  lemma {:induction false} ShortRunIsFresh(trace: seq<System>, steps: seq<Step>, n: nat)
    requires IsRun(trace, steps) && n < |trace|
    requires forall i :: 0 <= i < n ==> Short(trace[i].a) && Short(trace[i].b)
    ensures forall i :: 0 <= i < n ==> FreshStep(trace[i], steps[i])
  {
    if n > 0 {
      ShortRunIsFresh(trace, steps, n - 1);
      RunSound(trace, steps, n - 1);
      ShortStepIsFresh(trace[n - 1], steps[n - 1], trace[n]);
    }
  }

  /** For streams under 2^31 - 2 bytes every run whatever is safe. */
  lemma ShortTransportIsSafe(trace: seq<System>, steps: seq<Step>, n: nat)
    requires IsRun(trace, steps) && n < |trace|
    requires forall i :: 0 <= i < n ==> Short(trace[i].a) && Short(trace[i].b)
    ensures var s := trace[n];
            Promises(s.a, s.b, s.ab, s.ba) && Promises(s.b, s.a, s.ba, s.ab)
    ensures AcksOfRun(trace, n)
  {
    ShortRunIsFresh(trace, steps, n);
    TransportIsSafe(trace, steps, n);
  }

  /** And their windows never retreat. */
  lemma ShortWindowNeverRetreats(trace: seq<System>, steps: seq<Step>, m: nat, n: nat)
    requires IsRun(trace, steps) && m <= n < |trace|
    requires forall i :: 0 <= i < n ==> Short(trace[i].a) && Short(trace[i].b)
    ensures BothAdvance(trace[m], trace[n])
  {
    ShortRunIsFresh(trace, steps, n);
    WindowNeverRetreats(trace, steps, m, n);
  }

  /** And their outputs end whole exactly when no FIN is over a gap. */
  lemma ShortEndsWholeExactly(trace: seq<System>, steps: seq<Step>, n: nat)
    requires IsRun(trace, steps) && n < |trace|
    requires forall i :: 0 <= i < n ==> Short(trace[i].a) && Short(trace[i].b)
    ensures (forall i :: 0 <= i <= n ==> BothWhole(trace[i])) <==> (forall i :: 0 <= i <= n ==> NoGap(trace[i]))
  {
    ShortRunIsFresh(trace, steps, n);
    EndsWholeExactly(trace, steps, n);
  }
}
