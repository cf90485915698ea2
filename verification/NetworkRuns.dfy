/** Every run of two connected endpoints: what arrives is what was sent, and what is
    acknowledged has arrived. */
module NetworkRuns {
  import opened Words
  import opened WrappingIntegers
  import opened ByteStreams
  import opened StreamReassemblers
  import opened ReassemblerSlices
  import opened TCPSegments
  import opened TCPReceivers
  import opened SenderModel
  import opened SenderAccounting
  import opened SenderAcks
  import opened ConnectionModel
  import opened TwoEndpoints

  // Every call of an endpoint keeps both directions sound

  lemma WithSenderSound(x: Connection, s: Sender, y: Connection, xy: set<TCPSegment>, yx: set<TCPSegment>)
    requires Sound(x, y, xy, yx) && Half(x.WithSender(s), y, xy, yx)
    ensures Sound(x.WithSender(s), y, xy, yx)
  {
    OtherSender(x, s, y, xy, yx);
  }

  lemma FillSound(x: Connection, y: Connection, xy: set<TCPSegment>, yx: set<TCPSegment>)
    requires Sound(x, y, xy, yx)
    ensures Sound(x.WithSender(x.sender.FillWindow()), y, xy, yx)
  {
    FillHalf(x, y, xy, yx);
    WithSenderSound(x, x.sender.FillWindow(), y, xy, yx);
  }

  lemma FlushSound(x: Connection, y: Connection, xy: set<TCPSegment>, yx: set<TCPSegment>)
    requires Sound(x, y, xy, yx)
    ensures Sound(x.Flush(), y, xy, yx)
  {
    FillSound(x, y, xy, yx);
    SendSegmentsSound(x.WithSender(x.sender.FillWindow()), y, xy, yx);
  }

  lemma StreamSound(x: Connection, y: Connection, xy: set<TCPSegment>, yx: set<TCPSegment>, stream: Stream)
    requires Sound(x, y, xy, yx)
    requires stream.Valid() && stream.taken == x.sender.stream.taken
    requires x.sender.stream.history <= stream.history
    requires x.sender.stream.ended ==> stream.ended && stream.history == x.sender.stream.history
    ensures Sound(x.WithStream(stream), y, xy, yx)
  {
    StreamHalf(x, y, xy, yx, stream);
    WithSenderSound(x, x.sender.(stream := stream), y, xy, yx);
  }

  lemma SendEmptySound(x: Connection, y: Connection, xy: set<TCPSegment>, yx: set<TCPSegment>)
    requires Sound(x, y, xy, yx)
    ensures Sound(x.WithSender(x.sender.SendEmpty()), y, xy, yx)
  {
    SendEmptyHalf(x, y, xy, yx);
    WithSenderSound(x, x.sender.SendEmpty(), y, xy, yx);
  }

  lemma WithReceiverSound(x: Connection, r: Receiver, y: Connection, xy: set<TCPSegment>, yx: set<TCPSegment>)
    requires Sound(x, y, xy, yx) && Half(y, x.(receiver := r), yx, xy)
    ensures Sound(x.(receiver := r), y, xy, yx)
  {
    OtherReceiver(x, r, y, xy, yx);
  }

  lemma ReadSound(x: Connection, y: Connection, xy: set<TCPSegment>, yx: set<TCPSegment>, n: nat)
    requires Sound(x, y, xy, yx)
    ensures Sound(x.Read(n), y, xy, yx)
  {
    ReadHalf(y, x, yx, xy, n);
    WithReceiverSound(x, x.receiver.Read(n), y, xy, yx);
  }

  function Marked(r: Receiver): Receiver {
    r.(reassembler := r.reassembler.(output := r.reassembler.output.SetError()))
  }

  lemma MarkedHalf(x: Connection, y: Connection, xy: set<TCPSegment>, yx: set<TCPSegment>)
    requires Half(x, y, xy, yx)
    ensures Half(x, y.(receiver := Marked(y.receiver)), xy, yx)
  {
    ReceiverMoves(x, y, Marked(y.receiver), xy, yx);
  }

  lemma FailSound(x: Connection, y: Connection, xy: set<TCPSegment>, yx: set<TCPSegment>)
    requires Sound(x, y, xy, yx)
    ensures Sound(x.Fail(), y, xy, yx)
  {
    StreamSound(x, y, xy, yx, x.sender.stream.SetError());
    var x1 := x.WithStream(x.sender.stream.SetError());
    MarkedHalf(y, x1, yx, xy);
    WithReceiverSound(x1, Marked(x1.receiver), y, xy, yx);
    FlagsSound(x1.(receiver := Marked(x1.receiver)), x.Fail(), y, xy, yx);
  }

  lemma TakeSegmentSound(x: Connection, y: Connection, xy: set<TCPSegment>, yx: set<TCPSegment>, seg: TCPSegment)
    requires Sound(x, y, xy, yx) && seg in yx && Fresh(y.sender, x.receiver, seg)
    ensures Sound(x.TakeSegment(seg), y, xy, yx)
  {
    ReceiveHalf(y, x, yx, xy, seg);
    WithReceiverSound(x, x.receiver.SegmentReceived(seg), y, xy, yx);
  }

  lemma TakeAckSound(x: Connection, y: Connection, xy: set<TCPSegment>, yx: set<TCPSegment>, seg: TCPSegment)
    requires Sound(x, y, xy, yx) && FreshAck(x.sender, y.receiver, seg)
    ensures Sound(x.TakeAck(seg), y, xy, yx)
  {
    if seg.header.ack {
      var s := x.sender.AckReceived(seg.header.ackno, seg.header.win);
      AckHalf(x, y, xy, yx, seg);
      WithSenderSound(x, s, y, xy, yx);
      FillSound(x.WithSender(s), y, xy, yx);
    }
  }

  lemma DigestSound(x: Connection, y: Connection, xy: set<TCPSegment>, yx: set<TCPSegment>, seg: TCPSegment)
    requires Sound(x, y, xy, yx) && seg in yx
    requires Fresh(y.sender, x.receiver, seg) && FreshAck(x.sender, y.receiver, seg)
    ensures Sound(x.Digest(seg), y, xy, yx)
  {
    FailSound(x, y, xy, yx);
    var x0 := x.TakeReset(seg);
    ResetKeepsFresh(x, y, seg);
    TakeSegmentSound(x0, y, xy, yx, seg);
    TakeAckSound(x0.TakeSegment(seg), y, xy, yx, seg);
  }

  lemma ResetKeepsFresh(x: Connection, y: Connection, seg: TCPSegment)
    requires Fresh(y.sender, x.receiver, seg) && FreshAck(x.sender, y.receiver, seg)
    ensures Fresh(y.sender, x.TakeReset(seg).receiver, seg) && FreshAck(x.TakeReset(seg).sender, y.receiver, seg)
  {
    if seg.Length() != 0 {
      var pos: nat :| Occupies(y.sender, seg, pos) && Near(x.receiver, seg, pos);
      assert Near(x.TakeReset(seg).receiver, seg, pos);
    }
  }

  lemma AnswerSound(x: Connection, y: Connection, xy: set<TCPSegment>, yx: set<TCPSegment>, seg: TCPSegment)
    requires Sound(x, y, xy, yx)
    ensures Sound(x.Answer(seg), y, xy, yx)
  {
    FillSound(x, y, xy, yx);
    SendEmptySound(x, y, xy, yx);
  }

  lemma RespondSound(x: Connection, y: Connection, xy: set<TCPSegment>, yx: set<TCPSegment>, seg: TCPSegment)
    requires Sound(x, y, xy, yx)
    ensures Sound(x.Respond(seg), y, xy, yx)
  {
    AnswerSound(x, y, xy, yx, seg);
    var x1 := x.Answer(seg);
    SendEmptySound(x1, y, xy, yx);
    var x2 := x1.AnswerKeepAlive(seg);
    FlagsSound(x2, x2.Remember(), y, xy, yx);
    SendSegmentsSound(x2.Remember(), y, xy, yx);
  }

  lemma DeliverSound(x: Connection, y: Connection, xy: set<TCPSegment>, yx: set<TCPSegment>, seg: TCPSegment)
    requires Sound(x, y, xy, yx) && seg in yx
    requires Fresh(y.sender, x.receiver, seg) && FreshAck(x.sender, y.receiver, seg)
    ensures Sound(x.SegmentReceived(seg), y, xy, yx)
  {
    DigestSound(x, y, xy, yx, seg);
    RespondSound(x.Digest(seg), y, xy, yx, seg);
  }

  lemma ElapseSound(x: Connection, y: Connection, xy: set<TCPSegment>, yx: set<TCPSegment>, ms: nat)
    requires Sound(x, y, xy, yx)
    ensures Sound(x.Elapse(ms), y, xy, yx)
  {
    TickHalf(x, y, xy, yx, ms);
    WithSenderSound(x, x.sender.Tick(ms), y, xy, yx);
    FlagsSound(x.WithSender(x.sender.Tick(ms)), x.Elapse(ms), y, xy, yx);
  }

  lemma GiveUpSound(x: Connection, y: Connection, xy: set<TCPSegment>, yx: set<TCPSegment>)
    requires Sound(x, y, xy, yx)
    ensures Sound(x.GiveUp(), y, xy, yx)
  {
    FailSound(x, y, xy, yx);
    SendEmptySound(x.Fail(), y, xy, yx);
    var z := x.Fail().WithSender(x.Fail().sender.SendEmpty());
    var front := z.sender.out[0];
    var sent := [Stamp(z.receiver, front.(header := front.header.(rst := true)))];
    assert front in z.sender.out && Copy(z.receiver, front, sent[0]);
    LaunchForward(z, y, xy, yx, z.sender.out[1..], sent);
    LaunchBackward(z, y, xy, yx, z.sender.out[1..], sent);
    assert x.GiveUp() == Launch(z, z.sender.out[1..], sent);
  }

  lemma TickSound(x: Connection, y: Connection, xy: set<TCPSegment>, yx: set<TCPSegment>, ms: nat)
    requires Sound(x, y, xy, yx)
    ensures Sound(x.Tick(ms), y, xy, yx)
  {
    ElapseSound(x, y, xy, yx, ms);
    ReviewSound(x.Elapse(ms), y, xy, yx);
  }

  lemma ReviewSound(x: Connection, y: Connection, xy: set<TCPSegment>, yx: set<TCPSegment>)
    requires Sound(x, y, xy, yx)
    ensures Sound(x.Review(), y, xy, yx)
  {
    GiveUpSound(x, y, xy, yx);
    FlagsSound(x, x.Close(), y, xy, yx);
    SendSegmentsSound(x.Close(), y, xy, yx);
    SendSegmentsSound(x, y, xy, yx);
  }

  /** The front of the outbound queue reaches the network. */
  lemma TransmitSound(x: Connection, y: Connection, xy: set<TCPSegment>, yx: set<TCPSegment>)
    requires Sound(x, y, xy, yx) && x.out != []
    ensures Sound(x.(out := x.out[1..]), y, xy + {x.out[0]}, yx)
  {
    var x', xy' := x.(out := x.out[1..]), xy + {x.out[0]};
    forall seg | Made(x', xy', seg) ensures Made(x, xy, seg) {
    }
    forall seg | Launched(x', xy', seg) ensures Launched(x, xy, seg) {
    }
  }

  // The system

  datatype System = System(a: Connection, b: Connection, ab: set<TCPSegment>, ba: set<TCPSegment>)

  datatype Act =
    | Connect
    | Write(data: seq<byte>)
    | Close
    | Tick(ms: nat)
    | Read(n: nat)
    | Transmit
    | Deliver(seg: TCPSegment)

  datatype Step = Step(atA: bool, act: Act)

  function Swap(s: System): System {
    System(s.b, s.a, s.ba, s.ab)
  }

  /** The calls of an endpoint's owner. A tick of a sender whose timer runs with nothing
      outstanding would be undefined, so it could lead anywhere. */
  ghost predicate Local(x: Connection, act: Act, x': Connection) {
    match act
    case Connect => x' == x.Connect()
    case Write(data) => x' == x.Write(data)
    case Close => x' == x.EndInput()
    case Tick(ms) => Accounted(x.sender) ==> x' == x.Tick(ms)
    case Read(n) => x' == x.Read(n)
    case _ => false
  }

  /** A step of endpoint `a`: a call, its oldest segment reaching the network, or any
      segment the network ever held arriving, any number of times or never. */
  ghost predicate StepAtA(s: System, act: Act, s': System) {
    match act
    case Transmit =>
      s.a.out != [] && s' == s.(a := s.a.(out := s.a.out[1..]), ab := s.ab + {s.a.out[0]})
    case Deliver(seg) => seg in s.ba && s' == s.(a := s.a.SegmentReceived(seg))
    case _ => s' == s.(a := s'.a) && Local(s.a, act, s'.a)
  }

  ghost predicate Takes(s: System, step: Step, s': System) {
    if step.atA then StepAtA(s, step.act, s') else StepAtA(Swap(s), step.act, Swap(s'))
  }

  /** No segment arrives when its sequence number or its acknowledgement is 2^31 or more
      away from where the endpoint is. */
  ghost predicate FreshAtA(s: System, act: Act) {
    act.Deliver? ==> Fresh(s.b.sender, s.a.receiver, act.seg) && FreshAck(s.a.sender, s.b.receiver, act.seg)
  }

  ghost predicate FreshStep(s: System, step: Step) {
    FreshAtA(if step.atA then s else Swap(s), step.act)
  }

  predicate IsNew(c: Connection) {
    c == NewConnection(c.timeout, c.receiver.capacity, c.sender.stream.capacity, c.sender.isn)
  }

  predicate Initial(s: System) {
    IsNew(s.a) && IsNew(s.b) && s.ab == {} && s.ba == {}
  }

  /** A run from two new endpoints, with any ISNs, capacities and timeouts. */
  ghost predicate IsRun(trace: seq<System>, steps: seq<Step>) {
    && |trace| == |steps| + 1
    && Initial(trace[0])
    && forall i :: 0 <= i < |steps| ==> Takes(trace[i], steps[i], trace[i + 1])
  }

  ghost predicate SoundSystem(s: System) {
    Sound(s.a, s.b, s.ab, s.ba)
  }

  lemma InitialSound(s: System)
    requires Initial(s)
    ensures SoundSystem(s)
  {
    NewAccounted(s.a.sender.stream.capacity, s.a.timeout, s.a.sender.isn);
    NewAccounted(s.b.sender.stream.capacity, s.b.timeout, s.b.sender.isn);
  }

  lemma LocalSound(x: Connection, act: Act, x': Connection, y: Connection, xy: set<TCPSegment>, yx: set<TCPSegment>)
    requires Sound(x, y, xy, yx) && Local(x, act, x')
    ensures Sound(x', y, xy, yx)
  {
    match act
    case Connect => FlushSound(x, y, xy, yx);
    case Write(data) =>
      StreamSound(x, y, xy, yx, x.sender.stream.Write(data));
      FlushSound(x.WithStream(x.sender.stream.Write(data)), y, xy, yx);
    case Close =>
      StreamSound(x, y, xy, yx, x.sender.stream.EndInput());
      FlushSound(x.WithStream(x.sender.stream.EndInput()), y, xy, yx);
    case Tick(ms) => TickSound(x, y, xy, yx, ms);
    case Read(n) => ReadSound(x, y, xy, yx, n);
  }

  lemma StepAtASound(s: System, act: Act, s': System)
    requires SoundSystem(s) && StepAtA(s, act, s') && FreshAtA(s, act)
    ensures SoundSystem(s')
  {
    match act
    case Transmit => TransmitSound(s.a, s.b, s.ab, s.ba);
    case Deliver(seg) => DeliverSound(s.a, s.b, s.ab, s.ba, seg);
    case _ => LocalSound(s.a, act, s'.a, s.b, s.ab, s.ba);
  }

  lemma StepSound(s: System, step: Step, s': System)
    requires SoundSystem(s) && Takes(s, step, s') && FreshStep(s, step)
    ensures SoundSystem(s')
  {
    if step.atA {
      StepAtASound(s, step.act, s');
    } else {
      StepAtASound(Swap(s), step.act, Swap(s'));
    }
  }

  /** Every state of every run is sound, as long as nothing stale by 2^31 arrives. */
  lemma {:induction false} RunSound(trace: seq<System>, steps: seq<Step>, n: nat)
    requires IsRun(trace, steps) && n < |trace|
    requires forall i :: 0 <= i < n ==> FreshStep(trace[i], steps[i])
    ensures SoundSystem(trace[n])
  {
    if n == 0 {
      InitialSound(trace[0]);
    } else {
      RunSound(trace, steps, n - 1);
      StepSound(trace[n - 1], steps[n - 1], trace[n]);
    }
  }
}
