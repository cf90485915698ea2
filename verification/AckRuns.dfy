/** Every acknowledgement under way says what its sender had received at some moment of the run. */
module AckRuns {
  import opened Words
  import opened WrappingIntegers
  import opened ByteStreams
  import opened TCPSegments
  import opened TCPReceivers
  import opened SenderModel
  import opened SenderAccounting
  import opened ConnectionModel
  import opened TwoEndpoints
  import opened NetworkRuns
  import opened WindowRuns

  /** If the segment acknowledges anything, it says what `r` has received and has room for. */
  predicate Says(r: Receiver, seg: TCPSegment) {
    seg.header.ack ==>
      r.synSet && seg.header.ackno == Wrap(r.AckAbs(), r.isn) && seg.header.win == Min(r.WindowSize(), 0xFFFF)
  }

  /** The sender's own segments acknowledge nothing yet. */
  ghost predicate Plain(s: Sender) {
    forall seg :: Queued(s, seg) ==> !seg.header.ack
  }

  /** What `x'` has sent since `x` says what its receiver has received. */
  ghost predicate SaysNew(x: Connection, x': Connection) {
    forall seg :: seg in x'.out ==> seg in x.out || Says(x'.receiver, seg)
  }

  lemma SendPlain(s: Sender)
    requires Plain(s)
    ensures Plain(s.Send())
  {
    forall seg | Queued(s.Send(), seg) ensures !seg.header.ack {
      assert seg == s.Segment() || Queued(s, seg);
    }
  }

  lemma {:induction false} FillPlain(s: Sender)
    requires Plain(s)
    ensures Plain(s.FillWindow())
    decreases if s.next == 0 then 1 else 0, s.Room()
  {
    if !s.Filled() {
      SendPlain(s);
      FillPlain(s.Send());
    }
  }

  lemma AckPlain(s: Sender, ackno: u32, win: u16)
    requires Accounted(s) && Plain(s)
    ensures Plain(s.AckReceived(ackno, win))
  {
    var s' := s.AckReceived(ackno, win);
    PopAckedSubset(s.SetWindow(win), Unwrap(ackno, s.isn, s.recent));
    AckReceivedKeeps(s, ackno, win);
    forall seg | Queued(s', seg) ensures !seg.header.ack {
      assert Queued(s, seg);
    }
  }

  lemma EmptyPlain(s: Sender)
    requires Plain(s)
    ensures Plain(s.SendEmpty())
  {
    forall seg | Queued(s.SendEmpty(), seg) ensures !seg.header.ack {
      assert Queued(s, seg) || seg == s.SendEmpty().out[|s.out|];
    }
  }

  lemma TickPlain(s: Sender, ms: nat)
    requires Accounted(s) && Plain(s)
    ensures Plain(s.Tick(ms))
  {
    forall seg | Queued(s.Tick(ms), seg) ensures !seg.header.ack {
      assert Queued(s, seg);
    }
  }

  lemma StampSays(r: Receiver, seg: TCPSegment)
    requires !seg.header.ack
    ensures Says(r, Stamp(r, seg))
  {
  }

  lemma {:induction false} StampAllSays(r: Receiver, q: seq<TCPSegment>)
    requires forall seg :: seg in q ==> !seg.header.ack
    ensures forall seg :: seg in StampAll(r, q) ==> Says(r, seg)
  {
    if q != [] {
      StampAllSays(r, q[..|q| - 1]);
      StampSays(r, q[|q| - 1]);
    }
  }

  lemma SendSegmentsSays(x: Connection)
    requires Plain(x.sender)
    ensures SaysNew(x, x.SendSegments())
  {
    assert forall seg :: seg in x.sender.out ==> Queued(x.sender, seg);
    StampAllSays(x.receiver, x.sender.out);
  }

  lemma FlushSays(x: Connection)
    requires Plain(x.sender)
    ensures SaysNew(x, x.Flush())
  {
    FillPlain(x.sender);
    SendSegmentsSays(x.WithSender(x.sender.FillWindow()));
  }

  lemma StreamPlain(s: Sender, stream: Stream)
    requires Plain(s)
    ensures Plain(s.(stream := stream))
  {
    forall seg | Queued(s.(stream := stream), seg) ensures !seg.header.ack {
      assert Queued(s, seg);
    }
  }

  lemma DigestPlain(x: Connection, seg: TCPSegment)
    requires x.Valid() && Plain(x.sender)
    ensures Plain(x.Digest(seg).sender) && x.Digest(seg).out == x.out
  {
    FailKeeps(x);
    StreamPlain(x.sender, x.sender.stream.SetError());
    var s := x.TakeReset(seg).sender;
    if seg.header.ack {
      AckPlain(s, seg.header.ackno, seg.header.win);
      FillPlain(s.AckReceived(seg.header.ackno, seg.header.win));
    }
  }

  lemma RespondSays(x: Connection, seg: TCPSegment)
    requires Plain(x.sender)
    ensures SaysNew(x, x.Respond(seg))
  {
    FillPlain(x.sender);
    EmptyPlain(x.sender);
    var x1 := x.Answer(seg);
    EmptyPlain(x1.sender);
    SendSegmentsSays(x1.AnswerKeepAlive(seg).Remember());
  }

  lemma DeliverSays(x: Connection, seg: TCPSegment)
    requires x.Valid() && Plain(x.sender)
    ensures SaysNew(x, x.SegmentReceived(seg))
  {
    DigestPlain(x, seg);
    RespondSays(x.Digest(seg), seg);
  }

  lemma GiveUpSays(x: Connection)
    requires Plain(x.sender)
    ensures SaysNew(x, x.GiveUp())
  {
    var s := x.Fail().sender;
    StreamPlain(x.sender, x.sender.stream.SetError());
    EmptyPlain(s);
    var front := s.SendEmpty().out[0];
    assert Queued(s.SendEmpty(), front);
    StampSays(x.Fail().receiver, front.(header := front.header.(rst := true)));
  }

  lemma TickSays(x: Connection, ms: nat)
    requires Accounted(x.sender) && Plain(x.sender)
    ensures SaysNew(x, x.Tick(ms))
  {
    TickPlain(x.sender, ms);
    var z := x.Elapse(ms);
    GiveUpSays(z);
    SendSegmentsSays(z);
    SendSegmentsSays(z.Close());
  }

  lemma LocalSays(x: Connection, act: Act, x': Connection)
    requires Accounted(x.sender) && Plain(x.sender) && Local(x, act, x')
    ensures SaysNew(x, x')
  {
    match act
    case Connect => FlushSays(x);
    case Write(data) =>
      StreamPlain(x.sender, x.sender.stream.Write(data));
      FlushSays(x.WithStream(x.sender.stream.Write(data)));
    case Close =>
      StreamPlain(x.sender, x.sender.stream.EndInput());
      FlushSays(x.WithStream(x.sender.stream.EndInput()));
    case Tick(ms) => TickSays(x, ms);
    case Read(n) =>
  }

  /** What a step of `a` puts under way. */
  lemma StepAtASays(s: System, act: Act, s': System, seg: TCPSegment)
    requires SoundSystem(s) && StepAtA(s, act, s') && Launched(s'.a, s'.ab, seg)
    ensures Launched(s.a, s.ab, seg) || Says(s'.a.receiver, seg)
  {
    assert Plain(s.a.sender);
    match act
    case Transmit =>
    case Deliver(d) => DeliverSays(s.a, d);
    case _ => LocalSays(s.a, act, s'.a);
  }

  /** Of all segments that `a` has put under way, each says what `a` had received at some moment. */
  ghost predicate OfMoments(trace: seq<System>, n: nat)
    requires n < |trace|
  {
    && (forall seg :: Launched(trace[n].a, trace[n].ab, seg) ==>
          exists j :: 0 <= j <= n && Says(trace[j].a.receiver, seg))
    && (forall seg :: Launched(trace[n].b, trace[n].ba, seg) ==>
          exists j :: 0 <= j <= n && Says(trace[j].b.receiver, seg))
  }

  lemma StepOfMoments(trace: seq<System>, steps: seq<Step>, n: nat)
    requires IsRun(trace, steps) && n < |steps| && SoundSystem(trace[n]) && OfMoments(trace, n)
    ensures OfMoments(trace, n + 1)
  {
    var s, step, s' := trace[n], steps[n], trace[n + 1];
    forall seg | Launched(s'.a, s'.ab, seg) ensures exists j :: 0 <= j <= n + 1 && Says(trace[j].a.receiver, seg) {
      if step.atA {
        StepAtASays(s, step.act, s', seg);
      } else {
        OtherUnchanged(Swap(s), step.act, Swap(s'));
      }
    }
    forall seg | Launched(s'.b, s'.ba, seg) ensures exists j :: 0 <= j <= n + 1 && Says(trace[j].b.receiver, seg) {
      if step.atA {
        OtherUnchanged(s, step.act, s');
      } else {
        StepAtASays(Swap(s), step.act, Swap(s'), seg);
      }
    }
  }

  lemma OtherUnchanged(s: System, act: Act, s': System)
    requires StepAtA(s, act, s')
    ensures s'.b == s.b && s'.ba == s.ba
  {
  }

  lemma {:induction false} RunOfMoments(trace: seq<System>, steps: seq<Step>, n: nat)
    requires IsRun(trace, steps) && n < |trace|
    requires forall i :: 0 <= i < n ==> FreshStep(trace[i], steps[i])
    ensures OfMoments(trace, n)
  {
    if n > 0 {
      RunOfMoments(trace, steps, n - 1);
      RunSound(trace, steps, n - 1);
      StepOfMoments(trace, steps, n - 1);
    }
  }

  /** The segment acknowledges exactly what `r` had received, which is no more than `x` has sent. */
  predicate AcksExactly(x: Connection, r: Receiver, seg: TCPSegment) {
    && r.synSet && r.isn == x.sender.isn && 1 <= r.AckAbs() <= x.sender.next
    && seg.header.ackno == Wrap(r.AckAbs(), r.isn) && seg.header.win == Min(r.WindowSize(), 0xFFFF)
  }

  lemma SaysExactly(x: Connection, y: Connection, xy: set<TCPSegment>, yx: set<TCPSegment>,
                    r: Receiver, seg: TCPSegment)
    requires Half(x, y, xy, yx) && Advances(r, y.receiver) && Says(r, seg) && seg.header.ack
    ensures AcksExactly(x, r, seg)
  {
    AckedIsSent(x.sender, y.receiver);
  }

  /** Every acknowledgement under way from `b` to `a` is that of some moment of the run. */
  ghost predicate AcksOfRun(trace: seq<System>, n: nat)
    requires n < |trace|
  {
    && (forall seg :: Launched(trace[n].b, trace[n].ba, seg) && seg.header.ack ==>
          exists j :: 0 <= j <= n && AcksExactly(trace[n].a, trace[j].b.receiver, seg))
    && (forall seg :: Launched(trace[n].a, trace[n].ab, seg) && seg.header.ack ==>
          exists j :: 0 <= j <= n && AcksExactly(trace[n].b, trace[j].a.receiver, seg))
  }

  /** In every state of every run, an acknowledgement under way is the absolute one, and the
      window the one, that its sender had at some moment; and that much has been sent. */
  lemma AcksAreTruthful(trace: seq<System>, steps: seq<Step>, n: nat)
    requires IsRun(trace, steps) && n < |trace|
    requires forall i :: 0 <= i < n ==> FreshStep(trace[i], steps[i])
    ensures AcksOfRun(trace, n)
  {
    RunSound(trace, steps, n);
    RunOfMoments(trace, steps, n);
    var s := trace[n];
    forall seg | Launched(s.b, s.ba, seg) && seg.header.ack
      ensures exists j :: 0 <= j <= n && AcksExactly(s.a, trace[j].b.receiver, seg)
    {
      var j :| 0 <= j <= n && Says(trace[j].b.receiver, seg);
      WindowNeverRetreats(trace, steps, j, n);
      SaysExactly(s.a, s.b, s.ab, s.ba, trace[j].b.receiver, seg);
    }
    forall seg | Launched(s.a, s.ab, seg) && seg.header.ack
      ensures exists j :: 0 <= j <= n && AcksExactly(s.b, trace[j].a.receiver, seg)
    {
      var j :| 0 <= j <= n && Says(trace[j].a.receiver, seg);
      WindowNeverRetreats(trace, steps, j, n);
      SaysExactly(s.b, s.a, s.ba, s.ab, trace[j].a.receiver, seg);
    }
  }
}
