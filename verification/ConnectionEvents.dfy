/** An endpoint drives its sender by the calls a sender knows: whatever holds of every run of a
    sender holds of the sender in every run of an endpoint. */
module ConnectionEvents {
  import opened Words
  import opened WrappingIntegers
  import opened ByteStreams
  import opened TCPSegments
  import opened TCPReceivers
  import opened SenderModel
  import opened SenderAccounting
  import opened ConnectionModel
  import opened ConnectionRuns
  import opened ConnectionOutput
  import ConnectionReset
  import SR = SenderRuns
  import SenderWatch

  /** A sender after the given calls. */
  function Play(s: Sender, es: seq<SR.Event>): (s': Sender)
    requires Accounted(s)
    ensures Accounted(s')
  {
    if es == [] then s
    else
      var t := SR.Track(Play(s, es[..|es| - 1]), [], 0, 0, 0);
      SR.StepKeeps(t, es[|es| - 1]);
      SR.Step(t, es[|es| - 1]).s
  }

  /** A step of a run changes the sender the same whatever the observer has seen. */
  lemma StepPlays(t: SR.Track, t': SR.Track, e: SR.Event)
    requires Accounted(t.s) && t.s == t'.s
    ensures SR.Step(t, e).s == SR.Step(t', e).s
  {
    SR.FillTrackIs(t);
    SR.FillTrackIs(t');
  }

  lemma PlayOne(s: Sender, es: seq<SR.Event>, e: SR.Event)
    requires Accounted(s)
    ensures Play(s, es + [e]) == SR.Step(SR.Track(Play(s, es), [], 0, 0, 0), e).s
  {
    assert (es + [e])[..|es|] == es;
  }

  lemma RunOne(capacity: nat, timeout: u16, isn: u32, es: seq<SR.Event>, e: SR.Event)
    ensures SR.Run(capacity, timeout, isn, es + [e]) == SR.Step(SR.Run(capacity, timeout, isn, es), e)
  {
    assert (es + [e])[..|es|] == es;
  }

  lemma {:induction false} PlayRun(capacity: nat, timeout: u16, isn: u32, es: seq<SR.Event>, more: seq<SR.Event>)
    ensures SR.Run(capacity, timeout, isn, es + more).s == Play(SR.Run(capacity, timeout, isn, es).s, more)
    decreases |more|
  {
    if more == [] {
      assert es + more == es;
    } else {
      var init, last := more[..|more| - 1], more[|more| - 1];
      assert more == init + [last];
      PlayRun(capacity, timeout, isn, es, init);
      PlayStep(capacity, timeout, isn, es, init, last);
    }
  }

  lemma PlayStep(capacity: nat, timeout: u16, isn: u32, es: seq<SR.Event>, init: seq<SR.Event>, e: SR.Event)
    requires SR.Run(capacity, timeout, isn, es + init).s == Play(SR.Run(capacity, timeout, isn, es).s, init)
    ensures SR.Run(capacity, timeout, isn, es + (init + [e])).s ==
            Play(SR.Run(capacity, timeout, isn, es).s, init + [e])
  {
    var t := SR.Run(capacity, timeout, isn, es + init);
    RunOne(capacity, timeout, isn, es + init, e);
    PlayOne(SR.Run(capacity, timeout, isn, es).s, init, e);
    StepPlays(t, SR.Track(t.s, [], 0, 0, 0), e);
    assert es + (init + [e]) == es + init + [e];
  }

  // One call as calls of the sender

  function Whole(s: Sender, es: seq<SR.Event>): seq<SR.Event>
    requires Accounted(s)
  {
    es + [SR.Drain(|Play(s, es).out|)]
  }

  // What a segment makes the sender do, before the queue is sent

  function Resets(seg: TCPSegment): seq<SR.Event> {
    if seg.header.rst then [SR.Abort] else []
  }

  function Acks(c: Connection, seg: TCPSegment): seq<SR.Event> {
    if !seg.header.ack then []
    else if c.sender.synSet then [SR.Ack(seg.header.ackno, seg.header.win), SR.Fill]
    else [SR.Ack(seg.header.ackno, seg.header.win)]
  }

  function Answers(c: Connection, seg: TCPSegment): seq<SR.Event> {
    if seg.Length() == 0 then if KeepAlive(c, seg) then [SR.Empty] else []
    else if seg.header.syn && !c.sender.synSet then [SR.Fill] else [SR.Empty]
  }

  /** The calls of the sender behind a call of the endpoint. */
  function Events(c: Connection, call: Call): seq<SR.Event>
    requires c.Valid()
  {
    match call
    case Connect => if c.active then Whole(c.sender, [SR.Fill]) else []
    case Write(data) => if data == [] then [] else Whole(c.sender, [SR.Write(data), SR.Fill])
    case Close => Whole(c.sender, [SR.Close, SR.Fill])
    case Tick(ms) =>
      if GivesUp(c, ms) then [SR.Tick(ms), SR.Abort, SR.Empty, SR.Drain(1)] else Whole(c.sender, [SR.Tick(ms)])
    case Receive(seg) => Whole(c.sender, Resets(seg) + Acks(c, seg) + Answers(c, seg))
    case Read(_) => []
    case Transmit => []
  }

  lemma WholePlays(s: Sender, es: seq<SR.Event>)
    requires Accounted(s)
    ensures Play(s, Whole(s, es)) == Play(s, es).(out := [])
  {
    PlayOne(s, es, SR.Drain(|Play(s, es).out|));
  }

  lemma FillPlays(s: Sender, es: seq<SR.Event>)
    requires Accounted(s)
    ensures Play(s, es + [SR.Fill]) == Play(s, es).FillWindow()
  {
    PlayOne(s, es, SR.Fill);
    SR.FillTrackIs(SR.Track(Play(s, es), [], 0, 0, 0));
  }

  lemma FlushPlays(c: Connection, es: seq<SR.Event>, stream: Stream)
    requires c.Valid() && Play(c.sender, es) == c.sender.(stream := stream)
    ensures c.WithStream(stream).Flush().sender == Play(c.sender, Whole(c.sender, es + [SR.Fill]))
  {
    FillPlays(c.sender, es);
    WholePlays(c.sender, es + [SR.Fill]);
  }

  lemma FirstPlays(s: Sender, e: SR.Event)
    requires Accounted(s)
    ensures Play(s, [e]) == SR.Step(SR.Track(s, [], 0, 0, 0), e).s
  {
    PlayOne(s, [], e);
    assert [] + [e] == [e];
  }

  lemma ConnectPlays(c: Connection)
    requires c.Valid()
    ensures c.Connect().sender == Play(c.sender, Events(c, Connect))
  {
    if c.active {
      FillPlays(c.sender, []);
      assert [] + [SR.Fill] == [SR.Fill];
      WholePlays(c.sender, [SR.Fill]);
    }
  }

  lemma WritePlays(c: Connection, data: seq<byte>)
    requires c.Valid()
    ensures c.Write(data).sender == Play(c.sender, Events(c, Write(data)))
  {
    FirstPlays(c.sender, SR.Write(data));
    FlushPlays(c, [SR.Write(data)], c.sender.stream.Write(data));
    assert [SR.Write(data)] + [SR.Fill] == [SR.Write(data), SR.Fill];
  }

  lemma ClosePlays(c: Connection)
    requires c.Valid()
    ensures c.EndInput().sender == Play(c.sender, Events(c, Close))
  {
    FirstPlays(c.sender, SR.Close);
    FlushPlays(c, [SR.Close], c.sender.stream.EndInput());
    assert [SR.Close] + [SR.Fill] == [SR.Close, SR.Fill];
  }

  lemma TickPlays(c: Connection, ms: nat)
    requires c.Valid()
    ensures c.Tick(ms).sender == Play(c.sender, Events(c, Tick(ms)))
  {
    FirstPlays(c.sender, SR.Tick(ms));
    if GivesUp(c, ms) {
      GiveUpPlays(c, ms);
    } else {
      WholePlays(c.sender, [SR.Tick(ms)]);
      TickSends(c, ms);
    }
  }

  lemma GiveUpPlays(c: Connection, ms: nat)
    requires c.Valid() && GivesUp(c, ms)
    ensures c.Tick(ms).sender == Play(c.sender, [SR.Tick(ms), SR.Abort, SR.Empty, SR.Drain(1)])
  {
    var es := [SR.Tick(ms)];
    FirstPlays(c.sender, SR.Tick(ms));
    PlayOne(c.sender, es, SR.Abort);
    PlayOne(c.sender, es + [SR.Abort], SR.Empty);
    PlayOne(c.sender, es + [SR.Abort] + [SR.Empty], SR.Drain(1));
    assert es + [SR.Abort] + [SR.Empty] + [SR.Drain(1)] == [SR.Tick(ms), SR.Abort, SR.Empty, SR.Drain(1)];
  }

  lemma ResetPlays(c: Connection, seg: TCPSegment)
    requires c.Valid()
    ensures Play(c.sender, Resets(seg)) == c.TakeReset(seg).sender
  {
    if seg.header.rst {
      FirstPlays(c.sender, SR.Abort);
    }
  }

  lemma AckPlays(c: Connection, seg: TCPSegment, es: seq<SR.Event>)
    requires c.Valid() && Play(c.sender, es) == c.TakeReset(seg).sender
    ensures Play(c.sender, es + Acks(c, seg)) == c.Digest(seg).sender
  {
    if seg.header.ack {
      FailKeeps(c);
      DigestSender(c, seg);
      AckFillPlays(c.sender, es, seg.header.ackno, seg.header.win);
    } else {
      assert es + [] == es;
    }
  }

  lemma AckFillPlays(s: Sender, es: seq<SR.Event>, ackno: u32, win: u16)
    requires Accounted(s)
    ensures var ack, s' := SR.Ack(ackno, win), Play(s, es).AckReceived(ackno, win);
            Play(s, es + [ack]) == s' && Play(s, es + [ack, SR.Fill]) == s'.FillWindow()
  {
    var ack := SR.Ack(ackno, win);
    PlayOne(s, es, ack);
    FillPlays(s, es + [ack]);
    assert es + [ack] + [SR.Fill] == es + [ack, SR.Fill];
  }

  lemma DigestSender(c: Connection, seg: TCPSegment)
    requires c.Valid() && seg.header.ack
    ensures var s' := c.TakeReset(seg).sender.AckReceived(seg.header.ackno, seg.header.win);
            c.Digest(seg).sender == if c.sender.synSet then s'.FillWindow() else s'
  {
    FailKeeps(c);
    AckKeepsSyn(c.TakeReset(seg).sender, seg.header.ackno, seg.header.win);
  }

  lemma ResponsePlays(c: Connection, seg: TCPSegment, d: Connection, es: seq<SR.Event>)
    requires c.Valid() && Accounted(d.sender) && Play(c.sender, es) == d.sender
    requires d.sender.synSet == c.sender.synSet && (seg.Length() == 0 ==> d.IsKeepAlive(seg) == KeepAlive(c, seg))
    ensures Play(c.sender, Whole(c.sender, es + Answers(c, seg))) == d.Respond(seg).sender
  {
    Responds(d, seg);
    WholePlays(c.sender, es + Answers(c, seg));
    AnswerPlays(c, seg, d, es);
  }

  lemma AnswerPlays(c: Connection, seg: TCPSegment, d: Connection, es: seq<SR.Event>)
    requires c.Valid() && Play(c.sender, es) == d.sender
    requires d.sender.synSet == c.sender.synSet && (seg.Length() == 0 ==> d.IsKeepAlive(seg) == KeepAlive(c, seg))
    ensures Play(c.sender, es + Answers(c, seg)) == d.Answer(seg).AnswerKeepAlive(seg).sender
  {
    FillPlays(c.sender, es);
    PlayOne(c.sender, es, SR.Empty);
    assert es + [] == es;
  }

  lemma KeepAliveKept(c: Connection, seg: TCPSegment)
    requires c.Valid()
    ensures Accounted(c.Digest(seg).sender) && c.Digest(seg).sender.synSet == c.sender.synSet
    ensures seg.Length() == 0 ==> c.Digest(seg).IsKeepAlive(seg) == KeepAlive(c, seg)
  {
    var _ := DigestQueues(c, seg);
    if seg.Length() == 0 {
      KeepAliveIs(c, c.Digest(seg), seg);
    }
  }

  lemma ReceivePlays(c: Connection, seg: TCPSegment)
    requires c.Valid()
    ensures c.SegmentReceived(seg).sender ==
            Play(c.sender, Whole(c.sender, Resets(seg) + Acks(c, seg) + Answers(c, seg)))
  {
    ResetPlays(c, seg);
    AckPlays(c, seg, Resets(seg));
    KeepAliveKept(c, seg);
    ResponsePlays(c, seg, c.Digest(seg), Resets(seg) + Acks(c, seg));
  }

  /** What goes out for a segment is all that those calls of the sender queue, in order. */
  lemma ReceiveSends(c: Connection, seg: TCPSegment)
    requires c.Valid()
    ensures Sends(c, Play(c.sender, Resets(seg) + Acks(c, seg) + Answers(c, seg)).out, c.SegmentReceived(seg))
  {
    ResetPlays(c, seg);
    AckPlays(c, seg, Resets(seg));
    KeepAliveKept(c, seg);
    var _ := DigestQueues(c, seg);
    AnswerPlays(c, seg, c.Digest(seg), Resets(seg) + Acks(c, seg));
    Responds(c.Digest(seg), seg);
  }

  lemma DoPlays(c: Connection, call: Call)
    requires c.Valid()
    ensures Do(c, call).sender == Play(c.sender, Events(c, call))
  {
    match call
    case Connect => ConnectPlays(c);
    case Write(data) => WritePlays(c, data);
    case Close => ClosePlays(c);
    case Tick(ms) => TickPlays(c, ms);
    case Receive(seg) => ReceivePlays(c, seg);
    case _ =>
  }

  // Whole runs

  function AllEvents(timeout: u16, recvCapacity: nat, sendCapacity: nat, isn: u32, calls: seq<Call>): seq<SR.Event> {
    if calls == [] then []
    else
      var before := calls[..|calls| - 1];
      AllEvents(timeout, recvCapacity, sendCapacity, isn, before)
      + Events(Run(timeout, recvCapacity, sendCapacity, isn, before), calls[|calls| - 1])
  }

  /** In every run: the sender of the endpoint is a sender after those calls, and no others. */
  lemma {:induction false} SenderRun(timeout: u16, recvCapacity: nat, sendCapacity: nat, isn: u32, calls: seq<Call>)
    ensures var es := AllEvents(timeout, recvCapacity, sendCapacity, isn, calls);
            Run(timeout, recvCapacity, sendCapacity, isn, calls).sender == SR.Run(sendCapacity, timeout, isn, es).s
  {
    if calls != [] {
      var before, call := calls[..|calls| - 1], calls[|calls| - 1];
      SenderRun(timeout, recvCapacity, sendCapacity, isn, before);
      var c := Run(timeout, recvCapacity, sendCapacity, isn, before);
      DoPlays(c, call);
      PlayRun(sendCapacity, timeout, isn, AllEvents(timeout, recvCapacity, sendCapacity, isn, before), Events(c, call));
    }
  }

  /** In every run: a tick that does not give up sends the oldest outstanding segment again, with
      the acknowledgement as it is now, exactly when that is due; besides it, only what an earlier
      giving up left queued. */
  lemma TickResends(timeout: u16, recvCapacity: nat, sendCapacity: nat, isn: u32, calls: seq<Call>, ms: nat)
    requires !GivesUp(Run(timeout, recvCapacity, sendCapacity, isn, calls), ms)
    ensures var c := Run(timeout, recvCapacity, sendCapacity, isn, calls);
            var es := AllEvents(timeout, recvCapacity, sendCapacity, isn, calls);
            var due := SenderWatch.Due(timeout, SenderWatch.Observe(sendCapacity, timeout, isn, es), ms);
            && Sends(c, c.sender.out + (if c.sender.outstanding != [] && due then [c.sender.outstanding[0]] else []),
                     c.Tick(ms))
            && (c.sender.retransmissions <= MAX_RETX_ATTEMPTS ==> c.sender.out == [])
  {
    var c := Run(timeout, recvCapacity, sendCapacity, isn, calls);
    var es := AllEvents(timeout, recvCapacity, sendCapacity, isn, calls);
    SenderRun(timeout, recvCapacity, sendCapacity, isn, calls);
    SenderWatch.TickExactly(sendCapacity, timeout, isn, es, ms);
    ConnectionReset.RunDrained(timeout, recvCapacity, sendCapacity, isn, calls);
    TickSends(c, ms);
  }
}
