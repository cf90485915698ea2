/** Over every run of two endpoints, neither acknowledgement nor window is ever taken back. */
module WindowRuns {
  import opened Words
  import opened ByteStreams
  import opened StreamReassemblers
  import opened ReassemblerSlices
  import opened TCPSegments
  import opened TCPReceivers
  import opened SenderModel
  import opened SenderAccounting
  import opened ConnectionModel
  import opened TwoEndpoints
  import opened NetworkRuns

  /** Neither what is acknowledged nor the right edge goes back, and a SYN received stays. */
  predicate Advances(r: Receiver, r': Receiver) {
    && r.AckAbs() <= r'.AckAbs() && r.RightEdge() <= r'.RightEdge()
    && (r.synSet ==> r'.synSet && r'.isn == r.isn)
  }

  /** A receiver that hears what its peer said never assembles past the FIN. */
  lemma HeardAdvances(s: Sender, r: Receiver, seg: TCPSegment)
    requires Hears(s, r) && Hears(s, r.SegmentReceived(seg))
    ensures Advances(r, r.SegmentReceived(seg))
  {
    EdgeMoves(r, seg);
  }

  lemma AdvancesAgain(p: Receiver, q: Receiver, r: Receiver)
    requires Advances(p, q) && Advances(q, r)
    ensures Advances(p, r)
  {
  }

  lemma MarkedAdvances(s: Sender, r: Receiver)
    requires Hears(s, r)
    ensures Hears(s, Marked(r)) && Advances(r, Marked(r)) && Advances(Marked(r), r)
  {
  }

  lemma ReadAdvances(r: Receiver, n: nat)
    requires r.Valid()
    ensures Advances(r, r.Read(n))
  {
  }

  /** How a receiver follows from the one before: only arrivals, reads and errors change it. */
  predicate Follows(r: Receiver, act: Act, r': Receiver) {
    match act
    case Deliver(seg) => r' == (if seg.header.rst then Marked(r) else r).SegmentReceived(seg)
    case Read(n) => r' == r.Read(n)
    case _ => r' == r || r' == Marked(r)
  }

  lemma DeliverReceiver(x: Connection, seg: TCPSegment)
    ensures Follows(x.receiver, Deliver(seg), x.SegmentReceived(seg).receiver)
  {
    assert x.Digest(seg).receiver == x.TakeReset(seg).receiver.SegmentReceived(seg);
    assert x.Digest(seg).Respond(seg).receiver == x.Digest(seg).receiver;
  }

  lemma TickReceiver(x: Connection, ms: nat)
    requires Accounted(x.sender)
    ensures x.Tick(ms).receiver == x.receiver || x.Tick(ms).receiver == Marked(x.receiver)
  {
  }

  lemma StepFollows(s: System, act: Act, s': System)
    requires Accounted(s.a.sender) && StepAtA(s, act, s')
    ensures Follows(s.a.receiver, act, s'.a.receiver) && s'.b == s.b && s'.ba == s.ba
  {
    match act
    case Deliver(seg) => DeliverReceiver(s.a, seg);
    case Tick(ms) => TickReceiver(s.a, ms);
    case _ =>
  }

  lemma FollowsAdvances(s: Sender, r: Receiver, act: Act, r': Receiver)
    requires Hears(s, r) && Follows(r, act, r') && Hears(s, r')
    ensures Advances(r, r')
  {
    MarkedAdvances(s, r);
    match act
    case Deliver(seg) =>
      var q := if seg.header.rst then Marked(r) else r;
      HeardAdvances(s, q, seg);
      AdvancesAgain(r, q, r');
    case Read(n) => ReadAdvances(r, n);
    case _ =>
  }

  lemma StepAtAAdvances(s: System, act: Act, s': System)
    requires SoundSystem(s) && StepAtA(s, act, s') && FreshAtA(s, act)
    ensures Advances(s.a.receiver, s'.a.receiver) && s'.b == s.b
  {
    StepAtASound(s, act, s');
    StepFollows(s, act, s');
    FollowsAdvances(s.b.sender, s.a.receiver, act, s'.a.receiver);
  }

  lemma StepAdvances(s: System, step: Step, s': System)
    requires SoundSystem(s) && Takes(s, step, s') && FreshStep(s, step)
    ensures BothAdvance(s, s')
  {
    if step.atA {
      StepAtAAdvances(s, step.act, s');
    } else {
      StepAtAAdvances(Swap(s), step.act, Swap(s'));
    }
  }

  predicate BothAdvance(s: System, s': System) {
    Advances(s.a.receiver, s'.a.receiver) && Advances(s.b.receiver, s'.b.receiver)
  }

  lemma BothAdvanceAgain(s: System, t: System, u: System)
    requires BothAdvance(s, t) && BothAdvance(t, u)
    ensures BothAdvance(s, u)
  {
    AdvancesAgain(s.a.receiver, t.a.receiver, u.a.receiver);
    AdvancesAgain(s.b.receiver, t.b.receiver, u.b.receiver);
  }

  lemma RunStepAdvances(trace: seq<System>, steps: seq<Step>, n: nat)
    requires IsRun(trace, steps) && n < |steps|
    requires forall i :: 0 <= i <= n ==> FreshStep(trace[i], steps[i])
    ensures BothAdvance(trace[n], trace[n + 1])
  {
    RunSound(trace, steps, n);
    StepAdvances(trace[n], steps[n], trace[n + 1]);
  }

  /** Between any two moments of a run, acknowledgements and right edges only grow. */
  lemma {:induction false} WindowNeverRetreats(trace: seq<System>, steps: seq<Step>, m: nat, n: nat)
    requires IsRun(trace, steps) && m <= n < |trace|
    requires forall i :: 0 <= i < n ==> FreshStep(trace[i], steps[i])
    ensures BothAdvance(trace[m], trace[n])
  {
    if m < n {
      WindowNeverRetreats(trace, steps, m, n - 1);
      RunStepAdvances(trace, steps, n - 1);
      BothAdvanceAgain(trace[m], trace[n - 1], trace[n]);
    }
  }
}
