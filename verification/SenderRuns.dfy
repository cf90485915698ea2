/** Senders over whole runs of calls: what was sent, what is outstanding after which
    acknowledgements, and how long retransmissions take. */
module SenderRuns {
  import opened Words
  import opened WrappingIntegers
  import opened ByteStreams
  import opened TCPSegments
  import opened SenderModel
  import opened SenderAccounting

  datatype Event =
    | Fill
    | Ack(ackno: u32, win: u16)
    | Tick(ms: nat)
    | Empty
    | Write(data: seq<byte>)
    | Close
    | Abort
    | Drain(n: nat)

  /** A sender with what an observer of the run has seen: every new segment in order, the
      largest acknowledgement of something sent, the milliseconds since a segment was
      last newly acknowledged, and the retransmissions counted since then. */
  datatype Track = Track(s: Sender, log: seq<TCPSegment>, acked: nat, quiet: nat, backoffs: nat)

  function FillTrack(t: Track): Track
    decreases if t.s.next == 0 then 1 else 0, t.s.Room()
  {
    if t.s.Filled() then t else FillTrack(t.(s := t.s.Send(), log := t.log + [t.s.Segment()]))
  }

  function AckTrack(t: Track, ackno: u32, win: u16): Track {
    var s := t.s.AckReceived(ackno, win);
    var abs := Unwrap(ackno, t.s.isn, t.s.recent);
    var popped := |s.outstanding| < |t.s.outstanding|;
    Track(s, t.log, if t.acked < abs <= t.s.next then abs else t.acked,
          if popped then 0 else t.quiet, if popped then 0 else t.backoffs)
  }

  function TickTrack(t: Track, ms: nat): Track
    requires Accounted(t.s)
  {
    var s := t.s.Tick(ms);
    var expired := t.s.timer.running && t.s.Elapse(ms) >= t.s.rto;
    Track(s, t.log, t.acked, t.quiet + ms, if expired && !t.s.zeroWindow then t.backoffs + 1 else t.backoffs)
  }

  /** What is left of the outbound queue when its owner took `n` segments. */
  function Rest(q: seq<TCPSegment>, n: nat): seq<TCPSegment> {
    if n < |q| then q[n..] else []
  }

  function Step(t: Track, e: Event): Track
    requires Accounted(t.s)
  {
    match e
    case Fill => FillTrack(t)
    case Ack(ackno, win) => AckTrack(t, ackno, win)
    case Tick(ms) => TickTrack(t, ms)
    case Empty => t.(s := t.s.SendEmpty())
    case Write(data) => t.(s := t.s.(stream := t.s.stream.Write(data)))
    case Close => t.(s := t.s.(stream := t.s.stream.EndInput()))
    case Abort => t.(s := t.s.(stream := t.s.stream.SetError()))
    case Drain(n) => t.(s := t.s.(out := Rest(t.s.out, n)))
  }

  lemma {:induction false} FillTrackIs(t: Track)
    ensures FillTrack(t).s == t.s.FillWindow()
    ensures FillTrack(t) == t.(s := FillTrack(t).s, log := FillTrack(t).log)
    decreases if t.s.next == 0 then 1 else 0, t.s.Room()
  {
    if !t.s.Filled() {
      FillTrackIs(t.(s := t.s.Send(), log := t.log + [t.s.Segment()]));
    }
  }

  lemma StepKeeps(t: Track, e: Event)
    requires Accounted(t.s)
    ensures Accounted(Step(t, e).s) && Extends(t.s, Step(t, e).s)
  {
    match e
    case Fill => FillTrackIs(t); FillWindowKeeps(t.s);
    case Ack(ackno, win) => AckReceivedKeeps(t.s, ackno, win);
    case Tick(ms) => TickKeeps(t.s, ms);
    case Empty => SendEmptyKeeps(t.s);
    case Write(data) => StreamKeeps(t.s, t.s.stream.Write(data));
    case Close => StreamKeeps(t.s, t.s.stream.EndInput());
    case Abort => StreamKeeps(t.s, t.s.stream.SetError());
    case Drain(n) => QuietKeeps(t.s, t.s.(out := Rest(t.s.out, n)));
  }

  function Run(capacity: nat, timeout: u16, isn: u32, es: seq<Event>): (t: Track)
    ensures Accounted(t.s)
  {
    if es == [] then Track(NewSender(capacity, timeout, isn), [], 0, 0, 0)
    else
      var t := Run(capacity, timeout, isn, es[..|es| - 1]);
      StepKeeps(t, es[|es| - 1]);
      Step(t, es[|es| - 1])
  }

  // What was sent

  function Payloads(q: seq<TCPSegment>): seq<byte> {
    if q == [] then [] else Payloads(q[..|q| - 1]) + q[|q| - 1].payload
  }

  /** The log covers the sequence space from 0 to the next number, and its payloads are
      the stream read so far. */
  predicate Covers(s: Sender, log: seq<TCPSegment>) {
    && Chain(s, log, 0) && TotalLength(log) == s.next
    && s.stream.taken <= |s.stream.history|
    && Payloads(log) == s.stream.history[..s.stream.taken]
  }

  predicate Tail(q: seq<TCPSegment>, log: seq<TCPSegment>) {
    |q| <= |log| && q == log[|log| - |q|..]
  }

  /** And the outstanding queue is its tail. */
  predicate Logged(t: Track) {
    Accounted(t.s) && Covers(t.s, t.log) && Tail(t.s.outstanding, t.log)
  }

  lemma TailAppend(q: seq<TCPSegment>, log: seq<TCPSegment>, seg: TCPSegment)
    requires Tail(q, log)
    ensures Tail(q + [seg], log + [seg])
  {
  }

  lemma TailAgain(p: seq<TCPSegment>, q: seq<TCPSegment>, log: seq<TCPSegment>)
    requires Tail(p, q) && Tail(q, log)
    ensures Tail(p, log)
  {
  }

  lemma PayloadsAppend(log: seq<TCPSegment>, seg: TCPSegment)
    ensures Payloads(log + [seg]) == Payloads(log) + seg.payload
  {
    assert (log + [seg])[..|log|] == log;
  }

  lemma SendCovers(s: Sender, log: seq<TCPSegment>)
    requires Accounted(s) && !s.Filled() && Covers(s, log)
    ensures Covers(s.Send(), log + [s.Segment()])
  {
    var s', seg := s.Send(), s.Segment();
    SendOccupies(s);
    TotalLengthAppend(log, seg);
    SendChain(s, log);
    PayloadsAppend(log, seg);
    SendTakes(s);
  }

  lemma SendChain(s: Sender, log: seq<TCPSegment>)
    requires Accounted(s) && !s.Filled() && Chain(s, log, 0) && TotalLength(log) == s.next
    ensures Chain(s.Send(), log + [s.Segment()], 0)
  {
    SendOccupies(s);
    ChainStays(s, s.Send(), log, 0);
    ChainAppend(s.Send(), log, 0, s.Segment());
  }

  /** A new segment carries what it takes from the stream. */
  lemma SendTakes(s: Sender)
    requires s.stream.Valid() && !s.Filled()
    ensures var stream := s.Send().stream;
            && stream.history == s.stream.history && s.stream.taken <= stream.taken <= |stream.history|
            && stream.history[..stream.taken] == s.stream.history[..s.stream.taken] + s.Segment().payload
  {
    FirstInFirstOut(s.stream, [], s.ReadSize());
  }

  lemma SendLogs(t: Track)
    requires Logged(t) && !t.s.Filled()
    ensures Logged(t.(s := t.s.Send(), log := t.log + [t.s.Segment()]))
  {
    SendKeeps(t.s);
    SendCovers(t.s, t.log);
    TailAppend(t.s.outstanding, t.log, t.s.Segment());
  }

  lemma {:induction false} FillLogs(t: Track)
    requires Logged(t)
    ensures Logged(FillTrack(t))
    decreases if t.s.next == 0 then 1 else 0, t.s.Room()
  {
    if !t.s.Filled() {
      SendLogs(t);
      FillLogs(t.(s := t.s.Send(), log := t.log + [t.s.Segment()]));
    }
  }

  /** Popping takes from the front only. */
  lemma {:induction false} PopAckedTail(s: Sender, abs: u64)
    ensures Tail(s.PopAcked(abs).outstanding, s.outstanding)
    decreases |s.outstanding|
  {
    if s.FrontAcked(abs) {
      PopAckedTail(s.PopFront(), abs);
    }
  }

  lemma SameCover(s: Sender, s': Sender, log: seq<TCPSegment>)
    requires Covers(s, log) && Extends(s, s') && s'.next == s.next && s'.stream.taken == s.stream.taken
    ensures Covers(s', log)
  {
    ChainStays(s, s', log, 0);
  }

  lemma AckLogs(t: Track, ackno: u32, win: u16)
    requires Logged(t)
    ensures Logged(AckTrack(t, ackno, win))
  {
    AckReceivedKeeps(t.s, ackno, win);
    SameCover(t.s, t.s.AckReceived(ackno, win), t.log);
    PopAckedTail(t.s.SetWindow(win), Unwrap(ackno, t.s.isn, t.s.recent));
    TailAgain(t.s.AckReceived(ackno, win).outstanding, t.s.outstanding, t.log);
  }

  lemma StepLogs(t: Track, e: Event)
    requires Logged(t)
    ensures Logged(Step(t, e))
  {
    match e
    case Fill => FillLogs(t);
    case Ack(ackno, win) => AckLogs(t, ackno, win);
    case _ =>
      StepKeeps(t, e);
      SameCover(t.s, Step(t, e).s, t.log);
  }

  /** Accounting over every run of calls and every acknowledgement. */
  lemma {:induction false} RunLogged(capacity: nat, timeout: u16, isn: u32, es: seq<Event>)
    ensures Logged(Run(capacity, timeout, isn, es))
  {
    if es != [] {
      RunLogged(capacity, timeout, isn, es[..|es| - 1]);
      StepLogs(Run(capacity, timeout, isn, es[..|es| - 1]), es[|es| - 1]);
    }
  }
}
