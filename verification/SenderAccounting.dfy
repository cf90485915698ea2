/** What every call keeps true of a sender, for every acknowledgement it may be given:
    the sequence space is SYN, then the stream, then FIN, and the outstanding queue is
    the contiguous tail of what was sent of it. */
module SenderAccounting {
  import opened Words
  import opened WrappingIntegers
  import opened ByteStreams
  import opened TCPSegments
  import opened SenderModel

  /** The stream index of the first data byte at or after sequence number `pos`. */
  function DataIndex(pos: nat): nat {
    if pos == 0 then 0 else pos - 1
  }

  /** The segment holds what the sequence space of `s` has at `pos`. */
  predicate Occupies(s: Sender, seg: TCPSegment, pos: nat) {
    && seg.header.seqno == Wrap(pos, s.isn)
    && (seg.header.syn <==> pos == 0)
    && DataIndex(pos) + |seg.payload| <= s.stream.taken <= |s.stream.history|
    && seg.payload == s.stream.history[DataIndex(pos)..DataIndex(pos) + |seg.payload|]
    && (seg.header.fin ==> s.finSet && DataIndex(pos) + |seg.payload| == |s.stream.history|)
    && seg.Length() > 0
    && pos + seg.Length() <= s.next
  }

  /** The segments follow one another from `pos` on. */
  predicate Chain(s: Sender, q: seq<TCPSegment>, pos: nat) {
    q == [] || (Occupies(s, q[0], pos) && Chain(s, q[1..], pos + q[0].Length()))
  }

  /** Sent so far: SYN, what was taken of the stream, FIN; outstanding: its last part. */
  predicate Spaced(s: Sender) {
    && s.stream.Valid()
    && s.window >= 1
    && (s.synSet <==> s.next > 0)
    && s.next == (if s.synSet then 1 else 0) + s.stream.taken + (if s.finSet then 1 else 0)
    && (s.finSet ==> s.stream.Eof())
    && s.inFlight == TotalLength(s.outstanding) <= s.next
    && Chain(s, s.outstanding, s.next - s.inFlight)
  }

  /** And the timer runs exactly when something is outstanding. */
  predicate Accounted(s: Sender) {
    Spaced(s) && (s.timer.running <==> s.outstanding != [])
  }

  /** What the sequence space of `s` holds, that of `s'` holds too. */
  predicate Extends(s: Sender, s': Sender) {
    && s'.isn == s.isn
    && s.stream.history <= s'.stream.history
    && s.stream.taken <= s'.stream.taken <= |s'.stream.history|
    && s.next <= s'.next
    && (s.finSet ==> s'.finSet && s'.stream.history == s.stream.history)
  }

  lemma OccupiesStays(s: Sender, s': Sender, seg: TCPSegment, pos: nat)
    requires Extends(s, s') && Occupies(s, seg, pos)
    ensures Occupies(s', seg, pos)
  {
  }

  lemma {:induction false} ChainStays(s: Sender, s': Sender, q: seq<TCPSegment>, pos: nat)
    requires Extends(s, s') && Chain(s, q, pos)
    ensures Chain(s', q, pos)
  {
    if q != [] {
      OccupiesStays(s, s', q[0], pos);
      ChainStays(s, s', q[1..], pos + q[0].Length());
    }
  }

  lemma {:induction false} ChainAppend(s: Sender, q: seq<TCPSegment>, pos: nat, seg: TCPSegment)
    requires Chain(s, q, pos) && Occupies(s, seg, pos + TotalLength(q))
    ensures Chain(s, q + [seg], pos)
  {
    if q == [] {
      assert (q + [seg])[1..] == [];
    } else {
      assert (q + [seg])[1..] == q[1..] + [seg];
      ChainAppend(s, q[1..], pos + q[0].Length(), seg);
    }
  }

  /** The next segment holds what comes next in the sequence space. */
  lemma SendOccupies(s: Sender)
    requires Accounted(s) && !s.Filled()
    ensures Extends(s, s.Send()) && Occupies(s.Send(), s.Segment(), s.next)
    ensures !s.finSet && (s.Send().finSet ==> s.Send().stream.Eof())
    ensures s.Send().stream.Valid() && s.Send().stream.taken == s.stream.taken + |s.Segment().payload|
  {
  }

  lemma SendKeeps(s: Sender)
    requires Accounted(s) && !s.Filled()
    ensures Accounted(s.Send()) && Extends(s, s.Send())
  {
    SendOccupies(s);
    QueueGrows(s, s.Send(), s.Segment());
  }

  /** A segment that holds what comes next goes to the end of the outstanding queue. */
  lemma QueueGrows(s: Sender, s': Sender, seg: TCPSegment)
    requires Spaced(s) && Extends(s, s') && Occupies(s', seg, s.next)
    requires s'.outstanding == s.outstanding + [seg]
    requires s'.next == s.next + seg.Length() && s'.inFlight == s.inFlight + seg.Length()
    ensures s'.inFlight == TotalLength(s'.outstanding) <= s'.next
    ensures Chain(s', s'.outstanding, s'.next - s'.inFlight)
  {
    TotalLengthAppend(s.outstanding, seg);
    ChainStays(s, s', s.outstanding, s.next - s.inFlight);
    ChainAppend(s', s.outstanding, s.next - s.inFlight, seg);
  }

  lemma ExtendsAgain(s: Sender, t: Sender, u: Sender)
    requires Extends(s, t) && Extends(t, u)
    ensures Extends(s, u)
  {
  }

  lemma {:induction false} FillWindowKeeps(s: Sender)
    requires Accounted(s)
    ensures Accounted(s.FillWindow()) && Extends(s, s.FillWindow())
    decreases if s.next == 0 then 1 else 0, s.Room()
  {
    if !s.Filled() {
      SendKeeps(s);
      FillWindowKeeps(s.Send());
      ExtendsAgain(s, s.Send(), s.FillWindow());
    }
  }

  /** Popping a segment, whatever the acknowledgement, leaves the rest of the queue. */
  lemma PopFrontKeeps(s: Sender)
    requires Spaced(s) && s.outstanding != []
    ensures Spaced(s.PopFront())
  {
    ChainStays(s, s.PopFront(), s.outstanding[1..], s.next - s.inFlight + s.outstanding[0].Length());
  }

  /** Everything but the queue and what belongs to it is untouched. */
  predicate SameSpace(s: Sender, s': Sender) {
    s' == s.(outstanding := s'.outstanding, inFlight := s'.inFlight, rto := s'.rto,
             retransmissions := s'.retransmissions, timer := s'.timer)
  }

  lemma {:induction false} PopAckedKeeps(s: Sender, abs: u64)
    requires Spaced(s) && (s.outstanding != [] ==> s.timer.running)
    ensures var s' := s.PopAcked(abs);
            && Spaced(s') && SameSpace(s, s') && s'.inFlight <= s.inFlight
            && (s'.outstanding != [] ==> s'.timer.running)
    decreases |s.outstanding|
  {
    if s.FrontAcked(abs) {
      PopFrontKeeps(s);
      PopAckedKeeps(s.PopFront(), abs);
    }
  }

  lemma SettleKeeps(s: Sender, abs: u64)
    requires Spaced(s) && (s.outstanding != [] ==> s.timer.running)
    ensures Accounted(s.Settle(abs))
  {
    ChainStays(s, s.Settle(abs), s.outstanding, s.next - s.inFlight);
  }

  lemma SetWindowKeeps(s: Sender, win: u16)
    requires Accounted(s)
    ensures Accounted(s.SetWindow(win))
  {
    ChainStays(s, s.SetWindow(win), s.outstanding, s.next - s.inFlight);
  }

  lemma AckReceivedKeeps(s: Sender, ackno: u32, win: u16)
    requires Accounted(s)
    ensures var s' := s.AckReceived(ackno, win);
            && Accounted(s') && Extends(s, s')
            && s'.next == s.next && s'.inFlight <= s.inFlight
            && s'.stream == s.stream && s'.finSet == s.finSet && s'.out == s.out
  {
    SetWindowKeeps(s, win);
    AckAtKeeps(s.SetWindow(win), Unwrap(ackno, s.isn, s.recent));
  }

  lemma AckAtKeeps(s: Sender, abs: u64)
    requires Accounted(s)
    ensures var s' := s.PopAcked(abs).Settle(abs);
            && Accounted(s') && Extends(s, s')
            && s'.next == s.next && s'.inFlight <= s.inFlight
            && s'.stream == s.stream && s'.finSet == s.finSet && s'.out == s.out
  {
    PopAckedKeeps(s, abs);
    SettleKeeps(s.PopAcked(abs), abs);
  }

  /** The calls that leave the sequence space alone. */
  lemma QuietKeeps(s: Sender, s': Sender)
    requires Accounted(s)
    requires s' == s.(out := s'.out, rto := s'.rto, retransmissions := s'.retransmissions, timer := s'.timer)
    requires s'.timer.running == s.timer.running
    ensures Accounted(s') && Extends(s, s')
  {
    ChainStays(s, s', s.outstanding, s.next - s.inFlight);
  }

  lemma TickKeeps(s: Sender, ms: nat)
    requires Accounted(s)
    ensures Accounted(s.Tick(ms)) && Extends(s, s.Tick(ms))
  {
    QuietKeeps(s, s.Tick(ms));
  }

  lemma SendEmptyKeeps(s: Sender)
    requires Accounted(s)
    ensures Accounted(s.SendEmpty()) && Extends(s, s.SendEmpty())
  {
    QuietKeeps(s, s.SendEmpty());
  }

  /** The writer's calls on the stream. */
  lemma StreamKeeps(s: Sender, stream: Stream)
    requires Accounted(s) && stream.Valid() && stream.taken == s.stream.taken
    requires s.stream.history <= stream.history
    requires s.stream.ended ==> stream.ended && stream.history == s.stream.history
    ensures Accounted(s.(stream := stream)) && Extends(s, s.(stream := stream))
  {
    ChainStays(s, s.(stream := stream), s.outstanding, s.next - s.inFlight);
  }

  lemma NewAccounted(capacity: nat, timeout: u16, isn: u32)
    ensures Accounted(NewSender(capacity, timeout, isn))
  {
  }
}
