/** Cumulative acknowledgements: popping from the front keeps exactly the segments that
    end past the acknowledgement, and over a run only the largest one matters. */
module SenderAcks {
  import opened Words
  import opened WrappingIntegers
  import opened TCPSegments
  import opened SenderModel
  import opened SenderAccounting
  import opened SenderRuns

  /** The segments of a queue starting at `pos` that end past `abs`, wherever they stand. */
  function Unacked(q: seq<TCPSegment>, pos: nat, abs: nat): seq<TCPSegment> {
    if q == [] then []
    else (if pos + q[0].Length() > abs then [q[0]] else []) + Unacked(q[1..], pos + q[0].Length(), abs)
  }

  /** The positions of the queue lie within 2^31 of the last acknowledgement. */
  predicate InRange(s: Sender) {
    && s.recent <= 0xFFFF_FFFF_0000_0000
    && -0x8000_0000 <= s.next - s.inFlight - s.recent
    && s.next - s.recent <= 0x8000_0000
  }

  lemma {:induction false} AllUnacked(s: Sender, q: seq<TCPSegment>, pos: nat, abs: nat)
    requires Chain(s, q, pos)
    requires q == [] || abs < pos + q[0].Length()
    ensures Unacked(q, pos, abs) == q
  {
    if q != [] {
      AllUnacked(s, q[1..], pos + q[0].Length(), abs);
    }
  }

  /** The front is popped exactly when the acknowledgement covers it and was sent. */
  lemma FrontAckedExact(s: Sender, abs: u64)
    requires Spaced(s) && InRange(s) && s.outstanding != []
    ensures s.FrontAcked(abs) <==> s.next - s.inFlight + s.outstanding[0].Length() <= abs <= s.next
  {
    UnwrapWrap(s.next - s.inFlight, s.isn, s.recent);
  }

  lemma {:induction false} PopAckedExact(s: Sender, abs: u64)
    requires Spaced(s) && InRange(s)
    ensures s.PopAcked(abs).outstanding ==
            if abs <= s.next then Unacked(s.outstanding, s.next - s.inFlight, abs) else s.outstanding
    decreases |s.outstanding|
  {
    if s.outstanding != [] {
      FrontAckedExact(s, abs);
      if s.FrontAcked(abs) {
        PopFrontKeeps(s);
        PopAckedExact(s.PopFront(), abs);
      } else if abs <= s.next {
        AllUnacked(s, s.outstanding, s.next - s.inFlight, abs);
      }
    }
  }

  /** One acknowledgement: exactly the segments it does not cover stay, and one of
      something never sent removes nothing. */
  lemma AckExact(s: Sender, ackno: u32, win: u16)
    requires Accounted(s) && InRange(s)
    ensures var abs := Unwrap(ackno, s.isn, s.recent);
            s.AckReceived(ackno, win).outstanding ==
            if abs <= s.next then Unacked(s.outstanding, s.next - s.inFlight, abs) else s.outstanding
  {
    AckPops(s, ackno, win);
    AckWindowExact(s, win, Unwrap(ackno, s.isn, s.recent));
  }

  lemma AckPops(s: Sender, ackno: u32, win: u16)
    ensures s.AckReceived(ackno, win).outstanding
            == s.SetWindow(win).PopAcked(Unwrap(ackno, s.isn, s.recent)).outstanding
  {
  }

  lemma AckWindowExact(s: Sender, win: u16, abs: u64)
    requires Accounted(s) && InRange(s)
    ensures s.SetWindow(win).PopAcked(abs).outstanding
            == if abs <= s.next then Unacked(s.outstanding, s.next - s.inFlight, abs) else s.outstanding
  {
    SetWindowKeeps(s, win);
    PopAckedExact(s.SetWindow(win), abs);
  }

  lemma {:induction false} UnackedTwice(s: Sender, q: seq<TCPSegment>, pos: nat, a: nat, b: nat)
    requires Chain(s, q, pos)
    ensures TotalLength(Unacked(q, pos, a)) <= TotalLength(q)
    ensures Unacked(Unacked(q, pos, a), pos + TotalLength(q) - TotalLength(Unacked(q, pos, a)), b)
         == Unacked(q, pos, if a < b then b else a)
  {
    if q != [] {
      var end := pos + q[0].Length();
      if end <= a {
        assert Unacked(q, pos, a) == Unacked(q[1..], end, a);
        UnackedTwice(s, q[1..], end, a, b);
      } else {
        AllUnacked(s, q, pos, a);
        UnackedAgain(s, q, pos, a, b);
      }
    }
  }

  lemma UnackedAgain(s: Sender, q: seq<TCPSegment>, pos: nat, a: nat, b: nat)
    requires Chain(s, q, pos) && q != [] && a < pos + q[0].Length()
    ensures Unacked(q, pos, b) == Unacked(q, pos, if a < b then b else a)
  {
    AllUnacked(s, q, pos, a);
    if b < a {
      AllUnacked(s, q, pos, b);
    }
  }

  lemma UnackedCons(x: TCPSegment, rest: seq<TCPSegment>, pos: nat, abs: nat)
    ensures Unacked([x] + rest, pos, abs)
            == (if pos + x.Length() > abs then [x] else []) + Unacked(rest, pos + x.Length(), abs)
  {
    assert ([x] + rest)[1..] == rest;
  }

  lemma {:induction false} UnackedAppend(q: seq<TCPSegment>, pos: nat, seg: TCPSegment, abs: nat)
    requires abs < pos + TotalLength(q) + seg.Length()
    ensures Unacked(q + [seg], pos, abs) == Unacked(q, pos, abs) + [seg]
  {
    if q == [] {
      assert q + [seg] == [seg] + [];
      UnackedCons(seg, [], pos, abs);
    } else {
      var x, rest := q[0], q[1..];
      assert q == [x] + rest && q + [seg] == [x] + (rest + [seg]);
      UnackedCons(x, rest, pos, abs);
      UnackedCons(x, rest + [seg], pos, abs);
      UnackedAppend(rest, pos + x.Length(), seg, abs);
      Joined(if pos + x.Length() > abs then [x] else [], Unacked(rest, pos + x.Length(), abs), [seg]);
    }
  }

  lemma Joined<T>(a: seq<T>, b: seq<T>, c: seq<T>)
    ensures a + (b + c) == (a + b) + c
  {
  }

  /** The queue is what the largest acknowledgement leaves of everything sent. */
  predicate Determined(t: Track) {
    Logged(t) && t.acked <= t.s.next && t.s.outstanding == Unacked(t.log, 0, t.acked)
  }

  lemma SendDetermined(t: Track)
    requires Determined(t) && !t.s.Filled()
    ensures Determined(t.(s := t.s.Send(), log := t.log + [t.s.Segment()]))
  {
    SendLogs(t);
    UnackedAppend(t.log, 0, t.s.Segment(), t.acked);
  }

  lemma {:induction false} FillDetermined(t: Track)
    requires Determined(t)
    ensures Determined(FillTrack(t))
    decreases if t.s.next == 0 then 1 else 0, t.s.Room()
  {
    if !t.s.Filled() {
      SendDetermined(t);
      FillDetermined(t.(s := t.s.Send(), log := t.log + [t.s.Segment()]));
    }
  }

  lemma AckLeaves(s: Sender, log: seq<TCPSegment>, acked: nat, abs: nat)
    requires Spaced(s) && Covers(s, log) && s.outstanding == Unacked(log, 0, acked)
    ensures Unacked(s.outstanding, s.next - s.inFlight, abs) == Unacked(log, 0, if acked < abs then abs else acked)
  {
    UnackedTwice(s, log, 0, acked, abs);
  }

  lemma AckQueue(s: Sender, log: seq<TCPSegment>, acked: nat, ackno: u32, win: u16)
    requires Accounted(s) && InRange(s) && Covers(s, log) && s.outstanding == Unacked(log, 0, acked)
    ensures var abs := Unwrap(ackno, s.isn, s.recent);
            s.AckReceived(ackno, win).outstanding == Unacked(log, 0, if acked < abs <= s.next then abs else acked)
  {
    AckExact(s, ackno, win);
    AckLeaves(s, log, acked, Unwrap(ackno, s.isn, s.recent));
  }

  lemma AckDetermined(t: Track, ackno: u32, win: u16)
    requires Determined(t) && InRange(t.s)
    ensures Determined(AckTrack(t, ackno, win))
  {
    AckLogs(t, ackno, win);
    AckQueue(t.s, t.log, t.acked, ackno, win);
    AckSameNext(t.s, ackno, win);
  }

  lemma AckSameNext(s: Sender, ackno: u32, win: u16)
    requires Accounted(s)
    ensures s.AckReceived(ackno, win).next == s.next
  {
    AckReceivedKeeps(s, ackno, win);
  }

  lemma StepDetermined(t: Track, e: Event)
    requires Determined(t) && (e.Ack? ==> InRange(t.s))
    ensures Determined(Step(t, e))
  {
    match e
    case Fill => FillDetermined(t);
    case Ack(ackno, win) => AckDetermined(t, ackno, win);
    case _ => StepLogs(t, e);
  }

  /** Every acknowledgement of the run finds the queue within 2^31 of the one before. */
  predicate RunInRange(capacity: nat, timeout: u16, isn: u32, es: seq<Event>) {
    es == [] ||
    (RunInRange(capacity, timeout, isn, es[..|es| - 1]) &&
     (es[|es| - 1].Ack? ==> InRange(Run(capacity, timeout, isn, es[..|es| - 1]).s)))
  }

  /** Over a run the outstanding queue is determined by the largest acknowledgement alone. */
  lemma {:induction false} LargestAckDecides(capacity: nat, timeout: u16, isn: u32, es: seq<Event>)
    requires RunInRange(capacity, timeout, isn, es)
    ensures var t := Run(capacity, timeout, isn, es); t.s.outstanding == Unacked(t.log, 0, t.acked)
    ensures Determined(Run(capacity, timeout, isn, es))
  {
    if es != [] {
      LargestAckDecides(capacity, timeout, isn, es[..|es| - 1]);
      StepDetermined(Run(capacity, timeout, isn, es[..|es| - 1]), es[|es| - 1]);
    }
  }
}
