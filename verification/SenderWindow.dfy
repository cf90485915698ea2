/** What one call of `fill_window` sends, and that it sends all it may. */
module SenderWindow {
  import opened Words
  import opened ByteStreams
  import opened TCPSegments
  import opened SenderModel
  import opened SenderAccounting
  import SenderRuns

  /** The end of the `i`-th outstanding segment in the sequence space. */
  function EndOf(s: Sender, i: nat): int
    requires i < |s.outstanding|
  {
    s.next - TotalLength(s.outstanding[i + 1..])
  }

  /** A segment after the SYN ends inside the window; the SYN may end one past it. */
  predicate Fits(s: Sender, seg: TCPSegment, end: int) {
    && |seg.payload| <= MAX_PAYLOAD_SIZE
    && end <= s.recent + s.window + (if seg.header.syn then 1 else 0)
  }

  lemma SendFits(s: Sender)
    requires Accounted(s) && !s.Filled()
    ensures Fits(s, s.Segment(), s.next + s.Segment().Length())
  {
  }

  lemma {:induction false} FillOnlyAppends(s: Sender)
    ensures s.outstanding <= s.FillWindow().outstanding
    ensures s.FillWindow().recent == s.recent && s.FillWindow().window == s.window
    decreases if s.next == 0 then 1 else 0, s.Room()
  {
    if !s.Filled() {
      FillOnlyAppends(s.Send());
    }
  }

  /** The first segment a call sends ends where it should in the final queue. */
  lemma FirstEnd(s: Sender)
    requires Accounted(s) && !s.Filled()
    ensures |s.outstanding| < |s.FillWindow().outstanding|
    ensures s.FillWindow().outstanding[|s.outstanding|] == s.Segment()
    ensures EndOf(s.FillWindow(), |s.outstanding|) == s.next + s.Segment().Length()
  {
    var s' := s.FillWindow();
    FillOnlyAppends(s.Send());
    SendKeeps(s);
    FillWindowKeeps(s.Send());
    FillGrowsTogether(s.Send());
    var n := |s.Send().outstanding|;
    assert s'.outstanding[n..] == s'.outstanding[|s.outstanding| + 1..];
  }

  /** What is appended to the queue is what the next sequence number moves over. */
  lemma {:induction false} FillGrowsTogether(s: Sender)
    ensures s.outstanding <= s.FillWindow().outstanding
    ensures s.FillWindow().next == s.next + TotalLength(s.FillWindow().outstanding[|s.outstanding|..])
    decreases if s.next == 0 then 1 else 0, s.Room()
  {
    var s' := s.FillWindow();
    FillOnlyAppends(s);
    if s.Filled() {
      assert s'.outstanding[|s.outstanding|..] == [];
    } else {
      FillGrowsTogether(s.Send());
      FillOnlyAppends(s.Send());
      var added := s'.outstanding[|s.outstanding|..];
      assert added[0] == s.Segment() && added[1..] == s'.outstanding[|s.Send().outstanding|..];
    }
  }

  /** Every segment a call sends carries at most 1000 bytes and respects the window. */
  lemma {:induction false} FillWindowFits(s: Sender, i: nat)
    requires Accounted(s) && |s.outstanding| <= i < |s.FillWindow().outstanding|
    ensures Fits(s, s.FillWindow().outstanding[i], EndOf(s.FillWindow(), i))
    decreases if s.next == 0 then 1 else 0, s.Room()
  {
    if !s.Filled() {
      if i == |s.outstanding| {
        FirstEnd(s);
        SendFits(s);
      } else {
        SendKeeps(s);
        FillWindowFits(s.Send(), i);
      }
    }
  }

  /** How a new segment at `start` is cut: as much as the payload limit, the window and the stream
      allow, with a FIN exactly when that is all of a closed stream and one number is left. */
  predicate CutExactly(s: Sender, seg: TCPSegment, start: int) {
    var room := s.recent + s.window - start;
    var index := if start <= 0 then 0 else start - 1;
    && index + |seg.payload| <= |s.stream.history|
    && |seg.payload| == Min(Min(MAX_PAYLOAD_SIZE, room), |s.stream.history| - index)
    && (seg.header.syn <==> start == 0)
    && (seg.header.fin <==> s.stream.ended && index + |seg.payload| == |s.stream.history|
                            && room > |seg.payload| + (if seg.header.syn then 1 else 0))
  }

  lemma SendCuts(s: Sender)
    requires Accounted(s) && !s.Filled()
    ensures CutExactly(s, s.Segment(), s.next)
  {
    assert !s.finSet;
  }

  lemma CutsSame(s: Sender, seg: TCPSegment, start: int)
    ensures CutExactly(s.Send(), seg, start) <==> CutExactly(s, seg, start)
  {
  }

  /** Outstanding segment `i` of `s'` is cut so, where it stands in the sequence space. */
  predicate CutAt(s: Sender, s': Sender, i: nat) {
    && i < |s'.outstanding|
    && CutExactly(s, s'.outstanding[i], EndOf(s', i) - s'.outstanding[i].Length())
  }

  /** Every segment a call sends is cut so. */
  lemma {:induction false} FillWindowCuts(s: Sender, i: nat)
    requires Accounted(s) && |s.outstanding| <= i < |s.FillWindow().outstanding|
    ensures CutAt(s, s.FillWindow(), i)
    decreases if s.next == 0 then 1 else 0, s.Room()
  {
    if !s.Filled() {
      if i == |s.outstanding| {
        FirstCuts(s);
      } else {
        SendKeeps(s);
        FillWindowCuts(s.Send(), i);
        CutsSameAt(s, s.FillWindow(), i);
      }
    }
  }

  lemma FirstCuts(s: Sender)
    requires Accounted(s) && !s.Filled()
    ensures CutAt(s, s.FillWindow(), |s.outstanding|)
  {
    FirstEnd(s);
    SendCuts(s);
  }

  lemma CutsSameAt(s: Sender, s': Sender, i: nat)
    requires CutAt(s.Send(), s', i)
    ensures CutAt(s, s', i)
  {
    CutsSame(s, s'.outstanding[i], EndOf(s', i) - s'.outstanding[i].Length());
  }

  /** The SYN segment overshoots the window exactly when its payload takes all of it. */
  lemma SynOvershoots(s: Sender)
    requires Accounted(s) && s.next == 0
    ensures s.Segment().Length() > s.recent + s.window
       <==> s.recent + s.window <= MAX_PAYLOAD_SIZE && s.recent + s.window <= s.stream.Buffered()
  {
  }

  /** It happens to every sender that has bytes before it connects: the window is 1, and the SYN
      takes a byte along. */
  lemma EarlyWriteOvershoots(capacity: nat, timeout: u16, isn: u32, data: seq<byte>)
    requires capacity > 0 && data != []
    ensures var s := SenderRuns.Run(capacity, timeout, isn, [SenderRuns.Write(data)]).s;
            s.window == 1 && s.Segment().header.syn && s.Segment().Length() == 2
  {
    var es := [SenderRuns.Write(data)];
    assert es[..0] == [] && SenderRuns.Run(capacity, timeout, isn, []).s == NewSender(capacity, timeout, isn);
    var s := SenderRuns.Run(capacity, timeout, isn, es).s;
    assert s.stream == New(capacity).Write(data);
    assert s.stream.Buffered() >= 1;
    SynOvershoots(s);
  }

  lemma {:induction false} FillWindowFills(s: Sender)
    ensures s.FillWindow().Filled()
    decreases if s.next == 0 then 1 else 0, s.Room()
  {
    if !s.Filled() {
      FillWindowFills(s.Send());
    }
  }

  /** On return the window is full, or the stream is drained and is still open or closed
      with a FIN. */
  lemma FillWindowIsMaximal(s: Sender)
    requires Accounted(s)
    ensures var s' := s.FillWindow();
            && s'.synSet
            && (s'.next >= s'.recent + s'.window
                || (s'.stream.Buffered() == 0 && (!s'.stream.ended || s'.finSet)))
  {
    FillWindowFills(s);
    FillWindowKeeps(s);
  }

  /** Nothing new is sent after the FIN. */
  lemma NothingAfterFin(s: Sender)
    requires Accounted(s) && s.finSet
    ensures s.FillWindow() == s
  {
    assert s.Segment().Length() == 0;
  }
}
