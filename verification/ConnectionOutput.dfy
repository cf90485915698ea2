/** What an endpoint sends: everything its sender queues, in order, with the receiver's
    acknowledgement filled in, and an answer to whatever takes sequence numbers. */
module ConnectionOutput {
  import opened Words
  import opened WrappingIntegers
  import opened ByteStreams
  import opened TCPSegments
  import opened TCPReceivers
  import opened SenderModel
  import opened SenderAccounting
  import opened SenderWindow
  import opened SenderOutput
  import opened ConnectionModel

  /** `seg` is `orig` in every field but the three that the receiver fills in, if it can. */
  predicate Carries(r: Receiver, orig: TCPSegment, seg: TCPSegment) {
    && seg.payload == orig.payload
    && seg.header == orig.header.(ack := seg.header.ack, ackno := seg.header.ackno, win := seg.header.win)
    && if r.synSet
       then && seg.header.ack && seg.header.ackno == Wrap(r.AckAbs(), r.isn)
            && seg.header.win == Min(r.WindowSize(), 0xFFFF)
       else seg == orig
  }

  /** From `c` to `c'` the segments `q` went out, all of them and in order. */
  ghost predicate Sends(c: Connection, q: seq<TCPSegment>, c': Connection) {
    && |c'.out| == |c.out| + |q| && c.out <= c'.out
    && forall i :: 0 <= i < |q| ==> Carries(c'.receiver, q[i], c'.out[|c.out| + i])
  }

  lemma {:induction false} StampAllAt(r: Receiver, q: seq<TCPSegment>, i: nat)
    ensures |StampAll(r, q)| == |q|
    ensures i < |q| ==> Carries(r, q[i], StampAll(r, q)[i])
    decreases |q|
  {
    if q != [] {
      var last := |q| - 1;
      StampAllAt(r, q[..last], i);
      if i < last {
        assert q[..last][i] == q[i];
      }
    }
  }

  /** Sending loses nothing and keeps the order. */
  lemma SendsQueued(c: Connection)
    ensures Sends(c, c.sender.out, c.SendSegments())
    ensures c.SendSegments().sender == c.sender.(out := []) && c.SendSegments().receiver == c.receiver
  {
    StampAllAt(c.receiver, c.sender.out, 0);
    forall i | 0 <= i < |c.sender.out| ensures Carries(c.receiver, c.sender.out[i], c.SendSegments().out[|c.out| + i]) {
      StampAllAt(c.receiver, c.sender.out, i);
    }
  }

  // The calls that fill the window

  /** The segments that are outstanding in `s'` after those of `s`. */
  function Added(s: Sender, s': Sender): seq<TCPSegment> {
    if |s.outstanding| <= |s'.outstanding| then s'.outstanding[|s.outstanding|..] else []
  }

  /** The window is full, or the stream is drained and is open or closed with a FIN. */
  predicate Full(s: Sender) {
    && s.synSet
    && (s.next >= s.recent + s.window || (s.stream.Buffered() == 0 && (!s.stream.ended || s.finSet)))
  }

  lemma FlushSends(c: Connection)
    requires Accounted(c.sender)
    ensures var c' := c.Flush();
            && c.sender.outstanding <= c'.sender.outstanding && c'.sender.out == [] && Full(c'.sender)
            && Sends(c, c.sender.out + Added(c.sender, c'.sender), c')
  {
    FillOut(c.sender);
    FillWindowIsMaximal(c.sender);
    SendsQueued(c.WithSender(c.sender.FillWindow()));
  }

  /** Connecting sends what the window allows, the SYN first, if the endpoint is active. */
  lemma ConnectSends(c: Connection)
    requires c.Valid()
    ensures var c' := c.Connect();
            if !c.active then c' == c
            else && Full(c'.sender) && c'.sender.out == [] && c.sender.outstanding <= c'.sender.outstanding
                 && Sends(c, c.sender.out + Added(c.sender, c'.sender), c')
  {
    FlushSends(c);
  }

  /** Writing takes the longest prefix that fits and sends what the window allows. */
  lemma WriteSends(c: Connection, data: seq<byte>)
    requires c.Valid()
    ensures var c', stream := c.Write(data), c.sender.stream;
            if data == [] then c' == c
            else && Full(c'.sender) && c'.sender.out == [] && c.sender.outstanding <= c'.sender.outstanding
                 && Sends(c, c.sender.out + Added(c.sender, c'.sender), c')
                 && c'.sender.stream.history == stream.history +
                    if stream.ended then []
                    else data[..Min(|data|, stream.capacity - (|stream.history| - stream.taken))]
  {
    WriteTakes(c.sender.stream, data);
    StreamFlushes(c, c.sender.stream.Write(data));
  }

  lemma WriteTakes(stream: Stream, data: seq<byte>)
    requires stream.Valid()
    ensures var s' := stream.Write(data);
            && s'.Valid() && s'.taken == stream.taken && s'.ended == stream.ended
            && s'.history == stream.history +
               (if stream.ended then [] else data[..Min(|data|, stream.capacity - (|stream.history| - stream.taken))])
  {
  }

  /** The window is filled from a stream that only grew, or ended. */
  lemma StreamFlushes(c: Connection, stream: Stream)
    requires c.Valid() && stream.Valid() && stream.taken == c.sender.stream.taken
    requires c.sender.stream.history <= stream.history
    requires c.sender.stream.ended ==> stream.ended && stream.history == c.sender.stream.history
    ensures var c' := c.WithStream(stream).Flush();
            && Full(c'.sender) && c'.sender.out == [] && c.sender.outstanding <= c'.sender.outstanding
            && Sends(c, c.sender.out + Added(c.sender, c'.sender), c')
            && c'.sender.stream.history == stream.history && c'.sender.stream.ended == stream.ended
  {
    StreamKeeps(c.sender, stream);
    FlushSends(c.WithStream(stream));
    FillHistory(c.sender.(stream := stream));
  }

  /** Ending the input closes the stream and sends what the window allows, the FIN if it fits. */
  lemma EndInputSends(c: Connection)
    requires c.Valid()
    ensures var c' := c.EndInput();
            && Full(c'.sender) && c'.sender.out == [] && c.sender.outstanding <= c'.sender.outstanding
            && Sends(c, c.sender.out + Added(c.sender, c'.sender), c')
            && c'.sender.stream.ended && c'.sender.stream.history == c.sender.stream.history
  {
    StreamFlushes(c, c.sender.stream.EndInput());
  }

  lemma {:induction false} FillHistory(s: Sender)
    ensures s.FillWindow().stream.history == s.stream.history && s.FillWindow().stream.ended == s.stream.ended
    decreases if s.next == 0 then 1 else 0, s.Room()
  {
    if !s.Filled() {
      FillHistory(s.Send());
    }
  }

  /** A tick that does not give up sends what the sender's tick queued. */
  lemma TickSends(c: Connection, ms: nat)
    requires c.Valid() && c.sender.Tick(ms).retransmissions <= MAX_RETX_ATTEMPTS
    ensures Sends(c, c.sender.Tick(ms).out, c.Tick(ms)) && c.Tick(ms).sender == c.sender.Tick(ms).(out := [])
  {
    var e := c.Elapse(ms);
    SendsQueued(e);
    SendsQueued(e.Close());
  }

  // The reaction to a segment

  lemma FillAdds(s: Sender)
    requires Accounted(s)
    ensures var s' := s.FillWindow();
            && s.outstanding <= s'.outstanding && s'.out == s.out + Added(s, s')
            && s.next <= s'.next && (Added(s, s') != [] <==> s.next < s'.next)
  {
    FillOut(s);
    FillWindowKeeps(s);
    FillGrowsTogether(s);
    var s' := s.FillWindow();
    ChainTail(s', s'.outstanding, s'.next - s'.inFlight, |s.outstanding|);
  }

  /** A part of a chain that is not empty takes sequence numbers. */
  lemma {:induction false} ChainTail(s: Sender, q: seq<TCPSegment>, pos: nat, k: nat)
    requires Chain(s, q, pos) && k <= |q|
    ensures q[k..] != [] ==> TotalLength(q[k..]) > 0
    decreases k
  {
    if k > 0 {
      ChainTail(s, q[1..], pos + q[0].Length(), k - 1);
      assert q[1..][k - 1..] == q[k..];
    } else {
      assert q[0..] == q;
    }
  }

  /** Taking in a segment queues what its acknowledgement releases, and sends nothing yet. */
  lemma DigestQueues(c: Connection, seg: TCPSegment) returns (released: seq<TCPSegment>)
    requires c.Valid()
    ensures var d := c.Digest(seg);
            && d.out == c.out && d.sender.out == c.sender.out + released && Accounted(d.sender)
            && c.sender.next <= d.sender.next && (released != [] <==> c.sender.next < d.sender.next)
            && d.sender.synSet == c.sender.synSet
            && d.receiver.synSet == (c.receiver.synSet || seg.header.syn)
            && (seg.Length() == 0 ==> d.receiver.isn == c.receiver.isn && d.receiver.AckAbs() == c.receiver.AckAbs())
  {
    FailKeeps(c);
    var s := c.TakeReset(seg).sender;
    assert c.sender.out + [] == c.sender.out;
    released := [];
    if seg.header.ack {
      var s1 := s.AckReceived(seg.header.ackno, seg.header.win);
      AckReceivedKeeps(s, seg.header.ackno, seg.header.win);
      AckKeepsSyn(s, seg.header.ackno, seg.header.win);
      if s1.synSet {
        FillAdds(s1);
        FillKeepsSyn(s1);
        released := Added(s1, s1.FillWindow());
        FillWindowKeeps(s1);
      }
    }
  }

  lemma AckKeepsSyn(s: Sender, ackno: u32, win: u16)
    requires Accounted(s)
    ensures s.AckReceived(ackno, win).synSet == s.synSet
  {
    AckReceivedKeeps(s, ackno, win);
  }

  lemma FillKeepsSyn(s: Sender)
    requires Accounted(s) && s.synSet
    ensures s.FillWindow().synSet
  {
    FillWindowIsMaximal(s);
  }

  /** A segment without sequence numbers at the number before the next one asks for a sign of life. */
  predicate KeepAlive(c: Connection, seg: TCPSegment) {
    seg.Length() == 0 && c.receiver.synSet && seg.header.seqno == Plus(Wrap(c.receiver.AckAbs(), c.receiver.isn), -1)
  }

  predicate IsEmpty(s: Sender, seg: TCPSegment) {
    seg.Length() == 0 && seg.payload == [] && seg.header.seqno == Wrap(s.next, s.isn)
  }

  /** What answers a digested segment: what the sender then has queued goes out. */
  lemma Responds(d: Connection, seg: TCPSegment)
    ensures var a, c' := d.Answer(seg).AnswerKeepAlive(seg), d.Respond(seg);
            && Sends(d, a.sender.out, c') && c'.receiver == d.receiver && c'.sender == a.sender.(out := [])
  {
    AnswerQuiet(d, seg);
    RememberSends(d.Answer(seg).AnswerKeepAlive(seg));
  }

  lemma AnswerQuiet(d: Connection, seg: TCPSegment)
    ensures var a := d.Answer(seg).AnswerKeepAlive(seg); a.out == d.out && a.receiver == d.receiver
  {
  }

  lemma RememberSends(a: Connection)
    ensures var c' := a.Remember().SendSegments();
            Sends(a, a.sender.out, c') && c'.receiver == a.receiver && c'.sender == a.sender.(out := [])
  {
    SendsQueued(a.Remember());
  }

  /** The last of what went out carries the acknowledgement. */
  lemma LastCarries(c: Connection, q: seq<TCPSegment>, c': Connection)
    requires Sends(c, q, c') && q != []
    ensures c.out < c'.out && Carries(c'.receiver, q[|q| - 1], c'.out[|c'.out| - 1])
  {
    assert Carries(c'.receiver, q[|q| - 1], c'.out[|c.out| + (|q| - 1)]);
  }

  lemma EmptyGoesLast(c: Connection, s: Sender, c': Connection)
    requires Sends(c, s.SendEmpty().out, c') && c'.sender.next == s.next && c'.sender.isn == s.isn
    ensures c.out < c'.out && IsEmpty(c'.sender, c'.out[|c'.out| - 1])
  {
    LastCarries(c, s.SendEmpty().out, c');
  }

  /** What takes sequence numbers is answered: the last segment sent carries the acknowledgement
      as it is now. The first SYN is answered with a SYN, all else with an empty segment. */
  lemma NumbersAnswered(c: Connection, seg: TCPSegment)
    requires c.Valid() && seg.Length() > 0
    ensures var c' := c.SegmentReceived(seg);
            && c.out < c'.out
            && Acknowledges(c'.receiver, c'.out[|c'.out| - 1])
            && (if seg.header.syn && !c.sender.synSet
                then exists i :: |c.out| <= i < |c'.out| && c'.out[i].header.syn
                else IsEmpty(c'.sender, c'.out[|c'.out| - 1]))
  {
    var _ := DigestQueues(c, seg);
    var d := c.Digest(seg);
    NumbersRespond(d, seg, d.Respond(seg));
  }

  /** The acknowledgement and the window are the receiver's, once it knows a SYN. */
  predicate Acknowledges(r: Receiver, seg: TCPSegment) {
    r.synSet ==>
      seg.header.ack && seg.header.ackno == Wrap(r.AckAbs(), r.isn) && seg.header.win == Min(r.WindowSize(), 0xFFFF)
  }

  lemma NumbersRespond(d: Connection, seg: TCPSegment, c': Connection)
    requires Accounted(d.sender) && seg.Length() > 0 && c' == d.Respond(seg)
    ensures d.out < c'.out && Acknowledges(c'.receiver, c'.out[|c'.out| - 1])
    ensures if seg.header.syn && !d.sender.synSet
            then exists i :: |d.out| <= i < |c'.out| && c'.out[i].header.syn
            else IsEmpty(c'.sender, c'.out[|c'.out| - 1])
  {
    Responds(d, seg);
    var a := d.Answer(seg);
    assert a.AnswerKeepAlive(seg) == a;
    if seg.header.syn && !d.sender.synSet {
      SynQueued(d.sender);
      var k := |d.sender.out|;
      assert Carries(c'.receiver, a.sender.out[k], c'.out[|d.out| + k]);
    } else {
      EmptyGoesLast(d, d.sender, c');
    }
    LastCarries(d, a.sender.out, c');
  }

  /** The first filling of a window queues the SYN first. */
  lemma SynQueued(s: Sender)
    requires Accounted(s) && !s.synSet
    ensures |s.out| < |s.FillWindow().out| && s.FillWindow().out[|s.out|].header.syn
  {
    FillOut(s);
    FirstEnd(s);
  }

  /** What takes no sequence numbers is answered exactly when it is a keep-alive or its
      acknowledgement releases new segments (or something was left queued by giving up): then the
      released segments go out, and an empty one for the keep-alive. */
  lemma OthersAnswered(c: Connection, seg: TCPSegment)
    requires c.Valid() && seg.Length() == 0
    ensures var c' := c.SegmentReceived(seg);
            && c.out <= c'.out
            && (c.out != c'.out <==> c.sender.out != [] || KeepAlive(c, seg) || c.sender.next < c'.sender.next)
            && (KeepAlive(c, seg) ==> c.out < c'.out && IsEmpty(c'.sender, c'.out[|c'.out| - 1]))
  {
    var _ := DigestQueues(c, seg);
    var d := c.Digest(seg);
    KeepAliveIs(c, d, seg);
    OthersRespond(d, seg, d.Respond(seg));
  }

  lemma KeepAliveIs(c: Connection, d: Connection, seg: TCPSegment)
    requires seg.Length() == 0 && c.receiver.synSet == d.receiver.synSet
    requires d.receiver.isn == c.receiver.isn && d.receiver.AckAbs() == c.receiver.AckAbs()
    ensures d.IsKeepAlive(seg) <==> KeepAlive(c, seg)
  {
  }

  lemma OthersRespond(d: Connection, seg: TCPSegment, c': Connection)
    requires seg.Length() == 0 && c' == d.Respond(seg)
    ensures d.out <= c'.out && c'.sender.next == d.sender.next
    ensures d.out != c'.out <==> d.sender.out != [] || d.IsKeepAlive(seg)
    ensures d.IsKeepAlive(seg) ==> d.out < c'.out && IsEmpty(c'.sender, c'.out[|c'.out| - 1])
  {
    Responds(d, seg);
    assert d.Answer(seg) == d;
    if d.IsKeepAlive(seg) {
      EmptyGoesLast(d, d.sender, c');
    }
  }

  /** After an acknowledgement, an endpoint that has sent its SYN has sent all that the window allows. */
  lemma AckFills(c: Connection, seg: TCPSegment)
    requires c.Valid() && seg.header.ack && c.sender.synSet
    ensures Full(c.SegmentReceived(seg).sender)
  {
    FailKeeps(c);
    var s := c.TakeReset(seg).sender;
    AckReceivedKeeps(s, seg.header.ackno, seg.header.win);
    AckKeepsSyn(s, seg.header.ackno, seg.header.win);
    FillWindowIsMaximal(s.AckReceived(seg.header.ackno, seg.header.win));
    RespondKeepsFull(c.Digest(seg), seg);
  }

  lemma RespondKeepsFull(d: Connection, seg: TCPSegment)
    requires Full(d.sender)
    ensures Full(d.Respond(seg).sender)
  {
    Responds(d, seg);
  }
}
