/** Two endpoints and a network between them that drops, duplicates and reorders
    segments (libsponge/tcp_helpers/lossy_fd_adapter.hh), as a step system, with what
    every step keeps. */
module TwoEndpoints {
  import opened Words
  import opened WrappingIntegers
  import opened ByteStreams
  import opened StreamReassemblers
  import opened ReassemblerSlices
  import opened TCPSegments
  import opened TCPReceivers
  import opened SenderModel
  import opened SenderAccounting
  import opened SenderAcks
  import opened ConnectionModel

  /** The segment takes no sequence numbers, or holds what the sender's sequence space
      has somewhere. */
  ghost predicate Placed(s: Sender, seg: TCPSegment) {
    seg.Length() == 0 || exists pos: nat :: Occupies(s, seg, pos)
  }

  /** What the receiver knows is part of what the sender's stream gave out. */
  predicate Hears(s: Sender, r: Receiver) {
    && r.Valid() && s.stream.taken <= |s.stream.history|
    && Slices(r.reassembler, if r.synSet then s.stream.history[..s.stream.taken] else [])
    && (if r.synSet then s.synSet && r.isn == s.isn && r.checkpoint <= s.next else !r.finSet && r.checkpoint == 0)
    && (r.finSet ==> s.finSet && r.finAbs == |s.stream.history| + 1)
  }

  /** What the receiver has received of the sequence space. */
  function Acked(r: Receiver): nat {
    if r.synSet then r.AckAbs() else 0
  }

  /** An acknowledgement on its way says no more than the receiver has received. */
  ghost predicate Truthful(isn: u32, r: Receiver, seg: TCPSegment) {
    seg.header.ack ==> r.synSet && exists a: nat :: 1 <= a <= r.AckAbs() && seg.header.ackno == Wrap(a, isn)
  }

  predicate Queued(s: Sender, seg: TCPSegment) {
    seg in s.out || seg in s.outstanding
  }

  predicate Launched(x: Connection, net: set<TCPSegment>, seg: TCPSegment) {
    seg in x.out || seg in net
  }

  predicate Made(x: Connection, net: set<TCPSegment>, seg: TCPSegment) {
    Queued(x.sender, seg) || Launched(x, net, seg)
  }

  /** The stream from `x` to `y` is in order: `xy` and `yx` are the segments under way. */
  ghost predicate Half(x: Connection, y: Connection, xy: set<TCPSegment>, yx: set<TCPSegment>) {
    && Accounted(x.sender)
    && Hears(x.sender, y.receiver)
    && (forall seg :: Made(x, xy, seg) ==> Placed(x.sender, seg))
    && (forall seg :: Queued(x.sender, seg) ==> !seg.header.ack)
    && (forall seg :: Launched(y, yx, seg) ==> Truthful(x.sender.isn, y.receiver, seg))
    && x.sender.next - x.sender.inFlight <= Acked(y.receiver) && x.sender.recent <= Acked(y.receiver)
    && (!y.receiver.synSet ==>
          && x.sender.recent == 0 && x.sender.window == 1
          && forall seg :: Made(x, xy, seg) ==> seg.Length() == 0 || seg.header.syn)
  }

  // Changes on the sending side

  lemma PlacedStays(s: Sender, s': Sender, seg: TCPSegment)
    requires Extends(s, s') && Placed(s, seg)
    ensures Placed(s', seg)
  {
    if seg.Length() != 0 {
      var pos: nat :| Occupies(s, seg, pos);
      OccupiesStays(s, s', seg, pos);
    }
  }

  lemma HearsStays(s: Sender, s': Sender, r: Receiver)
    requires Hears(s, r) && Extends(s, s') && (s.synSet ==> s'.synSet)
    ensures Hears(s', r)
  {
    if r.synSet {
      SlicesGrow(r.reassembler, s.stream.history[..s.stream.taken], s'.stream.history[..s'.stream.taken]);
    }
  }

  /** What a new segment of `s` has to be. */
  ghost predicate Proper(s: Sender, open: bool, seg: TCPSegment) {
    Placed(s, seg) && !seg.header.ack && (open || seg.Length() == 0 || seg.header.syn)
  }

  lemma SenderMoves(x: Connection, s: Sender, y: Connection, xy: set<TCPSegment>, yx: set<TCPSegment>)
    requires Half(x, y, xy, yx)
    requires Extends(x.sender, s) && Accounted(s)
    requires s.next - s.inFlight <= Acked(y.receiver) && s.recent <= Acked(y.receiver)
    requires !y.receiver.synSet ==> s.recent == 0 && s.window == 1
    requires forall seg :: Queued(s, seg) ==> Queued(x.sender, seg) || Proper(s, y.receiver.synSet, seg)
    ensures Half(x.WithSender(s), y, xy, yx)
  {
    var x' := x.WithSender(s);
    HearsStays(x.sender, s, y.receiver);
    forall seg | Made(x', xy, seg) ensures Placed(s, seg) {
      if Made(x, xy, seg) {
        PlacedStays(x.sender, s, seg);
      }
    }
  }

  lemma SendHalf(x: Connection, y: Connection, xy: set<TCPSegment>, yx: set<TCPSegment>)
    requires Half(x, y, xy, yx) && !x.sender.Filled()
    ensures Half(x.WithSender(x.sender.Send()), y, xy, yx)
  {
    var s, seg := x.sender.Send(), x.sender.Segment();
    SendKeeps(x.sender);
    SendOccupies(x.sender);
    assert Placed(s, seg);
    SenderMoves(x, s, y, xy, yx);
  }

  lemma {:induction false} FillHalf(x: Connection, y: Connection, xy: set<TCPSegment>, yx: set<TCPSegment>)
    requires Half(x, y, xy, yx)
    ensures Half(x.WithSender(x.sender.FillWindow()), y, xy, yx)
    decreases if x.sender.next == 0 then 1 else 0, x.sender.Room()
  {
    if x.sender.Filled() {
      assert x.WithSender(x.sender.FillWindow()) == x;
    } else {
      SendHalf(x, y, xy, yx);
      FillHalf(x.WithSender(x.sender.Send()), y, xy, yx);
    }
  }

  lemma SendEmptyHalf(x: Connection, y: Connection, xy: set<TCPSegment>, yx: set<TCPSegment>)
    requires Half(x, y, xy, yx)
    ensures Half(x.WithSender(x.sender.SendEmpty()), y, xy, yx)
  {
    SendEmptyKeeps(x.sender);
    SenderMoves(x, x.sender.SendEmpty(), y, xy, yx);
  }

  lemma TickHalf(x: Connection, y: Connection, xy: set<TCPSegment>, yx: set<TCPSegment>, ms: nat)
    requires Half(x, y, xy, yx)
    ensures Half(x.WithSender(x.sender.Tick(ms)), y, xy, yx)
  {
    TickKeeps(x.sender, ms);
    SenderMoves(x, x.sender.Tick(ms), y, xy, yx);
  }

  lemma StreamHalf(x: Connection, y: Connection, xy: set<TCPSegment>, yx: set<TCPSegment>, stream: Stream)
    requires Half(x, y, xy, yx)
    requires stream.Valid() && stream.taken == x.sender.stream.taken
    requires x.sender.stream.history <= stream.history
    requires x.sender.stream.ended ==> stream.ended && stream.history == x.sender.stream.history
    ensures Half(x.WithStream(stream), y, xy, yx)
  {
    StreamKeeps(x.sender, stream);
    SenderMoves(x, x.sender.(stream := stream), y, xy, yx);
  }

  // Acknowledgements

  /** The receiver has received no more than was sent. */
  lemma AckedIsSent(s: Sender, r: Receiver)
    requires Accounted(s) && Hears(s, r)
    ensures Acked(r) <= s.next
  {
  }

  /** The acknowledgement is of something the peer received, within 2^31 of the last one. */
  ghost predicate FreshAck(s: Sender, r: Receiver, seg: TCPSegment) {
    seg.header.ack ==>
      && InRange(s)
      && exists a: nat :: 1 <= a <= Acked(r) && seg.header.ackno == Wrap(a, s.isn)
                       && -0x8000_0000 <= a - s.recent < 0x8000_0000
  }

  /** Only covered segments go, so the queue still starts at or before what it did or the
      acknowledgement. */
  lemma {:induction false} UnackedStart(s: Sender, q: seq<TCPSegment>, pos: nat, abs: nat)
    requires Chain(s, q, pos)
    ensures TotalLength(Unacked(q, pos, abs)) <= TotalLength(q)
    ensures pos + TotalLength(q) - TotalLength(Unacked(q, pos, abs)) <= if pos < abs then abs else pos
  {
    if q != [] {
      var end := pos + q[0].Length();
      if end <= abs {
        assert Unacked(q, pos, abs) == Unacked(q[1..], end, abs);
        UnackedStart(s, q[1..], end, abs);
      } else {
        AllUnacked(s, q, pos, abs);
      }
    }
  }

  lemma {:induction false} PopAckedSubset(s: Sender, abs: u64)
    ensures forall seg :: seg in s.PopAcked(abs).outstanding ==> seg in s.outstanding
    decreases |s.outstanding|
  {
    if s.FrontAcked(abs) {
      PopAckedSubset(s.PopFront(), abs);
    }
  }

  /** A segment leaves the queue only after the peer has received all of it. */
  lemma AckClears(s: Sender, r: Receiver, ackno: u32, win: u16, a: nat)
    requires Accounted(s) && Hears(s, r) && s.next - s.inFlight <= Acked(r) && InRange(s)
    requires a <= Acked(r) && ackno == Wrap(a, s.isn) && -0x8000_0000 <= a - s.recent < 0x8000_0000
    ensures var s' := s.AckReceived(ackno, win); s'.next - s'.inFlight <= Acked(r) && s'.recent == a
  {
    UnwrapWrap(a, s.isn, s.recent);
    AckedIsSent(s, r);
    AckExact(s, ackno, win);
    AckReceivedKeeps(s, ackno, win);
    ClearsTo(s, s.AckReceived(ackno, win), a);
  }

  lemma ClearsTo(s: Sender, s': Sender, a: nat)
    requires Accounted(s) && Accounted(s') && s'.next == s.next
    requires s'.outstanding == Unacked(s.outstanding, s.next - s.inFlight, a)
    ensures s'.next - s'.inFlight <= if s.next - s.inFlight < a then a else s.next - s.inFlight
  {
    UnackedStart(s, s.outstanding, s.next - s.inFlight, a);
  }

  lemma AckHalf(x: Connection, y: Connection, xy: set<TCPSegment>, yx: set<TCPSegment>, seg: TCPSegment)
    requires Half(x, y, xy, yx) && seg.header.ack && FreshAck(x.sender, y.receiver, seg)
    ensures Half(x.WithSender(x.sender.AckReceived(seg.header.ackno, seg.header.win)), y, xy, yx)
  {
    var s := x.sender.AckReceived(seg.header.ackno, seg.header.win);
    var a: nat :| 1 <= a <= Acked(y.receiver) && seg.header.ackno == Wrap(a, x.sender.isn)
                  && -0x8000_0000 <= a - x.sender.recent < 0x8000_0000;
    AckClears(x.sender, y.receiver, seg.header.ackno, seg.header.win, a);
    AckReceivedKeeps(x.sender, seg.header.ackno, seg.header.win);
    PopAckedSubset(x.sender.SetWindow(seg.header.win), Unwrap(seg.header.ackno, x.sender.isn, x.sender.recent));
    SenderMoves(x, s, y, xy, yx);
  }

  // Changes on the receiving side

  /** The segment lies within 2^31 of the receiver's checkpoint. */
  ghost predicate Fresh(s: Sender, r: Receiver, seg: TCPSegment) {
    seg.Length() == 0 || exists pos: nat :: Occupies(s, seg, pos) && Near(r, seg, pos)
  }

  predicate Near(r: Receiver, seg: TCPSegment, pos: nat) {
    && r.checkpoint <= 0xFFFF_FFFF_0000_0000
    && -0x8000_0000 <= pos - r.checkpoint
    && pos + seg.Length() - r.checkpoint <= 0x8000_0000
  }

  /** The SYN gives the receiver the sender's ISN. */
  lemma NoteSynHears(s: Sender, r: Receiver, seg: TCPSegment, pos: nat)
    requires Accounted(s) && Hears(s, r) && Occupies(s, seg, pos)
    requires r.synSet || seg.header.syn
    ensures var q := r.NoteSyn(seg);
            && Hears(s, q) && q.synSet && q.checkpoint == r.checkpoint && q.finSet == r.finSet
            && q.reassembler == r.reassembler
  {
    if !r.synSet {
      SlicesGrow(r.reassembler, [], s.stream.history[..s.stream.taken]);
    }
  }

  /** The FIN lies where the sender's stream ends. */
  lemma NoteFinHears(s: Sender, r: Receiver, seg: TCPSegment, pos: nat)
    requires Accounted(s) && Hears(s, r) && r.synSet && Occupies(s, seg, pos) && Near(r, seg, pos)
    ensures Hears(s, r.NoteFin(seg))
  {
    if !r.finSet && seg.header.fin {
      PlusWrap(pos, seg.Length() - 1, s.isn);
      UnwrapWrap(pos + seg.Length() - 1, s.isn, r.checkpoint);
    }
  }

  /** The payload is stored where it belongs in the stream. */
  lemma StoreHears(s: Sender, r: Receiver, seg: TCPSegment, pos: nat)
    requires Accounted(s) && Hears(s, r) && r.synSet && Occupies(s, seg, pos) && Near(r, seg, pos)
    ensures Hears(s, r.Store(seg))
  {
    StoresAt(s, r, seg, pos);
    StoresSlice(s, r.reassembler, seg, pos);
  }

  /** What is stored is a slice of what the sender took from its stream. */
  lemma StoresSlice(s: Sender, r: Reassembler, seg: TCPSegment, pos: nat)
    requires Occupies(s, seg, pos) && Slices(r, s.stream.history[..s.stream.taken])
    ensures var r' := r.Push(seg.payload, DataIndex(pos), seg.header.fin);
            Slices(r', s.stream.history[..s.stream.taken]) && r'.capacity == r.capacity
  {
    var sent := s.stream.history[..s.stream.taken];
    assert seg.payload == sent[DataIndex(pos)..DataIndex(pos) + |seg.payload|];
    PushSlices(r, seg.payload, DataIndex(pos), seg.header.fin, sent);
    PushKeepsCapacity(r, seg.payload, DataIndex(pos), seg.header.fin);
  }

  /** The segment is unwrapped to its place. */
  lemma StoresAt(s: Sender, r: Receiver, seg: TCPSegment, pos: nat)
    requires r.synSet && r.isn == s.isn && Occupies(s, seg, pos) && Near(r, seg, pos)
    ensures pos < 0x1_0000_0000_0000_0000
    ensures r.Store(seg) == r.(reassembler := r.reassembler.Push(seg.payload, DataIndex(pos), seg.header.fin),
                               checkpoint := pos)
  {
    UnwrapWrap(pos, s.isn, r.checkpoint);
    assert r.Index(seg) == DataIndex(pos);
  }

  lemma PushKeepsCapacity(r: Reassembler, data: seq<byte>, index: nat, eof: bool)
    ensures r.Push(data, index, eof).capacity == r.capacity
  {
  }

  lemma SegmentHears(s: Sender, r: Receiver, seg: TCPSegment)
    requires Accounted(s) && Hears(s, r) && Fresh(s, r, seg)
    requires r.synSet || seg.Length() == 0 || seg.header.syn
    ensures Hears(s, r.SegmentReceived(seg))
  {
    if seg.Length() != 0 {
      var pos: nat :| Occupies(s, seg, pos) && Near(r, seg, pos);
      NoteSynHears(s, r, seg, pos);
      NoteFinHears(s, r.NoteSyn(seg), seg, pos);
      StoreHears(s, r.NoteSyn(seg).NoteFin(seg), seg, pos);
    } else {
      assert r.SegmentReceived(seg) == r;
    }
  }

  lemma TruthfulStays(isn: u32, r: Receiver, r': Receiver, seg: TCPSegment)
    requires Truthful(isn, r, seg) && (r.synSet ==> r'.synSet) && r.AckAbs() <= r'.AckAbs()
    ensures Truthful(isn, r', seg)
  {
    if seg.header.ack {
      var a: nat :| 1 <= a <= r.AckAbs() && seg.header.ackno == Wrap(a, isn);
      assert 1 <= a <= r'.AckAbs();
    }
  }

  /** The receiver of `y` moves on; the stream concerned is the one from `x`. */
  lemma ReceiverMoves(x: Connection, y: Connection, r: Receiver, xy: set<TCPSegment>, yx: set<TCPSegment>)
    requires Half(x, y, xy, yx) && Hears(x.sender, r)
    requires (y.receiver.synSet ==> r.synSet) && y.receiver.AckAbs() <= r.AckAbs()
    ensures Half(x, y.(receiver := r), xy, yx)
  {
    var y' := y.(receiver := r);
    forall seg | Launched(y', yx, seg) ensures Truthful(x.sender.isn, r, seg) {
      assert Launched(y, yx, seg);
      TruthfulStays(x.sender.isn, y.receiver, r, seg);
    }
  }

  lemma ReceiveHalf(x: Connection, y: Connection, xy: set<TCPSegment>, yx: set<TCPSegment>, seg: TCPSegment)
    requires Half(x, y, xy, yx) && seg in xy && Fresh(x.sender, y.receiver, seg)
    ensures Half(x, y.TakeSegment(seg), xy, yx)
  {
    assert Made(x, xy, seg);
    SegmentHears(x.sender, y.receiver, seg);
    WindowMoves(y.receiver, seg);
    ReceiverMoves(x, y, y.receiver.SegmentReceived(seg), xy, yx);
  }

  lemma ReadHalf(x: Connection, y: Connection, xy: set<TCPSegment>, yx: set<TCPSegment>, n: nat)
    requires Half(x, y, xy, yx)
    ensures Half(x, y.Read(n), xy, yx)
  {
    ReceiverMoves(x, y, y.receiver.Read(n), xy, yx);
  }

  // Segments going out

  /** `seg` is `orig` with the receiver's acknowledgement in it. */
  predicate Copy(r: Receiver, orig: TCPSegment, seg: TCPSegment) {
    && seg.payload == orig.payload && seg.header.seqno == orig.header.seqno
    && seg.header.syn == orig.header.syn && seg.header.fin == orig.header.fin
    && (if r.synSet then seg.header.ack && seg.header.ackno == Wrap(r.AckAbs(), r.isn)
        else seg.header.ack == orig.header.ack)
  }

  ghost predicate Copies(r: Receiver, q: seq<TCPSegment>, sent: seq<TCPSegment>) {
    forall seg :: seg in sent ==> exists orig :: orig in q && Copy(r, orig, seg)
  }

  lemma {:induction false} StampAllCopies(r: Receiver, q: seq<TCPSegment>)
    ensures Copies(r, q, StampAll(r, q))
  {
    if q != [] {
      var last := |q| - 1;
      StampAllCopies(r, q[..last]);
      forall seg | seg in StampAll(r, q) ensures exists orig :: orig in q && Copy(r, orig, seg) {
        if seg in StampAll(r, q[..last]) {
          var orig :| orig in q[..last] && Copy(r, orig, seg);
          assert orig in q;
        } else {
          assert q[last] in q && Copy(r, q[last], seg);
        }
      }
    }
  }

  lemma CopyPlaced(s: Sender, r: Receiver, orig: TCPSegment, seg: TCPSegment)
    requires Placed(s, orig) && Copy(r, orig, seg)
    ensures Placed(s, seg) && seg.Length() == orig.Length()
  {
    if seg.Length() != 0 {
      var pos: nat :| Occupies(s, orig, pos);
      assert Occupies(s, seg, pos);
    }
  }

  /** Segments leave the sender's queue for the wire. */
  function Launch(x: Connection, rest: seq<TCPSegment>, sent: seq<TCPSegment>): Connection {
    x.(sender := x.sender.(out := rest), out := x.out + sent)
  }

  lemma LaunchForward(x: Connection, y: Connection, xy: set<TCPSegment>, yx: set<TCPSegment>,
                      rest: seq<TCPSegment>, sent: seq<TCPSegment>)
    requires Half(x, y, xy, yx) && Copies(x.receiver, x.sender.out, sent)
    requires forall seg :: seg in rest ==> seg in x.sender.out
    ensures Half(Launch(x, rest, sent), y, xy, yx)
  {
    var x' := Launch(x, rest, sent);
    DrainKeeps(x.sender, rest);
    HearsStays(x.sender, x'.sender, y.receiver);
    forall seg | Made(x', xy, seg)
      ensures Placed(x'.sender, seg)
      ensures !y.receiver.synSet ==> seg.Length() == 0 || seg.header.syn
    {
      if Made(x, xy, seg) {
        PlacedStays(x.sender, x'.sender, seg);
      } else {
        assert seg in sent;
        var orig :| orig in x.sender.out && Copy(x.receiver, orig, seg);
        assert Made(x, xy, orig);
        CopyPlaced(x.sender, x.receiver, orig, seg);
        PlacedStays(x.sender, x'.sender, seg);
      }
    }
    forall seg | Queued(x'.sender, seg) ensures !seg.header.ack {
      assert Queued(x.sender, seg);
    }
  }

  lemma LaunchBackward(x: Connection, y: Connection, xy: set<TCPSegment>, yx: set<TCPSegment>,
                       rest: seq<TCPSegment>, sent: seq<TCPSegment>)
    requires Half(y, x, yx, xy) && Copies(x.receiver, x.sender.out, sent)
    requires forall seg :: Queued(x.sender, seg) ==> !seg.header.ack
    ensures Half(y, Launch(x, rest, sent), yx, xy)
  {
    var x' := Launch(x, rest, sent);
    forall seg | Launched(x', xy, seg) ensures Truthful(y.sender.isn, x.receiver, seg) {
      if !Launched(x, xy, seg) {
        assert seg in sent;
        var orig :| orig in x.sender.out && Copy(x.receiver, orig, seg);
        assert Queued(x.sender, orig);
      }
    }
  }

  /** Both directions at once. */
  ghost predicate Sound(x: Connection, y: Connection, xy: set<TCPSegment>, yx: set<TCPSegment>) {
    Half(x, y, xy, yx) && Half(y, x, yx, xy)
  }

  /** A change of `x`'s sender alone leaves the other direction alone. */
  lemma OtherSender(x: Connection, s: Sender, y: Connection, xy: set<TCPSegment>, yx: set<TCPSegment>)
    requires Half(y, x, yx, xy)
    ensures Half(y, x.WithSender(s), yx, xy)
  {
    forall seg | Launched(x.WithSender(s), xy, seg) ensures Truthful(y.sender.isn, x.receiver, seg) {
      assert Launched(x, xy, seg);
    }
  }

  lemma OtherReceiver(x: Connection, r: Receiver, y: Connection, xy: set<TCPSegment>, yx: set<TCPSegment>)
    requires Half(x, y, xy, yx)
    ensures Half(x.(receiver := r), y, xy, yx)
  {
    forall seg | Made(x.(receiver := r), xy, seg) ensures Made(x, xy, seg) {
    }
  }

  lemma SendSegmentsSound(x: Connection, y: Connection, xy: set<TCPSegment>, yx: set<TCPSegment>)
    requires Sound(x, y, xy, yx)
    ensures Sound(x.SendSegments(), y, xy, yx)
  {
    StampAllCopies(x.receiver, x.sender.out);
    LaunchForward(x, y, xy, yx, [], StampAll(x.receiver, x.sender.out));
    LaunchBackward(x, y, xy, yx, [], StampAll(x.receiver, x.sender.out));
  }

  /** The flags and the clock of a connection play no part. */
  lemma FlagsSound(x: Connection, x': Connection, y: Connection, xy: set<TCPSegment>, yx: set<TCPSegment>)
    requires Sound(x, y, xy, yx)
    requires x' == x.(linger := x'.linger, active := x'.active, quiet := x'.quiet)
    ensures Sound(x', y, xy, yx)
  {
    forall seg | Made(x', xy, seg) ensures Made(x, xy, seg) {
    }
    forall seg | Launched(x', xy, seg) ensures Launched(x, xy, seg) {
    }
  }
}
