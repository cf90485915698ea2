/** A FIN in the wrong place: one that overtakes the data and loses it, and one that more data
    follows and that makes the window retreat. */
module ReceiverFin {
  import opened Words
  import opened WrappingIntegers
  import opened ByteStreams
  import opened StreamReassemblers
  import opened ReassemblerRuns
  import opened TCPSegments
  import opened TCPReceivers

  // A stream of one segment between its SYN and its FIN

  function SynSegment(isn: u32): TCPSegment {
    TCPSegment(DEFAULT_HEADER.(seqno := isn, syn := true), [])
  }

  function DataSegment(isn: u32, data: seq<byte>): TCPSegment {
    TCPSegment(DEFAULT_HEADER.(seqno := Wrap(1, isn)), data)
  }

  function FinSegment(isn: u32, data: seq<byte>): TCPSegment {
    TCPSegment(DEFAULT_HEADER.(seqno := Wrap(|data| + 1, isn), fin := true), [])
  }

  predicate Fitting(capacity: nat, data: seq<byte>) {
    0 < |data| <= capacity < 0x8000_0000 - 1
  }

  function AfterSyn(capacity: nat, isn: u32): Receiver {
    NewReceiver(capacity).(isn := isn, synSet := true)
  }

  /** A push without data stores nothing. */
  lemma EmptyPush(r: Reassembler, index: nat, eof: bool)
    requires r.Valid() && r.unassembled == map[]
    ensures r.Push([], index, eof) == r.(eofSeen := r.eofSeen || eof,
                                         output := if r.eofSeen || eof then r.output.EndInput() else r.output)
  {
    assert r.Useful([], index) == [] && r.Stored([], index) == map[];
    assert Bytes(map[], r.next, 0) == [] && r.output.history + [] == r.output.history;
  }

  lemma SynReceived(capacity: nat, isn: u32)
    ensures NewReceiver(capacity).SegmentReceived(SynSegment(isn)) == AfterSyn(capacity, isn)
  {
    assert Wrap(0, isn) == isn;
    UnwrapWrap(0, isn, 0);
    EmptyPush(NewReassembler(capacity), 0, false);
  }

  /** All of the data at once, into a store that is empty: the whole of it is assembled, and
      written unless the output has ended. */
  lemma WholePush(r: Reassembler, data: seq<byte>)
    requires r.Valid() && r.unassembled == map[] && r.next == 0 && r.output.history == [] && r.output.taken == 0
    requires |data| <= r.capacity
    ensures var r' := r.Push(data, 0, false);
            && r'.next == |data| && r'.unassembled == map[] && r'.eofSeen == r.eofSeen
            && r'.output.ended == (r.output.ended || r.eofSeen)
            && r'.output.history == if r.output.ended then [] else data
  {
    StoresAll(r, data);
    WholeRun(data, r.Stored(data, 0), r.output.Room());
    WholeAdvance(r, r.Stored(data, 0), data);
  }

  lemma WholeAdvance(r: Reassembler, stored: map<nat, byte>, data: seq<byte>)
    requires r.next == 0 && r.output.history == [] && Holds(stored, 0, |data|)
    requires Bytes(stored, 0, |data|) == data && Without(stored, 0, |data|) == map[] && |data| <= r.output.Room()
    ensures var r' := r.Advance(stored, |data|, false);
            && r'.next == |data| && r'.unassembled == map[] && r'.eofSeen == r.eofSeen
            && r'.output.ended == (r.output.ended || r.eofSeen)
            && r'.output.history == if r.output.ended then [] else data
  {
    assert data[..0] == [] && data[..|data|] == data && [] + data == data;
  }

  lemma WholeRun(data: seq<byte>, stored: map<nat, byte>, room: nat)
    requires stored == Pick(data, Span(0, |data|)) && |data| <= room
    ensures Holds(stored, 0, |data|) && RunLength(stored, 0, room) == |data|
    ensures Bytes(stored, 0, |data|) == data && Without(stored, 0, |data|) == map[]
  {
    SpanIs(0, |data|);
    HoldsAll(stored, 0, |data|);
    RunIs(stored, 0, room, |data|);
    RunIsStream(data, Span(0, |data|), 0, |data|);
    WithoutAll(stored, 0, |data|);
    assert data[..0] + Bytes(stored, 0, |data|) == Bytes(stored, 0, |data|);
  }

  lemma StoresAll(r: Reassembler, data: seq<byte>)
    requires r.Valid() && r.unassembled == map[] && r.next == 0 && r.output.history == [] && r.output.taken == 0
    requires |data| <= r.capacity
    ensures r.Stored(data, 0) == Pick(data, Span(0, |data|))
  {
    var e := Arrive(data, 0, false);
    assert data == data[0..|data|];
    assert Later(data, {}, 0) == map[];
    assert Tracks(r, data, {});
    ArrivalStores(r, data, {}, e);
    assert {} + Carried(e) == Span(0, |data|) && Span(0, |data|) - Span(0, 0) == Span(0, |data|);
  }

  lemma DataReceived(r: Receiver, isn: u32, data: seq<byte>)
    requires r.Valid() && r.synSet && r.isn == isn && r.checkpoint <= |data| + 1 && Fitting(r.capacity, data)
    ensures r.SegmentReceived(DataSegment(isn, data))
            == r.(reassembler := r.reassembler.Push(data, 0, false), checkpoint := 1)
  {
    DataIndex(r, isn, data);
  }

  lemma DataIndex(r: Receiver, isn: u32, data: seq<byte>)
    requires r.isn == isn && r.checkpoint <= |data| + 1 < 0x8000_0000
    ensures Unwrap(Wrap(1, isn), isn, r.checkpoint) == 1 && r.Index(DataSegment(isn, data)) == 0
  {
    UnwrapWrap(1, isn, r.checkpoint);
  }

  lemma FinReceived(r: Receiver, isn: u32, data: seq<byte>)
    requires r.Valid() && r.synSet && !r.finSet && r.isn == isn && r.checkpoint <= 1 && Fitting(r.capacity, data)
    ensures r.SegmentReceived(FinSegment(isn, data))
            == r.(reassembler := r.reassembler.Push([], |data|, true), checkpoint := |data| + 1,
                  finSet := true, finAbs := |data| + 1)
  {
    UnwrapWrap(|data| + 1, isn, r.checkpoint);
    assert Plus(Wrap(|data| + 1, isn), 0) == Wrap(|data| + 1, isn);
  }

  /** SYN, FIN, data: the acknowledgement covers all of it, the output ends without it. */
  lemma FinOvertakesData(capacity: nat, isn: u32, data: seq<byte>)
    requires Fitting(capacity, data)
    ensures var r := NewReceiver(capacity).SegmentReceived(SynSegment(isn))
                     .SegmentReceived(FinSegment(isn, data)).SegmentReceived(DataSegment(isn, data));
            r.AckAbs() == |data| + 2 && r.reassembler.output.ended && r.reassembler.output.history == []
  {
    var r1 := AfterSyn(capacity, isn);
    SynReceived(capacity, isn);
    FinReceived(r1, isn, data);
    EmptyPush(r1.reassembler, |data|, true);
    var r2 := r1.SegmentReceived(FinSegment(isn, data));
    DataReceived(r2, isn, data);
    WholePush(r2.reassembler, data);
  }

  /** SYN, data, FIN: the same acknowledgement, and the data delivered. */
  lemma FinFollowsData(capacity: nat, isn: u32, data: seq<byte>)
    requires Fitting(capacity, data)
    ensures var r := NewReceiver(capacity).SegmentReceived(SynSegment(isn))
                     .SegmentReceived(DataSegment(isn, data)).SegmentReceived(FinSegment(isn, data));
            r.AckAbs() == |data| + 2 && r.reassembler.output.ended && r.reassembler.output.history == data
  {
    var r1 := AfterSyn(capacity, isn);
    SynReceived(capacity, isn);
    DataReceived(r1, isn, data);
    WholePush(r1.reassembler, data);
    var r2 := r1.SegmentReceived(DataSegment(isn, data));
    PushKeepsValid(r1.reassembler, data, 0, false);
    FinReceived(r2, isn, data);
    EmptyPush(r2.reassembler, |data|, true);
  }

  /** In general: a receiver that has delivered all it assembled goes on doing so, for any
      segment, unless one brings the byte at the next index after the output has ended. */
  lemma LostExactly(r: Receiver, seg: TCPSegment)
    requires r.Valid() && |r.reassembler.output.history| == r.reassembler.next
    ensures var q, q' := r.reassembler, r.SegmentReceived(seg).reassembler;
            |q'.output.history| != q'.next <==> q.output.ended && r.Assembles(seg)
  {
    AssemblesExactly(r, seg);
    var noted := r.NoteSyn(seg).NoteFin(seg);
    PushWrites(noted.reassembler, seg.payload, noted.Index(seg), seg.header.fin);
  }

  /** A segment at a stream index. */
  function Piece(isn: u32, index: nat, data: seq<byte>, fin: bool): TCPSegment {
    TCPSegment(DEFAULT_HEADER.(seqno := Wrap(index + 1, isn), fin := fin), data)
  }

  /** What a segment without a SYN does, given the number it unwraps to. */
  lemma ReceivedAt(r: Receiver, seg: TCPSegment, abs: u64)
    requires r.synSet && !seg.header.syn && seg.Length() > 0 && abs >= 1
    requires Unwrap(seg.header.seqno, r.isn, r.checkpoint) == abs
    ensures r.SegmentReceived(seg)
            == r.NoteFin(seg).(reassembler := r.reassembler.Push(seg.payload, abs - 1, seg.header.fin),
                               checkpoint := abs)
  {
    assert r.NoteSyn(seg) == r;
    StoredWith(r.NoteFin(seg), seg, abs);
  }

  lemma StoredWith(r: Receiver, seg: TCPSegment, abs: u64)
    requires r.synSet && !seg.header.syn && seg.Length() > 0 && abs >= 1
    requires Unwrap(seg.header.seqno, r.isn, r.checkpoint) == abs
    ensures r.Store(seg) == r.(reassembler := r.reassembler.Push(seg.payload, abs - 1, seg.header.fin),
                               checkpoint := abs)
  {
    IndexIs(r, seg, abs);
  }

  lemma IndexIs(r: Receiver, seg: TCPSegment, abs: u64)
    requires !seg.header.syn && abs >= 1 && Unwrap(seg.header.seqno, r.isn, r.checkpoint) == abs
    ensures r.Index(seg) == abs - 1
  {
    assert (abs - 1) % 0x1_0000_0000_0000_0000 == abs - 1;
  }

  lemma PieceReceived(r: Receiver, isn: u32, index: nat, data: seq<byte>, fin: bool)
    requires r.synSet && r.isn == isn && r.checkpoint <= 3 && index <= 2 && (data != [] || fin)
    ensures r.SegmentReceived(Piece(isn, index, data, fin))
            == r.NoteFin(Piece(isn, index, data, fin))
               .(reassembler := r.reassembler.Push(data, index, fin), checkpoint := index + 1)
  {
    UnwrapWrap(index + 1, isn, r.checkpoint);
    ReceivedAt(r, Piece(isn, index, data, fin), index + 1);
  }

  /** A byte ahead of the next index waits. */
  lemma BytePush(r: Reassembler, b: byte, index: nat)
    requires r.Valid() && r.unassembled == map[] && r.next < index < r.Edge() && !r.eofSeen
    ensures r.Push([b], index, false) == r.(unassembled := map[index := b])
  {
    assert r.Useful([b], index) == [b] && [b][..0] == [];
    assert Insert(map[], r.capacity, index, [b][..0]) == map[];
    assert r.Stored([b], index) == map[index := b];
    NothingAssembled(r, map[index := b], false);
  }

  lemma NothingAssembled(r: Reassembler, stored: map<nat, byte>, eof: bool)
    requires r.next !in stored && stored != map[]
    ensures RunLength(stored, r.next, r.output.Room()) == 0
    ensures r.Advance(stored, 0, eof) == r.(unassembled := stored, eofSeen := r.eofSeen || eof)
  {
    RunIs(stored, r.next, r.output.Room(), 0);
    assert Bytes(stored, r.next, 0)[..0] == [] && r.output.history + [] == r.output.history;
  }

  /** SYN, a byte at index 2, a FIN where the stream starts, and then the byte there: the right
      edge of the window retreats. */
  lemma DataPassesFin(capacity: nat, isn: u32, first: byte, third: byte)
    requires 3 <= capacity <= 0xFFFF
    ensures var r := NewReceiver(capacity).SegmentReceived(SynSegment(isn))
                     .SegmentReceived(Piece(isn, 2, [third], false)).SegmentReceived(Piece(isn, 0, [], true));
            r.SegmentReceived(Piece(isn, 0, [first], false)).RightEdge() < r.RightEdge()
  {
    var r1 := AfterSyn(capacity, isn);
    SynReceived(capacity, isn);
    PieceReceived(r1, isn, 2, [third], false);
    BytePush(r1.reassembler, third, 2);
    var r2 := r1.(reassembler := r1.reassembler.(unassembled := map[2 := third]), checkpoint := 3);
    assert r1.SegmentReceived(Piece(isn, 2, [third], false)) == r2;
    FinWaits(r2, isn);
    var r3 := r2.SegmentReceived(Piece(isn, 0, [], true));
    Retreats(r3, isn, first);
  }

  lemma FinWaits(r: Receiver, isn: u32)
    requires r.Valid() && r.synSet && !r.finSet && r.isn == isn && r.checkpoint <= 3
    requires r.reassembler.unassembled != map[] && r.reassembler.next == 0 && 0 !in r.reassembler.unassembled
    ensures r.SegmentReceived(Piece(isn, 0, [], true))
            == r.(reassembler := r.reassembler.(eofSeen := true), finSet := true, finAbs := 1, checkpoint := 1)
  {
    PieceReceived(r, isn, 0, [], true);
    BareFinNoted(r, isn);
    assert r.reassembler.Useful([], 0) == [] && r.reassembler.Stored([], 0) == r.reassembler.unassembled;
    NothingAssembled(r.reassembler, r.reassembler.unassembled, true);
  }

  lemma BareFinNoted(r: Receiver, isn: u32)
    requires !r.finSet && r.isn == isn && r.checkpoint <= 3
    ensures r.NoteFin(Piece(isn, 0, [], true)) == r.(finSet := true, finAbs := 1)
  {
    PlusWrap(1, 0, isn);
    UnwrapWrap(1, isn, r.checkpoint);
  }

  lemma Retreats(r: Receiver, isn: u32, b: byte)
    requires r.Valid() && r.synSet && r.isn == isn && r.checkpoint == 1 && r.finAbs == 1
    requires r.reassembler.next == 0 && |r.reassembler.unassembled| <= r.capacity && !r.reassembler.output.ended
    requires 0 < r.WindowSize() <= 0xFFFF
    ensures r.SegmentReceived(Piece(isn, 0, [b], false)).RightEdge() < r.RightEdge()
  {
    UnwrapWrap(1, isn, r.checkpoint);
    assert r.Index(Piece(isn, 0, [b], false)) == 0;
    WindowMoves(r, Piece(isn, 0, [b], false));
  }
}
