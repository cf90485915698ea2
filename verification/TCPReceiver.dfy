/** The receiving half of a TCP endpoint (libsponge/tcp_receiver.cc). */
module TCPReceivers {
  import opened Results
  import opened Words
  import opened WrappingIntegers
  import opened ByteStreams
  import opened StreamReassemblers
  import opened TCPSegments

  datatype Receiver = Receiver(
    reassembler: Reassembler, capacity: nat, isn: u32, synSet: bool, finSet: bool,
    checkpoint: u64, finAbs: u64)
  {
    predicate Valid() {
      reassembler.Valid() && reassembler.capacity == capacity && (!finSet ==> finAbs == 0)
    }

    /** The first SYN fixes the ISN. */
    function NoteSyn(seg: TCPSegment): Receiver {
      if !synSet && seg.header.syn then this.(isn := seg.header.seqno, synSet := true) else this
    }

    /** The first FIN fixes where the stream ends, even before a SYN did. */
    function NoteFin(seg: TCPSegment): Receiver {
      if !finSet && seg.header.fin
      then this.(finAbs := Unwrap(Plus(seg.header.seqno, seg.Length() - 1), isn, checkpoint), finSet := true)
      else this
    }

    /** The stream index of the payload; the subtraction is that of 64-bit words. */
    function Index(seg: TCPSegment): u64 {
      var abs := Unwrap(seg.header.seqno, isn, checkpoint);
      if seg.header.syn then abs else (abs - 1) % 0x1_0000_0000_0000_0000
    }

    function Store(seg: TCPSegment): Receiver {
      if seg.Length() == 0 || !synSet then this
      else this.(reassembler := reassembler.Push(seg.payload, Index(seg), seg.header.fin),
                 checkpoint := Unwrap(seg.header.seqno, isn, checkpoint))
    }

    function SegmentReceived(seg: TCPSegment): Receiver {
      NoteSyn(seg).NoteFin(seg).Store(seg)
    }

    function Read(n: nat): Receiver {
      this.(reassembler := reassembler.Read(n))
    }

    /** The absolute sequence number of the first thing not received. */
    function AckAbs(): nat {
      reassembler.next + 1 + (if reassembler.next + 1 == finAbs then 1 else 0)
    }

    function Ackno(): Option<u32> {
      if synSet then Some(Wrap(AckAbs(), isn)) else None
    }

    function WindowSize(): nat {
      reassembler.output.Room()
    }

    /** Whether a segment makes the next index move, said before it is received. */
    predicate Assembles(seg: TCPSegment) {
      var noted := NoteSyn(seg);
      seg.Length() > 0 && noted.synSet && reassembler.Extends(seg.payload, noted.Index(seg))
    }

    /** The FIN lies right at the next index, and the segment brings bytes past it. */
    predicate PassesFin(seg: TCPSegment) {
      reassembler.next + 1 == finAbs && Assembles(seg)
    }

    /** The end of the window as a segment can advertise it. */
    function RightEdge(): nat {
      AckAbs() + Min(WindowSize(), 0xFFFF)
    }
  }

  function NewReceiver(capacity: nat): Receiver {
    Receiver(NewReassembler(capacity), capacity, 0, false, false, 0, 0)
  }

  lemma SegmentReceivedKeepsValid(r: Receiver, seg: TCPSegment)
    requires r.Valid()
    ensures r.SegmentReceived(seg).Valid()
    ensures r.reassembler.Bounded() ==> r.SegmentReceived(seg).reassembler.Bounded()
  {
    var noted := r.NoteSyn(seg).NoteFin(seg);
    PushKeepsValid(noted.reassembler, seg.payload, noted.Index(seg), seg.header.fin);
  }

  // The acknowledgement and the window move forward

  /** How a push moves the next index and the room. */
  lemma PushMoves(r: Reassembler, data: seq<byte>, index: nat, eof: bool)
    requires r.Valid()
    ensures var r' := r.Push(data, index, eof);
            && r.next <= r'.next <= r.next + r.output.Room()
            && r'.output.Room() == if r.output.ended then r.output.Room() else r.output.Room() - (r'.next - r.next)
  {
  }

  lemma PushWrites(r: Reassembler, data: seq<byte>, index: nat, eof: bool)
    requires r.Valid()
    ensures var r' := r.Push(data, index, eof);
            && r.next <= r'.next
            && |r'.output.history| == |r.output.history| + (if r.output.ended then 0 else r'.next - r.next)
  {
  }

  /** The next index moves exactly when the segment brings the byte at it, or that byte was
      waiting for room. */
  lemma AssemblesExactly(r: Receiver, seg: TCPSegment)
    requires r.Valid()
    ensures r.reassembler.next < r.SegmentReceived(seg).reassembler.next <==> r.Assembles(seg)
  {
    var noted := r.NoteSyn(seg).NoteFin(seg);
    assert noted.Index(seg) == r.NoteSyn(seg).Index(seg);
    PushExtends(noted.reassembler, seg.payload, noted.Index(seg), seg.header.fin);
  }

  /** What storing a segment does to the acknowledgement and the window. */
  lemma StoreMoves(r: Receiver, seg: TCPSegment)
    requires r.Valid()
    ensures var r' := r.Store(seg);
            && r.reassembler.next <= r'.reassembler.next <= r.reassembler.next + r.WindowSize()
            && r'.finAbs == r.finAbs
            && r'.WindowSize() == if r.reassembler.output.ended then r.WindowSize()
                                  else r.WindowSize() - (r'.reassembler.next - r.reassembler.next)
  {
    PushMoves(r.reassembler, seg.payload, r.Index(seg), seg.header.fin);
  }

  /** For any segment at all the absolute ackno does not decrease, and the advertised
      right edge retreats exactly when the segment brings bytes past the noted FIN to an
      open stream whose window fits the header field. */
  lemma WindowMoves(r: Receiver, seg: TCPSegment)
    requires r.Valid()
    ensures var r' := r.SegmentReceived(seg);
            && r.AckAbs() <= r'.AckAbs()
            && (r'.RightEdge() < r.RightEdge() <==>
                r.PassesFin(seg) && !r.reassembler.output.ended && r.WindowSize() <= 0xFFFF)
  {
    AssemblesExactly(r, seg);
    EdgeMoves(r, seg);
  }

  lemma EdgeMoves(r: Receiver, seg: TCPSegment)
    requires r.Valid()
    ensures var r' := r.SegmentReceived(seg);
            && r.AckAbs() <= r'.AckAbs()
            && (r'.RightEdge() < r.RightEdge() <==>
                && r.reassembler.next + 1 == r.finAbs && r.reassembler.next < r'.reassembler.next
                && !r.reassembler.output.ended && r.WindowSize() <= 0xFFFF)
  {
    StoreMoves(r.NoteSyn(seg).NoteFin(seg), seg);
  }

  class TCPReceiver {
    const reassembler: StreamReassembler
    const capacity: nat
    var isn: u32
    var ifSynSet: bool
    var ifFinSet: bool
    var synFlag: bool
    var finFlag: bool
    var absCheckpoint: u64
    var absSeqnoFin: u64

    ghost predicate Valid()
      reads this, reassembler, reassembler.output
    {
      reassembler.Valid() && reassembler.capacity == capacity && (!ifFinSet ==> absSeqnoFin == 0)
    }

    /** The two flags only hold those of the segment at hand. */
    ghost function Value(): Receiver
      reads this, reassembler, reassembler.output
      requires reassembler.output.Valid()
    {
      Receiver(reassembler.Value(), capacity, isn, ifSynSet, ifFinSet, absCheckpoint, absSeqnoFin)
    }

    constructor (capacity: nat)
      requires capacity < 0x8000_0000
      ensures Valid() && fresh(reassembler) && fresh(reassembler.output)
      ensures Value() == NewReceiver(capacity)
    {
      reassembler := new StreamReassembler(capacity);
      this.capacity := capacity;
      isn, ifSynSet, ifFinSet, synFlag, finFlag := 0, false, false, false, false;
      absCheckpoint, absSeqnoFin := 0, 0;
    }

    method SegmentReceived(seg: TCPSegment)
      requires Valid()
      modifies this, reassembler, reassembler.output
      ensures Valid() && Value() == old(Value()).SegmentReceived(seg)
    {
      ghost var r := Value();
      Note(seg, r);
      if seg.Length() == 0 || !ifSynSet {
        return;
      }
      Store(seg, r.NoteSyn(seg).NoteFin(seg));
    }

    /** Pushes the payload at its index. */
    method Store(seg: TCPSegment, ghost r: Receiver)
      requires Valid() && Value() == r && seg.Length() > 0 && ifSynSet
      requires synFlag == seg.header.syn && finFlag == seg.header.fin
      modifies this, reassembler, reassembler.output
      ensures Valid() && Value() == r.Store(seg)
    {
      var absSeqno := Unwrap(seg.header.seqno, isn, absCheckpoint);
      var streamIndex: u64 := if !synFlag then (absSeqno as int - 1) % 0x1_0000_0000_0000_0000 else absSeqno;
      assert streamIndex == r.Index(seg);
      reassembler.PushSubstring(seg.payload, streamIndex, finFlag);
      absCheckpoint := absSeqno;
    }

    /** Keeps the position of the first SYN and of the first FIN. */
    method Note(seg: TCPSegment, ghost r: Receiver)
      requires reassembler.output.Valid() && Value() == r && (!ifFinSet ==> absSeqnoFin == 0)
      modifies this
      ensures Value() == r.NoteSyn(seg).NoteFin(seg) && (!ifFinSet ==> absSeqnoFin == 0)
      ensures synFlag == seg.header.syn && finFlag == seg.header.fin
    {
      var seqno := seg.header.seqno;
      synFlag := seg.header.syn;
      finFlag := seg.header.fin;
      if !ifSynSet && synFlag {
        isn := seqno;
        ifSynSet := true;
      }
      if !ifFinSet && finFlag {
        absSeqnoFin := Unwrap(Plus(seqno, seg.Length() - 1), isn, absCheckpoint);
        ifFinSet := true;
      }
    }

    method Ackno() returns (ackno: Option<u32>)
      requires Valid()
      ensures ackno == Value().Ackno()
    {
      if !ifSynSet {
        return None;
      }
      var abs := reassembler.nextIndex + (if ifSynSet then 1 else 0);
      abs := abs + (if abs == absSeqnoFin then 1 else 0);
      return Some(Wrap(abs, isn));
    }

    method WindowSize() returns (n: nat)
      requires Valid()
      ensures n == Value().WindowSize()
    {
      return capacity - |reassembler.output.buffer|;
    }
  }
}
