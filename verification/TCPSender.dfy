/** The sender and its timer as objects that change in place (libsponge/tcp_sender.cc). */
module TCPSenders {
  import opened Words
  import opened WrappingIntegers
  import opened ByteStreams
  import opened TCPSegments
  import opened SenderModel
  import opened SenderAccounting

  class Timer {
    var elapsedTime: u32
    var ifRun: bool

    ghost function Value(): TimerState
      reads this
    {
      TimerState(elapsedTime, ifRun)
    }

    constructor ()
      ensures Value() == STOPPED
    {
      elapsedTime, ifRun := 0, false;
    }

    method Stop()
      modifies this
      ensures Value() == STOPPED
    {
      ifRun := false;
      elapsedTime := 0;
    }

    method Start()
      modifies this
      ensures Value() == STARTED
    {
      ifRun := true;
      elapsedTime := 0;
    }

    method Increment(ms: nat)
      modifies this`elapsedTime
      ensures elapsedTime == if ifRun then (old(elapsedTime) + ms) % 0x1_0000_0000 else old(elapsedTime)
    {
      if !ifRun {
        return;
      }
      elapsedTime := (elapsedTime + ms) % 0x1_0000_0000;
    }
  }

  class TCPSender {
    const isn: u32
    const initialRetransmissionTimeout: u16
    const stream: ByteStream
    const timer: Timer
    var segmentsOut: seq<TCPSegment>
    var nextSeqno: nat
    var outstandingSegments: seq<TCPSegment>
    var bytesInFlight: nat
    var isSynSet: bool
    var isFinSet: bool
    var consecutiveRetransmissions: u32
    var recentAbsAckno: u64
    var windowSize: u16
    var isWindowSize0: bool
    var rto: u32

    ghost function Value(): Sender
      reads this, stream, timer
      requires stream.Valid()
    {
      Sender(isn, initialRetransmissionTimeout, stream.Value(), segmentsOut, nextSeqno, outstandingSegments,
             bytesInFlight, isSynSet, isFinSet, consecutiveRetransmissions, recentAbsAckno, windowSize,
             isWindowSize0, rto, timer.Value())
    }

    ghost predicate Valid()
      reads this, stream, timer
    {
      stream.Valid() && Accounted(Value())
    }

    constructor (capacity: nat, retxTimeout: u16, isn: u32)
      requires capacity < 0x8000_0000
      ensures Valid() && fresh(stream) && fresh(timer)
      ensures Value() == NewSender(capacity, retxTimeout, isn)
    {
      this.isn := isn;
      initialRetransmissionTimeout := retxTimeout;
      stream := new ByteStream(capacity);
      timer := new Timer();
      segmentsOut, nextSeqno, outstandingSegments, bytesInFlight := [], 0, [], 0;
      isSynSet, isFinSet, consecutiveRetransmissions := false, false, 0;
      recentAbsAckno, windowSize, isWindowSize0 := 0, 1, false;
      rto := retxTimeout;
    }

    /** Cuts the next segment from the stream and notes its SYN and FIN. */
    method MakeSegment(ghost s: Sender) returns (segment: TCPSegment)
      requires stream.Valid() && Value() == s && nextSeqno < recentAbsAckno + windowSize
      modifies this`isSynSet, this`isFinSet, stream
      ensures stream.Valid() && segment == s.Segment()
      ensures Value() == s.(stream := s.stream.Pop(s.ReadSize()), synSet := s.synSet || segment.header.syn,
                            finSet := s.finSet || segment.header.fin)
    {
      var remainingCapacity := recentAbsAckno + windowSize - nextSeqno;
      var readSize := if remainingCapacity < MAX_PAYLOAD_SIZE then remainingCapacity else MAX_PAYLOAD_SIZE;
      assert readSize == s.ReadSize() && remainingCapacity == s.Room();
      var payload := stream.Read(readSize);
      assert Value() == s.(stream := s.stream.Pop(readSize)) && payload == s.stream.Peek(readSize);
      segment := TCPSegment(DEFAULT_HEADER.(seqno := Wrap(nextSeqno, isn)), payload);
      if nextSeqno == 0 {
        isSynSet := true;
        segment := segment.(header := segment.header.(syn := true));
      }
      if stream.Eof() && !isFinSet && remainingCapacity > segment.Length() {
        isFinSet := true;
        segment := segment.(header := segment.header.(fin := true));
      }
    }

    /** One turn of the loop in `FillWindow`; answers whether a segment was sent. */
    method SendNext(ghost s: Sender) returns (sent: bool)
      requires stream.Valid() && Value() == s && nextSeqno < recentAbsAckno + windowSize
      modifies this, stream, timer
      ensures stream.Valid()
      ensures sent == (s.Segment().Length() > 0)
      ensures Value() == if sent then s.Send() else s
    {
      var segment := MakeSegment(s);
      if segment.Length() == 0 {
        assert s.stream.Pop(s.ReadSize()) == s.stream;
        return false;
      }
      Enqueue(segment);
      return true;
    }

    /** Sends a new segment and remembers it. */
    method Enqueue(segment: TCPSegment)
      requires stream.Valid()
      modifies this`segmentsOut, this`outstandingSegments, this`bytesInFlight, this`nextSeqno, timer
      ensures segmentsOut == old(segmentsOut) + [segment]
      ensures outstandingSegments == old(outstandingSegments) + [segment]
      ensures bytesInFlight == old(bytesInFlight) + segment.Length()
      ensures nextSeqno == old(nextSeqno) + segment.Length()
      ensures timer.Value() == if old(timer.ifRun) then old(timer.Value()) else STARTED
    {
      segmentsOut := segmentsOut + [segment];
      outstandingSegments := outstandingSegments + [segment];
      bytesInFlight := bytesInFlight + segment.Length();
      nextSeqno := nextSeqno + segment.Length();
      if !timer.ifRun {
        timer.Start();
      }
    }

    method FillWindow()
      requires Valid()
      modifies this, stream, timer
      ensures Valid() && Value() == old(Value()).FillWindow()
    {
      ghost var was := Value();
      while !isSynSet || nextSeqno < recentAbsAckno + windowSize
        invariant Valid() && Value().FillWindow() == was.FillWindow()
        decreases if nextSeqno == 0 then 1 else 0, Value().Room()
      {
        ghost var s := Value();
        if s.Segment().Length() > 0 {
          SendKeeps(s);
        }
        var sent := SendNext(s);
        if !sent {
          break;
        }
      }
    }

    method AckReceived(ackno: u32, win: u16)
      requires Valid()
      modifies this, timer
      ensures Valid() && Value() == old(Value()).AckReceived(ackno, win)
    {
      ghost var was := Value();
      AckReceivedKeeps(was, ackno, win);
      SetWindowKeeps(was, win);
      if win == 0 {
        windowSize := 1;
        isWindowSize0 := true;
      } else {
        windowSize := win;
      }
      var absAckno := Unwrap(ackno, isn, recentAbsAckno);
      PopAll(absAckno, was.SetWindow(win));
      recentAbsAckno := absAckno;
      if outstandingSegments == [] {
        timer.Stop();
      }
    }

    /** The loop that drops acknowledged segments. */
    method PopAll(absAckno: u64, ghost s: Sender)
      requires stream.Valid() && Value() == s && bytesInFlight == TotalLength(outstandingSegments)
      modifies this`outstandingSegments, this`bytesInFlight, this`rto, this`consecutiveRetransmissions, timer
      ensures Value() == s.PopAcked(absAckno)
    {
      while outstandingSegments != []
        invariant Value().PopAcked(absAckno) == s.PopAcked(absAckno)
        invariant bytesInFlight == TotalLength(outstandingSegments)
        decreases |outstandingSegments|
      {
        ghost var t := Value();
        var segment := outstandingSegments[0];
        var absSeqno := Unwrap(segment.header.seqno, isn, recentAbsAckno);
        if absAckno < absSeqno + segment.Length() || absAckno > nextSeqno {
          break;
        }
        outstandingSegments := outstandingSegments[1..];
        bytesInFlight := bytesInFlight - segment.Length();
        rto := initialRetransmissionTimeout;
        consecutiveRetransmissions := 0;
        timer.Start();
        assert Value() == t.PopFront();
      }
    }

    method Tick(ms: nat)
      requires Valid()
      modifies this, timer
      ensures Valid() && Value() == old(Value()).Tick(ms)
    {
      TickKeeps(Value(), ms);
      if !timer.ifRun {
        return;
      }
      timer.Increment(ms);
      if timer.elapsedTime >= rto {
        Retransmit(Value());
      }
    }

    /** Sends the oldest outstanding segment once more. */
    method Retransmit(ghost s: Sender)
      requires stream.Valid() && Value() == s && outstandingSegments != []
      modifies this`segmentsOut, this`consecutiveRetransmissions, this`rto, timer
      ensures Value() == s.Retransmit()
    {
      var earliest := outstandingSegments[0];
      segmentsOut := segmentsOut + [earliest];
      if !isWindowSize0 {
        consecutiveRetransmissions := (consecutiveRetransmissions + 1) % 0x1_0000_0000;
        rto := (rto * 2) % 0x1_0000_0000;
      }
      timer.Start();
    }

    method SendEmptySegment()
      requires Valid()
      modifies this`segmentsOut
      ensures Valid() && Value() == old(Value()).SendEmpty()
    {
      SendEmptyKeeps(Value());
      segmentsOut := segmentsOut + [TCPSegment(DEFAULT_HEADER.(seqno := Wrap(nextSeqno, isn)), [])];
    }
  }
}
