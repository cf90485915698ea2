/** A TCP endpoint as an object (libsponge/tcp_connection.cc). */
module TCPConnections {
  import opened Words
  import opened WrappingIntegers
  import opened ByteStreams
  import opened TCPSegments
  import opened TCPReceivers
  import opened TCPSenders
  import opened SenderModel
  import opened SenderAccounting
  import opened ConnectionModel

  class TCPConnection {
    const rtTimeout: u16
    const receiver: TCPReceiver
    const sender: TCPSender
    var segmentsOut: seq<TCPSegment>
    var lingerAfterStreamsFinish: bool
    var isActive: bool
    var timeSinceLastSegmentReceived: nat

    ghost function Repr(): set<object> {
      {this, receiver, receiver.reassembler, receiver.reassembler.output, sender, sender.stream, sender.timer}
    }

    ghost predicate Valid()
      reads Repr()
    {
      && receiver.Valid() && sender.Valid()
      && receiver.reassembler.output != sender.stream
    }

    ghost function Value(): (c: Connection)
      reads Repr()
      requires Valid()
      ensures c.Valid()
    {
      Connection(rtTimeout, receiver.Value(), sender.Value(), segmentsOut, lingerAfterStreamsFinish, isActive,
                 timeSinceLastSegmentReceived)
    }

    constructor (rtTimeout: u16, recvCapacity: nat, sendCapacity: nat, isn: u32)
      requires recvCapacity < 0x8000_0000 && sendCapacity < 0x8000_0000
      ensures Valid() && fresh(Repr())
      ensures Value() == NewConnection(rtTimeout, recvCapacity, sendCapacity, isn)
    {
      this.rtTimeout := rtTimeout;
      receiver := new TCPReceiver(recvCapacity);
      sender := new TCPSender(sendCapacity, rtTimeout, isn);
      segmentsOut := [];
      lingerAfterStreamsFinish, isActive, timeSinceLastSegmentReceived := true, true, 0;
    }

    method StampSegment(segment: TCPSegment) returns (stamped: TCPSegment)
      requires receiver.Valid()
      ensures stamped == Stamp(receiver.Value(), segment)
    {
      stamped := segment;
      var ackno := receiver.Ackno();
      if ackno.Some? {
        var window := receiver.WindowSize();
        stamped := segment.(header := segment.header.(ack := true, ackno := ackno.value, win := Min(window, 0xFFFF)));
      }
    }

    /** The loop that drains the sender's queue into the connection's. */
    method DrainSender(ghost r: Receiver)
      requires receiver.Valid() && receiver.Value() == r
      modifies this`segmentsOut, sender`segmentsOut
      ensures sender.segmentsOut == []
      ensures segmentsOut == old(segmentsOut) + StampAll(r, old(sender.segmentsOut))
    {
      ghost var q := sender.segmentsOut;
      ghost var n := 0;
      while sender.segmentsOut != []
        invariant 0 <= n <= |q| && sender.segmentsOut == q[n..]
        invariant segmentsOut == old(segmentsOut) + StampAll(r, q[..n])
        decreases |q| - n
      {
        var segment := StampSegment(sender.segmentsOut[0]);
        segmentsOut := segmentsOut + [segment];
        sender.segmentsOut := sender.segmentsOut[1..];
        assert q[..n + 1][..n] == q[..n];
        n := n + 1;
      }
      assert q[..n] == q;
    }

    method SendSegments()
      requires Valid()
      modifies this`segmentsOut, sender`segmentsOut
      ensures Valid() && Value() == old(Value()).SendSegments()
    {
      DrainKeeps(sender.Value(), []);
      DrainSender(receiver.Value());
    }

    method Fail()
      requires Valid()
      modifies this`isActive, sender.stream, receiver.reassembler.output
      ensures Valid() && Value() == old(Value()).Fail()
    {
      FailKeeps(Value());
      sender.stream.SetError();
      receiver.reassembler.output.SetError();
      isActive := false;
    }

    method TakeSegment(seg: TCPSegment)
      requires Valid()
      modifies receiver, receiver.reassembler, receiver.reassembler.output
      ensures Valid() && Value() == old(Value()).TakeSegment(seg)
    {
      receiver.SegmentReceived(seg);
    }

    /** Tells the sender about the acknowledgement. */
    method TakeAck(seg: TCPSegment)
      requires Valid()
      modifies sender, sender.stream, sender.timer
      ensures Valid() && Value() == old(Value()).TakeAck(seg)
    {
      if seg.header.ack {
        sender.AckReceived(seg.header.ackno, seg.header.win);
        if sender.isSynSet {
          sender.FillWindow();
        }
      }
    }

    method Answer(seg: TCPSegment)
      requires Valid()
      modifies sender, sender.stream, sender.timer
      ensures Valid() && Value() == old(Value()).Answer(seg)
    {
      if seg.Length() != 0 {
        if seg.header.syn && !sender.isSynSet {
          sender.FillWindow();
        } else {
          sender.SendEmptySegment();
        }
      }
    }

    method AnswerKeepAlive(seg: TCPSegment)
      requires Valid()
      modifies sender`segmentsOut
      ensures Valid() && Value() == old(Value()).AnswerKeepAlive(seg)
    {
      var ackno := receiver.Ackno();
      if ackno.Some? && seg.Length() == 0 && seg.header.seqno == Plus(ackno.value, -1) {
        sender.SendEmptySegment();
      }
    }

    method Digest(seg: TCPSegment)
      requires Valid()
      modifies Repr()
      ensures Valid() && Value() == old(Value()).Digest(seg)
    {
      if seg.header.rst {
        Fail();
      }
      TakeSegment(seg);
      TakeAck(seg);
    }

    method Remember()
      requires Valid()
      modifies this`lingerAfterStreamsFinish, this`timeSinceLastSegmentReceived
      ensures Valid() && Value() == old(Value()).Remember()
    {
      if !sender.isFinSet && receiver.reassembler.output.inputEnded {
        lingerAfterStreamsFinish := false;
      }
      timeSinceLastSegmentReceived := 0;
    }

    method Respond(seg: TCPSegment)
      requires Valid()
      modifies Repr()
      ensures Valid() && Value() == old(Value()).Respond(seg)
    {
      Answer(seg);
      AnswerKeepAlive(seg);
      Remember();
      SendSegments();
    }

    method SegmentReceived(seg: TCPSegment)
      requires Valid()
      modifies Repr()
      ensures Valid() && Value() == old(Value()).SegmentReceived(seg)
    {
      Digest(seg);
      Respond(seg);
    }

    method Flush()
      requires Valid()
      modifies Repr()
      ensures Valid() && Value() == old(Value()).Flush()
    {
      sender.FillWindow();
      SendSegments();
    }

    method WriteStream(data: seq<byte>) returns (n: nat)
      requires Valid()
      modifies sender.stream
      ensures Valid() && Value() == old(Value()).WithStream(old(sender.stream.Value()).Write(data))
      ensures n == old(sender.stream.Value()).Accepted(data)
    {
      StreamKeeps(sender.Value(), sender.stream.Value().Write(data));
      n := sender.stream.Write(data);
    }

    method Write(data: seq<byte>) returns (n: nat)
      requires Valid()
      modifies Repr()
      ensures Valid() && Value() == old(Value()).Write(data)
      ensures n == old(Value()).sender.stream.Accepted(data)
    {
      if |data| == 0 {
        return 0;
      }
      n := WriteStream(data);
      Flush();
    }

    method EndInputStream()
      requires Valid()
      modifies Repr()
      ensures Valid() && Value() == old(Value()).EndInput()
    {
      EndStream();
      Flush();
    }

    method EndStream()
      requires Valid()
      modifies Repr()
      ensures Valid() && Value() == old(Value()).WithStream(old(Value()).sender.stream.EndInput())
    {
      StreamKeeps(sender.Value(), sender.stream.Value().EndInput());
      sender.stream.EndInput();
    }

    method Connect()
      requires Valid()
      modifies Repr()
      ensures Valid() && Value() == old(Value()).Connect()
    {
      if isActive {
        Flush();
      }
    }

    /** Sends the front of the sender's queue as a reset. */
    method GiveUp()
      requires Valid()
      modifies Repr()
      ensures Valid() && Value() == old(Value()).GiveUp()
    {
      Fail();
      sender.SendEmptySegment();
      SendReset(sender.Value());
    }

    method SendReset(ghost s: Sender)
      requires Valid() && sender.Value() == s && s.out != []
      modifies this`segmentsOut, sender`segmentsOut
      ensures Valid() && sender.Value() == s.(out := s.out[1..])
      ensures segmentsOut
              == old(segmentsOut) + [Stamp(receiver.Value(), s.out[0].(header := s.out[0].header.(rst := true)))]
    {
      DrainKeeps(s, s.out[1..]);
      var front := sender.segmentsOut[0];
      var rst := StampSegment(front.(header := front.header.(rst := true)));
      sender.segmentsOut := sender.segmentsOut[1..];
      segmentsOut := segmentsOut + [rst];
    }

    method Finished() returns (b: bool)
      requires Valid()
      ensures b == Value().Finished()
    {
      return sender.stream.Eof() && receiver.reassembler.output.inputEnded && sender.bytesInFlight == 0
          && receiver.reassembler.unassembledBytes == 0 && sender.isFinSet && sender.nextSeqno == sender.recentAbsAckno
          && sender.nextSeqno == sender.stream.numWritten + 2;
    }

    method Elapse(ms: nat)
      requires Valid()
      modifies this`timeSinceLastSegmentReceived, sender, sender.timer
      ensures Valid() && Value() == old(Value()).Elapse(ms)
    {
      timeSinceLastSegmentReceived := timeSinceLastSegmentReceived + ms;
      sender.Tick(ms);
    }

    method Review()
      requires Valid()
      modifies Repr()
      ensures Valid() && Value() == old(Value()).Review()
    {
      if sender.consecutiveRetransmissions > MAX_RETX_ATTEMPTS {
        GiveUp();
        return;
      }
      var finished := Finished();
      if finished && (!lingerAfterStreamsFinish || timeSinceLastSegmentReceived >= 10 * rtTimeout) {
        isActive := false;
      }
      SendSegments();
    }

    method Tick(ms: nat)
      requires Valid()
      modifies Repr()
      ensures Valid() && Value() == old(Value()).Tick(ms)
    {
      Elapse(ms);
      Review();
    }
  }
}
