/** A TCP endpoint as a value: a sender and a receiver, and what passes between them
    (libsponge/tcp_connection.cc, section 3.6 of RFC 9293). */
module ConnectionModel {
  import opened Words
  import opened WrappingIntegers
  import opened ByteStreams
  import opened TCPSegments
  import opened TCPReceivers
  import opened SenderModel
  import opened SenderAccounting

  const MAX_RETX_ATTEMPTS := 8

  /** Fills in what the receiver has to say. */
  function Stamp(r: Receiver, seg: TCPSegment): TCPSegment {
    match r.Ackno()
    case None => seg
    case Some(ackno) =>
      seg.(header := seg.header.(ack := true, ackno := ackno, win := Min(r.WindowSize(), 0xFFFF)))
  }

  function StampAll(r: Receiver, q: seq<TCPSegment>): seq<TCPSegment> {
    if q == [] then [] else StampAll(r, q[..|q| - 1]) + [Stamp(r, q[|q| - 1])]
  }

  datatype Connection = Connection(
    timeout: u16, receiver: Receiver, sender: Sender, out: seq<TCPSegment>,
    linger: bool, active: bool, quiet: nat)
  {
    predicate Valid() {
      receiver.Valid() && Accounted(sender)
    }

    function WithSender(s: Sender): Connection {
      this.(sender := s)
    }

    function SendSegments(): Connection {
      this.(out := out + StampAll(receiver, sender.out), sender := sender.(out := []))
    }

    /** An unclean shutdown marks both streams. */
    function Fail(): Connection {
      this.(sender := sender.(stream := sender.stream.SetError()),
            receiver := receiver.(reassembler :=
                          receiver.reassembler.(output := receiver.reassembler.output.SetError())),
            active := false)
    }

    function TakeReset(seg: TCPSegment): Connection {
      if seg.header.rst then Fail() else this
    }

    function TakeSegment(seg: TCPSegment): Connection {
      this.(receiver := receiver.SegmentReceived(seg))
    }

    function TakeAck(seg: TCPSegment): Connection {
      if !seg.header.ack then this
      else
        var s := sender.AckReceived(seg.header.ackno, seg.header.win);
        WithSender(if s.synSet then s.FillWindow() else s)
    }

    /** Answers whatever takes sequence numbers: the first SYN with a SYN, all else with
        an empty segment. */
    function Answer(seg: TCPSegment): Connection {
      if seg.Length() == 0 then this
      else WithSender(if seg.header.syn && !sender.synSet then sender.FillWindow() else sender.SendEmpty())
    }

    predicate IsKeepAlive(seg: TCPSegment) {
      && receiver.Ackno().Some? && seg.Length() == 0
      && seg.header.seqno == Plus(receiver.Ackno().value, -1)
    }

    function AnswerKeepAlive(seg: TCPSegment): Connection {
      if IsKeepAlive(seg) then WithSender(sender.SendEmpty()) else this
    }

    /** The peer closing first spares us the wait at the end. */
    function NoteEnd(): Connection {
      if !sender.finSet && receiver.reassembler.output.ended then this.(linger := false) else this
    }

    /** What a segment brings in. */
    function Digest(seg: TCPSegment): Connection {
      TakeReset(seg).TakeSegment(seg).TakeAck(seg)
    }

    /** What is sent back, and what is remembered. */
    function Respond(seg: TCPSegment): Connection {
      Answer(seg).AnswerKeepAlive(seg).Remember().SendSegments()
    }

    function Remember(): Connection {
      NoteEnd().(quiet := 0)
    }

    function SegmentReceived(seg: TCPSegment): Connection {
      Digest(seg).Respond(seg)
    }

    /** Sends what the window allows. */
    function Flush(): Connection {
      WithSender(sender.FillWindow()).SendSegments()
    }

    function WithStream(stream: Stream): Connection {
      WithSender(sender.(stream := stream))
    }

    function Write(data: seq<byte>): Connection {
      if data == [] then this else WithStream(sender.stream.Write(data)).Flush()
    }

    function EndInput(): Connection {
      WithStream(sender.stream.EndInput()).Flush()
    }

    function Connect(): Connection {
      if active then Flush() else this
    }

    /** Both streams are through: ours is sent and acknowledged with its FIN, the peer's
        has ended. */
    predicate Finished() {
      && sender.stream.Eof() && receiver.reassembler.output.ended
      && sender.inFlight == 0 && receiver.reassembler.unassembled == map[]
      && sender.FinAcked()
      && sender.next == |sender.stream.history| + 2
    }

    /** The reset goes out as the front of the sender's queue. */
    function GiveUp(): Connection {
      var failed := Fail();
      var s := failed.sender.SendEmpty();
      var rst := s.out[0].(header := s.out[0].header.(rst := true));
      failed.(sender := s.(out := s.out[1..]), out := out + [Stamp(failed.receiver, rst)])
    }

    function Close(): Connection {
      if !linger || quiet >= 10 * timeout then this.(active := false) else this
    }

    function Elapse(ms: nat): Connection
      requires Accounted(sender)
    {
      this.(quiet := quiet + ms, sender := sender.Tick(ms))
    }

    /** Gives up after too many retransmissions, closes when both streams are through. */
    function Review(): Connection {
      if sender.retransmissions > MAX_RETX_ATTEMPTS then GiveUp()
      else if Finished() then Close().SendSegments()
      else SendSegments()
    }

    function Tick(ms: nat): Connection
      requires Accounted(sender)
    {
      Elapse(ms).Review()
    }

    function Read(n: nat): Connection {
      this.(receiver := receiver.Read(n))
    }
  }

  function NewConnection(timeout: u16, recvCapacity: nat, sendCapacity: nat, isn: u32): Connection {
    Connection(timeout, NewReceiver(recvCapacity), NewSender(sendCapacity, timeout, isn), [], true, true, 0)
  }

  lemma TakeAckKeeps(c: Connection, seg: TCPSegment)
    requires Accounted(c.sender)
    ensures Accounted(c.TakeAck(seg).sender) && c.TakeAck(seg) == c.(sender := c.TakeAck(seg).sender)
  {
    AckReceivedKeeps(c.sender, seg.header.ackno, seg.header.win);
    FillWindowKeeps(c.sender.AckReceived(seg.header.ackno, seg.header.win));
  }

  lemma AnswerKeeps(c: Connection, seg: TCPSegment)
    requires Accounted(c.sender)
    ensures Accounted(c.Answer(seg).sender) && c.Answer(seg) == c.(sender := c.Answer(seg).sender)
    ensures Accounted(c.AnswerKeepAlive(seg).sender)
  {
    FillWindowKeeps(c.sender);
    SendEmptyKeeps(c.sender);
  }

  lemma DrainKeeps(s: Sender, out: seq<TCPSegment>)
    requires Accounted(s)
    ensures Accounted(s.(out := out))
  {
    QuietKeeps(s, s.(out := out));
  }

  lemma FailKeeps(c: Connection)
    requires c.Valid()
    ensures c.Fail().Valid()
  {
    StreamKeeps(c.sender, c.sender.stream.SetError());
  }

  lemma SegmentReceivedKeeps(c: Connection, seg: TCPSegment)
    requires c.Valid()
    ensures c.SegmentReceived(seg).Valid()
  {
    FailKeeps(c);
    var c0 := c.TakeReset(seg);
    SegmentReceivedKeepsValid(c0.receiver, seg);
    var c1 := c0.TakeSegment(seg);
    TakeAckKeeps(c1, seg);
    var c2 := c1.TakeAck(seg);
    AnswerKeeps(c2, seg);
    var c3 := c2.Answer(seg);
    AnswerKeeps(c3, seg);
    var c4 := c3.AnswerKeepAlive(seg);
    DrainKeeps(c4.sender, []);
  }

  /** A change of the stream, a filled window, a drained queue. */
  lemma FillAndDrainKeeps(s: Sender, stream: Stream)
    requires Accounted(s) && stream.Valid() && stream.taken == s.stream.taken
    requires s.stream.history <= stream.history
    requires s.stream.ended ==> stream.ended && stream.history == s.stream.history
    ensures Accounted(s.(stream := stream)) && Accounted(s.(stream := stream).FillWindow())
    ensures Accounted(s.(stream := stream).FillWindow().(out := []))
  {
    StreamKeeps(s, stream);
    FillWindowKeeps(s.(stream := stream));
    DrainKeeps(s.(stream := stream).FillWindow(), []);
  }

  lemma WriteKeeps(c: Connection, data: seq<byte>)
    requires c.Valid()
    ensures c.Write(data).Valid()
  {
    FillAndDrainKeeps(c.sender, c.sender.stream.Write(data));
  }

  lemma EndInputKeeps(c: Connection)
    requires c.Valid()
    ensures c.EndInput().Valid()
  {
    FillAndDrainKeeps(c.sender, c.sender.stream.EndInput());
  }

  lemma ConnectKeeps(c: Connection)
    requires c.Valid()
    ensures c.Connect().Valid()
  {
    FillAndDrainKeeps(c.sender, c.sender.stream);
  }

  lemma ReadKeeps(c: Connection, n: nat)
    requires c.Valid()
    ensures c.Read(n).Valid()
  {
  }

  lemma TickKeepsValid(c: Connection, ms: nat)
    requires c.Valid()
    ensures c.Tick(ms).Valid()
  {
    TickKeeps(c.sender, ms);
    var e := c.Elapse(ms);
    FailKeeps(e);
    SendEmptyKeeps(e.Fail().sender);
    DrainKeeps(e.Fail().sender.SendEmpty(), e.Fail().sender.SendEmpty().out[1..]);
    DrainKeeps(e.sender, []);
  }
}
