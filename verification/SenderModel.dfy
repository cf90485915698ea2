/** The sending half of a TCP endpoint (libsponge/tcp_sender.cc): it cuts the outgoing
    stream into segments, keeps the ones not acknowledged, and retransmits the oldest
    (sections 3.8.1 and 3.8.6 of RFC 9293, section 5 of RFC 6298). */
module SenderModel {
  import opened Words
  import opened WrappingIntegers
  import opened ByteStreams
  import opened TCPSegments

  const MAX_PAYLOAD_SIZE := 1000

  datatype TimerState = TimerState(elapsed: u32, running: bool)

  const STOPPED := TimerState(0, false)
  const STARTED := TimerState(0, true)

  /** Sequence numbers and counters of 64 bits are unbounded here; times are 32-bit words. */
  datatype Sender = Sender(
    isn: u32, initialRto: u16, stream: Stream,
    out: seq<TCPSegment>, next: nat, outstanding: seq<TCPSegment>, inFlight: int,
    synSet: bool, finSet: bool, retransmissions: u32,
    recent: u64, window: u16, zeroWindow: bool, rto: u32, timer: TimerState)
  {
    /** What is left of the advertised window. */
    function Room(): nat {
      if next < recent + window then recent + window - next else 0
    }

    function ReadSize(): nat {
      if Room() < MAX_PAYLOAD_SIZE then Room() else MAX_PAYLOAD_SIZE
    }

    /** The segment `fill_window` would send next; it may be empty. */
    function Segment(): TCPSegment {
      var payload := stream.Peek(ReadSize());
      var syn := next == 0;
      var fin := stream.Pop(ReadSize()).Eof() && !finSet && Room() > |payload| + (if syn then 1 else 0);
      TCPSegment(DEFAULT_HEADER.(seqno := Wrap(next, isn), syn := syn, fin := fin), payload)
    }

    function Send(): Sender {
      var seg := Segment();
      this.(stream := stream.Pop(ReadSize()),
            synSet := synSet || seg.header.syn,
            finSet := finSet || seg.header.fin,
            out := out + [seg],
            outstanding := outstanding + [seg],
            inFlight := inFlight + seg.Length(),
            next := next + seg.Length(),
            timer := if timer.running then timer else STARTED)
    }

    /** The window is closed, or there is nothing to send. */
    predicate Filled() {
      (synSet && next >= recent + window) || Segment().Length() == 0
    }

    function FillWindow(): Sender
      decreases if next == 0 then 1 else 0, Room()
    {
      if Filled() then this else Send().FillWindow()
    }

    /** The oldest outstanding segment ends at or before `abs`, which was sent. */
    predicate FrontAcked(abs: u64) {
      && outstanding != []
      && Unwrap(outstanding[0].header.seqno, isn, recent) + outstanding[0].Length() <= abs <= next
    }

    function PopFront(): Sender
      requires outstanding != []
    {
      this.(outstanding := outstanding[1..],
            inFlight := inFlight - outstanding[0].Length(),
            rto := initialRto,
            retransmissions := 0,
            timer := STARTED)
    }

    function PopAcked(abs: u64): Sender
      decreases |outstanding|
    {
      if FrontAcked(abs) then PopFront().PopAcked(abs) else this
    }

    function SetWindow(win: u16): Sender {
      if win == 0 then this.(window := 1, zeroWindow := true) else this.(window := win)
    }

    /** Remembers the acknowledgement, old or new, and stops the timer if nothing is left. */
    function Settle(abs: u64): Sender {
      this.(recent := abs, timer := if outstanding == [] then STOPPED else timer)
    }

    function AckReceived(ackno: u32, win: u16): Sender {
      var abs := Unwrap(ackno, isn, recent);
      SetWindow(win).PopAcked(abs).Settle(abs)
    }

    function Elapse(ms: nat): u32 {
      (timer.elapsed + ms) % 0x1_0000_0000
    }

    /** Sends the oldest outstanding segment again and backs off, unless the peer ever
        advertised an empty window. */
    function Retransmit(): Sender
      requires outstanding != []
    {
      var s := this.(out := out + [outstanding[0]], timer := STARTED);
      if zeroWindow then s
      else s.(retransmissions := (retransmissions + 1) % 0x1_0000_0000, rto := (rto * 2) % 0x1_0000_0000)
    }

    function Tick(ms: nat): Sender
      requires timer.running ==> outstanding != []
    {
      if !timer.running then this
      else if Elapse(ms) >= rto then Retransmit()
      else this.(timer := TimerState(Elapse(ms), true))
    }

    function SendEmpty(): Sender {
      this.(out := out + [TCPSegment(DEFAULT_HEADER.(seqno := Wrap(next, isn)), [])])
    }

    predicate FinAcked() {
      finSet && next == recent
    }
  }

  function NewSender(capacity: nat, timeout: u16, isn: u32): Sender {
    Sender(isn, timeout, New(capacity), [], 0, [], 0, false, false, 0, 0, 1, false, timeout, STOPPED)
  }
}
