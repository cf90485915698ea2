/** What the reset of a connection that gives up is made of. */
module ConnectionReset {
  import opened Words
  import opened WrappingIntegers
  import opened ByteStreams
  import opened TCPSegments
  import opened TCPReceivers
  import opened SenderModel
  import opened SenderAccounting
  import opened SenderTimer
  import opened ConnectionModel
  import opened ConnectionRuns

  /** Between calls the sender's queue is empty, unless the connection has given up. */
  predicate Drained(c: Connection) {
    c.sender.out == [] || c.sender.retransmissions > MAX_RETX_ATTEMPTS
  }

  lemma DoDrained(c: Connection, call: Call)
    requires c.Valid() && Drained(c)
    ensures Drained(Do(c, call))
  {
    match call
    case Tick(ms) => TickDrained(c, ms);
    case _ =>
  }

  lemma TickDrained(c: Connection, ms: nat)
    requires c.Valid()
    ensures Drained(c.Tick(ms))
  {
  }

  lemma {:induction false} RunDrained(
    timeout: u16, recvCapacity: nat, sendCapacity: nat, isn: u32, calls: seq<Call>)
    ensures Drained(Run(timeout, recvCapacity, sendCapacity, isn, calls))
  {
    if calls != [] {
      RunDrained(timeout, recvCapacity, sendCapacity, isn, calls[..|calls| - 1]);
      DoDrained(Run(timeout, recvCapacity, sendCapacity, isn, calls[..|calls| - 1]), calls[|calls| - 1]);
    }
  }

  /** The empty segment that giving up makes. */
  function EmptySegment(s: Sender): TCPSegment {
    TCPSegment(DEFAULT_HEADER.(seqno := Wrap(s.next, s.isn)), [])
  }

  /** The sender's queue when the reset is taken from its front. */
  function Backlog(c: Connection, ms: nat): seq<TCPSegment>
    requires c.Valid()
  {
    c.sender.out + (if Expires(c.sender, ms) then [c.sender.outstanding[0]] else []) + [EmptySegment(c.sender)]
  }

  function AsReset(r: Receiver, seg: TCPSegment): TCPSegment {
    Stamp(r, seg.(header := seg.header.(rst := true)))
  }

  lemma TickQueue(c: Connection, ms: nat)
    requires c.Valid()
    ensures c.Elapse(ms).Fail().sender.SendEmpty().out == Backlog(c, ms)
  {
  }

  /** The reset is the front of what is queued, the segment retransmitted by this very tick
      included; it is the empty segment made for it exactly when nothing was queued and the
      timer does not expire. */
  lemma ResetSent(c: Connection, ms: nat)
    requires c.Valid() && GivesUp(c, ms)
    ensures c.Tick(ms).out == c.out + [AsReset(c.Fail().receiver, Backlog(c, ms)[0])]
    ensures c.Tick(ms).sender.out == Backlog(c, ms)[1..]
    ensures c.Tick(ms).sender.out == [] <==> c.sender.out == [] && !Expires(c.sender, ms)
  {
    TickQueue(c, ms);
    assert c.Tick(ms) == c.Elapse(ms).GiveUp();
  }

  /** In every run: the reset with which a connection first gives up is the segment that has just
      been retransmitted, never the empty one made for it, which stays queued. */
  lemma FirstReset(timeout: u16, recvCapacity: nat, sendCapacity: nat, isn: u32, calls: seq<Call>, ms: nat)
    requires var c := Run(timeout, recvCapacity, sendCapacity, isn, calls);
             c.sender.retransmissions <= MAX_RETX_ATTEMPTS && GivesUp(c, ms)
    ensures var c := Run(timeout, recvCapacity, sendCapacity, isn, calls);
            && c.sender.outstanding != [] && c.sender.outstanding[0].Length() > 0
            && c.Tick(ms).out == c.out + [AsReset(c.Fail().receiver, c.sender.outstanding[0])]
            && c.Tick(ms).sender.out == [EmptySegment(c.sender)]
  {
    var c := Run(timeout, recvCapacity, sendCapacity, isn, calls);
    RunDrained(timeout, recvCapacity, sendCapacity, isn, calls);
    CountsOnExpiry(c.sender, ms);
    ResetSent(c, ms);
  }

  lemma CountsOnExpiry(s: Sender, ms: nat)
    requires Accounted(s)
    ensures s.Tick(ms).retransmissions != s.retransmissions ==> Expires(s, ms) && s.outstanding != []
  {
  }

  /** In every run: a later reset is what the one before left queued, if nothing was received or
      written in between; else the segment this tick retransmits, else the empty segment. */
  lemma LaterReset(timeout: u16, recvCapacity: nat, sendCapacity: nat, isn: u32, calls: seq<Call>, ms: nat)
    requires var c := Run(timeout, recvCapacity, sendCapacity, isn, calls);
             c.sender.retransmissions > MAX_RETX_ATTEMPTS && GivesUp(c, ms)
    ensures var c := Run(timeout, recvCapacity, sendCapacity, isn, calls);
            c.Tick(ms).out == c.out + [AsReset(c.Fail().receiver,
              if c.sender.out != [] then c.sender.out[0]
              else if Expires(c.sender, ms) then c.sender.outstanding[0] else EmptySegment(c.sender))]
  {
    ResetSent(Run(timeout, recvCapacity, sendCapacity, isn, calls), ms);
  }
}
