/** TCP headers and segments (libsponge/tcp_helpers/tcp_header.hh, tcp_segment.cc). */
module TCPSegments {
  import opened Words

  datatype TCPHeader = TCPHeader(
    sport: u16, dport: u16, seqno: u32, ackno: u32, doff: byte,
    urg: bool, ack: bool, psh: bool, rst: bool, syn: bool, fin: bool,
    win: u16, cksum: u16, uptr: u16)

  const DEFAULT_HEADER := TCPHeader(0, 0, 0, 0, 5, false, false, false, false, false, false, 0, 0, 0)

  datatype TCPSegment = TCPSegment(header: TCPHeader, payload: seq<byte>)
  {
    /** SYN and FIN each take one sequence number. */
    function Length(): nat {
      |payload| + (if header.syn then 1 else 0) + (if header.fin then 1 else 0)
    }
  }

  /** The sequence numbers a queue of segments takes. */
  function TotalLength(q: seq<TCPSegment>): nat {
    if q == [] then 0 else q[0].Length() + TotalLength(q[1..])
  }

  lemma {:induction false} TotalLengthAppend(q: seq<TCPSegment>, seg: TCPSegment)
    ensures TotalLength(q + [seg]) == TotalLength(q) + seg.Length()
  {
    if q == [] {
      assert (q + [seg])[1..] == [];
    } else {
      assert (q + [seg])[1..] == q[1..] + [seg];
      TotalLengthAppend(q[1..], seg);
    }
  }
}
