/** Safety of a reassembler for slices of one stream that need not fit its window:
    whatever is cut off or refused, nothing but that stream ever comes out. */
module ReassemblerSlices {
  import opened Words
  import opened ByteStreams
  import opened StreamReassemblers

  /** The store agrees with the stream. */
  predicate Agrees(m: map<nat, byte>, stream: seq<byte>) {
    forall k :: k in m ==> k < |stream| && m[k] == stream[k]
  }

  /** The output is a prefix of the stream, and all of it up to the next index unless it
      was ended before. */
  predicate Slices(r: Reassembler, stream: seq<byte>) {
    && r.Valid()
    && Agrees(r.unassembled, stream)
    && |r.output.history| <= r.next <= |stream|
    && r.output.history == stream[..|r.output.history|]
    && (!r.output.ended ==> |r.output.history| == r.next)
  }

  /** A longer stream will do as well. */
  lemma SlicesGrow(r: Reassembler, stream: seq<byte>, longer: seq<byte>)
    requires Slices(r, stream) && stream <= longer
    ensures Slices(r, longer)
  {
  }

  lemma {:induction false} InsertAgrees(
    m: map<nat, byte>, capacity: nat, start: nat, data: seq<byte>, stream: seq<byte>)
    requires Agrees(m, stream)
    requires start + |data| <= |stream| && data == stream[start..start + |data|]
    ensures Agrees(Insert(m, capacity, start, data), stream)
  {
    if data != [] {
      InsertAgrees(m, capacity, start, data[..|data| - 1], stream);
    }
  }

  /** The useful part of a slice is a slice. */
  lemma UsefulIsSlice(r: Reassembler, data: seq<byte>, index: nat, stream: seq<byte>)
    requires index + |data| <= |stream| && data == stream[index..index + |data|]
    ensures var start, useful := r.Start(index), r.Useful(data, index);
            useful != [] ==> start + |useful| <= |stream| && useful == stream[start..start + |useful|]
  {
  }

  lemma StoredAgrees(r: Reassembler, data: seq<byte>, index: nat, stream: seq<byte>)
    requires Agrees(r.unassembled, stream)
    requires index + |data| <= |stream| && data == stream[index..index + |data|]
    ensures Agrees(r.Stored(data, index), stream)
  {
    UsefulIsSlice(r, data, index, stream);
    if r.Useful(data, index) != [] {
      InsertAgrees(r.unassembled, r.capacity, r.Start(index), r.Useful(data, index), stream);
    }
  }

  lemma RunIsNext(m: map<nat, byte>, stream: seq<byte>, next: nat, n: nat)
    requires Agrees(m, stream) && Holds(m, next, n) && next <= |stream|
    ensures next + n <= |stream| && Bytes(m, next, n) == stream[next..next + n]
  {
    if n > 0 {
      BytesAt(m, next, n, n - 1);
    }
    RunByBytes(m, stream, next, n);
  }

  lemma {:induction false} RunByBytes(m: map<nat, byte>, stream: seq<byte>, next: nat, n: nat)
    requires Agrees(m, stream) && Holds(m, next, n) && next + n <= |stream|
    ensures Bytes(m, next, n) == stream[next..next + n]
  {
    if n > 0 {
      RunByBytes(m, stream, next, n - 1);
      assert stream[next..next + n] == stream[next..next + n - 1] + [stream[next + n - 1]];
    }
  }

  lemma AdvanceSlices(r: Reassembler, m: map<nat, byte>, n: nat, eof: bool, stream: seq<byte>)
    requires Slices(r, stream) && Agrees(m, stream) && Holds(m, r.next, n) && n <= r.output.Room()
    requires r.Advance(m, n, eof).Valid()
    ensures Slices(r.Advance(m, n, eof), stream)
  {
    RunIsNext(m, stream, r.next, n);
    WithoutAll(m, r.next, n);
    var bytes := Bytes(m, r.next, n);
    assert !r.output.ended ==> bytes[..r.output.Accepted(bytes)] == bytes;
  }

  /** Any slice, inside the window or not, with or without an end announcement. */
  lemma PushSlices(r: Reassembler, data: seq<byte>, index: nat, eof: bool, stream: seq<byte>)
    requires Slices(r, stream)
    requires index + |data| <= |stream| && data == stream[index..index + |data|]
    ensures Slices(r.Push(data, index, eof), stream)
  {
    PushKeepsValid(r, data, index, eof);
    StoredAgrees(r, data, index, stream);
    AdvanceSlices(r, r.Stored(data, index), RunLength(r.Stored(data, index), r.next, r.output.Room()), eof, stream);
  }
}
