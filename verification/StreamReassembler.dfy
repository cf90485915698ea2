/** Puts possibly overlapping, out-of-order pieces of a byte stream back in order
    (libsponge/stream_reassembler.cc). */
module StreamReassemblers {
  import opened Words
  import opened ByteStreams

  /** `unassembled` maps stream indices to bytes waiting for the ones before them. */
  datatype Reassembler = Reassembler(
    output: Stream, capacity: nat, unassembled: map<nat, byte>, eofSeen: bool, next: nat)
  {
    /** Holds after any pushes whatever: no stored index was assembled before. */
    predicate Valid() {
      && output.Valid() && output.capacity == capacity
      && (forall k :: k in unassembled ==> next <= k)
    }

    /** Holds after any pushes whatever: at most one byte more than the capacity is stored. */
    predicate Bounded() {
      |unassembled| <= capacity + 1
    }

    /** The index just past the window. */
    function Edge(): nat {
      next + output.Room()
    }

    /** Where the useful part of a piece starts. */
    function Start(index: nat): nat {
      if index < next then next else index
    }

    /** The useful part: what was assembled before is cut off the front, a piece that
        starts past the window is dropped, and the tail is cut to the room in the
        output, wherever the piece starts. */
    function Useful(data: seq<byte>, index: nat): seq<byte> {
      var subdata :=
        if index < next then (if |data| > next - index then data[next - index..] else [])
        else if index >= Edge() then [] else data;
      if |subdata| > output.Room() then subdata[..output.Room()] else subdata
    }

    /** The map with the useful part in it. */
    function Stored(data: seq<byte>, index: nat): map<nat, byte> {
      Insert(unassembled, capacity, Start(index), Useful(data, index))
    }

    function Push(data: seq<byte>, index: nat, eof: bool): Reassembler {
      Advance(Stored(data, index), RunLength(Stored(data, index), next, output.Room()), eof)
    }

    /** Moves the first `n` stored bytes to the output. */
    function Advance(stored: map<nat, byte>, n: nat, eof: bool): Reassembler
      requires Holds(stored, next, n)
    {
      var written := output.Write(Bytes(stored, next, n));
      var rest := Without(stored, next, n);
      Reassembler(if (eofSeen || eof) && rest == map[] then written.EndInput() else written,
                  capacity, rest, eofSeen || eof, next + n)
    }

    function Read(n: nat): Reassembler {
      this.(output := output.Pop(n))
    }

    /** Whether a piece makes the next index move: the output has room, and the byte at the next
        index is stored already, or is in the piece and the map takes one more. */
    predicate Extends(data: seq<byte>, index: nat) {
      output.Room() > 0 &&
      (next in unassembled || (|unassembled| <= capacity && index <= next < index + |data|))
    }
  }

  function NewReassembler(capacity: nat): Reassembler {
    Reassembler(New(capacity), capacity, map[], false, 0)
  }

  /** Stores the bytes one by one, each only while the map has at most `capacity` entries. */
  function Insert(m: map<nat, byte>, capacity: nat, start: nat, data: seq<byte>): (r: map<nat, byte>)
    ensures |m| <= capacity + 1 ==> |r| <= capacity + 1
  {
    if data == [] then m
    else
      var last := |data| - 1;
      var before := Insert(m, capacity, start, data[..last]);
      if |before| <= capacity then before[start + last := data[last]] else before
  }

  /** Byte `k` of a piece is useful exactly when it was not assembled before, the piece starts
      before the end of the window, and the room reaches that far from where its useful part starts. */
  lemma UsefulExactly(r: Reassembler, data: seq<byte>, index: nat, k: nat)
    requires k < |data|
    ensures var start, useful := r.Start(index), r.Useful(data, index);
            && start == (if index < r.next then r.next else index)
            && (start <= index + k < start + |useful| <==>
                r.next <= index + k < start + r.output.Room() && index < r.next + r.output.Room())
            && (start <= index + k < start + |useful| ==> useful[index + k - start] == data[k])
  {
  }

  lemma {:induction false} InsertKeys(m: map<nat, byte>, capacity: nat, start: nat, data: seq<byte>)
    ensures var r := Insert(m, capacity, start, data);
            m.Keys <= r.Keys && forall k :: k in r ==> k in m || start <= k < start + |data|
  {
    if data != [] {
      InsertKeys(m, capacity, start, data[..|data| - 1]);
    }
  }

  /** `n` consecutive indices from `i` are stored. */
  predicate Holds(m: map<nat, byte>, i: nat, n: nat) {
    n == 0 || (Holds(m, i, n - 1) && i + n - 1 in m)
  }

  lemma {:induction false} HoldsAll(m: map<nat, byte>, i: nat, n: nat)
    ensures Holds(m, i, n) <==> forall k :: i <= k < i + n ==> k in m
  {
    if n > 0 {
      HoldsAll(m, i, n - 1);
    }
  }

  /** How many consecutive indices from `i` are stored, counted up to `limit`. */
  function RunLength(m: map<nat, byte>, i: nat, limit: nat): (n: nat)
    ensures n <= limit && Holds(m, i, n)
    ensures n < limit ==> i + n !in m
  {
    if limit == 0 then 0
    else
      var n := RunLength(m, i, limit - 1);
      if n == limit - 1 && i + n in m then limit else n
  }

  /** Those two conditions leave one length. */
  lemma {:induction false} RunIs(m: map<nat, byte>, i: nat, limit: nat, n: nat)
    requires Holds(m, i, n) && n <= limit
    requires n == limit || i + n !in m
    ensures RunLength(m, i, limit) == n
  {
    HoldsAll(m, i, n);
    HoldsAll(m, i, RunLength(m, i, limit));
  }

  /** The bytes of a run, in order. */
  function Bytes(m: map<nat, byte>, i: nat, n: nat): (b: seq<byte>)
    requires Holds(m, i, n)
    ensures |b| == n
  {
    if n == 0 then [] else Bytes(m, i, n - 1) + [m[i + n - 1]]
  }

  lemma {:induction false} BytesAt(m: map<nat, byte>, i: nat, n: nat, k: nat)
    requires Holds(m, i, n) && k < n
    ensures i + k in m && Bytes(m, i, n)[k] == m[i + k]
  {
    if k < n - 1 {
      BytesAt(m, i, n - 1, k);
    }
  }

  /** The map with a run erased. */
  function Without(m: map<nat, byte>, i: nat, n: nat): map<nat, byte> {
    if n == 0 then m else Without(m, i, n - 1) - {i + n - 1}
  }

  lemma {:induction false} WithoutAll(m: map<nat, byte>, i: nat, n: nat)
    ensures var r := Without(m, i, n);
            forall k :: (k in r <==> k in m && !(i <= k < i + n)) && (k in r ==> r[k] == m[k])
  {
    if n > 0 {
      WithoutAll(m, i, n - 1);
    }
  }

  lemma {:induction false} WithoutSize(m: map<nat, byte>, i: nat, n: nat)
    requires Holds(m, i, n)
    ensures |Without(m, i, n)| + n == |m|
  {
    if n > 0 {
      WithoutSize(m, i, n - 1);
      WithoutAll(m, i, n - 1);
      Erase(Without(m, i, n - 1), i + n - 1);
    }
  }

  lemma Erase(m: map<nat, byte>, k: nat)
    requires k in m
    ensures |m - {k}| == |m| - 1
  {
    assert (m - {k}).Keys == m.Keys - {k};
  }

  lemma PutSize(m: map<nat, byte>, k: nat, v: byte)
    ensures |m[k := v]| == if k in m then |m| else |m| + 1
  {
    assert m[k := v].Keys == m.Keys + {k};
    assert |m| == |m.Keys| && |m[k := v]| == |m[k := v].Keys|;
  }

  lemma EmptySize(m: map<nat, byte>)
    ensures |m| == 0 <==> m == map[]
  {
  }

  /** One more byte of the run. */
  lemma TakeOne(stored: map<nat, byte>, first: nat, n: nat)
    requires Holds(stored, first, n) && first + n in Without(stored, first, n)
    ensures Holds(stored, first, n + 1)
    ensures Bytes(stored, first, n + 1) == Bytes(stored, first, n) + [Without(stored, first, n)[first + n]]
    ensures Without(stored, first, n + 1) == Without(stored, first, n) - {first + n}
  {
    WithoutAll(stored, first, n);
  }

  /** Every push and read keeps the bounds. */
  lemma PushKeepsValid(r: Reassembler, data: seq<byte>, index: nat, eof: bool)
    requires r.Valid()
    ensures r.Push(data, index, eof).Valid()
    ensures r.Bounded() ==> r.Push(data, index, eof).Bounded()
  {
    var stored := r.Stored(data, index);
    var n := RunLength(stored, r.next, r.output.Room());
    StoredAhead(r, data, index);
    AdvanceKeepsValid(r, stored, n, eof);
    WithoutSize(stored, r.next, n);
  }

  lemma StoredAhead(r: Reassembler, data: seq<byte>, index: nat)
    requires r.Valid()
    ensures forall k :: k in r.Stored(data, index) ==> r.next <= k
  {
    InsertKeys(r.unassembled, r.capacity, r.Start(index), r.Useful(data, index));
  }

  lemma AdvanceKeepsValid(r: Reassembler, stored: map<nat, byte>, n: nat, eof: bool)
    requires r.Valid() && Holds(stored, r.next, n) && n <= r.output.Room()
    requires forall k :: k in stored ==> r.next <= k
    ensures r.Advance(stored, n, eof).Valid()
  {
    WithoutAll(stored, r.next, n);
  }

  /** Of a piece the first byte is stored if any is. */
  lemma {:induction false} InsertFirst(m: map<nat, byte>, capacity: nat, start: nat, data: seq<byte>)
    ensures start in Insert(m, capacity, start, data) <==> start in m || (|m| <= capacity && data != [])
  {
    if |data| == 1 {
      assert Insert(m, capacity, start, data[..0]) == m;
    } else if |data| > 1 {
      InsertFirst(m, capacity, start, data[..|data| - 1]);
    }
  }

  lemma StoresNext(r: Reassembler, data: seq<byte>, index: nat)
    requires r.Valid() && r.output.Room() > 0
    ensures r.next in r.Stored(data, index)
       <==> r.next in r.unassembled || (|r.unassembled| <= r.capacity && index <= r.next < index + |data|)
  {
    InsertFirst(r.unassembled, r.capacity, r.Start(index), r.Useful(data, index));
    InsertKeys(r.unassembled, r.capacity, r.Start(index), r.Useful(data, index));
  }

  /** What can be said before the push about whether it moves the next index. */
  lemma PushExtends(r: Reassembler, data: seq<byte>, index: nat, eof: bool)
    requires r.Valid()
    ensures r.next < r.Push(data, index, eof).next <==> r.Extends(data, index)
  {
    if r.output.Room() > 0 {
      StoresNext(r, data, index);
      RunStarts(r.Stored(data, index), r.next, r.output.Room());
    }
  }

  lemma RunStarts(m: map<nat, byte>, i: nat, limit: nat)
    requires limit > 0
    ensures RunLength(m, i, limit) > 0 <==> i in m
  {
    HoldsAll(m, i, RunLength(m, i, limit));
  }

  class StreamReassembler {
    const output: ByteStream
    const capacity: nat
    var unassembled: map<nat, byte>
    var unassembledBytes: nat
    var ifEof: bool
    var nextIndex: nat

    /** The counter is the size of the map. */
    ghost predicate Valid()
      reads this, output
    {
      && output.Valid() && output.capacity == capacity
      && unassembledBytes == |unassembled|
      && Value().Valid() && Value().Bounded()
    }

    ghost function Value(): Reassembler
      reads this, output
      requires output.Valid()
    {
      Reassembler(output.Value(), capacity, unassembled, ifEof, nextIndex)
    }

    constructor (capacity: nat)
      requires capacity < 0x8000_0000
      ensures Valid() && fresh(output) && Value() == NewReassembler(capacity)
    {
      output := new ByteStream(capacity);
      this.capacity := capacity;
      unassembled, unassembledBytes := map[], 0;
      ifEof, nextIndex := false, 0;
    }

    method PushSubstring(data: seq<byte>, index: nat, eof: bool)
      requires Valid()
      modifies this, output
      ensures Valid() && Value() == old(Value()).Push(data, index, eof)
    {
      ghost var was := Value();
      StoredAhead(was, data, index);
      PushKeepsValid(was, data, index, eof);
      if eof {
        ifEof := true;
      }
      var startIndex, subdata := Slice(data, index);
      InsertAll(startIndex, subdata);
      Assemble(was.(unassembled := was.Stored(data, index), eofSeen := was.eofSeen || eof));
    }

    /** Moves the bytes that continue the stream to the output, and ends the output
        when an end was announced and nothing is left to assemble. */
    method Assemble(ghost was: Reassembler)
      requires output.Valid() && output.capacity == capacity && unassembledBytes == |unassembled|
      requires Value() == was && forall k :: k in was.unassembled ==> was.next <= k
      modifies this, output
      ensures output.Valid() && unassembledBytes == |unassembled|
      ensures Value() == was.Advance(was.unassembled, RunLength(was.unassembled, was.next, was.output.Room()), false)
    {
      var assembled, rest, next, erased := TakeRun(unassembled, nextIndex, |output.buffer|, capacity);
      RunIs(was.unassembled, was.next, was.output.Room(), erased);
      EmptySize(rest);
      Emit(assembled, rest, next, erased, was);
    }

    /** Writes the run and ends the output if nothing is left. */
    method Emit(assembled: seq<byte>, rest: map<nat, byte>, next: nat, erased: nat, ghost was: Reassembler)
      requires output.Valid() && output.capacity == capacity && Value() == was
      requires Holds(was.unassembled, was.next, erased) && next == was.next + erased
      requires assembled == Bytes(was.unassembled, was.next, erased)
      requires rest == Without(was.unassembled, was.next, erased)
      requires erased <= unassembledBytes && (unassembledBytes == erased <==> rest == map[])
      modifies this, output
      ensures output.Valid() && unassembled == rest && unassembledBytes == old(unassembledBytes) - erased
      ensures Value() == was.Advance(was.unassembled, erased, false)
    {
      unassembled, nextIndex := rest, next;
      unassembledBytes := unassembledBytes - erased;
      var _ := output.Write(assembled);
      if ifEof && unassembledBytes == 0 {
        output.EndInput();
      }
    }

    /** Cuts a piece down to the part worth storing. */
    method Slice(data: seq<byte>, index: nat) returns (startIndex: nat, subdata: seq<byte>)
      requires output.Valid() && Value().Valid()
      ensures startIndex == Value().Start(index) && subdata == Value().Useful(data, index)
    {
      startIndex := index;
      var remainingCapacity := capacity - |output.buffer|;
      var rightEndWindow := nextIndex + remainingCapacity;
      subdata := data;
      if index < nextIndex {
        startIndex := nextIndex;
        if |subdata| > startIndex - index {
          subdata := data[startIndex - index..];
        } else {
          subdata := [];
        }
      } else if startIndex >= rightEndWindow {
        subdata := [];
      }
      if |subdata| > remainingCapacity {
        subdata := subdata[..remainingCapacity];
      }
    }

    /** The loop that stores the useful bytes. */
    method InsertAll(startIndex: nat, subdata: seq<byte>)
      requires unassembledBytes == |unassembled|
      modifies this`unassembled, this`unassembledBytes
      ensures unassembled == Insert(old(unassembled), capacity, startIndex, subdata)
      ensures unassembledBytes == |unassembled|
    {
      var i := 0;
      while i < |subdata|
        invariant 0 <= i <= |subdata|
        invariant unassembled == Insert(old(unassembled), capacity, startIndex, subdata[..i])
        invariant unassembledBytes == |unassembled|
      {
        assert subdata[..i + 1][..i] == subdata[..i] && subdata[..i + 1][i] == subdata[i];
        PutSize(unassembled, startIndex + i, subdata[i]);
        if |unassembled| <= capacity {
          if startIndex + i !in unassembled {
            unassembledBytes := unassembledBytes + 1;
          }
          unassembled := unassembled[startIndex + i := subdata[i]];
        }
        i := i + 1;
      }
      assert subdata[..i] == subdata;
    }

    static method LeastKey(keys: set<nat>) returns (least: nat)
      requires keys != {}
      ensures least in keys && forall k :: k in keys ==> least <= k
    {
      least :| least in keys;
      var rest := keys - {least};
      while rest != {}
        invariant least in keys && rest <= keys
        invariant forall k :: k in keys ==> k in rest || least <= k
        decreases |rest|
      {
        var k :| k in rest;
        least, rest := if k < least then k else least, rest - {k};
      }
    }

    /** One pass over the map in the order of its keys, erasing each entry that
        continues the stream while the output has room. */
    static method TakeRun(stored: map<nat, byte>, first: nat, buffered: nat, capacity: nat)
      returns (assembled: seq<byte>, rest: map<nat, byte>, next: nat, erased: nat)
      requires buffered <= capacity
      requires forall k :: k in stored ==> first <= k
      ensures next == first + erased && Holds(stored, first, erased)
      ensures buffered + erased == capacity || (buffered + erased < capacity && next !in stored)
      ensures assembled == Bytes(stored, first, erased)
      ensures rest == Without(stored, first, erased) && |rest| + erased == |stored|
    {
      assembled, rest, next, erased := [], stored, first, 0;
      var assembledBytes := buffered;
      var todo := stored.Keys;
      while todo != {}
        invariant todo <= rest.Keys
        invariant next == first + erased && assembledBytes == buffered + erased <= capacity
        invariant Holds(stored, first, erased)
        invariant assembled == Bytes(stored, first, erased)
        invariant rest == Without(stored, first, erased)
        invariant rest.Keys != todo ==> assembledBytes == capacity || next !in rest
        decreases |todo|
      {
        WithoutAll(stored, first, erased);
        var i := LeastKey(todo);
        todo := todo - {i};
        if i == next && assembledBytes < capacity {
          TakeOne(stored, first, erased);
          assembled := assembled + [rest[i]];
          next := next + 1;
          erased := erased + 1;
          assembledBytes := assembledBytes + 1;
          rest := rest - {i};
        }
      }
      WithoutAll(stored, first, erased);
      WithoutSize(stored, first, erased);
    }
  }
}
