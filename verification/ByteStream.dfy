/** A flow-controlled in-memory byte stream (libsponge/byte_stream.cc). */
module ByteStreams {
  import opened Words

  /** The value of a stream: every byte ever accepted, how many were taken out again,
      and the two flags. What is buffered is the rest of the history. */
  datatype Stream = Stream(capacity: nat, history: seq<byte>, taken: nat, ended: bool, error: bool)
  {
    predicate Valid() {
      taken <= |history| <= taken + capacity
    }

    function Buffered(): nat {
      if taken <= |history| then |history| - taken else 0
    }

    function Room(): nat {
      if Buffered() <= capacity then capacity - Buffered() else 0
    }

    predicate Eof() {
      ended && Buffered() == 0
    }

    /** How many bytes of `data` a write accepts. */
    function Accepted(data: seq<byte>): nat {
      if ended then 0 else Min(|data|, Room())
    }

    function Write(data: seq<byte>): Stream {
      this.(history := history + data[..Accepted(data)])
    }

    /** The next bytes, at most `n` of them. */
    function Peek(n: nat): seq<byte> {
      if taken <= |history| then history[taken..taken + Min(n, Buffered())] else []
    }

    function Pop(n: nat): Stream {
      this.(taken := taken + Min(n, Buffered()))
    }

    function EndInput(): Stream {
      this.(ended := true)
    }

    function SetError(): Stream {
      this.(error := true)
    }
  }

  /** Bytes leave in the order they came: what was taken before and after a pop differs
      by what the pop handed out, and a write only appends. */
  lemma FirstInFirstOut(s: Stream, data: seq<byte>, n: nat)
    requires s.Valid()
    ensures s.Write(data).Valid() && s.Pop(n).Valid()
    ensures s.Pop(n).history == s.history <= s.Write(data).history
    ensures s.history[..s.Pop(n).taken] == s.history[..s.taken] + s.Peek(n)
    ensures |s.Peek(n)| == Min(n, s.Buffered())
  {
  }

  /** A write takes the longest prefix of the data that the room allows, and none after the end:
      no more than `k` bytes when those fill the buffer, no fewer when they fit. */
  lemma WriteTakesLongest(s: Stream, data: seq<byte>, k: nat)
    requires s.Valid() && k <= |data|
    ensures var s' := s.Write(data);
            && s'.Valid() && s' == s.(history := s'.history)
            && s.history <= s'.history && s'.history[|s.history|..] <= data
            && (s.ended ==> s'.history == s.history)
            && (!s.ended && |s.history| - s.taken + k <= s.capacity ==> |s.history| + k <= |s'.history|)
  {
    assert s.Write(data).history[|s.history|..] == data[..s.Accepted(data)];
  }

  function New(capacity: nat): Stream {
    Stream(capacity, [], 0, false, false)
  }

  /** The conversion of a size to `int`. */
  function ToInt(n: nat): int {
    var low := n % 0x1_0000_0000;
    if low < 0x8000_0000 then low else low - 0x1_0000_0000
  }

  class ByteStream {
    var buffer: seq<byte>
    const capacity: nat
    var inputEnded: bool
    var error: bool
    var numWritten: nat
    var numRead: nat
    ghost var history: seq<byte>

    /** Lengths pass through `int`, so a capacity fits 31 bits. */
    ghost predicate Valid()
      reads this
    {
      && |buffer| <= capacity < 0x8000_0000
      && numRead <= numWritten == |history|
      && buffer == history[numRead..]
    }

    ghost function Value(): (s: Stream)
      reads this
      requires Valid()
      ensures s.Valid() && s.Buffered() == |buffer|
    {
      Stream(capacity, history, numRead, inputEnded, error)
    }

    constructor (capacity: nat)
      requires capacity < 0x8000_0000
      ensures Valid() && Value() == New(capacity)
    {
      buffer := [];
      this.capacity := capacity;
      inputEnded, error := false, false;
      numWritten, numRead := 0, 0;
      history := [];
    }

    function RemainingCapacity(): (n: nat)
      reads this
      requires Valid()
      ensures n == Value().Room()
    {
      capacity - |buffer|
    }

    predicate BufferEmpty()
      reads this
    {
      |buffer| == 0
    }

    predicate Eof()
      reads this
      requires Valid()
      ensures Eof() == Value().Eof()
    {
      inputEnded && BufferEmpty()
    }

    method Write(data: seq<byte>) returns (n: nat)
      requires Valid()
      modifies this
      ensures Valid() && Value() == old(Value()).Write(data)
      ensures n == old(Value()).Accepted(data)
    {
      if inputEnded {
        return 0;
      }
      var numWritable := ToInt(Min(|data|, RemainingCapacity()));
      var i := 0;
      while i < numWritable
        invariant 0 <= i <= numWritable
        invariant Valid() && !inputEnded && error == old(error) && numRead == old(numRead)
        invariant history == old(history) + data[..i]
      {
        buffer := buffer + [data[i]];
        numWritten := numWritten + 1;
        history := history + [data[i]];
        i := i + 1;
      }
      n := numWritable;
    }

    method PeekOutput(len: nat) returns (peeked: seq<byte>)
      requires Valid()
      ensures peeked == Value().Peek(len)
    {
      peeked := [];
      var peekLen := ToInt(Min(len, |buffer|));
      var i := 0;
      while i < peekLen
        invariant 0 <= i <= peekLen
        invariant peeked == buffer[..i]
      {
        peeked := peeked + [buffer[i]];
        i := i + 1;
      }
    }

    method PopOutput(len: nat)
      requires Valid()
      modifies this
      ensures Valid() && Value() == old(Value()).Pop(len)
    {
      var popLen := ToInt(Min(len, |buffer|));
      var i := 0;
      while i < popLen
        invariant 0 <= i <= popLen
        invariant Valid() && inputEnded == old(inputEnded) && error == old(error)
        invariant history == old(history) && numRead == old(numRead) + i
      {
        buffer := buffer[1..];
        numRead := numRead + 1;
        i := i + 1;
      }
    }

    method Read(len: nat) returns (peeked: seq<byte>)
      requires Valid()
      modifies this
      ensures Valid() && Value() == old(Value()).Pop(len)
      ensures peeked == old(Value()).Peek(len)
    {
      peeked := PeekOutput(len);
      PopOutput(len);
    }

    method EndInput()
      requires Valid()
      modifies this
      ensures Valid() && Value() == old(Value()).EndInput()
    {
      inputEnded := true;
    }

    method SetError()
      requires Valid()
      modifies this
      ensures Valid() && Value() == old(Value()).SetError()
    {
      error := true;
    }
  }
}
