/** Reading and writing integers in network byte order (libsponge/util/parser.cc). */
module Parsers {
  import opened Words

  datatype ParseResult =
    | NoError | BadChecksum | PacketTooShort | WrongIPVersion | HeaderTooShort | TruncatedPacket | Unsupported

  /** What is left to parse, and the result so far. */
  datatype Input = Input(buffer: seq<byte>, error: ParseResult)
  {
    function Check(n: nat): Input {
      if n > |buffer| then this.(error := PacketTooShort) else this
    }

    predicate Fails(n: nat) {
      Check(n).error != NoError
    }

    /** The next `n` bytes as an integer, or 0 after an error. */
    function Int(n: nat): nat {
      if Fails(n) then 0 else BigEndian(buffer[..n])
    }

    function Skip(n: nat): Input {
      if Fails(n) then Check(n) else this.(buffer := buffer[n..])
    }

    function U8(): byte {
      IntBound(this, 1);
      Int(1)
    }

    function U16(): u16 {
      IntBound(this, 2);
      Int(2)
    }

    function U32(): u32 {
      IntBound(this, 4);
      Int(4)
    }
  }

  function BigEndian(b: seq<byte>): nat {
    if b == [] then 0 else BigEndian(b[..|b| - 1]) * 0x100 + b[|b| - 1]
  }

  /** The low `n` bytes of `v`, highest first. */
  function Encode(v: nat, n: nat): (b: seq<byte>)
    ensures |b| == n
  {
    if n == 0 then [] else Encode(v / 0x100, n - 1) + [v % 0x100]
  }

  function Pow256(n: nat): nat {
    if n == 0 then 1 else 0x100 * Pow256(n - 1)
  }

  lemma {:induction false} BigEndianBound(b: seq<byte>)
    ensures BigEndian(b) < Pow256(|b|)
  {
    if b != [] {
      BigEndianBound(b[..|b| - 1]);
    }
  }

  /** Parsing undoes writing, up to the width. */
  lemma {:induction false} DecodeEncode(v: nat, n: nat)
    requires v < Pow256(n)
    ensures BigEndian(Encode(v, n)) == v
  {
    if n > 0 {
      DecodeEncode(v / 0x100, n - 1);
      assert Encode(v, n)[..n - 1] == Encode(v / 0x100, n - 1);
    }
  }

  /** Writing undoes parsing. */
  lemma {:induction false} EncodeDecode(b: seq<byte>)
    ensures Encode(BigEndian(b), |b|) == b
  {
    if b != [] {
      EncodeDecode(b[..|b| - 1]);
      assert BigEndian(b) / 0x100 == BigEndian(b[..|b| - 1]) && BigEndian(b) % 0x100 == b[|b| - 1];
    }
  }

  lemma Encode1(v: byte)
    ensures Encode(v, 1) == [v]
  {
    assert Encode(0, 0) == [];
  }

  lemma Encode2(v: u16)
    ensures Encode(v, 2) == [v / 0x100, v % 0x100]
  {
    Encode1(v / 0x100);
  }

  lemma Encode4(v: u32)
    ensures Encode(v, 4) == [v / 0x100_0000, v / 0x1_0000 % 0x100, v / 0x100 % 0x100, v % 0x100]
  {
    Encode2(v / 0x1_0000);
    assert Encode(v, 4) == Encode(v / 0x100, 3) + [v % 0x100];
    assert Encode(v / 0x100, 3) == Encode(v / 0x100 / 0x100, 2) + [v / 0x100 % 0x100];
    assert v / 0x100 / 0x100 == v / 0x1_0000;
  }

  lemma Decode1(b: seq<byte>)
    requires |b| == 1
    ensures BigEndian(b) == b[0]
  {
    assert BigEndian(b[..0]) == 0;
  }

  lemma Decode2(b: seq<byte>)
    requires |b| == 2
    ensures BigEndian(b) == b[0] as int * 0x100 + b[1]
  {
    Decode1(b[..1]);
  }

  lemma Decode4(b: seq<byte>)
    requires |b| == 4
    ensures BigEndian(b) == b[0] as int * 0x100_0000 + b[1] as int * 0x1_0000 + b[2] as int * 0x100 + b[3]
  {
    Decode2(b[..2]);
    assert b[..3][..2] == b[..2];
    assert BigEndian(b[..3]) == BigEndian(b[..2]) * 0x100 + b[2];
  }

  /** Two and four bytes of `b` at an offset. */
  function Word(b: seq<byte>, at: nat): u16
    requires at + 2 <= |b|
  {
    b[at] as int * 0x100 + b[at + 1]
  }

  function Long(b: seq<byte>, at: nat): u32
    requires at + 4 <= |b|
  {
    b[at] as int * 0x100_0000 + b[at + 1] as int * 0x1_0000 + b[at + 2] as int * 0x100 + b[at + 3]
  }

  /** The parser after it has asked for the first `k` bytes of `b`. */
  ghost predicate At(p: Input, b: seq<byte>, k: nat) {
    && (k <= |b| ==> p == Input(b[k..], NoError))
    && (k > |b| ==> p.error == PacketTooShort)
  }

  lemma SkipAt(p: Input, b: seq<byte>, k: nat, n: nat)
    requires At(p, b, k)
    ensures At(p.Skip(n), b, k + n)
  {
    if k + n <= |b| {
      assert b[k..][n..] == b[k + n..];
    }
  }

  lemma U8At(p: Input, b: seq<byte>, k: nat)
    requires At(p, b, k)
    ensures At(p.Skip(1), b, k + 1)
    ensures k + 1 <= |b| ==> p.U8() == b[k]
  {
    SkipAt(p, b, k, 1);
    if k + 1 <= |b| {
      Decode1(b[k..][..1]);
    }
  }

  lemma U16At(p: Input, b: seq<byte>, k: nat)
    requires At(p, b, k)
    ensures At(p.Skip(2), b, k + 2)
    ensures k + 2 <= |b| ==> p.U16() == Word(b, k)
  {
    SkipAt(p, b, k, 2);
    if k + 2 <= |b| {
      Decode2(b[k..][..2]);
    }
  }

  lemma U32At(p: Input, b: seq<byte>, k: nat)
    requires At(p, b, k)
    ensures At(p.Skip(4), b, k + 4)
    ensures k + 4 <= |b| ==> p.U32() == Long(b, k)
  {
    SkipAt(p, b, k, 4);
    if k + 4 <= |b| {
      Decode4(b[k..][..4]);
    }
  }

  /** Reading back an integer that was written in front of `rest`. */
  lemma Reads(v: nat, n: nat, rest: seq<byte>)
    requires v < Pow256(n)
    ensures Input(Encode(v, n) + rest, NoError).Int(n) == v
    ensures Input(Encode(v, n) + rest, NoError).Skip(n) == Input(rest, NoError)
  {
    DecodeEncode(v, n);
    assert (Encode(v, n) + rest)[..n] == Encode(v, n);
    assert (Encode(v, n) + rest)[n..] == rest;
  }

  class NetParser {
    var buffer: seq<byte>
    var error: ParseResult

    ghost function Value(): Input
      reads this
    {
      Input(buffer, error)
    }

    constructor (buffer: seq<byte>)
      ensures Value() == Input(buffer, NoError)
    {
      this.buffer := buffer;
      error := NoError;
    }

    method CheckSize(size: nat)
      modifies this`error
      ensures Value() == old(Value()).Check(size)
    {
      if size > |buffer| {
        error := PacketTooShort;
      }
    }

    /** Reads an integer of `len` bytes. */
    method ParseInt(len: nat) returns (ret: nat)
      modifies this
      ensures ret == old(Value()).Int(len) && Value() == old(Value()).Skip(len)
    {
      CheckSize(len);
      if error != NoError {
        return 0;
      }
      ret := 0;
      var i := 0;
      assert buffer[..0] == [];
      while i < len
        invariant 0 <= i <= len <= |buffer| && Value() == old(Value())
        invariant ret == BigEndian(buffer[..i])
      {
        assert buffer[..i + 1][..i] == buffer[..i];
        ret := ret * 0x100 + buffer[i];
        i := i + 1;
      }
      buffer := buffer[len..];
    }

    method U8() returns (v: byte)
      modifies this
      ensures v == old(Value()).U8() && Value() == old(Value()).Skip(1)
    {
      IntBound(Value(), 1);
      v := ParseInt(1);
    }

    method U16() returns (v: u16)
      modifies this
      ensures v == old(Value()).U16() && Value() == old(Value()).Skip(2)
    {
      IntBound(Value(), 2);
      v := ParseInt(2);
    }

    method U32() returns (v: u32)
      modifies this
      ensures v == old(Value()).U32() && Value() == old(Value()).Skip(4)
    {
      IntBound(Value(), 4);
      v := ParseInt(4);
    }

    method RemovePrefix(n: nat)
      modifies this
      ensures Value() == old(Value()).Skip(n)
    {
      CheckSize(n);
      if error != NoError {
        return;
      }
      buffer := buffer[n..];
    }
  }

  lemma IntBound(p: Input, n: nat)
    ensures p.Int(n) < Pow256(n)
    ensures n == 1 ==> p.Int(n) < 0x100
    ensures n == 2 ==> p.Int(n) < 0x1_0000
    ensures n == 4 ==> p.Int(n) < 0x1_0000_0000
    ensures n == 6 ==> p.Int(n) < 0x1_0000_0000_0000
  {
    assert Pow256(2) == 0x1_0000 && Pow256(4) == 0x1_0000_0000 && Pow256(6) == 0x1_0000_0000_0000;
    if !p.Fails(n) {
      BigEndianBound(p.buffer[..n]);
    } else {
      PowPositive(n);
    }
  }

  lemma {:induction false} PowPositive(n: nat)
    ensures Pow256(n) > 0
  {
    if n > 0 {
      PowPositive(n - 1);
    }
  }

  /** `v` shifted right by `k` bytes. */
  function Shift(v: nat, k: nat): nat {
    if k == 0 then v else Shift(v / 0x100, k - 1)
  }

  lemma {:induction false} ShiftOnce(v: nat, k: nat)
    ensures Shift(v, k + 1) == Shift(v, k) / 0x100
  {
    if k > 0 {
      ShiftOnce(v / 0x100, k - 1);
    }
  }

  /** Appends an integer of `len` bytes, highest first. */
  method UnparseInt(s: seq<byte>, val: nat, len: nat) returns (r: seq<byte>)
    ensures r == s + Encode(val, len)
  {
    r := s;
    var i := 0;
    while i < len
      invariant 0 <= i <= len
      invariant r == s + Encode(Shift(val, len - i), i)
    {
      ShiftOnce(val, len - i - 1);
      var theByte := Shift(val, len - i - 1) % 0x100;
      r := r + [theByte];
      i := i + 1;
    }
  }
}
