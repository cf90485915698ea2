/** The Internet checksum (libsponge/util/util.cc, sections 1 and 2 of RFC 1071). */
module Checksums {
  import opened Words

  /** The sum of the 16-bit words of `data`; `odd` says it starts at a low byte. */
  function WordSum(data: seq<byte>, odd: bool): nat {
    if data == [] then 0
    else (if odd then data[0] else data[0] * 0x100) + WordSum(data[1..], !odd)
  }

  /** Whether `n` more bytes end on a low byte. */
  function After(odd: bool, n: nat): bool {
    if n % 2 == 0 then odd else !odd
  }

  /** The sum does not depend on how the data is cut into chunks. */
  lemma {:induction false} ChunksAdd(a: seq<byte>, b: seq<byte>, odd: bool)
    ensures WordSum(a + b, odd) == WordSum(a, odd) + WordSum(b, After(odd, |a|))
  {
    if a == [] {
      assert a + b == b;
    } else {
      assert (a + b)[1..] == a[1..] + b;
      ChunksAdd(a[1..], b, !odd);
    }
  }

  lemma {:induction false} WordSumBound(data: seq<byte>, odd: bool)
    ensures WordSum(data, odd) <= 0xFFFF * (|data| / 2 + 1)
    decreases |data|
  {
    if |data| >= 2 {
      WordSumBound(data[2..], odd);
      assert data[1..][1..] == data[2..];
    } else if |data| == 1 {
      assert data[1..] == [];
    }
  }

  /** Changing one byte changes the sum by the change times the byte's weight. */
  lemma {:induction false} WordSumUpdate(data: seq<byte>, odd: bool, i: nat, v: byte)
    requires i < |data|
    ensures WordSum(data[i := v], odd)
            == WordSum(data, odd) + (v - data[i]) * (if After(odd, i) then 1 else 0x100)
  {
    if i > 0 {
      WordSumUpdate(data[1..], !odd, i - 1, v);
      assert data[i := v][1..] == data[1..][i - 1 := v];
    } else {
      assert data[i := v][1..] == data[1..];
    }
  }

  /** One's-complement addition of 16-bit words: what folding the carries leaves. */
  function Folded(sum: nat): u16 {
    if sum == 0 then 0 else if sum % 0xFFFF == 0 then 0xFFFF else sum % 0xFFFF
  }

  function Complement(sum: nat): u16 {
    0xFFFF - Folded(sum)
  }

  /** A checksum inserted where there was zero makes the complement zero, and nothing else
      of 16 bits does, but for the two zeros of one's complement. */
  lemma InsertedChecksum(sum: nat, c: u16)
    ensures Complement(sum + Complement(sum)) == 0
    ensures Complement(sum + c) == 0 ==>
            c == Complement(sum) || (c == 0xFFFF && Complement(sum) == 0) || (c == 0 && Complement(sum) == 0xFFFF)
  {
  }

  /** A sum whose complement is zero no longer has one after a change of less than a word. */
  lemma ChangeShows(sum: nat, delta: int)
    requires Complement(sum) == 0 && 0 <= sum + delta
    requires -0xFFFF < delta < 0xFFFF && delta != 0
    ensures Complement(sum + delta) != 0
  {
  }

  lemma AddMod(a: nat, b: nat)
    ensures (a % 0x1_0000_0000 + b) % 0x1_0000_0000 == (a + b) % 0x1_0000_0000
  {
    var q := a / 0x1_0000_0000;
    assert a + b == (a % 0x1_0000_0000 + b) + 0x1_0000_0000 * q;
    ModShift(a % 0x1_0000_0000 + b, q);
  }

  /** The 32-bit sum that `InternetChecksum` holds. */
  function Sum32(initial: u32, data: seq<byte>): u32 {
    (initial + WordSum(data, false)) % 0x1_0000_0000
  }

  lemma SumOfTwo(initial: u32, a: seq<byte>, b: seq<byte>)
    requires |a| % 2 == 0
    ensures (Sum32(initial, a) + WordSum(b, false)) % 0x1_0000_0000 == Sum32(initial, a + b)
  {
    EvenChunks(a, b);
    AddMod(initial + WordSum(a, false), WordSum(b, false));
  }

  lemma EvenChunks(a: seq<byte>, b: seq<byte>)
    requires |a| % 2 == 0
    ensures WordSum(a + b, false) == WordSum(a, false) + WordSum(b, false)
  {
    ChunksAdd(a, b, false);
  }

  /** The sum of a datagram's worth of bytes stays within 32 bits. */
  lemma SumFits(initial: nat, data: seq<byte>)
    requires initial < 0x10_0000 && |data| < 0x1_0000
    ensures initial + WordSum(data, false) < 0x8100_0000
    ensures Sum32(initial, data) == initial + WordSum(data, false)
  {
    WordSumBound(data, false);
  }

  lemma InsertedSum(w: nat)
    requires w < 0x8100_0000
    ensures Complement((0 + (w + Complement((0 + w) % 0x1_0000_0000))) % 0x1_0000_0000) == 0
  {
    InsertedChecksum(w, 0);
  }

  lemma ByteErrorShows(initial: u32, data: seq<byte>, i: nat, v: byte)
    requires initial < 0x10_0000 && |data| < 0x1_0000
    requires i < |data| && v != data[i]
    requires Complement(Sum32(initial, data)) == 0
    ensures Complement(Sum32(initial, data[i := v])) != 0
  {
    SumFits(initial, data);
    SumFits(initial, data[i := v]);
    WordSumUpdate(data, false, i, v);
    ByteChangeShows(initial + WordSum(data, false), data[i], v, After(false, i));
  }

  lemma ByteChangeShows(sum: nat, before: byte, now: byte, odd: bool)
    requires before != now && Complement(sum) == 0 && 0 <= sum + (now - before) * (if odd then 1 else 0x100)
    ensures Complement(sum + (now - before) * (if odd then 1 else 0x100)) != 0
  {
    if odd {
      ChangeShows(sum, now - before);
    } else {
      ChangeShows(sum, (now - before) * 0x100);
    }
  }

  lemma OneMore(initial: u32, data: seq<byte>, i: nat, odd: bool)
    requires i < |data|
    ensures var val := if After(odd, i) then data[i] else data[i] as int * 0x100;
            ((initial + WordSum(data[..i], odd)) % 0x1_0000_0000 + val) % 0x1_0000_0000
            == (initial + WordSum(data[..i + 1], odd)) % 0x1_0000_0000
  {
    assert data[..i + 1] == data[..i] + [data[i]];
    ChunksAdd(data[..i], [data[i]], odd);
    AddMod(initial + WordSum(data[..i], odd), if After(odd, i) then data[i] else data[i] as int * 0x100);
  }

  class InternetChecksum {
    var sum: u32
    var parity: bool

    constructor (initialSum: u32)
      ensures sum == initialSum && !parity
    {
      sum, parity := initialSum, false;
    }

    method Add(data: seq<byte>)
      modifies this
      ensures sum == (old(sum) + WordSum(data, old(parity))) % 0x1_0000_0000
      ensures parity == After(old(parity), |data|)
    {
      var i := 0;
      assert data[..0] == [];
      while i < |data|
        invariant 0 <= i <= |data|
        invariant sum == (old(sum) + WordSum(data[..i], old(parity))) % 0x1_0000_0000
        invariant parity == After(old(parity), i)
      {
        var val: u16 := data[i];
        if !parity {
          val := val * 0x100;
        }
        OneMore(old(sum), data, i, old(parity));
        sum := (sum + val) % 0x1_0000_0000;
        parity := !parity;
        i := i + 1;
      }
      assert data[..i] == data;
    }

    /** The loop that folds the carries back in. */
    method Value() returns (v: u16)
      ensures v == Complement(sum)
    {
      var ret: u32 := sum;
      while ret > 0xFFFF
        invariant ret % 0xFFFF == sum % 0xFFFF && (ret == 0 <==> sum == 0)
      {
        FoldOnce(ret);
        ret := ret / 0x1_0000 + ret % 0x1_0000;
      }
      v := 0xFFFF - ret;
    }
  }

  lemma FoldOnce(x: nat)
    ensures (x / 0x1_0000 + x % 0x1_0000) % 0xFFFF == x % 0xFFFF
  {
    var q, r := x / 0x1_0000, x % 0x1_0000;
    assert x == q + r + 0xFFFF * q;
  }
}
