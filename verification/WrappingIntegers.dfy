/** 32-bit sequence numbers relative to an initial sequence number (ISN), and the
    64-bit absolute sequence numbers they stand for
    (libsponge/wrapping_integers.cc, section 3.4 of RFC 9293). */
module WrappingIntegers {
  import opened Words

  /** The point `b` steps past `a` (before it, when `b` is negative). */
  function Plus(a: u32, b: int): u32 {
    (a + b) % 0x1_0000_0000
  }

  function Wrap(n: nat, isn: u32): u32 {
    Plus(isn, n % 0x1_0000_0000)
  }

  /** The steps from `isn` to `n`. */
  function Offset(n: u32, isn: u32): u32 {
    if n < isn then n + 0x1_0000_0000 - isn else n - isn
  }

  /** The subtraction and the addition below are those of unsigned 64-bit words. */
  function Unwrap(n: u32, isn: u32, checkpoint: u64): u64 {
    var abs := Offset(n, isn);
    if abs >= checkpoint then abs
    else
      var left := (checkpoint - abs) % 0x1_0000_0000;
      var right := ((abs - checkpoint) % 0x1_0000_0000_0000_0000) % 0x1_0000_0000;
      if left > right
      then (checkpoint + right) % 0x1_0000_0000_0000_0000
      else checkpoint - left
  }

  function Distance(a: int, b: int): nat {
    if a < b then b - a else a - b
  }

  /** `r` stands for offset `o`, no other number that does is closer to the
      checkpoint, and of two equally close ones `r` is the smaller. */
  ghost predicate Nearest(r: nat, o: u32, checkpoint: u64) {
    && r % 0x1_0000_0000 == o
    && forall v: nat :: v % 0x1_0000_0000 == o && v != r ==>
         Distance(r, checkpoint) < Distance(v, checkpoint)
         || (Distance(r, checkpoint) == Distance(v, checkpoint) && r < v)
  }

  /** The distance from the checkpoint up to the next number that stands for `o`. */
  function Ahead(o: u32, checkpoint: u64): u32 {
    (o - checkpoint) % 0x1_0000_0000
  }

  /** The nearest number lies at or below the checkpoint, or is itself a 64-bit word. */
  predicate NearestFits(o: u32, checkpoint: u64) {
    Ahead(o, checkpoint) >= 0x8000_0000 || checkpoint + Ahead(o, checkpoint) < 0x1_0000_0000_0000_0000
  }

  /** Reducing a 64-bit difference once more changes nothing. */
  lemma ModMod(x: int)
    ensures (x % 0x1_0000_0000_0000_0000) % 0x1_0000_0000 == x % 0x1_0000_0000
  {
    var q, r := x / 0x1_0000_0000_0000_0000, x % 0x1_0000_0000_0000_0000;
    assert x == r + 0x1_0000_0000 * (0x1_0000_0000 * q);
    ModShift(r, 0x1_0000_0000 * q);
  }

  lemma ModNegated(x: int)
    ensures (-x) % 0x1_0000_0000 == if x % 0x1_0000_0000 == 0 then 0 else 0x1_0000_0000 - x % 0x1_0000_0000
  {
    var q, r := x / 0x1_0000_0000, x % 0x1_0000_0000;
    if r == 0 {
      ModShift(0, -q);
    } else {
      assert -x == (0x1_0000_0000 - r) + 0x1_0000_0000 * (-q - 1);
      ModShift(0x1_0000_0000 - r, -q - 1);
    }
  }

  lemma AheadStands(o: u32, checkpoint: u64)
    ensures (checkpoint + Ahead(o, checkpoint)) % 0x1_0000_0000 == o
  {
    var q := (o - checkpoint) / 0x1_0000_0000;
    assert checkpoint + Ahead(o, checkpoint) == o + 0x1_0000_0000 * (-q);
    ModShift(o, -q);
  }

  /** Past the first branch the result lies ahead of the checkpoint, as a 64-bit word, if that is
      less than 2^31 steps, and otherwise behind. */
  lemma UnwrapIs(n: u32, isn: u32, checkpoint: u64)
    requires Offset(n, isn) < checkpoint
    ensures var ahead := Ahead(Offset(n, isn), checkpoint);
            Unwrap(n, isn, checkpoint) ==
            if ahead >= 0x8000_0000 then checkpoint + ahead - 0x1_0000_0000
            else if checkpoint + ahead < 0x1_0000_0000_0000_0000 then checkpoint + ahead
            else checkpoint + ahead - 0x1_0000_0000_0000_0000
  {
    var o := Offset(n, isn);
    ModNegated(o - checkpoint);
    ModMod(o - checkpoint);
  }

  /** So it is the one candidate in the 2^32 numbers around the checkpoint, unless that one
      exceeds 64 bits. */
  lemma UnwrapCases(n: u32, isn: u32, checkpoint: u64)
    requires Offset(n, isn) < checkpoint
    ensures var o, r := Offset(n, isn), Unwrap(n, isn, checkpoint);
            if NearestFits(o, checkpoint)
            then r % 0x1_0000_0000 == o && checkpoint - 0x8000_0000 <= r < checkpoint + 0x8000_0000
            else r == checkpoint + Ahead(o, checkpoint) - 0x1_0000_0000_0000_0000 < 0x8000_0000
  {
    var o := Offset(n, isn);
    UnwrapIs(n, isn, checkpoint);
    AheadStands(o, checkpoint);
    ModShift(checkpoint + Ahead(o, checkpoint), -1);
  }

  /** `Unwrap` finds the nearest number exactly when the 64-bit addition does not wrap. */
  lemma UnwrapIsNearest(n: u32, isn: u32, checkpoint: u64)
    ensures Nearest(Unwrap(n, isn, checkpoint), Offset(n, isn), checkpoint)
       <==> NearestFits(Offset(n, isn), checkpoint)
  {
    var o, r := Offset(n, isn), Unwrap(n, isn, checkpoint);
    if o >= checkpoint {
      SmallestIsNearest(o, checkpoint);
    } else {
      UnwrapCases(n, isn, checkpoint);
      if NearestFits(o, checkpoint) {
        InRangeIsNearest(r, o, checkpoint);
      } else {
        WrappedIsFar(r, o, checkpoint);
      }
    }
  }

  lemma WrappedIsFar(r: nat, o: u32, checkpoint: u64)
    requires !NearestFits(o, checkpoint) && r < 0x8000_0000
    ensures !Nearest(r, o, checkpoint)
  {
    var v: nat := checkpoint + Ahead(o, checkpoint);
    AheadStands(o, checkpoint);
    assert v % 0x1_0000_0000 == o && Distance(v, checkpoint) < Distance(r, checkpoint);
  }

  lemma SmallestIsNearest(o: u32, checkpoint: u64)
    requires o >= checkpoint
    ensures Nearest(o, o, checkpoint) && NearestFits(o, checkpoint)
  {
    forall v: nat | v % 0x1_0000_0000 == o && v != o
      ensures Distance(o, checkpoint) < Distance(v, checkpoint)
    {
      CongruentApart(v, o);
    }
  }

  lemma InRangeIsNearest(r: nat, o: u32, checkpoint: u64)
    requires r % 0x1_0000_0000 == o && checkpoint - 0x8000_0000 <= r < checkpoint + 0x8000_0000
    ensures Nearest(r, o, checkpoint)
  {
    forall v: nat | v % 0x1_0000_0000 == o && v != r
      ensures Distance(r, checkpoint) < Distance(v, checkpoint)
           || (Distance(r, checkpoint) == Distance(v, checkpoint) && r < v)
    {
      CongruentApart(v, r);
    }
  }

  lemma OffsetOfWrap(v: nat, isn: u32)
    ensures Offset(Wrap(v, isn), isn) == v % 0x1_0000_0000
  {
    var r := v % 0x1_0000_0000;
    if isn + r >= 0x1_0000_0000 {
      ModShift(isn + r, -1);
    }
  }

  /** The number that the 64-bit addition wraps round to. */
  predicate WrapsTo(v: nat, checkpoint: u64) {
    checkpoint <= v + 0x1_0000_0000_0000_0000 < checkpoint + 0x8000_0000
  }

  /** Unwrapping undoes wrapping exactly for the 64-bit numbers within 2^31 of the checkpoint,
      for those at or above it that fit 32 bits, and for those the addition wraps round to. */
  lemma UnwrapWrap(v: nat, isn: u32, checkpoint: u64)
    ensures Unwrap(Wrap(v, isn), isn, checkpoint) == v
       <==> || (-0x8000_0000 <= v - checkpoint < 0x8000_0000 && v < 0x1_0000_0000_0000_0000)
            || checkpoint <= v < 0x1_0000_0000
            || WrapsTo(v, checkpoint)
  {
    OffsetOfWrap(v, isn);
    var n := Wrap(v, isn);
    if Offset(n, isn) < checkpoint {
      UnwrapCases(n, isn, checkpoint);
      UnwrapBack(v, Offset(n, isn), checkpoint, Unwrap(n, isn, checkpoint));
    }
  }

  lemma UnwrapBack(v: nat, o: u32, checkpoint: u64, r: u64)
    requires o == v % 0x1_0000_0000 < checkpoint
    requires if NearestFits(o, checkpoint)
             then r % 0x1_0000_0000 == o && checkpoint - 0x8000_0000 <= r < checkpoint + 0x8000_0000
             else r == checkpoint + Ahead(o, checkpoint) - 0x1_0000_0000_0000_0000 < 0x8000_0000
    ensures r == v
       <==> || (-0x8000_0000 <= v - checkpoint < 0x8000_0000 && v < 0x1_0000_0000_0000_0000)
            || checkpoint <= v < 0x1_0000_0000
            || WrapsTo(v, checkpoint)
  {
    var ahead := Ahead(o, checkpoint);
    AheadStands(o, checkpoint);
    ModShift(v, 0x1_0000_0000);
    CongruentApart(v + 0x1_0000_0000_0000_0000, checkpoint + ahead);
    if NearestFits(o, checkpoint) {
      CongruentApart(v, r);
    } else {
      CongruentApart(v, checkpoint + ahead);
    }
  }

  /** Steps past a wrapped number are steps past the number. */
  lemma PlusWrap(v: nat, n: nat, isn: u32)
    ensures Plus(Wrap(v, isn), n) == Wrap(v + n, isn)
  {
    var x, y := v / 0x1_0000_0000, (isn + v % 0x1_0000_0000) / 0x1_0000_0000;
    var z := (v + n) / 0x1_0000_0000;
    assert Wrap(v, isn) == isn + v + 0x1_0000_0000 * (-x - y);
    ModShift(isn + v + n, -x - y);
    assert isn + (v + n) % 0x1_0000_0000 == isn + v + n + 0x1_0000_0000 * (-z);
    ModShift(isn + v + n, -z);
  }
}
