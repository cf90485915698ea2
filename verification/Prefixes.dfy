/** Masks and prefixes of 32-bit addresses (libsponge/router.cc:48-66). */
module Prefixes {
  import opened Words

  /** Bitwise and of the low `n` bits. */
  function And(a: nat, b: nat, n: nat): nat {
    if n == 0 then 0 else 2 * And(a / 2, b / 2, n - 1) + (if a % 2 == 1 && b % 2 == 1 then 1 else 0)
  }

  /** The mask of an address's high bits: ones down to bit `low`, zeros below. The shift of the
      original is made on a signed int; two's complement is taken for the length 1. */
  function Mask(low: nat): u32
    requires low <= 32
  {
    Powers(low);
    0x1_0000_0000 - Pow2(low)
  }

  lemma Powers(low: nat)
    requires low <= 32
    ensures 1 <= Pow2(low) <= 0x1_0000_0000 == Pow2(32)
  {
    assert Pow2(8) == 0x100 && Pow2(16) == 0x1_0000 && Pow2(24) == 0x100_0000 by {
      assert Pow2(4) == 0x10 && Pow2(12) == 0x1000 && Pow2(20) == 0x10_0000;
    }
    assert Pow2(28) == 0x1000_0000 && Pow2(32) == 0x1_0000_0000;
    PowMonotone(low, 32);
  }

  lemma {:induction false} PowMonotone(a: nat, b: nat)
    requires a <= b
    ensures Pow2(a) <= Pow2(b)
  {
    if a < b {
      PowMonotone(a, b - 1);
    }
  }

  /** `x` with its low `k` bits cleared. */
  function Top(x: nat, k: nat): nat {
    if k == 0 then x else 2 * Top(x / 2, k - 1)
  }

  lemma {:induction false} AndOnes(x: nat, n: nat)
    requires x < Pow2(n)
    ensures And(x, Pow2(n) - 1, n) == x
  {
    if n > 0 {
      assert (Pow2(n) - 1) / 2 == Pow2(n - 1) - 1;
      AndOnes(x / 2, n - 1);
    }
  }

  /** Masking clears the low bits. */
  lemma {:induction false} AndMask(x: nat, n: nat, k: nat)
    requires x < Pow2(n) && k <= n && Pow2(k) <= Pow2(n)
    ensures And(x, Pow2(n) - Pow2(k), n) == Top(x, k)
  {
    if k == 0 {
      AndOnes(x, n);
    } else {
      assert (Pow2(n) - Pow2(k)) / 2 == Pow2(n - 1) - Pow2(k - 1);
      AndMask(x / 2, n - 1, k - 1);
    }
  }

  lemma {:induction false} TopIs(x: nat, k: nat)
    ensures Top(x, k) == x / Pow2(k) * Pow2(k)
  {
    if k > 0 {
      TopIs(x / 2, k - 1);
      HalfDivides(x, Pow2(k - 1));
    }
  }

  lemma HalfDivides(x: nat, p: nat)
    requires p > 0
    ensures x / 2 / p == x / (2 * p)
  {
    var q := x / 2 / p;
    var r := x / 2 % p;
    assert x / 2 == q * p + r;
    assert x == q * (2 * p) + (2 * r + x % 2);
    DivUnique(x, 2 * p, q, 2 * r + x % 2);
  }

  lemma DivUnique(x: int, m: int, q: int, r: int)
    requires m > 0 && x == q * m + r && 0 <= r < m
    ensures x / m == q && x % m == r
  {
    var d := x / m - q;
    assert x == (x / m) * m + x % m;
    assert d * m == r - x % m by {
      assert (x / m) * m - q * m == d * m;
    }
    assert d >= 1 ==> d * m >= m;
    assert d <= -1 ==> d * m <= -m;
  }

  /** The router's mask for a prefix length, its special case for 0 included. */
  function PrefixMask(len: nat): u32
    requires len <= 32
  {
    if len == 0 then 0 else Mask(32 - len)
  }

  /** `prefix` has no bits below its length, and agrees with `x` above. */
  predicate IsPrefix(prefix: u32, len: nat, x: u32)
    requires len <= 32
  {
    var p := Pow2(32 - len);
    prefix % p == 0 && x / p == prefix / p
  }

  /** Comparing under the mask is comparing the top bits, for a prefix that has no others. */
  lemma MaskIsPrefix(prefix: u32, len: nat, x: u32)
    requires len <= 32
    ensures And(x, PrefixMask(len), 32) == prefix <==> IsPrefix(prefix, len, x)
  {
    MaskClears(len, x);
    MatchIs(And(x, PrefixMask(len), 32), prefix, len, x);
  }

  lemma MatchIs(y: nat, prefix: u32, len: nat, x: u32)
    requires len <= 32 && y == x / Pow2(32 - len) * Pow2(32 - len)
    ensures y == prefix <==> IsPrefix(prefix, len, x)
  {
    MultipleIs(prefix, Pow2(32 - len), x / Pow2(32 - len));
  }

  lemma MaskClears(len: nat, x: u32)
    requires len <= 32
    ensures And(x, PrefixMask(len), 32) == x / Pow2(32 - len) * Pow2(32 - len)
  {
    Powers(32 - len);
    AndMask(x, 32, 32 - len);
    TopIs(x, 32 - len);
  }

  lemma MultipleIs(y: nat, p: nat, q: nat)
    requires p > 0
    ensures y == q * p <==> y % p == 0 && y / p == q
  {
    assert y == y / p * p + y % p;
    if y == q * p {
      DivUnique(y, p, q, 0);
    }
  }
}
