/** Machine words as ranges of the integers. Arithmetic on them is unbounded in
    Dafny, so every wrap-around of the original is written out where it can happen. */
module Words {
  type byte = x: int | 0 <= x < 0x100
  type u16 = x: int | 0 <= x < 0x1_0000
  type u32 = x: int | 0 <= x < 0x1_0000_0000
  type u64 = x: int | 0 <= x < 0x1_0000_0000_0000_0000

  function Min(a: int, b: int): int {
    if a < b then a else b
  }

  /** `2^k`. */
  function Pow2(k: nat): (p: nat)
    ensures p >= 1
  {
    if k == 0 then 1 else 2 * Pow2(k - 1)
  }

  /** Two numbers with one remainder are equal or at least a modulus apart. */
  lemma CongruentApart(a: int, b: int)
    requires a % 0x1_0000_0000 == b % 0x1_0000_0000
    ensures a == b || a <= b - 0x1_0000_0000 || a >= b + 0x1_0000_0000
  {
  }

  /** Multiples of the modulus do not show. */
  lemma ModShift(x: int, k: int)
    ensures (x + 0x1_0000_0000 * k) % 0x1_0000_0000 == x % 0x1_0000_0000
  {
  }
}
