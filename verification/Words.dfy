/** Fixed-width words as bounded integers, and the bitwise operations on them.

    The processor and the hash write a mask as a quotient and a remainder, and an `|` of disjoint fields
    as a sum; `AndField`, `AndNot` and `OrAnd` are the facts that make this exact. */
module Words {
  const TWO31 := 0x8000_0000
  const TWO32 := 0x1_0000_0000

  type u8 = x: int | 0 <= x < 0x100
  type u16 = x: int | 0 <= x < 0x1_0000
  type u32 = x: int | 0 <= x < 0x1_0000_0000

  /** Unsigned 32-bit wrap-around. */
  function Wrap(x: int): u32 {
    x % TWO32
  }

  /** The two's complement reading of a word. */
  function Signed(x: u32): int {
    if x < TWO31 then x else x - TWO32
  }

  function SignExtend8(x: u8): u32 {
    if x >= 0x80 then 0xFFFF_FF00 + x else x
  }

  function SignExtend16(x: u16): u32 {
    if x >= 0x8000 then 0xFFFF_0000 + x else x
  }

  function Pow2(n: nat): (p: nat)
    ensures p > 0
  {
    if n == 0 then 1 else 2 * Pow2(n - 1)
  }

  lemma {:induction false} Pow2Adds(m: nat, n: nat)
    ensures Pow2(m + n) == Pow2(m) * Pow2(n)
  {
    if m > 0 {
      Pow2Adds(m - 1, n);
    }
  }

  // ----- Bitwise operations -----

  function BitAnd(a: nat, b: nat): (r: nat)
    ensures r <= a && r <= b
  {
    if a == 0 || b == 0 then 0 else 2 * BitAnd(a / 2, b / 2) + (if a % 2 == 1 && b % 2 == 1 then 1 else 0)
  }

  function BitOr(a: nat, b: nat): (r: nat)
    ensures a <= r && b <= r <= a + b
  {
    if a == 0 then b
    else if b == 0 then a
    else 2 * BitOr(a / 2, b / 2) + (if a % 2 == 1 || b % 2 == 1 then 1 else 0)
  }

  function BitXor(a: nat, b: nat): (r: nat)
    ensures r <= BitOr(a, b)
  {
    if a == 0 then b
    else if b == 0 then a
    else 2 * BitXor(a / 2, b / 2) + (if a % 2 != b % 2 then 1 else 0)
  }

  lemma {:induction false} BitOrBound(n: nat, a: nat, b: nat)
    requires a < Pow2(n) && b < Pow2(n)
    ensures BitOr(a, b) < Pow2(n)
  {
    if n > 0 && a > 0 && b > 0 {
      BitOrBound(n - 1, a / 2, b / 2);
    }
  }

  lemma Pow2Of32()
    ensures Pow2(31) == TWO31 && Pow2(32) == TWO32
  {
    assert Pow2(8) == 0x100;
    assert Pow2(16) == 0x1_0000 by { Pow2Adds(8, 8); }
    assert Pow2(31) == TWO31 by { Pow2Adds(16, 15); Pow2Adds(8, 7); assert Pow2(7) == 0x80; }
    assert Pow2(32) == 2 * Pow2(31);
  }

  function And(a: u32, b: u32): u32 {
    BitAnd(a, b)
  }

  function Or(a: u32, b: u32): u32 {
    Pow2Of32(); BitOrBound(32, a, b);
    BitOr(a, b)
  }

  function Xor(a: u32, b: u32): u32 {
    Pow2Of32(); BitOrBound(32, a, b);
    BitXor(a, b)
  }

  function Not(a: u32): u32 {
    0xFFFF_FFFF - a
  }

  /** `x << n` on 32 bits. */
  function Shl(x: u32, n: nat): u32 {
    Wrap(x * Pow2(n))
  }

  lemma MultipleOf(k: int, d: int)
    requires d > 0
    ensures k >= 1 ==> k * d >= d
    ensures k <= -1 ==> k * d <= -d
    ensures k >= 0 ==> k * d >= k
  {
  }

  lemma DivideShrinks(x: nat, d: nat)
    requires d > 0
    ensures 0 <= x / d <= x
  {
    MultipleOf(x / d, d);
  }

  /** `x >> n` on 32 bits. */
  function Shr(x: u32, n: nat): u32 {
    DivideShrinks(x, Pow2(n));
    x / Pow2(n)
  }

  /** Masking with the low bits is the remainder. */
  lemma {:induction false} AndLowMask(x: nat, n: nat)
    ensures BitAnd(x, Pow2(n) - 1) == x % Pow2(n)
  {
    if n == 0 {
      assert x % 1 == 0;
    } else if x > 0 {
      AndLowMask(x / 2, n - 1);
      MaskStep(x, Pow2(n - 1));
    } else {
      RemainderIs(0, Pow2(n), 0, 0);
    }
  }

  lemma MaskStep(x: nat, p: nat)
    requires x > 0 && p > 0 && BitAnd(x / 2, p - 1) == x / 2 % p
    ensures BitAnd(x, 2 * p - 1) == x % (2 * p)
  {
    hide BitAnd;
    RemainderByDouble(x, p);
    HalvedMask(x, p);
  }

  lemma HalvedMask(x: nat, p: nat)
    requires x > 0 && p > 0
    ensures BitAnd(x, 2 * p - 1) == 2 * BitAnd(x / 2, p - 1) + x % 2
  {
    var m := 2 * p - 1;
    assert m / 2 == p - 1 && m % 2 == 1;
  }

  lemma RemainderByDouble(x: nat, p: nat)
    requires p > 0
    ensures x % (2 * p) == 2 * (x / 2 % p) + x % 2
  {
    var q, r := x / 2 / p, x / 2 % p;
    assert x / 2 == q * p + r;
    assert x == q * (2 * p) + (2 * r + x % 2);
    RemainderIs(x, 2 * p, q, 2 * r + x % 2);
  }

  /** The quotient and remainder are determined by their defining equation. */
  lemma RemainderIs(x: int, d: int, q: int, r: int)
    requires d > 0 && x == q * d + r && 0 <= r < d
    ensures x / d == q && x % d == r
  {
    var e, s := x / d, x % d;
    var k := e - q;
    assert k * d == e * d - q * d;
    assert x == e * d + s;
    MultipleOf(k, d);
  }

  /** Joining disjoint fields is the sum. */
  lemma {:induction false} OrDisjoint(low: nat, high: nat, n: nat)
    requires low < Pow2(n) && high % Pow2(n) == 0
    ensures BitOr(low, high) == low + high
  {
    if low > 0 && high > 0 {
      var p, q := Pow2(n - 1), high / Pow2(n);
      assert high == q * (2 * p) == 2 * (q * p);
      RemainderIs(high / 2, p, q, 0);
      OrDisjoint(low / 2, high / 2, n - 1);
    }
  }

  /** A mask of `w` bits from bit `n` on keeps that field. */
  lemma AndField(x: nat, mask: nat, n: nat, w: nat)
    requires mask == (Pow2(w) - 1) * Pow2(n)
    ensures BitAnd(x, mask) == x / Pow2(n) % Pow2(w) * Pow2(n)
  {
    hide Pow2, BitAnd;
    AndShifted(x, Pow2(w) - 1, mask, n);
    MultipleOf(x, Pow2(n));
    DivideShrinks(x, Pow2(n));
    AndLowMask(x / Pow2(n), w);
  }

  lemma {:induction false} AndShifted(x: nat, m: nat, mask: nat, n: nat)
    requires mask == m * Pow2(n)
    ensures x / Pow2(n) >= 0 && BitAnd(x, mask) == BitAnd(x / Pow2(n), m) * Pow2(n)
  {
    DivideShrinks(x, Pow2(n));
    if n > 0 {
      var p := Pow2(n - 1);
      assert Pow2(n) == 2 * p;
      hide BitAnd, Pow2;
      MultipleOf(m, p);
      TimesTwice(m, p);
      AndShifted(x / 2, m, m * p, n - 1);
      AndDoubled(x, mask, m * p);
      HalvesDivide(x, p);
      TimesTwice(BitAnd(x / Pow2(n), m), p);
    } else {
      assert x / 1 == x && m * 1 == m;
    }
  }

  lemma AndDoubled(x: nat, mask: nat, half: nat)
    requires mask == 2 * half
    ensures BitAnd(x, mask) == 2 * BitAnd(x / 2, half)
  {
    AndHalves(x, mask);
  }

  lemma TimesTwice(k: int, p: int)
    ensures k * (2 * p) == 2 * (k * p)
  {
  }

  lemma HalvesDivide(x: nat, p: nat)
    requires p > 0
    ensures x / 2 / p == x / (2 * p)
  {
    var q, r := x / 2 / p, x / 2 % p;
    assert x / 2 == q * p + r;
    assert x == q * (2 * p) + (2 * r + x % 2);
    RemainderIs(x, 2 * p, q, 2 * r + x % 2);
  }

  /** A mask and its complement share out the bits. */
  lemma {:induction false} AndNot(x: nat, m: nat, n: nat)
    requires x < Pow2(n) && m < Pow2(n)
    ensures BitAnd(x, m) + BitAnd(x, Pow2(n) - 1 - m) == x
  {
    if n > 0 {
      AndNot(x / 2, m / 2, n - 1);
      assert (Pow2(n) - 1 - m) / 2 == Pow2(n - 1) - 1 - m / 2;
    }
  }

  /** A mask made of two disjoint parts. */
  lemma {:induction false} AndJoins(x: nat, low: nat, high: nat, n: nat)
    requires low < Pow2(n) && high % Pow2(n) == 0
    ensures BitAnd(x, low + high) == BitAnd(x, low) + BitAnd(x, high)
  {
    if n > 0 {
      var p := Pow2(n - 1);
      assert Pow2(n) == 2 * p;
      hide BitAnd, Pow2;
      HalfOfMultiple(high, p);
      AndJoins(x / 2, low / 2, high / 2, n - 1);
      AndJoinsStep(x, low, high);
    }
  }

  lemma AndJoinsStep(x: nat, low: nat, high: nat)
    requires high % 2 == 0 && BitAnd(x / 2, low / 2 + high / 2) == BitAnd(x / 2, low / 2) + BitAnd(x / 2, high / 2)
    ensures BitAnd(x, low + high) == BitAnd(x, low) + BitAnd(x, high)
  {
    hide BitAnd;
    AndHalves(x, low);
    AndHalves(x, high);
    AndHalves(x, low + high);
    HalvesAdd(low, high);
  }

  lemma HalvesAdd(low: nat, high: nat)
    requires high % 2 == 0
    ensures (low + high) / 2 == low / 2 + high / 2 && (low + high) % 2 == low % 2
  {
  }

  lemma HalfOfMultiple(high: nat, p: nat)
    requires p > 0 && high % (2 * p) == 0
    ensures high % 2 == 0 && high / 2 % p == 0
  {
    var q := high / (2 * p);
    TimesTwice(q, p);
    RemainderIs(high / 2, p, q, 0);
  }

  lemma AndHalves(x: nat, y: nat)
    ensures BitAnd(x, y) == 2 * BitAnd(x / 2, y / 2) + (if x % 2 == 1 && y % 2 == 1 then 1 else 0)
  {
  }

  /** `|` and `&` add up. */
  lemma {:induction false} OrAnd(a: nat, b: nat)
    ensures BitOr(a, b) + BitAnd(a, b) == a + b
  {
    if a > 0 && b > 0 {
      OrAnd(a / 2, b / 2);
    }
  }

  /** Bits that lie in a mask are met by nothing that the mask clears. */
  lemma {:induction false} AndWithin(x: nat, y: nat, m: nat)
    requires BitAnd(y, m) == y && BitAnd(x, m) == 0
    ensures BitAnd(x, y) == 0
  {
    if x > 0 && y > 0 && m > 0 {
      AndWithin(x / 2, y / 2, m / 2);
    }
  }

  lemma {:induction false} OrCommutes(a: nat, b: nat)
    ensures BitOr(a, b) == BitOr(b, a)
  {
    if a > 0 && b > 0 {
      OrCommutes(a / 2, b / 2);
    }
  }

  lemma OrOfFields(high: u32, low: u32, n: nat)
    requires low < Pow2(n) && high % Pow2(n) == 0 && high + low < TWO32
    ensures Or(high, low) == high + low
  {
    OrCommutes(high, low);
    OrDisjoint(low, high, n);
  }

  /** The top bit of a result, for operands of n+1 bits. */
  lemma {:induction false} TopBits(n: nat, a: nat, b: nat)
    requires a < Pow2(n + 1) && b < Pow2(n + 1)
    ensures BitXor(a, b) >= Pow2(n) <==> (a >= Pow2(n)) != (b >= Pow2(n))
    ensures BitAnd(a, b) >= Pow2(n) <==> a >= Pow2(n) && b >= Pow2(n)
  {
    if n > 0 && a > 0 && b > 0 {
      TopBits(n - 1, a / 2, b / 2);
    }
  }
}
