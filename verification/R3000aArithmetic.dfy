/** The arithmetic units agree with the integers, for all operands. */
module R3000aArithmetic {
  import opened Outcomes
  import opened Words
  import opened MipsDecoder
  import opened R3000a

  predicate Fits(x: int) {
    -TWO31 <= x < TWO31
  }

  lemma TopBit(a: u32, b: u32)
    ensures Xor(a, b) >= TWO31 <==> (a >= TWO31) != (b >= TWO31)
    ensures And(a, b) >= TWO31 <==> a >= TWO31 && b >= TWO31
  {
    Pow2Of32();
    TopBits(31, a, b);
  }

  lemma {:induction false} AndTopMask(n: nat, a: nat)
    requires a < Pow2(n + 1)
    ensures BitAnd(a, Pow2(n)) != 0 <==> a >= Pow2(n)
  {
    if n > 0 && a > 0 {
      AndTopMask(n - 1, a / 2);
    }
  }

  lemma SignMask(a: u32)
    ensures And(a, 0x8000_0000) != 0 <==> a >= TWO31
  {
    Pow2Of32();
    AndTopMask(31, a);
  }

  /** ADD and ADDI trap exactly when the signed sum leaves 32 bits; otherwise the result is that sum. */
  lemma AddTrapsExactly(lhs: u32, rhs: u32)
    ensures AddOverflows(lhs, rhs, Wrap(lhs + rhs)) <==> !Fits(Signed(lhs) + Signed(rhs))
    ensures Fits(Signed(lhs) + Signed(rhs)) ==> Signed(Wrap(lhs + rhs)) == Signed(lhs) + Signed(rhs)
  {
    var result := Wrap(lhs + rhs);
    hide And, Xor;
    SignMask(And(Not(Xor(lhs, rhs)), Xor(lhs, result)));
    TopBit(Not(Xor(lhs, rhs)), Xor(lhs, result));
    TopBit(lhs, rhs);
    TopBit(lhs, result);
  }

  lemma SubTrapsExactly(lhs: u32, rhs: u32)
    ensures SubOverflows(lhs, rhs, Wrap(lhs - rhs)) <==> !Fits(Signed(lhs) - Signed(rhs))
    ensures Fits(Signed(lhs) - Signed(rhs)) ==> Signed(Wrap(lhs - rhs)) == Signed(lhs) - Signed(rhs)
  {
    var result := Wrap(lhs - rhs);
    hide And, Xor;
    SignMask(And(Xor(lhs, rhs), Xor(lhs, result)));
    TopBit(Xor(lhs, rhs), Xor(lhs, result));
    TopBit(lhs, rhs);
    TopBit(lhs, result);
  }

  lemma ProductMonotone(a: nat, b: int, c: int)
    requires b <= c
    ensures a * b <= a * c
  {
  }

  lemma ProductBounds(a: int, b: int, m: int)
    requires m >= 0 && -m <= a <= m && -m <= b <= m
    ensures -(m * m) <= a * b <= m * m
  {
    var n := if a < 0 then -a else a;
    ProductMonotone(n, b, m);
    ProductMonotone(n, -m, b);
    ProductMonotone(m, n, m);
    SignedProduct(n, m);
    SignedProduct(n, b);
  }

  /** HI:LO is the exact 64-bit product, signed for MULT and unsigned for MULTU. */
  lemma ProductIsExact(rs: u32, rt: u32, hi: u32, lo: u32)
    ensures var (h, l) := HiLoAfter(Mult, rs, rt, hi, lo); Signed(h) * TWO32 + l == Signed(rs) * Signed(rt)
    ensures var (h, l) := HiLoAfter(Multu, rs, rt, hi, lo); h * TWO32 + l == rs * rt
  {
    var p, u := Signed(rs) * Signed(rt), rs * rt;
    ProductBounds(Signed(rs), Signed(rt), TWO31);
    MultipleOf(rs, rt + 1);
    assert u <= 0xFFFF_FFFF * 0xFFFF_FFFF by {
      assert rs * rt <= rs * 0xFFFF_FFFF;
    }
    assert 0 <= u;
    SplitExact(p);
    SplitExact(u);
  }

  lemma SplitExact(p: int)
    requires -(TWO31 * TWO31) <= p < TWO32 * TWO32
    ensures var (h, l) := Split64(p);
      && (p >= 0 ==> h * TWO32 + l == p)
      && (p <= TWO31 * TWO31 ==> Signed(h) * TWO32 + l == p)
  {
  }

  lemma MultipleIsZero(k: int, d: int)
    requires d > 0
    ensures k * d % d == 0
  {
    RemainderIs(k * d, d, k, 0);
  }

  lemma CongruentProduct(x: int, y: int)
    ensures (Wrap(x) * Wrap(y) - x * y) % TWO32 == 0
  {
    var a, b := x / TWO32, y / TWO32;
    var u, v := Wrap(x), Wrap(y);
    assert x == a * TWO32 + u && y == b * TWO32 + v;
    var k := -(a * b * TWO32 + a * v + b * u);
    assert u * v - x * y == k * TWO32 by {
      assert x * y == a * TWO32 * (b * TWO32) + a * TWO32 * v + u * (b * TWO32) + u * v;
    }
    MultipleIsZero(k, TWO32);
  }

  lemma WrapSigned(x: u32)
    ensures Wrap(Signed(x)) == x && (Signed(x) - x) % TWO32 == 0
  {
  }

  lemma WrapDifference(x: int)
    ensures (Wrap(x) - x) % TWO32 == 0
  {
    var k := x / TWO32;
    assert Wrap(x) - x == -k * TWO32;
    MultipleIsZero(-k, TWO32);
  }

  /** The identity for any quotient and the remainder that goes with it. */
  lemma IdentityFor(a: int, b: int, q: int)
    ensures (Wrap(q) * Wrap(b) + Wrap(a - q * b) - a) % TWO32 == 0
  {
    var p := q * b;
    CongruentProduct(q, b);
    WrapDifference(a - p);
    SumOfMultiples(Wrap(q) * Wrap(b) - p, Wrap(a - p) - (a - p), 0);
  }

  lemma SignedIdentity(rs: u32, rt: u32, q: int)
    ensures var a, b := Signed(rs), Signed(rt);
      (Wrap(q) * rt + Wrap(a - q * b) - rs) % TWO32 == 0
  {
    var a, b := Signed(rs), Signed(rt);
    IdentityFor(a, b, q);
    WrapSigned(rs);
    WrapSigned(rt);
    SumOfMultiples(Wrap(q) * rt + Wrap(a - q * b) - a, a - rs, 0);
  }

  /** Division by anything, zero and INT_MIN / -1 included, leaves LO * rt + HI congruent to rs. */
  lemma DivisionIdentity(rs: u32, rt: u32, hi: u32, lo: u32)
    ensures var (h, l) := HiLoAfter(Div, rs, rt, hi, lo); (l * rt + h - rs) % TWO32 == 0
    ensures var (h, l) := HiLoAfter(Divu, rs, rt, hi, lo); (l * rt + h - rs) % TWO32 == 0
  {
    if rt == 0 {
    } else {
      AbsoluteDivision(rs, rt);
      assert rs / rt * rt + rs % rt == rs;
      if !(rs == 0x8000_0000 && rt == 0xFFFF_FFFF) {
        SignedIdentity(rs, rt, TruncatedQuotient(Signed(rs), Signed(rt)));
      }
    }
  }

  lemma SumOfMultiples(x: int, y: int, z: int)
    requires x % TWO32 == 0 && y % TWO32 == 0 && z % TWO32 == 0
    ensures (x + y + z) % TWO32 == 0
  {
  }

  lemma AbsoluteDivision(a: nat, b: nat)
    requires b > 0
    ensures a / b * b <= a < a / b * b + b
    ensures 0 <= a / b <= a
  {
    DivideShrinks(a, b);
  }

  /** Outside the two special cases DIV truncates toward zero and the remainder takes the dividend's sign. */
  lemma DivisionTruncates(rs: u32, rt: u32, hi: u32, lo: u32)
    requires rt != 0 && !(rs == 0x8000_0000 && rt == 0xFFFF_FFFF)
    ensures var (h, l) := HiLoAfter(Div, rs, rt, hi, lo);
      var a, b, q, r := Signed(rs), Signed(rt), Signed(l), Signed(h);
      && a == q * b + r
      && (a >= 0 ==> 0 <= r < if b < 0 then -b else b)
      && (a <= 0 ==> -(if b < 0 then -b else b) < r <= 0)
  {
    var a, b := Signed(rs), Signed(rt);
    TruncationBounds(a, b);
    var q := TruncatedQuotient(a, b);
    var r := a - q * b;
    WrapFits(q);
    WrapFits(r);
  }

  lemma WrapFits(x: int)
    requires Fits(x)
    ensures Signed(Wrap(x)) == x
  {
  }

  lemma TruncationBounds(a: int, b: int)
    requires Fits(a) && Fits(b) && b != 0 && !(a == -TWO31 && b == -1)
    ensures var q := TruncatedQuotient(a, b);
      var r, n := a - q * b, if b < 0 then -b else b;
      Fits(q) && Fits(r) && (a >= 0 ==> 0 <= r < n) && (a <= 0 ==> -n < r <= 0)
  {
    var m, n := if a < 0 then -a else a, if b < 0 then -b else b;
    var k := m / n;
    AbsoluteDivision(m, n);
    SignedProduct(k, n);
    if n >= 2 {
      MultipleAtLeastDouble(k, n);
    }
    var q := TruncatedQuotient(a, b);
    assert q * b == if a < 0 then -(k * n) else k * n;
  }

  lemma MultipleAtLeastDouble(k: nat, d: nat)
    requires d >= 2
    ensures k * d >= 2 * k
  {
  }

  lemma SignedProduct(q: int, n: int)
    ensures -q * -n == q * n && -q * n == -(q * n) && q * -n == -(q * n)
  {
  }

  /** SRA and SRAV divide by a power of two, rounding toward minus infinity. */
  lemma ShiftIsFloorDivision(value: u32, amount: u32)
    ensures Signed(ArithmeticShiftRight(value, amount)) == Signed(value) / Pow2(amount % 32)
  {
    var n := amount % 32;
    Pow2Of32();
    if n == 0 {
      assert Pow2(0) == 1;
    } else {
      var p, q := Pow2(n), Pow2(32 - n);
      Pow2Adds(n, 32 - n);
      assert p * q == TWO32;
      if value < TWO31 {
        DivideShrinks(value, p);
        assert Shr(value, n) == value / p < TWO31;
      } else {
        NegativeShift(value, n, p, q);
      }
    }
  }

  lemma NegativeShift(value: u32, n: nat, p: nat, q: nat)
    requires 0 < n < 32 && value >= TWO31
    requires p == Pow2(n) && q == Pow2(32 - n) && p * q == TWO32
    ensures Signed(Or(Shr(value, n), Shl(0xFFFF_FFFF, 32 - n))) == Signed(value) / p
  {
    var s := Signed(value);
    var e, r := s / p, s % p;
    assert s == e * p + r;
    assert value == (e + q) * p + r by {
      assert (e + q) * p == e * p + q * p;
    }
    RemainderIs(value, p, e + q, r);
    assert Shr(value, n) == e + q;
    assert 0 <= e + q < q by {
      DivideShrinks(value, p);
      NegativeQuotient(s, p);
    }
    FillMask(n, p, q);
    OrDisjoint(e + q, TWO32 - q, 32 - n);
    assert Or(Shr(value, n), Shl(0xFFFF_FFFF, 32 - n)) == e + TWO32;
    QuotientAboveHalf(s, p);
  }

  lemma NegativeQuotient(s: int, p: nat)
    requires p > 0 && s < 0
    ensures s / p < 0
  {
    MultipleOf(s / p, p);
  }

  lemma QuotientAboveHalf(s: int, p: nat)
    requires p > 0 && -TWO31 <= s < 0
    ensures -TWO31 <= s / p < 0
  {
    var e := s / p;
    NegativeQuotient(s, p);
    assert s == e * p + s % p;
    assert (e + 1) * p == e * p + p > s;
    MultipleOf(-(e + 1), p);
    SignedProduct(e + 1, p);
  }

  /** Shifting ones left by 32-n leaves zeros below and ones above. */
  lemma FillMask(n: nat, p: nat, q: nat)
    requires 0 < n < 32 && p == Pow2(n) && q == Pow2(32 - n) && p * q == TWO32
    ensures Shl(0xFFFF_FFFF, 32 - n) == TWO32 - q
    ensures (TWO32 - q) % q == 0 && q < TWO32
  {
    assert 0xFFFF_FFFF * q == (q - 1) * TWO32 + (TWO32 - q);
    MultipleOf(p - 1, q);
    assert (p - 1) * q == TWO32 - q;
    assert p >= 2 by { assert Pow2(n) == 2 * Pow2(n - 1); }
    RemainderIs(0xFFFF_FFFF * q, TWO32, q - 1, TWO32 - q);
    RemainderIs(TWO32 - q, q, p - 1, 0);
  }

  /** RFE after exception entry restores Status bits 0-3 and everything above bit 5; the pair it pops
      from stays behind in bits 4 and 5. */
  lemma ReturnRestoresStatus(status: u32)
    ensures PoppedStatus(PushedStatus(status)) == status / 0x40 * 0x40 + status / 4 % 4 * 0x10 + status % 0x10
  {
    var h, m, l := status / 0x40, status / 4 % 4, status % 4;
    assert status % 0x10 == m * 4 + l;
    assert PushedStatus(status) == h * 0x40 + m * 0x10 + l * 4;
    Popped(h, m, l);
  }

  lemma Popped(h: nat, m: nat, l: nat)
    requires m < 4 && l < 4 && h * 0x40 + m * 0x10 + l * 4 < TWO32
    ensures PoppedStatus(h * 0x40 + m * 0x10 + l * 4) == h * 0x40 + m * 0x10 + m * 4 + l
  {
    RemainderIs(h * 0x40 + m * 0x10 + l * 4, 0x10, h * 4 + m, l * 4);
    RemainderIs(h * 0x40 + m * 0x10 + l * 4, 4, h * 0x10 + m * 4 + l, 0);
    RemainderIs(h * 0x10 + m * 4 + l, 0x10, h, m * 4 + l);
  }
}
