/** The processor's field arithmetic is the source's masking and shifting: each quotient-and-remainder
    form of the specification equals the `&`, `|`, `~`, `<<` and `>>` expression it stands for. */
module R3000aMasks {
  import opened Words
  import opened R3000a

  // ----- Masks on words -----

  /** The `w` bits of a word from bit `n` on; `p` and `q` are the two powers. */
  lemma FieldOf(x: u32, mask: u32, n: nat, w: nat, p: int, q: int)
    requires Pow2(n) == p && Pow2(w) == q && mask == (q - 1) * p
    ensures And(x, mask) == x / p % q * p
  {
    AndField(x, mask, n, w);
  }

  lemma WithoutMask(x: u32, mask: u32)
    ensures And(x, Not(mask)) == x - And(x, mask)
  {
    Pow2Of32();
    AndNot(x, mask, 32);
  }

  lemma Shifted(x: u32, n: nat, p: int)
    requires Pow2(n) == p
    ensures Shl(x, n) == Wrap(x * p) && Shr(x, n) == x / p
  {
  }

  /** Setting the bits of a field that is clear adds them. */
  lemma SetField(x: u32, k: nat, mask: u32, n: nat, w: nat, p: int, q: int)
    requires Pow2(n) == p && Pow2(w) == q && mask == (q - 1) * p
    requires x / p % q == 0 && k < q && k * p < TWO32
    ensures k * p >= 0 && Or(x, k * p) == x + k * p
  {
    hide Pow2, BitAnd, BitOr;
    MultipleOf(k, p);
    var y: u32 := k * p;
    FieldOf(x, mask, n, w, p, q);
    FieldOf(y, mask, n, w, p, q);
    RemainderIs(y, p, k, 0);
    RemainderIs(k, q, 0, k);
    AndWithin(x, y, mask);
    OrAnd(x, y);
  }

  lemma Powers()
    ensures Pow2(0) == 1 && Pow2(1) == 2 && Pow2(2) == 4 && Pow2(4) == 0x10 && Pow2(5) == 0x20 && Pow2(6) == 0x40
    ensures Pow2(8) == 0x100 && Pow2(10) == 0x400 && Pow2(16) == 0x1_0000 && Pow2(22) == 0x40_0000
    ensures Pow2(24) == 0x100_0000 && Pow2(28) == 0x1000_0000 && Pow2(30) == 0x4000_0000 && Pow2(31) == 0x8000_0000
  {
    assert Pow2(10) == 0x400;
    Pow2Adds(6, 10);
    Pow2Adds(6, 16);
    Pow2Adds(8, 16);
    Pow2Adds(6, 22);
    Pow2Adds(6, 24);
    Pow2Adds(1, 30);
  }

  // ----- Status -----

  const MODE_STACK: u32 := 0x3F

  lemma PushedSplits(h: nat, l: nat)
    requires h < 0x400_0000 && l < 0x40
    ensures PushedStatus(h * 0x40 + l) == h * 0x40 + l % 0x10 * 4 && l * 4 % 0x40 == l % 0x10 * 4
  {
    RemainderIs(h * 0x40 + l, 0x10, h * 4 + l / 0x10, l % 0x10);
    RemainderIs(h * 0x40 + l, 0x40, h, l);
    RemainderIs(l * 4, 0x40, l / 0x10, l % 0x10 * 4);
  }

  lemma PushedStatusIsMasked(status: u32)
    ensures PushedStatus(status) == Or(And(status, Not(MODE_STACK)), And(Shl(And(status, MODE_STACK), 2), MODE_STACK))
  {
    hide Pow2, And, Or, Not, Shl;
    Powers();
    WithoutMask(status, MODE_STACK);
    FieldOf(status, MODE_STACK, 0, 6, 1, 0x40);
    var h, l := status / 0x40, status % 0x40;
    Shifted(l, 2, 4);
    var shifted := Shl(l, 2);
    assert shifted == l * 4;
    FieldOf(shifted, MODE_STACK, 0, 6, 1, 0x40);
    PushedSplits(h, l);
    SetField(h * 0x40, l % 0x10 * 4, MODE_STACK, 0, 6, 1, 0x40);
  }

  lemma PoppedSplits(h: nat, l: nat)
    requires h < 0x400_0000 && l < 0x40
    ensures PoppedStatus(h * 0x40 + l) == h * 0x40 + l / 0x10 * 0x10 + l / 4
  {
    RemainderIs(h * 0x40 + l, 0x10, h * 4 + l / 0x10, l % 0x10);
    RemainderIs(h * 0x40 + l, 4, h * 0x10 + l / 4, l % 4);
    RemainderIs(h * 0x10 + l / 4, 0x10, h, l / 4);
  }

  lemma PoppedStatusIsMasked(status: u32)
    ensures var low := And(status, MODE_STACK);
      PoppedStatus(status) == Or(And(status, Not(MODE_STACK)), Or(And(low, 0x30), And(Shr(low, 2), 0xF)))
  {
    hide Pow2, And, Or, Not, Shr;
    Powers();
    WithoutMask(status, MODE_STACK);
    FieldOf(status, MODE_STACK, 0, 6, 1, 0x40);
    var h, l := status / 0x40, status % 0x40;
    Shifted(l, 2, 4);
    hide PoppedStatus;
    FieldOf(l, 0x30, 4, 2, 0x10, 4);
    FieldOf(Shr(l, 2), 0xF, 0, 4, 1, 0x10);
    SetField(l / 0x10 * 0x10, l / 4, 0xF, 0, 4, 1, 0x10);
    SetField(h * 0x40, l / 0x10 * 0x10 + l / 4, MODE_STACK, 0, 6, 1, 0x40);
    PoppedSplits(h, l);
  }

  lemma ExceptionVectorIsMasked(status: u32)
    ensures ExceptionVector(status) == if And(status, Shl(1, 22)) != 0 then 0xBFC0_0180 else 0x8000_0080
  {
    hide Pow2, And, Shl;
    Powers();
    Shifted(1, 22, 0x40_0000);
    FieldOf(status, 0x40_0000, 22, 1, 0x40_0000, 2);
  }

  // ----- Cause -----

  const EXC_CODE: u32 := 0x7C
  const CONTEXT: u32 := 0xF000_0000
  const SOFTWARE_LINES: u32 := 0x300
  const EXTERNAL_LINES: u32 := 0xFC00

  lemma AndBoth(x: u32, low: u32, high: u32, n: nat, p: int)
    requires Pow2(n) == p && low < p && high % p == 0 && low + high < TWO32
    ensures And(x, low + high) == And(x, low) + And(x, high)
  {
    AndJoins(x, low, high, n);
  }

  lemma ClearedSplits(cause: u32)
    ensures ClearedCause(cause) == cause - cause / 4 % 0x20 * 4 - cause / 0x1000_0000 % 0x10 * 0x1000_0000
  {
  }

  lemma ClearedCauseIsMasked(cause: u32)
    ensures ClearedCause(cause) == And(cause, Not(Or(EXC_CODE, CONTEXT)))
  {
    hide Pow2, And, Or, Not, ClearedCause;
    Powers();
    SetField(EXC_CODE, 0xF, CONTEXT, 28, 4, 0x1000_0000, 0x10);
    WithoutMask(cause, 0xF000_007C);
    AndBoth(cause, EXC_CODE, CONTEXT, 28, 0x1000_0000);
    FieldOf(cause, EXC_CODE, 2, 5, 4, 0x20);
    FieldOf(cause, CONTEXT, 28, 4, 0x1000_0000, 0x10);
    ClearedSplits(cause);
  }

  /** The fields exception entry writes are clear before each write. */
  lemma ClearedFields(cause: u32, number: nat, coprocessor: nat)
    requires number < 0x20 && coprocessor < 4
    ensures var cleared := ClearedCause(cause);
      var coded := cleared + number * 4;
      var unit := coded + coprocessor * 0x1000_0000;
      && cleared < 0x1000_0000 && cleared / 4 % 0x20 == 0
      && coded < 0x1000_0000 && coded / 0x1000_0000 % 4 == 0
      && unit < 0x4000_0000 && unit / 0x8000_0000 % 2 == 0 && unit / 0x4000_0000 % 2 == 0
      && (unit + 0x8000_0000) / 0x4000_0000 % 2 == 0
  {
    var h, l := cause % 0x1000_0000 / 0x80, cause % 4;
    RemainderIs(h * 0x80 + l, 4, h * 0x20, l);
    RemainderIs(h * 0x20, 0x20, h, 0);
    var unit := h * 0x80 + l + number * 4 + coprocessor * 0x1000_0000;
    RemainderIs(unit + 0x8000_0000, 0x4000_0000, 2, unit);
  }

  /** The writes to Cause on exception entry, in their order. */
  lemma ExceptionCauseIsOred(cause: u32, code: ExceptionCode, slot: DelaySlot, coprocessor: int)
    requires 0 <= coprocessor < 4
    ensures
      var coded := Or(ClearedCause(cause), Shl(CodeNumber(code), 2));
      var unit := Or(coded, Shl(coprocessor, 28));
      var delayed := if slot.active then Or(unit, Shl(1, 31)) else unit;
      ExceptionCause(cause, code, slot, coprocessor) == if slot.active && slot.taken then Or(delayed, Shl(1, 30)) else delayed
  {
    hide Pow2, Or, Shl, CodeNumber, ClearedCause;
    Powers();
    Shifted(CodeNumber(code), 2, 4);
    Shifted(coprocessor, 28, 0x1000_0000);
    Shifted(1, 31, 0x8000_0000);
    Shifted(1, 30, 0x4000_0000);
    ClearedFields(cause, CodeNumber(code), coprocessor);
    var cleared, code4 := ClearedCause(cause), CodeNumber(code) * 4;
    SetField(cleared, CodeNumber(code), EXC_CODE, 2, 5, 4, 0x20);
    SetField(cleared + code4, coprocessor, 0x3000_0000, 28, 2, 0x1000_0000, 4);
    var unit := cleared + code4 + coprocessor * 0x1000_0000;
    SetField(unit, 1, 0x8000_0000, 31, 1, 0x8000_0000, 2);
    SetField(unit + 0x8000_0000, 1, 0x4000_0000, 30, 1, 0x4000_0000, 2);
  }

  lemma SampledSplits(cause: u32, lines: u8)
    ensures SampledCause(cause, lines) == cause - cause / 0x400 % 0x40 * 0x400 + lines / 4 * 0x400
    ensures (cause - cause / 0x400 % 0x40 * 0x400) / 0x400 % 0x40 == 0
    ensures lines / 4 % 0x40 == lines / 4 && Wrap(lines / 4 * 4 * 0x100) == lines / 4 * 0x400
  {
    var h, m, l := cause / 0x1_0000, cause / 0x400 % 0x40, cause % 0x400;
    assert cause == h * 0x1_0000 + m * 0x400 + l;
    RemainderIs(h * 0x1_0000 + l, 0x400, h * 0x40, l);
    RemainderIs(h * 0x40, 0x40, h, 0);
  }

  lemma SampledCauseIsMasked(cause: u32, lines: u8)
    ensures SampledCause(cause, lines) == Or(And(cause, Not(EXTERNAL_LINES)), Shl(And(lines, 0xFC), 8))
  {
    hide Pow2, And, Or, Not, Shl, SampledCause;
    Powers();
    WithoutMask(cause, EXTERNAL_LINES);
    FieldOf(cause, EXTERNAL_LINES, 10, 6, 0x400, 0x40);
    FieldOf(lines, 0xFC, 2, 6, 4, 0x40);
    Shifted(lines / 4 * 4, 8, 0x100);
    SampledSplits(cause, lines);
    SetField(cause - cause / 0x400 % 0x40 * 0x400, lines / 4, EXTERNAL_LINES, 10, 6, 0x400, 0x40);
  }

  lemma WrittenSplits(cause: u32, value: u32)
    ensures CauseWritten(cause, value) == cause - cause / 0x100 % 4 * 0x100 + value / 0x100 % 4 * 0x100
    ensures (cause - cause / 0x100 % 4 * 0x100) / 0x100 % 4 == 0
  {
    var h, m, l := cause / 0x400, cause / 0x100 % 4, cause % 0x100;
    assert cause == h * 0x400 + m * 0x100 + l;
    RemainderIs(h * 0x400 + l, 0x100, h * 4, l);
    RemainderIs(h * 4, 4, h, 0);
  }

  lemma CauseWrittenIsMasked(cause: u32, value: u32)
    ensures CauseWritten(cause, value) == Or(And(cause, Not(SOFTWARE_LINES)), And(value, SOFTWARE_LINES))
  {
    hide Pow2, And, Or, Not, CauseWritten;
    Powers();
    WithoutMask(cause, SOFTWARE_LINES);
    FieldOf(cause, SOFTWARE_LINES, 8, 2, 0x100, 4);
    FieldOf(value, SOFTWARE_LINES, 8, 2, 0x100, 4);
    WrittenSplits(cause, value);
    SetField(cause - cause / 0x100 % 4 * 0x100, value / 0x100 % 4, SOFTWARE_LINES, 8, 2, 0x100, 4);
  }

  // ----- Unaligned accesses -----

  lemma AlignedIsMasked(address: u32)
    ensures And(address, Not(3)) == address / 4 * 4 && And(address, 3) == address % 4
  {
    hide Pow2, And, Not;
    Powers();
    WithoutMask(address, 3);
    FieldOf(address, 3, 0, 2, 1, 4);
  }

  /** A word made of the low bits of one word and the high bits of another, each kept by a mask. */
  lemma KeptLowAndHigh(x: u32, low: u32, high: u32, n: nat, p: int)
    requires n <= 32 && Pow2(n) == p && low == p - 1 && high == Not(low)
    ensures And(x, low) == x % p && And(x, high) == x / p * p
  {
    hide Pow2, BitAnd;
    WithoutMask(x, low);
    AndLowMask(x, n);
    assert x == x / p * p + x % p;
  }

  lemma Distributes(h: int, q: int, l: int, p: int)
    ensures (h * q + l) * p == h * (p * q) + l * p
  {
    assert (h * q + l) * p == h * q * p + l * p;
  }

  /** Shifting down leaves the high bits at the bottom, shifting up the low bits at the top. */
  lemma ShiftedHalves(x: u32, n: nat, m: nat, p: int, q: int)
    requires Pow2(n) == p && Pow2(m) == q && p * q == TWO32
    ensures Shr(x, m) == x / q && x / q < p && Shl(x, n) == x % q * p && x % q * p < TWO32
  {
    hide Pow2;
    var h, l := x / q, x % q;
    assert x == h * q + l;
    assert h < p by {
      MultipleOf(h - p, q);
    }
    assert l * p < TWO32 by {
      MultipleOf(l - q, p);
    }
    Distributes(h, q, l, p);
    RemainderIs(x * p, TWO32, h, l * p);
  }

  /** A low part and a high part make a word. */
  lemma PartsFit(l: int, k: int, n: nat, p: int, q: int)
    requires Pow2(n) == q && p * q == TWO32 && 0 <= l < q && 0 <= k < p
    ensures 0 <= k * q < TWO32 && l + k * q < TWO32
    ensures Or(l, k * q) == l + k * q == Or(k * q, l)
  {
    hide Pow2, Or;
    MultipleOf(k, q);
    MultipleOf(k + 1 - p, q);
    assert (k + 1 - p) * q == k * q + q - p * q;
    RemainderIs(k * q, q, k, 0);
    OrOfFields(k * q, l, n);
    SmallFirst(l, k * q);
  }

  lemma SmallFirst(x: u32, y: u32)
    ensures Or(x, y) == Or(y, x)
  {
    OrCommutes(x, y);
  }

  lemma KeepLow(x: u32, value: u32, low: u32, n: nat, m: nat, p: int, q: int)
    requires Pow2(n) == p && Pow2(m) == q && p * q == TWO32 && m <= 32 && low == q - 1
    ensures Or(And(x, low), Shl(value, m)) == x % q + value % p * q
  {
    hide Pow2, And, Or, Not, Shl, Shr;
    KeptLowAndHigh(x, low, Not(low), m, q);
    ShiftedHalves(value, m, n, q, p);
    PartsFit(x % q, value % p, m, p, q);
  }

  lemma KeepHigh(x: u32, value: u32, low: u32, n: nat, m: nat, p: int, q: int)
    requires Pow2(n) == p && Pow2(m) == q && p * q == TWO32 && m <= 32 && low == q - 1
    ensures Or(And(x, Not(low)), Shr(value, n)) == x / q * q + value / p
  {
    hide Pow2, And, Or, Not, Shl, Shr;
    KeptLowAndHigh(x, low, Not(low), m, q);
    ShiftedHalves(value, m, n, q, p);
    ShiftedHalves(x, n, m, p, q);
    PartsFit(value / p, x / q, m, p, q);
  }

  lemma JumpTargetIsMasked(pc: u32, target: u32)
    requires target < 0x400_0000
    ensures JumpTarget(pc, target) == Or(And(Wrap(pc + 4), 0xF000_0000), Shl(target, 2))
  {
    hide Pow2, And, Or, Shl;
    Powers();
    var next := Wrap(pc + 4);
    KeptLowAndHigh(next, 0x0FFF_FFFF, 0xF000_0000, 28, 0x1000_0000);
    Shifted(target, 2, 4);
    PartsFit(target * 4, next / 0x1000_0000, 28, 0x10, 0x1000_0000);
  }

  lemma MergeLeftIsMasked(base: u32, word: u32)
    ensures MergeLeft(base, word, 0) == Or(And(base, 0x00FF_FFFF), Shl(word, 24))
    ensures MergeLeft(base, word, 1) == Or(And(base, 0x0000_FFFF), Shl(word, 16))
    ensures MergeLeft(base, word, 2) == Or(And(base, 0x0000_00FF), Shl(word, 8))
    ensures MergeLeft(base, word, 3) == word
  {
    hide Pow2, And, Or, Shl;
    Powers();
    KeepLow(base, word, 0x00FF_FFFF, 8, 24, 0x100, 0x100_0000);
    KeepLow(base, word, 0x0000_FFFF, 16, 16, 0x1_0000, 0x1_0000);
    KeepLow(base, word, 0x0000_00FF, 24, 8, 0x100_0000, 0x100);
  }

  lemma MergeRightIsMasked(base: u32, word: u32)
    ensures MergeRight(base, word, 0) == word
    ensures MergeRight(base, word, 1) == Or(And(base, 0xFF00_0000), Shr(word, 8))
    ensures MergeRight(base, word, 2) == Or(And(base, 0xFFFF_0000), Shr(word, 16))
    ensures MergeRight(base, word, 3) == Or(And(base, 0xFFFF_FF00), Shr(word, 24))
  {
    hide Pow2, And, Or, Shr;
    Powers();
    KeepHigh(base, word, 0x00FF_FFFF, 8, 24, 0x100, 0x100_0000);
    KeepHigh(base, word, 0x0000_FFFF, 16, 16, 0x1_0000, 0x1_0000);
    KeepHigh(base, word, 0x0000_00FF, 24, 8, 0x100_0000, 0x100);
  }

  lemma InsertLeftIsMasked(word: u32, value: u32)
    ensures InsertLeft(word, value, 0) == Or(And(word, 0xFFFF_FF00), Shr(value, 24))
    ensures InsertLeft(word, value, 1) == Or(And(word, 0xFFFF_0000), Shr(value, 16))
    ensures InsertLeft(word, value, 2) == Or(And(word, 0xFF00_0000), Shr(value, 8))
    ensures InsertLeft(word, value, 3) == value
  {
    hide Pow2, And, Or, Shr;
    Powers();
    KeepHigh(word, value, 0x0000_00FF, 24, 8, 0x100_0000, 0x100);
    KeepHigh(word, value, 0x0000_FFFF, 16, 16, 0x1_0000, 0x1_0000);
    KeepHigh(word, value, 0x00FF_FFFF, 8, 24, 0x100, 0x100_0000);
  }

  lemma InsertRightIsMasked(word: u32, value: u32)
    ensures InsertRight(word, value, 0) == value
    ensures InsertRight(word, value, 1) == Or(And(word, 0x0000_00FF), Shl(value, 8))
    ensures InsertRight(word, value, 2) == Or(And(word, 0x0000_FFFF), Shl(value, 16))
    ensures InsertRight(word, value, 3) == Or(And(word, 0x00FF_FFFF), Shl(value, 24))
  {
    hide Pow2, And, Or, Shl;
    Powers();
    KeepLow(word, value, 0x0000_00FF, 24, 8, 0x100_0000, 0x100);
    KeepLow(word, value, 0x0000_FFFF, 16, 16, 0x1_0000, 0x1_0000);
    KeepLow(word, value, 0x00FF_FFFF, 8, 24, 0x100, 0x100_0000);
  }
}
