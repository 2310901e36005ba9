/** LWL/LWR and SWL/SWR over the load delay and the PS1 bus: together they access the word at any
    address, aligned or not. */
module R3000aUnaligned {
  import opened Outcomes
  import opened Words
  import opened MipsDecoder
  import opened R3000a
  import opened R3000aPipeline
  import opened MemoryBus

  // ----- Merging, on bytes -----

  lemma JoinBytes(b0: u8, b1: u8, b2: u8, b3: u8)
    ensures var w := Join(b0, b1, b2, b3);
      && ByteOf(w, 0) == b0 && ByteOf(w, 1) == b1 && ByteOf(w, 2) == b2 && ByteOf(w, 3) == b3
      && w % 0x100 == b0 && w % 0x1_0000 == Join(b0, b1, 0, 0) && w % 0x100_0000 == Join(b0, b1, b2, 0)
      && w / 0x100 == Join(b1, b2, b3, 0) && w / 0x1_0000 == Join(b2, b3, 0, 0) && w / 0x100_0000 == b3
  {
    var w := Join(b0, b1, b2, b3);
    RemainderIs(w, 0x100, Join(b1, b2, b3, 0), b0);
    RemainderIs(w, 0x1_0000, Join(b2, b3, 0, 0), Join(b0, b1, 0, 0));
    RemainderIs(w, 0x100_0000, b3, Join(b0, b1, b2, 0));
    RemainderIs(Join(b1, b2, b3, 0), 0x100, Join(b2, b3, 0, 0), b1);
    RemainderIs(Join(b2, b3, 0, 0), 0x100, b3, b2);
  }

  lemma SplitWord(w: u32)
    ensures w == Join(ByteOf(w, 0), ByteOf(w, 1), ByteOf(w, 2), ByteOf(w, 3))
  {
    var a, b := w / 0x100, w / 0x1_0000;
    assert w == a * 0x100 + w % 0x100;
    assert b == a / 0x100 && w / 0x100_0000 == b / 0x100;
    assert a == b * 0x100 + a % 0x100 && b == b / 0x100 * 0x100 + b % 0x100;
  }

  lemma MergedLeft(base: u32, word: u32, lane: int)
    requires 0 <= lane < 3
    ensures var a0, a1, a2 := ByteOf(base, 0), ByteOf(base, 1), ByteOf(base, 2);
      var w0, w1, w2 := ByteOf(word, 0), ByteOf(word, 1), ByteOf(word, 2);
      MergeLeft(base, word, lane) ==
        (if lane == 0 then Join(a0, a1, a2, w0) else if lane == 1 then Join(a0, a1, w0, w1) else Join(a0, w0, w1, w2))
  {
    SplitWord(base);
    SplitWord(word);
    JoinBytes(ByteOf(base, 0), ByteOf(base, 1), ByteOf(base, 2), ByteOf(base, 3));
    JoinBytes(ByteOf(word, 0), ByteOf(word, 1), ByteOf(word, 2), ByteOf(word, 3));
  }

  lemma MergedRight(base: u32, word: u32, lane: int)
    requires 0 < lane < 4
    ensures var a1, a2, a3 := ByteOf(base, 1), ByteOf(base, 2), ByteOf(base, 3);
      var w1, w2, w3 := ByteOf(word, 1), ByteOf(word, 2), ByteOf(word, 3);
      MergeRight(base, word, lane) ==
        (if lane == 1 then Join(w1, w2, w3, a3) else if lane == 2 then Join(w2, w3, a2, a3) else Join(w3, a1, a2, a3))
  {
    SplitWord(base);
    SplitWord(word);
    JoinBytes(ByteOf(base, 0), ByteOf(base, 1), ByteOf(base, 2), ByteOf(base, 3));
    JoinBytes(ByteOf(word, 0), ByteOf(word, 1), ByteOf(word, 2), ByteOf(word, 3));
  }

  /** Eight consecutive bytes, an address `lane` bytes into them: LWL from the word that holds its last byte
      and LWR from the word that holds its first assemble the four bytes from `lane` on. */
  lemma MergedLoad(base: u32, b0: u8, b1: u8, b2: u8, b3: u8, b4: u8, b5: u8, b6: u8, b7: u8, lane: int)
    requires 0 < lane < 4
    ensures MergeRight(MergeLeft(base, Join(b4, b5, b6, b7), lane - 1), Join(b0, b1, b2, b3), lane)
         == (if lane == 1 then Join(b1, b2, b3, b4) else if lane == 2 then Join(b2, b3, b4, b5) else Join(b3, b4, b5, b6))
  {
    var low, high := Join(b0, b1, b2, b3), Join(b4, b5, b6, b7);
    var left := MergeLeft(base, high, lane - 1);
    MergedLeft(base, high, lane - 1);
    MergedRight(left, low, lane);
    JoinBytes(b0, b1, b2, b3);
    JoinBytes(b4, b5, b6, b7);
    hide ByteOf, Join, MergeLeft, MergeRight;
    match lane {
      case 1 => JoinBytes(ByteOf(base, 0), ByteOf(base, 1), ByteOf(base, 2), b4);
      case 2 => JoinBytes(ByteOf(base, 0), ByteOf(base, 1), b4, b5);
      case _ => JoinBytes(ByteOf(base, 0), b4, b5, b6);
    }
  }

  lemma InsertedLeft(word: u32, value: u32, lane: int)
    requires 0 <= lane < 4
    ensures var w1, w2, w3 := ByteOf(word, 1), ByteOf(word, 2), ByteOf(word, 3);
      var v0, v1, v2, v3 := ByteOf(value, 0), ByteOf(value, 1), ByteOf(value, 2), ByteOf(value, 3);
      InsertLeft(word, value, lane) ==
        (if lane == 0 then Join(v3, w1, w2, w3) else if lane == 1 then Join(v2, v3, w2, w3)
         else if lane == 2 then Join(v1, v2, v3, w3) else Join(v0, v1, v2, v3))
  {
    SplitWord(word);
    SplitWord(value);
    JoinBytes(ByteOf(word, 0), ByteOf(word, 1), ByteOf(word, 2), ByteOf(word, 3));
    JoinBytes(ByteOf(value, 0), ByteOf(value, 1), ByteOf(value, 2), ByteOf(value, 3));
  }

  lemma InsertedRight(word: u32, value: u32, lane: int)
    requires 0 <= lane < 4
    ensures var w0, w1, w2 := ByteOf(word, 0), ByteOf(word, 1), ByteOf(word, 2);
      var v0, v1, v2, v3 := ByteOf(value, 0), ByteOf(value, 1), ByteOf(value, 2), ByteOf(value, 3);
      InsertRight(word, value, lane) ==
        (if lane == 0 then Join(v0, v1, v2, v3) else if lane == 1 then Join(w0, v0, v1, v2)
         else if lane == 2 then Join(w0, w1, v0, v1) else Join(w0, w1, w2, v0))
  {
    SplitWord(word);
    SplitWord(value);
    JoinBytes(ByteOf(word, 0), ByteOf(word, 1), ByteOf(word, 2), ByteOf(word, 3));
    JoinBytes(ByteOf(value, 0), ByteOf(value, 1), ByteOf(value, 2), ByteOf(value, 3));
  }

  /** Byte by byte, SWL keeps the bytes above `lane` and SWR the bytes below it. */
  lemma InsertedBytes(word: u32, value: u32, lane: int, k: int)
    requires 0 <= lane < 4 && 0 <= k < 4
    ensures ByteOf(InsertLeft(word, value, lane), k) == if k <= lane then ByteOf(value, k + 3 - lane) else ByteOf(word, k)
    ensures ByteOf(InsertRight(word, value, lane), k) == if k >= lane then ByteOf(value, k - lane) else ByteOf(word, k)
  {
    var w0, w1, w2, w3 := ByteOf(word, 0), ByteOf(word, 1), ByteOf(word, 2), ByteOf(word, 3);
    var v0, v1, v2, v3 := ByteOf(value, 0), ByteOf(value, 1), ByteOf(value, 2), ByteOf(value, 3);
    InsertedLeft(word, value, lane);
    InsertedRight(word, value, lane);
    hide ByteOf, Join, InsertLeft, InsertRight;
    JoinBytes(v0, v1, v2, v3);
    match lane {
      case 0 => JoinBytes(v3, w1, w2, w3);
      case 1 => JoinBytes(v2, v3, w2, w3); JoinBytes(w0, v0, v1, v2);
      case 2 => JoinBytes(v1, v2, v3, w3); JoinBytes(w0, w1, v0, v1);
      case _ => JoinBytes(w0, w1, w2, v0);
    }
  }

  // ----- Addresses -----

  /** The words around a guest address all lie in RAM or in the scratchpad. */
  predicate WordsBacked(a: u32) {
    a + 3 < TWO32 && BackedAddress(a / 4 * 4, 4).Some? && BackedAddress((a + 3) / 4 * 4, 4).Some?
  }

  /** Where the first byte of `a` lies physically. */
  function PhysicalOf(a: u32): int
    requires WordsBacked(a)
  {
    BackedAddress(a / 4 * 4, 4).value + a % 4
  }

  lemma SecondWord(a: u32)
    requires WordsBacked(a)
    ensures a % 4 == 0 ==> (a + 3) / 4 * 4 == a && (a + 3) % 4 == 3
    ensures a % 4 != 0 ==> (a + 3) % 4 == a % 4 - 1 && (a + 3) / 4 * 4 == a / 4 * 4 + 4
    ensures a % 4 != 0 ==> BackedAddress((a + 3) / 4 * 4, 4).value == BackedAddress(a / 4 * 4, 4).value + 4
  {
    ThirdByteOn(a);
    hide BackedAddress;
    if a % 4 != 0 {
      WordsAreFourApart(a / 4 * 4);
    }
  }

  lemma WordsAreFourApart(w: u32)
    requires w + 4 < TWO32 && BackedAddress(w, 4).Some? && BackedAddress(w + 4, 4).Some?
    ensures BackedAddress(w + 4, 4).value == BackedAddress(w, 4).value + 4
  {
  }

  lemma ThirdByteOn(a: u32)
    ensures a % 4 == 0 ==> (a + 3) / 4 * 4 == a && (a + 3) % 4 == 3
    ensures a % 4 != 0 ==> (a + 3) % 4 == a % 4 - 1 && (a + 3) / 4 * 4 == a / 4 * 4 + 4
  {
    var w, l := a / 4, a % 4;
    if l == 0 {
      RemainderIs(a + 3, 4, w, 3);
    } else {
      RemainderIs(a + 3, 4, w + 1, l - 1);
    }
  }

  lemma MergedFlat(flat: Flat, p: int, lane: int, base: u32)
    requires 0 < lane < 4
    ensures MergeRight(MergeLeft(base, FlatRead(flat, p + 4, 4), lane - 1), FlatRead(flat, p, 4), lane) == FlatRead(flat, p + lane, 4)
  {
    hide Join, MergeLeft, MergeRight;
    MergedLoad(base, flat(p), flat(p + 1), flat(p + 2), flat(p + 3), flat(p + 4), flat(p + 5), flat(p + 6), flat(p + 7), lane);
  }

  lemma SecondWordPlace(a: u32)
    requires WordsBacked(a)
    ensures (a + 3) % 4 == (if a % 4 == 0 then 3 else a % 4 - 1)
    ensures BackedAddress((a + 3) / 4 * 4, 4).value == BackedAddress(a / 4 * 4, 4).value + (if a % 4 == 0 then 0 else 4)
  {
    SecondWord(a);
  }

  lemma LoadedWord(m: Memory, flat: Flat, a: u32, base: u32)
    requires Holds(m, flat) && WordsBacked(a)
    ensures MergeRight(MergeLeft(base, Read(m, (a + 3) / 4 * 4, 4).value, (a + 3) % 4), Read(m, a / 4 * 4, 4).value, a % 4)
         == FlatRead(flat, PhysicalOf(a), 4)
  {
    hide Read, FlatRead, BackedAddress;
    SecondWord(a);
    ReadIsFlat(m, flat, a / 4 * 4, 4);
    ReadIsFlat(m, flat, (a + 3) / 4 * 4, 4);
    if a % 4 != 0 {
      hide MergeLeft, MergeRight;
      MergedFlat(flat, BackedAddress(a / 4 * 4, 4).value, a % 4, base);
    }
  }

  lemma FlatBytes(flat: Flat, p: int, k: int)
    requires 0 <= k < 4
    ensures ByteOf(FlatRead(flat, p, 4), k) == flat(p + k)
  {
    JoinBytes(flat(p), flat(p + 1), flat(p + 2), flat(p + 3));
  }

  /** Rewriting one word with the bytes of `value` inserted up to, or from, byte `lane`. */
  function InsertedWord(flat: Flat, p: int, value: u32, lane: int, left: bool): Flat
    requires 0 <= lane < 4
  {
    var word := FlatRead(flat, p, 4);
    FlatWrite(flat, p, 4, if left then InsertLeft(word, value, lane) else InsertRight(word, value, lane))
  }

  lemma InsertedWordBytes(flat: Flat, p: int, value: u32, lane: int, left: bool, q: int)
    requires 0 <= lane < 4
    ensures InsertedWord(flat, p, value, lane, left)(q) ==
      if left && p <= q <= p + lane then ByteOf(value, q - p + 3 - lane)
      else if !left && p + lane <= q < p + 4 then ByteOf(value, q - p - lane)
      else flat(q)
  {
    hide FlatRead, ByteOf, InsertLeft, InsertRight;
    if p <= q < p + 4 {
      InsertedBytes(FlatRead(flat, p, 4), value, lane, q - p);
      FlatBytes(flat, p, q - p);
    }
  }

  /** SWL into the word of the last byte, then SWR into the word of the first, write exactly four bytes. */
  lemma InsertedPair(flat: Flat, p: int, lane: int, value: u32, q: int)
    requires 0 <= lane < 4
    ensures var high := InsertedWord(flat, if lane == 0 then p else p + 4, value, if lane == 0 then 3 else lane - 1, true);
      InsertedWord(high, p, value, lane, false)(q) == FlatWrite(flat, p + lane, 4, value)(q)
  {
    hide InsertedWord, ByteOf;
    var high := InsertedWord(flat, if lane == 0 then p else p + 4, value, if lane == 0 then 3 else lane - 1, true);
    InsertedWordBytes(flat, if lane == 0 then p else p + 4, value, if lane == 0 then 3 else lane - 1, true, q);
    InsertedWordBytes(high, p, value, lane, false, q);
  }

  // ----- The pair of instructions -----

  /** Neither this step nor, with the same lines, the next one takes an interrupt. */
  predicate NoInterruptDue(s: Cpu) {
    s.cop0.status % 2 == 0
    || And(And(SampledCause(s.cop0.cause, s.externalInterruptPending), s.cop0.status), 0xFF00) == 0
  }

  lemma SamplingTwice(cause: u32, lines: u8)
    ensures SampledCause(SampledCause(cause, lines), lines) == SampledCause(cause, lines)
  {
    var high, low, l := cause / 0x1_0000, cause % 0x400, lines / 4;
    var c := SampledCause(cause, lines);
    assert c == high * 0x1_0000 + l * 0x400 + low;
    RemainderIs(c, 0x1_0000, high, l * 0x400 + low);
    RemainderIs(c, 0x400, high * 0x40 + l, low);
  }

  /** The instruction at `pc`, when its word can be fetched. */
  function Fetched(m: Memory, pc: u32): Instruction {
    Decode(Read(m, pc, 4).value)
  }

  lemma StepExecutes(s: Cpu, m: Memory)
    requires PipelineOk(s) && NoInterruptDue(s)
    requires s.pc % 4 == 0 && BackedAddress(s.pc, 4).Some? && !IsControlTransfer(Fetched(m, s.pc).op)
    ensures Step(Ps1Bus(), s, m) == Execute(Ps1Bus(), Sampled(s), m, Fetched(m, s.pc))
    ensures Sampled(s) == s.(cop0 := s.cop0.(cause := SampledCause(s.cop0.cause, s.externalInterruptPending)))
  {
    hide Execute, DecodeOp, SampledCause, ReadLittleEndian;
  }

  /** `first` at pc and `second` right after it are a pair on the same registers, reaching the last and the
      first byte of the four bytes at `a`. */
  ghost predicate IsPair(s: Cpu, m: Memory, first: MipsOp, second: MipsOp, a: u32) {
    && s.pc % 4 == 0 && BackedAddress(s.pc, 4).Some?
    && s.nextPc % 4 == 0 && BackedAddress(s.nextPc, 4).Some?
    && var i, j := Fetched(m, s.pc), Fetched(m, s.nextPc);
      && i.op == first && j.op == second && i.rs == j.rs && i.rt == j.rt
      && EffectiveAddress(s.gpr[i.rs], i.immediate) == a + 3
      && EffectiveAddress(s.gpr[i.rs], j.immediate) == a
      && !(s.pendingLoad.valid && s.pendingLoad.reg == i.rs)
  }

  lemma LoadExecutes(s: Cpu, m: Memory, i: Instruction, op: LoadOp)
    requires PipelineOk(s) && i.op == Load(op) && (op == Lwl || op == Lwr) && i.rt != 0
    requires BackedAddress(EffectiveAddress(s.gpr[i.rs], i.immediate) / 4 * 4, 4).Some?
    ensures var a := EffectiveAddress(s.gpr[i.rs], i.immediate);
      var word := Read(m, a / 4 * 4, 4).value;
      var value := if op == Lwl then MergeLeft(MergeBase(s, i.rt), word, a % 4) else MergeRight(MergeBase(s, i.rt), word, a % 4);
      Execute(Ps1Bus(), s, m, i) == Outcome(Next(RetireLoad(s), 0, 0, DelayedLoad(true, i.rt, value)), m, Retired)
  {
    hide MergeLeft, MergeRight, ReadLittleEndian, RetireLoad, Next;
  }

  /** LWL at a+3 then LWR at a leave the little-endian word at `a` on its way to the register, whatever the
      alignment, and it is there one retired step later. */
  lemma UnalignedLoad(s: Cpu, m: Memory, flat: Flat, a: u32)
    requires PipelineOk(s) && NoInterruptDue(s) && Holds(m, flat) && WordsBacked(a)
    requires IsPair(s, m, Load(Lwl), Load(Lwr), a) && Fetched(m, s.pc).rt != 0
    ensures var reg := Fetched(m, s.pc).rt;
      var o1 := Step(Ps1Bus(), s, m);
      var o2 := Step(Ps1Bus(), o1.cpu, m);
      var o3 := Step(Ps1Bus(), o2.cpu, m);
      && o1.result == o2.result == Retired && o1.bus == o2.bus == m
      && o2.cpu.pendingLoad == DelayedLoad(true, reg, FlatRead(flat, PhysicalOf(a), 4))
      && (StopsBeforeRetiring(o3) || Arrived(o3, reg, FlatRead(flat, PhysicalOf(a), 4), DirectTarget(Fetched(m, o2.cpu.pc))))
  {
    hide Execute, Step, MergeLeft, MergeRight, DecodeOp, SampledCause, RetireLoad, FlatRead, Read;
    var bus, i, j := Ps1Bus(), Fetched(m, s.pc), Fetched(m, s.nextPc);
    StepExecutes(s, m);
    LoadExecutes(Sampled(s), m, i, Lwl);
    var o1 := Step(bus, s, m);
    AfterFirst(s, o1.cpu, o1.cpu.pendingLoad);
    StepExecutes(o1.cpu, m);
    LoadExecutes(Sampled(o1.cpu), m, j, Lwr);
    var o2 := Step(bus, o1.cpu, m);
    LoadedWord(m, flat, a, MergeBase(Sampled(s), i.rt));
    StepIsPrecise(bus, o1.cpu, m);
    LoadArrivesAfterOneInstruction(bus, o2.cpu, m);
  }

  /** What the first instruction of a pair leaves for the second. */
  lemma AfterFirst(s: Cpu, t: Cpu, load: DelayedLoad)
    requires PipelineOk(s) && NoInterruptDue(s) && (load.valid ==> load.reg != 0)
    requires t == Next(RetireLoad(Sampled(s)), 0, 0, load)
    ensures PipelineOk(t) && NoInterruptDue(t) && t.pc == s.nextPc && t.pendingLoad == load
    ensures forall k :: 0 <= k < 32 && !(s.pendingLoad.valid && s.pendingLoad.reg == k) ==> t.gpr[k] == s.gpr[k]
  {
    SamplingTwice(s.cop0.cause, s.externalInterruptPending);
    hide SampledCause;
    NextIsOk(RetireLoad(Sampled(s)), 0, 0, load);
  }

  function AfterInsert(m: Memory, a: u32, value: u32, left: bool): Memory {
    var word := Read(m, a / 4 * 4, 4).value;
    Write(m, a / 4 * 4, 4, if left then InsertLeft(word, value, a % 4) else InsertRight(word, value, a % 4)).bus
  }

  lemma StoreExecutes(s: Cpu, m: Memory, i: Instruction, op: StoreOp)
    requires PipelineOk(s) && i.op == Store(op) && (op == Swl || op == Swr)
    requires BackedAddress(EffectiveAddress(s.gpr[i.rs], i.immediate) / 4 * 4, 4).Some?
    ensures Execute(Ps1Bus(), s, m, i) ==
      Outcome(Next(RetireLoad(s), 0, 0, NO_LOAD), AfterInsert(m, EffectiveAddress(s.gpr[i.rs], i.immediate), s.gpr[i.rt], op == Swl), Retired)
  {
    hide InsertLeft, InsertRight, ReadLittleEndian, WriteLittleEndian, RetireLoad, Next;
  }

  lemma InsertIsFlat(m: Memory, flat: Flat, a: u32, value: u32, left: bool)
    requires Holds(m, flat) && BackedAddress(a / 4 * 4, 4).Some?
    ensures Holds(AfterInsert(m, a, value, left), InsertedWord(flat, BackedAddress(a / 4 * 4, 4).value, value, a % 4, left))
  {
    ReadIsFlat(m, flat, a / 4 * 4, 4);
    hide Read, Write, Holds, FlatRead, FlatWrite, InsertLeft, InsertRight, BackedAddress;
    var word := Read(m, a / 4 * 4, 4).value;
    WriteIsFlat(m, flat, a / 4 * 4, 4, if left then InsertLeft(word, value, a % 4) else InsertRight(word, value, a % 4));
  }

  lemma HoldsPointwise(m: Memory, flat: Flat, flat': Flat)
    requires Holds(m, flat) && forall q :: flat(q) == flat'(q)
    ensures Holds(m, flat')
  {
  }

  lemma InsertTwiceIsFlat(m: Memory, flat: Flat, a: u32, value: u32)
    requires Holds(m, flat) && WordsBacked(a)
    ensures Holds(AfterInsert(AfterInsert(m, a + 3, value, true), a, value, false), FlatWrite(flat, PhysicalOf(a), 4, value))
  {
    hide BackedAddress, AfterInsert, InsertedWord, FlatWrite, Holds;
    SecondWordPlace(a);
    var p, lane := BackedAddress(a / 4 * 4, 4).value, a % 4;
    InsertIsFlat(m, flat, a + 3, value, true);
    var high := InsertedWord(flat, if lane == 0 then p else p + 4, value, if lane == 0 then 3 else lane - 1, true);
    InsertIsFlat(AfterInsert(m, a + 3, value, true), high, a, value, false);
    forall q ensures InsertedWord(high, p, value, lane, false)(q) == FlatWrite(flat, p + lane, 4, value)(q) {
      InsertedPair(flat, p, lane, value, q);
    }
    HoldsPointwise(AfterInsert(AfterInsert(m, a + 3, value, true), a, value, false),
                   InsertedWord(high, p, value, lane, false), FlatWrite(flat, p + lane, 4, value));
  }

  /** SWL at a+3 then SWR at a change exactly the four bytes at `a`, to the little-endian register value,
      provided the first store does not overwrite the second instruction. */
  lemma UnalignedStore(s: Cpu, m: Memory, flat: Flat, a: u32)
    requires PipelineOk(s) && NoInterruptDue(s) && Holds(m, flat) && WordsBacked(a)
    requires IsPair(s, m, Store(Swl), Store(Swr), a)
    requires !(s.pendingLoad.valid && s.pendingLoad.reg == Fetched(m, s.pc).rt)
    requires Fetched(Step(Ps1Bus(), s, m).bus, s.nextPc) == Fetched(m, s.nextPc)
    ensures var o1 := Step(Ps1Bus(), s, m);
      var o2 := Step(Ps1Bus(), o1.cpu, o1.bus);
      && o1.result == o2.result == Retired
      && Holds(o2.bus, FlatWrite(flat, PhysicalOf(a), 4, s.gpr[Fetched(m, s.pc).rt]))
  {
    hide Execute, Step, InsertLeft, InsertRight, DecodeOp, SampledCause, RetireLoad, FlatWrite, Read, Holds, AfterInsert;
    var bus, i, j := Ps1Bus(), Fetched(m, s.pc), Fetched(m, s.nextPc);
    var value := s.gpr[i.rt];
    StepExecutes(s, m);
    StoreExecutes(Sampled(s), m, i, Swl);
    var o1 := Step(bus, s, m);
    AfterFirst(s, o1.cpu, NO_LOAD);
    StepExecutes(o1.cpu, o1.bus);
    StoreExecutes(Sampled(o1.cpu), o1.bus, j, Swr);
    InsertTwiceIsFlat(m, flat, a, value);
  }
}
