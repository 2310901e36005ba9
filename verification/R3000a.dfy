/** The architectural meaning of one R3000A step, as core/r3000a_reference_executor.cpp defines it, for
    any bus. `R3000aExecutor` holds the imperative executor and proves it computes exactly this. */
module R3000a {
  import opened Outcomes
  import opened Words
  import opened MipsDecoder

  // ----- The bus the executor is written against -----

  datatype BusStatus = Ok | BusError | Unsupported

  datatype Reply<+B> = Reply(status: BusStatus, value: u32, bus: B)

  /** The virtual interface R3000aBus over some state `B`; an access may change that state. */
  datatype Bus<!B> = Bus(read8: (B, u32) -> Reply<B>, read16: (B, u32) -> Reply<B>, read32: (B, u32) -> Reply<B>,
                         write8: (B, u32, u8) -> Reply<B>, write16: (B, u32, u16) -> Reply<B>, write32: (B, u32, u32) -> Reply<B>)

  // ----- Processor state -----

  type Gprs = s: seq<u32> | |s| == 32 witness seq(32, _ => 0)

  datatype DelayedLoad = DelayedLoad(valid: bool, reg: Reg, value: u32)

  datatype DelaySlot = DelaySlot(active: bool, branchPc: u32, taken: bool, target: u32)

  datatype Cop0Registers = Cop0Registers(targetAddress: u32, badVaddr: u32, status: u32, cause: u32, epc: u32)

  datatype Cpu = Cpu(gpr: Gprs, hi: u32, lo: u32, pc: u32, nextPc: u32, pendingLoad: DelayedLoad, delaySlot: DelaySlot,
                     cop0: Cop0Registers, externalInterruptPending: u8)

  const NO_LOAD := DelayedLoad(false, 0, 0)
  const NO_SLOT := DelaySlot(false, 0, false, 0)

  datatype ExceptionCode =
    | Interrupt | AddressLoad | AddressStore | InstructionBusError | DataBusError
    | SyscallTrap | Breakpoint | ReservedInstruction | CoprocessorUnusable | Overflow

  function CodeNumber(code: ExceptionCode): (n: nat)
    ensures n < 32
  {
    match code
    case Interrupt => 0
    case AddressLoad => 4
    case AddressStore => 5
    case InstructionBusError => 6
    case DataBusError => 7
    case SyscallTrap => 8
    case Breakpoint => 9
    case ReservedInstruction => 10
    case CoprocessorUnusable => 11
    case Overflow => 12
  }

  datatype BoundaryCode =
    | UnsupportedAddressSpace
    | ArchitecturalOperationUnimplemented
    | Cop2Unimplemented
    | UnpredictableDelaySlotControlTransfer

  datatype StepResult =
    | Retired
    | Exception(code: ExceptionCode, pc: u32)
    | Boundary(boundary: BoundaryCode, pc: u32)

  datatype Outcome<+B> = Outcome(cpu: Cpu, bus: B, result: StepResult)

  // ----- Arithmetic units -----

  function ArithmeticShiftRight(value: u32, amount: u32): u32 {
    var n := amount % 32;
    if n == 0 then value
    else if value < TWO31 then Shr(value, n)
    else Or(Shr(value, n), Shl(0xFFFF_FFFF, 32 - n))
  }

  predicate AddOverflows(lhs: u32, rhs: u32, result: u32) {
    And(And(Not(Xor(lhs, rhs)), Xor(lhs, result)), 0x8000_0000) != 0
  }

  predicate SubOverflows(lhs: u32, rhs: u32, result: u32) {
    And(And(Xor(lhs, rhs), Xor(lhs, result)), 0x8000_0000) != 0
  }

  function Flag(b: bool): u32 {
    if b then 1 else 0
  }

  /** The value a register-register operation queues for `rd`, or nothing when it traps. */
  function AluResult(op: AluOp, rs: u32, rt: u32, sa: Reg): Option<u32> {
    match op
    case Sll => Some(Shl(rt, sa))
    case Srl => Some(Shr(rt, sa))
    case Sra => Some(ArithmeticShiftRight(rt, sa))
    case Sllv => Some(Shl(rt, rs % 32))
    case Srlv => Some(Shr(rt, rs % 32))
    case Srav => Some(ArithmeticShiftRight(rt, rs))
    case Add => if AddOverflows(rs, rt, Wrap(rs + rt)) then None else Some(Wrap(rs + rt))
    case Addu => Some(Wrap(rs + rt))
    case Sub => if SubOverflows(rs, rt, Wrap(rs - rt)) then None else Some(Wrap(rs - rt))
    case Subu => Some(Wrap(rs - rt))
    case BitwiseAnd => Some(And(rs, rt))
    case BitwiseOr => Some(Or(rs, rt))
    case BitwiseXor => Some(Xor(rs, rt))
    case BitwiseNor => Some(Not(Or(rs, rt)))
    case Slt => Some(Flag(Signed(rs) < Signed(rt)))
    case Sltu => Some(Flag(rs < rt))
  }

  function ImmediateResult(op: ImmediateOp, rs: u32, immediate: u16): Option<u32> {
    var extended := SignExtend16(immediate);
    match op
    case Addi => if AddOverflows(rs, extended, Wrap(rs + extended)) then None else Some(Wrap(rs + extended))
    case Addiu => Some(Wrap(rs + extended))
    case Andi => Some(And(rs, immediate))
    case Ori => Some(Or(rs, immediate))
    case Xori => Some(Xor(rs, immediate))
    case Lui => Some(immediate * 0x1_0000)
    case Slti => Some(Flag(Signed(rs) < Signed(extended)))
    case Sltiu => Some(Flag(rs < extended))
  }

  /** 64-bit two's complement of a product, split into HI and LO. */
  function Split64(product: int): (u32, u32) {
    var bits := product % (TWO32 * TWO32);
    (bits / TWO32, bits % TWO32)
  }

  /** C++ division: the quotient is truncated toward zero. */
  function TruncatedQuotient(a: int, b: int): int
    requires b != 0
  {
    var q := (if a < 0 then -a else a) / (if b < 0 then -b else b);
    if (a < 0) == (b < 0) then q else -q
  }

  /** HI and LO after MULT, MULTU, DIV, DIVU, MTHI and MTLO. */
  function HiLoAfter(op: HiLoOp, rs: u32, rt: u32, hi: u32, lo: u32): (u32, u32) {
    match op
    case Mfhi => (hi, lo)
    case Mflo => (hi, lo)
    case Mthi => (rs, lo)
    case Mtlo => (hi, rs)
    case Mult => Split64(Signed(rs) * Signed(rt))
    case Multu => Split64(rs * rt)
    case Div =>
      if rt == 0 then (rs, if Signed(rs) < 0 then 1 else 0xFFFF_FFFF)
      else if rs == 0x8000_0000 && rt == 0xFFFF_FFFF then (0, 0x8000_0000)
      else
        var q := TruncatedQuotient(Signed(rs), Signed(rt));
        (Wrap(Signed(rs) - q * Signed(rt)), Wrap(q))
    case Divu =>
      if rt == 0 then (rs, 0xFFFF_FFFF) else DivModBound(rs, rt); (rs % rt, rs / rt)
  }

  lemma DivModBound(a: u32, b: u32)
    requires b != 0
    ensures 0 <= a / b < TWO32 && 0 <= a % b < TWO32
  {
    DivideShrinks(a, b);
  }

  predicate BranchTaken(op: BranchOp, rs: u32, rt: u32) {
    match op
    case Beq => rs == rt
    case Bne => rs != rt
    case Blez => Signed(rs) <= 0
    case Bgtz => Signed(rs) > 0
    case Bltz => Signed(rs) < 0
    case Bgez => Signed(rs) >= 0
    case Bltzal => Signed(rs) < 0
    case Bgezal => Signed(rs) >= 0
  }

  predicate BranchLinks(op: BranchOp) {
    op == Bltzal || op == Bgezal
  }

  function BranchTarget(pc: u32, immediate: u16): u32 {
    Wrap(pc + 4 + SignExtend16(immediate) * 4)
  }

  /** Word-relative target of J and JAL: the top four bits come from the delay slot's address. */
  function JumpTarget(pc: u32, target: nat): u32 {
    Wrap(Wrap(pc + 4) / 0x1000_0000 * 0x1000_0000 + target * 4 % 0x1000_0000)
  }

  /** LWL: the bytes of `word` up to byte `lane` become the high bytes of `base`. */
  function MergeLeft(base: u32, word: u32, lane: int): u32
    requires 0 <= lane < 4
  {
    match lane
    case 0 => base % 0x100_0000 + word % 0x100 * 0x100_0000
    case 1 => base % 0x1_0000 + word % 0x1_0000 * 0x1_0000
    case 2 => base % 0x100 + word % 0x100_0000 * 0x100
    case _ => word
  }

  /** LWR: the bytes of `word` from byte `lane` on become the low bytes of `base`. */
  function MergeRight(base: u32, word: u32, lane: int): u32
    requires 0 <= lane < 4
  {
    match lane
    case 0 => word
    case 1 => base / 0x100_0000 * 0x100_0000 + word / 0x100
    case 2 => base / 0x1_0000 * 0x1_0000 + word / 0x1_0000
    case _ => base / 0x100 * 0x100 + word / 0x100_0000
  }

  /** SWL: the high bytes of `value` replace the bytes of `word` up to byte `lane`. */
  function InsertLeft(word: u32, value: u32, lane: int): u32
    requires 0 <= lane < 4
  {
    match lane
    case 0 => word / 0x100 * 0x100 + value / 0x100_0000
    case 1 => word / 0x1_0000 * 0x1_0000 + value / 0x1_0000
    case 2 => word / 0x100_0000 * 0x100_0000 + value / 0x100
    case _ => value
  }

  /** SWR: the low bytes of `value` replace the bytes of `word` from byte `lane` on. */
  function InsertRight(word: u32, value: u32, lane: int): u32
    requires 0 <= lane < 4
  {
    match lane
    case 0 => value
    case 1 => word % 0x100 + value % 0x100_0000 * 0x100
    case 2 => word % 0x1_0000 + value % 0x1_0000 * 0x1_0000
    case _ => word % 0x100_0000 + value % 0x100 * 0x100_0000
  }

  // ----- State changes -----

  function WithGpr(gpr: Gprs, reg: Reg, value: u32): Gprs {
    if reg == 0 then gpr else gpr[reg := value]
  }

  /** The load in flight reaches its register. */
  function RetireLoad(s: Cpu): Cpu {
    if s.pendingLoad.valid then s.(gpr := WithGpr(s.gpr, s.pendingLoad.reg, s.pendingLoad.value), pendingLoad := NO_LOAD) else s
  }

  function NewLoad(reg: Reg, value: u32): DelayedLoad {
    if reg == 0 then NO_LOAD else DelayedLoad(true, reg, value)
  }

  /** r0 is forced to zero and the external interrupt lines are sampled into Cause bits 10-15. */
  function Sampled(s: Cpu): Cpu {
    s.(gpr := s.gpr[0 := 0],
       cop0 := s.cop0.(cause := SampledCause(s.cop0.cause, s.externalInterruptPending)))
  }

  function SampledCause(cause: u32, lines: u8): u32 {
    var upper := cause / 0x1_0000;
    assert upper < 0x1_0000;
    upper * 0x1_0000 + lines / 4 * 0x400 + cause % 0x400
  }

  predicate InterruptAccepted(s: Cpu) {
    && !s.delaySlot.active
    && s.cop0.status % 2 == 1
    && And(And(s.cop0.cause, s.cop0.status), 0xFF00) != 0
  }

  /** Cause without ExcCode (bits 2-6) and without BD, BT and CE (bits 28-31). */
  function ClearedCause(cause: u32): u32 {
    cause % 0x1000_0000 / 0x80 * 0x80 + cause % 4
  }

  function ExceptionCause(cause: u32, code: ExceptionCode, slot: DelaySlot, coprocessor: int): u32
    requires 0 <= coprocessor < 4
  {
    ClearedCause(cause) + CodeNumber(code) * 4 + coprocessor * 0x1000_0000
    + (if slot.active && slot.taken then 0x4000_0000 else 0)
    + if slot.active then 0x8000_0000 else 0
  }

  /** The kernel/user and interrupt-enable stack in Status bits 0-5 is pushed by two. */
  function PushedStatus(status: u32): u32 {
    status / 0x40 * 0x40 + status % 0x10 * 4
  }

  /** RFE pops it, leaving the oldest pair in place. */
  function PoppedStatus(status: u32): u32 {
    status / 0x10 * 0x10 + status / 4 % 0x10
  }

  function ExceptionVector(status: u32): u32 {
    if status / 0x40_0000 % 2 == 1 then 0xBFC0_0180 else 0x8000_0080
  }

  /** Exception entry: `slot` is the delay slot the faulting instruction stands in, if any. */
  function Raise(s: Cpu, code: ExceptionCode, faultPc: u32, slot: DelaySlot, badVaddr: Option<u32>, coprocessor: int): Cpu
    requires 0 <= coprocessor < 4
  {
    var vector := ExceptionVector(s.cop0.status);
    s.(gpr := s.gpr[0 := 0], pc := vector, nextPc := vector + 4, delaySlot := NO_SLOT,
       cop0 := Cop0Registers(
         if slot.active && slot.taken then slot.target else s.cop0.targetAddress,
         if (code == AddressLoad || code == AddressStore) && badVaddr.Some? then badVaddr.value else s.cop0.badVaddr,
         PushedStatus(s.cop0.status),
         ExceptionCause(s.cop0.cause, code, slot, coprocessor),
         if slot.active then slot.branchPc else faultPc))
  }

  /** The instruction retires in sequence: direct write over the retired load, new load in flight. */
  function Next(s: Cpu, reg: Reg, value: u32, load: DelayedLoad): Cpu {
    s.(gpr := WithGpr(s.gpr, reg, value)[0 := 0], pendingLoad := load,
       pc := s.nextPc, nextPc := Wrap(s.nextPc + 4),
       delaySlot := if s.delaySlot.active then NO_SLOT else s.delaySlot)
  }

  /** A jump or branch retires: what follows is its delay slot, taken or not. */
  function Transfer(s: Cpu, reg: Reg, value: u32, taken: bool, target: u32): Cpu {
    s.(gpr := WithGpr(s.gpr, reg, value)[0 := 0], pendingLoad := NO_LOAD,
       pc := Wrap(s.pc + 4), nextPc := if taken then target else Wrap(s.pc + 8),
       delaySlot := DelaySlot(true, s.pc, taken, target))
  }

  // ----- Memory access -----

  datatype Access<+B> =
    | Done(value: u32, bus: B)
    | Misaligned
    | Refused(status: BusStatus, bus: B)

  function Settle<B>(r: Reply<B>, value: u32): Access<B> {
    if r.status == Ok then Done(value, r.bus) else Refused(r.status, r.bus)
  }

  function LoadAccess<B>(bus: Bus<B>, b: B, op: LoadOp, address: u32, base: u32): Access<B> {
    match op
    case Lb => var r := bus.read8(b, address); Settle(r, SignExtend8(r.value % 0x100))
    case Lbu => var r := bus.read8(b, address); Settle(r, r.value % 0x100)
    case Lh => if address % 2 != 0 then Misaligned else var r := bus.read16(b, address); Settle(r, SignExtend16(r.value % 0x1_0000))
    case Lhu => if address % 2 != 0 then Misaligned else var r := bus.read16(b, address); Settle(r, r.value % 0x1_0000)
    case Lw => if address % 4 != 0 then Misaligned else var r := bus.read32(b, address); Settle(r, r.value)
    case Lwl => var r := bus.read32(b, address / 4 * 4); Settle(r, MergeLeft(base, r.value, address % 4))
    case Lwr => var r := bus.read32(b, address / 4 * 4); Settle(r, MergeRight(base, r.value, address % 4))
  }

  function StoreAccess<B>(bus: Bus<B>, b: B, op: StoreOp, address: u32, value: u32): Access<B> {
    match op
    case Sb => Settle(bus.write8(b, address, value % 0x100), 0)
    case Sh => if address % 2 != 0 then Misaligned else Settle(bus.write16(b, address, value % 0x1_0000), 0)
    case Sw => if address % 4 != 0 then Misaligned else Settle(bus.write32(b, address, value), 0)
    case Swl =>
      var r := bus.read32(b, address / 4 * 4);
      if r.status != Ok then Refused(r.status, r.bus)
      else Settle(bus.write32(r.bus, address / 4 * 4, InsertLeft(r.value, value, address % 4)), 0)
    case Swr =>
      var r := bus.read32(b, address / 4 * 4);
      if r.status != Ok then Refused(r.status, r.bus)
      else Settle(bus.write32(r.bus, address / 4 * 4, InsertRight(r.value, value, address % 4)), 0)
  }

  function EffectiveAddress(rs: u32, immediate: u16): u32 {
    Wrap(rs + SignExtend16(immediate))
  }

  // ----- One step -----

  function Fault<B>(s: Cpu, b: B, code: ExceptionCode, badVaddr: Option<u32>): Outcome<B> {
    Outcome(Raise(s, code, s.pc, s.delaySlot, badVaddr, 0), b, Exception(code, s.pc))
  }

  function Stop<B>(s: Cpu, b: B, code: BoundaryCode): Outcome<B> {
    Outcome(s.(gpr := s.gpr[0 := 0]), b, Boundary(code, s.pc))
  }

  function Retire<B>(s: Cpu, b: B): Outcome<B> {
    Outcome(s, b, Retired)
  }

  /** What a finished, misaligned or refused data access makes of the instruction. */
  function Complete<B>(s: Cpu, b: B, access: Access<B>, misaligned: ExceptionCode, address: u32, reg: Reg): Outcome<B> {
    match access
    case Done(value, b') => Retire(Next(s, 0, 0, NewLoad(reg, value)), b')
    case Misaligned => Fault(s, b, misaligned, Some(address))
    case Refused(Unsupported, b') => Stop(s, b', UnsupportedAddressSpace)
    case Refused(_, b') => Fault(s, b', DataBusError, None)
  }

  predicate Cop0RegisterIsReserved(rd: Reg) {
    rd == 0 || rd == 1 || rd == 2 || rd == 4 || rd == 10
  }

  function Cop0Value(c: Cop0Registers, rd: Reg): Option<u32> {
    match rd
    case 6 => Some(c.targetAddress)
    case 8 => Some(c.badVaddr)
    case 12 => Some(c.status)
    case 13 => Some(c.cause)
    case 14 => Some(c.epc)
    case _ => None
  }

  const STATUS_WRITABLE: u32 := 0xF27F_FF3F

  function StatusWritten(status: u32, value: u32): u32 {
    Or(And(status, Not(STATUS_WRITABLE)), And(value, STATUS_WRITABLE))
  }

  /** Only the software interrupt bits 8 and 9 of Cause are writable. */
  function CauseWritten(cause: u32, value: u32): u32 {
    cause / 0x400 * 0x400 + value / 0x100 % 4 * 0x100 + cause % 0x100
  }

  function Cop0Step<B>(op: Cop0Op, s: Cpu, b: B, i: Instruction, rt: u32): Outcome<B> {
    match op
    case Mfc0 =>
      (match Cop0Value(s.cop0, i.rd)
       case Some(value) => Retire(Next(s, 0, 0, NewLoad(i.rt, value)), b)
       case None => Cop0Missing(s, b, i.rd))
    case Mtc0 =>
      if i.rd == 12 then
        Retire(Next(s.(cop0 := s.cop0.(status := StatusWritten(s.cop0.status, rt))), 0, 0, NO_LOAD), b)
      else if i.rd == 13 then
        Retire(Next(s.(cop0 := s.cop0.(cause := CauseWritten(s.cop0.cause, rt))), 0, 0, NO_LOAD), b)
      else if i.rd == 6 || i.rd == 8 || i.rd == 14 then Stop(s, b, ArchitecturalOperationUnimplemented)
      else Cop0Missing(s, b, i.rd)
    case Rfe => Retire(Next(s.(cop0 := s.cop0.(status := PoppedStatus(s.cop0.status))), 0, 0, NO_LOAD), b)
  }

  function Cop0Missing<B>(s: Cpu, b: B, rd: Reg): Outcome<B> {
    if Cop0RegisterIsReserved(rd) then Fault(s, b, ReservedInstruction, None)
    else Stop(s, b, ArchitecturalOperationUnimplemented)
  }

  function JumpStep<B>(op: JumpOp, s: Cpu, b: B, i: Instruction, rs: u32): Outcome<B> {
    match op
    case J => Retire(Transfer(s, 0, 0, true, JumpTarget(s.pc, i.target)), b)
    case Jal => Retire(Transfer(s, 31, Wrap(s.pc + 8), true, JumpTarget(s.pc, i.target)), b)
    case Jr => Retire(Transfer(s, 0, 0, true, rs), b)
    case Jalr => Retire(Transfer(s, i.rd, Wrap(s.pc + 8), true, rs), b)
  }

  function HiLoStep<B>(op: HiLoOp, s: Cpu, b: B, i: Instruction, rs: u32, rt: u32): Outcome<B> {
    match op
    case Mfhi => Retire(Next(s, i.rd, s.hi, NO_LOAD), b)
    case Mflo => Retire(Next(s, i.rd, s.lo, NO_LOAD), b)
    case _ =>
      var (hi, lo) := HiLoAfter(op, rs, rt, s.hi, s.lo);
      Retire(Next(s.(hi := hi, lo := lo), 0, 0, NO_LOAD), b)
  }

  function Computed<B>(s: Cpu, b: B, reg: Reg, value: Option<u32>): Outcome<B> {
    match value
    case Some(v) => Retire(Next(s, reg, v, NO_LOAD), b)
    case None => Fault(s, b, Overflow, None)
  }

  /** The value LWL and LWR merge into: the load in flight to the same register is forwarded. */
  function MergeBase(s: Cpu, reg: Reg): u32 {
    if s.pendingLoad.valid && s.pendingLoad.reg == reg then s.pendingLoad.value else s.gpr[reg]
  }

  /** Operands are read before the load in flight is retired. */
  function Execute<B>(bus: Bus<B>, s: Cpu, b: B, i: Instruction): Outcome<B> {
    var rs, rt, r := s.gpr[i.rs], s.gpr[i.rt], RetireLoad(s);
    match i.op
    case Reserved => Fault(r, b, ReservedInstruction, None)
    case Syscall => Fault(r, b, SyscallTrap, None)
    case Break => Fault(r, b, Breakpoint, None)
    case Alu(op) => Computed(r, b, i.rd, AluResult(op, rs, rt, i.sa))
    case Immediate(op) => Computed(r, b, i.rt, ImmediateResult(op, rs, i.immediate))
    case HiLo(op) => HiLoStep(op, r, b, i, rs, rt)
    case Jump(op) => JumpStep(op, r, b, i, rs)
    case Branch(op) =>
      Retire(Transfer(r, if BranchLinks(op) then 31 else 0, Wrap(r.pc + 8), BranchTaken(op, rs, rt), BranchTarget(r.pc, i.immediate)), b)
    case Load(op) =>
      var address := EffectiveAddress(rs, i.immediate);
      Complete(r, b, LoadAccess(bus, b, op, address, MergeBase(s, i.rt)), AddressLoad, address, i.rt)
    case Store(op) =>
      var address := EffectiveAddress(rs, i.immediate);
      Complete(r, b, StoreAccess(bus, b, op, address, rt), AddressStore, address, 0)
    case Cop0(op) => Cop0Step(op, r, b, i, rt)
    case Cop2(_) =>
      if r.cop0.status / 0x4000_0000 % 2 == 0
      then Outcome(Raise(r, CoprocessorUnusable, r.pc, r.delaySlot, None, 2), b, Exception(CoprocessorUnusable, r.pc))
      else Stop(r, b, Cop2Unimplemented)
  }

  function Step<B>(bus: Bus<B>, start: Cpu, b: B): Outcome<B> {
    var s := Sampled(start);
    if InterruptAccepted(s) then Fault(RetireLoad(s), b, Interrupt, None)
    else if s.pc % 4 != 0 then Fault(RetireLoad(s), b, AddressLoad, Some(s.pc))
    else
      var fetched := bus.read32(b, s.pc);
      match fetched.status
      case Unsupported => Stop(RetireLoad(s), fetched.bus, UnsupportedAddressSpace)
      case BusError => Fault(RetireLoad(s), fetched.bus, InstructionBusError, None)
      case Ok =>
        var i := Decode(fetched.value);
        if s.delaySlot.active && IsControlTransfer(i.op)
        then Stop(s, fetched.bus, UnpredictableDelaySlotControlTransfer)
        else Execute(bus, s, fetched.bus, i)
  }

  /** initialize_r3000a_for_psx_exe: everything zero but the entry point, gp and, when given, sp. */
  function Initial(entryPc: u32, initialGp: u32, stackBase: u32, stackSize: u32): Cpu {
    var zero: Gprs := seq(32, _ => 0);
    var gpr := zero[28 := initialGp];
    Cpu(if stackBase != 0 || stackSize != 0 then gpr[29 := Wrap(stackBase + stackSize)] else gpr,
        0, 0, entryPc, Wrap(entryPc + 4), NO_LOAD, NO_SLOT, Cop0Registers(0, 0, 0, 0, 0), 0)
  }
}
