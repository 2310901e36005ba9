/** What every run of the executor keeps, on any bus and from any program: the pipeline registers stay
    consistent, exceptions are precise, and the load delay is exactly one instruction. */
module R3000aPipeline {
  import opened Outcomes
  import opened Words
  import opened MipsDecoder
  import opened R3000a

  /** r0 is zero; outside a delay slot execution is sequential; inside one, `pc` follows the branch and
      `nextPc` is where the branch goes. */
  ghost predicate PipelineOk(s: Cpu) {
    && s.gpr[0] == 0
    && (s.pendingLoad.valid ==> s.pendingLoad.reg != 0)
    && if s.delaySlot.active
       then s.pc == Wrap(s.delaySlot.branchPc + 4)
            && s.nextPc == (if s.delaySlot.taken then s.delaySlot.target else Wrap(s.delaySlot.branchPc + 8))
       else s.nextPc == Wrap(s.pc + 4)
  }

  lemma InitialIsOk(entryPc: u32, initialGp: u32, stackBase: u32, stackSize: u32)
    ensures PipelineOk(Initial(entryPc, initialGp, stackBase, stackSize))
  {
  }

  /** Exception entry from state `s`, seen from outside. */
  ghost predicate IsRaiseFrom(s: Cpu, code: ExceptionCode, t: Cpu) {
    && t.gpr == s.gpr && t.hi == s.hi && t.lo == s.lo && t.pendingLoad == s.pendingLoad
    && t.externalInterruptPending == s.externalInterruptPending
    && t.pc == ExceptionVector(s.cop0.status) && t.nextPc == t.pc + 4 && t.delaySlot == NO_SLOT
    && t.cop0.status == PushedStatus(s.cop0.status)
    && t.cop0.epc == (if s.delaySlot.active then s.delaySlot.branchPc else s.pc)
    && (t.cop0.cause >= 0x8000_0000 <==> s.delaySlot.active)
    && t.cop0.cause / 4 % 0x20 == CodeNumber(code)
    && t.cop0.cause / 0x100 % 0x100 == s.cop0.cause / 0x100 % 0x100
    && t.cop0.targetAddress == (if s.delaySlot.active && s.delaySlot.taken then s.delaySlot.target else s.cop0.targetAddress)
  }

  lemma PackedFields(top: nat, ip: nat, flag: nat, n: nat, low: nat)
    requires top < 0x10 && ip < 0x10_0000 && flag < 2 && n < 0x20 && low < 4
    ensures var c := top * 0x1000_0000 + (ip * 2 + flag) * 0x80 + n * 4 + low;
      && (c >= 0x8000_0000 <==> top >= 8)
      && c / 4 % 0x20 == n
      && c / 0x100 % 0x100 == ip % 0x100
  {
    var c := top * 0x1000_0000 + (ip * 2 + flag) * 0x80 + n * 4 + low;
    var d := top * 0x400_0000 + (ip * 2 + flag) * 0x20 + n;
    RemainderIs(c, 4, d, low);
    RemainderIs(d, 0x20, top * 0x20_0000 + ip * 2 + flag, n);
    RemainderIs(c, 0x100, top * 0x10_0000 + ip, flag * 0x80 + n * 4 + low);
    RemainderIs(top * 0x10_0000 + ip, 0x100, top * 0x1000 + ip / 0x100, ip % 0x100);
  }

  lemma PendingField(cause: u32)
    ensures cause % 0x1000_0000 / 0x80 / 2 % 0x100 == cause / 0x100 % 0x100
    ensures cause % 0x1000_0000 / 0x80 / 2 < 0x10_0000
  {
    var t, rest := cause / 0x1000_0000, cause % 0x1000_0000;
    var u, v := rest / 0x100, rest % 0x100;
    RemainderIs(rest, 0x80, u * 2 + v / 0x80, v % 0x80);
    RemainderIs(cause, 0x100, t * 0x10_0000 + u, v);
    RemainderIs(t * 0x10_0000 + u, 0x100, t * 0x1000 + u / 0x100, u % 0x100);
  }

  lemma CauseFields(cause: u32, code: ExceptionCode, slot: DelaySlot, coprocessor: int)
    requires 0 <= coprocessor < 4
    ensures var c := ExceptionCause(cause, code, slot, coprocessor);
      && (c >= 0x8000_0000 <==> slot.active)
      && c / 4 % 0x20 == CodeNumber(code)
      && c / 0x100 % 0x100 == cause / 0x100 % 0x100
  {
    var middle, low, n := cause % 0x1000_0000 / 0x80, cause % 4, CodeNumber(code);
    var top := coprocessor + (if slot.active && slot.taken then 4 else 0) + if slot.active then 8 else 0;
    PendingField(cause);
    PackedFields(top, middle / 2, middle % 2, n, low);
    assert ExceptionCause(cause, code, slot, coprocessor) == top * 0x1000_0000 + (middle / 2 * 2 + middle % 2) * 0x80 + n * 4 + low;
  }

  lemma RaiseIsPrecise(s: Cpu, code: ExceptionCode, badVaddr: Option<u32>, coprocessor: int)
    requires s.gpr[0] == 0 && 0 <= coprocessor < 4
    ensures IsRaiseFrom(s, code, Raise(s, code, s.pc, s.delaySlot, badVaddr, coprocessor))
  {
    hide ExceptionCause;
    CauseFields(s.cop0.cause, code, s.delaySlot, coprocessor);
  }

  lemma NextIsOk(s: Cpu, reg: Reg, value: u32, load: DelayedLoad)
    requires PipelineOk(s) && (load.valid ==> load.reg != 0)
    ensures PipelineOk(Next(s, reg, value, load))
  {
  }

  lemma RetireLoadIsOk(s: Cpu)
    requires PipelineOk(s)
    ensures PipelineOk(RetireLoad(s)) && !RetireLoad(s).pendingLoad.valid
    ensures RetireLoad(s).pc == s.pc && RetireLoad(s).delaySlot == s.delaySlot && RetireLoad(s).cop0 == s.cop0
  {
  }

  /** How an instruction working on state `s` (its load in flight already retired) may end: in a consistent
      state; with a precise exception at its own address; or stopped, with nothing changed. */
  ghost predicate EndsWell<B>(s: Cpu, o: Outcome<B>) {
    && PipelineOk(o.cpu)
    && match o.result
       case Retired => o.cpu.pc == s.nextPc && (s.delaySlot.active ==> !o.cpu.delaySlot.active)
       case Exception(code, pc) => pc == s.pc && IsRaiseFrom(s, code, o.cpu)
       case Boundary(_, pc) => pc == s.pc && o.cpu == s
  }

  lemma FaultEndsWell<B>(s: Cpu, b: B, code: ExceptionCode, badVaddr: Option<u32>)
    requires PipelineOk(s)
    ensures EndsWell(s, Fault(s, b, code, badVaddr))
  {
    RaiseIsPrecise(s, code, badVaddr, 0);
  }

  lemma StopEndsWell<B>(s: Cpu, b: B, code: BoundaryCode)
    requires PipelineOk(s)
    ensures EndsWell(s, Stop(s, b, code))
  {
  }

  /** Retiring in sequence, after whatever the instruction did to HI, LO, Status or Cause. */
  lemma NextEndsWell<B>(s: Cpu, changed: Cpu, b: B, reg: Reg, value: u32, load: DelayedLoad)
    requires PipelineOk(s) && (load.valid ==> load.reg != 0)
    requires changed.gpr == s.gpr && changed.pc == s.pc && changed.nextPc == s.nextPc && changed.delaySlot == s.delaySlot
    ensures EndsWell(s, Retire(Next(changed, reg, value, load), b))
  {
  }

  lemma TransferEndsWell<B>(s: Cpu, b: B, reg: Reg, value: u32, taken: bool, target: u32)
    requires PipelineOk(s) && !s.delaySlot.active
    ensures EndsWell(s, Retire(Transfer(s, reg, value, taken, target), b))
  {
  }

  lemma CompleteEndsWell<B>(s: Cpu, b: B, access: Access<B>, misaligned: ExceptionCode, address: u32, reg: Reg)
    requires PipelineOk(s)
    ensures EndsWell(s, Complete(s, b, access, misaligned, address, reg))
  {
    hide EndsWell, Raise, Next;
    match access {
      case Done(value, b') => NextEndsWell(s, s, b', 0, 0, NewLoad(reg, value));
      case Misaligned => FaultEndsWell(s, b, misaligned, Some(address));
      case Refused(Unsupported, b') => StopEndsWell(s, b', UnsupportedAddressSpace);
      case Refused(_, b') => FaultEndsWell(s, b', DataBusError, None);
    }
  }

  lemma Cop0EndsWell<B>(op: Cop0Op, s: Cpu, b: B, i: Instruction, rt: u32)
    requires PipelineOk(s)
    ensures EndsWell(s, Cop0Step(op, s, b, i, rt))
  {
    hide EndsWell, Raise, Next, StatusWritten, CauseWritten, PoppedStatus;
    FaultEndsWell(s, b, ReservedInstruction, None);
    StopEndsWell(s, b, ArchitecturalOperationUnimplemented);
    match op {
      case Mfc0 =>
        if Cop0Value(s.cop0, i.rd).Some? {
          NextEndsWell(s, s, b, 0, 0, NewLoad(i.rt, Cop0Value(s.cop0, i.rd).value));
        }
      case Mtc0 =>
        NextEndsWell(s, s.(cop0 := s.cop0.(status := StatusWritten(s.cop0.status, rt))), b, 0, 0, NO_LOAD);
        NextEndsWell(s, s.(cop0 := s.cop0.(cause := CauseWritten(s.cop0.cause, rt))), b, 0, 0, NO_LOAD);
      case Rfe =>
        NextEndsWell(s, s.(cop0 := s.cop0.(status := PoppedStatus(s.cop0.status))), b, 0, 0, NO_LOAD);
    }
  }

  lemma ExecuteEndsWell<B>(bus: Bus<B>, s: Cpu, b: B, i: Instruction)
    requires PipelineOk(s) && (s.delaySlot.active ==> !IsControlTransfer(i.op))
    ensures EndsWell(RetireLoad(s), Execute(bus, s, b, i))
  {
    hide EndsWell, PipelineOk, Raise, Next, Transfer, RetireLoad, AluResult, ImmediateResult, HiLoAfter, LoadAccess, StoreAccess, Complete, Cop0Step;
    RetireLoadIsOk(s);
    var r, rs, rt := RetireLoad(s), s.gpr[i.rs], s.gpr[i.rt];
    match i.op {
      case Reserved => FaultEndsWell(r, b, ReservedInstruction, None);
      case Syscall => FaultEndsWell(r, b, SyscallTrap, None);
      case Break => FaultEndsWell(r, b, Breakpoint, None);
      case Alu(op) =>
        FaultEndsWell(r, b, Overflow, None);
        if AluResult(op, rs, rt, i.sa).Some? {
          NextEndsWell(r, r, b, i.rd, AluResult(op, rs, rt, i.sa).value, NO_LOAD);
        }
      case Immediate(op) =>
        FaultEndsWell(r, b, Overflow, None);
        if ImmediateResult(op, rs, i.immediate).Some? {
          NextEndsWell(r, r, b, i.rt, ImmediateResult(op, rs, i.immediate).value, NO_LOAD);
        }
      case HiLo(op) =>
        var (hi, lo) := HiLoAfter(op, rs, rt, r.hi, r.lo);
        NextEndsWell(r, r.(hi := hi, lo := lo), b, 0, 0, NO_LOAD);
        NextEndsWell(r, r, b, i.rd, r.hi, NO_LOAD);
        NextEndsWell(r, r, b, i.rd, r.lo, NO_LOAD);
      case Jump(op) =>
        TransferEndsWell(r, b, 0, 0, true, JumpTarget(r.pc, i.target));
        TransferEndsWell(r, b, 31, Wrap(r.pc + 8), true, JumpTarget(r.pc, i.target));
        TransferEndsWell(r, b, 0, 0, true, rs);
        TransferEndsWell(r, b, i.rd, Wrap(r.pc + 8), true, rs);
      case Branch(op) =>
        TransferEndsWell(r, b, if BranchLinks(op) then 31 else 0, Wrap(r.pc + 8), BranchTaken(op, rs, rt), BranchTarget(r.pc, i.immediate));
      case Load(op) =>
        var address := EffectiveAddress(rs, i.immediate);
        CompleteEndsWell(r, b, LoadAccess(bus, b, op, address, MergeBase(s, i.rt)), AddressLoad, address, i.rt);
      case Store(op) =>
        var address := EffectiveAddress(rs, i.immediate);
        CompleteEndsWell(r, b, StoreAccess(bus, b, op, address, rt), AddressStore, address, 0);
      case Cop0(op) => Cop0EndsWell(op, r, b, i, rt);
      case Cop2(_) =>
        CoprocessorFaultEndsWell(r, b);
        StopEndsWell(r, b, Cop2Unimplemented);
    }
  }

  lemma CoprocessorFaultEndsWell<B>(s: Cpu, b: B)
    requires PipelineOk(s)
    ensures EndsWell(s, Outcome(Raise(s, CoprocessorUnusable, s.pc, s.delaySlot, None, 2), b, Exception(CoprocessorUnusable, s.pc)))
  {
    RaiseIsPrecise(s, CoprocessorUnusable, None, 2);
  }

  ghost predicate StopsBeforeRetiring<B>(o: Outcome<B>) {
    o.result.Boundary? && o.result.boundary == UnpredictableDelaySlotControlTransfer
  }

  /** The pipeline stays consistent; EPC is the faulting address or, exactly when BD is set, the branch
      before it; an interrupt never splits a delay slot. The one boundary that keeps the load in flight
      is a control transfer inside a delay slot. */
  ghost predicate IsPreciseStep<B>(start: Cpu, o: Outcome<B>) {
    && PipelineOk(o.cpu)
    && (StopsBeforeRetiring(o) ==> start.delaySlot.active && o.cpu == Sampled(start))
    && (!StopsBeforeRetiring(o) ==> EndsWell(RetireLoad(Sampled(start)), o))
    && (o.result.Exception? ==> o.cpu.cop0.epc == if start.delaySlot.active then Wrap(start.pc - 4) else start.pc)
    && (o.result.Exception? ==> (o.cpu.cop0.cause >= 0x8000_0000 <==> start.delaySlot.active))
    && (o.result.Exception? && o.result.code == Interrupt ==> !start.delaySlot.active)
  }

  lemma StepIsPrecise<B>(bus: Bus<B>, start: Cpu, b: B)
    requires PipelineOk(start)
    ensures IsPreciseStep(start, Step(bus, start, b))
  {
    hide EndsWell, Execute, Raise, DecodeOp, SampledCause;
    var s := Sampled(start);
    assert PipelineOk(s);
    RetireLoadIsOk(s);
    var r := RetireLoad(s);
    FaultEndsWell(r, b, Interrupt, None);
    FaultEndsWell(r, b, AddressLoad, Some(s.pc));
    var fetched := bus.read32(b, s.pc);
    StopEndsWell(r, fetched.bus, UnsupportedAddressSpace);
    FaultEndsWell(r, fetched.bus, InstructionBusError, None);
    if fetched.status == Ok && (s.delaySlot.active ==> !IsControlTransfer(Decode(fetched.value).op)) {
      ExecuteEndsWell(bus, s, fetched.bus, Decode(fetched.value));
      ExecuteNeverInterrupts(bus, s, fetched.bus, Decode(fetched.value));
    }
    EndsWellMeans(r, Step(bus, start, b));
  }

  /** Stepping again and again, whatever each step reports; `lines` are the external interrupt lines the
      surroundings present to each step. */
  ghost function Run<B>(bus: Bus<B>, s: Cpu, b: B, lines: seq<u8>): (Cpu, B)
    decreases |lines|, 1
  {
    if lines == [] then (s, b)
    else
      var o := LastStep(bus, s, b, lines);
      (o.cpu, o.bus)
  }

  ghost function LastStep<B>(bus: Bus<B>, s: Cpu, b: B, lines: seq<u8>): Outcome<B>
    requires lines != []
    decreases |lines|, 0
  {
    var n := |lines| - 1;
    var (t, c) := Run(bus, s, b, lines[..n]);
    Step(bus, t.(externalInterruptPending := lines[n]), c)
  }

  /** From reset, every step of every run is precise, on any bus, program and interrupt pattern. */
  lemma {:induction false} EveryRunIsPrecise<B>(bus: Bus<B>, s: Cpu, b: B, lines: seq<u8>)
    requires PipelineOk(s)
    ensures PipelineOk(Run(bus, s, b, lines).0)
    ensures lines != [] ==>
      IsPreciseStep(Run(bus, s, b, lines[..|lines| - 1]).0.(externalInterruptPending := lines[|lines| - 1]), LastStep(bus, s, b, lines))
    decreases |lines|
  {
    if lines != [] {
      hide IsPreciseStep, Step, PipelineOk;
      var n := |lines| - 1;
      EveryRunIsPrecise(bus, s, b, lines[..n]);
      var (t, c) := Run(bus, s, b, lines[..n]);
      InterruptLinesAreFree(t, lines[n]);
      StepIsPrecise(bus, t.(externalInterruptPending := lines[n]), c);
      PreciseMeansOk(t.(externalInterruptPending := lines[n]), LastStep(bus, s, b, lines));
    }
  }

  lemma PreciseMeansOk<B>(start: Cpu, o: Outcome<B>)
    requires IsPreciseStep(start, o)
    ensures PipelineOk(o.cpu)
  {
  }

  lemma InterruptLinesAreFree(s: Cpu, lines: u8)
    requires PipelineOk(s)
    ensures PipelineOk(s.(externalInterruptPending := lines))
  {
  }

  lemma ExecuteNeverInterrupts<B>(bus: Bus<B>, s: Cpu, b: B, i: Instruction)
    ensures var o := Execute(bus, s, b, i);
      && (o.result.Exception? ==> o.result.code != Interrupt)
      && (o.result.Boundary? ==> o.result.boundary != UnpredictableDelaySlotControlTransfer)
  {
    hide Raise, Next, Transfer, RetireLoad, AluResult, ImmediateResult, HiLoAfter, LoadAccess, StoreAccess;
  }

  lemma BranchBefore(pc: u32, branch: u32)
    requires pc == Wrap(branch + 4)
    ensures branch == Wrap(pc - 4)
  {
  }

  lemma EndsWellMeans<B>(r: Cpu, o: Outcome<B>)
    requires PipelineOk(r)
    ensures EndsWell(r, o) ==> PipelineOk(o.cpu)
    ensures EndsWell(r, o) && o.result.Exception? ==>
      o.cpu.cop0.epc == (if r.delaySlot.active then Wrap(r.pc - 4) else r.pc)
      && (o.cpu.cop0.cause >= 0x8000_0000 <==> r.delaySlot.active)
  {
    if r.delaySlot.active {
      BranchBefore(r.pc, r.delaySlot.branchPc);
    }
    hide Wrap, PipelineOk, ExceptionVector, PushedStatus, CodeNumber;
  }

  // ----- The load delay -----

  /** The register an instruction writes directly when it retires; 0 for none. */
  function DirectTarget(i: Instruction): Reg {
    match i.op
    case Alu(_) => i.rd
    case Immediate(_) => i.rt
    case HiLo(op) => if op == Mfhi || op == Mflo then i.rd else 0
    case Jump(op) => if op == Jal then 31 else if op == Jalr then i.rd else 0
    case Branch(op) => if BranchLinks(op) then 31 else 0
    case _ => 0
  }

  ghost predicate MergesInto(i: Instruction, reg: Reg) {
    i.op.Load? && (i.op.load == Lwl || i.op.load == Lwr) && i.rt == reg
  }

  ghost predicate Arrived<B>(o: Outcome<B>, reg: Reg, value: u32, direct: Reg) {
    o.cpu.gpr[reg] == value || (o.result.Retired? && direct == reg)
  }

  /** Every way an instruction ends leaves a register alone that it does not write directly. */
  lemma NextLetsArrive<B>(s: Cpu, b: B, reg: Reg, written: Reg, value: u32, load: DelayedLoad)
    requires reg != 0
    ensures Arrived(Retire(Next(s, written, value, load), b), reg, s.gpr[reg], written)
  {
  }

  lemma TransferLetsArrive<B>(s: Cpu, b: B, reg: Reg, written: Reg, value: u32, taken: bool, target: u32)
    requires reg != 0
    ensures Arrived(Retire(Transfer(s, written, value, taken, target), b), reg, s.gpr[reg], written)
  {
  }

  lemma FaultLetsArrive<B>(s: Cpu, b: B, reg: Reg, direct: Reg, code: ExceptionCode, badVaddr: Option<u32>, coprocessor: int)
    requires reg != 0 && 0 <= coprocessor < 4
    ensures Arrived(Outcome(Raise(s, code, s.pc, s.delaySlot, badVaddr, coprocessor), b, Exception(code, s.pc)), reg, s.gpr[reg], direct)
  {
    hide ExceptionCause;
  }

  lemma StopLetsArrive<B>(s: Cpu, b: B, reg: Reg, direct: Reg, code: BoundaryCode)
    requires reg != 0
    ensures Arrived(Stop(s, b, code), reg, s.gpr[reg], direct)
  {
  }

  lemma CompleteLetsArrive<B>(s: Cpu, b: B, reg: Reg, access: Access<B>, misaligned: ExceptionCode, address: u32, target: Reg)
    requires reg != 0
    ensures Arrived(Complete(s, b, access, misaligned, address, target), reg, s.gpr[reg], 0)
  {
    hide Raise, Next, NewLoad, Arrived;
    match access {
      case Done(value, b') => NextLetsArrive(s, b', reg, 0, 0, NewLoad(target, value));
      case Misaligned => FaultLetsArrive(s, b, reg, 0, misaligned, Some(address), 0);
      case Refused(status, b') =>
        StopLetsArrive(s, b', reg, 0, UnsupportedAddressSpace);
        FaultLetsArrive(s, b', reg, 0, DataBusError, None, 0);
    }
  }

  lemma Cop0LetsArrive<B>(op: Cop0Op, s: Cpu, b: B, i: Instruction, rt: u32, reg: Reg)
    requires reg != 0
    ensures Arrived(Cop0Step(op, s, b, i, rt), reg, s.gpr[reg], 0)
  {
    hide StatusWritten, CauseWritten, PoppedStatus, ExceptionCause, ClearedCause, ExceptionVector, PushedStatus;
  }

  lemma HiLoLetsArrive<B>(op: HiLoOp, s: Cpu, b: B, i: Instruction, rs: u32, rt: u32, reg: Reg)
    requires reg != 0
    ensures Arrived(HiLoStep(op, s, b, i, rs, rt), reg, s.gpr[reg], if op == Mfhi || op == Mflo then i.rd else 0)
  {
    hide HiLoAfter;
  }

  lemma JumpLetsArrive<B>(op: JumpOp, s: Cpu, b: B, i: Instruction, rs: u32, reg: Reg)
    requires reg != 0
    ensures Arrived(JumpStep(op, s, b, i, rs), reg, s.gpr[reg], if op == Jal then 31 else if op == Jalr then i.rd else 0)
  {
    hide Transfer, JumpTarget;
    TransferLetsArrive(s, b, reg, 0, 0, true, JumpTarget(s.pc, i.target));
    TransferLetsArrive(s, b, reg, 31, Wrap(s.pc + 8), true, JumpTarget(s.pc, i.target));
    TransferLetsArrive(s, b, reg, 0, 0, true, rs);
    TransferLetsArrive(s, b, reg, i.rd, Wrap(s.pc + 8), true, rs);
  }

  lemma ComputedLetsArrive<B>(s: Cpu, b: B, written: Reg, value: Option<u32>, reg: Reg)
    requires reg != 0
    ensures Arrived(Computed(s, b, written, value), reg, s.gpr[reg], written)
  {
    hide Raise, Next, Arrived;
    FaultLetsArrive(s, b, reg, written, Overflow, None, 0);
    if value.Some? {
      NextLetsArrive(s, b, reg, written, value.value, NO_LOAD);
    }
  }

  lemma PendingIsRetired(s: Cpu)
    requires PipelineOk(s) && s.pendingLoad.valid
    ensures s.pendingLoad.reg != 0 && RetireLoad(s).gpr[s.pendingLoad.reg] == s.pendingLoad.value
  {
  }

  lemma ExecuteLetsLoadArrive<B>(bus: Bus<B>, s: Cpu, b: B, i: Instruction)
    requires PipelineOk(s) && s.pendingLoad.valid
    ensures Arrived(Execute(bus, s, b, i), s.pendingLoad.reg, s.pendingLoad.value, DirectTarget(i))
  {
    var r, reg := RetireLoad(s), s.pendingLoad.reg;
    PendingIsRetired(s);
    hide Arrived, PipelineOk, Raise, Next, Transfer, RetireLoad, AluResult, ImmediateResult, HiLoStep, JumpStep, LoadAccess, StoreAccess, Complete,
      Cop0Step, Computed, MergeBase, EffectiveAddress, BranchTaken, BranchTarget;
    var rs, rt := s.gpr[i.rs], s.gpr[i.rt];
    match i.op {
      case Reserved => FaultLetsArrive(r, b, reg, 0, ReservedInstruction, None, 0);
      case Syscall => FaultLetsArrive(r, b, reg, 0, SyscallTrap, None, 0);
      case Break => FaultLetsArrive(r, b, reg, 0, Breakpoint, None, 0);
      case Alu(op) => ComputedLetsArrive(r, b, i.rd, AluResult(op, rs, rt, i.sa), reg);
      case Immediate(op) => ComputedLetsArrive(r, b, i.rt, ImmediateResult(op, rs, i.immediate), reg);
      case HiLo(op) => HiLoLetsArrive(op, r, b, i, rs, rt, reg);
      case Jump(op) => JumpLetsArrive(op, r, b, i, rs, reg);
      case Branch(op) =>
        TransferLetsArrive(r, b, reg, if BranchLinks(op) then 31 else 0, Wrap(r.pc + 8), BranchTaken(op, rs, rt), BranchTarget(r.pc, i.immediate));
      case Load(op) =>
        var address := EffectiveAddress(rs, i.immediate);
        CompleteLetsArrive(r, b, reg, LoadAccess(bus, b, op, address, MergeBase(s, i.rt)), AddressLoad, address, i.rt);
      case Store(op) =>
        var address := EffectiveAddress(rs, i.immediate);
        CompleteLetsArrive(r, b, reg, StoreAccess(bus, b, op, address, rt), AddressStore, address, 0);
      case Cop0(op) => Cop0LetsArrive(op, r, b, i, rt, reg);
      case Cop2(_) =>
        FaultLetsArrive(r, b, reg, 0, CoprocessorUnusable, None, 2);
        StopLetsArrive(r, b, reg, 0, Cop2Unimplemented);
    }
  }

  /** A loaded value is in its register after the one instruction that follows the load, faulting or not,
      unless that instruction itself writes the register directly. */
  lemma LoadArrivesAfterOneInstruction<B>(bus: Bus<B>, start: Cpu, b: B)
    requires PipelineOk(start) && start.pendingLoad.valid
    ensures var o := Step(bus, start, b);
      StopsBeforeRetiring(o) ||
      Arrived(o, start.pendingLoad.reg, start.pendingLoad.value, DirectTarget(Decode(bus.read32(b, start.pc).value)))
  {
    hide Execute, DecodeOp, ExceptionCause, SampledCause, DirectTarget;
    var s := Sampled(start);
    assert PipelineOk(s);
    assert RetireLoad(s).gpr[s.pendingLoad.reg] == s.pendingLoad.value;
    var fetched := bus.read32(b, s.pc);
    ExecuteLetsLoadArrive(bus, s, fetched.bus, Decode(fetched.value));
  }

  /** Two processors that differ at most in register `reg`. */
  ghost predicate SameBut(reg: Reg, c: Cpu, d: Cpu) {
    && d == c.(gpr := d.gpr)
    && forall k :: 0 <= k < 32 && k != reg ==> c.gpr[k] == d.gpr[k]
  }

  ghost predicate SameOutcomeBut<B>(reg: Reg, o: Outcome<B>, p: Outcome<B>) {
    o.result == p.result && o.bus == p.bus && SameBut(reg, o.cpu, p.cpu)
  }

  lemma StepsPreserveSame<B>(reg: Reg, c: Cpu, d: Cpu, b: B, r: Reg, value: u32, load: DelayedLoad, taken: bool, target: u32)
    requires SameBut(reg, c, d)
    ensures SameBut(reg, Next(c, r, value, load), Next(d, r, value, load))
    ensures SameBut(reg, Transfer(c, r, value, taken, target), Transfer(d, r, value, taken, target))
  {
  }

  lemma FaultPreservesSame<B>(reg: Reg, c: Cpu, d: Cpu, b: B, code: ExceptionCode, badVaddr: Option<u32>, boundary: BoundaryCode)
    requires SameBut(reg, c, d)
    ensures SameOutcomeBut(reg, Fault(c, b, code, badVaddr), Fault(d, b, code, badVaddr))
    ensures SameBut(reg, Raise(c, code, c.pc, c.delaySlot, badVaddr, 2), Raise(d, code, d.pc, d.delaySlot, badVaddr, 2))
    ensures SameOutcomeBut(reg, Stop(c, b, boundary), Stop(d, b, boundary))
  {
    hide ExceptionCause;
  }

  lemma CompletePreservesSame<B>(reg: Reg, c: Cpu, d: Cpu, b: B, access: Access<B>, code: ExceptionCode, address: u32, r: Reg)
    requires SameBut(reg, c, d)
    ensures SameOutcomeBut(reg, Complete(c, b, access, code, address, r), Complete(d, b, access, code, address, r))
  {
    hide SameBut, Raise, Next;
    match access {
      case Done(value, b') => StepsPreserveSame(reg, c, d, b', 0, 0, NewLoad(r, value), false, 0);
      case Misaligned => FaultPreservesSame(reg, c, d, b, code, Some(address), UnsupportedAddressSpace);
      case Refused(_, b') => FaultPreservesSame(reg, c, d, b', DataBusError, None, UnsupportedAddressSpace);
    }
  }

  lemma ExecuteDoesNotSeeLoad<B>(bus: Bus<B>, s: Cpu, t: Cpu, b: B, i: Instruction)
    requires PipelineOk(s) && s.pendingLoad.valid && t == s.(pendingLoad := s.pendingLoad.(value := t.pendingLoad.value))
    requires !MergesInto(i, s.pendingLoad.reg)
    ensures SameOutcomeBut(s.pendingLoad.reg, Execute(bus, s, b, i), Execute(bus, t, b, i))
  {
    hide AluResult, ImmediateResult, HiLoAfter, LoadAccess, StoreAccess, Raise, Next, Transfer, SameBut, StatusWritten, CauseWritten, PoppedStatus, Complete;
    var reg, rs, rt, c, d := s.pendingLoad.reg, s.gpr[i.rs], s.gpr[i.rt], RetireLoad(s), RetireLoad(t);
    RetiredAreSame(s, t);
    forall code: ExceptionCode ensures SameOutcomeBut(reg, Fault(c, b, code, None), Fault(d, b, code, None)) {
      FaultPreservesSame(reg, c, d, b, code, None, Cop2Unimplemented);
    }
    forall r: Reg, value: u32, load: DelayedLoad ensures SameBut(reg, Next(c, r, value, load), Next(d, r, value, load)) {
      StepsPreserveSame(reg, c, d, b, r, value, load, false, 0);
    }
    forall r: Reg, value: u32, taken: bool, target: u32
      ensures SameBut(reg, Transfer(c, r, value, taken, target), Transfer(d, r, value, taken, target))
    {
      StepsPreserveSame(reg, c, d, b, r, value, NO_LOAD, taken, target);
    }
    FaultPreservesSame(reg, c, d, b, CoprocessorUnusable, None, Cop2Unimplemented);
    FaultPreservesSame(reg, c, d, b, ReservedInstruction, None, ArchitecturalOperationUnimplemented);
    match i.op {
      case HiLo(op) =>
        var (hi, lo) := HiLoAfter(op, rs, rt, c.hi, c.lo);
        SameWith(reg, c, d, hi, lo, c.cop0);
        StepsPreserveSame(reg, c.(hi := hi, lo := lo), d.(hi := hi, lo := lo), b, 0, 0, NO_LOAD, false, 0);
      case Load(op) =>
        var address := EffectiveAddress(rs, i.immediate);
        assert op == Lwl || op == Lwr ==> MergeBase(s, i.rt) == MergeBase(t, i.rt);
        BaseOnlyMattersToMerges(bus, b, op, address, MergeBase(s, i.rt), MergeBase(t, i.rt));
        CompletePreservesSame(reg, c, d, b, LoadAccess(bus, b, op, address, MergeBase(s, i.rt)), AddressLoad, address, i.rt);
      case Store(op) =>
        var address := EffectiveAddress(rs, i.immediate);
        CompletePreservesSame(reg, c, d, b, StoreAccess(bus, b, op, address, rt), AddressStore, address, 0);
      case Cop0(op) =>
        forall cop0: Cop0Registers
          ensures SameBut(reg, Next(c.(cop0 := cop0), 0, 0, NO_LOAD), Next(d.(cop0 := cop0), 0, 0, NO_LOAD))
        {
          SameWith(reg, c, d, c.hi, c.lo, cop0);
          StepsPreserveSame(reg, c.(cop0 := cop0), d.(cop0 := cop0), b, 0, 0, NO_LOAD, false, 0);
        }
      case _ =>
    }
  }

  lemma BaseOnlyMattersToMerges<B>(bus: Bus<B>, b: B, op: LoadOp, address: u32, base0: u32, base1: u32)
    ensures (op != Lwl && op != Lwr) || base0 == base1 ==> LoadAccess(bus, b, op, address, base0) == LoadAccess(bus, b, op, address, base1)
  {
  }

  lemma SameWith(reg: Reg, c: Cpu, d: Cpu, hi: u32, lo: u32, cop0: Cop0Registers)
    requires SameBut(reg, c, d)
    ensures c.hi == d.hi && c.lo == d.lo && c.cop0 == d.cop0 && c.pc == d.pc
    ensures SameBut(reg, c.(hi := hi, lo := lo, cop0 := cop0), d.(hi := hi, lo := lo, cop0 := cop0))
  {
  }

  lemma RetiredAreSame(s: Cpu, t: Cpu)
    requires s.pendingLoad.valid && t == s.(pendingLoad := s.pendingLoad.(value := t.pendingLoad.value))
    ensures SameBut(s.pendingLoad.reg, RetireLoad(s), RetireLoad(t))
    ensures RetireLoad(s).hi == RetireLoad(t).hi && RetireLoad(s).lo == RetireLoad(t).lo && RetireLoad(s).pc == RetireLoad(t).pc
    ensures RetireLoad(s).cop0 == RetireLoad(t).cop0
  {
  }

  /** The instruction in the load delay slot does not see the loaded value: whatever that value is, the step
      does the same to everything but the loaded register. Only LWL and LWR into that register forward it. */
  lemma DelaySlotDoesNotSeeLoad<B>(bus: Bus<B>, s: Cpu, t: Cpu, b: B)
    requires PipelineOk(s) && s.pendingLoad.valid && t == s.(pendingLoad := s.pendingLoad.(value := t.pendingLoad.value))
    requires !MergesInto(Decode(bus.read32(b, s.pc).value), s.pendingLoad.reg)
    requires !StopsBeforeRetiring(Step(bus, s, b))
    ensures SameOutcomeBut(s.pendingLoad.reg, Step(bus, s, b), Step(bus, t, b))
  {
    hide Execute, DecodeOp, ExceptionCause, SampledCause, RetireLoad, Raise, SameBut;
    var u, v := Sampled(s), Sampled(t);
    assert v == u.(pendingLoad := u.pendingLoad.(value := v.pendingLoad.value));
    assert PipelineOk(u);
    var reg, fetched := s.pendingLoad.reg, bus.read32(b, s.pc);
    RetiredAreSame(u, v);
    FaultPreservesSame(reg, RetireLoad(u), RetireLoad(v), b, Interrupt, None, UnsupportedAddressSpace);
    FaultPreservesSame(reg, RetireLoad(u), RetireLoad(v), b, AddressLoad, Some(u.pc), UnsupportedAddressSpace);
    FaultPreservesSame(reg, RetireLoad(u), RetireLoad(v), fetched.bus, InstructionBusError, None, UnsupportedAddressSpace);
    ExecuteDoesNotSeeLoad(bus, u, v, fetched.bus, Decode(fetched.value));
  }
}
