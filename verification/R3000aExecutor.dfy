/** The executor as core/r3000a_reference_executor.cpp runs it: processor fields updated in place, one
    access to the bus at a time. Every method is proved to do what `R3000a` says. */
module R3000aExecutor {
  import opened Outcomes
  import opened Words
  import opened MipsDecoder
  import opened R3000a

  class R3000aState {
    var gpr: Gprs
    var hi: u32
    var lo: u32
    var pc: u32
    var nextPc: u32
    var pendingLoad: DelayedLoad
    var delaySlot: DelaySlot
    var cop0: Cop0Registers
    var externalInterruptPending: u8

    function View(): Cpu
      reads this
    {
      Cpu(gpr, hi, lo, pc, nextPc, pendingLoad, delaySlot, cop0, externalInterruptPending)
    }

    constructor (entryPc: u32, initialGp: u32, stackBase: u32, stackSize: u32)
      ensures View() == Initial(entryPc, initialGp, stackBase, stackSize)
    {
      var registers: Gprs := seq(32, _ => 0);
      registers := registers[28 := initialGp];
      if stackBase != 0 || stackSize != 0 {
        registers := registers[29 := Wrap(stackBase + stackSize)];
      }
      gpr := registers[0 := 0];
      hi, lo, pc, nextPc := 0, 0, entryPc, Wrap(entryPc + 4);
      pendingLoad, delaySlot := NO_LOAD, NO_SLOT;
      cop0, externalInterruptPending := Cop0Registers(0, 0, 0, 0, 0), 0;
    }

    /** Copying a whole processor state over this one. */
    method Assign(s: Cpu)
      modifies this
      ensures View() == s
    {
      gpr, hi, lo, pc, nextPc := s.gpr, s.hi, s.lo, s.pc, s.nextPc;
      pendingLoad, delaySlot, cop0, externalInterruptPending := s.pendingLoad, s.delaySlot, s.cop0, s.externalInterruptPending;
    }

    method WriteGpr(reg: Reg, value: u32)
      modifies `gpr
      ensures gpr == WithGpr(old(gpr), reg, value)
    {
      if reg != 0 {
        gpr := gpr[reg := value];
      }
    }

    method RetirePendingLoad()
      modifies this
      ensures View() == RetireLoad(old(View()))
      ensures unchanged(`pc, `nextPc, `delaySlot, `cop0, `hi, `lo, `externalInterruptPending)
    {
      if pendingLoad.valid {
        WriteGpr(pendingLoad.reg, pendingLoad.value);
        pendingLoad := NO_LOAD;
      }
    }

    method AdvanceOrdinaryPc()
      modifies `pc, `nextPc
      ensures pc == old(nextPc) && nextPc == Wrap(old(nextPc) + 4)
    {
      pc := nextPc;
      nextPc := Wrap(nextPc + 4);
    }

    method StopAt(code: BoundaryCode, at: u32) returns (r: StepResult)
      modifies `gpr
      ensures gpr == old(gpr)[0 := 0] && r == Boundary(code, at)
    {
      gpr := gpr[0 := 0];
      r := Boundary(code, at);
    }

    /** The cause and status words are assembled field by field, EPC last before the jump to the vector. */
    /** The code, the coprocessor and the delay-slot bits, set one after the other. */
    static method AssembleCause(before: u32, code: ExceptionCode, currentDelay: DelaySlot, coprocessor: Option<int>) returns (cause: u32)
      requires coprocessor.Some? ==> 0 <= coprocessor.value < 4
      ensures cause == ExceptionCause(before, code, currentDelay, if coprocessor.Some? then coprocessor.value else 0)
    {
      cause := ClearedCause(before) + CodeNumber(code) * 4;
      if coprocessor.Some? {
        cause := cause + coprocessor.value * 0x1000_0000;
      }
      if currentDelay.active {
        if currentDelay.taken {
          cause := cause + 0x4000_0000;
        }
        cause := cause + 0x8000_0000;
      }
    }

    method EnterException(code: ExceptionCode, faultPc: u32, currentDelay: DelaySlot, badVaddr: Option<u32>, coprocessor: Option<int>)
      returns (r: StepResult)
      requires coprocessor.Some? ==> 0 <= coprocessor.value < 4
      modifies this
      ensures View() == Raise(old(View()), code, faultPc, currentDelay, badVaddr, if coprocessor.Some? then coprocessor.value else 0)
      ensures r == Exception(code, faultPc)
    {
      hide ExceptionCause, PushedStatus;
      var statusBefore := cop0.status;
      var cause := AssembleCause(cop0.cause, code, currentDelay, coprocessor);
      if currentDelay.active {
        cop0 := cop0.(epc := currentDelay.branchPc);
        if currentDelay.taken {
          cop0 := cop0.(targetAddress := currentDelay.target);
        }
      } else {
        cop0 := cop0.(epc := faultPc);
      }
      cop0 := cop0.(cause := cause);
      if code == AddressLoad || code == AddressStore {
        if badVaddr.Some? {
          cop0 := cop0.(badVaddr := badVaddr.value);
        }
      }
      cop0 := cop0.(status := PushedStatus(statusBefore));
      pc := ExceptionVector(statusBefore);
      nextPc := pc + 4;
      delaySlot := NO_SLOT;
      gpr := gpr[0 := 0];
      r := Exception(code, faultPc);
    }

    /** The common end of every instruction that stays in sequence. */
    method RetireInSequence(reg: Reg, value: u32, newPending: DelayedLoad, currentDelay: DelaySlot) returns (r: StepResult)
      requires currentDelay == delaySlot
      modifies this
      ensures View() == Next(old(View()), reg, value, newPending) && r == Retired
    {
      WriteGpr(reg, value);
      pendingLoad := newPending;
      AdvanceOrdinaryPc();
      if currentDelay.active {
        delaySlot := NO_SLOT;
      }
      gpr := gpr[0 := 0];
      r := Retired;
    }

    /** The common end of every jump and branch. */
    method RetireTransfer(reg: Reg, value: u32, taken: bool, target: u32, instructionPc: u32) returns (r: StepResult)
      requires instructionPc == pc
      modifies this
      ensures View() == Transfer(old(View()), reg, value, taken, target) && r == Retired
    {
      delaySlot := DelaySlot(true, instructionPc, taken, target);
      pc := Wrap(instructionPc + 4);
      nextPc := if taken then target else Wrap(instructionPc + 8);
      WriteGpr(reg, value);
      pendingLoad := NO_LOAD;
      gpr := gpr[0 := 0];
      r := Retired;
    }

    /** Ends a data access the bus did not perform. */
    method Refuse<B>(status: BusStatus, ghost b: B, ghost b': B, ghost misaligned: ExceptionCode, ghost address: u32, ghost reg: Reg)
      returns (r: StepResult)
      requires status != Ok
      modifies this
      ensures Outcome(View(), b', r) == Complete(old(View()), b, Refused(status, b'), misaligned, address, reg)
    {
      if status == Unsupported {
        r := StopAt(UnsupportedAddressSpace, pc);
      } else {
        r := EnterException(DataBusError, pc, delaySlot, None, None);
      }
    }

    method ExecuteLoad<B>(op: LoadOp, rt: Reg, address: u32, base: u32, bus: Bus<B>, b0: B) returns (r: StepResult, b: B)
      modifies this
      ensures Outcome(View(), b, r) == Complete(old(View()), b0, LoadAccess(bus, b0, op, address, base), AddressLoad, address, rt)
    {
      hide Raise, Next, MergeLeft, MergeRight, SignExtend8, SignExtend16;
      b := b0;
      var reply: Reply<B>;
      var value: u32;
      match op {
        case Lb =>
          reply := bus.read8(b, address);
          value := SignExtend8(reply.value % 0x100);
        case Lbu =>
          reply := bus.read8(b, address);
          value := reply.value % 0x100;
        case Lh =>
          if address % 2 != 0 {
            r := EnterException(AddressLoad, pc, delaySlot, Some(address), None);
            return;
          }
          reply := bus.read16(b, address);
          value := SignExtend16(reply.value % 0x1_0000);
        case Lhu =>
          if address % 2 != 0 {
            r := EnterException(AddressLoad, pc, delaySlot, Some(address), None);
            return;
          }
          reply := bus.read16(b, address);
          value := reply.value % 0x1_0000;
        case Lw =>
          if address % 4 != 0 {
            r := EnterException(AddressLoad, pc, delaySlot, Some(address), None);
            return;
          }
          reply := bus.read32(b, address);
          value := reply.value;
        case Lwl =>
          reply := bus.read32(b, address / 4 * 4);
          value := MergeLeft(base, reply.value, address % 4);
        case Lwr =>
          reply := bus.read32(b, address / 4 * 4);
          value := MergeRight(base, reply.value, address % 4);
      }
      b := reply.bus;
      if reply.status != Ok {
        r := Refuse(reply.status, b0, b, AddressLoad, address, rt);
        return;
      }
      r := RetireInSequence(0, 0, NewLoad(rt, value), delaySlot);
    }

    method ExecuteStore<B>(op: StoreOp, address: u32, rt: u32, bus: Bus<B>, b0: B) returns (r: StepResult, b: B)
      modifies this
      ensures Outcome(View(), b, r) == Complete(old(View()), b0, StoreAccess(bus, b0, op, address, rt), AddressStore, address, 0)
    {
      hide Raise, Next, InsertLeft, InsertRight;
      b := b0;
      var out: Reply<B>;
      if (op == Sh && address % 2 != 0) || (op == Sw && address % 4 != 0) {
        r := EnterException(AddressStore, pc, delaySlot, Some(address), None);
        return;
      }
      if op == Sb {
        out := bus.write8(b, address, rt % 0x100);
      } else if op == Sh {
        out := bus.write16(b, address, rt % 0x1_0000);
      } else if op == Sw {
        out := bus.write32(b, address, rt);
      } else {
        var aligned := address / 4 * 4;
        var input := bus.read32(b, aligned);
        b := input.bus;
        if input.status != Ok {
          r := Refuse(input.status, b0, b, AddressStore, address, 0);
          return;
        }
        var merged := if op == Swl then InsertLeft(input.value, rt, address % 4) else InsertRight(input.value, rt, address % 4);
        out := bus.write32(b, aligned, merged);
      }
      b := out.bus;
      if out.status != Ok {
        r := Refuse(out.status, b0, b, AddressStore, address, 0);
        return;
      }
      r := RetireInSequence(0, 0, NO_LOAD, delaySlot);
    }

    method ExecuteCop0<B>(op: Cop0Op, i: Instruction, rt: u32, ghost b: B) returns (r: StepResult)
      modifies this
      ensures Outcome(View(), b, r) == Cop0Step(op, old(View()), b, i, rt)
    {
      hide Raise, Next, StatusWritten, CauseWritten, PoppedStatus;
      match op {
        case Mfc0 =>
          var value := Cop0Value(cop0, i.rd);
          if value.None? {
            if Cop0RegisterIsReserved(i.rd) {
              r := EnterException(ReservedInstruction, pc, delaySlot, None, None);
            } else {
              r := StopAt(ArchitecturalOperationUnimplemented, pc);
            }
            return;
          }
          r := RetireInSequence(0, 0, NewLoad(i.rt, value.value), delaySlot);
        case Mtc0 =>
          if i.rd == 12 {
            cop0 := cop0.(status := StatusWritten(cop0.status, rt));
          } else if i.rd == 13 {
            cop0 := cop0.(cause := CauseWritten(cop0.cause, rt));
          } else if i.rd == 6 || i.rd == 8 || i.rd == 14 || !Cop0RegisterIsReserved(i.rd) {
            r := StopAt(ArchitecturalOperationUnimplemented, pc);
            return;
          } else {
            r := EnterException(ReservedInstruction, pc, delaySlot, None, None);
            return;
          }
          r := RetireInSequence(0, 0, NO_LOAD, delaySlot);
        case Rfe =>
          cop0 := cop0.(status := PoppedStatus(cop0.status));
          r := RetireInSequence(0, 0, NO_LOAD, delaySlot);
      }
    }

    method ExecuteHiLo<B>(op: HiLoOp, i: Instruction, rs: u32, rt: u32, ghost b: B) returns (r: StepResult)
      modifies this
      ensures Outcome(View(), b, r) == HiLoStep(op, old(View()), b, i, rs, rt)
    {
      hide Next, HiLoAfter;
      if op == Mfhi || op == Mflo {
        r := RetireInSequence(i.rd, if op == Mfhi then hi else lo, NO_LOAD, delaySlot);
      } else {
        var after := HiLoAfter(op, rs, rt, hi, lo);
        hi, lo := after.0, after.1;
        r := RetireInSequence(0, 0, NO_LOAD, delaySlot);
      }
    }

    method ExecuteJump<B>(op: JumpOp, i: Instruction, rs: u32, ghost b: B) returns (r: StepResult)
      modifies this
      ensures Outcome(View(), b, r) == JumpStep(op, old(View()), b, i, rs)
    {
      hide Transfer;
      var link := if op == Jal then 31 else if op == Jalr then i.rd else 0;
      var target := if op == J || op == Jal then JumpTarget(pc, i.target) else rs;
      r := RetireTransfer(link, if op == Jal || op == Jalr then Wrap(pc + 8) else 0, true, target, pc);
    }

    /** The switch over operations: operands are read first, then the load in flight is retired. */
    method ExecuteInstruction<B>(i: Instruction, bus: Bus<B>, b0: B) returns (r: StepResult, b: B)
      modifies this
      ensures Outcome(View(), b, r) == Execute(bus, old(View()), b0, i)
    {
      hide Raise, Next, Transfer, RetireLoad, AluResult, ImmediateResult, LoadAccess, StoreAccess, Complete, Cop0Step, HiLoStep, JumpStep;
      var rs, rt := gpr[i.rs], gpr[i.rt];
      var base := MergeBase(View(), i.rt);
      b := b0;
      RetirePendingLoad();
      match i.op {
        case Reserved => r := EnterException(ReservedInstruction, pc, delaySlot, None, None);
        case Syscall => r := EnterException(SyscallTrap, pc, delaySlot, None, None);
        case Break => r := EnterException(Breakpoint, pc, delaySlot, None, None);
        case Alu(op) =>
          var value := AluResult(op, rs, rt, i.sa);
          if value.None? {
            r := EnterException(Overflow, pc, delaySlot, None, None);
          } else {
            r := RetireInSequence(i.rd, value.value, NO_LOAD, delaySlot);
          }
        case Immediate(op) =>
          var value := ImmediateResult(op, rs, i.immediate);
          if value.None? {
            r := EnterException(Overflow, pc, delaySlot, None, None);
          } else {
            r := RetireInSequence(i.rt, value.value, NO_LOAD, delaySlot);
          }
        case HiLo(op) => r := ExecuteHiLo(op, i, rs, rt, b);
        case Jump(op) => r := ExecuteJump(op, i, rs, b);
        case Branch(op) =>
          r := RetireTransfer(if BranchLinks(op) then 31 else 0, Wrap(pc + 8), BranchTaken(op, rs, rt), BranchTarget(pc, i.immediate), pc);
        case Load(op) => r, b := ExecuteLoad(op, i.rt, EffectiveAddress(rs, i.immediate), base, bus, b0);
        case Store(op) => r, b := ExecuteStore(op, EffectiveAddress(rs, i.immediate), rt, bus, b0);
        case Cop0(op) => r := ExecuteCop0(op, i, rt, b);
        case Cop2(_) =>
          if cop0.status / 0x4000_0000 % 2 == 0 {
            r := EnterException(CoprocessorUnusable, pc, delaySlot, None, Some(2));
          } else {
            r := StopAt(Cop2Unimplemented, pc);
          }
      }
    }

    method StepR3000a<B>(bus: Bus<B>, b0: B) returns (r: StepResult, b: B)
      modifies this
      ensures Outcome(View(), b, r) == Step(bus, old(View()), b0)
    {
      hide Raise, Next, Transfer, RetireLoad, Execute, DecodeOp, SampledCause;
      b := b0;
      gpr := gpr[0 := 0];
      cop0 := cop0.(cause := SampledCause(cop0.cause, externalInterruptPending));
      assert View() == Sampled(old(View()));
      var interruptEnabled := cop0.status % 2 == 1;
      var maskedInterruptPending := And(And(cop0.cause, cop0.status), 0xFF00) != 0;
      if !delaySlot.active && interruptEnabled && maskedInterruptPending {
        RetirePendingLoad();
        r := EnterException(Interrupt, pc, delaySlot, None, None);
        return;
      }
      if pc % 4 != 0 {
        RetirePendingLoad();
        r := EnterException(AddressLoad, pc, delaySlot, Some(pc), None);
        return;
      }
      var fetched := bus.read32(b, pc);
      b := fetched.bus;
      if fetched.status == Unsupported {
        RetirePendingLoad();
        r := StopAt(UnsupportedAddressSpace, pc);
        return;
      }
      if fetched.status == BusError {
        RetirePendingLoad();
        r := EnterException(InstructionBusError, pc, delaySlot, None, None);
        return;
      }
      var instruction := Decode(fetched.value);
      if delaySlot.active && IsControlTransfer(instruction.op) {
        r := StopAt(UnpredictableDelaySlotControlTransfer, pc);
        return;
      }
      r, b := ExecuteInstruction(instruction, bus, b);
    }
  }
}
