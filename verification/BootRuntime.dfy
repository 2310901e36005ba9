/** The budgeted run loop of core/ps1_boot_runtime.cpp.

    `Iterate` is one turn of the loop; it logs every event. The loop itself keeps only the most recent
    events, and is proved to keep exactly the end of those logs. The loop need not terminate: `Halts`
    is the condition, and `HaltsExactlyWhenNeverTrapped` says what it amounts to. */
module BootRuntime {
  import opened Outcomes
  import opened Words
  import opened MipsDecoder
  import opened R3000a
  import opened R3000aPipeline
  import opened MemoryBus
  import opened HleBios

  datatype Runtime = Runtime(cpu: Cpu, bus: Memory, bios: Bios, frontierPending: bool)

  datatype Options = Options(budget: nat, traceCapacity: nat, probe: bool, mmioCapacity: nat, biosCapacity: nat, stallLimit: nat)

  datatype StopReason = Running | BudgetExhausted | CpuBoundary | BiosCallUnimplemented | MmioUnimplemented | DiagnosticStall

  datatype BiosCall = BiosCall(pc: u32, table: u32, selector: u32, a0: u32, a1: u32, a2: u32, a3: u32, ra: u32)

  datatype Mmio = Mmio(pc: u32, address: u32, width: Width, write: bool, value: u32, speculative: bool)

  datatype TraceSample = TraceSample(pc: u32, opcode: Option<u32>)

  /** What a run has to tell, with every event it met. */
  datatype Report = Report(retired: nat, lastPc: u32, lastOpcode: Option<u32>, stop: StopReason,
                           interruptsAccepted: nat, failure: Option<StepResult>, unsupported: Option<BusAccess>,
                           calls: seq<BiosCall>, mmio: seq<Mmio>, trace: seq<TraceSample>)

  /** The loop between two turns: the machine, the report so far, and the progress bookkeeping. */
  datatype Loop = Loop(rt: Runtime, report: Report, sinceProgress: nat, seenBios: set<(u32, u32)>, seenMmio: set<(u32, Width, bool)>)

  predicate IsBiosTable(physical: u32) {
    physical == A0 || physical == B0 || physical == C0
  }

  predicate InMmioWindow(physical: u32) {
    0x1F80_1000 <= physical < 0x1F80_3000
  }

  /** The BIOS table a program counter aliases, if any. */
  function TableAt(pc: u32): Option<u32> {
    match GuestToPhysical(pc)
    case Some(physical) => if IsBiosTable(physical) then Some(physical) else None
    case None => None
  }

  function Start(rt: Runtime, o: Options): Loop {
    Loop(rt.(bus := WithProbe(rt.bus, o.probe)), Report(0, rt.cpu.pc, None, Running, 0, None, None, [], [], []), 0, {}, {})
  }

  predicate Continues(o: Options, l: Loop) {
    l.report.stop == Running && l.report.retired < o.budget
  }

  function CallOf(cpu: Cpu, table: u32): BiosCall {
    BiosCall(cpu.pc, table, cpu.gpr[9], cpu.gpr[4], cpu.gpr[5], cpu.gpr[6], cpu.gpr[7], cpu.gpr[31])
  }

  /** A turn at a BIOS table: it spends no budget. */
  function CallTurn(l: Loop, table: u32): Loop {
    var cpu := l.rt.cpu;
    var key := (table, cpu.gpr[9]);
    var report := l.report.(lastPc := cpu.pc, calls := l.report.calls + [CallOf(cpu, table)]);
    var since := if key in l.seenBios then l.sinceProgress else 0;
    match Dispatch(l.rt.bios, cpu, table, cpu.gpr[9])
    case Some(result) =>
      Loop(l.rt.(cpu := result.1, bios := result.0, frontierPending := false), report, since, l.seenBios + {key}, l.seenMmio)
    case None =>
      Loop(l.rt.(frontierPending := true), report.(stop := BiosCallUnimplemented), since, l.seenBios + {key}, l.seenMmio)
  }

  /** Looking at the opcode must leave no trace on the bus. */
  function Observed(bus: Memory): Memory {
    bus.(lastUnsupported := None, lastProbe := None)
  }

  function OpcodeAt(bus: Memory, pc: u32): Option<u32> {
    var seen := Read(bus, pc, 4);
    if seen.status == Ok then Some(seen.value) else None
  }

  /** A turn that steps the processor. */
  function StepTurn(o: Options, l: Loop): Loop {
    var cpu := l.rt.cpu;
    var opcode := OpcodeAt(l.rt.bus, cpu.pc);
    var out := Step(Ps1Bus(), cpu, Observed(l.rt.bus));
    var rt := Runtime(out.cpu, out.bus, l.rt.bios, false);
    var report := l.report.(lastPc := cpu.pc, lastOpcode := opcode, trace := l.report.trace + [TraceSample(cpu.pc, opcode)]);
    if out.result.Retired? then RetiredTurn(o, l, rt, report)
    else
      var failed := report.(failure := Some(out.result), unsupported := out.bus.lastUnsupported,
                            interruptsAccepted := report.interruptsAccepted + if out.result.Exception? && out.result.code == Interrupt then 1 else 0);
      Loop(rt, Stopped(failed, out.result.pc), l.sinceProgress, l.seenBios, l.seenMmio)
  }

  function RetiredTurn(o: Options, l: Loop, rt: Runtime, report: Report): Loop {
    match rt.bus.lastProbe
    case Some(p) =>
      var key := (p.physical, p.width, p.write);
      var since := if key in l.seenMmio then l.sinceProgress + 1 else 0;
      Loop(rt, Stalled(o, report.(retired := report.retired + 1,
                                  mmio := report.mmio + [Mmio(report.lastPc, p.guest, p.width, p.write, p.value, true)]), since),
           since, l.seenBios, l.seenMmio + {key})
    case None =>
      Loop(rt, Stalled(o, report.(retired := report.retired + 1), l.sinceProgress + 1), l.sinceProgress + 1, l.seenBios, l.seenMmio)
  }

  function Stalled(o: Options, report: Report, since: nat): Report {
    if o.stallLimit != 0 && since >= o.stallLimit then report.(stop := DiagnosticStall) else report
  }

  function Stopped(report: Report, pc: u32): Report {
    match report.unsupported
    case Some(a) =>
      var physical := GuestToPhysical(a.guest);
      if physical.Some? && InMmioWindow(physical.value)
      then report.(stop := MmioUnimplemented, mmio := report.mmio + [Mmio(pc, a.guest, a.width, a.write, a.value, false)])
      else report.(stop := CpuBoundary)
    case None => report.(stop := CpuBoundary)
  }

  function Iterate(o: Options, l: Loop): Loop {
    match TableAt(l.rt.cpu.pc)
    case Some(table) => CallTurn(l, table)
    case None => StepTurn(o, l)
  }

  /** The loop after at most `n` turns. */
  function After(o: Options, l: Loop, n: nat): Loop
    decreases n
  {
    if n == 0 || !Continues(o, l) then l else After(o, Iterate(o, l), n - 1)
  }

  ghost predicate Halts(o: Options, l: Loop) {
    exists n: nat :: !Continues(o, After(o, l, n))
  }

  /** Where the loop ends, when it does. */
  ghost function Final(o: Options, l: Loop): Loop
    requires Halts(o, l)
  {
    var n: nat :| !Continues(o, After(o, l, n));
    After(o, l, n)
  }

  lemma {:induction false} AfterStops(o: Options, l: Loop, n: nat, m: nat)
    requires n <= m && !Continues(o, After(o, l, n))
    ensures After(o, l, m) == After(o, l, n)
    decreases n
  {
    hide Iterate;
    if n > 0 && Continues(o, l) {
      AfterStops(o, Iterate(o, l), n - 1, m - 1);
    }
  }

  lemma FinalIs(o: Options, l: Loop, n: nat)
    requires !Continues(o, After(o, l, n))
    ensures Halts(o, l) && Final(o, l) == After(o, l, n)
  {
    hide Iterate, Continues, After;
    var k: nat :| !Continues(o, After(o, l, k)) && Final(o, l) == After(o, l, k);
    if k <= n { AfterStops(o, l, k, n); } else { AfterStops(o, l, n, k); }
  }

  lemma {:induction false} AfterSplits(o: Options, l: Loop, n: nat, m: nat)
    ensures After(o, l, n + m) == After(o, After(o, l, n), m)
    decreases n
  {
    hide Iterate;
    if n > 0 && Continues(o, l) {
      AfterSplits(o, Iterate(o, l), n - 1, m);
    }
  }

  // ----- Termination -----

  /** A handled call about to return to an alias of its own table: it will be made again, for ever. */
  predicate Trapped(rt: Runtime) {
    var table := TableAt(rt.cpu.pc);
    && table.Some?
    && Dispatch(rt.bios, rt.cpu, table.value, rt.cpu.gpr[9]).Some?
    && TableAt(rt.cpu.gpr[31]) == table
  }

  lemma TrapRepeats(o: Options, l: Loop)
    requires Continues(o, l) && Trapped(l.rt)
    ensures Continues(o, Iterate(o, l)) && Trapped(Iterate(o, l).rt)
  {
    hide StepTurn, Dispatch;
    HandledCallRepeats(l.rt.bios, l.rt.cpu, TableAt(l.rt.cpu.pc).value, l.rt.cpu.gpr[9]);
  }

  lemma {:induction false} TrapNeverEnds(o: Options, l: Loop, n: nat)
    requires Continues(o, l) && Trapped(l.rt)
    ensures Continues(o, After(o, l, n))
    decreases n
  {
    hide Iterate, Trapped, Continues;
    if n > 0 {
      TrapRepeats(o, l);
      TrapNeverEnds(o, Iterate(o, l), n - 1);
    }
  }

  /** Turns left before the budget must be spent: a step costs one retirement, and a call that is not
      trapped is followed by a step or by the end. */
  function TurnsLeft(o: Options, l: Loop): nat {
    if Continues(o, l) then 3 * (o.budget - l.report.retired) + CallsAhead(l.rt) else 0
  }

  function CallsAhead(rt: Runtime): nat {
    match TableAt(rt.cpu.pc)
    case None => 0
    case Some(table) => if Dispatch(rt.bios, rt.cpu, table, rt.cpu.gpr[9]).Some? then 2 else 1
  }

  lemma UntrappedTurnProgresses(o: Options, l: Loop)
    requires Continues(o, l) && !Trapped(l.rt)
    ensures TurnsLeft(o, Iterate(o, l)) < TurnsLeft(o, l)
  {
    match TableAt(l.rt.cpu.pc) {
      case None => StepTurnProgresses(o, l);
      case Some(table) => CallTurnProgresses(o, l, table);
    }
  }

  lemma StepTurnProgresses(o: Options, l: Loop)
    requires Continues(o, l)
    ensures var next := StepTurn(o, l); next.report.stop != Running || next.report.retired == l.report.retired + 1
  {
    hide Step, Read, GuestToPhysical;
  }

  lemma CallTurnProgresses(o: Options, l: Loop, table: u32)
    requires Continues(o, l) && TableAt(l.rt.cpu.pc) == Some(table) && !Trapped(l.rt)
    ensures TurnsLeft(o, CallTurn(l, table)) < TurnsLeft(o, l)
  {
    var cpu := l.rt.cpu;
    hide Dispatch, TableAt;
    if Dispatch(l.rt.bios, cpu, table, cpu.gpr[9]).Some? {
      HandledCallRepeats(l.rt.bios, cpu, table, cpu.gpr[9]);
      var next := CallTurn(l, table);
      if TableAt(next.rt.cpu.pc).Some? && Dispatch(next.rt.bios, next.rt.cpu, TableAt(next.rt.cpu.pc).value, cpu.gpr[9]).Some? {
        OneTablePerSelector(l.rt.bios, cpu, next.rt.bios, next.rt.cpu, table, TableAt(next.rt.cpu.pc).value, cpu.gpr[9]);
        assert false;
      }
    }
  }

  ghost predicate NeverTrapped(o: Options, l: Loop) {
    forall n: nat :: Continues(o, After(o, l, n)) ==> !Trapped(After(o, l, n).rt)
  }

  lemma NextIsNeverTrapped(o: Options, l: Loop)
    requires NeverTrapped(o, l) && Continues(o, l)
    ensures !Trapped(l.rt) && NeverTrapped(o, Iterate(o, l))
  {
    hide Iterate, Trapped, Continues;
    assert After(o, l, 0) == l;
    forall n: nat | Continues(o, After(o, Iterate(o, l), n)) ensures !Trapped(After(o, Iterate(o, l), n).rt) {
      assert After(o, l, n + 1) == After(o, Iterate(o, l), n);
    }
  }

  lemma {:induction false} UntrappedHalts(o: Options, l: Loop)
    requires NeverTrapped(o, l)
    ensures !Continues(o, After(o, l, TurnsLeft(o, l)))
    decreases TurnsLeft(o, l)
  {
    hide Iterate, Trapped, NeverTrapped;
    if Continues(o, l) {
      var next := Iterate(o, l);
      NextIsNeverTrapped(o, l);
      UntrappedTurnProgresses(o, l);
      UntrappedHalts(o, next);
      assert After(o, l, TurnsLeft(o, next) + 1) == After(o, next, TurnsLeft(o, next));
      AfterStops(o, l, TurnsLeft(o, next) + 1, TurnsLeft(o, l));
    }
  }

  /** The run loop ends exactly when it never meets a handled call that returns to its own table, and then
      within three turns per budgeted instruction. */
  lemma HaltsExactlyWhenNeverTrapped(o: Options, l: Loop)
    ensures Halts(o, l) <==> NeverTrapped(o, l)
    ensures NeverTrapped(o, l) ==> !Continues(o, After(o, l, TurnsLeft(o, l)))
  {
    hide Iterate, Trapped, TurnsLeft, After, Continues;
    if NeverTrapped(o, l) {
      UntrappedHalts(o, l);
    }
    if Halts(o, l) {
      var n: nat :| !Continues(o, After(o, l, n));
      forall k: nat | Continues(o, After(o, l, k)) ensures !Trapped(After(o, l, k).rt) {
        if Trapped(After(o, l, k).rt) {
          TrapNeverEnds(o, After(o, l, k), n);
          AfterSplits(o, l, k, n);
          AfterStops(o, l, n, k + n);
          assert false;
        }
      }
    }
  }

  // ----- What every turn keeps -----

  ghost predicate LoopOk(o: Options, l: Loop) {
    && PipelineOk(l.rt.cpu)
    && l.rt.bus.probeEnabled == o.probe
    && l.report.retired <= o.budget
    && (l.report.stop == BiosCallUnimplemented ==> l.rt.frontierPending && TableAt(l.rt.cpu.pc).Some?)
    && (o.stallLimit != 0 ==> ProgressOk(o.stallLimit, l))
  }

  ghost function Dependencies(l: Loop): nat {
    |l.seenBios| + |l.seenMmio|
  }

  /** Fewer than `limit` instructions since the last new dependency while running, and no more at the end. */
  ghost predicate ProgressOk(limit: nat, l: Loop) {
    && l.report.retired <= Dependencies(l) * limit + l.sinceProgress
    && l.sinceProgress <= limit
    && (l.report.stop == Running ==> l.sinceProgress < limit)
  }

  lemma AccessKeepsProbe(m: Memory, guest: u32, width: Width, value: u32)
    ensures Read(m, guest, width).bus.probeEnabled == m.probeEnabled
    ensures Write(m, guest, width, value).bus.probeEnabled == m.probeEnabled
  {
    hide GuestToPhysical, MappedPlace, VisibleDmaInterrupt, WrittenDmaInterrupt, ReadLittleEndian, WriteLittleEndian;
  }

  lemma LoadKeepsProbe(m: Memory, op: LoadOp, address: u32, base: u32)
    ensures var a := LoadAccess(Ps1Bus(), m, op, address, base); a.Misaligned? || a.bus.probeEnabled == m.probeEnabled
  {
    hide Read, Write, MergeLeft, MergeRight, SignExtend8, SignExtend16;
    AccessKeepsProbe(m, address, 1, 0);
    AccessKeepsProbe(m, address, 2, 0);
    AccessKeepsProbe(m, address, 4, 0);
    AccessKeepsProbe(m, address / 4 * 4, 4, 0);
  }

  lemma StoreKeepsProbe(m: Memory, op: StoreOp, address: u32, value: u32)
    ensures var a := StoreAccess(Ps1Bus(), m, op, address, value); a.Misaligned? || a.bus.probeEnabled == m.probeEnabled
  {
    hide Read, Write, InsertLeft, InsertRight;
    AccessKeepsProbe(m, address, 1, value % 0x100);
    AccessKeepsProbe(m, address, 2, value % 0x1_0000);
    AccessKeepsProbe(m, address, 4, value);
    var r := Read(m, address / 4 * 4, 4);
    AccessKeepsProbe(m, address / 4 * 4, 4, 0);
    AccessKeepsProbe(r.bus, address / 4 * 4, 4, InsertLeft(r.value, value, address % 4));
    AccessKeepsProbe(r.bus, address / 4 * 4, 4, InsertRight(r.value, value, address % 4));
  }

  lemma ExecuteKeepsProbe(s: Cpu, m: Memory, i: Instruction)
    ensures Execute(Ps1Bus(), s, m, i).bus.probeEnabled == m.probeEnabled
  {
    hide LoadAccess, StoreAccess, Ps1Bus, Raise, Next, Transfer, RetireLoad, AluResult, ImmediateResult, HiLoAfter, EffectiveAddress,
      MergeBase, BranchTaken, BranchTarget, JumpTarget, Cop0Value, Cop0RegisterIsReserved, StatusWritten, CauseWritten, PoppedStatus;
    if i.op.Load? {
      LoadKeepsProbe(m, i.op.load, EffectiveAddress(s.gpr[i.rs], i.immediate), MergeBase(s, i.rt));
    } else if i.op.Store? {
      StoreKeepsProbe(m, i.op.store, EffectiveAddress(s.gpr[i.rs], i.immediate), s.gpr[i.rt]);
    }
  }

  lemma StepKeepsProbe(cpu: Cpu, m: Memory)
    ensures Step(Ps1Bus(), cpu, m).bus.probeEnabled == m.probeEnabled
  {
    hide Execute, Read, Write, Decode, Raise, RetireLoad, SampledCause;
    var s := Sampled(cpu);
    AccessKeepsProbe(m, s.pc, 4, 0);
    var fetched := Read(m, s.pc, 4);
    ExecuteKeepsProbe(s, fetched.bus, Decode(fetched.value));
  }

  lemma StartIsOk(rt: Runtime, o: Options)
    requires PipelineOk(rt.cpu)
    ensures LoopOk(o, Start(rt, o))
  {
  }

  lemma NewDependency(retired: nat, count: nat, since: nat, limit: nat)
    requires retired <= count * limit + since && since <= limit
    ensures retired <= (count + 1) * limit
  {
  }

  lemma ReturnKeepsPipeline(l: Loop, table: u32)
    requires PipelineOk(l.rt.cpu)
    ensures PipelineOk(CallTurn(l, table).rt.cpu)
  {
  }

  lemma CallTurnKeeps(o: Options, l: Loop, table: u32)
    requires LoopOk(o, l) && Continues(o, l) && TableAt(l.rt.cpu.pc) == Some(table)
    ensures LoopOk(o, CallTurn(l, table))
  {
    hide TableAt, Dispatch, PipelineOk;
    var key := (table, l.rt.cpu.gpr[9]);
    assert PipelineOk(CallTurn(l, table).rt.cpu) by { ReturnKeepsPipeline(l, table); }
    if o.stallLimit != 0 {
      if key in l.seenBios {
        assert l.seenBios + {key} == l.seenBios;
      } else {
        NewDependency(l.report.retired, |l.seenBios| + |l.seenMmio|, l.sinceProgress, o.stallLimit);
        assert |l.seenBios + {key}| == |l.seenBios| + 1;
      }
    }
  }

  lemma ProgressByOne(limit: nat, l: Loop, next: Loop)
    requires limit > 0 && ProgressOk(limit, l) && l.report.stop == Running
    requires next.report.retired == l.report.retired + 1 && next.seenBios == l.seenBios
    requires (next.seenMmio == l.seenMmio && next.sinceProgress == l.sinceProgress + 1)
          || (next.sinceProgress == 0 && exists key :: key !in l.seenMmio && next.seenMmio == l.seenMmio + {key})
    requires next.report.stop == Running ==> next.sinceProgress < limit
    ensures ProgressOk(limit, next)
  {
    NewDependency(l.report.retired + 1, Dependencies(l), l.sinceProgress + 1, limit);
  }

  lemma RetiredTurnKeeps(o: Options, l: Loop, rt: Runtime, report: Report)
    requires LoopOk(o, l) && Continues(o, l)
    requires PipelineOk(rt.cpu) && rt.bus.probeEnabled == o.probe
    requires report.retired == l.report.retired && report.stop == Running
    ensures LoopOk(o, RetiredTurn(o, l, rt, report))
  {
    hide PipelineOk;
    if o.stallLimit != 0 {
      var next := RetiredTurn(o, l, rt, report);
      match rt.bus.lastProbe {
        case Some(p) =>
          var key := (p.physical, p.width, p.write);
          assert key in l.seenMmio ==> l.seenMmio + {key} == l.seenMmio;
        case None =>
      }
      hide ProgressOk;
      ProgressByOne(o.stallLimit, l, next);
    }
  }

  lemma StepTurnKeeps(o: Options, l: Loop)
    requires LoopOk(o, l) && Continues(o, l)
    ensures LoopOk(o, StepTurn(o, l))
  {
    var cpu, opcode := l.rt.cpu, OpcodeAt(l.rt.bus, l.rt.cpu.pc);
    var out := Step(Ps1Bus(), cpu, Observed(l.rt.bus));
    StepIsPrecise(Ps1Bus(), cpu, Observed(l.rt.bus));
    StepKeepsProbe(cpu, Observed(l.rt.bus));
    PreciseMeansOk(cpu, out);
    hide Step, IsPreciseStep, PipelineOk, OpcodeAt, RetiredTurn, GuestToPhysical;
    if out.result.Retired? {
      RetiredTurnKeeps(o, l, Runtime(out.cpu, out.bus, l.rt.bios, false),
        l.report.(lastPc := cpu.pc, lastOpcode := opcode, trace := l.report.trace + [TraceSample(cpu.pc, opcode)]));
    }
  }

  /** Over the whole run: the pipeline stays consistent, the budget is respected, a BIOS stop leaves a frontier,
      and with a stall limit no more than that many instructions retire per dependency, plus once more. */
  lemma {:induction false} RunKeeps(o: Options, l: Loop, n: nat)
    requires LoopOk(o, l)
    ensures LoopOk(o, After(o, l, n))
    ensures o.stallLimit != 0 ==> After(o, l, n).report.retired <= (Dependencies(After(o, l, n)) + 1) * o.stallLimit
    decreases n
  {
    hide LoopOk, CallTurn, StepTurn;
    if n > 0 && Continues(o, l) {
      match TableAt(l.rt.cpu.pc) {
        case Some(table) => CallTurnKeeps(o, l, table);
        case None => StepTurnKeeps(o, l);
      }
      RunKeeps(o, Iterate(o, l), n - 1);
    }
    OkBoundsRetired(o, After(o, l, n));
  }

  lemma RunKeepsProbe(rt: Runtime, o: Options, n: nat)
    requires PipelineOk(rt.cpu)
    ensures forall budget: nat :: Start(rt, o.(budget := budget)) == Start(rt, o)
    ensures After(o, Start(rt, o), n).rt.bus.probeEnabled == o.probe
  {
    hide After, PipelineOk;
    StartIsOk(rt, o);
    RunKeeps(o, Start(rt, o), n);
  }

  lemma OkBoundsRetired(o: Options, l: Loop)
    ensures LoopOk(o, l) && o.stallLimit != 0 ==> l.report.retired <= (Dependencies(l) + 1) * o.stallLimit
  {
    if LoopOk(o, l) && o.stallLimit != 0 {
      NewDependency(l.report.retired, Dependencies(l), l.sinceProgress, o.stallLimit);
    }
  }

  // ----- Splitting a run into segments -----

  /** Everything but the note of the last diagnostic probe. */
  function Forget(rt: Runtime): Runtime {
    rt.(bus := rt.bus.(lastProbe := None))
  }

  /** Two loops with the same machine, up to that note, and the same budget left. */
  ghost predicate Twins(o1: Options, l1: Loop, o2: Options, l2: Loop) {
    && o1.stallLimit == o2.stallLimit == 0
    && Forget(l1.rt) == Forget(l2.rt)
    && l1.report.stop == l2.report.stop
    && o1.budget - l1.report.retired == o2.budget - l2.report.retired
  }

  /** Some turn among the next `n` steps the processor. */
  predicate StepsWithin(o: Options, l: Loop, n: nat)
    decreases n
  {
    n > 0 && Continues(o, l) && (TableAt(l.rt.cpu.pc).None? || StepsWithin(o, Iterate(o, l), n - 1))
  }

  lemma TurnKeepsTwins(o1: Options, l1: Loop, o2: Options, l2: Loop)
    requires Twins(o1, l1, o2, l2) && Continues(o1, l1)
    ensures Continues(o2, l2) && Twins(o1, Iterate(o1, l1), o2, Iterate(o2, l2))
    ensures TableAt(l1.rt.cpu.pc) == TableAt(l2.rt.cpu.pc)
    ensures TableAt(l1.rt.cpu.pc).None? || l1.rt == l2.rt ==> Iterate(o1, l1).rt == Iterate(o2, l2).rt
    ensures TableAt(l1.rt.cpu.pc).Some? ==> Iterate(o1, l1).rt.bus == l1.rt.bus && Iterate(o2, l2).rt.bus == l2.rt.bus
  {
    hide Step, TableAt, Dispatch, Read, GuestToPhysical;
    assert l1.rt.cpu == l2.rt.cpu && l1.rt.bios == l2.rt.bios && Observed(l1.rt.bus) == Observed(l2.rt.bus);
  }

  lemma {:induction false} TwinsStayTwins(o1: Options, l1: Loop, o2: Options, l2: Loop, n: nat)
    requires Twins(o1, l1, o2, l2)
    ensures Twins(o1, After(o1, l1, n), o2, After(o2, l2, n))
    ensures StepsWithin(o1, l1, n) == StepsWithin(o2, l2, n)
    ensures StepsWithin(o1, l1, n) || l1.rt == l2.rt ==> After(o1, l1, n).rt == After(o2, l2, n).rt
    ensures !StepsWithin(o1, l1, n) ==> After(o1, l1, n).rt.bus == l1.rt.bus && After(o2, l2, n).rt.bus == l2.rt.bus
    decreases n
  {
    hide Iterate, TableAt, Forget;
    if n > 0 && Continues(o1, l1) {
      TurnKeepsTwins(o1, l1, o2, l2);
      TwinsStayTwins(o1, Iterate(o1, l1), o2, Iterate(o2, l2), n - 1);
    }
  }

  /** A larger budget takes the same turns as long as the smaller one lasts. */
  lemma {:induction false} LargerBudgetFollows(o: Options, l: Loop, more: nat, n: nat)
    requires o.budget <= more
    ensures exists k: nat :: k <= n && After(o, l, n) == After(o.(budget := more), l, k)
    decreases n
  {
    hide CallTurn, StepTurn, TableAt;
    var o' := o.(budget := more);
    if n > 0 && Continues(o, l) {
      assert Iterate(o', l) == Iterate(o, l) by { BudgetDoesNotMatter(o, l, more); }
      LargerBudgetFollows(o, Iterate(o, l), more, n - 1);
      var k: nat :| k <= n - 1 && After(o, Iterate(o, l), n - 1) == After(o', Iterate(o, l), k);
      assert After(o', l, k + 1) == After(o', Iterate(o', l), k);
    } else {
      assert After(o, l, n) == l == After(o', l, 0);
    }
  }

  lemma BudgetDoesNotMatter(o: Options, l: Loop, budget: nat)
    ensures Iterate(o.(budget := budget), l) == Iterate(o, l)
  {
    hide Step, TableAt, Dispatch, Read, GuestToPhysical;
  }

  /** Going on from a loop that has retired `m`, against starting a run anew on its machine. */
  lemma FreshRunFollows(l: Loop, o: Options, m: nat, n: nat, more: nat)
    requires o.stallLimit == 0 && l.rt.bus.probeEnabled == o.probe && l.report.stop == Running && l.report.retired == m
    ensures var on := o.(budget := n);
      var whole, second := After(o.(budget := m + n), l, more), After(on, Start(l.rt, o), more);
      && Forget(whole.rt) == Forget(second.rt)
      && whole.report.stop == second.report.stop && whole.report.retired == m + second.report.retired
      && (whole.rt == second.rt <==> l.rt.bus.lastProbe == None || StepsWithin(on, Start(l.rt, o), more))
  {
    var on, all := o.(budget := n), o.(budget := m + n);
    var again := Start(l.rt, o);
    assert again.rt == Forget(l.rt);
    assert Twins(all, l, on, again);
    hide Iterate, After, Start, StepsWithin;
    TwinsStayTwins(all, l, on, again, more);
  }

  /** Running `m` instructions and then `n` more, against running `m + n` at once, without a stall limit: if the
      first run ended on its budget, after `k` turns of its own, both then go on turn by turn to the same machine
      up to the note of the last diagnostic probe, with the same outcome. The machines are equal outright exactly
      when no note was pending at the split, or the second run steps the processor at least once. */
  lemma SegmentsCompose(rt: Runtime, o: Options, m: nat, n: nat, turns: nat, more: nat) returns (k: nat)
    requires o.stallLimit == 0 && PipelineOk(rt.cpu)
    requires var l := After(o.(budget := m), Start(rt, o), turns); l.report.stop == Running && l.report.retired == m
    ensures var split := After(o.(budget := m), Start(rt, o), turns).rt;
      var second := After(o.(budget := n), Start(split, o), more);
      var whole := After(o.(budget := m + n), Start(rt, o), k + more);
      && k <= turns
      && Forget(whole.rt) == Forget(second.rt)
      && whole.report.stop == second.report.stop && whole.report.retired == m + second.report.retired
      && (whole.rt == second.rt <==> split.bus.lastProbe == None || StepsWithin(o.(budget := n), Start(split, o), more))
  {
    hide *;
    var om, all := o.(budget := m), o.(budget := m + n);
    var first := Start(rt, o);
    var l := After(om, first, turns);
    RunKeepsProbe(rt, om, turns);
    LargerBudgetFollows(om, first, m + n, turns);
    k :| k <= turns && l == After(om.(budget := m + n), first, k);
    AfterSplits(all, first, k, more);
    FreshRunFollows(l, o, m, n, more);
  }

  lemma LoadWordRetires(cpu: Cpu, m: Memory, raw: u32)
    requires cpu.cop0.status % 2 == 0 && cpu.pc % 4 == 0 && !cpu.delaySlot.active && cpu.gpr[0] == 0
    requires Read(m, cpu.pc, 4) == Reply(Ok, raw, m) && Decode(raw).op == Load(Lw)
    requires var a := EffectiveAddress(cpu.gpr[Decode(raw).rs], Decode(raw).immediate); a % 4 == 0 && Read(m, a, 4).status == Ok
    ensures var i := Decode(raw);
      var out := Step(Ps1Bus(), cpu, m);
      && out.result == Retired && out.cpu.pc == cpu.nextPc && (!cpu.pendingLoad.valid ==> out.cpu.gpr == cpu.gpr)
      && out.bus == Read(m, EffectiveAddress(cpu.gpr[i.rs], i.immediate), 4).bus
  {
    hide Read, Decode, EffectiveAddress, SampledCause;
    assert Sampled(cpu).gpr == cpu.gpr;
  }

  /** `lw r1, 0x1000(r2)`, standing right before the A0 table, reads the first probed address; the call that follows
      is not implemented. */
  ghost predicate AboutToProbe(rt: Runtime) {
    && rt.bus.ram[0x9C] == 0x00 && rt.bus.ram[0x9D] == 0x10 && rt.bus.ram[0x9E] == 0x41 && rt.bus.ram[0x9F] == 0x8C
    && rt.bus.probeEnabled && rt.bus.lastProbe == rt.bus.lastUnsupported == None
    && PipelineOk(rt.cpu) && !rt.cpu.delaySlot.active && !rt.cpu.pendingLoad.valid && rt.cpu.cop0.status % 2 == 0
    && rt.cpu.pc == 0x9C && rt.cpu.gpr[2] == 0x1F80_0000
    && rt.cpu.gpr[9] != 0x39 && rt.cpu.gpr[9] != 0x56 && rt.cpu.gpr[9] != 0x72
  }

  lemma ProbingDecodes()
    ensures var i := Decode(0x8C41_1000); i.op == Load(Lw) && i.rs == 2 && i.rt == 1 && i.immediate == 0x1000
  {
  }

  lemma ProbingReads(rt: Runtime)
    requires AboutToProbe(rt)
    ensures Read(rt.bus, 0x9C, 4) == Reply(Ok, 0x8C41_1000, rt.bus)
    ensures var r := Read(rt.bus, 0x1F80_1000, 4); r.status == Ok && r.bus.lastProbe.Some?
  {

    assert MappedPlace(0x9C, 4) == Ram(0x9C);
    assert ReadLittleEndian(rt.bus.ram, 0x9C, 4) == Join(0x00, 0x10, 0x41, 0x8C);
  }

  lemma ProbingSteps(rt: Runtime)
    requires AboutToProbe(rt)
    ensures var out := Step(Ps1Bus(), rt.cpu, rt.bus);
      out.result == Retired && out.bus.lastProbe.Some? && out.cpu.pc == 0xA0 && out.cpu.gpr == rt.cpu.gpr
  {
    ProbingDecodes();
    ProbingReads(rt);
    assert EffectiveAddress(rt.cpu.gpr[2], 0x1000) == 0x1F80_1000;
    hide Read, Decode, Step, EffectiveAddress;
    LoadWordRetires(rt.cpu, rt.bus, 0x8C41_1000);
  }

  /** The first instruction of such a run, under any budget. */
  lemma ProbingTurn(rt: Runtime, o: Options)
    requires AboutToProbe(rt) && o.probe && o.stallLimit == 0 && o.budget > 0
    ensures var l := Iterate(o, Start(rt, o));
      && After(o, Start(rt, o), 1) == l && l.report.stop == Running && l.report.retired == 1
      && l.rt.bus.lastProbe != None && l.rt.bus.probeEnabled && AtUnknownCall(l.rt)
  {
    ProbingSteps(rt);
    var first := Start(rt, o);
    hide Step, OpcodeAt;
    assert first.rt == rt && Observed(rt.bus) == rt.bus;
    assert TableAt(0x9C) == None && TableAt(0xA0) == Some(A0);
    assert After(o, first, 1) == After(o, Iterate(o, first), 0) == Iterate(o, first);
  }

  ghost predicate AtUnknownCall(rt: Runtime) {
    TableAt(rt.cpu.pc) == Some(A0) && Dispatch(rt.bios, rt.cpu, A0, rt.cpu.gpr[9]) == None
  }

  /** A run that goes on at an unimplemented call ends there, with its machine as it was but for the frontier. */
  lemma UnknownCallEnds(o: Options, l: Loop)
    requires AtUnknownCall(l.rt) && Continues(o, l)
    ensures var last := After(o, l, 1);
      !Continues(o, last) && last.report.stop == BiosCallUnimplemented && last.rt == l.rt.(frontierPending := true)
  {
    hide TableAt, Dispatch;
    assert After(o, l, 1) == After(o, Iterate(o, l), 0) == CallTurn(l, A0);
  }

  lemma ProbingRunEnds(rt: Runtime, o: Options, n: nat)
    requires AboutToProbe(rt) && o.probe && o.stallLimit == 0 && n > 0
    ensures var all, first := o.(budget := 1 + n), Start(rt, o);
      var l := Iterate(o.(budget := 1), first);
      && Halts(all, first) && Final(all, first).report.stop == BiosCallUnimplemented
      && Final(all, first).rt == l.rt.(frontierPending := true)
  {
    var all, first := o.(budget := 1 + n), Start(rt, o);
    ProbingTurn(rt, all);
    BudgetDoesNotMatter(all, first, 1);
    assert Start(rt, all) == first && all.(budget := 1) == o.(budget := 1);
    hide Iterate, After, Start, AtUnknownCall, AboutToProbe, Halts, Final;
    UnknownCallEnds(all, Iterate(all, first));
    AfterSplits(all, first, 1, 1);
    FinalIs(all, first, 2);
  }

  lemma UnknownCallRunEnds(rt: Runtime, o: Options)
    requires AtUnknownCall(rt) && o.budget > 0
    ensures var again := Start(rt, o);
      Halts(o, again) && Final(o, again).report.stop == BiosCallUnimplemented && Final(o, again).rt == again.rt.(frontierPending := true)
  {
    var again := Start(rt, o);
    assert AtUnknownCall(again.rt);
    hide Iterate, After, Start, AtUnknownCall, Halts, Final, TableAt, Dispatch;
    UnknownCallEnds(o, again);
    FinalIs(o, again, 1);
  }

  lemma FreshStart(rt: Runtime, o: Options, budget: nat)
    ensures Start(rt, o.(budget := budget)) == Start(rt, o)
    ensures rt.bus.probeEnabled == o.probe ==> Start(rt, o).rt == Forget(rt)
  {
  }

  lemma NoteTells(kept: Runtime, lost: Runtime)
    requires kept.bus.lastProbe != None && lost == Forget(kept)
    ensures var k, l := kept.(frontierPending := true), lost.(frontierPending := true); Forget(k) == Forget(l) && k != l
  {
  }

  /** The exception in SegmentsCompose is real: such a run of one instruction, and then a run to its end, leave another
      machine than one run to the end. Both have ended at the same call, but only the single run still holds the note
      of the probe. */
  lemma SplitCanLoseProbeNote(rt: Runtime, o: Options, n: nat)
    requires AboutToProbe(rt) && o.probe && o.stallLimit == 0 && n > 0
    ensures var one, rest, all := o.(budget := 1), o.(budget := n), o.(budget := 1 + n);
      && Halts(one, Start(rt, o)) && Halts(all, Start(rt, o))
      && var split := Final(one, Start(rt, o));
      && split.report.stop == Running && split.report.retired == 1 && Halts(rest, Start(split.rt, o))
      && var second, whole := Final(rest, Start(split.rt, o)), Final(all, Start(rt, o));
      && second.report.stop == whole.report.stop == BiosCallUnimplemented
      && Forget(second.rt) == Forget(whole.rt) && second.rt != whole.rt
  {
    var one, rest := o.(budget := 1), o.(budget := n);
    var first := Start(rt, o);
    ProbingTurn(rt, one);
    var l := Iterate(one, first);
    FreshStart(rt, o, 1);
    FreshStart(l.rt, o, n);
    NoteTells(l.rt, Start(l.rt, o).rt);
    hide Iterate, After, Start, AtUnknownCall, AboutToProbe, Halts, Final, Forget;
    FinalIs(one, first, 1);
    ProbingRunEnds(rt, o, n);
    UnknownCallRunEnds(l.rt, rest);
  }
}
