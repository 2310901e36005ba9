/** Ps1BootRuntime (core/ps1_boot_runtime.cpp) as an object: the processor and the BIOS updated in place, and
    histories that keep only their most recent events. */
module BootRuntimeDevice {
  import opened Outcomes
  import opened Words
  import opened R3000a
  import opened R3000aPipeline
  import opened R3000aExecutor
  import opened MemoryBus
  import opened HleBios
  import opened BootRuntime

  // ----- Bounded histories -----

  function LastOf<T>(log: seq<T>, capacity: nat): seq<T> {
    if |log| <= capacity then log else log[|log| - capacity..]
  }

  /** A full history drops its oldest event first; it always is the end of the whole log. */
  method RecordRecent<T>(recent: seq<T>, event: T, capacity: nat, ghost log: seq<T>) returns (r: seq<T>)
    requires recent == LastOf(log, capacity)
    ensures r == LastOf(log + [event], capacity)
  {
    r := recent;
    if capacity == 0 {
      return;
    }
    if |r| == capacity {
      r := r[1..];
    }
    r := r + [event];
  }

  // ----- The report a caller sees -----

  datatype BootReport = BootReport(retired: nat, lastPc: u32, lastOpcode: Option<u32>, stop: StopReason, probeMode: bool,
                                   speculativeMmioCount: nat, biosCallCount: nat, interruptsAccepted: nat,
                                   recentBiosCalls: seq<BiosCall>, recentMmio: seq<Mmio>, recentTrace: seq<TraceSample>,
                                   failure: Option<StepResult>, unsupported: Option<BusAccess>)

  function SpeculativeCount(mmio: seq<Mmio>): nat {
    if mmio == [] then 0 else SpeculativeCount(mmio[..|mmio| - 1]) + if mmio[|mmio| - 1].speculative then 1 else 0
  }

  /** What is kept of a report that forgets nothing. */
  function Summary(o: Options, r: Report): BootReport {
    BootReport(r.retired, r.lastPc, r.lastOpcode, r.stop, o.probe, SpeculativeCount(r.mmio), |r.calls|, r.interruptsAccepted,
               LastOf(r.calls, o.biosCapacity), LastOf(r.mmio, o.mmioCapacity), LastOf(r.trace, o.traceCapacity),
               r.failure, r.unsupported)
  }

  /** A run that was not stopped has used up its budget. */
  function Finished(r: Report): Report {
    if r.stop == Running then r.(stop := BudgetExhausted) else r
  }

  lemma OneMore(mmio: seq<Mmio>, event: Mmio)
    ensures SpeculativeCount(mmio + [event]) == SpeculativeCount(mmio) + if event.speculative then 1 else 0
  {
    assert (mmio + [event])[..|mmio|] == mmio;
  }

  // ----- Diagnostic answers to an unimplemented call -----

  datatype Fallback = ReturnZero | ReturnOne | ReturnMinusOne | PreserveV0

  function Answered(cpu: Cpu, fallback: Fallback): Cpu {
    ReturnFromCall(match fallback
                   case ReturnZero => cpu.(gpr := cpu.gpr[2 := 0])
                   case ReturnOne => cpu.(gpr := cpu.gpr[2 := 1])
                   case ReturnMinusOne => cpu.(gpr := cpu.gpr[2 := 0xFFFF_FFFF])
                   case PreserveV0 => cpu)
  }

  /** A fallback is accepted exactly where a run can have stopped at an unimplemented call. */
  predicate AtFrontier(rt: Runtime) {
    rt.frontierPending && TableAt(rt.cpu.pc).Some?
  }

  function FallbackApplied(rt: Runtime, fallback: Fallback): Runtime {
    rt.(cpu := if AtFrontier(rt) then Answered(rt.cpu, fallback) else rt.cpu, frontierPending := false)
  }

  lemma AnswerKeepsPipeline(cpu: Cpu, fallback: Fallback)
    requires PipelineOk(cpu)
    ensures PipelineOk(Answered(cpu, fallback)) && Answered(cpu, fallback).pc == cpu.gpr[31]
    ensures Answered(cpu, fallback).gpr == cpu.gpr[2 := Answered(cpu, fallback).gpr[2]]
  {
  }

  /** What a finished run leaves: a consistent processor within the budget; and after a stop at an unimplemented
      call, a frontier where every fallback is accepted, once, and goes back to the caller. */
  lemma FinishedRun(rt: Runtime, o: Options, fallback: Fallback)
    requires PipelineOk(rt.cpu) && Halts(o, Start(rt, o))
    ensures var last := Final(o, Start(rt, o));
      && PipelineOk(last.rt.cpu) && last.report.retired <= o.budget
      && (last.report.stop == Running ==> last.report.retired == o.budget)
      && (last.report.stop == BiosCallUnimplemented ==> AtFrontier(last.rt))
      && (AtFrontier(last.rt) ==>
            var next := FallbackApplied(last.rt, fallback);
            && !AtFrontier(next) && PipelineOk(next.cpu) && next.cpu.pc == last.rt.cpu.gpr[31]
            && next == last.rt.(cpu := next.cpu, frontierPending := false))
  {
    hide After, PipelineOk, Answered, TableAt, Start;
    var n := EndsWithin(o, Start(rt, o));
    FinalIs(o, Start(rt, o), n);
    assert LoopOk(o, Start(rt, o)) by { StartIsOk(rt, o); }
    RunKeeps(o, Start(rt, o), n);
    AnswerKeepsPipeline(Final(o, Start(rt, o)).rt.cpu, fallback);
  }

  class Ps1BootRuntime {
    const cpu: R3000aState
    const bios: Ps1HleBios
    var bus: Memory
    var frontierPending: bool

    function View(): Runtime
      reads this, cpu, bios
    {
      Runtime(cpu.View(), bus, bios.View(), frontierPending)
    }

    constructor (entryPc: u32, initialGp: u32, stackBase: u32, stackSize: u32, image: Memory)
      ensures fresh(cpu) && fresh(bios)
      ensures View() == Runtime(Initial(entryPc, initialGp, stackBase, stackSize), image, Bios(None, None, None, [None, None, None, None], false), false)
      ensures PipelineOk(View().cpu)
    {
      cpu := new R3000aState(entryPc, initialGp, stackBase, stackSize);
      bios := new Ps1HleBios();
      bus, frontierPending := image, false;
      new;
      InitialIsOk(entryPc, initialGp, stackBase, stackSize);
    }

    /** At a BIOS table. */
    method RunBiosCall(o: Options, table: u32, before: BootReport, ghost l: Loop) returns (report: BootReport)
      requires l.rt == View() && before == Summary(o, l.report)
      modifies this, cpu, bios
      ensures View() == CallTurn(l, table).rt && report == Summary(o, CallTurn(l, table).report)
    {
      hide Dispatch, LastOf, SpeculativeCount;
      report := before.(lastPc := cpu.pc, biosCallCount := before.biosCallCount + 1);
      var event := BiosCall(cpu.pc, table, cpu.gpr[9], cpu.gpr[4], cpu.gpr[5], cpu.gpr[6], cpu.gpr[7], cpu.gpr[31]);
      var recent := RecordRecent(report.recentBiosCalls, event, o.biosCapacity, l.report.calls);
      report := report.(recentBiosCalls := recent);
      var handled, after := bios.DispatchCall(cpu.View(), table, cpu.gpr[9]);
      cpu.Assign(after);
      frontierPending := !handled;
      if !handled {
        report := report.(stop := BiosCallUnimplemented);
      }
    }

    /** Anywhere else: what the instruction met is added to the report and to the progress bookkeeping. */
    method RunInstruction(o: Options, before: BootReport, sinceProgress: nat, observed: set<(u32, Width, bool)>, ghost l: Loop)
      returns (report: BootReport, since: nat, seenMmio: set<(u32, Width, bool)>)
      requires l.rt == View() && before == Summary(o, l.report) && sinceProgress == l.sinceProgress && observed == l.seenMmio
      modifies this, cpu
      ensures var next := StepTurn(o, l);
        View() == next.rt && report == Summary(o, next.report) && since == next.sinceProgress && seenMmio == next.seenMmio
    {
      hide Step, Read, GuestToPhysical, InMmioWindow, LastOf, SpeculativeCount, OpcodeAt, PipelineOk;
      frontierPending := false;
      since, seenMmio := sinceProgress, observed;
      var pc := cpu.pc;
      var opcode := OpcodeAt(bus, pc);
      report := before.(lastPc := pc, lastOpcode := opcode);
      var trace := RecordRecent(report.recentTrace, TraceSample(pc, opcode), o.traceCapacity, l.report.trace);
      report := report.(recentTrace := trace);
      bus := bus.(lastUnsupported := None, lastProbe := None);
      var result, after := cpu.StepR3000a(Ps1Bus(), bus);
      bus := after;
      ghost var next := StepTurn(o, l);
      if result.Retired? {
        report := report.(retired := report.retired + 1);
        since := since + 1;
        if bus.lastProbe.Some? {
          var p := bus.lastProbe.value;
          var event := Mmio(pc, p.guest, p.width, p.write, p.value, true);
          OneMore(l.report.mmio, event);
          var recent := RecordRecent(report.recentMmio, event, o.mmioCapacity, l.report.mmio);
          report := report.(speculativeMmioCount := report.speculativeMmioCount + 1, recentMmio := recent);
          if (p.physical, p.width, p.write) !in seenMmio {
            since := 0;
          }
          seenMmio := seenMmio + {(p.physical, p.width, p.write)};
        }
        if o.stallLimit != 0 && since >= o.stallLimit {
          report := report.(stop := DiagnosticStall);
        }
      } else {
        report := report.(failure := Some(result), unsupported := bus.lastUnsupported);
        if result.Exception? && result.code == Interrupt {
          report := report.(interruptsAccepted := report.interruptsAccepted + 1);
        }
        if bus.lastUnsupported.Some? {
          var a := bus.lastUnsupported.value;
          var physical := GuestToPhysical(a.guest);
          if physical.Some? && InMmioWindow(physical.value) {
            var event := Mmio(result.pc, a.guest, a.width, a.write, a.value, false);
            OneMore(l.report.mmio, event);
            var recent := RecordRecent(report.recentMmio, event, o.mmioCapacity, l.report.mmio);
            report := report.(stop := MmioUnimplemented, recentMmio := recent);
            return;
          }
        }
        report := report.(stop := CpuBoundary);
      }
    }

    /** Runs until the budget is spent or something stops the run. What is promised of the caller is that the
        run ends at all: BootRuntime.HaltsExactlyWhenNeverTrapped says when it does. */
    method Run(o: Options) returns (report: BootReport)
      requires Halts(o, Start(View(), o))
      modifies this, cpu, bios
      ensures var last := Final(o, Start(old(View()), o));
        View() == last.rt && report == Summary(o, Finished(last.report))
    {
      hide After, StepTurn, CallTurn, TableAt, Halts, Final, PipelineOk;
      ghost var first := Start(View(), o);
      ghost var turns: nat := EndsWithin(o, first);
      ghost var done: nat, l := 0, first;
      report := BootReport(0, cpu.pc, None, Running, o.probe, 0, 0, 0, [], [], [], None, None);
      bus := WithProbe(bus, o.probe);
      var since: nat, seenBios: set<(u32, u32)>, seenMmio: set<(u32, Width, bool)> := 0, {}, {};
      AfterNothing(o, first);
      while report.retired < o.budget
        invariant done <= turns && l == After(o, first, done)
        invariant l.rt == View() && report == Summary(o, l.report) && report.stop == Running
        invariant since == l.sinceProgress && seenBios == l.seenBios && seenMmio == l.seenMmio
        decreases turns - done
      {
        OneMoreTurn(o, first, done, turns);
        var table := TableAt(cpu.pc);
        if table.Some? {
          var key := (table.value, cpu.gpr[9]);
          if key !in seenBios {
            since := 0;
          }
          seenBios := seenBios + {key};
          CallTurnProgress(l, table.value);
          report := RunBiosCall(o, table.value, report, l);
        } else {
          report, since, seenMmio := RunInstruction(o, report, since, seenMmio, l);
          StepTurnCalls(o, l);
        }
        l, done := Iterate(o, l), done + 1;
        if report.stop != Running {
          FinalIs(o, first, done);
          return;
        }
      }
      FinalIs(o, first, done);
      report := report.(stop := BudgetExhausted);
    }

    method ApplyDiagnosticBiosFallback(fallback: Fallback) returns (accepted: bool)
      modifies this, cpu
      ensures accepted == AtFrontier(old(View()))
      ensures View() == FallbackApplied(old(View()), fallback)
    {
      hide TableAt;
      if !frontierPending {
        return false;
      }
      if TableAt(cpu.pc).None? {
        frontierPending := false;
        return false;
      }
      match fallback {
        case ReturnZero => cpu.WriteGpr(2, 0);
        case ReturnOne => cpu.WriteGpr(2, 1);
        case ReturnMinusOne => cpu.WriteGpr(2, 0xFFFF_FFFF);
        case PreserveV0 =>
      }
      cpu.Assign(ReturnFromCall(cpu.View()));
      frontierPending := false;
      return true;
    }
  }

  ghost function EndsWithin(o: Options, l: Loop): (n: nat)
    requires Halts(o, l)
    ensures !Continues(o, After(o, l, n))
  {
    var n: nat :| !Continues(o, After(o, l, n));
    n
  }

  lemma AfterNothing(o: Options, l: Loop)
    ensures After(o, l, 0) == l
  {
  }

  lemma OneMoreTurn(o: Options, l: Loop, done: nat, turns: nat)
    requires Continues(o, After(o, l, done)) && !Continues(o, After(o, l, turns)) && done <= turns
    ensures done < turns && After(o, l, done + 1) == Iterate(o, After(o, l, done))
  {
    hide Iterate, Continues;
    AfterSplits(o, l, done, 1);
    assert After(o, After(o, l, done), 1) == After(o, Iterate(o, After(o, l, done)), 0);
  }

  lemma CallTurnProgress(l: Loop, table: u32)
    ensures var key := (table, l.rt.cpu.gpr[9]);
      var next := CallTurn(l, table);
      && next.sinceProgress == (if key in l.seenBios then l.sinceProgress else 0)
      && next.seenBios == l.seenBios + {key} && next.seenMmio == l.seenMmio
  {
    hide Dispatch;
  }

  lemma StepTurnCalls(o: Options, l: Loop)
    ensures StepTurn(o, l).seenBios == l.seenBios
  {
    hide Step, OpcodeAt;
  }
}
