/** The BIOS calls handled without a BIOS image (core/ps1_hle_bios.cpp). */
module HleBios {
  import opened Outcomes
  import opened Words
  import opened R3000a

  const A0 := 0xA0
  const B0 := 0xB0
  const C0 := 0xC0

  datatype Heap = Heap(base: u32, size: u32)

  type Counters = s: seq<Option<bool>> | |s| == 4 witness [None, None, None, None]

  datatype Bios = Bios(heap: Option<Heap>, interruptHook: Option<u32>, padCardAutoAck: Option<bool>,
                       rootCounterAutoAck: Counters, iso9660Removed: bool)

  /** Control returns to r31, outside any delay slot. */
  function ReturnFromCall(cpu: Cpu): Cpu {
    var ra: u32 := cpu.gpr[31];
    cpu.(gpr := cpu.gpr[0 := 0], pc := ra, nextPc := Wrap(ra as int + 4), delaySlot := NO_SLOT)
  }

  /** The call's effect, or nothing when it is not implemented. */
  function Dispatch(bios: Bios, cpu: Cpu, table: u32, selector: u32): Option<(Bios, Cpu)> {
    if table == A0 && selector == 0x39 then
      Some((bios.(heap := Some(Heap(cpu.gpr[4], cpu.gpr[5]))), ReturnFromCall(cpu)))
    else if table == A0 && (selector == 0x56 || selector == 0x72) then
      Some((bios.(iso9660Removed := true), ReturnFromCall(cpu)))
    else if table == B0 && selector == 0x19 then
      Some((bios.(interruptHook := Some(cpu.gpr[4])), ReturnFromCall(cpu)))
    else if table == B0 && selector == 0x5B then
      Some((bios.(padCardAutoAck := Some(cpu.gpr[4] != 0)), ReturnFromCall(cpu)))
    else if table == C0 && selector == 0x0A && cpu.gpr[4] < 4 then
      var index := cpu.gpr[4];
      var previous := bios.rootCounterAutoAck[index] == Some(true);
      Some((bios.(rootCounterAutoAck := bios.rootCounterAutoAck[index := Some(cpu.gpr[5] != 0)]),
            ReturnFromCall(cpu.(gpr := cpu.gpr[2 := Flag(previous)]))))
    else None
  }

  /** A selector is implemented in one table only. */
  lemma OneTablePerSelector(bios: Bios, cpu: Cpu, bios': Bios, cpu': Cpu, t: u32, t': u32, selector: u32)
    requires Dispatch(bios, cpu, t, selector).Some? && Dispatch(bios', cpu', t', selector).Some?
    ensures t == t'
  {
  }

  /** What a handled call leaves alone: everything it would need to be called again. */
  lemma HandledCallRepeats(bios: Bios, cpu: Cpu, table: u32, selector: u32)
    requires Dispatch(bios, cpu, table, selector).Some?
    ensures var (bios', cpu') := Dispatch(bios, cpu, table, selector).value;
      && cpu'.pc == cpu.gpr[31] && cpu'.gpr[31] == cpu.gpr[31] && cpu'.gpr[9] == cpu.gpr[9]
      && Dispatch(bios', cpu', table, selector).Some?
  {
  }

  class Ps1HleBios {
    var heap: Option<Heap>
    var interruptHook: Option<u32>
    var padCardAutoAck: Option<bool>
    var rootCounterAutoAck: Counters
    var iso9660Removed: bool

    function View(): Bios
      reads this
    {
      Bios(heap, interruptHook, padCardAutoAck, rootCounterAutoAck, iso9660Removed)
    }

    constructor ()
      ensures View() == Bios(None, None, None, [None, None, None, None], false)
    {
      heap, interruptHook, padCardAutoAck := None, None, None;
      rootCounterAutoAck := [None, None, None, None];
      iso9660Removed := false;
    }

    /** An unimplemented call changes neither the BIOS state nor the processor. */
    method DispatchCall(cpu: Cpu, table: u32, selector: u32) returns (handled: bool, after: Cpu)
      modifies this
      ensures match Dispatch(old(View()), cpu, table, selector)
              case Some(result) => handled && View() == result.0 && after == result.1
              case None => !handled && View() == old(View()) && after == cpu
    {
      after := cpu;
      if table == A0 && selector == 0x39 {
        heap := Some(Heap(cpu.gpr[4], cpu.gpr[5]));
      } else if table == A0 && (selector == 0x56 || selector == 0x72) {
        iso9660Removed := true;
      } else if table == B0 && selector == 0x19 {
        interruptHook := Some(cpu.gpr[4]);
      } else if table == B0 && selector == 0x5B {
        padCardAutoAck := Some(cpu.gpr[4] != 0);
      } else if table == C0 && selector == 0x0A {
        if cpu.gpr[4] >= |rootCounterAutoAck| {
          return false, cpu;
        }
        var index := cpu.gpr[4];
        var previous := rootCounterAutoAck[index] == Some(true);
        rootCounterAutoAck := rootCounterAutoAck[index := Some(cpu.gpr[5] != 0)];
        after := after.(gpr := after.gpr[2 := Flag(previous)]);
      } else {
        return false, cpu;
      }
      after := ReturnFromCall(after);
      handled := true;
    }
  }
}
