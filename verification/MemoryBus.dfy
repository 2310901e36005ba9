/** The PS1 memory bus of core/ps1_memory_bus.cpp: main RAM and scratchpad behind aliased segments, a
    few registers that answer at one width only, and a shadow page for diagnostic probes.

    Three parts: the bus as functions on values (what the processor model is run against), the
    claim that it is a flat byte store, and the class that updates byte arrays in place. */
module MemoryBus {
  import opened Outcomes
  import opened Words
  import opened R3000a

  const RAM_SIZE := 0x20_0000
  const SCRATCH_BASE := 0x1F80_0000
  const SCRATCH_SIZE := 0x400
  const PROBE_BASE := 0x1F80_1000
  const PROBE_SIZE := 0x2000
  const INTERRUPT_STATUS := 0x1F80_1070
  const INTERRUPT_MASK := 0x1F80_1074
  const DMA_CONTROL := 0x1F80_10F0
  const DMA_INTERRUPT := 0x1F80_10F4
  const TIMER1_MODE := 0x1F80_1114
  const INTERRUPT_VALID: u16 := 0x07FF
  const DICR_CONTROL: u32 := 0x00FF_807F
  const DICR_FLAGS: u32 := 0x7F00_0000

  type Width = w: int | w == 1 || w == 2 || w == 4 witness 1

  datatype BusAccess = BusAccess(guest: u32, physical: u32, width: Width, write: bool, value: u32)

  datatype Contents = Contents(ram: seq<u8>, scratch: seq<u8>, shadow: seq<u8>, probeEnabled: bool,
                               interruptStatus: u16, interruptMask: u16, dmaControl: u32, dmaInterrupt: u32,
                               timer1Counter: u16, timer1Mode: u16,
                               lastProbe: Option<BusAccess>, lastUnsupported: Option<BusAccess>)

  type Memory = c: Contents | |c.ram| == RAM_SIZE && |c.scratch| == SCRATCH_SIZE && |c.shadow| == PROBE_SIZE
    witness Blank()

  function Blank(): Contents {
    Contents(seq(RAM_SIZE, _ => 0), seq(SCRATCH_SIZE, _ => 0), seq(PROBE_SIZE, _ => 0), false, 0, 0, 0x0765_4321, 0, 0, 0, None, None)
  }

  // ----- Addresses -----

  /** KUSEG is the identity, KSEG0 and KSEG1 drop the top three bits, KSEG2 is not decoded. */
  function GuestToPhysical(guest: u32): Option<u32> {
    if guest < 0x8000_0000 then Some(guest)
    else if guest < 0xC000_0000 then Some(guest % 0x2000_0000)
    else None
  }

  datatype Place = Ram(at: nat) | Scratch(at: nat) | Nowhere

  /** Where an access of `width` bytes lands, if all of it lies in one byte store. */
  function MappedPlace(physical: u32, width: Width): (p: Place)
    ensures p.Ram? ==> p.at + width <= RAM_SIZE
    ensures p.Scratch? ==> p.at + width <= SCRATCH_SIZE
  {
    if physical < RAM_SIZE && width <= RAM_SIZE - physical then Ram(physical)
    else if physical >= SCRATCH_BASE && physical - SCRATCH_BASE < SCRATCH_SIZE && width <= SCRATCH_SIZE - (physical - SCRATCH_BASE)
    then Scratch(physical - SCRATCH_BASE)
    else Nowhere
  }

  predicate InProbeWindow(physical: u32, width: Width) {
    physical >= PROBE_BASE && physical - PROBE_BASE < PROBE_SIZE && width <= PROBE_SIZE - (physical - PROBE_BASE)
  }

  // ----- Little-endian bytes -----

  function ByteOf(value: u32, k: int): u8
    requires 0 <= k < 4
  {
    match k
    case 0 => value % 0x100
    case 1 => value / 0x100 % 0x100
    case 2 => value / 0x1_0000 % 0x100
    case _ => value / 0x100_0000
  }

  function Join(b0: u8, b1: u8, b2: u8, b3: u8): u32 {
    b0 as int + b1 * 0x100 + b2 * 0x1_0000 + b3 * 0x100_0000
  }

  function ReadLittleEndian(bytes: seq<u8>, at: nat, width: Width): u32
    requires at + width <= |bytes|
  {
    match width
    case 1 => bytes[at]
    case 2 => Join(bytes[at], bytes[at + 1], 0, 0)
    case _ => Join(bytes[at], bytes[at + 1], bytes[at + 2], bytes[at + 3])
  }

  function WriteLittleEndian(bytes: seq<u8>, at: nat, width: Width, value: u32): (r: seq<u8>)
    requires at + width <= |bytes|
    ensures |r| == |bytes|
    ensures forall k :: 0 <= k < |bytes| ==> r[k] == if at <= k < at + width then ByteOf(value, k - at) else bytes[k]
  {
    var one := bytes[at := ByteOf(value, 0)];
    if width == 1 then one
    else
      var two := one[at + 1 := ByteOf(value, 1)];
      if width == 2 then two else two[at + 2 := ByteOf(value, 2)][at + 3 := ByteOf(value, 3)]
  }

  // ----- Registers -----

  function VisibleDmaInterrupt(state: u32): u32 {
    var value := And(state, 0x7FFF_807F);
    if And(value, 0x8000) != 0 || (And(value, 0x80_0000) != 0 && And(value, DICR_FLAGS) != 0) then Or(value, 0x8000_0000)
    else value
  }

  function WrittenDmaInterrupt(state: u32, value: u32): u32 {
    Or(And(value, DICR_CONTROL), And(And(state, DICR_FLAGS), Not(And(value, DICR_FLAGS))))
  }

  function RegisterRead(m: Memory, physical: u32, width: Width): Option<u32> {
    if width == 2 && physical == INTERRUPT_MASK then Some(m.interruptMask)
    else if width == 4 && physical == DMA_CONTROL then Some(m.dmaControl)
    else if width == 4 && physical == DMA_INTERRUPT then Some(VisibleDmaInterrupt(m.dmaInterrupt))
    else None
  }

  function RegisterWrite(m: Memory, physical: u32, width: Width, value: u32): Option<Memory> {
    if width == 2 && physical == INTERRUPT_STATUS then
      Some(m.(interruptStatus := And(And(m.interruptStatus, value), INTERRUPT_VALID)))
    else if width == 2 && physical == INTERRUPT_MASK then Some(m.(interruptMask := And(value, INTERRUPT_VALID)))
    else if width == 4 && physical == DMA_CONTROL then Some(m.(dmaControl := value))
    else if width == 4 && physical == DMA_INTERRUPT then Some(m.(dmaInterrupt := WrittenDmaInterrupt(m.dmaInterrupt, value)))
    else if width == 4 && physical == TIMER1_MODE then Some(m.(timer1Mode := value % 0x1_0000, timer1Counter := 0))
    else None
  }

  // ----- Accesses -----

  function Refusal(m: Memory, guest: u32, width: Width, write: bool, value: u32): Reply<Memory> {
    var physical := match GuestToPhysical(guest) case Some(p) => p case None => guest;
    Reply(Unsupported, 0, m.(lastUnsupported := Some(BusAccess(guest, physical, width, write, value))))
  }

  function Read(m: Memory, guest: u32, width: Width): Reply<Memory> {
    match GuestToPhysical(guest)
    case None => Refusal(m, guest, width, false, 0)
    case Some(physical) =>
      match RegisterRead(m, physical, width)
      case Some(value) => Reply(Ok, value, m)
      case None =>
        match MappedPlace(physical, width)
        case Ram(at) => Reply(Ok, ReadLittleEndian(m.ram, at, width), m)
        case Scratch(at) => Reply(Ok, ReadLittleEndian(m.scratch, at, width), m)
        case Nowhere =>
          if m.probeEnabled && InProbeWindow(physical, width) then
            var value := ReadLittleEndian(m.shadow, physical - PROBE_BASE, width);
            Reply(Ok, value, m.(lastProbe := Some(BusAccess(guest, physical, width, false, value))))
          else Refusal(m, guest, width, false, 0)
  }

  function Write(m: Memory, guest: u32, width: Width, value: u32): Reply<Memory> {
    match GuestToPhysical(guest)
    case None => Refusal(m, guest, width, true, value)
    case Some(physical) =>
      match RegisterWrite(m, physical, width, value)
      case Some(written) => Reply(Ok, 0, written)
      case None =>
        match MappedPlace(physical, width)
        case Ram(at) => Reply(Ok, 0, m.(ram := WriteLittleEndian(m.ram, at, width, value)))
        case Scratch(at) => Reply(Ok, 0, m.(scratch := WriteLittleEndian(m.scratch, at, width, value)))
        case Nowhere =>
          if m.probeEnabled && InProbeWindow(physical, width) then
            Reply(Ok, 0, m.(shadow := WriteLittleEndian(m.shadow, physical - PROBE_BASE, width, value),
                            lastProbe := Some(BusAccess(guest, physical, width, true, value))))
          else Refusal(m, guest, width, true, value)
  }

  /** Enabling the probe clears the shadow page; enabling it again does not. */
  function WithProbe(m: Memory, enabled: bool): Memory {
    m.(shadow := if enabled && !m.probeEnabled then seq(PROBE_SIZE, _ => 0) else m.shadow, probeEnabled := enabled, lastProbe := None)
  }

  /** The bus as the executor sees it. */
  function Ps1Bus(): Bus<Memory> {
    Bus.Bus((m: Memory, a: u32) => Read(m, a, 1), (m: Memory, a: u32) => Read(m, a, 2), (m: Memory, a: u32) => Read(m, a, 4),
            (m: Memory, a: u32, v: u8) => Write(m, a, 1, v), (m: Memory, a: u32, v: u16) => Write(m, a, 2, v),
            (m: Memory, a: u32, v: u32) => Write(m, a, 4, v))
  }

  // ----- The flat byte store -----

  predicate Backed(physical: int) {
    0 <= physical < RAM_SIZE || SCRATCH_BASE <= physical < SCRATCH_BASE + SCRATCH_SIZE
  }

  function ByteAt(m: Memory, physical: int): u8
    requires Backed(physical)
  {
    if physical < RAM_SIZE then m.ram[physical] else m.scratch[physical - SCRATCH_BASE]
  }

  /** A byte per physical address, and nothing else. */
  type Flat = int -> u8

  ghost predicate Holds(m: Memory, flat: Flat) {
    forall p :: Backed(p) ==> ByteAt(m, p) == flat(p)
  }

  function FlatRead(flat: Flat, physical: int, width: Width): u32 {
    match width
    case 1 => flat(physical)
    case 2 => Join(flat(physical), flat(physical + 1), 0, 0)
    case _ => Join(flat(physical), flat(physical + 1), flat(physical + 2), flat(physical + 3))
  }

  function FlatWrite(flat: Flat, physical: int, width: Width, value: u32): Flat {
    p => if physical <= p < physical + width then ByteOf(value, p - physical) else flat(p)
  }

  /** Any bus traffic: reads and writes of any width at any guest address, probe switching included. */
  datatype Operation =
    | ReadOp(guest: u32, width: Width)
    | WriteOp(guest: u32, width: Width, value: u32)
    | ProbeOp(enabled: bool)

  /** The operand as the 8-, 16- and 32-bit entry points take it. */
  function Narrow(value: u32, width: Width): u32 {
    match width
    case 1 => value % 0x100
    case 2 => value % 0x1_0000
    case _ => value
  }

  function Apply(m: Memory, op: Operation): Memory {
    match op
    case ReadOp(guest, width) => Read(m, guest, width).bus
    case WriteOp(guest, width, value) => Write(m, guest, width, Narrow(value, width)).bus
    case ProbeOp(enabled) => WithProbe(m, enabled)
  }

  function ApplyAll(m: Memory, ops: seq<Operation>): Memory {
    if ops == [] then m else Apply(ApplyAll(m, ops[..|ops| - 1]), ops[|ops| - 1])
  }

  /** The physical address of a guest address whose `width` bytes lie in RAM or in the scratchpad. */
  function BackedAddress(guest: u32, width: Width): Option<u32> {
    match GuestToPhysical(guest)
    case None => None
    case Some(physical) => if MappedPlace(physical, width) == Nowhere then None else Some(physical)
  }

  function FlatApply(flat: Flat, op: Operation): Flat {
    match op
    case WriteOp(guest, width, value) =>
      (match BackedAddress(guest, width)
       case Some(physical) => FlatWrite(flat, physical, width, Narrow(value, width))
       case None => flat)
    case _ => flat
  }

  function FlatApplyAll(flat: Flat, ops: seq<Operation>): Flat {
    if ops == [] then flat else FlatApply(FlatApplyAll(flat, ops[..|ops| - 1]), ops[|ops| - 1])
  }

  lemma WriteIsFlat(m: Memory, flat: Flat, guest: u32, width: Width, value: u32)
    requires Holds(m, flat)
    ensures Holds(Write(m, guest, width, value).bus,
                  if BackedAddress(guest, width).Some? then FlatWrite(flat, BackedAddress(guest, width).value, width, value) else flat)
  {
    var after := Write(m, guest, width, value).bus;
    var flat': Flat := if BackedAddress(guest, width).Some? then FlatWrite(flat, BackedAddress(guest, width).value, width, value) else flat;
    forall p | Backed(p) ensures ByteAt(after, p) == flat'(p) {
      assert ByteAt(m, p) == flat(p);
    }
  }

  /** RAM and scratchpad are one byte store keyed by physical address: through any alias, at any width,
      and never disturbed by registers or by the probe shadow. */
  lemma OperationIsFlat(m: Memory, flat: Flat, op: Operation)
    requires Holds(m, flat)
    ensures Holds(Apply(m, op), FlatApply(flat, op))
  {
    match op {
      case ReadOp(guest, width) =>
      case ProbeOp(enabled) =>
      case WriteOp(guest, width, value) => WriteIsFlat(m, flat, guest, width, Narrow(value, width));
    }
  }

  lemma ReadIsFlat(m: Memory, flat: Flat, guest: u32, width: Width)
    requires Holds(m, flat)
    ensures BackedAddress(guest, width).Some? ==>
      Read(m, guest, width) == Reply(Ok, FlatRead(flat, BackedAddress(guest, width).value, width), m)
  {
    hide Join;
    if BackedAddress(guest, width).Some? {
      var p := BackedAddress(guest, width).value;
      assert Backed(p) && ByteAt(m, p) == flat(p);
      if width >= 2 {
        assert Backed(p + 1) && ByteAt(m, p + 1) == flat(p + 1);
      }
      if width == 4 {
        assert Backed(p + 2) && ByteAt(m, p + 2) == flat(p + 2);
        assert Backed(p + 3) && ByteAt(m, p + 3) == flat(p + 3);
      }
    }
  }

  /** After any traffic, a read of backed bytes returns exactly what the flat byte store holds. */
  lemma {:induction false} BusRefinesFlatMemory(m: Memory, flat: Flat, ops: seq<Operation>, guest: u32, width: Width)
    requires Holds(m, flat)
    ensures Holds(ApplyAll(m, ops), FlatApplyAll(flat, ops))
    ensures BackedAddress(guest, width).Some? ==>
      Read(ApplyAll(m, ops), guest, width)
        == Reply(Ok, FlatRead(FlatApplyAll(flat, ops), BackedAddress(guest, width).value, width), ApplyAll(m, ops))
    decreases |ops|
  {
    if ops != [] {
      var n := |ops| - 1;
      BusRefinesFlatMemory(m, flat, ops[..n], guest, width);
      OperationIsFlat(ApplyAll(m, ops[..n]), FlatApplyAll(flat, ops[..n]), ops[n]);
    }
    ReadIsFlat(ApplyAll(m, ops), FlatApplyAll(flat, ops), guest, width);
  }

  // ----- The registers -----

  ghost predicate RegistersOk(m: Memory) {
    m.interruptStatus == 0 && m.interruptMask <= INTERRUPT_VALID && m.dmaInterrupt < 0x100_0000
  }

  lemma {:induction false} AndDisjoint(n: nat, low: nat, high: nat)
    requires low < Pow2(n) && high % Pow2(n) == 0
    ensures BitAnd(low, high) == 0
  {
    if low > 0 && high > 0 {
      var p, q := Pow2(n - 1), high / Pow2(n);
      assert high == q * (2 * p) == 2 * (q * p);
      RemainderIs(high / 2, p, q, 0);
      AndDisjoint(n - 1, low / 2, high / 2);
    }
  }

  lemma FlagsStayClear(state: u32, value: u32)
    requires state < 0x100_0000
    ensures WrittenDmaInterrupt(state, value) < 0x100_0000
    ensures And(state, DICR_FLAGS) == 0
  {
    assert Pow2(24) == 0x100_0000 by { Pow2Adds(12, 12); assert Pow2(12) == 0x1000; }
    AndDisjoint(24, state, DICR_FLAGS);
  }

  lemma OperationKeepsRegisters(m: Memory, op: Operation)
    requires RegistersOk(m)
    ensures RegistersOk(Apply(m, op))
  {
    hide WrittenDmaInterrupt;
    if op.WriteOp? {
      FlagsStayClear(m.dmaInterrupt, Narrow(op.value, op.width));
    }
  }

  /** In every state reached from power-on no interrupt is pending, the mask stays inside its valid bits, and
      the DMA flags are clear, so that the visible master flag is the bus-error bit. */
  lemma {:induction false} RegistersStayOk(ops: seq<Operation>)
    ensures RegistersOk(ApplyAll(Blank(), ops))
    ensures var m := ApplyAll(Blank(), ops);
      VisibleDmaInterrupt(m.dmaInterrupt) >= 0x8000_0000 <==> And(And(m.dmaInterrupt, 0x7FFF_807F), 0x8000) != 0
    decreases |ops|
  {
    if ops != [] {
      RegistersStayOk(ops[..|ops| - 1]);
      OperationKeepsRegisters(ApplyAll(Blank(), ops[..|ops| - 1]), ops[|ops| - 1]);
    }
    var m := ApplyAll(Blank(), ops);
    FlagsStayClear(And(m.dmaInterrupt, 0x7FFF_807F), 0);
  }
}
