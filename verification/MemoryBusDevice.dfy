/** The memory bus as the class it is: byte arrays and register fields updated in place. Each access is
    proved to do what the functions of `MemoryBus` say. */
module MemoryBusDevice {
  import opened Outcomes
  import opened Words
  import opened R3000a
  import opened MemoryBus

  class Ps1MemoryBus {
    const mainRam: array<u8>
    const scratchpad: array<u8>
    const shadow: array<u8>
    var probeEnabled: bool
    var interruptStatus: u16
    var interruptMask: u16
    var dmaControl: u32
    var dmaInterrupt: u32
    var timer1Counter: u16
    var timer1Mode: u16
    var lastProbe: Option<BusAccess>
    var lastUnsupported: Option<BusAccess>

    ghost predicate Valid() {
      && mainRam.Length == RAM_SIZE && scratchpad.Length == SCRATCH_SIZE && shadow.Length == PROBE_SIZE
      && mainRam != scratchpad && mainRam != shadow && scratchpad != shadow
    }

    ghost function View(): Memory
      reads this, mainRam, scratchpad, shadow
      requires Valid()
    {
      Contents(mainRam[..], scratchpad[..], shadow[..], probeEnabled, interruptStatus, interruptMask,
               dmaControl, dmaInterrupt, timer1Counter, timer1Mode, lastProbe, lastUnsupported)
    }

    constructor ()
      ensures Valid() && fresh(mainRam) && fresh(scratchpad) && fresh(shadow)
      ensures View() == Blank()
    {
      mainRam := new u8[RAM_SIZE](_ => 0);
      scratchpad := new u8[SCRATCH_SIZE](_ => 0);
      shadow := new u8[PROBE_SIZE](_ => 0);
      probeEnabled, interruptStatus, interruptMask := false, 0, 0;
      dmaControl, dmaInterrupt, timer1Counter, timer1Mode := 0x0765_4321, 0, 0, 0;
      lastProbe, lastUnsupported := None, None;
      new;
      assert mainRam[..] == Blank().ram && scratchpad[..] == Blank().scratch && shadow[..] == Blank().shadow;
    }

    /** The byte store an access of `width` bytes falls into, or null. */
    method MappedBytes(physical: u32, width: Width) returns (bytes: array?<u8>, at: nat)
      requires Valid()
      ensures match MappedPlace(physical, width)
              case Ram(k) => bytes == mainRam && at == k
              case Scratch(k) => bytes == scratchpad && at == k
              case Nowhere => bytes == null
    {
      at := 0;
      if physical < mainRam.Length && width <= mainRam.Length - physical {
        return mainRam, physical;
      }
      if physical >= SCRATCH_BASE {
        var offset := physical - SCRATCH_BASE;
        if offset < scratchpad.Length && width <= scratchpad.Length - offset {
          return scratchpad, offset;
        }
      }
      bytes := null;
    }

    static method LoadBytes(bytes: array<u8>, at: nat, width: Width) returns (value: u32)
      requires at + width <= bytes.Length
      ensures value == ReadLittleEndian(bytes[..], at, width)
    {
      var b2, b3: u8 := 0, 0;
      if width == 4 {
        b2, b3 := bytes[at + 2], bytes[at + 3];
      }
      value := Join(bytes[at], if width >= 2 then bytes[at + 1] else 0, b2, b3);
    }

    static method StoreBytes(bytes: array<u8>, at: nat, width: Width, value: u32)
      requires at + width <= bytes.Length
      modifies bytes
      ensures bytes[..] == WriteLittleEndian(old(bytes[..]), at, width, value)
    {
      bytes[at] := ByteOf(value, 0);
      if width >= 2 {
        bytes[at + 1] := ByteOf(value, 1);
      }
      if width == 4 {
        bytes[at + 2] := ByteOf(value, 2);
        bytes[at + 3] := ByteOf(value, 3);
      }
    }

    method Refuse(address: u32, width: Width, write: bool, value: u32) returns (status: BusStatus, result: u32)
      requires Valid()
      modifies this
      ensures Reply(status, result, View()) == Refusal(old(View()), address, width, write, value)
    {
      var physical := GuestToPhysical(address);
      lastUnsupported := Some(BusAccess(address, if physical.Some? then physical.value else address, width, write, value));
      return Unsupported, 0;
    }

    /** What every read does once no register has answered. */
    method ReadStore(address: u32, physical: u32, width: Width) returns (status: BusStatus, value: u32)
      requires Valid() && GuestToPhysical(address) == Some(physical) && RegisterRead(View(), physical, width) == None
      modifies this
      ensures Reply(status, value, View()) == Read(old(View()), address, width)
    {
      var bytes, at := MappedBytes(physical, width);
      if bytes != null {
        value := LoadBytes(bytes, at, width);
        return Ok, value;
      }
      if probeEnabled && InProbeWindow(physical, width) {
        value := LoadBytes(shadow, physical - PROBE_BASE, width);
        lastProbe := Some(BusAccess(address, physical, width, false, value));
        return Ok, value;
      }
      status, value := Refuse(address, width, false, 0);
    }

    method Read8(address: u32) returns (status: BusStatus, value: u32)
      requires Valid()
      modifies this
      ensures Reply(status, value, View()) == Read(old(View()), address, 1)
    {
      var physical := GuestToPhysical(address);
      if physical.Some? {
        status, value := ReadStore(address, physical.value, 1);
      } else {
        status, value := Refuse(address, 1, false, 0);
      }
    }

    method Read16(address: u32) returns (status: BusStatus, value: u32)
      requires Valid()
      modifies this
      ensures Reply(status, value, View()) == Read(old(View()), address, 2)
    {
      var physical := GuestToPhysical(address);
      if physical.Some? {
        if physical.value == INTERRUPT_MASK {
          return Ok, interruptMask;
        }
        status, value := ReadStore(address, physical.value, 2);
      } else {
        status, value := Refuse(address, 2, false, 0);
      }
    }

    method Read32(address: u32) returns (status: BusStatus, value: u32)
      requires Valid()
      modifies this
      ensures Reply(status, value, View()) == Read(old(View()), address, 4)
    {
      var physical := GuestToPhysical(address);
      if physical.Some? {
        if physical.value == DMA_CONTROL {
          return Ok, dmaControl;
        }
        if physical.value == DMA_INTERRUPT {
          return Ok, VisibleDmaInterrupt(dmaInterrupt);
        }
        status, value := ReadStore(address, physical.value, 4);
      } else {
        status, value := Refuse(address, 4, false, 0);
      }
    }

    /** What every write does once no register has taken it. */
    method WriteStore(address: u32, physical: u32, width: Width, value: u32) returns (status: BusStatus, result: u32)
      requires Valid() && GuestToPhysical(address) == Some(physical) && RegisterWrite(View(), physical, width, value) == None
      modifies this, mainRam, scratchpad, shadow
      ensures Reply(status, result, View()) == Write(old(View()), address, width, value)
    {
      var bytes, at := MappedBytes(physical, width);
      if bytes != null {
        StoreBytes(bytes, at, width, value);
        return Ok, 0;
      }
      if probeEnabled && InProbeWindow(physical, width) {
        StoreBytes(shadow, physical - PROBE_BASE, width, value);
        lastProbe := Some(BusAccess(address, physical, width, true, value));
        return Ok, 0;
      }
      status, result := Refuse(address, width, true, value);
    }

    method Write8(address: u32, value: u8) returns (status: BusStatus, result: u32)
      requires Valid()
      modifies this, mainRam, scratchpad, shadow
      ensures Reply(status, result, View()) == Write(old(View()), address, 1, value)
    {
      var physical := GuestToPhysical(address);
      if physical.Some? {
        status, result := WriteStore(address, physical.value, 1, value);
      } else {
        status, result := Refuse(address, 1, true, value);
      }
    }

    method Write16(address: u32, value: u16) returns (status: BusStatus, result: u32)
      requires Valid()
      modifies this, mainRam, scratchpad, shadow
      ensures Reply(status, result, View()) == Write(old(View()), address, 2, value)
    {
      var physical := GuestToPhysical(address);
      if physical.None? {
        status, result := Refuse(address, 2, true, value);
        return;
      }
      if physical.value == INTERRUPT_STATUS {
        interruptStatus := And(And(interruptStatus, value), INTERRUPT_VALID);
        return Ok, 0;
      }
      if physical.value == INTERRUPT_MASK {
        interruptMask := And(value, INTERRUPT_VALID);
        return Ok, 0;
      }
      status, result := WriteStore(address, physical.value, 2, value);
    }

    method Write32(address: u32, value: u32) returns (status: BusStatus, result: u32)
      requires Valid()
      modifies this, mainRam, scratchpad, shadow
      ensures Reply(status, result, View()) == Write(old(View()), address, 4, value)
    {
      var physical := GuestToPhysical(address);
      if physical.None? {
        status, result := Refuse(address, 4, true, value);
        return;
      }
      if physical.value == DMA_CONTROL {
        dmaControl := value;
        return Ok, 0;
      }
      if physical.value == DMA_INTERRUPT {
        var flags := And(And(dmaInterrupt, DICR_FLAGS), Not(And(value, DICR_FLAGS)));
        dmaInterrupt := Or(And(value, DICR_CONTROL), flags);
        return Ok, 0;
      }
      if physical.value == TIMER1_MODE {
        timer1Mode := value % 0x1_0000;
        timer1Counter := 0;
        return Ok, 0;
      }
      status, result := WriteStore(address, physical.value, 4, value);
    }

    /** Copies a program image into main RAM, or changes nothing when it does not fit. */
    method LoadMainRam(guestAddress: u32, bytes: seq<u8>) returns (r: Result<()>)
      requires Valid()
      modifies mainRam
      ensures var p := GuestToPhysical(guestAddress);
        if p.Some? && p.value < RAM_SIZE && |bytes| <= RAM_SIZE - p.value
        then r.Success? && View() == old(View()).(ram := old(View()).ram[..p.value] + bytes + old(View()).ram[p.value + |bytes|..])
        else r == Failure(InvalidArgument) && View() == old(View())
    {
      var physical := GuestToPhysical(guestAddress);
      if physical.None? || physical.value >= RAM_SIZE || |bytes| > RAM_SIZE - physical.value {
        return Failure(InvalidArgument);
      }
      var at := physical.value;
      for k := 0 to |bytes|
        invariant forall j :: 0 <= j < RAM_SIZE ==> mainRam[j] == if at <= j < at + k then bytes[j - at] else old(mainRam[j])
      {
        mainRam[at + k] := bytes[k];
      }
      assert mainRam[..] == old(mainRam[..])[..at] + bytes + old(mainRam[..])[at + |bytes|..];
      return Success(());
    }

    method SetDiagnosticMmioProbeEnabled(enabled: bool)
      requires Valid()
      modifies this, shadow
      ensures View() == WithProbe(old(View()), enabled)
    {
      if enabled && !probeEnabled {
        forall k | 0 <= k < shadow.Length {
          shadow[k] := 0;
        }
        assert shadow[..] == seq(PROBE_SIZE, _ => 0);
      }
      probeEnabled := enabled;
      lastProbe := None;
    }
  }
}
