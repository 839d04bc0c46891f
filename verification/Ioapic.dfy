/** The I/O APIC: its redirection table and the message-signalled routes pushed for it. */
module Ioapic {
  import opened Base

  const PINS: nat := 24
  const REG_VERSION: int := 0x01
  const REG_ID: int := 0x00
  const REG_ARBITRATION_ID: int := 0x02
  const IOWIN_OFF: int := 0x10
  const REG_MAX_OFFSET: int := 0x3f
  const VERSION_ID: bv32 := 0x0017_0011
  const RESET_ENTRY: bv64 := 0x1_0000

  // ---------------------------------------------------------------- one redirection entry

  function Vector(e: bv64): bv64 {
    e & 0xff
  }

  function DeliveryMode(e: bv64): bv64 {
    (e >> 8) & 0x7
  }

  function DestinationMode(e: bv64): bv64 {
    (e >> 11) & 0x1
  }

  function RemoteIrr(e: bv64): bv64 {
    (e >> 14) & 0x1
  }

  function TriggerMode(e: bv64): bv64 {
    (e >> 15) & 0x1
  }

  function InterruptMask(e: bv64): bv64 {
    (e >> 16) & 0x1
  }

  function DestinationField(e: bv64): bv64 {
    (e >> 56) & 0xff
  }

  function SetRemoteIrr(e: bv64, on: bool): bv64 {
    (e & 0xffff_ffff_ffff_bfff) | (if on then 0x4000 else 0)
  }

  function ClearDeliveryStatus(e: bv64): bv64 {
    e & 0xffff_ffff_ffff_efff
  }

  /** A guest write of the low half; delivery status (bit 12) and remote IRR (bit 14) are read-only. */
  function WriteLow(e: bv64, val: bv32): bv64 {
    (e & 0xffff_ffff_0000_5000) | ((val as bv64) & 0xffff_afff)
  }

  function WriteHigh(e: bv64, val: bv32): bv64 {
    (e & 0xffff_ffff) | ((val as bv64) << 32)
  }

  /** Guest writes never change the read-only bits. */
  lemma ReadOnlyBitsStay(e: bv64, val: bv32)
    ensures WriteLow(e, val) & 0x5000 == e & 0x5000 && WriteHigh(e, val) & 0x5000 == e & 0x5000
  {
  }

  /** The low half reads back as written, but for the read-only bits; the high half stays. */
  lemma LowReadsBack(e: bv64, val: bv32)
    ensures (WriteLow(e, val) & 0xffff_ffff) as bv32 == (val & 0xffff_afff) | (((e & 0xffff_ffff) as bv32) & 0x5000)
  {
  }

  lemma LowKeepsHigh(e: bv64, val: bv32)
    ensures (WriteLow(e, val) >> 32) as bv32 == (e >> 32) as bv32
  {
  }

  /** The high half reads back as written; the low half stays. */
  lemma HighReadsBack(e: bv64, val: bv32)
    ensures (WriteHigh(e, val) >> 32) as bv32 == val
  {
  }

  lemma HighKeepsLow(e: bv64, val: bv32)
    ensures (WriteHigh(e, val) & 0xffff_ffff) as bv32 == (e & 0xffff_ffff) as bv32
  {
  }

  lemma SetIrrKeepsModes(e: bv64, on: bool)
    ensures Vector(SetRemoteIrr(e, on)) == Vector(e) && DeliveryMode(SetRemoteIrr(e, on)) == DeliveryMode(e)
    ensures TriggerMode(SetRemoteIrr(e, on)) == TriggerMode(e)
  {
  }

  lemma SetIrrKeepsTarget(e: bv64, on: bool)
    ensures DestinationMode(SetRemoteIrr(e, on)) == DestinationMode(e) &&
            InterruptMask(SetRemoteIrr(e, on)) == InterruptMask(e)
    ensures DestinationField(SetRemoteIrr(e, on)) == DestinationField(e)
  {
  }

  lemma ClearKeepsModes(e: bv64)
    ensures Vector(ClearDeliveryStatus(e)) == Vector(e) && DeliveryMode(ClearDeliveryStatus(e)) == DeliveryMode(e)
    ensures TriggerMode(ClearDeliveryStatus(e)) == TriggerMode(e)
  {
  }

  lemma ClearKeepsTarget(e: bv64)
    ensures DestinationMode(ClearDeliveryStatus(e)) == DestinationMode(e)
    ensures InterruptMask(ClearDeliveryStatus(e)) == InterruptMask(e)
    ensures DestinationField(ClearDeliveryStatus(e)) == DestinationField(e)
  {
  }

  // ---------------------------------------------------------------- routes

  /** A message route: address, data, and whether the pin is masked. */
  datatype Msi = Msi(low: bv32, data: bv32, masked: bool)

  function Address(apic: bv64, dest: bv64, mode: bv64): bv32 {
    ((apic & 0xffff_ffff) as bv32) | (((dest & 0xff) as bv32) << 12) | 0x8 | (((mode & 0x1) as bv32) << 2)
  }

  function Data(trigger: bv64, irr: bv64, delivery: bv64, vector: bv64): bv32 {
    Joined(Fixed(trigger, delivery, vector), IrrBit(irr))
  }

  function Joined(a: bv32, b: bv32): bv32 {
    a | b
  }

  function Fixed(trigger: bv64, delivery: bv64, vector: bv64): bv32 {
    (((trigger & 0x1) as bv32) << 15) | (((delivery & 0x7) as bv32) << 8) | ((vector & 0xff) as bv32)
  }

  function IrrBit(irr: bv64): bv32 {
    ((irr & 0x1) as bv32) << 14
  }

  function Encode(apic: bv64, e: bv64): Msi {
    Msi(Address(apic, DestinationField(e), DestinationMode(e)),
        Data(TriggerMode(e), RemoteIrr(e), DeliveryMode(e), Vector(e)),
        InterruptMask(e) == 1)
  }

  /** Two routes that agree except perhaps in the remote-IRR bit of the data. */
  predicate SameRoute(m: Msi, n: Msi) {
    m.low == n.low && m.masked == n.masked && SameData(m.data, n.data)
  }

  function ButIrr(data: bv32): bv32 {
    data & 0xffff_bfff
  }

  predicate SameData(a: bv32, b: bv32) {
    ButIrr(a) == ButIrr(b)
  }

  lemma IrrIsMasked(rest: bv32, irr: bv64)
    ensures ButIrr(Joined(rest, IrrBit(irr))) == ButIrr(rest)
  {
  }

  lemma DataUpToIrr(trigger: bv64, irr: bv64, irr': bv64, delivery: bv64, vector: bv64)
    ensures SameData(Data(trigger, irr, delivery, vector), Data(trigger, irr', delivery, vector))
  {
    hide ButIrr, Fixed, IrrBit, Joined;
    IrrIsMasked(Fixed(trigger, delivery, vector), irr);
    IrrIsMasked(Fixed(trigger, delivery, vector), irr');
  }

  /** Entries that agree in every field but remote IRR have the same route. */
  lemma SameFieldsSameRoute(apic: bv64, e: bv64, f: bv64)
    requires Vector(e) == Vector(f) && DeliveryMode(e) == DeliveryMode(f) && TriggerMode(e) == TriggerMode(f)
    requires DestinationMode(e) == DestinationMode(f) && InterruptMask(e) == InterruptMask(f)
    requires DestinationField(e) == DestinationField(f)
    ensures SameRoute(Encode(apic, e), Encode(apic, f))
  {
    hide SameData, Data, Address, Vector, DeliveryMode, TriggerMode, DestinationMode, InterruptMask, DestinationField,
         RemoteIrr;
    DataUpToIrr(TriggerMode(e), RemoteIrr(e), RemoteIrr(f), DeliveryMode(e), Vector(e));
  }

  /** Servicing an interrupt or its end changes the route in no other bit. */
  lemma InterruptsKeepRoute(apic: bv64, e: bv64, on: bool)
    ensures SameRoute(Encode(apic, SetRemoteIrr(e, on)), Encode(apic, e))
    ensures SameRoute(Encode(apic, ClearDeliveryStatus(e)), Encode(apic, e))
  {
    hide *;
    SetIrrKeepsModes(e, on);
    SetIrrKeepsTarget(e, on);
    SameFieldsSameRoute(apic, SetRemoteIrr(e, on), e);
    ClearKeepsModes(e);
    ClearKeepsTarget(e);
    SameFieldsSameRoute(apic, ClearDeliveryStatus(e), e);
  }

  /** The data word of a route carries the entry's vector and modes, each in its own bits. */
  lemma DataDecodes(trigger: bv64, irr: bv64, delivery: bv64, vector: bv64)
    requires trigger <= 1 && delivery <= 7 && vector <= 0xff && irr <= 1
    ensures var d := Data(trigger, irr, delivery, vector) as bv64;
            d & 0xff == vector && (d >> 8) & 0x7 == delivery && (d >> 14) & 0x1 == irr && d >> 15 == trigger
  {
  }

  /** The address word carries destination and destination mode above an aligned APIC base. */
  lemma AddressDecodes(apic: bv64, dest: bv64, mode: bv64)
    requires apic & 0xf_ffff == 0 && dest <= 0xff && mode <= 1
    ensures var a := Address(apic, dest, mode) as bv64;
            (a >> 12) & 0xff == dest && (a >> 2) & 0x1 == mode && a & 0xfff0_0000 == apic & 0xfff0_0000 &&
              (a >> 3) & 0x1 == 1
  {
  }

  /** A delivered level-triggered interrupt sets remote IRR; an edge-triggered one leaves it. */
  lemma DeliverySetsIrr(p: Pin)
    ensures RemoteIrr(ServicePin(p).entry) == if TriggerMode(p.entry) == 1 then 1 else RemoteIrr(p.entry)
  {
  }

  /** The end of a delivered level-triggered interrupt restores the entry, both read-only bits clear. */
  lemma LevelInterruptRoundTrip(p: Pin)
    requires TriggerMode(p.entry) == 1
    ensures EoiPin(ServicePin(p), Vector(p.entry)) == p.(entry := p.entry & 0xffff_ffff_ffff_afff)
  {
    hide Vector, TriggerMode, SetRemoteIrr, ClearDeliveryStatus;
    var e := SetRemoteIrr(p.entry, true);
    SetIrrKeepsModes(p.entry, true);
    ClearKeepsModes(e);
    BothBitsClear(p.entry);
  }

  lemma BothBitsClear(e: bv64)
    ensures SetRemoteIrr(ClearDeliveryStatus(SetRemoteIrr(e, true)), false) == e & 0xffff_ffff_ffff_afff
  {
  }

  lemma SameRouteThen(a: Msi, b: Msi, c: Msi)
    requires SameRoute(a, b) && SameRoute(b, c)
    ensures SameRoute(a, c)
  {
    hide ButIrr;
  }

  lemma SameRouteBack(a: Msi, b: Msi)
    requires SameRoute(a, b)
    ensures SameRoute(b, a)
  {
    hide ButIrr;
  }

  // ---------------------------------------------------------------- the device as a state machine

  /** What became of pushing a route: it took effect, it was only recorded, or nothing happened. */
  datatype Push = Done | Recorded | Refused

  /** One pin: its entry, whether the guest has used it, its recorded and its effective route. */
  datatype Pin = Pin(entry: bv64, used: bool, staged: Option<Msi>, active: Option<Msi>, pushed: bool)

  datatype Chip = Chip(id: bv32, sel: bv32, pins: seq<Pin>)

  datatype Step =
    | Select(value: bv32)
    | WriteWindow(value: bv32, push: Push)
    | Service(irq: nat, delivered: bool)
    | EndOfInterrupt(vector: bv64)

  /** The register number in use: the low byte of the select register. */
  function Register(sel: bv32): int {
    (sel & 0xff) as int
  }

  predicate IsRedirection(reg: int) {
    IOWIN_OFF <= reg <= REG_MAX_OFFSET
  }

  function PinOf(reg: int): int {
    (reg - IOWIN_OFF) / 2
  }

  predicate IsHigh(reg: int) {
    reg % 2 != 0
  }

  function WriteEntry(e: bv64, high: bool, value: bv32): bv64 {
    if high then WriteHigh(e, value) else WriteLow(e, value)
  }

  function ReadEntry(e: bv64, high: bool): bv32 {
    if high then (e >> 32) as bv32 else (e & 0xffff_ffff) as bv32
  }

  /** A pin after its route was recorded; a push that takes effect makes every recorded route effective. */
  function PushPin(p: Pin, target: bool, m: Msi, push: Push): Pin {
    var q := if target && push != Refused then p.(staged := Some(m)) else p;
    if push == Done then q.(active := q.staged) else q
  }

  function WritePins(pins: seq<Pin>, apic: bv64, i: nat, high: bool, value: bv32, push: Push): (r: seq<Pin>)
    requires i < |pins|
    ensures |r| == |pins|
  {
    var e := WriteEntry(pins[i].entry, high, value);
    seq(|pins|, k requires 0 <= k < |pins| =>
      var p := PushPin(pins[k], k == i, Encode(apic, e), push);
      if k == i then p.(entry := e, used := true, pushed := push == Done) else p)
  }

  function ServicePin(p: Pin): Pin {
    p.(entry := ClearDeliveryStatus(if TriggerMode(p.entry) == 1 then SetRemoteIrr(p.entry, true) else p.entry))
  }

  function Ended(e: bv64, vector: bv64): bv64 {
    if Vector(e) == vector && TriggerMode(e) == 1 then SetRemoteIrr(e, false) else e
  }

  function EoiPin(p: Pin, vector: bv64): Pin {
    p.(entry := Ended(p.entry, vector))
  }

  predicate Enabled(c: Chip, step: Step) {
    step.Service? ==> step.irq < |c.pins|
  }

  function Apply(c: Chip, apic: bv64, step: Step): (r: Chip)
    requires |c.pins| == PINS && Enabled(c, step)
    ensures |r.pins| == PINS
  {
    match step
    case Select(v) => c.(sel := v)
    case WriteWindow(value, push) =>
      var reg := Register(c.sel);
      if reg == REG_ID then c.(id := (value >> 24) & 0xf)
      else if IsRedirection(reg) then c.(pins := WritePins(c.pins, apic, PinOf(reg), IsHigh(reg), value, push))
      else c
    case Service(irq, delivered) =>
      if delivered then c.(pins := c.pins[irq := ServicePin(c.pins[irq])]) else c
    case EndOfInterrupt(vector) =>
      c.(pins := seq(PINS, i requires 0 <= i < PINS => EoiPin(c.pins[i], vector)))
  }

  /** Delivery status is clear; an unused pin is as at reset; a pushed route is the entry's, up to remote IRR. */
  predicate PinOk(p: Pin, apic: bv64) {
    && p.entry & 0x1000 == 0
    && (!p.used ==> p.entry == RESET_ENTRY)
    && (p.used && p.pushed ==>
          p.staged == p.active && p.active.Some? && SameRoute(p.active.value, Encode(apic, p.entry)))
  }

  predicate ChipOk(c: Chip, apic: bv64) {
    |c.pins| == PINS && forall i :: 0 <= i < PINS ==> PinOk(c.pins[i], apic)
  }

  function ResetChip(): (c: Chip)
    ensures |c.pins| == PINS
  {
    Chip(0, 0, seq(PINS, i => Pin(RESET_ENTRY, false, None, None, false)))
  }

  lemma ResetIsOk(apic: bv64)
    ensures ChipOk(ResetChip(), apic)
  {
    hide Encode;
  }

  lemma StatusStaysClear(e: bv64, value: bv32, on: bool)
    requires e & 0x1000 == 0
    ensures WriteLow(e, value) & 0x1000 == 0 && WriteHigh(e, value) & 0x1000 == 0
    ensures SetRemoteIrr(e, on) & 0x1000 == 0
  {
  }

  lemma ClearedStatus(e: bv64)
    ensures ClearDeliveryStatus(e) & 0x1000 == 0
  {
  }

  lemma ResetEntryIsIdle()
    ensures TriggerMode(RESET_ENTRY) == 0 && ClearDeliveryStatus(RESET_ENTRY) == RESET_ENTRY &&
            RESET_ENTRY & 0x1000 == 0
  {
  }

  /** An entry that changed only in remote IRR or delivery status keeps its pushed route. */
  lemma RouteFollows(apic: bv64, m: Msi, e: bv64, f: bv64)
    requires SameRoute(m, Encode(apic, e)) && SameRoute(Encode(apic, f), Encode(apic, e))
    ensures SameRoute(m, Encode(apic, f))
  {
    SameRouteBack(Encode(apic, f), Encode(apic, e));
    SameRouteThen(m, Encode(apic, e), Encode(apic, f));
  }

  lemma ServiceKeepsPin(p: Pin, apic: bv64)
    requires PinOk(p, apic)
    ensures PinOk(ServicePin(p), apic)
  {
    hide SetRemoteIrr, ClearDeliveryStatus, TriggerMode, Encode, SameRoute;
    ResetEntryIsIdle();
    var e := if TriggerMode(p.entry) == 1 then SetRemoteIrr(p.entry, true) else p.entry;
    ClearedStatus(e);
    if p.used && p.pushed {
      InterruptsKeepRoute(apic, p.entry, true);
      InterruptsKeepRoute(apic, e, true);
      if TriggerMode(p.entry) == 1 {
        RouteFollows(apic, p.active.value, p.entry, e);
      }
      RouteFollows(apic, p.active.value, e, ClearDeliveryStatus(e));
    }
  }

  lemma EoiKeepsPin(p: Pin, apic: bv64, vector: bv64)
    requires PinOk(p, apic)
    ensures PinOk(EoiPin(p, vector), apic)
  {
    hide SetRemoteIrr, ClearDeliveryStatus, TriggerMode, Encode, SameRoute, Vector, WriteLow, WriteHigh;
    ResetEntryIsIdle();
    StatusStaysClear(p.entry, 0, false);
    if p.used && p.pushed {
      InterruptsKeepRoute(apic, p.entry, false);
      if EoiPin(p, vector) != p {
        RouteFollows(apic, p.active.value, p.entry, SetRemoteIrr(p.entry, false));
      }
    }
  }

  lemma SameRouteSelf(m: Msi)
    ensures SameRoute(m, m)
  {
  }

  lemma WriteKeepsPin(pins: seq<Pin>, apic: bv64, i: nat, high: bool, value: bv32, push: Push, k: nat)
    requires i < |pins| && k < |pins| && PinOk(pins[i], apic) && PinOk(pins[k], apic)
    ensures PinOk(WritePins(pins, apic, i, high, value, push)[k], apic)
  {
    hide Encode, SameRoute, WriteLow, WriteHigh, SetRemoteIrr;
    StatusStaysClear(pins[i].entry, value, false);
    SameRouteSelf(Encode(apic, WriteEntry(pins[i].entry, high, value)));
  }

  lemma ApplyKeepsOk(c: Chip, apic: bv64, step: Step)
    requires ChipOk(c, apic) && Enabled(c, step)
    ensures ChipOk(Apply(c, apic, step), apic)
  {
    hide PinOk, WritePins, ServicePin, EoiPin;
    var r := Apply(c, apic, step);
    forall k | 0 <= k < PINS
      ensures PinOk(r.pins[k], apic)
    {
      match step
      case Select(_) =>
      case WriteWindow(value, push) =>
        var reg := Register(c.sel);
        if reg != REG_ID && IsRedirection(reg) {
          WriteKeepsPin(c.pins, apic, PinOf(reg), IsHigh(reg), value, push, k);
        }
      case Service(irq, _) =>
        ServiceKeepsPin(c.pins[irq], apic);
      case EndOfInterrupt(vector) =>
        EoiKeepsPin(c.pins[k], apic, vector);
    }
  }

  predicate Feasible(steps: seq<Step>) {
    forall i :: 0 <= i < |steps| ==> steps[i].Service? ==> steps[i].irq < PINS
  }

  /** The chip after the first `n` steps from reset. */
  function After(apic: bv64, steps: seq<Step>, n: nat): (c: Chip)
    requires Feasible(steps) && n <= |steps|
    ensures |c.pins| == PINS
  {
    if n == 0 then ResetChip() else Apply(After(apic, steps, n - 1), apic, steps[n - 1])
  }

  /** In every run from reset, at every step: routes match entries up to bit 14, and bit 12 stays clear. */
  lemma {:induction false} EveryRunIsOk(apic: bv64, steps: seq<Step>, n: nat)
    requires Feasible(steps) && n <= |steps|
    ensures ChipOk(After(apic, steps, n), apic)
  {
    hide Apply, ResetChip, ChipOk;
    if n == 0 {
      ResetIsOk(apic);
    } else {
      EveryRunIsOk(apic, steps, n - 1);
      ApplyKeepsOk(After(apic, steps, n - 1), apic, steps[n - 1]);
    }
  }

  lemma PushedStays(c: Chip, apic: bv64, step: Step, i: nat)
    requires |c.pins| == PINS && Enabled(c, step) && i < PINS && (step.WriteWindow? ==> step.push == Done)
    requires c.pins[i].used ==> c.pins[i].pushed
    ensures var p := Apply(c, apic, step).pins[i]; p.used ==> p.pushed
  {
    hide Encode, WriteEntry, ClearDeliveryStatus, SetRemoteIrr, TriggerMode, Vector, WritePins;
    if step.WriteWindow? && IsRedirection(Register(c.sel)) {
      var reg := Register(c.sel);
      WritePinsAt(c.pins, apic, PinOf(reg), IsHigh(reg), step.value, step.push, i);
    }
  }

  lemma WritePinsAt(pins: seq<Pin>, apic: bv64, i: nat, high: bool, value: bv32, push: Push, k: nat)
    requires i < |pins| && k < |pins|
    ensures var p := WritePins(pins, apic, i, high, value, push)[k];
            && p.used == (k == i || pins[k].used)
            && p.pushed == (if k == i then push == Done else pins[k].pushed)
            && p.entry == (if k == i then WriteEntry(pins[k].entry, high, value) else pins[k].entry)
            && (push == Done && k == i ==> p.active == Some(Encode(apic, p.entry)))
  {
    hide Encode, WriteEntry;
  }

  /** When every push takes effect, every pin the guest has used has its route pushed. */
  lemma {:induction false} AllPushed(apic: bv64, steps: seq<Step>, n: nat, i: nat)
    requires Feasible(steps) && n <= |steps| && i < PINS
    requires forall k :: 0 <= k < |steps| ==> steps[k].WriteWindow? ==> steps[k].push == Done
    ensures var p := After(apic, steps, n).pins[i]; p.used ==> p.pushed
  {
    hide Apply;
    if n > 0 {
      AllPushed(apic, steps, n - 1, i);
      PushedStays(After(apic, steps, n - 1), apic, steps[n - 1], i);
    }
  }

  /** No guest write changes delivery status or remote IRR of any pin. */
  lemma GuestWritesKeepReadOnly(c: Chip, apic: bv64, value: bv32, push: Push, i: nat)
    requires |c.pins| == PINS && i < PINS
    ensures Apply(c, apic, WriteWindow(value, push)).pins[i].entry & 0x5000 == c.pins[i].entry & 0x5000
  {
    hide Encode, WriteLow, WriteHigh, WritePins;
    ReadOnlyBitsStay(c.pins[i].entry, value);
    var reg := Register(c.sel);
    if reg != REG_ID && IsRedirection(reg) {
      WritePinsAt(c.pins, apic, PinOf(reg), IsHigh(reg), value, push, i);
    }
  }

  // ---------------------------------------------------------------- bit by bit

  /**
    What route `m` must be for entry `e`: data bits 0-10 and 15 are the entry's, the address has the
    destination from entry bits 56-63, the mode from bit 11 and the redirection hint, and bit 16 masks.
   */
  predicate Routes(apic: bv64, e: bv64, m: Msi) {
    && m.data & 0xffff_bfff == (e & 0x87ff) as bv32
    && m.low == ((apic & 0xffff_ffff) as bv32) | (((e >> 56) as bv32) << 12) | (((e & 0x800) as bv32) >> 9) | 0x8
    && (m.masked <==> e & 0x1_0000 != 0)
  }

  lemma FixedBits(e: bv64)
    ensures Fixed(TriggerMode(e), DeliveryMode(e), Vector(e)) == (e & 0x87ff) as bv32
  {
  }

  lemma FixedIsButIrr(e: bv64)
    ensures ButIrr((e & 0x87ff) as bv32) == (e & 0x87ff) as bv32
  {
  }

  lemma AddressBits(apic: bv64, e: bv64)
    ensures Address(apic, DestinationField(e), DestinationMode(e)) ==
              ((apic & 0xffff_ffff) as bv32) | (((e >> 56) as bv32) << 12) | (((e & 0x800) as bv32) >> 9) | 0x8
  {
  }

  lemma MaskBit(e: bv64)
    ensures InterruptMask(e) == 1 <==> e & 0x1_0000 != 0
  {
  }

  lemma EncodeRoutes(apic: bv64, e: bv64)
    ensures Routes(apic, e, Encode(apic, e))
  {
    hide Fixed, TriggerMode, DeliveryMode, Vector, Address, DestinationField, DestinationMode, InterruptMask, IrrBit,
         Joined, ButIrr, RemoteIrr;
    FixedBits(e);
    FixedIsButIrr(e);
    IrrIsMasked(Fixed(TriggerMode(e), DeliveryMode(e), Vector(e)), RemoteIrr(e));
    ButIrrIs(Data(TriggerMode(e), RemoteIrr(e), DeliveryMode(e), Vector(e)));
    AddressBits(apic, e);
    MaskBit(e);
  }

  lemma ButIrrIs(data: bv32)
    ensures ButIrr(data) == data & 0xffff_bfff
  {
  }

  lemma SameRouteRoutes(apic: bv64, e: bv64, m: Msi, n: Msi)
    requires SameRoute(m, n) && Routes(apic, e, n)
    ensures Routes(apic, e, m)
  {
    hide ButIrr;
    ButIrrIs(m.data);
    ButIrrIs(n.data);
  }

  /** In every run from reset the effective route of a used and pushed pin carries its entry, bit by bit. */
  lemma EveryRouteIsItsEntry(apic: bv64, steps: seq<Step>, n: nat, i: nat)
    requires Feasible(steps) && n <= |steps| && i < PINS
    ensures var p := After(apic, steps, n).pins[i];
            p.used && p.pushed ==> p.active.Some? && Routes(apic, p.entry, p.active.value)
  {
    hide Encode, SameRoute, Routes, After;
    EveryRunIsOk(apic, steps, n);
    var p := After(apic, steps, n).pins[i];
    assert PinOk(p, apic);
    if p.used && p.pushed {
      EncodeRoutes(apic, p.entry);
      SameRouteRoutes(apic, p.entry, p.active.value, Encode(apic, p.entry));
    }
  }

  /** With an aligned APIC base every field can be read out of the route. */
  lemma RouteFields(apic: bv64, e: bv64, m: Msi)
    requires apic & 0xf_ffff == 0 && Routes(apic, e, m)
    ensures m.data as bv64 & 0xff == e & 0xff && (m.data as bv64 >> 8) & 0x7 == (e >> 8) & 0x7
    ensures m.data as bv64 >> 15 == (e >> 15) & 0x1
    ensures (m.low as bv64 >> 12) & 0xff == e >> 56 && (m.low as bv64 >> 2) & 0x1 == (e >> 11) & 0x1
    ensures m.low as bv64 & 0xfff0_0000 == apic & 0xfff0_0000
  {
  }

  /** Outside the read-only bits `e` has the low half `val` and the high half it had in `was`. */
  predicate LowHalfIs(e: bv64, was: bv64, val: bv32) {
    e & 0xffff_ffff_ffff_afff == (was & 0xffff_ffff_0000_0000) | (val as bv64 & 0xffff_afff)
  }

  /** Outside the read-only bits `e` has the high half `val` and the low half it had in `was`. */
  predicate HighHalfIs(e: bv64, was: bv64, val: bv32) {
    e & 0xffff_ffff_ffff_afff == (was & 0xffff_afff) | (val as bv64 << 32)
  }

  lemma LowHalfBits(e: bv64, val: bv32)
    ensures LowHalfIs(WriteLow(e, val), e, val)
  {
  }

  lemma HighHalfBits(e: bv64, val: bv32)
    ensures HighHalfIs(WriteHigh(e, val), e, val)
  {
  }

  lemma WindowWrites(c: Chip, apic: bv64, value: bv32, push: Push)
    requires |c.pins| == PINS && IsRedirection(Register(c.sel))
    ensures Apply(c, apic, WriteWindow(value, push)).pins ==
              WritePins(c.pins, apic, PinOf(Register(c.sel)), IsHigh(Register(c.sel)), value, push)
  {
    hide WritePins, Register;
  }

  lemma LowRegister(reg: int, k: nat)
    requires k < PINS && reg == 0x10 + 2 * k
    ensures IsRedirection(reg) && PinOf(reg) == k && !IsHigh(reg)
  {
  }

  lemma HighRegister(reg: int, k: nat)
    requires k < PINS && reg == 0x11 + 2 * k
    ensures IsRedirection(reg) && PinOf(reg) == k && IsHigh(reg)
  {
  }

  /** Register 0x10 + 2k is the low half of pin k; a write there changes no other pin's entry. */
  lemma GuestWritesLow(c: Chip, apic: bv64, k: nat, value: bv32, push: Push, i: nat)
    requires |c.pins| == PINS && k < PINS && i < PINS && (c.sel & 0xff) as int == 0x10 + 2 * k
    ensures var e := Apply(c, apic, WriteWindow(value, push)).pins[i].entry;
            if i == k then LowHalfIs(e, c.pins[i].entry, value) else e == c.pins[i].entry
  {
    hide WriteLow, WriteHigh, WritePins, Encode, Register, Apply, PinOf, IsHigh, IsRedirection, LowHalfIs,
         HighHalfIs;
    RegisterIs(c.sel);
    LowRegister(Register(c.sel), k);
    WindowWrites(c, apic, value, push);
    WritePinsAt(c.pins, apic, k, false, value, push, i);
    LowHalfBits(c.pins[i].entry, value);
  }

  /** Register 0x11 + 2k is its high half. */
  lemma GuestWritesHigh(c: Chip, apic: bv64, k: nat, value: bv32, push: Push, i: nat)
    requires |c.pins| == PINS && k < PINS && i < PINS && (c.sel & 0xff) as int == 0x11 + 2 * k
    ensures var e := Apply(c, apic, WriteWindow(value, push)).pins[i].entry;
            if i == k then HighHalfIs(e, c.pins[i].entry, value) else e == c.pins[i].entry
  {
    hide WriteLow, WriteHigh, WritePins, Encode, Register, Apply, PinOf, IsHigh, IsRedirection, LowHalfIs,
         HighHalfIs;
    RegisterIs(c.sel);
    HighRegister(Register(c.sel), k);
    WindowWrites(c, apic, value, push);
    WritePinsAt(c.pins, apic, k, true, value, push, i);
    HighHalfBits(c.pins[i].entry, value);
  }

  /** And the window shows that half of pin k. */
  lemma WindowShowsHalf(c: Chip, k: nat)
    requires |c.pins| == PINS && k < PINS
    ensures (c.sel & 0xff) as int == 0x10 + 2 * k ==> Window(c) == (c.pins[k].entry & 0xffff_ffff) as bv32
    ensures (c.sel & 0xff) as int == 0x11 + 2 * k ==> Window(c) == (c.pins[k].entry >> 32) as bv32
  {
    hide Register, PinOf, IsHigh, IsRedirection;
    var reg := Register(c.sel);
    RegisterIs(c.sel);
    if reg == 0x10 + 2 * k {
      LowRegister(reg, k);
    } else if reg == 0x11 + 2 * k {
      HighRegister(reg, k);
    }
  }

  lemma RegisterIs(sel: bv32)
    ensures Register(sel) == (sel & 0xff) as int
  {
  }

  predicate IsLevel(e: bv64) {
    e & 0x8000 != 0
  }

  predicate HasVector(e: bv64, vector: bv64) {
    e & 0xff == vector
  }

  function ClearBit14(e: bv64): bv64 {
    e & 0xffff_ffff_ffff_bfff
  }

  function SetBit14(e: bv64): bv64 {
    e | 0x4000
  }

  function ClearBit12(e: bv64): bv64 {
    e & 0xffff_ffff_ffff_efff
  }

  lemma LevelBit(e: bv64)
    ensures TriggerMode(e) == 1 <==> IsLevel(e)
  {
  }

  lemma Bit14(e: bv64)
    ensures SetRemoteIrr(e, false) == ClearBit14(e) && SetRemoteIrr(e, true) == SetBit14(e)
  {
  }

  lemma EndedBits(e: bv64, vector: bv64)
    ensures Ended(e, vector) == if HasVector(e, vector) && IsLevel(e) then ClearBit14(e) else e
  {
    hide IsLevel, TriggerMode, SetRemoteIrr, ClearBit14, SetBit14;
    LevelBit(e);
    Bit14(e);
  }

  /** The end of an interrupt clears bit 14 of the level-triggered pins with that vector and of no others. */
  lemma EndClearsItsVector(c: Chip, apic: bv64, vector: bv64, i: nat)
    requires |c.pins| == PINS && i < PINS
    ensures var p := c.pins[i];
            Apply(c, apic, Step.EndOfInterrupt(vector)).pins[i] ==
              if HasVector(p.entry, vector) && IsLevel(p.entry) then p.(entry := ClearBit14(p.entry)) else p
  {
    hide Ended, IsLevel, HasVector, ClearBit14;
    EndedBits(c.pins[i].entry, vector);
  }

  lemma ServicedBits(e: bv64)
    ensures ClearDeliveryStatus(if TriggerMode(e) == 1 then SetRemoteIrr(e, true) else e) ==
              ClearBit12(if IsLevel(e) then SetBit14(e) else e)
  {
    hide IsLevel, TriggerMode, SetRemoteIrr, ClearBit14, SetBit14, ClearDeliveryStatus, ClearBit12;
    LevelBit(e);
    Bit14(e);
    Bit12(e);
    Bit12(SetBit14(e));
  }

  lemma Bit12(e: bv64)
    ensures ClearDeliveryStatus(e) == ClearBit12(e)
  {
  }

  /** A delivery sets bit 14 of its pin if that is level triggered, clears bit 12, and touches no other pin. */
  lemma DeliveryBits(c: Chip, apic: bv64, irq: nat, i: nat)
    requires |c.pins| == PINS && irq < PINS && i < PINS
    ensures var p := c.pins[i];
            Apply(c, apic, Service(irq, true)).pins[i] ==
              if i == irq then p.(entry := ClearBit12(if IsLevel(p.entry) then SetBit14(p.entry) else p.entry)) else p
  {
    hide ClearDeliveryStatus, SetRemoteIrr, TriggerMode, IsLevel, SetBit14, ClearBit12;
    ServicedBits(c.pins[i].entry);
  }

  /**
    A guest that programs both halves of a pin, its updates taking effect, gets the route it wrote: the
    low word's bits 0-10 and 15 as data, the high word's top byte as destination, bit 16 as mask.
   */
  lemma ProgrammedRoute(c: Chip, apic: bv64, k: nat, low: bv32, high: bv32, selLow: bv32, selHigh: bv32)
    requires |c.pins| == PINS && k < PINS
    requires (selLow & 0xff) as int == 0x10 + 2 * k && (selHigh & 0xff) as int == 0x11 + 2 * k
    ensures var c1 := Apply(Apply(c, apic, Select(selHigh)), apic, WriteWindow(high, Done));
            var c2 := Apply(Apply(c1, apic, Select(selLow)), apic, WriteWindow(low, Done));
            var p := c2.pins[k];
            && p.used && p.pushed && p.active.Some? && p.active.value.data & 0xffff_bfff == low & 0x87ff
            && (p.active.value.masked <==> low & 0x1_0000 != 0)
            && p.active.value.low == ((apic & 0xffff_ffff) as bv32) | ((high >> 24) << 12) | ((low & 0x800) >> 9) | 0x8
  {
    hide WriteLow, WriteHigh, Encode, Routes, Register, WritePins, PinOf, IsHigh, IsRedirection;
    var s1 := Apply(c, apic, Select(selHigh));
    var c1 := Apply(s1, apic, WriteWindow(high, Done));
    RegisterIs(selHigh);
    HighRegister(Register(selHigh), k);
    WindowWrites(s1, apic, high, Done);
    WritePinsAt(s1.pins, apic, k, true, high, Done, k);
    var s2 := Apply(c1, apic, Select(selLow));
    RegisterIs(selLow);
    LowRegister(Register(selLow), k);
    WindowWrites(s2, apic, low, Done);
    WritePinsAt(s2.pins, apic, k, false, low, Done, k);
    var e := WriteLow(WriteHigh(c.pins[k].entry, high), low);
    EncodeRoutes(apic, e);
    ProgrammedBits(apic, c.pins[k].entry, low, high, Encode(apic, e));
  }

  lemma ProgrammedBits(apic: bv64, was: bv64, low: bv32, high: bv32, m: Msi)
    requires Routes(apic, WriteLow(WriteHigh(was, high), low), m)
    ensures m.data & 0xffff_bfff == low & 0x87ff && (m.masked <==> low & 0x1_0000 != 0)
    ensures m.low == ((apic & 0xffff_ffff) as bv32) | ((high >> 24) << 12) | ((low & 0x800) >> 9) | 0x8
  {
  }

  // ---------------------------------------------------------------- what the guest reads

  function IdWord(id: bv32): bv32 {
    (id & 0xf) << 24
  }

  /** What the data window shows: the register selected. */
  function Window(c: Chip): bv32
    requires |c.pins| == PINS
  {
    var reg := Register(c.sel);
    if reg == REG_VERSION then VERSION_ID
    else if reg == REG_ID || reg == REG_ARBITRATION_ID then IdWord(c.id)
    else if IsRedirection(reg) then ReadEntry(c.pins[PinOf(reg)].entry, IsHigh(reg))
    else 0
  }

  /** A half of an entry read back after `value` was written to it, `was` having been read there before. */
  function HalfBack(high: bool, value: bv32, was: bv32): bv32 {
    if high then value else (value & 0xffff_afff) | (was & 0x5000)
  }

  /** What a guest that wrote `value` to register `reg` reads there, having read `was` before. */
  function ReadBack(reg: int, value: bv32, was: bv32): bv32 {
    if reg == REG_ID then value & 0x0f00_0000 else if IsRedirection(reg) then HalfBack(IsHigh(reg), value, was) else was
  }

  lemma EntryReadsBack(e: bv64, high: bool, value: bv32)
    ensures ReadEntry(WriteEntry(e, high, value), high) == HalfBack(high, value, ReadEntry(e, high))
    ensures ReadEntry(WriteEntry(e, high, value), !high) == ReadEntry(e, !high)
  {
    hide WriteLow, WriteHigh;
    LowReadsBack(e, value);
    LowKeepsHigh(e, value);
    HighReadsBack(e, value);
    HighKeepsLow(e, value);
  }

  lemma IdReadsBack(value: bv32)
    ensures IdWord((value >> 24) & 0xf) == value & 0x0f00_0000
  {
  }

  lemma SelectedReadsBack(c: Chip, apic: bv64, value: bv32, push: Push)
    requires |c.pins| == PINS
    ensures Window(Apply(c, apic, WriteWindow(value, push))) == ReadBack(Register(c.sel), value, Window(c))
  {
    hide Encode, WriteEntry, ReadEntry, WritePins, Register, IdWord, HalfBack;
    var reg := Register(c.sel);
    IdReadsBack(value);
    if reg != REG_ID && IsRedirection(reg) {
      var i := PinOf(reg);
      EntryReadsBack(c.pins[i].entry, IsHigh(reg), value);
      WritePinsAt(c.pins, apic, i, IsHigh(reg), value, push, i);
    }
  }

  lemma OthersReadSame(c: Chip, apic: bv64, value: bv32, push: Push, other: bv32)
    requires |c.pins| == PINS && Register(other) != Register(c.sel)
    requires !(Register(c.sel) == REG_ID && Register(other) == REG_ARBITRATION_ID)
    ensures Window(Apply(c, apic, WriteWindow(value, push)).(sel := other)) == Window(c.(sel := other))
  {
    hide Encode, WriteEntry, ReadEntry, WritePins, Register, IdWord, HalfBack;
    var reg, r := Register(c.sel), Register(other);
    if reg != REG_ID && IsRedirection(reg) && IsRedirection(r) {
      var i := PinOf(reg);
      EntryReadsBack(c.pins[i].entry, IsHigh(reg), value);
      WritePinsAt(c.pins, apic, i, IsHigh(reg), value, push, PinOf(r));
    }
  }

  /**
    Selecting a register and writing the window: a redirection half reads back as written outside its
    read-only bits, the identification register as its four bits, and a register that cannot be written
    as before. Every register other than the one written reads as before, but that the arbitration
    register mirrors the identification register.
   */
  lemma WriteReadsBack(c: Chip, apic: bv64, sel: bv32, value: bv32, push: Push, other: bv32)
    requires |c.pins| == PINS
    ensures var before := Apply(c, apic, Select(sel));
            var after := Apply(before, apic, WriteWindow(value, push));
            && Window(after) == ReadBack(Register(sel), value, Window(before))
            && (Register(other) != Register(sel) &&
                !(Register(sel) == REG_ID && Register(other) == REG_ARBITRATION_ID) ==>
                  Window(Apply(after, apic, Select(other))) == Window(Apply(c, apic, Select(other))))
  {
    hide Window, ReadBack, WritePins, Register;
    var before := Apply(c, apic, Select(sel));
    SelectedReadsBack(before, apic, value, push);
    if Register(other) != Register(sel) && !(Register(sel) == REG_ID && Register(other) == REG_ARBITRATION_ID) {
      OthersReadSame(before, apic, value, push, other);
      assert before.(sel := other) == Apply(c, apic, Select(other));
    }
  }

  // ---------------------------------------------------------------- the device

  /** The interrupt source group: routes recorded by the device, routes in effect, and the pins triggered so far. */
  class Group {
    var staged: seq<Option<Msi>>
    var active: seq<Option<Msi>>
    var sent: seq<nat>
    const reliable: bool

    constructor (reliable: bool)
      ensures |staged| == |active| == PINS && this.reliable == reliable
      ensures sent == [] && forall i :: 0 <= i < PINS ==> staged[i] == None && active[i] == None
    {
      staged, active, sent, this.reliable := seq(PINS, i => None), seq(PINS, i => None), [], reliable;
    }

    method Update(irq: nat, m: Msi, setGsi: bool) returns (push: Push)
      requires |staged| == |active| == PINS && irq < PINS
      modifies this`staged, this`active
      ensures staged == if push == Refused then old(staged) else old(staged)[irq := Some(m)]
      ensures active == if push == Done && setGsi then staged else old(active)
      ensures reliable ==> push == Done
    {
      var outcome: nat := *;
      if !reliable && outcome == 0 {
        return Refused;
      }
      staged := staged[irq := Some(m)];
      if setGsi {
        if !reliable && outcome == 1 {
          return Recorded;
        }
        active := staged;
      }
      return Done;
    }

    method SetGsi() returns (res: Outcome)
      modifies this`active
      ensures active == if res == Ok then staged else old(active)
      ensures reliable ==> res == Ok
    {
      var fails: bool := *;
      if fails && !reliable {
        return Err;
      }
      active := staged;
      return Ok;
    }

    method Trigger(irq: nat) returns (res: Outcome)
      modifies this`sent
      ensures sent == if res == Ok then old(sent) + [irq] else old(sent)
      ensures reliable ==> res == Ok
    {
      var fails: bool := *;
      if fails && !reliable {
        return Err;
      }
      sent := sent + [irq];
      return Ok;
    }
  }

  datatype Snapshot = Snapshot(id: bv32, sel: bv32, entries: seq<bv64>, used: seq<bool>, apic: bv64)

  function Pins(entries: seq<bv64>, used: seq<bool>, staged: seq<Option<Msi>>, active: seq<Option<Msi>>,
                pushed: seq<bool>):
    (r: seq<Pin>)
    requires |entries| == |used| == |staged| == |active| == |pushed| == PINS
    ensures |r| == PINS
  {
    seq(PINS, i requires 0 <= i < PINS => Pin(entries[i], used[i], staged[i], active[i], pushed[i]))
  }

  /** The arrays of a chip after a write to a redirection register. */
  lemma WritePinsAre(es: seq<bv64>, us: seq<bool>, staged: seq<Option<Msi>>, active: seq<Option<Msi>>,
                     pushed: seq<bool>, apic: bv64, i: nat, high: bool, value: bv32, push: Push)
    requires |es| == |us| == |staged| == |active| == |pushed| == PINS && i < PINS
    ensures var e := WriteEntry(es[i], high, value);
            var staged' := if push == Refused then staged else staged[i := Some(Encode(apic, e))];
            Pins(es[i := e], us[i := true], staged', if push == Done then staged' else active,
                 pushed[i := push == Done]) ==
            WritePins(Pins(es, us, staged, active, pushed), apic, i, high, value, push)
  {
    hide Encode, WriteEntry;
  }

  class Device {
    const apic: bv64
    const group: Group
    const entries: array<bv64>
    const used: array<bool>
    var idReg: bv32
    var regSel: bv32
    ghost var pushed: seq<bool>

    ghost predicate Shaped()
      reads this, group
    {
      && entries as object != used as object
      && entries.Length == used.Length == |group.staged| == |group.active| == |pushed| == PINS
    }

    ghost function State(): Chip
      requires Shaped()
      reads this, group, entries, used
    {
      Chip(idReg, regSel, Pins(entries[..], used[..], group.staged, group.active, pushed))
    }

    /** At reset every entry is masked and nothing is used. */
    constructor (apic: bv64, group: Group)
      requires |group.staged| == |group.active| == PINS
      requires forall i :: 0 <= i < PINS ==> group.staged[i] == None && group.active[i] == None
      ensures Shaped() && State() == ResetChip() && this.apic == apic && this.group == group
      ensures fresh(entries) && fresh(used)
    {
      this.apic, this.group, idReg, regSel := apic, group, 0, 0;
      entries := new bv64[PINS](i => RESET_ENTRY);
      used := new bool[PINS](i => false);
      pushed := seq(PINS, i => false);
    }

    /** Restores the registers of a snapshot; no route is pushed yet. */
    constructor FromSnapshot(snap: Snapshot, group: Group)
      requires |snap.entries| == |snap.used| == |group.staged| == |group.active| == PINS
      ensures Shaped() && this.apic == snap.apic && this.group == group && idReg == snap.id && regSel == snap.sel
      ensures entries[..] == snap.entries && used[..] == snap.used && fresh(entries) && fresh(used)
    {
      this.apic, this.group, idReg, regSel := snap.apic, group, snap.id, snap.sel;
      entries := new bv64[PINS](i requires 0 <= i < PINS => snap.entries[i]);
      used := new bool[PINS](i requires 0 <= i < PINS => snap.used[i]);
      pushed := seq(PINS, i => false);
    }

    /** Pushes the routes of the used pins, encoded afresh, and puts them into effect together. */
    method EnableUsed() returns (res: Outcome)
      requires Shaped()
      modifies this`pushed, group`staged, group`active
      ensures Shaped()
      ensures res == Ok ==> forall i :: 0 <= i < PINS && used[i] ==>
                pushed[i] && group.staged[i] == group.active[i] == Some(Encode(apic, entries[i]))
      ensures res == Ok ==> pushed == used[..] && group.active == group.staged
      ensures res == Err ==> pushed == old(pushed) && group.active == old(group.active)
      ensures forall i :: 0 <= i < PINS && !used[i] ==> group.staged[i] == old(group.staged)[i]
      ensures group.reliable ==> res == Ok
    {
      hide Encode;
      var irq := 0;
      while irq < PINS
        invariant 0 <= irq <= PINS && Shaped() && pushed == old(pushed) && group.active == old(group.active)
        invariant forall i :: 0 <= i < PINS && !used[i] ==> group.staged[i] == old(group.staged)[i]
        invariant forall i :: 0 <= i < irq && used[i] ==> group.staged[i] == Some(Encode(apic, entries[i]))
      {
        if used[irq] {
          var push := group.Update(irq, Encode(apic, entries[irq]), false);
          if push != Done {
            return Err;
          }
        }
        irq := irq + 1;
      }
      res := group.SetGsi();
      if res == Ok {
        pushed := used[..];
      }
    }

    method Save() returns (snap: Snapshot)
      requires Shaped()
      ensures snap == Snapshot(idReg, regSel, entries[..], used[..], apic)
    {
      snap := Snapshot(idReg, regSel, entries[..], used[..], apic);
    }

    /** A guest write to the device: register select, or the register selected. */
    method Write(offset: int, len: nat, value: bv32) returns (ghost push: Push)
      requires Shaped()
      modifies this, group`staged, group`active, entries, used
      ensures Shaped()
      ensures State() == if len != 4 then old(State())
                         else if offset % 0x100 == 0 then Apply(old(State()), apic, Select(value))
                         else if offset % 0x100 == IOWIN_OFF then Apply(old(State()), apic, WriteWindow(value, push))
                         else old(State())
      ensures group.reliable ==> push == Done
    {
      hide Encode, WriteEntry;
      push := Done;
      if len != 4 {
        return;
      }
      if offset % 0x100 == 0 {
        regSel := value;
      } else if offset % 0x100 == IOWIN_OFF {
        push := WriteRegister(value);
      }
    }

    method WriteRegister(value: bv32) returns (ghost push: Push)
      requires Shaped()
      modifies this, group`staged, group`active, entries, used
      ensures Shaped() && State() == Apply(old(State()), apic, WriteWindow(value, push))
      ensures group.reliable ==> push == Done
    {
      hide Encode, WriteEntry;
      push := Done;
      var reg := Register(regSel);
      if reg == REG_VERSION {
        return;
      }
      if reg == REG_ID {
        idReg := (value >> 24) & 0xf;
        return;
      }
      if IsRedirection(reg) {
        push := WriteRedirection(PinOf(reg), IsHigh(reg), value);
      }
    }

    method WriteRedirection(index: nat, high: bool, value: bv32) returns (ghost push: Push)
      requires Shaped() && index < PINS
      modifies this`pushed, group`staged, group`active, entries, used
      ensures Shaped() && idReg == old(idReg) && regSel == old(regSel)
      ensures State().pins == WritePins(old(State()).pins, apic, index, high, value, push)
      ensures group.reliable ==> push == Done
    {
      hide Encode, WriteEntry, WritePins, Pins;
      ghost var es, us, staged, active := entries[..], used[..], group.staged, group.active;
      entries[index] := WriteEntry(entries[index], high, value);
      var outcome := group.Update(index, Encode(apic, entries[index]), true);
      push := outcome;
      pushed := pushed[index := push == Done];
      used[index] := true;
      assert entries[..] == es[index := WriteEntry(es[index], high, value)] && used[..] == us[index := true];
      WritePinsAre(es, us, staged, active, old(pushed), apic, index, high, value, push);
    }

    /** Delivers an interrupt; a level-triggered one sets remote IRR until its end. */
    method ServiceIrq(irq: nat) returns (res: Outcome)
      requires Shaped() && irq < PINS
      modifies entries, group`sent
      ensures Shaped() && State() == Apply(old(State()), apic, Service(irq, res == Ok))
      ensures group.sent == if res == Ok then old(group.sent) + [irq] else old(group.sent)
      ensures group.reliable ==> res == Ok
    {
      hide ClearDeliveryStatus, SetRemoteIrr, TriggerMode, Encode;
      res := group.Trigger(irq);
      if res == Err {
        return;
      }
      if TriggerMode(entries[irq]) == 1 {
        entries[irq] := SetRemoteIrr(entries[irq], true);
      }
      entries[irq] := ClearDeliveryStatus(entries[irq]);
      ghost var goal := Apply(old(State()), apic, Service(irq, true)).pins;
      forall k | 0 <= k < PINS
        ensures State().pins[k] == goal[k]
      {
      }
    }

    /** The end of an interrupt: clears remote IRR of the level-triggered pins with that vector. */
    method EndOfInterrupt(vector: bv64)
      requires Shaped()
      modifies entries
      ensures Shaped() && State() == Apply(old(State()), apic, Step.EndOfInterrupt(vector))
    {
      hide SetRemoteIrr, TriggerMode, Vector, Encode;
      ghost var was := entries[..];
      for i := 0 to PINS
        invariant forall k :: 0 <= k < PINS ==> entries[k] == if k < i then Ended(was[k], vector) else was[k]
      {
        if Vector(entries[i]) == vector && TriggerMode(entries[i]) == 1 {
          entries[i] := SetRemoteIrr(entries[i], false);
        }
      }
      ghost var goal := Apply(old(State()), apic, Step.EndOfInterrupt(vector)).pins;
      forall k | 0 <= k < PINS
        ensures State().pins[k] == goal[k]
      {
      }
    }

    /** A guest read of the device: the select register, or the register selected. */
    method Read(offset: int, len: nat) returns (value: Option<bv32>)
      requires Shaped()
      ensures value == if len != 4 then None
                       else if offset % 0x100 == 0 then Some(State().sel)
                       else if offset % 0x100 == IOWIN_OFF then Some(Window(State()))
                       else None
    {
      hide ReadEntry, Window;
      if len != 4 {
        return None;
      }
      if offset % 0x100 == 0 {
        return Some(regSel);
      }
      if offset % 0x100 == IOWIN_OFF {
        var word := ReadRegister();
        return Some(word);
      }
      return None;
    }

    method ReadRegister() returns (value: bv32)
      requires Shaped()
      ensures value == Window(State())
    {
      hide ReadEntry;
      var reg := Register(regSel);
      if reg == REG_VERSION {
        return VERSION_ID;
      }
      if reg == REG_ID || reg == REG_ARBITRATION_ID {
        return (idReg & 0xf) << 24;
      }
      if IsRedirection(reg) {
        return ReadEntry(entries[PinOf(reg)], IsHigh(reg));
      }
      return 0;
    }
  }

  /** Saving a device and restoring it reproduces its registers and, on used pins, its routes up to bit 14. */
  method SaveAndRestore(dev: Device, group: Group) returns (res: Outcome, copy: Device)
    requires dev.Shaped() && ChipOk(dev.State(), dev.apic) && |group.staged| == |group.active| == PINS &&
             group != dev.group
    modifies group
    ensures fresh(copy) && copy.Shaped()
    ensures copy.idReg == dev.idReg && copy.regSel == dev.regSel
    ensures copy.entries[..] == dev.entries[..] && copy.used[..] == dev.used[..]
    ensures res == Ok ==> forall i :: 0 <= i < PINS && dev.used[i] && dev.pushed[i] ==>
              && copy.group.active[i].Some? && dev.group.active[i].Some?
              && SameRoute(copy.group.active[i].value, dev.group.active[i].value)
    ensures group.reliable ==> res == Ok
  {
    hide Encode, SameRoute;
    var snap := dev.Save();
    copy := new Device.FromSnapshot(snap, group);
    res := copy.EnableUsed();
    if res == Ok {
      forall i | 0 <= i < PINS && dev.used[i] && dev.pushed[i]
        ensures copy.group.active[i].Some? && dev.group.active[i].Some?
             && SameRoute(copy.group.active[i].value, dev.group.active[i].value)
      {
        assert PinOk(dev.State().pins[i], dev.apic);
        SameRouteBack(dev.group.active[i].value, Encode(dev.apic, dev.entries[i]));
      }
    }
  }
}
