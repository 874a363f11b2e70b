/** The dock's slot table: sticky slot allocation, and the log of change events it broadcasts. */
module Dock {
  import opened Bytes
  import opened Wrappers
  import opened Reports

  const MAX_CHILD_SLOTS: nat := 8

  type Serial = seq<uint8>

  datatype SlotEntry = SlotEntry(slotIndex: uint8, port: uint16, serial: Serial, childInfo: ChildDeviceInfo)

  type Slots = s: seq<Option<SlotEntry>> | |s| == MAX_CHILD_SLOTS witness seq(MAX_CHILD_SLOTS, _ => None)

  /** A claimed device, as `attach_device` is told about it. */
  datatype Device = Device(serial: Serial, vendorId: uint16, productId: uint16, modelName: seq<uint8>)

  datatype Dock = Dock(
    secondaryPort: uint16,
    slots: Slots,
    sticky: map<Serial, uint8>,
    events: seq<ChildDeviceInfo>
  )

  function NewDock(secondaryPort: uint16): Dock {
    Dock(secondaryPort, seq(MAX_CHILD_SLOTS, _ => None), map[], [])
  }

  predicate Full(slots: Slots) {
    forall i :: 0 <= i < MAX_CHILD_SLOTS ==> slots[i].Some?
  }

  predicate IsLowestFree(slots: Slots, i: nat) {
    && i < MAX_CHILD_SLOTS
    && slots[i].None?
    && forall j :: 0 <= j < i ==> slots[j].Some?
  }

  function LowestFreeFrom(slots: Slots, i: nat): (r: nat)
    requires i <= MAX_CHILD_SLOTS && forall j :: 0 <= j < i ==> slots[j].Some?
    ensures r < MAX_CHILD_SLOTS
    ensures Full(slots) ==> r == 0
    ensures !Full(slots) ==> IsLowestFree(slots, r)
    decreases MAX_CHILD_SLOTS - i
  {
    if i == MAX_CHILD_SLOTS then 0
    else if slots[i].None? then i
    else LowestFreeFrom(slots, i + 1)
  }

  /** Slot 0 is the fallback when every slot is taken. */
  function LowestFreeSlot(slots: Slots): (r: nat)
    ensures r < MAX_CHILD_SLOTS
    ensures Full(slots) ==> r == 0
    ensures !Full(slots) ==> IsLowestFree(slots, r)
  {
    LowestFreeFrom(slots, 0)
  }

  function TargetSlot(d: Dock, serial: Serial): (r: nat)
    ensures r < MAX_CHILD_SLOTS
    ensures !Full(d.slots) ==> d.slots[r].None?
    ensures Full(d.slots) ==> r == 0
  {
    if serial in d.sticky then
      var idx := d.sticky[serial];
      if idx < MAX_CHILD_SLOTS && d.slots[idx].None? then idx else LowestFreeSlot(d.slots)
    else LowestFreeSlot(d.slots)
  }

  function PortOf(secondaryPort: uint16, slot: nat): uint16
    requires slot < MAX_CHILD_SLOTS
  {
    SaturatingAdd16(secondaryPort, slot)
  }

  function EntryFor(secondaryPort: uint16, slot: nat, device: Device): SlotEntry
    requires slot < MAX_CHILD_SLOTS
  {
    var port := PortOf(secondaryPort, slot);
    SlotEntry(slot, port, device.serial,
              Connected(slot, device.vendorId, device.productId, device.modelName, device.serial, port))
  }

  function Attach(d: Dock, device: Device): Dock {
    var slot := TargetSlot(d, device.serial);
    var entry := EntryFor(d.secondaryPort, slot, device);
    d.(slots := d.slots[slot := Some(entry)],
       sticky := d.sticky[device.serial := slot],
       events := d.events + [entry.childInfo])
  }

  predicate HoldsAt(slots: Slots, i: nat, serial: Serial) {
    i < MAX_CHILD_SLOTS && slots[i].Some? && slots[i].value.serial == serial
  }

  function FindSerialFrom(slots: Slots, serial: Serial, i: nat): (r: Option<nat>)
    requires i <= MAX_CHILD_SLOTS
    ensures r.Some? ==>
      i <= r.value && HoldsAt(slots, r.value, serial) && forall j :: i <= j < r.value ==> !HoldsAt(slots, j, serial)
    ensures r.None? ==> forall j :: i <= j < MAX_CHILD_SLOTS ==> !HoldsAt(slots, j, serial)
    decreases MAX_CHILD_SLOTS - i
  {
    if i == MAX_CHILD_SLOTS then None
    else if HoldsAt(slots, i, serial) then Some(i)
    else FindSerialFrom(slots, serial, i + 1)
  }

  function FindSerial(slots: Slots, serial: Serial): (r: Option<nat>)
    ensures r.Some? ==>
      HoldsAt(slots, r.value, serial) && forall j :: 0 <= j < r.value ==> !HoldsAt(slots, j, serial)
    ensures r.None? ==> forall j :: 0 <= j < MAX_CHILD_SLOTS ==> !HoldsAt(slots, j, serial)
  {
    FindSerialFrom(slots, serial, 0)
  }

  /** The slot is freed, the reservation stays. */
  function Detach(d: Dock, serial: Serial): Dock {
    match FindSerial(d.slots, serial)
    case None => d
    case Some(i) =>
      d.(slots := d.slots[i := None],
         events := d.events + [Disconnected(d.slots[i].value.slotIndex)])
  }

  function ChildDeviceAt(d: Dock, slot: uint8): ChildDeviceInfo {
    if slot < MAX_CHILD_SLOTS && d.slots[slot].Some? then d.slots[slot].value.childInfo else Disconnected(slot)
  }

  function ActiveFrom(slots: seq<Option<SlotEntry>>): seq<ChildDeviceInfo> {
    if slots == [] then []
    else (if slots[0].Some? then [slots[0].value.childInfo] else []) + ActiveFrom(slots[1..])
  }

  function AllActiveChildren(d: Dock): seq<ChildDeviceInfo> {
    ActiveFrom(d.slots)
  }

  datatype DockOp = AttachOp(device: Device) | DetachOp(serial: Serial)

  function Apply(d: Dock, op: DockOp): Dock {
    match op
    case AttachOp(device) => Attach(d, device)
    case DetachOp(serial) => Detach(d, serial)
  }

  function ApplyAll(d: Dock, ops: seq<DockOp>): Dock
    decreases |ops|
  {
    if ops == [] then d else ApplyAll(Apply(d, ops[0]), ops[1..])
  }

  lemma OneOp(d: Dock, op: DockOp)
    ensures ApplyAll(d, [op]) == Apply(d, op)
  {
    hide Apply;
    assert [op][1..] == [];
  }

  lemma OpsOneByOne(d: Dock, a: DockOp, b: DockOp, c: DockOp)
    ensures ApplyAll(d, [a, b]) == Apply(Apply(d, a), b)
    ensures ApplyAll(d, [a, b, c]) == Apply(Apply(Apply(d, a), b), c)
  {
    hide Apply;
    OneOp(Apply(Apply(d, a), b), c);
    OneOp(Apply(d, a), b);
    assert [a, b, c][1..] == [b, c] && [b, c][1..] == [c] && [a, b][1..] == [b];
  }

  lemma {:induction false} ApplyAppend(d: Dock, xs: seq<DockOp>, ys: seq<DockOp>)
    ensures ApplyAll(d, xs + ys) == ApplyAll(ApplyAll(d, xs), ys)
    decreases |xs|
  {
    hide Apply;
    if xs == [] {
      assert xs + ys == ys;
    } else {
      ApplyAppend(Apply(d, xs[0]), xs[1..], ys);
      assert (xs + ys)[1..] == xs[1..] + ys;
    }
  }

  // ----- What every history keeps -----

  predicate EntryFits(secondaryPort: uint16, i: nat, e: SlotEntry)
    requires i < MAX_CHILD_SLOTS
  {
    && e.slotIndex == e.childInfo.slotIndex == i
    && e.port == e.childInfo.tcpPort == PortOf(secondaryPort, i)
    && e.childInfo.connected
    && e.childInfo.serialNumber == PadTo32(FirstBytes(e.serial, 31))
    && e.childInfo.serialLen == |FirstBytes(e.serial, 31)|
    && e.childInfo.productNameLen <= 31
  }

  /** Every entry sits where it says it sits, and reservations name real slots. */
  predicate TableFits(d: Dock) {
    && (forall i :: 0 <= i < MAX_CHILD_SLOTS && d.slots[i].Some? ==> EntryFits(d.secondaryPort, i, d.slots[i].value))
    && (forall s :: s in d.sticky ==> d.sticky[s] < MAX_CHILD_SLOTS)
  }

  lemma {:induction false} TableAlwaysFits(d: Dock, ops: seq<DockOp>)
    requires TableFits(d)
    ensures TableFits(ApplyAll(d, ops)) && ApplyAll(d, ops).secondaryPort == d.secondaryPort
    decreases |ops|
  {
    if ops != [] {
      StepFits(d, ops[0]);
      TableAlwaysFits(Apply(d, ops[0]), ops[1..]);
    }
  }

  lemma StepFits(d: Dock, op: DockOp)
    requires TableFits(d)
    ensures TableFits(Apply(d, op)) && Apply(d, op).secondaryPort == d.secondaryPort
  {
  }

  /** Serials are pairwise distinct, and each attached device holds the reservation for its own slot. */
  ghost predicate Bound(d: Dock) {
    && (forall i, j, s :: HoldsAt(d.slots, i, s) && HoldsAt(d.slots, j, s) ==> i == j)
    && (forall i, s :: HoldsAt(d.slots, i, s) ==> s in d.sticky && d.sticky[s] == i)
  }

  /** The caller's discipline: a serial is attached only while it is not in the table. */
  predicate Disciplined(d: Dock, ops: seq<DockOp>)
    decreases |ops|
  {
    ops == [] ||
    ((ops[0].AttachOp? ==> FindSerial(d.slots, ops[0].device.serial).None?) &&
     Disciplined(Apply(d, ops[0]), ops[1..]))
  }

  lemma StepKeepsBound(d: Dock, op: DockOp)
    requires Bound(d)
    requires op.AttachOp? ==> FindSerial(d.slots, op.device.serial).None?
    ensures Bound(Apply(d, op))
  {
    var d' := Apply(d, op);
    forall i, s | HoldsAt(d'.slots, i, s)
      ensures s in d'.sticky && d'.sticky[s] == i
    {
      if op.AttachOp? && s == op.device.serial {
        assert !HoldsAt(d.slots, i, s);
      } else {
        assert HoldsAt(d.slots, i, s);
      }
    }
  }

  /** Under that discipline the table stays a one-to-one binding that agrees with the reservations. */
  lemma {:induction false} AlwaysBound(d: Dock, ops: seq<DockOp>)
    requires Bound(d) && Disciplined(d, ops)
    ensures Bound(ApplyAll(d, ops))
    decreases |ops|
  {
    hide Bound;
    if ops != [] {
      StepKeepsBound(d, ops[0]);
      AlwaysBound(Apply(d, ops[0]), ops[1..]);
    }
  }

  /** Without it, attaching a serial twice leaves it in two slots. */
  lemma {:induction false} DoubleAttachIsNotBound(device: Device)
    ensures var d := ApplyAll(NewDock(0), [AttachOp(device), AttachOp(device)]);
            HoldsAt(d.slots, 0, device.serial) && HoldsAt(d.slots, 1, device.serial)
  {
    var d1 := Attach(NewDock(0), device);
    var d2 := Attach(d1, device);
    assert IsLowestFree(d1.slots, 1);
    assert [AttachOp(device), AttachOp(device)][1..] == [AttachOp(device)];
    assert ApplyAll(d1, [AttachOp(device)]) == ApplyAll(d2, []);
  }

  /** Ports tell the eight slots apart exactly while the highest one does not saturate. */
  lemma {:induction false} PortsAreDistinctExactly(secondaryPort: uint16)
    ensures (forall i, j :: 0 <= i < j < MAX_CHILD_SLOTS ==> PortOf(secondaryPort, i) != PortOf(secondaryPort, j))
       <==> secondaryPort <= 65528
  {
    if secondaryPort > 65528 {
      assert PortOf(secondaryPort, 6) == PortOf(secondaryPort, 7);
    }
  }

  // ----- Sticky rebinding -----

  predicate NoAttachOf(ops: seq<DockOp>, serial: Serial) {
    forall op :: op in ops && op.AttachOp? ==> op.device.serial != serial
  }

  lemma {:induction false} ReservationSurvives(d: Dock, ops: seq<DockOp>, serial: Serial)
    requires serial in d.sticky && NoAttachOf(ops, serial)
    ensures serial in ApplyAll(d, ops).sticky && ApplyAll(d, ops).sticky[serial] == d.sticky[serial]
    ensures ApplyAll(d, ops).secondaryPort == d.secondaryPort
    decreases |ops|
  {
    if ops != [] {
      assert ops[0] in ops;
      ReservationSurvives(Apply(d, ops[0]), ops[1..], serial);
    }
  }

  /**
   A device detached from slot k and attached again later, whatever happened to
   the others meanwhile: it returns to slot k and to its port if k is free;
   otherwise it takes the lowest free slot; and nobody is displaced unless all
   eight slots are taken.
   */
  lemma {:induction false} StickyRebinding(d: Dock, k: nat, serial: Serial, ops: seq<DockOp>, device: Device)
    requires Bound(d) && TableFits(d) && HoldsAt(d.slots, k, serial)
    requires NoAttachOf(ops, serial) && device.serial == serial
    ensures var before := ApplyAll(Detach(d, serial), ops);
            var after := Attach(before, device);
            var slot := TargetSlot(before, serial);
            && HoldsAt(after.slots, slot, serial)
            && (before.slots[k].None? ==> slot == k && after.slots[k].value.port == d.slots[k].value.port)
            && (before.slots[k].Some? && !Full(before.slots) ==> IsLowestFree(before.slots, slot))
            && (!Full(before.slots) ==>
                  forall i, s :: HoldsAt(before.slots, i, s) ==> HoldsAt(after.slots, i, s))
            && (Full(before.slots) ==> slot == 0)
  {
    hide Bound, Full, FindSerial, LowestFreeSlot, IsLowestFree, PadTo32, FirstBytes, ApplyAll;
    SlotOfBound(d, k, serial);
    ReservationSurvives(Detach(d, serial), ops, serial);
  }

  lemma SlotOfBound(d: Dock, k: nat, serial: Serial)
    requires Bound(d) && HoldsAt(d.slots, k, serial)
    ensures FindSerial(d.slots, serial) == Some(k)
    ensures serial in d.sticky && d.sticky[serial] == k
  {
  }

  // ----- The shared state object -----

  class DockState {
    const secondaryPort: uint16
    const slots: array<Option<SlotEntry>>
    var stickyMap: map<Serial, uint8>
    var hotplug: seq<ChildDeviceInfo>
    var connCounter: uint8

    ghost predicate Valid()
      reads this
    {
      slots.Length == MAX_CHILD_SLOTS
    }

    ghost function State(): Dock
      requires Valid()
      reads this, slots
    {
      Dock(secondaryPort, slots[..], stickyMap, hotplug)
    }

    constructor (secondaryPort: uint16)
      ensures Valid() && fresh(slots)
      ensures State() == NewDock(secondaryPort)
      ensures connCounter == 1
    {
      this.secondaryPort := secondaryPort;
      slots := new Option<SlotEntry>[MAX_CHILD_SLOTS](_ => None);
      stickyMap := map[];
      hotplug := [];
      connCounter := 1;
      new;
      assert slots[..] == NewDock(secondaryPort).slots;
    }

    /** Two `fetch_add`s of an 8-bit counter when the first one yields 0. */
    method NextConnectionId() returns (id: uint8)
      modifies this`connCounter
      ensures id == if old(connCounter) == 0 then 1 else old(connCounter)
      ensures connCounter == (id + 1) % 0x100
    {
      id := connCounter;
      connCounter := (connCounter + 1) % 0x100;
      if id == 0 {
        id := connCounter;
        connCounter := (connCounter + 1) % 0x100;
      }
    }

    method FindLowestFreeSlot() returns (r: nat)
      requires Valid()
      ensures r == LowestFreeSlot(slots[..])
    {
      for i := 0 to slots.Length
        invariant forall j :: 0 <= j < i ==> slots[j].Some?
      {
        if slots[i].None? {
          assert IsLowestFree(slots[..], i);
          return i;
        }
      }
      assert Full(slots[..]);
      return 0;
    }

    method AttachDevice(device: Device) returns (slotIndex: uint8, port: uint16)
      requires Valid()
      modifies this`stickyMap, this`hotplug, slots
      ensures State() == Attach(old(State()), device)
      ensures slotIndex == TargetSlot(old(State()), device.serial)
      ensures port == PortOf(secondaryPort, slotIndex)
    {
      var targetSlot: nat;
      if device.serial in stickyMap {
        var idx := stickyMap[device.serial];
        if idx < MAX_CHILD_SLOTS && slots[idx].None? {
          targetSlot := idx;
        } else {
          targetSlot := FindLowestFreeSlot();
        }
      } else {
        targetSlot := FindLowestFreeSlot();
      }
      slotIndex := targetSlot;
      port := SaturatingAdd16(secondaryPort, slotIndex);
      var childInfo :=
        Connected(slotIndex, device.vendorId, device.productId, device.modelName, device.serial, port);
      slots[targetSlot] := Some(SlotEntry(slotIndex, port, device.serial, childInfo));
      stickyMap := stickyMap[device.serial := slotIndex];
      hotplug := hotplug + [childInfo];
    }

    method DetachDeviceBySerial(serial: Serial) returns (found: Option<(uint8, ChildDeviceInfo)>)
      requires Valid()
      modifies this`hotplug, slots
      ensures State() == Detach(old(State()), serial)
      ensures found.Some? <==> FindSerial(old(State()).slots, serial).Some?
      ensures found.Some? ==> hotplug == old(hotplug) + [found.value.1] && found.value.1 == Disconnected(found.value.0)
    {
      found := None;
      ghost var before := slots[..];
      var i := 0;
      while i < MAX_CHILD_SLOTS
        invariant i <= MAX_CHILD_SLOTS && slots[..] == before && found.None?
        invariant forall j :: 0 <= j < i ==> !HoldsAt(before, j, serial)
      {
        if slots[i].Some? && slots[i].value.serial == serial {
          assert FindSerial(before, serial) == Some(i) by {
            assert HoldsAt(before, i, serial);
          }
          var slotIndex := slots[i].value.slotIndex;
          found := Some((slotIndex, Disconnected(slotIndex)));
          slots[i] := None;
          break;
        }
        assert !HoldsAt(before, i, serial);
        i := i + 1;
      }
      if found.Some? {
        hotplug := hotplug + [found.value.1];
      }
    }

    /** Any history of attaches and detaches, as the watcher makes one. */
    method ApplyOps(ops: seq<DockOp>)
      requires Valid()
      modifies this`stickyMap, this`hotplug, slots
      ensures State() == ApplyAll(old(State()), ops)
    {
      hide Attach, Detach;
      var i := 0;
      while i < |ops|
        invariant i <= |ops|
        invariant ApplyAll(State(), ops[i..]) == ApplyAll(old(State()), ops)
      {
        match ops[i] {
          case AttachOp(device) => var _, _ := AttachDevice(device);
          case DetachOp(serial) => var _ := DetachDeviceBySerial(serial);
        }
        assert ops[i..][1..] == ops[i + 1..];
        i := i + 1;
      }
      assert ops[i..] == [];
    }

    method ChildAt(slotIndex: uint8) returns (c: ChildDeviceInfo)
      requires Valid()
      ensures c == ChildDeviceAt(State(), slotIndex)
    {
      if slotIndex < MAX_CHILD_SLOTS {
        if slots[slotIndex].Some? {
          return slots[slotIndex].value.childInfo;
        }
      }
      return Disconnected(slotIndex);
    }
  }
}

/** The connection counter when several tasks increment it at once. */
module ConnectionIds {
  import opened Bytes

  /** What the n-th increment since start-up returns; the counter starts at 1. */
  function Fetched(n: nat): uint8 {
    (1 + n) % 0x100
  }

  /**
   The id of a caller whose first increment is the `first`-th of all, and whose
   second, if any, is the `second`-th.
   */
  function IdOf(first: nat, second: nat): uint8
    requires first < second
  {
    if Fetched(first) == 0 then Fetched(second) else Fetched(first)
  }

  /** Id 0 escapes exactly when the retry lands a multiple of 256 increments later. */
  lemma {:induction false} ZeroIdIsExact(first: nat, second: nat)
    requires first < second
    ensures IdOf(first, second) == 0 <==> Fetched(first) == 0 && (second - first) % 0x100 == 0
    ensures second - first - 1 < 255 ==> IdOf(first, second) != 0
  {
  }

  /** Ids fetched fewer than 256 increments apart differ, and all of 1..=255 occur, in this order. */
  lemma {:induction false} IdsAreDistinct(m: nat, n: nat)
    requires m < n < m + 0x100
    ensures Fetched(m) != Fetched(n)
    ensures forall k :: 0 <= k < 255 ==> Fetched(k) == k + 1
  {
  }
}
