/** Which device a client is shown: its ids, its name, its serial and its port, from the bus to the client. */
module Identity {
  import opened Bytes
  import opened Wrappers
  import opened Reports
  import opened Dock
  import opened Replica
  import opened Watcher

  /** What is shown of a text: as much as fits into 31 bytes and holds no NUL, and not a byte less. */
  predicate IsShownOf(shown: seq<uint8>, text: seq<uint8>) {
    && shown <= text && |shown| <= 31 && NulFree(shown)
    && (|shown| == 31 || |shown| == |text| || text[|shown|] == 0)
  }

  predicate Shows(c: ChildDeviceInfo, vendorId: uint16, productId: uint16, name: seq<uint8>, serial: Serial,
                  slot: uint8, base: uint16)
  {
    && c.connected && c.slotIndex == slot
    && c.vendorId == vendorId && c.productId == productId
    && c.productNameLen <= 32 && IsShownOf(c.productName[..c.productNameLen], name)
    && c.serialLen <= 32 && IsShownOf(c.serialNumber[..c.serialLen], serial)
    && c.tcpPort == (if base + slot <= 65535 then base + slot else 65535)
  }

  lemma VisibleIsShown(text: seq<uint8>)
    ensures var kept := FirstBytes(text, 31); IsShownOf(Visible(PadTo32(kept), |kept|), text)
  {
    var kept := FirstBytes(text, 31);
    var shown := Visible(PadTo32(kept), |kept|);
    assert FirstBytes(PadTo32(kept), Min(|kept|, 31)) == kept;
    assert shown == kept[..FirstNul(kept)];
  }

  /** The record of a slot, as a client sees it. */
  lemma {:induction false} EntryShowsTheDevice(base: uint16, slot: nat, device: Device)
    requires slot < MAX_CHILD_SLOTS
    ensures var e := EntryFor(base, slot, device);
      && e.serial == device.serial && e.port == e.childInfo.tcpPort
      && Shows(ClientView(e.childInfo), device.vendorId, device.productId, device.modelName, device.serial, slot, base)
  {
    hide Visible, PadTo32, FirstBytes, IsShownOf;
    VisibleIsShown(device.modelName);
    VisibleIsShown(device.serial);
    var c := EntryFor(base, slot, device).childInfo;
    PaddedPrefix(Visible(c.productName, c.productNameLen));
    PaddedPrefix(Visible(c.serialNumber, c.serialLen));
  }

  lemma PaddedPrefix(text: seq<uint8>)
    requires |text| <= 31
    ensures PadTo32(text)[..|text|] == text
  {
  }

  /** After an attach every replica that holds the table shows the device in its slot. */
  lemma {:induction false} AttachShowsTheDevice(d: Dock, device: Device)
    ensures var table, slot := ClientTable(Attach(d, device)), TargetSlot(d, device.serial);
      && slot in table
      && Shows(table[slot], device.vendorId, device.productId, device.modelName, device.serial, slot, d.secondaryPort)
  {
    hide Shows, EntryFor, TargetSlot, ClientView;
    EntryShowsTheDevice(d.secondaryPort, TargetSlot(d, device.serial), device);
  }

  // ----- Over histories of the dock -----

  ghost predicate SlotShows(d: Dock, ops: seq<DockOp>, slot: uint8)
    requires slot in ClientTable(d)
  {
    exists device :: AttachOp(device) in ops && device.serial == d.slots[slot].value.serial &&
      Shows(ClientTable(d)[slot], device.vendorId, device.productId, device.modelName, device.serial, slot,
            d.secondaryPort)
  }

  /** Over any history, every slot taken shows a device attached in it, under the slot's serial. */
  lemma {:induction false} TableShowsAttachedDevices(secondaryPort: uint16, ops: seq<DockOp>)
    ensures var d := ApplyAll(NewDock(secondaryPort), ops);
      forall slot: uint8 :: slot in ClientTable(d) ==> SlotShows(d, ops, slot)
    decreases |ops|
  {
    hide Shows, Apply, ClientView;
    var start := NewDock(secondaryPort);
    if ops != [] {
      var front, op := ops[..|ops| - 1], ops[|ops| - 1];
      TableShowsAttachedDevices(secondaryPort, front);
      assert ops == front + [op];
      ApplyAppend(start, front, [op]);
      OneOp(ApplyAll(start, front), op);
      var d, d' := ApplyAll(start, front), ApplyAll(start, ops);
      forall slot: uint8 | slot in ClientTable(d') ensures SlotShows(d', ops, slot) {
        OpShows(d, front, op, slot);
      }
    }
  }

  lemma OpShows(d: Dock, front: seq<DockOp>, op: DockOp, slot: uint8)
    requires slot in ClientTable(d) ==> SlotShows(d, front, slot)
    requires slot in ClientTable(Apply(d, op))
    ensures SlotShows(Apply(d, op), front + [op], slot)
  {
    hide Shows, ClientView, EntryFor, TargetSlot, FindSerial;
    var d' := Apply(d, op);
    if op.AttachOp? && slot == TargetSlot(d, op.device.serial) {
      AttachShowsTheDevice(d, op.device);
      EntryShowsTheDevice(d.secondaryPort, slot, op.device);
      assert op in front + [op];
    } else {
      assert slot in ClientTable(d) && d'.slots[slot] == d.slots[slot];
      var device :| AttachOp(device) in front && device.serial == d.slots[slot].value.serial &&
        Shows(ClientTable(d)[slot], device.vendorId, device.productId, device.modelName, device.serial, slot,
              d.secondaryPort);
      assert AttachOp(device) in front + [op];
    }
  }

  // ----- From the bus -----

  /** Listed by some scan of the run. */
  ghost predicate Listed(steps: seq<Step>, dev: ListedDevice) {
    exists k :: 0 <= k < |steps| && steps[k].StartScan? && dev in steps[k].listed
  }

  function ProductShown(dev: ListedDevice, overridePid: Option<uint16>): uint16 {
    if overridePid.Some? then overridePid.value else dev.productId
  }

  /** "UNKNOWN_SERIAL" stands in for a serial the device does not report. */
  function SerialShown(dev: ListedDevice): Serial {
    if dev.serialNumber.Some? then dev.serialNumber.value
    else [0x55, 0x4e, 0x4b, 0x4e, 0x4f, 0x57, 0x4e, 0x5f, 0x53, 0x45, 0x52, 0x49, 0x41, 0x4c]
  }

  predicate ShowsListed(s: WatcherState, slot: uint8, dev: ListedDevice)
    requires slot in ClientTable(s.dock)
  {
    && dev.vendorId in {0x0fd9, 0x1b1c} && dev.opens
    && Shows(ClientTable(s.dock)[slot], dev.vendorId, ProductShown(dev, s.overridePid), dev.modelName, SerialShown(dev),
             slot, s.dock.secondaryPort)
  }

  /**
   A listed device is attached exactly if it is an Elgato or Corsair one, is new,
   and opens; its slot then shows it.
   */
  lemma {:induction false} ListedDeviceIsShown(s: WatcherState, dev: ListedDevice)
    ensures var s' := AttachListed(s, dev); var serial := SerialShown(dev);
      && (s' != s <==> dev.vendorId in {0x0fd9, 0x1b1c} && serial !in s.active && dev.opens)
      && (s' != s ==>
            && s'.active.Keys == s.active.Keys + {serial}
            && var slot := s'.active[serial].slot;
               && slot in ClientTable(s'.dock) && ShowsListed(s', slot, dev)
               && s'.active[serial].port == ClientTable(s'.dock)[slot].tcpPort
               && forall i :: 0 <= i < MAX_CHILD_SLOTS && i != slot ==> s'.dock.slots[i] == s.dock.slots[i])
  {
    hide Shows, ClientView, TargetSlot, EntryFor;
    AttachShowsTheDevice(s.dock, ClaimedDevice(dev, s.overridePid));
    EntryShowsTheDevice(s.dock.secondaryPort, TargetSlot(s.dock, SerialOf(dev)), ClaimedDevice(dev, s.overridePid));
    PortIsShown(s.dock, dev, s.overridePid);
  }

  lemma PortIsShown(d: Dock, dev: ListedDevice, overridePid: Option<uint16>)
    ensures var device := ClaimedDevice(dev, overridePid);
            var slot := TargetSlot(d, device.serial);
      && device.serial == SerialOf(dev)
      && ClientView(EntryFor(d.secondaryPort, slot, device).childInfo).tcpPort == PortOf(d.secondaryPort, slot)
  {
    hide TargetSlot, PortOf, Visible, PadTo32;
  }

  // ----- Over runs of the watcher -----

  ghost predicate SlotIsListed(s: WatcherState, steps: seq<Step>, slot: uint8)
    requires slot in ClientTable(s.dock)
  {
    exists dev :: Listed(steps, dev) && SerialShown(dev) == s.dock.slots[slot].value.serial && ShowsListed(s, slot, dev)
  }

  ghost predicate FromTheBus(s: WatcherState, steps: seq<Step>) {
    && (s.phase.Attaching? ==> forall dev :: dev in s.phase.listed ==> Listed(steps, dev))
    && (forall slot: uint8 :: slot in ClientTable(s.dock) ==> SlotIsListed(s, steps, slot))
  }

  lemma ListedBefore(steps: seq<Step>, step: Step, dev: ListedDevice)
    ensures Listed(steps, dev) ==> Listed(steps + [step], dev)
    ensures step.StartScan? && dev in step.listed ==> Listed(steps + [step], dev)
  {
    var all := steps + [step];
    if Listed(steps, dev) {
      var k :| 0 <= k < |steps| && steps[k].StartScan? && dev in steps[k].listed;
      assert all[k] == steps[k];
    }
    assert all[|steps|] == step;
  }

  /** A slot that a step leaves alone keeps showing what it showed. */
  lemma UntouchedIsListed(s: WatcherState, steps: seq<Step>, step: Step, slot: uint8)
    requires FromTheBus(s, steps) && slot in ClientTable(Next(s, step).dock)
    requires slot in ClientTable(s.dock) && Next(s, step).dock.slots[slot] == s.dock.slots[slot]
    requires Next(s, step).dock.secondaryPort == s.dock.secondaryPort && Next(s, step).overridePid == s.overridePid
    ensures SlotIsListed(Next(s, step), steps + [step], slot)
  {
    hide Shows, Next, Listed, ClientView, SerialShown, ProductShown;
    var dev :| Listed(steps, dev) && SerialShown(dev) == s.dock.slots[slot].value.serial && ShowsListed(s, slot, dev);
    ListedBefore(steps, step, dev);
    assert ShowsListed(Next(s, step), slot, dev);
  }

  lemma AttachIsFromTheBus(s: WatcherState, steps: seq<Step>)
    requires FromTheBus(s, steps) && s.phase.Attaching? && s.phase.done < |s.phase.listed|
    ensures var s' := Next(s, AttachNext);
      forall slot: uint8 :: slot in ClientTable(s'.dock) ==> SlotIsListed(s', steps + [AttachNext], slot)
  {
    hide Listed, Shows, ClientView, AttachListed, SerialShown;
    var s' := Next(s, AttachNext);
    var dev := s.phase.listed[s.phase.done];
    var attached := AttachListed(s, dev);
    ListedDeviceIsShown(s, dev);
    ListedBefore(steps, AttachNext, dev);
    AttachKeepsTheRest(s, dev);
    forall slot: uint8 | slot in ClientTable(s'.dock) ensures SlotIsListed(s', steps + [AttachNext], slot) {
      if attached != s && slot == attached.active[SerialShown(dev)].slot {
        assert ShowsListed(s', slot, dev);
      } else {
        UntouchedIsListed(s, steps, AttachNext, slot);
      }
    }
  }

  lemma AttachKeepsTheRest(s: WatcherState, dev: ListedDevice)
    ensures var s' := AttachListed(s, dev);
      && s'.dock.secondaryPort == s.dock.secondaryPort && s'.overridePid == s.overridePid
      && (s' != s ==>
            var slot := s'.active[SerialShown(dev)].slot;
            slot < MAX_CHILD_SLOTS && s'.dock.slots[slot].Some? && s'.dock.slots[slot].value.serial == SerialShown(dev))
  {
    hide TargetSlot, PortOf, PadTo32, FirstBytes;
  }

  lemma DetachLeavesSlotsAlone(d: Dock, serial: Serial, slot: uint8)
    requires slot in ClientTable(Detach(d, serial))
    ensures slot in ClientTable(d) && Detach(d, serial).slots[slot] == d.slots[slot]
    ensures Detach(d, serial).secondaryPort == d.secondaryPort
  {
    hide FindSerial, ClientView;
  }

  /** Apart from attaching, a step does no more to the dock than detach one serial. */
  lemma OtherStepsDetach(s: WatcherState, step: Step) returns (gone: Option<Serial>)
    requires step.AttachNext? ==> Next(s, step) == s
    ensures Next(s, step).overridePid == s.overridePid
    ensures Next(s, step).dock == if gone.Some? then Detach(s.dock, gone.value) else s.dock
  {
    hide AttachListed, Detach, Seen;
    gone := None;
    match step
    case DrainSignal =>
      if s.phase.Draining? && s.queue != [] && s.queue[0].serial in s.active {
        gone := Some(s.queue[0].serial);
      }
    case RemoveOne(serial) =>
      if s.phase.Removing? && serial in s.phase.pending && serial in s.active {
        gone := Some(serial);
      }
    case _ =>
  }

  lemma ScanKeepsItsList(s: WatcherState, step: Step)
    ensures var s' := Next(s, step);
      s'.phase.Attaching? ==>
        || (s.phase.Attaching? && s'.phase.listed == s.phase.listed)
        || (step.StartScan? && s'.phase.listed == step.listed)
    ensures step.AttachNext? && Next(s, step) != s ==> s.phase.Attaching? && s.phase.done < |s.phase.listed|
  {
    hide AttachListed, Detach, Seen;
  }

  lemma NextIsFromTheBus(s: WatcherState, steps: seq<Step>, step: Step)
    requires FromTheBus(s, steps)
    ensures FromTheBus(Next(s, step), steps + [step])
  {
    hide Listed, SlotIsListed, ClientTable, Next, Detach;
    var s' := Next(s, step);
    ScanKeepsItsList(s, step);
    forall dev | s'.phase.Attaching? && dev in s'.phase.listed ensures Listed(steps + [step], dev) {
      ListedBefore(steps, step, dev);
    }
    if step.AttachNext? && s' != s {
      AttachIsFromTheBus(s, steps);
    } else {
      var gone := OtherStepsDetach(s, step);
      forall slot: uint8 | slot in ClientTable(s'.dock) ensures SlotIsListed(s', steps + [step], slot) {
        if gone.Some? {
          DetachLeavesSlotsAlone(s.dock, gone.value, slot);
        }
        UntouchedIsListed(s, steps, step, slot);
      }
    }
  }

  lemma NothingOnTheBus(secondaryPort: uint16, overridePid: Option<uint16>)
    ensures FromTheBus(Init(secondaryPort, overridePid), [])
  {
  }

  /**
   In every state of every run, each slot taken shows a device that some scan
   listed: its vendor id, its product id or the override, its name and its
   serial, under the slot's port.
   */
  lemma {:induction false} RunShowsListedDevices(secondaryPort: uint16, overridePid: Option<uint16>, steps: seq<Step>)
    ensures FromTheBus(Exec(Init(secondaryPort, overridePid), steps), steps)
    decreases |steps|
  {
    hide FromTheBus, Next, Exec;
    if steps == [] {
      NothingOnTheBus(secondaryPort, overridePid);
      NothingRun(Init(secondaryPort, overridePid));
    } else {
      var front, step := steps[..|steps| - 1], steps[|steps| - 1];
      RunShowsListedDevices(secondaryPort, overridePid, front);
      assert steps == front + [step];
      ExecOneMore(Init(secondaryPort, overridePid), front, step);
      NextIsFromTheBus(Exec(Init(secondaryPort, overridePid), front), front, step);
    }
  }

  lemma NothingRun(s: WatcherState)
    ensures Exec(s, []) == s
  {
  }
}
