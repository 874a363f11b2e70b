/**
 The USB watcher as a state machine.  One turn of its loop drains disconnect
 signals, scans the bus and attaches what is new, then removes what is gone;
 bridge tasks may raise a signal between any two of these steps.
 */
module Watcher {
  import opened Bytes
  import opened Wrappers
  import opened Dock

  const VENDOR_ID_ELGATO: uint16 := 0x0fd9
  const VENDOR_ID_CORSAIR: uint16 := 0x1b1c

  /** The serial used for a device that reports none: "UNKNOWN_SERIAL". */
  const UNKNOWN_SERIAL: Serial :=
    [0x55, 0x4e, 0x4b, 0x4e, 0x4f, 0x57, 0x4e, 0x5f, 0x53, 0x45, 0x52, 0x49, 0x41, 0x4c]

  /** One entry of a bus scan; `opens` says whether claiming it would succeed. */
  datatype ListedDevice = ListedDevice(
    vendorId: uint16,
    productId: uint16,
    serialNumber: Option<Serial>,
    modelName: seq<uint8>,
    opens: bool
  )

  /** `instance` tells apart successive attachments of one serial; the source has no such number. */
  datatype Bridge = Bridge(slot: uint8, port: uint16, instance: nat, signalled: bool)

  datatype Signal = Signal(serial: Serial, instance: nat)

  /** What the watcher knew when it started the current scan. */
  datatype Snapshot = Snapshot(dock: Dock, active: map<Serial, Bridge>)

  datatype Phase =
    | Draining
    | Attaching(listed: seq<ListedDevice>, done: nat, start: Snapshot)
    | Removing(listed: seq<ListedDevice>, start: Snapshot, pending: set<Serial>)

  datatype WatcherState = WatcherState(
    dock: Dock,
    active: map<Serial, Bridge>,
    queue: seq<Signal>,
    instances: nat,
    overridePid: Option<uint16>,
    phase: Phase
  )

  function Init(secondaryPort: uint16, overridePid: Option<uint16>): WatcherState {
    WatcherState(NewDock(secondaryPort), map[], [], 0, overridePid, Draining)
  }

  predicate IsStreamDeck(dev: ListedDevice) {
    dev.vendorId == VENDOR_ID_ELGATO || dev.vendorId == VENDOR_ID_CORSAIR
  }

  function SerialOf(dev: ListedDevice): Serial {
    match dev.serialNumber
    case Some(s) => s
    case None => UNKNOWN_SERIAL
  }

  function Seen(listed: seq<ListedDevice>): set<Serial> {
    set dev | dev in listed && IsStreamDeck(dev) :: SerialOf(dev)
  }

  function Opened(listed: seq<ListedDevice>): set<Serial> {
    set dev | dev in listed && IsStreamDeck(dev) && dev.opens :: SerialOf(dev)
  }

  function ClaimedDevice(dev: ListedDevice, overridePid: Option<uint16>): Device {
    var pid := match overridePid case Some(p) => p case None => dev.productId;
    Device(SerialOf(dev), dev.vendorId, pid, dev.modelName)
  }

  datatype Step =
    | Raise(serial: Serial)
    | DrainSignal
    | StartScan(listed: seq<ListedDevice>)
    | AttachNext
    | FinishAttaching
    | RemoveOne(serial: Serial)
    | FinishScan

  /** The task of an active bridge reports a transfer error; it does so at most once. */
  function RaiseSignal(s: WatcherState, serial: Serial): WatcherState {
    if serial in s.active && !s.active[serial].signalled then
      var bridge := s.active[serial];
      s.(active := s.active[serial := bridge.(signalled := true)],
         queue := s.queue + [Signal(serial, bridge.instance)])
    else s
  }

  /** Removing a bridge aborts its task, so that it raises nothing more. */
  function Drop(s: WatcherState, serial: Serial): WatcherState {
    if serial in s.active then s.(active := s.active - {serial}, dock := Detach(s.dock, serial)) else s
  }

  function AttachListed(s: WatcherState, dev: ListedDevice): WatcherState {
    var serial := SerialOf(dev);
    if IsStreamDeck(dev) && serial !in s.active && dev.opens then
      var slot := TargetSlot(s.dock, serial);
      var bridge := Bridge(slot, PortOf(s.dock.secondaryPort, slot), s.instances, false);
      s.(dock := Attach(s.dock, ClaimedDevice(dev, s.overridePid)),
         active := s.active[serial := bridge],
         instances := s.instances + 1)
    else s
  }

  /** A step that is not enabled changes nothing. */
  function Next(s: WatcherState, step: Step): WatcherState {
    match step
    case Raise(serial) => RaiseSignal(s, serial)
    case DrainSignal =>
      if s.phase.Draining? && s.queue != [] then
        Drop(s.(queue := s.queue[1..]), s.queue[0].serial)
      else s
    case StartScan(listed) =>
      if s.phase.Draining? && s.queue == [] then
        s.(phase := Attaching(listed, 0, Snapshot(s.dock, s.active)))
      else s
    case AttachNext =>
      if s.phase.Attaching? && s.phase.done < |s.phase.listed| then
        AttachListed(s, s.phase.listed[s.phase.done]).(phase := s.phase.(done := s.phase.done + 1))
      else s
    case FinishAttaching =>
      if s.phase.Attaching? && s.phase.done == |s.phase.listed| then
        s.(phase := Removing(s.phase.listed, s.phase.start, s.active.Keys - Seen(s.phase.listed)))
      else s
    case RemoveOne(serial) =>
      if s.phase.Removing? && serial in s.phase.pending then
        Drop(s, serial).(phase := s.phase.(pending := s.phase.pending - {serial}))
      else s
    case FinishScan =>
      if s.phase.Removing? && s.phase.pending == {} then s.(phase := Draining) else s
  }

  function Exec(s: WatcherState, steps: seq<Step>): WatcherState
    decreases |steps|
  {
    if steps == [] then s else Exec(Next(s, steps[0]), steps[1..])
  }

  lemma {:induction false} ExecAppend(s: WatcherState, xs: seq<Step>, ys: seq<Step>)
    ensures Exec(s, xs + ys) == Exec(Exec(s, xs), ys)
    decreases |xs|
  {
    hide Next;
    if xs == [] {
      assert xs + ys == ys;
    } else {
      ExecAppend(Next(s, xs[0]), xs[1..], ys);
      assert (xs + ys)[1..] == xs[1..] + ys;
    }
  }

  lemma ExecOneMore(s: WatcherState, steps: seq<Step>, step: Step)
    ensures Exec(s, steps + [step]) == Next(Exec(s, steps), step)
  {
    hide Next;
    ExecAppend(s, steps, [step]);
    var mid := Exec(s, steps);
    assert Exec(mid, [step]) == Exec(Next(mid, step), []);
  }

  // ----- Invariants of every reachable state -----

  /** The table binds distinct serials, all of them active, to the slot and port their bridge was given. */
  ghost predicate Consistent(s: WatcherState) {
    && TableFits(s.dock)
    && Bound(s.dock)
    && forall i, serial :: HoldsAt(s.dock.slots, i, serial) ==>
         && serial in s.active
         && s.active[serial].slot == i
         && s.active[serial].port == PortOf(s.dock.secondaryPort, i)
  }

  /** A queued signal names the attachment that raised it, or one that is gone; never a newer one. */
  predicate SignalsAreFresh(s: WatcherState) {
    && (forall serial :: serial in s.active ==> s.active[serial].instance < s.instances)
    && (forall sg :: sg in s.queue ==> sg.instance < s.instances)
    && (forall sg :: sg in s.queue && sg.serial in s.active ==>
          s.active[sg.serial].instance == sg.instance && s.active[sg.serial].signalled)
    && (s.phase.Attaching? ==> forall sg :: sg in s.queue ==> sg.serial in s.active)
  }

  predicate SameBridge(a: Bridge, b: Bridge) {
    a.slot == b.slot && a.port == b.port && a.instance == b.instance
  }

  /** What the scan in progress has done to the set of active serials so far. */
  predicate ScanAccounted(s: WatcherState) {
    match s.phase
    case Draining => true
    case Attaching(listed, done, start) =>
      && done <= |listed|
      && s.active.Keys == start.active.Keys + Opened(listed[..done])
      && (forall serial :: serial in start.active ==> SameBridge(s.active[serial], start.active[serial]))
    case Removing(listed, start, pending) =>
      && pending !! Seen(listed)
      && s.active.Keys == (start.active.Keys + Opened(listed)) * Seen(listed) + pending
      && (forall serial :: serial in start.active && serial in s.active ==>
            SameBridge(s.active[serial], start.active[serial]))
  }

  lemma {:induction false} NextKeepsConsistent(s: WatcherState, step: Step)
    requires Consistent(s)
    ensures Consistent(Next(s, step))
  {
    hide TableFits, Bound, Attach, Detach;
    match step
    case DrainSignal => if s.queue != [] { DropKeepsConsistent(s, s.queue[0].serial); }
    case RemoveOne(serial) => DropKeepsConsistent(s, serial);
    case AttachNext =>
      if s.phase.Attaching? && s.phase.done < |s.phase.listed| {
        AttachKeepsConsistent(s, s.phase.listed[s.phase.done]);
      }
    case _ =>
  }

  lemma DropKeepsConsistent(s: WatcherState, serial: Serial)
    requires Consistent(s)
    ensures Consistent(Drop(s, serial))
  {
    hide TableFits, Bound;
    var d' := Detach(s.dock, serial);
    StepFits(s.dock, DetachOp(serial));
    StepKeepsBound(s.dock, DetachOp(serial));
    DetachedSlots(s.dock, serial);
  }

  /** Detaching removes the serial from the table and touches nothing else. */
  lemma DetachedSlots(d: Dock, serial: Serial)
    requires Bound(d)
    ensures Detach(d, serial).secondaryPort == d.secondaryPort
    ensures forall i, x :: HoldsAt(Detach(d, serial).slots, i, x) <==> HoldsAt(d.slots, i, x) && x != serial
  {
    hide TargetSlot;
    var found := FindSerial(d.slots, serial);
    if found.Some? {
      SlotOfBound(d, found.value, serial);
      forall i, x | HoldsAt(d.slots, i, x) && x != serial ensures i != found.value {
      }
    }
  }

  lemma AttachKeepsConsistent(s: WatcherState, dev: ListedDevice)
    requires Consistent(s)
    ensures Consistent(AttachListed(s, dev))
  {
    hide TableFits, Bound, TargetSlot;
    var serial := SerialOf(dev);
    if IsStreamDeck(dev) && serial !in s.active && dev.opens {
      var device := ClaimedDevice(dev, s.overridePid);
      StepFits(s.dock, AttachOp(device));
      var found := FindSerial(s.dock.slots, serial);
      assert found.None?;
      StepKeepsBound(s.dock, AttachOp(device));
      AttachedSlots(s.dock, device);
    }
  }

  /** Attaching puts the serial in its target slot and touches no other slot. */
  lemma AttachedSlots(d: Dock, device: Device)
    ensures var t := TargetSlot(d, device.serial);
      && Attach(d, device).secondaryPort == d.secondaryPort
      && HoldsAt(Attach(d, device).slots, t, device.serial)
      && forall i, x :: i != t ==> (HoldsAt(Attach(d, device).slots, i, x) <==> HoldsAt(d.slots, i, x))
  {
  }

  lemma NextKeepsSignalsFresh(s: WatcherState, step: Step)
    requires SignalsAreFresh(s)
    ensures SignalsAreFresh(Next(s, step))
  {
    hide Attach, Detach, TargetSlot, PortOf, ClaimedDevice, SerialOf, Seen, IsStreamDeck;
    match step
    case Raise(serial) =>
      var s' := RaiseSignal(s, serial);
      if s' != s {
        forall sg | sg in s'.queue ensures sg in s.queue || sg == Signal(serial, s.active[serial].instance) {
        }
      }
    case DrainSignal => if s.queue != [] { assert forall sg :: sg in s.queue[1..] ==> sg in s.queue; }
    case _ =>
  }

  lemma NextKeepsScanAccounted(s: WatcherState, step: Step)
    requires ScanAccounted(s)
    ensures ScanAccounted(Next(s, step))
  {
    hide Attach, Detach, TargetSlot, PortOf, ClaimedDevice, SerialOf, IsStreamDeck, SameBridge;
    match step
    case Raise(serial) => RaiseKeepsBridges(s, serial);
    case StartScan(listed) =>
      assert Opened(listed[..0]) == {};
      SameAsItself();
    case AttachNext =>
      if s.phase.Attaching? && s.phase.done < |s.phase.listed| {
        OpenedGrows(s.phase.listed, s.phase.done);
      }
    case FinishAttaching =>
      if s.phase.Attaching? && s.phase.done == |s.phase.listed| {
        assert s.phase.listed[..s.phase.done] == s.phase.listed;
      }
    case _ =>
  }

  lemma SameAsItself()
    ensures forall b :: SameBridge(b, b)
  {
  }

  lemma RaiseKeepsBridges(s: WatcherState, serial: Serial)
    ensures var s' := RaiseSignal(s, serial);
      && s'.active.Keys == s.active.Keys && s'.phase == s.phase
      && forall x, b :: x in s.active ==> (SameBridge(s'.active[x], b) <==> SameBridge(s.active[x], b))
  {
  }

  lemma OpenedGrows(listed: seq<ListedDevice>, k: nat)
    requires k < |listed|
    ensures Opened(listed[..k + 1])
         == Opened(listed[..k]) + if IsStreamDeck(listed[k]) && listed[k].opens then {SerialOf(listed[k])} else {}
  {
    hide SerialOf, IsStreamDeck;
    assert listed[..k + 1] == listed[..k] + [listed[k]];
    forall dev ensures dev in listed[..k + 1] <==> dev in listed[..k] || dev == listed[k] {
    }
  }

  lemma OpenedIsSeen(listed: seq<ListedDevice>)
    ensures Opened(listed) <= Seen(listed)
  {
  }

  /** All of this holds after any steps whatsoever, from a fresh watcher. */
  lemma {:induction false} EveryRunIsSafe(s: WatcherState, steps: seq<Step>)
    requires Consistent(s) && SignalsAreFresh(s) && ScanAccounted(s)
    ensures var e := Exec(s, steps); Consistent(e) && SignalsAreFresh(e) && ScanAccounted(e)
    decreases |steps|
  {
    hide Consistent, SignalsAreFresh, ScanAccounted, Next;
    if steps != [] {
      NextKeepsConsistent(s, steps[0]);
      NextKeepsSignalsFresh(s, steps[0]);
      NextKeepsScanAccounted(s, steps[0]);
      EveryRunIsSafe(Next(s, steps[0]), steps[1..]);
    }
  }

  lemma InitIsSafe(secondaryPort: uint16, overridePid: Option<uint16>)
    ensures var s := Init(secondaryPort, overridePid); Consistent(s) && SignalsAreFresh(s) && ScanAccounted(s)
  {
  }
}
