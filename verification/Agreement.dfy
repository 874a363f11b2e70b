/** When the watcher's map and the dock's table name the same devices, and when they part. */
module Agreement {
  import opened Bytes
  import opened Wrappers
  import opened Reports
  import opened Dock
  import opened Watcher

  // ----- Consequences of the invariants -----

  /**
   Draining a signal never detaches a newer attachment than the one that raised
   it, although the watcher looks bridges up by serial alone.
   */
  lemma {:induction false} NoStaleDisconnect(secondaryPort: uint16, overridePid: Option<uint16>, steps: seq<Step>)
    ensures var s := Exec(Init(secondaryPort, overridePid), steps);
            forall serial :: serial in s.active && serial !in Next(s, DrainSignal).active ==>
              s.queue != [] && s.queue[0] == Signal(serial, s.active[serial].instance)
  {
    hide Exec, Consistent, ScanAccounted;
    var start := Init(secondaryPort, overridePid);
    InitIsSafe(secondaryPort, overridePid);
    EveryRunIsSafe(start, steps);
    DrainRespectsInstances(Exec(start, steps));
  }

  lemma DrainRespectsInstances(s: WatcherState)
    requires SignalsAreFresh(s)
    ensures forall serial :: serial in s.active && serial !in Next(s, DrainSignal).active ==>
              s.queue != [] && s.queue[0] == Signal(serial, s.active[serial].instance)
  {
    hide Detach;
    if s.queue != [] {
      assert s.queue[0] in s.queue;
    }
  }

  /**
   When a scan is over, the active serials are exactly the Stream Decks seen,
   except those that were not active before and could not be opened; and those
   active before kept their slot, port and attachment.
   */
  lemma {:induction false} ScanConverges(secondaryPort: uint16, overridePid: Option<uint16>, steps: seq<Step>)
    ensures var s := Exec(Init(secondaryPort, overridePid), steps);
      s.phase.Removing? && s.phase.pending == {} ==>
        var listed, before := s.phase.listed, s.phase.start.active;
        && (forall serial :: serial in s.active <==>
              serial in Seen(listed) && (serial in before || serial in Opened(listed)))
        && (forall serial :: serial in before && serial in Seen(listed) ==>
              SameBridge(s.active[serial], before[serial]))
  {
    hide Exec, Consistent, SignalsAreFresh, SameBridge, Seen, Opened;
    InitIsSafe(secondaryPort, overridePid);
    EveryRunIsSafe(Init(secondaryPort, overridePid), steps);
    var s := Exec(Init(secondaryPort, overridePid), steps);
    if s.phase.Removing? && s.phase.pending == {} {
      OpenedIsSeen(s.phase.listed);
    }
  }

  // ----- Agreement -----

  /** Active serials that no slot holds. */
  function LostSerials(d: Dock, keys: set<Serial>): set<Serial> {
    set x | x in keys && FindSerial(d.slots, x).None?
  }

  function Lost(s: WatcherState): set<Serial> {
    LostSerials(s.dock, s.active.Keys)
  }

  /** The active serials are exactly those in occupied slots, with the slot and the port of their bridges. */
  ghost predicate Agrees(s: WatcherState) {
    && (forall serial :: serial in s.active <==> exists i: nat :: HoldsAt(s.dock.slots, i, serial))
    && (forall i: nat, serial :: HoldsAt(s.dock.slots, i, serial) ==>
          && s.active[serial].slot == i
          && s.active[serial].port == s.dock.slots[i].value.port == PortOf(s.dock.secondaryPort, i))
  }

  lemma AgreesWhenNothingIsLost(s: WatcherState)
    requires Consistent(s)
    ensures Agrees(s) <==> Lost(s) == {}
  {
    hide PadTo32, FirstBytes, Bound;
    if Lost(s) == {} {
      forall serial | serial in s.active ensures exists i: nat :: HoldsAt(s.dock.slots, i, serial) {
        assert serial !in Lost(s);
        assert HoldsAt(s.dock.slots, FindSerial(s.dock.slots, serial).value, serial);
      }
      forall i: nat, serial | HoldsAt(s.dock.slots, i, serial)
        ensures s.dock.slots[i].value.port == PortOf(s.dock.secondaryPort, i)
      {
        assert EntryFits(s.dock.secondaryPort, i, s.dock.slots[i].value);
      }
    }
    if Agrees(s) {
      forall x | x in s.active ensures FindSerial(s.dock.slots, x).Some? {
        var i: nat :| HoldsAt(s.dock.slots, i, x);
      }
      assert forall x :: x !in Lost(s);
    }
  }

  /** The capacity bound on one scan: devices active before, or opened by it. */
  predicate WithinCapacity(start: Snapshot, listed: seq<ListedDevice>) {
    |start.active.Keys + Opened(listed)| <= MAX_CHILD_SLOTS
  }

  /** The one way past the bound: a single device too many, displacing from slot 0 one that was unplugged. */
  predicate LuckyOverflow(start: Snapshot, listed: seq<ListedDevice>) {
    && |start.active.Keys + Opened(listed)| == MAX_CHILD_SLOTS + 1
    && start.dock.slots[0].Some?
    && start.dock.slots[0].value.serial !in Seen(listed)
  }

  // ----- Counting -----

  function SerialsIn(slots: seq<Option<SlotEntry>>): set<Serial> {
    if slots == [] then {}
    else SerialsIn(slots[1..]) + if slots[0].Some? then {slots[0].value.serial} else {}
  }

  lemma {:induction false} InSerials(slots: seq<Option<SlotEntry>>, x: Serial)
    ensures x in SerialsIn(slots) <==> exists i :: 0 <= i < |slots| && slots[i].Some? && slots[i].value.serial == x
  {
    if slots != [] {
      var rest := slots[1..];
      InSerials(rest, x);
      if exists i :: 0 <= i < |rest| && rest[i].Some? && rest[i].value.serial == x {
        var i :| 0 <= i < |rest| && rest[i].Some? && rest[i].value.serial == x;
        assert slots[i + 1] == rest[i];
      }
      if exists i :: 1 <= i < |slots| && slots[i].Some? && slots[i].value.serial == x {
        var i :| 1 <= i < |slots| && slots[i].Some? && slots[i].value.serial == x;
        assert rest[i - 1] == slots[i];
      }
    }
  }

  lemma {:induction false} CountSerials(slots: seq<Option<SlotEntry>>)
    requires forall i, j :: 0 <= i < j < |slots| && slots[i].Some? && slots[j].Some? ==>
               slots[i].value.serial != slots[j].value.serial
    ensures |SerialsIn(slots)| <= |slots|
    ensures |SerialsIn(slots)| == |slots| <==> forall i :: 0 <= i < |slots| ==> slots[i].Some?
  {
    if slots != [] {
      var rest := slots[1..];
      CountSerials(rest);
      if slots[0].Some? {
        var x := slots[0].value.serial;
        InSerials(rest, x);
        assert x !in SerialsIn(rest);
        assert (forall i :: 0 <= i < |rest| ==> rest[i].Some?) ==> forall i :: 0 <= i < |slots| ==> slots[i].Some? by {
          assert forall i :: 1 <= i < |slots| ==> slots[i] == rest[i - 1];
        }
      }
    }
  }

  /** With nothing lost, eight active devices are what it takes to fill the table. */
  lemma FullMeansEight(s: WatcherState)
    requires Consistent(s) && Lost(s) == {}
    ensures |s.active.Keys| <= MAX_CHILD_SLOTS
    ensures |s.active.Keys| == MAX_CHILD_SLOTS <==> Full(s.dock.slots)
  {
    hide TableFits, FindSerial;
    var slots := s.dock.slots;
    forall x ensures x in SerialsIn(slots) <==> x in s.active.Keys {
      InSerials(slots, x);
      if x in s.active.Keys {
        assert x !in Lost(s);
        assert HoldsAt(slots, FindSerial(slots, x).value, x);
      }
      if exists i :: 0 <= i < |slots| && slots[i].Some? && slots[i].value.serial == x {
        var i: nat :| 0 <= i < |slots| && slots[i].Some? && slots[i].value.serial == x;
        assert HoldsAt(slots, i, x);
      }
    }
    assert SerialsIn(slots) == s.active.Keys;
    forall i, j | 0 <= i < j < |slots| && slots[i].Some? && slots[j].Some?
      ensures slots[i].value.serial != slots[j].value.serial
    {
      assert HoldsAt(slots, i, slots[i].value.serial) && HoldsAt(slots, j, slots[j].value.serial);
    }
    CountSerials(slots);
  }

  // ----- How steps change what is lost -----

  lemma LostAfterDrop(s: WatcherState, serial: Serial)
    requires Consistent(s)
    ensures Lost(Drop(s, serial)) == Lost(s) - {serial}
  {
    hide TableFits, Bound, Detach;
    DetachedSlots(s.dock, serial);
    var d' := Detach(s.dock, serial);
    forall x | x != serial ensures FindSerial(d'.slots, x).None? <==> FindSerial(s.dock.slots, x).None? {
      var before, after := FindSerial(s.dock.slots, x), FindSerial(d'.slots, x);
      assert before.Some? ==> HoldsAt(d'.slots, before.value, x);
      assert after.Some? ==> HoldsAt(s.dock.slots, after.value, x);
    }
  }

  predicate Attaches(s: WatcherState, dev: ListedDevice) {
    IsStreamDeck(dev) && SerialOf(dev) !in s.active && dev.opens
  }

  /** A new device displaces the holder of slot 0 if the table is full, and nobody otherwise. */
  lemma LostAfterAttach(s: WatcherState, dev: ListedDevice)
    requires Consistent(s) && Attaches(s, dev)
    ensures Lost(AttachListed(s, dev))
         == Lost(s) + if Full(s.dock.slots) then {s.dock.slots[0].value.serial} else {}
  {
    hide TableFits, Attach, TargetSlot, FindSerial, SerialOf, IsStreamDeck;
    var device := ClaimedDevice(dev, s.overridePid);
    var slots := s.dock.slots;
    var slots' := Attach(s.dock, device).slots;
    var t := TargetSlot(s.dock, device.serial);
    AttachedSlots(s.dock, device);
    assert FindSerial(slots', device.serial).Some?;
    forall x | x in s.active.Keys
      ensures FindSerial(slots', x).None? <==> FindSerial(slots, x).None? || HoldsAt(slots, t, x)
    {
      var before, after := FindSerial(slots, x), FindSerial(slots', x);
      if before.Some? && before.value != t {
        assert HoldsAt(slots', before.value, x);
        assert !HoldsAt(slots, t, x);
      }
      if after.Some? {
        assert after.value != t;
        assert HoldsAt(slots, after.value, x);
      }
    }
    if Full(slots) {
      assert HoldsAt(slots, 0, slots[0].value.serial);
    }
  }

  // ----- The invariant behind the exact condition -----

  /** Slot 0 still holds whoever held it when the scan began, or a newcomer. */
  predicate Slot0Follows(start: Snapshot, slots: Slots) {
    if start.dock.slots[0].Some? then
      slots[0].Some? && slots[0].value.serial == start.dock.slots[0].value.serial
    else
      slots[0].Some? ==> slots[0].value.serial !in start.active
  }

  predicate FirstDisplaced(start: Snapshot, x: Serial) {
    if start.dock.slots[0].Some? then x == start.dock.slots[0].value.serial else x !in start.active
  }

  ghost predicate AttachTracked(s: WatcherState, start: Snapshot) {
    var n := |s.active.Keys|;
    && (n <= MAX_CHILD_SLOTS ==> Lost(s) == {} && Slot0Follows(start, s.dock.slots))
    && (n > MAX_CHILD_SLOTS ==> Full(s.dock.slots) && s.dock.slots[0].value.serial !in start.active)
    && (n == MAX_CHILD_SLOTS + 1 ==> exists x :: Lost(s) == {x} && FirstDisplaced(start, x))
    && (n > MAX_CHILD_SLOTS + 1 ==> exists x :: x in Lost(s) && x !in start.active)
  }

  ghost predicate RemoveTracked(s: WatcherState, start: Snapshot, listed: seq<ListedDevice>) {
    && (Lost(s) * Seen(listed) == {} <==> WithinCapacity(start, listed) || LuckyOverflow(start, listed))
    && (WithinCapacity(start, listed) ==> Lost(s) == {})
  }

  ghost predicate OverflowTracked(s: WatcherState) {
    match s.phase
    case Draining => true
    case Attaching(_, _, start) =>
      LostSerials(start.dock, start.active.Keys) == {} ==> AttachTracked(s, start)
    case Removing(listed, start, _) =>
      LostSerials(start.dock, start.active.Keys) == {} ==> RemoveTracked(s, start, listed)
  }

  lemma NewcomerCounted(s: WatcherState, dev: ListedDevice)
    requires Attaches(s, dev)
    ensures var keys := AttachListed(s, dev).active.Keys;
      && keys == s.active.Keys + {SerialOf(dev)}
      && |keys| == |s.active.Keys| + 1
  {
    hide Attach, TargetSlot, PortOf, ClaimedDevice, IsStreamDeck;
  }

  lemma AttachKeepsTracked(s: WatcherState, start: Snapshot, dev: ListedDevice)
    requires Consistent(s) && AttachTracked(s, start) && start.active.Keys <= s.active.Keys
    ensures AttachTracked(AttachListed(s, dev), start)
  {
    hide Consistent, AttachTracked, Attach, TargetSlot, PortOf, SerialOf, IsStreamDeck;
    if Attaches(s, dev) {
      if |s.active.Keys| <= MAX_CHILD_SLOTS {
        AttachWithRoom(s, start, dev);
      } else {
        AttachBeyondCapacity(s, start, dev);
      }
    }
  }

  lemma AttachWithRoom(s: WatcherState, start: Snapshot, dev: ListedDevice)
    requires Consistent(s) && AttachTracked(s, start) && start.active.Keys <= s.active.Keys
    requires Attaches(s, dev) && |s.active.Keys| <= MAX_CHILD_SLOTS
    ensures AttachTracked(AttachListed(s, dev), start)
  {
    hide Consistent, AttachListed, Full, Lost, SerialOf, IsStreamDeck;
    NewcomerCounted(s, dev);
    LostAfterAttach(s, dev);
    Slot0AfterAttach(s, dev);
    FullMeansEight(s);
    if |s.active.Keys| == MAX_CHILD_SLOTS {
      FullHasSlot0(s.dock.slots);
      var x := s.dock.slots[0].value.serial;
      assert Lost(AttachListed(s, dev)) == {x} && FirstDisplaced(start, x);
    }
  }

  lemma AttachBeyondCapacity(s: WatcherState, start: Snapshot, dev: ListedDevice)
    requires Consistent(s) && AttachTracked(s, start) && start.active.Keys <= s.active.Keys
    requires Attaches(s, dev) && |s.active.Keys| > MAX_CHILD_SLOTS
    ensures AttachTracked(AttachListed(s, dev), start)
  {
    hide Consistent, AttachListed, Full, Lost, FirstDisplaced, SerialOf, IsStreamDeck;
    NewcomerCounted(s, dev);
    LostAfterAttach(s, dev);
    Slot0AfterAttach(s, dev);
    FullHasSlot0(s.dock.slots);
    var x := s.dock.slots[0].value.serial;
    assert x in Lost(AttachListed(s, dev)) && x !in start.active;
  }

  lemma FullHasSlot0(slots: Slots)
    ensures Full(slots) ==> slots[0].Some?
  {
  }

  lemma Slot0AfterAttach(s: WatcherState, dev: ListedDevice)
    requires Attaches(s, dev)
    ensures var slots, slots' := s.dock.slots, AttachListed(s, dev).dock.slots;
      && (Full(slots) ==> Full(slots') && slots'[0].value.serial == SerialOf(dev))
      && (!Full(slots) ==>
            || slots'[0] == slots[0]
            || (slots[0].None? && slots'[0].Some? && slots'[0].value.serial == SerialOf(dev)))
  {
    hide SerialOf, IsStreamDeck, PortOf, PadTo32, FirstBytes;
  }

  /** The decision falls when the last listed device has been dealt with. */
  lemma AttachedIsDecided(s: WatcherState, start: Snapshot, listed: seq<ListedDevice>)
    requires AttachTracked(s, start)
    requires s.active.Keys == start.active.Keys + Opened(listed)
    ensures RemoveTracked(s, start, listed)
  {
    hide FindSerial, Opened, Seen;
    OpenedIsSeen(listed);
    var n := |s.active.Keys|;
    if n == MAX_CHILD_SLOTS + 1 {
      var x :| Lost(s) == {x} && FirstDisplaced(start, x);
      assert x in Lost(s);
      assert x in Seen(listed) ==> x in Lost(s) * Seen(listed);
    } else if n > MAX_CHILD_SLOTS + 1 {
      var x :| x in Lost(s) && x !in start.active;
      assert x in Lost(s) * Seen(listed);
    }
  }

  lemma NextKeepsTracked(s: WatcherState, step: Step)
    requires Consistent(s) && ScanAccounted(s) && OverflowTracked(s)
    ensures OverflowTracked(Next(s, step))
  {
    hide Consistent, TableFits, Bound, AttachTracked, RemoveTracked, AttachListed, FindSerial, Detach, Seen, Opened,
         SameBridge;
    match step
    case Raise(serial) => RaiseKeepsTracked(s, serial);
    case StartScan(_) =>
      if LostSerials(s.dock, s.active.Keys) == {} {
        StartIsTracked(s);
      }
      if Next(s, step) != s {
        SamePartsSameTracking(s, Next(s, step), Snapshot(s.dock, s.active), []);
      }
    case AttachNext =>
      if s.phase.Attaching? && s.phase.done < |s.phase.listed| {
        var s1 := AttachListed(s, s.phase.listed[s.phase.done]);
        if LostSerials(s.phase.start.dock, s.phase.start.active.Keys) == {} {
          AttachKeepsTracked(s, s.phase.start, s.phase.listed[s.phase.done]);
        }
        SamePartsSameTracking(s1, Next(s, step), s.phase.start, []);
      }
    case FinishAttaching =>
      if s.phase.Attaching? && s.phase.done == |s.phase.listed| {
        assert s.phase.listed[..s.phase.done] == s.phase.listed;
        if LostSerials(s.phase.start.dock, s.phase.start.active.Keys) == {} {
          AttachedIsDecided(s, s.phase.start, s.phase.listed);
        }
        SamePartsSameTracking(s, Next(s, step), s.phase.start, s.phase.listed);
      }
    case RemoveOne(serial) =>
      if s.phase.Removing? && serial in s.phase.pending {
        RemoveKeepsTracked(s, serial, s.phase.start, s.phase.listed);
        SamePartsSameTracking(Drop(s, serial), Next(s, step), s.phase.start, s.phase.listed);
      }
    case _ =>
  }

  /** Tracking looks at the dock and at the active serials only. */
  lemma SamePartsSameTracking(s: WatcherState, t: WatcherState, start: Snapshot, listed: seq<ListedDevice>)
    requires s.dock == t.dock && s.active.Keys == t.active.Keys
    ensures AttachTracked(s, start) <==> AttachTracked(t, start)
    ensures RemoveTracked(s, start, listed) <==> RemoveTracked(t, start, listed)
  {
    hide LostSerials, Full, Slot0Follows, FirstDisplaced, Seen, Opened;
  }

  lemma RaiseKeepsTracked(s: WatcherState, serial: Serial)
    requires OverflowTracked(s)
    ensures OverflowTracked(RaiseSignal(s, serial))
  {
    hide AttachTracked, RemoveTracked, LostSerials;
    var s' := RaiseSignal(s, serial);
    assert s'.active.Keys == s.active.Keys;
    match s.phase
    case Draining =>
    case Attaching(listed, _, start) => SamePartsSameTracking(s, s', start, listed);
    case Removing(listed, start, _) => SamePartsSameTracking(s, s', start, listed);
  }

  lemma StartIsTracked(s: WatcherState)
    requires Consistent(s) && Lost(s) == {}
    ensures AttachTracked(s, Snapshot(s.dock, s.active))
  {
    FullMeansEight(s);
    hide Bound, TableFits, FindSerial;
  }

  lemma RemoveKeepsTracked(s: WatcherState, serial: Serial, start: Snapshot, listed: seq<ListedDevice>)
    requires Consistent(s) && serial !in Seen(listed)
    ensures RemoveTracked(s, start, listed) ==> RemoveTracked(Drop(s, serial), start, listed)
  {
    LostAfterDrop(s, serial);
    hide Lost, Drop, Seen, Opened, Consistent;
    assert (Lost(s) - {serial}) * Seen(listed) == Lost(s) * Seen(listed);
  }

  lemma {:induction false} EveryRunIsTracked(s: WatcherState, steps: seq<Step>)
    requires Consistent(s) && SignalsAreFresh(s) && ScanAccounted(s) && OverflowTracked(s)
    ensures var e := Exec(s, steps); Consistent(e) && OverflowTracked(e)
    decreases |steps|
  {
    hide Consistent, SignalsAreFresh, ScanAccounted, OverflowTracked, Next;
    if steps != [] {
      NextKeepsConsistent(s, steps[0]);
      NextKeepsSignalsFresh(s, steps[0]);
      NextKeepsScanAccounted(s, steps[0]);
      NextKeepsTracked(s, steps[0]);
      EveryRunIsTracked(Next(s, steps[0]), steps[1..]);
    }
  }

  /**
   Exactly when a scan that starts in agreement ends in agreement: if the
   devices active before and those it opened number at most eight, or number
   nine and the one the ninth displaced from slot 0 is itself being removed.
   */
  lemma {:induction false} ScanAgreementIsExact(secondaryPort: uint16, overridePid: Option<uint16>, steps: seq<Step>)
    ensures var s := Exec(Init(secondaryPort, overridePid), steps);
      s.phase.Removing? && s.phase.pending == {}
      && LostSerials(s.phase.start.dock, s.phase.start.active.Keys) == {} ==>
        (Agrees(s) <==> WithinCapacity(s.phase.start, s.phase.listed) || LuckyOverflow(s.phase.start, s.phase.listed))
  {
    hide Exec, Consistent, SignalsAreFresh, Agrees, WithinCapacity, LuckyOverflow, LostSerials, Seen, Opened;
    var s0 := Init(secondaryPort, overridePid);
    var s := Exec(s0, steps);
    InitIsSafe(secondaryPort, overridePid);
    EveryRunIsSafe(s0, steps);
    EveryRunIsTracked(s0, steps);
    AgreesWhenNothingIsLost(s);
    if s.phase.Removing? && s.phase.pending == {} {
      LostIsActive(s);
      assert Lost(s) * Seen(s.phase.listed) == Lost(s);
    }
  }

  lemma LostIsActive(s: WatcherState)
    ensures Lost(s) <= s.active.Keys
  {
  }

  /** Every scan of the run respects the capacity bound. */
  predicate CapacityRespected(s: WatcherState, steps: seq<Step>)
    decreases |steps|
  {
    steps == [] ||
    ((steps[0].StartScan? && s.phase.Draining? && s.queue == [] ==>
        WithinCapacity(Snapshot(s.dock, s.active), steps[0].listed)) &&
     CapacityRespected(Next(s, steps[0]), steps[1..]))
  }

  /** Nothing is lost, and the scan in progress, if any, started that way and within capacity. */
  ghost predicate InStep(s: WatcherState) {
    && Lost(s) == {}
    && match s.phase
       case Draining => true
       case Attaching(listed, _, start) =>
         LostSerials(start.dock, start.active.Keys) == {} && WithinCapacity(start, listed)
       case Removing(listed, start, _) =>
         LostSerials(start.dock, start.active.Keys) == {} && WithinCapacity(start, listed)
  }

  lemma NextStaysInStep(s: WatcherState, step: Step)
    requires Consistent(s) && ScanAccounted(s) && OverflowTracked(s) && InStep(s)
    requires step.StartScan? && s.phase.Draining? && s.queue == [] ==>
               WithinCapacity(Snapshot(s.dock, s.active), step.listed)
    ensures InStep(Next(s, step))
  {
    hide Consistent, AttachListed, FindSerial, Detach, Seen, Opened, SameBridge, AttachTracked, RemoveTracked,
         LostSerials;
    var s' := Next(s, step);
    NextKeepsTracked(s, step);
    NextKeepsScanAccounted(s, step);
    match step
    case Raise(serial) => assert s'.active.Keys == s.active.Keys;
    case DrainSignal =>
      if s.phase.Draining? && s.queue != [] {
        QueueIsIrrelevant(s, s.queue[1..]);
        LostAfterDrop(s.(queue := s.queue[1..]), s.queue[0].serial);
      }
    case AttachNext =>
      if s'.phase.Attaching? {
        OpenedGrowsTo(s'.phase.listed, s'.phase.done);
        FewEnoughMeansNothingLost(s', s'.phase.start, s'.phase.listed);
      }
    case RemoveOne(serial) =>
      if s.phase.Removing? && serial in s.phase.pending {
        LostAfterDrop(s, serial);
      }
    case _ =>
  }

  lemma QueueIsIrrelevant(s: WatcherState, queue: seq<Signal>)
    requires Consistent(s)
    ensures Consistent(s.(queue := queue)) && Lost(s.(queue := queue)) == Lost(s)
  {
  }

  lemma OpenedGrowsTo(listed: seq<ListedDevice>, k: nat)
    requires k <= |listed|
    ensures Opened(listed[..k]) <= Opened(listed)
  {
  }

  lemma FewEnoughMeansNothingLost(s: WatcherState, start: Snapshot, listed: seq<ListedDevice>)
    requires AttachTracked(s, start) && WithinCapacity(start, listed)
    requires s.active.Keys <= start.active.Keys + Opened(listed)
    ensures Lost(s) == {}
  {
    hide Opened, Lost;
    SubsetIsNoLarger(s.active.Keys, start.active.Keys + Opened(listed));
  }

  lemma {:induction false} SubsetIsNoLarger<T>(a: set<T>, b: set<T>)
    requires a <= b
    ensures |a| <= |b|
    decreases a
  {
    if a != {} {
      var x :| x in a;
      SubsetIsNoLarger(a - {x}, b - {x});
    }
  }

  lemma {:induction false} CapacityKeepsInStep(s: WatcherState, steps: seq<Step>)
    requires Consistent(s) && SignalsAreFresh(s) && ScanAccounted(s) && OverflowTracked(s) && InStep(s)
    requires CapacityRespected(s, steps)
    ensures var e := Exec(s, steps); Consistent(e) && InStep(e)
    decreases |steps|
  {
    hide Consistent, SignalsAreFresh, ScanAccounted, OverflowTracked, InStep, Next, WithinCapacity;
    if steps != [] {
      NextKeepsConsistent(s, steps[0]);
      NextKeepsSignalsFresh(s, steps[0]);
      NextKeepsScanAccounted(s, steps[0]);
      NextKeepsTracked(s, steps[0]);
      NextStaysInStep(s, steps[0]);
      CapacityKeepsInStep(Next(s, steps[0]), steps[1..]);
    }
  }

  /** In a run that respects the bound, watcher and dock agree in every state, between any two steps. */
  lemma {:induction false} AgreementWithinCapacity(secondaryPort: uint16, overridePid: Option<uint16>, steps: seq<Step>)
    requires CapacityRespected(Init(secondaryPort, overridePid), steps)
    ensures Agrees(Exec(Init(secondaryPort, overridePid), steps))
  {
    hide Exec, Consistent, SignalsAreFresh, Agrees, CapacityRespected;
    var s0 := Init(secondaryPort, overridePid);
    InitIsSafe(secondaryPort, overridePid);
    CapacityKeepsInStep(s0, steps);
    AgreesWhenNothingIsLost(Exec(s0, steps));
  }

  // ----- Agreement in every state -----

  /** A step loses a bridge only by taking the number of active devices past the eight slots. */
  lemma NextLosesOnlyBeyondCapacity(s: WatcherState, step: Step)
    requires Consistent(s) && Lost(s) == {}
    ensures |Next(s, step).active.Keys| <= MAX_CHILD_SLOTS ==> Lost(Next(s, step)) == {}
  {
    hide Consistent, AttachListed, Attaches, FindSerial, Full, Drop, Seen;
    match step
    case Raise(serial) => RaiseKeepsBridges(s, serial);
    case DrainSignal =>
      if s.phase.Draining? && s.queue != [] {
        QueueIsIrrelevant(s, s.queue[1..]);
        LostAfterDrop(s.(queue := s.queue[1..]), s.queue[0].serial);
      }
    case AttachNext =>
      if s.phase.Attaching? && s.phase.done < |s.phase.listed| {
        AttachLosesOnlyBeyondCapacity(s, s.phase.listed[s.phase.done]);
      }
    case RemoveOne(serial) => LostAfterDrop(s, serial);
    case _ =>
  }

  lemma AttachLosesOnlyBeyondCapacity(s: WatcherState, dev: ListedDevice)
    requires Consistent(s) && Lost(s) == {}
    ensures |AttachListed(s, dev).active.Keys| <= MAX_CHILD_SLOTS ==> Lost(AttachListed(s, dev)) == {}
  {
    hide Consistent, Lost, Full, SerialOf, IsStreamDeck, Attach, TargetSlot, PortOf;
    if Attaches(s, dev) {
      NewcomerCounted(s, dev);
      FullMeansEight(s);
      LostAfterAttach(s, dev);
    }
  }

  /** The state after the first `k` steps. */
  function After(secondaryPort: uint16, overridePid: Option<uint16>, steps: seq<Step>, k: nat): WatcherState
    requires k <= |steps|
  {
    Exec(Init(secondaryPort, overridePid), steps[..k])
  }

  /** There are never more active devices than slots. */
  predicate NeverOverfull(secondaryPort: uint16, overridePid: Option<uint16>, steps: seq<Step>) {
    forall k :: 0 <= k <= |steps| ==> |After(secondaryPort, overridePid, steps, k).active.Keys| <= MAX_CHILD_SLOTS
  }

  lemma AfterOneMore(secondaryPort: uint16, overridePid: Option<uint16>, steps: seq<Step>, k: nat)
    requires k < |steps|
    ensures After(secondaryPort, overridePid, steps, k + 1)
         == Next(After(secondaryPort, overridePid, steps, k), steps[k])
    ensures Consistent(After(secondaryPort, overridePid, steps, k))
  {
    hide Next, Exec, Consistent, SignalsAreFresh, ScanAccounted;
    var start := Init(secondaryPort, overridePid);
    InitIsSafe(secondaryPort, overridePid);
    EveryRunIsSafe(start, steps[..k]);
    ExecOneMore(start, steps[..k], steps[k]);
    assert steps[..k + 1] == steps[..k] + [steps[k]];
  }

  lemma {:induction false} NothingIsLostUpTo(secondaryPort: uint16, overridePid: Option<uint16>, steps: seq<Step>,
                                             k: nat)
    requires k <= |steps|
    requires forall j :: 0 <= j <= k ==> |After(secondaryPort, overridePid, steps, j).active.Keys| <= MAX_CHILD_SLOTS
    ensures Lost(After(secondaryPort, overridePid, steps, k)) == {}
  {
    hide Next, Consistent;
    if k > 0 {
      hide After;
      NothingIsLostUpTo(secondaryPort, overridePid, steps, k - 1);
      AfterOneMore(secondaryPort, overridePid, steps, k - 1);
      NextLosesOnlyBeyondCapacity(After(secondaryPort, overridePid, steps, k - 1), steps[k - 1]);
    }
  }

  /**
   Exactly when watcher and dock agree throughout a run, between any two steps:
   if and only if there are never more active devices than slots.
   */
  lemma {:induction false} AgreementThroughoutIsExact(secondaryPort: uint16, overridePid: Option<uint16>,
                                                      steps: seq<Step>)
    ensures (forall k :: 0 <= k <= |steps| ==> Agrees(After(secondaryPort, overridePid, steps, k)))
       <==> NeverOverfull(secondaryPort, overridePid, steps)
  {
    hide Exec, Consistent, SignalsAreFresh, ScanAccounted, Agrees, Lost;
    InitIsSafe(secondaryPort, overridePid);
    forall k: nat | k <= |steps|
      ensures var s := After(secondaryPort, overridePid, steps, k);
        && Consistent(s)
        && (Agrees(s) <==> Lost(s) == {})
        && (Agrees(s) ==> |s.active.Keys| <= MAX_CHILD_SLOTS)
    {
      var s := After(secondaryPort, overridePid, steps, k);
      EveryRunIsSafe(Init(secondaryPort, overridePid), steps[..k]);
      AgreesWhenNothingIsLost(s);
      if Lost(s) == {} {
        FullMeansEight(s);
      }
    }
    if NeverOverfull(secondaryPort, overridePid, steps) {
      forall k: nat | k <= |steps| ensures Agrees(After(secondaryPort, overridePid, steps, k)) {
        NothingIsLostUpTo(secondaryPort, overridePid, steps, k);
      }
    }
  }
}
