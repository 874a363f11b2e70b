/** Initial pushes and live events racing with each other, at any moment of the race. */
module Race {
  import opened Bytes
  import opened Wrappers
  import opened Cora
  import opened Stream
  import opened Conservation
  import opened Delivery
  import opened Reports
  import opened Dock
  import opened Replica
  import opened Subscription

  lemma {:induction false} LivesOfPrefix(arrivals: seq<Arrival>, m: nat)
    requires m <= |arrivals|
    ensures Lives(arrivals[..m]) <= Lives(arrivals)
    decreases |arrivals|
  {
    if m < |arrivals| {
      var front := arrivals[..|arrivals| - 1];
      LivesOfPrefix(front, m);
      assert front[..m] == arrivals[..m];
    } else {
      assert arrivals[..m] == arrivals;
    }
  }

  /** Once a push for a slot has arrived, the replica shows it as it was at some moment of the history. */
  lemma ArrivedSlotWasReal(d: Dock, ops1: seq<DockOp>, ops2: seq<DockOp>, arrivals: seq<Arrival>, slot: uint8)
    returns (past: seq<DockOp>)
    requires TableFits(d)
    requires var d1, d2 := ApplyAll(d, ops1), ApplyAll(d, ops1 + ops2);
      && |d.events| <= |d2.events|
      && Lives(arrivals) <= d2.events[|d.events|..]
      && forall c :: Initial(c) in arrivals ==> c in AllActiveChildren(d1)
    ensures past <= ops1 + ops2
    ensures var replica := ReplayAll(map[], PushesOf(ChildrenOf(arrivals)));
      && (LastArrival(arrivals, slot).None? ==> slot !in replica)
      && (LastArrival(arrivals, slot).Some? ==>
            SlotOf(replica, slot) == SlotOf(ClientTable(ApplyAll(d, past)), slot))
  {
    hide ApplyAll, ClientTable, TableFits, ReplayAll, PushesOf, ClientView, AllActiveChildren, Lives, ChildrenOf,
         LastArrival, LastFor;
    var last := LastArrival(arrivals, slot);
    LastOfEachKind(arrivals, slot);
    LastDecides(map[], ChildrenOf(arrivals), slot);
    if last.Some? && last.value.Initial? {
      past := ops1;
      TableAlwaysFits(d, ops1);
      ActiveIsInTable(ApplyAll(d, ops1), last.value.child);
    } else {
      past := EventsSoFar(d, ops1 + ops2, |Lives(arrivals)|);
      EventsReplayTheTable(d, past);
      assert ApplyAll(d, past).events[|d.events|..] == Lives(arrivals);
      LastDecides(ClientTable(d), Lives(arrivals), slot);
    }
  }

  /** Of the pushes sent, those received so far. */
  lemma ReceivedSoFar(arrivals: seq<Arrival>, sent: seq<CoraFrame>, chunks: seq<seq<uint8>>)
    requires AllWellFormed(sent) && OnlyPushes(sent) == PushesOf(ChildrenOf(arrivals))
    requires Flatten(chunks) <= EncodeAll(sent)
    ensures var frames := Run([], chunks).frames;
            var m := |OnlyPushes(frames)|;
      && m <= |arrivals|
      && ReplayAll(map[], frames) == ReplayAll(map[], PushesOf(ChildrenOf(arrivals[..m])))
  {
    hide Run, RunTrace, EncodeAll, ReplayAll, FrameBytes;
    WellFormedStreamsAreChunkIndependent(sent, chunks);
    var k := Complete(sent, |Flatten(chunks)|);
    PushesOfPrefix(sent, k);
    var m := |OnlyPushes(sent[..k])|;
    assert OnlyPushes(sent[..k]) == PushesOf(ChildrenOf(arrivals))[..m] == PushesOf(ChildrenOf(arrivals[..m]));
    OthersAreIgnored(map[], sent[..k]);
  }

  /**
   At any moment of any interleaving, with nothing said about what is still to
   come: a slot that a push has arrived for shows what the server had there at
   some moment since the subscription, and the others are absent.
   */
  lemma {:induction false} ReplicaSlotsWereReal(d: Dock, ops1: seq<DockOp>, ops2: seq<DockOp>, arrivals: seq<Arrival>,
                                                sent: seq<CoraFrame>, chunks: seq<seq<uint8>>, slot: uint8)
    returns (past: seq<DockOp>)
    requires TableFits(d)
    requires var d1, d2 := ApplyAll(d, ops1), ApplyAll(d, ops1 + ops2);
      && |d.events| <= |d2.events|
      && Lives(arrivals) <= d2.events[|d.events|..]
      && forall c :: Initial(c) in arrivals ==> c in AllActiveChildren(d1)
    requires AllWellFormed(sent) && OnlyPushes(sent) == PushesOf(ChildrenOf(arrivals))
    requires Flatten(chunks) <= EncodeAll(sent)
    ensures past <= ops1 + ops2
    ensures var frames := Run([], chunks).frames;
            var replica := ReplayAll(map[], frames);
      && |OnlyPushes(frames)| <= |arrivals|
      && var received := arrivals[..|OnlyPushes(frames)|];
      && (LastArrival(received, slot).None? ==> slot !in replica)
      && (LastArrival(received, slot).Some? ==>
            SlotOf(replica, slot) == SlotOf(ClientTable(ApplyAll(d, past)), slot))
  {
    hide Run, EncodeAll, ApplyAll, ClientTable, TableFits, ReplayAll, PushesOf, AllActiveChildren, Lives, ChildrenOf,
         LastArrival;
    ReceivedSoFar(arrivals, sent, chunks);
    var m := |OnlyPushes(Run([], chunks).frames)|;
    LivesOfPrefix(arrivals, m);
    past := ArrivedSlotWasReal(d, ops1, ops2, arrivals[..m], slot);
  }

  /**
   The whole replica need not be part of any one table while pushes are racing.
   Once the live events from before the poll are in, it is part of the table as
   of the last live event received if and only if no slot is stale so far.
   */
  lemma {:induction false} RacingReplicaIsExact(d: Dock, ops1: seq<DockOp>, ops2: seq<DockOp>, arrivals: seq<Arrival>,
                                                sent: seq<CoraFrame>, chunks: seq<seq<uint8>>)
    returns (past: seq<DockOp>)
    requires TableFits(d)
    requires var d1, d2 := ApplyAll(d, ops1), ApplyAll(d, ops1 + ops2);
      && |d.events| <= |d1.events| && |d.events| <= |d2.events|
      && Lives(arrivals) <= d2.events[|d.events|..]
      && forall c :: Initial(c) in arrivals ==> c in AllActiveChildren(d1)
    requires AllWellFormed(sent) && OnlyPushes(sent) == PushesOf(ChildrenOf(arrivals))
    requires Flatten(chunks) <= EncodeAll(sent)
    requires var m := |OnlyPushes(Run([], chunks).frames)|;
      m <= |arrivals| && |ApplyAll(d, ops1).events| - |d.events| <= |Lives(arrivals[..m])|
    ensures ops1 <= past <= ops1 + ops2
    ensures var frames := Run([], chunks).frames;
            var received := arrivals[..|OnlyPushes(frames)|];
            var moment := ApplyAll(d, past);
      && moment.events == d.events + Lives(received)
      && (PartOf(ReplayAll(map[], frames), ClientTable(moment)) <==> forall slot :: !IsStale(received, slot))
  {
    hide Run, EncodeAll, ApplyAll, ClientTable, TableFits, ReplayAll, PushesOf, AllActiveChildren, Lives, ChildrenOf,
         LastArrival, IsStale;
    ReceivedSoFar(arrivals, sent, chunks);
    var received := arrivals[..|OnlyPushes(Run([], chunks).frames)|];
    LivesOfPrefix(arrivals, |received|);
    var later := MomentOf(d, ops1, ops2, Lives(received));
    past := ops1 + later;
    var replica := ReplayAll(map[], PushesOf(ChildrenOf(received)));
    var table := ClientTable(ApplyAll(d, past));
    forall slot: uint8
      ensures IsStale(received, slot) <==> slot in replica && SlotOf(replica, slot) != SlotOf(table, slot)
    {
      ArrivedSlotIsExact(d, ops1, later, received, slot);
      StaleHasArrived(received, slot);
    }
    PartBySlots(replica, table);
  }

  lemma StaleHasArrived(arrivals: seq<Arrival>, slot: uint8)
    ensures IsStale(arrivals, slot) ==> LastArrival(arrivals, slot).Some?
  {
  }

  lemma PartBySlots(part: ReplicaTable, whole: ReplicaTable)
    ensures PartOf(part, whole) <==> forall slot :: slot in part ==> SlotOf(part, slot) == SlotOf(whole, slot)
  {
  }

  /** The moment after the poll at which exactly the given events had been logged since the subscription. */
  lemma MomentOf(d: Dock, ops1: seq<DockOp>, ops2: seq<DockOp>, lives: seq<ChildDeviceInfo>)
    returns (later: seq<DockOp>)
    requires TableFits(d)
    requires var d1, d2 := ApplyAll(d, ops1), ApplyAll(d, ops1 + ops2);
      && |d.events| <= |d1.events| && |d.events| <= |d2.events|
      && lives <= d2.events[|d.events|..]
      && |d1.events| - |d.events| <= |lives|
    ensures later <= ops2 && ops1 + later <= ops1 + ops2
    ensures ApplyAll(ApplyAll(d, ops1), later) == ApplyAll(d, ops1 + later)
    ensures ApplyAll(d, ops1 + later).events == d.events + lives
  {
    hide ApplyAll, ClientTable, TableFits, ReplayAll;
    var d1 := ApplyAll(d, ops1);
    TableAlwaysFits(d, ops1);
    EventsReplayTheTable(d, ops1);
    ApplyAppend(d, ops1, ops2);
    EventsReplayTheTable(d1, ops2);
    var rest := |lives| - (|d1.events| - |d.events|);
    later := EventsSoFar(d1, ops2, rest);
    ApplyAppend(d, ops1, later);
    EventsReplayTheTable(d1, later);
    var d2, moment := ApplyAll(d1, ops2), ApplyAll(d1, later);
    assert moment.events == d1.events + moment.events[|d1.events|..];
    assert d2.events == d1.events + d2.events[|d1.events|..];
    assert d2.events[|d.events|..][..|lives|] == d1.events[|d.events|..] + d2.events[|d1.events|..][..rest];
  }

  predicate OnlySlot1(d: Dock) {
    forall i :: 0 <= i < MAX_CHILD_SLOTS ==> (d.slots[i].Some? <==> i == 1)
  }

  /**
   A race that fails: at the poll only slot 1 is taken; then its device is
   detached, another goes to slot 0, and the initial push arrives last.  The
   replica shows both, which the server at no moment had.
   */
  lemma {:induction false} RacingReplicaIsNoTable(d: Dock, device: Device)
    requires TableFits(d) && OnlySlot1(d) && TargetSlot(Detach(d, d.slots[1].value.serial), device.serial) == 0
    ensures var c := d.slots[1].value.childInfo;
            var ops := [DetachOp(d.slots[1].value.serial), AttachOp(device)];
            var newcomer := EntryFor(d.secondaryPort, 0, device).childInfo;
            var arrivals := [Live(Disconnected(1)), Live(newcomer), Initial(c)];
            var replica := ReplayAll(map[], PushesOf(ChildrenOf(arrivals)));
      && ApplyAll(d, ops).events == d.events + Lives(arrivals)
      && (forall x :: Initial(x) in arrivals <==> x in AllActiveChildren(d))
      && replica.Keys == {0, 1}
      && forall past :: past <= ops ==> !PartOf(replica, ClientTable(ApplyAll(d, past)))
  {
    hide TargetSlot, ReplayAll, PushesOf, PadTo32, FirstBytes, PortOf, Lives, TableFits, ApplyAll, AllActiveChildren,
         ClientTable, Detach, Attach;
    var c := d.slots[1].value.childInfo;
    var ops := [DetachOp(d.slots[1].value.serial), AttachOp(device)];
    var newcomer := EntryFor(d.secondaryPort, 0, device).childInfo;
    SlotMoves(d, device);
    SlotIndexIsIndex(d, 1);
    OnlyActive(d);
    ActiveIsInTable(d, c);
    ThreePushes(newcomer, c);
    assert Lives([Live(Disconnected(1)), Live(newcomer), Initial(c)]) == [Disconnected(1), newcomer] by {
      LivesOfRace(Disconnected(1), newcomer, c);
    }
    var replica := ReplayAll(map[], PushesOf([Disconnected(1), newcomer, c]));
    assert ChildrenOf([Live(Disconnected(1)), Live(newcomer), Initial(c)]) == [Disconnected(1), newcomer, c];
    forall past | past <= ops ensures !PartOf(replica, ClientTable(ApplyAll(d, past))) {
      assert 0 in replica && 1 in replica;
    }
  }

  /** The two changes of the race, one by one. */
  lemma SlotMoves(d: Dock, device: Device)
    requires TableFits(d) && OnlySlot1(d) && TargetSlot(Detach(d, d.slots[1].value.serial), device.serial) == 0
    ensures var ops := [DetachOp(d.slots[1].value.serial), AttachOp(device)];
      && ApplyAll(d, ops).events == d.events + [Disconnected(1), EntryFor(d.secondaryPort, 0, device).childInfo]
      && forall past :: past <= ops ==>
           var slots := ApplyAll(d, past).slots;
           slots[0].None? || slots[1].None?
  {
    hide TargetSlot, TableFits, PortOf, PadTo32, FirstBytes;
    var serial := d.slots[1].value.serial;
    var ops := [DetachOp(serial), AttachOp(device)];
    SlotIndexIsIndex(d, 1);
    assert HoldsAt(d.slots, 1, serial);
    assert FindSerial(d.slots, serial) == Some(1);
    OneOp(d, ops[0]);
    OpsOneByOne(d, ops[0], ops[1], ops[1]);
    forall past | past <= ops
      ensures var slots := ApplyAll(d, past).slots; slots[0].None? || slots[1].None?
    {
      assert |past| == 0 ==> past == [];
      assert |past| == 1 ==> past == [ops[0]];
      assert |past| == 2 ==> past == ops;
    }
  }

  lemma OnlyActive(d: Dock)
    requires OnlySlot1(d)
    ensures forall x :: x in AllActiveChildren(d) <==> x == d.slots[1].value.childInfo
  {
    forall x ensures x in AllActiveChildren(d) <==> x == d.slots[1].value.childInfo {
      ActiveIsTable(d.slots, x);
    }
  }

  lemma LivesOfRace(gone: ChildDeviceInfo, newcomer: ChildDeviceInfo, c: ChildDeviceInfo)
    ensures Lives([Live(gone), Live(newcomer), Initial(c)]) == [gone, newcomer]
  {
    var arrivals := [Live(gone), Live(newcomer), Initial(c)];
    assert arrivals[..2] == [Live(gone), Live(newcomer)] && arrivals[..2][..1] == [Live(gone)];
    assert arrivals[..2][..1][..0] == [];
    assert Lives([Live(gone)]) == [gone];
    assert Lives([Live(gone), Live(newcomer)]) == [gone] + [newcomer];
  }

  lemma ThreePushes(newcomer: ChildDeviceInfo, c: ChildDeviceInfo)
    requires newcomer.connected && newcomer.slotIndex == 0 && c.connected && c.slotIndex == 1
    ensures ReplayAll(map[], PushesOf([Disconnected(1), newcomer, c])).Keys == {0, 1}
  {
    hide ReplayAll, PushesOf, ClientView;
    var gone := Disconnected(1);
    PushesOfAppend([gone, newcomer], [c]);
    PushesOfAppend([gone], [newcomer]);
    assert [gone, newcomer] + [c] == [gone, newcomer, c] && [gone] + [newcomer] == [gone, newcomer];
    ReplayAppend(map[], PushesOf([gone, newcomer]), PushesOf([c]));
    ReplayAppend(map[], PushesOf([gone]), PushesOf([newcomer]));
    ReplayOfOne(map[], gone);
    ReplayOfOne(ReplayAll(map[], PushesOf([gone])), newcomer);
    ReplayOfOne(ReplayAll(map[], PushesOf([gone, newcomer])), c);
  }

  /** Such a race can be had from the start: `device` comes first, and comes back. */
  lemma {:induction false} RaceFromTheStart(secondaryPort: uint16, device: Device, other: Device)
    requires device.serial != other.serial
    ensures var d := ApplyAll(NewDock(secondaryPort), [AttachOp(device), AttachOp(other), DetachOp(device.serial)]);
      TableFits(d) && OnlySlot1(d) && TargetSlot(Detach(d, d.slots[1].value.serial), device.serial) == 0
  {
    hide PortOf, PadTo32, FirstBytes;
    var d0 := NewDock(secondaryPort);
    var ops := [AttachOp(device), AttachOp(other), DetachOp(device.serial)];
    var d1 := Attach(d0, device);
    var d2 := Attach(d1, other);
    var d3 := Detach(d2, device.serial);
    assert TargetSlot(d0, device.serial) == 0 && TargetSlot(d1, other.serial) == 1;
    assert HoldsAt(d2.slots, 0, device.serial) && FindSerial(d2.slots, device.serial) == Some(0);
    OpsOneByOne(d0, ops[0], ops[1], ops[2]);
    NewDockFits(secondaryPort);
    TableAlwaysFits(d0, ops);
    assert HoldsAt(d3.slots, 1, other.serial) && FindSerial(d3.slots, other.serial) == Some(1);
  }

  lemma NewDockFits(secondaryPort: uint16)
    ensures TableFits(NewDock(secondaryPort))
  {
  }
}
