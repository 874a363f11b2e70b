/**
 The life of one client connection: it subscribes to live events at some
 moment, polls at a later one, and the pushes that poll triggers travel with the
 live events in the same stream.
 */
module Subscription {
  import opened Bytes
  import opened Wrappers
  import opened Cora
  import opened Stream
  import opened Conservation
  import opened Delivery
  import opened Reports
  import opened Dock
  import opened Replica

  /** A push as it arrives: triggered by the poll, or by a change of the table. */
  datatype Arrival = Initial(child: ChildDeviceInfo) | Live(child: ChildDeviceInfo)

  function ChildrenOf(arrivals: seq<Arrival>): (r: seq<ChildDeviceInfo>)
    ensures |r| == |arrivals| && forall i :: 0 <= i < |r| ==> r[i] == arrivals[i].child
  {
    seq(|arrivals|, i requires 0 <= i < |arrivals| => arrivals[i].child)
  }

  function Lives(arrivals: seq<Arrival>): seq<ChildDeviceInfo> {
    if arrivals == [] then []
    else
      var last := arrivals[|arrivals| - 1];
      Lives(arrivals[..|arrivals| - 1]) + if last.Live? then [last.child] else []
  }

  function LastArrival(arrivals: seq<Arrival>, slot: uint8): (r: Option<Arrival>)
    ensures r.Some? ==> r.value in arrivals && r.value.child.slotIndex == slot
    ensures r.None? ==> forall a :: a in arrivals ==> a.child.slotIndex != slot
  {
    if arrivals == [] then None
    else if arrivals[|arrivals| - 1].child.slotIndex == slot then Some(arrivals[|arrivals| - 1])
    else LastArrival(arrivals[..|arrivals| - 1], slot)
  }

  /**
   The last push for the slot is an initial one that was overtaken by live
   events for the slot, the last of which said something else.
   */
  predicate IsStale(arrivals: seq<Arrival>, slot: uint8) {
    var last, live := LastArrival(arrivals, slot), LastFor(Lives(arrivals), slot);
    last.Some? && last.value.Initial? && live.Some? && Shown(live.value) != Shown(last.value.child)
  }

  lemma {:induction false} LastOfEachKind(arrivals: seq<Arrival>, slot: uint8)
    ensures var last, live := LastArrival(arrivals, slot), LastFor(Lives(arrivals), slot);
      && LastFor(ChildrenOf(arrivals), slot) == (if last.Some? then Some(last.value.child) else None)
      && (last.None? ==> live.None?)
      && (last.Some? && last.value.Live? ==> live == Some(last.value.child))
  {
    if arrivals != [] {
      var front := arrivals[..|arrivals| - 1];
      LastOfEachKind(front, slot);
      assert ChildrenOf(arrivals)[..|arrivals| - 1] == ChildrenOf(front);
      var last := arrivals[|arrivals| - 1];
      if last.Live? {
        assert Lives(arrivals)[..|Lives(arrivals)| - 1] == Lives(front);
      } else {
        assert Lives(arrivals) == Lives(front);
      }
    }
  }

  lemma {:induction false} LastForAppend(xs: seq<ChildDeviceInfo>, ys: seq<ChildDeviceInfo>, slot: uint8)
    ensures LastFor(xs + ys, slot) == if LastFor(ys, slot).Some? then LastFor(ys, slot) else LastFor(xs, slot)
    decreases |ys|
  {
    if ys == [] {
      assert xs + ys == xs;
    } else {
      var front := ys[..|ys| - 1];
      LastForAppend(xs, front, slot);
      assert (xs + ys)[..|xs + ys| - 1] == xs + front;
    }
  }

  /** What the table held at a slot at the poll, in terms of the events since the subscription. */
  lemma UntouchedSince(d: Dock, ops1: seq<DockOp>, ops2: seq<DockOp>, slot: uint8)
    requires TableFits(d)
    ensures var d1 := ApplyAll(d, ops1); var d2 := ApplyAll(d1, ops2);
      && TableFits(d1)
      && d.events <= d2.events
      && (match LastFor(d2.events[|d.events|..], slot)
          case None => SlotOf(ClientTable(d1), slot) == SlotOf(ClientTable(d2), slot)
          case Some(c) => SlotOf(ClientTable(d2), slot) == Shown(c))
  {
    hide ApplyAll, ClientTable, TableFits, ReplayAll, PushesOf, Shown, SlotOf;
    TableAlwaysFits(d, ops1);
    var d1 := ApplyAll(d, ops1);
    var d2 := ApplyAll(d1, ops2);
    EventsReplayTheTable(d, ops1);
    EventsReplayTheTable(d1, ops2);
    var events1, events2 := d1.events[|d.events|..], d2.events[|d1.events|..];
    assert d2.events[|d.events|..] == events1 + events2;
    LastForAppend(events1, events2, slot);
    LastDecides(ClientTable(d), events1, slot);
    LastDecides(ClientTable(d1), events2, slot);
  }

  /** A slot some push has arrived for is right if and only if it is not stale. */
  lemma ArrivedSlotIsExact(d: Dock, ops1: seq<DockOp>, ops2: seq<DockOp>, arrivals: seq<Arrival>, slot: uint8)
    requires TableFits(d)
    requires var d1 := ApplyAll(d, ops1); var d2 := ApplyAll(d1, ops2);
      && d.events <= d2.events
      && Lives(arrivals) == d2.events[|d.events|..]
      && forall c :: Initial(c) in arrivals ==> c in AllActiveChildren(d1)
    ensures var replica := ReplayAll(map[], PushesOf(ChildrenOf(arrivals)));
            var table := ClientTable(ApplyAll(ApplyAll(d, ops1), ops2));
      && (LastArrival(arrivals, slot).None? ==> slot !in replica)
      && (LastArrival(arrivals, slot).Some? ==>
            (SlotOf(replica, slot) == SlotOf(table, slot) <==> !IsStale(arrivals, slot)))
      && (IsStale(arrivals, slot) ==> slot in replica)
  {
    hide ApplyAll, ClientTable, TableFits, ReplayAll, PushesOf, ClientView, AllActiveChildren, Lives, ChildrenOf,
         LastArrival, LastFor;
    var d1 := ApplyAll(d, ops1);
    LastOfEachKind(arrivals, slot);
    LastDecides(map[], ChildrenOf(arrivals), slot);
    UntouchedSince(d, ops1, ops2, slot);
    var last := LastArrival(arrivals, slot);
    if last.Some? && last.value.Initial? {
      ActiveIsInTable(d1, last.value.child);
    }
  }

  lemma PolledSlotIsExact(d: Dock, ops1: seq<DockOp>, ops2: seq<DockOp>, arrivals: seq<Arrival>, slot: uint8)
    requires TableFits(d)
    requires var d1 := ApplyAll(d, ops1); var d2 := ApplyAll(d1, ops2);
      && d.events <= d2.events
      && Lives(arrivals) == d2.events[|d.events|..]
      && forall c :: Initial(c) in arrivals <==> c in AllActiveChildren(d1)
    ensures var replica := ReplayAll(map[], PushesOf(ChildrenOf(arrivals)));
            var table := ClientTable(ApplyAll(ApplyAll(d, ops1), ops2));
            (SlotOf(replica, slot) == SlotOf(table, slot) <==> !IsStale(arrivals, slot))
  {
    hide ApplyAll, ClientTable, TableFits, ReplayAll, PushesOf, ClientView, AllActiveChildren, Lives, ChildrenOf,
         LastArrival, LastFor;
    ArrivedSlotIsExact(d, ops1, ops2, arrivals, slot);
    LastOfEachKind(arrivals, slot);
    UntouchedSince(d, ops1, ops2, slot);
    if slot in ClientTable(ApplyAll(d, ops1)) {
      OccupiedSlotIsPushed(ApplyAll(d, ops1), arrivals, slot);
    }
  }

  lemma OccupiedSlotIsPushed(d: Dock, arrivals: seq<Arrival>, slot: uint8)
    requires TableFits(d) && slot in ClientTable(d)
    requires forall c :: c in AllActiveChildren(d) ==> Initial(c) in arrivals
    ensures exists a :: a in arrivals && a.child.slotIndex == slot
  {
    hide TableFits, PadTo32;
    SlotIndexIsIndex(d, slot);
    var c := d.slots[slot].value.childInfo;
    ActiveIsTable(d.slots, c);
    assert Initial(c) in arrivals && Initial(c).child.slotIndex == slot;
  }

  /**
   A client that subscribes at dock `d` and polls after `ops1`, with the initial
   pushes and the live events interleaved in any way, other traffic mixed in and
   any chunking: it ends with the server's table if and only if no slot ends
   with an initial push that was overtaken to stale effect.
   */
  lemma {:induction false} PolledReplicaIsExact(d: Dock, ops1: seq<DockOp>, ops2: seq<DockOp>, arrivals: seq<Arrival>,
                                                sent: seq<CoraFrame>, chunks: seq<seq<uint8>>)
    requires TableFits(d)
    requires var d1 := ApplyAll(d, ops1); var d2 := ApplyAll(d1, ops2);
      && |d.events| <= |d2.events|
      && Lives(arrivals) == d2.events[|d.events|..]
      && forall c :: Initial(c) in arrivals <==> c in AllActiveChildren(d1)
    requires AllWellFormed(sent) && OnlyPushes(sent) == PushesOf(ChildrenOf(arrivals))
    requires Flatten(chunks) == EncodeAll(sent)
    ensures ReplayAll(map[], Run([], chunks).frames) == ClientTable(ApplyAll(ApplyAll(d, ops1), ops2))
       <==> forall slot: uint8 :: !IsStale(arrivals, slot)
  {
    hide ApplyAll, ClientTable, TableFits, ReplayAll, PushesOf, AllActiveChildren, Lives, ChildrenOf, IsStale,
         Run, EncodeAll, SlotOf;
    WholeStreamIsDelivered(sent, chunks);
    OthersAreIgnored(map[], sent);
    var replica := ReplayAll(map[], PushesOf(ChildrenOf(arrivals)));
    var table := ClientTable(ApplyAll(ApplyAll(d, ops1), ops2));
    forall slot: uint8 ensures SlotOf(replica, slot) == SlotOf(table, slot) <==> !IsStale(arrivals, slot) {
      UntouchedSince(d, ops1, ops2, slot);
      PolledSlotIsExact(d, ops1, ops2, arrivals, slot);
    }
    SameSlotsSameTable(replica, table);
  }

  /**
   The failing case: a device is detached after the poll, and its initial push
   arrives behind the detach.  The client keeps a device that is gone.
   */
  lemma {:induction false} OvertakenPushLeavesAGhost(d: Dock, device: Device)
    requires TableFits(d) && forall i :: 0 <= i < MAX_CHILD_SLOTS ==> d.slots[i].None?
    ensures var d1 := Attach(d, device);
            var d2 := Detach(d1, device.serial);
            var c := EntryFor(d.secondaryPort, TargetSlot(d, device.serial), device).childInfo;
            var arrivals := [Live(c), Live(Disconnected(c.slotIndex)), Initial(c)];
      && d2.events == d.events + Lives(arrivals)
      && (forall x :: Initial(x) in arrivals <==> x in AllActiveChildren(d1))
      && IsStale(arrivals, c.slotIndex)
      && ClientTable(d2) == map[]
      && c.slotIndex in ReplayAll(map[], PushesOf(ChildrenOf(arrivals)))
  {
    hide TargetSlot, FindSerial, ReplayAll, PushesOf, ClientView, PadTo32, FirstBytes, PortOf, LastFor, IsStale, Lives;
    var slot := TargetSlot(d, device.serial);
    var d1 := Attach(d, device);
    var c := EntryFor(d.secondaryPort, slot, device).childInfo;
    assert HoldsAt(d1.slots, slot, device.serial);
    var gone := Disconnected(slot);
    var arrivals := [Live(c), Live(gone), Initial(c)];
    ThreeArrivals(c, gone);
    LastDecides(map[], ChildrenOf(arrivals), slot);
    forall x ensures x in AllActiveChildren(d1) <==> x == c {
      ActiveIsTable(d1.slots, x);
      assert d1.slots[slot].value.childInfo == c;
    }
  }

  lemma ThreeArrivals(c: ChildDeviceInfo, gone: ChildDeviceInfo)
    requires c.slotIndex == gone.slotIndex && c.connected && !gone.connected
    ensures var arrivals := [Live(c), Live(gone), Initial(c)];
      && Lives(arrivals) == [c, gone]
      && LastFor(ChildrenOf(arrivals), c.slotIndex) == Some(c)
      && IsStale(arrivals, c.slotIndex)
  {
    hide ClientView;
    var arrivals := [Live(c), Live(gone), Initial(c)];
    assert arrivals[..2] == [Live(c), Live(gone)] && arrivals[..2][..1] == [Live(c)] && arrivals[..2][..1][..0] == [];
    assert Lives([Live(c)]) == [c];
    assert Lives([Live(c), Live(gone)]) == [c] + [gone];
    assert Lives(arrivals) == [c, gone] + [];
    assert LastArrival(arrivals, c.slotIndex) == Some(Initial(c));
    assert LastFor([c, gone], c.slotIndex) == Some(gone);
  }

  // ----- With the dock still while the initial pushes are under way -----

  /**
   A client that subscribes late, polls, receives the initial pushes in any order
   and then lives on with the events ends with the server's table, and a query
   for any of the 256 slot numbers agrees with it.
   */
  lemma {:induction false} ReplicaEqualsTable(d: Dock, ops1: seq<DockOp>, order: seq<ChildDeviceInfo>,
                                              ops2: seq<DockOp>, sent: seq<CoraFrame>, chunks: seq<seq<uint8>>)
    requires TableFits(d)
    requires var d1 := ApplyAll(d, ops1); var d2 := ApplyAll(d1, ops2);
      && |d.events| <= |d1.events| <= |d2.events|
      && (forall c :: c in order <==> c in AllActiveChildren(d1))
      && OnlyPushes(sent) == PushesOf(d1.events[|d.events|..] + order + d2.events[|d1.events|..])
    requires AllWellFormed(sent) && Flatten(chunks) == EncodeAll(sent)
    ensures var d2 := ApplyAll(ApplyAll(d, ops1), ops2);
            var replica := ReplayAll(map[], Run([], chunks).frames);
            && replica == ClientTable(d2)
            && forall q: uint8 ::
                 Parse(Payload(ChildDeviceAt(d2, q), false, q))
                 == Success(if q in replica then Some(replica[q]) else None)
  {
    hide ApplyAll, ClientTable, TableFits, ReplayAll, PushesOf, AllActiveChildren, Run, EncodeAll, Parse, Payload,
         ChildDeviceAt;
    var d1 := ApplyAll(d, ops1);
    var d2 := ApplyAll(d1, ops2);
    var events1, events2 := d1.events[|d.events|..], d2.events[|d1.events|..];
    WholeStreamIsDelivered(sent, chunks);
    OthersAreIgnored(map[], sent);
    TableAlwaysFits(d, ops1);
    EventsKeepPart(d, map[], ops1);
    InitialPushesInAnyOrder(d1, ReplayAll(map[], PushesOf(events1)), order);
    EventsReplayTheTable(d1, ops2);
    ReplayInThreeParts(map[], events1, order, events2);
    forall q: uint8
      ensures Parse(Payload(ChildDeviceAt(d2, q), false, q))
           == Success(if q in ClientTable(d2) then Some(ClientTable(d2)[q]) else None)
    {
      QueryAgrees(d1, ops2, q);
    }
  }

  lemma ReplayInThreeParts(table: ReplicaTable, xs: seq<ChildDeviceInfo>, ys: seq<ChildDeviceInfo>,
                           zs: seq<ChildDeviceInfo>)
    ensures ReplayAll(table, PushesOf(xs + ys + zs))
         == ReplayAll(ReplayAll(ReplayAll(table, PushesOf(xs)), PushesOf(ys)), PushesOf(zs))
  {
    hide ReplayAll, PushesOf;
    PushesOfAppend(xs + ys, zs);
    PushesOfAppend(xs, ys);
    ReplayAppend(table, PushesOf(xs + ys), PushesOf(zs));
    ReplayAppend(table, PushesOf(xs), PushesOf(ys));
  }

  /** A client that never polls misses exactly the slots that nothing has touched since it subscribed. */
  lemma {:induction false} UnpolledReplicaIsExact(d: Dock, ops: seq<DockOp>, sent: seq<CoraFrame>,
                                                  chunks: seq<seq<uint8>>)
    requires TableFits(d)
    requires |d.events| <= |ApplyAll(d, ops).events|
    requires OnlyPushes(sent) == PushesOf(ApplyAll(d, ops).events[|d.events|..])
    requires AllWellFormed(sent) && Flatten(chunks) == EncodeAll(sent)
    ensures ReplayAll(map[], Run([], chunks).frames) == ClientTable(ApplyAll(d, ops))
       <==> forall slot :: slot in ClientTable(d) ==> LastFor(ApplyAll(d, ops).events[|d.events|..], slot).Some?
  {
    hide ApplyAll, ClientTable, TableFits, ReplayAll, PushesOf, Run, EncodeAll, LastFor;
    var news := ApplyAll(d, ops).events[|d.events|..];
    WholeStreamIsDelivered(sent, chunks);
    OthersAreIgnored(map[], sent);
    EventsReplayTheTable(d, ops);
    var replica := ReplayAll(map[], PushesOf(news));
    var table := ClientTable(ApplyAll(d, ops));
    forall slot: uint8
      ensures SlotOf(replica, slot) == SlotOf(table, slot)
         <==> (slot in ClientTable(d) ==> LastFor(news, slot).Some?)
    {
      LastDecides(map[], news, slot);
      LastDecides(ClientTable(d), news, slot);
    }
    SameSlotsSameTable(replica, table);
  }

  // ----- While the stream is still arriving -----

  /** A stretch of the event log is what was logged up to some moment of the history. */
  lemma EventsSoFar(d: Dock, ops: seq<DockOp>, m: nat) returns (past: seq<DockOp>)
    requires TableFits(d)
    requires |d.events| + m <= |ApplyAll(d, ops).events|
    ensures past <= ops
    ensures |d.events| <= |ApplyAll(d, past).events|
    ensures ApplyAll(d, past).events[|d.events|..] == ApplyAll(d, ops).events[|d.events|..][..m]
  {
    hide ApplyAll, TableFits;
    var j := LogPrefixIsPast(d, ops, |d.events| + m);
    past := ops[..j];
  }

  /** All pushes for the poll are in, or the client has known the table from the start. */
  predicate KnowsTheTable(d: Dock, beforePoll: nat, initial: nat, received: nat) {
    ClientTable(d) == map[] || beforePoll + initial <= received
  }

  /** The first `m` pushes, when the initial ones have not begun to arrive. */
  lemma SoFarBeforePoll(d: Dock, ops1: seq<DockOp>, m: nat) returns (past: seq<DockOp>)
    requires TableFits(d) && |d.events| + m <= |ApplyAll(d, ops1).events|
    ensures past <= ops1
    ensures var replica := ReplayAll(map[], PushesOf(ApplyAll(d, ops1).events[|d.events|..][..m]));
            var table := ClientTable(ApplyAll(d, past));
      PartOf(replica, table) && (ClientTable(d) == map[] ==> replica == table)
  {
    hide ApplyAll, ClientTable, TableFits, ReplayAll, PushesOf;
    past := EventsSoFar(d, ops1, m);
    EventsKeepPart(d, map[], past);
    EventsReplayTheTable(d, past);
  }

  /** ... when some of the initial ones are in ... */
  lemma SoFarDuringPoll(d: Dock, ops1: seq<DockOp>, some: seq<ChildDeviceInfo>)
    requires TableFits(d) && |d.events| <= |ApplyAll(d, ops1).events|
    requires forall c :: c in some ==> c in AllActiveChildren(ApplyAll(d, ops1))
    ensures var d1 := ApplyAll(d, ops1);
            var replica := ReplayAll(map[], PushesOf(d1.events[|d.events|..] + some));
      PartOf(replica, ClientTable(d1)) && (ClientTable(d) == map[] ==> replica == ClientTable(d1))
  {
    hide ApplyAll, ClientTable, TableFits, ReplayAll, PushesOf, AllActiveChildren, PartOf;
    var d1 := ApplyAll(d, ops1);
    var events1 := d1.events[|d.events|..];
    TableAlwaysFits(d, ops1);
    EmptyIsPart(ClientTable(d));
    EventsKeepPart(d, map[], ops1);
    EventsReplayTheTable(d, ops1);
    PushesOfAppend(events1, some);
    ReplayAppend(map[], PushesOf(events1), PushesOf(some));
    PushesFillIn(d1, ReplayAll(map[], PushesOf(events1)), some);
    PushesRepeatTheTable(d1, some);
  }

  lemma EmptyIsPart(whole: ReplicaTable)
    ensures PartOf(map[], whole)
  {
  }

  lemma PushesRepeatTheTable(d: Dock, some: seq<ChildDeviceInfo>)
    requires TableFits(d) && forall c :: c in some ==> c in AllActiveChildren(d)
    ensures ReplayAll(ClientTable(d), PushesOf(some)) == ClientTable(d)
  {
    hide ClientTable, TableFits, ReplayAll, PushesOf, AllActiveChildren;
    PushesFillIn(d, ClientTable(d), some);
  }

  /** ... and when all of them are. */
  lemma SoFarAfterPoll(d: Dock, ops1: seq<DockOp>, order: seq<ChildDeviceInfo>, ops2: seq<DockOp>, rest: nat)
    returns (past: seq<DockOp>)
    requires TableFits(d) && |d.events| <= |ApplyAll(d, ops1).events|
    requires forall c :: c in order <==> c in AllActiveChildren(ApplyAll(d, ops1))
    requires var d1 := ApplyAll(d, ops1); |d1.events| + rest <= |ApplyAll(d1, ops2).events|
    ensures past <= ops1 + ops2
    ensures var d1 := ApplyAll(d, ops1);
            var events2 := ApplyAll(d1, ops2).events[|d1.events|..];
      ReplayAll(map[], PushesOf(d1.events[|d.events|..] + order + events2[..rest])) == ClientTable(ApplyAll(d, past))
  {
    hide ApplyAll, ClientTable, TableFits, ReplayAll, PushesOf, AllActiveChildren;
    var d1 := ApplyAll(d, ops1);
    var events1 := d1.events[|d.events|..];
    TableAlwaysFits(d, ops1);
    var later := EventsSoFar(d1, ops2, rest);
    past := ops1 + later;
    ApplyAppend(d, ops1, later);
    EventsKeepPart(d, map[], ops1);
    InitialPushesInAnyOrder(d1, ReplayAll(map[], PushesOf(events1)), order);
    EventsReplayTheTable(d1, later);
    ReplayInThreeParts(map[], events1, order, ApplyAll(d1, ops2).events[|d1.events|..][..rest]);
  }

  lemma PushesSoFar(d: Dock, ops1: seq<DockOp>, order: seq<ChildDeviceInfo>, ops2: seq<DockOp>, m: nat)
    returns (past: seq<DockOp>)
    requires TableFits(d)
    requires var d1 := ApplyAll(d, ops1); var d2 := ApplyAll(d1, ops2);
      && |d.events| <= |d1.events| <= |d2.events|
      && (forall c :: c in order <==> c in AllActiveChildren(d1))
      && m <= |d1.events| - |d.events| + |order| + |d2.events| - |d1.events|
    ensures past <= ops1 + ops2
    ensures var d1 := ApplyAll(d, ops1); var d2 := ApplyAll(d1, ops2);
            var pushes := d1.events[|d.events|..] + order + d2.events[|d1.events|..];
            var replica := ReplayAll(map[], PushesOf(pushes[..m]));
            var table := ClientTable(ApplyAll(d, past));
      && PartOf(replica, table)
      && (KnowsTheTable(d, |d1.events| - |d.events|, |order|, m) ==> replica == table)
  {
    hide ApplyAll, ClientTable, TableFits, ReplayAll, PushesOf, AllActiveChildren;
    var d1 := ApplyAll(d, ops1);
    var events1, events2 := d1.events[|d.events|..], ApplyAll(d1, ops2).events[|d1.events|..];
    var pushes := events1 + order + events2;
    if |events1| + |order| <= m {
      var rest := m - |events1| - |order|;
      past := SoFarAfterPoll(d, ops1, order, ops2, rest);
      assert pushes[..m] == events1 + order + events2[..rest];
    } else if m <= |events1| {
      past := SoFarBeforePoll(d, ops1, m);
      assert pushes[..m] == events1[..m];
    } else {
      past := ops1;
      SoFarDuringPoll(d, ops1, order[..m - |events1|]);
      assert pushes[..m] == events1 + order[..m - |events1|];
    }
  }

  /**
   If the dock is still while the initial pushes arrive: however little has
   arrived, and whether or not the client has polled, what it holds is part of a
   table the server really had, and all of that table once the initial pushes
   are in, or if the table was empty when it subscribed.
   */
  lemma {:induction false} ReplicaIsAlwaysPartOfAPastTable(d: Dock, ops1: seq<DockOp>, order: seq<ChildDeviceInfo>,
                                                           ops2: seq<DockOp>, sent: seq<CoraFrame>,
                                                           chunks: seq<seq<uint8>>)
    returns (past: seq<DockOp>)
    requires TableFits(d)
    requires var d1 := ApplyAll(d, ops1); var d2 := ApplyAll(d1, ops2);
      && |d.events| <= |d1.events| <= |d2.events|
      && (forall c :: c in order <==> c in AllActiveChildren(d1))
      && OnlyPushes(sent) <= PushesOf(d1.events[|d.events|..] + order + d2.events[|d1.events|..])
    requires AllWellFormed(sent) && Flatten(chunks) <= EncodeAll(sent)
    ensures past <= ops1 + ops2
    ensures var d1 := ApplyAll(d, ops1);
            var frames := Run([], chunks).frames;
            var replica := ReplayAll(map[], frames);
            var table := ClientTable(ApplyAll(d, past));
      && PartOf(replica, table)
      && (KnowsTheTable(d, |d1.events| - |d.events|, |order|, |OnlyPushes(frames)|) ==> replica == table)
  {
    hide Run, RunTrace, EncodeAll, ApplyAll, TableFits, ClientTable, ReplayAll, FrameBytes, AllActiveChildren, PartOf,
         KnowsTheTable;
    var d1 := ApplyAll(d, ops1);
    var pushes := d1.events[|d.events|..] + order + ApplyAll(d1, ops2).events[|d1.events|..];
    WellFormedStreamsAreChunkIndependent(sent, chunks);
    var k := Complete(sent, |Flatten(chunks)|);
    PushesOfPrefix(sent, k);
    var m := |OnlyPushes(sent[..k])|;
    assert OnlyPushes(sent[..k]) == PushesOf(pushes)[..m] == PushesOf(pushes[..m]);
    OthersAreIgnored(map[], sent[..k]);
    past := PushesSoFar(d, ops1, order, ops2, m);
  }
}
