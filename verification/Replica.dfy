/**
 End to end: table change, broadcast event, push frame, TCP chunks, decoder,
 client-side replay.  The replica a client builds is the server's table.
 */
module Replica {
  import opened Bytes
  import opened Wrappers
  import opened Cora
  import opened Reports
  import opened Dock

  type ReplicaTable = map<uint8, ChildDeviceInfo>

  predicate IsPush(f: CoraFrame) {
    |f.payload| == REPORT_SIZE && f.payload[0] == 0x01 && f.payload[1] == 0x0b
  }

  /** A client files a connected report under its slot, and forgets the slot a disconnected one names in byte 5. */
  function Replay(table: ReplicaTable, f: CoraFrame): ReplicaTable {
    if !IsPush(f) then table
    else
      match Parse(f.payload)
      case Success(Some(c)) => table[c.slotIndex := c]
      case _ => table - {f.payload[5]}
  }

  function ReplayAll(table: ReplicaTable, frames: seq<CoraFrame>): ReplicaTable
    decreases |frames|
  {
    if frames == [] then table else ReplayAll(Replay(table, frames[0]), frames[1..])
  }

  function PushOf(c: ChildDeviceInfo): CoraFrame {
    PushFrame(Payload(c, true, c.slotIndex))
  }

  function PushesOf(events: seq<ChildDeviceInfo>): (r: seq<CoraFrame>)
    ensures |r| == |events| && forall i :: 0 <= i < |events| ==> r[i] == PushOf(events[i])
  {
    seq(|events|, i requires 0 <= i < |events| => PushOf(events[i]))
  }

  /** The push frames of a stream that also carries replies and keepalives. */
  function OnlyPushes(frames: seq<CoraFrame>): seq<CoraFrame> {
    if frames == [] then []
    else (if IsPush(frames[0]) then [frames[0]] else []) + OnlyPushes(frames[1..])
  }

  /** The server's table, as a client would write it down. */
  function ClientTable(d: Dock): (t: ReplicaTable)
    ensures forall i: uint8 :: i in t <==> i < MAX_CHILD_SLOTS && d.slots[i].Some?
    ensures forall i: uint8 :: i in t ==> t[i] == ClientView(d.slots[i].value.childInfo)
  {
    map i: uint8 | 0 <= i < MAX_CHILD_SLOTS && d.slots[i].Some? :: ClientView(d.slots[i].value.childInfo)
  }

  lemma ReplayOfPush(table: ReplicaTable, c: ChildDeviceInfo)
    ensures IsPush(PushOf(c)) && PushOf(c).WellFormed()
    ensures Replay(table, PushOf(c))
         == if c.connected then table[c.slotIndex := ClientView(c)] else table - {c.slotIndex}
  {
    ParseAfterBuild(c, true, c.slotIndex);
    hide Parse, Visible, PadTo32;
    var p := Payload(c, true, c.slotIndex);
    assert p[0] == 0x01 && p[1] == 0x0b;
    assert !c.connected ==> p[5] == c.slotIndex;
  }

  lemma ReplayOfOne(table: ReplicaTable, c: ChildDeviceInfo)
    ensures ReplayAll(table, PushesOf([c]))
         == if c.connected then table[c.slotIndex := ClientView(c)] else table - {c.slotIndex}
  {
    hide Replay, PushOf, ClientView;
    ReplayOfPush(table, c);
    assert PushesOf([c])[1..] == [];
  }

  lemma AttachIsReplayed(d: Dock, device: Device)
    ensures var d' := Attach(d, device);
            && d'.events[|d.events|..] == [d'.events[|d.events|]]
            && ReplayAll(ClientTable(d), PushesOf(d'.events[|d.events|..])) == ClientTable(d')
  {
    hide ReplayAll, PushesOf, ClientView, TargetSlot, PadTo32, FirstBytes;
    var d' := Attach(d, device);
    var slot := TargetSlot(d, device.serial);
    var c := EntryFor(d.secondaryPort, slot, device).childInfo;
    assert d'.events[|d.events|..] == [c];
    ReplayOfOne(ClientTable(d), c);
    assert ClientTable(d)[c.slotIndex := ClientView(c)] == ClientTable(d');
  }

  lemma DetachIsReplayed(d: Dock, serial: Serial)
    requires TableFits(d)
    ensures var d' := Detach(d, serial);
            && d.events <= d'.events && |d'.events| <= |d.events| + 1
            && ReplayAll(ClientTable(d), PushesOf(d'.events[|d.events|..])) == ClientTable(d')
  {
    hide ReplayAll, PushesOf, ClientView, TableFits, FindSerial, PadTo32;
    var d' := Detach(d, serial);
    match FindSerial(d.slots, serial)
    case None =>
      assert d'.events[|d.events|..] == [];
      NothingToReplay(ClientTable(d));
    case Some(i) =>
      SlotIndexIsIndex(d, i);
      var c := Disconnected(i);
      assert d'.events[|d.events|..] == [c];
      ReplayOfOne(ClientTable(d), c);
      assert ClientTable(d) - {c.slotIndex} == ClientTable(d');
  }

  /** One change of the table, seen through its event. */
  lemma {:induction false} StepIsReplayed(d: Dock, op: DockOp)
    requires TableFits(d)
    ensures var d' := Apply(d, op);
            && d.events <= d'.events
            && |d'.events| <= |d.events| + 1
            && ReplayAll(ClientTable(d), PushesOf(d'.events[|d.events|..])) == ClientTable(d')
  {
    hide ReplayAll, PushesOf, ClientTable, Detach, TableFits;
    match op
    case AttachOp(device) => AttachIsReplayed(d, device);
    case DetachOp(serial) => DetachIsReplayed(d, serial);
  }

  lemma SlotIndexIsIndex(d: Dock, i: nat)
    requires TableFits(d) && i < MAX_CHILD_SLOTS && d.slots[i].Some?
    ensures d.slots[i].value.slotIndex == d.slots[i].value.childInfo.slotIndex == i
  {
    assert EntryFits(d.secondaryPort, i, d.slots[i].value);
  }

  lemma {:induction false} ReplayAppend(table: ReplicaTable, xs: seq<CoraFrame>, ys: seq<CoraFrame>)
    ensures ReplayAll(table, xs + ys) == ReplayAll(ReplayAll(table, xs), ys)
    decreases |xs|
  {
    hide Replay;
    if xs == [] {
      assert xs + ys == ys;
    } else {
      ReplayAppend(Replay(table, xs[0]), xs[1..], ys);
      assert (xs + ys)[1..] == xs[1..] + ys;
    }
  }

  lemma {:induction false} OthersAreIgnored(table: ReplicaTable, frames: seq<CoraFrame>)
    ensures ReplayAll(table, frames) == ReplayAll(table, OnlyPushes(frames))
    decreases |frames|
  {
    hide Parse, IsPush;
    if frames != [] {
      OthersAreIgnored(Replay(table, frames[0]), frames[1..]);
      if IsPush(frames[0]) {
        assert OnlyPushes(frames)[1..] == OnlyPushes(frames[1..]);
      } else {
        assert OnlyPushes(frames) == OnlyPushes(frames[1..]);
      }
    }
  }

  /** A client whose table is right when it starts listening keeps it right through any history of changes. */
  lemma {:induction false} EventsReplayTheTable(d: Dock, ops: seq<DockOp>)
    requires TableFits(d)
    ensures var d' := ApplyAll(d, ops);
            && d.events <= d'.events
            && ReplayAll(ClientTable(d), PushesOf(d'.events[|d.events|..])) == ClientTable(d')
    decreases |ops|
  {
    hide Apply, TableFits, ClientTable, ReplayAll;
    if ops == [] {
      assert d.events[|d.events|..] == [];
      NothingToReplay(ClientTable(d));
    } else {
      var mid := Apply(d, ops[0]);
      var last := ApplyAll(mid, ops[1..]);
      StepIsReplayed(d, ops[0]);
      StepFits(d, ops[0]);
      EventsReplayTheTable(mid, ops[1..]);
      var first, rest := mid.events[|d.events|..], last.events[|mid.events|..];
      assert last.events[|d.events|..] == first + rest;
      assert PushesOf(first + rest) == PushesOf(first) + PushesOf(rest);
      ReplayAppend(ClientTable(d), PushesOf(first), PushesOf(rest));
    }
  }

  lemma NothingToReplay(table: ReplicaTable)
    ensures PushesOf([]) == [] && ReplayAll(table, []) == table
  {
  }

  lemma QueryAgrees(start: Dock, ops: seq<DockOp>, q: uint8)
    requires TableFits(start)
    ensures var d := ApplyAll(start, ops);
            (Parse(Payload(ChildDeviceAt(d, q), false, q))
             == Success(if q in ClientTable(d) then Some(ClientTable(d)[q]) else None))
  {
    hide Payload, Parse, ClientView;
    var d := ApplyAll(start, ops);
    TableAlwaysFits(start, ops);
    ParseAfterBuild(ChildDeviceAt(d, q), false, q);
    if q < MAX_CHILD_SLOTS && d.slots[q].Some? {
      assert EntryFits(d.secondaryPort, q, d.slots[q].value);
    }
  }

  // ----- One slot at a time -----

  function SlotOf(table: ReplicaTable, slot: uint8): Option<ChildDeviceInfo> {
    if slot in table then Some(table[slot]) else None
  }

  /** What a report leaves in its slot. */
  function Shown(c: ChildDeviceInfo): Option<ChildDeviceInfo> {
    if c.connected then Some(ClientView(c)) else None
  }

  function LastFor(events: seq<ChildDeviceInfo>, slot: uint8): (r: Option<ChildDeviceInfo>)
    ensures r.Some? ==> r.value in events && r.value.slotIndex == slot
    ensures r.None? ==> forall c :: c in events ==> c.slotIndex != slot
  {
    if events == [] then None
    else if events[|events| - 1].slotIndex == slot then Some(events[|events| - 1])
    else LastFor(events[..|events| - 1], slot)
  }

  /** The last report about a slot decides what a replica holds there. */
  lemma {:induction false} LastDecides(table: ReplicaTable, events: seq<ChildDeviceInfo>, slot: uint8)
    ensures SlotOf(ReplayAll(table, PushesOf(events)), slot)
         == match LastFor(events, slot) { case None => SlotOf(table, slot) case Some(c) => Shown(c) }
    decreases |events|
  {
    hide ReplayAll, PushesOf, ClientView;
    if events == [] {
      NothingToReplay(table);
    } else {
      var front, c := events[..|events| - 1], events[|events| - 1];
      assert events == front + [c];
      PushesOfAppend(front, [c]);
      ReplayAppend(table, PushesOf(front), PushesOf([c]));
      ReplayOfOne(ReplayAll(table, PushesOf(front)), c);
      LastDecides(table, front, slot);
    }
  }

  lemma PushesOfAppend(xs: seq<ChildDeviceInfo>, ys: seq<ChildDeviceInfo>)
    ensures PushesOf(xs + ys) == PushesOf(xs) + PushesOf(ys)
  {
    hide PushOf;
  }

  lemma SameSlotsSameTable(a: ReplicaTable, b: ReplicaTable)
    ensures a == b <==> forall slot: uint8 :: SlotOf(a, slot) == SlotOf(b, slot)
  {
    if forall slot: uint8 :: SlotOf(a, slot) == SlotOf(b, slot) {
      forall slot: uint8 ensures slot in a <==> slot in b {
        assert SlotOf(a, slot) == SlotOf(b, slot);
      }
      forall slot: uint8 | slot in a ensures a[slot] == b[slot] {
        assert SlotOf(a, slot) == SlotOf(b, slot);
      }
    }
  }

  // ----- While the stream is still arriving -----

  lemma {:induction false} PushesOfPrefix(sent: seq<CoraFrame>, k: nat)
    requires k <= |sent|
    ensures OnlyPushes(sent[..k]) <= OnlyPushes(sent)
  {
    hide IsPush;
    if k > 0 {
      PushesOfPrefix(sent[1..], k - 1);
      assert sent[..k][1..] == sent[1..][..k - 1];
    }
  }

  /** Every prefix of the event log was the whole log at some point of the history. */
  lemma {:induction false} LogPrefixIsPast(d: Dock, ops: seq<DockOp>, m: nat) returns (j: nat)
    requires TableFits(d)
    requires |d.events| <= m <= |ApplyAll(d, ops).events|
    ensures j <= |ops| && ApplyAll(d, ops[..j]).events == ApplyAll(d, ops).events[..m]
    decreases |ops|
  {
    hide Apply, TableFits, ClientTable, ReplayAll;
    EventsReplayTheTable(d, ops);
    if m == |d.events| {
      j := 0;
    } else {
      StepFits(d, ops[0]);
      StepIsReplayed(d, ops[0]);
      var i := LogPrefixIsPast(Apply(d, ops[0]), ops[1..], m);
      j := i + 1;
      assert ops[..j][1..] == ops[1..][..i];
    }
  }

  // ----- When the replica is literally the table -----

  predicate Readable(device: Device) {
    NulFree(FirstBytes(device.modelName, 31)) && NulFree(FirstBytes(device.serial, 31))
  }

  predicate ShownInFull(d: Dock) {
    forall i :: 0 <= i < MAX_CHILD_SLOTS && d.slots[i].Some? ==>
      ClientView(d.slots[i].value.childInfo) == d.slots[i].value.childInfo
  }

  lemma StepShowsInFull(d: Dock, op: DockOp)
    requires ShownInFull(d) && (op.AttachOp? ==> Readable(op.device))
    ensures ShownInFull(Apply(d, op))
  {
    if op.AttachOp? {
      var slot := TargetSlot(d, op.device.serial);
      var c := EntryFor(d.secondaryPort, slot, op.device).childInfo;
      VisibleOfPadded(FirstBytes(op.device.modelName, 31));
      VisibleOfPadded(FirstBytes(op.device.serial, 31));
      hide Visible, PadTo32, FirstBytes;
      assert ClientView(c) == c;
    }
  }

  /** With names and serials free of NUL, what the client holds is the server's records themselves. */
  lemma {:induction false} ReadableTableIsShownInFull(d: Dock, ops: seq<DockOp>)
    requires ShownInFull(d)
    requires forall op :: op in ops && op.AttachOp? ==> Readable(op.device)
    ensures ShownInFull(ApplyAll(d, ops))
    decreases |ops|
  {
    hide ShownInFull, Readable, Apply;
    if ops != [] {
      assert ops[0] in ops;
      StepShowsInFull(d, ops[0]);
      ReadableTableIsShownInFull(Apply(d, ops[0]), ops[1..]);
    }
  }

  // ----- The initial pushes -----

  lemma {:induction false} ActiveIsTable(slots: seq<Option<SlotEntry>>, c: ChildDeviceInfo)
    ensures c in ActiveFrom(slots) <==>
            exists i :: 0 <= i < |slots| && slots[i].Some? && slots[i].value.childInfo == c
  {
    if slots != [] {
      var rest := slots[1..];
      ActiveIsTable(rest, c);
      if exists i :: 0 <= i < |rest| && rest[i].Some? && rest[i].value.childInfo == c {
        var i :| 0 <= i < |rest| && rest[i].Some? && rest[i].value.childInfo == c;
        assert slots[i + 1] == rest[i];
      }
      if exists i :: 1 <= i < |slots| && slots[i].Some? && slots[i].value.childInfo == c {
        var i :| 1 <= i < |slots| && slots[i].Some? && slots[i].value.childInfo == c;
        assert rest[i - 1] == slots[i];
      }
    }
  }

  predicate PartOf(part: ReplicaTable, whole: ReplicaTable) {
    forall i :: i in part ==> i in whole && part[i] == whole[i]
  }

  lemma {:induction false} PushesFillIn(d: Dock, part: ReplicaTable, order: seq<ChildDeviceInfo>)
    requires TableFits(d) && PartOf(part, ClientTable(d))
    requires forall c :: c in order ==> c in AllActiveChildren(d)
    ensures var filled := ReplayAll(part, PushesOf(order));
            && PartOf(filled, ClientTable(d))
            && (forall i :: i in part ==> i in filled)
            && (forall c :: c in order ==> c.slotIndex in filled)
    decreases |order|
  {
    hide Replay, ReplayAll, PushesOf, PushOf, ClientView, ClientTable, AllActiveChildren, TableFits;
    if order == [] {
      NothingToReplay(part);
    } else {
      var c := order[0];
      assert c in order;
      ActiveIsInTable(d, c);
      ReplayOfPush(part, c);
      FirstPush(part, order);
      PushesFillIn(d, part[c.slotIndex := ClientView(c)], order[1..]);
    }
  }

  lemma FirstPush(table: ReplicaTable, order: seq<ChildDeviceInfo>)
    requires order != []
    ensures ReplayAll(table, PushesOf(order)) == ReplayAll(Replay(table, PushOf(order[0])), PushesOf(order[1..]))
  {
    hide Replay, PushOf;
    assert PushesOf(order)[1..] == PushesOf(order[1..]);
  }

  lemma ActiveIsInTable(d: Dock, c: ChildDeviceInfo)
    requires TableFits(d) && c in AllActiveChildren(d)
    ensures c.connected && c.slotIndex in ClientTable(d) && ClientTable(d)[c.slotIndex] == ClientView(c)
  {
    hide ClientView, PadTo32;
    ActiveIsTable(d.slots, c);
    var i :| 0 <= i < MAX_CHILD_SLOTS && d.slots[i].Some? && d.slots[i].value.childInfo == c;
    assert EntryFits(d.secondaryPort, i, d.slots[i].value);
  }

  /**
   The pushes triggered by the first idle poll are sent by tasks of their own;
   in whatever order they arrive, they complete any part of the table a client
   already holds.
   */
  lemma {:induction false} InitialPushesInAnyOrder(d: Dock, part: ReplicaTable, order: seq<ChildDeviceInfo>)
    requires TableFits(d) && PartOf(part, ClientTable(d))
    requires forall c :: c in order <==> c in AllActiveChildren(d)
    ensures ReplayAll(part, PushesOf(order)) == ClientTable(d)
  {
    hide Replay, ReplayAll, PushOf, ClientView, TableFits;
    PushesFillIn(d, part, order);
    forall i | i in ClientTable(d) ensures i in ReplayAll(part, PushesOf(order)) {
      var c := d.slots[i].value.childInfo;
      ActiveIsTable(d.slots, c);
      assert c in order;
      SlotIndexIsIndex(d, i);
    }
  }

  lemma PartStaysPart(part: ReplicaTable, whole: ReplicaTable, events: seq<ChildDeviceInfo>)
    requires PartOf(part, whole)
    ensures PartOf(ReplayAll(part, PushesOf(events)), ReplayAll(whole, PushesOf(events)))
  {
    hide ReplayAll, PushesOf, LastFor, Shown;
    forall i: uint8
      ensures i in ReplayAll(part, PushesOf(events)) ==>
        SlotOf(ReplayAll(part, PushesOf(events)), i) == SlotOf(ReplayAll(whole, PushesOf(events)), i)
    {
      LastDecides(part, events, i);
      LastDecides(whole, events, i);
    }
  }

  /** Live events keep a partial replica a part of the table. */
  lemma {:induction false} EventsKeepPart(d: Dock, part: ReplicaTable, ops: seq<DockOp>)
    requires TableFits(d) && PartOf(part, ClientTable(d))
    ensures var d' := ApplyAll(d, ops);
            && d.events <= d'.events
            && PartOf(ReplayAll(part, PushesOf(d'.events[|d.events|..])), ClientTable(d'))
  {
    hide ReplayAll, PushesOf, ApplyAll, ClientTable, TableFits, PartOf;
    EventsReplayTheTable(d, ops);
    PartStaysPart(part, ClientTable(d), ApplyAll(d, ops).events[|d.events|..]);
  }
}
