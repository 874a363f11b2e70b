/** From the USB bus to the client: what a network client believes is what the watcher is serving. */
module EndToEnd {
  import opened Bytes
  import opened Wrappers
  import opened Cora
  import opened Stream
  import opened Reports
  import opened Dock
  import opened Watcher
  import opened Agreement
  import opened Replica
  import opened Subscription

  /** Each step of the watcher is at most one operation on the dock. */
  lemma StepIsDockOp(s: WatcherState, step: Step) returns (ops: seq<DockOp>)
    ensures Next(s, step).dock == ApplyAll(s.dock, ops)
  {
    hide Attach, Detach, TargetSlot, PortOf;
    ops := [];
    match step
    case DrainSignal =>
      if s.phase.Draining? && s.queue != [] && s.queue[0].serial in s.active {
        ops := [DetachOp(s.queue[0].serial)];
        OneOp(s.dock, ops[0]);
      }
    case AttachNext =>
      if s.phase.Attaching? && s.phase.done < |s.phase.listed| {
        var dev := s.phase.listed[s.phase.done];
        if Attaches(s, dev) {
          ops := [AttachOp(ClaimedDevice(dev, s.overridePid))];
          OneOp(s.dock, ops[0]);
        }
      }
    case RemoveOne(serial) =>
      if s.phase.Removing? && serial in s.phase.pending && serial in s.active {
        ops := [DetachOp(serial)];
        OneOp(s.dock, ops[0]);
      }
    case _ =>
  }

  /** So the history of a watcher is a history of the dock. */
  lemma {:induction false} RunIsDockHistory(s: WatcherState, steps: seq<Step>) returns (ops: seq<DockOp>)
    ensures Exec(s, steps).dock == ApplyAll(s.dock, ops)
    decreases |steps|
  {
    hide Next, Apply;
    if steps == [] {
      ops := [];
    } else {
      var first := StepIsDockOp(s, steps[0]);
      var rest := RunIsDockHistory(Next(s, steps[0]), steps[1..]);
      ops := first + rest;
      ApplyAppend(s.dock, first, rest);
    }
  }

  /**
   For every run of the watcher that never has more active devices than slots,
   with disconnect signals raised at any moment: a client that subscribes after `steps0` and polls after
   `steps1` ends up, after `steps2`, with exactly the slots of the active
   bridges, each with the port its bridge was given, provided no initial push
   was overtaken to stale effect.
   */
  lemma {:induction false} ClientSeesTheActiveBridges(secondaryPort: uint16, overridePid: Option<uint16>,
                                                      steps0: seq<Step>, steps1: seq<Step>, steps2: seq<Step>,
                                                      arrivals: seq<Arrival>, sent: seq<CoraFrame>,
                                                      chunks: seq<seq<uint8>>)
    requires NeverOverfull(secondaryPort, overridePid, steps0 + steps1 + steps2)
    requires var s0 := Exec(Init(secondaryPort, overridePid), steps0);
             var s1 := Exec(s0, steps1);
             var s2 := Exec(s1, steps2);
             && |s0.dock.events| <= |s2.dock.events|
             && Lives(arrivals) == s2.dock.events[|s0.dock.events|..]
             && forall c :: Initial(c) in arrivals <==> c in AllActiveChildren(s1.dock)
    requires forall slot: uint8 :: !IsStale(arrivals, slot)
    requires AllWellFormed(sent) && OnlyPushes(sent) == PushesOf(ChildrenOf(arrivals))
    requires Flatten(chunks) == EncodeAll(sent)
    ensures var s := Exec(Init(secondaryPort, overridePid), steps0 + steps1 + steps2);
            var replica := ReplayAll(map[], Run([], chunks).frames);
            && (forall i: uint8 :: i in replica <==> exists serial :: serial in s.active && s.active[serial].slot == i)
            && (forall serial :: serial in s.active ==>
                  replica[s.active[serial].slot].tcpPort == s.active[serial].port)
  {
    hide Exec, ApplyAll, Run, EncodeAll, ReplayAll, NeverOverfull, TableFits, Bound, ClientTable, Agrees,
         IsStale, Lives, ChildrenOf, SignalsAreFresh, ScanAccounted;
    var start := Init(secondaryPort, overridePid);
    var s0 := Exec(start, steps0);
    var s1 := Exec(s0, steps1);
    ExecAppend(start, steps0 + steps1, steps2);
    ExecAppend(start, steps0, steps1);
    var s := Exec(s1, steps2);
    InitIsSafe(secondaryPort, overridePid);
    EveryRunIsSafe(start, steps0);
    EveryRunIsSafe(start, steps0 + steps1 + steps2);
    var ops1 := RunIsDockHistory(s0, steps1);
    var ops2 := RunIsDockHistory(s1, steps2);
    PolledReplicaIsExact(s0.dock, ops1, ops2, arrivals, sent, chunks);
    AgreesAtTheEnd(secondaryPort, overridePid, steps0 + steps1 + steps2);
    TableListsBridges(s);
  }

  lemma AgreesAtTheEnd(secondaryPort: uint16, overridePid: Option<uint16>, steps: seq<Step>)
    requires NeverOverfull(secondaryPort, overridePid, steps)
    ensures Agrees(Exec(Init(secondaryPort, overridePid), steps))
  {
    hide Exec, Agrees;
    AgreementThroughoutIsExact(secondaryPort, overridePid, steps);
    assert Agrees(After(secondaryPort, overridePid, steps, |steps|));
    assert steps[..|steps|] == steps;
  }

  lemma TableListsBridges(s: WatcherState)
    requires Agrees(s) && TableFits(s.dock)
    ensures var t := ClientTable(s.dock);
            && (forall i: uint8 :: i in t <==> exists serial :: serial in s.active && s.active[serial].slot == i)
            && (forall serial :: serial in s.active ==>
                  && s.active[serial].slot in t
                  && t[s.active[serial].slot].tcpPort == s.active[serial].port)
  {
    hide Visible, PadTo32, FirstBytes, PortOf;
    var slots := s.dock.slots;
    forall serial | serial in s.active
      ensures var i := s.active[serial].slot;
        && HoldsAt(slots, i, serial)
        && slots[i].value.childInfo.tcpPort == s.active[serial].port
    {
      var i: nat :| HoldsAt(slots, i, serial);
      assert EntryFits(s.dock.secondaryPort, i, slots[i].value);
    }
    forall i: nat | i < MAX_CHILD_SLOTS && slots[i].Some?
      ensures exists serial :: serial in s.active && s.active[serial].slot == i
    {
      var serial := slots[i].value.serial;
      assert HoldsAt(slots, i, serial);
      assert serial in s.active && s.active[serial].slot == i;
    }
  }
}
