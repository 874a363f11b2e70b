/** Reported transfer errors: from the bridge's task, through the queue, to the end of the bridge. */
module Signals {
  import opened Bytes
  import opened Wrappers
  import opened Dock
  import opened Watcher
  import opened UsbWatcher

  /** The error of every bridge that has reported one is waiting in the queue, for that very attachment. */
  predicate Delivered(s: WatcherState) {
    forall serial :: serial in s.active && s.active[serial].signalled ==>
      Signal(serial, s.active[serial].instance) in s.queue
  }

  predicate NoRepeats(queue: seq<Signal>) {
    forall i, j :: 0 <= i < j < |queue| ==> queue[i] != queue[j]
  }

  lemma NextKeepsDelivered(s: WatcherState, step: Step)
    requires Delivered(s)
    ensures Delivered(Next(s, step))
  {
    hide Attach, Detach, TargetSlot, PortOf, ClaimedDevice, SerialOf, Seen, IsStreamDeck;
    match step
    case DrainSignal =>
      if s.phase.Draining? && s.queue != [] {
        forall serial | serial in s.active && s.active[serial].signalled && serial != s.queue[0].serial
          ensures Signal(serial, s.active[serial].instance) in s.queue[1..]
        {
          assert s.queue == [s.queue[0]] + s.queue[1..];
        }
      }
    case _ =>
  }

  lemma NextKeepsNoRepeats(s: WatcherState, step: Step)
    requires SignalsAreFresh(s) && NoRepeats(s.queue)
    ensures NoRepeats(Next(s, step).queue)
  {
    hide Attach, Detach, TargetSlot, PortOf, ClaimedDevice, SerialOf, Seen, IsStreamDeck;
    match step
    case Raise(serial) =>
      if serial in s.active && !s.active[serial].signalled {
        assert Signal(serial, s.active[serial].instance) !in s.queue;
      }
    case _ =>
  }

  lemma {:induction false} RunDelivers(s: WatcherState, steps: seq<Step>)
    requires Consistent(s) && SignalsAreFresh(s) && ScanAccounted(s) && Delivered(s) && NoRepeats(s.queue)
    ensures var e := Exec(s, steps);
            Consistent(e) && SignalsAreFresh(e) && Delivered(e) && NoRepeats(e.queue)
    decreases |steps|
  {
    hide Consistent, SignalsAreFresh, ScanAccounted, Delivered, NoRepeats, Next;
    if steps != [] {
      NextKeepsConsistent(s, steps[0]);
      NextKeepsSignalsFresh(s, steps[0]);
      NextKeepsScanAccounted(s, steps[0]);
      NextKeepsDelivered(s, steps[0]);
      NextKeepsNoRepeats(s, steps[0]);
      RunDelivers(Next(s, steps[0]), steps[1..]);
    }
  }

  /** In every state of every run, errors reported are errors waiting, each once. */
  lemma {:induction false} SignalsAreDelivered(secondaryPort: uint16, overridePid: Option<uint16>, steps: seq<Step>)
    ensures var s := Exec(Init(secondaryPort, overridePid), steps);
      Consistent(s) && SignalsAreFresh(s) && Delivered(s) && NoRepeats(s.queue)
  {
    hide Exec, Consistent, SignalsAreFresh, ScanAccounted;
    InitIsSafe(secondaryPort, overridePid);
    RunDelivers(Init(secondaryPort, overridePid), steps);
  }

  /** A raise marks the bridge it comes from, once and for all, and touches nothing else. */
  lemma {:induction false} RaiseMarks(s: WatcherState, serial: Serial)
    ensures var s' := Next(s, Raise(serial));
      && s'.active.Keys == s.active.Keys && s'.dock == s.dock && s'.phase == s.phase
      && (serial in s.active ==> s'.active[serial] == s.active[serial].(signalled := true))
      && (forall x :: x in s.active && x != serial ==> s'.active[x] == s.active[x])
      && Next(s', Raise(serial)) == s'
  {
  }

  /** Draining ends the bridges that have reported an error, and no others. */
  lemma {:induction false} DrainingEndsTheSignalled(s: WatcherState)
    requires s.phase.Draining? && SignalsAreFresh(s) && Delivered(s)
    ensures var e := Exec(s, Repeat(DrainSignal, |s.queue|));
      && e.queue == [] && e.phase.Draining?
      && (forall x :: x in e.active <==> x in s.active && !s.active[x].signalled)
      && (forall x :: x in e.active ==> e.active[x] == s.active[x])
    decreases |s.queue|
  {
    hide Detach;
    if s.queue == [] {
      NothingExecuted(s);
    } else {
      var s1 := Next(s, DrainSignal);
      NextKeepsSignalsFresh(s, DrainSignal);
      NextKeepsDelivered(s, DrainSignal);
      assert s.queue[0] in s.queue;
      DrainingEndsTheSignalled(s1);
      assert Repeat(DrainSignal, |s.queue|)[1..] == Repeat(DrainSignal, |s1.queue|);
    }
  }

  /**
   In any run: when the task of a bridge reports a transfer error, draining the
   queue ends that bridge and frees its slot.
   */
  lemma {:induction false} ReportedErrorEndsTheBridge(secondaryPort: uint16, overridePid: Option<uint16>,
                                                      steps: seq<Step>, serial: Serial)
    ensures var s := Exec(Init(secondaryPort, overridePid), steps);
            var raised := Next(s, Raise(serial));
            var e := Exec(raised, Repeat(DrainSignal, |raised.queue|));
      s.phase.Draining? ==>
        && e.queue == []
        && serial !in e.active
        && (forall i :: !HoldsAt(e.dock.slots, i, serial))
        && (forall x :: x in s.active && x != serial && !s.active[x].signalled ==>
              x in e.active && e.active[x] == s.active[x])
  {
    hide Exec, Next, Consistent, SignalsAreFresh, ScanAccounted, Delivered, NoRepeats;
    var s := Exec(Init(secondaryPort, overridePid), steps);
    var raised := Next(s, Raise(serial));
    RaiseMarks(s, serial);
    ExecOneMore(Init(secondaryPort, overridePid), steps, Raise(serial));
    SignalsAreDelivered(secondaryPort, overridePid, steps + [Raise(serial)]);
    if s.phase.Draining? {
      DrainingEndsTheSignalled(raised);
      ExecAppend(Init(secondaryPort, overridePid), steps + [Raise(serial)], Repeat(DrainSignal, |raised.queue|));
      SignalsAreDelivered(secondaryPort, overridePid, steps + [Raise(serial)] + Repeat(DrainSignal, |raised.queue|));
      HoldersAreActive(Exec(raised, Repeat(DrainSignal, |raised.queue|)), serial);
    }
  }

  lemma HoldersAreActive(s: WatcherState, serial: Serial)
    requires Consistent(s) && serial !in s.active
    ensures forall i :: !HoldsAt(s.dock.slots, i, serial)
  {
    hide TableFits, Bound;
  }

  /** A scan begins with no reported error outstanding. */
  lemma {:induction false} ScansBeginClean(secondaryPort: uint16, overridePid: Option<uint16>, steps: seq<Step>,
                                           listed: seq<ListedDevice>)
    ensures var s := Exec(Init(secondaryPort, overridePid), steps);
      Next(s, StartScan(listed)) != s ==> forall serial :: serial in s.active ==> !s.active[serial].signalled
  {
    hide Exec, Consistent, SignalsAreFresh, ScanAccounted;
    SignalsAreDelivered(secondaryPort, overridePid, steps);
  }
}
