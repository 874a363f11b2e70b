/** The watcher's loop over its own fields, one turn at a time, against the state machine. */
module UsbWatcher {
  import opened Bytes
  import opened Wrappers
  import opened Dock
  import opened Watcher

  function Repeat(step: Step, n: nat): (r: seq<Step>)
    ensures |r| == n
  {
    seq(n, _ => step)
  }

  lemma RepeatOneMore(step: Step, n: nat)
    ensures Repeat(step, n + 1) == Repeat(step, n) + [step]
  {
  }

  /** The bridges whose tasks have not reported an error. */
  function Unsignalled(active: map<Serial, Bridge>): set<Serial> {
    set serial | serial in active && !active[serial].signalled
  }

  lemma DropSignalsNone(s: WatcherState, serial: Serial)
    ensures Unsignalled(Drop(s, serial).active) <= Unsignalled(s.active) && Drop(s, serial).queue == s.queue
  {
    hide Detach;
  }

  predicate OnlyRemovals(steps: seq<Step>) {
    forall step :: step in steps ==> step.RemoveOne?
  }

  /** The steps of a whole scan, with the removals in some order. */
  function ScanSteps(listed: seq<ListedDevice>, removals: seq<Step>): seq<Step> {
    [StartScan(listed)] + Repeat(AttachNext, |listed|) + [FinishAttaching] + removals + [FinishScan]
  }

  function Raises(serials: seq<Serial>): (r: seq<Step>)
    ensures |r| == |serials|
  {
    seq(|serials|, i requires 0 <= i < |serials| => Raise(serials[i]))
  }

  /** The given steps, with signals raised behind each of them. */
  function Weave(steps: seq<Step>, raised: nat -> seq<Serial>): seq<Step> {
    if steps == [] then []
    else
      var n := |steps| - 1;
      Weave(steps[..n], raised) + [steps[n]] + Raises(raised(n))
  }

  lemma ExecWoven(s: WatcherState, steps: seq<Step>, step: Step, raised: nat -> seq<Serial>)
    ensures Exec(s, Weave(steps + [step], raised))
         == Exec(Next(Exec(s, Weave(steps, raised)), step), Raises(raised(|steps|)))
  {
    hide Exec, Next, Raises;
    assert (steps + [step])[..|steps|] == steps;
    ExecOneMore(s, Weave(steps, raised), step);
    ExecAppend(s, Weave(steps, raised) + [step], Raises(raised(|steps|)));
  }

  function TurnSteps(n: nat, scan: Option<seq<ListedDevice>>, removals: seq<Step>,
                     draining: nat -> seq<Serial>, scanning: nat -> seq<Serial>, idle: seq<Serial>): seq<Step> {
    Weave(Repeat(DrainSignal, n), draining)
    + (if scan.Some? then Weave(ScanSteps(scan.value, removals), scanning) else [])
    + Raises(idle)
  }

  /** The signals raised by bridge tasks: behind each step of each turn's draining and scanning, and between turns. */
  datatype Tasks = Tasks(draining: (nat, nat) -> seq<Serial>, scanning: (nat, nat) -> seq<Serial>,
                         idle: nat -> seq<Serial>)

  function OfTurn(signals: (nat, nat) -> seq<Serial>, i: nat): nat -> seq<Serial> {
    k => signals(i, k)
  }

  /** What a turn leaves open: how many signals it drained, and the order of its removals. */
  datatype TurnTaken = TurnTaken(drained: nat, removals: seq<Step>)

  function StepsOf(scan: Option<seq<ListedDevice>>, turn: TurnTaken, tasks: Tasks, i: nat): seq<Step> {
    TurnSteps(turn.drained, scan, turn.removals, OfTurn(tasks.draining, i), OfTurn(tasks.scanning, i), tasks.idle(i))
  }

  function RunSteps(scans: seq<Option<seq<ListedDevice>>>, turns: seq<TurnTaken>, tasks: Tasks): seq<Step>
    requires |scans| == |turns|
  {
    if scans == [] then []
    else
      var i := |scans| - 1;
      RunSteps(scans[..i], turns[..i], tasks) + StepsOf(scans[i], turns[i], tasks, i)
  }

  /** The server's watcher from its start on: what is shown of runs of the machine holds of it. */
  method RunFromStart(secondaryPort: uint16, overridePid: Option<uint16>, scans: seq<Option<seq<ListedDevice>>>,
                      tasks: Tasks)
    returns (watcher: UsbWatcher, ghost turns: seq<TurnTaken>)
    ensures fresh(watcher) && watcher.Valid() && |turns| == |scans|
    ensures watcher.StateIn(Draining) == Exec(Init(secondaryPort, overridePid), RunSteps(scans, turns, tasks))
    ensures Consistent(watcher.StateIn(Draining))
  {
    hide Exec, RunSteps, Consistent, SignalsAreFresh, ScanAccounted;
    var state := new DockState(secondaryPort);
    watcher := new UsbWatcher(state, overridePid);
    assert watcher.StateIn(Draining) == Init(secondaryPort, overridePid);
    turns := watcher.Run(scans, tasks);
    InitIsSafe(secondaryPort, overridePid);
    EveryRunIsSafe(Init(secondaryPort, overridePid), RunSteps(scans, turns, tasks));
  }

  class UsbWatcher {
    const state: DockState
    const overridePid: Option<uint16>
    var activeBridges: map<Serial, Bridge>
    var disconnects: seq<Signal>
    var instances: nat

    ghost predicate Valid()
      reads this, state
    {
      state.Valid()
    }

    /** Between turns the watcher is draining; inside a turn the phase says how far it is. */
    ghost function StateIn(phase: Phase): WatcherState
      requires Valid()
      reads this, state, state.slots
    {
      WatcherState(state.State(), activeBridges, disconnects, instances, overridePid, phase)
    }

    constructor (state: DockState, overridePid: Option<uint16>)
      requires state.Valid()
      ensures Valid() && this.state == state && this.overridePid == overridePid
      ensures activeBridges == map[] && disconnects == [] && instances == 0
    {
      this.state := state;
      this.overridePid := overridePid;
      activeBridges := map[];
      disconnects := [];
      instances := 0;
    }

    /** A disconnect signal, or a device missing from the bus, ends a bridge. */
    method DropBridge(serial: Serial)
      requires Valid()
      modifies this`activeBridges, state, state.slots
      ensures Valid()
      ensures forall phase :: StateIn(phase) == Drop(old(StateIn(phase)), serial)
    {
      hide Detach;
      if serial in activeBridges {
        activeBridges := activeBridges - {serial};
        var _ := state.DetachDeviceBySerial(serial);
      }
    }

    /**
     Drains signals until none is waiting.  Behind the k-th of these steps
     bridge tasks may raise more; each does so once, and so there is an end.
     */
    method ProcessSignals(raised: nat -> seq<Serial>) returns (ghost n: nat)
      requires Valid()
      modifies this`activeBridges, this`disconnects, state, state.slots
      ensures Valid() && disconnects == [] && |old(disconnects)| <= n
      ensures StateIn(Draining) == Exec(old(StateIn(Draining)), Weave(Repeat(DrainSignal, n), raised))
    {
      hide Detach, Drop, Next, Exec, Raises, Weave;
      ghost var start := StateIn(Draining);
      var k := 0;
      NothingWoven(start, raised);
      assert Repeat(DrainSignal, 0) == [];
      while disconnects != []
        invariant Valid() && |old(disconnects)| <= k + |disconnects|
        invariant StateIn(Draining) == Exec(start, Weave(Repeat(DrainSignal, k), raised))
        decreases Unsignalled(activeBridges), |disconnects|
      {
        ghost var before := StateIn(Draining);
        var serial := disconnects[0].serial;
        disconnects := disconnects[1..];
        DropBridge(serial);
        DrainIsDrop(before);
        DropSignalsNone(before.(queue := before.queue[1..]), serial);
        RepeatOneMore(DrainSignal, k);
        ExecWoven(start, Repeat(DrainSignal, k), DrainSignal, raised);
        RaiseSignals(raised(k), Draining);
        k := k + 1;
      }
      n := k;
    }

    /** Attaches one listed device, if it is a Stream Deck, is new, and opens. */
    method ConsiderDevice(dev: ListedDevice)
      requires Valid()
      modifies this`activeBridges, this`instances, state, state.slots
      ensures Valid()
      ensures forall phase :: StateIn(phase) == AttachListed(old(StateIn(phase)), dev)
    {
      hide Attach, TargetSlot, PortOf;
      if IsStreamDeck(dev) {
        var serial := SerialOf(dev);
        if serial !in activeBridges {
          if dev.opens {
            var slotIndex, port := state.AttachDevice(ClaimedDevice(dev, overridePid));
            activeBridges := activeBridges[serial := Bridge(slotIndex, port, instances, false)];
            instances := instances + 1;
          }
        }
      }
    }

    /** The tasks of some bridges report transfer errors. */
    method RaiseSignals(serials: seq<Serial>, ghost phase: Phase)
      requires Valid()
      modifies this`activeBridges, this`disconnects
      ensures Valid()
      ensures StateIn(phase) == Exec(old(StateIn(phase)), Raises(serials))
      ensures activeBridges.Keys == old(activeBridges.Keys)
      ensures |old(disconnects)| <= |disconnects|
      ensures Unsignalled(activeBridges) <= old(Unsignalled(activeBridges))
      ensures Unsignalled(activeBridges) == old(Unsignalled(activeBridges)) ==> disconnects == old(disconnects)
    {
      ghost var start := StateIn(phase);
      hide Exec, Next;
      NothingExecuted(start);
      assert Raises(serials[..0]) == [];
      for i := 0 to |serials|
        invariant Valid() && activeBridges.Keys == old(activeBridges.Keys)
        invariant StateIn(phase) == Exec(start, Raises(serials[..i]))
        invariant |old(disconnects)| <= |disconnects|
        invariant Unsignalled(activeBridges) <= old(Unsignalled(activeBridges))
        invariant Unsignalled(activeBridges) == old(Unsignalled(activeBridges)) ==> disconnects == old(disconnects)
      {
        ghost var before := StateIn(phase);
        var serial := serials[i];
        if serial in activeBridges && !activeBridges[serial].signalled {
          var bridge := activeBridges[serial];
          activeBridges := activeBridges[serial := bridge.(signalled := true)];
          disconnects := disconnects + [Signal(serial, bridge.instance)];
          assert serial !in Unsignalled(activeBridges);
        }
        RaiseIsRaise(before, serial);
        ExecOneMore(start, Raises(serials[..i]), Raise(serial));
        assert Raises(serials[..i + 1]) == Raises(serials[..i]) + [Raise(serial)];
      }
      assert serials[..|serials|] == serials;
    }

    /**
     A successful scan: attach what is new, in the order listed, then remove
     what is gone, in any order.  Behind the k-th of these steps bridge tasks
     raise `raised(k)`.
     */
    method Scan(devices: seq<ListedDevice>, raised: nat -> seq<Serial>) returns (ghost removals: seq<Step>)
      requires Valid() && disconnects == []
      modifies this, state, state.slots
      ensures Valid()
      ensures OnlyRemovals(removals)
      ensures StateIn(Draining) == Exec(old(StateIn(Draining)), Weave(ScanSteps(devices, removals), raised))
    {
      hide Next, Exec, Raises, Weave, Seen;
      ghost var start := StateIn(Draining);
      ghost var snapshot := Snapshot(start.dock, start.active);
      var seenSerials := AttachNew(devices, raised);
      ghost var phase := Attaching(devices, |devices|, snapshot);
      ghost var steps := [StartScan(devices)] + Repeat(AttachNext, |devices|);
      var removedSerials := activeBridges.Keys - seenSerials;
      AttachingEnds(StateIn(phase));
      ExecWoven(start, steps, FinishAttaching, raised);
      steps := steps + [FinishAttaching];
      phase := Removing(devices, snapshot, removedSerials);
      RaiseSignals(raised(|devices| + 1), phase);
      removals := RemoveAbsent(removedSerials, |devices| + 2, raised, start, steps, phase);
      assert steps + removals + [FinishScan] == ScanSteps(devices, removals);
    }

    /** One turn of the loop; a failed scan changes nothing, and signals may be raised while the watcher sleeps. */
    method Turn(scan: Option<seq<ListedDevice>>, draining: nat -> seq<Serial>, scanning: nat -> seq<Serial>,
                idle: seq<Serial>)
      returns (ghost n: nat, ghost removals: seq<Step>)
      requires Valid()
      modifies this, state, state.slots
      ensures Valid() && OnlyRemovals(removals)
      ensures StateIn(Draining) == Exec(old(StateIn(Draining)), TurnSteps(n, scan, removals, draining, scanning, idle))
    {
      hide Exec, Weave, ScanSteps, Raises;
      ghost var start := StateIn(Draining);
      n := ProcessSignals(draining);
      ghost var drained := Weave(Repeat(DrainSignal, n), draining);
      removals := [];
      if scan.Some? {
        removals := Scan(scan.value, scanning);
        ExecAppend(start, drained, Weave(ScanSteps(scan.value, removals), scanning));
      } else {
        assert drained + [] == drained;
      }
      ghost var scanned := drained + if scan.Some? then Weave(ScanSteps(scan.value, removals), scanning) else [];
      RaiseSignals(idle, Draining);
      ExecAppend(start, scanned, Raises(idle));
    }

    /** The loop, for as many turns as there are scans. */
    method Run(scans: seq<Option<seq<ListedDevice>>>, tasks: Tasks) returns (ghost turns: seq<TurnTaken>)
      requires Valid()
      modifies this, state, state.slots
      ensures Valid() && |turns| == |scans| && forall turn :: turn in turns ==> OnlyRemovals(turn.removals)
      ensures StateIn(Draining) == Exec(old(StateIn(Draining)), RunSteps(scans, turns, tasks))
    {
      hide Exec, TurnSteps;
      ghost var start := StateIn(Draining);
      turns := [];
      NothingExecuted(start);
      for i := 0 to |scans|
        invariant Valid() && |turns| == i && forall turn :: turn in turns ==> OnlyRemovals(turn.removals)
        invariant StateIn(Draining) == Exec(start, RunSteps(scans[..i], turns, tasks))
      {
        ghost var n, removals := Turn(scans[i], OfTurn(tasks.draining, i), OfTurn(tasks.scanning, i), tasks.idle(i));
        ghost var turn := TurnTaken(n, removals);
        ExecAppend(start, RunSteps(scans[..i], turns, tasks), StepsOf(scans[i], turn, tasks, i));
        assert scans[..i + 1][..i] == scans[..i] && (turns + [turn])[..i] == turns;
        turns := turns + [turn];
      }
      assert scans[..|scans|] == scans;
    }

    /** The first half of a scan; it notes the serials seen. */
    method AttachNew(devices: seq<ListedDevice>, raised: nat -> seq<Serial>) returns (seenSerials: set<Serial>)
      requires Valid() && disconnects == []
      modifies this, state, state.slots
      ensures Valid() && seenSerials == Seen(devices)
      ensures StateIn(Attaching(devices, |devices|, Snapshot(old(state.State()), old(activeBridges))))
           == Exec(old(StateIn(Draining)), Weave([StartScan(devices)] + Repeat(AttachNext, |devices|), raised))
    {
      hide Attach, Detach, AttachListed, Next, Exec, Seen, Raises, Weave;
      ghost var start := StateIn(Draining);
      ghost var snapshot := Snapshot(start.dock, start.active);
      ghost var phase := Attaching(devices, 0, snapshot);
      ghost var steps := [StartScan(devices)];
      NothingWoven(start, raised);
      ExecWoven(start, [], StartScan(devices), raised);
      assert [] + [StartScan(devices)] == steps;
      ScanStarts(start, devices);
      RaiseSignals(raised(0), phase);
      seenSerials := {};
      SeenOfNothing(devices);
      for k := 0 to |devices|
        invariant Valid()
        invariant phase == Attaching(devices, k, snapshot)
        invariant seenSerials == Seen(devices[..k])
        invariant steps == [StartScan(devices)] + Repeat(AttachNext, k)
        invariant StateIn(phase) == Exec(start, Weave(steps, raised))
      {
        ghost var before := StateIn(phase);
        var dev := devices[k];
        if IsStreamDeck(dev) {
          seenSerials := seenSerials + {SerialOf(dev)};
        }
        ConsiderDevice(dev);
        AttachNextIsAttach(before);
        SeenGrows(devices, k);
        ExecWoven(start, steps, AttachNext, raised);
        RepeatOneMore(AttachNext, k);
        Assoc([StartScan(devices)], Repeat(AttachNext, k), [AttachNext]);
        steps := steps + [AttachNext];
        phase := Attaching(devices, k + 1, snapshot);
        RaiseSignals(raised(k + 1), phase);
      }
      assert devices[..|devices|] == devices;
    }

    /** The second half, after the given steps. */
    method RemoveAbsent(absent: set<Serial>, turn: nat, raised: nat -> seq<Serial>,
                        ghost start: WatcherState, ghost attached: seq<Step>, ghost phase0: Phase)
      returns (ghost removals: seq<Step>)
      requires Valid() && |attached| == turn
      requires phase0.Removing? && phase0.pending == absent
      requires StateIn(phase0) == Exec(start, Weave(attached, raised))
      modifies this, state, state.slots
      ensures Valid() && OnlyRemovals(removals)
      ensures StateIn(Draining) == Exec(start, Weave(attached + removals + [FinishScan], raised))
    {
      hide Drop, Next, Exec, Raises, Weave;
      var removedSerials := absent;
      ghost var phase := phase0;
      ghost var steps := attached;
      var k := turn;
      removals := [];
      while removedSerials != {}
        invariant Valid() && OnlyRemovals(removals) && |steps| == k
        invariant phase == phase0.(pending := removedSerials)
        invariant steps == attached + removals
        invariant StateIn(phase) == Exec(start, Weave(steps, raised))
        decreases removedSerials
      {
        ghost var before := StateIn(phase);
        var serial :| serial in removedSerials;
        removedSerials := removedSerials - {serial};
        DropBridge(serial);
        RemoveOneIsDrop(before, serial);
        ExecWoven(start, steps, RemoveOne(serial), raised);
        Assoc(attached, removals, [RemoveOne(serial)]);
        removals := removals + [RemoveOne(serial)];
        steps := steps + [RemoveOne(serial)];
        phase := phase0.(pending := removedSerials);
        RaiseSignals(raised(k), phase);
        k := k + 1;
      }
      ScanEnds(StateIn(phase));
      ExecWoven(start, steps, FinishScan, raised);
      RaiseSignals(raised(k), Draining);
    }
  }

  // ----- Single steps, spelled out -----

  lemma NothingExecuted(s: WatcherState)
    ensures Exec(s, []) == s && Repeat(DrainSignal, 0) == []
  {
  }

  lemma NothingWoven(s: WatcherState, raised: nat -> seq<Serial>)
    ensures Exec(s, Weave([], raised)) == s
  {
  }

  lemma RaiseIsRaise(s: WatcherState, serial: Serial)
    ensures Next(s, Raise(serial)) == RaiseSignal(s, serial)
  {
  }

  lemma DrainIsDrop(s: WatcherState)
    requires s.phase.Draining? && s.queue != []
    ensures Next(s, DrainSignal) == Drop(s.(queue := s.queue[1..]), s.queue[0].serial)
  {
  }

  lemma ScanStarts(s: WatcherState, listed: seq<ListedDevice>)
    requires s.phase.Draining? && s.queue == []
    ensures Next(s, StartScan(listed)) == s.(phase := Attaching(listed, 0, Snapshot(s.dock, s.active)))
  {
  }

  lemma AttachNextIsAttach(s: WatcherState)
    requires s.phase.Attaching? && s.phase.done < |s.phase.listed|
    ensures var p := s.phase;
            Next(s, AttachNext) == AttachListed(s, p.listed[p.done]).(phase := p.(done := p.done + 1))
  {
    hide AttachListed;
  }

  lemma AttachingEnds(s: WatcherState)
    requires s.phase.Attaching? && s.phase.done == |s.phase.listed|
    ensures var p := s.phase;
            Next(s, FinishAttaching) == s.(phase := Removing(p.listed, p.start, s.active.Keys - Seen(p.listed)))
  {
    hide Seen;
  }

  lemma RemoveOneIsDrop(s: WatcherState, serial: Serial)
    requires s.phase.Removing? && serial in s.phase.pending
    ensures var p := s.phase;
            Next(s, RemoveOne(serial)) == Drop(s, serial).(phase := p.(pending := p.pending - {serial}))
  {
    hide Drop;
  }

  lemma ScanEnds(s: WatcherState)
    requires s.phase.Removing? && s.phase.pending == {}
    ensures Next(s, FinishScan) == s.(phase := Draining)
  {
  }

  lemma SeenOfNothing(listed: seq<ListedDevice>)
    ensures Seen(listed[..0]) == {} && Repeat(AttachNext, 0) == []
  {
  }

  lemma SeenGrows(listed: seq<ListedDevice>, k: nat)
    requires k < |listed|
    ensures Seen(listed[..k + 1])
         == Seen(listed[..k]) + if IsStreamDeck(listed[k]) then {SerialOf(listed[k])} else {}
  {
    hide SerialOf, IsStreamDeck;
    assert listed[..k + 1] == listed[..k] + [listed[k]];
    forall dev ensures dev in listed[..k + 1] <==> dev in listed[..k] || dev == listed[k] {
    }
  }
}
