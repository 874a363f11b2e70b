/** The ports of the active bridges: as many listeners can be bound as there are distinct ones. */
module Ports {
  import opened Bytes
  import opened Wrappers
  import opened Dock
  import opened Watcher
  import opened Agreement

  /** Every active bridge was given a slot of the table and that slot's port. */
  predicate BridgesFit(s: WatcherState) {
    forall serial :: serial in s.active ==>
      && s.active[serial].slot < MAX_CHILD_SLOTS
      && s.active[serial].port == PortOf(s.dock.secondaryPort, s.active[serial].slot)
  }

  lemma NextKeepsBridgesFit(s: WatcherState, step: Step)
    requires BridgesFit(s)
    ensures BridgesFit(Next(s, step))
  {
    hide PortOf, TargetSlot, FindSerial, EntryFor, ClaimedDevice, SerialOf, Seen, IsStreamDeck;
  }

  lemma {:induction false} EveryRunFits(s: WatcherState, steps: seq<Step>)
    requires BridgesFit(s)
    ensures BridgesFit(Exec(s, steps))
    decreases |steps|
  {
    hide BridgesFit, Next;
    if steps != [] {
      NextKeepsBridgesFit(s, steps[0]);
      EveryRunFits(Next(s, steps[0]), steps[1..]);
    }
  }

  predicate PortsDistinct(s: WatcherState) {
    forall x, y :: x in s.active && y in s.active && x != y ==> s.active[x].port != s.active[y].port
  }

  lemma AgreementSeparatesPorts(s: WatcherState)
    requires Agrees(s) && s.dock.secondaryPort <= 65528
    ensures PortsDistinct(s)
  {
    forall x, y | x in s.active && y in s.active && x != y ensures s.active[x].port != s.active[y].port {
      var i: nat :| HoldsAt(s.dock.slots, i, x);
      var j: nat :| HoldsAt(s.dock.slots, j, y);
      assert i != j;
    }
  }

  lemma {:induction false} DistinctSlotsAreFew(active: map<Serial, Bridge>, n: nat)
    requires forall x :: x in active ==> active[x].slot < n
    requires forall x, y :: x in active && y in active && x != y ==> active[x].slot != active[y].slot
    ensures |active.Keys| <= n
  {
    if n > 0 {
      if x :| x in active && active[x].slot == n - 1 {
        DistinctSlotsAreFew(active - {x}, n - 1);
        assert (active - {x}).Keys == active.Keys - {x};
      } else {
        DistinctSlotsAreFew(active, n - 1);
      }
    } else {
      assert active == map[];
    }
  }

  lemma DistinctPortsAreFew(s: WatcherState)
    requires BridgesFit(s) && PortsDistinct(s)
    ensures |s.active.Keys| <= MAX_CHILD_SLOTS
  {
    DistinctSlotsAreFew(s.active, MAX_CHILD_SLOTS);
  }

  /**
   With room for eight ports above the base, no two active bridges are ever
   given the same port if and only if there are never more than eight of them.
   */
  lemma {:induction false} PortsStayDistinctExactly(secondaryPort: uint16, overridePid: Option<uint16>,
                                                    steps: seq<Step>)
    requires secondaryPort <= 65528
    ensures (forall k :: 0 <= k <= |steps| ==> PortsDistinct(After(secondaryPort, overridePid, steps, k)))
       <==> NeverOverfull(secondaryPort, overridePid, steps)
  {
    hide Exec, Consistent, Agrees, PortsDistinct, BridgesFit, SignalsAreFresh, ScanAccounted;
    AgreementThroughoutIsExact(secondaryPort, overridePid, steps);
    forall k: nat | k <= |steps|
      ensures var s := After(secondaryPort, overridePid, steps, k);
              (PortsDistinct(s) ==> |s.active.Keys| <= MAX_CHILD_SLOTS) && (Agrees(s) ==> PortsDistinct(s))
    {
      var s := After(secondaryPort, overridePid, steps, k);
      FreshBridgesFit(secondaryPort, overridePid);
      EveryRunFits(Init(secondaryPort, overridePid), steps[..k]);
      ExecKeepsBase(Init(secondaryPort, overridePid), steps[..k]);
      if PortsDistinct(s) {
        DistinctPortsAreFew(s);
      }
      if Agrees(s) {
        AgreementSeparatesPorts(s);
      }
    }
  }

  lemma FreshBridgesFit(secondaryPort: uint16, overridePid: Option<uint16>)
    ensures BridgesFit(Init(secondaryPort, overridePid))
  {
  }

  lemma {:induction false} ExecKeepsBase(s: WatcherState, steps: seq<Step>)
    ensures Exec(s, steps).dock.secondaryPort == s.dock.secondaryPort
    decreases |steps|
  {
    hide Next;
    if steps != [] {
      NextKeepsBase(s, steps[0]);
      ExecKeepsBase(Next(s, steps[0]), steps[1..]);
    }
  }

  lemma NextKeepsBase(s: WatcherState, step: Step)
    ensures Next(s, step).dock.secondaryPort == s.dock.secondaryPort
  {
    hide PortOf, TargetSlot, FindSerial, EntryFor, Seen;
  }
}
