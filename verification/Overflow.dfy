/** Runs past the capacity of the dock: a device too many costs agreement, but for one lucky case. */
module Overflow {
  import opened Bytes
  import opened Wrappers
  import opened Dock
  import opened Watcher
  import opened Agreement
  import opened UsbWatcher

  ghost predicate Safe(s: WatcherState) {
    Consistent(s) && SignalsAreFresh(s) && ScanAccounted(s)
  }

  /** The attaching half of a scan. */
  function AttachingSteps(listed: seq<ListedDevice>): seq<Step> {
    [StartScan(listed)] + Repeat(AttachNext, |listed|) + [FinishAttaching]
  }

  lemma {:induction false} AttachNextCounts(s: WatcherState, listed: seq<ListedDevice>, k: nat)
    requires s.phase.Draining? && s.queue == [] && k <= |listed|
    ensures var e := Exec(s, [StartScan(listed)] + Repeat(AttachNext, k));
            e.phase == Attaching(listed, k, Snapshot(s.dock, s.active)) && e.queue == []
  {
    hide Exec, AttachListed;
    var begun := [StartScan(listed)];
    if k == 0 {
      NothingExecuted(s);
      ExecOneMore(s, [], StartScan(listed));
      ScanStarts(s, listed);
      assert begun + Repeat(AttachNext, 0) == begun == [] + begun;
    } else {
      AttachNextCounts(s, listed, k - 1);
      var steps := begun + Repeat(AttachNext, k - 1);
      RepeatOneMore(AttachNext, k - 1);
      Assoc(begun, Repeat(AttachNext, k - 1), [AttachNext]);
      ExecOneMore(s, steps, AttachNext);
      AttachNextIsAttach(Exec(s, steps));
      AttachKeepsQueue(Exec(s, steps), listed[k - 1]);
    }
  }

  lemma AttachKeepsQueue(s: WatcherState, dev: ListedDevice)
    ensures AttachListed(s, dev).queue == s.queue
  {
  }

  lemma AttachingHalf(s: WatcherState, listed: seq<ListedDevice>)
    requires Safe(s) && s.phase.Draining? && s.queue == []
    ensures var e := Exec(s, AttachingSteps(listed));
      && Safe(e)
      && e.phase == Removing(listed, Snapshot(s.dock, s.active), s.active.Keys - Seen(listed))
      && e.active.Keys == s.active.Keys + Opened(listed)
      && e.queue == []
  {
    hide Exec, Consistent, SignalsAreFresh, SameBridge, Seen, Opened;
    var steps := [StartScan(listed)] + Repeat(AttachNext, |listed|);
    AttachNextCounts(s, listed, |listed|);
    EveryRunIsSafe(s, steps);
    EveryRunIsSafe(s, AttachingSteps(listed));
    assert listed[..|listed|] == listed;
    AttachingEnds(Exec(s, steps));
    ExecOneMore(s, steps, FinishAttaching);
    OpenedIsSeen(listed);
  }

  /** On a fresh server nothing is removed, and agreement after the first scan is a matter of counting. */
  lemma {:induction false} FirstScanAgreesExactly(secondaryPort: uint16, overridePid: Option<uint16>,
                                                  listed: seq<ListedDevice>)
    ensures var e := Exec(Init(secondaryPort, overridePid), ScanSteps(listed, []));
      && Safe(e) && e.phase.Draining? && e.queue == []
      && e.active.Keys == Opened(listed)
      && (Agrees(e) <==> |Opened(listed)| <= MAX_CHILD_SLOTS)
  {
    hide Exec, Consistent, SignalsAreFresh, ScanAccounted, Agrees, Seen, Opened, Lost, SerialsIn;
    var start := Init(secondaryPort, overridePid);
    InitIsSafe(secondaryPort, overridePid);
    AttachingHalf(start, listed);
    var s := Exec(start, AttachingSteps(listed));
    ScanEnds(s);
    ExecOneMore(start, AttachingSteps(listed), FinishScan);
    assert AttachingSteps(listed) + [FinishScan] == ScanSteps(listed, []);
    EveryRunIsSafe(start, ScanSteps(listed, []));
    ScanAgreementIsExact(secondaryPort, overridePid, AttachingSteps(listed));
    PhaseIsIrrelevant(s, Draining);
  }

  lemma PhaseIsIrrelevant(s: WatcherState, phase: Phase)
    ensures Agrees(s.(phase := phase)) <==> Agrees(s)
  {
  }

  // ----- Nine devices -----

  /** An Elgato Stream Deck with a one-byte serial, which opens. */
  function Deck(i: uint8): ListedDevice {
    ListedDevice(VENDOR_ID_ELGATO, 0x0080, Some([i]), [], true)
  }

  function Decks(first: nat, n: nat): (listed: seq<ListedDevice>)
    requires first + n <= 0x100
    ensures |listed| == n
  {
    seq(n, i requires 0 <= i < n => Deck(first + i))
  }

  function Serials(first: nat, n: nat): set<Serial> {
    set x: uint8 | first <= x < first + n :: [x]
  }

  lemma {:induction false} DecksAreCounted(first: nat, n: nat)
    requires first + n <= 0x100
    ensures |Opened(Decks(first, n))| == n && Seen(Decks(first, n)) == Opened(Decks(first, n))
    ensures Opened(Decks(first, n)) == Serials(first, n)
  {
    hide Decks, Deck, Serials, Opened, Seen;
    if n == 0 {
      NoDecks(first);
    } else {
      DecksAreCounted(first, n - 1);
      OneMoreDeck(first, n - 1);
      var listed := Decks(first, n);
      assert listed[..n] == listed;
      OpenedGrows(listed, n - 1);
      SeenGrows(listed, n - 1);
    }
  }

  lemma OneMoreDeck(first: nat, n: nat)
    requires first + n < 0x100
    ensures var last, listed := Deck(first + n), Decks(first, n + 1);
      && listed[..n] == Decks(first, n) && listed[n] == last
      && IsStreamDeck(last) && last.opens
      && SerialOf(last) !in Serials(first, n)
      && Serials(first, n + 1) == Serials(first, n) + {SerialOf(last)}
  {
    forall x: uint8 ensures [x] in Serials(first, n + 1) <==> [x] in Serials(first, n) || x == first + n {
    }
  }

  lemma NoDecks(first: nat)
    requires first <= 0x100
    ensures Decks(first, 0) == [] && Serials(first, 0) == {} && Opened([]) == {} && Seen([]) == {}
  {
  }

  /** Nine new devices in one scan: nine bridges stand over eight slots. */
  lemma {:induction false} NineDevicesDisagree(secondaryPort: uint16, overridePid: Option<uint16>)
    ensures var e := Exec(Init(secondaryPort, overridePid), ScanSteps(Decks(0, 9), []));
            e.phase.Draining? && |e.active.Keys| == 9 && !Agrees(e)
  {
    hide Exec, Agrees, Opened, Seen, Safe;
    DecksAreCounted(0, 9);
    FirstScanAgreesExactly(secondaryPort, overridePid, Decks(0, 9));
  }

  lemma FirstDeckTakesSlot0(secondaryPort: uint16, overridePid: Option<uint16>)
    ensures var slots := Exec(Init(secondaryPort, overridePid), ScanSteps([Deck(0)], [])).dock.slots;
            slots[0].Some? && slots[0].value.serial == [0]
  {
    hide Next, AttachListed, Exec;
    var start, one := Init(secondaryPort, overridePid), [Deck(0)];
    var begun := Next(start, StartScan(one));
    ScanStarts(start, one);
    AttachNextIsAttach(begun);
    EmptyTableGivesSlot0(begun, Deck(0));
    var attached := Next(begun, AttachNext);
    assert ScanSteps(one, []) == [StartScan(one), AttachNext, FinishAttaching, FinishScan];
    ExecFour(start, StartScan(one), AttachNext, FinishAttaching, FinishScan);
    FinishingKeepsDock(attached);
    FinishingKeepsDock(Next(attached, FinishAttaching));
  }

  lemma ExecFour(s: WatcherState, a: Step, b: Step, c: Step, d: Step)
    ensures Exec(s, [a, b, c, d]) == Next(Next(Next(Next(s, a), b), c), d)
  {
    hide Next;
    NothingExecuted(s);
    assert [] + [a] == [a] && [a] + [b] == [a, b] && [a, b] + [c] == [a, b, c] && [a, b, c] + [d] == [a, b, c, d];
    ExecOneMore(s, [], a);
    ExecOneMore(s, [a], b);
    ExecOneMore(s, [a, b], c);
    ExecOneMore(s, [a, b, c], d);
  }

  lemma FinishingKeepsDock(s: WatcherState)
    ensures Next(s, FinishAttaching).dock == s.dock && Next(s, FinishScan).dock == s.dock
  {
  }

  lemma EmptyTableGivesSlot0(s: WatcherState, dev: ListedDevice)
    requires s.dock == NewDock(s.dock.secondaryPort) && Attaches(s, dev)
    ensures var slots := AttachListed(s, dev).dock.slots;
            slots[0].Some? && slots[0].value.serial == SerialOf(dev)
  {
    hide SerialOf, IsStreamDeck, PortOf;
  }

  /** One device is swapped for eight others: the last of them takes slot 0 from the one that is then removed. */
  lemma {:induction false} LuckyNinthDeviceAgrees(secondaryPort: uint16, overridePid: Option<uint16>)
    ensures var steps := ScanSteps([Deck(0)], []) + AttachingSteps(Decks(1, 8)) + [RemoveOne([0])];
            var e := Exec(Init(secondaryPort, overridePid), steps);
      && e.phase.Removing? && e.phase.pending == {}
      && !WithinCapacity(e.phase.start, e.phase.listed)
      && LuckyOverflow(e.phase.start, e.phase.listed)
      && Agrees(e)
  {
    hide Exec, Agrees, Opened, Seen, Consistent, SignalsAreFresh, ScanAccounted, Lost, Drop;
    var start := Init(secondaryPort, overridePid);
    var one, eight := [Deck(0)], Decks(1, 8);
    assert one == Decks(0, 1);
    DecksAreCounted(0, 1);
    DecksAreCounted(1, 8);
    FirstScanAgreesExactly(secondaryPort, overridePid, one);
    FirstDeckTakesSlot0(secondaryPort, overridePid);
    var s1 := Exec(start, ScanSteps(one, []));
    AttachingHalf(s1, eight);
    var s2 := Exec(s1, AttachingSteps(eight));
    ExecAppend(start, ScanSteps(one, []), AttachingSteps(eight));
    assert Serials(0, 1) - Serials(1, 8) == {[0]} && Serials(0, 1) + Serials(1, 8) == Serials(0, 9);
    DecksAreCounted(0, 9);
    RemoveOneIsDrop(s2, [0]);
    ExecOneMore(start, ScanSteps(one, []) + AttachingSteps(eight), RemoveOne([0]));
    ScanAgreementIsExact(secondaryPort, overridePid, ScanSteps(one, []) + AttachingSteps(eight) + [RemoveOne([0])]);
    AgreesWhenNothingIsLost(s1);
  }
}
