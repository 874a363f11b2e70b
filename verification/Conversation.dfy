/**
 One client's whole conversation with a Dock-mode server: requests on the way
 up; on the way down, replies, the pushes spawned by the first poll, live events
 and keepalive probes, in any interleaving.
 */
module Conversation {
  import opened Bytes
  import opened Wrappers
  import opened Cora
  import opened Stream
  import opened Delivery
  import opened Reports
  import opened Keepalive
  import opened Dock
  import opened Replica
  import opened Subscription
  import opened Primary
  import opened PrimaryConnection

  /** What goes through the outgoing channel. */
  datatype Item =
    | Answer(reply: CoraFrame)
    | Spawned(k: nat)
    | Change(child: ChildDeviceInfo)
    | Probe(connectionId: uint8, messageId: uint32)

  predicate Numbered(items: seq<Item>, n: nat) {
    forall item :: item in items && item.Spawned? ==> item.k < n
  }

  /** Each of the `n` spawned tasks has sent its push. */
  predicate AllSent(items: seq<Item>, n: nat) {
    Numbered(items, n) && forall k: nat :: k < n ==> Spawned(k) in items
  }

  function FrameOf(pushes: seq<CoraFrame>, item: Item): CoraFrame
    requires item.Spawned? ==> item.k < |pushes|
  {
    match item
    case Answer(reply) => reply
    case Spawned(k) => pushes[k]
    case Change(child) => PushOf(child)
    case Probe(connectionId, messageId) => ProbeFrame(connectionId, messageId)
  }

  function Wire(pushes: seq<CoraFrame>, items: seq<Item>): seq<CoraFrame>
    requires Numbered(items, |pushes|)
  {
    if items == [] then [] else [FrameOf(pushes, items[0])] + Wire(pushes, items[1..])
  }

  function AnswersOf(items: seq<Item>): seq<CoraFrame> {
    if items == [] then []
    else (if items[0].Answer? then [items[0].reply] else []) + AnswersOf(items[1..])
  }

  function ChangesOf(items: seq<Item>): seq<ChildDeviceInfo> {
    if items == [] then []
    else (if items[0].Change? then [items[0].child] else []) + ChangesOf(items[1..])
  }

  /** The pushes among the items, when those spawned are for `children`. */
  function ArrivalsOf(children: seq<ChildDeviceInfo>, items: seq<Item>): seq<Arrival>
    requires Numbered(items, |children|)
  {
    if items == [] then []
    else
      (match items[0]
       case Spawned(k) => [Initial(children[k])]
       case Change(child) => [Live(child)]
       case _ => [])
      + ArrivalsOf(children, items[1..])
  }

  // ----- What the client makes of the stream -----

  /** As all the handler's replies are. */
  predicate AnswersAreReplies(items: seq<Item>) {
    forall item :: item in items && item.Answer? ==> item.reply.WellFormed() && IsReply(item.reply)
  }

  lemma {:induction false} OneItem(pushes: seq<CoraFrame>, children: seq<ChildDeviceInfo>, item: Item)
    requires pushes == PushesOf(children) && (item.Spawned? ==> item.k < |pushes|)
    requires item.Answer? ==> item.reply.WellFormed() && IsReply(item.reply)
    ensures var f := FrameOf(pushes, item);
      && f.WellFormed()
      && (IsReply(f) <==> item.Answer?)
      && (item.Answer? ==> f == item.reply)
      && (IsPush(f) <==> item.Spawned? || item.Change?)
  {
    hide PayloadByte, CoraFrame.WellFormed, PushOf, ProbeFrame, IsPush, IsReply;
    match item
    case Answer(reply) => ReplyIsNoPush(reply);
    case Spawned(k) => PushIsNoReply(children[k]);
    case Change(child) => PushIsNoReply(child);
    case Probe(connectionId, messageId) => ProbeIsNeither(connectionId, messageId);
  }

  lemma {:induction false} ReplyIsNoPush(f: CoraFrame)
    ensures IsReply(f) ==> !IsPush(f)
  {
  }

  lemma {:induction false} PushIsNoReply(c: ChildDeviceInfo)
    ensures PushOf(c).WellFormed() && IsPush(PushOf(c)) && !IsReply(PushOf(c))
  {
    hide PushOf;
    ReplayOfPush(map[], c);
  }

  lemma {:induction false} ProbeIsNeither(connectionId: uint8, messageId: uint32)
    ensures var f := ProbeFrame(connectionId, messageId); f.WellFormed() && !IsPush(f) && !IsReply(f)
  {
  }

  /** The stream is well formed, and the client can sort it. */
  lemma {:induction false} WireIsSorted(pushes: seq<CoraFrame>, children: seq<ChildDeviceInfo>, items: seq<Item>)
    requires pushes == PushesOf(children) && Numbered(items, |pushes|) && AnswersAreReplies(items)
    ensures var sent := Wire(pushes, items);
      && AllWellFormed(sent)
      && OnlyReplies(sent) == AnswersOf(items)
      && OnlyPushes(sent) == PushesOf(ChildrenOf(ArrivalsOf(children, items)))
  {
    hide FrameOf, PushOf, IsPush, IsReply, CoraFrame.WellFormed;
    if items != [] {
      var item := items[0];
      assert item in items;
      OneItem(pushes, children, item);
      WireIsSorted(pushes, children, items[1..]);
      var f := FrameOf(pushes, item);
      var sent := Wire(pushes, items);
      assert sent[0] == f && sent[1..] == Wire(pushes, items[1..]);
      OnePushMore(pushes, children, items);
    }
  }

  lemma {:induction false} OnePushMore(pushes: seq<CoraFrame>, children: seq<ChildDeviceInfo>, items: seq<Item>)
    requires pushes == PushesOf(children) && Numbered(items, |pushes|) && items != []
    ensures PushesOf(ChildrenOf(ArrivalsOf(children, items)))
         == (if items[0].Spawned? || items[0].Change? then [FrameOf(pushes, items[0])] else [])
            + PushesOf(ChildrenOf(ArrivalsOf(children, items[1..])))
  {
    hide PushOf;
    assert items[0] in items;
  }

  lemma {:induction false} LivesOfMore(a: Arrival, arrivals: seq<Arrival>)
    ensures Lives([a] + arrivals) == (if a.Live? then [a.child] else []) + Lives(arrivals)
    decreases |arrivals|
  {
    var all := [a] + arrivals;
    if arrivals == [] {
      assert all[..0] == [];
    } else {
      var front, last := arrivals[..|arrivals| - 1], arrivals[|arrivals| - 1];
      assert all[..|all| - 1] == [a] + front;
      LivesOfMore(a, front);
      Assoc(if a.Live? then [a.child] else [], Lives(front), if last.Live? then [last.child] else []);
    }
  }

  lemma {:induction false} LivesAreChanges(children: seq<ChildDeviceInfo>, items: seq<Item>)
    requires Numbered(items, |children|)
    ensures Lives(ArrivalsOf(children, items)) == ChangesOf(items)
  {
    hide Lives;
    if items == [] {
      NoLives();
    } else {
      assert items[0] in items;
      var rest := ArrivalsOf(children, items[1..]);
      LivesAreChanges(children, items[1..]);
      match items[0]
      case Spawned(k) => LivesOfMore(Initial(children[k]), rest);
      case Change(child) => LivesOfMore(Live(child), rest);
      case _ => assert [] + rest == rest;
    }
  }

  lemma {:induction false} NoLives()
    ensures Lives([]) == []
  {
  }

  lemma {:induction false} InitialsAreSpawned(children: seq<ChildDeviceInfo>, items: seq<Item>, c: ChildDeviceInfo)
    requires Numbered(items, |children|)
    ensures Initial(c) in ArrivalsOf(children, items)
       <==> exists k: nat :: k < |children| && Spawned(k) in items && children[k] == c
  {
    if items != [] {
      assert items[0] in items;
      InitialsAreSpawned(children, items[1..], c);
    }
  }

  // ----- The server's side -----

  function OpsBetween(meanwhile: nat -> seq<DockOp>, i: nat, n: nat): seq<DockOp>
    requires i <= n
    decreases n
  {
    if n == i then [] else OpsBetween(meanwhile, i, n - 1) + meanwhile(n - 1)
  }

  lemma {:induction false} DockBetween(d: Dock, meanwhile: nat -> seq<DockOp>, i: nat, n: nat)
    requires i <= n
    ensures DockAfter(d, meanwhile, n) == ApplyAll(DockAfter(d, meanwhile, i), OpsBetween(meanwhile, i, n))
    decreases n
  {
    hide ApplyAll;
    if n == i {
      NoOps(DockAfter(d, meanwhile, i));
    } else {
      DockBetween(d, meanwhile, i, n - 1);
      ApplyAppend(DockAfter(d, meanwhile, i), OpsBetween(meanwhile, i, n - 1), meanwhile(n - 1));
    }
  }

  lemma {:induction false} NoOps(d: Dock)
    ensures ApplyAll(d, []) == d
  {
  }

  /**
   What a Dock-mode server replies to the requests, with the dock changing before
   each of them, and the pushes it spawns.
   */
  function SessionOf(cfg: HandlerConfig, d: Dock, meanwhile: nat -> seq<DockOp>, reports: nat -> Option<seq<uint8>>,
                     requests: seq<CoraFrame>): Session {
    RespondAll(cfg, NEW_SESSION, Met(d, meanwhile, reports, |requests|), requests)
  }

  lemma {:induction false} RepliesAreReplies(cfg: HandlerConfig, d: Dock, meanwhile: nat -> seq<DockOp>,
                                             reports: nat -> Option<seq<uint8>>, requests: seq<CoraFrame>,
                                             items: seq<Item>)
    requires cfg.mode.DockMode?
    requires AnswersOf(items) == SessionOf(cfg, d, meanwhile, reports, requests).replies
    ensures Correlated(AnswersOf(items), Asking(requests))
    ensures AnswersAreReplies(items)
  {
    hide RespondAll, Met, Correlated, AnswersOf, Asking, IsReply, CoraFrame.WellFormed;
    SessionIsCorrelated(cfg, NEW_SESSION, Met(d, meanwhile, reports, |requests|), requests);
    var replies := AnswersOf(items);
    assert replies[0..] == replies;
    forall item | item in items && item.Answer? ensures item.reply.WellFormed() && IsReply(item.reply) {
      AnswerIsAmong(items, item);
      CorrelatedAreReplies(replies, Asking(requests), item.reply);
    }
  }

  lemma {:induction false} AnswerIsAmong(items: seq<Item>, item: Item)
    requires item in items && item.Answer?
    ensures item.reply in AnswersOf(items)
  {
    if items[0] != item {
      AnswerIsAmong(items[1..], item);
    }
  }

  lemma {:induction false} CorrelatedAreReplies(replies: seq<CoraFrame>, requests: seq<CoraFrame>, reply: CoraFrame)
    requires Correlated(replies, requests) && reply in replies
    ensures reply.WellFormed() && IsReply(reply)
  {
    var i :| 0 <= i < |replies| && replies[i] == reply;
    assert Answers(replies[i], requests[i]);
  }

  /** The pushes that a session has spawned by its end. */
  lemma {:induction false} ServerSpawns(cfg: HandlerConfig, d: Dock, meanwhile: nat -> seq<DockOp>,
                                        reports: nat -> Option<seq<uint8>>, requests: seq<CoraFrame>)
    requires cfg.mode.DockMode?
    ensures var i := FirstPoll(requests);
      SessionOf(cfg, d, meanwhile, reports, requests).pushes
      == PushesOf(if i == |requests| then [] else AllActiveChildren(DockAfter(d, meanwhile, i + 1)))
  {
    hide RespondAll, AllActiveChildren, DockAfter, FirstPoll;
    PushesAreSpawnedOnce(cfg, NEW_SESSION, Met(d, meanwhile, reports, |requests|), requests);
  }

  /** The client decodes the stream and sorts it. */
  lemma {:induction false} ClientSorts(children: seq<ChildDeviceInfo>, items: seq<Item>, down: seq<seq<uint8>>)
    requires Numbered(items, |children|) && AnswersAreReplies(items)
    requires Flatten(down) == EncodeAll(Wire(PushesOf(children), items))
    ensures var received := Run([], down).frames;
      && received == Wire(PushesOf(children), items)
      && AllWellFormed(received)
      && OnlyReplies(received) == AnswersOf(items)
      && OnlyPushes(received) == PushesOf(ChildrenOf(ArrivalsOf(children, items)))
  {
    hide Run, EncodeAll, Wire, AnswersOf, ArrivalsOf, AnswersAreReplies;
    WireIsSorted(PushesOf(children), children, items);
    WholeStreamIsDelivered(Wire(PushesOf(children), items), down);
  }

  /**
   A client that polls.  However both directions are cut and whatever the dock
   does between the requests and after the last: the server reads the requests,
   the client finds one reply for each that asks something, in order, and its
   replica is the final table if and only if no slot is stale.
   */
  lemma {:induction false} PolledConversation(cfg: HandlerConfig, d: Dock, meanwhile: nat -> seq<DockOp>,
                                              reports: nat -> Option<seq<uint8>>, requests: seq<CoraFrame>,
                                              up: seq<seq<uint8>>, afterwards: seq<DockOp>, items: seq<Item>,
                                              down: seq<seq<uint8>>)
    requires cfg.mode.DockMode? && TableFits(d)
    requires AllWellFormed(requests) && Flatten(up) == EncodeAll(requests)
    requires FirstPoll(requests) < |requests|
    requires var session := SessionOf(cfg, d, meanwhile, reports, requests);
      && AllSent(items, |session.pushes|)
      && AnswersOf(items) == session.replies
      && Flatten(down) == EncodeAll(Wire(session.pushes, items))
    requires var events := ApplyAll(DockAfter(d, meanwhile, |requests|), afterwards).events;
      |d.events| <= |events| && ChangesOf(items) == events[|d.events|..]
    ensures Run([], up).frames == requests
    ensures var received := Run([], down).frames;
            var final := ApplyAll(DockAfter(d, meanwhile, |requests|), afterwards);
            var children := AllActiveChildren(DockAfter(d, meanwhile, FirstPoll(requests) + 1));
      && Correlated(OnlyReplies(received), Asking(requests))
      && Numbered(items, |children|)
      && (ReplayAll(map[], received) == ClientTable(final)
          <==> forall slot: uint8 :: !IsStale(ArrivalsOf(children, items), slot))
  {
    hide Run, EncodeAll, ApplyAll, DockAfter, SessionOf, Correlated, Asking, AnswersOf, Wire, ArrivalsOf, ChangesOf,
         AllActiveChildren, TableFits, ReplayAll, ClientTable, IsStale, PushesOf, AnswersAreReplies, FirstPoll,
         Numbered,
         AllWellFormed;
    var i := FirstPoll(requests);
    var children := AllActiveChildren(DockAfter(d, meanwhile, i + 1));
    WholeStreamIsDelivered(requests, up);
    ServerSpawns(cfg, d, meanwhile, reports, requests);
    assert |PushesOf(children)| == |children|;
    RepliesAreReplies(cfg, d, meanwhile, reports, requests, items);
    ClientSorts(children, items, down);
    LivesAreChanges(children, items);
    AllInitialsAreSpawned(children, items);
    var ops1, ops2 := AroundPoll(d, meanwhile, i + 1, |requests|, afterwards);
    PolledReplicaIsExact(d, ops1, ops2, ArrivalsOf(children, items), Wire(PushesOf(children), items), down);
  }

  lemma {:induction false} AllInitialsAreSpawned(children: seq<ChildDeviceInfo>, items: seq<Item>)
    requires AllSent(items, |children|)
    ensures forall c :: Initial(c) in ArrivalsOf(children, items) <==> c in children
  {
    hide ArrivalsOf;
    forall c ensures Initial(c) in ArrivalsOf(children, items) <==> c in children {
      InitialsAreSpawned(children, items, c);
    }
  }

  /** The history of the dock, before and after the poll. */
  lemma {:induction false} AroundPoll(d: Dock, meanwhile: nat -> seq<DockOp>, i: nat, n: nat, afterwards: seq<DockOp>)
    returns (ops1: seq<DockOp>, ops2: seq<DockOp>)
    requires i <= n
    ensures ApplyAll(d, ops1) == DockAfter(d, meanwhile, i)
    ensures ApplyAll(ApplyAll(d, ops1), ops2) == ApplyAll(DockAfter(d, meanwhile, n), afterwards)
  {
    hide ApplyAll, DockAfter, OpsBetween;
    ops1 := OpsBetween(meanwhile, 0, i);
    ops2 := OpsBetween(meanwhile, i, n) + afterwards;
    StartOfDock(d, meanwhile);
    DockBetween(d, meanwhile, 0, i);
    DockBetween(d, meanwhile, i, n);
    ApplyAppend(DockAfter(d, meanwhile, i), OpsBetween(meanwhile, i, n), afterwards);
  }

  lemma {:induction false} StartOfDock(d: Dock, meanwhile: nat -> seq<DockOp>)
    ensures DockAfter(d, meanwhile, 0) == d
  {
  }

  /** A client that never polls: the same, but its replica lacks the slots untouched since it connected. */
  lemma {:induction false} UnpolledConversation(cfg: HandlerConfig, d: Dock, meanwhile: nat -> seq<DockOp>,
                                                reports: nat -> Option<seq<uint8>>, requests: seq<CoraFrame>,
                                                up: seq<seq<uint8>>, afterwards: seq<DockOp>, items: seq<Item>,
                                                down: seq<seq<uint8>>)
    requires cfg.mode.DockMode? && TableFits(d)
    requires AllWellFormed(requests) && Flatten(up) == EncodeAll(requests)
    requires FirstPoll(requests) == |requests|
    requires var session := SessionOf(cfg, d, meanwhile, reports, requests);
      && AllSent(items, |session.pushes|)
      && AnswersOf(items) == session.replies
      && Flatten(down) == EncodeAll(Wire(session.pushes, items))
    requires var events := ApplyAll(DockAfter(d, meanwhile, |requests|), afterwards).events;
      |d.events| <= |events| && ChangesOf(items) == events[|d.events|..]
    ensures Run([], up).frames == requests
    ensures var received := Run([], down).frames;
            var final := ApplyAll(DockAfter(d, meanwhile, |requests|), afterwards);
      && Correlated(OnlyReplies(received), Asking(requests))
      && (ReplayAll(map[], received) == ClientTable(final)
          <==> forall slot :: slot in ClientTable(d) ==> LastFor(ChangesOf(items), slot).Some?)
  {
    hide Run, EncodeAll, ApplyAll, DockAfter, SessionOf, Correlated, Asking, AnswersOf, Wire, ArrivalsOf, ChangesOf,
         TableFits, ReplayAll, ClientTable, PushesOf, AnswersAreReplies, FirstPoll, LastFor, Numbered, AllWellFormed;
    WholeStreamIsDelivered(requests, up);
    ServerSpawns(cfg, d, meanwhile, reports, requests);
    assert |PushesOf([])| == 0;
    RepliesAreReplies(cfg, d, meanwhile, reports, requests, items);
    ClientSorts([], items, down);
    OnlyChanges(items);
    var ops1, ops2 := AroundPoll(d, meanwhile, |requests|, |requests|, afterwards);
    ApplyAppend(d, ops1, ops2);
    UnpolledReplicaIsExact(d, ops1 + ops2, Wire(PushesOf([]), items), down);
  }

  lemma {:induction false} OnlyChanges(items: seq<Item>)
    requires Numbered(items, 0)
    ensures ChildrenOf(ArrivalsOf([], items)) == ChangesOf(items)
  {
    hide ChildrenOf;
    if items == [] {
      NoChildren();
    } else {
      assert items[0] in items;
      var rest := ArrivalsOf([], items[1..]);
      OnlyChanges(items[1..]);
      if items[0].Change? {
        ChildrenOfMore(Live(items[0].child), rest);
      } else {
        assert [] + rest == rest && [] + ChangesOf(items[1..]) == ChangesOf(items[1..]);
      }
    }
  }

  lemma {:induction false} NoChildren()
    ensures ChildrenOf([]) == []
  {
  }

  lemma {:induction false} ChildrenOfMore(a: Arrival, arrivals: seq<Arrival>)
    ensures ChildrenOf([a] + arrivals) == [a.child] + ChildrenOf(arrivals)
  {
  }
}
