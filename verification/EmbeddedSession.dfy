/** Sessions with the embedded hub and bridge, reads and all, next to the same sessions with the server. */
module EmbeddedSession {
  import opened Bytes
  import opened Wrappers
  import opened Cora
  import opened Stream
  import opened Resync
  import opened Delivery
  import opened Capacity
  import opened Reports
  import opened Keepalive
  import opened Dock
  import opened Primary
  import opened Secondary
  import opened Surface
  import opened Embedded

  /** What the fixed buffer lets through: the stream's frames up to the first large one, as many as have arrived. */
  lemma EmbeddedReceives(frames: seq<CoraFrame>, chunks: seq<seq<uint8>>)
    requires AllWellFormed(frames) && Flatten(chunks) <= EncodeAll(frames) && Fits([], chunks)
    ensures var got := Run([], chunks).frames;
      && got <= frames && |got| <= FirstTooLarge(frames)
      && (Flatten(chunks) == EncodeAll(frames) ==> got == frames)
  {
    hide Run, EncodeAll, Fits, Flatten;
    FixedSessionIsExact(frames, chunks);
    if Flatten(chunks) == EncodeAll(frames) {
      WholeStreamIsDelivered(frames, chunks);
    }
  }

  // ----- The bridges -----

  function CallOf(op: UsbOp): seq<SurfaceCall> {
    match op
    case WriteOut(data) => ImageCall(data)
    case SetFeature(data) => BrightnessCall(data)
    case ReadFeature(_, _) => []
  }

  /** What the server's transfers would mean to a surface. */
  function CallsOf(ops: seq<UsbOp>): seq<SurfaceCall> {
    if ops == [] then [] else CallOf(ops[0]) + CallsOf(ops[1..])
  }

  lemma {:induction false} CallsOfAppend(xs: seq<UsbOp>, ys: seq<UsbOp>)
    ensures CallsOf(xs + ys) == CallsOf(xs) + CallsOf(ys)
  {
    hide CallOf;
    if xs == [] {
      assert xs + ys == ys;
    } else {
      CallsOfAppend(xs[1..], ys);
      assert (xs + ys)[1..] == xs[1..] + ys;
      Assoc(CallOf(xs[0]), CallsOf(xs[1..]), CallsOf(ys));
    }
  }

  /** Same flags, op and message id, and outside feature queries the same bytes. */
  predicate Alike(embedded: CoraFrame, server: CoraFrame, request: CoraFrame) {
    && embedded.header.flags == server.header.flags
    && embedded.header.hidOp == server.header.hidOp
    && embedded.header.messageId == server.header.messageId
    && (!IsFeatureQuery(request) ==> embedded == server)
  }

  predicate AllAlike(embedded: seq<CoraFrame>, server: seq<CoraFrame>, requests: seq<CoraFrame>) {
    && |embedded| == |server| == |requests|
    && forall i :: 0 <= i < |requests| ==> Alike(embedded[i], server[i], requests[i])
  }

  lemma OneFrameAlike(info: SurfaceInfo, slot: uint8, port: uint16, dev: ChildHandle, report: Option<seq<uint8>>,
                      f: CoraFrame)
    requires HasQueryByte(f)
    ensures var e, s := SurfaceRespond(info, slot, port, f), BridgeRespond(dev, report, f);
      && (e.reply.Some? <==> ExpectsReply(f)) && (s.reply.Some? <==> ExpectsReply(f))
      && (ExpectsReply(f) ==> Alike(e.reply.value, s.reply.value, f))
      && e.calls == CallsOf(s.usb)
  {
    hide SurfaceBody, FeatureAnswer, AckPayload, ImageCall, BrightnessCall;
    var s := BridgeRespond(dev, report, f);
    if s.usb != [] {
      assert s.usb == [s.usb[0]] && s.usb[1..] == [];
      assert CallsOf(s.usb) == CallOf(s.usb[0]) + [];
    }
  }

  lemma {:induction false} FramesAlike(info: SurfaceInfo, slot: uint8, port: uint16, dev: ChildHandle,
                                       reports: seq<Option<seq<uint8>>>, frames: seq<CoraFrame>)
    requires AllHaveQueryByte(frames) && |reports| == |frames|
    ensures var e, s := SurfaceRespondAll(info, slot, port, frames), BridgeRespondAll(dev, reports, frames);
      AllAlike(e.replies, s.replies, Expecting(frames)) && e.calls == CallsOf(s.usb)
    decreases |frames|
  {
    hide SurfaceRespond, BridgeRespond, ExpectsReply, HasQueryByte, Alike, CallsOf;
    if frames == [] {
      NoCalls();
    } else {
      var o, rest := BridgeRespond(dev, reports[0], frames[0]), BridgeRespondAll(dev, reports[1..], frames[1..]);
      OneFrameAlike(info, slot, port, dev, reports[0], frames[0]);
      FramesAlike(info, slot, port, dev, reports[1..], frames[1..]);
      CallsOfAppend(o.usb, rest.usb);
    }
  }

  lemma NoCalls()
    ensures CallsOf([]) == []
  {
  }

  /**
   One client stream, sent to the embedded bridge and to the server's: of what
   gets through the fixed buffer, both answer the same frames with the same
   flags, ops and ids, and the surface is called for exactly what the server
   would transfer to its device.
   */
  lemma {:induction false} BridgesConverseAlike(info: SurfaceInfo, slot: uint8, port: uint16, dev: ChildHandle,
                                                reports: seq<Option<seq<uint8>>>, frames: seq<CoraFrame>,
                                                chunks: seq<seq<uint8>>)
    requires AllWellFormed(frames) && AllHaveQueryByte(frames)
    requires Flatten(chunks) <= EncodeAll(frames) && Fits([], chunks)
    requires |reports| == |Run([], chunks).frames|
    ensures var got := Run([], chunks).frames;
      && got <= frames && |got| <= FirstTooLarge(frames)
      && (Flatten(chunks) == EncodeAll(frames) ==> got == frames)
      && AllHaveQueryByte(got)
      && var e, s := SurfaceRespondAll(info, slot, port, got), BridgeRespondAll(dev, reports, got);
         AllAlike(e.replies, s.replies, Expecting(got)) && e.calls == CallsOf(s.usb)
  {
    hide Run, EncodeAll, Fits, Flatten, SurfaceRespondAll, BridgeRespondAll, HasQueryByte;
    EmbeddedReceives(frames, chunks);
    FramesAlike(info, slot, port, dev, reports, Run([], chunks).frames);
  }

  // ----- Surface events among the replies -----

  /** Replies carry a flag, events none. */
  predicate IsEvent(f: CoraFrame) {
    f.header.flags == NONE && |f.payload| == EVENT_REPORT_SIZE
  }

  function WithoutEvents(frames: seq<CoraFrame>): seq<CoraFrame> {
    if frames == [] then []
    else (if IsEvent(frames[0]) then [] else [frames[0]]) + WithoutEvents(frames[1..])
  }

  function EventsIn(frames: seq<CoraFrame>): seq<SurfaceEvent> {
    if frames == [] then []
    else (if IsEvent(frames[0]) then [ReadEvent(frames[0].payload)] else []) + EventsIn(frames[1..])
  }

  /** The first `n` polls of the surface, as they look on the wire. */
  function ShownEvents(events: nat -> Option<SurfaceEvent>, n: nat): seq<SurfaceEvent> {
    if n == 0 then []
    else ShownEvents(events, n - 1) + match events(n - 1) { case Some(e) => [Canonical(e)] case None => [] }
  }

  lemma {:induction false} SortedAppend(xs: seq<CoraFrame>, ys: seq<CoraFrame>)
    ensures WithoutEvents(xs + ys) == WithoutEvents(xs) + WithoutEvents(ys)
    ensures EventsIn(xs + ys) == EventsIn(xs) + EventsIn(ys)
  {
    hide ReadEvent;
    if xs == [] {
      assert xs + ys == ys;
    } else {
      SortedAppend(xs[1..], ys);
      assert (xs + ys)[1..] == xs[1..] + ys;
      Assoc(if IsEvent(xs[0]) then [] else [xs[0]], WithoutEvents(xs[1..]), WithoutEvents(ys));
      Assoc(if IsEvent(xs[0]) then [ReadEvent(xs[0].payload)] else [], EventsIn(xs[1..]), EventsIn(ys));
    }
  }

  lemma ReplyIsNoEvent(info: SurfaceInfo, slot: uint8, port: uint16, f: CoraFrame)
    requires HasQueryByte(f)
    ensures var reply := SurfaceRespond(info, slot, port, f).reply;
      reply.Some? ==> !IsEvent(reply.value) && reply.value.WellFormed()
  {
    hide SurfaceBody, AckPayload;
  }

  lemma {:induction false} RepliesAreNoEvents(info: SurfaceInfo, slot: uint8, port: uint16, frames: seq<CoraFrame>)
    requires AllHaveQueryByte(frames)
    ensures var replies := SurfaceRespondAll(info, slot, port, frames).replies;
      WithoutEvents(replies) == replies && EventsIn(replies) == [] && AllWellFormed(replies)
  {
    hide SurfaceRespond, HasQueryByte, IsEvent, CoraFrame.WellFormed;
    if frames != [] {
      ReplyIsNoEvent(info, slot, port, frames[0]);
      RepliesAreNoEvents(info, slot, port, frames[1..]);
      var reply := SurfaceRespond(info, slot, port, frames[0]).reply;
      var rest := SurfaceRespondAll(info, slot, port, frames[1..]).replies;
      if reply.Some? {
        assert ([reply.value] + rest)[1..] == rest;
      } else {
        assert [] + rest == rest;
      }
    }
  }

  lemma EventIsEvent(event: Option<SurfaceEvent>)
    ensures var frames := EventFrames(event);
      && WithoutEvents(frames) == [] && AllWellFormed(frames)
      && EventsIn(frames) == match event { case Some(e) => [Canonical(e)] case None => [] }
  {
    hide EventReport, ReadEvent, Canonical;
    if event.Some? {
      ReadAfterReport(event.value);
      var f := EventFrame(event.value);
      assert [f][1..] == [];
    }
  }

  lemma {:induction false} StreamIsSorted(info: SurfaceInfo, slot: uint8, port: uint16, chunks: seq<seq<uint8>>,
                                          events: nat -> Option<SurfaceEvent>, n: nat)
    requires n <= |chunks| && AllBatchesHaveQueryByte(Batches(chunks)) && AllHaveQueryByte(Run([], chunks).frames)
    ensures AllBatchesHaveQueryByte(Batches(chunks)[..n]) && AllHaveQueryByte(Run([], chunks[..n]).frames)
    ensures var sent := SurfaceStream(info, slot, port, Batches(chunks)[..n], events);
      && AllWellFormed(sent)
      && WithoutEvents(sent) == SurfaceRespondAll(info, slot, port, Run([], chunks[..n]).frames).replies
      && EventsIn(sent) == ShownEvents(events, n)
  {
    hide Run, Drain, SurfaceRespondAll, HasQueryByte, WithoutEvents, EventsIn, CoraFrame.WellFormed, EventFrames,
         Canonical;
    var batches := Batches(chunks);
    if n == 0 {
      NothingRead(chunks);
      NothingConversed(info, slot, port, events);
      NothingSorted();
      assert batches[..0] == [];
    } else {
      StreamIsSorted(info, slot, port, chunks, events, n - 1);
      RunOneMore(chunks, n - 1);
      var batch, before := batches[n - 1], Run([], chunks[..n - 1]).frames;
      QueryBytesSoFar(chunks, n - 1, batch);
      SurfaceRespondAllAppend(info, slot, port, before, batch);
      RepliesAreNoEvents(info, slot, port, batch);
      EventIsEvent(events(n - 1));
      assert batches[..n][..n - 1] == batches[..n - 1];
      var sent := SurfaceStream(info, slot, port, batches[..n - 1], events);
      var replies := SurfaceRespondAll(info, slot, port, batch).replies;
      SortedAppend(sent + replies, EventFrames(events(n - 1)));
      SortedAppend(sent, replies);
    }
  }

  lemma NothingSorted()
    ensures WithoutEvents([]) == [] && EventsIn([]) == []
  {
  }

  /**
   However the stream of an embedded bridge is cut on its way down, the client
   finds in it the replies to what the bridge received, and the surface's
   events as they look on the wire, each in order.
   */
  lemma {:induction false} EventsTravelWithReplies(info: SurfaceInfo, slot: uint8, port: uint16,
                                                   chunks: seq<seq<uint8>>, events: nat -> Option<SurfaceEvent>,
                                                   down: seq<seq<uint8>>)
    requires AllBatchesHaveQueryByte(Batches(chunks)) && AllHaveQueryByte(Run([], chunks).frames)
    requires Flatten(down) == EncodeAll(SurfaceStream(info, slot, port, Batches(chunks), events))
    ensures var received := Run([], down).frames;
      && WithoutEvents(received) == SurfaceRespondAll(info, slot, port, Run([], chunks).frames).replies
      && EventsIn(received) == ShownEvents(events, |chunks|)
  {
    hide Run, EncodeAll, SurfaceStream, SurfaceRespondAll, WithoutEvents, EventsIn, ShownEvents, HasQueryByte;
    StreamIsSorted(info, slot, port, chunks, events, |chunks|);
    assert chunks[..|chunks|] == chunks && Batches(chunks)[..|chunks|] == Batches(chunks);
    WholeStreamIsDelivered(SurfaceStream(info, slot, port, Batches(chunks), events), down);
  }

  // ----- The hub -----

  /** Same id and flags, and the server's bytes in front of the hub's. */
  predicate Leads(server: CoraFrame, hub: CoraFrame) {
    && hub.header.messageId == server.header.messageId
    && hub.header.flags == server.header.flags
    && server.payload <= hub.payload
  }

  predicate AllLead(server: seq<CoraFrame>, hub: seq<CoraFrame>) {
    |server| == |hub| && forall i :: 0 <= i < |server| ==> Leads(server[i], hub[i])
  }

  /** The table may change, but not the list of its active children that the hub was given. */
  predicate AllShow(around: seq<Surroundings>, children: seq<ChildDeviceInfo>) {
    forall a :: a in around ==> TableFits(a.dock) && AllActiveChildren(a.dock) == children
  }

  lemma {:induction false} FramesLead(hub: HubInfo, children: seq<ChildDeviceInfo>, s: Session,
                                      around: seq<Surroundings>, frames: seq<CoraFrame>)
    requires |around| == |frames| && AllShow(around, children)
    ensures var e := RespondAll(AsServer(hub), s, around, frames);
      s.replies <= e.replies && AllLead(e.replies[|s.replies|..], HubRespondAll(hub, children, frames))
    decreases |frames|
  {
    hide Respond, HubRespond, Leads, TableFits, AllActiveChildren;
    if frames == [] {
      assert s.replies[|s.replies|..] == [];
    } else {
      var o := Respond(AsServer(hub), s.polled, around[0], frames[0]);
      var next := AddOutcome(s, o);
      OneFrameLeads(hub, children, s.polled, around[0], frames[0]);
      FramesLead(hub, children, next, around[1..], frames[1..]);
      var later := RespondAll(AsServer(hub), next, around[1..], frames[1..]).replies;
      if o.reply.Some? {
        assert later[|s.replies|..] == [o.reply.value] + later[|next.replies|..];
      } else {
        var rest := HubRespondAll(hub, children, frames[1..]);
        assert [] + rest == rest;
      }
    }
  }

  lemma OneFrameLeads(hub: HubInfo, children: seq<ChildDeviceInfo>, polled: bool, a: Surroundings, f: CoraFrame)
    requires TableFits(a.dock) && AllActiveChildren(a.dock) == children
    ensures var h, s := HubRespond(hub, children, f), Respond(AsServer(hub), polled, a, f).reply;
      (h.Some? <==> s.Some?) && (h.Some? ==> Leads(s.value, h.value))
  {
    hide HubRespond, Respond, TableFits, AllActiveChildren;
    HubAnswersLikeTheServer(hub, polled, a, f);
  }

  /**
   One client stream, sent to the hub and to a Dock-mode server whose active
   children are the hub's: of what gets through the fixed buffer, both answer
   the same questions with the same ids, the server's bytes leading the hub's.
   */
  lemma {:induction false} HubSessionLikeTheServer(hub: HubInfo, children: seq<ChildDeviceInfo>,
                                                   around: seq<Surroundings>, frames: seq<CoraFrame>,
                                                   chunks: seq<seq<uint8>>)
    requires AllWellFormed(frames) && Flatten(chunks) <= EncodeAll(frames) && Fits([], chunks)
    requires |around| == |Run([], chunks).frames| && AllShow(around, children)
    ensures var got := Run([], chunks).frames;
      && got <= frames && |got| <= FirstTooLarge(frames)
      && (Flatten(chunks) == EncodeAll(frames) ==> got == frames)
      && AllLead(RespondAll(AsServer(hub), NEW_SESSION, around, got).replies, HubRespondAll(hub, children, got))
      && |HubRespondAll(hub, children, got)| == |Asking(got)|
  {
    hide Run, EncodeAll, Fits, Flatten, HubRespondAll, RespondAll, AllShow, Asking;
    var got := Run([], chunks).frames;
    EmbeddedReceives(frames, chunks);
    FramesLead(hub, children, NEW_SESSION, around, got);
    SessionIsCorrelated(AsServer(hub), NEW_SESSION, around, got);
    var replies := RespondAll(AsServer(hub), NEW_SESSION, around, got).replies;
    assert replies[0..] == replies;
  }
}
