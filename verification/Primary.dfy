/** The frame handler of the primary port, and what it answers over a whole session. */
module Primary {
  import opened Bytes
  import opened Wrappers
  import opened Cora
  import opened Stream
  import opened Delivery
  import opened Reports
  import opened Keepalive
  import opened Dock
  import opened Replica

  datatype ServerMode = DockMode | DirectMode

  /** What the handler hands to the USB device. */
  datatype UsbOp =
    | WriteOut(data: seq<uint8>)
    | SetFeature(data: seq<uint8>)
    | ReadFeature(reportId: uint8, length: nat)

  datatype UsbInfo = UsbInfo(vendorId: uint16, productId: uint16, serial: Serial)

  type Mac = s: seq<uint8> | |s| == 6 witness seq(6, _ => 0)
  type Ipv4 = s: seq<uint8> | |s| == 4 witness seq(4, _ => 0)

  datatype HandlerConfig = HandlerConfig(
    mode: ServerMode,
    serialNumber: seq<uint8>,
    firmwareVersion: seq<uint8>,
    macAddress: Mac,
    primaryPort: uint16,
    localIp: Option<Ipv4>,
    usb: Option<UsbInfo>
  )

  /** What the outside contributes to one frame: the dock at that moment, and what the device would report. */
  datatype Surroundings = Surroundings(dock: Dock, featureReport: Option<seq<uint8>>)

  const VENDOR_ID_DOCK: uint16 := 0x0fd9
  const PRODUCT_ID_NETWORK_DOCK: uint16 := 0xffff
  const RESPONSE_SIZE: nat := 1024

  datatype Outcome = Outcome(polled: bool, reply: Option<CoraFrame>, pushes: seq<CoraFrame>, usb: seq<UsbOp>)

  function ResponseFlags(f: CoraFrame): uint16 {
    if HasFlag(f.header.flags, VERBATIM) then VERBATIM + RESULT else RESULT
  }

  predicate WantsAck(f: CoraFrame) {
    HasFlag(f.header.flags, REQ_ACK) || f.header.messageId != 0
  }

  function ReplyTo(f: CoraFrame, flags: uint16, payload: seq<uint8>): CoraFrame {
    CoraFrame(NewHeader(flags, f.header.hidOp, f.header.messageId, |payload|), payload)
  }

  /** The acknowledgement of a write: the first payload byte, or a default. */
  function WriteAck(f: CoraFrame, default: uint8): Option<CoraFrame> {
    if WantsAck(f) then
      Some(ReplyTo(f, ResponseFlags(f), if f.payload != [] then f.payload[..1] else [default]))
    else None
  }

  function RequestedSlot(payload: seq<uint8>): uint8 {
    if |payload| >= 3 then payload[2] else 0
  }

  function FeatureBody(body: seq<uint8>, opcode: uint8, report: Option<seq<uint8>>): (r: seq<uint8>)
    requires |body| == RESPONSE_SIZE
    ensures |r| == RESPONSE_SIZE
  {
    match report
    case None => body
    case Some(data) =>
      if |data| >= 2 && data[0] == 0x03 && data[1] == opcode then Splice(body, 0, FirstBytes(data, 1024))
      else if data != [] && data[0] == opcode then Splice(body, 1, FirstBytes(data, 1023))
      else if data != [] then Splice(body, 2, FirstBytes(data, 1022))
      else body
  }

  /** The 1024-byte answer buffer; a fixed prefix of it is sent. */
  function ReplyBody(cfg: HandlerConfig, around: Surroundings, cmd: PrimaryFeatureCommand,
                     payload: seq<uint8>): (b: seq<uint8>)
    ensures |b| == RESPONSE_SIZE
  {
    var body := [0x03, cmd.AsByte()] + Zeros(RESPONSE_SIZE - 2);
    match cmd
    case GetDeviceInfo =>
      var (vid, pid) := if cfg.mode.DirectMode? && cfg.usb.Some?
                        then (cfg.usb.value.vendorId, cfg.usb.value.productId)
                        else (VENDOR_ID_DOCK, PRODUCT_ID_NETWORK_DOCK);
      Splice(body, 12, LeBytes16(vid) + LeBytes16(pid))
    case GetFirmwareVersion => Splice(body, 8, FirstBytes(cfg.firmwareVersion, 8))
    case GetSerialNumber =>
      var serial := if cfg.mode.DirectMode? && cfg.usb.Some? then cfg.usb.value.serial else cfg.serialNumber;
      Splice(body, 3, [|FirstBytes(serial, 32)|] + FirstBytes(serial, 32))
    case GetMacAddress => Splice(body, 4, cfg.macAddress)
    case GetChildDeviceInfo =>
      var slot := RequestedSlot(payload);
      Splice(body, 0, Payload(ChildDeviceAt(around.dock, slot), false, slot))
    case Other(opcode) =>
      if opcode == 0x87 then
        var online := Splice(body, 2, [0x01, 0x01]);
        var addressed := match cfg.localIp
                         case Some(ip) => Splice(online, 4, ip + [255, 255, 255, 0] + ip)
                         case None => online;
        Splice(addressed, 16, LeBytes16(cfg.primaryPort))
      else if AsksDevice(cfg, cmd) then FeatureBody(body, opcode, around.featureReport)
      else body
  }

  /** In direct mode, queries the server does not answer itself go to the device. */
  predicate AsksDevice(cfg: HandlerConfig, cmd: PrimaryFeatureCommand) {
    cfg.mode.DirectMode? && cfg.usb.Some? && cmd.Other? && cmd.opcode !in {0x87, 0x8f, 0x1a}
  }

  function ReplyLen(cmd: PrimaryFeatureCommand, payload: seq<uint8>): (n: nat)
    ensures n == 128 || n == RESPONSE_SIZE
  {
    if cmd.GetChildDeviceInfo? then 128 else if |payload| >= 1024 then 1024 else 128
  }

  function QueryReply(cfg: HandlerConfig, around: Surroundings, f: CoraFrame, cmd: PrimaryFeatureCommand): CoraFrame {
    ReplyTo(f, RESULT, ReplyBody(cfg, around, cmd, f.payload)[..ReplyLen(cmd, f.payload)])
  }

  predicate IsDirectWrite(cfg: HandlerConfig, f: CoraFrame) {
    cfg.mode.DirectMode? && f.header.hidOp.Write? && f.payload != [] && f.payload[0] != 0x03 && f.payload[0] != 0x01
  }

  predicate IsDirectSend(cfg: HandlerConfig, f: CoraFrame) {
    cfg.mode.DirectMode? && f.header.hidOp.SendReport?
  }

  /** What the handler does with one frame; `polled` is whether an idle poll has been answered before. */
  function Respond(cfg: HandlerConfig, polled: bool, around: Surroundings, f: CoraFrame): Outcome {
    if IsKeepaliveProbe(f).Some? then
      Outcome(polled, Some(AckFrame(IsKeepaliveProbe(f).value, f.header.messageId)), [], [])
    else if IsDirectWrite(cfg, f) then
      Outcome(polled, WriteAck(f, 0x02), [], if cfg.usb.Some? then [WriteOut(f.payload)] else [])
    else if IsDirectSend(cfg, f) then
      Outcome(polled, WriteAck(f, 0x03), [], if cfg.usb.Some? then [SetFeature(f.payload)] else [])
    else
      match ParsePrimaryQuery(f.payload)
      case None => Outcome(polled, None, [], [])
      case Some(cmd) =>
        var reply := Some(QueryReply(cfg, around, f, cmd));
        if cmd == Other(0x1a) && cfg.mode.DockMode? && !polled then
          Outcome(true, reply, PushesOf(AllActiveChildren(around.dock)), [])
        else
          Outcome(polled, reply, [], if AsksDevice(cfg, cmd) then [ReadFeature(cmd.opcode, 1024)] else [])
  }

  datatype Session = Session(polled: bool, replies: seq<CoraFrame>, pushes: seq<CoraFrame>, usb: seq<UsbOp>)

  /** Nothing has been handled yet. */
  const NEW_SESSION: Session := Session(false, [], [], [])

  function AddOutcome(s: Session, o: Outcome): Session {
    Session(o.polled, s.replies + (if o.reply.Some? then [o.reply.value] else []), s.pushes + o.pushes, s.usb + o.usb)
  }

  /** A session: the frames in order, each with the surroundings it met. */
  function RespondAll(cfg: HandlerConfig, s: Session, around: seq<Surroundings>, frames: seq<CoraFrame>): Session
    requires |around| == |frames|
    decreases |frames|
  {
    if frames == [] then s
    else RespondAll(cfg, AddOutcome(s, Respond(cfg, s.polled, around[0], frames[0])), around[1..], frames[1..])
  }

  // ----- Correlation in Dock mode -----

  /** The frames that ask something: all but those with an empty payload. */
  function Asking(frames: seq<CoraFrame>): seq<CoraFrame> {
    if frames == [] then []
    else (if frames[0].payload != [] then [frames[0]] else []) + Asking(frames[1..])
  }

  /** Replies start with byte 0x03; pushes and probes with 0x01. */
  predicate IsReply(f: CoraFrame) {
    f.payload != [] && f.payload[0] == 0x03
  }

  function OnlyReplies(frames: seq<CoraFrame>): seq<CoraFrame> {
    if frames == [] then []
    else (if IsReply(frames[0]) then [frames[0]] else []) + OnlyReplies(frames[1..])
  }

  /** What a client can check about a reply without knowing the dock. */
  predicate Answers(reply: CoraFrame, request: CoraFrame) {
    && reply.WellFormed()
    && reply.header.messageId == request.header.messageId
    && reply.header.reserved == 0
    && |reply.payload| >= 2
    && IsReply(reply)
    && (if IsKeepaliveProbe(request).Some? then
          reply.header.flags == ACK_NAK && IsKeepaliveAck(reply) == IsKeepaliveProbe(request)
        else
          && reply.header.flags == RESULT
          && reply.header.hidOp == request.header.hidOp
          && ParsePrimaryQuery(reply.payload) == ParsePrimaryQuery(request.payload))
  }

  lemma BodyNamesItsCommand(cfg: HandlerConfig, around: Surroundings, cmd: PrimaryFeatureCommand, payload: seq<uint8>)
    requires cfg.mode.DockMode?
    ensures var b := ReplyBody(cfg, around, cmd, payload); b[0] == 0x03 && b[1] == cmd.AsByte()
  {
    hide PayloadByte;
    if cmd.GetChildDeviceInfo? {
      QueryPrefix(ChildDeviceAt(around.dock, RequestedSlot(payload)), RequestedSlot(payload));
    }
  }

  lemma QueryPrefix(c: ChildDeviceInfo, slot: uint8)
    ensures Payload(c, false, slot)[0] == 0x03 && Payload(c, false, slot)[1] == 0x1c
  {
  }

  lemma CommandRoundTrip(value: uint8)
    ensures CommandFromByte(CommandFromByte(value).AsByte()) == CommandFromByte(value)
  {
  }

  /** In Dock mode a frame is answered exactly when its payload is not empty. */
  lemma {:induction false} OneAnswerPerRequest(cfg: HandlerConfig, polled: bool, around: Surroundings, f: CoraFrame)
    requires cfg.mode.DockMode?
    ensures var o := Respond(cfg, polled, around, f);
      && (o.reply.Some? <==> f.payload != [])
      && (o.reply.Some? ==> Answers(o.reply.value, f))
      && o.usb == []
  {
    hide ReplyBody, PushesOf, AllActiveChildren, Zeros;
    if IsKeepaliveProbe(f).None? && f.payload != [] {
      var cmd := ParsePrimaryQuery(f.payload).value;
      BodyNamesItsCommand(cfg, around, cmd, f.payload);
      CommandRoundTrip(f.payload[0]);
      if |f.payload| >= 2 {
        CommandRoundTrip(f.payload[1]);
      }
    }
  }

  /** Replies and requests pair up one to one, in order. */
  predicate Correlated(replies: seq<CoraFrame>, requests: seq<CoraFrame>) {
    |replies| == |requests| && forall i :: 0 <= i < |replies| ==> Answers(replies[i], requests[i])
  }

  lemma {:induction false} SessionIsCorrelated(cfg: HandlerConfig, s: Session, around: seq<Surroundings>,
                                               frames: seq<CoraFrame>)
    requires cfg.mode.DockMode? && |around| == |frames|
    ensures var e := RespondAll(cfg, s, around, frames);
      && s.replies <= e.replies
      && Correlated(e.replies[|s.replies|..], Asking(frames))
      && e.usb == s.usb
    decreases |frames|
  {
    hide Respond, Correlated;
    if frames == [] {
      assert s.replies[|s.replies|..] == [];
      NothingToCorrelate();
    } else {
      var o := Respond(cfg, s.polled, around[0], frames[0]);
      var next := AddOutcome(s, o);
      OneAnswerPerRequest(cfg, s.polled, around[0], frames[0]);
      SessionIsCorrelated(cfg, next, around[1..], frames[1..]);
      var later := RespondAll(cfg, next, around[1..], frames[1..]).replies;
      if o.reply.Some? {
        assert later[|s.replies|..] == [o.reply.value] + later[|next.replies|..];
        OneMoreAnswer(o.reply.value, later[|next.replies|..], frames[0], Asking(frames[1..]));
      } else {
        assert [] + Asking(frames[1..]) == Asking(frames[1..]);
      }
    }
  }

  lemma NothingToCorrelate()
    ensures Correlated([], [])
  {
  }

  lemma OneMoreAnswer(reply: CoraFrame, replies: seq<CoraFrame>, request: CoraFrame, requests: seq<CoraFrame>)
    requires Answers(reply, request) && Correlated(replies, requests)
    ensures Correlated([reply] + replies, [request] + requests)
  {
    hide Answers;
  }

  /** In either mode a child query reads back as the table's entry for the slot it names, as every replica has it. */
  lemma {:induction false} ChildQueryTellsTheTable(cfg: HandlerConfig, polled: bool, around: Surroundings, f: CoraFrame)
    requires IsKeepaliveProbe(f).None? && !IsDirectWrite(cfg, f) && !IsDirectSend(cfg, f)
    requires ParsePrimaryQuery(f.payload) == Some(GetChildDeviceInfo) && TableFits(around.dock)
    ensures var reply := Respond(cfg, polled, around, f).reply;
            var slot, table := RequestedSlot(f.payload), ClientTable(around.dock);
      && reply.Some?
      && Parse(reply.value.payload) == Success(if slot in table then Some(table[slot]) else None)
  {
    hide Parse, Payload, ClientTable, TableFits, ChildDeviceAt;
    var slot := RequestedSlot(f.payload);
    QueryAgrees(around.dock, [], slot);
    assert ReplyBody(cfg, around, GetChildDeviceInfo, f.payload)[..128]
        == Payload(ChildDeviceAt(around.dock, slot), false, slot);
  }

  /**
   Request and reply, end to end.  However the client's stream of requests is
   cut on its way up, and the stream of replies on its way down, whatever else
   shares that stream, and whatever the dock does meanwhile: the client decodes
   one reply per question, in order, each with the id of its question.
   */
  lemma {:induction false} RequestReplyEndToEnd(cfg: HandlerConfig, requests: seq<CoraFrame>,
                                                around: seq<Surroundings>, up: seq<seq<uint8>>, sent: seq<CoraFrame>,
                                                down: seq<seq<uint8>>)
    requires cfg.mode.DockMode?
    requires AllWellFormed(requests) && |around| == |requests| && Flatten(up) == EncodeAll(requests)
    requires OnlyReplies(sent) == RespondAll(cfg, NEW_SESSION, around, requests).replies
    requires AllWellFormed(sent) && Flatten(down) == EncodeAll(sent)
    ensures Run([], up).frames == requests
    ensures Correlated(OnlyReplies(Run([], down).frames), Asking(requests))
  {
    hide Run, EncodeAll, RespondAll, Answers;
    WholeStreamIsDelivered(requests, up);
    WholeStreamIsDelivered(sent, down);
    var start := NEW_SESSION;
    SessionIsCorrelated(cfg, start, around, requests);
    var replies := RespondAll(cfg, start, around, requests).replies;
    assert replies[0..] == replies;
  }

  /** The three kinds of frame on the way down are told apart by their first bytes. */
  lemma {:induction false} TrafficIsSeparable(reply: CoraFrame, request: CoraFrame, c: ChildDeviceInfo,
                                              connectionId: uint8, messageId: uint32)
    requires Answers(reply, request)
    ensures IsReply(reply) && !IsPush(reply)
    ensures IsPush(PushOf(c)) && !IsReply(PushOf(c)) && PushOf(c).WellFormed()
    ensures !IsPush(ProbeFrame(connectionId, messageId)) && !IsReply(ProbeFrame(connectionId, messageId))
  {
    hide PayloadByte;
    ReplayOfPush(map[], c);
  }

  // ----- The initial pushes -----

  predicate IsIdlePoll(f: CoraFrame) {
    IsKeepaliveProbe(f).None? && ParsePrimaryQuery(f.payload) == Some(Other(0x1a))
  }

  function FirstPoll(frames: seq<CoraFrame>): (i: nat)
    ensures i <= |frames|
    ensures forall j :: 0 <= j < i ==> !IsIdlePoll(frames[j])
    ensures i < |frames| ==> IsIdlePoll(frames[i])
  {
    if frames == [] || IsIdlePoll(frames[0]) then 0 else 1 + FirstPoll(frames[1..])
  }

  /** All the pushes a session spawns are those of one idle poll, the first, for the dock as it was then. */
  lemma {:induction false} PushesAreSpawnedOnce(cfg: HandlerConfig, s: Session, around: seq<Surroundings>,
                                                frames: seq<CoraFrame>)
    requires cfg.mode.DockMode? && |around| == |frames|
    ensures var e := RespondAll(cfg, s, around, frames); var i := FirstPoll(frames);
      e.pushes == s.pushes
        + if s.polled || i == |frames| then [] else PushesOf(AllActiveChildren(around[i].dock))
    decreases |frames|
  {
    hide PushesOf, AllActiveChildren, QueryReply, IsKeepaliveProbe, AckFrame, WriteAck;
    if frames != [] {
      PushesAreSpawnedOnce(cfg, AddOutcome(s, Respond(cfg, s.polled, around[0], frames[0])), around[1..], frames[1..]);
    }
  }

  /** Those pushes, received in any order, complete whatever part of the table live events have given the client. */
  lemma {:induction false} FirstPollGivesTheTable(cfg: HandlerConfig, around: seq<Surroundings>,
                                                  frames: seq<CoraFrame>, part: ReplicaTable,
                                                  order: seq<ChildDeviceInfo>)
    requires cfg.mode.DockMode? && |around| == |frames| && FirstPoll(frames) < |frames|
    requires TableFits(around[FirstPoll(frames)].dock)
    requires PartOf(part, ClientTable(around[FirstPoll(frames)].dock))
    requires forall c :: c in order <==> c in AllActiveChildren(around[FirstPoll(frames)].dock)
    ensures RespondAll(cfg, NEW_SESSION, around, frames).pushes
         == PushesOf(AllActiveChildren(around[FirstPoll(frames)].dock))
    ensures ReplayAll(part, PushesOf(order)) == ClientTable(around[FirstPoll(frames)].dock)
  {
    hide RespondAll, ReplayAll, PushesOf, AllActiveChildren, TableFits, ClientTable;
    PushesAreSpawnedOnce(cfg, NEW_SESSION, around, frames);
    InitialPushesInAnyOrder(around[FirstPoll(frames)].dock, part, order);
  }

  /**
   The primary handler does not look for keepalive acknowledgements: one sent by
   the client is answered as an idle poll, and counts as one.
   */
  lemma {:induction false} AcknowledgementCountsAsPoll(cfg: HandlerConfig, polled: bool, around: Surroundings,
                                                       connectionId: uint8, messageId: uint32)
    requires cfg.mode.DockMode?
    ensures var ack := AckFrame(connectionId, messageId);
      && IsIdlePoll(ack)
      && Respond(cfg, polled, around, ack).polled
      && Respond(cfg, polled, around, ack).reply == Some(ReplyTo(ack, RESULT, [0x03, 0x1a] + Zeros(126)))
  {
    hide PushesOf, AllActiveChildren;
    var ack := AckFrame(connectionId, messageId);
    assert ParsePrimaryQuery(ack.payload) == Some(Other(0x1a));
    var body := ReplyBody(cfg, around, Other(0x1a), ack.payload);
    assert body[..128] == [0x03, 0x1a] + Zeros(126);
  }

  // ----- The handler object -----

  /** `FrameHandler`: queued replies in `tx`, pushes handed to tasks of their own in `spawned`. */
  class FrameHandler {
    const config: HandlerConfig
    const state: DockState
    var hasSentInitialHotplug: bool
    var tx: seq<seq<uint8>>
    var spawned: seq<CoraFrame>
    var usbOps: seq<UsbOp>

    constructor (config: HandlerConfig, state: DockState)
      ensures this.config == config && this.state == state
      ensures !hasSentInitialHotplug && tx == [] && spawned == [] && usbOps == []
    {
      this.config := config;
      this.state := state;
      hasSentInitialHotplug := false;
      tx, spawned, usbOps := [], [], [];
    }

    method Send(f: CoraFrame)
      modifies this`tx
      ensures tx == old(tx) + [FrameBytes(f)]
    {
      var msg := ToVec(f);
      tx := tx + [msg];
    }

    method SendWriteAck(f: CoraFrame, default: uint8)
      modifies this`tx
      ensures tx == old(tx) + QueuedBytes(WriteAck(f, default))
    {
      hide FrameBytes;
      if HasFlag(f.header.flags, REQ_ACK) || f.header.messageId != 0 {
        var flags := ResponseFlags(f);
        var ackPayload := if f.payload != [] then f.payload[..1] else [default];
        Send(CoraFrame(NewHeader(flags, f.header.hidOp, f.header.messageId, |ackPayload|), ackPayload));
      }
    }

    /** Handles one frame; `featureReport` is what the device would answer to a feature query. */
    method HandleFrame(f: CoraFrame, featureReport: Option<seq<uint8>>)
      requires state.Valid()
      modifies this
      ensures var o := Respond(config, old(hasSentInitialHotplug), Surroundings(state.State(), featureReport), f);
        && hasSentInitialHotplug == o.polled
        && tx == old(tx) + QueuedBytes(o.reply)
        && spawned == old(spawned) + o.pushes
        && usbOps == old(usbOps) + o.usb
    {
      hide FrameBytes, PushesOf, AllActiveChildren, ReplyBody, AckPayload;
      if IsKeepaliveProbe(f).Some? {
        var payload := new uint8[KEEPALIVE_ACK_LEN];
        BuildAckPayload(IsKeepaliveProbe(f).value, payload);
        Send(CoraFrame(NewHeader(ACK_NAK, Write, f.header.messageId, KEEPALIVE_ACK_LEN), payload[..]));
        return;
      }
      if config.mode.DirectMode? {
        if f.header.hidOp.Write? && f.payload != [] && f.payload[0] != 0x03 && f.payload[0] != 0x01 {
          if config.usb.Some? {
            usbOps := usbOps + [WriteOut(f.payload)];
          }
          SendWriteAck(f, 0x02);
          return;
        }
        if f.header.hidOp.SendReport? {
          if config.usb.Some? {
            usbOps := usbOps + [SetFeature(f.payload)];
          }
          SendWriteAck(f, 0x03);
          return;
        }
      }
      var query := ParsePrimaryQuery(f.payload);
      if query.Some? {
        AnswerQuery(f, query.value, featureReport);
        if AsksDevice(config, query.value) {
          usbOps := usbOps + [ReadFeature(query.value.opcode, 1024)];
        }
      }
    }

    method AnswerQuery(f: CoraFrame, cmd: PrimaryFeatureCommand, featureReport: Option<seq<uint8>>)
      requires state.Valid()
      modifies this`tx, this`spawned, this`hasSentInitialHotplug
      ensures var around := Surroundings(state.State(), featureReport);
        && tx == old(tx) + [FrameBytes(QueryReply(config, around, f, cmd))]
        && (if cmd == Other(0x1a) && config.mode.DockMode? && !old(hasSentInitialHotplug) then
              hasSentInitialHotplug && spawned == old(spawned) + PushesOf(AllActiveChildren(around.dock))
            else
              hasSentInitialHotplug == old(hasSentInitialHotplug) && spawned == old(spawned))
    {
      hide FrameBytes, PushesOf, AllActiveChildren, ReplyBody;
      var respPayload := new uint8[RESPONSE_SIZE];
      var customLen := FillReply(f, cmd, featureReport, respPayload);
      if cmd == Other(0x1a) && config.mode.DockMode? && !hasSentInitialHotplug {
        hasSentInitialHotplug := true;
        SpawnPushes();
      }
      var respLen := if customLen.Some? then customLen.value else if |f.payload| >= 1024 then 1024 else 128;
      Send(CoraFrame(NewHeader(RESULT, f.header.hidOp, f.header.messageId, respLen), respPayload[..respLen]));
    }

    method SpawnPushes()
      requires state.Valid()
      modifies this`spawned
      ensures spawned == old(spawned) + PushesOf(AllActiveChildren(state.State()))
    {
      hide PayloadByte;
      var children := AllActiveChildren(Dock(state.secondaryPort, state.slots[..], state.stickyMap, state.hotplug));
      var i := 0;
      while i < |children|
        invariant i <= |children|
        invariant spawned == old(spawned) + PushesOf(children)[..i]
      {
        var p := new uint8[REPORT_SIZE];
        BuildPayload(children[i], true, children[i].slotIndex, p);
        spawned := spawned + [PushFrame(p[..])];
        i := i + 1;
      }
    }

    /** Fills the answer buffer; only the child query fixes the length of its answer. */
    method FillReply(f: CoraFrame, cmd: PrimaryFeatureCommand, featureReport: Option<seq<uint8>>, out: array<uint8>)
      returns (customLen: Option<nat>)
      requires state.Valid() && out.Length == RESPONSE_SIZE
      modifies out
      ensures out[..] == ReplyBody(config, Surroundings(state.State(), featureReport), cmd, f.payload)
      ensures customLen == if cmd.GetChildDeviceInfo? then Some(128) else None
    {
      hide PayloadByte, FirstBytes, LeBytes16, ChildDeviceAt;
      customLen := None;
      ClearFirst(out, out.Length);
      out[0] := 0x03;
      out[1] := cmd.AsByte();
      assert out[..] == [0x03, cmd.AsByte()] + Zeros(RESPONSE_SIZE - 2);
      match cmd
      case GetDeviceInfo =>
        var vid, pid := VENDOR_ID_DOCK, PRODUCT_ID_NETWORK_DOCK;
        if config.mode.DirectMode? && config.usb.Some? {
          vid, pid := config.usb.value.vendorId, config.usb.value.productId;
        }
        Overwrite(out, 12, LeBytes16(vid) + LeBytes16(pid));
      case GetFirmwareVersion => Overwrite(out, 8, FirstBytes(config.firmwareVersion, 8));
      case GetSerialNumber =>
        var serial := config.serialNumber;
        if config.mode.DirectMode? && config.usb.Some? {
          serial := config.usb.value.serial;
        }
        var kept := FirstBytes(serial, 32);
        Overwrite(out, 3, [|kept|] + kept);
      case GetMacAddress => Overwrite(out, 4, config.macAddress);
      case GetChildDeviceInfo =>
        var requestedSlot := RequestedSlot(f.payload);
        var child := state.ChildAt(requestedSlot);
        var p := new uint8[REPORT_SIZE];
        BuildPayload(child, false, requestedSlot, p);
        Overwrite(out, 0, p[..]);
        customLen := Some(128);
      case Other(opcode) =>
        if opcode == 0x87 {
          Overwrite(out, 2, [0x01, 0x01]);
          if config.localIp.Some? {
            Overwrite(out, 4, config.localIp.value + [255, 255, 255, 0] + config.localIp.value);
          }
          Overwrite(out, 16, LeBytes16(config.primaryPort));
        } else if AsksDevice(config, cmd) {
          match featureReport {
            case None =>
            case Some(data) =>
              if |data| >= 2 && data[0] == 0x03 && data[1] == opcode {
                Overwrite(out, 0, FirstBytes(data, 1024));
              } else if data != [] && data[0] == opcode {
                Overwrite(out, 1, FirstBytes(data, 1023));
              } else if data != [] {
                Overwrite(out, 2, FirstBytes(data, 1022));
              }
          }
        }
    }
  }

  function QueuedBytes(reply: Option<CoraFrame>): seq<seq<uint8>> {
    match reply
    case Some(r) => [FrameBytes(r)]
    case None => []
  }

  function EncodedFrames(frames: seq<CoraFrame>): (r: seq<seq<uint8>>)
    ensures |r| == |frames| && forall i :: 0 <= i < |frames| ==> r[i] == FrameBytes(frames[i])
  {
    seq(|frames|, i requires 0 <= i < |frames| => FrameBytes(frames[i]))
  }

  lemma NoFramesEncoded()
    ensures EncodedFrames([]) == []
  {
  }

  lemma EncodedFramesAppend(xs: seq<CoraFrame>, ys: seq<CoraFrame>)
    ensures EncodedFrames(xs + ys) == EncodedFrames(xs) + EncodedFrames(ys)
  {
    hide FrameBytes;
  }

  lemma EncodedOneMore(replies: seq<CoraFrame>, reply: Option<CoraFrame>)
    ensures EncodedFrames(replies + if reply.Some? then [reply.value] else [])
         == EncodedFrames(replies) + QueuedBytes(reply)
  {
    hide FrameBytes;
  }

  method Overwrite(out: array<uint8>, at: nat, bs: seq<uint8>)
    requires at + |bs| <= out.Length
    modifies out
    ensures out[..] == Splice(old(out[..]), at, bs)
  {
    CopyInto(out, at, bs);
  }
}
