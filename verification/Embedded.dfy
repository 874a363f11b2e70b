/** The embedded hub and bridge, and how their answers compare with the server's. */
module Embedded {
  import opened Bytes
  import opened Wrappers
  import opened Cora
  import opened Stream
  import opened Resync
  import opened Receivers
  import opened Capacity
  import opened Reports
  import opened Keepalive
  import opened Dock
  import opened Replica
  import opened Primary
  import opened Secondary
  import opened Surface

  // ----- The bridge to a surface -----

  datatype SurfaceInfo = SurfaceInfo(
    vendorId: uint16,
    productId: uint16,
    modelName: seq<uint8>,
    serial: seq<uint8>,
    firmware: seq<uint8>
  )

  datatype SurfaceCall =
    | SetBrightness(percentage: uint8)
    | WriteImageChunk(keyIndex: uint8, isLast: bool, chunkIndex: uint16, data: seq<uint8>)

  datatype SurfaceOutcome = SurfaceOutcome(reply: Option<CoraFrame>, calls: seq<SurfaceCall>)

  /** Reads byte 0 of a feature query without looking at its length. */
  predicate HasQueryByte(f: CoraFrame) {
    f.header.hidOp.GetReport? ==> f.payload != []
  }

  function SurfaceAnswerLen(f: CoraFrame): (n: nat)
    requires f.payload != []
    ensures n <= RESPONSE_SIZE
  {
    var id := ReportId(f.payload);
    if id == 0x80 then 16 else if id == 0x1c then 128 else SizeFor(f, 32)
  }

  function SurfaceBody(info: SurfaceInfo, slot: uint8, port: uint16, f: CoraFrame): (b: seq<uint8>)
    requires f.payload != []
    ensures |b| == RESPONSE_SIZE
  {
    var id := ReportId(f.payload);
    var body := [id] + Zeros(RESPONSE_SIZE - 1);
    if id == 0x05 then
      var fw := FirstBytes(info.firmware, 30);
      Splice(Splice(body, 1, [|fw|]), 6, fw)
    else if id == 0x06 then
      var sn := FirstBytes(info.serial, 30);
      Splice(body, 1, [|sn|] + sn)
    else if id == 0x0b then Splice(body, 1, [0x02, 0x30, 0x01])
    else if id == 0x80 then Splice(body, 0, DeviceInfo(info.vendorId, info.productId))
    else if id == 0x1c then
      var child := Connected(slot, info.vendorId, info.productId, info.modelName, info.serial, port);
      Splice(body, 0, Payload(child, false, slot))
    else Splice(body, 0, [0x03, id])
  }

  function BrightnessCall(p: seq<uint8>): seq<SurfaceCall> {
    if |p| >= 3 && p[0] == 0x03 && p[1] == 0x08 then [SetBrightness(p[2])] else []
  }

  function ImageCall(p: seq<uint8>): seq<SurfaceCall> {
    if |p| >= 8 && p[0] == 0x02 && (p[1] == 0x07 || p[1] == 0x0c) then
      [WriteImageChunk(p[2], p[3] != 0, FromLe16(p[6], p[7]), p[8..])]
    else []
  }

  function SurfaceCalls(f: CoraFrame): seq<SurfaceCall> {
    if f.header.hidOp.SendReport? then BrightnessCall(f.payload) else ImageCall(f.payload)
  }

  function SurfaceRespond(info: SurfaceInfo, slot: uint8, port: uint16, f: CoraFrame): SurfaceOutcome
    requires HasQueryByte(f)
  {
    if IsKeepaliveProbe(f).Some? then
      SurfaceOutcome(Some(AckFrame(IsKeepaliveProbe(f).value, f.header.messageId)), [])
    else if IsKeepaliveAck(f).Some? then SurfaceOutcome(None, [])
    else if IsFeatureQuery(f) then
      var answer := SurfaceBody(info, slot, port, f)[..SurfaceAnswerLen(f)];
      SurfaceOutcome(Some(ReplyTo(f, ResponseFlags(f), answer)), [])
    else
      SurfaceOutcome(WriteAck(f, if f.header.hidOp.SendReport? then 0x03 else 0x02), SurfaceCalls(f))
  }

  datatype SurfaceSession = SurfaceSession(replies: seq<CoraFrame>, calls: seq<SurfaceCall>)

  predicate AllHaveQueryByte(frames: seq<CoraFrame>) {
    forall f :: f in frames ==> HasQueryByte(f)
  }

  function SurfaceRespondAll(info: SurfaceInfo, slot: uint8, port: uint16, frames: seq<CoraFrame>): SurfaceSession
    requires AllHaveQueryByte(frames)
  {
    if frames == [] then SurfaceSession([], [])
    else
      var o := SurfaceRespond(info, slot, port, frames[0]);
      var rest := SurfaceRespondAll(info, slot, port, frames[1..]);
      SurfaceSession((if o.reply.Some? then [o.reply.value] else []) + rest.replies, o.calls + rest.calls)
  }

  lemma {:induction false} SurfaceRespondAllAppend(info: SurfaceInfo, slot: uint8, port: uint16, xs: seq<CoraFrame>,
                                                   ys: seq<CoraFrame>)
    requires AllHaveQueryByte(xs) && AllHaveQueryByte(ys)
    ensures var x, y, all := SurfaceRespondAll(info, slot, port, xs), SurfaceRespondAll(info, slot, port, ys),
                             SurfaceRespondAll(info, slot, port, xs + ys);
      all.replies == x.replies + y.replies && all.calls == x.calls + y.calls
  {
    hide SurfaceRespond, HasQueryByte;
    if xs == [] {
      assert xs + ys == ys;
    } else {
      SurfaceRespondAllAppend(info, slot, port, xs[1..], ys);
      assert (xs + ys)[1..] == xs[1..] + ys && (xs + ys)[0] == xs[0];
      var o, x, y := SurfaceRespond(info, slot, port, xs[0]), SurfaceRespondAll(info, slot, port, xs[1..]),
                     SurfaceRespondAll(info, slot, port, ys);
      Assoc(if o.reply.Some? then [o.reply.value] else [], x.replies, y.replies);
      Assoc(o.calls, x.calls, y.calls);
    }
  }

  lemma SurfaceOneMore(info: SurfaceInfo, slot: uint8, port: uint16, frames: seq<CoraFrame>, i: nat)
    requires AllHaveQueryByte(frames) && i < |frames|
    ensures AllHaveQueryByte(frames[..i]) && AllHaveQueryByte(frames[..i + 1])
    ensures var o := SurfaceRespond(info, slot, port, frames[i]);
            var s, s' := SurfaceRespondAll(info, slot, port, frames[..i]),
                         SurfaceRespondAll(info, slot, port, frames[..i + 1]);
      && s'.calls == s.calls + o.calls
      && EncodedFrames(s'.replies) == EncodedFrames(s.replies) + QueuedBytes(o.reply)
  {
    hide SurfaceRespond, EncodedFrames, QueuedBytes, HasQueryByte;
    var f, o := frames[i], SurfaceRespond(info, slot, port, frames[i]);
    assert frames[..i + 1] == frames[..i] + [f];
    SurfaceRespondAllAppend(info, slot, port, frames[..i], [f]);
    assert [f][1..] == [];
    EncodedOneMore(SurfaceRespondAll(info, slot, port, frames[..i]).replies, o.reply);
  }

  // ----- Replies and events in one stream -----

  /** The frames that each read completes. */
  function Batches(chunks: seq<seq<uint8>>): (r: seq<seq<CoraFrame>>)
    ensures |r| == |chunks|
    ensures forall i :: 0 <= i < |r| ==> r[i] == Drain(Run([], chunks[..i]).residual + chunks[i]).frames
  {
    seq(|chunks|, i requires 0 <= i < |chunks| => Drain(Run([], chunks[..i]).residual + chunks[i]).frames)
  }

  predicate AllBatchesHaveQueryByte(batches: seq<seq<CoraFrame>>) {
    forall i :: 0 <= i < |batches| ==> AllHaveQueryByte(batches[i])
  }

  function EventFrames(event: Option<SurfaceEvent>): seq<CoraFrame> {
    match event
    case Some(e) => [EventFrame(e)]
    case None => []
  }

  /** What the client is sent: the replies of each read, and behind them the event polled then. */
  function SurfaceStream(info: SurfaceInfo, slot: uint8, port: uint16,
                         batches: seq<seq<CoraFrame>>, events: nat -> Option<SurfaceEvent>): seq<CoraFrame>
    requires AllBatchesHaveQueryByte(batches)
  {
    if batches == [] then []
    else
      var n := |batches| - 1;
      SurfaceStream(info, slot, port, batches[..n], events)
      + SurfaceRespondAll(info, slot, port, batches[n]).replies + EventFrames(events(n))
  }

  lemma StreamOneMore(info: SurfaceInfo, slot: uint8, port: uint16, batches: seq<seq<CoraFrame>>, batch: seq<CoraFrame>,
                      events: nat -> Option<SurfaceEvent>, sent: seq<seq<uint8>>)
    requires AllBatchesHaveQueryByte(batches) && AllHaveQueryByte(batch)
    ensures AllBatchesHaveQueryByte(batches + [batch])
    ensures sent + EncodedFrames(SurfaceStream(info, slot, port, batches + [batch], events))
         == sent + EncodedFrames(SurfaceStream(info, slot, port, batches, events))
            + EncodedFrames(SurfaceRespondAll(info, slot, port, batch).replies)
            + EncodedFrames(EventFrames(events(|batches|)))
  {
    hide SurfaceRespondAll, EventFrames, EncodedFrames, AllHaveQueryByte;
    var all := batches + [batch];
    assert all[..|batches|] == batches;
    var before := SurfaceStream(info, slot, port, batches, events);
    var replies := SurfaceRespondAll(info, slot, port, batch).replies;
    var pushed := EventFrames(events(|batches|));
    assert SurfaceStream(info, slot, port, all, events) == before + replies + pushed;
    EncodedFramesAppend(before + replies, pushed);
    EncodedFramesAppend(before, replies);
    Assoc(sent, EncodedFrames(before) + EncodedFrames(replies), EncodedFrames(pushed));
    Assoc(sent, EncodedFrames(before), EncodedFrames(replies));
  }

  lemma NothingConversed(info: SurfaceInfo, slot: uint8, port: uint16, events: nat -> Option<SurfaceEvent>)
    ensures SurfaceRespondAll(info, slot, port, []) == SurfaceSession([], [])
    ensures SurfaceStream(info, slot, port, [], events) == []
  {
  }

  lemma QueryBytesOfParts(xs: seq<CoraFrame>, ys: seq<CoraFrame>)
    requires AllHaveQueryByte(xs + ys)
    ensures AllHaveQueryByte(xs) && AllHaveQueryByte(ys)
  {
    hide HasQueryByte;
    assert forall f :: f in xs || f in ys ==> f in xs + ys;
  }

  /** What one read has brought is part of what they all bring. */
  lemma QueryBytesSoFar(chunks: seq<seq<uint8>>, i: nat, frames: seq<CoraFrame>)
    requires i < |chunks| && AllHaveQueryByte(Run([], chunks).frames)
    requires Run([], chunks[..i + 1]).frames == Run([], chunks[..i]).frames + frames
    ensures AllHaveQueryByte(Run([], chunks[..i + 1]).frames) && AllHaveQueryByte(frames)
  {
    hide Run, AllHaveQueryByte;
    var after := Run([], chunks[..i + 1]);
    RunAppend([], chunks[..i + 1], chunks[i + 1..]);
    assert chunks[..i + 1] + chunks[i + 1..] == chunks;
    QueryBytesOfParts(after.frames, Run(after.residual, chunks[i + 1..]).frames);
    QueryBytesOfParts(Run([], chunks[..i]).frames, frames);
  }

  /** The child query is answered with a report that reads back as this very surface. */
  lemma {:induction false} SurfaceDescribesItself(info: SurfaceInfo, slot: uint8, port: uint16, f: CoraFrame)
    requires IsKeepaliveProbe(f).None? && IsKeepaliveAck(f).None?
    requires IsFeatureQuery(f) && f.payload != [] && ReportId(f.payload) == 0x1c
    ensures var reply := SurfaceRespond(info, slot, port, f).reply;
            var self := Connected(slot, info.vendorId, info.productId, info.modelName, info.serial, port);
      reply.Some? && Parse(reply.value.payload) == Success(Some(ClientView(self)))
  {
    var self := Connected(slot, info.vendorId, info.productId, info.modelName, info.serial, port);
    ParseAfterBuild(self, false, slot);
    hide Parse, Payload, ClientView;
    assert SurfaceBody(info, slot, port, f)[..128] == Payload(self, false, slot);
  }

  class EmbeddedDeckBridge {
    const info: SurfaceInfo
    const slotIndex: uint8
    const port: uint16
    var sent: seq<seq<uint8>>
    var calls: seq<SurfaceCall>

    constructor (info: SurfaceInfo, slotIndex: uint8, port: uint16)
      ensures this.info == info && this.slotIndex == slotIndex && this.port == port && sent == [] && calls == []
    {
      this.info, this.slotIndex, this.port := info, slotIndex, port;
      sent, calls := [], [];
    }

    method WriteAll(f: CoraFrame)
      modifies this`sent
      ensures sent == old(sent) + [FrameBytes(f)]
    {
      var msg := ToVec(f);
      sent := sent + [msg];
    }

    method HandleIncomingFrame(f: CoraFrame)
      requires HasQueryByte(f)
      modifies this
      ensures var o := SurfaceRespond(info, slotIndex, port, f);
        && sent == old(sent) + QueuedBytes(o.reply)
        && calls == old(calls) + o.calls
    {
      hide FrameBytes, AckPayload, SurfaceBody;
      var p := f.payload;
      if IsKeepaliveProbe(f).Some? {
        var payload := new uint8[KEEPALIVE_ACK_LEN];
        BuildAckPayload(IsKeepaliveProbe(f).value, payload);
        WriteAll(CoraFrame(NewHeader(ACK_NAK, Write, f.header.messageId, KEEPALIVE_ACK_LEN), payload[..]));
      } else if IsKeepaliveAck(f).Some? {
      } else if IsFeatureQuery(f) {
        var respPayload := new uint8[RESPONSE_SIZE];
        var respLen := FillAnswer(f, respPayload);
        WriteAll(CoraFrame(NewHeader(ResponseFlags(f), f.header.hidOp, f.header.messageId, respLen),
                           respPayload[..respLen]));
      } else {
        var default: uint8 := 0x02;
        if f.header.hidOp.SendReport? {
          default := 0x03;
          if |p| >= 3 && p[0] == 0x03 && p[1] == 0x08 {
            calls := calls + [SetBrightness(p[2])];
          }
        } else if |p| >= 8 && p[0] == 0x02 && (p[1] == 0x07 || p[1] == 0x0c) {
          calls := calls + [WriteImageChunk(p[2], p[3] != 0, FromLe16(p[6], p[7]), p[8..])];
        }
        if HasFlag(f.header.flags, REQ_ACK) || f.header.messageId != 0 {
          var ackPayload := if p != [] then p[..1] else [default];
          WriteAll(CoraFrame(NewHeader(ResponseFlags(f), f.header.hidOp, f.header.messageId, |ackPayload|),
                             ackPayload));
        }
      }
    }

    /** The frames of one read. */
    method HandleAll(frames: seq<CoraFrame>)
      requires AllHaveQueryByte(frames)
      modifies this
      ensures var s := SurfaceRespondAll(info, slotIndex, port, frames);
        sent == old(sent) + EncodedFrames(s.replies) && calls == old(calls) + s.calls
    {
      hide SurfaceRespond, EncodedFrames, QueuedBytes, HasQueryByte;
      NoFramesEncoded();
      assert frames[..0] == [];
      for i := 0 to |frames|
        invariant AllHaveQueryByte(frames[..i])
        invariant var s := SurfaceRespondAll(info, slotIndex, port, frames[..i]);
          sent == old(sent) + EncodedFrames(s.replies) && calls == old(calls) + s.calls
      {
        hide SurfaceRespondAll;
        ghost var before := SurfaceRespondAll(info, slotIndex, port, frames[..i]);
        ghost var o := SurfaceRespond(info, slotIndex, port, frames[i]);
        HandleIncomingFrame(frames[i]);
        SurfaceOneMore(info, slotIndex, port, frames, i);
        Assoc(old(sent), EncodedFrames(before.replies), QueuedBytes(o.reply));
        Assoc(old(calls), before.calls, o.calls);
      }
      assert frames[..|frames|] == frames;
    }

    /**
     A whole connection: each read delivers into what room is left in the
     buffer, until one is empty; after each, the surface is asked for an event.
     */
    method HandleConnection(chunks: seq<seq<uint8>>, events: nat -> Option<SurfaceEvent>)
      returns (ghost batches: seq<seq<CoraFrame>>)
      requires Fits([], chunks) && AllHaveQueryByte(Run([], chunks).frames)
      modifies this
      ensures batches == Batches(chunks) && AllBatchesHaveQueryByte(batches)
      ensures sent == old(sent) + EncodedFrames(SurfaceStream(info, slotIndex, port, batches, events))
      ensures calls == old(calls) + SurfaceRespondAll(info, slotIndex, port, Run([], chunks).frames).calls
    {
      hide Run, Fits, Drain, SurfaceRespondAll, SurfaceStream, EncodedFrames, HasQueryByte;
      var rx := new FixedReceiver();
      NothingRead(chunks);
      NoFramesEncoded();
      NothingConversed(info, slotIndex, port, events);
      batches := [];
      for i := 0 to |chunks|
        invariant rx.Valid() && rx.Buffered() == Run([], chunks[..i]).residual
        invariant batches == Batches(chunks)[..i] && AllBatchesHaveQueryByte(batches)
        invariant AllHaveQueryByte(Run([], chunks[..i]).frames)
        invariant sent == old(sent) + EncodedFrames(SurfaceStream(info, slotIndex, port, batches, events))
        invariant calls == old(calls) + SurfaceRespondAll(info, slotIndex, port, Run([], chunks[..i]).frames).calls
      {
        NextReadFits(chunks, i);
        RunOneMore(chunks, i);
        var _, frames := rx.Receive(chunks[i]);
        QueryBytesSoFar(chunks, i, frames);
        HandleAll(frames);
        PollSurface(events(i));
        ghost var before := Run([], chunks[..i]).frames;
        ghost var s := SurfaceRespondAll(info, slotIndex, port, before);
        ghost var s1 := SurfaceRespondAll(info, slotIndex, port, frames);
        SurfaceRespondAllAppend(info, slotIndex, port, before, frames);
        Assoc(old(calls), s.calls, s1.calls);
        StreamOneMore(info, slotIndex, port, batches, frames, events, old(sent));
        batches := batches + [frames];
      }
      assert chunks[..|chunks|] == chunks;
    }

    /** Pushes the event that the surface has to report, if any. */
    method PollSurface(event: Option<SurfaceEvent>)
      modifies this`sent
      ensures sent == old(sent) + EncodedFrames(EventFrames(event))
    {
      hide EventReport, FrameBytes;
      if event.Some? {
        var report := new uint8[EVENT_REPORT_SIZE];
        var reportLen := EncodeSurfaceEvent(event.value, report);
        if reportLen > 0 {
          assert report[..reportLen] == report[..] == EventReport(event.value);
          assert EncodedFrames([EventFrame(event.value)]) == [FrameBytes(EventFrame(event.value))];
          WriteAll(CoraFrame(NewHeader(NONE, Write, 0, reportLen), report[..reportLen]));
        }
      } else {
        NoFramesEncoded();
      }
    }

    method FillAnswer(f: CoraFrame, out: array<uint8>) returns (respLen: nat)
      requires f.payload != [] && out.Length == RESPONSE_SIZE
      modifies out
      ensures out[..] == SurfaceBody(info, slotIndex, port, f)
      ensures respLen == SurfaceAnswerLen(f)
    {
      hide PayloadByte, FirstBytes, DeviceInfo;
      var id := ReportId(f.payload);
      respLen := SizeFor(f, 32);
      ClearFirst(out, out.Length);
      out[0] := id;
      assert out[..] == [id] + Zeros(RESPONSE_SIZE - 1);
      if id == 0x05 {
        var fw := FirstBytes(info.firmware, 30);
        Overwrite(out, 1, [|fw|]);
        Overwrite(out, 6, fw);
      } else if id == 0x06 {
        var sn := FirstBytes(info.serial, 30);
        Overwrite(out, 1, [|sn|] + sn);
      } else if id == 0x0b {
        Overwrite(out, 1, [0x02, 0x30, 0x01]);
      } else if id == 0x80 {
        Overwrite(out, 0, DeviceInfo(info.vendorId, info.productId));
        respLen := 16;
      } else if id == 0x1c {
        var child := Connected(slotIndex, info.vendorId, info.productId, info.modelName, info.serial, port);
        var buf128 := new uint8[REPORT_SIZE];
        BuildPayload(child, false, slotIndex, buf128);
        Overwrite(out, 0, buf128[..]);
        respLen := 128;
      } else {
        Overwrite(out, 0, [0x03, id]);
      }
    }
  }

  // ----- The hub -----

  datatype HubInfo = HubInfo(
    serial: seq<uint8>,
    firmware: seq<uint8>,
    macAddress: Mac,
    ipAddress: Ipv4,
    primaryPort: uint16
  )

  /** The server configuration that describes the same dock. */
  function AsServer(hub: HubInfo): HandlerConfig {
    HandlerConfig(DockMode, hub.serial, hub.firmware, hub.macAddress, hub.primaryPort, Some(hub.ipAddress), None)
  }

  function ChildInList(children: seq<ChildDeviceInfo>, slot: uint8): ChildDeviceInfo {
    if children == [] then Disconnected(slot)
    else if children[0].slotIndex == slot then children[0]
    else ChildInList(children[1..], slot)
  }

  /** The child query searches the list the hub was given; addresses are always known. */
  function HubBody(hub: HubInfo, children: seq<ChildDeviceInfo>, cmd: PrimaryFeatureCommand,
                   payload: seq<uint8>): (b: seq<uint8>)
    ensures |b| == RESPONSE_SIZE
  {
    var body := [0x03, cmd.AsByte()] + Zeros(RESPONSE_SIZE - 2);
    match cmd
    case GetDeviceInfo => Splice(body, 12, LeBytes16(VENDOR_ID_DOCK) + LeBytes16(PRODUCT_ID_NETWORK_DOCK))
    case GetFirmwareVersion => Splice(body, 8, FirstBytes(hub.firmware, 8))
    case GetSerialNumber => Splice(body, 3, [|FirstBytes(hub.serial, 32)|] + FirstBytes(hub.serial, 32))
    case GetMacAddress => Splice(body, 4, hub.macAddress)
    case GetChildDeviceInfo =>
      var slot := RequestedSlot(payload);
      Splice(body, 0, Payload(ChildInList(children, slot), false, slot))
    case Other(opcode) =>
      if opcode == 0x87 then
        var addresses := hub.ipAddress + [255, 255, 255, 0] + hub.ipAddress;
        Splice(Splice(Splice(body, 2, [0x01, 0x01]), 4, addresses), 16, LeBytes16(hub.primaryPort))
      else body
  }

  /** The hub sends whole 1024-byte answers, marked `GetReport` whatever the request was. */
  function HubRespond(hub: HubInfo, children: seq<ChildDeviceInfo>, f: CoraFrame): Option<CoraFrame> {
    if IsKeepaliveProbe(f).Some? then Some(AckFrame(IsKeepaliveProbe(f).value, f.header.messageId))
    else
      match ParsePrimaryQuery(f.payload)
      case None => None
      case Some(cmd) =>
        var len := if cmd.GetChildDeviceInfo? then 128 else RESPONSE_SIZE;
        Some(ResponseFrame(f.header.messageId, HubBody(hub, children, cmd, f.payload)[..len]))
  }

  function HubRespondAll(hub: HubInfo, children: seq<ChildDeviceInfo>, frames: seq<CoraFrame>): seq<CoraFrame> {
    if frames == [] then []
    else
      var reply := HubRespond(hub, children, frames[0]);
      (if reply.Some? then [reply.value] else []) + HubRespondAll(hub, children, frames[1..])
  }

  lemma {:induction false} HubRespondAllAppend(hub: HubInfo, children: seq<ChildDeviceInfo>, xs: seq<CoraFrame>,
                                               ys: seq<CoraFrame>)
    ensures HubRespondAll(hub, children, xs + ys) == HubRespondAll(hub, children, xs) + HubRespondAll(hub, children, ys)
  {
    hide HubRespond;
    if xs == [] {
      assert xs + ys == ys;
    } else {
      HubRespondAllAppend(hub, children, xs[1..], ys);
      assert (xs + ys)[1..] == xs[1..] + ys && (xs + ys)[0] == xs[0];
      var reply := HubRespond(hub, children, xs[0]);
      Assoc(if reply.Some? then [reply.value] else [],
            HubRespondAll(hub, children, xs[1..]), HubRespondAll(hub, children, ys));
    }
  }

  lemma HubOneMore(hub: HubInfo, children: seq<ChildDeviceInfo>, frames: seq<CoraFrame>, i: nat)
    requires i < |frames|
    ensures EncodedFrames(HubRespondAll(hub, children, frames[..i + 1]))
         == EncodedFrames(HubRespondAll(hub, children, frames[..i])) + QueuedBytes(HubRespond(hub, children, frames[i]))
  {
    hide HubRespond, EncodedFrames, QueuedBytes;
    var f := frames[i];
    assert frames[..i + 1] == frames[..i] + [f];
    HubRespondAllAppend(hub, children, frames[..i], [f]);
    assert [f][1..] == [];
    EncodedOneMore(HubRespondAll(hub, children, frames[..i]), HubRespond(hub, children, f));
  }

  lemma NothingAsked(hub: HubInfo, children: seq<ChildDeviceInfo>)
    ensures HubRespondAll(hub, children, []) == []
  {
  }

  lemma {:induction false} ListFindsSlot(slots: seq<Option<SlotEntry>>, base: nat, q: uint8)
    requires base + |slots| <= MAX_CHILD_SLOTS
    requires forall i :: 0 <= i < |slots| && slots[i].Some? ==> slots[i].value.childInfo.slotIndex == base + i
    ensures ChildInList(ActiveFrom(slots), q)
         == if base <= q < base + |slots| && slots[q - base].Some? then slots[q - base].value.childInfo
            else Disconnected(q)
    decreases |slots|
  {
    hide Disconnected;
    if slots != [] {
      var rest := slots[1..];
      assert forall i :: 0 <= i < |rest| ==> rest[i] == slots[i + 1];
      ListFindsSlot(rest, base + 1, q);
      if slots[0].Some? {
        assert ActiveFrom(slots)[1..] == ActiveFrom(rest);
      } else {
        assert ActiveFrom(slots) == ActiveFrom(rest);
      }
    }
  }

  lemma ListIsTable(d: Dock, q: uint8)
    requires TableFits(d)
    ensures ChildInList(AllActiveChildren(d), q) == ChildDeviceAt(d, q)
  {
    hide Disconnected, PadTo32, FirstBytes;
    forall i | 0 <= i < MAX_CHILD_SLOTS && d.slots[i].Some?
      ensures d.slots[i].value.childInfo.slotIndex == 0 + i
    {
      SlotIndexIsIndex(d, i);
    }
    ListFindsSlot(d.slots, 0, q);
  }

  lemma BodiesAgree(hub: HubInfo, around: Surroundings, cmd: PrimaryFeatureCommand, payload: seq<uint8>)
    requires TableFits(around.dock)
    ensures HubBody(hub, AllActiveChildren(around.dock), cmd, payload)
         == ReplyBody(AsServer(hub), around, cmd, payload)
  {
    hide Payload, ChildDeviceAt, Splice, FirstBytes, LeBytes16, Zeros;
    if cmd.GetChildDeviceInfo? {
      ListIsTable(around.dock, RequestedSlot(payload));
    }
  }

  /**
   A hub that holds the list of a table's active children answers every frame
   as a Dock-mode server with that table: the same questions, the same ids and
   flags, and the server's bytes at the front of the hub's longer answers.
   */
  lemma {:induction false} HubAnswersLikeTheServer(hub: HubInfo, polled: bool, around: Surroundings, f: CoraFrame)
    requires TableFits(around.dock)
    ensures var h, s := HubRespond(hub, AllActiveChildren(around.dock), f),
                        Respond(AsServer(hub), polled, around, f).reply;
      && (h.Some? <==> s.Some?)
      && (h.Some? ==>
            && h.value.header.messageId == s.value.header.messageId
            && h.value.header.flags == s.value.header.flags
            && s.value.payload <= h.value.payload)
      && (h.Some? && ParsePrimaryQuery(f.payload) == Some(GetChildDeviceInfo) ==> h.value.payload == s.value.payload)
  {
    hide HubBody, ReplyBody, AckPayload, AllActiveChildren, PushesOf, TableFits;
    if IsKeepaliveProbe(f).None? && f.payload != [] {
      BodiesAgree(hub, around, ParsePrimaryQuery(f.payload).value, f.payload);
    }
  }

  class EmbeddedDockHub {
    const info: HubInfo
    var sent: seq<seq<uint8>>

    constructor (info: HubInfo)
      ensures this.info == info && sent == []
    {
      this.info := info;
      sent := [];
    }

    /** `active_children.iter().find(..)`. */
    method FindChild(children: seq<ChildDeviceInfo>, slot: uint8) returns (c: ChildDeviceInfo)
      ensures c == ChildInList(children, slot)
    {
      var i := 0;
      while i < |children|
        invariant i <= |children|
        invariant ChildInList(children, slot) == ChildInList(children[i..], slot)
      {
        if children[i].slotIndex == slot {
          return children[i];
        }
        assert children[i..][1..] == children[i + 1..];
        i := i + 1;
      }
      return Disconnected(slot);
    }

    /** On connection: a probe, then one push for each active child, in order. */
    method Greet(children: seq<ChildDeviceInfo>)
      modifies this
      ensures sent == old(sent) + [FrameBytes(ProbeFrame(1, 1))] + EncodedPushes(children)
    {
      hide FrameBytes, PayloadByte, ProbePayload;
      var payload := new uint8[KEEPALIVE_PROBE_LEN];
      BuildProbePayload(1, payload);
      var probe := ToVec(CoraFrame(NewHeader(NONE, Write, 1, KEEPALIVE_PROBE_LEN), payload[..]));
      sent := sent + [probe];
      ghost var greeted := sent;
      var i := 0;
      while i < |children|
        invariant i <= |children| && sent == greeted + EncodedPushes(children)[..i]
      {
        var p := new uint8[REPORT_SIZE];
        BuildPayload(children[i], true, children[i].slotIndex, p);
        var push := ToVec(PushFrame(p[..]));
        sent := sent + [push];
        i := i + 1;
      }
    }

    method HandleFrame(f: CoraFrame, children: seq<ChildDeviceInfo>, txBuf: array<uint8>)
      requires txBuf.Length == 2048
      modifies this, txBuf
      ensures sent == old(sent) + QueuedBytes(HubRespond(info, children, f))
    {
      hide FrameBytes, AckPayload, HubBody;
      if IsKeepaliveProbe(f).Some? {
        var payload := new uint8[KEEPALIVE_ACK_LEN];
        BuildAckPayload(IsKeepaliveProbe(f).value, payload);
        var ack := ToVec(CoraFrame(NewHeader(ACK_NAK, Write, f.header.messageId, KEEPALIVE_ACK_LEN), payload[..]));
        sent := sent + [ack];
        return;
      }
      var query := ParsePrimaryQuery(f.payload);
      if query.Some? {
        var respPayload := new uint8[RESPONSE_SIZE];
        var respLen := FillBody(f, query.value, children, respPayload);
        var r := Encode(ResponseFrame(f.header.messageId, respPayload[..respLen]), txBuf);
        if r.Success? {
          sent := sent + [txBuf[..r.value]];
        }
      }
    }

    /** The frames of one read. */
    method HandleAll(frames: seq<CoraFrame>, children: seq<ChildDeviceInfo>, txBuf: array<uint8>)
      requires txBuf.Length == 2048
      modifies this, txBuf
      ensures sent == old(sent) + EncodedFrames(HubRespondAll(info, children, frames))
    {
      hide HubRespond, EncodedFrames, QueuedBytes;
      NoFramesEncoded();
      assert frames[..0] == [];
      for i := 0 to |frames|
        invariant sent == old(sent) + EncodedFrames(HubRespondAll(info, children, frames[..i]))
      {
        hide HubRespondAll;
        HandleFrame(frames[i], children, txBuf);
        HubOneMore(info, children, frames, i);
        Assoc(old(sent), EncodedFrames(HubRespondAll(info, children, frames[..i])),
              QueuedBytes(HubRespond(info, children, frames[i])));
      }
      assert frames[..|frames|] == frames;
    }

    /** A whole connection: the greeting, then reads until one is empty, each into what room is left in the buffer. */
    method HandleConnection(children: seq<ChildDeviceInfo>, chunks: seq<seq<uint8>>)
      requires Fits([], chunks)
      modifies this
      ensures sent == old(sent) + [FrameBytes(ProbeFrame(1, 1))] + EncodedPushes(children)
                    + EncodedFrames(HubRespondAll(info, children, Run([], chunks).frames))
    {
      hide Run, Fits, Drain, HubRespondAll, EncodedFrames, EncodedPushes, FrameBytes;
      Greet(children);
      ghost var greeted := sent;
      var rx := new FixedReceiver();
      var txBuffer := new uint8[2048];
      NothingRead(chunks);
      NoFramesEncoded();
      NothingAsked(info, children);
      for i := 0 to |chunks|
        invariant rx.Valid() && rx.Buffered() == Run([], chunks[..i]).residual
        invariant sent == greeted + EncodedFrames(HubRespondAll(info, children, Run([], chunks[..i]).frames))
      {
        NextReadFits(chunks, i);
        RunOneMore(chunks, i);
        var _, frames := rx.Receive(chunks[i]);
        HandleAll(frames, children, txBuffer);
        ghost var before := Run([], chunks[..i]).frames;
        ghost var r, r1 := HubRespondAll(info, children, before), HubRespondAll(info, children, frames);
        HubRespondAllAppend(info, children, before, frames);
        EncodedFramesAppend(r, r1);
        Assoc(greeted, EncodedFrames(r), EncodedFrames(r1));
      }
      assert chunks[..|chunks|] == chunks;
    }

    method FillBody(f: CoraFrame, cmd: PrimaryFeatureCommand, children: seq<ChildDeviceInfo>, out: array<uint8>)
      returns (respLen: nat)
      requires out.Length == RESPONSE_SIZE
      modifies out
      ensures out[..] == HubBody(info, children, cmd, f.payload)
      ensures respLen == if cmd.GetChildDeviceInfo? then 128 else RESPONSE_SIZE
    {
      hide PayloadByte, FirstBytes, LeBytes16, ChildInList;
      respLen := RESPONSE_SIZE;
      ClearFirst(out, out.Length);
      out[0] := 0x03;
      out[1] := cmd.AsByte();
      assert out[..] == [0x03, cmd.AsByte()] + Zeros(RESPONSE_SIZE - 2);
      match cmd
      case GetDeviceInfo => Overwrite(out, 12, LeBytes16(VENDOR_ID_DOCK) + LeBytes16(PRODUCT_ID_NETWORK_DOCK));
      case GetFirmwareVersion => Overwrite(out, 8, FirstBytes(info.firmware, 8));
      case GetSerialNumber =>
        var kept := FirstBytes(info.serial, 32);
        Overwrite(out, 3, [|kept|] + kept);
      case GetMacAddress => Overwrite(out, 4, info.macAddress);
      case GetChildDeviceInfo =>
        var requestedSlot := RequestedSlot(f.payload);
        var child := FindChild(children, requestedSlot);
        var p := new uint8[REPORT_SIZE];
        BuildPayload(child, false, requestedSlot, p);
        Overwrite(out, 0, p[..]);
        respLen := 128;
      case Other(opcode) =>
        if opcode == 0x87 {
          Overwrite(out, 2, [0x01, 0x01]);
          Overwrite(out, 4, info.ipAddress + [255, 255, 255, 0] + info.ipAddress);
          Overwrite(out, 16, LeBytes16(info.primaryPort));
        }
    }
  }

  function EncodedPushes(children: seq<ChildDeviceInfo>): (r: seq<seq<uint8>>)
    ensures |r| == |children| && forall i :: 0 <= i < |children| ==> r[i] == FrameBytes(PushOf(children[i]))
  {
    seq(|children|, i requires 0 <= i < |children| => FrameBytes(PushOf(children[i])))
  }
}
