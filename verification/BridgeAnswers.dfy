/** What the bridges answer, on the server and embedded, in terms of the bytes asked with and of the device. */
module BridgeAnswers {
  import opened Bytes
  import opened Wrappers
  import opened Cora
  import opened Reports
  import opened Layouts
  import opened Primary
  import opened PrimaryAnswers
  import opened Secondary
  import opened Embedded

  /** A `GetReport`, or a `Write` that starts with 0x03, but no keepalive. */
  predicate IsQueryFor(f: CoraFrame, id: uint8) {
    && f.payload != []
    && (f.header.hidOp.GetReport? || (f.header.hidOp.Write? && f.payload[0] == 0x03))
    && !(|f.payload| >= 6 && f.payload[0] == 0x01 && f.payload[1] == 0x0a)
    && !(|f.payload| >= 3 && f.payload[0] == 0x03 && f.payload[1] == 0x1a)
    && id == if f.payload[0] == 0x03 && |f.payload| >= 2 then f.payload[1] else f.payload[0]
  }

  /** RESULT, and VERBATIM if the request had it; op and id of the request. */
  predicate IsBridgeAnswer(reply: Option<CoraFrame>, f: CoraFrame) {
    && reply.Some? && reply.value.header.payloadLen == Truncate32(|reply.value.payload|)
    && reply.value.header.flags == (if f.header.flags >= 0x8000 then 0x8100 else 0x0100)
    && reply.value.header.hidOp == f.header.hidOp
    && reply.value.header.reserved == 0 && reply.value.header.messageId == f.header.messageId
  }

  // ----- The server's bridge -----

  /**
   What the device reports reaches the client whole, followed by zeros up to 1024
   bytes if the request was that long.
   */
  lemma {:induction false} DeviceReportReachesTheClient(dev: ChildHandle, data: seq<uint8>, f: CoraFrame, id: uint8)
    requires IsQueryFor(f, id) && id !in {0x1c, 0x80}
    ensures var o := BridgeRespond(dev, Some(data), f);
      && IsBridgeAnswer(o.reply, f)
      && o.reply.value.payload == data + Zeros(if |f.payload| >= 1024 > |data| then 1024 - |data| else 0)
      && o.usb == [ReadFeature(id, if |f.payload| >= 1024 then 1024 else 32)]
  {
    hide Payload, DeviceInfo;
    assert data + Zeros(0) == data;
  }

  /** Without a report the answer names the id, in the length asked for. */
  lemma {:induction false} FailedReadIsAnswered(dev: ChildHandle, f: CoraFrame, id: uint8)
    requires IsQueryFor(f, id) && id !in {0x1c, 0x80}
    ensures var o := BridgeRespond(dev, None, f);
      && IsBridgeAnswer(o.reply, f)
      && o.reply.value.payload == [0x03, id] + Zeros(if |f.payload| >= 1024 then 1022 else 30)
      && o.usb == [ReadFeature(id, if |f.payload| >= 1024 then 1024 else 32)]
  {
    hide Payload, DeviceInfo;
  }

  /** 0x80 is answered with the device's ids, without asking it. */
  lemma {:induction false} BridgeNamesItsIds(dev: ChildHandle, report: Option<seq<uint8>>, f: CoraFrame)
    requires IsQueryFor(f, 0x80)
    ensures var o := BridgeRespond(dev, report, f);
      && IsBridgeAnswer(o.reply, f) && o.usb == []
      && |o.reply.value.payload| == (if |f.payload| >= 1024 then 1024 else 16)
      && Says(o.reply.value.payload, 0x80, 12, LeBytes16(dev.vendorId) + LeBytes16(dev.productId))
  {
    hide Payload, LeBytes16;
  }

  /** 0x1c is answered with the record of the device, under the slot asked for and the standard port. */
  lemma {:induction false} BridgeDescribesItsDevice(dev: ChildHandle, report: Option<seq<uint8>>, f: CoraFrame,
                                                    slot: uint8)
    requires IsQueryFor(f, 0x1c) && (if |f.payload| >= 3 then f.payload[2] == slot else slot == 0)
    ensures var o := BridgeRespond(dev, report, f);
            var self := Connected(slot, dev.vendorId, dev.productId, dev.modelName, dev.serial, 5344);
      && IsBridgeAnswer(o.reply, f) && o.usb == []
      && o.reply.value.payload == Payload(self, false, slot) + Zeros(if |f.payload| >= 1024 then 896 else 0)
      && Parse(o.reply.value.payload[..128]) == Success(Some(ClientView(self)))
  {
    hide Payload, Parse, ClientView;
    var self := Connected(slot, dev.vendorId, dev.productId, dev.modelName, dev.serial, 5344);
    ParseAfterBuild(self, false, slot);
    var p := Payload(self, false, slot);
    assert p + Zeros(0) == p && (p + Zeros(896))[..128] == p && p[..128] == p;
  }

  /** Neither a query nor a keepalive. */
  predicate IsForDevice(f: CoraFrame) {
    && !(|f.payload| >= 6 && f.payload[0] == 0x01 && f.payload[1] == 0x0a)
    && !(|f.payload| >= 3 && f.payload[0] == 0x03 && f.payload[1] == 0x1a)
    && !f.header.hidOp.GetReport?
    && (f.header.hidOp.Write? && f.payload != [] ==> f.payload[0] != 0x03)
  }

  /** Output and feature reports go to the device as they are, and are acknowledged. */
  lemma {:induction false} BridgeForwards(dev: ChildHandle, report: Option<seq<uint8>>, f: CoraFrame)
    requires IsForDevice(f)
    ensures var o := BridgeRespond(dev, report, f);
      && o.usb == [if f.header.hidOp.SendReport? then SetFeature(f.payload) else WriteOut(f.payload)]
      && IsAcknowledgement(o.reply, f, if f.header.hidOp.SendReport? then 0x03 else 0x02)
  {
    hide FeatureAnswer, IsAcknowledgement, WriteAck;
    AckIsAcknowledgement(f, if f.header.hidOp.SendReport? then 0x03 else 0x02);
  }

  /** Probes are acknowledged, acknowledgements swallowed. */
  lemma {:induction false} BridgeKeepsAlive(dev: ChildHandle, report: Option<seq<uint8>>, f: CoraFrame)
    ensures |f.payload| >= 6 && f.payload[0] == 0x01 && f.payload[1] == 0x0a ==>
      BridgeRespond(dev, report, f)
      == BridgeOutcome(Some(CoraFrame(CoraHeader(0x0200, Write, 0, f.header.messageId, 32),
                                      [0x03, 0x1a, f.payload[5]] + Zeros(29))), [])
    ensures |f.payload| >= 3 && f.payload[0] == 0x03 && f.payload[1] == 0x1a ==>
      BridgeRespond(dev, report, f) == BridgeOutcome(None, [])
  {
    if |f.payload| >= 6 {
      KeepaliveLayout(f.payload[5], f.header.messageId);
    }
  }

  // ----- The embedded bridge -----

  /** One chunk of an image, as clients send it. */
  function ImageChunk(command: uint8, key: uint8, last: uint8, length0: uint8, length1: uint8, index: uint16,
                      data: seq<uint8>): seq<uint8>
  {
    [0x02, command, key, last, length0, length1, index % 0x100, index / 0x100] + data
  }

  /** An image chunk is drawn on the key it names, with its index, its data and its mark of being the last. */
  lemma {:induction false} ImageIsDrawn(info: SurfaceInfo, slot: uint8, port: uint16, header: CoraHeader,
                                        command: uint8, key: uint8, last: uint8, length0: uint8, length1: uint8,
                                        index: uint16, data: seq<uint8>)
    requires header.hidOp.Write? && command in {0x07, 0x0c}
    ensures var f := CoraFrame(header, ImageChunk(command, key, last, length0, length1, index, data));
      SurfaceRespond(info, slot, port, f).calls == [WriteImageChunk(key, last != 0, index, data)]
  {
    hide SurfaceBody;
    assert ImageChunk(command, key, last, length0, length1, index, data)[8..] == data;
  }

  lemma {:induction false} BrightnessIsSet(info: SurfaceInfo, slot: uint8, port: uint16, header: CoraHeader,
                                           percentage: uint8, rest: seq<uint8>)
    requires header.hidOp.SendReport?
    ensures SurfaceRespond(info, slot, port, CoraFrame(header, [0x03, 0x08, percentage] + rest)).calls
         == [SetBrightness(percentage)]
  {
    hide SurfaceBody;
  }

  /** Nothing else calls the surface. */
  lemma {:induction false} NothingElseIsCalled(info: SurfaceInfo, slot: uint8, port: uint16, f: CoraFrame)
    requires HasQueryByte(f)
    requires !(f.header.hidOp.Write? && |f.payload| >= 8 && f.payload[0] == 0x02 && f.payload[1] in {0x07, 0x0c})
    requires !(f.header.hidOp.SendReport? && |f.payload| >= 3 && f.payload[0] == 0x03 && f.payload[1] == 0x08)
    ensures SurfaceRespond(info, slot, port, f).calls == []
  {
    hide SurfaceBody;
  }

  /** The first thirty bytes of a text, as many as there are. */
  predicate IsStartOf(kept: seq<uint8>, text: seq<uint8>) {
    kept <= text && |kept| == if |text| < 30 then |text| else 30
  }

  /** The answers of an embedded bridge: 32 bytes, or 1024 to a request that long; 16 to 0x80; 128 to 0x1c. */
  lemma {:induction false} SurfaceAnswerLength(info: SurfaceInfo, slot: uint8, port: uint16, f: CoraFrame, id: uint8)
    requires IsQueryFor(f, id)
    ensures var reply := SurfaceRespond(info, slot, port, f).reply;
      && IsBridgeAnswer(reply, f)
      && reply.value.payload <= SurfaceBody(info, slot, port, f)
      && |reply.value.payload|
         == if id == 0x80 then 16 else if id == 0x1c then 128 else if |f.payload| >= 1024 then 1024 else 32
  {
    hide SurfaceBody;
  }

  /** 0x05: the length of the firmware version in byte 1, its bytes from byte 6, as far as the answer goes. */
  lemma {:induction false} SurfaceFirmware(info: SurfaceInfo, slot: uint8, port: uint16, f: CoraFrame, kept: seq<uint8>)
    requires IsQueryFor(f, 0x05) && IsStartOf(kept, info.firmware)
    ensures var reply := SurfaceRespond(info, slot, port, f).reply;
      && IsBridgeAnswer(reply, f)
      && var p := reply.value.payload;
      && |p| >= 32 && p[..6] == [0x05, |kept|, 0, 0, 0, 0]
      && LiesAt(p, 6, kept)
  {
    hide SurfaceRespond;
    SurfaceAnswerLength(info, slot, port, f, 0x05);
    assert FirstBytes(info.firmware, 30) == kept;
  }

  /** 0x06: the same of the serial number, its bytes from byte 2. */
  lemma {:induction false} SurfaceSerial(info: SurfaceInfo, slot: uint8, port: uint16, f: CoraFrame, kept: seq<uint8>)
    requires IsQueryFor(f, 0x06) && IsStartOf(kept, info.serial)
    ensures var reply := SurfaceRespond(info, slot, port, f).reply;
      && IsBridgeAnswer(reply, f)
      && var p := reply.value.payload;
      && |p| >= 32 && p[..2] == [0x06, |kept|]
      && LiesAt(p, 2, kept)
  {
    hide SurfaceRespond;
    SurfaceAnswerLength(info, slot, port, f, 0x06);
    assert FirstBytes(info.serial, 30) == kept;
  }

  /** 0x0b: a fixed capability report; 0x80: the ids; other ids: the id, behind 0x03. */
  lemma {:induction false} SurfaceFixedAnswers(info: SurfaceInfo, slot: uint8, port: uint16, f: CoraFrame, id: uint8)
    requires IsQueryFor(f, id) && id !in {0x05, 0x06, 0x1c}
    ensures var reply := SurfaceRespond(info, slot, port, f).reply;
      && IsBridgeAnswer(reply, f)
      && var p := reply.value.payload;
         LiesAt(p, 0,
                if id == 0x0b then [0x0b, 0x02, 0x30, 0x01]
                else if id == 0x80 then
                  [0x03, 0x80] + Zeros(10) + LeBytes16(info.vendorId) + LeBytes16(info.productId)
                else [0x03, id])
  {
    hide SurfaceRespond, LeBytes16;
    SurfaceAnswerLength(info, slot, port, f, id);
  }

  /** Outside queries the embedded bridge answers as the server's does. */
  lemma {:induction false} SurfaceAcknowledges(info: SurfaceInfo, slot: uint8, port: uint16, f: CoraFrame)
    requires IsForDevice(f)
    ensures IsAcknowledgement(SurfaceRespond(info, slot, port, f).reply, f,
                              if f.header.hidOp.SendReport? then 0x03 else 0x02)
  {
    hide SurfaceBody, IsAcknowledgement, WriteAck;
    AckIsAcknowledgement(f, if f.header.hidOp.SendReport? then 0x03 else 0x02);
  }

  // ----- The hub -----

  /** The hub's answers: 1024 bytes, or 128 to 0x1c, marked `GetReport` whatever the request was. */
  lemma {:induction false} HubAnswerShape(hub: HubInfo, children: seq<ChildDeviceInfo>, f: CoraFrame, opcode: uint8)
    requires AsksFor(f.payload, opcode) && !(|f.payload| >= 6 && f.payload[0] == 0x01 && f.payload[1] == 0x0a)
    ensures var reply := HubRespond(hub, children, f);
      && reply.Some?
      && reply.value.header
         == CoraHeader(0x0100, GetReport, 0, f.header.messageId, if opcode == 0x1c then 128 else 1024)
      && |reply.value.payload| == if opcode == 0x1c then 128 else 1024
  {
    hide HubBody;
  }
}
