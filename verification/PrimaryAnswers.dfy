/** What the primary port's answers say, in terms of the bytes asked with, the server's configuration and the device. */
module PrimaryAnswers {
  import opened Bytes
  import opened Wrappers
  import opened Cora
  import opened Reports
  import opened Keepalive
  import opened Dock
  import opened Replica
  import opened Primary
  import opened Layouts

  /** The opcode a payload asks for: behind byte 0x03 if there is one, or in front. */
  predicate AsksFor(payload: seq<uint8>, opcode: uint8) {
    && payload != []
    && opcode == if payload[0] == 0x03 && |payload| >= 2 then payload[1] else payload[0]
  }

  /** Neither a probe nor, in direct mode, something to be forwarded. */
  predicate IsQuery(cfg: HandlerConfig, f: CoraFrame) {
    && f.payload != []
    && !(|f.payload| >= 6 && f.payload[0] == 0x01 && f.payload[1] == 0x0a)
    && (cfg.mode.DirectMode? ==>
          !f.header.hidOp.SendReport? && (f.header.hidOp.Write? ==> f.payload[0] == 0x03 || f.payload[0] == 0x01))
  }

  /** Byte 0x03 and the opcode in front, `bs` at `at`, and zeros elsewhere. */
  predicate Says(p: seq<uint8>, opcode: uint8, at: nat, bs: seq<uint8>) {
    && 2 <= at && at + |bs| <= |p|
    && p[0] == 0x03 && p[1] == opcode
    && p[at..at + |bs|] == bs
    && forall i :: 2 <= i < |p| && !(at <= i < at + |bs|) ==> p[i] == 0
  }

  lemma SpliceSays(opcode: uint8, at: nat, bs: seq<uint8>, n: nat)
    requires 2 <= at && at + |bs| <= n <= RESPONSE_SIZE
    ensures Says(Splice([0x03, opcode] + Zeros(RESPONSE_SIZE - 2), at, bs)[..n], opcode, at, bs)
  {
  }

  /** What a client can rely on in every answer: its id and op, no flag but RESULT, and its length. */
  predicate IsAnswer(reply: Option<CoraFrame>, f: CoraFrame, opcode: uint8) {
    && reply.Some? && reply.value.WellFormed()
    && reply.value.header.flags == 0x0100 && reply.value.header.hidOp == f.header.hidOp
    && reply.value.header.reserved == 0 && reply.value.header.messageId == f.header.messageId
    && |reply.value.payload| == (if opcode == 0x1c || |f.payload| < 1024 then 128 else 1024)
  }

  /** Every query is answered, with the body for its opcode. */
  lemma QueryIsAnswered(cfg: HandlerConfig, polled: bool, around: Surroundings, f: CoraFrame, opcode: uint8)
    requires IsQuery(cfg, f) && AsksFor(f.payload, opcode)
    ensures var o := Respond(cfg, polled, around, f);
      && o.reply.Some? && IsAnswer(o.reply, f, opcode)
      && var p := o.reply.value.payload;
         128 <= |p| <= RESPONSE_SIZE && p == ReplyBody(cfg, around, CommandFromByte(opcode), f.payload)[..|p|]
  {
    hide ReplyBody, PushesOf, AllActiveChildren;
  }

  /** 0x80: the ids of the dock, or in direct mode of the device. */
  lemma {:induction false} IdentityAnswer(cfg: HandlerConfig, polled: bool, around: Surroundings, f: CoraFrame)
    requires IsQuery(cfg, f) && AsksFor(f.payload, 0x80)
    ensures var reply := Respond(cfg, polled, around, f).reply;
            var direct := cfg.mode.DirectMode? && cfg.usb.Some?;
      && IsAnswer(reply, f, 0x80)
      && Says(reply.value.payload, 0x80, 12,
              LeBytes16(if direct then cfg.usb.value.vendorId else 0x0fd9)
              + LeBytes16(if direct then cfg.usb.value.productId else 0xffff))
  {
    hide LeBytes16, Respond, Says, IsAnswer;
    QueryIsAnswered(cfg, polled, around, f, 0x80);
    var direct := cfg.mode.DirectMode? && cfg.usb.Some?;
    var ids := LeBytes16(if direct then cfg.usb.value.vendorId else 0x0fd9)
               + LeBytes16(if direct then cfg.usb.value.productId else 0xffff);
    SpliceSays(0x80, 12, ids, |Respond(cfg, polled, around, f).reply.value.payload|);
  }

  /** 0x83: the first eight bytes of the firmware version. */
  lemma {:induction false} FirmwareAnswer(cfg: HandlerConfig, polled: bool, around: Surroundings, f: CoraFrame)
    requires IsQuery(cfg, f) && AsksFor(f.payload, 0x83)
    ensures var reply := Respond(cfg, polled, around, f).reply;
      && IsAnswer(reply, f, 0x83)
      && Says(reply.value.payload, 0x83, 8, FirstBytes(cfg.firmwareVersion, 8))
  {
    hide Respond, Says, IsAnswer;
    QueryIsAnswered(cfg, polled, around, f, 0x83);
    SpliceSays(0x83, 8, FirstBytes(cfg.firmwareVersion, 8), |Respond(cfg, polled, around, f).reply.value.payload|);
  }

  /** 0x84: the length of the serial number and its bytes, 32 at most; in direct mode the device's. */
  lemma {:induction false} SerialAnswer(cfg: HandlerConfig, polled: bool, around: Surroundings, f: CoraFrame)
    requires IsQuery(cfg, f) && AsksFor(f.payload, 0x84)
    ensures var reply := Respond(cfg, polled, around, f).reply;
            var direct := cfg.mode.DirectMode? && cfg.usb.Some?;
            var serial := FirstBytes(if direct then cfg.usb.value.serial else cfg.serialNumber, 32);
      && IsAnswer(reply, f, 0x84)
      && Says(reply.value.payload, 0x84, 3, [|serial|] + serial)
  {
    hide Respond, Says, IsAnswer, FirstBytes;
    QueryIsAnswered(cfg, polled, around, f, 0x84);
    var direct := cfg.mode.DirectMode? && cfg.usb.Some?;
    var serial := FirstBytes(if direct then cfg.usb.value.serial else cfg.serialNumber, 32);
    SpliceSays(0x84, 3, [|serial|] + serial, |Respond(cfg, polled, around, f).reply.value.payload|);
  }

  /** 0x85: the six bytes of the MAC address. */
  lemma {:induction false} MacAnswer(cfg: HandlerConfig, polled: bool, around: Surroundings, f: CoraFrame)
    requires IsQuery(cfg, f) && AsksFor(f.payload, 0x85)
    ensures var reply := Respond(cfg, polled, around, f).reply;
      IsAnswer(reply, f, 0x85) && Says(reply.value.payload, 0x85, 4, cfg.macAddress)
  {
    hide Respond, Says, IsAnswer;
    QueryIsAnswered(cfg, polled, around, f, 0x85);
    SpliceSays(0x85, 4, cfg.macAddress, |Respond(cfg, polled, around, f).reply.value.payload|);
  }

  /** 0x87: static and online; address, mask and gateway if the address is known; the primary port. */
  lemma {:induction false} NetworkAnswer(cfg: HandlerConfig, polled: bool, around: Surroundings, f: CoraFrame)
    requires IsQuery(cfg, f) && AsksFor(f.payload, 0x87)
    ensures var reply := Respond(cfg, polled, around, f).reply;
            var addresses := match cfg.localIp { case Some(ip) => ip + [255, 255, 255, 0] + ip case None => Zeros(12) };
      && IsAnswer(reply, f, 0x87)
      && Says(reply.value.payload, 0x87, 2, [0x01, 0x01] + addresses + LeBytes16(cfg.primaryPort))
  {
    hide Respond, Says, IsAnswer, LeBytes16;
    QueryIsAnswered(cfg, polled, around, f, 0x87);
    var addresses := match cfg.localIp { case Some(ip) => ip + [255, 255, 255, 0] + ip case None => Zeros(12) };
    var bs := [0x01, 0x01] + addresses + LeBytes16(cfg.primaryPort);
    assert ReplyBody(cfg, around, Other(0x87), f.payload) == Splice([0x03, 0x87] + Zeros(RESPONSE_SIZE - 2), 2, bs);
    SpliceSays(0x87, 2, bs, |Respond(cfg, polled, around, f).reply.value.payload|);
  }

  /** The opcodes the server has an answer of its own for, or a fixed blank one. */
  predicate AnsweredHere(opcode: uint8) {
    opcode in {0x80, 0x83, 0x84, 0x85, 0x1c, 0x87, 0x8f, 0x1a}
  }

  /** Any other opcode is echoed, and nothing said, unless a device is asked. */
  lemma {:induction false} BlankAnswer(cfg: HandlerConfig, polled: bool, around: Surroundings, f: CoraFrame,
                                       opcode: uint8)
    requires IsQuery(cfg, f) && AsksFor(f.payload, opcode) && opcode !in {0x80, 0x83, 0x84, 0x85, 0x1c, 0x87}
    requires AnsweredHere(opcode) || cfg.mode.DockMode? || cfg.usb.None? || around.featureReport in {None, Some([])}
    ensures var reply := Respond(cfg, polled, around, f).reply;
      IsAnswer(reply, f, opcode) && Says(reply.value.payload, opcode, 2, [])
  {
    hide Respond, IsAnswer;
    QueryIsAnswered(cfg, polled, around, f, opcode);
  }

  /** `data` from `at` on, cut to the answer's length or followed by zeros. */
  predicate LiesAt(p: seq<uint8>, at: nat, data: seq<uint8>) {
    forall i :: at <= i < |p| ==> p[i] == if i - at < |data| then data[i - at] else 0
  }

  /** Where a report that starts like this has to go. */
  function ReportPlace(opcode: uint8, data: seq<uint8>): nat
    requires data != []
  {
    if |data| >= 2 && data[..2] == [0x03, opcode] then 0 else if data[0] == opcode then 1 else 2
  }

  lemma SpliceLies(opcode: uint8, at: nat, data: seq<uint8>)
    requires at <= 2 <= at + |data|
    ensures var body := [0x03, opcode] + Zeros(RESPONSE_SIZE - 2);
      LiesAt(Splice(body, at, FirstBytes(data, RESPONSE_SIZE - at)), at, data)
  {
  }

  lemma FirstTwo(p: seq<uint8>, a: uint8, b: uint8)
    requires |p| >= 2
    ensures p[..2] == [a, b] <==> p[0] == a && p[1] == b
  {
    assert p[..2] == [p[0], p[1]];
  }

  lemma ReportLies(opcode: uint8, data: seq<uint8>)
    requires data != []
    ensures var r := FeatureBody([0x03, opcode] + Zeros(RESPONSE_SIZE - 2), opcode, Some(data));
      r[..2] == [0x03, opcode] && LiesAt(r, ReportPlace(opcode, data), data)
  {
    hide LiesAt;
    var body := [0x03, opcode] + Zeros(RESPONSE_SIZE - 2);
    SpliceLies(opcode, 1, data);
    SpliceLies(opcode, 2, data);
    FirstTwo(FeatureBody(body, opcode, Some(data)), 0x03, opcode);
    if |data| >= 2 {
      SpliceLies(opcode, 0, data);
      FirstTwo(data, 0x03, opcode);
    }
    hide Splice, Zeros;
  }

  lemma LiesInFront(p: seq<uint8>, r: seq<uint8>, at: nat, data: seq<uint8>)
    requires p <= r && 2 <= |p| && LiesAt(r, at, data)
    ensures p[..2] == r[..2] && LiesAt(p, at, data)
  {
  }

  /**
   In direct mode what the server does not know is read from the device.  The
   report lies at the front of the answer if it starts with 0x03 and the opcode,
   at byte 1 if with the opcode only, and behind both otherwise, so that 0x03
   and the opcode always lead the answer.
   */
  lemma {:induction false} DeviceReportAnswer(cfg: HandlerConfig, polled: bool, around: Surroundings, f: CoraFrame,
                                              opcode: uint8)
    requires IsQuery(cfg, f) && AsksFor(f.payload, opcode) && !AnsweredHere(opcode)
    requires cfg.mode.DirectMode? && cfg.usb.Some? && around.featureReport.Some? && around.featureReport.value != []
    ensures var reply := Respond(cfg, polled, around, f).reply;
            var data := around.featureReport.value;
      && IsAnswer(reply, f, opcode)
      && var p := reply.value.payload;
      && p[..2] == [0x03, opcode]
      && LiesAt(p, ReportPlace(opcode, data), data)
  {
    hide Respond, IsAnswer, FeatureBody, LiesAt;
    var body := [0x03, opcode] + Zeros(RESPONSE_SIZE - 2);
    QueryIsAnswered(cfg, polled, around, f, opcode);
    assert ReplyBody(cfg, around, CommandFromByte(opcode), f.payload)
        == FeatureBody(body, opcode, around.featureReport);
    ReportLies(opcode, around.featureReport.value);
    LiesInFront(Respond(cfg, polled, around, f).reply.value.payload, FeatureBody(body, opcode, around.featureReport),
                ReportPlace(opcode, around.featureReport.value), around.featureReport.value);
  }

  /** The device is asked exactly for what the server does not know, once, with the opcode and for 1024 bytes. */
  lemma {:induction false} DeviceIsAskedExactly(cfg: HandlerConfig, polled: bool, around: Surroundings, f: CoraFrame,
                                                opcode: uint8)
    requires IsQuery(cfg, f) && AsksFor(f.payload, opcode)
    ensures Respond(cfg, polled, around, f).usb
         == if cfg.mode.DirectMode? && cfg.usb.Some? && !AnsweredHere(opcode) then [ReadFeature(opcode, 1024)] else []
  {
    hide ReplyBody, PushesOf, AllActiveChildren;
  }

  // ----- Child queries -----

  /** The slot a child query names: the byte behind the opcode's place, or 0. */
  lemma {:induction false} ChildQueryNamesItsSlot(cfg: HandlerConfig, polled: bool, around: Surroundings,
                                                  f: CoraFrame, slot: uint8)
    requires IsQuery(cfg, f) && AsksFor(f.payload, 0x1c) && TableFits(around.dock)
    requires if |f.payload| >= 3 then f.payload[2] == slot else slot == 0
    ensures var reply, table := Respond(cfg, polled, around, f).reply, ClientTable(around.dock);
      && IsAnswer(reply, f, 0x1c)
      && reply.value.payload[..6]
         == [0x03, 0x1c, 124, 0, if slot in table then 0x02 else 0x00, slot]
      && Parse(reply.value.payload) == Success(if slot in table then Some(table[slot]) else None)
  {
    hide Respond, Parse, ClientTable, TableFits, IsAnswer, Payload, ReplyBody, AllActiveChildren, PushesOf;
    QueryIsAnswered(cfg, polled, around, f, 0x1c);
    IsQueryRoutes(cfg, f);
    ChildQueryTellsTheTable(cfg, polled, around, f);
    ChildAnswerStart(cfg, around, f.payload, slot);
    FirstSix(cfg, polled, around, f);
  }

  lemma IsQueryRoutes(cfg: HandlerConfig, f: CoraFrame)
    requires IsQuery(cfg, f)
    ensures IsKeepaliveProbe(f).None? && !IsDirectWrite(cfg, f) && !IsDirectSend(cfg, f)
    ensures AsksFor(f.payload, 0x1c) ==> ParsePrimaryQuery(f.payload) == Some(GetChildDeviceInfo)
  {
  }

  lemma FirstSix(cfg: HandlerConfig, polled: bool, around: Surroundings, f: CoraFrame)
    requires IsAnswer(Respond(cfg, polled, around, f).reply, f, 0x1c)
    requires var p := Respond(cfg, polled, around, f).reply.value.payload;
             128 <= |p| <= RESPONSE_SIZE && p == ReplyBody(cfg, around, GetChildDeviceInfo, f.payload)[..|p|]
    ensures var p := Respond(cfg, polled, around, f).reply.value.payload;
            |p| == 128 && p[..6] == ReplyBody(cfg, around, GetChildDeviceInfo, f.payload)[..6]
  {
    hide Respond, ReplyBody;
  }

  lemma ReportStart(c: ChildDeviceInfo, slot: uint8)
    ensures Payload(c, false, slot)[..6]
         == [0x03, 0x1c, 124, 0, if c.connected then 0x02 else 0x00, if c.connected then c.slotIndex else slot]
  {
  }

  lemma ChildIsInTable(d: Dock, slot: uint8)
    requires TableFits(d)
    ensures var c := ChildDeviceAt(d, slot);
      (c.connected <==> slot in ClientTable(d)) && c.slotIndex == slot
  {
    hide ClientView, PadTo32, FirstBytes;
    if slot < MAX_CHILD_SLOTS && d.slots[slot].Some? {
      assert EntryFits(d.secondaryPort, slot, d.slots[slot].value);
    }
  }

  lemma ChildAnswerStart(cfg: HandlerConfig, around: Surroundings, payload: seq<uint8>, slot: uint8)
    requires TableFits(around.dock) && slot == RequestedSlot(payload)
    ensures ReplyBody(cfg, around, GetChildDeviceInfo, payload)[..6]
         == [0x03, 0x1c, 124, 0, if slot in ClientTable(around.dock) then 0x02 else 0x00, slot]
  {
    hide ClientTable, Payload, ChildDeviceAt, TableFits;
    var c := ChildDeviceAt(around.dock, slot);
    ChildIsInTable(around.dock, slot);
    ReportStart(c, slot);
    assert ReplyBody(cfg, around, GetChildDeviceInfo, payload)[..6] == Payload(c, false, slot)[..6];
  }

  // ----- What is not a query -----

  /** In either mode a probe is acknowledged with its connection id and message id, and has no other effect. */
  lemma {:induction false} ProbeIsAcknowledged(cfg: HandlerConfig, polled: bool, around: Surroundings, f: CoraFrame)
    requires |f.payload| >= 6 && f.payload[..2] == [0x01, 0x0a]
    ensures Respond(cfg, polled, around, f)
         == Outcome(polled,
                    Some(CoraFrame(CoraHeader(0x0200, Write, 0, f.header.messageId, 32),
                                   [0x03, 0x1a, f.payload[5]] + Zeros(29))),
                    [], [])
  {
    hide ReplyBody, PushesOf, AllActiveChildren;
    assert f.payload[..2][0] == 0x01 && f.payload[..2][1] == 0x0a;
    KeepaliveLayout(f.payload[5], f.header.messageId);
  }

  /**
   An acknowledgement is sent for the REQ_ACK flag or a message id other than 0.
   It carries the first byte received, or a default, and keeps op, id and VERBATIM.
   */
  predicate IsAcknowledgement(reply: Option<CoraFrame>, f: CoraFrame, default: uint8) {
    && (reply.Some? <==> f.header.flags / 0x4000 % 2 == 1 || f.header.messageId != 0)
    && (reply.Some? ==>
          reply.value == CoraFrame(CoraHeader(if f.header.flags >= 0x8000 then 0x8100 else 0x0100,
                                              f.header.hidOp, 0, f.header.messageId, 1),
                                   [if f.payload == [] then default else f.payload[0]]))
  }

  lemma AckIsAcknowledgement(f: CoraFrame, default: uint8)
    ensures IsAcknowledgement(WriteAck(f, default), f, default)
  {
    if f.payload != [] {
      assert f.payload[..1] == [f.payload[0]];
    }
  }

  /** In direct mode, output and feature reports go to the device as they are, and are acknowledged. */
  lemma {:induction false} DirectFramesAreForwarded(cfg: HandlerConfig, polled: bool, around: Surroundings,
                                                    f: CoraFrame)
    requires cfg.mode.DirectMode? && !IsQuery(cfg, f) && (f.payload == [] ==> f.header.hidOp.SendReport?)
    requires !(|f.payload| >= 6 && f.payload[..2] == [0x01, 0x0a])
    ensures var o := Respond(cfg, polled, around, f);
            var call := if f.header.hidOp.SendReport? then SetFeature(f.payload) else WriteOut(f.payload);
      && o.usb == (if cfg.usb.Some? then [call] else [])
      && IsAcknowledgement(o.reply, f, if f.header.hidOp.SendReport? then 0x03 else 0x02)
      && o.pushes == [] && o.polled == polled
  {
    hide ReplyBody, PushesOf, AllActiveChildren, IsAcknowledgement, WriteAck;
    if |f.payload| >= 2 {
      assert f.payload[..2][0] == f.payload[0] && f.payload[..2][1] == f.payload[1];
    }
    AckIsAcknowledgement(f, if f.header.hidOp.SendReport? then 0x03 else 0x02);
  }

  /** Nothing is answered to, or done for, an empty frame that is not a feature report in direct mode. */
  lemma {:induction false} EmptyFrameIsIgnored(cfg: HandlerConfig, polled: bool, around: Surroundings, f: CoraFrame)
    requires f.payload == [] && (cfg.mode.DirectMode? ==> !f.header.hidOp.SendReport?)
    ensures Respond(cfg, polled, around, f) == Outcome(polled, None, [], [])
  {
  }
}
