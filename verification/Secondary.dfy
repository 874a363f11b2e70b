/** The server's bridge for one child device: replies to the client, and what reaches the USB device. */
module Secondary {
  import opened Bytes
  import opened Wrappers
  import opened Cora
  import opened Stream
  import opened Resync
  import opened Delivery
  import opened Reports
  import opened Keepalive
  import opened Primary
  import opened Receivers

  const DEFAULT_SECONDARY_TCP_PORT: uint16 := 5344

  datatype ChildHandle = ChildHandle(vendorId: uint16, productId: uint16, serial: seq<uint8>, modelName: seq<uint8>)

  datatype BridgeOutcome = BridgeOutcome(reply: Option<CoraFrame>, usb: seq<UsbOp>)

  /** `GetReport`, or a `Write` that starts with report 0x03. */
  predicate IsFeatureQuery(f: CoraFrame) {
    f.header.hidOp.GetReport? || (f.header.hidOp.Write? && f.payload != [] && f.payload[0] == 0x03)
  }

  function ReportId(payload: seq<uint8>): uint8
    requires payload != []
  {
    if payload[0] == 0x03 && |payload| >= 2 then payload[1] else payload[0]
  }

  function SizeFor(f: CoraFrame, small: nat): nat {
    if |f.payload| >= 1024 then 1024 else small
  }

  function PadTo(bs: seq<uint8>, n: nat): (r: seq<uint8>)
    ensures |r| == if |bs| < n then n else |bs|
    ensures bs <= r && forall i :: |bs| <= i < |r| ==> r[i] == 0
  {
    if |bs| < n then bs + Zeros(n - |bs|) else bs
  }

  function DeviceInfo(vendorId: uint16, productId: uint16): (r: seq<uint8>)
    ensures |r| == 16
  {
    [0x03, 0x80] + Zeros(10) + LeBytes16(vendorId) + LeBytes16(productId)
  }

  /** `report` is what the device answers to the feature read, or `None` for a transfer error. */
  function FeatureAnswer(dev: ChildHandle, report: Option<seq<uint8>>, f: CoraFrame): seq<uint8>
    requires f.payload != []
  {
    var id := ReportId(f.payload);
    if id == 0x1c then
      var slot := RequestedSlot(f.payload);
      var child := Connected(slot, dev.vendorId, dev.productId, dev.modelName, dev.serial, DEFAULT_SECONDARY_TCP_PORT);
      PadTo(Payload(child, false, slot), SizeFor(f, 128))
    else if id == 0x80 then PadTo(DeviceInfo(dev.vendorId, dev.productId), SizeFor(f, 16))
    else
      match report
      case Some(data) => if |f.payload| >= 1024 then PadTo(data, 1024) else data
      case None => PadTo([0x03, id], SizeFor(f, 32))
  }

  function FeatureReads(f: CoraFrame): seq<UsbOp>
    requires f.payload != []
  {
    var id := ReportId(f.payload);
    if id == 0x1c || id == 0x80 then [] else [ReadFeature(id, SizeFor(f, 32))]
  }

  function BridgeRespond(dev: ChildHandle, report: Option<seq<uint8>>, f: CoraFrame): BridgeOutcome {
    if IsKeepaliveProbe(f).Some? then
      BridgeOutcome(Some(AckFrame(IsKeepaliveProbe(f).value, f.header.messageId)), [])
    else if IsKeepaliveAck(f).Some? then BridgeOutcome(None, [])
    else if IsFeatureQuery(f) then
      if f.payload == [] then BridgeOutcome(None, [])
      else BridgeOutcome(Some(ReplyTo(f, ResponseFlags(f), FeatureAnswer(dev, report, f))), FeatureReads(f))
    else if f.header.hidOp.SendReport? then BridgeOutcome(WriteAck(f, 0x03), [SetFeature(f.payload)])
    else BridgeOutcome(WriteAck(f, 0x02), [WriteOut(f.payload)])
  }

  // ----- What a session does -----

  /** Frames the bridge answers. */
  predicate ExpectsReply(f: CoraFrame) {
    || IsKeepaliveProbe(f).Some?
    || (IsKeepaliveAck(f).None? && (if IsFeatureQuery(f) then f.payload != [] else WantsAck(f)))
  }

  /** Image data and other output, for the device's OUT endpoint. */
  predicate IsOutput(f: CoraFrame) {
    f.header.hidOp.Write? && (f.payload == [] || f.payload[0] != 0x03) && IsKeepaliveProbe(f).None?
  }

  function Expecting(frames: seq<CoraFrame>): seq<CoraFrame> {
    if frames == [] then []
    else (if ExpectsReply(frames[0]) then [frames[0]] else []) + Expecting(frames[1..])
  }

  /** Brightness, resets and other feature reports for the device. */
  predicate IsReport(f: CoraFrame) {
    f.header.hidOp.SendReport? && IsKeepaliveProbe(f).None? && IsKeepaliveAck(f).None?
  }

  function TransferFor(f: CoraFrame): seq<UsbOp> {
    if IsOutput(f) then [WriteOut(f.payload)] else if IsReport(f) then [SetFeature(f.payload)] else []
  }

  /** What the frames are meant to do to the device, in order. */
  function TransfersFor(frames: seq<CoraFrame>): seq<UsbOp> {
    if frames == [] then [] else TransferFor(frames[0]) + TransfersFor(frames[1..])
  }

  /** The calls that change the device: all but the feature reads. */
  function Transfers(ops: seq<UsbOp>): seq<UsbOp> {
    if ops == [] then [] else (if ops[0].ReadFeature? then [] else [ops[0]]) + Transfers(ops[1..])
  }

  datatype BridgeSession = BridgeSession(replies: seq<CoraFrame>, usb: seq<UsbOp>)

  function BridgeRespondAll(dev: ChildHandle, reports: seq<Option<seq<uint8>>>, frames: seq<CoraFrame>): BridgeSession
    requires |reports| == |frames|
    decreases |frames|
  {
    if frames == [] then BridgeSession([], [])
    else
      var o := BridgeRespond(dev, reports[0], frames[0]);
      var rest := BridgeRespondAll(dev, reports[1..], frames[1..]);
      BridgeSession((if o.reply.Some? then [o.reply.value] else []) + rest.replies, o.usb + rest.usb)
  }

  /** A reply echoes the message id; unless it acknowledges a probe, also the op and the VERBATIM flag. */
  predicate Echoes(reply: CoraFrame, request: CoraFrame) {
    && reply.header.messageId == request.header.messageId
    && (if IsKeepaliveProbe(request).Some? then IsKeepaliveAck(reply) == IsKeepaliveProbe(request)
        else
          && reply.header.hidOp == request.header.hidOp
          && HasFlag(reply.header.flags, RESULT)
          && (HasFlag(reply.header.flags, VERBATIM) <==> HasFlag(request.header.flags, VERBATIM)))
  }

  lemma {:induction false} OneFrameAcrossTheBridge(dev: ChildHandle, report: Option<seq<uint8>>, f: CoraFrame)
    ensures var o := BridgeRespond(dev, report, f);
      && (o.reply.Some? <==> ExpectsReply(f))
      && (o.reply.Some? ==> Echoes(o.reply.value, f))
      && Transfers(o.usb) == TransferFor(f)
      && |o.usb| <= 1
  {
    hide Payload, PadTo, DeviceInfo, Zeros, FeatureAnswer;
  }

  predicate AllEcho(replies: seq<CoraFrame>, requests: seq<CoraFrame>) {
    |replies| == |requests| && forall i :: 0 <= i < |replies| ==> Echoes(replies[i], requests[i])
  }

  lemma {:induction false} TransfersAppend(xs: seq<UsbOp>, ys: seq<UsbOp>)
    ensures Transfers(xs + ys) == Transfers(xs) + Transfers(ys)
  {
    if xs == [] {
      assert xs + ys == ys;
    } else {
      TransfersAppend(xs[1..], ys);
      assert (xs + ys)[1..] == xs[1..] + ys;
      Assoc(if xs[0].ReadFeature? then [] else [xs[0]], Transfers(xs[1..]), Transfers(ys));
    }
  }

  lemma {:induction false} FramesAcrossTheBridge(dev: ChildHandle, reports: seq<Option<seq<uint8>>>,
                                                 frames: seq<CoraFrame>)
    requires |reports| == |frames|
    ensures var s := BridgeRespondAll(dev, reports, frames);
      && AllEcho(s.replies, Expecting(frames))
      && Transfers(s.usb) == TransfersFor(frames)
    decreases |frames|
  {
    hide BridgeRespond, ExpectsReply, AllEcho, Transfers, TransferFor;
    if frames == [] {
      NothingAcrossTheBridge();
    } else {
      var o := BridgeRespond(dev, reports[0], frames[0]);
      var rest := BridgeRespondAll(dev, reports[1..], frames[1..]);
      OneFrameAcrossTheBridge(dev, reports[0], frames[0]);
      FramesAcrossTheBridge(dev, reports[1..], frames[1..]);
      TransfersAppend(o.usb, rest.usb);
      if o.reply.Some? {
        OneMoreEcho(o.reply.value, rest.replies, frames[0], Expecting(frames[1..]));
      } else {
        assert [] + rest.replies == rest.replies && [] + Expecting(frames[1..]) == Expecting(frames[1..]);
      }
    }
  }

  lemma NothingAcrossTheBridge()
    ensures AllEcho([], []) && Transfers([]) == []
  {
  }

  lemma OneMoreEcho(reply: CoraFrame, replies: seq<CoraFrame>, request: CoraFrame, requests: seq<CoraFrame>)
    requires Echoes(reply, request) && AllEcho(replies, requests)
    ensures AllEcho([reply] + replies, [request] + requests)
  {
    hide Echoes;
  }

  /**
   For any cutting of the client's stream and anything the device reports: the
   device handle is given exactly the output payloads and the feature reports,
   once each and in one order, and the replies answer the frames that expect
   one, in order.
   */
  lemma {:induction false} BridgeSessionIsFaithful(dev: ChildHandle, frames: seq<CoraFrame>,
                                                   reports: seq<Option<seq<uint8>>>, chunks: seq<seq<uint8>>)
    requires AllWellFormed(frames) && |reports| == |frames| && Flatten(chunks) == EncodeAll(frames)
    ensures Run([], chunks).frames == frames
    ensures var s := BridgeRespondAll(dev, reports, Run([], chunks).frames);
      && AllEcho(s.replies, Expecting(frames))
      && Transfers(s.usb) == TransfersFor(frames)
  {
    hide Run, EncodeAll, BridgeRespondAll, TransfersFor, Expecting;
    WholeStreamIsDelivered(frames, chunks);
    FramesAcrossTheBridge(dev, reports, frames);
  }

  // ----- The handler -----

  lemma {:induction false} BridgeRespondAllOneMore(dev: ChildHandle, reports: seq<Option<seq<uint8>>>,
                                                   frames: seq<CoraFrame>, report: Option<seq<uint8>>, f: CoraFrame)
    requires |reports| == |frames|
    ensures var s, o := BridgeRespondAll(dev, reports, frames), BridgeRespond(dev, report, f);
            var s' := BridgeRespondAll(dev, reports + [report], frames + [f]);
      && s'.replies == s.replies + (if o.reply.Some? then [o.reply.value] else [])
      && s'.usb == s.usb + o.usb
    decreases |frames|
  {
    hide BridgeRespond;
    if frames == [] {
      assert reports + [report] == [report] && frames + [f] == [f];
      assert [f][1..] == [] && [report][1..] == [];
    } else {
      BridgeRespondAllOneMore(dev, reports[1..], frames[1..], report, f);
      assert (reports + [report])[1..] == reports[1..] + [report] && (frames + [f])[1..] == frames[1..] + [f];
    }
  }

  /** What the device answers to the first `n` frames. */
  function FirstReports(reports: nat -> Option<seq<uint8>>, n: nat): (r: seq<Option<seq<uint8>>>)
    ensures |r| == n && forall i :: 0 <= i < n ==> r[i] == reports(i)
  {
    seq(n, i requires 0 <= i < n => reports(i))
  }

  class SecondaryConnection {
    const device: ChildHandle
    const input: GrowableReceiver
    var tx: seq<seq<uint8>>
    var usbOps: seq<UsbOp>

    constructor (device: ChildHandle)
      ensures this.device == device && fresh(input) && input.readBuf == [] && tx == [] && usbOps == []
    {
      this.device := device;
      input := new GrowableReceiver();
      tx, usbOps := [], [];
    }

    /** What the fields say after a session that started from the given values. */
    ghost predicate Shows(s: BridgeSession, tx0: seq<seq<uint8>>, usb0: seq<UsbOp>)
      reads this
    {
      tx == tx0 + EncodedFrames(s.replies) && usbOps == usb0 + s.usb
    }

    /** One read: every complete frame is handled in order, and the rest stays buffered. */
    method OnRead(chunk: seq<uint8>, reports: nat -> Option<seq<uint8>>) returns (frames: seq<CoraFrame>)
      modifies this, input
      ensures Drained(frames, input.readBuf) == Drain(old(input.readBuf) + chunk)
      ensures Shows(BridgeRespondAll(device, FirstReports(reports, |frames|), frames), old(tx), old(usbOps))
    {
      hide Drain, BridgeRespondAll, SecondaryConnection.Shows;
      NothingShown([]);
      frames := HandleRead(chunk, reports, [], tx, usbOps);
      assert [] + frames == frames;
    }

    /** A read that comes after the frames of `before` have been handled. */
    method HandleRead(chunk: seq<uint8>, reports: nat -> Option<seq<uint8>>, before: seq<CoraFrame>,
                      ghost tx0: seq<seq<uint8>>, ghost usb0: seq<UsbOp>)
      returns (frames: seq<CoraFrame>)
      requires Shows(BridgeRespondAll(device, FirstReports(reports, |before|), before), tx0, usb0)
      modifies this, input
      ensures Drained(frames, input.readBuf) == Drain(old(input.readBuf) + chunk)
      ensures Shows(BridgeRespondAll(device, FirstReports(reports, |before + frames|), before + frames), tx0, usb0)
    {
      hide Drain, BridgeRespondAll, EncodedFrames, SecondaryConnection.Shows;
      frames := [];
      assert before + [] == before;
      input.Append(chunk);
      ghost var all := Drain(input.readBuf);
      while input.readBuf != []
        invariant frames + Drain(input.readBuf).frames == all.frames
        invariant Drain(input.readBuf).residual == all.residual
        invariant Shows(BridgeRespondAll(device, FirstReports(reports, |before + frames|), before + frames), tx0, usb0)
        decreases |input.readBuf|
      {
        var action := input.Turn();
        match action
        case Emit(f, _) =>
          var k := |before + frames|;
          Assoc(frames, [f], Drain(input.readBuf).frames);
          Assoc(before, frames, [f]);
          HandleNext(f, reports(k), before + frames, FirstReports(reports, k), tx0, usb0);
          assert FirstReports(reports, k + 1) == FirstReports(reports, k) + [reports(k)];
          frames := frames + [f];
        case Skip(_) =>
        case Await => return;
        case Clear => return;
      }
      NothingToDrain();
    }

    /** All the reads of a connection. */
    method HandleConnection(chunks: seq<seq<uint8>>, reports: nat -> Option<seq<uint8>>)
      returns (frames: seq<CoraFrame>)
      requires input.readBuf == []
      modifies this, input
      ensures Drained(frames, input.readBuf) == Run([], chunks)
      ensures Shows(BridgeRespondAll(device, FirstReports(reports, |frames|), frames), old(tx), old(usbOps))
    {
      hide Run, Drain, BridgeRespondAll, SecondaryConnection.Shows;
      frames := [];
      NothingRead(chunks);
      NothingShown([]);
      for i := 0 to |chunks|
        invariant Drained(frames, input.readBuf) == Run([], chunks[..i])
        invariant Shows(BridgeRespondAll(device, FirstReports(reports, |frames|), frames), old(tx), old(usbOps))
      {
        RunOneMore(chunks, i);
        var more := HandleRead(chunks[i], reports, frames, old(tx), old(usbOps));
        frames := frames + more;
      }
      assert chunks[..|chunks|] == chunks;
    }

    lemma NothingShown(reports: seq<Option<seq<uint8>>>)
      requires reports == []
      ensures Shows(BridgeRespondAll(device, reports, []), tx, usbOps)
    {
      assert EncodedFrames([]) == [];
    }

    /** One frame handled after those of `done`. */
    method HandleNext(f: CoraFrame, report: Option<seq<uint8>>, ghost done: seq<CoraFrame>,
                      ghost reports: seq<Option<seq<uint8>>>, ghost tx0: seq<seq<uint8>>, ghost usb0: seq<UsbOp>)
      requires |reports| == |done| && Shows(BridgeRespondAll(device, reports, done), tx0, usb0)
      modifies this
      ensures Shows(BridgeRespondAll(device, reports + [report], done + [f]), tx0, usb0)
    {
      hide BridgeRespond, BridgeRespondAll, EncodedFrames, QueuedBytes;
      ghost var s := BridgeRespondAll(device, reports, done);
      ghost var o := BridgeRespond(device, report, f);
      BridgeRespondAllOneMore(device, reports, done, report, f);
      EncodedOneMore(s.replies, o.reply);
      HandleIncomingFrame(f, report);
      Assoc(tx0, EncodedFrames(s.replies), QueuedBytes(o.reply));
      Assoc(usb0, s.usb, o.usb);
    }

    method Send(f: CoraFrame)
      modifies this`tx
      ensures tx == old(tx) + [FrameBytes(f)]
    {
      var msg := ToVec(f);
      tx := tx + [msg];
    }

    method AckWrite(f: CoraFrame, default: uint8)
      modifies this`tx
      ensures tx == old(tx) + QueuedBytes(WriteAck(f, default))
    {
      hide FrameBytes;
      if HasFlag(f.header.flags, REQ_ACK) || f.header.messageId != 0 {
        var ackPayload := if f.payload != [] then f.payload[..1] else [default];
        Send(CoraFrame(NewHeader(ResponseFlags(f), f.header.hidOp, f.header.messageId, |ackPayload|), ackPayload));
      }
    }

    method HandleIncomingFrame(f: CoraFrame, report: Option<seq<uint8>>)
      modifies this
      ensures var o := BridgeRespond(device, report, f);
        && tx == old(tx) + QueuedBytes(o.reply)
        && usbOps == old(usbOps) + o.usb
    {
      hide FrameBytes, AckPayload, FeatureAnswer;
      if IsKeepaliveProbe(f).Some? {
        var payload := new uint8[KEEPALIVE_ACK_LEN];
        BuildAckPayload(IsKeepaliveProbe(f).value, payload);
        Send(CoraFrame(NewHeader(ACK_NAK, Write, f.header.messageId, KEEPALIVE_ACK_LEN), payload[..]));
      } else if IsKeepaliveAck(f).Some? {
      } else if IsFeatureQuery(f) {
        if f.payload == [] {
          return;
        }
        var answer := AnswerFeature(f, report);
        Send(CoraFrame(NewHeader(ResponseFlags(f), f.header.hidOp, f.header.messageId, |answer|), answer));
      } else if f.header.hidOp.SendReport? {
        usbOps := usbOps + [SetFeature(f.payload)];
        AckWrite(f, 0x03);
      } else {
        usbOps := usbOps + [WriteOut(f.payload)];
        AckWrite(f, 0x02);
      }
    }

    /** Virtual queries are answered here; the rest are read from the device. */
    method AnswerFeature(f: CoraFrame, report: Option<seq<uint8>>) returns (answer: seq<uint8>)
      requires f.payload != []
      modifies this`usbOps
      ensures answer == FeatureAnswer(device, report, f)
      ensures usbOps == old(usbOps) + FeatureReads(f)
    {
      hide PayloadByte;
      var id := ReportId(f.payload);
      if id == 0x1c {
        var slot := RequestedSlot(f.payload);
        var child :=
          Connected(slot, device.vendorId, device.productId, device.modelName, device.serial,
                    DEFAULT_SECONDARY_TCP_PORT);
        var p := new uint8[SizeFor(f, 128)];
        var buf128 := new uint8[REPORT_SIZE];
        BuildPayload(child, false, slot, buf128);
        ClearFirst(p, p.Length);
        CopyInto(p, 0, buf128[..]);
        answer := p[..];
      } else if id == 0x80 {
        var p := new uint8[SizeFor(f, 16)];
        ClearFirst(p, p.Length);
        p[0], p[1] := 0x03, 0x80;
        CopyInto(p, 12, LeBytes16(device.vendorId));
        CopyInto(p, 14, LeBytes16(device.productId));
        answer := p[..];
      } else {
        usbOps := usbOps + [ReadFeature(id, SizeFor(f, 32))];
        match report
        case Some(data) =>
          answer := data;
          if |f.payload| >= 1024 && |answer| < 1024 {
            answer := answer + Zeros(1024 - |answer|);
          }
        case None =>
          var fallback := new uint8[SizeFor(f, 32)];
          ClearFirst(fallback, fallback.Length);
          fallback[0] := 0x03;
          fallback[1] := id;
          answer := fallback[..];
      }
    }
  }
}
