/** Direct mode: the primary port itself stands in front of one USB device. */
module Direct {
  import opened Bytes
  import opened Wrappers
  import opened Cora
  import opened Keepalive
  import opened Primary
  import opened Secondary

  function DirectTransfer(cfg: HandlerConfig, f: CoraFrame): seq<UsbOp> {
    if IsKeepaliveProbe(f).Some? then []
    else if IsDirectWrite(cfg, f) then [WriteOut(f.payload)]
    else if IsDirectSend(cfg, f) then [SetFeature(f.payload)]
    else []
  }

  /** The output and the feature reports meant for the device, in order. */
  function DirectTransfers(cfg: HandlerConfig, frames: seq<CoraFrame>): seq<UsbOp> {
    if frames == [] then [] else DirectTransfer(cfg, frames[0]) + DirectTransfers(cfg, frames[1..])
  }

  /** Writes and reports are answered if they ask for it; of the other frames all that are not empty. */
  predicate DirectExpectsReply(cfg: HandlerConfig, f: CoraFrame) {
    || IsKeepaliveProbe(f).Some?
    || (if IsDirectWrite(cfg, f) || IsDirectSend(cfg, f) then WantsAck(f) else f.payload != [])
  }

  function DirectExpecting(cfg: HandlerConfig, frames: seq<CoraFrame>): seq<CoraFrame> {
    if frames == [] then []
    else (if DirectExpectsReply(cfg, frames[0]) then [frames[0]] else []) + DirectExpecting(cfg, frames[1..])
  }

  predicate CarriesId(reply: CoraFrame, request: CoraFrame) {
    && reply.header.messageId == request.header.messageId
    && (IsKeepaliveProbe(request).None? ==> reply.header.hidOp == request.header.hidOp)
  }

  predicate AllCarryIds(replies: seq<CoraFrame>, requests: seq<CoraFrame>) {
    |replies| == |requests| && forall i :: 0 <= i < |replies| ==> CarriesId(replies[i], requests[i])
  }

  lemma OneDirectFrame(cfg: HandlerConfig, polled: bool, around: Surroundings, f: CoraFrame)
    requires cfg.mode.DirectMode?
    ensures var o := Respond(cfg, polled, around, f);
      && (o.reply.Some? <==> DirectExpectsReply(cfg, f))
      && (o.reply.Some? ==> CarriesId(o.reply.value, f))
      && Transfers(o.usb) == (if cfg.usb.Some? then DirectTransfer(cfg, f) else [])
      && o.pushes == [] && o.polled == polled
  {
    hide ReplyBody, AckPayload;
  }

  lemma NothingDirect()
    ensures AllCarryIds([], [])
  {
  }

  lemma OneMoreId(reply: CoraFrame, replies: seq<CoraFrame>, request: CoraFrame, requests: seq<CoraFrame>)
    requires CarriesId(reply, request) && AllCarryIds(replies, requests)
    ensures AllCarryIds([reply] + replies, [request] + requests)
  {
    hide CarriesId;
  }

  /**
   A direct-mode session answers exactly the frames that expect it, in order,
   and spawns no initial pushes; if there was a device when the connection was
   accepted, its handle is given exactly the output payloads and the feature
   reports, once each and in one order.
   */
  lemma {:induction false} DirectSessionIsFaithful(cfg: HandlerConfig, s: Session, around: seq<Surroundings>,
                                                   frames: seq<CoraFrame>)
    requires cfg.mode.DirectMode? && |around| == |frames|
    ensures var e := RespondAll(cfg, s, around, frames);
      && Transfers(e.usb) == Transfers(s.usb) + (if cfg.usb.Some? then DirectTransfers(cfg, frames) else [])
      && s.replies <= e.replies
      && AllCarryIds(e.replies[|s.replies|..], DirectExpecting(cfg, frames))
      && e.pushes == s.pushes
    decreases |frames|
  {
    hide Respond, DirectExpectsReply, AllCarryIds, CarriesId, DirectTransfer, Transfers;
    if frames == [] {
      assert s.replies[|s.replies|..] == [];
      NothingDirect();
    } else {
      var o := Respond(cfg, s.polled, around[0], frames[0]);
      var next := AddOutcome(s, o);
      OneDirectFrame(cfg, s.polled, around[0], frames[0]);
      TransfersAppend(s.usb, o.usb);
      DirectSessionIsFaithful(cfg, next, around[1..], frames[1..]);
      Assoc(Transfers(s.usb), Transfers(o.usb), if cfg.usb.Some? then DirectTransfers(cfg, frames[1..]) else []);
      var later := RespondAll(cfg, next, around[1..], frames[1..]).replies;
      if o.reply.Some? {
        assert later[|s.replies|..] == [o.reply.value] + later[|next.replies|..];
        OneMoreId(o.reply.value, later[|next.replies|..], frames[0], DirectExpecting(cfg, frames[1..]));
      } else {
        assert [] + DirectExpecting(cfg, frames[1..]) == DirectExpecting(cfg, frames[1..]);
      }
    }
  }

  /** Exactly when everything meant for the device is handed to its handle. */
  lemma {:induction false} DirectTransfersAreMadeExactly(cfg: HandlerConfig, s: Session, around: seq<Surroundings>,
                                                         frames: seq<CoraFrame>)
    requires cfg.mode.DirectMode? && |around| == |frames|
    ensures Transfers(RespondAll(cfg, s, around, frames).usb) == Transfers(s.usb) + DirectTransfers(cfg, frames)
       <==> cfg.usb.Some? || DirectTransfers(cfg, frames) == []
  {
    hide RespondAll, AllCarryIds, Transfers, DirectExpecting, DirectTransfers;
    DirectSessionIsFaithful(cfg, s, around, frames);
  }

  lemma TransfersOfOne(cfg: HandlerConfig, f: CoraFrame)
    ensures DirectTransfers(cfg, [f]) == DirectTransfer(cfg, f)
  {
    hide DirectTransfer;
    assert [f][1..] == [] && DirectTransfers(cfg, []) == [];
  }

  /** Without a device, output that asks for it is acknowledged all the same. */
  lemma {:induction false} LostWriteIsAcknowledged(cfg: HandlerConfig, polled: bool, around: Surroundings)
    requires cfg.mode.DirectMode? && cfg.usb.None?
    ensures var f := CoraFrame(NewHeader(NONE, Write, 1, 1), [0x02]);
            var o := Respond(cfg, polled, around, f);
      && DirectTransfers(cfg, [f]) == [WriteOut([0x02])]
      && o.reply == Some(CoraFrame(NewHeader(RESULT, Write, 1, 1), [0x02]))
      && o.usb == []
  {
    var f := CoraFrame(NewHeader(NONE, Write, 1, 1), [0x02]);
    TransfersOfOne(cfg, f);
    assert f.payload[..1] == [0x02];
  }

  /** ... and so is a feature report: here, brightness 50. */
  lemma {:induction false} LostReportIsAcknowledged(cfg: HandlerConfig, polled: bool, around: Surroundings)
    requires cfg.mode.DirectMode? && cfg.usb.None?
    ensures var f := CoraFrame(NewHeader(NONE, SendReport, 1, 3), [0x03, 0x08, 0x32]);
            var o := Respond(cfg, polled, around, f);
      && DirectTransfers(cfg, [f]) == [SetFeature([0x03, 0x08, 0x32])]
      && o.reply == Some(CoraFrame(NewHeader(RESULT, SendReport, 1, 1), [0x03]))
      && o.usb == []
  {
    var f := CoraFrame(NewHeader(NONE, SendReport, 1, 3), [0x03, 0x08, 0x32]);
    TransfersOfOne(cfg, f);
    assert f.payload[..1] == [0x03];
  }
}
