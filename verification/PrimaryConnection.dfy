/** The primary connection's read branch: the drain loop with the frame handler called inside it. */
module PrimaryConnection {
  import opened Bytes
  import opened Wrappers
  import opened Cora
  import opened Stream
  import opened Resync
  import opened Delivery
  import opened Receivers
  import opened Dock
  import opened Primary

  /** The dock after other tasks have had `n` turns at it. */
  function DockAfter(d: Dock, meanwhile: nat -> seq<DockOp>, n: nat): Dock {
    if n == 0 then d else ApplyAll(DockAfter(d, meanwhile, n - 1), meanwhile(n - 1))
  }

  /** What the first `n` frames of a read meet: the dock as the others left it, and the device's answers. */
  function Met(d: Dock, meanwhile: nat -> seq<DockOp>, reports: nat -> Option<seq<uint8>>,
               n: nat): (r: seq<Surroundings>)
    ensures |r| == n
    ensures forall i :: 0 <= i < n ==> r[i] == Surroundings(DockAfter(d, meanwhile, i + 1), reports(i))
  {
    seq(n, i requires 0 <= i < n => Surroundings(DockAfter(d, meanwhile, i + 1), reports(i)))
  }

  lemma MetOneMore(d: Dock, meanwhile: nat -> seq<DockOp>, reports: nat -> Option<seq<uint8>>, n: nat)
    ensures Met(d, meanwhile, reports, n + 1)
         == Met(d, meanwhile, reports, n) + [Surroundings(DockAfter(d, meanwhile, n + 1), reports(n))]
  {
  }

  lemma {:induction false} RespondAllOneMore(cfg: HandlerConfig, s: Session, around: seq<Surroundings>,
                                             frames: seq<CoraFrame>, a: Surroundings, f: CoraFrame)
    requires |around| == |frames|
    ensures var e := RespondAll(cfg, s, around, frames);
            RespondAll(cfg, s, around + [a], frames + [f]) == AddOutcome(e, Respond(cfg, e.polled, a, f))
    decreases |frames|
  {
    hide Respond, AddOutcome;
    if frames == [] {
      assert around + [a] == [a] && frames + [f] == [f];
      assert [f][1..] == [] && [a][1..] == [];
    } else {
      var next := AddOutcome(s, Respond(cfg, s.polled, around[0], frames[0]));
      RespondAllOneMore(cfg, next, around[1..], frames[1..], a, f);
      assert (around + [a])[1..] == around[1..] + [a] && (frames + [f])[1..] == frames[1..] + [f];
    }
  }

  class PrimaryConnection {
    const handler: FrameHandler
    const input: GrowableReceiver

    constructor (handler: FrameHandler)
      ensures this.handler == handler && fresh(input) && input.readBuf == []
    {
      this.handler := handler;
      input := new GrowableReceiver();
    }

    /** What the handler's fields say after a session that started from the given values. */
    ghost predicate Shows(e: Session, tx0: seq<seq<uint8>>, spawned0: seq<CoraFrame>, usb0: seq<UsbOp>)
      reads handler
    {
      && handler.hasSentInitialHotplug == e.polled
      && handler.tx == tx0 + EncodedFrames(e.replies)
      && handler.spawned == spawned0 + e.pushes
      && handler.usbOps == usb0 + e.usb
    }

    /** The watcher has its turn at the dock, and then the frame is handled. */
    method HandleAt(f: CoraFrame, k: nat, reports: nat -> Option<seq<uint8>>, meanwhile: nat -> seq<DockOp>,
                    ghost done: seq<CoraFrame>, ghost d: Dock, ghost start: Session,
                    ghost tx0: seq<seq<uint8>>, ghost spawned0: seq<CoraFrame>, ghost usb0: seq<UsbOp>)
      requires k == |done| && handler.state.Valid() && handler.state.State() == DockAfter(d, meanwhile, k)
      requires Shows(RespondAll(handler.config, start, Met(d, meanwhile, reports, k), done), tx0, spawned0, usb0)
      modifies handler, handler.state, handler.state.slots
      ensures handler.state.Valid() && handler.state.State() == DockAfter(d, meanwhile, k + 1)
      ensures Shows(RespondAll(handler.config, start, Met(d, meanwhile, reports, k + 1), done + [f]),
                    tx0, spawned0, usb0)
    {
      hide RespondAll, EncodedFrames, ApplyAll, PrimaryConnection.Shows;
      handler.state.ApplyOps(meanwhile(k));
      HandleNext(f, reports(k), done, Met(d, meanwhile, reports, k), start, tx0, spawned0, usb0);
      MetOneMore(d, meanwhile, reports, k);
    }

    /** One frame handled after those of `done`. */
    method HandleNext(f: CoraFrame, report: Option<seq<uint8>>,
                      ghost done: seq<CoraFrame>, ghost around: seq<Surroundings>, ghost start: Session,
                      ghost tx0: seq<seq<uint8>>, ghost spawned0: seq<CoraFrame>, ghost usb0: seq<UsbOp>)
      requires handler.state.Valid() && |around| == |done|
      requires Shows(RespondAll(handler.config, start, around, done), tx0, spawned0, usb0)
      modifies handler
      ensures Shows(RespondAll(handler.config, start, around + [Surroundings(handler.state.State(), report)],
                               done + [f]),
                    tx0, spawned0, usb0)
    {
      hide Respond, RespondAll, EncodedFrames, QueuedBytes;
      ghost var a := Surroundings(handler.state.State(), report);
      ghost var e := RespondAll(handler.config, start, around, done);
      ghost var o := Respond(handler.config, e.polled, a, f);
      RespondAllOneMore(handler.config, start, around, done, a, f);
      EncodedOneMore(e.replies, o.reply);
      handler.HandleFrame(f, report);
      Assoc(tx0, EncodedFrames(e.replies), QueuedBytes(o.reply));
      Assoc(spawned0, e.pushes, o.pushes);
      Assoc(usb0, e.usb, o.usb);
    }

    /**
     One read: every complete frame is handled in order, and the rest stays
     buffered.  Before the k-th frame the watcher does `meanwhile(k)` to the dock.
     */
    method OnRead(chunk: seq<uint8>, reports: nat -> Option<seq<uint8>>, meanwhile: nat -> seq<DockOp>)
      returns (frames: seq<CoraFrame>)
      requires handler.state.Valid()
      modifies input, handler, handler.state, handler.state.slots
      ensures Drained(frames, input.readBuf) == Drain(old(input.readBuf) + chunk)
      ensures handler.state.Valid()
      ensures handler.state.State() == DockAfter(old(handler.state.State()), meanwhile, |frames|)
      ensures Shows(RespondAll(handler.config, NEW_SESSION.(polled := old(handler.hasSentInitialHotplug)),
                               Met(old(handler.state.State()), meanwhile, reports, |frames|), frames),
                    old(handler.tx), old(handler.spawned), old(handler.usbOps))
    {
      hide Drain, RespondAll, PrimaryConnection.Shows;
      ghost var start := NEW_SESSION.(polled := handler.hasSentInitialHotplug);
      NothingShown(start, []);
      frames := HandleRead(chunk, reports, meanwhile, [], handler.state.State(), start,
                           handler.tx, handler.spawned, handler.usbOps);
      assert [] + frames == frames;
    }

    /**
     A read that comes after the frames of `before` have been handled; the frames
     of the connection are numbered through.
     */
    method HandleRead(chunk: seq<uint8>, reports: nat -> Option<seq<uint8>>, meanwhile: nat -> seq<DockOp>,
                      before: seq<CoraFrame>, ghost d: Dock, ghost start: Session,
                      ghost tx0: seq<seq<uint8>>, ghost spawned0: seq<CoraFrame>, ghost usb0: seq<UsbOp>)
      returns (frames: seq<CoraFrame>)
      requires handler.state.Valid() && handler.state.State() == DockAfter(d, meanwhile, |before|)
      requires Shows(RespondAll(handler.config, start, Met(d, meanwhile, reports, |before|), before),
                     tx0, spawned0, usb0)
      modifies input, handler, handler.state, handler.state.slots
      ensures Drained(frames, input.readBuf) == Drain(old(input.readBuf) + chunk)
      ensures handler.state.Valid() && handler.state.State() == DockAfter(d, meanwhile, |before + frames|)
      ensures Shows(RespondAll(handler.config, start, Met(d, meanwhile, reports, |before + frames|), before + frames),
                    tx0, spawned0, usb0)
    {
      hide Drain, RespondAll, EncodedFrames, ApplyAll, DockAfter, Met, PrimaryConnection.Shows;
      frames := [];
      assert before + [] == before;
      input.Append(chunk);
      ghost var all := Drain(input.readBuf);
      while input.readBuf != []
        invariant handler.state.Valid() && handler.state.State() == DockAfter(d, meanwhile, |before + frames|)
        invariant frames + Drain(input.readBuf).frames == all.frames
        invariant Drain(input.readBuf).residual == all.residual
        invariant Shows(RespondAll(handler.config, start, Met(d, meanwhile, reports, |before + frames|),
                                   before + frames),
                        tx0, spawned0, usb0)
        decreases |input.readBuf|
      {
        var action := input.Turn();
        match action
        case Emit(f, _) =>
          var k := |before + frames|;
          Assoc(frames, [f], Drain(input.readBuf).frames);
          Assoc(before, frames, [f]);
          HandleAt(f, k, reports, meanwhile, before + frames, d, start, tx0, spawned0, usb0);
          frames := frames + [f];
        case Skip(_) =>
        case Await => return;
        case Clear => return;
      }
      NothingToDrain();
    }

    /** All the reads of a connection. */
    method HandleConnection(chunks: seq<seq<uint8>>, reports: nat -> Option<seq<uint8>>, meanwhile: nat -> seq<DockOp>)
      returns (frames: seq<CoraFrame>)
      requires handler.state.Valid() && input.readBuf == []
      modifies input, handler, handler.state, handler.state.slots
      ensures Drained(frames, input.readBuf) == Run([], chunks)
      ensures handler.state.Valid()
      ensures handler.state.State() == DockAfter(old(handler.state.State()), meanwhile, |frames|)
      ensures Shows(RespondAll(handler.config, NEW_SESSION.(polled := old(handler.hasSentInitialHotplug)),
                               Met(old(handler.state.State()), meanwhile, reports, |frames|), frames),
                    old(handler.tx), old(handler.spawned), old(handler.usbOps))
    {
      hide Run, Drain, RespondAll, PrimaryConnection.Shows;
      ghost var d := handler.state.State();
      ghost var start := NEW_SESSION.(polled := handler.hasSentInitialHotplug);
      frames := [];
      NothingRead(chunks);
      NothingShown(start, []);
      for i := 0 to |chunks|
        invariant Drained(frames, input.readBuf) == Run([], chunks[..i])
        invariant handler.state.Valid() && handler.state.State() == DockAfter(d, meanwhile, |frames|)
        invariant Shows(RespondAll(handler.config, start, Met(d, meanwhile, reports, |frames|), frames),
                        old(handler.tx), old(handler.spawned), old(handler.usbOps))
      {
        RunOneMore(chunks, i);
        var more := HandleRead(chunks[i], reports, meanwhile, frames, d, start,
                               old(handler.tx), old(handler.spawned), old(handler.usbOps));
        frames := frames + more;
      }
      assert chunks[..|chunks|] == chunks;
    }

    lemma NothingShown(start: Session, around: seq<Surroundings>)
      requires start == NEW_SESSION.(polled := handler.hasSentInitialHotplug) && around == []
      ensures Shows(RespondAll(handler.config, start, around, []), handler.tx, handler.spawned, handler.usbOps)
    {
      assert EncodedFrames([]) == [];
    }
  }
}
