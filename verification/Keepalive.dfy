/** Keepalive frames, and the timer that probes a peer and gives up on it. */
module Keepalive {
  import opened Bytes
  import opened Wrappers
  import opened Cora

  const KEEPALIVE_PROBE_LEN: nat := 32
  const KEEPALIVE_ACK_LEN: nat := 32
  const KEEPALIVE_INTERVAL_MS: nat := 2500
  const TIMEOUT_DURATION_MS: nat := 5000

  /** A probe carries its connection id at payload index 5. */
  function IsKeepaliveProbe(f: CoraFrame): Option<uint8> {
    if |f.payload| >= 6 && f.payload[0] == 0x01 && f.payload[1] == 0x0a then Some(f.payload[5]) else None
  }

  function IsKeepaliveAck(f: CoraFrame): Option<uint8> {
    if |f.payload| >= 3 && f.payload[0] == 0x03 && f.payload[1] == 0x1a then Some(f.payload[2]) else None
  }

  function ProbePayload(connectionId: uint8): (p: seq<uint8>)
    ensures |p| == KEEPALIVE_PROBE_LEN
  {
    [0x01, 0x0a, 0, 0, 0, connectionId] + Zeros(26)
  }

  function AckPayload(connectionId: uint8): (p: seq<uint8>)
    ensures |p| == KEEPALIVE_ACK_LEN
  {
    [0x03, 0x1a, connectionId] + Zeros(29)
  }

  function ProbeFrame(connectionId: uint8, messageId: uint32): CoraFrame {
    CoraFrame(NewHeader(NONE, Write, messageId, KEEPALIVE_PROBE_LEN), ProbePayload(connectionId))
  }

  function AckFrame(connectionId: uint8, messageId: uint32): CoraFrame {
    CoraFrame(NewHeader(ACK_NAK, Write, messageId, KEEPALIVE_ACK_LEN), AckPayload(connectionId))
  }

  method BuildAckPayload(connectionId: uint8, out: array<uint8>)
    requires out.Length == KEEPALIVE_ACK_LEN
    modifies out
    ensures out[..] == AckPayload(connectionId)
  {
    ClearFirst(out, out.Length);
    out[0] := 0x03;
    out[1] := 0x1a;
    out[2] := connectionId;
  }

  method BuildProbePayload(connectionId: uint8, out: array<uint8>)
    requires out.Length == KEEPALIVE_PROBE_LEN
    modifies out
    ensures out[..] == ProbePayload(connectionId)
  {
    ClearFirst(out, out.Length);
    out[0] := 0x01;
    out[1] := 0x0a;
    out[5] := connectionId;
  }

  /** Probes and acknowledgements cross the wire intact and are never taken for one another. */
  lemma {:induction false} KeepaliveRoundTrip(connectionId: uint8, messageId: uint32, rest: seq<uint8>)
    ensures var probe, ack := ProbeFrame(connectionId, messageId), AckFrame(connectionId, messageId);
      && Decode(FrameBytes(probe) + rest) == Success(Some(Decoded(probe, probe.EncodedLen())))
      && Decode(FrameBytes(ack) + rest) == Success(Some(Decoded(ack, ack.EncodedLen())))
      && IsKeepaliveProbe(probe) == Some(connectionId) && IsKeepaliveAck(probe) == None
      && IsKeepaliveAck(ack) == Some(connectionId) && IsKeepaliveProbe(ack) == None
  {
    hide FrameBytes, Decode, Zeros;
    var probe, ack := ProbeFrame(connectionId, messageId), AckFrame(connectionId, messageId);
    WellFormedIsNormal(probe);
    WellFormedIsNormal(ack);
    DecodeAfterEncode(probe, rest);
    DecodeAfterEncode(ack, rest);
  }

  // ----- Timing -----

  /** What the connection task can select next: bytes from the peer, or a tick of the interval. */
  datatype TimerEvent = Data(at: nat) | Tick(at: nat)

  datatype Timer = Timer(lastReceived: nat, messageSeq: uint32, closedAt: Option<nat>, probes: seq<uint32>)

  function NewTimer(): Timer {
    Timer(0, 1, None, [])
  }

  function OnEvent(t: Timer, e: TimerEvent): Timer {
    if t.closedAt.Some? then t
    else
      match e
      case Data(at) => t.(lastReceived := at)
      case Tick(at) =>
        if at - t.lastReceived > TIMEOUT_DURATION_MS then t.(closedAt := Some(at))
        else
          var id := (t.messageSeq + 1) % 0x1_0000_0000;
          t.(messageSeq := id, probes := t.probes + [id])
  }

  function OnEvents(t: Timer, events: seq<TimerEvent>): Timer
    decreases |events|
  {
    if events == [] then t else OnEvents(OnEvent(t, events[0]), events[1..])
  }

  /**
   A schedule in real time from `now`, with `ticks` ticks behind it: times do
   not decrease, and the next tick falls due exactly at 2500 * (ticks + 1).
   Data and a tick at the same instant may come in either order.
   */
  predicate OnTime(now: nat, ticks: nat, events: seq<TimerEvent>)
    decreases |events|
  {
    events == [] ||
    match events[0]
    case Data(at) => now <= at <= KEEPALIVE_INTERVAL_MS * (ticks + 1) && OnTime(at, ticks, events[1..])
    case Tick(at) =>
      now <= at && at == KEEPALIVE_INTERVAL_MS * (ticks + 1) && OnTime(at, ticks + 1, events[1..])
  }

  /** Receptions are never more than 5000 ms apart, and the schedule ends within 5000 ms of the last one. */
  predicate Talkative(last: nat, events: seq<TimerEvent>, end: nat)
    decreases |events|
  {
    if events == [] then end - last <= TIMEOUT_DURATION_MS
    else
      match events[0]
      case Data(at) => at <= end && at - last <= TIMEOUT_DURATION_MS && Talkative(at, events[1..], end)
      case Tick(at) => at <= end && Talkative(last, events[1..], end)
  }

  lemma {:induction false} TalkativeCovers(now: nat, ticks: nat, last: nat, events: seq<TimerEvent>, end: nat)
    requires OnTime(now, ticks, events) && Talkative(last, events, end)
    requires now <= end
    ensures now - last <= TIMEOUT_DURATION_MS
    decreases |events|
  {
    if events != [] {
      match events[0]
      case Data(at) =>
      case Tick(at) => TalkativeCovers(at, ticks + 1, last, events[1..], end);
    }
  }

  /** A peer that keeps receiving gaps within the timeout is never dropped, whatever the schedule. */
  lemma {:induction false} TalkativePeerIsKept(t: Timer, now: nat, ticks: nat, events: seq<TimerEvent>, end: nat)
    requires t.closedAt.None? && t.lastReceived <= now <= end
    requires OnTime(now, ticks, events) && Talkative(t.lastReceived, events, end)
    ensures OnEvents(t, events).closedAt.None?
    decreases |events|
  {
    if events != [] {
      var e := events[0];
      match e
      case Data(at) =>
        TalkativePeerIsKept(OnEvent(t, e), at, ticks, events[1..], end);
      case Tick(at) =>
        TalkativeCovers(at, ticks + 1, t.lastReceived, events[1..], end);
        TalkativePeerIsKept(OnEvent(t, e), at, ticks + 1, events[1..], end);
    }
  }

  function TickCount(events: seq<TimerEvent>): nat {
    if events == [] then 0 else (if events[0].Tick? then 1 else 0) + TickCount(events[1..])
  }

  /** Silence: the next `n` ticks after `ticks` of them, and no data. */
  function Silence(ticks: nat, n: nat): seq<TimerEvent>
    decreases n
  {
    if n == 0 then [] else [Tick(KEEPALIVE_INTERVAL_MS * (ticks + 1))] + Silence(ticks + 1, n - 1)
  }

  lemma {:induction false} ClosedStaysClosed(t: Timer, events: seq<TimerEvent>)
    requires t.closedAt.Some?
    ensures OnEvents(t, events) == t
    decreases |events|
  {
    if events != [] {
      ClosedStaysClosed(t, events[1..]);
    }
  }

  lemma {:induction false} OnEventsAppend(t: Timer, xs: seq<TimerEvent>, ys: seq<TimerEvent>)
    ensures OnEvents(t, xs + ys) == OnEvents(OnEvents(t, xs), ys)
    decreases |xs|
  {
    hide OnEvent;
    if xs == [] {
      assert xs + ys == ys;
    } else {
      OnEventsAppend(OnEvent(t, xs[0]), xs[1..], ys);
      assert (xs + ys)[1..] == xs[1..] + ys;
    }
  }

  lemma OneSilentTick(t: Timer, ticks: nat, n: nat)
    requires n > 0
    ensures OnEvents(t, Silence(ticks, n))
         == OnEvents(OnEvent(t, Tick(KEEPALIVE_INTERVAL_MS * (ticks + 1))), Silence(ticks + 1, n - 1))
  {
    hide OnEvent;
    assert Silence(ticks, n)[1..] == Silence(ticks + 1, n - 1);
  }

  /** The closing tick, from the moment of the last byte. */
  function ClosingTick(last: nat, ticks: nat): nat {
    KEEPALIVE_INTERVAL_MS * if last == KEEPALIVE_INTERVAL_MS * (ticks + 1) then ticks + 4 else ticks + 3
  }

  lemma TickProbesOrCloses(t: Timer, at: nat)
    requires t.closedAt.None?
    ensures var e := OnEvent(t, Tick(at));
      && e.lastReceived == t.lastReceived
      && (at <= t.lastReceived + TIMEOUT_DURATION_MS ==> e.closedAt.None? && |e.probes| == |t.probes| + 1)
      && (at > t.lastReceived + TIMEOUT_DURATION_MS ==> e.closedAt == Some(at) && e.probes == t.probes)
  {
  }

  /** Until the closing tick, silence only costs probes. */
  lemma {:induction false} SilenceProbesUntil(t: Timer, ticks: nat, n: nat, closing: nat)
    requires t.closedAt.None? && ticks < closing <= ticks + n
    requires KEEPALIVE_INTERVAL_MS * (closing - 1) <= t.lastReceived + TIMEOUT_DURATION_MS
    requires t.lastReceived + TIMEOUT_DURATION_MS < KEEPALIVE_INTERVAL_MS * closing
    ensures var e := OnEvents(t, Silence(ticks, n));
      && e.closedAt == Some(KEEPALIVE_INTERVAL_MS * closing)
      && |e.probes| == |t.probes| + (closing - ticks - 1)
    decreases n
  {
    hide OnEvent, OnEvents, Silence;
    var at := KEEPALIVE_INTERVAL_MS * (ticks + 1);
    var next := OnEvent(t, Tick(at));
    OneSilentTick(t, ticks, n);
    TickProbesOrCloses(t, at);
    if ticks + 1 == closing {
      ClosedStaysClosed(next, Silence(ticks + 1, n - 1));
    } else {
      SilenceProbesUntil(next, ticks + 1, n - 1, closing);
    }
  }

  lemma SilenceCloses(t: Timer, ticks: nat, n: nat)
    requires t.closedAt.None? && n >= 4
    requires KEEPALIVE_INTERVAL_MS * ticks <= t.lastReceived <= KEEPALIVE_INTERVAL_MS * (ticks + 1)
    ensures var e := OnEvents(t, Silence(ticks, n));
      && e.closedAt == Some(ClosingTick(t.lastReceived, ticks))
      && 2 <= |e.probes| - |t.probes| <= 3
  {
    hide OnEvents, Silence;
    var closing := if t.lastReceived == KEEPALIVE_INTERVAL_MS * (ticks + 1) then ticks + 4 else ticks + 3;
    SilenceProbesUntil(t, ticks, n, closing);
  }

  lemma {:induction false} DataFallsBetweenTicks(now: nat, ticks: nat, events: seq<TimerEvent>, last: nat)
    requires OnTime(now, ticks, events + [Data(last)])
    requires KEEPALIVE_INTERVAL_MS * ticks <= now
    ensures var k := ticks + TickCount(events);
      KEEPALIVE_INTERVAL_MS * k <= last <= KEEPALIVE_INTERVAL_MS * (k + 1)
    decreases |events|
  {
    var all := events + [Data(last)];
    if events == [] {
      assert all[0] == Data(last);
    } else {
      assert all[1..] == events[1..] + [Data(last)] && all[0] == events[0];
      match events[0]
      case Data(at) => DataFallsBetweenTicks(at, ticks, events[1..], last);
      case Tick(at) => DataFallsBetweenTicks(at, ticks + 1, events[1..], last);
    }
  }

  /**
   After any history, a peer whose last byte arrives at `last` and that then
   falls silent is dropped more than 5000 and at most 7500 ms later, after two
   probes, or three if that byte came at the very moment of a tick.
   */
  lemma {:induction false} SilentPeerIsDropped(events: seq<TimerEvent>, last: nat, n: nat)
    requires OnTime(0, 0, events + [Data(last)]) && n >= 4
    requires OnEvents(NewTimer(), events).closedAt.None?
    ensures var before := OnEvents(NewTimer(), events);
            var after := OnEvents(NewTimer(), events + [Data(last)] + Silence(TickCount(events), n));
      && after.closedAt.Some?
      && last + 5000 < after.closedAt.value <= last + 7500
      && 2 <= |after.probes| - |before.probes| <= 3
  {
    var before := OnEvents(NewTimer(), events);
    DataFallsBetweenTicks(0, 0, events, last);
    OnEventsAppend(NewTimer(), events + [Data(last)], Silence(TickCount(events), n));
    OnEventsAppend(NewTimer(), events, [Data(last)]);
    var t := OnEvent(before, Data(last));
    assert OnEvents(before, [Data(last)]) == t by {
      assert [Data(last)][1..] == [];
    }
    hide OnEvents, OnEvent, OnTime, Silence;
    SilenceCloses(t, TickCount(events), n);
  }

  /** A peer that never sends anything is dropped 7500 ms after the connection was made, after two more probes. */
  lemma {:induction false} MutePeerIsDropped(n: nat)
    requires n >= 3
    ensures var t := OnEvents(NewTimer(), Silence(0, n)); t.closedAt == Some(7500) && |t.probes| == 2
  {
    hide OnEvents, OnEvent, Silence;
    SilenceProbesUntil(NewTimer(), 0, n, 3);
  }

  /** The probes sent by ticks carry the message ids 2, 3, 4 and so on, wrapping at 2^32. */
  predicate CountsUp(t: Timer) {
    && t.messageSeq == (|t.probes| + 1) % 0x1_0000_0000
    && forall i :: 0 <= i < |t.probes| ==> t.probes[i] == (i + 2) % 0x1_0000_0000
  }

  lemma EventKeepsCount(t: Timer, e: TimerEvent)
    requires CountsUp(t)
    ensures CountsUp(OnEvent(t, e))
  {
  }

  lemma {:induction false} ProbesCountUpFrom(t: Timer, events: seq<TimerEvent>)
    requires CountsUp(t)
    ensures CountsUp(OnEvents(t, events))
    decreases |events|
  {
    hide OnEvent, CountsUp;
    if events != [] {
      EventKeepsCount(t, events[0]);
      ProbesCountUpFrom(OnEvent(t, events[0]), events[1..]);
    }
  }

  lemma {:induction false} ProbesCountUp(events: seq<TimerEvent>)
    ensures CountsUp(OnEvents(NewTimer(), events))
  {
    ProbesCountUpFrom(NewTimer(), events);
  }

  /** The timer as the connection task keeps it. */
  class ConnectionTimer {
    const connectionId: uint8
    var lastReceived: nat
    var messageSeq: uint32
    var closedAt: Option<nat>
    var probes: seq<uint32>
    var tx: seq<seq<uint8>>

    ghost function State(): Timer
      reads this
    {
      Timer(lastReceived, messageSeq, closedAt, probes)
    }

    constructor (connectionId: uint8)
      ensures State() == NewTimer() && tx == [] && this.connectionId == connectionId
    {
      this.connectionId := connectionId;
      lastReceived := 0;
      messageSeq := 1;
      closedAt := None;
      probes := [];
      tx := [];
    }

    method OnData(now: nat)
      requires closedAt.None?
      modifies this`lastReceived
      ensures State() == OnEvent(old(State()), Data(now))
    {
      lastReceived := now;
    }

    /** Either the loop breaks, or one probe with the next message id is queued. */
    method OnTick(now: nat)
      requires closedAt.None?
      modifies this`messageSeq, this`closedAt, this`probes, this`tx
      ensures State() == OnEvent(old(State()), Tick(now))
      ensures closedAt.Some? ==> tx == old(tx)
      ensures closedAt.None? ==> tx == old(tx) + [FrameBytes(ProbeFrame(connectionId, messageSeq))]
    {
      hide FrameBytes;
      if now - lastReceived > TIMEOUT_DURATION_MS {
        closedAt := Some(now);
      } else {
        messageSeq := (messageSeq + 1) % 0x1_0000_0000;
        probes := probes + [messageSeq];
        var payload := new uint8[KEEPALIVE_PROBE_LEN];
        BuildProbePayload(connectionId, payload);
        var msg := ToVec(CoraFrame(NewHeader(NONE, Write, messageSeq, KEEPALIVE_PROBE_LEN), payload[..]));
        tx := tx + [msg];
      }
    }
  }
}
