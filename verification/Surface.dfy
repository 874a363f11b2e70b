/** The input events of an embedded surface, and the 512-byte reports that carry them to the client. */
module Surface {
  import opened Bytes
  import opened Cora

  const EVENT_REPORT_SIZE: nat := 512

  type int8 = x: int | -0x80 <= x < 0x80

  datatype SurfaceEvent =
    | KeyDown(keyIndex: uint8)
    | KeyUp(keyIndex: uint8)
    | DialRotate(dialIndex: uint8, delta: int8)
    | DialPress(dialIndex: uint8)
    | DialRelease(dialIndex: uint8)
    | TouchTap(dialIndex: uint8, x: uint16, y: uint16)

  /** `delta as u8`. */
  function AsByte(delta: int8): uint8 {
    if delta < 0 then delta + 0x100 else delta
  }

  /** Reports have room for eight keys; later ones are shown as the eighth. */
  function ShownKey(keyIndex: uint8): nat {
    Min(keyIndex, 7)
  }

  function EventReport(e: SurfaceEvent): (r: seq<uint8>)
    ensures |r| == EVENT_REPORT_SIZE
  {
    match e
    case KeyDown(k) => [0x01, 0x00, 0x08, 0x00] + Splice(Zeros(508), ShownKey(k), [0x01])
    case KeyUp(_) => [0x01, 0x00, 0x08, 0x00] + Zeros(508)
    case DialRotate(dial, delta) => [0x01, 0x03, dial, AsByte(delta)] + Zeros(508)
    case DialPress(dial) => [0x01, 0x03, dial, 0x01] + Zeros(508)
    case DialRelease(dial) => [0x01, 0x03, dial, 0x00] + Zeros(508)
    case TouchTap(dial, x, y) => [0x01, 0x02, dial, 0x00] + LeBytes16(x) + LeBytes16(y) + Zeros(504)
  }

  method EncodeSurfaceEvent(event: SurfaceEvent, out: array<uint8>) returns (len: nat)
    requires out.Length == EVENT_REPORT_SIZE
    modifies out
    ensures out[..] == EventReport(event) && len == EVENT_REPORT_SIZE
  {
    ClearFirst(out, out.Length);
    out[0] := 0x01;
    len := EVENT_REPORT_SIZE;
    match event
    case KeyDown(keyIndex) =>
      out[1], out[2] := 0x00, 0x08;
      var idx := Min(keyIndex, 7);
      out[4 + idx] := 0x01;
    case KeyUp(_) => out[1], out[2] := 0x00, 0x08;
    case DialRotate(dialIndex, delta) => out[1], out[2], out[3] := 0x03, dialIndex, AsByte(delta);
    case DialPress(dialIndex) => out[1], out[2], out[3] := 0x03, dialIndex, 0x01;
    case DialRelease(dialIndex) => out[1], out[2], out[3] := 0x03, dialIndex, 0x00;
    case TouchTap(dialIndex, x, y) =>
      out[1], out[2] := 0x02, dialIndex;
      CopyInto(out, 4, LeBytes16(x));
      CopyInto(out, 6, LeBytes16(y));
  }

  // ----- What a client can tell -----

  /** The first key from byte `at` on that is marked; the keys are in bytes 4 to 11. */
  function PressedKey(r: seq<uint8>, at: nat): (p: nat)
    requires |r| == EVENT_REPORT_SIZE && 4 <= at <= 12
    ensures at <= p <= 12
    ensures p < 12 ==> r[p] == 0x01
    ensures forall i :: at <= i < p ==> r[i] != 0x01
    decreases 12 - at
  {
    if at == 12 || r[at] == 0x01 then at else PressedKey(r, at + 1)
  }

  function FromByte(b: uint8): int8 {
    if b < 0x80 then b else b - 0x100
  }

  /** The client's reading of a report. */
  function ReadEvent(r: seq<uint8>): SurfaceEvent
    requires |r| == EVENT_REPORT_SIZE
  {
    if r[1] == 0x02 then TouchTap(r[2], FromLe16(r[4], r[5]), FromLe16(r[6], r[7]))
    else if r[1] == 0x03 then
      if r[3] == 0 then DialRelease(r[2])
      else if r[3] == 1 then DialPress(r[2])
      else DialRotate(r[2], FromByte(r[3]))
    else
      var at := PressedKey(r, 4);
      if at < 12 then KeyDown(at - 4) else KeyUp(0)
  }

  /** What remains of an event on the wire. */
  function Canonical(e: SurfaceEvent): SurfaceEvent {
    match e
    case KeyDown(k) => KeyDown(ShownKey(k))
    case KeyUp(_) => KeyUp(0)
    case DialRotate(dial, delta) => if delta == 0 then DialRelease(dial) else if delta == 1 then DialPress(dial) else e
    case _ => e
  }

  lemma ReadKey(k: uint8)
    ensures ReadEvent(EventReport(KeyDown(k))) == KeyDown(ShownKey(k))
    ensures EventReport(KeyDown(ShownKey(k))) == EventReport(KeyDown(k))
  {
    var r := EventReport(KeyDown(k));
    assert r[4 + ShownKey(k)] == 0x01;
    assert forall i :: 4 <= i < 12 && i != 4 + ShownKey(k) ==> r[i] == 0;
  }

  lemma ReadNoKey(k: uint8)
    ensures ReadEvent(EventReport(KeyUp(k))) == KeyUp(0) && EventReport(KeyUp(0)) == EventReport(KeyUp(k))
  {
  }

  lemma ReadDial(dial: uint8, b: uint8)
    ensures ReadEvent([0x01, 0x03, dial, b] + Zeros(508))
         == if b == 0 then DialRelease(dial) else if b == 1 then DialPress(dial) else DialRotate(dial, FromByte(b))
  {
  }

  lemma ReadTouch(dial: uint8, x: uint16, y: uint16)
    ensures ReadEvent(EventReport(TouchTap(dial, x, y))) == TouchTap(dial, x, y)
  {
    hide LeBytes16;
  }

  lemma ReadAfterReport(e: SurfaceEvent)
    ensures ReadEvent(EventReport(e)) == Canonical(e)
    ensures EventReport(Canonical(e)) == EventReport(e)
  {
    hide ReadEvent, Zeros;
    match e
    case KeyDown(k) => ReadKey(k);
    case KeyUp(k) => ReadNoKey(k);
    case DialRotate(dial, delta) => ReadDial(dial, AsByte(delta));
    case DialPress(dial) => ReadDial(dial, 1);
    case DialRelease(dial) => ReadDial(dial, 0);
    case TouchTap(dial, x, y) => ReadTouch(dial, x, y);
  }

  /**
   Two events look alike to the client exactly when they are equal but for the
   index of a released key, or of a pressed one from the eighth on, and for a
   turn by one step, which is a press, and a turn by none, a release.
   */
  lemma {:induction false} EventsLookAlikeExactly(a: SurfaceEvent, b: SurfaceEvent)
    ensures EventReport(a) == EventReport(b) <==> Canonical(a) == Canonical(b)
  {
    hide EventReport, ReadEvent, Canonical;
    ReadAfterReport(a);
    ReadAfterReport(b);
  }

  lemma {:induction false} TurnLooksLikePress(dial: uint8)
    ensures EventReport(DialRotate(dial, 1)) == EventReport(DialPress(dial))
    ensures EventReport(DialRotate(dial, 0)) == EventReport(DialRelease(dial))
  {
  }

  /** The push: an unsolicited `Write` without flags and with message id 0. */
  function EventFrame(e: SurfaceEvent): CoraFrame {
    CoraFrame(NewHeader(NONE, Write, 0, EVENT_REPORT_SIZE), EventReport(e))
  }
}
