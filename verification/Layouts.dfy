/** What is where on the wire: headers, keepalives, reports and events, byte by byte. */
module Layouts {
  import opened Bytes
  import opened Cora
  import opened Reports
  import opened Keepalive
  import opened Surface

  /** Numbers are sent with their low byte first. */
  lemma {:induction false} LittleEndian(b0: uint8, b1: uint8, b2: uint8, b3: uint8)
    ensures LeBytes16(b0 + 0x100 * b1) == [b0, b1]
    ensures LeBytes32(b0 + 0x100 * b1 + 0x1_0000 * b2 + 0x100_0000 * b3) == [b0, b1, b2, b3]
  {
    hide LeBytes16, LeBytes32;
    LeBytes16Unique(b0, b1);
    LeBytes32Unique(b0, b1, b2, b3);
    assert FromLe32(b0, b1, b2, b3) == b0 + 0x100 * b1 + 0x1_0000 * b2 + 0x100_0000 * b3;
  }

  /** The fields of a header in their places. */
  lemma {:induction false} HeaderLayout(h: CoraHeader)
    ensures HeaderBytes(h)
         == [0x43, 0x93, 0x8a, 0x41] + LeBytes16(h.flags)
            + [match h.hidOp { case Write => 0 case SendReport => 1 case GetReport => 2 }, h.reserved]
            + LeBytes32(h.messageId) + LeBytes32(h.payloadLen)
  {
    hide LeBytes16, LeBytes32;
  }

  /** A frame on the wire: its header, with the payload's true length, and the payload. */
  lemma {:induction false} FrameLayout(f: CoraFrame)
    requires |f.payload| < 0x1_0000_0000
    ensures FrameBytes(f) == HeaderBytes(f.header.(payloadLen := |f.payload|)) + f.payload
  {
    TruncationIsExact(|f.payload|);
    hide HeaderBytes;
  }

  /** Flags 0xc000, a GetReport, message id 0x12345678, 42 bytes of payload. */
  lemma {:induction false} KnownHeader()
    ensures HeaderBytes(CoraHeader(0xc000, GetReport, 0, 0x12345678, 42))
         == [0x43, 0x93, 0x8a, 0x41, 0x00, 0xc0, 0x02, 0x00, 0x78, 0x56, 0x34, 0x12, 0x2a, 0x00, 0x00, 0x00]
  {
    hide LeBytes16, LeBytes32, HeaderBytes;
    HeaderLayout(CoraHeader(0xc000, GetReport, 0, 0x12345678, 42));
    LittleEndian(0x00, 0xc0, 0, 0);
    LittleEndian(0x78, 0x56, 0x34, 0x12);
    LittleEndian(0x2a, 0, 0, 0);
  }

  /** Exactly which input is in error, and how; all other input decodes or waits. */
  lemma {:induction false} DecodeFailsExactly(buf: seq<uint8>)
    ensures Decode(buf).Failure? <==> |buf| >= 16 && (buf[..4] != [0x43, 0x93, 0x8a, 0x41] || buf[6] > 2)
    ensures Decode(buf).Failure? ==>
      Decode(buf).error == if buf[..4] != [0x43, 0x93, 0x8a, 0x41] then InvalidMagic else UnknownHidOp(buf[6])
  {
    if |buf| >= 16 {
      MagicAtIsSlice(buf, 0);
      assert buf[..16][6] == buf[6];
    }
  }

  lemma {:induction false} KeepaliveLayout(connectionId: uint8, messageId: uint32)
    ensures ProbeFrame(connectionId, messageId)
         == CoraFrame(CoraHeader(0x0000, Write, 0, messageId, 32), [0x01, 0x0a, 0, 0, 0, connectionId] + Zeros(26))
    ensures AckFrame(connectionId, messageId)
         == CoraFrame(CoraHeader(0x0200, Write, 0, messageId, 32), [0x03, 0x1a, connectionId] + Zeros(29))
  {
  }

  /** A text field: at most 31 bytes of it, then zeros to the end of the field. */
  predicate TextAt(p: seq<uint8>, at: nat, size: nat, text: seq<uint8>) {
    && at + size <= |p| && |text| <= size
    && p[at..at + |text|] == text
    && forall i :: at + |text| <= i < at + size ==> p[i] == 0
  }

  /** The report of a device, field by field. */
  lemma {:induction false} ReportLayout(c: ChildDeviceInfo, isPush: bool, requestedSlot: uint8)
    requires c.connected
    ensures var p := Payload(c, isPush, requestedSlot);
      && p[..6] == (if isPush then [0x01, 0x0b] else [0x03, 0x1c]) + [124, 0, 0x02, c.slotIndex]
      && TextAt(p, 6, 20, [])
      && p[26..28] == LeBytes16(c.vendorId) && p[28..30] == LeBytes16(c.productId) && p[30..32] == [0x00, 0x01]
      && TextAt(p, 32, 32, FirstBytes(c.productName, Min(c.productNameLen, 31)))
      && TextAt(p, 64, 30, [0x45, 0x6c, 0x67, 0x61, 0x74, 0x6f])
      && TextAt(p, 94, 32, FirstBytes(c.serialNumber, Min(c.serialLen, 31)))
      && p[126..] == LeBytes16(c.tcpPort)
  {
    hide LeBytes16, FirstBytes;
  }

  /** The report of an empty slot: its number, and nothing else. */
  lemma {:induction false} EmptyReportLayout(c: ChildDeviceInfo, isPush: bool, requestedSlot: uint8)
    requires !c.connected
    ensures Payload(c, isPush, requestedSlot)
         == (if isPush then [0x01, 0x0b] else [0x03, 0x1c]) + [124, 0, 0x00, requestedSlot] + Zeros(122)
  {
  }

  /** The record of an empty slot: nothing but its number. */
  lemma {:induction false} EmptyRecord(slot: uint8)
    ensures var c := Disconnected(slot);
      && c.slotIndex == slot && !c.connected
      && c.vendorId == c.productId == c.tcpPort == 0
      && c.productNameLen == c.serialLen == 0
      && c.productName == Zeros(32) && c.serialNumber == Zeros(32)
  {
  }

  lemma {:induction false} PushLayout(payload: seq<uint8>)
    requires |payload| == 128
    ensures PushFrame(payload) == CoraFrame(CoraHeader(0x0000, Write, 0, 0, 128), payload)
  {
  }

  /** A key event: type 0, eight keys, at most one of them marked. */
  lemma {:induction false} KeyEventLayout(k: uint8)
    ensures EventReport(KeyDown(k))[..12]
         == [0x01, 0x00, 0x08, 0x00] + seq(8, i => if i == (if k < 7 then k else 7) then 1 else 0)
    ensures TextAt(EventReport(KeyDown(k)), 12, 500, [])
    ensures EventReport(KeyUp(k)) == [0x01, 0x00, 0x08, 0x00] + Zeros(508)
  {
  }

  lemma {:induction false} DialEventLayout(dial: uint8, delta: int8)
    ensures EventReport(DialRotate(dial, delta))
         == [0x01, 0x03, dial, if delta < 0 then 0x100 + delta else delta] + Zeros(508)
    ensures EventReport(DialPress(dial)) == [0x01, 0x03, dial, 0x01] + Zeros(508)
    ensures EventReport(DialRelease(dial)) == [0x01, 0x03, dial, 0x00] + Zeros(508)
  {
  }

  lemma {:induction false} TouchEventLayout(dial: uint8, x: uint16, y: uint16)
    ensures var r := EventReport(TouchTap(dial, x, y));
      r[..8] == [0x01, 0x02, dial, 0x00, x % 0x100, x / 0x100, y % 0x100, y / 0x100] && TextAt(r, 8, 504, [])
  {
  }

  /** An event is pushed as a `Write` without flags and with message id 0. */
  lemma {:induction false} EventFrameLayout(e: SurfaceEvent)
    ensures EventFrame(e).header == CoraHeader(0x0000, Write, 0, 0, 512) && EventFrame(e).payload == EventReport(e)
  {
    hide EventReport;
  }
}
