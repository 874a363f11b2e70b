/** The `Device2Info` report that describes one child device, on the wire and in memory. */
module Reports {
  import opened Bytes
  import opened Wrappers
  import opened Cora

  type Bytes32 = s: seq<uint8> | |s| == 32 witness seq(32, _ => 0)

  const REPORT_SIZE: nat := 128

  datatype ChildDeviceInfo = ChildDeviceInfo(
    slotIndex: uint8,
    connected: bool,
    vendorId: uint16,
    productId: uint16,
    productName: Bytes32,
    productNameLen: nat,
    serialNumber: Bytes32,
    serialLen: nat,
    tcpPort: uint16
  )

  function PadTo32(bs: seq<uint8>): (r: Bytes32)
    requires |bs| <= 32
    ensures r[..|bs|] == bs && forall i :: |bs| <= i < 32 ==> r[i] == 0
  {
    bs + Zeros(32 - |bs|)
  }

  function FirstBytes(bs: seq<uint8>, n: nat): (r: seq<uint8>)
    ensures |r| == Min(|bs|, n) && r <= bs
  {
    bs[..Min(|bs|, n)]
  }

  function Disconnected(slotIndex: uint8): ChildDeviceInfo {
    ChildDeviceInfo(slotIndex, false, 0, 0, PadTo32([]), 0, PadTo32([]), 0, 0)
  }

  /** Names and serials keep their first 31 bytes. */
  function Connected(slotIndex: uint8, vendorId: uint16, productId: uint16,
                     productName: seq<uint8>, serial: seq<uint8>, tcpPort: uint16): ChildDeviceInfo
  {
    var name := FirstBytes(productName, 31);
    var kept := FirstBytes(serial, 31);
    ChildDeviceInfo(slotIndex, true, vendorId, productId, PadTo32(name), |name|, PadTo32(kept), |kept|, tcpPort)
  }

  function FirstNul(s: seq<uint8>): (n: nat)
    ensures n <= |s| && (forall i :: 0 <= i < n ==> s[i] != 0) && (n < |s| ==> s[n] == 0)
  {
    if s == [] || s[0] == 0 then 0 else 1 + FirstNul(s[1..])
  }

  predicate NulFree(s: seq<uint8>) {
    forall i :: 0 <= i < |s| ==> s[i] != 0
  }

  function Parse(buf: seq<uint8>): Result<Option<ChildDeviceInfo>, ProtocolError> {
    if |buf| < REPORT_SIZE then Failure(BufferTooSmall)
    else if buf[4] != 0x02 then Success(None)
    else
      var nameSlice := buf[32..64];
      var nameLen := FirstNul(nameSlice);
      var serialSlice := buf[94..126];
      var serialLen := FirstNul(serialSlice);
      Success(Some(ChildDeviceInfo(
                     buf[5], true,
                     FromLe16(buf[26], buf[27]),
                     FromLe16(buf[28], buf[29]),
                     PadTo32(nameSlice[..nameLen]), nameLen,
                     PadTo32(serialSlice[..serialLen]), serialLen,
                     FromLe16(buf[126], buf[127]))))
  }

  const MANUFACTURER: seq<uint8> := [0x45, 0x6c, 0x67, 0x61, 0x74, 0x6f]

  function ByteOr0(bs: seq<uint8>, i: nat): uint8 {
    if i < |bs| then bs[i] else 0
  }

  /** The layout of the report, byte by byte. */
  function PayloadByte(c: ChildDeviceInfo, isPush: bool, requestedSlot: uint8, i: nat): uint8 {
    if i == 0 then (if isPush then 0x01 else 0x03)
    else if i == 1 then (if isPush then 0x0b else 0x1c)
    else if i == 2 then 124
    else if i == 4 then (if c.connected then 0x02 else 0x00)
    else if i == 5 then (if c.connected then c.slotIndex else requestedSlot)
    else if !c.connected then 0
    else if 26 <= i < 28 then LeBytes16(c.vendorId)[i - 26]
    else if 28 <= i < 30 then LeBytes16(c.productId)[i - 28]
    else if i == 31 then 0x01
    else if 32 <= i < 64 then ByteOr0(FirstBytes(c.productName, Min(c.productNameLen, 31)), i - 32)
    else if 64 <= i < 94 then ByteOr0(MANUFACTURER, i - 64)
    else if 94 <= i < 126 then ByteOr0(FirstBytes(c.serialNumber, Min(c.serialLen, 31)), i - 94)
    else if 126 <= i < 128 then LeBytes16(c.tcpPort)[i - 126]
    else 0
  }

  function Payload(c: ChildDeviceInfo, isPush: bool, requestedSlot: uint8): (p: seq<uint8>)
    ensures |p| == REPORT_SIZE
    ensures forall i :: 0 <= i < REPORT_SIZE ==> p[i] == PayloadByte(c, isPush, requestedSlot, i)
  {
    seq(REPORT_SIZE, i requires 0 <= i < REPORT_SIZE => PayloadByte(c, isPush, requestedSlot, i))
  }

  method BuildPayload(c: ChildDeviceInfo, isPush: bool, requestedSlot: uint8, out: array<uint8>)
    requires out.Length == REPORT_SIZE
    modifies out
    ensures out[..] == Payload(c, isPush, requestedSlot)
  {
    ClearFirst(out, REPORT_SIZE);
    if isPush {
      out[0], out[1] := 0x01, 0x0b;
    } else {
      out[0], out[1] := 0x03, 0x1c;
    }
    CopyInto(out, 2, LeBytes16(124));
    if c.connected {
      WriteIdentity(c, out);
      WriteText(c, out);
      assert forall i :: 0 <= i < REPORT_SIZE ==> out[i] == PayloadByte(c, isPush, requestedSlot, i);
    } else {
      out[4] := 0x00;
      out[5] := requestedSlot;
    }
  }

  /** Status, slot, USB ids and revision of a connected device. */
  method WriteIdentity(c: ChildDeviceInfo, out: array<uint8>)
    requires out.Length == REPORT_SIZE && c.connected
    requires forall i :: 4 <= i < 32 ==> out[i] == 0
    modifies out
    ensures forall i :: 0 <= i < REPORT_SIZE ==>
      out[i] == if 4 <= i < 32 then PayloadByte(c, true, c.slotIndex, i) else old(out[i])
  {
    out[4] := 0x02;
    out[5] := c.slotIndex;
    CopyInto(out, 26, LeBytes16(c.vendorId));
    CopyInto(out, 28, LeBytes16(c.productId));
    out[30] := 0x00;
    out[31] := 0x01;
  }

  /** Name, manufacturer, serial and port of a connected device. */
  method WriteText(c: ChildDeviceInfo, out: array<uint8>)
    requires out.Length == REPORT_SIZE && c.connected
    requires forall i :: 32 <= i < REPORT_SIZE ==> out[i] == 0
    modifies out
    ensures forall i :: 0 <= i < REPORT_SIZE ==>
      out[i] == if 32 <= i then PayloadByte(c, true, c.slotIndex, i) else old(out[i])
  {
    CopyInto(out, 32, FirstBytes(c.productName, Min(c.productNameLen, 31)));
    CopyInto(out, 64, MANUFACTURER);
    CopyInto(out, 94, FirstBytes(c.serialNumber, Min(c.serialLen, 31)));
    CopyInto(out, 126, LeBytes16(c.tcpPort));
  }

  // ----- What a client reads back -----

  /** The bytes of a fixed field that survive: at most 31, up to the first NUL. */
  function Visible(field: seq<uint8>, len: nat): (v: seq<uint8>)
    ensures |v| <= 31 && v <= field && NulFree(v)
  {
    var kept := FirstBytes(field, Min(len, 31));
    kept[..FirstNul(kept)]
  }

  function ClientView(c: ChildDeviceInfo): ChildDeviceInfo {
    var name := Visible(c.productName, c.productNameLen);
    var serial := Visible(c.serialNumber, c.serialLen);
    c.(productName := PadTo32(name), productNameLen := |name|,
       serialNumber := PadTo32(serial), serialLen := |serial|)
  }

  /** A field written into a zeroed 32-byte slot is read back up to its first NUL. */
  lemma FieldRoundTrip(slot: seq<uint8>, field: seq<uint8>)
    requires |slot| == 32 && |field| <= 31
    requires forall i :: 0 <= i < 32 ==> slot[i] == ByteOr0(field, i)
    ensures slot[..FirstNul(slot)] == field[..FirstNul(field)]
  {
    assert slot[|field|] == 0;
    var n := FirstNul(field);
    assert forall i :: 0 <= i < n ==> slot[i] == field[i];
    assert slot[n] == 0;
    assert FirstNul(slot) == n;
  }

  /** For every device and both report prefixes, `parse` after `build_payload` yields what survives truncation. */
  lemma {:induction false} ParseAfterBuild(c: ChildDeviceInfo, isPush: bool, requestedSlot: uint8)
    ensures Parse(Payload(c, isPush, requestedSlot)) == Success(if c.connected then Some(ClientView(c)) else None)
  {
    var p := Payload(c, isPush, requestedSlot);
    if c.connected {
      var name := FirstBytes(c.productName, Min(c.productNameLen, 31));
      var serial := FirstBytes(c.serialNumber, Min(c.serialLen, 31));
      forall i | 0 <= i < 32
        ensures p[32..64][i] == ByteOr0(name, i) && p[94..126][i] == ByteOr0(serial, i)
      {
        assert p[32..64][i] == p[32 + i] && p[94..126][i] == p[94 + i];
      }
      FieldRoundTrip(p[32..64], name);
      FieldRoundTrip(p[94..126], serial);
    }
  }

  lemma VisibleOfPadded(bs: seq<uint8>)
    requires |bs| <= 31
    ensures PadTo32(Visible(PadTo32(bs), |bs|)) == PadTo32(bs) && |Visible(PadTo32(bs), |bs|)| == |bs|
       <==> NulFree(bs)
  {
    assert FirstBytes(PadTo32(bs), |bs|) == bs;
    assert bs[..FirstNul(bs)] == bs <==> NulFree(bs);
  }

  /** The report round-trips exactly when the 31 bytes kept of the name and of the serial hold no NUL. */
  lemma {:induction false} RoundTripIsExact(slot: uint8, vid: uint16, pid: uint16, name: seq<uint8>,
                                            serial: seq<uint8>, port: uint16, isPush: bool, requestedSlot: uint8)
    ensures var c := Connected(slot, vid, pid, name, serial, port);
            (Parse(Payload(c, isPush, requestedSlot)) == Success(Some(c))
             <==> NulFree(FirstBytes(name, 31)) && NulFree(FirstBytes(serial, 31)))
  {
    var c := Connected(slot, vid, pid, name, serial, port);
    ParseAfterBuild(c, isPush, requestedSlot);
    VisibleOfPadded(FirstBytes(name, 31));
    VisibleOfPadded(FirstBytes(serial, 31));
  }

  /** A parsed field of 32 bytes was unterminated; sending it again drops its last byte. */
  function DropUnterminated(c: ChildDeviceInfo): ChildDeviceInfo {
    var name := FirstBytes(c.productName[..Min(c.productNameLen, 32)], 31);
    var serial := FirstBytes(c.serialNumber[..Min(c.serialLen, 32)], 31);
    c.(productName := PadTo32(name), productNameLen := |name|,
       serialNumber := PadTo32(serial), serialLen := |serial|)
  }

  lemma ParsedFieldIsVisible(slot: seq<uint8>)
    requires |slot| == 32
    ensures var field := slot[..FirstNul(slot)];
            Visible(PadTo32(field), |field|) == FirstBytes(field, 31)
  {
    var field := slot[..FirstNul(slot)];
    var kept := FirstBytes(PadTo32(field), Min(|field|, 31));
    assert kept == FirstBytes(field, 31);
    assert NulFree(kept);
    assert kept[..FirstNul(kept)] == kept;
  }

  /** Whatever report arrives, parsing, sending on and parsing again changes nothing but a missing terminator. */
  lemma {:induction false} ParseBuildParse(buf: seq<uint8>, isPush: bool, requestedSlot: uint8)
    requires Parse(buf).Success? && Parse(buf).value.Some?
    ensures var c := Parse(buf).value.value;
            && Parse(Payload(c, isPush, requestedSlot)) == Success(Some(DropUnterminated(c)))
            && (c.productNameLen <= 31 && c.serialLen <= 31 ==> DropUnterminated(c) == c)
  {
    var c := Parse(buf).value.value;
    ParseAfterBuild(c, isPush, requestedSlot);
    ParsedFieldIsVisible(buf[32..64]);
    ParsedFieldIsVisible(buf[94..126]);
    assert c.productName[..c.productNameLen] == buf[32..64][..c.productNameLen];
    assert c.serialNumber[..c.serialLen] == buf[94..126][..c.serialLen];
  }

  // ----- The frames that carry reports -----

  function PushFrame(payload: seq<uint8>): CoraFrame {
    CoraFrame(NewHeader(NONE, Write, 0, |payload|), payload)
  }

  function ResponseFrame(messageId: uint32, payload: seq<uint8>): CoraFrame {
    CoraFrame(NewHeader(RESULT, GetReport, messageId, |payload|), payload)
  }

  // ----- Queries on the primary port -----

  datatype PrimaryFeatureCommand =
    | GetDeviceInfo
    | GetFirmwareVersion
    | GetSerialNumber
    | GetMacAddress
    | GetChildDeviceInfo
    | Other(opcode: uint8)
  {
    function AsByte(): uint8 {
      match this
      case GetDeviceInfo => 0x80
      case GetFirmwareVersion => 0x83
      case GetSerialNumber => 0x84
      case GetMacAddress => 0x85
      case GetChildDeviceInfo => 0x1c
      case Other(opcode) => opcode
    }
  }

  function CommandFromByte(value: uint8): PrimaryFeatureCommand {
    match value
    case 0x80 => GetDeviceInfo
    case 0x83 => GetFirmwareVersion
    case 0x84 => GetSerialNumber
    case 0x85 => GetMacAddress
    case 0x1c => GetChildDeviceInfo
    case other => Other(other)
  }

  function ParsePrimaryQuery(payload: seq<uint8>): Option<PrimaryFeatureCommand> {
    if payload == [] then None
    else if payload[0] == 0x03 && |payload| >= 2 then Some(CommandFromByte(payload[1]))
    else Some(CommandFromByte(payload[0]))
  }
}
