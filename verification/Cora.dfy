/** CORA framing: a 16-byte little-endian header, then the payload it announces. */
module Cora {
  import opened Bytes
  import opened Wrappers

  const CORA_HEADER_SIZE: nat := 16
  const CORA_MAGIC: seq<uint8> := [0x43, 0x93, 0x8a, 0x41]

  const NONE: uint16 := 0x0000
  const RESULT: uint16 := 0x0100
  const ACK_NAK: uint16 := 0x0200
  const REQ_ACK: uint16 := 0x4000
  const VERBATIM: uint16 := 0x8000

  /** `CoraFlags::contains` for a mask of one bit, the only masks the handlers test. */
  predicate HasFlag(flags: uint16, bit: uint16)
    requires bit in {RESULT, ACK_NAK, REQ_ACK, VERBATIM}
  {
    flags / bit % 2 == 1
  }

  datatype ProtocolError =
    | BufferTooSmall
    | InvalidMagic
    | UnknownHidOp(op: uint8)
    | IncompleteHeader

  datatype CoraHidOp = Write | SendReport | GetReport {
    function AsByte(): uint8 {
      match this
      case Write => 0
      case SendReport => 1
      case GetReport => 2
    }
  }

  function HidOpFromByte(value: uint8): Result<CoraHidOp, ProtocolError> {
    match value
    case 0 => Success(Write)
    case 1 => Success(SendReport)
    case 2 => Success(GetReport)
    case other => Failure(UnknownHidOp(other))
  }

  datatype CoraHeader = CoraHeader(
    flags: uint16,
    hidOp: CoraHidOp,
    reserved: uint8,
    messageId: uint32,
    payloadLen: uint32
  )

  datatype CoraFrame = CoraFrame(header: CoraHeader, payload: seq<uint8>) {
    /** The header tells the truth about the payload; every decoded frame is like this. */
    predicate WellFormed() {
      header.payloadLen == |payload|
    }

    function EncodedLen(): nat {
      CORA_HEADER_SIZE + |payload|
    }
  }

  datatype Decoded = Decoded(frame: CoraFrame, consumed: nat)

  function NewHeader(flags: uint16, hidOp: CoraHidOp, messageId: uint32, payloadLen: nat): CoraHeader {
    CoraHeader(flags, hidOp, 0, messageId, Truncate32(payloadLen))
  }

  predicate MagicAt(buf: seq<uint8>, i: nat) {
    && i + 4 <= |buf|
    && buf[i] == 0x43 && buf[i + 1] == 0x93 && buf[i + 2] == 0x8a && buf[i + 3] == 0x41
  }

  lemma MagicAtIsSlice(buf: seq<uint8>, i: nat)
    requires i + 4 <= |buf|
    ensures MagicAt(buf, i) <==> buf[i..i + 4] == CORA_MAGIC
  {
    var w := buf[i..i + 4];
    assert w[0] == buf[i] && w[1] == buf[i + 1] && w[2] == buf[i + 2] && w[3] == buf[i + 3];
  }

  predicate NoMagic(buf: seq<uint8>) {
    forall i :: 0 <= i < |buf| ==> !MagicAt(buf, i)
  }

  /** Index of the first occurrence of the magic, scanning windows from the left. */
  function FindMagic(buf: seq<uint8>): (r: Option<nat>)
    ensures r.Some? ==> MagicAt(buf, r.value) && forall i :: 0 <= i < r.value ==> !MagicAt(buf, i)
    ensures r.None? <==> NoMagic(buf)
  {
    FindMagicFrom(buf, 0)
  }

  function FindMagicFrom(buf: seq<uint8>, from: nat): (r: Option<nat>)
    ensures r.Some? ==> from <= r.value && MagicAt(buf, r.value)
    ensures r.Some? ==> forall i :: from <= i < r.value ==> !MagicAt(buf, i)
    ensures r.None? ==> forall i :: from <= i < |buf| ==> !MagicAt(buf, i)
    decreases |buf| - from
  {
    if |buf| < from + 4 then None
    else if MagicAt(buf, from) then Some(from)
    else FindMagicFrom(buf, from + 1)
  }

  function ParseHeader(buf: seq<uint8>): Result<CoraHeader, ProtocolError> {
    if |buf| < CORA_HEADER_SIZE then Failure(IncompleteHeader)
    else if !MagicAt(buf, 0) then Failure(InvalidMagic)
    else
      match HidOpFromByte(buf[6])
      case Failure(e) => Failure(e)
      case Success(op) =>
        Success(CoraHeader(
                  FromLe16(buf[4], buf[5]),
                  op,
                  buf[7],
                  FromLe32(buf[8], buf[9], buf[10], buf[11]),
                  FromLe32(buf[12], buf[13], buf[14], buf[15])))
  }

  /** `Ok(None)` of the source, "more data is required", is `Success(None)`. */
  function Decode(buf: seq<uint8>): (r: Result<Option<Decoded>, ProtocolError>)
    ensures r.Success? && r.value.Some? ==>
      CORA_HEADER_SIZE <= r.value.value.consumed == r.value.value.frame.EncodedLen() <= |buf|
  {
    if |buf| < CORA_HEADER_SIZE then Success(None)
    else if !MagicAt(buf, 0) then Failure(InvalidMagic)
    else
      match ParseHeader(buf[..CORA_HEADER_SIZE])
      case Failure(e) => Failure(e)
      case Success(header) =>
        var total := CORA_HEADER_SIZE + header.payloadLen;
        if |buf| < total then Success(None)
        else Success(Some(Decoded(CoraFrame(header, buf[CORA_HEADER_SIZE..total]), total)))
  }

  /** The layout of the header, byte by byte. */
  function HeaderByte(h: CoraHeader, i: nat): uint8
    requires i < CORA_HEADER_SIZE
  {
    if i < 4 then CORA_MAGIC[i]
    else if i < 6 then LeBytes16(h.flags)[i - 4]
    else if i == 6 then h.hidOp.AsByte()
    else if i == 7 then h.reserved
    else if i < 12 then LeBytes32(h.messageId)[i - 8]
    else LeBytes32(h.payloadLen)[i - 12]
  }

  function HeaderBytes(h: CoraHeader): (bs: seq<uint8>)
    ensures |bs| == CORA_HEADER_SIZE
    ensures forall i :: 0 <= i < CORA_HEADER_SIZE ==> bs[i] == HeaderByte(h, i)
  {
    seq(CORA_HEADER_SIZE, i requires 0 <= i < CORA_HEADER_SIZE => HeaderByte(h, i))
  }

  /** The frame as `encode` sends it: the length field is always recomputed, and truncated to 32 bits. */
  function Normalised(f: CoraFrame): CoraFrame {
    f.(header := f.header.(payloadLen := Truncate32(|f.payload|)))
  }

  function FrameBytes(f: CoraFrame): (bs: seq<uint8>)
    ensures |bs| == f.EncodedLen()
  {
    HeaderBytes(Normalised(f).header) + f.payload
  }

  // ----- The encoders, which write their output step by step -----

  method EncodeHeader(h: CoraHeader, out: array<uint8>)
    requires out.Length == CORA_HEADER_SIZE
    modifies out
    ensures out[..] == HeaderBytes(h)
  {
    CopyInto(out, 0, CORA_MAGIC);
    CopyInto(out, 4, LeBytes16(h.flags));
    out[6] := h.hidOp.AsByte();
    out[7] := h.reserved;
    CopyInto(out, 8, LeBytes32(h.messageId));
    CopyInto(out, 12, LeBytes32(h.payloadLen));
  }

  method Encode(f: CoraFrame, out: array<uint8>) returns (r: Result<nat, ProtocolError>)
    modifies out
    ensures out.Length < f.EncodedLen() ==> r == Failure(BufferTooSmall) && out[..] == old(out[..])
    ensures f.EncodedLen() <= out.Length ==>
      && r == Success(f.EncodedLen())
      && out[..f.EncodedLen()] == FrameBytes(f)
      && out[f.EncodedLen()..] == old(out[f.EncodedLen()..])
  {
    hide HeaderBytes;
    var total := CORA_HEADER_SIZE + |f.payload|;
    if out.Length < total {
      return Failure(BufferTooSmall);
    }
    var headerBuf := new uint8[CORA_HEADER_SIZE];
    EncodeHeader(f.header.(payloadLen := Truncate32(|f.payload|)), headerBuf);
    CopyInto(out, 0, headerBuf[..]);
    CopyInto(out, CORA_HEADER_SIZE, f.payload);
    assert out[..total] == headerBuf[..] + f.payload;
    r := Success(total);
  }

  method ToVec(f: CoraFrame) returns (v: seq<uint8>)
    ensures v == FrameBytes(f)
  {
    var headerBuf := new uint8[CORA_HEADER_SIZE];
    EncodeHeader(f.header.(payloadLen := Truncate32(|f.payload|)), headerBuf);
    v := headerBuf[..];
    v := v + f.payload;
  }

  // ----- The codec is a bijection between well-formed frames and their encodings -----

  lemma HeaderRoundTrip(h: CoraHeader, rest: seq<uint8>)
    ensures ParseHeader(HeaderBytes(h) + rest) == Success(h)
  {
    hide LeBytes16, LeBytes32, FromLe16, FromLe32;
    var buf := HeaderBytes(h) + rest;
    assert forall i :: 0 <= i < CORA_HEADER_SIZE ==> buf[i] == HeaderByte(h, i);
    var flags, id, len := LeBytes16(h.flags), LeBytes32(h.messageId), LeBytes32(h.payloadLen);
    assert buf[4] == flags[0] && buf[5] == flags[1];
    assert buf[8] == id[0] && buf[9] == id[1] && buf[10] == id[2] && buf[11] == id[3];
    assert buf[12] == len[0] && buf[13] == len[1] && buf[14] == len[2] && buf[15] == len[3];
  }

  lemma HeaderIsCanonical(buf: seq<uint8>)
    requires ParseHeader(buf).Success?
    ensures HeaderBytes(ParseHeader(buf).value) == buf[..CORA_HEADER_SIZE]
  {
    LeBytes16Unique(buf[4], buf[5]);
    LeBytes32Unique(buf[8], buf[9], buf[10], buf[11]);
    LeBytes32Unique(buf[12], buf[13], buf[14], buf[15]);
  }

  lemma EncodedHeaderDecodes(f: CoraFrame, rest: seq<uint8>)
    ensures var buf := FrameBytes(f) + rest;
            MagicAt(buf, 0) && ParseHeader(buf[..CORA_HEADER_SIZE]) == Success(Normalised(f).header)
  {
    var head := HeaderBytes(Normalised(f).header);
    var buf := FrameBytes(f) + rest;
    assert MagicAt(head, 0);
    HeaderRoundTrip(Normalised(f).header, []);
    hide HeaderBytes, ParseHeader;
    assert forall i :: 0 <= i < CORA_HEADER_SIZE ==> buf[i] == head[i];
    assert buf[..CORA_HEADER_SIZE] == head + [];
  }

  lemma PayloadOfEncoding(f: CoraFrame, rest: seq<uint8>, n: nat)
    requires n <= |f.payload|
    ensures (FrameBytes(f) + rest)[CORA_HEADER_SIZE..CORA_HEADER_SIZE + n] == f.payload[..n]
  {
    hide HeaderBytes, Normalised;
  }

  /** Decoding undoes encoding, whatever bytes follow, exactly while the length fits its 32-bit field. */
  lemma {:induction false} DecodeAfterEncode(f: CoraFrame, rest: seq<uint8>)
    ensures Decode(FrameBytes(f) + rest) == Success(Some(Decoded(Normalised(f), f.EncodedLen())))
       <==> |f.payload| < 0x1_0000_0000
  {
    hide FrameBytes, ParseHeader, MagicAt, Truncate32;
    EncodedHeaderDecodes(f, rest);
    TruncationIsExact(|f.payload|);
    PayloadOfEncoding(f, rest, Truncate32(|f.payload|));
    assert f.payload[..|f.payload|] == f.payload;
  }

  /** Encoding undoes decoding: every consumed byte, `reserved` included, is reproduced. */
  lemma {:induction false} EncodeAfterDecode(buf: seq<uint8>)
    requires Decode(buf).Success? && Decode(buf).value.Some?
    ensures var d := Decode(buf).value.value;
            d.frame.WellFormed() && Normalised(d.frame) == d.frame && FrameBytes(d.frame) == buf[..d.consumed]
  {
    var d := Decode(buf).value.value;
    var head := buf[..CORA_HEADER_SIZE];
    HeaderIsCanonical(head);
    assert head[..CORA_HEADER_SIZE] == head;
    assert HeaderBytes(d.frame.header) == head;
    assert d.frame.payload == buf[CORA_HEADER_SIZE..d.consumed];
    WellFormedIsNormal(d.frame);
    assert FrameBytes(d.frame) == head + d.frame.payload;
  }

  lemma WellFormedIsNormal(f: CoraFrame)
    requires f.WellFormed()
    ensures Normalised(f) == f && |f.payload| < 0x1_0000_0000
  {
  }

  /** Later bytes never change a decision that has been made. */
  lemma {:induction false} DecodeIsStable(a: seq<uint8>, b: seq<uint8>)
    requires Decode(a) != Success(None)
    ensures Decode(a + b) == Decode(a)
  {
    assert (a + b)[..CORA_HEADER_SIZE] == a[..CORA_HEADER_SIZE];
    if Decode(a).Success? {
      var total := Decode(a).value.value.consumed;
      assert (a + b)[CORA_HEADER_SIZE..total] == a[CORA_HEADER_SIZE..total];
    }
  }

  /** A decoder that has seen only part of a frame asks for more. */
  lemma {:induction false} PartialFrameWaits(f: CoraFrame, n: nat)
    requires f.WellFormed() && n < f.EncodedLen()
    ensures Decode(FrameBytes(f)[..n]) == Success(None)
  {
    WellFormedIsNormal(f);
    var head := HeaderBytes(f.header);
    var buf := FrameBytes(f)[..n];
    if CORA_HEADER_SIZE <= n {
      HeaderRoundTrip(f.header, []);
      assert FrameBytes(f) == head + f.payload;
      assert buf[..CORA_HEADER_SIZE] == head;
      assert head + [] == head;
      assert MagicAt(head, 0) && MagicAt(buf, 0);
    }
  }

  lemma EncodingStartsWithMagic(f: CoraFrame)
    ensures MagicAt(FrameBytes(f), 0)
  {
    assert MagicAt(HeaderBytes(Normalised(f).header), 0);
  }

  /** The magic overlaps no shifted copy of itself. */
  lemma {:induction false} MagicHasNoBorder(buf: seq<uint8>, i: nat, j: nat)
    requires MagicAt(buf, i) && MagicAt(buf, j) && i < j
    ensures i + 4 <= j
  {
  }
}
