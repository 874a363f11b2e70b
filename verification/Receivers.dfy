/** The receive loops themselves: one over a growable buffer, one over a fixed array compacted in place. */
module Receivers {
  import opened Bytes
  import opened Wrappers
  import opened Cora
  import opened Stream
  import opened Conservation
  import opened Delivery

  /** The server's buffer, on both of its ports. */
  class GrowableReceiver {
    var readBuf: seq<uint8>

    constructor ()
      ensures readBuf == []
    {
      readBuf := [];
    }

    method Append(chunk: seq<uint8>)
      modifies this
      ensures readBuf == old(readBuf) + chunk
    {
      readBuf := readBuf + chunk;
    }

    /** One turn of the loop, but for handling the frame. */
    method Turn() returns (a: Action)
      modifies this
      ensures a.Emit? || a.Skip? ==> |readBuf| < |old(readBuf)|
      ensures a.Emit? ==>
        && Drain(old(readBuf)).frames == [a.frame] + Drain(readBuf).frames
        && Drain(old(readBuf)).residual == Drain(readBuf).residual
      ensures a.Skip? ==> Drain(old(readBuf)) == Drain(readBuf)
      ensures a.Await? || a.Clear? ==> Drain(old(readBuf)) == Drained([], readBuf)
    {
      hide Decode, FindMagic, NextAction, Drain, Trace;
      LoopUnfolds(readBuf);
      ActionOfDecode(readBuf);
      match Decode(readBuf)
      case Success(Some(d)) =>
        readBuf := readBuf[d.consumed..];
        return Emit(d.frame, d.consumed);
      case Success(None) => return Await;
      case Failure(_) =>
        match FindMagic(readBuf) {
          case Some(pos) =>
            var count := if pos > 0 then pos else 1;
            readBuf := readBuf[count..];
            return Skip(count);
          case None =>
            readBuf := [];
            return Clear;
        }
    }
  }

  lemma ActionOfDecode(buf: seq<uint8>)
    ensures var a := NextAction(buf);
      && (Decode(buf).Success? && Decode(buf).value.Some? ==>
            a == Emit(Decode(buf).value.value.frame, Decode(buf).value.value.consumed))
      && (Decode(buf) == Success(None) ==> a == Await)
      && (Decode(buf).Failure? && FindMagic(buf).None? ==> a == Clear)
      && (Decode(buf).Failure? && FindMagic(buf).Some? ==>
            a == Skip(if FindMagic(buf).value > 0 then FindMagic(buf).value else 1))
  {
    hide Decode, FindMagic;
  }

  const RX_CAPACITY: nat := 2048

  /** The largest payload whose frame fits into the buffer. */
  const MAX_PAYLOAD: nat := RX_CAPACITY - CORA_HEADER_SIZE

  /** `buf.copy_within(from..to, 0)`. */
  method CopyWithin(buf: array<uint8>, from: nat, to: nat)
    requires from <= to <= buf.Length
    modifies buf
    ensures buf[..to - from] == old(buf[from..to])
    ensures buf[to - from..] == old(buf[to - from..])
  {
    forall i | 0 <= i < to - from {
      buf[i] := buf[from + i];
    }
  }

  /** The inner loop of the embedded receivers, over the shrinking slice of the bytes received. */
  method DrainSlice(received: seq<uint8>) returns (frames: seq<CoraFrame>, consumedTotal: nat)
    ensures consumedTotal <= |received|
    ensures Drained(frames, received[consumedTotal..]) == Drain(received)
  {
    hide Decode, FindMagic, NextAction, Drain, Trace;
    frames, consumedTotal := [], 0;
    var slice := received;
    ghost var all := Drain(received);
    while slice != []
      invariant consumedTotal + |slice| == |received|
      invariant slice == received[consumedTotal..]
      invariant frames + Drain(slice).frames == all.frames
      invariant Drain(slice).residual == all.residual
      decreases |slice|
    {
      LoopUnfolds(slice);
      ActionOfDecode(slice);
      match Decode(slice)
      case Success(Some(d)) =>
        Assoc(frames, [d.frame], Drain(slice[d.consumed..]).frames);
        frames := frames + [d.frame];
        slice := slice[d.consumed..];
        consumedTotal := consumedTotal + d.consumed;
      case Success(None) => return;
      case Failure(_) =>
        match FindMagic(slice) {
          case Some(pos) =>
            if pos > 0 {
              slice := slice[pos..];
              consumedTotal := consumedTotal + pos;
            } else {
              slice := slice[1..];
              consumedTotal := consumedTotal + 1;
            }
          case None =>
            consumedTotal := |received|;
            return;
        }
    }
    NothingToDrain();
  }

  /** The embedded receive buffer, in the hub and in the bridge. */
  class FixedReceiver {
    const rxBuffer: array<uint8>
    var rxOffset: nat

    ghost predicate Valid()
      reads this
    {
      rxBuffer.Length == RX_CAPACITY && rxOffset <= RX_CAPACITY
    }

    ghost function Buffered(): seq<uint8>
      requires Valid()
      reads this, rxBuffer
    {
      rxBuffer[..rxOffset]
    }

    constructor ()
      ensures Valid() && Buffered() == [] && fresh(rxBuffer)
    {
      rxBuffer := new uint8[RX_CAPACITY];
      rxOffset := 0;
    }

    /**
     One turn: `chunk` is what `read` put into the free part of the buffer, and
     an empty read ends the session.
     */
    method Receive(chunk: seq<uint8>) returns (connected: bool, frames: seq<CoraFrame>)
      requires Valid() && rxOffset + |chunk| <= RX_CAPACITY
      modifies this, rxBuffer
      ensures Valid()
      ensures connected <==> chunk != []
      ensures connected ==> Drained(frames, Buffered()) == Drain(old(Buffered()) + chunk)
      ensures !connected ==> frames == [] && Buffered() == old(Buffered())
    {
      hide Drain;
      frames := [];
      connected := chunk != [];
      if connected {
        Append(chunk);
        var consumedTotal: nat;
        frames, consumedTotal := DrainSlice(rxBuffer[..rxOffset]);
        Compact(consumedTotal);
      }
    }

    /** `read` fills the free part of the buffer. */
    method Append(chunk: seq<uint8>)
      requires Valid() && rxOffset + |chunk| <= RX_CAPACITY
      modifies this, rxBuffer
      ensures Valid() && Buffered() == old(Buffered()) + chunk
    {
      CopyInto(rxBuffer, rxOffset, chunk);
      rxOffset := rxOffset + |chunk|;
    }

    /** What has been consumed makes room for the next read. */
    method Compact(consumedTotal: nat)
      requires Valid() && consumedTotal <= rxOffset
      modifies this, rxBuffer
      ensures Valid() && Buffered() == old(Buffered())[consumedTotal..]
    {
      if consumedTotal > 0 {
        CopyWithin(rxBuffer, consumedTotal, rxOffset);
        rxOffset := rxOffset - consumedTotal;
      }
    }
  }

  // ----- When the fixed buffer fills up -----

  /**
   The buffer is full after a drain, so that the next `read` gets an empty slice
   and its 0 is taken for a disconnect, exactly when 2048 bytes are waiting
   behind a valid header that announces more than 2032 bytes.
   */
  lemma {:induction false} FullBufferIsExact(buf: seq<uint8>)
    requires |buf| <= RX_CAPACITY
    ensures |Drain(buf).residual| == RX_CAPACITY
       <==> |buf| == RX_CAPACITY && ParseHeader(buf).Success? && ParseHeader(buf).value.payloadLen > MAX_PAYLOAD
  {
    hide Drain, Trace, NextAction, ParseHeader, MagicAt;
    LoopUnfolds(buf);
    var a := NextAction(buf);
    if a.Emit? {
      ResidualAwaits(buf[a.consumed..]);
    } else if a.Skip? {
      ResidualAwaits(buf[a.count..]);
    }
    HeaderOfPrefix(buf);
  }

  lemma HeaderOfPrefix(buf: seq<uint8>)
    ensures CORA_HEADER_SIZE <= |buf| ==> ParseHeader(buf[..CORA_HEADER_SIZE]) == ParseHeader(buf)
    ensures ParseHeader(buf).Success? ==> MagicAt(buf, 0)
  {
  }

  /** A sender that keeps to payloads of at most 2032 bytes never fills the buffer, however its bytes arrive. */
  lemma {:induction false} SmallFramesNeverFillTheBuffer(frames: seq<CoraFrame>, chunks: seq<seq<uint8>>)
    requires AllWellFormed(frames) && Flatten(chunks) <= EncodeAll(frames)
    requires forall f :: f in frames ==> |f.payload| <= MAX_PAYLOAD
    ensures |Run([], chunks).residual| < RX_CAPACITY
  {
    hide Run, RunTrace, EncodeAll, FrameBytes, CoraFrame.WellFormed;
    WellFormedStreamsAreChunkIndependent(frames, chunks);
    var k := Complete(frames, |Flatten(chunks)|);
    if k < |frames| {
      assert frames[k] in frames;
    }
  }
}
