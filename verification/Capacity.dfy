/** Whole sessions over the embedded receive buffer: what fits through 2048 bytes, and where it gets stuck. */
module Capacity {
  import opened Bytes
  import opened Cora
  import opened Stream
  import opened Conservation
  import opened Resync
  import opened Delivery
  import opened Receivers

  /** Each read finds room for what it delivers, and delivers something. */
  predicate Fits(residual: seq<uint8>, chunks: seq<seq<uint8>>)
    decreases |chunks|
  {
    chunks == [] ||
    (&& chunks[0] != [] && |residual| + |chunks[0]| <= RX_CAPACITY
     && Fits(Drain(residual + chunks[0]).residual, chunks[1..]))
  }

  predicate AllSmall(frames: seq<CoraFrame>) {
    forall f :: f in frames ==> |f.payload| <= MAX_PAYLOAD
  }

  // ----- Nothing larger than the buffer comes out of it -----

  lemma {:induction false} DrainedFramesFit(buf: seq<uint8>)
    ensures forall f :: f in Drain(buf).frames ==> CORA_HEADER_SIZE + |f.payload| <= |buf|
    decreases |buf|
  {
    hide Decode, NextAction, Drain, Trace, FrameBytes;
    LoopUnfolds(buf);
    match NextAction(buf)
    case Emit(frame, n) =>
      DrainedFramesFit(buf[n..]);
      EncodeAfterDecode(buf);
      EncodedSize(frame);
    case Skip(n) => DrainedFramesFit(buf[n..]);
    case Await =>
    case Clear =>
  }

  lemma EncodedSize(f: CoraFrame)
    ensures |FrameBytes(f)| == f.EncodedLen() == CORA_HEADER_SIZE + |f.payload|
  {
  }

  /** For any bytes and any reads that fit: no frame with a payload over 2032 bytes is ever delivered. */
  lemma {:induction false} DeliveredFramesAreSmall(residual: seq<uint8>, chunks: seq<seq<uint8>>)
    requires |residual| <= RX_CAPACITY && Fits(residual, chunks)
    ensures AllSmall(Run(residual, chunks).frames)
    ensures |Run(residual, chunks).residual| <= RX_CAPACITY
    decreases |chunks|
  {
    hide Drain;
    if chunks != [] {
      var buf := residual + chunks[0];
      DrainedFramesFit(buf);
      ResidualAwaits(buf);
      DeliveredFramesAreSmall(Drain(buf).residual, chunks[1..]);
    }
  }

  // ----- One read more -----

  lemma {:induction false} FitsAppend(residual: seq<uint8>, xs: seq<seq<uint8>>, ys: seq<seq<uint8>>)
    ensures Fits(residual, xs + ys) <==> Fits(residual, xs) && Fits(Run(residual, xs).residual, ys)
    decreases |xs|
  {
    hide Drain;
    if xs == [] {
      assert xs + ys == ys;
    } else {
      FitsAppend(Drain(residual + xs[0]).residual, xs[1..], ys);
      assert (xs + ys)[1..] == xs[1..] + ys;
    }
  }

  lemma FitsOneMore(chunks: seq<seq<uint8>>, chunk: seq<uint8>)
    ensures Fits([], chunks + [chunk])
       <==> Fits([], chunks) && chunk != [] && |Run([], chunks).residual| + |chunk| <= RX_CAPACITY
  {
    hide Drain, Run;
    FitsAppend([], chunks, [chunk]);
    assert [chunk][1..] == [];
  }

  lemma NextReadFits(chunks: seq<seq<uint8>>, i: nat)
    requires Fits([], chunks) && i < |chunks|
    ensures chunks[i] != [] && |Run([], chunks[..i]).residual| + |chunks[i]| <= RX_CAPACITY
  {
    hide Drain, Run, Fits;
    FitsAppend([], chunks[..i + 1], chunks[i + 1..]);
    assert chunks[..i + 1] + chunks[i + 1..] == chunks && chunks[..i + 1] == chunks[..i] + [chunks[i]];
    FitsOneMore(chunks[..i], chunks[i]);
  }

  /**
   For any bytes: a session can go no further, the next `read` being taken for
   a disconnect, exactly when 2048 bytes are buffered behind a valid header
   that announces more than 2032.
   */
  lemma {:induction false} StallIsExact(chunks: seq<seq<uint8>>)
    requires Fits([], chunks)
    ensures var residual := Run([], chunks).residual;
      (forall chunk :: !Fits([], chunks + [chunk]))
      <==>
      && |residual| == 2048
      && ParseHeader(residual).Success? && ParseHeader(residual).value.payloadLen > 2032
  {
    hide Run, Fits, ParseHeader, Drain;
    var residual := Run([], chunks).residual;
    DeliveredFramesAreSmall([], chunks);
    forall chunk ensures Fits([], chunks + [chunk]) <==> chunk != [] && |residual| + |chunk| <= RX_CAPACITY {
      FitsOneMore(chunks, chunk);
    }
    assert |residual| < RX_CAPACITY ==> Fits([], chunks + [[0]]);
    NothingToDrain();
    RunLeavesAwaiting([], chunks);
    FullBufferIsExact(residual);
  }

  lemma {:induction false} RunLeavesAwaiting(residual: seq<uint8>, chunks: seq<seq<uint8>>)
    requires Drain(residual) == Drained([], residual)
    ensures var left := Run(residual, chunks).residual; Drain(left) == Drained([], left)
    decreases |chunks|
  {
    hide Drain, Decode, NextAction, Trace;
    if chunks != [] {
      var left := Drain(residual + chunks[0]).residual;
      ResidualAwaits(residual + chunks[0]);
      LoopUnfolds(left);
      RunLeavesAwaiting(left, chunks[1..]);
    }
  }

  // ----- Streams of well-formed frames -----

  function FirstTooLarge(frames: seq<CoraFrame>): (k: nat)
    ensures k <= |frames|
    ensures k < |frames| ==> |frames[k].payload| > MAX_PAYLOAD
    ensures forall i :: 0 <= i < k ==> |frames[i].payload| <= MAX_PAYLOAD
  {
    if frames == [] || |frames[0].payload| > MAX_PAYLOAD then 0 else 1 + FirstTooLarge(frames[1..])
  }

  lemma EncodingGrows(frames: seq<CoraFrame>, j: nat, k: nat)
    requires j < k <= |frames|
    ensures |EncodeAll(frames[..j])| + frames[j].EncodedLen() <= |EncodeAll(frames[..k])|
  {
    hide EncodeAll, FrameBytes;
    EncodeAllAppend(frames[..j], frames[j..k]);
    assert frames[..k] == frames[..j] + frames[j..k];
    EncodeAllUnfolds(frames[j..k]);
    EncodedSize(frames[j]);
  }

  lemma SmallUpToTheFirst(frames: seq<CoraFrame>, j: nat)
    requires j <= |frames| && AllSmall(frames[..j])
    ensures j <= FirstTooLarge(frames)
  {
    assert forall i :: 0 <= i < j ==> frames[i] in frames[..j];
  }

  /**
   A sender's stream through the fixed buffer, whatever has arrived and however
   it was cut: frames before the first one over 2032 bytes are delivered as in
   the server, nothing from there on is, and the session gets stuck exactly
   when 2048 bytes of that frame have come in.
   */
  lemma {:induction false} FixedSessionIsExact(frames: seq<CoraFrame>, chunks: seq<seq<uint8>>)
    requires AllWellFormed(frames) && Flatten(chunks) <= EncodeAll(frames) && Fits([], chunks)
    ensures var k := FirstTooLarge(frames); var end, n := Run([], chunks), |Flatten(chunks)|;
      && Complete(frames, n) <= k && end.frames == frames[..Complete(frames, n)]
      && n <= |EncodeAll(frames[..k])| + (if k < |frames| then RX_CAPACITY else 0)
      && (|end.residual| == RX_CAPACITY <==> k < |frames| && n == |EncodeAll(frames[..k])| + RX_CAPACITY)
  {
    hide Run, RunTrace, EncodeAll, FrameBytes, Complete, Fits, Flatten, FirstTooLarge;
    var k, j := FirstTooLarge(frames), Complete(frames, |Flatten(chunks)|);
    WellFormedStreamsAreChunkIndependent(frames, chunks);
    DeliveredFramesAreSmall([], chunks);
    SmallUpToTheFirst(frames, j);
    if j < k {
      EncodingGrows(frames, j, k);
    }
  }

  /** A single large frame does get the session stuck, with nothing delivered. */
  lemma {:induction false} LargeFrameFillsTheBuffer(f: CoraFrame)
    requires f.WellFormed() && |f.payload| > MAX_PAYLOAD
    ensures var first := FrameBytes(f)[..RX_CAPACITY];
      && Fits([], [first]) && Run([], [first]) == Drained([], first)
      && forall chunk :: !Fits([], [first, chunk])
  {
    hide FrameBytes, Decode, NextAction, Drain, Trace;
    var first := FrameBytes(f)[..RX_CAPACITY];
    PartialFrameWaits(f, RX_CAPACITY);
    LoopUnfolds(first);
    RunOfOne([], first);
    assert [] + first == first;
    forall chunk ensures !Fits([], [first, chunk]) {
      FitsOneMore([first], chunk);
      assert [first] + [chunk] == [first, chunk];
    }
  }

  // ----- Which streams can be taken in whole -----

  function SingleBytes(bs: seq<uint8>): (chunks: seq<seq<uint8>>)
    ensures |chunks| == |bs| && forall i :: 0 <= i < |bs| ==> chunks[i] == [bs[i]]
  {
    seq(|bs|, i requires 0 <= i < |bs| => [bs[i]])
  }

  lemma {:induction false} SingleBytesFlatten(bs: seq<uint8>, k: nat)
    requires k <= |bs|
    ensures Flatten(SingleBytes(bs)[..k]) == bs[..k]
  {
    hide Flatten;
    var chunks := SingleBytes(bs);
    if k == 0 {
      FlattenOfNone();
      assert chunks[..0] == [];
    } else {
      SingleBytesFlatten(bs, k - 1);
      FlattenAppend(chunks[..k - 1], [chunks[k - 1]]);
      assert chunks[..k] == chunks[..k - 1] + [chunks[k - 1]];
      FlattenOfOne(chunks[k - 1]);
    }
  }

  lemma FlattenOfNone()
    ensures Flatten([]) == []
  {
  }

  lemma FlattenOfOne(chunk: seq<uint8>)
    ensures Flatten([chunk]) == chunk
  {
    assert [chunk][1..] == [] && chunk + [] == chunk;
  }

  /** Byte by byte, small frames always find room. */
  lemma {:induction false} SingleBytesFit(frames: seq<CoraFrame>, k: nat)
    requires AllWellFormed(frames) && AllSmall(frames) && k <= |EncodeAll(frames)|
    ensures Fits([], SingleBytes(EncodeAll(frames))[..k])
  {
    hide Fits, Run, EncodeAll, Flatten, CoraFrame.WellFormed;
    var bs := EncodeAll(frames);
    var chunks := SingleBytes(bs);
    if k == 0 {
      NothingFits();
      assert chunks[..0] == [];
    } else {
      SingleBytesFit(frames, k - 1);
      SingleBytesFlatten(bs, k - 1);
      SmallFramesNeverFillTheBuffer(frames, chunks[..k - 1]);
      FitsOneMore(chunks[..k - 1], chunks[k - 1]);
      assert chunks[..k] == chunks[..k - 1] + [chunks[k - 1]];
    }
  }

  lemma NothingFits()
    ensures Fits([], [])
  {
  }

  /** The streams that get through the fixed buffer whole are exactly those of small frames. */
  lemma {:induction false} WholeStreamFitsExactly(frames: seq<CoraFrame>)
    requires AllWellFormed(frames)
    ensures (exists chunks :: Fits([], chunks) && Flatten(chunks) == EncodeAll(frames))
       <==> forall f :: f in frames ==> |f.payload| <= 2032
  {
    hide Fits, Run, EncodeAll, Flatten, CoraFrame.WellFormed;
    if chunks :| Fits([], chunks) && Flatten(chunks) == EncodeAll(frames) {
      WholeStreamIsDelivered(frames, chunks);
      DeliveredFramesAreSmall([], chunks);
    }
    if AllSmall(frames) {
      var bs := EncodeAll(frames);
      var chunks := SingleBytes(bs);
      SingleBytesFit(frames, |bs|);
      SingleBytesFlatten(bs, |bs|);
      assert chunks[..|bs|] == chunks && bs[..|bs|] == bs;
    }
  }
}
