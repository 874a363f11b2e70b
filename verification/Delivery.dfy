/** Streams written by a well-behaved sender, and recovery from garbage in front of one. */
module Delivery {
  import opened Bytes
  import opened Wrappers
  import opened Cora
  import opened Stream
  import opened Conservation
  import opened Resync

  /** How many of `frames` lie entirely within the first `n` bytes of their encoding. */
  function Complete(frames: seq<CoraFrame>, n: nat): (k: nat)
    ensures k <= |frames|
  {
    if frames == [] || n < frames[0].EncodedLen() then 0
    else 1 + Complete(frames[1..], n - frames[0].EncodedLen())
  }

  predicate NothingSkipped(pieces: seq<Piece>) {
    forall p :: p in pieces ==> p.Packet?
  }

  lemma FirstFrameFirst(frames: seq<CoraFrame>, k: nat)
    requires k < |frames|
    ensures EncodeAll(frames[..k + 1]) == FrameBytes(frames[0]) + EncodeAll(frames[1..][..k])
  {
    hide FrameBytes;
    assert frames[..k + 1][1..] == frames[1..][..k];
  }

  lemma NoFrames(frames: seq<CoraFrame>)
    ensures EncodeAll(frames[..0]) == [] && frames[0..] == frames
  {
  }

  lemma CompleteOfFirst(frames: seq<CoraFrame>, n: nat)
    ensures frames == [] || n < frames[0].EncodedLen() ==> Complete(frames, n) == 0
    ensures frames != [] && frames[0].EncodedLen() <= n ==>
      Complete(frames, n) == 1 + Complete(frames[1..], n - frames[0].EncodedLen())
  {
  }

  lemma {:induction false} CompleteBounds(frames: seq<CoraFrame>, n: nat)
    ensures var k := Complete(frames, n);
            && |EncodeAll(frames[..k])| <= n
            && (k < |frames| ==> n < |EncodeAll(frames[..k])| + frames[k].EncodedLen())
  {
    hide Complete, EncodeAll, FrameBytes, CoraFrame.EncodedLen;
    CompleteOfFirst(frames, n);
    if frames == [] || n < frames[0].EncodedLen() {
      NoFrames(frames);
    } else {
      CompleteBounds(frames[1..], n - frames[0].EncodedLen());
      FirstFrameFirst(frames, Complete(frames[1..], n - frames[0].EncodedLen()));
    }
  }

  lemma {:induction false} CompleteInTwoSteps(frames: seq<CoraFrame>, m: nat, n: nat)
    requires m <= n
    ensures var k := Complete(frames, m); var used := |EncodeAll(frames[..k])|;
            used <= m && Complete(frames, n) == k + Complete(frames[k..], n - used)
  {
    hide Complete, EncodeAll, FrameBytes, CoraFrame.EncodedLen;
    CompleteOfFirst(frames, m);
    if frames == [] || m < frames[0].EncodedLen() {
      NoFrames(frames);
    } else {
      CompleteOfFirst(frames, n);
      var len := frames[0].EncodedLen();
      var k := Complete(frames[1..], m - len);
      CompleteInTwoSteps(frames[1..], m - len, n - len);
      FirstFrameFirst(frames, k);
      assert frames[1..][k..] == frames[k + 1..];
    }
  }

  /** The front of a stream decodes to its first frame once all of it is there, and not before. */
  lemma FrontOfStream(f: CoraFrame, tail: seq<uint8>, p: seq<uint8>)
    requires f.WellFormed() && p <= FrameBytes(f) + tail
    ensures |p| < f.EncodedLen() ==> Decode(p) == Success(None)
    ensures f.EncodedLen() <= |p| ==>
      && Decode(p) == Success(Some(Decoded(f, f.EncodedLen())))
      && p == FrameBytes(f) + p[f.EncodedLen()..]
      && p[f.EncodedLen()..] <= tail
  {
    hide Decode, FrameBytes;
    WellFormedIsNormal(f);
    var bytes := FrameBytes(f);
    assert p == (bytes + tail)[..|p|];
    if |p| < f.EncodedLen() {
      PartialFrameWaits(f, |p|);
      assert p == bytes[..|p|];
    } else {
      var rest := p[|bytes|..];
      assert p == bytes + rest;
      DecodeAfterEncode(f, rest);
      assert rest == tail[..|rest|];
    }
  }

  lemma {:induction false} DrainDelivers(frames: seq<CoraFrame>, p: seq<uint8>)
    requires AllWellFormed(frames) && p <= EncodeAll(frames)
    ensures var k := Complete(frames, |p|);
            && Drain(p).frames == frames[..k]
            && EncodeAll(frames[..k]) + Drain(p).residual == p
            && NothingSkipped(Trace(p))
    decreases |frames|
  {
    hide Drain, Trace, NextAction, Complete, EncodeAll, Decode, FrameBytes, CoraFrame.EncodedLen, CoraFrame.WellFormed;
    CompleteOfFirst(frames, |p|);
    EncodeAllUnfolds(frames);
    if frames == [] {
      NothingToDrain();
    } else {
      var f := frames[0];
      assert f in frames;
      FrontOfStream(f, EncodeAll(frames[1..]), p);
      LoopUnfolds(p);
      if |p| < f.EncodedLen() {
        NoFrames(frames);
      } else {
        var rest := p[f.EncodedLen()..];
        DrainDelivers(frames[1..], rest);
        var k := Complete(frames[1..], |rest|);
        assert frames[..k + 1] == [f] + frames[1..][..k];
        FirstFrameFirst(frames, k);
        Assoc(FrameBytes(f), EncodeAll(frames[1..][..k]), Drain(p).residual);
      }
    }
  }

  lemma EncodeAllUnfolds(frames: seq<CoraFrame>)
    ensures EncodeAll(frames) == if frames == [] then [] else FrameBytes(frames[0]) + EncodeAll(frames[1..])
  {
  }

  lemma NothingToDrain()
    ensures Drain([]) == Drained([], []) && Trace([]) == []
  {
  }

  lemma PrefixDrops(a: seq<uint8>, b: seq<uint8>, n: nat)
    requires a <= b && n <= |a|
    ensures a[n..] <= b[n..]
  {
    assert b[n..] == a[n..] + b[|a|..];
  }

  lemma SuffixOfEncoding(frames: seq<CoraFrame>, k: nat)
    requires k <= |frames|
    ensures EncodeAll(frames) == EncodeAll(frames[..k]) + EncodeAll(frames[k..])
  {
    hide EncodeAll;
    EncodeAllAppend(frames[..k], frames[k..]);
    assert frames[..k] + frames[k..] == frames;
  }

  /** What is left after the complete frames is the beginning of the encoding of the others. */
  lemma LeftoverContinues(frames: seq<CoraFrame>, k: nat, left: seq<uint8>)
    requires k <= |frames| && EncodeAll(frames[..k]) + left <= EncodeAll(frames)
    ensures left <= EncodeAll(frames[k..])
  {
    SuffixOfEncoding(frames, k);
    hide EncodeAll;
    var sent := EncodeAll(frames[..k]);
    PrefixDrops(sent + left, EncodeAll(frames), |sent|);
    assert (sent + left)[|sent|..] == left;
    assert EncodeAll(frames)[|sent|..] == EncodeAll(frames[k..]);
  }

  lemma {:induction false} RunDelivers(frames: seq<CoraFrame>, residual: seq<uint8>, chunks: seq<seq<uint8>>)
    requires AllWellFormed(frames) && residual + Flatten(chunks) <= EncodeAll(frames)
    requires Complete(frames, |residual|) == 0
    ensures var k := Complete(frames, |residual + Flatten(chunks)|); var end := Run(residual, chunks);
            && end.frames == frames[..k]
            && EncodeAll(frames[..k]) + end.residual == residual + Flatten(chunks)
            && NothingSkipped(RunTrace(residual, chunks))
    decreases |chunks|
  {
    hide Drain, Trace, Complete, EncodeAll, FrameBytes, CoraFrame.WellFormed;
    NoFrames(frames);
    if chunks == [] {
      assert residual + Flatten(chunks) == residual;
    } else {
      var buf, later := residual + chunks[0], Flatten(chunks[1..]);
      Assoc(residual, chunks[0], later);
      BufferedPart(frames, buf, later);
      var k, left := Complete(frames, |buf|), Drain(buf).residual;
      RunDelivers(frames[k..], left, chunks[1..]);
      var j := Complete(frames[k..], |left + later|);
      assert frames[..k + j] == frames[..k] + frames[k..][..j];
      EncodeAllAppend(frames[..k], frames[k..][..j]);
      Assoc(EncodeAll(frames[..k]), EncodeAll(frames[k..][..j]), Run(left, chunks[1..]).residual);
      Assoc(EncodeAll(frames[..k]), left, later);
    }
  }

  /** One drain in the middle of a stream leaves a situation of the same kind. */
  lemma BufferedPart(frames: seq<CoraFrame>, buf: seq<uint8>, later: seq<uint8>)
    requires AllWellFormed(frames) && buf + later <= EncodeAll(frames)
    ensures var k := Complete(frames, |buf|); var left := Drain(buf).residual;
            && Drain(buf).frames == frames[..k]
            && EncodeAll(frames[..k]) + left == buf
            && left + later <= EncodeAll(frames[k..])
            && AllWellFormed(frames[k..])
            && Complete(frames[k..], |left|) == 0
            && Complete(frames, |buf + later|) == k + Complete(frames[k..], |left + later|)
            && NothingSkipped(Trace(buf))
  {
    hide Drain, Trace, Complete, EncodeAll, FrameBytes, CoraFrame.WellFormed;
    assert buf == (buf + later)[..|buf|] == EncodeAll(frames)[..|buf|];
    DrainDelivers(frames, buf);
    var k, left := Complete(frames, |buf|), Drain(buf).residual;
    Assoc(EncodeAll(frames[..k]), left, later);
    LeftoverContinues(frames, k, left + later);
    CompleteInTwoSteps(frames, |buf|, |buf|);
    CompleteInTwoSteps(frames, |buf|, |buf + later|);
  }

  /**
   However a sender's stream is cut, and however much of it has arrived: the
   frames emitted are exactly those that have arrived in full, in order, nothing
   is skipped, and the buffer holds a strict prefix of the next frame.
   */
  lemma {:induction false} WellFormedStreamsAreChunkIndependent(frames: seq<CoraFrame>, chunks: seq<seq<uint8>>)
    requires AllWellFormed(frames) && Flatten(chunks) <= EncodeAll(frames)
    ensures var k := Complete(frames, |Flatten(chunks)|); var end := Run([], chunks);
            && end.frames == frames[..k]
            && EncodeAll(frames[..k]) + end.residual == Flatten(chunks)
            && (k < |frames| ==> |end.residual| < frames[k].EncodedLen() && end.residual <= FrameBytes(frames[k]))
            && (k == |frames| ==> end.residual == [])
            && NothingSkipped(RunTrace([], chunks))
  {
    hide Run, RunTrace, Complete, EncodeAll, FrameBytes, CoraFrame.EncodedLen;
    var received := Flatten(chunks);
    assert [] + received == received;
    NoFrames(frames);
    CompleteOfNothing(frames);
    RunDelivers(frames, [], chunks);
    CompleteBounds(frames, |received|);
    var k := Complete(frames, |received|);
    var residual := Run([], chunks).residual;
    LeftoverContinues(frames, k, residual);
    EncodeAllUnfolds(frames[k..]);
    if k < |frames| {
      assert residual == EncodeAll(frames[k..])[..|residual|] == FrameBytes(frames[k])[..|residual|];
    }
  }

  lemma CompleteOfNothing(frames: seq<CoraFrame>)
    ensures Complete(frames, 0) == 0
  {
  }

  /** Everything sent, everything received. */
  lemma {:induction false} WholeStreamIsDelivered(frames: seq<CoraFrame>, chunks: seq<seq<uint8>>)
    requires AllWellFormed(frames) && Flatten(chunks) == EncodeAll(frames)
    ensures Run([], chunks) == Drained(frames, [])
  {
    hide Run, RunTrace, Complete, EncodeAll, FrameBytes;
    WellFormedStreamsAreChunkIndependent(frames, chunks);
    CompleteOfWhole(frames);
    assert frames[..|frames|] == frames;
  }

  lemma {:induction false} CompleteOfWhole(frames: seq<CoraFrame>)
    ensures Complete(frames, |EncodeAll(frames)|) == |frames|
  {
    hide FrameBytes;
    if frames != [] {
      CompleteOfWhole(frames[1..]);
    }
  }

  /** Garbage without a magic shares no magic with the frame behind it. */
  lemma {:induction false} NoMagicStraddles(garbage: seq<uint8>, stream: seq<uint8>, i: nat)
    requires NoMagic(garbage) && MagicAt(stream, 0) && i < |garbage|
    ensures !MagicAt(garbage + stream, i)
  {
    var s := garbage + stream;
    assert MagicAt(s, |garbage|);
    if i + 4 <= |garbage| {
      assert !MagicAt(garbage, i);
    } else if MagicAt(s, i) {
      MagicHasNoBorder(s, i, |garbage|);
      assert false;
    }
  }

  /** In one buffer, garbage in front of a well-formed stream costs exactly its own bytes and no frame. */
  lemma {:induction false} GarbageRecovery(garbage: seq<uint8>, frames: seq<CoraFrame>)
    requires NoMagic(garbage) && garbage != []
    requires AllWellFormed(frames) && frames != []
    ensures var stream := EncodeAll(frames);
            && NextAction(garbage + stream) == Skip(|garbage|)
            && Drain(garbage + stream) == Drained(frames, [])
            && Trace(garbage + stream) == [Gap(garbage, stream)] + Trace(stream)
            && NothingSkipped(Trace(stream))
  {
    hide NextAction, Drain, Trace, EncodeAll, FrameBytes, CoraFrame.WellFormed;
    var stream := EncodeAll(frames);
    StreamStartsWithMagic(frames);
    GarbageIsSkipped(garbage, stream);
    assert Flatten([stream]) == stream + [] == stream && [] + stream == stream;
    WholeStreamIsDelivered(frames, [stream]);
    WellFormedStreamsAreChunkIndependent(frames, [stream]);
    RunOfOne([], stream);
    TraceOfOne(stream);
  }

  lemma TraceOfOne(stream: seq<uint8>)
    ensures RunTrace([], [stream]) == Trace(stream)
  {
    hide Trace, Drain;
    assert [] + stream == stream;
    assert RunTrace([], [stream]) == Trace(stream) + [];
  }

  lemma StreamStartsWithMagic(frames: seq<CoraFrame>)
    requires frames != []
    ensures MagicAt(EncodeAll(frames), 0) && CORA_HEADER_SIZE <= |EncodeAll(frames)|
  {
    hide FrameBytes;
    var bytes := FrameBytes(frames[0]);
    EncodingStartsWithMagic(frames[0]);
    assert forall i :: 0 <= i < 4 ==> EncodeAll(frames)[i] == bytes[i];
  }

  lemma GarbageIsSkipped(garbage: seq<uint8>, stream: seq<uint8>)
    requires NoMagic(garbage) && garbage != []
    requires MagicAt(stream, 0) && CORA_HEADER_SIZE <= |stream|
    ensures var buf := garbage + stream;
            && NextAction(buf) == Skip(|garbage|)
            && Drain(buf) == Drain(stream)
            && Trace(buf) == [Gap(garbage, stream)] + Trace(stream)
  {
    var buf := garbage + stream;
    forall i | 0 <= i < |garbage| ensures !MagicAt(buf, i) {
      NoMagicStraddles(garbage, stream, i);
    }
    assert MagicAt(buf, |garbage|) && !MagicAt(buf, 0);
    assert buf[|garbage|..] == stream && buf[..|garbage|] == garbage;
    SkipUnfolds(buf, |garbage|);
  }

  lemma SkipUnfolds(buf: seq<uint8>, n: nat)
    requires |buf| >= CORA_HEADER_SIZE && 0 < n <= |buf|
    requires MagicAt(buf, n) && forall i :: 0 <= i < n ==> !MagicAt(buf, i)
    ensures NextAction(buf) == Skip(n)
    ensures Drain(buf) == Drain(buf[n..])
    ensures Trace(buf) == [Gap(buf[..n], buf[n..])] + Trace(buf[n..])
  {
    hide FindMagicFrom, ParseHeader;
    assert !MagicAt(buf, 0);
  }

  /** Any chunking of garbage and a stream delivers the stream, under the condition of a clean run. */
  lemma {:induction false} GarbageRecoveryInChunks(garbage: seq<uint8>, frames: seq<CoraFrame>, chunks: seq<seq<uint8>>)
    requires NoMagic(garbage) && garbage != []
    requires AllWellFormed(frames) && frames != []
    ensures Flatten(chunks) == garbage + EncodeAll(frames) && RunsCleanly([], chunks) ==>
      Run([], chunks).frames == frames
  {
    hide Drain, NextAction, EncodeAll, Run, RunsCleanly, Flatten, FrameBytes;
    if Flatten(chunks) == garbage + EncodeAll(frames) && RunsCleanly([], chunks) {
      GarbageRecovery(garbage, frames);
      SkipAheadRefinesScan(chunks);
      DrainIsScan(garbage + EncodeAll(frames));
    }
  }
}
