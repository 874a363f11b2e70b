/**
 Skip-ahead against the naive scanner.  The loop drops a whole buffer that holds
 no magic; the tail of that buffer may be the start of one.  Everything here
 turns on that one branch.
 */
module Resync {
  import opened Bytes
  import opened Wrappers
  import opened Cora
  import opened Stream

  predicate EndsInMagicPrefix(buf: seq<uint8>) {
    exists k :: 1 <= k <= 3 && TailIsMagicPrefix(buf, k)
  }

  predicate TailIsMagicPrefix(buf: seq<uint8>, k: nat) {
    k <= 4 && k <= |buf| && buf[|buf| - k..] == CORA_MAGIC[..k]
  }

  /** The drain of `buf` clears nothing that could still become a magic. */
  predicate ClearsCleanly(buf: seq<uint8>)
    decreases |buf|
  {
    match NextAction(buf)
    case Emit(_, consumed) => ClearsCleanly(buf[consumed..])
    case Skip(count) => ClearsCleanly(buf[count..])
    case Await => true
    case Clear => !EndsInMagicPrefix(buf)
  }

  predicate RunsCleanly(residual: seq<uint8>, chunks: seq<seq<uint8>>)
    decreases |chunks|
  {
    chunks == [] ||
    (ClearsCleanly(residual + chunks[0]) && RunsCleanly(Drain(residual + chunks[0]).residual, chunks[1..]))
  }

  lemma {:induction false} ScanSkipsGarbage(stream: seq<uint8>, k: nat)
    requires k <= |stream|
    requires forall i :: 0 <= i < k ==> !MagicAt(stream, i)
    ensures Scan(stream) == Scan(stream[k..])
  {
    if k == 0 {
      assert stream[0..] == stream;
    } else if |stream| < CORA_HEADER_SIZE {
    } else {
      assert !MagicAt(stream, 0);
      forall i | 0 <= i < k - 1 ensures !MagicAt(stream[1..], i) {
        assert !MagicAt(stream, i + 1);
      }
      ScanSkipsGarbage(stream[1..], k - 1);
      assert stream[1..][k - 1..] == stream[k..];
    }
  }

  /** A magic that is complete only in `a + b` leaves a proper prefix of itself at the end of `a`. */
  lemma StraddlingMagic(a: seq<uint8>, b: seq<uint8>, i: nat)
    requires i < |a| < i + 4 && MagicAt(a + b, i)
    ensures TailIsMagicPrefix(a, |a| - i)
  {
    var s := a + b;
    var k := |a| - i;
    assert a[i..] == s[i..|a|] == CORA_MAGIC[..k];
  }

  /** A buffer with no magic and no unfinished magic says nothing about what follows it. */
  lemma CleanGarbageIsIgnored(a: seq<uint8>, b: seq<uint8>)
    requires NoMagic(a) && !EndsInMagicPrefix(a)
    ensures Scan(a + b) == Scan(b)
  {
    hide Scan;
    forall i | 0 <= i < |a| ensures !MagicAt(a + b, i) {
      assert !MagicAt(a, i);
      assert |a| < i + 4 ==> !TailIsMagicPrefix(a, |a| - i);
      if |a| < i + 4 && MagicAt(a + b, i) {
        StraddlingMagic(a, b, i);
        assert false;
      }
    }
    ScanSkipsGarbage(a + b, |a|);
    assert (a + b)[|a|..] == b;
  }

  /** Draining what has arrived and scanning the rest loses nothing, if the clear was clean. */
  lemma {:induction false} DrainThenScan(a: seq<uint8>, b: seq<uint8>)
    requires ClearsCleanly(a)
    ensures Scan(a + b) == Drain(a).frames + Scan(Drain(a).residual + b)
    decreases |a|
  {
    hide Decode, FindMagic, EndsInMagicPrefix, MagicAt, NoMagic;
    match NextAction(a)
    case Emit(frame, n) =>
      DecodeIsStable(a, b);
      DrainThenScan(a[n..], b);
      assert (a + b)[n..] == a[n..] + b;
      assert Scan(a + b) == [frame] + Scan(a[n..] + b);
    case Skip(n) =>
      SkippedIsGarbage(a, b, n);
      DrainThenScan(a[n..], b);
      assert (a + b)[n..] == a[n..] + b;
    case Await =>
    case Clear =>
      CleanGarbageIsIgnored(a, b);
      assert Drain(a).residual + b == b;
  }

  lemma SkippedIsGarbage(a: seq<uint8>, b: seq<uint8>, n: nat)
    requires NextAction(a) == Skip(n)
    ensures Scan(a + b) == Scan((a + b)[n..])
  {
    DecodeIsStable(a, b);
    if !MagicAt(a, 0) {
      forall i | 0 <= i < n ensures !MagicAt(a + b, i) {
        assert !MagicAt(a, i);
      }
      ScanSkipsGarbage(a + b, n);
    }
  }

  /** On one buffer, skipping ahead finds exactly the frames of the byte-by-byte scanner. */
  lemma {:induction false} DrainIsScan(buf: seq<uint8>)
    ensures Drain(buf).frames == Scan(buf)
    decreases |buf|
  {
    match NextAction(buf)
    case Emit(_, n) => DrainIsScan(buf[n..]);
    case Skip(n) =>
      SkippedIsGarbage(buf, [], n);
      assert buf + [] == buf;
      DrainIsScan(buf[n..]);
    case Await =>
    case Clear => ScanSkipsGarbage(buf, |buf|);
  }

  // ----- Why the condition is needed -----

  /** A valid, empty `Write` frame. */
  const EMPTY_FRAME: CoraFrame := CoraFrame(CoraHeader(0, Write, 0, 0, 0), [])

  lemma EmptyFrameAlone()
    ensures Scan(FrameBytes(EMPTY_FRAME)) == [EMPTY_FRAME]
  {
    var bytes := FrameBytes(EMPTY_FRAME);
    DecodeAfterEncode(EMPTY_FRAME, []);
    hide FrameBytes, Decode;
    assert bytes + [] == bytes;
    assert Decode(bytes) == Success(Some(Decoded(EMPTY_FRAME, CORA_HEADER_SIZE)));
    assert bytes[CORA_HEADER_SIZE..] == [];
    ScanOfNothing();
  }

  lemma ScanOfNothing()
    ensures Scan([]) == []
  {
  }

  /** The scanner finds the empty frame behind any bytes that start no magic. */
  lemma EmptyFrameIsFound(stream: seq<uint8>, at: nat)
    requires at <= |stream| && stream[at..] == FrameBytes(EMPTY_FRAME)
    requires forall i :: 0 <= i < at && i + 4 <= at ==> !MagicAt(stream, i)
    ensures Scan(stream) == [EMPTY_FRAME]
  {
    hide Scan, FrameBytes;
    var bytes := FrameBytes(EMPTY_FRAME);
    EmptyFrameAlone();
    assert MagicAt(stream, at) by {
      EncodingStartsWithMagic(EMPTY_FRAME);
      assert forall j :: 0 <= j < 4 ==> stream[at..][j] == bytes[j];
    }
    forall i | 0 <= i < at ensures !MagicAt(stream, i) {
      if MagicAt(stream, i) {
        MagicHasNoBorder(stream, i, at);
        assert false;
      }
    }
    ScanSkipsGarbage(stream, at);
  }

  /** After clearing the first `k` bytes of a magic, the bytes that complete a frame are lost. */
  lemma {:induction false} DirtyGarbageHidesFrame(a: seq<uint8>) returns (b: seq<uint8>)
    requires NoMagic(a) && EndsInMagicPrefix(a)
    ensures Scan(b) == [] && Scan(a + b) == [EMPTY_FRAME]
  {
    hide FrameBytes;
    var k :| 1 <= k <= 3 && TailIsMagicPrefix(a, k);
    var bytes := FrameBytes(EMPTY_FRAME);
    b := bytes[k..];
    assert Scan(b) == [];
    hide Scan;
    var at := |a| - k;
    assert bytes[..k] == CORA_MAGIC[..k] by {
      EncodingStartsWithMagic(EMPTY_FRAME);
      MagicAtIsSlice(bytes, 0);
    }
    assert (a + b)[at..] == a[at..] + b == bytes;
    forall i | 0 <= i < at && i + 4 <= at ensures !MagicAt(a + b, i) {
      assert !MagicAt(a, i);
    }
    EmptyFrameIsFound(a + b, at);
  }

  lemma {:induction false} DirtyDrainLosesFrame(a: seq<uint8>) returns (b: seq<uint8>)
    requires !ClearsCleanly(a)
    ensures Scan(a + b) != Drain(a).frames + Scan(Drain(a).residual + b)
    decreases |a|
  {
    hide Decode, FindMagic, EndsInMagicPrefix, MagicAt, NoMagic;
    match NextAction(a)
    case Emit(frame, n) =>
      b := DirtyDrainLosesFrame(a[n..]);
      DecodeIsStable(a, b);
      assert (a + b)[n..] == a[n..] + b;
      var rest := Drain(a[n..]);
      SamePrefixCancels([frame], Scan(a[n..] + b), rest.frames + Scan(rest.residual + b));
      assert [frame] + (rest.frames + Scan(rest.residual + b)) == Drain(a).frames + Scan(rest.residual + b);
    case Skip(n) =>
      b := DirtyDrainLosesFrame(a[n..]);
      SkippedIsGarbage(a, b, n);
      assert (a + b)[n..] == a[n..] + b;
    case Clear =>
      b := DirtyGarbageHidesFrame(a);
      assert Drain(a).residual + b == b;
  }

  lemma SamePrefixCancels<T>(p: seq<T>, x: seq<T>, y: seq<T>)
    ensures p + x == p + y ==> x == y
  {
    assert (p + x)[|p|..] == x && (p + y)[|p|..] == y;
  }

  // ----- Whole runs -----

  lemma {:induction false} RunThenScan(residual: seq<uint8>, chunks: seq<seq<uint8>>, b: seq<uint8>)
    requires RunsCleanly(residual, chunks)
    ensures Scan(residual + Flatten(chunks) + b)
         == Run(residual, chunks).frames + Scan(Run(residual, chunks).residual + b)
    decreases |chunks|
  {
    hide Drain, Scan, ClearsCleanly;
    if chunks == [] {
      assert residual + Flatten(chunks) + b == residual + b;
    } else {
      var rest := Flatten(chunks[1..]) + b;
      var first := Drain(residual + chunks[0]);
      DrainThenScan(residual + chunks[0], rest);
      RunThenScan(first.residual, chunks[1..], b);
      assert residual + Flatten(chunks) + b == residual + chunks[0] + rest;
      assert first.residual + rest == first.residual + Flatten(chunks[1..]) + b;
    }
  }

  /**
   The receive loop refines the naive scanner: however the stream is cut into
   reads, it emits the frames of the scanner, as long as no clear drops the
   beginning of a magic.
   */
  lemma {:induction false} SkipAheadRefinesScan(chunks: seq<seq<uint8>>)
    requires RunsCleanly([], chunks)
    ensures Run([], chunks).frames == Scan(Flatten(chunks))
  {
    RunThenScan([], chunks, []);
    assert [] + Flatten(chunks) + [] == Flatten(chunks);
    var residual := Run([], chunks).residual;
    assert residual + [] == residual;
    RunResidualAwaits([], chunks);
  }

  lemma {:induction false} RunResidualAwaits(residual: seq<uint8>, chunks: seq<seq<uint8>>)
    requires Decode(residual) == Success(None)
    ensures Decode(Run(residual, chunks).residual) == Success(None)
    decreases |chunks|
  {
    if chunks != [] {
      ResidualAwaits(residual + chunks[0]);
      RunResidualAwaits(Drain(residual + chunks[0]).residual, chunks[1..]);
    }
  }

  lemma {:induction false} DirtyRunLosesFrame(residual: seq<uint8>, chunks: seq<seq<uint8>>)
    returns (n: nat, b: seq<uint8>)
    requires !RunsCleanly(residual, chunks)
    ensures n <= |chunks|
    ensures Run(residual, chunks[..n] + [b]).frames != Scan(residual + Flatten(chunks[..n]) + b)
    decreases |chunks|
  {
    hide Drain, Scan, ClearsCleanly;
    var buf := residual + chunks[0];
    var first := Drain(buf);
    var rest: seq<seq<uint8>>;
    var tail: seq<uint8>;
    if !ClearsCleanly(buf) {
      n := 1;
      b := DirtyDrainLosesFrame(buf);
      DrainIsScan(first.residual + b);
      rest, tail := [b], b;
      RunOfOne(first.residual, b);
      assert Flatten(chunks[..1]) == chunks[0] + [];
    } else {
      var m;
      m, b := DirtyRunLosesFrame(first.residual, chunks[1..]);
      n := m + 1;
      rest, tail := chunks[1..][..m] + [b], Flatten(chunks[1..][..m]) + b;
      DrainThenScan(buf, tail);
      assert first.residual + tail == first.residual + Flatten(chunks[1..][..m]) + b;
      SamePrefixCancels(first.frames, Run(first.residual, rest).frames, Scan(first.residual + tail));
      assert chunks[..n][1..] == chunks[1..][..m];
    }
    assert (chunks[..n] + [b])[1..] == rest;
    assert residual + Flatten(chunks[..n]) + b == buf + tail;
  }

  lemma RunOfOne(residual: seq<uint8>, chunk: seq<uint8>)
    ensures Run(residual, [chunk]) == Drain(residual + chunk)
  {
    var d := Drain(residual + chunk);
    assert Run(residual, [chunk]) == Drained(d.frames + [], d.residual);
  }

  /** The reads of a session, one at a time. */
  lemma RunOneMore(chunks: seq<seq<uint8>>, i: nat)
    requires i < |chunks|
    ensures var before, after := Run([], chunks[..i]), Run([], chunks[..i + 1]);
            var d := Drain(before.residual + chunks[i]);
      after.frames == before.frames + d.frames && after.residual == d.residual
  {
    hide Drain, Run;
    assert chunks[..i + 1] == chunks[..i] + [chunks[i]];
    RunAppend([], chunks[..i], [chunks[i]]);
    RunOfOne(Run([], chunks[..i]).residual, chunks[i]);
  }

  lemma NothingRead(chunks: seq<seq<uint8>>)
    ensures Run([], chunks[..0]) == Drained([], [])
  {
  }

  /** At every point of the run, the frames of the next read are those of the scanner, whatever it brings. */
  ghost predicate FaithfulAtEveryRead(chunks: seq<seq<uint8>>) {
    forall n: nat, b: seq<uint8> :: n <= |chunks| ==>
      Run([], chunks[..n] + [b]).frames == Scan(Flatten(chunks[..n]) + b)
  }

  /**
   Exactly when chunking does not matter: the loop agrees with the scanner
   after every prefix of the reads and for every continuation, if and only if
   no clear so far dropped a buffer ending in a proper prefix of the magic.
   */
  lemma {:induction false} ChunkIndependenceIsExact(chunks: seq<seq<uint8>>)
    ensures FaithfulAtEveryRead(chunks) <==> RunsCleanly([], chunks)
  {
    if RunsCleanly([], chunks) {
      forall n: nat, b: seq<uint8> | n <= |chunks|
        ensures Run([], chunks[..n] + [b]).frames == Scan(Flatten(chunks[..n]) + b)
      {
        CleanPrefix([], chunks, n);
        var before := Run([], chunks[..n]);
        RunAppend([], chunks[..n], [b]);
        RunOfOne(before.residual, b);
        DrainIsScan(before.residual + b);
        RunThenScan([], chunks[..n], b);
        assert [] + Flatten(chunks[..n]) == Flatten(chunks[..n]);
      }
    } else {
      var n, b := DirtyRunLosesFrame([], chunks);
      assert [] + Flatten(chunks[..n]) == Flatten(chunks[..n]);
    }
  }

  lemma {:induction false} CleanPrefix(residual: seq<uint8>, chunks: seq<seq<uint8>>, n: nat)
    requires RunsCleanly(residual, chunks) && n <= |chunks|
    ensures RunsCleanly(residual, chunks[..n])
    decreases |chunks|
  {
    if n > 0 {
      CleanPrefix(Drain(residual + chunks[0]).residual, chunks[1..], n - 1);
      assert chunks[..n][1..] == chunks[1..][..n - 1];
    }
  }

  /** The failing case, concretely: the first byte of a frame arrives behind 15 bytes of noise. */
  lemma {:induction false} SplitMagicIsLost()
    ensures var bytes := FrameBytes(EMPTY_FRAME);
            var chunks := [Zeros(15) + bytes[..1], bytes[1..]];
            Run([], chunks).frames == [] && Scan(Flatten(chunks)) == [EMPTY_FRAME]
  {
    hide FrameBytes;
    var bytes := FrameBytes(EMPTY_FRAME);
    var a, b := Zeros(15) + bytes[..1], bytes[1..];
    assert [] + a == a && [] + b == b && [a, b][1..] == [b];
    NoiseIsCleared(a);
    assert Drain(b) == Drained([], b);
    hide Drain, Scan;
    RunOfOne([], b);
    assert Flatten([a, b]) == a + b by {
      assert Flatten([b]) == b + [] == b;
    }
    assert (a + b)[15..] == bytes;
    forall i | 0 <= i < 15 ensures !MagicAt(a + b, i) {
      assert (a + b)[i] == 0;
    }
    EmptyFrameIsFound(a + b, 15);
  }

  lemma NoiseIsCleared(a: seq<uint8>)
    requires |a| == 16 && forall i :: 0 <= i < 15 ==> a[i] == 0
    ensures Drain(a) == Drained([], [])
  {
    assert NoMagic(a);
  }
}
