/** Every byte received is in an emitted frame, in a skipped gap, or still in the buffer. */
module Conservation {
  import opened Bytes
  import opened Wrappers
  import opened Cora
  import opened Stream

  /** What became of a stretch of the stream; a gap also records the bytes buffered behind it when it was skipped. */
  datatype Piece =
    | Gap(bytes: seq<uint8>, ahead: seq<uint8>)
    | Packet(frame: CoraFrame)
  {
    function Bytes(): seq<uint8> {
      match this
      case Gap(bytes, _) => bytes
      case Packet(frame) => FrameBytes(frame)
    }
  }

  function Trace(buf: seq<uint8>): seq<Piece>
    decreases |buf|
  {
    match NextAction(buf)
    case Emit(frame, consumed) => [Packet(frame)] + Trace(buf[consumed..])
    case Skip(count) => [Gap(buf[..count], buf[count..])] + Trace(buf[count..])
    case Await => []
    case Clear => [Gap(buf, [])]
  }

  function RunTrace(residual: seq<uint8>, chunks: seq<seq<uint8>>): seq<Piece>
    decreases |chunks|
  {
    if chunks == [] then []
    else Trace(residual + chunks[0]) + RunTrace(Drain(residual + chunks[0]).residual, chunks[1..])
  }

  function Join(pieces: seq<Piece>): seq<uint8> {
    if pieces == [] then [] else pieces[0].Bytes() + Join(pieces[1..])
  }

  function Packets(pieces: seq<Piece>): seq<CoraFrame> {
    if pieces == [] then []
    else if pieces[0].Packet? then [pieces[0].frame] + Packets(pieces[1..])
    else Packets(pieces[1..])
  }

  /** A magic at `i` that nothing seen so far contradicts: its op byte is missing or known. */
  predicate FrameMayStart(seen: seq<uint8>, i: nat) {
    MagicAt(seen, i) && (i + CORA_HEADER_SIZE <= |seen| ==> HidOpFromByte(seen[i + 6]).Success?)
  }

  /** No frame could have started inside the gap, judging by what had arrived when it was skipped. */
  predicate GapIsGarbage(bytes: seq<uint8>, ahead: seq<uint8>) {
    forall i :: 0 <= i < |bytes| ==> !FrameMayStart(bytes + ahead, i)
  }

  /** The gaps of `pieces` are garbage, and what they saw ahead of them is what came next in the stream. */
  predicate Accounted(pieces: seq<Piece>, rest: seq<uint8>) {
    pieces == [] ||
    (Accounted(pieces[1..], rest) &&
     match pieces[0]
     case Gap(bytes, ahead) => GapIsGarbage(bytes, ahead) && ahead <= Join(pieces[1..]) + rest
     case Packet(frame) => frame.WellFormed())
  }

  lemma SkipIsJustified(buf: seq<uint8>)
    requires NextAction(buf).Skip?
    ensures var n := NextAction(buf).count; GapIsGarbage(buf[..n], buf[n..])
  {
    var n := NextAction(buf).count;
    assert buf[..n] + buf[n..] == buf;
    if MagicAt(buf, 0) {
      assert HidOpFromByte(buf[..CORA_HEADER_SIZE][6]).Failure?;
    } else {
      assert forall i :: 0 <= i < n ==> !MagicAt(buf, i);
    }
  }

  lemma ClearIsJustified(buf: seq<uint8>)
    requires NextAction(buf).Clear?
    ensures GapIsGarbage(buf, [])
  {
    assert buf + [] == buf;
  }

  lemma LoopUnfolds(buf: seq<uint8>)
    ensures var a := NextAction(buf);
      && (a.Emit? ==>
        && Decode(buf) == Success(Some(Decoded(a.frame, a.consumed)))
        && Drain(buf).frames == [a.frame] + Drain(buf[a.consumed..]).frames
        && Drain(buf).residual == Drain(buf[a.consumed..]).residual
        && Trace(buf) == [Packet(a.frame)] + Trace(buf[a.consumed..]))
      && (a.Skip? ==>
        && Drain(buf) == Drain(buf[a.count..])
        && Trace(buf) == [Gap(buf[..a.count], buf[a.count..])] + Trace(buf[a.count..]))
      && (Decode(buf) == Success(None) <==> a.Await?)
      && (Decode(buf).Success? && Decode(buf).value.Some? <==> a.Emit?)
      && (a.Await? ==> Drain(buf) == Drained([], buf) && Trace(buf) == [])
      && (a.Clear? ==> Drain(buf) == Drained([], []) && Trace(buf) == [Gap(buf, [])])
  {
    hide Decode, FindMagic;
  }

  lemma {:induction false} DrainIsAccountedFor(buf: seq<uint8>)
    ensures Join(Trace(buf)) + Drain(buf).residual == buf
    ensures Packets(Trace(buf)) == Drain(buf).frames
    ensures Accounted(Trace(buf), Drain(buf).residual)
    decreases |buf|
  {
    hide Drain, Trace, NextAction, Decode, Join, Packets, Accounted, GapIsGarbage, FrameBytes;
    LoopUnfolds(buf);
    match NextAction(buf)
    case Emit(frame, n) =>
      DrainIsAccountedFor(buf[n..]);
      EncodeAfterDecode(buf);
      AccountForOneMore(Packet(frame), Trace(buf[n..]), Drain(buf[n..]).residual);
      assert buf[..n] + buf[n..] == buf;
    case Skip(n) =>
      DrainIsAccountedFor(buf[n..]);
      SkipIsJustified(buf);
      AccountForOneMore(Gap(buf[..n], buf[n..]), Trace(buf[n..]), Drain(buf[n..]).residual);
      assert buf[..n] + buf[n..] == buf;
    case Await =>
      NothingToAccountFor(buf);
    case Clear =>
      ClearIsJustified(buf);
      NothingToAccountFor([]);
      AccountForOneMore(Gap(buf, []), [], []);
      assert [Gap(buf, [])] + [] == [Gap(buf, [])] && buf + [] == buf;
  }

  lemma AccountForOneMore(p: Piece, pieces: seq<Piece>, rest: seq<uint8>)
    ensures Join([p] + pieces) + rest == p.Bytes() + (Join(pieces) + rest)
    ensures Packets([p] + pieces) == (if p.Packet? then [p.frame] else []) + Packets(pieces)
    ensures Accounted([p] + pieces, rest) ==
            (Accounted(pieces, rest) &&
             match p
             case Gap(bytes, ahead) => GapIsGarbage(bytes, ahead) && ahead <= Join(pieces) + rest
             case Packet(frame) => frame.WellFormed())
  {
    hide FrameBytes, GapIsGarbage, CoraFrame.WellFormed;
    assert ([p] + pieces)[1..] == pieces;
    Assoc(p.Bytes(), Join(pieces), rest);
  }

  lemma {:induction false} JoinAppend(xs: seq<Piece>, ys: seq<Piece>)
    ensures Join(xs + ys) == Join(xs) + Join(ys)
    ensures Packets(xs + ys) == Packets(xs) + Packets(ys)
  {
    hide Piece.Bytes;
    if xs == [] {
      assert xs + ys == ys;
    } else {
      JoinAppend(xs[1..], ys);
      assert (xs + ys)[1..] == xs[1..] + ys;
      Assoc(xs[0].Bytes(), Join(xs[1..]), Join(ys));
      if xs[0].Packet? {
        Assoc([xs[0].frame], Packets(xs[1..]), Packets(ys));
      }
    }
  }

  lemma {:induction false} AccountedAppend(xs: seq<Piece>, ys: seq<Piece>, seen: seq<uint8>, rest: seq<uint8>)
    requires Accounted(xs, seen) && Accounted(ys, rest)
    requires seen <= Join(ys) + rest
    ensures Accounted(xs + ys, rest)
  {
    hide Join, GapIsGarbage, CoraFrame.WellFormed;
    if xs == [] {
      assert xs + ys == ys;
    } else {
      AccountedAppend(xs[1..], ys, seen, rest);
      assert (xs + ys)[1..] == xs[1..] + ys;
      JoinAppend(xs[1..], ys);
      Assoc(Join(xs[1..]), Join(ys), rest);
      PrefixExtends(Join(xs[1..]), seen, Join(ys) + rest);
    }
  }

  lemma NothingToAccountFor(rest: seq<uint8>)
    ensures Join([]) + rest == rest == rest + Flatten([]) && Packets([]) == [] && Accounted([], rest)
  {
  }

  lemma PrefixExtends(p: seq<uint8>, a: seq<uint8>, b: seq<uint8>)
    requires a <= b
    ensures p + a <= p + b
  {
    assert p + b == p + a + b[|a|..];
  }

  lemma {:induction false} RunIsAccountedFor(residual: seq<uint8>, chunks: seq<seq<uint8>>)
    ensures Join(RunTrace(residual, chunks)) + Run(residual, chunks).residual == residual + Flatten(chunks)
    ensures Packets(RunTrace(residual, chunks)) == Run(residual, chunks).frames
    ensures Accounted(RunTrace(residual, chunks), Run(residual, chunks).residual)
    decreases |chunks|
  {
    hide Drain, Trace, Accounted, Join, Packets;
    if chunks == [] {
      NothingToAccountFor(residual);
    } else {
      var buf := residual + chunks[0];
      var left := Drain(buf).residual;
      var later := RunTrace(left, chunks[1..]);
      var final := Run(left, chunks[1..]).residual;
      DrainIsAccountedFor(buf);
      RunIsAccountedFor(left, chunks[1..]);
      JoinAppend(Trace(buf), later);
      AccountedAppend(Trace(buf), later, left, final);
      Assoc(Join(Trace(buf)), Join(later), final);
      Assoc(Join(Trace(buf)), left, Flatten(chunks[1..]));
      Assoc(residual, chunks[0], Flatten(chunks[1..]));
    }
  }

  /**
   Conservation, for any bytes and any chunking: the stream is the emitted
   frames re-encoded, interleaved with gaps in which no frame could have
   started, followed by the bytes still buffered.
   */
  lemma {:induction false} EveryByteIsAccountedFor(chunks: seq<seq<uint8>>)
    ensures var pieces, end := RunTrace([], chunks), Run([], chunks);
            && Join(pieces) + end.residual == Flatten(chunks)
            && Packets(pieces) == end.frames
            && Accounted(pieces, end.residual)
  {
    RunIsAccountedFor([], chunks);
    assert [] + Flatten(chunks) == Flatten(chunks);
  }
}
