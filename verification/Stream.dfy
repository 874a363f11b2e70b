/**
 The receive loop shared by the four connection handlers, as a function of the
 bytes buffered and the chunks read, with a naive scanner to compare it with.
 */
module Stream {
  import opened Bytes
  import opened Wrappers
  import opened Cora

  /** What one turn of the drain loop does with the buffer. */
  datatype Action =
    | Emit(frame: CoraFrame, consumed: nat)
    | Skip(count: nat)
    | Await
    | Clear

  function NextAction(buf: seq<uint8>): (a: Action)
    ensures a.Emit? ==> CORA_HEADER_SIZE <= a.consumed <= |buf|
    ensures a.Skip? ==> 1 <= a.count <= |buf|
  {
    match Decode(buf)
    case Success(Some(d)) => Emit(d.frame, d.consumed)
    case Success(None) => Await
    case Failure(_) =>
      match FindMagic(buf)
      case Some(pos) => if pos > 0 then Skip(pos) else Skip(1)
      case None => Clear
  }

  datatype Drained = Drained(frames: seq<CoraFrame>, residual: seq<uint8>)

  /** The whole drain loop on one buffer. */
  function Drain(buf: seq<uint8>): Drained
    decreases |buf|
  {
    match NextAction(buf)
    case Emit(frame, consumed) =>
      var rest := Drain(buf[consumed..]);
      Drained([frame] + rest.frames, rest.residual)
    case Skip(count) => Drain(buf[count..])
    case Await => Drained([], buf)
    case Clear => Drained([], [])
  }

  /** Successive reads: each chunk is appended to what the previous drain left. */
  function Run(residual: seq<uint8>, chunks: seq<seq<uint8>>): Drained
    decreases |chunks|
  {
    if chunks == [] then Drained([], residual)
    else
      var first := Drain(residual + chunks[0]);
      var rest := Run(first.residual, chunks[1..]);
      Drained(first.frames + rest.frames, rest.residual)
  }

  function Flatten(chunks: seq<seq<uint8>>): seq<uint8> {
    if chunks == [] then [] else chunks[0] + Flatten(chunks[1..])
  }

  /**
   The reference: a scanner that sees the whole stream, waits for 16 bytes and
   for the announced payload, and otherwise moves on by a single byte.
   */
  function Scan(stream: seq<uint8>): seq<CoraFrame>
    decreases |stream|
  {
    match Decode(stream)
    case Success(Some(d)) => [d.frame] + Scan(stream[d.consumed..])
    case Success(None) => []
    case Failure(_) => Scan(stream[1..])
  }

  /** The stream a sender of `frames` produces. */
  function EncodeAll(frames: seq<CoraFrame>): seq<uint8> {
    if frames == [] then [] else FrameBytes(frames[0]) + EncodeAll(frames[1..])
  }

  predicate AllWellFormed(frames: seq<CoraFrame>) {
    forall f :: f in frames ==> f.WellFormed()
  }

  lemma {:induction false} FlattenAppend(xs: seq<seq<uint8>>, ys: seq<seq<uint8>>)
    ensures Flatten(xs + ys) == Flatten(xs) + Flatten(ys)
  {
    if xs == [] {
      assert xs + ys == ys;
    } else {
      FlattenAppend(xs[1..], ys);
      assert (xs + ys)[1..] == xs[1..] + ys && (xs + ys)[0] == xs[0];
      Assoc(xs[0], Flatten(xs[1..]), Flatten(ys));
    }
  }

  lemma {:induction false} EncodeAllAppend(xs: seq<CoraFrame>, ys: seq<CoraFrame>)
    ensures EncodeAll(xs + ys) == EncodeAll(xs) + EncodeAll(ys)
  {
    hide FrameBytes;
    if xs == [] {
      assert xs + ys == ys;
    } else {
      EncodeAllAppend(xs[1..], ys);
      assert (xs + ys)[1..] == xs[1..] + ys && (xs + ys)[0] == xs[0];
      Assoc(FrameBytes(xs[0]), EncodeAll(xs[1..]), EncodeAll(ys));
    }
  }

  lemma {:induction false} RunAppend(residual: seq<uint8>, xs: seq<seq<uint8>>, ys: seq<seq<uint8>>)
    ensures Run(residual, xs + ys).frames
         == Run(residual, xs).frames + Run(Run(residual, xs).residual, ys).frames
    ensures Run(residual, xs + ys).residual == Run(Run(residual, xs).residual, ys).residual
    decreases |xs|
  {
    hide Drain;
    if xs == [] {
      assert xs + ys == ys;
    } else {
      RunAppend(Drain(residual + xs[0]).residual, xs[1..], ys);
      assert (xs + ys)[1..] == xs[1..] + ys;
    }
  }

  /** Whatever the loop leaves in the buffer is waiting for more input. */
  lemma {:induction false} ResidualAwaits(buf: seq<uint8>)
    ensures Decode(Drain(buf).residual) == Success(None)
    ensures |Drain(buf).residual| <= |buf|
    decreases |buf|
  {
    match NextAction(buf)
    case Emit(_, n) => ResidualAwaits(buf[n..]);
    case Skip(n) => ResidualAwaits(buf[n..]);
    case Await =>
    case Clear =>
  }
}
