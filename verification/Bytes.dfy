/** Fixed-width unsigned integers, little-endian conversion and slice copies. */
module Bytes {
  type uint8 = x: int | 0 <= x < 0x100
  type uint16 = x: int | 0 <= x < 0x1_0000
  type uint32 = x: int | 0 <= x < 0x1_0000_0000

  /** `usize as u32`: keeps the low 32 bits. */
  function Truncate32(n: nat): uint32 {
    n % 0x1_0000_0000
  }

  lemma TruncationIsExact(n: nat)
    ensures Truncate32(n) <= n
    ensures Truncate32(n) == n <==> n < 0x1_0000_0000
  {
  }

  function FromLe16(b0: uint8, b1: uint8): uint16 {
    b0 + 0x100 * b1
  }

  function FromLe32(b0: uint8, b1: uint8, b2: uint8, b3: uint8): uint32 {
    FromLe16(b0, b1) + 0x1_0000 * FromLe16(b2, b3)
  }

  function LeBytes16(v: uint16): (bs: seq<uint8>)
    ensures |bs| == 2 && FromLe16(bs[0], bs[1]) == v
  {
    [v % 0x100, v / 0x100]
  }

  function LeBytes32(v: uint32): (bs: seq<uint8>)
    ensures |bs| == 4 && FromLe32(bs[0], bs[1], bs[2], bs[3]) == v
  {
    LeBytes16(v % 0x1_0000) + LeBytes16(v / 0x1_0000)
  }

  lemma LeBytes16Unique(b0: uint8, b1: uint8)
    ensures LeBytes16(FromLe16(b0, b1)) == [b0, b1]
  {
  }

  lemma LeBytes32Unique(b0: uint8, b1: uint8, b2: uint8, b3: uint8)
    ensures LeBytes32(FromLe32(b0, b1, b2, b3)) == [b0, b1, b2, b3]
  {
    LeBytes16Unique(b0, b1);
    LeBytes16Unique(b2, b3);
    hide LeBytes16;
    var v := FromLe32(b0, b1, b2, b3);
    assert v % 0x1_0000 == FromLe16(b0, b1) && v / 0x1_0000 == FromLe16(b2, b3);
  }

  function SaturatingAdd16(a: uint16, b: uint16): uint16 {
    if a + b < 0x1_0000 then a + b else 0xffff
  }

  lemma Assoc<T>(a: seq<T>, b: seq<T>, c: seq<T>)
    ensures (a + b) + c == a + (b + c)
  {
  }

  function Min(a: nat, b: nat): nat {
    if a <= b then a else b
  }

  function Zeros(n: nat): (bs: seq<uint8>)
    ensures |bs| == n && forall i :: 0 <= i < n ==> bs[i] == 0
  {
    seq(n, _ => 0)
  }

  /** `out[at..at + bs.len()].copy_from_slice(bs)`, on a value. */
  function Splice(out: seq<uint8>, at: nat, bs: seq<uint8>): (r: seq<uint8>)
    requires at + |bs| <= |out|
    ensures |r| == |out|
    ensures forall i :: 0 <= i < |out| ==> r[i] == if at <= i < at + |bs| then bs[i - at] else out[i]
  {
    out[..at] + bs + out[at + |bs|..]
  }

  /** `out[at..at + bs.len()].copy_from_slice(bs)`, in place. */
  method CopyInto(out: array<uint8>, at: nat, bs: seq<uint8>)
    requires at + |bs| <= out.Length
    modifies out
    ensures forall i :: 0 <= i < out.Length ==>
      out[i] == if at <= i < at + |bs| then bs[i - at] else old(out[i])
  {
    forall i | 0 <= i < |bs| {
      out[at + i] := bs[i];
    }
  }

  /** `out[..n].fill(0)`. */
  method ClearFirst(out: array<uint8>, n: nat)
    requires n <= out.Length
    modifies out
    ensures forall i :: 0 <= i < out.Length ==> out[i] == if i < n then 0 else old(out[i])
  {
    forall i | 0 <= i < n {
      out[i] := 0;
    }
  }
}
