/** Unsigned bytes, zero-filled buffers and the two C library calls
    (memcpy, memset) that every component uses on its byte buffers. */
module Bytes {

  /** An unsigned byte held as a mathematical integer. */
  type uint8 = x: int | 0 <= x < 256

  /** A 32-bit unsigned value held as a mathematical integer. */
  type uint32 = x: nat | x < 0x1_0000_0000

  /** `n` zero bytes. */
  function Zeros(n: nat): (z: seq<uint8>)
    ensures |z| == n
    ensures forall i | 0 <= i < n :: z[i] == 0
  {
    seq(n, _ => 0)
  }

  /** `n` copies of the byte `b`. */
  function Repeat(b: uint8, n: nat): (z: seq<uint8>)
    ensures |z| == n
    ensures forall i | 0 <= i < n :: z[i] == b
  {
    seq(n, _ => b)
  }

  /** Width of one serialized network address (the 18 bytes `Address::CopyTo` writes). */
  const ADDR_LEN: nat := 18

  /** `b` with the bytes from `off` on replaced by `src`. */
  function Overwrite(b: seq<uint8>, off: nat, src: seq<uint8>): (r: seq<uint8>)
    requires off + |src| <= |b|
    ensures |r| == |b|
    ensures r[off..off + |src|] == src
    ensures r[..off] == b[..off] && r[off + |src|..] == b[off + |src|..]
  {
    seq(|b|, i requires 0 <= i < |b| => if off <= i < off + |src| then src[i - off] else b[i])
  }

  /** memcpy(dst + off, src, |src|) */
  method Memcpy(dst: array<uint8>, off: nat, src: seq<uint8>)
    requires off + |src| <= dst.Length
    modifies dst
    ensures dst[..] == Overwrite(old(dst[..]), off, src)
  {
    forall i | off <= i < off + |src| {
      dst[i] := src[i - off];
    }
    assert dst[..] == old(dst[..off]) + src + old(dst[off + |src|..]);
  }

  /** memset(dst + off, b, dst.Length - off) */
  method MemsetTail(dst: array<uint8>, off: nat, b: uint8)
    requires off <= dst.Length
    modifies dst
    ensures dst[..] == old(dst[..off]) + Repeat(b, dst.Length - off)
  {
    forall i | off <= i < dst.Length {
      dst[i] := b;
    }
    assert dst[..] == old(dst[..off]) + Repeat(b, dst.Length - off);
  }

  /** A fresh buffer holding `init`: what an uninitialised stack buffer
      happens to contain is passed in as `init`. */
  method NewBuffer(init: seq<uint8>) returns (a: array<uint8>)
    ensures fresh(a) && a[..] == init
  {
    a := new uint8[|init|](i requires 0 <= i < |init| => init[i]);
  }
}

/** A value that may be missing: the NULL a table lookup returns. */
module Wrappers {
  datatype Option<T> = None | Some(value: T)
}
