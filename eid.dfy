/** The 20-byte content identifier (seanet-eid.h / seanet-eid.cc): a plain
    byte value with byte-wise equality, and Bob Jenkins' lookup2 hash over
    32-bit wrapping arithmetic, which keys every table of the overlay. */
module SeanetEid {
  import opened Bytes

  const EIDSIZE: nat := 20

  type Eid = s: seq<uint8> | |s| == EIDSIZE witness [0,0,0,0,0,0,0,0,0,0,0,0,0,0,0,0,0,0,0,0]

  /** `SeanetEID()`: all twenty bytes zero. */
  function DefaultEid(): (e: Eid)
    ensures forall i | 0 <= i < EIDSIZE :: e[i] == 0
  {
    Zeros(EIDSIZE)
  }

  /** `SeanetEID(buf)`: the first twenty bytes of `buf`. */
  function FromBuffer(buf: seq<uint8>): (e: Eid)
    requires |buf| >= EIDSIZE
    ensures forall i | 0 <= i < EIDSIZE :: e[i] == buf[i]
  {
    buf[..EIDSIZE]
  }

  /** `getSeanetEID(dst)`: the identifier written over the first twenty bytes of `dst`. */
  function GetInto(e: Eid, dst: seq<uint8>): (r: seq<uint8>)
    requires |dst| >= EIDSIZE
    ensures |r| == |dst| && r[..EIDSIZE] == e && r[EIDSIZE..] == dst[EIDSIZE..]
  {
    e + dst[EIDSIZE..]
  }

  /** `setSeanetEID(buf)`: every one of the twenty bytes is replaced, whatever they held. */
  function SetFrom(old_: Eid, buf: seq<uint8>): (e: Eid)
    requires |buf| >= EIDSIZE
    ensures forall i | 0 <= i < EIDSIZE :: e[i] == buf[i]
  {
    buf[..EIDSIZE]
  }

  /** Constructing from a buffer and reading it back yields that buffer's first twenty bytes. */
  lemma GetAfterFromBuffer(buf: seq<uint8>, dst: seq<uint8>)
    requires |buf| >= EIDSIZE && |dst| >= EIDSIZE
    ensures GetInto(FromBuffer(buf), dst)[..EIDSIZE] == buf[..EIDSIZE]
  {
  }

  /** `operator==`: memcmp over the twenty bytes; byte-equal identifiers hash alike. */
  function Equal(a: Eid, b: Eid): (r: bool)
    ensures r <==> a == b
    ensures r ==> SeanetEidHash(a) == SeanetEidHash(b)
  {
    forall i | 0 <= i < EIDSIZE :: a[i] == b[i]
  }

  // ---------------------------------------------------------------------
  // lookup2 (`ub4` is a 32-bit unsigned word; `+=` and `-=` wrap modulo 2^32)

  const GOLDEN: uint32 := 0x9e3779b9

  datatype HashState = HashState(a: uint32, b: uint32, c: uint32)

  /** `x += y` on a `ub4`. */
  function Add32(x: uint32, y: nat): (r: uint32)
    ensures x + y < 0x1_0000_0000 ==> r == x + y
    ensures 0x1_0000_0000 <= x + y < 0x2_0000_0000 ==> r == x + y - 0x1_0000_0000
  {
    (x + y) % 0x1_0000_0000
  }

  /** `x -= y` on a `ub4`. */
  function Sub32(x: uint32, y: uint32): (r: uint32)
  {
    (x - y) % 0x1_0000_0000
  }

  /** Bitwise exclusive or of `x` and `y` on the bits below `m` (for `m` a
      power of two, the low log2(m) bits). */
  function XorBelow(x: nat, y: nat, m: nat): (r: nat)
    ensures m >= 1 ==> r < m
    decreases m
  {
    if m <= 1 then 0
    else (if x % 2 == y % 2 then 0 else 1) + 2 * XorBelow(x / 2, y / 2, m / 2)
  }

  /** `x ^ y` on a `ub4`. */
  function Xor32(x: uint32, y: uint32): uint32
  {
    XorBelow(x, y, 0x1_0000_0000)
  }

  /** `x << n` on a `ub4`, for the shift's power `p` = 2^n: the high bits fall off. */
  function Shl(x: uint32, p: nat): uint32
  {
    (x * p) % 0x1_0000_0000
  }

  /** `x >> n` on a `ub4`, for the shift's power `p` = 2^n. */
  function Shr(x: uint32, p: nat): uint32
    requires p >= 1
  {
    x / p
  }

  /** The `mix(a, b, c)` macro: nine subtract/shift/xor rounds, all modulo 2^32
      (the shift amounts 13, 8, 13, 12, 16, 5, 3, 10, 15 written as powers of two). */
  function Mix(s: HashState): HashState
  {
    var a1 := Xor32(Sub32(Sub32(s.a, s.b), s.c), Shr(s.c, 0x2000));
    var b1 := Xor32(Sub32(Sub32(s.b, s.c), a1), Shl(a1, 0x100));
    var c1 := Xor32(Sub32(Sub32(s.c, a1), b1), Shr(b1, 0x2000));
    var a2 := Xor32(Sub32(Sub32(a1, b1), c1), Shr(c1, 0x1000));
    var b2 := Xor32(Sub32(Sub32(b1, c1), a2), Shl(a2, 0x1_0000));
    var c2 := Xor32(Sub32(Sub32(c1, a2), b2), Shr(b2, 0x20));
    var a3 := Xor32(Sub32(Sub32(a2, b2), c2), Shr(c2, 0x8));
    var b3 := Xor32(Sub32(Sub32(b2, c2), a3), Shl(a3, 0x400));
    var c3 := Xor32(Sub32(Sub32(c2, a3), b3), Shr(b3, 0x8000));
    HashState(a3, b3, c3)
  }

  /** Four bytes read as a little-endian 32-bit word. */
  function Word(k: seq<uint8>, i: nat): (w: uint32)
    requires i + 4 <= |k|
    ensures w % 0x100 == k[i] && w / 0x100_0000 == k[i + 3]
  {
    k[i] as int + 0x100 * (k[i + 1] as int) + 0x1_0000 * (k[i + 2] as int) + 0x100_0000 * (k[i + 3] as int)
  }

  /** The 12-byte block loop: add three words, mix, advance; what is left is under 12 bytes. */
  function Absorb(k: seq<uint8>, s: HashState): (r: (HashState, seq<uint8>))
    ensures |r.1| < 12 && |r.1| <= |k| && r.1 == k[|k| - |r.1|..]
    decreases |k|
  {
    if |k| < 12 then (s, k)
    else Absorb(k[12..], Mix(HashState(Add32(s.a, Word(k, 0)), Add32(s.b, Word(k, 4)), Add32(s.c, Word(k, 8)))))
  }

  /** The trailing bytes folded in as zero-padded little-endian words; the low
      byte of `c` is left for the length, so c's word lands one byte up. */
  function AddTail(rest: seq<uint8>, s: HashState, length: uint32): HashState
    requires |rest| < 12
  {
    var p := rest + Zeros(12 - |rest|);
    HashState(Add32(s.a, Word(p, 0)), Add32(s.b, Word(p, 4)), Add32(s.c, length + 0x100 * Word(p, 8)))
  }

  /** lookup2 of `k` seeded with `level`, as a function of the bytes alone. */
  function LookupHashSpec(k: seq<uint8>, level: uint32): uint32
    requires |k| < 0x1_0000_0000
  {
    var (s, rest) := Absorb(k, HashState(GOLDEN, GOLDEN, level));
    Mix(AddTail(rest, s, |k|)).c
  }

  /** `lookuphash(k, length, level)`: the block loop and the fall-through switch. */
  method LookupHash(k: seq<uint8>, length: uint32, level: uint32) returns (h: uint32)
    requires |k| == length
    ensures h == LookupHashSpec(k, level)
  {
    var a: uint32, b: uint32, c: uint32 := GOLDEN, GOLDEN, level;
    var len: nat := length;
    var off: nat := 0;
    while len >= 12
      invariant off + len == |k|
      invariant Absorb(k[off..], HashState(a, b, c)) == Absorb(k, HashState(GOLDEN, GOLDEN, level))
    {
      AbsorbStep(k, off, HashState(a, b, c));
      a := Add32(a, Word(k, off));
      b := Add32(b, Word(k, off + 4));
      c := Add32(c, Word(k, off + 8));
      var m := Mix(HashState(a, b, c));
      a, b, c := m.a, m.b, m.c;
      off := off + 12;
      len := len - 12;
    }
    var t := FallThrough(k[off..], HashState(a, b, c), length);
    var m := Mix(t);
    h := m.c;
  }

  /** One pass of the block loop at offset `off` consumes the block and moves on to `off + 12`. */
  lemma AbsorbStep(k: seq<uint8>, off: nat, s: HashState)
    requires off + 12 <= |k|
    ensures Absorb(k[off..], s) == Absorb(k[off + 12..], Mix(HashState(Add32(s.a, Word(k, off)), Add32(s.b, Word(k, off + 4)), Add32(s.c, Word(k, off + 8)))))
  {
    assert k[off..][12..] == k[off + 12..];
    assert Word(k[off..], 0) == Word(k, off) && Word(k[off..], 4) == Word(k, off + 4) && Word(k[off..], 8) == Word(k, off + 8);
  }

  /** The `switch (len)` after the block loop: the last under-12 bytes of the
      key and the length folded in, each case falling through to the ones below. */
  method FallThrough(rest: seq<uint8>, s: HashState, length: uint32) returns (t: HashState)
    requires |rest| < 12
    ensures t == AddTail(rest, s, length)
  {
    var a, b, c := s.a, s.b, s.c;
    var len := |rest|;
    c := Add32(c, length);
    ghost var c0, b0, a0 := c, b, a;
    // every case falls through to the ones below it
    if len >= 11 { c := Add32(c, rest[10] as int * 0x100_0000); }
    assert c == Add32(c0, Pad(rest, 10) * 0x100_0000);
    ghost var c1 := c;
    if len >= 10 { c := Add32(c, rest[9] as int * 0x1_0000); }
    assert c == Add32(c1, Pad(rest, 9) * 0x1_0000);
    ghost var c2 := c;
    if len >= 9 { c := Add32(c, rest[8] as int * 0x100); }
    assert c == Add32(c2, Pad(rest, 8) * 0x100);
    if len >= 8 { b := Add32(b, rest[7] as int * 0x100_0000); }
    assert b == Add32(b0, Pad(rest, 7) * 0x100_0000);
    ghost var b1 := b;
    if len >= 7 { b := Add32(b, rest[6] as int * 0x1_0000); }
    assert b == Add32(b1, Pad(rest, 6) * 0x1_0000);
    ghost var b2 := b;
    if len >= 6 { b := Add32(b, rest[5] as int * 0x100); }
    assert b == Add32(b2, Pad(rest, 5) * 0x100);
    ghost var b3 := b;
    if len >= 5 { b := Add32(b, rest[4]); }
    assert b == Add32(b3, Pad(rest, 4));
    if len >= 4 { a := Add32(a, rest[3] as int * 0x100_0000); }
    assert a == Add32(a0, Pad(rest, 3) * 0x100_0000);
    ghost var a1 := a;
    if len >= 3 { a := Add32(a, rest[2] as int * 0x1_0000); }
    assert a == Add32(a1, Pad(rest, 2) * 0x1_0000);
    ghost var a2 := a;
    if len >= 2 { a := Add32(a, rest[1] as int * 0x100); }
    assert a == Add32(a2, Pad(rest, 1) * 0x100);
    ghost var a3 := a;
    if len >= 1 { a := Add32(a, rest[0]); }
    assert a == Add32(a3, Pad(rest, 0));
    FallThroughIsPaddedWords(rest, s, length, a, b, c);
    t := HashState(a, b, c);
  }


  /** Byte `i` of the tail, or zero past its end. */
  function Pad(rest: seq<uint8>, i: nat): uint8
  {
    if i < |rest| then rest[i] else 0
  }

  /** Four wrapping additions in a row are one wrapping addition of their sum. */
  lemma AddChain(x: uint32, y3: nat, y2: nat, y1: nat, y0: nat)
    ensures Add32(Add32(Add32(Add32(x, y3), y2), y1), y0) == Add32(x, y3 + y2 + y1 + y0)
  {
    AddTwice(x, y3, y2);
    AddTwice(x, y3 + y2, y1);
    AddTwice(x, y3 + y2 + y1, y0);
  }

  /** Two wrapping additions are one wrapping addition of the sum. */
  lemma AddTwice(x: uint32, y: nat, z: nat)
    ensures Add32(Add32(x, y), z) == Add32(x, y + z)
  {
    var q := (x + y) / 0x1_0000_0000;
    assert Add32(x, y) == x + y - q * 0x1_0000_0000;
    ModShift(x + y + z, q);
  }

  /** Subtracting a multiple of 2^32 leaves the residue unchanged. */
  lemma ModShift(a: int, q: int)
    ensures (a - q * 0x1_0000_0000) % 0x1_0000_0000 == a % 0x1_0000_0000
  {
  }

  /** The fall-through switch, taken from the top byte down, adds exactly the
      zero-padded tail words that `AddTail` describes. */
  lemma FallThroughIsPaddedWords(rest: seq<uint8>, s: HashState, length: uint32, a: uint32, b: uint32, c: uint32)
    requires |rest| < 12
    requires a == Add32(Add32(Add32(Add32(s.a, Pad(rest, 3) * 0x100_0000), Pad(rest, 2) * 0x1_0000), Pad(rest, 1) * 0x100), Pad(rest, 0))
    requires b == Add32(Add32(Add32(Add32(s.b, Pad(rest, 7) * 0x100_0000), Pad(rest, 6) * 0x1_0000), Pad(rest, 5) * 0x100), Pad(rest, 4))
    requires c == Add32(Add32(Add32(Add32(s.c, length), Pad(rest, 10) * 0x100_0000), Pad(rest, 9) * 0x1_0000), Pad(rest, 8) * 0x100)
    ensures HashState(a, b, c) == AddTail(rest, s, length)
  {
    var p := rest + Zeros(12 - |rest|);
    assert forall i | 0 <= i < 12 :: p[i] == Pad(rest, i);
    assert Word(p, 0) == Pad(rest, 3) * 0x100_0000 + Pad(rest, 2) * 0x1_0000 + Pad(rest, 1) * 0x100 + Pad(rest, 0);
    assert Word(p, 4) == Pad(rest, 7) * 0x100_0000 + Pad(rest, 6) * 0x1_0000 + Pad(rest, 5) * 0x100 + Pad(rest, 4);
    assert p[11] == 0;
    assert 0x100 * Word(p, 8) == Pad(rest, 10) * 0x100_0000 + Pad(rest, 9) * 0x1_0000 + Pad(rest, 8) * 0x100;
    AddChain(s.a, Pad(rest, 3) * 0x100_0000, Pad(rest, 2) * 0x1_0000, Pad(rest, 1) * 0x100, Pad(rest, 0));
    AddChain(s.b, Pad(rest, 7) * 0x100_0000, Pad(rest, 6) * 0x1_0000, Pad(rest, 5) * 0x100, Pad(rest, 4));
    AddChain(s.c, length, Pad(rest, 10) * 0x100_0000, Pad(rest, 9) * 0x1_0000, Pad(rest, 8) * 0x100);
    assert a == Add32(s.a, Word(p, 0));
    assert b == Add32(s.b, Word(p, 4));
    assert c == Add32(s.c, length + 0x100 * Word(p, 8));
  }

  /** `SeanetEIDHash`: lookup2 of the twenty bytes with level 0. */
  function SeanetEidHash(e: Eid): uint32
  {
    LookupHashSpec(e, 0)
  }

  /** For a 20-byte key the hash is one block mix over bytes 0..11, then
      c += 20, bytes 12..15 into a, bytes 16..19 into b, and a final mix. */
  lemma {:induction false} SeanetEidHashUnrolled(e: Eid)
    ensures var s1 := Mix(HashState(Add32(GOLDEN, Word(e, 0)), Add32(GOLDEN, Word(e, 4)), Add32(0, Word(e, 8))));
            SeanetEidHash(e) == Mix(HashState(Add32(s1.a, Word(e, 12)), Add32(s1.b, Word(e, 16)), Add32(s1.c, 20))).c
  {
    var s1 := Mix(HashState(Add32(GOLDEN, Word(e, 0)), Add32(GOLDEN, Word(e, 4)), Add32(0, Word(e, 8))));
    assert Absorb(e[12..], s1) == (s1, e[12..]);
    assert Absorb(e, HashState(GOLDEN, GOLDEN, 0)) == (s1, e[12..]);
    EightByteTail(e[12..], s1);
    assert Word(e[12..], 0) == Word(e, 12) && Word(e[12..], 4) == Word(e, 16);
  }

  /** An eight-byte tail fills `a` and `b` and leaves `c` with only the length. */
  lemma EightByteTail(rest: seq<uint8>, s: HashState)
    requires |rest| == 8
    ensures AddTail(rest, s, 20) == HashState(Add32(s.a, Word(rest, 0)), Add32(s.b, Word(rest, 4)), Add32(s.c, 20))
  {
    var p := rest + Zeros(4);
    assert Word(p, 0) == Word(rest, 0) && Word(p, 4) == Word(rest, 4) && Word(p, 8) == 0;
  }
}
