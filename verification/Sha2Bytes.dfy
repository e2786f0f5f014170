/** Bytes and words: host order on a little-endian machine, the byte-swapping macros, and
    the big-endian order of FIPS 180-4. */
module Sha2Bytes {
  import opened Sha2Core

  // ----- 32-bit words

  /** A word as the host reads it. */
  function Le32(b: seq<byte>): bv32
    requires |b| == 4
  {
    (b[0] as bv32) | ((b[1] as bv32) << 8) | ((b[2] as bv32) << 16) | ((b[3] as bv32) << 24)
  }

  /** A word as section 3.1 of FIPS 180-4 reads it. */
  function Be32(b: seq<byte>): bv32
    requires |b| == 4
  {
    ((b[0] as bv32) << 24) | ((b[1] as bv32) << 16) | ((b[2] as bv32) << 8) | (b[3] as bv32)
  }

  function LeBytes32(w: bv32): (b: seq<byte>)
    ensures |b| == 4
  {
    [(w & 0xff) as byte, ((w >> 8) & 0xff) as byte, ((w >> 16) & 0xff) as byte, ((w >> 24) & 0xff) as byte]
  }

  function BeBytes32(w: bv32): (b: seq<byte>)
    ensures |b| == 4
  {
    [((w >> 24) & 0xff) as byte, ((w >> 16) & 0xff) as byte, ((w >> 8) & 0xff) as byte, (w & 0xff) as byte]
  }

  /** The macro REVERSE32. */
  function Reverse32(w: bv32): bv32 {
    var tmp := (w >> 16) | (w << 16);
    ((tmp & 0xff00ff00) >> 8) | ((tmp & 0x00ff00ff) << 8)
  }

  lemma ReverseReadsBigEndian32(b: seq<byte>)
    requires |b| == 4
    ensures Reverse32(Le32(b)) == Be32(b)
  {
  }

  lemma ReverseWritesBigEndian32(w: bv32)
    ensures LeBytes32(Reverse32(w)) == BeBytes32(w)
  {
  }

  lemma StoredWordReadsBack32(w: bv32)
    ensures Le32(LeBytes32(w)) == w
  {
  }

  // ----- 64-bit words

  function Le64(b: seq<byte>): bv64
    requires |b| == 8
  {
    (b[0] as bv64) | ((b[1] as bv64) << 8) | ((b[2] as bv64) << 16) | ((b[3] as bv64) << 24)
    | ((b[4] as bv64) << 32) | ((b[5] as bv64) << 40) | ((b[6] as bv64) << 48) | ((b[7] as bv64) << 56)
  }

  function Be64(b: seq<byte>): bv64
    requires |b| == 8
  {
    ((b[0] as bv64) << 56) | ((b[1] as bv64) << 48) | ((b[2] as bv64) << 40) | ((b[3] as bv64) << 32)
    | ((b[4] as bv64) << 24) | ((b[5] as bv64) << 16) | ((b[6] as bv64) << 8) | (b[7] as bv64)
  }

  function LeBytes64(w: bv64): (b: seq<byte>)
    ensures |b| == 8
  {
    [(w & 0xff) as byte, ((w >> 8) & 0xff) as byte, ((w >> 16) & 0xff) as byte, ((w >> 24) & 0xff) as byte,
     ((w >> 32) & 0xff) as byte, ((w >> 40) & 0xff) as byte, ((w >> 48) & 0xff) as byte, ((w >> 56) & 0xff) as byte]
  }

  function BeBytes64(w: bv64): (b: seq<byte>)
    ensures |b| == 8
  {
    [((w >> 56) & 0xff) as byte, ((w >> 48) & 0xff) as byte, ((w >> 40) & 0xff) as byte, ((w >> 32) & 0xff) as byte,
     ((w >> 24) & 0xff) as byte, ((w >> 16) & 0xff) as byte, ((w >> 8) & 0xff) as byte, (w & 0xff) as byte]
  }

  /** The macro REVERSE64. */
  function Reverse64(w: bv64): bv64 {
    var t := (w >> 32) | (w << 32);
    var u := ((t & 0xff00ff00ff00ff00) >> 8) | ((t & 0x00ff00ff00ff00ff) << 8);
    ((u & 0xffff0000ffff0000) >> 16) | ((u & 0x0000ffff0000ffff) << 16)
  }

  lemma ReverseReadsBigEndian64(b: seq<byte>)
    requires |b| == 8
    ensures Reverse64(Le64(b)) == Be64(b)
  {
  }

  lemma ReverseWritesBigEndian64(w: bv64)
    ensures LeBytes64(Reverse64(w)) == BeBytes64(w)
  {
  }

  lemma StoredWordReadsBack64(w: bv64)
    ensures Le64(LeBytes64(w)) == w
  {
  }

  // ----- the message length

  const TWO_64: nat := 0x1_0000_0000_0000_0000

  /** The length in bits of n bytes, in one 64-bit word. */
  function LowBits(n: nat): (c: nat)
    ensures c < TWO_64
  {
    (8 * n) % TWO_64
  }

  /** A count as the host stores it, and as section 5.1.1 wants it. */
  function HostField(c: nat): (f: seq<byte>)
    requires c < TWO_64
    ensures |f| == 8
  {
    LeBytes64(c as bv64)
  }

  function BigEndianField(c: nat): (f: seq<byte>)
    requires c < TWO_64
    ensures |f| == 8
  {
    BeBytes64(c as bv64)
  }

  /** REVERSE64 of a count. */
  function Reversed(c: nat): (r: nat)
    requires c < TWO_64
    ensures r < TWO_64 && HostField(r) == BigEndianField(c)
  {
    ReverseWritesBigEndian64(c as bv64);
    Reverse64(c as bv64) as nat
  }
}
