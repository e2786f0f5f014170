/** What surrounds the compression function (sections 3.1, 5.1, 5.2 and 6 of FIPS 180-4):
    bytes and words, the padded message and its blocks, and the digest. */
module Sha2Layout {
  import opened Sha2Core
  import opened Sha2Bytes
  import opened Sha2Message
  import opened Sha2Stream
  import Sha256
  import Sha512

  // ----- bytes and words

  /** The most significant byte comes first. */
  lemma BytesOfWord32(w: bv32)
    ensures var b := BeBytes32(w);
      |b| == 4 && w == (b[0] as bv32 << 24) | (b[1] as bv32 << 16) | (b[2] as bv32 << 8) | b[3] as bv32
  {
  }

  lemma BytesOfWord64(w: bv64)
    ensures var b := BeBytes64(w);
      && |b| == 8
      && w == (b[0] as bv64 << 56) | (b[1] as bv64 << 48) | (b[2] as bv64 << 40) | (b[3] as bv64 << 32)
            | (b[4] as bv64 << 24) | (b[5] as bv64 << 16) | (b[6] as bv64 << 8) | b[7] as bv64
  {
  }

  lemma WordOfBytes32(b: seq<byte>)
    requires |b| == 4
    ensures BeBytes32(Be32(b)) == b
  {
  }

  lemma WordOfBytes64(b: seq<byte>)
    requires |b| == 8
    ensures BeBytes64(Be64(b)) == b
  {
  }

  // ----- the padded message

  /** The message, a byte with one bit, zeros, and the length in bits in the last bytes of the
      last block; not a block more than needed. */
  ghost predicate IsPadded(p: seq<byte>, m: seq<byte>, L: nat, field: seq<byte>) {
    var end := |p| - |field|;
    && L > 0 && |p| % L == 0 && |m| < end && end - |m| <= L
    && p[..|m|] == m && p[|m|] == 0x80 && p[end..] == field
    && forall i :: |m| < i < end ==> p[i] == 0
  }

  lemma PadIs(m: seq<byte>, L: nat, field: seq<byte>)
    requires (L == 64 && |field| == 8) || (L == 128 && |field| == 16)
    ensures IsPadded(Pad(L, m, field), m, L, field)
  {
    var p := Pad(L, m, field);
    ZeroCountFits(L, |field|, |m|);
    assert |p| == |m| + 1 + ZeroCount(L, |field|, |m|) + |field|;
    assert p[..|m|] == m;
    assert p[|p| - |field|..] == field;
  }

  /** The blocks of the padded message, one after the other. */
  lemma {:induction false} ChunksAre(p: seq<byte>, L: nat)
    requires (L == 64 || L == 128) && |p| % L == 0
    ensures Flatten(Chunks(p, L)) == p && AllOf(Chunks(p, L), L)
  {
    if |p| < L {
      assert p == [];
    } else {
      Fewer(|p|, L);
      ChunksAre(p[L..], L);
      OneMoreChunk(p, L);
    }
  }

  lemma OneMoreChunk(p: seq<byte>, L: nat)
    requires 0 < L <= |p| && Flatten(Chunks(p[L..], L)) == p[L..] && AllOf(Chunks(p[L..], L), L)
    ensures Flatten(Chunks(p, L)) == p && AllOf(Chunks(p, L), L)
  {
    hide AllOf, Chunks, Flatten;
    var first, rest := p[..L], Chunks(p[L..], L);
    FirstChunk(p, L);
    FlattenCons(first, rest);
    AllOfCons(first, rest, L);
    assert first + p[L..] == p;
  }

  lemma FirstChunk(p: seq<byte>, L: nat)
    requires 0 < L <= |p|
    ensures Chunks(p, L) == [p[..L]] + Chunks(p[L..], L)
  {
  }

  lemma FlattenCons(first: seq<byte>, rest: seq<seq<byte>>)
    ensures Flatten([first] + rest) == first + Flatten(rest)
  {
    assert ([first] + rest)[1..] == rest;
  }

  lemma AllOfCons(first: seq<byte>, rest: seq<seq<byte>>, L: nat)
    requires |first| == L && AllOf(rest, L)
    ensures AllOf([first] + rest, L)
  {
  }

  lemma Fewer(n: nat, L: nat)
    requires (L == 64 || L == 128) && L <= n && n % L == 0
    ensures (n - L) % L == 0
  {
  }

  // ----- the digest

  /** The words of the hash value, one after the other. */
  lemma {:induction false} DigestIs<W(!new)>(alg: Alg<W>, h: seq<W>, i: nat)
    requires i < |h| && WordSize(alg) && forall w :: |alg.bigEndianBytes(w)| == alg.size
    ensures |DigestBytes(alg, h)| == At(alg.size, |h|) >= At(alg.size, i) + alg.size
    ensures DigestBytes(alg, h)[At(alg.size, i)..At(alg.size, i) + alg.size] == alg.bigEndianBytes(h[i])
    decreases |h|
  {
    hide DigestBytes;
    var front, last := h[..|h| - 1], alg.bigEndianBytes(h[|h| - 1]);
    DigestSnoc(alg, h);
    DigestLength(alg, front);
    if i < |front| {
      DigestIs(alg, front, i);
      InFront(DigestBytes(alg, front), last, At(alg.size, i), At(alg.size, i) + alg.size);
    } else {
      AtTheEnd(DigestBytes(alg, front), last);
    }
  }

  lemma DigestSnoc<W>(alg: Alg<W>, h: seq<W>)
    requires h != []
    ensures DigestBytes(alg, h) == DigestBytes(alg, h[..|h| - 1]) + alg.bigEndianBytes(h[|h| - 1])
  {
  }

  lemma InFront(a: seq<byte>, b: seq<byte>, lo: nat, hi: nat)
    requires lo <= hi <= |a|
    ensures (a + b)[lo..hi] == a[lo..hi]
  {
  }

  lemma AtTheEnd(a: seq<byte>, b: seq<byte>)
    ensures (a + b)[|a|..|a| + |b|] == b
  {
  }

  lemma {:induction false} DigestLength<W(!new)>(alg: Alg<W>, h: seq<W>)
    requires WordSize(alg) && forall w :: |alg.bigEndianBytes(w)| == alg.size
    ensures |DigestBytes(alg, h)| == At(alg.size, |h|)
  {
    if h != [] {
      DigestLength(alg, h[..|h| - 1]);
    }
  }

  /** SHA-256 from its blocks. */
  lemma Sha256Is(m: seq<byte>) returns (blocks: seq<seq<byte>>, h: seq<bv32>)
    ensures IsPadded(Flatten(blocks), m, 64, BigEndianField(LowBits(|m|))) && AllOf(blocks, 64)
    ensures h == Absorb(Sha256.ALG, Sha256.INITIAL, blocks) && |h| == 8 && |Sha256.Sha256(m)| == 32
    ensures forall i :: 0 <= i < 8 ==> Sha256.Sha256(m)[4 * i..4 * i + 4] == BeBytes32(h[i])
  {
    hide Absorb, Pad, Chunks, IsPadded, DigestBytes, BeBytes32;
    var field := BigEndianField(LowBits(|m|));
    PadIs(m, 64, field);
    PaddedFits(Pad(64, m, field), m, 64, field);
    ChunksAre(Pad(64, m, field), 64);
    blocks := Chunks(Pad(64, m, field), 64);
    h := Absorb(Sha256.ALG, Sha256.INITIAL, blocks);
    DigestLength(Sha256.ALG, h);
    forall i | 0 <= i < 8
      ensures Sha256.Sha256(m)[4 * i..4 * i + 4] == BeBytes32(h[i])
    {
      DigestIs(Sha256.ALG, h, i);
    }
  }

  lemma PaddedFits(p: seq<byte>, m: seq<byte>, L: nat, field: seq<byte>)
    requires IsPadded(p, m, L, field)
    ensures L > 0 && |p| % L == 0
  {
  }

  /** SHA-512 and SHA-384, which starts elsewhere and gives out six words of eight. */
  lemma Sha512Is(variant: Sha512.Variant, m: seq<byte>) returns (blocks: seq<seq<byte>>, h: seq<bv64>, n: nat)
    ensures var field := BigEndianField(((8 * |m|) / TWO_64) % TWO_64) + BigEndianField((8 * |m|) % TWO_64);
      IsPadded(Flatten(blocks), m, 128, field) && AllOf(blocks, 128)
    ensures n == (if variant.Sha512? then 8 else 6)
    ensures h == Absorb(Sha512.ALG, if variant.Sha512? then Sha512.INITIAL_512 else Sha512.INITIAL_384, blocks)
    ensures |h| == 8 && |variant.Digest(m)| == 8 * n
    ensures forall i :: 0 <= i < n ==> variant.Digest(m)[8 * i..8 * i + 8] == BeBytes64(h[i])
  {
    hide Absorb, Pad, Chunks, IsPadded, DigestBytes, BeBytes64, BigEndianField;
    var field := Sha512.LengthField(|m|);
    PadIs(m, 128, field);
    PaddedFits(Pad(128, m, field), m, 128, field);
    ChunksAre(Pad(128, m, field), 128);
    blocks := Chunks(Pad(128, m, field), 128);
    h := Absorb(Sha512.ALG, variant.Initial(), blocks);
    n := variant.DigestWords();
    DigestLength(Sha512.ALG, h[..n]);
    forall i | 0 <= i < n
      ensures variant.Digest(m)[8 * i..8 * i + 8] == BeBytes64(h[i])
    {
      DigestIs(Sha512.ALG, h[..n], i);
    }
  }

  /** A block is sixteen words. */
  lemma WordsAre(b: seq<byte>, j: nat)
    requires |b| == 64 && j < 16
    ensures Words(Sha256.ALG, b)[j] == Be32(b[4 * j..4 * j + 4])
  {
    hide Be32;
    assert At(4, j) + 4 <= |b|;
    assert Words(Sha256.ALG, b)[j] == Sha256.BigEndian(Slot(4, b, j));
  }

  lemma WideWordsAre(b: seq<byte>, j: nat)
    requires |b| == 128 && j < 16
    ensures Words(Sha512.ALG, b)[j] == Be64(b[8 * j..8 * j + 8])
  {
    hide Be64;
    assert At(8, j) + 8 <= |b|;
    assert Words(Sha512.ALG, b)[j] == Sha512.BigEndian(Slot(8, b, j));
  }

  /** Hash values are built up block by block. */
  lemma AbsorbIs<W>(alg: Alg<W>, h0: seq<W>, blocks: seq<seq<byte>>, b: seq<byte>)
    requires |h0| == 8
    ensures Absorb(alg, h0, []) == h0
    ensures Absorb(alg, h0, blocks + [b]) == Compress(alg, Absorb(alg, h0, blocks), Words(alg, b))
  {
    hide Compress;
    assert (blocks + [b])[..|blocks|] == blocks;
  }
}
