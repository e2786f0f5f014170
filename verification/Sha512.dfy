/** SHA-512 and SHA-384: the same context with wider words and a two-word bit count. */
module Sha512 {
  import opened Sha2Core
  import opened Sha2Bytes
  import opened Sha2Message
  import opened Sha2Ring
  import opened Sha2Rolled
  import opened Sha2Stream

  const BLOCK_LENGTH := 128
  const SHORT_BLOCK_LENGTH := 112
  const TWO_128: nat := 0x1_0000_0000_0000_0000_0000_0000_0000_0000

  // the constants of the rounds, eight in a row

  const ROW_0: seq<bv64> := [
    0x428a2f98d728ae22, 0x7137449123ef65cd, 0xb5c0fbcfec4d3b2f, 0xe9b5dba58189dbbc,
    0x3956c25bf348b538, 0x59f111f1b605d019, 0x923f82a4af194f9b, 0xab1c5ed5da6d8118]

  const ROW_1: seq<bv64> := [
    0xd807aa98a3030242, 0x12835b0145706fbe, 0x243185be4ee4b28c, 0x550c7dc3d5ffb4e2,
    0x72be5d74f27b896f, 0x80deb1fe3b1696b1, 0x9bdc06a725c71235, 0xc19bf174cf692694]

  const ROW_2: seq<bv64> := [
    0xe49b69c19ef14ad2, 0xefbe4786384f25e3, 0x0fc19dc68b8cd5b5, 0x240ca1cc77ac9c65,
    0x2de92c6f592b0275, 0x4a7484aa6ea6e483, 0x5cb0a9dcbd41fbd4, 0x76f988da831153b5]

  const ROW_3: seq<bv64> := [
    0x983e5152ee66dfab, 0xa831c66d2db43210, 0xb00327c898fb213f, 0xbf597fc7beef0ee4,
    0xc6e00bf33da88fc2, 0xd5a79147930aa725, 0x06ca6351e003826f, 0x142929670a0e6e70]

  const ROW_4: seq<bv64> := [
    0x27b70a8546d22ffc, 0x2e1b21385c26c926, 0x4d2c6dfc5ac42aed, 0x53380d139d95b3df,
    0x650a73548baf63de, 0x766a0abb3c77b2a8, 0x81c2c92e47edaee6, 0x92722c851482353b]

  const ROW_5: seq<bv64> := [
    0xa2bfe8a14cf10364, 0xa81a664bbc423001, 0xc24b8b70d0f89791, 0xc76c51a30654be30,
    0xd192e819d6ef5218, 0xd69906245565a910, 0xf40e35855771202a, 0x106aa07032bbd1b8]

  const ROW_6: seq<bv64> := [
    0x19a4c116b8d2d0c8, 0x1e376c085141ab53, 0x2748774cdf8eeb99, 0x34b0bcb5e19b48a8,
    0x391c0cb3c5c95a63, 0x4ed8aa4ae3418acb, 0x5b9cca4f7763e373, 0x682e6ff3d6b2b8a3]

  const ROW_7: seq<bv64> := [
    0x748f82ee5defb2fc, 0x78a5636f43172f60, 0x84c87814a1f0ab72, 0x8cc702081a6439ec,
    0x90befffa23631e28, 0xa4506cebde82bde9, 0xbef9a3f7b2c67915, 0xc67178f2e372532b]

  const ROW_8: seq<bv64> := [
    0xca273eceea26619c, 0xd186b8c721c0c207, 0xeada7dd6cde0eb1e, 0xf57d4f7fee6ed178,
    0x06f067aa72176fba, 0x0a637dc5a2c898a6, 0x113f9804bef90dae, 0x1b710b35131c471b]

  const ROW_9: seq<bv64> := [
    0x28db77f523047d84, 0x32caab7b40c72493, 0x3c9ebe0a15c9bebc, 0x431d67c49c100d4c,
    0x4cc5d4becb3e42b6, 0x597f299cfc657e2a, 0x5fcb6fab3ad6faec, 0x6c44198c4a475817]

  const K512: seq<bv64> :=
    ROW_0 + ROW_1 + ROW_2 + ROW_3 + ROW_4 + ROW_5 + ROW_6 + ROW_7 + ROW_8 + ROW_9

  const INITIAL_512: seq<bv64> := [
    0x6a09e667f3bcc908, 0xbb67ae8584caa73b, 0x3c6ef372fe94f82b, 0xa54ff53a5f1d36f1,
    0x510e527fade682d1, 0x9b05688c2b3e6c1f, 0x1f83d9abfb41bd6b, 0x5be0cd19137e2179]

  const INITIAL_384: seq<bv64> := [
    0xcbbb9d5dc1059ed8, 0x629a292a367cd507, 0x9159015a3070dd17, 0x152fecd8f70e5939,
    0x67332667ffc00b31, 0x8eb44a8768581511, 0xdb0c2e0d64f98fa7, 0x47b5481dbefa4fa4]

  function R(b: bv64, x: bv64): bv64
    requires b < 64
  {
    x >> b
  }

  function S64(b: bv64, x: bv64): bv64
    requires 0 < b < 64
  {
    (x >> b) | (x << (64 - b))
  }

  function Ch(x: bv64, y: bv64, z: bv64): bv64 { (x & y) ^ ((!x) & z) }

  function Maj(x: bv64, y: bv64, z: bv64): bv64 { (x & y) ^ (x & z) ^ (y & z) }

  function BigSigma0(x: bv64): bv64 { S64(28, x) ^ S64(34, x) ^ S64(39, x) }

  function BigSigma1(x: bv64): bv64 { S64(14, x) ^ S64(18, x) ^ S64(41, x) }

  function SmallSigma0(x: bv64): bv64 { S64(1, x) ^ S64(8, x) ^ R(7, x) }

  function SmallSigma1(x: bv64): bv64 { S64(19, x) ^ S64(61, x) ^ R(6, x) }

  // the sums of a round and of the schedule, modulo 2^64

  function T1(h: bv64, e: bv64, f: bv64, g: bv64, k: bv64, w: bv64): bv64 {
    h + BigSigma1(e) + Ch(e, f, g) + k + w
  }

  function NewA(t1: bv64, a: bv64, b: bv64, c: bv64): bv64 { t1 + (BigSigma0(a) + Maj(a, b, c)) }

  function NewAUnrolled(t1: bv64, a: bv64, b: bv64, c: bv64): bv64 { t1 + BigSigma0(a) + Maj(a, b, c) }

  function NewE(d: bv64, t1: bv64): bv64 { d + t1 }

  function Expand(w2: bv64, w7: bv64, w15: bv64, w16: bv64): bv64 {
    SmallSigma1(w2) + w7 + SmallSigma0(w15) + w16
  }

  function ExpandInPlace(w2: bv64, w7: bv64, w15: bv64, w16: bv64): bv64 {
    w16 + (SmallSigma1(w2) + w7 + SmallSigma0(w15))
  }

  function Add(x: bv64, y: bv64): bv64 { x + y }

  // words in memory

  function Host(b: seq<byte>): bv64 { if |b| == 8 then Le64(b) else 0 }

  function BigEndian(b: seq<byte>): bv64 { if |b| == 8 then Be64(b) else 0 }

  const ALG: Alg<bv64> := Alg(T1, NewA, NewAUnrolled, NewE, Expand, ExpandInPlace, Add, K512,
                              8, Host, LeBytes64, Reverse64, BigEndian, BeBytes64)

  lemma Regrouped(t1: bv64, a: bv64, b: bv64, c: bv64)
    ensures NewAUnrolled(t1, a, b, c) == NewA(t1, a, b, c)
    ensures ExpandInPlace(t1, a, b, c) == Expand(t1, a, b, c)
  {
    hide BigSigma0, Maj, SmallSigma0, SmallSigma1;
  }

  lemma AlgSums()
    ensures SumLaws(ALG)
  {
    hide NewA, NewAUnrolled, Expand, ExpandInPlace;
    forall t1, a, b, c ensures ALG.newAUnrolled(t1, a, b, c) == ALG.newA(t1, a, b, c) {
      Regrouped(t1, a, b, c);
    }
    forall w2, w7, w15, w16 ensures ALG.expandInPlace(w2, w7, w15, w16) == ALG.expand(w2, w7, w15, w16) {
      Regrouped(w2, w7, w15, w16);
    }
  }

  lemma AlgStores()
    ensures StoreLaw(ALG) && DigestLaw(ALG)
  {
    hide Le64, LeBytes64, BeBytes64, Reverse64;
    forall w ensures |ALG.store(w)| == 8 && ALG.host(ALG.store(w)) == w
      && ALG.store(ALG.reverse(w)) == ALG.bigEndianBytes(w) {
      StoredWordReadsBack64(w);
      ReverseWritesBigEndian64(w);
    }
  }

  lemma AlgLoads()
    ensures LoadLaw(ALG)
  {
    hide Le64, Be64, Reverse64;
    forall b: seq<byte> | |b| == 8 ensures ALG.reverse(ALG.host(b)) == ALG.bigEndian(b) {
      ReverseReadsBigEndian64(b);
    }
  }

  /** The operations of this file are an instance of the algorithm. */
  lemma AlgLaws()
    ensures Laws(ALG)
  {
    hide SumLaws, StoreLaw, LoadLaw, DigestLaw;
    AlgSums();
    AlgStores();
    AlgLoads();
  }

  // ----- the hash of a whole message

  /** The high word of the length in bits of n bytes. */
  function HighBits(n: nat): (c: nat)
    ensures c < TWO_64
  {
    ((8 * n) / TWO_64) % TWO_64
  }

  /** The two words together are the length modulo 2^128. */
  lemma WordsOfTheLength(n: nat)
    ensures LowBits(n) + TWO_64 * HighBits(n) == (8 * n) % TWO_128
  {
    var x := 8 * n;
    var y := x / TWO_64;
    var m := y / TWO_64;
    assert x == TWO_64 * y + x % TWO_64 && y == TWO_64 * m + y % TWO_64;
    assert x == TWO_128 * m + (TWO_64 * (y % TWO_64) + x % TWO_64);
    WithRemainder(x, m, TWO_64 * (y % TWO_64) + x % TWO_64);
  }

  lemma WithRemainder(x: nat, m: nat, r: nat)
    requires x == TWO_128 * m + r && r < TWO_128
    ensures x % TWO_128 == r
  {
  }

  /** The length in bits as a 16-byte big-endian number. */
  function LengthField(n: nat): (f: seq<byte>)
    ensures |f| == 16
  {
    BigEndianField(HighBits(n)) + BigEndianField(LowBits(n))
  }

  /** The variants of section 6.4 and 6.5 of FIPS 180-4: where they start and how many
      words of the hash value they give out. */
  datatype Variant = Sha512 | Sha384 {
    function Initial(): (h: seq<bv64>)
      ensures |h| == 8
    {
      if Sha512? then INITIAL_512 else INITIAL_384
    }

    function DigestWords(): nat { if Sha512? then 8 else 6 }

    /** The hash of a whole message of fewer than 2^128 bits. */
    function Digest(m: seq<byte>): seq<byte> {
      DigestBytes(ALG, Hash(ALG, Initial(), BLOCK_LENGTH, m, LengthField(|m|))[..DigestWords()])
    }
  }

  /** ADDINC128 sees the carry from the low word being smaller than what was added. */
  lemma MoreBits(n: nat, k: nat)
    requires 8 * k < TWO_64
    ensures var low := (LowBits(n) + 8 * k) % TWO_64;
      && low == LowBits(n + k)
      && HighBits(n + k) == if low < 8 * k then (HighBits(n) + 1) % TWO_64 else HighBits(n)
  {
    var x, y := 8 * n, 8 * n / TWO_64;
    assert x == TWO_64 * y + LowBits(n);
    Carry(x, y, LowBits(n), 8 * k);
    Successor(y);
  }

  lemma Carry(x: nat, y: nat, low: nat, n: nat)
    requires x == TWO_64 * y + low && low < TWO_64 && n < TWO_64
    ensures (x + n) % TWO_64 == (low + n) % TWO_64
    ensures (x + n) / TWO_64 == if (low + n) % TWO_64 < n then y + 1 else y
  {
  }

  lemma Successor(y: nat)
    ensures (y + 1) % TWO_64 == (y % TWO_64 + 1) % TWO_64
  {
  }

  lemma UsedSpace(q: nat, used: nat)
    requires used < 128
    ensures (LowBits(128 * q + used) / 8) % 128 == used
  {
    var n := 128 * q + used;
    var m := 8 * n / TWO_64;
    assert LowBits(n) == 8 * (n - 0x2000_0000_0000_0000 * m);
    assert n - 0x2000_0000_0000_0000 * m == 128 * (q - 0x40_0000_0000_0000 * m) + used;
  }

  class Context {
    const variant: Variant
    const state: array<bv64>
    /** Message length in bits, modulo 2^128: the low and the high word. */
    var bitcount0: nat
    var bitcount1: nat
    const buffer: array<byte>
    /** The blocks compressed so far, and how much of the buffer holds unprocessed input. */
    ghost var blocks: seq<seq<byte>>
    ghost var used: nat

    ghost predicate Counts(n: nat)
      reads `bitcount0, `bitcount1
    {
      bitcount0 == LowBits(n) && bitcount1 == HighBits(n)
    }

    ghost predicate Partial()
      reads this, state, buffer
    {
      && Holds(ALG, variant.Initial(), state[..], buffer[..], blocks, used) && buffer.Length == 128
      && Counts(128 * |blocks| + used)
    }

    ghost predicate Valid()
      reads this, state, buffer
    {
      Partial() && used < 128
    }

    /** Everything fed to the context so far. */
    ghost function Fed(): seq<byte>
      requires used <= buffer.Length
      reads this, buffer
    {
      Message(buffer[..], blocks, used)
    }

    constructor (variant: Variant)
      ensures this.variant == variant && Valid() && Fed() == [] && fresh(state) && fresh(buffer)
    {
      this.variant := variant;
      var initial := variant.Initial();
      state := new bv64[8](i requires 0 <= i < 8 => initial[i]);
      buffer := new byte[128](_ => 0);
      bitcount0, bitcount1 := 0, 0;
      blocks, used := [], 0;
      new;
      assert state[..] == initial;
    }

    /** The macro ADDINC128. */
    method AddInc128(n: nat, ghost bytes: nat, ghost more: nat)
      requires n < TWO_64 && Counts(bytes) && n == 8 * more
      modifies `bitcount0, `bitcount1
      ensures Counts(bytes + more)
    {
      hide LowBits, HighBits;
      MoreBits(bytes, more);
      bitcount0 := (bitcount0 + n) % TWO_64;
      if bitcount0 < n {
        bitcount1 := (bitcount1 + 1) % TWO_64;
      }
    }

    /** What the count says about the buffer and about the message. */
    lemma CountTells()
      requires Valid()
      ensures (bitcount0 / 8) % 128 == used && Counts(|Fed()|)
    {
      hide Absorb, LowBits, HighBits, Flatten;
      UsedSpace(|blocks|, used);
      FlattenLength(blocks, 128);
    }

    /** Copy input behind the used part of the buffer. */
    method Append(data: array<byte>, at: nat, n: nat, usedspace: nat)
      requires Partial() && usedspace == used && used + n <= 128 && at + n <= data.Length && data != buffer
      modifies `bitcount0, `bitcount1, `used, buffer
      ensures Partial() && used == old(used) + n
      ensures Fed() == old(Fed()) + data[at..at + n]
    {
      hide Absorb, Flatten, Counts;
      Appended(ALG, variant.Initial(), state[..], buffer[..], blocks, used, data[at..at + n]);
      Copy(buffer, usedspace, data, at, n);
      AddInc128(8 * n, 128 * |blocks| + used, n);
      used := used + n;
    }

    method CompressFull()
      requires Partial() && used == 128
      modifies this`blocks, this`used, state, buffer
      ensures Valid() && used == 0 && Fed() == old(Fed())
    {
      hide Absorb, Flatten, Counts, Laws;
      AlgLaws();
      ghost var full := buffer[..];
      CompressBuffer(ALG, state, buffer, variant.Initial(), blocks);
      blocks, used := blocks + [full], 0;
    }

    /** Compress a whole block of the input in place. */
    method PassBlock(data: array<byte>, at: nat)
      requires Valid() && used == 0 && at + 128 <= data.Length && data != buffer
      modifies `bitcount0, `bitcount1, `blocks, state, buffer
      ensures Valid() && used == 0 && Fed() == old(Fed()) + data[at..at + 128]
    {
      hide Absorb, Flatten, Counts, Laws, Compress;
      AlgLaws();
      ghost var s0, b0, b := state[..], buffer[..], data[at..at + 128];
      Transform(ALG, state, buffer, data, at);
      Passed(ALG, variant.Initial(), s0, b0, blocks, b, buffer[..]);
      AddInc128(8 * 128, 128 * |blocks|, 128);
      blocks := blocks + [b];
    }

    /** All whole blocks of the input; the rest of it starts at `pos`. */
    method PassBlocks(data: array<byte>, at: nat, len: nat) returns (pos: nat)
      requires Valid() && used == 0 && at + len <= data.Length && data != buffer
      modifies this, state, buffer
      ensures at <= pos <= at + len < pos + 128
      ensures Valid() && used == 0 && Fed() == old(Fed()) + data[at..pos]
    {
      hide Holds, Counts, Message;
      pos := at;
      ghost var fed := Fed();
      assert fed + data[at..at] == fed;
      while at + len - pos >= 128
        invariant at <= pos <= at + len
        invariant Valid() && used == 0 && Fed() == fed + data[at..pos]
      {
        PassBlock(data, pos);
        Sliced(fed, data[..], at, pos, pos + 128);
        pos := pos + 128;
      }
    }

    /** All whole blocks of the input, then the rest of it into the empty buffer. */
    method UpdateBlocks(data: array<byte>, at: nat, len: nat)
      requires Valid() && used == 0 && at + len <= data.Length && data != buffer
      modifies this, state, buffer
      ensures Valid() && Fed() == old(Fed()) + data[at..at + len]
    {
      hide Holds, Counts, Message;
      ghost var fed := Fed();
      var pos := PassBlocks(data, at, len);
      if pos < at + len {
        Append(data, pos, at + len - pos, 0);
        Sliced(fed, data[..], at, pos, at + len);
      }
    }

    /** Take in the next piece of the message. */
    method Update(data: array<byte>, at: nat, len: nat)
      requires Valid() && at + len <= data.Length && data != buffer
      modifies this, state, buffer
      ensures Valid() && Fed() == old(Fed()) + data[at..at + len]
    {
      hide Holds, Counts, Message;
      if len == 0 {
        return;
      }
      CountTells();
      var usedspace := (bitcount0 / 8) % 128;
      if usedspace > 0 {
        var freespace := 128 - usedspace;
        if len >= freespace {
          ghost var fed := Fed();
          Append(data, at, freespace, usedspace);
          CompressFull();
          UpdateBlocks(data, at + freespace, len - freespace);
          Sliced(fed, data[..], at, at + freespace, at + len);
        } else {
          Append(data, at, len, usedspace);
        }
      } else {
        UpdateBlocks(data, at, len);
      }
    }

    /** Pad and compress; the count is in big-endian order from here on. */
    method Last()
      requires Valid()
      modifies `bitcount0, `bitcount1, state, buffer
      ensures state[..] == Hash(ALG, variant.Initial(), BLOCK_LENGTH, old(Fed()), LengthField(|old(Fed())|))
    {
      hide Absorb, LowBits, HighBits, Laws, Hash, Flatten, Reversed, HostField, BigEndianField;
      AlgLaws();
      CountTells();
      var usedspace := (bitcount0 / 8) % 128;
      bitcount0 := Reversed(bitcount0);
      bitcount1 := Reversed(bitcount1);
      Finish(ALG, state, buffer, usedspace, HostField(bitcount1) + HostField(bitcount0),
        BLOCK_LENGTH - 2, variant.Initial(), blocks);
    }

    method Wipe()
      requires state.Length == 8 && buffer.Length == 128
      modifies `bitcount0, `bitcount1, state, buffer
      ensures state[..] == seq(8, _ => 0) && buffer[..] == Zeros(128) && bitcount0 == bitcount1 == 0
    {
      forall i | 0 <= i < 8 {
        state[i] := 0;
      }
      forall i | 0 <= i < 128 {
        buffer[i] := 0;
      }
      bitcount0, bitcount1 := 0, 0;
    }

    /** Write the digest if one is wanted, and wipe the context. */
    method Final(digest: array?<byte>)
      requires Valid() && (digest != null ==> digest.Length == 8 * variant.DigestWords() && digest != buffer)
      modifies `bitcount0, `bitcount1, state, buffer, digest
      ensures digest != null ==> digest[..] == variant.Digest(old(Fed()))
      ensures state[..] == seq(8, _ => 0) && buffer[..] == Zeros(128) && bitcount0 == bitcount1 == 0
    {
      hide Absorb, Counts, Laws, Hash, DigestBytes, Flatten, LengthField;
      if digest != null {
        AlgLaws();
        Last();
        WriteDigest(ALG, state, digest, variant.DigestWords());
      }
      Wipe();
    }
  }

  /** One context fed with any pieces gives the hash of their concatenation. */
  method HashPieces(variant: Variant, pieces: seq<array<byte>>) returns (digest: array<byte>)
    ensures fresh(digest) && digest[..] == variant.Digest(Joined(pieces))
  {
    hide Holds, Context.Counts, Message, Variant.Digest, Joined;
    var context := new Context(variant);
    NothingJoined();
    var i := 0;
    while i < |pieces|
      invariant 0 <= i <= |pieces|
      invariant context.Valid() && fresh(context) && fresh(context.state) && fresh(context.buffer)
      invariant context.Fed() == Joined(pieces[..i])
    {
      JoinedMore(pieces, i);
      context.Update(pieces[i], 0, pieces[i].Length);
      assert pieces[i][0..pieces[i].Length] == pieces[i][..];
      i := i + 1;
    }
    assert pieces[..|pieces|] == pieces;
    digest := new byte[8 * variant.DigestWords()];
    context.Final(digest);
  }
}
