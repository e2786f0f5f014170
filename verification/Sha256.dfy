/** SHA-256: the context that takes a message in pieces. */
module Sha256 {
  import opened Sha2Core
  import opened Sha2Bytes
  import opened Sha2Message
  import opened Sha2Ring
  import opened Sha2Rolled
  import opened Sha2Stream

  const BLOCK_LENGTH := 64
  const SHORT_BLOCK_LENGTH := 56
  const DIGEST_LENGTH := 32

  // the constants of the rounds, eight in a row

  const ROW_0: seq<bv32> := [
    0x428a2f98, 0x71374491, 0xb5c0fbcf, 0xe9b5dba5, 0x3956c25b, 0x59f111f1, 0x923f82a4, 0xab1c5ed5]

  const ROW_1: seq<bv32> := [
    0xd807aa98, 0x12835b01, 0x243185be, 0x550c7dc3, 0x72be5d74, 0x80deb1fe, 0x9bdc06a7, 0xc19bf174]

  const ROW_2: seq<bv32> := [
    0xe49b69c1, 0xefbe4786, 0x0fc19dc6, 0x240ca1cc, 0x2de92c6f, 0x4a7484aa, 0x5cb0a9dc, 0x76f988da]

  const ROW_3: seq<bv32> := [
    0x983e5152, 0xa831c66d, 0xb00327c8, 0xbf597fc7, 0xc6e00bf3, 0xd5a79147, 0x06ca6351, 0x14292967]

  const ROW_4: seq<bv32> := [
    0x27b70a85, 0x2e1b2138, 0x4d2c6dfc, 0x53380d13, 0x650a7354, 0x766a0abb, 0x81c2c92e, 0x92722c85]

  const ROW_5: seq<bv32> := [
    0xa2bfe8a1, 0xa81a664b, 0xc24b8b70, 0xc76c51a3, 0xd192e819, 0xd6990624, 0xf40e3585, 0x106aa070]

  const ROW_6: seq<bv32> := [
    0x19a4c116, 0x1e376c08, 0x2748774c, 0x34b0bcb5, 0x391c0cb3, 0x4ed8aa4a, 0x5b9cca4f, 0x682e6ff3]

  const ROW_7: seq<bv32> := [
    0x748f82ee, 0x78a5636f, 0x84c87814, 0x8cc70208, 0x90befffa, 0xa4506ceb, 0xbef9a3f7, 0xc67178f2]

  const K256: seq<bv32> :=
    ROW_0 + ROW_1 + ROW_2 + ROW_3 + ROW_4 + ROW_5 + ROW_6 + ROW_7

  const INITIAL: seq<bv32> := [
    0x6a09e667, 0xbb67ae85, 0x3c6ef372, 0xa54ff53a, 0x510e527f, 0x9b05688c, 0x1f83d9ab, 0x5be0cd19]

  function R(b: bv32, x: bv32): bv32
    requires b < 32
  {
    x >> b
  }

  function S32(b: bv32, x: bv32): bv32
    requires 0 < b < 32
  {
    (x >> b) | (x << (32 - b))
  }

  function Ch(x: bv32, y: bv32, z: bv32): bv32 { (x & y) ^ ((!x) & z) }

  function Maj(x: bv32, y: bv32, z: bv32): bv32 { (x & y) ^ (x & z) ^ (y & z) }

  function BigSigma0(x: bv32): bv32 { S32(2, x) ^ S32(13, x) ^ S32(22, x) }

  function BigSigma1(x: bv32): bv32 { S32(6, x) ^ S32(11, x) ^ S32(25, x) }

  function SmallSigma0(x: bv32): bv32 { S32(7, x) ^ S32(18, x) ^ R(3, x) }

  function SmallSigma1(x: bv32): bv32 { S32(17, x) ^ S32(19, x) ^ R(10, x) }

  // the sums of a round and of the schedule, modulo 2^32

  function T1(h: bv32, e: bv32, f: bv32, g: bv32, k: bv32, w: bv32): bv32 {
    h + BigSigma1(e) + Ch(e, f, g) + k + w
  }

  function NewA(t1: bv32, a: bv32, b: bv32, c: bv32): bv32 { t1 + (BigSigma0(a) + Maj(a, b, c)) }

  function NewAUnrolled(t1: bv32, a: bv32, b: bv32, c: bv32): bv32 { t1 + BigSigma0(a) + Maj(a, b, c) }

  function NewE(d: bv32, t1: bv32): bv32 { d + t1 }

  function Expand(w2: bv32, w7: bv32, w15: bv32, w16: bv32): bv32 {
    SmallSigma1(w2) + w7 + SmallSigma0(w15) + w16
  }

  function ExpandInPlace(w2: bv32, w7: bv32, w15: bv32, w16: bv32): bv32 {
    w16 + (SmallSigma1(w2) + w7 + SmallSigma0(w15))
  }

  function Add(x: bv32, y: bv32): bv32 { x + y }

  // words in memory

  function Host(b: seq<byte>): bv32 { if |b| == 4 then Le32(b) else 0 }

  function BigEndian(b: seq<byte>): bv32 { if |b| == 4 then Be32(b) else 0 }

  const ALG: Alg<bv32> := Alg(T1, NewA, NewAUnrolled, NewE, Expand, ExpandInPlace, Add, K256,
                              4, Host, LeBytes32, Reverse32, BigEndian, BeBytes32)

  lemma Regrouped(t1: bv32, a: bv32, b: bv32, c: bv32)
    ensures NewAUnrolled(t1, a, b, c) == NewA(t1, a, b, c)
    ensures ExpandInPlace(t1, a, b, c) == Expand(t1, a, b, c)
  {
    hide BigSigma0, Maj, SmallSigma0, SmallSigma1;
  }

  lemma AlgSums()
    ensures SumLaws(ALG)
  {
    hide NewA, NewAUnrolled, Expand, ExpandInPlace;
    forall t1, a, b, c ensures ALG.newAUnrolled(t1, a, b, c) == ALG.newA(t1, a, b, c) {
      Regrouped(t1, a, b, c);
    }
    forall w2, w7, w15, w16 ensures ALG.expandInPlace(w2, w7, w15, w16) == ALG.expand(w2, w7, w15, w16) {
      Regrouped(w2, w7, w15, w16);
    }
  }

  lemma AlgStores()
    ensures StoreLaw(ALG) && DigestLaw(ALG)
  {
    hide Le32, LeBytes32, BeBytes32, Reverse32;
    forall w ensures |ALG.store(w)| == 4 && ALG.host(ALG.store(w)) == w
      && ALG.store(ALG.reverse(w)) == ALG.bigEndianBytes(w) {
      StoredWordReadsBack32(w);
      ReverseWritesBigEndian32(w);
    }
  }

  lemma AlgLoads()
    ensures LoadLaw(ALG)
  {
    hide Le32, Be32, Reverse32;
    forall b: seq<byte> | |b| == 4 ensures ALG.reverse(ALG.host(b)) == ALG.bigEndian(b) {
      ReverseReadsBigEndian32(b);
    }
  }

  /** The operations of this file are an instance of the algorithm. */
  lemma AlgLaws()
    ensures Laws(ALG)
  {
    hide SumLaws, StoreLaw, LoadLaw, DigestLaw;
    AlgSums();
    AlgStores();
    AlgLoads();
  }

  // ----- the hash of a whole message

  /** SHA-256 as section 6.2 of FIPS 180-4 defines it for messages of fewer than 2^64 bits. */
  function Sha256(m: seq<byte>): seq<byte> {
    DigestBytes(ALG, Hash(ALG, INITIAL, BLOCK_LENGTH, m, BigEndianField(LowBits(|m|))))
  }

  lemma MoreBits(n: nat, k: nat)
    ensures (LowBits(n) + 8 * k) % TWO_64 == LowBits(n + k)
  {
  }

  lemma UsedSpace(q: nat, used: nat)
    requires used < 64
    ensures (LowBits(64 * q + used) / 8) % 64 == used
  {
  }

  class Context {
    const state: array<bv32>
    /** Message length in bits, modulo 2^64. */
    var bitcount: nat
    const buffer: array<byte>
    /** The blocks compressed so far, and how much of the buffer holds unprocessed input. */
    ghost var blocks: seq<seq<byte>>
    ghost var used: nat

    ghost predicate Partial()
      reads this, state, buffer
    {
      && Holds(ALG, INITIAL, state[..], buffer[..], blocks, used) && buffer.Length == 64
      && bitcount == LowBits(64 * |blocks| + used)
    }

    ghost predicate Valid()
      reads this, state, buffer
    {
      Partial() && used < 64
    }

    /** Everything fed to the context so far. */
    ghost function Fed(): seq<byte>
      requires used <= buffer.Length
      reads this, buffer
    {
      Message(buffer[..], blocks, used)
    }

    constructor ()
      ensures Valid() && Fed() == [] && fresh(state) && fresh(buffer)
    {
      state := new bv32[8](i requires 0 <= i < 8 => INITIAL[i]);
      buffer := new byte[64](_ => 0);
      bitcount := 0;
      blocks, used := [], 0;
      new;
      assert state[..] == INITIAL;
    }

    /** Copy input behind the used part of the buffer. */
    method Append(data: array<byte>, at: nat, n: nat, usedspace: nat)
      requires Partial() && usedspace == used && used + n <= 64 && at + n <= data.Length && data != buffer
      modifies `bitcount, `used, buffer
      ensures Partial() && used == old(used) + n
      ensures Fed() == old(Fed()) + data[at..at + n]
    {
      hide Absorb, Flatten, LowBits;
      Appended(ALG, INITIAL, state[..], buffer[..], blocks, used, data[at..at + n]);
      MoreBits(64 * |blocks| + used, n);
      Copy(buffer, usedspace, data, at, n);
      bitcount := (bitcount + 8 * n) % TWO_64;
      used := used + n;
    }

    method CompressFull()
      requires Partial() && used == 64
      modifies this`blocks, this`used, state, buffer
      ensures Valid() && used == 0 && Fed() == old(Fed())
    {
      hide Absorb, Flatten, LowBits, Laws;
      AlgLaws();
      ghost var full := buffer[..];
      CompressBuffer(ALG, state, buffer, INITIAL, blocks);
      blocks, used := blocks + [full], 0;
    }

    /** Compress a whole block of the input in place. */
    method PassBlock(data: array<byte>, at: nat)
      requires Valid() && used == 0 && at + 64 <= data.Length && data != buffer
      modifies `bitcount, `blocks, state, buffer
      ensures Valid() && used == 0 && Fed() == old(Fed()) + data[at..at + 64]
    {
      hide Absorb, Flatten, LowBits, Laws, Compress;
      AlgLaws();
      ghost var s0, b0, b := state[..], buffer[..], data[at..at + 64];
      Transform(ALG, state, buffer, data, at);
      Passed(ALG, INITIAL, s0, b0, blocks, b, buffer[..]);
      MoreBits(64 * |blocks|, 64);
      bitcount := (bitcount + 8 * 64) % TWO_64;
      blocks := blocks + [b];
    }

    /** All whole blocks of the input; the rest of it starts at `pos`. */
    method PassBlocks(data: array<byte>, at: nat, len: nat) returns (pos: nat)
      requires Valid() && used == 0 && at + len <= data.Length && data != buffer
      modifies this, state, buffer
      ensures at <= pos <= at + len < pos + 64
      ensures Valid() && used == 0 && Fed() == old(Fed()) + data[at..pos]
    {
      hide Holds, LowBits, Message;
      pos := at;
      ghost var fed := Fed();
      assert fed + data[at..at] == fed;
      while at + len - pos >= 64
        invariant at <= pos <= at + len
        invariant Valid() && used == 0 && Fed() == fed + data[at..pos]
      {
        PassBlock(data, pos);
        Sliced(fed, data[..], at, pos, pos + 64);
        pos := pos + 64;
      }
    }

    /** All whole blocks of the input, then the rest of it into the empty buffer. */
    method UpdateBlocks(data: array<byte>, at: nat, len: nat)
      requires Valid() && used == 0 && at + len <= data.Length && data != buffer
      modifies this, state, buffer
      ensures Valid() && Fed() == old(Fed()) + data[at..at + len]
    {
      hide Holds, LowBits, Message;
      ghost var fed := Fed();
      var pos := PassBlocks(data, at, len);
      if pos < at + len {
        Append(data, pos, at + len - pos, 0);
        Sliced(fed, data[..], at, pos, at + len);
      }
    }

    /** Take in the next piece of the message. */
    method Update(data: array<byte>, at: nat, len: nat)
      requires Valid() && at + len <= data.Length && data != buffer
      modifies this, state, buffer
      ensures Valid() && Fed() == old(Fed()) + data[at..at + len]
    {
      hide Holds, LowBits, Message;
      if len == 0 {
        return;
      }
      UsedSpace(|blocks|, used);
      var usedspace := (bitcount / 8) % 64;
      if usedspace > 0 {
        var freespace := 64 - usedspace;
        if len >= freespace {
          ghost var fed := Fed();
          Append(data, at, freespace, usedspace);
          CompressFull();
          UpdateBlocks(data, at + freespace, len - freespace);
          Sliced(fed, data[..], at, at + freespace, at + len);
        } else {
          Append(data, at, len, usedspace);
        }
      } else {
        UpdateBlocks(data, at, len);
      }
    }

    /** Pad and compress; the count is in big-endian order from here on. */
    method Last()
      requires Valid()
      modifies `bitcount, state, buffer
      ensures state[..] == Hash(ALG, INITIAL, BLOCK_LENGTH, old(Fed()), BigEndianField(LowBits(|old(Fed())|)))
    {
      hide Absorb, LowBits, Laws, Hash, Flatten, Reversed, HostField, BigEndianField;
      AlgLaws();
      UsedSpace(|blocks|, used);
      FlattenLength(blocks, 64);
      var usedspace := (bitcount / 8) % 64;
      bitcount := Reversed(bitcount);
      Finish(ALG, state, buffer, usedspace, HostField(bitcount), SHORT_BLOCK_LENGTH, INITIAL, blocks);
    }

    method Wipe()
      requires state.Length == 8 && buffer.Length == 64
      modifies `bitcount, state, buffer
      ensures state[..] == seq(8, _ => 0) && buffer[..] == Zeros(64) && bitcount == 0
    {
      forall i | 0 <= i < 8 {
        state[i] := 0;
      }
      forall i | 0 <= i < 64 {
        buffer[i] := 0;
      }
      bitcount := 0;
    }

    /** Write the digest if one is wanted, and wipe the context. */
    method Final(digest: array?<byte>)
      requires Valid() && (digest != null ==> digest.Length == DIGEST_LENGTH && digest != buffer)
      modifies `bitcount, state, buffer, digest
      ensures digest != null ==> digest[..] == Sha256(old(Fed()))
      ensures state[..] == seq(8, _ => 0) && buffer[..] == Zeros(64) && bitcount == 0
    {
      hide Absorb, LowBits, Laws, Hash, DigestBytes, Flatten, BigEndianField;
      if digest != null {
        AlgLaws();
        Last();
        assert state[..8] == state[..];
        WriteDigest(ALG, state, digest, 8);
      }
      Wipe();
    }
  }

  /** One context fed with any pieces gives the hash of their concatenation. */
  method HashPieces(pieces: seq<array<byte>>) returns (digest: array<byte>)
    ensures fresh(digest) && digest[..] == Sha256(Joined(pieces))
  {
    hide Sha256, Holds, LowBits, Message, Joined;
    var context := new Context();
    NothingJoined();
    var i := 0;
    while i < |pieces|
      invariant 0 <= i <= |pieces|
      invariant context.Valid() && fresh(context) && fresh(context.state) && fresh(context.buffer)
      invariant context.used <= context.buffer.Length && context.Fed() == Joined(pieces[..i])
    {
      JoinedMore(pieces, i);
      context.Update(pieces[i], 0, pieces[i].Length);
      assert pieces[i][0..pieces[i].Length] == pieces[i][..];
      i := i + 1;
    }
    assert pieces[..|pieces|] == pieces;
    digest := new byte[DIGEST_LENGTH];
    context.Final(digest);
  }
}
