/** Padding and parsing of a message (sections 5.1 and 5.2 of FIPS 180-4) and the hash
    of the whole message, for blocks of `L` bytes that end in a length field of `F`. */
module Sha2Message {
  import opened Sha2Core

  function Zeros(n: nat): seq<byte> { seq(n, _ => 0 as byte) }

  /** The smallest number of zero bytes that makes the padded length a multiple of L. */
  function ZeroCount(L: nat, F: nat, n: nat): nat
    requires 1 + F <= L
  {
    var used := n % L;
    if used + 1 + F <= L then L - F - 1 - used else 2 * L - F - 1 - used
  }

  lemma ZeroCountFits(L: nat, F: nat, n: nat)
    requires (L == 64 && F == 8) || (L == 128 && F == 16)
    ensures (n + 1 + ZeroCount(L, F, n) + F) % L == 0
  {
    var used, padded := n % L, n + 1 + ZeroCount(L, F, n) + F;
    var more := if used + 1 + F <= L then 1 else 2;
    if L == 64 {
      Multiple64(padded, n / 64 + more);
    } else {
      Multiple128(padded, n / 128 + more);
    }
  }

  lemma Multiple64(x: nat, q: nat)
    requires x == 64 * q
    ensures x % 64 == 0
  {
  }

  lemma Multiple128(x: nat, q: nat)
    requires x == 128 * q
    ensures x % 128 == 0
  {
  }

  lemma FewerZerosDoNotFit(L: nat, F: nat, n: nat, k: nat)
    requires (L == 64 && F == 8) || (L == 128 && F == 16)
    requires k < ZeroCount(L, F, n)
    ensures (n + 1 + k + F) % L != 0
  {
    ZeroCountFits(L, F, n);
    var d := ZeroCount(L, F, n) - k;
    assert 0 < d < L;
    if L == 64 {
      NotMultiple64(n + 1 + k + F, d);
    } else {
      NotMultiple128(n + 1 + k + F, d);
    }
  }

  lemma NotMultiple64(x: nat, d: nat)
    requires 0 < d < 64 && (x + d) % 64 == 0
    ensures x % 64 != 0
  {
  }

  lemma NotMultiple128(x: nat, d: nat)
    requires 0 < d < 128 && (x + d) % 128 == 0
    ensures x % 128 != 0
  {
  }

  /** The padded message; `field` is its length in bits as a big-endian number. */
  function Pad(L: nat, m: seq<byte>, field: seq<byte>): seq<byte>
    requires 1 + |field| <= L
  {
    m + [0x80] + Zeros(ZeroCount(L, |field|, |m|)) + field
  }

  /** The padded message parsed into blocks. */
  function Chunks(m: seq<byte>, L: nat): seq<seq<byte>>
    requires L > 0
  {
    if |m| < L then [] else [m[..L]] + Chunks(m[L..], L)
  }

  function Flatten(blocks: seq<seq<byte>>): seq<byte> {
    if blocks == [] then [] else blocks[0] + Flatten(blocks[1..])
  }

  /** The intermediate hash value after the given blocks. */
  function Absorb<W>(alg: Alg<W>, h0: seq<W>, blocks: seq<seq<byte>>): (h: seq<W>)
    requires |h0| == 8
    ensures |h| == 8
    decreases |blocks|
  {
    if blocks == [] then h0
    else Compress(alg, Absorb(alg, h0, blocks[..|blocks| - 1]), Words(alg, blocks[|blocks| - 1]))
  }

  /** The hash value of a message before it is written out as bytes. */
  function Hash<W>(alg: Alg<W>, h0: seq<W>, L: nat, m: seq<byte>, field: seq<byte>): seq<W>
    requires |h0| == 8 && 1 + |field| <= L
  {
    Absorb(alg, h0, Chunks(Pad(L, m, field), L))
  }

  ghost predicate AllOf(blocks: seq<seq<byte>>, L: nat) {
    forall i :: 0 <= i < |blocks| ==> |blocks[i]| == L
  }

  // ----- blocks

  lemma AbsorbSnoc<W>(alg: Alg<W>, h0: seq<W>, blocks: seq<seq<byte>>, b: seq<byte>)
    requires |h0| == 8
    ensures Absorb(alg, h0, blocks + [b]) == Compress(alg, Absorb(alg, h0, blocks), Words(alg, b))
  {
    assert (blocks + [b])[..|blocks|] == blocks;
  }

  lemma {:induction false} FlattenSnoc(blocks: seq<seq<byte>>, b: seq<byte>)
    ensures Flatten(blocks + [b]) == Flatten(blocks) + b
    decreases |blocks|
  {
    if blocks == [] {
      assert [b][1..] == [];
    } else {
      assert (blocks + [b])[1..] == blocks[1..] + [b];
      FlattenSnoc(blocks[1..], b);
    }
  }

  lemma {:induction false} FlattenLength(blocks: seq<seq<byte>>, L: nat)
    requires AllOf(blocks, L)
    ensures |Flatten(blocks)| == L * |blocks|
    decreases |blocks|
  {
    if blocks != [] {
      FlattenLength(blocks[1..], L);
      assert L * |blocks| == L + L * (|blocks| - 1);
    }
  }

  /** Parsing finds the blocks a message was made of. */
  lemma {:induction false} ChunksOfFlatten(blocks: seq<seq<byte>>, L: nat)
    requires L > 0 && AllOf(blocks, L)
    ensures Chunks(Flatten(blocks), L) == blocks
    decreases |blocks|
  {
    if blocks != [] {
      ChunksOfFlatten(blocks[1..], L);
      var m := Flatten(blocks);
      assert m[..L] == blocks[0] && m[L..] == Flatten(blocks[1..]);
    }
  }

  // ----- the two ways padding ends

  /** The length field still fits behind the tail and the marker bit. */
  lemma PadInOneBlock(blocks: seq<seq<byte>>, tail: seq<byte>, field: seq<byte>, L: nat)
    requires (L == 64 && |field| == 8) || (L == 128 && |field| == 16)
    requires AllOf(blocks, L) && |tail| + 1 + |field| <= L
    ensures Chunks(Pad(L, Flatten(blocks) + tail, field), L)
         == blocks + [tail + [0x80] + Zeros(L - |field| - 1 - |tail|) + field]
  {
    hide Flatten, Chunks;
    var m, last := Flatten(blocks) + tail, tail + [0x80] + Zeros(L - |field| - 1 - |tail|) + field;
    FlattenLength(blocks, L);
    Remainder(L, |blocks|, |tail|);
    FlattenSnoc(blocks, last);
    assert Pad(L, m, field) == Flatten(blocks + [last]);
    ChunksOfFlatten(blocks + [last], L);
  }

  lemma RegroupPadding(f: seq<byte>, tail: seq<byte>, z1: seq<byte>, z2: seq<byte>, field: seq<byte>)
    ensures (f + tail) + [0x80] + (z1 + z2) + field == (f + (tail + [0x80] + z1)) + (z2 + field)
  {
  }

  /** The padded message when the zeros run over the end of a block. */
  lemma PadOverTheEnd(f: seq<byte>, tail: seq<byte>, field: seq<byte>, L: nat)
    requires |tail| < L < |tail| + 1 + |field| && 1 + |field| <= L && (|f| + |tail|) % L == |tail|
    ensures Pad(L, f + tail, field) == (f + (tail + [0x80] + Zeros(L - 1 - |tail|))) + (Zeros(L - |field|) + field)
  {
    var z1, z2 := Zeros(L - 1 - |tail|), Zeros(L - |field|);
    assert Zeros(2 * L - |field| - 1 - |tail|) == z1 + z2;
    RegroupPadding(f, tail, z1, z2, field);
  }

  /** It does not fit: a further block holds nothing but zeros and the length. */
  lemma PadInTwoBlocks(blocks: seq<seq<byte>>, tail: seq<byte>, field: seq<byte>, L: nat)
    requires (L == 64 && |field| == 8) || (L == 128 && |field| == 16)
    requires AllOf(blocks, L) && |tail| < L < |tail| + 1 + |field|
    ensures Chunks(Pad(L, Flatten(blocks) + tail, field), L)
         == blocks + [tail + [0x80] + Zeros(L - 1 - |tail|)] + [Zeros(L - |field|) + field]
  {
    hide Flatten, Chunks, Pad;
    var first, last := tail + [0x80] + Zeros(L - 1 - |tail|), Zeros(L - |field|) + field;
    FlattenLength(blocks, L);
    Remainder(L, |blocks|, |tail|);
    FlattenSnoc(blocks, first);
    FlattenSnoc(blocks + [first], last);
    PadOverTheEnd(Flatten(blocks), tail, field, L);
    ChunksOfFlatten(blocks + [first] + [last], L);
  }

  lemma Remainder64(n: nat, used: nat)
    requires used < 64
    ensures (64 * n + used) % 64 == used
  {
  }

  lemma Remainder128(n: nat, used: nat)
    requires used < 128
    ensures (128 * n + used) % 128 == used
  {
  }

  lemma Remainder(L: nat, n: nat, used: nat)
    requires (L == 64 || L == 128) && used < L
    ensures (L * n + used) % L == used
  {
    if L == 64 {
      Remainder64(n, used);
    } else {
      Remainder128(n, used);
    }
  }
}
