/** A message that arrives in pieces: the blocks already compressed into the state, and
    the rest of it at the front of the buffer. */
module Sha2Stream {
  import opened Sha2Core
  import opened Sha2Message
  import opened Sha2Ring
  import opened Sha2Rolled

  /** `state` is the hash of `blocks`; the buffer holds `used` bytes that came after them. */
  ghost predicate Holds<W>(alg: Alg<W>, h0: seq<W>, state: seq<W>,
      buffer: seq<byte>, blocks: seq<seq<byte>>, used: nat) {
    && WordSize(alg) && |h0| == 8 && |buffer| == At(alg.size, 16) && used <= |buffer|
    && AllOf(blocks, |buffer|) && state == Absorb(alg, h0, blocks)
  }

  function Message(buffer: seq<byte>, blocks: seq<seq<byte>>, used: nat): seq<byte>
    requires used <= |buffer|
  {
    Flatten(blocks) + buffer[..used]
  }

  /** A piece that fits behind the used part. */
  lemma Appended<W>(alg: Alg<W>, h0: seq<W>, state: seq<W>, buffer: seq<byte>,
      blocks: seq<seq<byte>>, used: nat, piece: seq<byte>)
    requires Holds(alg, h0, state, buffer, blocks, used) && used + |piece| <= |buffer|
    ensures Holds(alg, h0, state, Spliced(buffer, used, piece), blocks, used + |piece|)
    ensures Message(Spliced(buffer, used, piece), blocks, used + |piece|) == Message(buffer, blocks, used) + piece
  {
    hide Absorb;
    assert Spliced(buffer, used, piece)[..used + |piece|] == buffer[..used] + piece;
  }

  /** A full buffer becomes a block; what is in the buffer afterwards does not matter. */
  lemma Compressed<W>(alg: Alg<W>, h0: seq<W>, state: seq<W>,
      buffer: seq<byte>, blocks: seq<seq<byte>>, buffer': seq<byte>)
    requires Holds(alg, h0, state, buffer, blocks, |buffer|) && |buffer'| == |buffer|
    ensures Holds(alg, h0, Compress(alg, state, Words(alg, buffer)), buffer', blocks + [buffer], 0)
    ensures Message(buffer', blocks + [buffer], 0) == Message(buffer, blocks, |buffer|)
  {
    hide Absorb, Flatten, Compress, Words;
    assert buffer'[..0] == [] && buffer[..|buffer|] == buffer
      && Flatten(blocks) + buffer + [] == Flatten(blocks) + buffer;
    AbsorbSnoc(alg, h0, blocks, buffer);
    FlattenSnoc(blocks, buffer);
  }

  /** A block straight from the input, while the buffer is empty. */
  lemma Passed<W>(alg: Alg<W>, h0: seq<W>, state: seq<W>, buffer: seq<byte>,
      blocks: seq<seq<byte>>, b: seq<byte>, buffer': seq<byte>)
    requires Holds(alg, h0, state, buffer, blocks, 0) && |b| == |buffer| == |buffer'|
    ensures Holds(alg, h0, Compress(alg, state, Words(alg, b)), buffer', blocks + [b], 0)
    ensures Message(buffer', blocks + [b], 0) == Message(buffer, blocks, 0) + b
  {
    hide Absorb, Flatten, Compress, Words;
    assert buffer[..0] == buffer'[..0] == [] && Flatten(blocks) + [] == Flatten(blocks);
    assert Flatten(blocks) + b + [] == Flatten(blocks) + b;
    AbsorbSnoc(alg, h0, blocks, b);
    FlattenSnoc(blocks, b);
  }

  // ----- the end of a message

  /** memset to zero of `n` bytes. */
  method Zero(dst: array<byte>, at: nat, n: nat)
    requires at + n <= dst.Length
    modifies dst
    ensures dst[..] == Spliced(old(dst[..]), at, Zeros(n))
  {
    forall i | 0 <= i < n {
      dst[at + i] := 0;
    }
  }

  /** memcpy of `n` bytes between different arrays. */
  method Copy(dst: array<byte>, at: nat, src: array<byte>, from: nat, n: nat)
    requires dst != src && at + n <= dst.Length && from + n <= src.Length
    modifies dst
    ensures dst[..] == Spliced(old(dst[..]), at, src[from..from + n])
  {
    forall i | 0 <= i < n {
      dst[at + i] := src[from + i];
    }
  }

  /** The padding of one block: marker, zeros, room for the length. */
  method PadShort(buffer: array<byte>, used: nat, short: nat)
    requires used < short <= buffer.Length
    modifies buffer
    ensures buffer[..short] == old(buffer[..used]) + [0x80] + Zeros(short - used - 1)
  {
    if used > 0 {
      buffer[used] := 0x80;
      Zero(buffer, used + 1, short - (used + 1));
    } else {
      Zero(buffer, 0, short);
      buffer[0] := 0x80;
    }
  }

  /** The first of two padding blocks: there is no room for the length. */
  method PadLong(buffer: array<byte>, used: nat)
    requires 0 < used < buffer.Length
    modifies buffer
    ensures buffer[..] == old(buffer[..used]) + [0x80] + Zeros(buffer.Length - used - 1)
  {
    buffer[used] := 0x80;
    if used + 1 < buffer.Length {
      Zero(buffer, used + 1, buffer.Length - (used + 1));
    }
  }

  /** Compressing the buffer itself. */
  method CompressBuffer<W(!new)>(alg: Alg<W>, state: array<W>,
      buffer: array<byte>, ghost h0: seq<W>, ghost blocks: seq<seq<byte>>)
    requires Laws(alg) && state.Length == 8 && (state as object) != (buffer as object)
    requires Holds(alg, h0, state[..], buffer[..], blocks, buffer.Length)
    modifies state, buffer
    ensures Holds(alg, h0, state[..], buffer[..], blocks + [old(buffer[..])], 0)
    ensures Message(buffer[..], blocks + [old(buffer[..])], 0) == Message(old(buffer[..]), blocks, buffer.Length)
  {
    hide SumLaws, StoreLaw, LoadLaw, DigestLaw, Absorb, Flatten, Compress;
    ghost var s0, b0 := state[..], buffer[..];
    assert Given(alg, buffer, buffer, 0) == b0;
    Transform(alg, state, buffer, buffer, 0);
    Compressed(alg, h0, s0, b0, blocks, buffer[..]);
  }

  /** Padding when the length still fits. */
  method FinishShort<W(!new)>(alg: Alg<W>, state: array<W>, buffer: array<byte>, used: nat, field: seq<byte>,
                              ghost h0: seq<W>, ghost blocks: seq<seq<byte>>)
    requires Laws(alg) && state.Length == 8 && (state as object) != (buffer as object)
    requires Holds(alg, h0, state[..], buffer[..], blocks, used) && |field| == 2 * alg.size
    requires used + 1 + |field| <= buffer.Length
    modifies state, buffer
    ensures state[..] == Hash(alg, h0, buffer.Length, Message(old(buffer[..]), blocks, used), field)
  {
    hide SumLaws, StoreLaw, LoadLaw, DigestLaw, Absorb, Chunks, Pad, Flatten;
    ghost var tail := buffer[..used];
    PadInOneBlock(blocks, tail, field, buffer.Length);
    PadShort(buffer, used, buffer.Length - |field|);
    StoreBytes(buffer, buffer.Length - |field|, field);
    assert buffer[..] == tail + [0x80] + Zeros(buffer.Length - |field| - 1 - |tail|) + field;
    CompressBuffer(alg, state, buffer, h0, blocks);
  }

  /** Padding when it does not: `cleared` is how much of the second block is set to zero
      before the length is stored over its end. */
  method FinishLong<W(!new)>(alg: Alg<W>, state: array<W>, buffer: array<byte>,
                             used: nat, field: seq<byte>, cleared: nat,
                             ghost h0: seq<W>, ghost blocks: seq<seq<byte>>)
    requires Laws(alg) && state.Length == 8 && (state as object) != (buffer as object)
    requires Holds(alg, h0, state[..], buffer[..], blocks, used) && |field| == 2 * alg.size
    requires used < buffer.Length < used + 1 + |field|
    requires buffer.Length - |field| <= cleared <= buffer.Length
    modifies state, buffer
    ensures state[..] == Hash(alg, h0, buffer.Length, Message(old(buffer[..]), blocks, used), field)
  {
    hide SumLaws, StoreLaw, LoadLaw, DigestLaw, Absorb, Chunks, Pad, Flatten;
    ghost var tail := buffer[..used];
    PadInTwoBlocks(blocks, tail, field, buffer.Length);
    PadLong(buffer, used);
    ghost var first := buffer[..];
    CompressBuffer(alg, state, buffer, h0, blocks);
    Zero(buffer, 0, cleared);
    StoreBytes(buffer, buffer.Length - |field|, field);
    assert buffer[..] == Zeros(buffer.Length - |field|) + field;
    CompressBuffer(alg, state, buffer, h0, blocks + [first]);
  }

  /** Padding and the last one or two compressions. */
  method Finish<W(!new)>(alg: Alg<W>, state: array<W>, buffer: array<byte>, used: nat, field: seq<byte>, cleared: nat,
                         ghost h0: seq<W>, ghost blocks: seq<seq<byte>>)
    requires Laws(alg) && state.Length == 8 && (state as object) != (buffer as object)
    requires Holds(alg, h0, state[..], buffer[..], blocks, used) && used < buffer.Length
    requires |field| == 2 * alg.size && buffer.Length - |field| <= cleared <= buffer.Length
    modifies state, buffer
    ensures state[..] == Hash(alg, h0, buffer.Length, Message(old(buffer[..]), blocks, used), field)
  {
    hide Laws, Absorb, Chunks, Pad, Flatten;
    if used + 1 <= buffer.Length - |field| {
      FinishShort(alg, state, buffer, used, field, h0, blocks);
    } else {
      FinishLong(alg, state, buffer, used, field, cleared, h0, blocks);
    }
  }

  // ----- the digest

  /** The hash value written out: every word most significant byte first. */
  function DigestBytes<W>(alg: Alg<W>, h: seq<W>): seq<byte> {
    if h == [] then [] else DigestBytes(alg, h[..|h| - 1]) + alg.bigEndianBytes(h[|h| - 1])
  }

  /** The first n words of the state are swapped in place and stored into the digest. */
  method WriteDigest<W(!new)>(alg: Alg<W>, state: array<W>, digest: array<byte>, n: nat)
    requires Laws(alg) && state.Length == 8 && n <= 8
    requires digest.Length == At(alg.size, n) && (state as object) != (digest as object)
    modifies state, digest
    ensures digest[..] == DigestBytes(alg, old(state[..n]))
  {
    hide SumLaws, LoadLaw;
    ghost var h := state[..n];
    var j := 0;
    while j < n
      invariant 0 <= j <= n && state[j..n] == h[j..]
      invariant digest[..At(alg.size, j)] == DigestBytes(alg, h[..j])
    {
      assert state[j..n][0] == h[j..][0] && state[j + 1..n] == state[j..n][1..] && h[j + 1..] == h[j..][1..];
      state[j] := alg.reverse(state[j]);
      assert state[j + 1..n] == h[j + 1..];
      assert alg.store(alg.reverse(h[j])) == alg.bigEndianBytes(h[j]);
      StoreBytes(digest, At(alg.size, j), alg.store(state[j]));
      assert h[..j + 1][..j] == h[..j];
      j := j + 1;
    }
    assert h[..n] == h;
  }

  lemma Sliced(before: seq<byte>, s: seq<byte>, a: nat, b: nat, c: nat)
    requires a <= b <= c <= |s|
    ensures before + s[a..b] + s[b..c] == before + s[a..c]
  {
    assert s[a..b] + s[b..c] == s[a..c];
  }

  /** The message made of the given pieces. */
  ghost function Joined(pieces: seq<array<byte>>): seq<byte>
    reads pieces
  {
    if pieces == [] then [] else Joined(pieces[..|pieces| - 1]) + pieces[|pieces| - 1][..]
  }

  lemma NothingJoined()
    ensures Joined([]) == []
  {
  }

  lemma JoinedMore(pieces: seq<array<byte>>, i: nat)
    requires i < |pieces|
    ensures Joined(pieces[..i + 1]) == Joined(pieces[..i]) + pieces[i][..]
  {
    assert pieces[..i + 1][..i] == pieces[..i];
  }
}
