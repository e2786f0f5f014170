/** The byte buffer of a context seen as the 16-word ring of the message schedule. */
module Sha2Ring {
  import opened Sha2Core

  /** Memory after the piece at `at` was overwritten. */
  function Spliced(mem: seq<byte>, at: nat, b: seq<byte>): seq<byte>
    requires at + |b| <= |mem|
  {
    mem[..at] + b + mem[at + |b|..]
  }

  lemma SplicedSlice(mem: seq<byte>, at: nat, b: seq<byte>, k: nat)
    requires at + |b| <= |mem| && k + |b| <= |mem|
    ensures |Spliced(mem, at, b)| == |mem|
    ensures Spliced(mem, at, b)[at..at + |b|] == b
    ensures k + |b| <= at || at + |b| <= k ==> Spliced(mem, at, b)[k..k + |b|] == mem[k..k + |b|]
  {
  }

  /** Memory after word j was overwritten. */
  function Stored<W>(alg: Alg<W>, mem: seq<byte>, j: nat, w: W): seq<byte>
  {
    var at, b := At(alg.size, j), alg.store(w);
    if at + |b| <= |mem| then Spliced(mem, at, b) else mem
  }

  lemma StoredSlot<W(!new)>(alg: Alg<W>, mem: seq<byte>, j: nat, w: W, i: nat)
    requires StoreLaw(alg) && WordSize(alg) && |mem| == At(alg.size, 16) && j < 16 && i < 16
    ensures |Stored(alg, mem, j, w)| == |mem|
    ensures Slot(alg.size, Stored(alg, mem, j, w), i) == if i == j then alg.store(w) else Slot(alg.size, mem, i)
  {
    hide Spliced;
    SplicedSlice(mem, At(alg.size, j), alg.store(w), At(alg.size, i));
  }

  /** Storing word j changes word j and no other. */
  lemma StoredWords<W(!new)>(alg: Alg<W>, mem: seq<byte>, j: nat, w: W)
    requires StoreLaw(alg) && WordSize(alg) && |mem| == At(alg.size, 16) && j < 16
    ensures HostWords(alg, Stored(alg, mem, j, w)) == HostWords(alg, mem)[j := w]
    ensures Words(alg, Stored(alg, mem, j, w))[j + 1..] == Words(alg, mem)[j + 1..]
  {
    hide Slot, Stored, At;
    var mem' := Stored(alg, mem, j, w);
    assert alg.host(alg.store(w)) == w;
    forall i: nat | i < 16
      ensures Slot(alg.size, mem', i) == if i == j then alg.store(w) else Slot(alg.size, mem, i)
    {
      StoredSlot(alg, mem, j, w, i);
    }
  }

  method StoreWord<W(!new)>(alg: Alg<W>, buffer: array<byte>, j: nat, w: W)
    requires StoreLaw(alg) && WordSize(alg) && buffer.Length == At(alg.size, 16) && j < 16
    modifies buffer
    ensures buffer[..] == Stored(alg, old(buffer[..]), j, w)
  {
    StoreBytes(buffer, At(alg.size, j), alg.store(w));
  }

  method StoreBytes(buffer: array<byte>, at: nat, b: seq<byte>)
    requires at + |b| <= buffer.Length
    modifies buffer
    ensures buffer[..] == Spliced(old(buffer[..]), at, b)
  {
    forall i | 0 <= i < |b| {
      buffer[at + i] := b[i];
    }
  }

  lemma SliceOfSlice(mem: seq<byte>, off: nat, len: nat, at: nat, n: nat)
    requires off + len <= |mem| && at + n <= len
    ensures mem[off..off + len][at..at + n] == mem[off + at..off + at + n]
  {
    var piece := mem[off..off + len];
    var l, r := piece[at..at + n], mem[off + at..off + at + n];
    forall k | 0 <= k < n ensures l[k] == r[k] {
      assert l[k] == piece[at + k] == mem[off + (at + k)];
    }
  }

  method LoadWord<W>(alg: Alg<W>, buffer: array<byte>, j: nat) returns (w: W)
    requires WordSize(alg) && buffer.Length == At(alg.size, 16) && j < 16
    ensures w == HostWords(alg, buffer[..])[j]
  {
    var at := At(alg.size, j);
    assert buffer[at..at + alg.size] == Slot(alg.size, buffer[..], j);
    w := alg.host(buffer[at..at + alg.size]);
  }

  /** Where the transform reads its block: it may be the buffer itself. */
  ghost predicate Readable<W>(alg: Alg<W>, buffer: array<byte>, data: array<byte>, off: nat) {
    && buffer.Length == At(alg.size, 16) && off + At(alg.size, 16) <= data.Length
    && (data == buffer ==> off == 0)
  }

  ghost function Given<W>(alg: Alg<W>, buffer: array<byte>, data: array<byte>, off: nat): seq<byte>
    requires Readable(alg, buffer, data, off)
    reads data
  {
    data[off..off + At(alg.size, 16)]
  }

  /** Round j of a block can be fed: from the block while j < 16, from the ring afterwards. */
  ghost predicate Fed<W>(alg: Alg<W>, buffer: array<byte>, data: array<byte>, off: nat, block: seq<W>, j: nat)
    requires Readable(alg, buffer, data, off)
    reads buffer, data
  {
    Feeding(alg, block, HostWords(alg, buffer[..]), Words(alg, Given(alg, buffer, data, off)), j)
  }

  lemma FedAtStart<W>(alg: Alg<W>, buffer: array<byte>, data: array<byte>, off: nat)
    requires Readable(alg, buffer, data, off)
    ensures Fed(alg, buffer, data, off, Words(alg, Given(alg, buffer, data, off)), 0)
  {
    hide Feeding, HostWords, Words, Given, Readable;
    FeedStart(alg, Words(alg, Given(alg, buffer, data, off)), HostWords(alg, buffer[..]));
  }

  /** Word j of the block, turned into host order. */
  method GivenWord<W(!new)>(alg: Alg<W>, buffer: array<byte>, data: array<byte>, off: nat, j: nat) returns (w: W)
    requires LoadLaw(alg) && WordSize(alg) && Readable(alg, buffer, data, off) && j < 16
    ensures w == Words(alg, Given(alg, buffer, data, off))[j]
  {
    var at := off + At(alg.size, j);
    var b := data[at..at + alg.size];
    SliceOfSlice(data[..], off, At(alg.size, 16), At(alg.size, j), alg.size);
    assert b == data[..][at..at + alg.size] && Given(alg, buffer, data, off) == data[..][off..off + At(alg.size, 16)];
    assert b == Slot(alg.size, Given(alg, buffer, data, off), j);
    w := alg.reverse(alg.host(b));
  }

  /** Word j of the block goes into the ring. */
  method CopyWord<W(!new)>(alg: Alg<W>, buffer: array<byte>, data: array<byte>, off: nat, j: nat, ghost block: seq<W>)
    returns (w: W)
    requires StoreLaw(alg) && LoadLaw(alg) && WordSize(alg) && Readable(alg, buffer, data, off) && j < 16
    requires Fed(alg, buffer, data, off, block, j)
    modifies buffer
    ensures w == Schedule(alg, block, j)
    ensures Fed(alg, buffer, data, off, block, j + 1)
  {
    hide Feeding, Schedule, StoreLaw, LoadLaw, HostWords, Words, Stored;
    ghost var mem, given := buffer[..], Given(alg, buffer, data, off);
    w := GivenWord(alg, buffer, data, off, j);
    StoreWord(alg, buffer, j, w);
    StoredWords(alg, mem, j, w);
    assert Given(alg, buffer, data, off) == if data == buffer then Stored(alg, mem, j, w) else given;
    assert data == buffer ==> given == mem;
    FeedCopy(alg, block, HostWords(alg, mem), Words(alg, given), Words(alg, Given(alg, buffer, data, off)), j);
  }

  /** Word j of the schedule replaces the oldest word of the ring. */
  method ExpandWord<W(!new)>(alg: Alg<W>, buffer: array<byte>, data: array<byte>, off: nat, j: nat, ghost block: seq<W>)
    returns (w: W)
    requires SumLaws(alg) && StoreLaw(alg) && WordSize(alg) && Readable(alg, buffer, data, off) && 16 <= j
    requires Fed(alg, buffer, data, off, block, j)
    modifies buffer
    ensures w == Schedule(alg, block, j)
    ensures Fed(alg, buffer, data, off, block, j + 1)
  {
    hide Feeding, Schedule, StoreLaw, LoadLaw, SumLaws, HostWords, Words, Stored;
    ghost var mem, given := buffer[..], Given(alg, buffer, data, off);
    var s0 := LoadWord(alg, buffer, (j + 1) % 16);
    var s1 := LoadWord(alg, buffer, (j + 14) % 16);
    var w9 := LoadWord(alg, buffer, (j + 9) % 16);
    var w0 := LoadWord(alg, buffer, j % 16);
    w := alg.expandInPlace(s1, w9, s0, w0);
    assert w == RingWord(alg, HostWords(alg, mem), j);
    StoreWord(alg, buffer, j % 16, w);
    StoredWords(alg, mem, j % 16, w);
    FeedExpand(alg, block, HostWords(alg, mem), Words(alg, given), Words(alg, Given(alg, buffer, data, off)), j);
  }

  /** The message word of round j: copied while j < 16, afterwards made in the ring. */
  method NextWord<W(!new)>(alg: Alg<W>, buffer: array<byte>, data: array<byte>, off: nat, j: nat, ghost block: seq<W>)
    returns (w: W)
    requires Laws(alg) && Readable(alg, buffer, data, off)
    requires Fed(alg, buffer, data, off, block, j)
    modifies buffer
    ensures w == Schedule(alg, block, j)
    ensures Fed(alg, buffer, data, off, block, j + 1)
  {
    hide Fed, Schedule, SumLaws, StoreLaw, LoadLaw, DigestLaw, Given, Words;
    if j < 16 {
      w := CopyWord(alg, buffer, data, off, j, block);
    } else {
      w := ExpandWord(alg, buffer, data, off, j, block);
    }
  }

  /** The new intermediate hash value. */
  method AddState<W>(alg: Alg<W>, state: array<W>, r: Regs<W>)
    requires state.Length == 8
    modifies state
    ensures state[..] == AddRegs(alg, old(state[..]), r)
  {
    ghost var s0 := state[..];
    state[0], state[1], state[2], state[3] :=
      alg.add(state[0], r.a), alg.add(state[1], r.b), alg.add(state[2], r.c), alg.add(state[3], r.d);
    state[4], state[5], state[6], state[7] :=
      alg.add(state[4], r.e), alg.add(state[5], r.f), alg.add(state[6], r.g), alg.add(state[7], r.h);
    assert state[..] == AddRegs(alg, s0, r);
  }

  lemma NoRounds<W>(alg: Alg<W>, r: Regs<W>, block: seq<W>)
    requires |block| == 16
    ensures Rounds(alg, r, block, 0) == r
  {
  }
}
