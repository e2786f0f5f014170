/** The SHA-2 family by its definition (FIPS 180-4), over any word type, and the two
    shapes of the compression loop: a 16-word ring instead of the whole message
    schedule, and unrolled rounds that rename registers instead of moving them. */
module Sha2Core {

  type byte = bv8

  /** The word operations: the sums of section 6.2.2 (6.4.2) with the functions of
      section 4.1 inside them, next to the same sums in the order the code adds them up;
      the constants of section 4.2; and how words lie in memory. */
  datatype Alg<!W> = Alg(
    /** h + Sigma1(e) + Ch(e, f, g) + k + w, from (h, e, f, g, k, w). */
    t1: (W, W, W, W, W, W) -> W,
    /** t1 + (Sigma0(a) + Maj(a, b, c)), from (t1, a, b, c). */
    newA: (W, W, W, W) -> W,
    /** (t1 + Sigma0(a)) + Maj(a, b, c). */
    newAUnrolled: (W, W, W, W) -> W,
    /** d + t1. */
    newE: (W, W) -> W,
    /** sigma1(w2) + w7 + sigma0(w15) + w16, from (w2, w7, w15, w16). */
    expand: (W, W, W, W) -> W,
    /** w16 + (sigma1(w2) + w7 + sigma0(w15)). */
    expandInPlace: (W, W, W, W) -> W,
    add: (W, W) -> W,
    k: seq<W>,
    /** Bytes in a word. */
    size: nat,
    /** The word the host reads from memory, and the memory it writes. */
    host: seq<byte> -> W,
    store: W -> seq<byte>,
    /** The byte-swapping macro. */
    reverse: W -> W,
    /** The word of section 3.1: most significant byte first. */
    bigEndian: seq<byte> -> W,
    bigEndianBytes: W -> seq<byte>)

  /** What is stored can be loaded again. */
  ghost predicate StoreLaw<W(!new)>(alg: Alg<W>) {
    forall w :: |alg.store(w)| == alg.size && alg.host(alg.store(w)) == w
  }

  /** The macro makes a loaded word big-endian. */
  ghost predicate LoadLaw<W(!new)>(alg: Alg<W>) {
    forall b :: |b| == alg.size ==> alg.reverse(alg.host(b)) == alg.bigEndian(b)
  }

  /** And a word that is about to be stored. */
  ghost predicate DigestLaw<W(!new)>(alg: Alg<W>) {
    forall w :: alg.store(alg.reverse(w)) == alg.bigEndianBytes(w)
  }

  /** Regrouping and reordering a sum of words does not change it. */
  ghost predicate SumLaws<W(!new)>(alg: Alg<W>) {
    && (forall t, a, b, c :: alg.newAUnrolled(t, a, b, c) == alg.newA(t, a, b, c))
    && (forall w2, w7, w15, w16 :: alg.expandInPlace(w2, w7, w15, w16) == alg.expand(w2, w7, w15, w16))
  }

  predicate WordSize<W>(alg: Alg<W>) { alg.size == 4 || alg.size == 8 }

  ghost predicate Laws<W(!new)>(alg: Alg<W>) {
    && SumLaws(alg) && StoreLaw(alg) && LoadLaw(alg) && DigestLaw(alg)
    && WordSize(alg) && |alg.k| >= 16 && |alg.k| % 8 == 0
  }

  /** Where word j starts. */
  function At(size: nat, j: nat): nat { if size == 4 then 4 * j else 8 * j }

  /** Word j of a piece of memory, as bytes. */
  function Slot(size: nat, mem: seq<byte>, j: nat): seq<byte> {
    if At(size, j) + size <= |mem| then mem[At(size, j)..At(size, j) + size] else []
  }

  /** A block of bytes parsed into 16 words (section 5.2). */
  function Words<W>(alg: Alg<W>, mem: seq<byte>): (w: seq<W>)
    ensures |w| == 16
  {
    seq(16, j requires 0 <= j < 16 => alg.bigEndian(Slot(alg.size, mem, j)))
  }

  /** The same memory as 16 words in host order. */
  function HostWords<W>(alg: Alg<W>, mem: seq<byte>): (w: seq<W>)
    ensures |w| == 16
  {
    seq(16, j requires 0 <= j < 16 => alg.host(Slot(alg.size, mem, j)))
  }

  datatype Regs<W> = Regs(a: W, b: W, c: W, d: W, e: W, f: W, g: W, h: W)

  // ----- sections 6.2.2 and 6.4.2

  /** Word t of the message schedule. */
  function Schedule<W>(alg: Alg<W>, block: seq<W>, t: nat): W
    requires |block| == 16
  {
    if t < 16 then block[t]
    else alg.expand(Schedule(alg, block, t - 2), Schedule(alg, block, t - 7),
                    Schedule(alg, block, t - 15), Schedule(alg, block, t - 16))
  }

  /** One round of the compression function. */
  function Round<W>(alg: Alg<W>, r: Regs<W>, kt: W, wt: W): Regs<W> {
    var t1 := alg.t1(r.h, r.e, r.f, r.g, kt, wt);
    Regs(alg.newA(t1, r.a, r.b, r.c), r.a, r.b, r.c, alg.newE(r.d, t1), r.e, r.f, r.g)
  }

  /** The working variables after the first n rounds. */
  function Rounds<W>(alg: Alg<W>, r: Regs<W>, block: seq<W>, n: nat): Regs<W>
    requires |block| == 16 && n <= |alg.k|
  {
    if n == 0 then r else Round(alg, Rounds(alg, r, block, n - 1), alg.k[n - 1], Schedule(alg, block, n - 1))
  }

  function ToRegs<W>(s: seq<W>): Regs<W>
    requires |s| == 8
  {
    Regs(s[0], s[1], s[2], s[3], s[4], s[5], s[6], s[7])
  }

  function AddRegs<W>(alg: Alg<W>, s: seq<W>, r: Regs<W>): (h: seq<W>)
    requires |s| == 8
    ensures |h| == 8
  {
    [alg.add(s[0], r.a), alg.add(s[1], r.b), alg.add(s[2], r.c), alg.add(s[3], r.d),
     alg.add(s[4], r.e), alg.add(s[5], r.f), alg.add(s[6], r.g), alg.add(s[7], r.h)]
  }

  /** The next intermediate hash value. */
  function Compress<W>(alg: Alg<W>, s: seq<W>, block: seq<W>): (h: seq<W>)
    requires |s| == 8 && |block| == 16
    ensures |h| == 8
  {
    AddRegs(alg, s, Rounds(alg, ToRegs(s), block, |alg.k|))
  }

  // ----- the ring

  /** Before step t the ring holds the 16 schedule words in front of word t. */
  ghost predicate Ring<W>(alg: Alg<W>, block: seq<W>, ring: seq<W>, t: nat)
    requires |block| == 16
  {
    |ring| == 16 && t >= 16 && forall j :: t - 16 <= j < t ==> ring[j % 16] == Schedule(alg, block, j)
  }

  /** The word that replaces ring entry t % 16, in the order the code adds it up. */
  function RingWord<W>(alg: Alg<W>, ring: seq<W>, t: nat): W
    requires |ring| == 16
  {
    alg.expandInPlace(ring[(t + 14) % 16], ring[(t + 9) % 16], ring[(t + 1) % 16], ring[t % 16])
  }

  lemma RingFull<W>(alg: Alg<W>, block: seq<W>)
    requires |block| == 16
    ensures Ring(alg, block, block, 16)
  {
  }

  lemma RingWordIsNext<W(!new)>(alg: Alg<W>, block: seq<W>, ring: seq<W>, t: nat)
    requires |block| == 16 && SumLaws(alg) && Ring(alg, block, ring, t)
    ensures RingWord(alg, ring, t) == Schedule(alg, block, t)
  {
    RingIndex(t);
    assert ring[(t - 16) % 16] == Schedule(alg, block, t - 16) && ring[(t - 2) % 16] == Schedule(alg, block, t - 2);
    assert ring[(t - 7) % 16] == Schedule(alg, block, t - 7) && ring[(t - 15) % 16] == Schedule(alg, block, t - 15);
  }

  /** Sixteen entries are enough: the replaced entry is exactly the next schedule word. */
  lemma RingStep<W(!new)>(alg: Alg<W>, block: seq<W>, ring: seq<W>, t: nat)
    requires |block| == 16 && SumLaws(alg) && Ring(alg, block, ring, t)
    ensures RingWord(alg, ring, t) == Schedule(alg, block, t)
    ensures Ring(alg, block, ring[t % 16 := RingWord(alg, ring, t)], t + 1)
  {
    hide Schedule, SumLaws, RingWord;
    RingWordIsNext(alg, block, ring, t);
    var ring' := ring[t % 16 := RingWord(alg, ring, t)];
    forall j | t + 1 - 16 <= j < t + 1 ensures ring'[j % 16] == Schedule(alg, block, j) {
      if j < t {
        RingApart(j, t);
        assert ring[j % 16] == Schedule(alg, block, j);
      }
    }
  }

  lemma RingIndex(t: nat)
    requires t >= 16
    ensures t % 16 == (t - 16) % 16 && (t + 14) % 16 == (t - 2) % 16
      && (t + 9) % 16 == (t - 7) % 16 && (t + 1) % 16 == (t - 15) % 16
  {
  }

  lemma RingApart(j: nat, t: nat)
    requires t - 16 < j < t
    ensures j % 16 != t % 16
  {
  }

  /** Before round j: the words not yet copied are still in `data`, the others are in the
      ring; from round 16 on the ring holds the last 16 schedule words. */
  ghost predicate Feeding<W>(alg: Alg<W>, block: seq<W>, ring: seq<W>, data: seq<W>, j: nat) {
    |block| == |ring| == |data| == 16 &&
    if j < 16 then ring[..j] == block[..j] && data[j..] == block[j..] else Ring(alg, block, ring, j)
  }

  lemma FeedStart<W>(alg: Alg<W>, block: seq<W>, ring: seq<W>)
    requires |block| == |ring| == 16
    ensures Feeding(alg, block, ring, block, 0)
  {
  }

  /** Copying word j, even over the place it was read from. */
  lemma FeedCopy<W>(alg: Alg<W>, block: seq<W>, ring: seq<W>, data: seq<W>, data': seq<W>, j: nat)
    requires Feeding(alg, block, ring, data, j) && j < 16
    requires |data'| == 16 && data'[j + 1..] == data[j + 1..]
    ensures data[j] == Schedule(alg, block, j)
    ensures Feeding(alg, block, ring[j := data[j]], data', j + 1)
  {
    var ring' := ring[j := data[j]];
    assert data[j..][0] == block[j..][0];
    assert ring'[..j + 1] == ring[..j] + [data[j]] && block[..j + 1] == block[..j] + [block[j]];
    assert data[j + 1..] == data[j..][1..] && block[j + 1..] == block[j..][1..];
    if j == 15 {
      assert ring' == ring'[..16] == block[..16] == block;
      RingFull(alg, block);
    }
  }

  /** Making word j in the ring. */
  lemma FeedExpand<W(!new)>(alg: Alg<W>, block: seq<W>, ring: seq<W>, data: seq<W>, data': seq<W>, j: nat)
    requires SumLaws(alg) && Feeding(alg, block, ring, data, j) && j >= 16 && |data'| == 16
    ensures RingWord(alg, ring, j) == Schedule(alg, block, j)
    ensures Feeding(alg, block, ring[j % 16 := RingWord(alg, ring, j)], data', j + 1)
  {
    hide SumLaws, Schedule;
    RingStep(alg, block, ring, j);
  }

  // ----- the unrolled rounds

  /** The unrolled round: registers stay where they are, d and h are overwritten. */
  function RoundInPlace<W>(alg: Alg<W>, r: Regs<W>, kt: W, wt: W): Regs<W> {
    var t1 := alg.t1(r.h, r.e, r.f, r.g, kt, wt);
    r.(d := alg.newE(r.d, t1), h := alg.newAUnrolled(t1, r.a, r.b, r.c))
  }

  /** The renaming of the next macro call: what was h is now called a, and so on. */
  function Rename<W>(r: Regs<W>): Regs<W> { Regs(r.h, r.a, r.b, r.c, r.d, r.e, r.f, r.g) }

  /** Overwriting and renaming is the round of the definition. */
  lemma InPlaceThenRename<W(!new)>(alg: Alg<W>, r: Regs<W>, kt: W, wt: W)
    requires SumLaws(alg)
    ensures Rename(RoundInPlace(alg, r, kt, wt)) == Round(alg, r, kt, wt)
  {
  }
}
