/** The functions of SHA-256 as sections 4.1.2 and 6.2 of FIPS 180-4 describe them. */
module Sha256Standard {
  import opened Sha2Core
  import opened Sha256

  /** Where x has a one the bit is that of y, elsewhere that of z. */
  lemma ChIs(x: bv32, y: bv32, z: bv32)
    ensures x & Ch(x, y, z) == x & y && !x & Ch(x, y, z) == !x & z
  {
  }

  /** Where x and y agree the bit is theirs, elsewhere that of z. */
  lemma MajIs(x: bv32, y: bv32, z: bv32)
    ensures !(x ^ y) & Maj(x, y, z) == !(x ^ y) & x && (x ^ y) & Maj(x, y, z) == (x ^ y) & z
  {
  }

  lemma RotatedBy2(x: bv32, i: bv5)
    ensures (S32(2, x) >> i) & 1 == (x >> (i + 2)) & 1
  {
  }

  lemma RotatedBy6(x: bv32, i: bv5)
    ensures (S32(6, x) >> i) & 1 == (x >> (i + 6)) & 1
  {
  }

  lemma RotatedBy7(x: bv32, i: bv5)
    ensures (S32(7, x) >> i) & 1 == (x >> (i + 7)) & 1
  {
  }

  lemma RotatedBy11(x: bv32, i: bv5)
    ensures (S32(11, x) >> i) & 1 == (x >> (i + 11)) & 1
  {
  }

  lemma RotatedBy13(x: bv32, i: bv5)
    ensures (S32(13, x) >> i) & 1 == (x >> (i + 13)) & 1
  {
  }

  lemma RotatedBy17(x: bv32, i: bv5)
    ensures (S32(17, x) >> i) & 1 == (x >> (i + 17)) & 1
  {
  }

  lemma RotatedBy18(x: bv32, i: bv5)
    ensures (S32(18, x) >> i) & 1 == (x >> (i + 18)) & 1
  {
  }

  lemma RotatedBy19(x: bv32, i: bv5)
    ensures (S32(19, x) >> i) & 1 == (x >> (i + 19)) & 1
  {
  }

  lemma RotatedBy22(x: bv32, i: bv5)
    ensures (S32(22, x) >> i) & 1 == (x >> (i + 22)) & 1
  {
  }

  lemma RotatedBy25(x: bv32, i: bv5)
    ensures (S32(25, x) >> i) & 1 == (x >> (i + 25)) & 1
  {
  }

  /** S32 rotates to the right: bit i of the result is bit i + n of the word. */
  lemma RotationsAre(x: bv32, i: bv5)
    ensures (S32(2, x) >> i) & 1 == (x >> (i + 2)) & 1
    ensures (S32(6, x) >> i) & 1 == (x >> (i + 6)) & 1
    ensures (S32(7, x) >> i) & 1 == (x >> (i + 7)) & 1
    ensures (S32(11, x) >> i) & 1 == (x >> (i + 11)) & 1
    ensures (S32(13, x) >> i) & 1 == (x >> (i + 13)) & 1
    ensures (S32(17, x) >> i) & 1 == (x >> (i + 17)) & 1
    ensures (S32(18, x) >> i) & 1 == (x >> (i + 18)) & 1
    ensures (S32(19, x) >> i) & 1 == (x >> (i + 19)) & 1
    ensures (S32(22, x) >> i) & 1 == (x >> (i + 22)) & 1
    ensures (S32(25, x) >> i) & 1 == (x >> (i + 25)) & 1
  {
    hide S32;
    RotatedBy2(x, i);
    RotatedBy6(x, i);
    RotatedBy7(x, i);
    RotatedBy11(x, i);
    RotatedBy13(x, i);
    RotatedBy17(x, i);
    RotatedBy18(x, i);
    RotatedBy19(x, i);
    RotatedBy22(x, i);
    RotatedBy25(x, i);
  }

  lemma BigSigma0Is(x: bv32)
    ensures BigSigma0(x) == S32(2, x) ^ S32(13, x) ^ S32(22, x)
  {
    hide S32;
  }

  lemma BigSigma1Is(x: bv32)
    ensures BigSigma1(x) == S32(6, x) ^ S32(11, x) ^ S32(25, x)
  {
    hide S32;
  }

  lemma SmallSigma0Is(x: bv32)
    ensures SmallSigma0(x) == S32(7, x) ^ S32(18, x) ^ (x >> 3)
  {
    hide S32;
  }

  lemma SmallSigma1Is(x: bv32)
    ensures SmallSigma1(x) == S32(17, x) ^ S32(19, x) ^ (x >> 10)
  {
    hide S32;
  }

  /** The sums of a round. */
  lemma SumsAre(a: bv32, b: bv32, c: bv32, d: bv32, e: bv32, f: bv32, g: bv32, h: bv32,
                k: bv32, w: bv32, t1: bv32)
    ensures T1(h, e, f, g, k, w) == h + BigSigma1(e) + Ch(e, f, g) + k + w
    ensures NewA(t1, a, b, c) == t1 + (BigSigma0(a) + Maj(a, b, c)) && NewE(d, t1) == d + t1 && Add(a, b) == a + b
  {
    hide BigSigma0, BigSigma1, Ch, Maj;
  }

  /** One round: two registers are new, the others move on. */
  lemma RoundIs(r: Regs<bv32>, k: bv32, w: bv32)
    ensures var t1 := T1(r.h, r.e, r.f, r.g, k, w);
      Round(ALG, r, k, w) == Regs(NewA(t1, r.a, r.b, r.c), r.a, r.b, r.c, NewE(r.d, t1), r.e, r.f, r.g)
  {
    hide T1, NewA, NewE;
  }

  /** All rounds of a block: one for every constant, with the words of its schedule; then the
      registers are added to the hash value. */
  lemma RoundsAre(r: Regs<bv32>, block: seq<bv32>, t: nat)
    requires |block| == 16 && t < |K256|
    ensures Rounds(ALG, r, block, 0) == r
    ensures Rounds(ALG, r, block, t + 1) == Round(ALG, Rounds(ALG, r, block, t), K256[t], Schedule(ALG, block, t))
  {
    hide Round, Schedule;
  }

  lemma CompressIs(s: seq<bv32>, block: seq<bv32>)
    requires |s| == 8 && |block| == 16
    ensures |K256| == 64
    ensures var r := Rounds(ALG, Regs(s[0], s[1], s[2], s[3], s[4], s[5], s[6], s[7]), block, 64);
      Compress(ALG, s, block)
        == [Add(s[0], r.a), Add(s[1], r.b), Add(s[2], r.c), Add(s[3], r.d),
            Add(s[4], r.e), Add(s[5], r.f), Add(s[6], r.g), Add(s[7], r.h)]
  {
    hide Rounds, Add;
  }

  /** The message schedule. */
  lemma ScheduleIs(block: seq<bv32>, t: nat)
    requires |block| == 16
    ensures t < 16 ==> Schedule(ALG, block, t) == block[t]
    ensures t >= 16 ==>
      Schedule(ALG, block, t) == Expand(Schedule(ALG, block, t - 2), Schedule(ALG, block, t - 7),
                                        Schedule(ALG, block, t - 15), Schedule(ALG, block, t - 16))
  {
    hide Expand;
  }

  lemma ExpandIs(w2: bv32, w7: bv32, w15: bv32, w16: bv32)
    ensures Expand(w2, w7, w15, w16) == SmallSigma1(w2) + w7 + SmallSigma0(w15) + w16
  {
    hide SmallSigma0, SmallSigma1;
  }

}
