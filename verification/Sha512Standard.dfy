/** The functions of SHA-512 as sections 4.1.3 and 6.4 of FIPS 180-4 describe them. */
module Sha512Standard {
  import opened Sha2Core
  import opened Sha512

  /** Where x has a one the bit is that of y, elsewhere that of z. */
  lemma ChIs(x: bv64, y: bv64, z: bv64)
    ensures x & Ch(x, y, z) == x & y && !x & Ch(x, y, z) == !x & z
  {
  }

  /** Where x and y agree the bit is theirs, elsewhere that of z. */
  lemma MajIs(x: bv64, y: bv64, z: bv64)
    ensures !(x ^ y) & Maj(x, y, z) == !(x ^ y) & x && (x ^ y) & Maj(x, y, z) == (x ^ y) & z
  {
  }

  lemma RotatedBy1(x: bv64, i: bv6)
    ensures (S64(1, x) >> i) & 1 == (x >> (i + 1)) & 1
  {
  }

  lemma RotatedBy8(x: bv64, i: bv6)
    ensures (S64(8, x) >> i) & 1 == (x >> (i + 8)) & 1
  {
  }

  lemma RotatedBy14(x: bv64, i: bv6)
    ensures (S64(14, x) >> i) & 1 == (x >> (i + 14)) & 1
  {
  }

  lemma RotatedBy18(x: bv64, i: bv6)
    ensures (S64(18, x) >> i) & 1 == (x >> (i + 18)) & 1
  {
  }

  lemma RotatedBy19(x: bv64, i: bv6)
    ensures (S64(19, x) >> i) & 1 == (x >> (i + 19)) & 1
  {
  }

  lemma RotatedBy28(x: bv64, i: bv6)
    ensures (S64(28, x) >> i) & 1 == (x >> (i + 28)) & 1
  {
  }

  lemma RotatedBy34(x: bv64, i: bv6)
    ensures (S64(34, x) >> i) & 1 == (x >> (i + 34)) & 1
  {
  }

  lemma RotatedBy39(x: bv64, i: bv6)
    ensures (S64(39, x) >> i) & 1 == (x >> (i + 39)) & 1
  {
  }

  lemma RotatedBy41(x: bv64, i: bv6)
    ensures (S64(41, x) >> i) & 1 == (x >> (i + 41)) & 1
  {
  }

  lemma RotatedBy61(x: bv64, i: bv6)
    ensures (S64(61, x) >> i) & 1 == (x >> (i + 61)) & 1
  {
  }

  /** S64 rotates to the right: bit i of the result is bit i + n of the word. */
  lemma RotationsAre(x: bv64, i: bv6)
    ensures (S64(1, x) >> i) & 1 == (x >> (i + 1)) & 1
    ensures (S64(8, x) >> i) & 1 == (x >> (i + 8)) & 1
    ensures (S64(14, x) >> i) & 1 == (x >> (i + 14)) & 1
    ensures (S64(18, x) >> i) & 1 == (x >> (i + 18)) & 1
    ensures (S64(19, x) >> i) & 1 == (x >> (i + 19)) & 1
    ensures (S64(28, x) >> i) & 1 == (x >> (i + 28)) & 1
    ensures (S64(34, x) >> i) & 1 == (x >> (i + 34)) & 1
    ensures (S64(39, x) >> i) & 1 == (x >> (i + 39)) & 1
    ensures (S64(41, x) >> i) & 1 == (x >> (i + 41)) & 1
    ensures (S64(61, x) >> i) & 1 == (x >> (i + 61)) & 1
  {
    hide S64;
    RotatedBy1(x, i);
    RotatedBy8(x, i);
    RotatedBy14(x, i);
    RotatedBy18(x, i);
    RotatedBy19(x, i);
    RotatedBy28(x, i);
    RotatedBy34(x, i);
    RotatedBy39(x, i);
    RotatedBy41(x, i);
    RotatedBy61(x, i);
  }

  lemma BigSigma0Is(x: bv64)
    ensures BigSigma0(x) == S64(28, x) ^ S64(34, x) ^ S64(39, x)
  {
    hide S64;
  }

  lemma BigSigma1Is(x: bv64)
    ensures BigSigma1(x) == S64(14, x) ^ S64(18, x) ^ S64(41, x)
  {
    hide S64;
  }

  lemma SmallSigma0Is(x: bv64)
    ensures SmallSigma0(x) == S64(1, x) ^ S64(8, x) ^ (x >> 7)
  {
    hide S64;
  }

  lemma SmallSigma1Is(x: bv64)
    ensures SmallSigma1(x) == S64(19, x) ^ S64(61, x) ^ (x >> 6)
  {
    hide S64;
  }

  /** The sums of a round. */
  lemma SumsAre(a: bv64, b: bv64, c: bv64, d: bv64, e: bv64, f: bv64, g: bv64, h: bv64,
                k: bv64, w: bv64, t1: bv64)
    ensures T1(h, e, f, g, k, w) == h + BigSigma1(e) + Ch(e, f, g) + k + w
    ensures NewA(t1, a, b, c) == t1 + (BigSigma0(a) + Maj(a, b, c)) && NewE(d, t1) == d + t1 && Add(a, b) == a + b
  {
    hide BigSigma0, BigSigma1, Ch, Maj;
  }

  /** One round: two registers are new, the others move on. */
  lemma RoundIs(r: Regs<bv64>, k: bv64, w: bv64)
    ensures var t1 := T1(r.h, r.e, r.f, r.g, k, w);
      Round(ALG, r, k, w) == Regs(NewA(t1, r.a, r.b, r.c), r.a, r.b, r.c, NewE(r.d, t1), r.e, r.f, r.g)
  {
    hide T1, NewA, NewE;
  }

  /** All rounds of a block: one for every constant, with the words of its schedule; then the
      registers are added to the hash value. */
  lemma RoundsAre(r: Regs<bv64>, block: seq<bv64>, t: nat)
    requires |block| == 16 && t < |K512|
    ensures Rounds(ALG, r, block, 0) == r
    ensures Rounds(ALG, r, block, t + 1) == Round(ALG, Rounds(ALG, r, block, t), K512[t], Schedule(ALG, block, t))
  {
    hide Round, Schedule;
  }

  lemma CompressIs(s: seq<bv64>, block: seq<bv64>)
    requires |s| == 8 && |block| == 16
    ensures |K512| == 80
    ensures var r := Rounds(ALG, Regs(s[0], s[1], s[2], s[3], s[4], s[5], s[6], s[7]), block, 80);
      Compress(ALG, s, block)
        == [Add(s[0], r.a), Add(s[1], r.b), Add(s[2], r.c), Add(s[3], r.d),
            Add(s[4], r.e), Add(s[5], r.f), Add(s[6], r.g), Add(s[7], r.h)]
  {
    hide Rounds, Add;
  }

  /** The message schedule. */
  lemma ScheduleIs(block: seq<bv64>, t: nat)
    requires |block| == 16
    ensures t < 16 ==> Schedule(ALG, block, t) == block[t]
    ensures t >= 16 ==>
      Schedule(ALG, block, t) == Expand(Schedule(ALG, block, t - 2), Schedule(ALG, block, t - 7),
                                        Schedule(ALG, block, t - 15), Schedule(ALG, block, t - 16))
  {
    hide Expand;
  }

  lemma ExpandIs(w2: bv64, w7: bv64, w15: bv64, w16: bv64)
    ensures Expand(w2, w7, w15, w16) == SmallSigma1(w2) + w7 + SmallSigma0(w15) + w16
  {
    hide SmallSigma0, SmallSigma1;
  }

}
