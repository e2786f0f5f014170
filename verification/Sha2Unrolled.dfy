/** The compression function with unrolled rounds that rename registers instead of moving them. */
module Sha2Unrolled {
  import opened Sha2Core
  import opened Sha2Ring

  /** One macro call: overwrite d and h, leave the other registers where they are. */
  method Macro<W(!new)>(alg: Alg<W>, a: W, b: W, c: W, d: W, e: W, f: W, g: W, h: W, kt: W, wt: W,
                        ghost r0: Regs<W>, ghost block: seq<W>, ghost j: nat)
    returns (d': W, h': W)
    requires Laws(alg) && |block| == 16 && j < |alg.k|
    requires Regs(a, b, c, d, e, f, g, h) == Rounds(alg, r0, block, j)
      && kt == alg.k[j] && wt == Schedule(alg, block, j)
    ensures Regs(h', a, b, c, d', e, f, g) == Rounds(alg, r0, block, j + 1)
  {
    hide Schedule, StoreLaw, LoadLaw, DigestLaw;
    InPlaceThenRename(alg, Regs(a, b, c, d, e, f, g, h), kt, wt);
    var t1 := alg.t1(h, e, f, g, kt, wt);
    d' := alg.newE(d, t1);
    h' := alg.newAUnrolled(t1, a, b, c);
  }

  /** Eight unrolled rounds; after them every register is back under its own name. */
  method EightRounds<W(!new)>(alg: Alg<W>, r: Regs<W>, buffer: array<byte>, data: array<byte>, off: nat, j: nat,
                              ghost r0: Regs<W>, ghost block: seq<W>)
    returns (r': Regs<W>)
    requires Laws(alg) && Readable(alg, buffer, data, off) && |block| == 16
    requires Fed(alg, buffer, data, off, block, j)
    requires j + 8 <= |alg.k| && r == Rounds(alg, r0, block, j)
    modifies buffer
    ensures r' == Rounds(alg, r0, block, j + 8)
    ensures Fed(alg, buffer, data, off, block, j + 8)
  {
    hide Rounds, Schedule, Fed, Laws, Readable;
    var Regs(a, b, c, d, e, f, g, h) := r;
    var w := NextWord(alg, buffer, data, off, j, block);
    d, h := Macro(alg, a, b, c, d, e, f, g, h, alg.k[j], w, r0, block, j);
    w := NextWord(alg, buffer, data, off, j + 1, block);
    c, g := Macro(alg, h, a, b, c, d, e, f, g, alg.k[j + 1], w, r0, block, j + 1);
    w := NextWord(alg, buffer, data, off, j + 2, block);
    b, f := Macro(alg, g, h, a, b, c, d, e, f, alg.k[j + 2], w, r0, block, j + 2);
    w := NextWord(alg, buffer, data, off, j + 3, block);
    a, e := Macro(alg, f, g, h, a, b, c, d, e, alg.k[j + 3], w, r0, block, j + 3);
    w := NextWord(alg, buffer, data, off, j + 4, block);
    h, d := Macro(alg, e, f, g, h, a, b, c, d, alg.k[j + 4], w, r0, block, j + 4);
    w := NextWord(alg, buffer, data, off, j + 5, block);
    g, c := Macro(alg, d, e, f, g, h, a, b, c, alg.k[j + 5], w, r0, block, j + 5);
    w := NextWord(alg, buffer, data, off, j + 6, block);
    f, b := Macro(alg, c, d, e, f, g, h, a, b, alg.k[j + 6], w, r0, block, j + 6);
    w := NextWord(alg, buffer, data, off, j + 7, block);
    e, a := Macro(alg, b, c, d, e, f, g, h, a, alg.k[j + 7], w, r0, block, j + 7);
    r' := Regs(a, b, c, d, e, f, g, h);
  }

  /** All rounds, eight at a time: first those that copy, then those that expand. */
  method AllRounds<W(!new)>(alg: Alg<W>, r0: Regs<W>, buffer: array<byte>, data: array<byte>, off: nat)
    returns (r: Regs<W>)
    requires Laws(alg) && Readable(alg, buffer, data, off)
    modifies buffer
    ensures r == Rounds(alg, r0, Words(alg, old(Given(alg, buffer, data, off))), |alg.k|)
  {
    hide Rounds, Schedule, Fed, SumLaws, StoreLaw, LoadLaw, DigestLaw, Given, Words, Readable;
    ghost var block := Words(alg, Given(alg, buffer, data, off));
    r := r0;
    NoRounds(alg, r0, block);
    FedAtStart(alg, buffer, data, off);
    var j := 0;
    while j < |alg.k|
      invariant 0 <= j <= |alg.k| && j % 8 == 0
      invariant Fed(alg, buffer, data, off, block, j)
      invariant r == Rounds(alg, r0, block, j)
    {
      r := EightRounds(alg, r, buffer, data, off, j, r0, block);
      j := j + 8;
    }
  }

  /** The same compression as the rolled one. */
  method Transform<W(!new)>(alg: Alg<W>, state: array<W>, buffer: array<byte>, data: array<byte>, off: nat)
    requires Laws(alg) && state.Length == 8 && Readable(alg, buffer, data, off)
    requires (state as object) != (buffer as object) && (state as object) != (data as object)
    modifies state, buffer
    ensures state[..] == Compress(alg, old(state[..]), Words(alg, old(Given(alg, buffer, data, off))))
  {
    hide Rounds, Readable, Given, Words, AddRegs, SumLaws, StoreLaw, LoadLaw, DigestLaw;
    var r := AllRounds(alg, Regs(state[0], state[1], state[2], state[3], state[4], state[5], state[6], state[7]),
      buffer, data, off);
    AddState(alg, state, r);
  }
}
