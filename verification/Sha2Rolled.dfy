/** The compression function with rolled loops. */
module Sha2Rolled {
  import opened Sha2Core
  import opened Sha2Ring

  /** One round: every register moves on by one place. */
  method OneRound<W>(alg: Alg<W>, r: Regs<W>, kt: W, wt: W) returns (r': Regs<W>)
    ensures r' == Round(alg, r, kt, wt)
  {
    var Regs(a, b, c, d, e, f, g, h) := r;
    var t1 := alg.t1(h, e, f, g, kt, wt);
    var newA := alg.newA(t1, a, b, c);
    h := g;
    g := f;
    f := e;
    e := alg.newE(d, t1);
    d := c;
    c := b;
    b := a;
    a := newA;
    r' := Regs(a, b, c, d, e, f, g, h);
  }

  method AllRounds<W(!new)>(alg: Alg<W>, r0: Regs<W>, buffer: array<byte>, data: array<byte>, off: nat)
    returns (r: Regs<W>)
    requires Laws(alg) && Readable(alg, buffer, data, off)
    modifies buffer
    ensures r == Rounds(alg, r0, Words(alg, old(Given(alg, buffer, data, off))), |alg.k|)
  {
    hide Fed, Schedule, SumLaws, StoreLaw, LoadLaw, DigestLaw, Given, Words, Round, Readable;
    ghost var block := Words(alg, Given(alg, buffer, data, off));
    FedAtStart(alg, buffer, data, off);
    r := r0;
    var j := 0;
    while j < |alg.k|
      invariant 0 <= j <= |alg.k|
      invariant Fed(alg, buffer, data, off, block, j)
      invariant r == Rounds(alg, r0, block, j)
    {
      var w := NextWord(alg, buffer, data, off, j, block);
      r := OneRound(alg, r, alg.k[j], w);
      j := j + 1;
    }
  }

  /** The compression of one block; the block may lie in the buffer that becomes the ring. */
  method Transform<W(!new)>(alg: Alg<W>, state: array<W>, buffer: array<byte>, data: array<byte>, off: nat)
    requires Laws(alg) && state.Length == 8 && Readable(alg, buffer, data, off)
    requires (state as object) != (buffer as object) && (state as object) != (data as object)
    modifies state, buffer
    ensures state[..] == Compress(alg, old(state[..]), Words(alg, old(Given(alg, buffer, data, off))))
  {
    hide Rounds, Readable, Given, Words, AddRegs, SumLaws, StoreLaw, LoadLaw, DigestLaw;
    var r := AllRounds(alg, Regs(state[0], state[1], state[2], state[3], state[4], state[5], state[6], state[7]),
      buffer, data, off);
    AddState(alg, state, r);
  }
}
