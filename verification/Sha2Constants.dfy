/** Where the constants of the SHA-2 family come from (sections 4.2 and 5.3 of FIPS 180-4):
    they are the first fractional bits of roots of prime numbers. */
module Sha2Constants {
  import Sha256
  import Sha512

  const TWO_32: nat := 0x1_0000_0000
  const TWO_64: nat := 0x1_0000_0000_0000_0000

  // the first eighty prime numbers

  const PRIMES_0: seq<nat> := [2, 3, 5, 7, 11, 13, 17, 19]

  const PRIMES_1: seq<nat> := [23, 29, 31, 37, 41, 43, 47, 53]

  const PRIMES_2: seq<nat> := [59, 61, 67, 71, 73, 79, 83, 89]

  const PRIMES_3: seq<nat> := [97, 101, 103, 107, 109, 113, 127, 131]

  const PRIMES_4: seq<nat> := [137, 139, 149, 151, 157, 163, 167, 173]

  const PRIMES_5: seq<nat> := [179, 181, 191, 193, 197, 199, 211, 223]

  const PRIMES_6: seq<nat> := [227, 229, 233, 239, 241, 251, 257, 263]

  const PRIMES_7: seq<nat> := [269, 271, 277, 281, 283, 293, 307, 311]

  const PRIMES_8: seq<nat> := [313, 317, 331, 337, 347, 349, 353, 359]

  const PRIMES_9: seq<nat> := [367, 373, 379, 383, 389, 397, 401, 409]

  const PRIMES: seq<nat> :=
    PRIMES_0 + PRIMES_1 + PRIMES_2 + PRIMES_3 + PRIMES_4 + PRIMES_5 + PRIMES_6 + PRIMES_7 + PRIMES_8 + PRIMES_9

  /** m and the bits k behind the point are the root of p, cut off. */
  predicate CubeCut(m: nat, k: nat, p: nat, unit: nat) {
    var x := m * unit + k;
    k < unit && x * x * x <= p * unit * unit * unit < (x + 1) * (x + 1) * (x + 1)
  }

  predicate SquareCut(m: nat, k: nat, p: nat, unit: nat) {
    var x := m * unit + k;
    k < unit && x * x <= p * unit * unit < (x + 1) * (x + 1)
  }

  ghost predicate CubeRootBits(k: nat, p: nat, unit: nat) { exists m: nat :: CubeCut(m, k, p, unit) }

  ghost predicate SquareRootBits(k: nat, p: nat, unit: nat) { exists m: nat :: SquareCut(m, k, p, unit) }

  lemma Cube(m: nat, k: nat, p: nat, unit: nat)
    requires CubeCut(m, k, p, unit)
    ensures CubeRootBits(k, p, unit)
  {
  }

  lemma Square(m: nat, k: nat, p: nat, unit: nat)
    requires SquareCut(m, k, p, unit)
    ensures SquareRootBits(k, p, unit)
  {
  }

  lemma Constants256Row0First()
    ensures |Sha256.ROW_0| == |PRIMES_0| == 8
    ensures forall i :: 0 <= i < 4 ==> CubeRootBits(Sha256.ROW_0[i] as nat, PRIMES_0[i], TWO_32)
  {
    hide CubeRootBits;
    Cube(1, Sha256.ROW_0[0] as nat, PRIMES_0[0], TWO_32);
    Cube(1, Sha256.ROW_0[1] as nat, PRIMES_0[1], TWO_32);
    Cube(1, Sha256.ROW_0[2] as nat, PRIMES_0[2], TWO_32);
    Cube(1, Sha256.ROW_0[3] as nat, PRIMES_0[3], TWO_32);
  }

  lemma Constants256Row0Last()
    ensures |Sha256.ROW_0| == |PRIMES_0| == 8
    ensures forall i :: 4 <= i < 8 ==> CubeRootBits(Sha256.ROW_0[i] as nat, PRIMES_0[i], TWO_32)
  {
    hide CubeRootBits;
    Cube(2, Sha256.ROW_0[4] as nat, PRIMES_0[4], TWO_32);
    Cube(2, Sha256.ROW_0[5] as nat, PRIMES_0[5], TWO_32);
    Cube(2, Sha256.ROW_0[6] as nat, PRIMES_0[6], TWO_32);
    Cube(2, Sha256.ROW_0[7] as nat, PRIMES_0[7], TWO_32);
  }

  lemma Constants256Row1First()
    ensures |Sha256.ROW_1| == |PRIMES_1| == 8
    ensures forall i :: 0 <= i < 4 ==> CubeRootBits(Sha256.ROW_1[i] as nat, PRIMES_1[i], TWO_32)
  {
    hide CubeRootBits;
    Cube(2, Sha256.ROW_1[0] as nat, PRIMES_1[0], TWO_32);
    Cube(3, Sha256.ROW_1[1] as nat, PRIMES_1[1], TWO_32);
    Cube(3, Sha256.ROW_1[2] as nat, PRIMES_1[2], TWO_32);
    Cube(3, Sha256.ROW_1[3] as nat, PRIMES_1[3], TWO_32);
  }

  lemma Constants256Row1Last()
    ensures |Sha256.ROW_1| == |PRIMES_1| == 8
    ensures forall i :: 4 <= i < 8 ==> CubeRootBits(Sha256.ROW_1[i] as nat, PRIMES_1[i], TWO_32)
  {
    hide CubeRootBits;
    Cube(3, Sha256.ROW_1[4] as nat, PRIMES_1[4], TWO_32);
    Cube(3, Sha256.ROW_1[5] as nat, PRIMES_1[5], TWO_32);
    Cube(3, Sha256.ROW_1[6] as nat, PRIMES_1[6], TWO_32);
    Cube(3, Sha256.ROW_1[7] as nat, PRIMES_1[7], TWO_32);
  }

  lemma Constants256Row2First()
    ensures |Sha256.ROW_2| == |PRIMES_2| == 8
    ensures forall i :: 0 <= i < 4 ==> CubeRootBits(Sha256.ROW_2[i] as nat, PRIMES_2[i], TWO_32)
  {
    hide CubeRootBits;
    Cube(3, Sha256.ROW_2[0] as nat, PRIMES_2[0], TWO_32);
    Cube(3, Sha256.ROW_2[1] as nat, PRIMES_2[1], TWO_32);
    Cube(4, Sha256.ROW_2[2] as nat, PRIMES_2[2], TWO_32);
    Cube(4, Sha256.ROW_2[3] as nat, PRIMES_2[3], TWO_32);
  }

  lemma Constants256Row2Last()
    ensures |Sha256.ROW_2| == |PRIMES_2| == 8
    ensures forall i :: 4 <= i < 8 ==> CubeRootBits(Sha256.ROW_2[i] as nat, PRIMES_2[i], TWO_32)
  {
    hide CubeRootBits;
    Cube(4, Sha256.ROW_2[4] as nat, PRIMES_2[4], TWO_32);
    Cube(4, Sha256.ROW_2[5] as nat, PRIMES_2[5], TWO_32);
    Cube(4, Sha256.ROW_2[6] as nat, PRIMES_2[6], TWO_32);
    Cube(4, Sha256.ROW_2[7] as nat, PRIMES_2[7], TWO_32);
  }

  lemma Constants256Row3First()
    ensures |Sha256.ROW_3| == |PRIMES_3| == 8
    ensures forall i :: 0 <= i < 4 ==> CubeRootBits(Sha256.ROW_3[i] as nat, PRIMES_3[i], TWO_32)
  {
    hide CubeRootBits;
    Cube(4, Sha256.ROW_3[0] as nat, PRIMES_3[0], TWO_32);
    Cube(4, Sha256.ROW_3[1] as nat, PRIMES_3[1], TWO_32);
    Cube(4, Sha256.ROW_3[2] as nat, PRIMES_3[2], TWO_32);
    Cube(4, Sha256.ROW_3[3] as nat, PRIMES_3[3], TWO_32);
  }

  lemma Constants256Row3Last()
    ensures |Sha256.ROW_3| == |PRIMES_3| == 8
    ensures forall i :: 4 <= i < 8 ==> CubeRootBits(Sha256.ROW_3[i] as nat, PRIMES_3[i], TWO_32)
  {
    hide CubeRootBits;
    Cube(4, Sha256.ROW_3[4] as nat, PRIMES_3[4], TWO_32);
    Cube(4, Sha256.ROW_3[5] as nat, PRIMES_3[5], TWO_32);
    Cube(5, Sha256.ROW_3[6] as nat, PRIMES_3[6], TWO_32);
    Cube(5, Sha256.ROW_3[7] as nat, PRIMES_3[7], TWO_32);
  }

  lemma Constants256Row4First()
    ensures |Sha256.ROW_4| == |PRIMES_4| == 8
    ensures forall i :: 0 <= i < 4 ==> CubeRootBits(Sha256.ROW_4[i] as nat, PRIMES_4[i], TWO_32)
  {
    hide CubeRootBits;
    Cube(5, Sha256.ROW_4[0] as nat, PRIMES_4[0], TWO_32);
    Cube(5, Sha256.ROW_4[1] as nat, PRIMES_4[1], TWO_32);
    Cube(5, Sha256.ROW_4[2] as nat, PRIMES_4[2], TWO_32);
    Cube(5, Sha256.ROW_4[3] as nat, PRIMES_4[3], TWO_32);
  }

  lemma Constants256Row4Last()
    ensures |Sha256.ROW_4| == |PRIMES_4| == 8
    ensures forall i :: 4 <= i < 8 ==> CubeRootBits(Sha256.ROW_4[i] as nat, PRIMES_4[i], TWO_32)
  {
    hide CubeRootBits;
    Cube(5, Sha256.ROW_4[4] as nat, PRIMES_4[4], TWO_32);
    Cube(5, Sha256.ROW_4[5] as nat, PRIMES_4[5], TWO_32);
    Cube(5, Sha256.ROW_4[6] as nat, PRIMES_4[6], TWO_32);
    Cube(5, Sha256.ROW_4[7] as nat, PRIMES_4[7], TWO_32);
  }

  lemma Constants256Row5First()
    ensures |Sha256.ROW_5| == |PRIMES_5| == 8
    ensures forall i :: 0 <= i < 4 ==> CubeRootBits(Sha256.ROW_5[i] as nat, PRIMES_5[i], TWO_32)
  {
    hide CubeRootBits;
    Cube(5, Sha256.ROW_5[0] as nat, PRIMES_5[0], TWO_32);
    Cube(5, Sha256.ROW_5[1] as nat, PRIMES_5[1], TWO_32);
    Cube(5, Sha256.ROW_5[2] as nat, PRIMES_5[2], TWO_32);
    Cube(5, Sha256.ROW_5[3] as nat, PRIMES_5[3], TWO_32);
  }

  lemma Constants256Row5Last()
    ensures |Sha256.ROW_5| == |PRIMES_5| == 8
    ensures forall i :: 4 <= i < 8 ==> CubeRootBits(Sha256.ROW_5[i] as nat, PRIMES_5[i], TWO_32)
  {
    hide CubeRootBits;
    Cube(5, Sha256.ROW_5[4] as nat, PRIMES_5[4], TWO_32);
    Cube(5, Sha256.ROW_5[5] as nat, PRIMES_5[5], TWO_32);
    Cube(5, Sha256.ROW_5[6] as nat, PRIMES_5[6], TWO_32);
    Cube(6, Sha256.ROW_5[7] as nat, PRIMES_5[7], TWO_32);
  }

  lemma Constants256Row6First()
    ensures |Sha256.ROW_6| == |PRIMES_6| == 8
    ensures forall i :: 0 <= i < 4 ==> CubeRootBits(Sha256.ROW_6[i] as nat, PRIMES_6[i], TWO_32)
  {
    hide CubeRootBits;
    Cube(6, Sha256.ROW_6[0] as nat, PRIMES_6[0], TWO_32);
    Cube(6, Sha256.ROW_6[1] as nat, PRIMES_6[1], TWO_32);
    Cube(6, Sha256.ROW_6[2] as nat, PRIMES_6[2], TWO_32);
    Cube(6, Sha256.ROW_6[3] as nat, PRIMES_6[3], TWO_32);
  }

  lemma Constants256Row6Last()
    ensures |Sha256.ROW_6| == |PRIMES_6| == 8
    ensures forall i :: 4 <= i < 8 ==> CubeRootBits(Sha256.ROW_6[i] as nat, PRIMES_6[i], TWO_32)
  {
    hide CubeRootBits;
    Cube(6, Sha256.ROW_6[4] as nat, PRIMES_6[4], TWO_32);
    Cube(6, Sha256.ROW_6[5] as nat, PRIMES_6[5], TWO_32);
    Cube(6, Sha256.ROW_6[6] as nat, PRIMES_6[6], TWO_32);
    Cube(6, Sha256.ROW_6[7] as nat, PRIMES_6[7], TWO_32);
  }

  lemma Constants256Row7First()
    ensures |Sha256.ROW_7| == |PRIMES_7| == 8
    ensures forall i :: 0 <= i < 4 ==> CubeRootBits(Sha256.ROW_7[i] as nat, PRIMES_7[i], TWO_32)
  {
    hide CubeRootBits;
    Cube(6, Sha256.ROW_7[0] as nat, PRIMES_7[0], TWO_32);
    Cube(6, Sha256.ROW_7[1] as nat, PRIMES_7[1], TWO_32);
    Cube(6, Sha256.ROW_7[2] as nat, PRIMES_7[2], TWO_32);
    Cube(6, Sha256.ROW_7[3] as nat, PRIMES_7[3], TWO_32);
  }

  lemma Constants256Row7Last()
    ensures |Sha256.ROW_7| == |PRIMES_7| == 8
    ensures forall i :: 4 <= i < 8 ==> CubeRootBits(Sha256.ROW_7[i] as nat, PRIMES_7[i], TWO_32)
  {
    hide CubeRootBits;
    Cube(6, Sha256.ROW_7[4] as nat, PRIMES_7[4], TWO_32);
    Cube(6, Sha256.ROW_7[5] as nat, PRIMES_7[5], TWO_32);
    Cube(6, Sha256.ROW_7[6] as nat, PRIMES_7[6], TWO_32);
    Cube(6, Sha256.ROW_7[7] as nat, PRIMES_7[7], TWO_32);
  }

  /** The constants of the rounds of SHA-256: 32 bits of the cube roots of the first 64 primes. */
  lemma Constants256AreRoots()
    ensures |Sha256.K256| == 64 <= |PRIMES|
    ensures forall i :: 0 <= i < 64 ==> CubeRootBits(Sha256.K256[i] as nat, PRIMES[i], TWO_32)
  {
    hide CubeRootBits, PRIMES_0, PRIMES_1, PRIMES_2, PRIMES_3, PRIMES_4, PRIMES_5, PRIMES_6, PRIMES_7, Sha256.ROW_0,
      Sha256.ROW_1, Sha256.ROW_2, Sha256.ROW_3, Sha256.ROW_4, Sha256.ROW_5, Sha256.ROW_6, Sha256.ROW_7;
    Constants256Row0First();
    Constants256Row0Last();
    Constants256Row1First();
    Constants256Row1Last();
    Constants256Row2First();
    Constants256Row2Last();
    Constants256Row3First();
    Constants256Row3Last();
    Constants256Row4First();
    Constants256Row4Last();
    Constants256Row5First();
    Constants256Row5Last();
    Constants256Row6First();
    Constants256Row6Last();
    Constants256Row7First();
    Constants256Row7Last();
  }

  lemma Constants512Row0First()
    ensures |Sha512.ROW_0| == |PRIMES_0| == 8
    ensures forall i :: 0 <= i < 4 ==> CubeRootBits(Sha512.ROW_0[i] as nat, PRIMES_0[i], TWO_64)
  {
    hide CubeRootBits;
    Cube(1, Sha512.ROW_0[0] as nat, PRIMES_0[0], TWO_64);
    Cube(1, Sha512.ROW_0[1] as nat, PRIMES_0[1], TWO_64);
    Cube(1, Sha512.ROW_0[2] as nat, PRIMES_0[2], TWO_64);
    Cube(1, Sha512.ROW_0[3] as nat, PRIMES_0[3], TWO_64);
  }

  lemma Constants512Row0Last()
    ensures |Sha512.ROW_0| == |PRIMES_0| == 8
    ensures forall i :: 4 <= i < 8 ==> CubeRootBits(Sha512.ROW_0[i] as nat, PRIMES_0[i], TWO_64)
  {
    hide CubeRootBits;
    Cube(2, Sha512.ROW_0[4] as nat, PRIMES_0[4], TWO_64);
    Cube(2, Sha512.ROW_0[5] as nat, PRIMES_0[5], TWO_64);
    Cube(2, Sha512.ROW_0[6] as nat, PRIMES_0[6], TWO_64);
    Cube(2, Sha512.ROW_0[7] as nat, PRIMES_0[7], TWO_64);
  }

  lemma Constants512Row1First()
    ensures |Sha512.ROW_1| == |PRIMES_1| == 8
    ensures forall i :: 0 <= i < 4 ==> CubeRootBits(Sha512.ROW_1[i] as nat, PRIMES_1[i], TWO_64)
  {
    hide CubeRootBits;
    Cube(2, Sha512.ROW_1[0] as nat, PRIMES_1[0], TWO_64);
    Cube(3, Sha512.ROW_1[1] as nat, PRIMES_1[1], TWO_64);
    Cube(3, Sha512.ROW_1[2] as nat, PRIMES_1[2], TWO_64);
    Cube(3, Sha512.ROW_1[3] as nat, PRIMES_1[3], TWO_64);
  }

  lemma Constants512Row1Last()
    ensures |Sha512.ROW_1| == |PRIMES_1| == 8
    ensures forall i :: 4 <= i < 8 ==> CubeRootBits(Sha512.ROW_1[i] as nat, PRIMES_1[i], TWO_64)
  {
    hide CubeRootBits;
    Cube(3, Sha512.ROW_1[4] as nat, PRIMES_1[4], TWO_64);
    Cube(3, Sha512.ROW_1[5] as nat, PRIMES_1[5], TWO_64);
    Cube(3, Sha512.ROW_1[6] as nat, PRIMES_1[6], TWO_64);
    Cube(3, Sha512.ROW_1[7] as nat, PRIMES_1[7], TWO_64);
  }

  lemma Constants512Row2First()
    ensures |Sha512.ROW_2| == |PRIMES_2| == 8
    ensures forall i :: 0 <= i < 4 ==> CubeRootBits(Sha512.ROW_2[i] as nat, PRIMES_2[i], TWO_64)
  {
    hide CubeRootBits;
    Cube(3, Sha512.ROW_2[0] as nat, PRIMES_2[0], TWO_64);
    Cube(3, Sha512.ROW_2[1] as nat, PRIMES_2[1], TWO_64);
    Cube(4, Sha512.ROW_2[2] as nat, PRIMES_2[2], TWO_64);
    Cube(4, Sha512.ROW_2[3] as nat, PRIMES_2[3], TWO_64);
  }

  lemma Constants512Row2Last()
    ensures |Sha512.ROW_2| == |PRIMES_2| == 8
    ensures forall i :: 4 <= i < 8 ==> CubeRootBits(Sha512.ROW_2[i] as nat, PRIMES_2[i], TWO_64)
  {
    hide CubeRootBits;
    Cube(4, Sha512.ROW_2[4] as nat, PRIMES_2[4], TWO_64);
    Cube(4, Sha512.ROW_2[5] as nat, PRIMES_2[5], TWO_64);
    Cube(4, Sha512.ROW_2[6] as nat, PRIMES_2[6], TWO_64);
    Cube(4, Sha512.ROW_2[7] as nat, PRIMES_2[7], TWO_64);
  }

  lemma Constants512Row3First()
    ensures |Sha512.ROW_3| == |PRIMES_3| == 8
    ensures forall i :: 0 <= i < 4 ==> CubeRootBits(Sha512.ROW_3[i] as nat, PRIMES_3[i], TWO_64)
  {
    hide CubeRootBits;
    Cube(4, Sha512.ROW_3[0] as nat, PRIMES_3[0], TWO_64);
    Cube(4, Sha512.ROW_3[1] as nat, PRIMES_3[1], TWO_64);
    Cube(4, Sha512.ROW_3[2] as nat, PRIMES_3[2], TWO_64);
    Cube(4, Sha512.ROW_3[3] as nat, PRIMES_3[3], TWO_64);
  }

  lemma Constants512Row3Last()
    ensures |Sha512.ROW_3| == |PRIMES_3| == 8
    ensures forall i :: 4 <= i < 8 ==> CubeRootBits(Sha512.ROW_3[i] as nat, PRIMES_3[i], TWO_64)
  {
    hide CubeRootBits;
    Cube(4, Sha512.ROW_3[4] as nat, PRIMES_3[4], TWO_64);
    Cube(4, Sha512.ROW_3[5] as nat, PRIMES_3[5], TWO_64);
    Cube(5, Sha512.ROW_3[6] as nat, PRIMES_3[6], TWO_64);
    Cube(5, Sha512.ROW_3[7] as nat, PRIMES_3[7], TWO_64);
  }

  lemma Constants512Row4First()
    ensures |Sha512.ROW_4| == |PRIMES_4| == 8
    ensures forall i :: 0 <= i < 4 ==> CubeRootBits(Sha512.ROW_4[i] as nat, PRIMES_4[i], TWO_64)
  {
    hide CubeRootBits;
    Cube(5, Sha512.ROW_4[0] as nat, PRIMES_4[0], TWO_64);
    Cube(5, Sha512.ROW_4[1] as nat, PRIMES_4[1], TWO_64);
    Cube(5, Sha512.ROW_4[2] as nat, PRIMES_4[2], TWO_64);
    Cube(5, Sha512.ROW_4[3] as nat, PRIMES_4[3], TWO_64);
  }

  lemma Constants512Row4Last()
    ensures |Sha512.ROW_4| == |PRIMES_4| == 8
    ensures forall i :: 4 <= i < 8 ==> CubeRootBits(Sha512.ROW_4[i] as nat, PRIMES_4[i], TWO_64)
  {
    hide CubeRootBits;
    Cube(5, Sha512.ROW_4[4] as nat, PRIMES_4[4], TWO_64);
    Cube(5, Sha512.ROW_4[5] as nat, PRIMES_4[5], TWO_64);
    Cube(5, Sha512.ROW_4[6] as nat, PRIMES_4[6], TWO_64);
    Cube(5, Sha512.ROW_4[7] as nat, PRIMES_4[7], TWO_64);
  }

  lemma Constants512Row5First()
    ensures |Sha512.ROW_5| == |PRIMES_5| == 8
    ensures forall i :: 0 <= i < 4 ==> CubeRootBits(Sha512.ROW_5[i] as nat, PRIMES_5[i], TWO_64)
  {
    hide CubeRootBits;
    Cube(5, Sha512.ROW_5[0] as nat, PRIMES_5[0], TWO_64);
    Cube(5, Sha512.ROW_5[1] as nat, PRIMES_5[1], TWO_64);
    Cube(5, Sha512.ROW_5[2] as nat, PRIMES_5[2], TWO_64);
    Cube(5, Sha512.ROW_5[3] as nat, PRIMES_5[3], TWO_64);
  }

  lemma Constants512Row5Last()
    ensures |Sha512.ROW_5| == |PRIMES_5| == 8
    ensures forall i :: 4 <= i < 8 ==> CubeRootBits(Sha512.ROW_5[i] as nat, PRIMES_5[i], TWO_64)
  {
    hide CubeRootBits;
    Cube(5, Sha512.ROW_5[4] as nat, PRIMES_5[4], TWO_64);
    Cube(5, Sha512.ROW_5[5] as nat, PRIMES_5[5], TWO_64);
    Cube(5, Sha512.ROW_5[6] as nat, PRIMES_5[6], TWO_64);
    Cube(6, Sha512.ROW_5[7] as nat, PRIMES_5[7], TWO_64);
  }

  lemma Constants512Row6First()
    ensures |Sha512.ROW_6| == |PRIMES_6| == 8
    ensures forall i :: 0 <= i < 4 ==> CubeRootBits(Sha512.ROW_6[i] as nat, PRIMES_6[i], TWO_64)
  {
    hide CubeRootBits;
    Cube(6, Sha512.ROW_6[0] as nat, PRIMES_6[0], TWO_64);
    Cube(6, Sha512.ROW_6[1] as nat, PRIMES_6[1], TWO_64);
    Cube(6, Sha512.ROW_6[2] as nat, PRIMES_6[2], TWO_64);
    Cube(6, Sha512.ROW_6[3] as nat, PRIMES_6[3], TWO_64);
  }

  lemma Constants512Row6Last()
    ensures |Sha512.ROW_6| == |PRIMES_6| == 8
    ensures forall i :: 4 <= i < 8 ==> CubeRootBits(Sha512.ROW_6[i] as nat, PRIMES_6[i], TWO_64)
  {
    hide CubeRootBits;
    Cube(6, Sha512.ROW_6[4] as nat, PRIMES_6[4], TWO_64);
    Cube(6, Sha512.ROW_6[5] as nat, PRIMES_6[5], TWO_64);
    Cube(6, Sha512.ROW_6[6] as nat, PRIMES_6[6], TWO_64);
    Cube(6, Sha512.ROW_6[7] as nat, PRIMES_6[7], TWO_64);
  }

  lemma Constants512Row7First()
    ensures |Sha512.ROW_7| == |PRIMES_7| == 8
    ensures forall i :: 0 <= i < 4 ==> CubeRootBits(Sha512.ROW_7[i] as nat, PRIMES_7[i], TWO_64)
  {
    hide CubeRootBits;
    Cube(6, Sha512.ROW_7[0] as nat, PRIMES_7[0], TWO_64);
    Cube(6, Sha512.ROW_7[1] as nat, PRIMES_7[1], TWO_64);
    Cube(6, Sha512.ROW_7[2] as nat, PRIMES_7[2], TWO_64);
    Cube(6, Sha512.ROW_7[3] as nat, PRIMES_7[3], TWO_64);
  }

  lemma Constants512Row7Last()
    ensures |Sha512.ROW_7| == |PRIMES_7| == 8
    ensures forall i :: 4 <= i < 8 ==> CubeRootBits(Sha512.ROW_7[i] as nat, PRIMES_7[i], TWO_64)
  {
    hide CubeRootBits;
    Cube(6, Sha512.ROW_7[4] as nat, PRIMES_7[4], TWO_64);
    Cube(6, Sha512.ROW_7[5] as nat, PRIMES_7[5], TWO_64);
    Cube(6, Sha512.ROW_7[6] as nat, PRIMES_7[6], TWO_64);
    Cube(6, Sha512.ROW_7[7] as nat, PRIMES_7[7], TWO_64);
  }

  lemma Constants512Row8First()
    ensures |Sha512.ROW_8| == |PRIMES_8| == 8
    ensures forall i :: 0 <= i < 4 ==> CubeRootBits(Sha512.ROW_8[i] as nat, PRIMES_8[i], TWO_64)
  {
    hide CubeRootBits;
    Cube(6, Sha512.ROW_8[0] as nat, PRIMES_8[0], TWO_64);
    Cube(6, Sha512.ROW_8[1] as nat, PRIMES_8[1], TWO_64);
    Cube(6, Sha512.ROW_8[2] as nat, PRIMES_8[2], TWO_64);
    Cube(6, Sha512.ROW_8[3] as nat, PRIMES_8[3], TWO_64);
  }

  lemma Constants512Row8Last()
    ensures |Sha512.ROW_8| == |PRIMES_8| == 8
    ensures forall i :: 4 <= i < 8 ==> CubeRootBits(Sha512.ROW_8[i] as nat, PRIMES_8[i], TWO_64)
  {
    hide CubeRootBits;
    Cube(7, Sha512.ROW_8[4] as nat, PRIMES_8[4], TWO_64);
    Cube(7, Sha512.ROW_8[5] as nat, PRIMES_8[5], TWO_64);
    Cube(7, Sha512.ROW_8[6] as nat, PRIMES_8[6], TWO_64);
    Cube(7, Sha512.ROW_8[7] as nat, PRIMES_8[7], TWO_64);
  }

  lemma Constants512Row9First()
    ensures |Sha512.ROW_9| == |PRIMES_9| == 8
    ensures forall i :: 0 <= i < 4 ==> CubeRootBits(Sha512.ROW_9[i] as nat, PRIMES_9[i], TWO_64)
  {
    hide CubeRootBits;
    Cube(7, Sha512.ROW_9[0] as nat, PRIMES_9[0], TWO_64);
    Cube(7, Sha512.ROW_9[1] as nat, PRIMES_9[1], TWO_64);
    Cube(7, Sha512.ROW_9[2] as nat, PRIMES_9[2], TWO_64);
    Cube(7, Sha512.ROW_9[3] as nat, PRIMES_9[3], TWO_64);
  }

  lemma Constants512Row9Last()
    ensures |Sha512.ROW_9| == |PRIMES_9| == 8
    ensures forall i :: 4 <= i < 8 ==> CubeRootBits(Sha512.ROW_9[i] as nat, PRIMES_9[i], TWO_64)
  {
    hide CubeRootBits;
    Cube(7, Sha512.ROW_9[4] as nat, PRIMES_9[4], TWO_64);
    Cube(7, Sha512.ROW_9[5] as nat, PRIMES_9[5], TWO_64);
    Cube(7, Sha512.ROW_9[6] as nat, PRIMES_9[6], TWO_64);
    Cube(7, Sha512.ROW_9[7] as nat, PRIMES_9[7], TWO_64);
  }

  /** Those of SHA-512 and SHA-384: 64 bits of the cube roots of the first 80 primes. */
  lemma Constants512AreRoots()
    ensures |Sha512.K512| == 80 <= |PRIMES|
    ensures forall i :: 0 <= i < 80 ==> CubeRootBits(Sha512.K512[i] as nat, PRIMES[i], TWO_64)
  {
    hide CubeRootBits, PRIMES_0, PRIMES_1, PRIMES_2, PRIMES_3, PRIMES_4, PRIMES_5, PRIMES_6, PRIMES_7, PRIMES_8,
      PRIMES_9, Sha512.ROW_0, Sha512.ROW_1, Sha512.ROW_2, Sha512.ROW_3, Sha512.ROW_4, Sha512.ROW_5, Sha512.ROW_6,
      Sha512.ROW_7, Sha512.ROW_8, Sha512.ROW_9;
    Constants512Row0First();
    Constants512Row0Last();
    Constants512Row1First();
    Constants512Row1Last();
    Constants512Row2First();
    Constants512Row2Last();
    Constants512Row3First();
    Constants512Row3Last();
    Constants512Row4First();
    Constants512Row4Last();
    Constants512Row5First();
    Constants512Row5Last();
    Constants512Row6First();
    Constants512Row6Last();
    Constants512Row7First();
    Constants512Row7Last();
    Constants512Row8First();
    Constants512Row8Last();
    Constants512Row9First();
    Constants512Row9Last();
  }

  lemma Initial256First()
    ensures |Sha256.INITIAL| == |PRIMES_0| == 8
    ensures forall i :: 0 <= i < 4 ==> SquareRootBits(Sha256.INITIAL[i] as nat, PRIMES_0[i], TWO_32)
  {
    hide SquareRootBits;
    Square(1, Sha256.INITIAL[0] as nat, PRIMES_0[0], TWO_32);
    Square(1, Sha256.INITIAL[1] as nat, PRIMES_0[1], TWO_32);
    Square(2, Sha256.INITIAL[2] as nat, PRIMES_0[2], TWO_32);
    Square(2, Sha256.INITIAL[3] as nat, PRIMES_0[3], TWO_32);
  }

  lemma Initial256Last()
    ensures |Sha256.INITIAL| == |PRIMES_0| == 8
    ensures forall i :: 4 <= i < 8 ==> SquareRootBits(Sha256.INITIAL[i] as nat, PRIMES_0[i], TWO_32)
  {
    hide SquareRootBits;
    Square(3, Sha256.INITIAL[4] as nat, PRIMES_0[4], TWO_32);
    Square(3, Sha256.INITIAL[5] as nat, PRIMES_0[5], TWO_32);
    Square(4, Sha256.INITIAL[6] as nat, PRIMES_0[6], TWO_32);
    Square(4, Sha256.INITIAL[7] as nat, PRIMES_0[7], TWO_32);
  }

  /** The initial hash value of SHA-256: 32 bits of the square roots of the first eight primes. */
  lemma Initial256AreRoots()
    ensures |Sha256.INITIAL| == 8 <= |PRIMES|
    ensures forall i :: 0 <= i < 8 ==> SquareRootBits(Sha256.INITIAL[i] as nat, PRIMES[i], TWO_32)
  {
    hide SquareRootBits;
    Initial256First();
    Initial256Last();
  }

  lemma Initial512First()
    ensures |Sha512.INITIAL_512| == |PRIMES_0| == 8
    ensures forall i :: 0 <= i < 4 ==> SquareRootBits(Sha512.INITIAL_512[i] as nat, PRIMES_0[i], TWO_64)
  {
    hide SquareRootBits;
    Square(1, Sha512.INITIAL_512[0] as nat, PRIMES_0[0], TWO_64);
    Square(1, Sha512.INITIAL_512[1] as nat, PRIMES_0[1], TWO_64);
    Square(2, Sha512.INITIAL_512[2] as nat, PRIMES_0[2], TWO_64);
    Square(2, Sha512.INITIAL_512[3] as nat, PRIMES_0[3], TWO_64);
  }

  lemma Initial512Last()
    ensures |Sha512.INITIAL_512| == |PRIMES_0| == 8
    ensures forall i :: 4 <= i < 8 ==> SquareRootBits(Sha512.INITIAL_512[i] as nat, PRIMES_0[i], TWO_64)
  {
    hide SquareRootBits;
    Square(3, Sha512.INITIAL_512[4] as nat, PRIMES_0[4], TWO_64);
    Square(3, Sha512.INITIAL_512[5] as nat, PRIMES_0[5], TWO_64);
    Square(4, Sha512.INITIAL_512[6] as nat, PRIMES_0[6], TWO_64);
    Square(4, Sha512.INITIAL_512[7] as nat, PRIMES_0[7], TWO_64);
  }

  /** That of SHA-512: 64 bits of the same roots. */
  lemma Initial512AreRoots()
    ensures |Sha512.INITIAL_512| == 8 <= |PRIMES|
    ensures forall i :: 0 <= i < 8 ==> SquareRootBits(Sha512.INITIAL_512[i] as nat, PRIMES[i], TWO_64)
  {
    hide SquareRootBits;
    Initial512First();
    Initial512Last();
  }

  lemma Initial384First()
    ensures |Sha512.INITIAL_384| == |PRIMES_1| == 8
    ensures forall i :: 0 <= i < 4 ==> SquareRootBits(Sha512.INITIAL_384[i] as nat, PRIMES_1[i], TWO_64)
  {
    hide SquareRootBits;
    Square(4, Sha512.INITIAL_384[0] as nat, PRIMES_1[0], TWO_64);
    Square(5, Sha512.INITIAL_384[1] as nat, PRIMES_1[1], TWO_64);
    Square(5, Sha512.INITIAL_384[2] as nat, PRIMES_1[2], TWO_64);
    Square(6, Sha512.INITIAL_384[3] as nat, PRIMES_1[3], TWO_64);
  }

  lemma Initial384Last()
    ensures |Sha512.INITIAL_384| == |PRIMES_1| == 8
    ensures forall i :: 4 <= i < 8 ==> SquareRootBits(Sha512.INITIAL_384[i] as nat, PRIMES_1[i], TWO_64)
  {
    hide SquareRootBits;
    Square(6, Sha512.INITIAL_384[4] as nat, PRIMES_1[4], TWO_64);
    Square(6, Sha512.INITIAL_384[5] as nat, PRIMES_1[5], TWO_64);
    Square(6, Sha512.INITIAL_384[6] as nat, PRIMES_1[6], TWO_64);
    Square(7, Sha512.INITIAL_384[7] as nat, PRIMES_1[7], TWO_64);
  }

  /** That of SHA-384: 64 bits of the square roots of the next eight primes. */
  lemma Initial384AreRoots()
    ensures |Sha512.INITIAL_384| == 8 <= |PRIMES|
    ensures forall i :: 0 <= i < 8 ==> SquareRootBits(Sha512.INITIAL_384[i] as nat, PRIMES[i + 8], TWO_64)
  {
    hide SquareRootBits;
    Initial384First();
    Initial384Last();
  }
}
