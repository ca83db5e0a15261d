/** Where the constants of SHA-256 and SHA-512 come from (FIPS 180-2, sections 4.2
    and 5.3): they are fractions of roots of the first primes. */
module Sha2Constants {
  import opened Bits
  import opened Sha2

  /** The first eighty primes. */
  const PRIMES: seq<seq<nat>> := [
    [2, 3, 5, 7, 11, 13, 17, 19],
    [23, 29, 31, 37, 41, 43, 47, 53],
    [59, 61, 67, 71, 73, 79, 83, 89],
    [97, 101, 103, 107, 109, 113, 127, 131],
    [137, 139, 149, 151, 157, 163, 167, 173],
    [179, 181, 191, 193, 197, 199, 211, 223],
    [227, 229, 233, 239, 241, 251, 257, 263],
    [269, 271, 277, 281, 283, 293, 307, 311],
    [313, 317, 331, 337, 347, 349, 353, 359],
    [367, 373, 379, 383, 389, 397, 401, 409]]

  const TWO32: nat := 0x1_0000_0000
  const TWO64: nat := 0x1_0000_0000_0000_0000

  function Square(x: nat): nat { x * x }

  function Cube(x: nat): nat { x * x * x }

  /** n is the whole part of the cube root of p, and k what follows in base m. */
  predicate CubeRoot(p: nat, m: nat, n: nat, k: nat) {
    k < m && Cube(n * m + k) <= p * Cube(m) < Cube(n * m + k + 1)
  }

  predicate SquareRoot(p: nat, m: nat, n: nat, k: nat) {
    k < m && Square(n * m + k) <= p * Square(m) < Square(n * m + k + 1)
  }

  ghost predicate RootAt(m: nat, p: nat, k: nat) {
    exists n: nat :: CubeRoot(p, m, n, k)
  }

  /** A row of constants belongs to a row of primes. */
  ghost predicate CubeRoots(m: nat, ps: seq<nat>, ks: seq<nat>) {
    |ps| == |ks| == 8 && forall i :: 0 <= i < 8 ==> RootAt(m, ps[i], ks[i])
  }

  lemma Root(m: nat, p: nat, n: nat, k: nat)
    requires CubeRoot(p, m, n, k)
    ensures RootAt(m, p, k)
  {
  }

  lemma K256Part0()
    ensures CubeRoots(TWO32, PRIMES[0], K256[0])
  {
    hide RootAt;
    Root(0x1_0000_0000, 2, 1, 0x428a2f98);
    Root(0x1_0000_0000, 3, 1, 0x71374491);
    Root(0x1_0000_0000, 5, 1, 0xb5c0fbcf);
    Root(0x1_0000_0000, 7, 1, 0xe9b5dba5);
    Root(0x1_0000_0000, 11, 2, 0x3956c25b);
    Root(0x1_0000_0000, 13, 2, 0x59f111f1);
    Root(0x1_0000_0000, 17, 2, 0x923f82a4);
    Root(0x1_0000_0000, 19, 2, 0xab1c5ed5);
  }

  lemma K256Part1()
    ensures CubeRoots(TWO32, PRIMES[1], K256[1])
  {
    hide RootAt;
    Root(0x1_0000_0000, 23, 2, 0xd807aa98);
    Root(0x1_0000_0000, 29, 3, 0x12835b01);
    Root(0x1_0000_0000, 31, 3, 0x243185be);
    Root(0x1_0000_0000, 37, 3, 0x550c7dc3);
    Root(0x1_0000_0000, 41, 3, 0x72be5d74);
    Root(0x1_0000_0000, 43, 3, 0x80deb1fe);
    Root(0x1_0000_0000, 47, 3, 0x9bdc06a7);
    Root(0x1_0000_0000, 53, 3, 0xc19bf174);
  }

  lemma K256Part2()
    ensures CubeRoots(TWO32, PRIMES[2], K256[2])
  {
    hide RootAt;
    Root(0x1_0000_0000, 59, 3, 0xe49b69c1);
    Root(0x1_0000_0000, 61, 3, 0xefbe4786);
    Root(0x1_0000_0000, 67, 4, 0x0fc19dc6);
    Root(0x1_0000_0000, 71, 4, 0x240ca1cc);
    Root(0x1_0000_0000, 73, 4, 0x2de92c6f);
    Root(0x1_0000_0000, 79, 4, 0x4a7484aa);
    Root(0x1_0000_0000, 83, 4, 0x5cb0a9dc);
    Root(0x1_0000_0000, 89, 4, 0x76f988da);
  }

  lemma K256Part3()
    ensures CubeRoots(TWO32, PRIMES[3], K256[3])
  {
    hide RootAt;
    Root(0x1_0000_0000, 97, 4, 0x983e5152);
    Root(0x1_0000_0000, 101, 4, 0xa831c66d);
    Root(0x1_0000_0000, 103, 4, 0xb00327c8);
    Root(0x1_0000_0000, 107, 4, 0xbf597fc7);
    Root(0x1_0000_0000, 109, 4, 0xc6e00bf3);
    Root(0x1_0000_0000, 113, 4, 0xd5a79147);
    Root(0x1_0000_0000, 127, 5, 0x06ca6351);
    Root(0x1_0000_0000, 131, 5, 0x14292967);
  }

  lemma K256Part4()
    ensures CubeRoots(TWO32, PRIMES[4], K256[4])
  {
    hide RootAt;
    Root(0x1_0000_0000, 137, 5, 0x27b70a85);
    Root(0x1_0000_0000, 139, 5, 0x2e1b2138);
    Root(0x1_0000_0000, 149, 5, 0x4d2c6dfc);
    Root(0x1_0000_0000, 151, 5, 0x53380d13);
    Root(0x1_0000_0000, 157, 5, 0x650a7354);
    Root(0x1_0000_0000, 163, 5, 0x766a0abb);
    Root(0x1_0000_0000, 167, 5, 0x81c2c92e);
    Root(0x1_0000_0000, 173, 5, 0x92722c85);
  }

  lemma K256Part5()
    ensures CubeRoots(TWO32, PRIMES[5], K256[5])
  {
    hide RootAt;
    Root(0x1_0000_0000, 179, 5, 0xa2bfe8a1);
    Root(0x1_0000_0000, 181, 5, 0xa81a664b);
    Root(0x1_0000_0000, 191, 5, 0xc24b8b70);
    Root(0x1_0000_0000, 193, 5, 0xc76c51a3);
    Root(0x1_0000_0000, 197, 5, 0xd192e819);
    Root(0x1_0000_0000, 199, 5, 0xd6990624);
    Root(0x1_0000_0000, 211, 5, 0xf40e3585);
    Root(0x1_0000_0000, 223, 6, 0x106aa070);
  }

  lemma K256Part6()
    ensures CubeRoots(TWO32, PRIMES[6], K256[6])
  {
    hide RootAt;
    Root(0x1_0000_0000, 227, 6, 0x19a4c116);
    Root(0x1_0000_0000, 229, 6, 0x1e376c08);
    Root(0x1_0000_0000, 233, 6, 0x2748774c);
    Root(0x1_0000_0000, 239, 6, 0x34b0bcb5);
    Root(0x1_0000_0000, 241, 6, 0x391c0cb3);
    Root(0x1_0000_0000, 251, 6, 0x4ed8aa4a);
    Root(0x1_0000_0000, 257, 6, 0x5b9cca4f);
    Root(0x1_0000_0000, 263, 6, 0x682e6ff3);
  }

  lemma K256Part7()
    ensures CubeRoots(TWO32, PRIMES[7], K256[7])
  {
    hide RootAt;
    Root(0x1_0000_0000, 269, 6, 0x748f82ee);
    Root(0x1_0000_0000, 271, 6, 0x78a5636f);
    Root(0x1_0000_0000, 277, 6, 0x84c87814);
    Root(0x1_0000_0000, 281, 6, 0x8cc70208);
    Root(0x1_0000_0000, 283, 6, 0x90befffa);
    Root(0x1_0000_0000, 293, 6, 0xa4506ceb);
    Root(0x1_0000_0000, 307, 6, 0xbef9a3f7);
    Root(0x1_0000_0000, 311, 6, 0xc67178f2);
  }

  lemma K512Part0()
    ensures CubeRoots(TWO64, PRIMES[0], K512[0])
  {
    hide RootAt;
    Root(0x1_0000_0000_0000_0000, 2, 1, 0x428a2f98d728ae22);
    Root(0x1_0000_0000_0000_0000, 3, 1, 0x7137449123ef65cd);
    Root(0x1_0000_0000_0000_0000, 5, 1, 0xb5c0fbcfec4d3b2f);
    Root(0x1_0000_0000_0000_0000, 7, 1, 0xe9b5dba58189dbbc);
    Root(0x1_0000_0000_0000_0000, 11, 2, 0x3956c25bf348b538);
    Root(0x1_0000_0000_0000_0000, 13, 2, 0x59f111f1b605d019);
    Root(0x1_0000_0000_0000_0000, 17, 2, 0x923f82a4af194f9b);
    Root(0x1_0000_0000_0000_0000, 19, 2, 0xab1c5ed5da6d8118);
  }

  lemma K512Part1()
    ensures CubeRoots(TWO64, PRIMES[1], K512[1])
  {
    hide RootAt;
    Root(0x1_0000_0000_0000_0000, 23, 2, 0xd807aa98a3030242);
    Root(0x1_0000_0000_0000_0000, 29, 3, 0x12835b0145706fbe);
    Root(0x1_0000_0000_0000_0000, 31, 3, 0x243185be4ee4b28c);
    Root(0x1_0000_0000_0000_0000, 37, 3, 0x550c7dc3d5ffb4e2);
    Root(0x1_0000_0000_0000_0000, 41, 3, 0x72be5d74f27b896f);
    Root(0x1_0000_0000_0000_0000, 43, 3, 0x80deb1fe3b1696b1);
    Root(0x1_0000_0000_0000_0000, 47, 3, 0x9bdc06a725c71235);
    Root(0x1_0000_0000_0000_0000, 53, 3, 0xc19bf174cf692694);
  }

  lemma K512Part2()
    ensures CubeRoots(TWO64, PRIMES[2], K512[2])
  {
    hide RootAt;
    Root(0x1_0000_0000_0000_0000, 59, 3, 0xe49b69c19ef14ad2);
    Root(0x1_0000_0000_0000_0000, 61, 3, 0xefbe4786384f25e3);
    Root(0x1_0000_0000_0000_0000, 67, 4, 0x0fc19dc68b8cd5b5);
    Root(0x1_0000_0000_0000_0000, 71, 4, 0x240ca1cc77ac9c65);
    Root(0x1_0000_0000_0000_0000, 73, 4, 0x2de92c6f592b0275);
    Root(0x1_0000_0000_0000_0000, 79, 4, 0x4a7484aa6ea6e483);
    Root(0x1_0000_0000_0000_0000, 83, 4, 0x5cb0a9dcbd41fbd4);
    Root(0x1_0000_0000_0000_0000, 89, 4, 0x76f988da831153b5);
  }

  lemma K512Part3()
    ensures CubeRoots(TWO64, PRIMES[3], K512[3])
  {
    hide RootAt;
    Root(0x1_0000_0000_0000_0000, 97, 4, 0x983e5152ee66dfab);
    Root(0x1_0000_0000_0000_0000, 101, 4, 0xa831c66d2db43210);
    Root(0x1_0000_0000_0000_0000, 103, 4, 0xb00327c898fb213f);
    Root(0x1_0000_0000_0000_0000, 107, 4, 0xbf597fc7beef0ee4);
    Root(0x1_0000_0000_0000_0000, 109, 4, 0xc6e00bf33da88fc2);
    Root(0x1_0000_0000_0000_0000, 113, 4, 0xd5a79147930aa725);
    Root(0x1_0000_0000_0000_0000, 127, 5, 0x06ca6351e003826f);
    Root(0x1_0000_0000_0000_0000, 131, 5, 0x142929670a0e6e70);
  }

  lemma K512Part4()
    ensures CubeRoots(TWO64, PRIMES[4], K512[4])
  {
    hide RootAt;
    Root(0x1_0000_0000_0000_0000, 137, 5, 0x27b70a8546d22ffc);
    Root(0x1_0000_0000_0000_0000, 139, 5, 0x2e1b21385c26c926);
    Root(0x1_0000_0000_0000_0000, 149, 5, 0x4d2c6dfc5ac42aed);
    Root(0x1_0000_0000_0000_0000, 151, 5, 0x53380d139d95b3df);
    Root(0x1_0000_0000_0000_0000, 157, 5, 0x650a73548baf63de);
    Root(0x1_0000_0000_0000_0000, 163, 5, 0x766a0abb3c77b2a8);
    Root(0x1_0000_0000_0000_0000, 167, 5, 0x81c2c92e47edaee6);
    Root(0x1_0000_0000_0000_0000, 173, 5, 0x92722c851482353b);
  }

  lemma K512Part5()
    ensures CubeRoots(TWO64, PRIMES[5], K512[5])
  {
    hide RootAt;
    Root(0x1_0000_0000_0000_0000, 179, 5, 0xa2bfe8a14cf10364);
    Root(0x1_0000_0000_0000_0000, 181, 5, 0xa81a664bbc423001);
    Root(0x1_0000_0000_0000_0000, 191, 5, 0xc24b8b70d0f89791);
    Root(0x1_0000_0000_0000_0000, 193, 5, 0xc76c51a30654be30);
    Root(0x1_0000_0000_0000_0000, 197, 5, 0xd192e819d6ef5218);
    Root(0x1_0000_0000_0000_0000, 199, 5, 0xd69906245565a910);
    Root(0x1_0000_0000_0000_0000, 211, 5, 0xf40e35855771202a);
    Root(0x1_0000_0000_0000_0000, 223, 6, 0x106aa07032bbd1b8);
  }

  lemma K512Part6()
    ensures CubeRoots(TWO64, PRIMES[6], K512[6])
  {
    hide RootAt;
    Root(0x1_0000_0000_0000_0000, 227, 6, 0x19a4c116b8d2d0c8);
    Root(0x1_0000_0000_0000_0000, 229, 6, 0x1e376c085141ab53);
    Root(0x1_0000_0000_0000_0000, 233, 6, 0x2748774cdf8eeb99);
    Root(0x1_0000_0000_0000_0000, 239, 6, 0x34b0bcb5e19b48a8);
    Root(0x1_0000_0000_0000_0000, 241, 6, 0x391c0cb3c5c95a63);
    Root(0x1_0000_0000_0000_0000, 251, 6, 0x4ed8aa4ae3418acb);
    Root(0x1_0000_0000_0000_0000, 257, 6, 0x5b9cca4f7763e373);
    Root(0x1_0000_0000_0000_0000, 263, 6, 0x682e6ff3d6b2b8a3);
  }

  lemma K512Part7()
    ensures CubeRoots(TWO64, PRIMES[7], K512[7])
  {
    hide RootAt;
    Root(0x1_0000_0000_0000_0000, 269, 6, 0x748f82ee5defb2fc);
    Root(0x1_0000_0000_0000_0000, 271, 6, 0x78a5636f43172f60);
    Root(0x1_0000_0000_0000_0000, 277, 6, 0x84c87814a1f0ab72);
    Root(0x1_0000_0000_0000_0000, 281, 6, 0x8cc702081a6439ec);
    Root(0x1_0000_0000_0000_0000, 283, 6, 0x90befffa23631e28);
    Root(0x1_0000_0000_0000_0000, 293, 6, 0xa4506cebde82bde9);
    Root(0x1_0000_0000_0000_0000, 307, 6, 0xbef9a3f7b2c67915);
    Root(0x1_0000_0000_0000_0000, 311, 6, 0xc67178f2e372532b);
  }

  lemma K512Part8()
    ensures CubeRoots(TWO64, PRIMES[8], K512[8])
  {
    hide RootAt;
    Root(0x1_0000_0000_0000_0000, 313, 6, 0xca273eceea26619c);
    Root(0x1_0000_0000_0000_0000, 317, 6, 0xd186b8c721c0c207);
    Root(0x1_0000_0000_0000_0000, 331, 6, 0xeada7dd6cde0eb1e);
    Root(0x1_0000_0000_0000_0000, 337, 6, 0xf57d4f7fee6ed178);
    Root(0x1_0000_0000_0000_0000, 347, 7, 0x06f067aa72176fba);
    Root(0x1_0000_0000_0000_0000, 349, 7, 0x0a637dc5a2c898a6);
    Root(0x1_0000_0000_0000_0000, 353, 7, 0x113f9804bef90dae);
    Root(0x1_0000_0000_0000_0000, 359, 7, 0x1b710b35131c471b);
  }

  lemma K512Part9()
    ensures CubeRoots(TWO64, PRIMES[9], K512[9])
  {
    hide RootAt;
    Root(0x1_0000_0000_0000_0000, 367, 7, 0x28db77f523047d84);
    Root(0x1_0000_0000_0000_0000, 373, 7, 0x32caab7b40c72493);
    Root(0x1_0000_0000_0000_0000, 379, 7, 0x3c9ebe0a15c9bebc);
    Root(0x1_0000_0000_0000_0000, 383, 7, 0x431d67c49c100d4c);
    Root(0x1_0000_0000_0000_0000, 389, 7, 0x4cc5d4becb3e42b6);
    Root(0x1_0000_0000_0000_0000, 397, 7, 0x597f299cfc657e2a);
    Root(0x1_0000_0000_0000_0000, 401, 7, 0x5fcb6fab3ad6faec);
    Root(0x1_0000_0000_0000_0000, 409, 7, 0x6c44198c4a475817);
  }

  lemma RowRoots(r: nat)
    requires r < 10
    ensures r < 8 ==> CubeRoots(TWO32, PRIMES[r], K256[r])
    ensures CubeRoots(TWO64, PRIMES[r], K512[r])
  {
    hide CubeRoots;
    K256Part0(); K256Part1(); K256Part2(); K256Part3(); K256Part4(); K256Part5(); K256Part6(); K256Part7();
    K512Part0(); K512Part1(); K512Part2(); K512Part3(); K512Part4(); K512Part5(); K512Part6(); K512Part7(); K512Part8(); K512Part9();
  }

  /** The round constants: 32 bits of the cube roots of the first 64 primes for
      SHA-256, and 64 bits of those of the first 80 for SHA-512. */
  lemma RoundConstants(v: Variant, t: nat)
    requires t < v.Rounds()
    ensures t / 8 < 10 && |PRIMES[t / 8]| == 8
    ensures RootAt(if v.V256? then TWO32 else TWO64, PRIMES[t / 8][t % 8], Val(K(v, t)))
  {
    hide ToBits, Val;
    RowRoots(t / 8);
    if v.V256? { Initial32(K256[t / 8][t % 8]); } else { Initial64(K512[t / 8][t % 8]); }
  }

  /** The initial hash values: as many bits of the square roots of the first eight
      primes. */
  lemma InitialValues()
    ensures var r := InitialHash(V256);
      && SquareRoot(2, TWO32, 1, Val(r.a)) && SquareRoot(3, TWO32, 1, Val(r.b)) && SquareRoot(5, TWO32, 2, Val(r.c))
      && SquareRoot(7, TWO32, 2, Val(r.d)) && SquareRoot(11, TWO32, 3, Val(r.e)) && SquareRoot(13, TWO32, 3, Val(r.f))
      && SquareRoot(17, TWO32, 4, Val(r.g)) && SquareRoot(19, TWO32, 4, Val(r.h))
    ensures var r := InitialHash(V512);
      && SquareRoot(2, TWO64, 1, Val(r.a)) && SquareRoot(3, TWO64, 1, Val(r.b)) && SquareRoot(5, TWO64, 2, Val(r.c))
      && SquareRoot(7, TWO64, 2, Val(r.d)) && SquareRoot(11, TWO64, 3, Val(r.e)) && SquareRoot(13, TWO64, 3, Val(r.f))
      && SquareRoot(17, TWO64, 4, Val(r.g)) && SquareRoot(19, TWO64, 4, Val(r.h))
  {
    hide ToBits, Val, Pow2;
    Initial32(0x6a09e667);
    assert SquareRoot(2, 0x1_0000_0000, 1, 0x6a09e667);
    Initial32(0xbb67ae85);
    assert SquareRoot(3, 0x1_0000_0000, 1, 0xbb67ae85);
    Initial32(0x3c6ef372);
    assert SquareRoot(5, 0x1_0000_0000, 2, 0x3c6ef372);
    Initial32(0xa54ff53a);
    assert SquareRoot(7, 0x1_0000_0000, 2, 0xa54ff53a);
    Initial32(0x510e527f);
    assert SquareRoot(11, 0x1_0000_0000, 3, 0x510e527f);
    Initial32(0x9b05688c);
    assert SquareRoot(13, 0x1_0000_0000, 3, 0x9b05688c);
    Initial32(0x1f83d9ab);
    assert SquareRoot(17, 0x1_0000_0000, 4, 0x1f83d9ab);
    Initial32(0x5be0cd19);
    assert SquareRoot(19, 0x1_0000_0000, 4, 0x5be0cd19);
    Initial64(0x6a09e667f3bcc908);
    assert SquareRoot(2, 0x1_0000_0000_0000_0000, 1, 0x6a09e667f3bcc908);
    Initial64(0xbb67ae8584caa73b);
    assert SquareRoot(3, 0x1_0000_0000_0000_0000, 1, 0xbb67ae8584caa73b);
    Initial64(0x3c6ef372fe94f82b);
    assert SquareRoot(5, 0x1_0000_0000_0000_0000, 2, 0x3c6ef372fe94f82b);
    Initial64(0xa54ff53a5f1d36f1);
    assert SquareRoot(7, 0x1_0000_0000_0000_0000, 2, 0xa54ff53a5f1d36f1);
    Initial64(0x510e527fade682d1);
    assert SquareRoot(11, 0x1_0000_0000_0000_0000, 3, 0x510e527fade682d1);
    Initial64(0x9b05688c2b3e6c1f);
    assert SquareRoot(13, 0x1_0000_0000_0000_0000, 3, 0x9b05688c2b3e6c1f);
    Initial64(0x1f83d9abfb41bd6b);
    assert SquareRoot(17, 0x1_0000_0000_0000_0000, 4, 0x1f83d9abfb41bd6b);
    Initial64(0x5be0cd19137e2179);
    assert SquareRoot(19, 0x1_0000_0000_0000_0000, 4, 0x5be0cd19137e2179);
  }

  lemma Initial32(k: nat)
    requires k < TWO32
    ensures Val(ToBits(32, k)) == k
  {
    hide ToBits, Val, Pow2;
    Eight();
    Pow2Adds(8, 8);
    Pow2Adds(16, 16);
    ValOfToBits(32, k);
  }

  lemma Initial64(k: nat)
    requires k < TWO64
    ensures Val(ToBits(64, k)) == k
  {
    hide ToBits, Val, Pow2;
    assert Pow2(32) == TWO32 by { Eight(); Pow2Adds(8, 8); Pow2Adds(16, 16); }
    Pow2Adds(32, 32);
    ValOfToBits(64, k);
  }

  lemma Eight()
    ensures Pow2(8) == 256
  {
  }

  lemma {:induction false} Pow2Adds(a: nat, b: nat)
    ensures Pow2(a + b) == Pow2(a) * Pow2(b)
  {
    if b > 0 { Pow2Adds(a, b - 1); DoubledProduct(Pow2(a), Pow2(b - 1)); }
  }
}
