/** SHA-256 and SHA-512: the block transformations of FIPS 180-2, sections
    6.2.2 and 6.3.2, and the loops of crypt/sha256-block.c and
    crypt/sha512-block.c that compute them.  The two differ in word size,
    number of rounds, rotation amounts and constants only. */
module Sha2 {
  import opened Bits
  import opened ByteOrder

  datatype Variant = V256 | V512 {
    /** Bytes in a word. */
    function Size(): nat { if V256? then 4 else 8 }

    function WordBits(): nat { 8 * Size() }

    function Rounds(): nat { if V256? then 64 else 80 }

    function BlockSize(): nat { 16 * Size() }
  }

  const K256: seq<seq<nat>> := [
    [0x428a2f98, 0x71374491, 0xb5c0fbcf, 0xe9b5dba5, 0x3956c25b, 0x59f111f1, 0x923f82a4, 0xab1c5ed5],
    [0xd807aa98, 0x12835b01, 0x243185be, 0x550c7dc3, 0x72be5d74, 0x80deb1fe, 0x9bdc06a7, 0xc19bf174],
    [0xe49b69c1, 0xefbe4786, 0x0fc19dc6, 0x240ca1cc, 0x2de92c6f, 0x4a7484aa, 0x5cb0a9dc, 0x76f988da],
    [0x983e5152, 0xa831c66d, 0xb00327c8, 0xbf597fc7, 0xc6e00bf3, 0xd5a79147, 0x06ca6351, 0x14292967],
    [0x27b70a85, 0x2e1b2138, 0x4d2c6dfc, 0x53380d13, 0x650a7354, 0x766a0abb, 0x81c2c92e, 0x92722c85],
    [0xa2bfe8a1, 0xa81a664b, 0xc24b8b70, 0xc76c51a3, 0xd192e819, 0xd6990624, 0xf40e3585, 0x106aa070],
    [0x19a4c116, 0x1e376c08, 0x2748774c, 0x34b0bcb5, 0x391c0cb3, 0x4ed8aa4a, 0x5b9cca4f, 0x682e6ff3],
    [0x748f82ee, 0x78a5636f, 0x84c87814, 0x8cc70208, 0x90befffa, 0xa4506ceb, 0xbef9a3f7, 0xc67178f2]]

  const K512: seq<seq<nat>> := [
    [0x428a2f98d728ae22, 0x7137449123ef65cd, 0xb5c0fbcfec4d3b2f, 0xe9b5dba58189dbbc,
     0x3956c25bf348b538, 0x59f111f1b605d019, 0x923f82a4af194f9b, 0xab1c5ed5da6d8118],
    [0xd807aa98a3030242, 0x12835b0145706fbe, 0x243185be4ee4b28c, 0x550c7dc3d5ffb4e2,
     0x72be5d74f27b896f, 0x80deb1fe3b1696b1, 0x9bdc06a725c71235, 0xc19bf174cf692694],
    [0xe49b69c19ef14ad2, 0xefbe4786384f25e3, 0x0fc19dc68b8cd5b5, 0x240ca1cc77ac9c65,
     0x2de92c6f592b0275, 0x4a7484aa6ea6e483, 0x5cb0a9dcbd41fbd4, 0x76f988da831153b5],
    [0x983e5152ee66dfab, 0xa831c66d2db43210, 0xb00327c898fb213f, 0xbf597fc7beef0ee4,
     0xc6e00bf33da88fc2, 0xd5a79147930aa725, 0x06ca6351e003826f, 0x142929670a0e6e70],
    [0x27b70a8546d22ffc, 0x2e1b21385c26c926, 0x4d2c6dfc5ac42aed, 0x53380d139d95b3df,
     0x650a73548baf63de, 0x766a0abb3c77b2a8, 0x81c2c92e47edaee6, 0x92722c851482353b],
    [0xa2bfe8a14cf10364, 0xa81a664bbc423001, 0xc24b8b70d0f89791, 0xc76c51a30654be30,
     0xd192e819d6ef5218, 0xd69906245565a910, 0xf40e35855771202a, 0x106aa07032bbd1b8],
    [0x19a4c116b8d2d0c8, 0x1e376c085141ab53, 0x2748774cdf8eeb99, 0x34b0bcb5e19b48a8,
     0x391c0cb3c5c95a63, 0x4ed8aa4ae3418acb, 0x5b9cca4f7763e373, 0x682e6ff3d6b2b8a3],
    [0x748f82ee5defb2fc, 0x78a5636f43172f60, 0x84c87814a1f0ab72, 0x8cc702081a6439ec,
     0x90befffa23631e28, 0xa4506cebde82bde9, 0xbef9a3f7b2c67915, 0xc67178f2e372532b],
    [0xca273eceea26619c, 0xd186b8c721c0c207, 0xeada7dd6cde0eb1e, 0xf57d4f7fee6ed178,
     0x06f067aa72176fba, 0x0a637dc5a2c898a6, 0x113f9804bef90dae, 0x1b710b35131c471b],
    [0x28db77f523047d84, 0x32caab7b40c72493, 0x3c9ebe0a15c9bebc, 0x431d67c49c100d4c,
     0x4cc5d4becb3e42b6, 0x597f299cfc657e2a, 0x5fcb6fab3ad6faec, 0x6c44198c4a475817]]

  datatype Regs = Regs(a: Bits, b: Bits, c: Bits, d: Bits, e: Bits, f: Bits, g: Bits, h: Bits) {
    predicate Ok(v: Variant) {
      |a| == |b| == |c| == |d| == |e| == |f| == |g| == |h| == v.WordBits()
    }
  }

  function InitialHash(v: Variant): (r: Regs)
    ensures r.Ok(v)
  {
    if v.V256? then
      Regs(ToBits(32, 0x6a09e667), ToBits(32, 0xbb67ae85), ToBits(32, 0x3c6ef372), ToBits(32, 0xa54ff53a),
           ToBits(32, 0x510e527f), ToBits(32, 0x9b05688c), ToBits(32, 0x1f83d9ab), ToBits(32, 0x5be0cd19))
    else
      Regs(ToBits(64, 0x6a09e667f3bcc908), ToBits(64, 0xbb67ae8584caa73b),
           ToBits(64, 0x3c6ef372fe94f82b), ToBits(64, 0xa54ff53a5f1d36f1),
           ToBits(64, 0x510e527fade682d1), ToBits(64, 0x9b05688c2b3e6c1f),
           ToBits(64, 0x1f83d9abfb41bd6b), ToBits(64, 0x5be0cd19137e2179))
  }

  // ------------------------------------------------ FIPS 180-2, section 4.1

  function Ch(x: Bits, y: Bits, z: Bits): (r: Bits)
    requires |x| == |y| == |z|
    ensures |r| == |x| && forall i :: 0 <= i < |x| ==> r[i] == if x[i] then y[i] else z[i]
  {
    Xor(And(x, y), And(Not(x), z))
  }

  function Maj(x: Bits, y: Bits, z: Bits): (r: Bits)
    requires |x| == |y| == |z|
    ensures |r| == |x| && forall i :: 0 <= i < |x| ==> r[i] == ((x[i] && y[i]) || (x[i] && z[i]) || (y[i] && z[i]))
  {
    Xor(Xor(And(x, y), And(x, z)), And(y, z))
  }

  /** The bit that a rotation to the right by s places brings to place b. */
  predicate From(x: Bits, b: nat, s: nat)
    requires b < |x| && s <= |x|
  {
    if b >= s then x[b - s] else x[b + |x| - s]
  }

  function BigSigma(x: Bits, i: nat, j: nat, k: nat): (r: Bits)
    requires i <= |x| && j <= |x| && k <= |x|
    ensures |r| == |x|
    ensures forall b :: 0 <= b < |x| ==> r[b] == ((From(x, b, i) != From(x, b, j)) != From(x, b, k))
  {
    Xor(Xor(Rotr(x, i), Rotr(x, j)), Rotr(x, k))
  }

  function SmallSigma(x: Bits, i: nat, j: nat, k: nat): (r: Bits)
    requires i <= |x| && j <= |x|
    ensures |r| == |x|
    ensures forall b :: 0 <= b < |x| ==> r[b] == ((From(x, b, i) != From(x, b, j)) != (b >= k && x[b - k]))
  {
    Xor(Xor(Rotr(x, i), Rotr(x, j)), Shr(x, k))
  }

  function S0(v: Variant, x: Bits): (r: Bits)
    requires |x| == v.WordBits()
    ensures |r| == |x|
  {
    if v.V256? then BigSigma(x, 2, 13, 22) else BigSigma(x, 28, 34, 39)
  }

  function S1(v: Variant, x: Bits): (r: Bits)
    requires |x| == v.WordBits()
    ensures |r| == |x|
  {
    if v.V256? then BigSigma(x, 6, 11, 25) else BigSigma(x, 14, 18, 41)
  }

  function R0(v: Variant, x: Bits): (r: Bits)
    requires |x| == v.WordBits()
    ensures |r| == |x|
  {
    if v.V256? then SmallSigma(x, 7, 18, 3) else SmallSigma(x, 1, 8, 7)
  }

  function R1(v: Variant, x: Bits): (r: Bits)
    requires |x| == v.WordBits()
    ensures |r| == |x|
  {
    if v.V256? then SmallSigma(x, 17, 19, 10) else SmallSigma(x, 19, 61, 6)
  }

  function K(v: Variant, t: nat): (k: Bits)
    requires t < v.Rounds()
    ensures |k| == v.WordBits()
  {
    ToBits(v.WordBits(), if v.V256? then K256[t / 8][t % 8] else K512[t / 8][t % 8])
  }

  // -------------------------------------- FIPS 180-2, sections 6.2.2 and 6.3.2

  /** Word t of the message schedule; the block's words are big-endian. */
  function Schedule(v: Variant, block: seq<byte>, t: nat): (w: Bits)
    requires |block| == v.BlockSize()
    ensures |w| == v.WordBits()
  {
    if t < 16 then ToBits(v.WordBits(), Load(Big, block[v.Size() * t..v.Size() * t + v.Size()]))
    else Plus(Plus(Plus(R1(v, Schedule(v, block, t - 2)), Schedule(v, block, t - 7)),
                   R0(v, Schedule(v, block, t - 15))), Schedule(v, block, t - 16))
  }

  function Round(v: Variant, w: Bits, k: Bits, r: Regs): (r': Regs)
    requires r.Ok(v) && |w| == |k| == v.WordBits()
    ensures r'.Ok(v)
  {
    var t1 := Plus(Plus(Plus(Plus(r.h, S1(v, r.e)), Ch(r.e, r.f, r.g)), k), w);
    var t2 := Plus(S0(v, r.a), Maj(r.a, r.b, r.c));
    Regs(Plus(t1, t2), r.a, r.b, r.c, Plus(r.d, t1), r.e, r.f, r.g)
  }

  function Rounds(v: Variant, block: seq<byte>, t: nat, r: Regs): (r': Regs)
    requires |block| == v.BlockSize() && t <= v.Rounds() && r.Ok(v)
    ensures r'.Ok(v)
  {
    if t == 0 then r
    else Round(v, Schedule(v, block, t - 1), K(v, t - 1), Rounds(v, block, t - 1, r))
  }

  /** The next intermediate hash value. */
  function Compress(v: Variant, block: seq<byte>, r: Regs): (r': Regs)
    requires |block| == v.BlockSize() && r.Ok(v)
    ensures r'.Ok(v)
  {
    var s := Rounds(v, block, v.Rounds(), r);
    Regs(Plus(s.a, r.a), Plus(s.b, r.b), Plus(s.c, r.c), Plus(s.d, r.d),
         Plus(s.e, r.e), Plus(s.f, r.f), Plus(s.g, r.g), Plus(s.h, r.h))
  }

  // --------------------------------------------------------------- the code

  /** `S0`, `S1`, `R0` and `R1`: the macros of the two files. */
  function MacroS0(v: Variant, x: Bits): (r: Bits)
    requires |x| == v.WordBits()
    ensures r == S0(v, x)
  {
    if v.V256? then Xor(Xor(Rotr(x, 2), Rotr(x, 13)), Rotr(x, 22)) else Xor(Xor(Rotr(x, 28), Rotr(x, 34)), Rotr(x, 39))
  }

  function MacroS1(v: Variant, x: Bits): (r: Bits)
    requires |x| == v.WordBits()
    ensures r == S1(v, x)
  {
    if v.V256? then Xor(Xor(Rotr(x, 6), Rotr(x, 11)), Rotr(x, 25)) else Xor(Xor(Rotr(x, 14), Rotr(x, 18)), Rotr(x, 41))
  }

  function MacroR0(v: Variant, x: Bits): (r: Bits)
    requires |x| == v.WordBits()
    ensures r == R0(v, x)
  {
    if v.V256? then Xor(Xor(Rotr(x, 7), Rotr(x, 18)), Shr(x, 3)) else Xor(Xor(Rotr(x, 1), Rotr(x, 8)), Shr(x, 7))
  }

  function MacroR1(v: Variant, x: Bits): (r: Bits)
    requires |x| == v.WordBits()
    ensures r == R1(v, x)
  {
    if v.V256? then Xor(Xor(Rotr(x, 17), Rotr(x, 19)), Shr(x, 10)) else Xor(Xor(Rotr(x, 19), Rotr(x, 61)), Shr(x, 6))
  }

  /** The loops that fill W on a host of order o. */
  method FillSchedule(v: Variant, o: Order, block: seq<byte>, w: array<Bits>)
    requires |block| == v.BlockSize() && w.Length == v.Rounds()
    modifies w
    ensures forall t :: 0 <= t < w.Length ==> w[t] == Schedule(v, block, t)
  {
    hide Schedule, R0, R1, MacroR0, MacroR1, Plus;
    for t := 0 to 16
      invariant forall u :: 0 <= u < t ==> w[u] == Schedule(v, block, u)
    {
      w[t] := InputWord(v, o, block, t);
    }
    for t := 16 to v.Rounds()
      invariant forall u :: 0 <= u < t ==> w[u] == Schedule(v, block, u)
    {
      ScheduleStep(v, block, t);
      w[t] := Plus(Plus(Plus(MacroR1(v, w[t - 2]), w[t - 7]), MacroR0(v, w[t - 15])), w[t - 16]);
    }
  }

  /** `SWAP (*words)` */
  method InputWord(v: Variant, o: Order, block: seq<byte>, t: nat) returns (x: Bits)
    requires |block| == v.BlockSize() && t < 16
    ensures x == Schedule(v, block, t)
  {
    hide Load, Swap, ToBits;
    var n := v.Size();
    var bytes := block[n * t..n * t + n];
    var host := Load(o, bytes);
    SwapLoad(o, bytes);
    x := ToBits(v.WordBits(), if o.Little? then Swap(host, n) else host);
  }

  lemma ScheduleStep(v: Variant, block: seq<byte>, t: nat)
    requires |block| == v.BlockSize() && t >= 16
    ensures Schedule(v, block, t)
         == Plus(Plus(Plus(R1(v, Schedule(v, block, t - 2)), Schedule(v, block, t - 7)),
                      R0(v, Schedule(v, block, t - 15))), Schedule(v, block, t - 16))
  {
  }

  /** One pass of the loop in `sha256_process_block` or `sha512_process_block`. */
  method ProcessBlock(v: Variant, o: Order, block: seq<byte>, r: Regs) returns (r': Regs)
    requires |block| == v.BlockSize() && r.Ok(v)
    ensures r' == Compress(v, block, r) && r'.Ok(v)
  {
    hide Schedule, K, S0, S1, MacroS0, MacroS1, Ch, Maj, Plus;
    var w := new Bits[v.Rounds()](_ => Zeros(v.WordBits()));
    FillSchedule(v, o, block, w);
    var a, b, c, d, e, f, g, h := r.a, r.b, r.c, r.d, r.e, r.f, r.g, r.h;
    for t := 0 to v.Rounds()
      invariant Regs(a, b, c, d, e, f, g, h) == Rounds(v, block, t, r)
    {
      var t1 := Plus(Plus(Plus(Plus(h, MacroS1(v, e)), Ch(e, f, g)), K(v, t)), w[t]);
      var t2 := Plus(MacroS0(v, a), Maj(a, b, c));
      h := g;
      g := f;
      f := e;
      e := Plus(d, t1);
      d := c;
      c := b;
      b := a;
      a := Plus(t1, t2);
    }
    r' := Regs(Plus(a, r.a), Plus(b, r.b), Plus(c, r.c), Plus(d, r.d),
               Plus(e, r.e), Plus(f, r.f), Plus(g, r.g), Plus(h, r.h));
  }
}
