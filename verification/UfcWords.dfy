/** How UFC-crypt lays out 48-bit values: two 32-bit words of 24 bits each, in
    the positions that `BITMASK` names, so that after xoring with a key word a
    16-bit half of the word is a byte offset into a pair of tables of 8-byte
    entries. */
module UfcWords {
  import opened Bits
  import opened DesStandard

  /** The index of the bit that `BITMASK[i]` selects in a 32-bit word. */
  function BitMask(i: nat): (o: nat)
    requires i < 24
    ensures o < 32
  {
    if i < 12 then i + 1 else i + 5
  }

  /** Two words that stand for 48 bits. */
  datatype Pair = Pair(a: Word, b: Word)

  function PairXor(p: Pair, q: Pair): Pair {
    Pair(Xor(p.a, q.a), Xor(p.b, q.b))
  }

  function Spread(x: Bits): (w: Word)
    requires |x| == 24
    ensures forall i :: 0 <= i < 24 ==> w[BitMask(i)] == x[i]
    ensures forall o :: 0 <= o < 32 ==>
              w[o] == ((1 <= o <= 12 && x[o - 1]) || (17 <= o <= 28 && x[o - 5]))
  {
    seq(32, o requires 0 <= o < 32 => (1 <= o <= 12 && x[o - 1]) || (17 <= o <= 28 && x[o - 5]))
  }

  lemma IsSpread(w: Word, x: Bits)
    requires |x| == 24
    requires forall i :: 0 <= i < 24 ==> w[BitMask(i)] == x[i]
    requires forall o :: 0 <= o < 32 && !(1 <= o <= 12) && !(17 <= o <= 28) ==> !w[o]
    ensures w == Spread(x)
  {
    forall o | 0 <= o < 32
      ensures w[o] == Spread(x)[o]
    {
      if 1 <= o <= 12 { assert o == BitMask(o - 1); }
      if 17 <= o <= 28 { assert o == BitMask(o - 5); }
    }
  }

  /** A key word: spread, and bit 15 set to reach the second table of a pair. */
  function Marked(x: Bits): (w: Word)
    requires |x| == 24
  {
    Or(Spread(x), Unit(32, 16))
  }

  function SpreadPair(x: Key48): Pair {
    Pair(Spread(x[..24]), Spread(x[24..]))
  }

  /** A half block as the loop keeps it: E-expanded under the salt, spread. */
  function Expanded(t: Tables, salt: Salt, half: Word): Pair
    requires t.Ok()
  {
    SpreadPair(E(t, salt, half))
  }

  // ------------------------------------------------------- fields of a word

  /** `(w >> s) & (2^k - 1)` as a number. */
  function Field(w: Bits, s: nat, k: nat): nat
    requires k <= |w|
  {
    Val(And(Shr(w, s), LowMask(|w|, k)))
  }

  lemma FieldIsSlice(w: Bits, s: nat, k: nat)
    requires s + k <= |w|
    ensures Field(w, s, k) == Val(w[|w| - s - k..|w| - s])
  {
    var n := |w|;
    assert And(Shr(w, s), LowMask(n, k)) == Zeros(n - k) + w[n - s - k..n - s];
    ValConcat(Zeros(n - k), w[n - s - k..n - s]);
    ValZeros(n - k);
  }

  // ----------------------------------------------------------------- salting

  /** `x = (k[0] ^ k[1]) & saltbits; k[0] ^= x; k[1] ^= x` */
  function Shuffle(p: Pair, saltbits: Word): (q: Pair)
    ensures forall o :: 0 <= o < 32 ==> q.a[o] == (if saltbits[o] then p.b[o] else p.a[o])
    ensures forall o :: 0 <= o < 32 ==> q.b[o] == (if saltbits[o] then p.a[o] else p.b[o])
  {
    var x := And(Xor(p.a, p.b), saltbits);
    Pair(Xor(p.a, x), Xor(p.b, x))
  }

  /** The same on one 64-bit word: `x = ((k >> 32) ^ k) & saltbits; k ^= (x << 32) | x`. */
  function Shuffle64(k: Block, saltbits: Block): Block {
    var x := And(Xor(Shr(k, 32), k), saltbits);
    Xor(k, Or(Shl(x, 32), x))
  }

  /** Shuffling by a and then by b is shuffling by a ^ b. */
  lemma ShuffleTwice(p: Pair, a: Word, b: Word)
    ensures Shuffle(Shuffle(p, a), b) == Shuffle(p, Xor(a, b))
  {
    assert Shuffle(Shuffle(p, a), b).a == Shuffle(p, Xor(a, b)).a;
    assert Shuffle(Shuffle(p, a), b).b == Shuffle(p, Xor(a, b)).b;
  }

  /** The 64-bit shuffle does to a packed entry what the 32-bit one does to its halves. */
  lemma Shuffle64Agrees(p: Pair, saltbits: Word)
    ensures Shuffle64(p.a + p.b, Zeros(32) + saltbits)
         == Shuffle(p, saltbits).a + Shuffle(p, saltbits).b
  {
    var k, s := p.a + p.b, Zeros(32) + saltbits;
    var x := And(Xor(Shr(k, 32), k), s);
    forall i | 0 <= i < 64
      ensures Shuffle64(k, s)[i] == (Shuffle(p, saltbits).a + Shuffle(p, saltbits).b)[i]
    {
      assert Or(Shl(x, 32), x)[i] == (if i < 32 then x[i + 32] else x[i]);
    }
  }

  lemma ShuffleSpread(x: Key48, y: Key48, salt: Salt)
    requires forall i :: 0 <= i < 24 ==> y[i] == (if salt[i] then x[i + 24] else x[i])
    requires forall i :: 0 <= i < 24 ==> y[i + 24] == (if salt[i] then x[i] else x[i + 24])
    ensures Shuffle(SpreadPair(x), Spread(salt)) == SpreadPair(y)
  {
    var q, s := SpreadPair(y), Shuffle(SpreadPair(x), Spread(salt));
    assert forall i :: 0 <= i < 24 ==> y[24..][i] == y[i + 24];
    assert forall o :: 0 <= o < 32 ==> s.a[o] == q.a[o];
    assert forall o :: 0 <= o < 32 ==> s.b[o] == q.b[o];
    assert s.a == q.a && s.b == q.b;
  }

  /** Shuffling an entry is salting the E selection it was expanded with. */
  lemma ShuffleSalts(t: Tables, salt: Salt, half: Word)
    requires t.Ok()
    ensures Shuffle(Expanded(t, Zeros(24), half), Spread(salt)) == Expanded(t, salt, half)
    ensures Shuffle(Expanded(t, salt, half), Spread(salt)) == Expanded(t, Zeros(24), half)
  {
    var x, y := E(t, Zeros(24), half), E(t, salt, half);
    ShuffleSpread(x, y, salt);
    ShuffleSpread(y, x, salt);
  }

  // ------------------------------------------------------------- linearity

  lemma SpreadXor(x: Bits, y: Bits)
    requires |x| == 24 && |y| == 24
    ensures Xor(Spread(x), Spread(y)) == Spread(Xor(x, y))
    ensures Xor(Marked(x), Spread(y)) == Marked(Xor(x, y))
  {
  }

  lemma ExpandedXor(t: Tables, salt: Salt, x: Word, y: Word)
    requires t.Ok()
    ensures PairXor(Expanded(t, salt, x), Expanded(t, salt, y)) == Expanded(t, salt, Xor(x, y))
  {
    var ex, ey, exy := E(t, salt, x), E(t, salt, y), E(t, salt, Xor(x, y));
    assert exy == Xor(ex, ey);
    assert Xor(ex[..24], ey[..24]) == exy[..24];
    assert Xor(ex[24..], ey[24..]) == exy[24..];
    SpreadXor(ex[..24], ey[..24]);
    SpreadXor(ex[24..], ey[24..]);
  }
}
