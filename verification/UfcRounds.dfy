/** The inner loop of UFC-crypt (crypt/crypt.c) and the big tables it reads. */
module UfcRounds {
  import opened Bits
  import opened Feistel
  import opened DesStandard
  import opened UfcWords
  import opened UfcKeys

  // ----------------------------------------------------------- the sb tables

  /** Eight bits in byte g of an otherwise clear word. */
  function Placed(g: nat, x: Bits): (w: Word)
    requires g < 4 && |x| == 8
    ensures forall o :: 0 <= o < 32 ==> w[o] == (o / 8 == g && x[o % 8])
  {
    seq(32, o requires 0 <= o < 32 => o / 8 == g && x[o % 8])
  }

  /** What the boxes 2g and 2g + 1 contribute to f for their 12 input bits. */
  function Share(t: Tables, g: nat, x: Bits): Word
    requires t.Ok() && g < 4 && |x| == 12
  {
    P(t, Placed(g, S2(t.boxes, g, x)))
  }

  /** Entry j of table g: the share of those boxes for the 12 bits of j, already
      E-expanded under the salt for the next round. */
  function SbEntry(t: Tables, salt: Salt, g: nat, j: nat): Pair
    requires t.Ok() && g < 4
  {
    Expanded(t, salt, Share(t, g, ToBits(12, j)))
  }

  /** Tables g0 and g0 + 1, one after the other. */
  predicate SbOk(t: Tables, salt: Salt, g0: nat, sb: seq<Pair>)
    requires t.Ok() && g0 <= 2
  {
    |sb| == 8192
    && forall n :: 0 <= n < 8192 ==>
         sb[n] == SbEntry(t, salt, g0 + n / 4096, n % 4096)
  }

  /** A half block xored with the shares of tables g0 + 1 and g0 for 24 bits. */
  function PlusShares(t: Tables, g0: nat, l: Word, x: Bits): Word
    requires t.Ok() && g0 <= 2 && |x| == 24
  {
    Xor(Xor(l, Share(t, g0 + 1, x[12..])), Share(t, g0, x[..12]))
  }

  /** The 12 bits that table g is given. */
  function Twelve(x: Key48, g: nat): (y: Bits)
    requires g < 4
    ensures |y| == 12
  {
    x[12 * g..12 * g + 12]
  }

  /** Bit p of all the boxes comes from the pair of boxes for its byte. */
  lemma AllSByte(boxes: SBoxes, x: Key48, p: nat)
    requires BoxesOk(boxes) && p < 32
    ensures AllS(boxes, x)[p] == S2(boxes, p / 8, Twelve(x, p / 8))[p % 8]
  {
    hide S2;
    var g := p / 8;
    if g == 0 {} else if g == 1 {} else if g == 2 {} else { assert g == 3; }
  }

  lemma ShareBit(t: Tables, g: nat, x: Key48, o: nat)
    requires t.Ok() && g < 4 && o < 32
    ensures Share(t, g, Twelve(x, g))[o] == (t.perm32[o] / 8 == g && P(t, AllS(t.boxes, x))[o])
  {
    hide S2, AllS;
    AllSByte(t.boxes, x, t.perm32[o]);
  }

  /** The four shares add up to f. */
  lemma SharesSum(t: Tables, salt: Salt, l: Word, r: Word, k: Key48)
    requires t.Ok()
    ensures var x := Xor(E(t, salt, r), k);
            PlusShares(t, 2, PlusShares(t, 0, l, x[..24]), x[24..]) == Xor(l, F(t, salt, r, k))
  {
    hide Share, P, AllS;
    var x := Xor(E(t, salt, r), k);
    var y := PlusShares(t, 2, PlusShares(t, 0, l, x[..24]), x[24..]);
    assert x[..24][12..] == Twelve(x, 1) && x[..24][..12] == Twelve(x, 0);
    assert x[24..][12..] == Twelve(x, 3) && x[24..][..12] == Twelve(x, 2);
    forall o | 0 <= o < 32
      ensures y[o] == Xor(l, F(t, salt, r, k))[o]
    {
      ShareBit(t, 0, x, o);
      ShareBit(t, 1, x, o);
      ShareBit(t, 2, x, o);
      ShareBit(t, 3, x, o);
    }
  }

  // ----------------------------------------------------------------- offsets

  lemma PowersUsed()
    ensures Pow2(3) == 8 && Pow2(12) == 4096 && Pow2(15) == 32768
  {
    assert Pow2(6) == 64;
    assert Pow2(9) == 512;
  }

  /** A 16-bit half of a marked word, as a byte offset: a multiple of 8 in the
      table that the mark selects. */
  lemma OffsetValue(mark: bool, x: Bits)
    requires |x| == 12
    ensures Val([mark] + x + Zeros(3)) == (if mark then 32768 else 0) + 8 * Val(x)
    ensures Val(x) < 4096
  {
    PowersUsed();
    ValConcat([mark] + x, Zeros(3));
    ValZeros(3);
    ValConcat([mark], x);
    assert Val([mark]) == if mark then 1 else 0;
    ValBound(x);
  }

  /** Bit 15 is the key's mark in the low half; bit 31 is never set. */
  lemma MarkedHalves(x: Bits)
    requires |x| == 24
    ensures Marked(x)[16..] == [true] + x[12..] + Zeros(3)
    ensures Marked(x)[..16] == [false] + x[..12] + Zeros(3)
  {
  }

  /** `*(long32 *) ((char *) sb + v)` on 8-byte entries of two words. */
  function Sba(sb: array<Pair>, v: nat): Word
    requires v % 4 == 0 && v / 8 < sb.Length
    reads sb
  {
    if v % 8 == 0 then sb[v / 8].a else sb[v / 8].b
  }

  lemma SbaEntry(sb: array<Pair>, j: nat)
    requires j < sb.Length
    ensures (8 * j) % 4 == 0 && (8 * j) / 8 < sb.Length && (8 * j + 4) % 4 == 0 && (8 * j + 4) / 8 < sb.Length
    ensures Pair(Sba(sb, 8 * j), Sba(sb, 8 * j + 4)) == sb[j]
  {
    assert (8 * j + 4) % 8 == 4 && (8 * j + 4) / 8 == j;
  }

  /** The two offsets in a keyed word: multiples of 8, the low one in the
      second table of the pair because of the mark, the high one in the first. */
  lemma OffsetsConfined(x: Bits)
    requires |x| == 24
    ensures Val(x[12..]) < 4096 && Val(x[..12]) < 4096
    ensures Field(Marked(x), 0, 16) == 32768 + 8 * Val(x[12..])
    ensures Field(Marked(x), 16, 16) == 8 * Val(x[..12])
  {
    var s := Marked(x);
    MarkedHalves(x);
    FieldIsSlice(s, 0, 16);
    FieldIsSlice(s, 16, 16);
    assert s[16..32] == s[16..] && s[0..16] == s[..16];
    OffsetValue(true, x[12..]);
    OffsetValue(false, x[..12]);
  }

  /** The entry of table g0 (or g0 + 1) that 12 bits select. */
  lemma EntryAt(t: Tables, salt: Salt, g0: nat, sb: seq<Pair>, second: bool, x: Bits)
    requires t.Ok() && g0 <= 2 && SbOk(t, salt, g0, sb) && |x| == 12
    ensures Val(x) < 4096 && |sb| == 8192
    ensures sb[(if second then 4096 else 0) + Val(x)]
         == Expanded(t, salt, Share(t, if second then g0 + 1 else g0, x))
  {
    hide Share, Expanded;
    PowersUsed();
    ValBound(x);
    ToBitsOfVal(x);
    var n := (if second then 4096 else 0) + Val(x);
    assert n / 4096 == (if second then 1 else 0) && n % 4096 == Val(x);
  }

  // ------------------------------------------------------ half a Feistel step

  /** The halves of an expanded pair xored with the two words of a key. */
  lemma KeyedWords(t: Tables, salt: Salt, r: Word, k: Key48)
    requires t.Ok()
    ensures var x := Xor(E(t, salt, r), k); var e := Expanded(t, salt, r);
            Xor(Marked(k[..24]), e.a) == Marked(x[..24]) && Xor(Marked(k[24..]), e.b) == Marked(x[24..])
  {
    var e := E(t, salt, r);
    var x := Xor(e, k);
    SpreadXor(k[..24], e[..24]);
    SpreadXor(k[24..], e[24..]);
    assert Xor(k[..24], e[..24]) == x[..24];
    assert Xor(k[24..], e[24..]) == x[24..];
  }

  /** Two look-ups in a pair of tables with the offsets of one keyed word. */
  method LookUpTwice(t: Tables, sb: array<Pair>, s: Word, l1: Word, l2: Word,
                     ghost salt: Salt, ghost g0: nat, ghost x: Bits, ghost l: Word) returns (m1: Word, m2: Word)
    requires t.Ok() && g0 <= 2 && SbOk(t, salt, g0, sb[..]) && |x| == 24
    requires s == Marked(x) && Pair(l1, l2) == Expanded(t, salt, l)
    ensures Pair(m1, m2) == Expanded(t, salt, PlusShares(t, g0, l, x))
  {
    hide SbOk, Expanded, Share, Marked, Field, Val, Sba;
    OffsetsConfined(x);
    EntryAt(t, salt, g0, sb[..], true, x[12..]);
    EntryAt(t, salt, g0, sb[..], false, x[..12]);
    SbaEntry(sb, 4096 + Val(x[12..]));
    SbaEntry(sb, Val(x[..12]));
    ghost var y := Xor(l, Share(t, g0 + 1, x[12..]));
    ExpandedXor(t, salt, l, Share(t, g0 + 1, x[12..]));
    ExpandedXor(t, salt, y, Share(t, g0, x[..12]));
    var lo, hi := Field(s, 0, 16), Field(s, 16, 16);
    assert lo == 8 * (4096 + Val(x[12..]));
    m1 := Xor(l1, Sba(sb, lo));
    m2 := Xor(l2, Sba(sb, lo + 4));
    assert Pair(m1, m2) == Expanded(t, salt, y);
    m1 := Xor(m1, Sba(sb, hi));
    m2 := Xor(m2, Sba(sb, hi + 4));
  }

  /** One of the two blocks of the loop body: `l` takes in f of `r` under the
      next two key words, and stays an expanded half block. */
  method HalfStep(t: Tables, sb01: array<Pair>, sb23: array<Pair>, k1: Word, k2: Word,
                  r1: Word, r2: Word, l1: Word, l2: Word,
                  ghost salt: Salt, ghost k: Key48, ghost r: Word, ghost l: Word) returns (m1: Word, m2: Word)
    requires t.Ok() && SbOk(t, salt, 0, sb01[..]) && SbOk(t, salt, 2, sb23[..])
    requires k1 == Marked(k[..24]) && k2 == Marked(k[24..])
    requires Pair(r1, r2) == Expanded(t, salt, r) && Pair(l1, l2) == Expanded(t, salt, l)
    ensures Pair(m1, m2) == Expanded(t, salt, Xor(l, F(t, salt, r, k)))
  {
    hide SbOk, Expanded, PlusShares, Marked, F;
    ghost var x := Xor(E(t, salt, r), k);
    KeyedWords(t, salt, r, k);
    var s := Xor(k1, r1);
    m1, m2 := LookUpTwice(t, sb01, s, l1, l2, salt, 0, x[..24], l);
    s := Xor(k2, r2);
    m1, m2 := LookUpTwice(t, sb23, s, m1, m2, salt, 2, x[24..], PlusShares(t, 0, l, x[..24]));
    SharesSum(t, salt, l, r, k);
  }

  // ------------------------------------------------------------ the loops

  /** The four words of the state stand for two half blocks. */
  predicate StateOk(t: Tables, salt: Salt, res: seq<Word>, h: Halves)
    requires t.Ok()
  {
    |res| == 4
    && Pair(res[0], res[1]) == Expanded(t, salt, h.l)
    && Pair(res[2], res[3]) == Expanded(t, salt, h.r)
  }

  /** `_ufc_doit_r`, 32-bit version: `itr` times the 16 rounds, for every
      start that is a salted expansion of two half blocks. */
  method DoIt(t: Tables, keysched: array<Word>, sb01: array<Pair>, sb23: array<Pair>, itr: nat, res: array<Word>,
              ghost salt: Salt, ghost keys: seq<Key48>, ghost h: Halves)
    requires t.Ok() && SbOk(t, salt, 0, sb01[..]) && SbOk(t, salt, 2, sb23[..])
    requires HoldsKeys(keysched[..], keys) && StateOk(t, salt, res[..], h)
    requires res != keysched
    modifies res
    ensures StateOk(t, salt, res[..], CoreIter(RoundFn(t, salt), keys, itr, h))
  {
    hide SbOk, Expanded, Marked, F;
    var l1, l2, r1, r2 := res[0], res[1], res[2], res[3];
    ghost var f := RoundFn(t, salt);
    for n := 0 to itr
      invariant Pair(l1, l2) == Expanded(t, salt, CoreIter(f, keys, n, h).l)
      invariant Pair(r1, r2) == Expanded(t, salt, CoreIter(f, keys, n, h).r)
    {
      ghost var h0 := CoreIter(f, keys, n, h);
      var k := 0;
      for i := 0 to 8
        invariant k == 4 * i
        invariant Pair(l1, l2) == Expanded(t, salt, Rounds(f, keys, 2 * i, h0).l)
        invariant Pair(r1, r2) == Expanded(t, salt, Rounds(f, keys, 2 * i, h0).r)
      {
        ghost var h1 := Rounds(f, keys, 2 * i, h0);
        ghost var h2 := Rounds(f, keys, 2 * i + 1, h0);
        assert keysched[..][2 * (2 * i)] == keysched[k] && keysched[..][2 * (2 * i + 1)] == keysched[k + 2];
        l1, l2 := HalfStep(t, sb01, sb23, keysched[k], keysched[k + 1], r1, r2, l1, l2, salt, keys[2 * i], h1.r, h1.l);
        r1, r2 := HalfStep(t, sb01, sb23, keysched[k + 2], keysched[k + 3], l1, l2, r1, r2, salt, keys[2 * i + 1], h2.r, h2.l);
        k := k + 4;
      }
      l1, l2, r1, r2 := r1, r2, l1, l2;
    }
    res[0], res[1], res[2], res[3] := l1, l2, r1, r2;
  }
}
