/** The 64-bit version of the inner loop (crypt/crypt.c, `_UFC_64_`): a pair of
    words is packed into one, and a round's four look-ups come in another order. */
module UfcRounds64 {
  import opened Bits
  import opened Feistel
  import opened DesStandard
  import opened UfcWords
  import opened UfcKeys
  import opened UfcRounds

  function Pack(p: Pair): Block { p.a + p.b }

  /** `((long64) a << 32) | (long64) b` */
  function Join64(a: Word, b: Word): Block {
    Or(Shl(Zeros(32) + a, 32), Zeros(32) + b)
  }

  lemma Join64IsPack(a: Word, b: Word)
    ensures Join64(a, b) == a + b
  {
    var x, y := Shl(Zeros(32) + a, 32), Zeros(32) + b;
    forall i | 0 <= i < 64
      ensures Join64(a, b)[i] == (a + b)[i]
    {
      if i < 32 { assert x[i] == a[i] && !y[i]; } else { assert !x[i] && y[i] == b[i - 32]; }
    }
  }

  /** The packed tables hold the entries of the unpacked ones. */
  predicate Packs(sb64: seq<Block>, sb: seq<Pair>) {
    |sb64| == |sb| && forall n :: 0 <= n < |sb| ==> sb64[n] == Pack(sb[n])
  }

  /** A packed key schedule: one word for each round. */
  predicate PacksKeys(ks64: seq<Block>, ks: seq<Word>) {
    |ks| == 32 && |ks64| == 16 && forall n :: 0 <= n < 16 ==> ks64[n] == Pack(Pair(ks[2 * n], ks[2 * n + 1]))
  }

  function Sba64(sb: array<Block>, v: nat): Block
    requires v % 8 == 0 && v / 8 < sb.Length
    reads sb
  {
    sb[v / 8]
  }

  lemma PackXor(p: Pair, q: Pair)
    ensures Xor(Pack(p), Pack(q)) == Pack(PairXor(p, q))
  {
  }

  lemma PackedFields(a: Word, b: Word)
    ensures Field(a + b, 0, 16) == Field(b, 0, 16)
    ensures Field(a + b, 16, 16) == Field(b, 16, 16)
    ensures Field(a + b, 32, 16) == Field(a, 0, 16)
    ensures Val(Shr(a + b, 48)) == Field(a, 16, 16)
  {
    var s := a + b;
    FieldIsSlice(s, 0, 16);
    FieldIsSlice(b, 0, 16);
    assert s[48..64] == b[16..32];
    FieldIsSlice(s, 16, 16);
    FieldIsSlice(b, 16, 16);
    assert s[32..48] == b[0..16];
    FieldIsSlice(s, 32, 16);
    FieldIsSlice(a, 0, 16);
    assert s[16..32] == a[16..32];
    FieldIsSlice(a, 16, 16);
    assert Shr(s, 48) == Zeros(48) + a[0..16];
    ValConcat(Zeros(48), a[0..16]);
    ValZeros(48);
  }

  lemma SharesCommute(t: Tables, l: Word, a: Bits, b: Bits)
    requires t.Ok() && |a| == 24 && |b| == 24
    ensures PlusShares(t, 0, PlusShares(t, 2, l, b), a) == PlusShares(t, 2, PlusShares(t, 0, l, a), b)
  {
    hide Share;
    assert PlusShares(t, 0, PlusShares(t, 2, l, b), a) == PlusShares(t, 2, PlusShares(t, 0, l, a), b);
  }

  /** Two look-ups in a pair of packed tables. */
  method LookUpTwice64(t: Tables, sb64: array<Block>, lo: nat, hi: nat, l64: Block,
                       ghost sb: seq<Pair>, ghost salt: Salt, ghost g0: nat, ghost x: Bits, ghost l: Word) returns (m64: Block)
    requires t.Ok() && g0 <= 2 && SbOk(t, salt, g0, sb) && Packs(sb64[..], sb) && |x| == 24
    requires lo == Field(Marked(x), 0, 16) && hi == Field(Marked(x), 16, 16)
    requires l64 == Pack(Expanded(t, salt, l))
    ensures m64 == Pack(Expanded(t, salt, PlusShares(t, g0, l, x)))
  {
    hide SbOk, Expanded, Share, Marked, Field, Val, Pack;
    OffsetsConfined(x);
    EntryAt(t, salt, g0, sb, true, x[12..]);
    EntryAt(t, salt, g0, sb, false, x[..12]);
    ghost var s1, s0 := Share(t, g0 + 1, x[12..]), Share(t, g0, x[..12]);
    ghost var y := Xor(l, s1);
    ExpandedXor(t, salt, l, s1);
    PackXor(Expanded(t, salt, l), Expanded(t, salt, s1));
    ExpandedXor(t, salt, y, s0);
    PackXor(Expanded(t, salt, y), Expanded(t, salt, s0));
    assert lo / 8 == 4096 + Val(x[12..]) && lo % 8 == 0;
    assert hi / 8 == Val(x[..12]) && hi % 8 == 0;
    m64 := Xor(l64, Sba64(sb64, lo));
    assert m64 == Pack(Expanded(t, salt, y));
    m64 := Xor(m64, Sba64(sb64, hi));
  }

  method HalfStep64(t: Tables, sb01: array<Block>, sb23: array<Block>, k64: Block, r64: Block, l64: Block,
                    ghost u01: seq<Pair>, ghost u23: seq<Pair>,
                    ghost salt: Salt, ghost k: Key48, ghost r: Word, ghost l: Word) returns (m64: Block)
    requires t.Ok() && SbOk(t, salt, 0, u01) && SbOk(t, salt, 2, u23)
    requires Packs(sb01[..], u01) && Packs(sb23[..], u23)
    requires k64 == Marked(k[..24]) + Marked(k[24..])
    requires r64 == Pack(Expanded(t, salt, r)) && l64 == Pack(Expanded(t, salt, l))
    ensures m64 == Pack(Expanded(t, salt, Xor(l, F(t, salt, r, k))))
  {
    hide SbOk, Expanded, PlusShares, Marked, F, Field, Packs;
    ghost var x := Xor(E(t, salt, r), k);
    KeyedWords(t, salt, r, k);
    var s := Xor(k64, r64);
    assert s == Marked(x[..24]) + Marked(x[24..]) by {
      PackXor(Pair(Marked(k[..24]), Marked(k[24..])), Expanded(t, salt, r));
    }
    PackedFields(Marked(x[..24]), Marked(x[24..]));
    m64 := LookUpTwice64(t, sb23, Field(s, 0, 16), Field(s, 16, 16), l64, u23, salt, 2, x[24..], l);
    m64 := LookUpTwice64(t, sb01, Field(s, 32, 16), Val(Shr(s, 48)), m64, u01, salt, 0, x[..24], PlusShares(t, 2, l, x[24..]));
    SharesCommute(t, l, x[..24], x[24..]);
    SharesSum(t, salt, l, r, k);
  }

  /** `_ufc_doit_r`, 64-bit version. */
  method DoIt64(t: Tables, keysched: array<Block>, sb01: array<Block>, sb23: array<Block>, itr: nat, res: array<Word>,
                ghost u01: seq<Pair>, ghost u23: seq<Pair>, ghost ks: seq<Word>,
                ghost salt: Salt, ghost keys: seq<Key48>, ghost h: Halves)
    requires t.Ok() && SbOk(t, salt, 0, u01) && SbOk(t, salt, 2, u23)
    requires Packs(sb01[..], u01) && Packs(sb23[..], u23)
    requires HoldsKeys(ks, keys) && PacksKeys(keysched[..], ks) && StateOk(t, salt, res[..], h)
    modifies res
    ensures StateOk(t, salt, res[..], CoreIter(RoundFn(t, salt), keys, itr, h))
  {
    hide SbOk, Expanded, Marked, F, Packs;
    Join64IsPack(res[0], res[1]);
    Join64IsPack(res[2], res[3]);
    var l, r := Join64(res[0], res[1]), Join64(res[2], res[3]);
    ghost var f := RoundFn(t, salt);
    for n := 0 to itr
      invariant l == Pack(Expanded(t, salt, CoreIter(f, keys, n, h).l))
      invariant r == Pack(Expanded(t, salt, CoreIter(f, keys, n, h).r))
    {
      ghost var h0 := CoreIter(f, keys, n, h);
      for i := 0 to 8
        invariant l == Pack(Expanded(t, salt, Rounds(f, keys, 2 * i, h0).l))
        invariant r == Pack(Expanded(t, salt, Rounds(f, keys, 2 * i, h0).r))
      {
        ghost var h1 := Rounds(f, keys, 2 * i, h0);
        ghost var h2 := Rounds(f, keys, 2 * i + 1, h0);
        assert keysched[..][2 * i] == keysched[2 * i] && keysched[..][2 * i + 1] == keysched[2 * i + 1];
        l := HalfStep64(t, sb01, sb23, keysched[2 * i], r, l, u01, u23, salt, keys[2 * i], h1.r, h1.l);
        r := HalfStep64(t, sb01, sb23, keysched[2 * i + 1], l, r, u01, u23, salt, keys[2 * i + 1], h2.r, h2.l);
      }
      l, r := r, l;
    }
    UnpackWords(l);
    UnpackWords(r);
    res[0], res[1] := Shr(l, 32)[32..], And(l, LowMask(64, 32))[32..];
    res[2], res[3] := Shr(r, 32)[32..], And(r, LowMask(64, 32))[32..];
  }

  /** `l >> 32` and `l & 0xffffffff` are the two packed words. */
  lemma UnpackWords(l: Block)
    ensures Shr(l, 32)[32..] == l[..32]
    ensures And(l, LowMask(64, 32))[32..] == l[32..]
  {
  }
}
