/** The tables of the 64-bit build (crypt/crypt_util.c, `_UFC_64_`): a pair of
    words is one 64-bit word in the big tables and in the key table. */
module UfcWide {
  import opened Bits
  import opened Feistel
  import opened DesStandard
  import opened UfcTables
  import opened UfcWords
  import opened UfcKeys
  import opened UfcRounds
  import opened UfcRounds64
  import opened UfcInit

  // ------------------------------------------------------------- the big tables

  /** Tables g0 and g0 + 1 as the 32-bit build has them. */
  ghost function Entries(t: Tables, salt: Salt, g0: nat): (sb: seq<Pair>)
    requires t.Ok() && g0 <= 2
    ensures SbOk(t, salt, g0, sb)
  {
    seq(8192, n requires 0 <= n < 8192 => SbEntry(t, salt, g0 + n / 4096, n % 4096))
  }

  /** Packed tables g0 and g0 + 1 for a salt. */
  ghost predicate WideOk(t: Tables, salt: Salt, g0: nat, sb64: seq<Block>)
    requires t.Ok() && g0 <= 2
  {
    Packs(sb64, Entries(t, salt, g0))
  }

  lemma OrPacked(a: Word, b: Word, x: Word, y: Word)
    ensures Or(a + b, Join64(x, y)) == Or(a, x) + Or(b, y)
  {
    Join64IsPack(x, y);
  }

  /** The look-ups that make one packed entry. */
  method PermuteExpand64(t: Tables, eperm: Rows, x: Word) returns (v: Block)
    requires t.Ok() && Implements(eperm, 8, 8, 32, EpermMoves(t))
    ensures v == Pack(Expanded(t, Zeros(24), P(t, x)))
  {
    hide Gathers, Implements, EpermMoves, Val, ByteOf, E, P, Spread, Field, Tables.Ok, Or, ByteChunks, Join64;
    v := Zeros(64);
    ghost var a: Bits, b: Bits := Zeros(32), Zeros(32);
    assert Zeros(64) == a + b;
    GathersNothing(32, EpermMoves(t));
    ByteChunksStart(x);
    for c := 0 to 4
      invariant |a| == 32 && |b| == 32 && v == a + b
      invariant Gathers(a, 32, EpermMoves(t), ByteChunks(x, 0, c))
      invariant Gathers(b, 32, EpermMoves(t), ByteChunks(x, 1, c))
    {
      ByteField(x, c);
      ByteChunksStep(x, 0, c);
      ByteChunksStep(x, 1, c);
      GathersMore(eperm, 8, 8, 32, EpermMoves(t), a, ByteChunks(x, 0, c), 2 * c, ByteOf(x, 2 * c));
      GathersMore(eperm, 8, 8, 32, EpermMoves(t), b, ByteChunks(x, 1, c), 2 * c + 1, ByteOf(x, 2 * c + 1));
      var w0, w1 := eperm[2 * c][Field(x, 24 - 8 * c, 8)], eperm[2 * c + 1][Field(x, 24 - 8 * c, 8)];
      OrPacked(a, b, w0, w1);
      v := Or(v, Join64(w0, w1));
      a, b := Or(a, w0), Or(b, w1);
    }
    EpermGathered(t, x, 0, a);
    EpermGathered(t, x, 1, b);
    ghost var e := E(t, Zeros(24), P(t, x));
    assert e[24 * 0..24 * 0 + 24] == e[..24] && e[24 * 1..24 * 1 + 24] == e[24..];
  }

  /** Fill packed table sg, from entry `at` of its array on. */
  method FillSb64(t: Tables, eperm: Rows, sg: nat, sb: array<Block>, at: nat)
    requires t.Ok() && Implements(eperm, 8, 8, 32, EpermMoves(t))
    requires sg < 4 && at + 4096 <= sb.Length
    modifies sb
    ensures forall n :: at <= n < at + 4096 ==> sb[n] == Pack(SbEntry(t, Zeros(24), sg, n - at))
    ensures forall n :: 0 <= n < sb.Length && !(at <= n < at + 4096) ==> sb[n] == old(sb[n])
  {
    hide Implements, Expanded, Share, SLookup, ToBits, P, Shl, BoxesOk, Pack;
    for j1 := 0 to 64
      invariant forall n :: at <= n < at + 64 * j1 ==> sb[n] == Pack(SbEntry(t, Zeros(24), sg, n - at))
      invariant forall n :: 0 <= n < sb.Length && !(at <= n < at + 4096) ==> sb[n] == old(sb[n])
    {
      var s1 := SLookup(t.boxes, 2 * sg, j1);
      for j2 := 0 to 64
        invariant forall n :: at <= n < at + 64 * j1 + j2 ==> sb[n] == Pack(SbEntry(t, Zeros(24), sg, n - at))
        invariant forall n :: 0 <= n < sb.Length && !(at <= n < at + 4096) ==> sb[n] == old(sb[n])
      {
        var s2 := SLookup(t.boxes, 2 * sg + 1, j2);
        var toPermute := Shl(ToBits(32, 16 * s1 + s2), 24 - 8 * sg);
        EntryIsShare(t, sg, j1, j2);
        var p := PermuteExpand64(t, eperm, toPermute);
        assert p == Pack(SbEntry(t, Zeros(24), sg, 64 * j1 + j2));
        sb[at + (64 * j1 + j2)] := p;
      }
    }
  }

  lemma FilledWide(t: Tables, g0: nat, sb: seq<Block>)
    requires t.Ok() && g0 <= 2 && |sb| == 8192
    requires forall n :: 0 <= n < 4096 ==> sb[n] == Pack(SbEntry(t, Zeros(24), g0, n - 0))
    requires forall n :: 4096 <= n < 8192 ==> sb[n] == Pack(SbEntry(t, Zeros(24), g0 + 1, n - 4096))
    ensures WideOk(t, Zeros(24), g0, sb)
  {
    hide SbEntry, Pack;
  }

  /** `shuffle_sb`, 64-bit version, on the 4096 entries from `at` on. */
  method ShuffleSb64(sb: array<Block>, at: nat, saltbits: Block)
    requires at + 4096 <= sb.Length
    modifies sb
    ensures forall n :: at <= n < at + 4096 ==> sb[n] == Shuffle64(old(sb[n]), saltbits)
    ensures forall n :: 0 <= n < sb.Length && !(at <= n < at + 4096) ==> sb[n] == old(sb[n])
  {
    hide Shuffle64;
    for k := at to at + 4096
      invariant forall n :: at <= n < k ==> sb[n] == Shuffle64(old(sb[n]), saltbits)
      invariant forall n :: 0 <= n < sb.Length && !(at <= n < k) ==> sb[n] == old(sb[n])
    {
      sb[k] := Shuffle64(sb[k], saltbits);
    }
  }

  /** A packed entry shuffled by the difference of two salts. */
  lemma WideEntry(p: Pair, q: Pair, k: Block, saltbits: Word)
    requires k == Pack(p) && q == Shuffle(p, saltbits)
    ensures Shuffle64(k, Zeros(32) + saltbits) == Pack(q)
  {
    hide Shuffle, Shuffle64;
    Shuffle64Agrees(p, saltbits);
  }

  // --------------------------------------------------------------- the key table

  /** The words of a key table, as the 32-bit build has them. */
  ghost function KeyWords(keys: seq<Key48>): (ks: seq<Word>)
    requires |keys| == 16
    ensures |ks| == 32 && forall p :: 0 <= p < 32 ==> ks[p] == Marked(KeyHalf24(keys[p / 2], p % 2))
  {
    hide Marked;
    seq(32, p requires 0 <= p < 32 => Marked(KeyHalf24(keys[p / 2], p % 2)))
  }

  function KeyHalf24(k: Key48, h: nat): (x: Bits)
    ensures |x| == 24
  {
    if h == 0 then k[..24] else k[24..]
  }

  lemma KeyWordsHold(keys: seq<Key48>)
    requires |keys| == 16
    ensures HoldsKeys(KeyWords(keys), keys)
  {
    hide Marked;
    var ks := KeyWords(keys);
    forall n | 0 <= n < 16 ensures ks[2 * n] == Marked(keys[n][..24]) && ks[2 * n + 1] == Marked(keys[n][24..]) {
      assert (2 * n) / 2 == n && (2 * n + 1) / 2 == n;
    }
  }

  ghost predicate HoldsWide(ks64: seq<Block>, keys: seq<Key48>) {
    |keys| == 16 && PacksKeys(ks64, KeyWords(keys))
  }

  lemma WideKey(ks64: seq<Block>, keys: seq<Key48>)
    requires |keys| == 16 && |ks64| == 16
    requires forall n :: 0 <= n < 16 ==> ks64[n] == Marked(keys[n][..24]) + Marked(keys[n][24..])
    ensures HoldsWide(ks64, keys)
  {
    hide Marked;
    KeyWordsHold(keys);
  }

  lemma WideKeyAt(ks64: seq<Block>, keys: seq<Key48>, n: nat)
    requires HoldsWide(ks64, keys) && n < 16
    ensures |ks64| == 16 && ks64[n] == Marked(keys[n][..24]) + Marked(keys[n][24..])
  {
    hide Marked;
    KeyWordsHold(keys);
  }

  /** Nothing is gathered above the low 32 bits. */
  lemma Pc2High(t: Tables, c: Bits, d: Bits, second: bool, v: Bits)
    requires t.Ok() && |c| == 28 && |d| == 28
    requires Gathers(v, 64, Pc2Moves(t, 64), HalfSeptets(c, d, second))
    ensures |v| == 64 && v[..32] == Zeros(32)
  {
    hide HalfSeptets, Gathers;
    GathersWidth(v, 64, Pc2Moves(t, 64), HalfSeptets(c, d, second));
    forall o | 0 <= o < 32 ensures !v[o] {
      GatheredClear(v, 64, Pc2Moves(t, 64), HalfSeptets(c, d, second), o);
    }
  }

  /** `v << 32`, the second half OR-ed in, and both marks. */
  lemma JoinHalves(u1: Block, u2: Block, x: Bits, y: Bits)
    requires |x| == 24 && |y| == 24 && u1[32..] == Spread(x) && u2 == Zeros(32) + Spread(y)
    ensures Or(Or(Shl(u1, 32), u2), Or(Unit(64, 16), Unit(64, 48))) == Marked(x) + Marked(y)
  {
    hide Spread;
    var v := Or(Or(Shl(u1, 32), u2), Or(Unit(64, 16), Unit(64, 48)));
    forall i | 0 <= i < 64 ensures v[i] == (Marked(x) + Marked(y))[i] {
      if i < 32 { assert Shl(u1, 32)[i] == u1[32..][i] && !u2[i]; } else { assert !Shl(u1, 32)[i] && u2[i] == Spread(y)[i - 32]; }
    }
  }

  /** A round key in one word. */
  method KeyWord64(t: Tables, tab: Rows, v1: Bits, v2: Bits, ghost c: Bits, ghost d: Bits, ghost k: Key48) returns (w: Block)
    requires t.Ok() && Rotating(v1, 64, c) && Rotating(v2, 64, d) && |c| == 28 && |d| == 28
    requires Implements(tab, 8, 7, 64, Pc2Moves(t, 64))
    requires forall i :: 0 <= i < 48 ==> k[i] == (c + d)[t.pc2[i]]
    ensures w == Marked(k[..24]) + Marked(k[24..])
  {
    hide Gathers, Implements, Pc2Moves, Rotating, Spread, Marked;
    var u1 := LookUpSeptets(t, tab, 64, 0, v1, c);
    Pc2Gathered(t, 64, c, d, false, k, u1);
    var u2 := LookUpSeptets(t, tab, 64, 4, v2, d);
    Pc2Gathered(t, 64, c, d, true, k, u2);
    Pc2High(t, c, d, true, u2);
    assert u2 == u2[..32] + u2[32..];
    JoinHalves(u1, u2, k[..24], k[24..]);
    w := Or(Or(Shl(u1, 32), u2), Or(Unit(64, 16), Unit(64, 48)));
  }

  /** `_ufc_mk_keytab_r`, 64-bit version. */
  method MakeWideKeys(t: Tables, pc1tab: Rows, pc2tab: Rows, key: seq<Bits>) returns (words: seq<Block>)
    requires t.Ok() && KeyBytesOk(key)
    requires Implements(pc1tab, 16, 7, 64, Pc1Moves(t, 64))
    requires Implements(pc2tab, 8, 7, 64, Pc2Moves(t, 64))
    ensures HoldsWide(words, KeySchedule(t, KeyBlock(key)))
  {
    hide Implements, Pc1Moves, Pc2Moves, Marked, RotateLeft, KeyBlock, HoldsWide;
    var v1, v2 := PermuteKey(t, pc1tab, 64, key);
    ghost var k := KeyBlock(key);
    words := [];
    for i := 0 to 16
      invariant |words| == i
      invariant Rotating(v1, 64, KeyHalf(t, k, false, i))
      invariant Rotating(v2, 64, KeyHalf(t, k, true, i))
      invariant forall n :: 0 <= n < i ==> words[n] == Marked(RoundKey(t, k, n)[..24]) + Marked(RoundKey(t, k, n)[24..])
    {
      UnmaskedRotation(v1, 64, KeyHalf(t, k, false, i), t.rots[i]);
      UnmaskedRotation(v2, 64, KeyHalf(t, k, true, i), t.rots[i]);
      v1 := Or(Shl(v1, t.rots[i]), Shr(v1, 28 - t.rots[i]));
      v2 := Or(Shl(v2, t.rots[i]), Shr(v2, 28 - t.rots[i]));
      var w := KeyWord64(t, pc2tab, v1, v2, KeyHalf(t, k, false, i + 1), KeyHalf(t, k, true, i + 1), RoundKey(t, k, i));
      words := words + [w];
    }
    WideKey(words, KeySchedule(t, k));
  }

  /** Reverse the order of the round keys in place, one word each. */
  method ReverseWide(ks: array<Block>, ghost keys: seq<Key48>)
    requires HoldsWide(ks[..], keys)
    modifies ks
    ensures HoldsWide(ks[..], Reverse(keys))
  {
    hide HoldsWide, Marked;
    WideKeyAt(ks[..], keys, 0);
    ghost var words := ks[..];
    for i := 0 to 8
      invariant forall p :: 0 <= p < 16 ==> ks[p] == words[if i <= p <= 15 - i then p else 15 - p]
    {
      var x := ks[15 - i];
      ks[15 - i] := ks[i];
      ks[i] := x;
    }
    ghost var back := Reverse(keys);
    HoldsCount(words, keys);
    forall n | 0 <= n < 16 ensures ks[..][n] == Marked(back[n][..24]) + Marked(back[n][24..]) { WideKeyAt(words, keys, 15 - n); }
    WideKey(ks[..], back);
  }

  lemma HoldsCount(ks64: seq<Block>, keys: seq<Key48>)
    requires HoldsWide(ks64, keys)
    ensures |keys| == 16
  {
  }
}
