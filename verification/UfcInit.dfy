/** The tables that `__init_des_r` builds beside the two for keys:
    `eperm32tab`, `e_inverse`, `efp` and the four sb tables. */
module UfcInit {
  import opened Bits
  import opened DesStandard
  import opened UfcTables
  import opened UfcWords
  import opened UfcRounds

  // ------------------------------------------------------------- eperm32tab

  /** The permutation P and the E selection at once: row 2 * byte + word. */
  function EpermMoves(t: Tables): (ms: seq<Move>)
    requires t.Ok()
    ensures |ms| == 48 && MovesOk(ms, 8, 8, 32)
    ensures forall bit :: 0 <= bit < 48 ==>
              ms[bit] == Move(2 * (t.perm32[t.esel[bit]] / 8) + bit / 24, t.perm32[t.esel[bit]] % 8, BitMask(bit % 24))
  {
    seq(48, bit requires 0 <= bit < 48 =>
      Move(2 * (t.perm32[t.esel[bit]] / 8) + bit / 24, t.perm32[t.esel[bit]] % 8, BitMask(bit % 24)))
  }

  /** Byte c of a word. */
  function ByteOf(x: Word, r: nat): (b: Bits)
    requires r < 8
    ensures |b| == 8
  {
    x[8 * (r / 2)..8 * (r / 2) + 8]
  }

  /** The first n bytes of a word, in the rows for result word h. */
  ghost function ByteChunks(x: Word, h: nat, n: nat): Chunks
    requires n <= 4
  {
    map r: nat | 0 <= r < 2 * n && r % 2 == h :: ByteOf(x, r)
  }

  lemma ByteChunksStart(x: Word)
    ensures ByteChunks(x, 0, 0) == map[] && ByteChunks(x, 1, 0) == map[]
  {
  }

  lemma ByteChunksStep(x: Word, h: nat, c: nat)
    requires h < 2 && c < 4
    ensures 2 * c + h !in ByteChunks(x, h, c)
    ensures ByteChunks(x, h, c + 1) == ByteChunks(x, h, c)[2 * c + h := ByteOf(x, 2 * c + h)]
  {
    hide ByteOf;
  }

  /** Only one move in the rows for word h goes to the place of bit i. */
  lemma EpermAlone(t: Tables, h: nat, i: nat, j: nat)
    requires t.Ok() && h < 2 && i < 24 && j < 48
    requires EpermMoves(t)[j].row % 2 == h && EpermMoves(t)[j].out == BitMask(i)
    ensures j == 24 * h + i
  {
    var q := t.perm32[t.esel[j]] / 8;
    assert EpermMoves(t)[j].row == 2 * q + j / 24;
    assert j % 24 == i;
  }

  lemma EpermBit(t: Tables, x: Word, h: nat, v: Bits, i: nat)
    requires t.Ok() && h < 2 && i < 24
    requires Gathers(v, 32, EpermMoves(t), ByteChunks(x, h, 4))
    ensures |v| == 32 && v[BitMask(i)] == E(t, Zeros(24), P(t, x))[24 * h + i]
  {
    hide Gathers, EpermMoves, Zeros;
    var ms, chunks := EpermMoves(t), ByteChunks(x, h, 4);
    GathersWidth(v, 32, ms, chunks);
    var bit := 24 * h + i;
    var p := t.perm32[t.esel[bit]];
    assert bit / 24 == h && bit % 24 == i;
    assert ms[bit] == Move(2 * (p / 8) + h, p % 8, BitMask(i));
    assert (2 * (p / 8) + h) / 2 == p / 8 && (2 * (p / 8) + h) % 2 == h;
    assert ByteOf(x, 2 * (p / 8) + h)[p % 8] == x[p];
    forall j | 0 <= j < 48 && ms[j].row in chunks && ms[j].out == ms[bit].out
      ensures j == bit
    {
      EpermAlone(t, h, i, j);
    }
    GatheredBit(v, 32, ms, chunks, bit);
    assert SaltedPlace(Zeros(24), bit) == bit;
  }

  lemma EpermGathered(t: Tables, x: Word, h: nat, v: Word)
    requires t.Ok() && h < 2
    requires Gathers(v, 32, EpermMoves(t), ByteChunks(x, h, 4))
    ensures v == Spread(E(t, Zeros(24), P(t, x))[24 * h..24 * h + 24])
  {
    hide ByteChunks, Spread;
    var y := E(t, Zeros(24), P(t, x))[24 * h..24 * h + 24];
    forall i | 0 <= i < 24
      ensures v[BitMask(i)] == y[i]
    {
      EpermBit(t, x, h, v, i);
    }
    forall o | 0 <= o < 32 && !(1 <= o <= 12) && !(17 <= o <= 28)
      ensures !v[o]
    {
      GatheredClear(v, 32, EpermMoves(t), ByteChunks(x, h, 4), o);
    }
    IsSpread(v, y);
  }

  /** The look-ups that make one sb entry: P and E of a word, four bytes. */
  method PermuteExpand(t: Tables, eperm: Rows, x: Word) returns (p: Pair)
    requires t.Ok() && Implements(eperm, 8, 8, 32, EpermMoves(t))
    ensures p == Expanded(t, Zeros(24), P(t, x))
  {
    hide Gathers, Implements, EpermMoves, Val, ByteOf, E, P, Spread, Field, Tables.Ok, Or, ByteChunks;
    var a: Bits, b: Bits := Zeros(32), Zeros(32);
    GathersNothing(32, EpermMoves(t));
    ByteChunksStart(x);
    for c := 0 to 4
      invariant Gathers(a, 32, EpermMoves(t), ByteChunks(x, 0, c))
      invariant Gathers(b, 32, EpermMoves(t), ByteChunks(x, 1, c))
    {
      ByteField(x, c);
      ByteChunksStep(x, 0, c);
      ByteChunksStep(x, 1, c);
      GathersMore(eperm, 8, 8, 32, EpermMoves(t), a, ByteChunks(x, 0, c), 2 * c, ByteOf(x, 2 * c));
      GathersMore(eperm, 8, 8, 32, EpermMoves(t), b, ByteChunks(x, 1, c), 2 * c + 1, ByteOf(x, 2 * c + 1));
      a := Or(a, eperm[2 * c][Field(x, 24 - 8 * c, 8)]);
      b := Or(b, eperm[2 * c + 1][Field(x, 24 - 8 * c, 8)]);
    }
    GathersWidth(a, 32, EpermMoves(t), ByteChunks(x, 0, 4));
    GathersWidth(b, 32, EpermMoves(t), ByteChunks(x, 1, 4));
    EpermGathered(t, x, 0, a);
    EpermGathered(t, x, 1, b);
    p := Pair(a, b);
    ghost var e := E(t, Zeros(24), P(t, x));
    assert e[24 * 0..24 * 0 + 24] == e[..24] && e[24 * 1..24 * 1 + 24] == e[24..];
  }

  lemma ByteField(x: Word, c: nat)
    requires c < 4
    ensures Field(x, 24 - 8 * c, 8) == Val(ByteOf(x, 2 * c)) == Val(ByteOf(x, 2 * c + 1))
  {
    FieldIsSlice(x, 24 - 8 * c, 8);
    assert 2 * c / 2 == c && (2 * c + 1) / 2 == c;
    assert x[32 - (24 - 8 * c) - 8..32 - (24 - 8 * c)] == x[8 * c..8 * c + 8];
  }

  // -------------------------------------------------------------- sb tables

  /** `s_lookup`: the row is bits 5 and 0 of s, the column bits 4 to 1. */
  function SLookup(boxes: SBoxes, i: nat, s: nat): (v: nat)
    requires BoxesOk(boxes) && i < 8 && s < 64
    ensures v < 16
  {
    boxes[i][2 * (s / 32) + s % 2][s / 2 % 16]
  }

  /** The row and column of a 6-bit number, and its bits. */
  lemma SixParts(s: nat)
    requires s < 64
    ensures var six := ToBits(6, s);
            && s / 32 == (if six[0] then 1 else 0) && s % 2 == (if six[5] then 1 else 0)
            && s / 2 % 16 == Val(six[1..5])
  {
    var six := ToBits(6, s);
    var a, m, z := six[..1], six[1..5], six[5..];
    assert six == a + (m + z);
    assert Val(a) == (if six[0] then 1 else 0) && Val(z) == (if six[5] then 1 else 0);
    SixValue(s, a, m, z);
  }

  lemma SixValue(s: nat, a: Bits, m: Bits, z: Bits)
    requires s < 64 && ToBits(6, s) == a + (m + z) && |a| == 1 && |m| == 4 && |z| == 1
    ensures s == 32 * Val(a) + 2 * Val(m) + Val(z) && Val(m) < 16
  {
    assert Pow2(6) == 64 && Pow2(5) == 32 && Pow2(4) == 16 && Pow2(1) == 2;
    hide Val, ToBits, Pow2;
    ValOfToBits(6, s);
    ValConcat(a, m + z);
    ValConcat(m, z);
    ValBound(m);
  }

  lemma SLookupIsS(boxes: SBoxes, i: nat, s: nat)
    requires BoxesOk(boxes) && i < 8 && s < 64
    ensures ToBits(4, SLookup(boxes, i, s)) == S(boxes, i, ToBits(6, s))
  {
    hide ToBits, Val;
    SixParts(s);
  }

  /** The bits of a number glued from two. */
  lemma ToBitsGlue(n: nat, a: nat, m: nat, b: nat)
    requires a < Pow2(n) && b < Pow2(m)
    ensures ToBits(n + m, a * Pow2(m) + b) == ToBits(n, a) + ToBits(m, b)
  {
    hide Val, ToBits, Pow2;
    var w := ToBits(n, a) + ToBits(m, b);
    ValConcat(ToBits(n, a), ToBits(m, b));
    ValOfToBits(n, a);
    ValOfToBits(m, b);
    ToBitsOfVal(w);
  }

  lemma ShlPlaces(sg: nat, x: Bits)
    requires sg < 4 && |x| == 8
    ensures Shl(Zeros(24) + x, 24 - 8 * sg) == Placed(sg, x)
  {
    var w := Zeros(24) + x;
    forall o | 0 <= o < 32
      ensures Shl(w, 24 - 8 * sg)[o] == Placed(sg, x)[o]
    {
      if o / 8 == sg { assert w[o + 24 - 8 * sg] == x[o % 8]; }
    }
  }

  lemma GlueZeros(n: nat, m: nat, b: nat)
    requires b < Pow2(m)
    ensures ToBits(n + m, b) == Zeros(n) + ToBits(m, b)
  {
    hide ToBits, Val, Pow2;
    ToBitsGlue(n, 0, m, b);
    ValZeros(n);
    ToBitsOfVal(Zeros(n));
  }

  lemma Pow2Of8()
    ensures Pow2(4) == 16 && Pow2(8) == 256
  {
  }

  /** `((s1 << 4) | s2) << (24 - 8 * sg)` puts two nibbles in byte sg. */
  lemma ToPermute(sg: nat, s1: nat, s2: nat)
    requires sg < 4 && s1 < 16 && s2 < 16
    ensures Shl(ToBits(32, 16 * s1 + s2), 24 - 8 * sg) == Placed(sg, ToBits(4, s1) + ToBits(4, s2))
  {
    Pow2Of8();
    hide ToBits, Placed, Shl, Pow2, Zeros;
    ToBitsGlue(4, s1, 4, s2);
    GlueZeros(24, 8, 16 * s1 + s2);
    ShlPlaces(sg, ToBits(4, s1) + ToBits(4, s2));
  }

  /** Fill table sg, from entry `at` of its array on. */
  method FillSb(t: Tables, eperm: Rows, sg: nat, sb: array<Pair>, at: nat)
    requires t.Ok() && Implements(eperm, 8, 8, 32, EpermMoves(t))
    requires sg < 4 && at + 4096 <= sb.Length
    modifies sb
    ensures forall n :: at <= n < at + 4096 ==> sb[n] == SbEntry(t, Zeros(24), sg, n - at)
    ensures forall n :: 0 <= n < sb.Length && !(at <= n < at + 4096) ==> sb[n] == old(sb[n])
  {
    hide Implements, Expanded, Share, SLookup, ToBits, P, Shl, BoxesOk;
    for j1 := 0 to 64
      invariant forall n :: at <= n < at + 64 * j1 ==> sb[n] == SbEntry(t, Zeros(24), sg, n - at)
      invariant forall n :: 0 <= n < sb.Length && !(at <= n < at + 4096) ==> sb[n] == old(sb[n])
    {
      var s1 := SLookup(t.boxes, 2 * sg, j1);
      for j2 := 0 to 64
        invariant forall n :: at <= n < at + 64 * j1 + j2 ==> sb[n] == SbEntry(t, Zeros(24), sg, n - at)
        invariant forall n :: 0 <= n < sb.Length && !(at <= n < at + 4096) ==> sb[n] == old(sb[n])
      {
        var s2 := SLookup(t.boxes, 2 * sg + 1, j2);
        var toPermute := Shl(ToBits(32, 16 * s1 + s2), 24 - 8 * sg);
        EntryIsShare(t, sg, j1, j2);
        var p := PermuteExpand(t, eperm, toPermute);
        assert p == SbEntry(t, Zeros(24), sg, 64 * j1 + j2);
        sb[at + (64 * j1 + j2)] := p;
      }
    }
  }

  lemma EntryIsShare(t: Tables, sg: nat, j1: nat, j2: nat)
    requires t.Ok() && sg < 4 && j1 < 64 && j2 < 64
    ensures P(t, Shl(ToBits(32, 16 * SLookup(t.boxes, 2 * sg, j1) + SLookup(t.boxes, 2 * sg + 1, j2)), 24 - 8 * sg))
         == Share(t, sg, ToBits(12, 64 * j1 + j2))
  {
    hide S, SLookup, P, ToBits, Placed;
    SLookupIsS(t.boxes, 2 * sg, j1);
    SLookupIsS(t.boxes, 2 * sg + 1, j2);
    ToPermute(sg, SLookup(t.boxes, 2 * sg, j1), SLookup(t.boxes, 2 * sg + 1, j2));
    assert Pow2(6) == 64;
    ToBitsGlue(6, j1, 6, j2);
    var x := ToBits(12, 64 * j1 + j2);
    assert x[..6] == ToBits(6, j1) && x[6..] == ToBits(6, j2);
  }
}
