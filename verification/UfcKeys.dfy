/** The key schedule of UFC-crypt: `do_pc1`, `do_pc2` and `_ufc_mk_keytab_r`.

    `width` is the size of `ufc_long`, 32 or 64 bits. */
module UfcKeys {
  import opened Bits
  import opened DesStandard
  import opened UfcTables
  import opened UfcWords

  /** Where `do_pc1` takes each bit: row 2 * byte + half, seven bits a byte. */
  function Pc1Moves(t: Tables, width: nat): (ms: seq<Move>)
    requires t.Ok() && width >= 32
    ensures |ms| == 56 && MovesOk(ms, 16, 7, width)
    ensures forall bit :: 0 <= bit < 56 ==>
              ms[bit] == Move(2 * (t.pc1[bit] / 8) + bit / 28, t.pc1[bit] % 8, width - 28 + bit % 28)
  {
    seq(56, bit requires 0 <= bit < 56 =>
      Move(2 * (t.pc1[bit] / 8) + bit / 28, t.pc1[bit] % 8, width - 28 + bit % 28))
  }

  /** Where `do_pc2` takes each bit: one row for each septet of C and D. */
  function Pc2Moves(t: Tables, width: nat): (ms: seq<Move>)
    requires t.Ok() && width >= 32
    ensures |ms| == 48 && MovesOk(ms, 8, 7, width)
    ensures forall bit :: 0 <= bit < 48 ==>
              ms[bit] == Move(t.pc2[bit] / 7, t.pc2[bit] % 7, width - 32 + BitMask(bit % 24))
  {
    seq(48, bit requires 0 <= bit < 48 =>
      Move(t.pc2[bit] / 7, t.pc2[bit] % 7, width - 32 + BitMask(bit % 24)))
  }

  // --------------------------------------------------- permuted choice one

  /** Eight key bytes; only the low seven bits of each are looked at. */
  predicate KeyBytesOk(key: seq<Bits>) {
    |key| == 8 && forall i :: 0 <= i < 8 ==> |key[i]| == 8
  }

  /** The 64-bit key: seven bits of each byte, then a clear parity bit. */
  function KeyBlock(key: seq<Bits>): (b: Block)
    requires KeyBytesOk(key)
    ensures forall i :: 0 <= i < 64 ==> b[i] == (i % 8 != 7 && key[i / 8][i % 8 + 1])
  {
    seq(64, i requires 0 <= i < 64 => i % 8 != 7 && key[i / 8][i % 8 + 1])
  }

  /** The chunks looked up for half h in the first n bytes. */
  ghost function Pc1Chunks(key: seq<Bits>, h: nat, n: nat): Chunks
    requires KeyBytesOk(key) && n <= 8
  {
    map r: nat | 0 <= r < 2 * n && r % 2 == h :: key[r / 2][1..]
  }

  lemma Pc1ChunksStart(key: seq<Bits>)
    requires KeyBytesOk(key)
    ensures Pc1Chunks(key, 0, 0) == map[] && Pc1Chunks(key, 1, 0) == map[]
  {
  }

  lemma Pc1ChunksStep(key: seq<Bits>, h: nat, i: nat)
    requires KeyBytesOk(key) && h < 2 && i < 8
    ensures 2 * i + h !in Pc1Chunks(key, h, i)
    ensures Pc1Chunks(key, h, i + 1) == Pc1Chunks(key, h, i)[2 * i + h := key[i][1..]]
  {
  }

  lemma Pc1Alone(t: Tables, width: nat, h: nat, o: nat, j: nat)
    requires t.Ok() && width >= 32 && h < 2 && o < 28 && j < 56
    requires Pc1Moves(t, width)[j].row % 2 == h && Pc1Moves(t, width)[j].out == width - 28 + o
    ensures j == 28 * h + o
  {
    var q := t.pc1[j] / 8;
    assert Pc1Moves(t, width)[j].row == 2 * q + j / 28;
  }

  lemma Pc1Bit(t: Tables, width: nat, key: seq<Bits>, h: nat, v: Bits, o: nat)
    requires t.Ok() && width >= 32 && KeyBytesOk(key) && h < 2 && o < 28
    requires Gathers(v, width, Pc1Moves(t, width), Pc1Chunks(key, h, 8))
    ensures |v| == width && v[width - 28 + o] == KeyBlock(key)[t.pc1[28 * h + o]]
  {
    hide Gathers, Pc1Moves, KeyBlock;
    var ms, chunks := Pc1Moves(t, width), Pc1Chunks(key, h, 8);
    GathersWidth(v, width, ms, chunks);
    var bit := 28 * h + o;
    var p := t.pc1[bit];
    assert bit / 28 == h && bit % 28 == o;
    assert ms[bit] == Move(2 * (p / 8) + h, p % 8, width - 28 + o);
    assert (2 * (p / 8) + h) / 2 == p / 8 && (2 * (p / 8) + h) % 2 == h;
    assert key[p / 8][1..][p % 8] == key[p / 8][p % 8 + 1];
    forall j | 0 <= j < 56 && ms[j].row in chunks && ms[j].out == ms[bit].out
      ensures j == bit
    {
      Pc1Alone(t, width, h, o, j);
    }
    GatheredBit(v, width, ms, chunks, bit);
  }

  lemma Pc1Gathered(t: Tables, width: nat, key: seq<Bits>, h: nat, v: Bits)
    requires t.Ok() && width >= 32 && KeyBytesOk(key) && h < 2
    requires Gathers(v, width, Pc1Moves(t, width), Pc1Chunks(key, h, 8))
    ensures v == Zeros(width - 28) + KeyHalf(t, KeyBlock(key), h == 1, 0)
  {
    hide Gathers, Pc1Chunks, KeyBlock;
    GathersWidth(v, width, Pc1Moves(t, width), Pc1Chunks(key, h, 8));
    forall o | 0 <= o < width - 28
      ensures !v[o]
    {
      GatheredClear(v, width, Pc1Moves(t, width), Pc1Chunks(key, h, 8), o);
    }
    forall o | width - 28 <= o < width
      ensures v[o] == KeyHalf(t, KeyBlock(key), h == 1, 0)[o - (width - 28)]
    {
      Pc1Bit(t, width, key, h, v, o - (width - 28));
    }
  }

  /** The parity bits of a key do not matter. */
  lemma {:induction false} ParityIgnored(t: Tables, k1: Block, k2: Block, d: bool, n: nat)
    requires t.Ok() && n <= 16
    requires forall i :: 0 <= i < 64 && i % 8 != 7 ==> k1[i] == k2[i]
    ensures KeyHalf(t, k1, d, n) == KeyHalf(t, k2, d, n)
  {
    if n > 0 { ParityIgnored(t, k1, k2, d, n - 1); }
  }

  // ------------------------------------------------------------- rotations

  /** v keeps the 28-bit value c in its low bits although nothing ever clears
      the bits above them: any of those that is set repeats the bit 28 below. */
  predicate Rotating(v: Bits, width: nat, c: Bits) {
    && width >= 32 && |v| == width && |c| == 28
    && v[width - 28..] == c
    && forall i :: 0 <= i < width - 28 ==> v[i] ==> v[i + 28]
  }

  lemma RotatingStart(v: Bits, width: nat, c: Bits)
    requires width >= 32 && |c| == 28 && v == Zeros(width - 28) + c
    ensures Rotating(v, width, c)
  {
  }

  /** `(v << k) | (v >> (28 - k))`, unmasked, still rotates 28 bits. */
  lemma UnmaskedRotation(v: Bits, width: nat, c: Bits, k: nat)
    requires Rotating(v, width, c) && k <= 28
    ensures Rotating(Or(Shl(v, k), Shr(v, 28 - k)), width, RotateLeft(c, k))
  {
    var v', c' := Or(Shl(v, k), Shr(v, 28 - k)), RotateLeft(c, k);
    forall j | 0 <= j < 28
      ensures v'[width - 28 + j] == c'[j]
    {
      var i := width - 28 + j;
      if j + k < 28 {
        assert v[i + k] == c[j + k];
      } else {
        assert v[i + k - 28] == c[j + k - 28];
      }
    }
    assert v'[width - 28..] == c';
  }

  // --------------------------------------------------- permuted choice two

  /** The septets of 28 bits, in rows base to base + 3. */
  ghost function Septets(x: Bits, base: nat, n: nat): Chunks
    requires |x| == 28 && n <= 4
  {
    map r: nat | base <= r < base + n :: Septet(x, base, r)
  }

  function Septet(x: Bits, base: nat, r: nat): (s: Bits)
    requires |x| == 28 && base <= r < base + 4
    ensures |s| == 7
  {
    x[7 * (r - base)..7 * (r - base) + 7]
  }

  lemma SeptetsStart(x: Bits, base: nat)
    requires |x| == 28
    ensures Septets(x, base, 0) == map[]
  {
  }

  lemma SeptetsStep(x: Bits, base: nat, n: nat)
    requires |x| == 28 && n < 4
    ensures base + n !in Septets(x, base, n)
    ensures Septets(x, base, n + 1) == Septets(x, base, n)[base + n := Septet(x, base, base + n)]
  {
    hide Septet;
  }

  /** The septets of C, or of D if `second`. */
  ghost function HalfSeptets(c: Bits, d: Bits, second: bool): Chunks
    requires |c| == 28 && |d| == 28
  {
    if second then Septets(d, 4, 4) else Septets(c, 0, 4)
  }

  lemma SeptetBit(c: Bits, d: Bits, second: bool, p: nat)
    requires |c| == 28 && |d| == 28 && (if second then 28 <= p < 56 else p < 28)
    ensures p / 7 in HalfSeptets(c, d, second)
    ensures |HalfSeptets(c, d, second)[p / 7]| == 7
    ensures HalfSeptets(c, d, second)[p / 7][p % 7] == (c + d)[p]
  {
    if second {
      assert Septet(d, 4, p / 7)[p % 7] == d[p - 28];
    } else {
      assert Septet(c, 0, p / 7)[p % 7] == c[p];
    }
  }

  /** Bit o of the word gathered from half the septets. */
  lemma Pc2Bit(t: Tables, width: nat, c: Bits, d: Bits, second: bool, v: Bits, i: nat)
    requires t.Ok() && width >= 32 && |c| == 28 && |d| == 28 && i < 24
    requires Gathers(v, width, Pc2Moves(t, width), HalfSeptets(c, d, second))
    ensures |v| == width
    ensures v[width - 32 + BitMask(i)] == (c + d)[t.pc2[if second then i + 24 else i]]
  {
    hide Gathers, Pc2Moves;
    var ms, chunks := Pc2Moves(t, width), HalfSeptets(c, d, second);
    GathersWidth(v, width, ms, chunks);
    var bit := if second then i + 24 else i;
    assert bit % 24 == i && ms[bit].out == width - 32 + BitMask(i);
    SeptetBit(c, d, second, t.pc2[bit]);
    forall j | 0 <= j < 48 && ms[j].row in chunks && ms[j].out == ms[bit].out
      ensures j == bit
    {
      assert BitMask(j % 24) == BitMask(i);
    }
    GatheredBit(v, width, ms, chunks, bit);
  }

  lemma Pc2Clear(t: Tables, width: nat, c: Bits, d: Bits, second: bool, v: Bits, o: nat)
    requires t.Ok() && width >= 32 && |c| == 28 && |d| == 28 && o < 32
    requires !(1 <= o <= 12) && !(17 <= o <= 28)
    requires Gathers(v, width, Pc2Moves(t, width), HalfSeptets(c, d, second))
    ensures |v| == width && !v[width - 32 + o]
  {
    hide HalfSeptets;
    GatheredClear(v, width, Pc2Moves(t, width), HalfSeptets(c, d, second), width - 32 + o);
  }

  /** The word gathered from the septets of C (or D) is half a round key. */
  lemma Pc2Gathered(t: Tables, width: nat, c: Bits, d: Bits, second: bool, k: Key48, v: Bits)
    requires t.Ok() && width >= 32 && |c| == 28 && |d| == 28
    requires forall i :: 0 <= i < 48 ==> k[i] == (c + d)[t.pc2[i]]
    requires Gathers(v, width, Pc2Moves(t, width), HalfSeptets(c, d, second))
    ensures |v| == width && v[width - 32..] == Spread(if second then k[24..] else k[..24])
  {
    hide HalfSeptets, Gathers, Pc2Moves, Spread;
    var x := if second then k[24..] else k[..24];
    Pc2Bit(t, width, c, d, second, v, 0);
    var w: Word := v[width - 32..];
    forall i | 0 <= i < 24
      ensures w[BitMask(i)] == x[i]
    {
      Pc2Bit(t, width, c, d, second, v, i);
    }
    forall o | 0 <= o < 32 && !(1 <= o <= 12) && !(17 <= o <= 28)
      ensures !w[o]
    {
      Pc2Clear(t, width, c, d, second, v, o);
    }
    IsSpread(w, x);
  }

  /** `v |= k1[(u >> 21) & 0x7f]`, and so on for the four septets of u. */
  method LookUpSeptets(t: Tables, tab: Rows, width: nat, base: nat, u: Bits, ghost c: Bits) returns (v: Bits)
    requires t.Ok() && Rotating(u, width, c) && Implements(tab, 8, 7, width, Pc2Moves(t, width))
    requires base == 0 || base == 4
    ensures Gathers(v, width, Pc2Moves(t, width), Septets(c, base, 4))
  {
    hide Gathers, Implements, Pc2Moves, Val, Tables.Ok, Field, Septets;
    v := Zeros(width);
    GathersNothing(width, Pc2Moves(t, width));
    SeptetsStart(c, base);
    for n := 0 to 4
      invariant Gathers(v, width, Pc2Moves(t, width), Septets(c, base, n))
    {
      var shift := 21 - 7 * n;
      FieldIsSlice(u, shift, 7);
      ghost var x := Septet(c, base, base + n);
      assert u[width - shift - 7..width - shift] == u[width - 28..][7 * n..7 * n + 7] == x;
      SeptetsStep(c, base, n);
      GathersMore(tab, 8, 7, width, Pc2Moves(t, width), v, Septets(c, base, n), base + n, x);
      v := Or(v, tab[base + n][Field(u, shift, 7)]);
    }
  }

  /** The two words of each round key, first and second 24 bits, marked. */
  predicate HoldsKeys(words: seq<Word>, keys: seq<Key48>) {
    && |keys| == 16 && |words| == 32
    && forall n :: 0 <= n < 16 ==>
         words[2 * n] == Marked(keys[n][..24]) && words[2 * n + 1] == Marked(keys[n][24..])
  }

  /** `v1 |= k1[*key & 0x7f]` over the eight bytes: C and D of the permuted key. */
  method PermuteKey(t: Tables, tab: Rows, width: nat, key: seq<Bits>) returns (v1: Bits, v2: Bits)
    requires t.Ok() && width >= 32 && KeyBytesOk(key)
    requires Implements(tab, 16, 7, width, Pc1Moves(t, width))
    ensures Rotating(v1, width, KeyHalf(t, KeyBlock(key), false, 0))
    ensures Rotating(v2, width, KeyHalf(t, KeyBlock(key), true, 0))
  {
    hide Gathers, Implements, Pc1Moves, Val, KeyBlock, KeyHalf, Tables.Ok, Field, Pc1Chunks, Rotating;
    ghost var ms := Pc1Moves(t, width);
    v1, v2 := Zeros(width), Zeros(width);
    GathersNothing(width, ms);
    Pc1ChunksStart(key);
    for i := 0 to 8
      invariant Gathers(v1, width, ms, Pc1Chunks(key, 0, i))
      invariant Gathers(v2, width, ms, Pc1Chunks(key, 1, i))
    {
      FieldIsSlice(key[i], 0, 7);
      ghost var x := key[i][1..];
      assert key[i][1..8] == x;
      Pc1ChunksStep(key, 0, i);
      Pc1ChunksStep(key, 1, i);
      GathersMore(tab, 16, 7, width, ms, v1, Pc1Chunks(key, 0, i), 2 * i, x);
      GathersMore(tab, 16, 7, width, ms, v2, Pc1Chunks(key, 1, i), 2 * i + 1, x);
      v1 := Or(v1, tab[2 * i][Field(key[i], 0, 7)]);
      v2 := Or(v2, tab[2 * i + 1][Field(key[i], 0, 7)]);
    }
    Pc1Gathered(t, width, key, 0, v1);
    Pc1Gathered(t, width, key, 1, v2);
    RotatingStart(v1, width, KeyHalf(t, KeyBlock(key), false, 0));
    RotatingStart(v2, width, KeyHalf(t, KeyBlock(key), true, 0));
  }

  /** One word of a round key: look the septets up and mark the result. */
  method KeyWord(t: Tables, tab: Rows, width: nat, second: bool, v: Bits,
                 ghost c: Bits, ghost d: Bits, ghost k: Key48) returns (w: Word)
    requires t.Ok() && Rotating(v, width, if second then d else c) && |c| == 28 && |d| == 28
    requires Implements(tab, 8, 7, width, Pc2Moves(t, width))
    requires forall i :: 0 <= i < 48 ==> k[i] == (c + d)[t.pc2[i]]
    ensures w == Marked(if second then k[24..] else k[..24])
  {
    hide Gathers, Implements, Pc2Moves;
    var u := LookUpSeptets(t, tab, width, if second then 4 else 0, v, if second then d else c);
    Pc2Gathered(t, width, c, d, second, k, u);
    w := Or(u[width - 32..], Unit(32, 16));
  }

  /** `_ufc_mk_keytab_r`: the words of the key schedule, low 32 bits of each. */
  method MakeKeyWords(t: Tables, pc1tab: Rows, pc2tab: Rows, width: nat, key: seq<Bits>) returns (words: seq<Word>)
    requires t.Ok() && width >= 32 && KeyBytesOk(key)
    requires Implements(pc1tab, 16, 7, width, Pc1Moves(t, width))
    requires Implements(pc2tab, 8, 7, width, Pc2Moves(t, width))
    ensures HoldsKeys(words, KeySchedule(t, KeyBlock(key)))
  {
    hide Implements, Pc1Moves, Pc2Moves, Marked, RotateLeft, KeyBlock;
    var v1, v2 := PermuteKey(t, pc1tab, width, key);
    ghost var k := KeyBlock(key);
    words := [];
    for i := 0 to 16
      invariant |words| == 2 * i
      invariant Rotating(v1, width, KeyHalf(t, k, false, i))
      invariant Rotating(v2, width, KeyHalf(t, k, true, i))
      invariant forall n :: 0 <= n < i ==>
                  words[2 * n] == Marked(RoundKey(t, k, n)[..24])
                  && words[2 * n + 1] == Marked(RoundKey(t, k, n)[24..])
    {
      UnmaskedRotation(v1, width, KeyHalf(t, k, false, i), t.rots[i]);
      UnmaskedRotation(v2, width, KeyHalf(t, k, true, i), t.rots[i]);
      ghost var c, d := KeyHalf(t, k, false, i + 1), KeyHalf(t, k, true, i + 1);
      v1 := Or(Shl(v1, t.rots[i]), Shr(v1, 28 - t.rots[i]));
      var w1 := KeyWord(t, pc2tab, width, false, v1, c, d, RoundKey(t, k, i));
      v2 := Or(Shl(v2, t.rots[i]), Shr(v2, 28 - t.rots[i]));
      var w2 := KeyWord(t, pc2tab, width, true, v2, c, d, RoundKey(t, k, i));
      words := words + [w1, w2];
    }
  }
}
