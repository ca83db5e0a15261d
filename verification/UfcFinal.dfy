/** The way out of UFC-crypt: `e_inverse`, `efp` and `_ufc_dofinalperm_r`,
    which undo the salt, the E expansion and the spreading at once and apply
    the final permutation. */
module UfcFinal {
  import opened Bits
  import opened Feistel
  import opened DesStandard
  import opened UfcTables
  import opened UfcWords
  import opened UfcRounds

  // -------------------------------------------------------------- e_inverse

  /** The first place at or after b where E selects bit f, or 48. */
  function FirstPlace(t: Tables, f: nat, b: nat): (p: nat)
    requires t.Ok() && f < 32 && b <= 48
    ensures b <= p <= 48 && (p < 48 ==> t.esel[p] == f)
    ensures forall i :: b <= i < p ==> t.esel[i] != f
    decreases 48 - b
  {
    if b == 48 || t.esel[b] == f then b else FirstPlace(t, f, b + 1)
  }

  /** For each bit of a block, where to find it among the 96 bits of the two
      expanded halves. */
  function Place(t: Tables, f: nat): (p: nat)
    requires t.Ok() && f < 64
  {
    if f < 32 then FirstPlace(t, f, 0) else FirstPlace(t, f - 32, 0) + 48
  }

  lemma PlaceExists(t: Tables, f: nat)
    requires t.Ok() && f < 64
    ensures if f < 32 then Place(t, f) < 48 && t.esel[Place(t, f)] == f
            else 48 <= Place(t, f) < 96 && t.esel[Place(t, f) - 48] == f - 32
  {
    assert f % 32 in t.esel;
  }

  /** The loop runs down, so the first place of each bit is written last. */
  method BuildEInverse(t: Tables) returns (inv: seq<nat>)
    requires t.Ok()
    ensures |inv| == 64 && forall f :: 0 <= f < 64 ==> inv[f] == Place(t, f)
  {
    inv := seq(64, _ => 0);
    for bit := 48 downto 0
      invariant |inv| == 64
      invariant forall f :: 0 <= f < 32 && FirstPlace(t, f, bit) < 48 ==> inv[f] == FirstPlace(t, f, bit)
      invariant forall f :: 32 <= f < 64 && FirstPlace(t, f - 32, bit) < 48 ==> inv[f] == FirstPlace(t, f - 32, bit) + 48
    {
      inv := inv[t.esel[bit] := bit][t.esel[bit] + 32 := bit + 48];
    }
    forall f | 0 <= f < 64
      ensures inv[f] == Place(t, f)
    {
      PlaceExists(t, f);
    }
  }

  // -------------------------------------------------------------------- efp

  /** Row 2 * sextet + word, six bits an index. */
  function EfpMove(place: nat, bit: nat): Move {
    Move(2 * (place / 6) + bit / 32, place % 6, bit % 32)
  }

  function EfpMoves(t: Tables): (ms: seq<Move>)
    requires t.Ok()
    ensures |ms| == 64
    ensures forall bit :: 0 <= bit < 64 ==> ms[bit] == EfpMove(Place(t, t.fp[bit]), bit)
  {
    seq(64, bit requires 0 <= bit < 64 => EfpMove(Place(t, t.fp[bit]), bit))
  }

  lemma EfpMovesOk(t: Tables)
    requires t.Ok()
    ensures MovesOk(EfpMoves(t), 32, 6, 32)
  {
    hide Place;
    var ms := EfpMoves(t);
    forall bit | 0 <= bit < 64
      ensures ms[bit].row < 32 && ms[bit].within < 6 && ms[bit].out < 32
    {
      PlaceExists(t, t.fp[bit]);
    }
  }

  /** The moves as the source computes them, from the array `e_inverse`. */
  lemma EfpMovesFrom(t: Tables, inv: seq<nat>)
    requires t.Ok() && |inv| == 64 && forall f :: 0 <= f < 64 ==> inv[f] == Place(t, f)
    ensures EfpMoves(t) == seq(64, bit requires 0 <= bit < 64 => EfpMove(inv[t.fp[bit]], bit))
  {
    hide Place, EfpMove;
  }

  /** The 96 bits of two halves expanded without salt. */
  function Expanded96(t: Tables, h: Halves): (y: Bits)
    requires t.Ok()
    ensures |y| == 96
  {
    E(t, Zeros(24), h.l) + E(t, Zeros(24), h.r)
  }

  /** The inverse finds each bit of the block. */
  lemma InverseFinds(t: Tables, h: Halves, f: nat)
    requires t.Ok() && f < 64
    ensures Place(t, f) < 96 && Expanded96(t, h)[Place(t, f)] == h.Join()[f]
  {
    hide Place;
    PlaceExists(t, f);
    var p := Place(t, f);
    assert SaltedPlace(Zeros(24), p % 48) == p % 48;
  }

  function Sextet(y: Bits, r: nat): (s: Bits)
    requires |y| == 96 && r < 32
    ensures |s| == 6
  {
    y[6 * (r / 2)..6 * (r / 2) + 6]
  }

  /** The first n sextets, in the rows for result word h. */
  ghost function SextetChunks(y: Bits, h: nat, n: nat): Chunks
    requires |y| == 96 && n <= 16
  {
    map r: nat | 0 <= r < 2 * n && r % 2 == h :: Sextet(y, r)
  }

  lemma SextetChunksStart(y: Bits)
    requires |y| == 96
    ensures SextetChunks(y, 0, 0) == map[] && SextetChunks(y, 1, 0) == map[]
  {
  }

  lemma SextetChunksStep(y: Bits, h: nat, c: nat)
    requires |y| == 96 && h < 2 && c < 16
    ensures 2 * c + h !in SextetChunks(y, h, c)
    ensures SextetChunks(y, h, c + 1) == SextetChunks(y, h, c)[2 * c + h := Sextet(y, 2 * c + h)]
  {
    hide Sextet;
  }

  lemma EfpAlone(t: Tables, h: nat, o: nat, j: nat)
    requires t.Ok() && h < 2 && o < 32 && j < 64
    requires EfpMoves(t)[j].row % 2 == h && EfpMoves(t)[j].out == o
    ensures j == 32 * h + o
  {
    hide Place;
    var q := Place(t, t.fp[j]) / 6;
    assert EfpMoves(t)[j].row == 2 * q + j / 32;
  }

  lemma EfpBit(t: Tables, halves: Halves, h: nat, v: Bits, o: nat)
    requires t.Ok() && h < 2 && o < 32
    requires Gathers(v, 32, EfpMoves(t), SextetChunks(Expanded96(t, halves), h, 16))
    ensures |v| == 32 && v[o] == FinalPermutation(t, halves.Join())[32 * h + o]
  {
    hide EfpMoves, Expanded96, Place, Gathers;
    GathersWidth(v, 32, EfpMoves(t), SextetChunks(Expanded96(t, halves), h, 16));
    var y := Expanded96(t, halves);
    var ms, chunks := EfpMoves(t), SextetChunks(y, h, 16);
    var bit := 32 * h + o;
    InverseFinds(t, halves, t.fp[bit]);
    var e := Place(t, t.fp[bit]);
    assert bit / 32 == h && bit % 32 == o;
    assert ms[bit] == Move(2 * (e / 6) + h, e % 6, o);
    assert (2 * (e / 6) + h) / 2 == e / 6 && (2 * (e / 6) + h) % 2 == h;
    assert Sextet(y, 2 * (e / 6) + h)[e % 6] == y[e];
    forall j | 0 <= j < 64 && ms[j].row in chunks && ms[j].out == ms[bit].out
      ensures j == bit
    {
      EfpAlone(t, h, o, j);
    }
    GatheredBit(v, 32, ms, chunks, bit);
  }

  lemma EfpGathered(t: Tables, halves: Halves, v1: Bits, v2: Bits)
    requires t.Ok()
    requires Gathers(v1, 32, EfpMoves(t), SextetChunks(Expanded96(t, halves), 0, 16))
    requires Gathers(v2, 32, EfpMoves(t), SextetChunks(Expanded96(t, halves), 1, 16))
    ensures |v1| == 32 && |v2| == 32 && v1 + v2 == FinalPermutation(t, halves.Join())
  {
    hide Gathers, EfpMoves, SextetChunks, FinalPermutation, Place, EfpMove, Expanded96;
    EfpBit(t, halves, 0, v1, 0);
    EfpBit(t, halves, 1, v2, 0);
    var b := FinalPermutation(t, halves.Join());
    forall i | 0 <= i < 64
      ensures (v1 + v2)[i] == b[i]
    {
      if i < 32 { EfpBit(t, halves, 0, v1, i); } else { EfpBit(t, halves, 1, v2, i - 32); }
    }
  }

  /** How far sextet c of the state is from the right end of its word. */
  function SextetShift(c: nat): (s: nat)
    requires c < 16
    ensures s <= 25
  {
    match c % 4
    case 0 => 25
    case 1 => 19
    case 2 => 9
    case _ => 3
  }

  /** The sextets of a spread word. */
  lemma SpreadSextet(x: Bits, i: nat)
    requires |x| == 24 && i < 4
    ensures Field(Spread(x), SextetShift(i), 6) == Val(x[6 * i..6 * i + 6])
  {
    hide Field, Val;
    var w := Spread(x);
    FieldIsSlice(w, SextetShift(i), 6);
    if i == 0 { assert w[1..7] == x[0..6]; }
    else if i == 1 { assert w[7..13] == x[6..12]; }
    else if i == 2 { assert w[17..23] == x[12..18]; }
    else { assert w[23..29] == x[18..24]; }
  }

  /** Word q of the unsalted state: bits 24q to 24q + 23 of the 96. */
  lemma StateWord(t: Tables, h: Halves, w: seq<Word>, q: nat)
    requires t.Ok() && q < 4 && |w| == 4
    requires Pair(w[0], w[1]) == Expanded(t, Zeros(24), h.l) && Pair(w[2], w[3]) == Expanded(t, Zeros(24), h.r)
    ensures w[q] == Spread(Expanded96(t, h)[24 * q..24 * q + 24])
  {
    hide Spread, E;
    var el: Bits, er: Bits := E(t, Zeros(24), h.l), E(t, Zeros(24), h.r);
    var y := el + er;
    if q == 0 { assert y[0..24] == el[..24]; }
    else if q == 1 { assert y[24..48] == el[24..]; }
    else if q == 2 { assert y[48..72] == er[..24]; }
    else { assert y[72..96] == er[24..]; }
  }

  lemma StateSextet(t: Tables, h: Halves, w: seq<Word>, c: nat)
    requires t.Ok() && c < 16 && |w| == 4
    requires Pair(w[0], w[1]) == Expanded(t, Zeros(24), h.l) && Pair(w[2], w[3]) == Expanded(t, Zeros(24), h.r)
    ensures Field(w[c / 4], SextetShift(c), 6) == Val(Sextet(Expanded96(t, h), 2 * c))
    ensures Sextet(Expanded96(t, h), 2 * c + 1) == Sextet(Expanded96(t, h), 2 * c)
  {
    hide Spread, Field, Val, Expanded96, Expanded;
    var y := Expanded96(t, h);
    var q, i := c / 4, c % 4;
    var x := y[24 * q..24 * q + 24];
    StateWord(t, h, w, q);
    SpreadSextet(x, i);
    assert 2 * c / 2 == c && (2 * c + 1) / 2 == c;
    assert x[6 * i..6 * i + 6] == y[6 * c..6 * c + 6];
  }

  /** `_ufc_dofinalperm_r`: from a salted state to the output block. */
  method DoFinalPerm(t: Tables, efp: Rows, saltbits: Word, res: array<Word>,
                     ghost salt: Salt, ghost h: Halves)
    requires t.Ok() && Implements(efp, 32, 6, 32, EfpMoves(t))
    requires saltbits == Spread(salt) && StateOk(t, salt, res[..], h)
    modifies res
    ensures res[..2] == [FinalPermutation(t, h.Join())[..32], FinalPermutation(t, h.Join())[32..]]
  {
    hide Gathers, Implements, EfpMoves, Expanded, Sextet, Field, Spread, FinalPermutation, Expanded96, Shuffle, Val, Place, EfpMove, Tables.Ok, Or, SextetChunks;
    ghost var ms, y := EfpMoves(t), Expanded96(t, h);
    ShuffleSalts(t, salt, h.l);
    ShuffleSalts(t, salt, h.r);
    var l, r := Shuffle(Pair(res[0], res[1]), saltbits), Shuffle(Pair(res[2], res[3]), saltbits);
    var w := [l.a, l.b, r.a, r.b];
    var v1: Bits, v2: Bits := Zeros(32), Zeros(32);
    GathersNothing(32, ms);
    SextetChunksStart(y);
    for c := 0 to 16
      invariant Gathers(v1, 32, ms, SextetChunks(y, 0, c))
      invariant Gathers(v2, 32, ms, SextetChunks(y, 1, c))
    {
      StateSextet(t, h, w, c);
      SextetChunksStep(y, 0, c);
      SextetChunksStep(y, 1, c);
      var six := Field(w[c / 4], SextetShift(c), 6);
      GathersMore(efp, 32, 6, 32, ms, v1, SextetChunks(y, 0, c), 2 * c, Sextet(y, 2 * c));
      GathersMore(efp, 32, 6, 32, ms, v2, SextetChunks(y, 1, c), 2 * c + 1, Sextet(y, 2 * c + 1));
      v1 := Or(v1, efp[2 * c][six]);
      v2 := Or(v2, efp[2 * c + 1][six]);
    }
    EfpGathered(t, h, v1, v2);
    assert (v1 + v2)[..32] == v1 && (v1 + v2)[32..] == v2;
    res[0], res[1] := v1, v2;
  }
}
