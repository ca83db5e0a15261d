/** The small tables of UFC-crypt.

    Each of `do_pc1`, `do_pc2`, `eperm32tab` and `efp` moves bits from a source
    word to a result word a chunk of the source at a time: the chunk's value
    indexes a row, and the looked-up words of all rows are OR-ed together.  The
    four build loops differ only in where bit number `bit` comes from and goes
    to, so the loop and its correctness are written once, over a list of moves. */
module UfcTables {
  import opened Bits

  /** One bit to move: bit `within` of the index into row `row` sets bit `out`. */
  datatype Move = Move(row: nat, within: nat, out: nat)

  /** Rows of words, indexed by row number and by the value of a chunk. */
  type Rows = seq<seq<Bits>>

  predicate MovesOk(ms: seq<Move>, rows: nat, k: nat, width: nat) {
    forall i :: 0 <= i < |ms| ==> ms[i].row < rows && ms[i].within < k && ms[i].out < width
  }

  /** Does some move take a set bit of chunk x of row r to bit o? */
  ghost predicate Hit(ms: seq<Move>, r: nat, x: Bits, o: nat) {
    exists i :: 0 <= i < |ms| && ms[i].row == r && ms[i].out == o
                && ms[i].within < |x| && x[ms[i].within]
  }

  predicate Shape(tab: Rows, rows: nat, k: nat, width: nat) {
    && |tab| == rows
    && (forall r :: 0 <= r < rows ==> |tab[r]| == Pow2(k))
    && (forall r, j :: 0 <= r < rows && 0 <= j < Pow2(k) ==> |tab[r][j]| == width)
  }

  /** The table holds exactly what the moves say. */
  ghost predicate Implements(tab: Rows, rows: nat, k: nat, width: nat, ms: seq<Move>) {
    && Shape(tab, rows, k, width)
    && (forall r, j, o :: 0 <= r < rows && 0 <= j < Pow2(k) && 0 <= o < width ==>
          tab[r][j][o] == Hit(ms, r, ToBits(k, j), o))
  }

  lemma HitExtend(ms: seq<Move>, m: Move, r: nat, x: Bits, o: nat)
    ensures Hit(ms + [m], r, x, o)
       <==> Hit(ms, r, x, o) || (m.row == r && m.out == o && m.within < |x| && x[m.within])
  {
    if Hit(ms, r, x, o) {
      var i :| 0 <= i < |ms| && ms[i].row == r && ms[i].out == o && ms[i].within < |x| && x[ms[i].within];
      assert (ms + [m])[i] == ms[i];
    }
    assert (ms + [m])[|ms|] == m;
  }

  /** The loop over the values of an index: `if (j & mask1) row[j] |= mask2`. */
  method AddMove(row: seq<Bits>, k: nat, width: nat, m: Move) returns (row': seq<Bits>)
    requires |row| == Pow2(k) && m.within < k && m.out < width
    requires forall j :: 0 <= j < |row| ==> |row[j]| == width
    ensures |row'| == |row|
    ensures forall j :: 0 <= j < |row| ==> |row'[j]| == width
    ensures forall j, o :: 0 <= j < |row| && 0 <= o < width ==>
              row'[j][o] == (row[j][o] || (o == m.out && ToBits(k, j)[m.within]))
  {
    row' := row;
    for j := 0 to Pow2(k)
      invariant |row'| == |row|
      invariant forall i :: 0 <= i < |row| ==> |row'[i]| == width
      invariant forall i :: j <= i < |row| ==> row'[i] == row[i]
      invariant forall i, o :: 0 <= i < j && 0 <= o < width ==>
                  row'[i][o] == (row[i][o] || (o == m.out && ToBits(k, i)[m.within]))
    {
      if ToBits(k, j)[m.within] {
        row' := row'[j := Or(row'[j], Unit(width, m.out))];
      }
    }
  }

  /** Clear a table, then put in one bit move after the other. */
  method BuildTable(rows: nat, k: nat, width: nat, ms: seq<Move>) returns (tab: Rows)
    requires MovesOk(ms, rows, k, width)
    ensures Implements(tab, rows, k, width, ms)
  {
    tab := seq(rows, _ => seq(Pow2(k), _ => Zeros(width)));
    for bit := 0 to |ms|
      invariant Implements(tab, rows, k, width, ms[..bit])
    {
      var m := ms[bit];
      var row := AddMove(tab[m.row], k, width, m);
      ghost var before := tab;
      tab := tab[m.row := row];
      assert ms[..bit + 1] == ms[..bit] + [m];
      forall r, j, o | 0 <= r < rows && 0 <= j < Pow2(k) && 0 <= o < width
        ensures tab[r][j][o] == Hit(ms[..bit + 1], r, ToBits(k, j), o)
      {
        HitExtend(ms[..bit], m, r, ToBits(k, j), o);
        assert before[r][j][o] == Hit(ms[..bit], r, ToBits(k, j), o);
      }
    }
    assert ms[..|ms|] == ms;
  }

  // ------------------------------------------------------ reading a table

  /** Which chunk of the source was looked up in which row. */
  type Chunks = map<nat, Bits>

  ghost predicate HitAny(ms: seq<Move>, chunks: Chunks, o: nat) {
    exists i :: 0 <= i < |ms| && ms[i].row in chunks && ms[i].out == o
                && ms[i].within < |chunks[ms[i].row]| && chunks[ms[i].row][ms[i].within]
  }

  /** v is the OR of the words looked up for the chunks. */
  ghost predicate Gathers(v: Bits, width: nat, ms: seq<Move>, chunks: Chunks) {
    |v| == width && forall o :: 0 <= o < width ==> v[o] == HitAny(ms, chunks, o)
  }

  lemma GathersNothing(width: nat, ms: seq<Move>)
    ensures Gathers(Zeros(width), width, ms, map[])
  {
  }

  /** Looking up one more chunk and OR-ing it in. */
  lemma GathersMore(tab: Rows, rows: nat, k: nat, width: nat, ms: seq<Move>,
                    v: Bits, chunks: Chunks, r: nat, x: Bits)
    requires Implements(tab, rows, k, width, ms) && Gathers(v, width, ms, chunks)
    requires r < rows && r !in chunks && |x| == k
    ensures |v| == width && r < |tab| && Val(x) < |tab[r]| && |tab[r][Val(x)]| == width
    ensures Gathers(Or(v, tab[r][Val(x)]), width, ms, chunks[r := x])
  {
    ValBound(x);
    ToBitsOfVal(x);
    var chunks' := chunks[r := x];
    forall o | 0 <= o < width
      ensures (v[o] || tab[r][Val(x)][o]) == HitAny(ms, chunks', o)
    {
      assert tab[r][Val(x)][o] == Hit(ms, r, x, o);
      HitAnyExtend(ms, chunks, r, x, o);
    }
  }

  lemma HitAnyExtend(ms: seq<Move>, chunks: Chunks, r: nat, x: Bits, o: nat)
    requires r !in chunks
    ensures HitAny(ms, chunks[r := x], o) <==> HitAny(ms, chunks, o) || Hit(ms, r, x, o)
  {
    var chunks' := chunks[r := x];
    if HitAny(ms, chunks, o) {
      var i :| 0 <= i < |ms| && ms[i].row in chunks && ms[i].out == o
               && ms[i].within < |chunks[ms[i].row]| && chunks[ms[i].row][ms[i].within];
      assert ms[i].row in chunks' && chunks'[ms[i].row] == chunks[ms[i].row];
    }
    if Hit(ms, r, x, o) {
      var i :| 0 <= i < |ms| && ms[i].row == r && ms[i].out == o && ms[i].within < |x| && x[ms[i].within];
      assert ms[i].row in chunks';
    }
    if HitAny(ms, chunks', o) {
      var i :| 0 <= i < |ms| && ms[i].row in chunks' && ms[i].out == o
               && ms[i].within < |chunks'[ms[i].row]| && chunks'[ms[i].row][ms[i].within];
    }
  }

  lemma GathersWidth(v: Bits, width: nat, ms: seq<Move>, chunks: Chunks)
    requires Gathers(v, width, ms, chunks)
    ensures |v| == width
  {
  }

  /** A gathered word is the bit selection that the moves describe: bit `out`
      of a move that is alone in going there is the source bit it names. */
  lemma GatheredBit(v: Bits, width: nat, ms: seq<Move>, chunks: Chunks, i: nat)
    requires Gathers(v, width, ms, chunks)
    requires i < |ms| && ms[i].row in chunks && ms[i].out < width
    requires ms[i].within < |chunks[ms[i].row]|
    requires forall j :: 0 <= j < |ms| && ms[j].row in chunks && ms[j].out == ms[i].out ==> j == i
    ensures v[ms[i].out] == chunks[ms[i].row][ms[i].within]
  {
  }

  /** A bit that no move reaches stays clear. */
  lemma GatheredClear(v: Bits, width: nat, ms: seq<Move>, chunks: Chunks, o: nat)
    requires Gathers(v, width, ms, chunks) && o < width
    requires forall j :: 0 <= j < |ms| && ms[j].row in chunks ==> ms[j].out != o
    ensures !v[o]
  {
  }
}
