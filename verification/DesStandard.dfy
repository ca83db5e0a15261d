/** The data encryption standard as FIPS 46-3 tells it, bit by bit, with the
    one change that crypt(3) makes to it: a salt that swaps entries of the
    E bit-selection table.  Nothing here is fast; it is the reference that the
    table-driven code in crypt/crypt_util.c and crypt/crypt.c is proved against. */
module DesStandard {
  import opened Bits
  import opened Feistel

  /** Eight boxes of 4 rows and 16 columns of 4-bit values. */
  type SBoxes = seq<seq<seq<nat>>>

  predicate BoxesOk(s: SBoxes) {
    && |s| == 8
    && (forall b :: 0 <= b < 8 ==> |s[b]| == 4)
    && (forall b, r :: 0 <= b < 8 && 0 <= r < 4 ==> |s[b][r]| == 16)
    && (forall b, r, c :: 0 <= b < 8 && 0 <= r < 4 && 0 <= c < 16 ==> s[b][r][c] < 16)
  }

  /** The constants of the standard, with bit numbers counted from 0.  The
      theorems hold for every choice that is `Ok`; module DesConstants shows
      that the constants the library uses are. */
  datatype Tables = Tables(
    pc1: seq<nat>, pc2: seq<nat>, esel: seq<nat>, perm32: seq<nat>,
    ip: seq<nat>, fp: seq<nat>, rots: seq<nat>, boxes: SBoxes)
  {
    predicate Ok() {
      && |pc1| == 56 && (forall i :: 0 <= i < 56 ==> pc1[i] < 64 && pc1[i] % 8 != 7)
      && |pc2| == 48 && (forall i :: 0 <= i < 48 ==> pc2[i] < 56 && (pc2[i] < 28 <==> i < 24))
      && |esel| == 48 && (forall i :: 0 <= i < 48 ==> esel[i] < 32)
      && (forall f {:trigger f in esel} :: 0 <= f < 32 ==> f in esel)
      && |perm32| == 32 && (forall i :: 0 <= i < 32 ==> perm32[i] < 32)
      && |ip| == 64 && |fp| == 64
      && (forall i :: 0 <= i < 64 ==> ip[i] < 64 && fp[ip[i]] == i)
      && (forall i :: 0 <= i < 64 ==> fp[i] < 64 && ip[fp[i]] == i)
      && |rots| == 16 && (forall i :: 0 <= i < 16 ==> rots[i] == 1 || rots[i] == 2)
      && BoxesOk(boxes)
    }
  }

  /** The bits that a salt exchanges: bit i of the E output with bit i + 24. */
  type Salt = w: Bits | |w| == 24 witness seq(24, _ => false)

  // ------------------------------------------------------------ the cipher

  function InitialPermutation(t: Tables, b: Block): (r: Block)
    requires t.Ok()
    ensures forall i :: 0 <= i < 64 ==> r[i] == b[t.ip[i]]
  {
    seq(64, i requires 0 <= i < 64 => b[t.ip[i]])
  }

  function FinalPermutation(t: Tables, b: Block): (r: Block)
    requires t.Ok()
    ensures forall i :: 0 <= i < 64 ==> r[i] == b[t.fp[i]]
  {
    seq(64, i requires 0 <= i < 64 => b[t.fp[i]])
  }

  /** The bit of the plain E output that the salt puts at place i. */
  function SaltedPlace(salt: Salt, i: nat): (j: nat)
    requires i < 48
    ensures j < 48
  {
    if i < 24 then (if salt[i] then i + 24 else i)
    else (if salt[i - 24] then i - 24 else i)
  }

  /** The E bit-selection of a half block under a salt. */
  function E(t: Tables, salt: Salt, half: Word): (r: Key48)
    requires t.Ok()
    ensures forall i :: 0 <= i < 48 ==> r[i] == half[t.esel[SaltedPlace(salt, i)]]
  {
    seq(48, i requires 0 <= i < 48 => half[t.esel[SaltedPlace(salt, i)]])
  }

  function P(t: Tables, x: Word): (r: Word)
    requires t.Ok()
    ensures forall i :: 0 <= i < 32 ==> r[i] == x[t.perm32[i]]
  {
    seq(32, i requires 0 <= i < 32 => x[t.perm32[i]])
  }

  /** The 4 bits that box `b` gives for 6 bits: the outer two choose the row. */
  function S(boxes: SBoxes, b: nat, six: Bits): (r: Bits)
    requires BoxesOk(boxes) && b < 8 && |six| == 6
    ensures |r| == 4
  {
    var row := 2 * (if six[0] then 1 else 0) + (if six[5] then 1 else 0);
    ValBound(six[1..5]);
    assert Pow2(4) == 16;
    ToBits(4, boxes[b][row][Val(six[1..5])])
  }

  /** Boxes 2g and 2g + 1 side by side on 12 bits. */
  function S2(boxes: SBoxes, g: nat, x: Bits): (r: Bits)
    requires BoxesOk(boxes) && g < 4 && |x| == 12
    ensures |r| == 8
  {
    S(boxes, 2 * g, x[..6]) + S(boxes, 2 * g + 1, x[6..])
  }

  /** All eight boxes side by side on 48 bits. */
  function AllS(boxes: SBoxes, x: Key48): (r: Word)
    requires BoxesOk(boxes)
  {
    S2(boxes, 0, x[0..12]) + S2(boxes, 1, x[12..24]) + S2(boxes, 2, x[24..36]) + S2(boxes, 3, x[36..48])
  }

  /** "The Cipher Function f". */
  function F(t: Tables, salt: Salt, r: Word, k: Key48): (y: Word)
    requires t.Ok()
  {
    P(t, AllS(t.boxes, Xor(E(t, salt, r), k)))
  }

  function RoundFn(t: Tables, salt: Salt): RoundFunction
    requires t.Ok()
  {
    (r: Word, k: Key48) => F(t, salt, r, k)
  }

  /** "Enciphering": one block under the given round keys. */
  function Des(t: Tables, salt: Salt, keys: seq<Key48>, block: Block): (r: Block)
    requires t.Ok()
  {
    FinalPermutation(t, Core(RoundFn(t, salt), keys, Split(InitialPermutation(t, block))).Join())
  }

  function DesIter(t: Tables, salt: Salt, keys: seq<Key48>, n: nat, block: Block): (r: Block)
    requires t.Ok()
  {
    if n == 0 then block else Des(t, salt, keys, DesIter(t, salt, keys, n - 1, block))
  }

  // -------------------------------------------------------- the key schedule

  function RotateLeft(w: Bits, k: nat): (r: Bits)
    requires k <= |w|
    ensures |r| == |w|
  {
    w[k..] + w[..k]
  }

  /** Half C, or D if `d`, of the permuted 56-bit key after n rotations. */
  function KeyHalf(t: Tables, key: Block, d: bool, n: nat): (h: Bits)
    requires t.Ok() && n <= 16
    ensures |h| == 28
  {
    if n == 0 then
      seq(28, i requires 0 <= i < 28 => key[t.pc1[if d then i + 28 else i]])
    else
      RotateLeft(KeyHalf(t, key, d, n - 1), t.rots[n - 1])
  }

  /** Round key n, counted from 0. */
  function RoundKey(t: Tables, key: Block, n: nat): (k: Key48)
    requires t.Ok() && n < 16
    ensures forall i :: 0 <= i < 48 ==>
              k[i] == (KeyHalf(t, key, false, n + 1) + KeyHalf(t, key, true, n + 1))[t.pc2[i]]
  {
    var cd := KeyHalf(t, key, false, n + 1) + KeyHalf(t, key, true, n + 1);
    seq(48, i requires 0 <= i < 48 => cd[t.pc2[i]])
  }

  function KeySchedule(t: Tables, key: Block): (keys: seq<Key48>)
    requires t.Ok()
    ensures |keys| == 16
    ensures forall n :: 0 <= n < 16 ==> keys[n] == RoundKey(t, key, n)
  {
    seq(16, n requires 0 <= n < 16 => RoundKey(t, key, n))
  }

  // ------------------------------------------------------------ properties

  lemma PermutationsCancel(t: Tables, b: Block)
    requires t.Ok()
    ensures InitialPermutation(t, FinalPermutation(t, b)) == b
    ensures FinalPermutation(t, InitialPermutation(t, b)) == b
  {
  }

  lemma DesAfterFinal(t: Tables, salt: Salt, keys: seq<Key48>, h: Halves)
    requires t.Ok()
    ensures Des(t, salt, keys, FinalPermutation(t, h.Join()))
         == FinalPermutation(t, Core(RoundFn(t, salt), keys, h).Join())
  {
    PermutationsCancel(t, h.Join());
    assert Split(h.Join()) == h;
  }

  /** Iterating the whole cipher is iterating its core: the permutations
      between two iterations cancel, which is why crypt(3) may leave them out. */
  lemma {:induction false} IterationsSkipPermutations(t: Tables, salt: Salt, keys: seq<Key48>, n: nat, h: Halves)
    requires t.Ok()
    ensures DesIter(t, salt, keys, n, FinalPermutation(t, h.Join()))
         == FinalPermutation(t, CoreIter(RoundFn(t, salt), keys, n, h).Join())
  {
    hide Tables.Ok, FinalPermutation, Des, Core, RoundFn;
    if n > 0 {
      IterationsSkipPermutations(t, salt, keys, n - 1, h);
      DesAfterFinal(t, salt, keys, CoreIter(RoundFn(t, salt), keys, n - 1, h));
    }
  }

  /** "Deciphering": the same algorithm with the keys in reverse order. */
  lemma Deciphering(t: Tables, salt: Salt, keys: seq<Key48>, block: Block)
    requires t.Ok()
    ensures Des(t, salt, Reverse(keys), Des(t, salt, keys, block)) == block
  {
    var start := Split(InitialPermutation(t, block));
    var h := Core(RoundFn(t, salt), keys, start);
    PermutationsCancel(t, h.Join());
    assert Split(h.Join()) == h;
    CoreUndone(RoundFn(t, salt), keys, start);
    PermutationsCancel(t, block);
  }
}
