/** `struct crypt_data` and the operations on it: table initialisation, the
    salt cache, key installation, encrypt and decrypt, and DES-based crypt. */
module UfcCrypt {
  import opened Bits
  import opened Feistel
  import opened DesStandard
  import opened UfcTables
  import opened UfcWords
  import opened UfcKeys
  import opened UfcRounds
  import opened UfcRounds64
  import opened UfcWide
  import opened UfcInit
  import opened UfcFinal
  import opened UfcOutput

  // -------------------------------------------------------- the small tables

  /** The two builds: `ufc_long` has 32 or 64 bits. */
  function LongBits(wide: bool): nat { if wide then 64 else 32 }

  /** `do_pc1`, `do_pc2`, `eperm32tab` and `efp`. */
  datatype SmallTables = SmallTables(pc1: Rows, pc2: Rows, eperm: Rows, efp: Rows)

  ghost predicate SmallOk(t: Tables, wide: bool, s: SmallTables)
    requires t.Ok()
  {
    && Implements(s.pc1, 16, 7, LongBits(wide), Pc1Moves(t, LongBits(wide)))
    && Implements(s.pc2, 8, 7, LongBits(wide), Pc2Moves(t, LongBits(wide)))
    && Implements(s.eperm, 8, 8, 32, EpermMoves(t))
    && Implements(s.efp, 32, 6, 32, EfpMoves(t))
  }

  method BuildSmallTables(t: Tables, wide: bool) returns (s: SmallTables)
    requires t.Ok()
    ensures SmallOk(t, wide, s)
  {
    hide Implements, Place;
    var pc1 := BuildTable(16, 7, LongBits(wide), Pc1Moves(t, LongBits(wide)));
    var pc2 := BuildTable(8, 7, LongBits(wide), Pc2Moves(t, LongBits(wide)));
    var eperm := BuildTable(8, 8, 32, EpermMoves(t));
    var inv := BuildEInverse(t);
    EfpMovesOk(t);
    EfpMovesFrom(t, inv);
    var moves := seq(64, bit requires 0 <= bit < 64 => EfpMove(inv[t.fp[bit]], bit));
    var efp := BuildTable(32, 6, 32, moves);
    s := SmallTables(pc1, pc2, eperm, efp);
  }

  // ----------------------------------------------------------------- the salt

  /** Bit j of a character's six-bit value. */
  predicate CodeBit(c: char, j: nat)
    requires GoodForSalt(c)
  {
    AsciiToBin(c) / Pow2(j) % 2 == 1
  }

  /** The bits that a two-character salt exchanges: the low twelve, six from
      each character, least significant first. */
  function SaltOf(s0: char, s1: char): (salt: Salt)
    requires GoodForSalt(s0) && GoodForSalt(s1)
    ensures forall k :: 0 <= k < 6 ==> salt[k] == CodeBit(s0, k) && salt[k + 6] == CodeBit(s1, k)
    ensures forall k :: 12 <= k < 24 ==> !salt[k]
  {
    seq(24, k requires 0 <= k < 24 =>
      if k < 6 then CodeBit(s0, k) else if k < 12 then CodeBit(s1, k - 6) else false)
  }

  /** The six salt bits of a character are its value, least significant first. */
  lemma SaltValue(s0: char, s1: char)
    requires GoodForSalt(s0) && GoodForSalt(s1)
    ensures Val(Reverse(SaltOf(s0, s1)[..6])) == AsciiToBin(s0)
    ensures Val(Reverse(SaltOf(s0, s1)[6..12])) == AsciiToBin(s1)
  {
    SixBits(s0, SaltOf(s0, s1)[..6]);
    SixBits(s1, SaltOf(s0, s1)[6..12]);
  }

  lemma SixBits(c: char, x: Bits)
    requires GoodForSalt(c) && |x| == 6 && forall k :: 0 <= k < 6 ==> x[k] == CodeBit(c, k)
    ensures Val(Reverse(x)) == AsciiToBin(c)
  {
    hide AsciiToBin, Val;
    var v := AsciiToBin(c);
    LowBits(v);
    assert Pow2(6) == 64;
    assert Reverse(x) == ToBits(6, v);
    ValOfToBits(6, v);
  }

  lemma LowBits(v: nat)
    ensures ToBits(6, v) == [v / Pow2(5) % 2 == 1, v / Pow2(4) % 2 == 1, v / Pow2(3) % 2 == 1, v / Pow2(2) % 2 == 1, v / Pow2(1) % 2 == 1, v / Pow2(0) % 2 == 1]
  {
    assert v / 2 / 2 == v / 4 && v / 4 / 2 == v / 8 && v / 8 / 2 == v / 16 && v / 16 / 2 == v / 32;
    assert ToBits(1, v / 32) == [v / 32 % 2 == 1];
    assert ToBits(2, v / 16) == ToBits(1, v / 32) + [v / 16 % 2 == 1];
    assert ToBits(3, v / 8) == ToBits(2, v / 16) + [v / 8 % 2 == 1];
    assert ToBits(4, v / 4) == ToBits(3, v / 8) + [v / 4 % 2 == 1];
    assert ToBits(5, v / 2) == ToBits(4, v / 4) + [v / 2 % 2 == 1];
    assert Pow2(1) == 2 && Pow2(2) == 4 && Pow2(3) == 8 && Pow2(4) == 16 && Pow2(5) == 32;
  }

  /** Different salts swap different bits. */
  lemma SaltsDiffer(s0: char, s1: char, r0: char, r1: char)
    requires GoodForSalt(s0) && GoodForSalt(s1) && GoodForSalt(r0) && GoodForSalt(r1)
    requires SaltOf(s0, s1) == SaltOf(r0, r1)
    ensures s0 == r0 && s1 == r1
  {
    SaltValue(s0, s1);
    SaltValue(r0, r1);
    CodesDiffer(s0, r0);
    CodesDiffer(s1, r1);
  }

  /** `saltbits |= BITMASK[6 * i + j]` for the set bits of the two characters. */
  method SaltBits(s0: char, s1: char) returns (w: Word)
    requires GoodForSalt(s0) && GoodForSalt(s1)
    ensures w == Spread(SaltOf(s0, s1))
  {
    hide Spread, CodeBit, BitMask;
    w := Zeros(32);
    ghost var x := Zeros(24);
    SpreadZeros();
    for i := 0 to 2
      invariant |x| == 24 && w == Spread(x)
      invariant forall k :: 0 <= k < 24 ==> x[k] == (k < 6 * i && SaltOf(s0, s1)[k])
    {
      var c := if i == 0 then s0 else s1;
      for j := 0 to 6
        invariant |x| == 24 && w == Spread(x)
        invariant forall k :: 0 <= k < 24 ==> x[k] == (k < 6 * i + j && SaltOf(s0, s1)[k])
      {
        assert SaltOf(s0, s1)[6 * i + j] == CodeBit(c, j);
        if CodeBit(c, j) {
          OrBitMask(x, 6 * i + j);
          w := Or(w, Unit(32, BitMask(6 * i + j)));
          x := x[6 * i + j := true];
        }
      }
    }
    assert x == SaltOf(s0, s1);
  }

  lemma OrBitMask(x: Bits, i: nat)
    requires |x| == 24 && i < 24
    ensures Or(Spread(x), Unit(32, BitMask(i))) == Spread(x[i := true])
  {
    IsSpread(Or(Spread(x), Unit(32, BitMask(i))), x[i := true]);
  }

  /** Re-salting tables in place by the difference of two salts. */
  lemma Resalted(t: Tables, old_: Salt, new_: Salt, g0: nat, sb: seq<Pair>, sb': seq<Pair>)
    requires t.Ok() && g0 <= 2 && SbOk(t, old_, g0, sb) && |sb'| == 8192
    requires forall n :: 0 <= n < 8192 ==> sb'[n] == Shuffle(sb[n], Xor(Spread(old_), Spread(new_)))
    ensures SbOk(t, new_, g0, sb')
  {
    hide Shuffle, Expanded, Share, Spread, Xor;
    var d := Xor(Spread(old_), Spread(new_));
    forall n | 0 <= n < 8192
      ensures sb'[n] == SbEntry(t, new_, g0 + n / 4096, n % 4096)
    {
      ResaltedEntry(t, old_, new_, Share(t, g0 + n / 4096, ToBits(12, n % 4096)));
    }
  }

  lemma ResaltedEntry(t: Tables, old_: Salt, new_: Salt, y: Word)
    requires t.Ok()
    ensures Shuffle(Expanded(t, old_, y), Xor(Spread(old_), Spread(new_))) == Expanded(t, new_, y)
  {
    hide Shuffle, Expanded, Spread;
    ShuffleSalts(t, old_, y);
    ShuffleSalts(t, new_, y);
    ShuffleTwice(Expanded(t, Zeros(24), y), Spread(old_), Xor(Spread(old_), Spread(new_)));
    assert Xor(Spread(old_), Xor(Spread(old_), Spread(new_))) == Spread(new_);
  }

  /** `shuffle_sb` on the 4096 entries from `at` on. */
  method ShuffleSb(sb: array<Pair>, at: nat, saltbits: Word)
    requires at + 4096 <= sb.Length
    modifies sb
    ensures forall n :: at <= n < at + 4096 ==> sb[n] == Shuffle(old(sb[n]), saltbits)
    ensures forall n :: 0 <= n < sb.Length && !(at <= n < at + 4096) ==> sb[n] == old(sb[n])
  {
    hide Shuffle;
    for k := at to at + 4096
      invariant forall n :: at <= n < k ==> sb[n] == Shuffle(old(sb[n]), saltbits)
      invariant forall n :: 0 <= n < sb.Length && !(at <= n < k) ==> sb[n] == old(sb[n])
    {
      sb[k] := Shuffle(sb[k], saltbits);
    }
  }

  // ------------------------------------------------------------- the big tables

  /** The four tables for a salt, in the form of the build. */
  ghost predicate BigOk(t: Tables, salt: Salt, wide: bool, sb01: seq<Pair>, sb23: seq<Pair>, wide01: seq<Block>, wide23: seq<Block>) {
    && t.Ok()
    && if wide then WideOk(t, salt, 0, wide01) && WideOk(t, salt, 2, wide23)
       else SbOk(t, salt, 0, sb01) && SbOk(t, salt, 2, sb23)
  }

  /** The loops that fill the four tables. */
  method FillBig(t: Tables, eperm: Rows, wide: bool, sb01: array<Pair>, sb23: array<Pair>, wide01: array<Block>, wide23: array<Block>)
    requires t.Ok() && Implements(eperm, 8, 8, 32, EpermMoves(t)) && sb01 != sb23 && wide01 != wide23
    requires sb01.Length == sb23.Length == wide01.Length == wide23.Length == 8192
    modifies sb01, sb23, wide01, wide23
    ensures BigOk(t, Zeros(24), wide, sb01[..], sb23[..], wide01[..], wide23[..])
  {
    hide SbEntry, Implements, EpermMoves, Pack, WideOk, SbOk;
    if wide {
      FillSb64(t, eperm, 0, wide01, 0);
      FillSb64(t, eperm, 1, wide01, 4096);
      FillSb64(t, eperm, 2, wide23, 0);
      FillSb64(t, eperm, 3, wide23, 4096);
      FilledWide(t, 0, wide01[..]);
      FilledWide(t, 2, wide23[..]);
    } else {
      FillSb(t, eperm, 0, sb01, 0);
      FillSb(t, eperm, 1, sb01, 4096);
      FillSb(t, eperm, 2, sb23, 0);
      FillSb(t, eperm, 3, sb23, 4096);
      FilledTwice(t, 0, sb01[..]);
      FilledTwice(t, 2, sb23[..]);
    }
  }

  /** The four calls of `shuffle_sb` take the tables from one salt to another. */
  method Resalt(t: Tables, wide: bool, sb01: array<Pair>, sb23: array<Pair>, wide01: array<Block>, wide23: array<Block>,
                difference: Word, ghost before: Salt, ghost after: Salt)
    requires BigOk(t, before, wide, sb01[..], sb23[..], wide01[..], wide23[..]) && sb01 != sb23 && wide01 != wide23
    requires sb01.Length == sb23.Length == wide01.Length == wide23.Length == 8192
    requires difference == Xor(Spread(before), Spread(after))
    modifies sb01, sb23, wide01, wide23
    ensures BigOk(t, after, wide, sb01[..], sb23[..], wide01[..], wide23[..])
  {
    hide Spread, SbEntry, Shuffle, Shuffle64, WideOk, SbOk, Tables.Ok, Xor;
    if wide {
      ghost var u01, u23 := wide01[..], wide23[..];
      ShuffleSb64(wide01, 0, Zeros(32) + difference);
      ShuffleSb64(wide01, 4096, Zeros(32) + difference);
      ShuffleSb64(wide23, 0, Zeros(32) + difference);
      ShuffleSb64(wide23, 4096, Zeros(32) + difference);
      ResaltedWide(t, before, after, 0, u01, wide01[..]);
      ResaltedWide(t, before, after, 2, u23, wide23[..]);
    } else {
      ghost var u01, u23 := sb01[..], sb23[..];
      ShuffleSb(sb01, 0, difference);
      ShuffleSb(sb01, 4096, difference);
      ShuffleSb(sb23, 0, difference);
      ShuffleSb(sb23, 4096, difference);
      Resalted(t, before, after, 0, u01, sb01[..]);
      Resalted(t, before, after, 2, u23, sb23[..]);
    }
  }

  lemma ResaltedWide(t: Tables, old_: Salt, new_: Salt, g0: nat, sb: seq<Block>, sb': seq<Block>)
    requires t.Ok() && g0 <= 2 && WideOk(t, old_, g0, sb) && |sb'| == 8192
    requires forall n :: 0 <= n < 8192 ==> n < |sb| && sb'[n] == Shuffle64(sb[n], Zeros(32) + Xor(Spread(old_), Spread(new_)))
    ensures WideOk(t, new_, g0, sb')
  {
    hide Shuffle, Shuffle64, Expanded, Share, Spread, Xor, Pack;
    var d := Xor(Spread(old_), Spread(new_));
    var us, vs := UfcWide.Entries(t, old_, g0), UfcWide.Entries(t, new_, g0);
    forall n | 0 <= n < 8192
      ensures sb'[n] == Pack(vs[n])
    {
      ResaltedEntry(t, old_, new_, Share(t, g0 + n / 4096, ToBits(12, n % 4096)));
      WideEntry(us[n], vs[n], sb[n], d);
    }
  }

  // --------------------------------------------------------------- the key table

  ghost predicate KeysOk(wide: bool, keysched: seq<Word>, wideKeys: seq<Block>, keys: seq<Key48>) {
    if wide then HoldsWide(wideKeys, keys) else HoldsKeys(keysched, keys)
  }

  /** The loop of `_ufc_mk_keytab_r`. */
  method MakeKeys(t: Tables, tabs: SmallTables, wide: bool, bytes: seq<Bits>, keysched: array<Word>, wideKeys: array<Block>)
    requires t.Ok() && SmallOk(t, wide, tabs) && KeyBytesOk(bytes) && keysched.Length == 32 && wideKeys.Length == 16
    modifies keysched, wideKeys
    ensures KeysOk(wide, keysched[..], wideKeys[..], KeySchedule(t, KeyBlock(bytes)))
  {
    hide Spread, Implements, KeyBlock, HoldsKeys, HoldsWide, Tables.Ok;
    if wide {
      var words := MakeWideKeys(t, tabs.pc1, tabs.pc2, bytes);
      WideCount(words, KeySchedule(t, KeyBlock(bytes)));
      for n := 0 to 16
        invariant forall i :: 0 <= i < n ==> wideKeys[i] == words[i]
      {
        wideKeys[n] := words[n];
      }
      assert wideKeys[..] == words;
    } else {
      var words := MakeKeyWords(t, tabs.pc1, tabs.pc2, 32, bytes);
      WordCount(words, KeySchedule(t, KeyBlock(bytes)));
      for n := 0 to 32
        invariant forall i :: 0 <= i < n ==> keysched[i] == words[i]
      {
        keysched[n] := words[n];
      }
      assert keysched[..] == words;
    }
  }

  lemma WideCount(words: seq<Block>, keys: seq<Key48>)
    requires HoldsWide(words, keys)
    ensures |words| == 16
  {
  }

  method ReverseTable(wide: bool, keysched: array<Word>, wideKeys: array<Block>, ghost keys: seq<Key48>)
    requires KeysOk(wide, keysched[..], wideKeys[..], keys)
    modifies keysched, wideKeys
    ensures KeysOk(wide, keysched[..], wideKeys[..], Reverse(keys))
  {
    hide HoldsKeys, HoldsWide;
    if wide { ReverseWide(wideKeys, keys); } else { ReverseKeys(keysched, keys); }
  }

  // ------------------------------------------------------------ encrypt's bits

  /** A block given one bit to a character: anything but 0 is a set bit. */
  function BitsOf(block: seq<int>): (b: Block)
    requires |block| == 64
    ensures forall i :: 0 <= i < 64 ==> b[i] == (block[i] != 0)
  {
    seq(64, i requires 0 <= i < 64 => block[i] != 0)
  }

  lemma InputBit(t: Tables, block: Block, off: nat, i: nat)
    requires t.Ok() && (off == 0 || off == 32) && i < 48
    ensures E(t, Zeros(24), InitialPermutation(t, block)[off..off + 32])[i] == block[t.ip[t.esel[i] + off]]
  {
    assert SaltedPlace(Zeros(24), i) == i;
  }

  /** One word of the input: `if (block[initial_perm[esel[i]-1]-1]) v |= BITMASK[i]`. */
  method ExpandInputWord(t: Tables, block: Block, off: nat, h: nat) returns (v: Word)
    requires t.Ok() && (off == 0 || off == 32) && h < 2
    ensures v == Spread(E(t, Zeros(24), InitialPermutation(t, block)[off..off + 32])[24 * h..24 * h + 24])
  {
    hide E, InitialPermutation, Spread, BitMask;
    ghost var all := E(t, Zeros(24), InitialPermutation(t, block)[off..off + 32]);
    ghost var e := all[24 * h..24 * h + 24];
    SpreadZeros();
    v := Zeros(32);
    ghost var x := Zeros(24);
    for i := 0 to 24
      invariant |x| == 24 && v == Spread(x)
      invariant forall k :: 0 <= k < 24 ==> x[k] == (k < i && e[k])
    {
      InputBit(t, block, off, 24 * h + i);
      assert e[i] == all[24 * h + i];
      if block[t.ip[t.esel[24 * h + i] + off]] {
        OrBitMask(x, i);
        v := Or(v, Unit(32, BitMask(i)));
        x := x[i := true];
      }
    }
    assert x == e;
  }

  /** Initial permutation and E expansion of the half that starts at bit `off`. */
  method ExpandInput(t: Tables, block: Block, off: nat) returns (p: Pair)
    requires t.Ok() && (off == 0 || off == 32)
    ensures p == Expanded(t, Zeros(24), InitialPermutation(t, block)[off..off + 32])
  {
    hide E, InitialPermutation, Spread;
    var a := ExpandInputWord(t, block, off, 0);
    var b := ExpandInputWord(t, block, off, 1);
    p := Pair(a, b);
    ghost var e := E(t, Zeros(24), InitialPermutation(t, block)[off..off + 32]);
    assert e[24 * 0..24 * 0 + 24] == e[..24] && e[24 * 1..24 * 1 + 24] == e[24..];
  }

  // ------------------------------------------------------------ crypt_data

  /** The structure of both builds; of the two forms of its tables the build uses
      one. */
  class CryptData {
    const t: Tables
    const wide: bool
    const keysched: array<Word>
    const sb01: array<Pair>
    const sb23: array<Pair>
    const wideKeys: array<Block>
    const wide01: array<Block>
    const wide23: array<Block>
    const crypt3Buf: array<char>
    var tabs: SmallTables
    var currentSalt: (char, char)
    var currentSaltbits: Word
    var direction: int
    var initialized: nat

    /** The key last installed, if any. */
    ghost var keyed: bool
    ghost var key: Block

    /** The salt in force; none before the first one is set. */
    ghost function Salt(): Salt
      reads this
    {
      if GoodForSalt(currentSalt.0) && GoodForSalt(currentSalt.1)
      then SaltOf(currentSalt.0, currentSalt.1) else Zeros(24)
    }

    /** The round keys in the order of the current direction. */
    ghost function Schedule(): seq<Key48>
      requires t.Ok()
      reads this
    {
      if direction == 0 then KeySchedule(t, key) else Reverse(KeySchedule(t, key))
    }

    /** What every operation keeps: however salts were set, refused, repeated
        or replaced, the big tables are those of the current salt; however
        encryption and decryption alternated, the key table is the schedule of
        the installed key in the order that `direction` says. */
    ghost predicate Valid()
      reads this, keysched, wideKeys, sb01, sb23, wide01, wide23
    {
      && t.Ok() && Shaped()
      && currentSaltbits == Spread(Salt())
      && (initialized > 0 ==>
            && SmallOk(t, wide, tabs)
            && BigOk(t, Salt(), wide, sb01[..], sb23[..], wide01[..], wide23[..]))
      && (keyed ==> KeysOk(wide, keysched[..], wideKeys[..], Schedule()))
    }

    /** Separate tables of the right sizes. */
    ghost predicate Shaped() {
      && sb01 != sb23 && wide01 != wide23 && wideKeys != wide01 && wideKeys != wide23
      && keysched.Length == 32 && wideKeys.Length == 16 && crypt3Buf.Length == 14
      && sb01.Length == sb23.Length == wide01.Length == wide23.Length == 8192
    }

    /** A zero-filled structure. */
    constructor (t: Tables, wide: bool)
      requires t.Ok()
      ensures Valid() && this.t == t && this.wide == wide && !keyed && initialized == 0 && Salt() == Zeros(24)
      ensures fresh(keysched) && fresh(sb01) && fresh(sb23) && fresh(crypt3Buf)
      ensures fresh(wideKeys) && fresh(wide01) && fresh(wide23)
    {
      this.t, this.wide := t, wide;
      wideKeys := new Block[16](_ => Zeros(64));
      wide01 := new Block[8192](_ => Zeros(64));
      wide23 := new Block[8192](_ => Zeros(64));
      keysched := new Word[32](_ => Zeros(32));
      sb01 := new Pair[8192](_ => Pair(Zeros(32), Zeros(32)));
      sb23 := new Pair[8192](_ => Pair(Zeros(32), Zeros(32)));
      crypt3Buf := new char[14](_ => '\0');
      tabs := SmallTables([], [], [], []);
      currentSalt := ('\0', '\0');
      currentSaltbits := Zeros(32);
      direction := 0;
      initialized := 0;
      keyed := false;
      key := Zeros(64);
      new;
      assert Spread(Zeros(24)) == Zeros(32);
    }

    /** `__init_des_r` */
    method InitDes()
      requires Valid()
      modifies this`tabs, this`currentSalt, this`currentSaltbits, this`initialized, sb01, sb23, wide01, wide23
      ensures Valid() && initialized > 0 && Salt() == Zeros(24)
    {
      hide Spread, SmallOk, Implements, KeysOk, BigOk;
      tabs := BuildSmallTables(t, wide);
      EpermOf(t, wide, tabs);
      FillBig(t, tabs.eperm, wide, sb01, sb23, wide01, wide23);
      currentSaltbits := Zeros(32);
      currentSalt := ('\0', '\0');
      initialized := initialized + 1;
      SpreadZeros();
    }

    /** `_ufc_setup_salt_r`: true iff both characters are in the salt alphabet;
        then the tables are re-salted unless the salt is already in force. */
    method SetupSalt(s0: char, s1: char) returns (ok: bool)
      requires Valid()
      modifies this`tabs, this`currentSalt, this`currentSaltbits, this`initialized, sb01, sb23, wide01, wide23
      ensures Valid() && initialized > 0
      ensures ok == (GoodForSalt(s0) && GoodForSalt(s1))
      ensures ok ==> currentSalt == (s0, s1) && Salt() == SaltOf(s0, s1)
      ensures !ok ==> Salt() == (if old(initialized) == 0 then Zeros(24) else old(Salt()))
    {
      hide Spread, SmallOk, KeysOk, BigOk, SaltOf, GoodForSalt;
      if initialized == 0 {
        InitDes();
      }
      if !GoodForSalt(s0) { return false; }
      if !GoodForSalt(s1) { return false; }
      if s0 == currentSalt.0 && s1 == currentSalt.1 { return true; }
      ghost var before := Salt();
      currentSalt := (s0, s1);
      var saltbits := SaltBits(s0, s1);
      Resalt(t, wide, sb01, sb23, wide01, wide23, Xor(currentSaltbits, saltbits), before, SaltOf(s0, s1));
      currentSaltbits := saltbits;
      ok := true;
    }

    /** `_ufc_mk_keytab_r`: install a key given as eight bytes. */
    method MkKeytab(bytes: seq<Bits>)
      requires Valid() && initialized > 0 && KeyBytesOk(bytes)
      modifies this`direction, this`keyed, this`key, keysched, wideKeys
      ensures Valid() && keyed && key == KeyBlock(bytes) && direction == 0
    {
      hide Spread, BigOk, SmallOk, KeyBlock, KeysOk, Tables.Ok;
      MakeKeys(t, tabs, wide, bytes, keysched, wideKeys);
      direction := 0;
      keyed, key := true, KeyBlock(bytes);
    }

    /** Bring the key table into the order for encryption (flag 0) or decryption. */
    method SetDirection(edflag: int)
      requires Valid() && keyed
      modifies this`direction, keysched, wideKeys
      ensures Valid() && keyed && (direction == 0 <==> edflag == 0)
    {
      hide Spread, BigOk, SmallOk, KeySchedule, KeysOk, Reverse, SaltOf, Tables.Ok;
      if (edflag == 0) != (direction == 0) {
        ReverseTwice(KeySchedule(t, key));
        ReverseTable(wide, keysched, wideKeys, Schedule());
        direction := edflag;
      }
    }

    /** `__encrypt_r`: the block, one bit to an element, is enciphered or
        deciphered in place under the installed key, without any salt. */
    method Encrypt(block: array<int>, edflag: int)
      requires Valid() && keyed && block.Length == 64
      modifies this`tabs, this`currentSalt, this`currentSaltbits, this`initialized, this`direction, sb01, sb23, wide01, wide23, keysched, wideKeys, block
      ensures Valid() && keyed
      ensures BitsOf(block[..]) == Des(t, Zeros(24), if edflag == 0 then KeySchedule(t, key) else Reverse(KeySchedule(t, key)),
                                       BitsOf(old(block[..])))
      ensures forall i :: 0 <= i < 64 ==> block[i] == 0 || block[i] == 1
    {
      hide Spread, BigOk, SmallOk, KeySchedule, Des, KeysOk, SaltOf, Tables.Ok, InitialPermutation, FinalPermutation, Expanded, CoreIter, RoundFn, Reverse;
      var ok := SetupSalt('.', '.');
      DotSalt();
      SetDirection(edflag);
      var bits := BitsOf(block[..]);
      var l := ExpandInput(t, bits, 0);
      var r := ExpandInput(t, bits, 32);
      ghost var ip := InitialPermutation(t, bits);
      assert ip[0..32] == ip[..32] && ip[32..64] == ip[32..];
      var w0, w1 := Iterate(1, l, r, Split(ip));
      OneIteration(t, Schedule(), bits);
      StoreBits(w0, w1, block);
    }

    /** The loops and the final permutation on a salted state. */
    method Iterate(itr: nat, l: Pair, r: Pair, ghost h: Halves) returns (w0: Word, w1: Word)
      requires Valid() && keyed && initialized > 0
      requires l == Expanded(t, Salt(), h.l) && r == Expanded(t, Salt(), h.r)
      ensures w0 + w1 == FinalPermutation(t, CoreIter(RoundFn(t, Salt()), Schedule(), itr, h).Join())
    {
      hide Spread, SbOk, WideOk, SmallOk, KeySchedule, Expanded, FinalPermutation, HoldsKeys, HoldsWide, SaltOf, Tables.Ok, Core;
      var res := new Word[4][l.a, l.b, r.a, r.b];
      if wide { Loop64(t, wideKeys, wide01, wide23, itr, res, Salt(), Schedule(), h); }
      else { DoIt(t, keysched, sb01, sb23, itr, res, Salt(), Schedule(), h); }
      EfpOf(t, wide, tabs);
      ghost var out := CoreIter(RoundFn(t, Salt()), Schedule(), itr, h);
      DoFinalPerm(t, tabs.efp, currentSaltbits, res, Salt(), out);
      w0, w1 := res[0], res[1];
      ghost var b: Block := FinalPermutation(t, out.Join());
      assert w0 == res[..2][0] == b[..32] && w1 == res[..2][1] == b[32..];
    }

    /** `__setkey_r`: install a key given one bit to an element. */
    method SetKey(elements: seq<int>)
      requires Valid() && |elements| == 64
      modifies this`tabs, this`currentSalt, this`currentSaltbits, this`initialized, this`direction, this`keyed, this`key, sb01, sb23, wide01, wide23, keysched, wideKeys
      ensures Valid() && keyed && initialized > 0
      ensures KeySchedule(t, key) == KeySchedule(t, KeyBits(elements))
    {
      hide Spread, BigOk, SmallOk, KeysOk, SaltOf, KeySchedule, KeyBlock, KeyBits, Tables.Ok;
      var ok := SetupSalt('.', '.');
      var ktab := PackKey(elements);
      SameSchedule(t, ktab, KeyBits(elements));
      MkKeytab(ktab);
    }

    /** The DES branch of `__crypt_r`: 25 iterations over the zero block. */
    method Crypt(bytes: seq<Bits>, s0: char, s1: char) returns (r: CryptResult)
      requires Valid() && forall i :: 0 <= i < |bytes| ==> |bytes[i]| == 8
      modifies this, sb01, sb23, wide01, wide23, keysched, wideKeys, crypt3Buf
      ensures Valid()
      ensures r.Refused? <==> !(GoodForSalt(s0) && GoodForSalt(s1))
      ensures r.Hash? ==>
                r.text == [s0, s1] + Printable(DesIter(t, SaltOf(s0, s1), KeySchedule(t, KeyBlock(Padded(bytes))), 25, Zeros(64)))
    {
      hide Spread, BigOk, SmallOk, KeySchedule, KeysOk, SaltOf, Printable, KeyBlock, FinalPermutation, GoodForSalt, Expanded, Tables.Ok, CoreIter, DesIter, RoundFn, Reverse, Padded;
      var ok := SetupSalt(s0, s1);
      if !ok { return Refused; }
      MkKeytab(Padded(bytes));
      var zero := Pair(Zeros(32), Zeros(32));
      ghost var h := Halves(Zeros(32), Zeros(32));
      ZeroState(t, Salt());
      var w0, w1 := Iterate(25, zero, zero, h);
      ZeroBlock(t);
      IterationsSkipPermutations(t, Salt(), Schedule(), 25, h);
      OutputConversion(w0, w1, s0, s1, crypt3Buf);
      NotNul(s1);
      assert crypt3Buf[..13] == crypt3Buf[..2] + crypt3Buf[2..13];
      r := Hash(crypt3Buf[..13]);
    }
  }

  /** Exchange the words of round keys i and 15 - i. */
  method SwapKeys(keysched: array<Word>, i: nat)
    requires keysched.Length == 32 && i < 8
    modifies keysched
    ensures forall p :: 0 <= p < 32 ==>
              keysched[p] == old(keysched[..])[if p / 2 == i || p / 2 == 15 - i then Mirror(p) else p]
  {
    var x := keysched[2 * (15 - i)];
    keysched[2 * (15 - i)] := keysched[2 * i];
    keysched[2 * i] := x;
    x := keysched[2 * (15 - i) + 1];
    keysched[2 * (15 - i) + 1] := keysched[2 * i + 1];
    keysched[2 * i + 1] := x;
  }

  /** Reverse the order of the round keys in place. */
  method ReverseKeys(keysched: array<Word>, ghost keys: seq<Key48>)
    requires HoldsKeys(keysched[..], keys)
    modifies keysched
    ensures HoldsKeys(keysched[..], Reverse(keys))
  {
    hide HoldsKeys, Mirror;
    WordCount(keysched[..], keys);
    ghost var words := keysched[..];
    for i := 0 to 8
      invariant forall p :: 0 <= p < 32 && i <= p / 2 <= 15 - i ==> keysched[p] == words[p]
      invariant forall p :: 0 <= p < 32 && !(i <= p / 2 <= 15 - i) ==> keysched[p] == words[Mirror(p)]
    {
      ghost var before := keysched[..];
      SwapKeys(keysched, i);
      forall p | 0 <= p < 32 && (p / 2 == i || p / 2 == 15 - i)
        ensures keysched[p] == words[Mirror(p)]
      {
        MirrorPair(p);
      }
    }
    MirroredKeys(words, keysched[..], keys);
  }

  lemma MirrorPair(p: nat)
    requires p < 32
    ensures Mirror(p) / 2 == 15 - p / 2
  {
  }

  /** Where word p of the key table goes when the keys are reversed. */
  function Mirror(p: nat): (q: nat)
    requires p < 32
    ensures q < 32
  {
    2 * (15 - p / 2) + p % 2
  }

  lemma MirroredKeys(words: seq<Word>, words': seq<Word>, keys: seq<Key48>)
    requires HoldsKeys(words, keys) && |words'| == 32
    requires forall p :: 0 <= p < 32 ==> words'[p] == words[Mirror(p)]
    ensures HoldsKeys(words', Reverse(keys))
  {
    hide Marked;
    forall n | 0 <= n < 16
      ensures words'[2 * n] == Marked(Reverse(keys)[n][..24]) && words'[2 * n + 1] == Marked(Reverse(keys)[n][24..])
    {
      assert Mirror(2 * n) == 2 * (15 - n) && Mirror(2 * n + 1) == 2 * (15 - n) + 1;
      assert words[2 * (15 - n)] == Marked(keys[15 - n][..24]);
    }
  }

  lemma WordCount(words: seq<Word>, keys: seq<Key48>)
    requires HoldsKeys(words, keys)
    ensures |words| == 32
  {
  }

  /** Write two words out, one bit to an element. */
  method StoreBits(w0: Word, w1: Word, block: array<int>)
    requires block.Length == 64
    modifies block
    ensures BitsOf(block[..]) == w0 + w1
    ensures forall i :: 0 <= i < 64 ==> block[i] == 0 || block[i] == 1
  {
    for i := 0 to 32
      invariant forall k :: 0 <= k < i ==> block[k] == (if w0[k] then 1 else 0)
    {
      block[i] := if w0[i] then 1 else 0;
    }
    for i := 0 to 32
      invariant forall k :: 0 <= k < 32 ==> block[k] == (if w0[k] then 1 else 0)
      invariant forall k :: 32 <= k < 32 + i ==> block[k] == (if w1[k - 32] then 1 else 0)
    {
      block[32 + i] := if w1[i] then 1 else 0;
    }
    assert BitsOf(block[..]) == w0 + w1;
  }

  /** The low byte of an element. */
  function LowByte(e: int): (b: Bits)
    ensures |b| == 8
  {
    ToBits(8, e % 256)
  }

  /** Bit p of the byte after n elements have been shifted in: an element that is
      neither 0 nor 1 reaches into the places of those before it. */
  predicate Spilled(es: seq<int>, n: nat, p: nat)
    requires n <= |es|
  {
    exists i :: 0 <= i < n && p + (n - 1 - i) < 8 && LowByte(es[i])[p + (n - 1 - i)]
  }

  lemma SpilledStep(es: seq<int>, n: nat, p: nat)
    requires n < |es| && p < 8
    ensures Spilled(es, n + 1, p) <==> Spilled(es, n, p + 1) || LowByte(es[n])[p]
  {
    hide LowByte;
    if Spilled(es, n + 1, p) {
      var i :| 0 <= i < n + 1 && p + (n - i) < 8 && LowByte(es[i])[p + (n - i)];
      if i < n { assert (p + 1) + (n - 1 - i) == p + (n - i); }
    }
    if Spilled(es, n, p + 1) {
      var i :| 0 <= i < n && p + 1 + (n - 1 - i) < 8 && LowByte(es[i])[p + 1 + (n - 1 - i)];
      assert p + (n + 1 - 1 - i) == p + 1 + (n - 1 - i);
    }
    if LowByte(es[n])[p] { assert p + (n + 1 - 1 - n) == p; }
  }

  /** `c = c << 1 | *key++` eight times. */
  method PackByte(es: seq<int>) returns (c: Bits)
    requires |es| == 8
    ensures |c| == 8 && forall p :: 0 <= p < 8 ==> c[p] == Spilled(es, 8, p)
  {
    hide Spilled, LowByte;
    c := Zeros(8);
    NothingSpilled(es);
    for j := 0 to 8
      invariant |c| == 8 && forall p :: 0 <= p < 8 ==> c[p] == Spilled(es, j, p)
    {
      BeyondByte(es, j);
      forall p | 0 <= p < 8 ensures Or(Shl(c, 1), LowByte(es[j]))[p] == Spilled(es, j + 1, p) {
        SpilledStep(es, j, p);
        assert Shl(c, 1)[p] == (p + 1 < 8 && c[p + 1]);
      }
      c := Or(Shl(c, 1), LowByte(es[j]));
    }
  }

  lemma NothingSpilled(es: seq<int>)
    ensures forall p :: !Spilled(es, 0, p)
  {
  }

  lemma BeyondByte(es: seq<int>, n: nat)
    requires n <= |es|
    ensures !Spilled(es, n, 8)
  {
  }

  /** The 64 key bits that are packed from 64 elements. */
  function KeyBits(es: seq<int>): (b: Block)
    requires |es| == 64
    ensures forall i :: 0 <= i < 64 ==> b[i] == Spilled(es[8 * (i / 8)..8 * (i / 8) + 8], 8, i % 8)
  {
    seq(64, i requires 0 <= i < 64 => Spilled(es[8 * (i / 8)..8 * (i / 8) + 8], 8, i % 8))
  }

  /** Elements 0 and 1 are the bits themselves. */
  lemma PlainKeyBits(es: seq<int>)
    requires |es| == 64 && forall i :: 0 <= i < 64 ==> es[i] == 0 || es[i] == 1
    ensures KeyBits(es) == BitsOf(es)
  {
    hide Spilled;
    forall i | 0 <= i < 64 ensures KeyBits(es)[i] == BitsOf(es)[i] {
      var byte := es[8 * (i / 8)..8 * (i / 8) + 8];
      assert forall j :: 0 <= j < 8 ==> byte[j] == es[8 * (i / 8) + j];
      PlainBit(byte, i % 8);
    }
  }

  lemma PlainBit(es: seq<int>, p: nat)
    requires |es| == 8 && p < 8 && forall j :: 0 <= j < 8 ==> es[j] == 0 || es[j] == 1
    ensures Spilled(es, 8, p) == (es[p] != 0)
  {
    hide LowByte;
    OneBit();
    if es[p] == 1 { assert p + (8 - 1 - p) == 7 && LowByte(es[p])[7]; }
  }

  lemma OneBit()
    ensures LowByte(0) == Zeros(8) && LowByte(1) == Unit(8, 7)
  {
    assert ToBits(7, 0) == Zeros(7);
    assert ToBits(8, 1) == ToBits(7, 0) + [true];
    assert ToBits(8, 0) == ToBits(7, 0) + [false];
  }

  /** The eight bytes of a 64-bit key; `c >> 1` drops the parity bit. */
  method PackKey(es: seq<int>) returns (ktab: seq<Bits>)
    requires |es| == 64
    ensures |ktab| == 8
    ensures forall n :: 0 <= n < 8 ==> ktab[n] == [false] + KeyBits(es)[8 * n..8 * n + 7]
  {
    hide Spilled;
    ktab := [];
    for i := 0 to 8
      invariant |ktab| == i
      invariant forall n :: 0 <= n < i ==> ktab[n] == [false] + KeyBits(es)[8 * n..8 * n + 7]
    {
      var c := PackByte(es[8 * i..8 * i + 8]);
      forall p | 0 <= p < 8 ensures c[p] == KeyBits(es)[8 * i + p] { assert (8 * i + p) / 8 == i && (8 * i + p) % 8 == p; }
      assert Shr(c, 1) == [false] + KeyBits(es)[8 * i..8 * i + 7];
      ktab := ktab + [Shr(c, 1)];
    }
  }

  lemma OneIteration(t: Tables, keys: seq<Key48>, bits: Block)
    requires t.Ok()
    ensures FinalPermutation(t, CoreIter(RoundFn(t, Zeros(24)), keys, 1, Split(InitialPermutation(t, bits))).Join())
         == Des(t, Zeros(24), keys, bits)
  {
    hide Tables.Ok, Core;
    var h := Split(InitialPermutation(t, bits));
    assert CoreIter(RoundFn(t, Zeros(24)), keys, 0, h) == h;
  }

  /** What crypt returns: NULL with EINVAL, or the text in `crypt_3_buf`. */
  datatype CryptResult = Refused | Hash(text: string)

  /** `strncpy (ktab, key, 8)` into a cleared buffer. */
  function Padded(bytes: seq<Bits>): (k: seq<Bits>)
    requires forall i :: 0 <= i < |bytes| ==> |bytes[i]| == 8
    ensures KeyBytesOk(k)
    ensures forall i :: 0 <= i < 8 ==> k[i] == (if i < |bytes| then bytes[i] else Zeros(8))
  {
    var k := seq(8, i requires 0 <= i < 8 => if i < |bytes| then bytes[i] else Zeros(8));
    assert forall i :: 0 <= i < 8 ==> k[i] == if i < |bytes| then bytes[i] else Zeros(8);
    k
  }

  lemma NotNul(c: char)
    requires GoodForSalt(c)
    ensures c != '\0'
  {
  }

  /** The schedule that setkey installs is that of the 64 bits given. */
  lemma SameSchedule(t: Tables, ktab: seq<Bits>, bits: Block)
    requires t.Ok() && |ktab| == 8
    requires forall n :: 0 <= n < 8 ==> ktab[n] == [false] + bits[8 * n..8 * n + 7]
    ensures KeyBytesOk(ktab) && KeySchedule(t, KeyBlock(ktab)) == KeySchedule(t, bits)
  {
    var k := KeyBlock(ktab);
    forall i | 0 <= i < 64 && i % 8 != 7
      ensures k[i] == bits[i]
    {
      assert ktab[i / 8][i % 8 + 1] == bits[8 * (i / 8)..8 * (i / 8) + 7][i % 8];
    }
    SchedulesAgree(t, k, bits);
  }

  lemma SchedulesAgree(t: Tables, k1: Block, k2: Block)
    requires t.Ok() && forall i :: 0 <= i < 64 && i % 8 != 7 ==> k1[i] == k2[i]
    ensures KeySchedule(t, k1) == KeySchedule(t, k2)
  {
    hide KeyHalf;
    forall n | 0 <= n < 16
      ensures RoundKey(t, k1, n) == RoundKey(t, k2, n)
    {
      ParityIgnored(t, k1, k2, false, n + 1);
      ParityIgnored(t, k1, k2, true, n + 1);
    }
  }

  lemma DotSalt()
    ensures SaltOf('.', '.') == Zeros(24)
  {
    forall j: nat
      ensures !CodeBit('.', j)
    {
      assert 0 / Pow2(j) == 0;
    }
  }

  lemma ZeroState(t: Tables, salt: Salt)
    requires t.Ok()
    ensures Expanded(t, salt, Zeros(32)) == Pair(Zeros(32), Zeros(32))
  {
    assert E(t, salt, Zeros(32)) == Zeros(48);
    SpreadZeros();
    assert Zeros(48)[..24] == Zeros(24) && Zeros(48)[24..] == Zeros(24);
  }

  lemma ZeroBlock(t: Tables)
    requires t.Ok()
    ensures FinalPermutation(t, Halves(Zeros(32), Zeros(32)).Join()) == Zeros(64)
  {
  }

  /** The 64-bit loop on tables in packed form. */
  method Loop64(t: Tables, wideKeys: array<Block>, wide01: array<Block>, wide23: array<Block>, itr: nat, res: array<Word>,
                ghost salt: Salt, ghost keys: seq<Key48>, ghost h: Halves)
    requires t.Ok() && WideOk(t, salt, 0, wide01[..]) && WideOk(t, salt, 2, wide23[..])
    requires HoldsWide(wideKeys[..], keys) && StateOk(t, salt, res[..], h)
    modifies res
    ensures StateOk(t, salt, res[..], CoreIter(RoundFn(t, salt), keys, itr, h))
  {
    hide SbOk, HoldsKeys, StateOk, Packs, PacksKeys;
    KeyWordsHold(keys);
    DoIt64(t, wideKeys, wide01, wide23, itr, res, UfcWide.Entries(t, salt, 0), UfcWide.Entries(t, salt, 2), KeyWords(keys), salt, keys, h);
  }

  lemma EfpOf(t: Tables, wide: bool, s: SmallTables)
    requires t.Ok() && SmallOk(t, wide, s)
    ensures Implements(s.efp, 32, 6, 32, EfpMoves(t))
  {
  }

  /** Encrypting and then decrypting gives the block back, whatever was done
      with the structure before. */
  method EncryptThenDecrypt(data: CryptData, block: array<int>)
    requires data.Valid() && data.keyed && block.Length == 64
    requires forall i :: 0 <= i < 64 ==> block[i] == 0 || block[i] == 1
    modifies data, data.sb01, data.sb23, data.wide01, data.wide23, data.keysched, data.wideKeys, block
    ensures data.Valid() && data.keyed && block[..] == old(block[..])
  {
    hide KeySchedule, Des;
    var t := data.t;
    ghost var start, keys := BitsOf(block[..]), KeySchedule(t, data.key);
    data.Encrypt(block, 0);
    data.Encrypt(block, 1);
    Deciphering(t, Zeros(24), keys, start);
    assert BitsOf(block[..]) == start;
    forall i | 0 <= i < 64
      ensures block[i] == old(block[i])
    {
      assert BitsOf(block[..])[i] == (block[i] != 0) && start[i] == (old(block[i]) != 0);
    }
  }

  lemma SpreadZeros()
    ensures Spread(Zeros(24)) == Zeros(32)
  {
  }

  lemma EpermOf(t: Tables, wide: bool, s: SmallTables)
    requires t.Ok() && SmallOk(t, wide, s)
    ensures Implements(s.eperm, 8, 8, 32, EpermMoves(t))
  {
  }

  /** Two tables filled one after the other. */
  lemma FilledTwice(t: Tables, g0: nat, sb: seq<Pair>)
    requires t.Ok() && g0 <= 2 && |sb| == 8192
    requires forall n :: 0 <= n < 4096 ==> sb[n] == SbEntry(t, Zeros(24), g0, n - 0)
    requires forall n :: 4096 <= n < 8192 ==> sb[n] == SbEntry(t, Zeros(24), g0 + 1, n - 4096)
    ensures SbOk(t, Zeros(24), g0, sb)
  {
    hide SbEntry;
  }
}
