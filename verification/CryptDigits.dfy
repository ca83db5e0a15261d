/** The printable form of a digest in `$1$`, `$5$` and `$6$` strings: groups of
    up to three bytes in a shuffled order, six bits a character. */
module CryptDigits {
  import opened ByteOrder
  import opened HashStandard
  import opened HashCrypt
  import opened UfcOutput

  /** The alphabet `b64t`, eight characters a row. */
  const B64T: seq<string> := [
    "./012345", "6789ABCD", "EFGHIJKL", "MNOPQRST", "UVWXYZab", "cdefghij", "klmnopqr", "stuvwxyz"
  ]

  function B64Char(v: nat): (c: char)
    requires v < 64
    ensures GoodForSalt(c) && AsciiToBin(c) == v
  {
    B64T[v / 8][v % 8]
  }

  /** One call of `b64_from_24bit`: which bytes make up the 24-bit word (-1 for
      a zero) and how many characters of it are written. */
  datatype Row = Row(b2: int, b1: int, b0: int, n: nat)

  const MD5_ROWS: seq<Row> := [
    Row(0, 6, 12, 4), Row(1, 7, 13, 4), Row(2, 8, 14, 4), Row(3, 9, 15, 4), Row(4, 10, 5, 4), Row(-1, -1, 11, 2)
  ]

  const SHA256_ROWS: seq<Row> := [
    Row(0, 10, 20, 4), Row(21, 1, 11, 4), Row(12, 22, 2, 4), Row(3, 13, 23, 4), Row(24, 4, 14, 4),
    Row(15, 25, 5, 4), Row(6, 16, 26, 4), Row(27, 7, 17, 4), Row(18, 28, 8, 4), Row(9, 19, 29, 4),
    Row(-1, 31, 30, 3)
  ]

  const SHA512_FIRST: seq<Row> := [
    Row(0, 21, 42, 4), Row(22, 43, 1, 4), Row(44, 2, 23, 4), Row(3, 24, 45, 4), Row(25, 46, 4, 4),
    Row(47, 5, 26, 4), Row(6, 27, 48, 4), Row(28, 49, 7, 4), Row(50, 8, 29, 4), Row(9, 30, 51, 4),
    Row(31, 52, 10, 4)
  ]

  const SHA512_SECOND: seq<Row> := [
    Row(53, 11, 32, 4), Row(12, 33, 54, 4), Row(34, 55, 13, 4), Row(56, 14, 35, 4), Row(15, 36, 57, 4),
    Row(37, 58, 16, 4), Row(59, 17, 38, 4), Row(18, 39, 60, 4), Row(40, 61, 19, 4), Row(62, 20, 41, 4),
    Row(-1, -1, 63, 2)
  ]

  function RowCount(k: Kind): nat {
    match k case MD5 => 6 case SHA256 => 11 case SHA512 => 22
  }

  function RowAt(k: Kind, r: nat): Row
    requires r < RowCount(k)
  {
    match k
    case MD5 => MD5_ROWS[r]
    case SHA256 => SHA256_ROWS[r]
    case SHA512 => if r < 11 then SHA512_FIRST[r] else SHA512_SECOND[r - 11]
  }

  /** The order of the bytes: a row takes bytes that lie a third of the digest
      apart, and for the SHA schemes each row turns the three by one place. */
  lemma RowsTurn(k: Kind, r: nat)
    requires r < RowCount(k) - 1
    ensures k.MD5? ==> RowAt(k, r) == Row(r, r + 6, if r < 4 then r + 12 else 5, 4)
    ensures k.SHA256? ==> RowAt(k, r) == match r % 3
      case 0 => Row(r, r + 10, r + 20, 4)
      case 1 => Row(r + 20, r, r + 10, 4)
      case _ => Row(r + 10, r + 20, r, 4)
    ensures k.SHA512? ==> RowAt(k, r) == match r % 3
      case 0 => Row(r, r + 21, r + 42, 4)
      case 1 => Row(r + 21, r + 42, r, 4)
      case _ => Row(r + 42, r, r + 21, 4)
  {
    match k
    case MD5 =>
    case SHA256 =>
    case SHA512 =>
      if r < 11 { assert SHA512_FIRST[r] == RowAt(k, r); } else { assert SHA512_SECOND[r - 11] == RowAt(k, r); }
  }

  /** How many characters the whole digest takes. */
  function DigitCount(k: Kind): nat {
    match k case MD5 => 22 case SHA256 => 43 case SHA512 => 86
  }

  function ByteOr0(d: seq<byte>, i: int): (b: byte) {
    if 0 <= i < |d| then d[i] else 0
  }

  /** The 24-bit word of a row. */
  function RowWord(d: seq<byte>, row: Row): nat {
    var b2: nat, b1: nat, b0: nat := ByteOr0(d, row.b2), ByteOr0(d, row.b1), ByteOr0(d, row.b0);
    0x10000 * b2 + 0x100 * b1 + b0
  }

  /** n characters of w, the lowest six bits first. */
  function Sextets(w: nat, n: nat): (s: string)
    ensures |s| == n
    ensures forall i :: 0 <= i < n ==> GoodForSalt(s[i])
  {
    if n == 0 then [] else [B64Char(w % 64)] + Sextets(w / 64, n - 1)
  }

  function SextetValue(s: string): nat
    requires forall i :: 0 <= i < |s| ==> GoodForSalt(s[i])
  {
    if s == [] then 0 else AsciiToBin(s[0]) + 64 * SextetValue(s[1..])
  }

  lemma {:induction false} SextetsValue(w: nat, n: nat)
    requires n <= 4
    requires w < (match n case 0 => 1 case 1 => 64 case 2 => 4096 case 3 => 0x4_0000 case _ => 0x100_0000)
    ensures SextetValue(Sextets(w, n)) == w
  {
    if n > 0 {
      SextetsValue(w / 64, n - 1);
      assert Sextets(w, n)[1..] == Sextets(w / 64, n - 1);
    }
  }

  /** The characters of the first n rows. */
  function EncodeRows(k: Kind, d: seq<byte>, n: nat): (s: string)
    requires n <= RowCount(k)
    ensures forall i :: 0 <= i < |s| ==> GoodForSalt(s[i])
  {
    if n == 0 then []
    else EncodeRows(k, d, n - 1) + Sextets(RowWord(d, RowAt(k, n - 1)), RowAt(k, n - 1).n)
  }

  function Encode(k: Kind, d: seq<byte>): (s: string)
    ensures forall i :: 0 <= i < |s| ==> GoodForSalt(s[i])
  {
    EncodeRows(k, d, RowCount(k))
  }

  /** Every row but the last writes four characters. */
  lemma RowWidth(k: Kind, r: nat)
    requires r < RowCount(k)
    ensures RowAt(k, r).n == if r + 1 < RowCount(k) then 4 else DigitCount(k) - 4 * r
  {
    match k
    case MD5 =>
    case SHA256 =>
    case SHA512 => if r < 11 { assert SHA512_FIRST[r].n == 4; }
  }

  lemma EncodeStep(k: Kind, d: seq<byte>, n: nat)
    requires n < RowCount(k)
    ensures EncodeRows(k, d, n + 1) == EncodeRows(k, d, n) + Sextets(RowWord(d, RowAt(k, n)), RowAt(k, n).n)
    ensures EncodeRows(k, d, 0) == []
  {
  }

  /** Where row r starts, and what is written there. */
  lemma {:induction false} EncodedRow(k: Kind, d: seq<byte>, n: nat, r: nat)
    requires r < n <= RowCount(k)
    ensures |EncodeRows(k, d, n)| == 4 * (n - 1) + RowAt(k, n - 1).n
    ensures 4 * r + RowAt(k, r).n <= |EncodeRows(k, d, n)|
    ensures EncodeRows(k, d, n)[4 * r..4 * r + RowAt(k, r).n] == Sextets(RowWord(d, RowAt(k, r)), RowAt(k, r).n)
  {
    hide RowAt, Sextets, RowWord, EncodeRows, RowCount, DigitCount;
    EncodeStep(k, d, n - 1);
    RowWidth(k, n - 1);
    RowWidth(k, r);
    if n > 1 {
      RowWidth(k, n - 2);
      EncodedRow(k, d, n - 1, if r < n - 1 then r else 0);
    }
    var before, last := EncodeRows(k, d, n - 1), Sextets(RowWord(d, RowAt(k, n - 1)), RowAt(k, n - 1).n);
    assert |before| == 4 * (n - 1);
    if r < n - 1 {
      assert (before + last)[4 * r..4 * r + RowAt(k, r).n] == before[4 * r..4 * r + RowAt(k, r).n];
    } else {
      assert (before + last)[4 * r..4 * r + RowAt(k, r).n] == last;
    }
  }

  // ------------------------------------------------------------ reading it back

  /** In which row byte i of the digest is written. */
  function RowOf(k: Kind, i: nat): (r: nat)
    requires i < DigestSize(k)
    ensures r < RowCount(k)
  {
    match k
    case MD5 => if i == 11 then 5 else if i == 5 then 4 else i % 6
    case SHA256 => if i >= 30 then 10 else i % 10
    case SHA512 => if i == 63 then 21 else i % 21
  }

  /** The byte of a word that stands for byte i of the digest. */
  function Pick(row: Row, w: nat, i: nat): byte {
    if row.b0 == i then w % 256 else if row.b1 == i then w / 256 % 256 else w / 0x10000 % 256
  }

  function RowText(k: Kind, s: string, r: nat): (t: string)
    requires r < RowCount(k) && |s| == DigitCount(k)
    ensures forall c :: c in t ==> c in s
  {
    RowWidth(k, r);
    s[4 * r..4 * r + RowAt(k, r).n]
  }

  function Decode(k: Kind, s: string): (d: seq<byte>)
    requires |s| == DigitCount(k) && forall c :: c in s ==> GoodForSalt(c)
    ensures |d| == DigestSize(k)
  {
    seq(DigestSize(k), i requires 0 <= i < DigestSize(k) =>
      Pick(RowAt(k, RowOf(k, i)), SextetValue(RowText(k, s, RowOf(k, i))), i))
  }

  predicate Holds(row: Row, i: nat) {
    row.b0 == i || row.b1 == i || row.b2 == i
  }

  /** Every byte of the digest is in the row where it is looked for. */
  lemma EveryByteWritten(k: Kind, i: nat)
    requires i < DigestSize(k)
    ensures Holds(RowAt(k, RowOf(k, i)), i)
  {
    match k
    case MD5 => WrittenMd5(i);
    case SHA256 => WrittenSha256(i);
    case SHA512 => if i < 63 && i % 21 < 11 { WrittenFirst(i); } else { WrittenSecond(i); }
  }

  lemma WrittenMd5(i: nat)
    requires i < 16
    ensures Holds(MD5_ROWS[RowOf(MD5, i)], i)
  {
  }

  lemma WrittenSha256(i: nat)
    requires i < 32
    ensures Holds(SHA256_ROWS[RowOf(SHA256, i)], i)
  {
    if i < 30 { var r := i % 10; assert i == r || i == r + 10 || i == r + 20; RowForm256(r); }
  }

  lemma RowForm256(r: nat)
    requires r < 10
    ensures SHA256_ROWS[r] == if r % 3 == 0 then Row(r, r + 10, r + 20, 4)
      else if r % 3 == 1 then Row(r + 20, r, r + 10, 4) else Row(r + 10, r + 20, r, 4)
  {
  }

  lemma WrittenFirst(i: nat)
    requires i < 63 && i % 21 < 11
    ensures Holds(SHA512_FIRST[i % 21], i)
  {
    var r := i % 21;
    assert i == r || i == r + 21 || i == r + 42;
    RowFormFirst(r);
  }

  lemma RowFormFirst(r: nat)
    requires r < 11
    ensures SHA512_FIRST[r] == RowForm512(r)
  {
  }

  function RowForm512(r: nat): Row {
    if r % 3 == 0 then Row(r, r + 21, r + 42, 4)
    else if r % 3 == 1 then Row(r + 21, r + 42, r, 4) else Row(r + 42, r, r + 21, 4)
  }

  lemma WrittenSecond(i: nat)
    requires i < 64 && (i == 63 || i % 21 >= 11)
    ensures Holds(SHA512_SECOND[RowOf(SHA512, i) - 11], i)
  {
    if i < 63 {
      var r := i % 21;
      assert i == r || i == r + 21 || i == r + 42;
      RowFormSecond(r);
    }
  }

  lemma RowFormSecond(r: nat)
    requires 11 <= r < 21
    ensures SHA512_SECOND[r - 11] == RowForm512(r)
  {
  }

  /** A word gives its bytes back. */
  lemma PickRight(d: seq<byte>, row: Row, i: nat)
    requires i < |d| && Holds(row, i)
    ensures Pick(row, RowWord(d, row), i) == d[i]
  {
    var b2: nat, b1: nat, b0: nat := ByteOr0(d, row.b2), ByteOr0(d, row.b1), ByteOr0(d, row.b0);
    var w := RowWord(d, row);
    assert w / 256 == 0x100 * b2 + b1 && w / 0x10000 == b2;
  }

  /** A row's word fits in the characters written for it. */
  lemma RowFits(k: Kind, d: seq<byte>, r: nat)
    requires r < RowCount(k) && |d| == DigestSize(k)
    ensures SextetValue(Sextets(RowWord(d, RowAt(k, r)), RowAt(k, r).n)) == RowWord(d, RowAt(k, r))
  {
    hide Sextets, SextetValue;
    RowWidth(k, r);
    if r + 1 == RowCount(k) { assert RowAt(k, r).b2 == -1 && (RowAt(k, r).n == 2 ==> RowAt(k, r).b1 == -1); }
    SextetsValue(RowWord(d, RowAt(k, r)), RowAt(k, r).n);
  }

  lemma EncodedLength(k: Kind, d: seq<byte>)
    ensures |Encode(k, d)| == DigitCount(k)
  {
    hide RowAt, EncodeRows;
    EncodedRow(k, d, RowCount(k), 0);
    RowWidth(k, RowCount(k) - 1);
  }

  /** The characters determine the digest. */
  lemma DecodeEncode(k: Kind, d: seq<byte>)
    requires |d| == DigestSize(k)
    ensures |Encode(k, d)| == DigitCount(k) && Decode(k, Encode(k, d)) == d
  {
    hide RowAt, EncodeRows, SextetValue, Sextets, RowOf, DigestSize, RowCount, DigitCount, Pick;
    EncodedLength(k, d);
    var s := Encode(k, d);
    assert s == EncodeRows(k, d, RowCount(k));
    forall i | 0 <= i < DigestSize(k)
      ensures Decode(k, s)[i] == d[i]
    {
      var r := RowOf(k, i);
      EncodedRow(k, d, RowCount(k), r);
      RowFits(k, d, r);
      EveryByteWritten(k, i);
      PickRight(d, RowAt(k, r), i);
    }
  }
}
