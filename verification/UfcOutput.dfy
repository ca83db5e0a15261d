/** Salt characters and the printable form of a DES-based crypt result. */
module UfcOutput {
  import opened Bits
  import opened UfcWords

  /** The alphabet `./0-9A-Za-z` (the negation of `bad_for_salt`). */
  predicate GoodForSalt(c: char) {
    '0' <= c <= '9' || 'A' <= c <= 'Z' || 'a' <= c <= 'z' || c == '.' || c == '/'
  }

  /** `ascii_to_bin` */
  function AsciiToBin(c: char): (v: nat)
    requires GoodForSalt(c)
    ensures v < 64
  {
    if c >= 'a' then c as int - 59 else if c >= 'A' then c as int - 53 else c as int - '.' as int
  }

  /** `bin_to_ascii` */
  function BinToAscii(v: nat): (c: char)
    requires v < 64
    ensures GoodForSalt(c) && AsciiToBin(c) == v
  {
    if v >= 38 then (v - 38 + 'a' as int) as char
    else if v >= 12 then (v - 12 + 'A' as int) as char
    else (v + '.' as int) as char
  }

  /** Characters of the alphabet have different values. */
  lemma CodesDiffer(c: char, d: char)
    requires GoodForSalt(c) && GoodForSalt(d) && AsciiToBin(c) == AsciiToBin(d)
    ensures c == d
  {
  }

  /** Sextet d of a block followed by two clear bits. */
  function Digit(b: Block, d: nat): (x: Bits)
    requires d < 11
    ensures |x| == 6
  {
    (b + [false, false])[6 * d..6 * d + 6]
  }

  /** Eleven characters, most significant bits first. */
  function Printable(b: Block): (s: string)
    ensures |s| == 11
    ensures forall d :: 0 <= d < 11 ==> GoodForSalt(s[d]) && AsciiToBin(s[d]) == Val(Digit(b, d))
  {
    seq(11, d requires 0 <= d < 11 => DigitChar(b, d))
  }

  function DigitChar(b: Block, d: nat): (c: char)
    requires d < 11
    ensures GoodForSalt(c) && AsciiToBin(c) == Val(Digit(b, d))
  {
    ValBound(Digit(b, d));
    assert Pow2(6) == 64;
    BinToAscii(Val(Digit(b, d)))
  }

  /** Reading the characters back. */
  function Unprintable(s: string): (b: Block)
    requires |s| == 11 && forall d :: 0 <= d < 11 ==> GoodForSalt(s[d])
  {
    seq(64, i requires 0 <= i < 64 => ToBits(6, AsciiToBin(s[i / 6]))[i % 6])
  }

  /** The eleven characters determine the block. */
  lemma PrintableInverts(b: Block)
    ensures Unprintable(Printable(b)) == b
  {
    hide ToBits, Val, AsciiToBin, DigitChar;
    forall i | 0 <= i < 64
      ensures Unprintable(Printable(b))[i] == b[i]
    {
      ToBitsOfVal(Digit(b, i / 6));
      assert Digit(b, i / 6)[i % 6] == b[i];
    }
  }

  /** `_ufc_output_conversion_r`: the salt, then ten digits from the two words
      and a last one from what remains of the second. */
  method OutputConversion(v1: Word, v2: Word, s0: char, s1: char, buf: array<char>)
    requires buf.Length == 14
    modifies buf
    ensures buf[..2] == [s0, if s1 != '\0' then s1 else s0]
    ensures buf[2..13] == Printable(v1 + v2) && buf[13] == '\0'
  {
    hide Val, Digit, Field, DigitChar, Printable;
    buf[0], buf[1] := s0, if s1 != '\0' then s1 else s0;
    ghost var b: Block := v1 + v2;
    for i := 0 to 5
      invariant buf[0] == s0 && buf[1] == (if s1 != '\0' then s1 else s0)
      invariant forall d :: 0 <= d < i ==> buf[d + 2] == Printable(b)[d]
    {
      FirstDigit(v1, v2, i);
      PrintableAt(b, i);
      buf[i + 2] := BinToAscii(Field(v1, 26 - 6 * i, 6));
    }
    var w := Or(Shr(v2, 2), Shl(And(v1, LowMask(32, 2)), 30));
    for i := 5 to 10
      invariant buf[0] == s0 && buf[1] == (if s1 != '\0' then s1 else s0)
      invariant forall d :: 0 <= d < i ==> buf[d + 2] == Printable(b)[d]
    {
      MiddleDigit(v1, v2, i);
      PrintableAt(b, i);
      buf[i + 2] := BinToAscii(Field(w, 56 - 6 * i, 6));
    }
    LastDigit(v1, v2);
    PrintableAt(b, 10);
    buf[12] := BinToAscii(4 * Field(v2, 0, 4));
    buf[13] := '\0';
    assert forall d :: 0 <= d < 11 ==> buf[2..13][d] == Printable(b)[d];
  }

  lemma PrintableAt(b: Block, d: nat)
    requires d < 11
    ensures Val(Digit(b, d)) < 64 && Printable(b)[d] == BinToAscii(Val(Digit(b, d)))
  {
    ValBound(Digit(b, d));
    assert Pow2(6) == 64;
  }

  lemma FirstDigit(v1: Word, v2: Word, i: nat)
    requires i < 5
    ensures Field(v1, 26 - 6 * i, 6) == Val(Digit(v1 + v2, i))
  {
    hide Val, Field;
    FieldIsSlice(v1, 26 - 6 * i, 6);
    assert v1[32 - (26 - 6 * i) - 6..32 - (26 - 6 * i)] == Digit(v1 + v2, i);
  }

  lemma MiddleDigit(v1: Word, v2: Word, i: nat)
    requires 5 <= i < 10
    ensures Field(Or(Shr(v2, 2), Shl(And(v1, LowMask(32, 2)), 30)), 56 - 6 * i, 6) == Val(Digit(v1 + v2, i))
  {
    hide Val, Field;
    var w := Or(Shr(v2, 2), Shl(And(v1, LowMask(32, 2)), 30));
    FieldIsSlice(w, 56 - 6 * i, 6);
    assert w == v1[30..] + v2[..30];
    var at := 6 * (i - 5);
    assert w[32 - (56 - 6 * i) - 6..32 - (56 - 6 * i)] == w[at..at + 6];
    assert (v1 + v2)[30..62] == w;
    assert w[at..at + 6] == Digit(v1 + v2, i);
  }

  lemma LastDigit(v1: Word, v2: Word)
    ensures 4 * Field(v2, 0, 4) == Val(Digit(v1 + v2, 10))
  {
    FieldIsSlice(v2, 0, 4);
    assert Digit(v1 + v2, 10) == v2[28..32] + [false, false];
    ValConcat(v2[28..32], [false, false]);
    assert Pow2(2) == 4 && Val([false, false]) == 0;
  }
}
