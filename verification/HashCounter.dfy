/** The byte counter of a hash context: two words, a carry found by comparing
    the sum with what was added, and the length field made from them. */
module HashCounter {
  import opened Bits
  import opened ByteOrder
  import opened HashStandard

  /** Two words as one number. */
  function Count(k: Kind, lo: nat, hi: nat): nat {
    lo + hi * k.WordLimit()
  }

  function CountLimit(k: Kind): nat {
    k.WordLimit() * k.WordLimit()
  }

  /** A two-word number below the limit, and what exceeds it. */
  lemma CountUnique(m: nat, lo: nat, hi: nat, q: nat, v: nat)
    requires m > 0 && lo < m && hi < m && v == lo + hi * m + m * m * q
    ensures m * m > 0 && v % (m * m) == lo + hi * m
  {
    assert hi * m <= (m - 1) * m;
    assert (m - 1) * m == m * m - m;
    DivUnique(v, m * m, q, lo + hi * m);
  }

  /** Adding word by word with a carry found by comparison. */
  lemma CarryAdds(m: nat, lo: nat, hi: nat, len: nat, lo': nat, hi': nat)
    requires m > 0 && lo < m && hi < m
    requires lo' == (lo + len % m) % m
    requires hi' == (hi + len / m + (if lo' < len % m then 1 else 0)) % m
    ensures m * m > 0 && lo' < m && hi' < m && lo' + hi' * m == (lo + hi * m + len) % (m * m)
  {
    var lolen, hilen := len % m, len / m;
    var c := if lo' < lolen then 1 else 0;
    DivModParts(len, m);
    DivModParts(hi + hilen + c, m);
    CarryFound(m, lo, lolen, lo');
    CarryCore(m, lo, hi, len, lolen, hilen, c, (hi + hilen + c) / m, lo', hi');
  }

  lemma DivModParts(v: nat, m: nat)
    requires m > 0
    ensures v == m * (v / m) + v % m && 0 <= v % m < m && v / m >= 0
  {
  }

  lemma CarryCore(m: nat, lo: nat, hi: nat, len: nat, lolen: nat, hilen: nat, c: nat, q: nat, lo': nat, hi': nat)
    requires m > 0 && lo' < m && hi' < m && len == m * hilen + lolen
    requires lo + lolen == lo' + m * c && hi + hilen + c == m * q + hi'
    ensures m * m > 0 && lo' + hi' * m == (lo + hi * m + len) % (m * m)
  {
    CarryAlgebra(m, lo, hi, lolen, hilen, c, q, lo', hi');
    CountUnique(m, lo', hi', q, lo + hi * m + len);
  }

  lemma CarryFound(m: nat, lo: nat, lolen: nat, lo': nat)
    requires lo < m && lolen < m && lo' == (lo + lolen) % m
    ensures lo + lolen == lo' + m * (if lo' < lolen then 1 else 0)
  {
    if lo + lolen < m { DivUnique(lo + lolen, m, 0, lo + lolen); }
    else { DivUnique(lo + lolen, m, 1, lo + lolen - m); }
  }

  lemma CarryAlgebra(m: nat, lo: nat, hi: nat, lolen: nat, hilen: nat, c: nat, q: nat, lo': nat, hi': nat)
    requires lo + lolen == lo' + m * c && hi + hilen + c == m * q + hi'
    ensures lo + hi * m + (m * hilen + lolen) == lo' + hi' * m + m * m * q
  {
    var s := hi + hilen + c;
    assert m * s == m * hi + m * hilen + m * c;
    assert m * s == m * (m * q) + m * hi';
  }

  /** `total[0] += lolen; total[1] += (len >> 31 >> 1) + (total[0] < lolen)`, or
      one wide addition for SHA-256: both count modulo the two words. */
  method AddLength(k: Kind, lo: nat, hi: nat, len: nat) returns (lo': nat, hi': nat)
    requires lo < k.WordLimit() && hi < k.WordLimit()
    ensures lo' < k.WordLimit() && hi' < k.WordLimit()
    ensures Count(k, lo', hi') == (Count(k, lo, hi) + len) % CountLimit(k)
  {
    hide Kind.WordLimit;
    WordLimitPositive(k);
    if k.SHA256? { lo', hi' := AddWide(k.WordLimit(), lo, hi, len); }
    else { lo', hi' := AddCarry(k.WordLimit(), lo, hi, len); }
  }

  method AddWide(m: nat, lo: nat, hi: nat, len: nat) returns (lo': nat, hi': nat)
    requires m > 0 && m * m > 0 && lo < m && hi < m
    ensures lo' < m && hi' < m && lo' + hi' * m == (lo + hi * m + len) % (m * m)
  {
    var total := (lo + hi * m + len) % (m * m);
    lo', hi' := total % m, total / m;
    WideParts(m, total);
  }

  method AddCarry(m: nat, lo: nat, hi: nat, len: nat) returns (lo': nat, hi': nat)
    requires m > 0 && m * m > 0 && lo < m && hi < m
    ensures lo' < m && hi' < m && lo' + hi' * m == (lo + hi * m + len) % (m * m)
  {
    var lolen := len % m;
    lo' := (lo + lolen) % m;
    hi' := (hi + len / m + (if lo' < lolen then 1 else 0)) % m;
    CarryAdds(m, lo, hi, len, lo', hi');
  }

  lemma WordLimitPositive(k: Kind)
    ensures k.WordLimit() > 8 && k.WordLimit() % 8 == 0 && CountLimit(k) > 0
    ensures k.WordLimit() == Pow256(k.WordSize())
  {
    assert Pow256(4) == 0x1_0000_0000;
  }

  lemma WideParts(m: nat, total: nat)
    requires m > 0 && total < m * m
    ensures total / m < m && total % m + total / m * m == total
  {
    QuotientBelow(m, total, m);
  }

  lemma QuotientBelow(m: nat, v: nat, b: nat)
    requires m > 0 && v < m * b
    ensures v / m < b
  {
  }

  /** The two words shifted left by three are the bit count. */
  lemma BitCountWords(m: nat, lo: nat, hi: nat, n: nat) returns (l: nat, h: nat, c: nat)
    requires m > 0 && m % 8 == 0 && lo < m && hi < m && m * m > 0 && lo + hi * m == n % (m * m)
    ensures l == 8 * lo % m && h == 8 * hi % m && c == 8 * lo / m
    ensures c < 8 && h % 8 == 0 && h + c < m && 8 * n % (m * m) == l + (h + c) * m
  {
    var d, q, r;
    c, l := Parts(8 * lo, m);
    d, h := Parts(8 * hi, m);
    q, r := Parts(n, m * m);
    QuotientBelow(m, 8 * lo, 8);
    MultipleOf8(m, hi, h, d);
    BitCore(m, lo, hi, l, c, h, d, q, n);
  }

  lemma Parts(v: nat, m: nat) returns (q: nat, r: nat)
    requires m > 0
    ensures q == v / m && r == v % m && v == m * q + r && r < m
  {
    q, r := v / m, v % m;
  }

  lemma BitCore(m: nat, lo: nat, hi: nat, l: nat, c: nat, h: nat, d: nat, q: nat, n: nat)
    requires m > 0 && l < m && h + c < m
    requires 8 * lo == m * c + l && 8 * hi == m * d + h && n == m * m * q + (lo + hi * m)
    ensures m * m > 0 && 8 * n % (m * m) == l + (h + c) * m
  {
    BitAlgebra(m, lo, hi, l, c, h, d, q, n);
    CountUnique(m, l, h + c, 8 * q + d, 8 * n);
  }

  lemma BitAlgebra(m: nat, lo: nat, hi: nat, l: nat, c: nat, h: nat, d: nat, q: nat, n: nat)
    requires 8 * lo == m * c + l && 8 * hi == m * d + h && n == m * m * q + (lo + hi * m)
    ensures 8 * n == l + (h + c) * m + m * m * (8 * q + d)
  {
    assert (8 * hi) * m == (m * d) * m + h * m;
    assert (m * d) * m == m * m * d;
    assert 8 * (m * m * q) == m * m * (8 * q);
    assert m * m * (8 * q + d) == m * m * (8 * q) + m * m * d;
    assert (h + c) * m == h * m + c * m;
  }

  lemma MultipleOf8(m: nat, hi: nat, h: nat, d: nat)
    requires m > 0 && m % 8 == 0 && h < m && 8 * hi == m * d + h
    ensures h % 8 == 0 && h <= m - 8
  {
    var e := m / 8;
    assert m * d == 8 * (e * d);
    assert h == 8 * (hi - e * d);
  }

  // ------------------------------------------------------- the length field

  /** `total[0] << 3` */
  function LowWord(m: nat, lo: nat): nat
    requires m > 0
  {
    8 * lo % m
  }

  /** `(total[1] << 3) | (total[0] >> 29)`, for words of `bits` bits. */
  function HighWord(bits: nat, m: nat, lo: nat, hi: nat): nat
    requires m > 0
  {
    Val(Or(ToBits(bits, 8 * hi % m), ToBits(bits, 8 * lo / m)))
  }

  /** The `|` of a multiple of 8 and a number below 8 is their sum. */
  lemma OrAdds(bits: nat, x: nat, y: nat)
    requires bits >= 3 && x % 8 == 0 && y < 8 && x + y < Pow2(bits)
    ensures Val(Or(ToBits(bits, x), ToBits(bits, y))) == x + y
  {
    hide Pow2, ToBits, Val, Low3;
    ThreeBits(bits, x);
    ThreeBits(bits, y);
    ThreeBits(bits, x + y);
    SmallBits(bits - 3);
    ThreeOfZero();
    SumParts(x, y);
    OrParts(ToBits(bits - 3, x / 8), Low3(y));
    ValOfToBits(bits, x + y);
  }

  lemma SumParts(x: nat, y: nat)
    requires x % 8 == 0 && y < 8
    ensures (x + y) / 8 == x / 8 && (x + y) % 8 == y && y / 8 == 0 && y % 8 == y
  {
  }

  lemma OrParts(a: Bits, b: Bits)
    ensures Or(a + Zeros(|b|), Zeros(|a|) + b) == a + b
  {
  }

  function Low3(v: nat): (r: Bits)
    ensures |r| == 3
  {
    [v / 4 % 2 == 1, v / 2 % 2 == 1, v % 2 == 1]
  }

  lemma ThreeBits(bits: nat, v: nat)
    requires bits >= 3
    ensures ToBits(bits, v) == ToBits(bits - 3, v / 8) + Low3(v % 8)
  {
    assert v / 2 / 2 == v / 4 && v / 4 / 2 == v / 8;
    assert ToBits(bits - 1, v / 2) == ToBits(bits - 2, v / 4) + [v / 2 % 2 == 1];
    assert ToBits(bits - 2, v / 4) == ToBits(bits - 3, v / 8) + [v / 4 % 2 == 1];
    assert v % 2 == v % 8 % 2 && v / 2 % 2 == v % 8 / 2 % 2 && v / 4 % 2 == v % 8 / 4 % 2;
  }

  lemma ThreeOfZero()
    ensures Low3(0) == Zeros(3)
  {
  }

  lemma {:induction false} SmallBits(n: nat)
    ensures ToBits(n, 0) == Zeros(n)
  {
    if n > 0 { SmallBits(n - 1); }
  }

  lemma {:induction false} BytesAreBits(w: nat)
    ensures Pow256(w) == Pow2(8 * w)
  {
    if w > 0 {
      BytesAreBits(w - 1);
      var p := Pow2(8 * w - 8);
      assert Pow2(8 * w - 6) == 4 * p;
      assert Pow2(8 * w - 4) == 16 * p;
      assert Pow2(8 * w - 2) == 64 * p;
    }
  }

  function LengthBytes(k: Kind, lo: nat, hi: nat): (b: seq<byte>)
    requires lo < k.WordLimit() && hi < k.WordLimit()
    ensures |b| == k.LengthSize()
  {
    var low := Store(k.Order(), LowWord(k.WordLimit(), lo), k.WordSize());
    var high := Store(k.Order(), HighWord(8 * k.WordSize(), k.WordLimit(), lo, hi), k.WordSize());
    if k.MD5? then low + high else high + low
  }

  /** Two words are the parts of any number that agrees with them modulo m * m. */
  lemma TwoParts(m: nat, v: nat, a: nat, b: nat)
    requires m > 0 && m * m > 0 && a < m && b < m && v % (m * m) == a + b * m
    ensures v % m == a && v / m % m == b
  {
    DivModParts(v, m * m);
    TwoPartsCore(m, v, a, b, v / (m * m));
  }

  lemma TwoPartsCore(m: nat, v: nat, a: nat, b: nat, q: nat)
    requires m > 0 && a < m && b < m && v == m * m * q + (a + b * m)
    ensures v % m == a && v / m % m == b
  {
    var u := m * q + b;
    assert m * u == m * (m * q) + m * b;
    DivUnique(v, m, u, a);
    DivUnique(u, m, q, b);
  }

  lemma TwoWords(w: nat, v: nat, a: nat, b: nat)
    requires v % Pow256(w) == a && v / Pow256(w) % Pow256(w) == b
    ensures ToLittle(v, w + w) == ToLittle(a, w) + ToLittle(b, w)
  {
    hide ToLittle, Pow256;
    ToLittleSplit(v, w, w);
    ToLittleMod(v, w);
    ToLittleMod(Quotient(v, Pow256(w)), w);
  }

  lemma TwoWordsBig(l: seq<byte>, h: seq<byte>)
    ensures Backwards(l + h) == Backwards(h) + Backwards(l)
  {
  }

  /** The field written from the counter is the standard's length field. */
  lemma LengthBytesRight(k: Kind, lo: nat, hi: nat, n: nat)
    requires lo < k.WordLimit() && hi < k.WordLimit() && Count(k, lo, hi) == n % CountLimit(k)
    ensures LengthBytes(k, lo, hi) == LengthField(k, n)
  {
    hide Kind.WordLimit, ToLittle, Pow256, LowWord, HighWord;
    var m, w := k.WordLimit(), k.WordSize();
    WordLimitPositive(k);
    var a, b := LowWord(m, lo), HighWord(8 * w, m, lo, hi);
    BytesAreBits(w);
    CounterWords(8 * w, m, lo, hi, n);
    FieldWords(m, w, 8 * n, a, b);
    TwoWordsBig(ToLittle(a, w), ToLittle(b, w));
  }

  lemma HighWordAdds(bits: nat, m: nat, lo: nat, hi: nat, h: nat, c: nat)
    requires bits >= 3 && m == Pow2(bits) && h == 8 * hi % m && c == 8 * lo / m
    requires h % 8 == 0 && c < 8 && h + c < m
    ensures HighWord(bits, m, lo, hi) == h + c
  {
    hide Pow2, ToBits, Val;
    OrAdds(bits, h, c);
  }

  lemma LowWordIs(m: nat, lo: nat, l: nat)
    requires m > 0 && l == 8 * lo % m
    ensures LowWord(m, lo) == l < m
  {
  }

  lemma CounterWords(bits: nat, m: nat, lo: nat, hi: nat, n: nat)
    requires bits >= 3 && m == Pow2(bits)
    requires m > 0 && m % 8 == 0 && lo < m && hi < m && m * m > 0 && lo + hi * m == n % (m * m)
    ensures LowWord(m, lo) < m && HighWord(bits, m, lo, hi) < m
    ensures 8 * n % (m * m) == LowWord(m, lo) + HighWord(bits, m, lo, hi) * m
  {
    hide *;
    var l, h, c := BitCountWords(m, lo, hi, n);
    HighWordAdds(bits, m, lo, hi, h, c);
    LowWordIs(m, lo, l);
  }

  lemma FieldWords(m: nat, w: nat, v: nat, a: nat, b: nat)
    requires m == Pow256(w) && m * m > 0 && a < m && b < m && v % (m * m) == a + b * m
    ensures ToLittle(v, w + w) == ToLittle(a, w) + ToLittle(b, w)
  {
    hide ToLittle, Pow256;
    TwoParts(m, v, a, b);
    TwoWords(w, v, a, b);
  }
}
