/** Bytes, words as numbers, and the two byte orders a host may have. */
module ByteOrder {

  type byte = n: nat | n < 256

  datatype Order = Little | Big {
    function Other(): Order { if Little? then Big else Little }
  }

  function Pow256(n: nat): (p: nat)
    ensures p > 0
  {
    if n == 0 then 1 else 256 * Pow256(n - 1)
  }

  /** The number whose bytes, least significant first, are b. */
  function FromLittle(b: seq<byte>): nat {
    if |b| == 0 then 0 else b[0] + 256 * FromLittle(b[1..])
  }

  /** The n low bytes of a number, least significant first. */
  function ToLittle(v: nat, n: nat): (b: seq<byte>)
    ensures |b| == n
  {
    if n == 0 then [] else [v % 256] + ToLittle(v / 256, n - 1)
  }

  /** Byte i counts 256 to the i. */
  lemma {:induction false} LittleByte(v: nat, n: nat, i: nat)
    requires i < n
    ensures ToLittle(v, n)[i] == v / Pow256(i) % 256
  {
    if i > 0 {
      LittleByte(v / 256, n - 1, i - 1);
      DivideTwice(v, 256, Pow256(i - 1));
    }
  }

  lemma DivideTwice(v: nat, a: nat, b: nat)
    requires a > 0 && b > 0
    ensures a * b > 0 && v / a / b == v / (a * b)
  {
    var q, r := v / a, v % a;
    var p, t := q / b, q % b;
    TwoQuotients(v, a, b, q, r, p, t);
  }

  lemma TwoQuotients(v: nat, a: nat, b: nat, q: nat, r: nat, p: nat, t: nat)
    requires a > 0 && b > 0 && v == a * q + r && r < a && q == b * p + t && t < b
    ensures a * b > 0 && v / (a * b) == p
  {
    assert a * q == a * (b * p) + a * t && a * (b * p) == (a * b) * p;
    assert a * t <= a * (b - 1) == a * b - a;
    DivUnique(v, a * b, p, a * t + r);
  }

  /** A word is stored with its least significant byte first or last. */
  lemma StoredByte(o: Order, v: nat, n: nat, i: nat)
    requires i < n
    ensures Store(o, v, n)[i] == v / Pow256(if o.Little? then i else n - 1 - i) % 256
  {
    LittleByte(v, n, if o.Little? then i else n - 1 - i);
  }

  function Backwards<T>(s: seq<T>): (r: seq<T>)
    ensures |r| == |s|
    ensures forall i :: 0 <= i < |s| ==> r[i] == s[|s| - 1 - i]
  {
    seq(|s|, i requires 0 <= i < |s| => s[|s| - 1 - i])
  }

  /** Reading a word from memory on a host of the given order. */
  function Load(o: Order, b: seq<byte>): nat {
    if o.Little? then FromLittle(b) else FromLittle(Backwards(b))
  }

  /** Writing a word of n bytes to memory on a host of the given order. */
  function Store(o: Order, v: nat, n: nat): (b: seq<byte>)
    ensures |b| == n
  {
    if o.Little? then ToLittle(v, n) else Backwards(ToLittle(v, n))
  }

  /** `bswap` of an n-byte word. */
  function Swap(v: nat, n: nat): nat {
    FromLittle(Backwards(ToLittle(v, n)))
  }

  lemma {:induction false} FromLittleBound(b: seq<byte>)
    ensures FromLittle(b) < Pow256(|b|)
  {
    if |b| > 0 { FromLittleBound(b[1..]); }
  }

  lemma {:induction false} ToFromLittle(b: seq<byte>)
    ensures ToLittle(FromLittle(b), |b|) == b
  {
    if |b| > 0 {
      ToFromLittle(b[1..]);
      assert b == [b[0]] + b[1..];
      assert FromLittle(b) % 256 == b[0] && FromLittle(b) / 256 == FromLittle(b[1..]);
    }
  }

  lemma {:induction false} FromToLittle(v: nat, n: nat)
    requires v < Pow256(n)
    ensures FromLittle(ToLittle(v, n)) == v
  {
    if n > 0 {
      FromToLittle(v / 256, n - 1);
      assert ToLittle(v, n)[1..] == ToLittle(v / 256, n - 1);
    }
  }

  lemma BackwardsTwice<T>(s: seq<T>)
    ensures Backwards(Backwards(s)) == s
  {
  }

  /** What is stored is loaded back. */
  lemma LoadStore(o: Order, v: nat, n: nat)
    requires v < Pow256(n)
    ensures Load(o, Store(o, v, n)) == v
  {
    FromToLittle(v, n);
    BackwardsTwice(ToLittle(v, n));
  }

  /** Swapping a loaded word is loading it in the other order. */
  lemma SwapLoad(o: Order, b: seq<byte>)
    ensures Swap(Load(o, b), |b|) == Load(o.Other(), b)
  {
    if o.Little? {
      ToFromLittle(b);
    } else {
      ToFromLittle(Backwards(b));
      BackwardsTwice(b);
    }
  }

  /** Storing a swapped word is storing it in the other order. */
  lemma StoreSwap(o: Order, v: nat, n: nat)
    ensures Store(o, Swap(v, n), n) == Store(o.Other(), v, n)
  {
    ToFromLittle(Backwards(ToLittle(v, n)));
    BackwardsTwice(ToLittle(v, n));
  }

  lemma SwapTwice(v: nat, n: nat)
    requires v < Pow256(n)
    ensures Swap(Swap(v, n), n) == v
  {
    ToFromLittle(Backwards(ToLittle(v, n)));
    BackwardsTwice(ToLittle(v, n));
    FromToLittle(v, n);
  }

  function Quotient(v: nat, d: nat): nat
    requires d > 0
  {
    v / d
  }

  /** A wide number stored in two halves. */
  lemma {:induction false} ToLittleSplit(v: nat, m: nat, n: nat)
    ensures ToLittle(v, m + n) == ToLittle(v, m) + ToLittle(Quotient(v, Pow256(m)), n)
  {
    if m > 0 {
      ToLittleSplit(v / 256, m - 1, n);
      Parts(v, Pow256(m - 1));
    }
  }

  /** Only the value modulo 256^n matters. */
  lemma {:induction false} ToLittleMod(v: nat, n: nat)
    ensures ToLittle(v, n) == ToLittle(v % Pow256(n), n)
  {
    if n > 0 {
      Parts(v, Pow256(n - 1));
      ToLittleMod(v / 256, n - 1);
    }
  }

  /** Division by 256 * b, byte by byte. */
  lemma Parts(v: nat, b: nat)
    requires b > 0
    ensures v / (256 * b) == v / 256 / b
    ensures v % (256 * b) % 256 == v % 256 && v % (256 * b) / 256 == v / 256 % b
  {
    var q := v / 256;
    var rest := 256 * (q % b) + v % 256;
    assert q == b * (q / b) + q % b;
    assert v == (256 * b) * (q / b) + rest;
    DivUnique(v, 256 * b, q / b, rest);
  }

  lemma DivUnique(v: int, d: int, q: int, r: int)
    requires d > 0 && 0 <= r < d && v == d * q + r
    ensures v / d == q && v % d == r
  {
    var x := q - v / d;
    assert v == d * (v / d) + v % d;
    assert d * x == d * q - d * (v / d) == v % d - r;
    assert -d < d * x < d;
    if x >= 1 { MulAtLeast(d, x); } else if x <= -1 { MulAtLeast(d, -x); }
  }

  lemma MulAtLeast(d: int, x: int)
    requires d > 0 && x >= 1
    ensures d * x >= d
  {
  }
}
