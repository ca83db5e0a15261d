/** Machine words as bit sequences.

    A word of n bits is a sequence of n booleans, most significant bit first,
    so that index i of a 32-bit word is the bit that `longmask[i]` selects.
    C's `^ | & << >>` become functions with pointwise postconditions. */
module Bits {

  type Bits = seq<bool>

  type Word = w: Bits | |w| == 32 witness seq(32, _ => false)
  type Block = w: Bits | |w| == 64 witness seq(64, _ => false)
  type Key48 = w: Bits | |w| == 48 witness seq(48, _ => false)

  function Zeros(n: nat): (r: Bits)
    ensures |r| == n
    ensures forall i :: 0 <= i < n ==> !r[i]
  {
    seq(n, _ => false)
  }

  function Xor(a: Bits, b: Bits): (r: Bits)
    requires |a| == |b|
    ensures |r| == |a|
    ensures forall i :: 0 <= i < |a| ==> r[i] == (a[i] != b[i])
  {
    seq(|a|, i requires 0 <= i < |a| => a[i] != b[i])
  }

  function Or(a: Bits, b: Bits): (r: Bits)
    requires |a| == |b|
    ensures |r| == |a|
    ensures forall i :: 0 <= i < |a| ==> r[i] == (a[i] || b[i])
  {
    seq(|a|, i requires 0 <= i < |a| => a[i] || b[i])
  }

  function And(a: Bits, b: Bits): (r: Bits)
    requires |a| == |b|
    ensures |r| == |a|
    ensures forall i :: 0 <= i < |a| ==> r[i] == (a[i] && b[i])
  {
    seq(|a|, i requires 0 <= i < |a| => a[i] && b[i])
  }

  /** `w << k`, the top k bits fall off. */
  function Shl(w: Bits, k: nat): (r: Bits)
    ensures |r| == |w|
    ensures forall i :: 0 <= i < |w| ==> r[i] == (i + k < |w| && w[i + k])
  {
    seq(|w|, i requires 0 <= i < |w| => i + k < |w| && w[i + k])
  }

  /** `w >> k` on an unsigned word. */
  function Shr(w: Bits, k: nat): (r: Bits)
    ensures |r| == |w|
    ensures forall i :: 0 <= i < |w| ==> r[i] == (i >= k && w[i - k])
  {
    seq(|w|, i requires 0 <= i < |w| => i >= k && w[i - k])
  }

  /** The word of n bits whose only set bit is at index at. */
  function Unit(n: nat, at: nat): (r: Bits)
    ensures |r| == n
    ensures forall i :: 0 <= i < n ==> r[i] == (i == at)
  {
    seq(n, i => i == at)
  }

  /** The word of n bits whose k least significant bits are set. */
  function LowMask(n: nat, k: nat): (r: Bits)
    requires k <= n
    ensures |r| == n
    ensures forall i :: 0 <= i < n ==> r[i] == (i >= n - k)
  {
    seq(n, i => i >= n - k)
  }

  function Pow2(n: nat): (p: nat)
    ensures p > 0
  {
    if n == 0 then 1 else 2 * Pow2(n - 1)
  }

  /** The number a word stands for. */
  function Val(w: Bits): nat {
    if |w| == 0 then 0
    else 2 * Val(w[..|w| - 1]) + (if w[|w| - 1] then 1 else 0)
  }

  /** The n low bits of a number. */
  function ToBits(n: nat, v: nat): (r: Bits)
    ensures |r| == n
  {
    if n == 0 then [] else ToBits(n - 1, v / 2) + [v % 2 == 1]
  }

  lemma {:induction false} ValBound(w: Bits)
    ensures Val(w) < Pow2(|w|)
  {
    if |w| > 0 { ValBound(w[..|w| - 1]); }
  }

  /** Reading back the bits of a word's number gives the word. */
  lemma {:induction false} ToBitsOfVal(w: Bits)
    ensures ToBits(|w|, Val(w)) == w
  {
    if |w| > 0 {
      ToBitsOfVal(w[..|w| - 1]);
      assert Val(w) / 2 == Val(w[..|w| - 1]);
      assert w == w[..|w| - 1] + [w[|w| - 1]];
    }
  }

  lemma {:induction false} ValOfToBits(n: nat, v: nat)
    requires v < Pow2(n)
    ensures Val(ToBits(n, v)) == v
  {
    if n > 0 {
      ValOfToBits(n - 1, v / 2);
      var b := ToBits(n, v);
      assert b[..n - 1] == ToBits(n - 1, v / 2);
    }
  }

  lemma DoubledProduct(x: nat, y: nat)
    ensures 2 * (x * y) == x * (2 * y)
  {
  }

  lemma {:induction false} ValConcat(a: Bits, b: Bits)
    ensures Val(a + b) == Val(a) * Pow2(|b|) + Val(b)
  {
    if |b| == 0 {
      assert a + b == a;
    } else {
      var b' := b[..|b| - 1];
      ValConcat(a, b');
      assert (a + b)[..|a + b| - 1] == a + b';
      assert Val(a + b) == 2 * (Val(a) * Pow2(|b'|) + Val(b')) + (if b[|b| - 1] then 1 else 0);
      DoubledProduct(Val(a), Pow2(|b'|));
    }
  }

  lemma {:induction false} ValZeros(n: nat)
    ensures Val(Zeros(n)) == 0
  {
    if n > 0 {
      assert Zeros(n)[..n - 1] == Zeros(n - 1);
      ValZeros(n - 1);
    }
  }

  // ------------------------------------------------- arithmetic on words

  function Not(a: Bits): (r: Bits)
    ensures |r| == |a|
    ensures forall i :: 0 <= i < |a| ==> r[i] == !a[i]
  {
    seq(|a|, i requires 0 <= i < |a| => !a[i])
  }

  /** Unsigned addition that wraps around. */
  function Plus(a: Bits, b: Bits): (r: Bits)
    requires |a| == |b|
    ensures |r| == |a|
  {
    ToBits(|a|, Val(a) + Val(b))
  }

  /** `(w << s) | (w >> (n - s))` */
  function Rotl(w: Bits, s: nat): (r: Bits)
    requires s <= |w|
    ensures |r| == |w| && r == w[s..] + w[..s]
  {
    Or(Shl(w, s), Shr(w, |w| - s))
  }

  /** `(w >> s) | (w << (n - s))` */
  function Rotr(w: Bits, s: nat): (r: Bits)
    requires s <= |w|
    ensures |r| == |w| && r == w[|w| - s..] + w[..|w| - s]
  {
    Or(Shr(w, s), Shl(w, |w| - s))
  }

  lemma {:induction false} ValWraps(n: nat, v: nat) returns (k: nat)
    ensures v == Val(ToBits(n, v)) + Pow2(n) * k
  {
    if n == 0 {
      k := v;
    } else {
      k := ValWraps(n - 1, v / 2);
      var b := ToBits(n, v);
      assert b[..n - 1] == ToBits(n - 1, v / 2);
      var p := Pow2(n - 1) * k;
      assert Pow2(n) * k == 2 * p;
    }
  }

  /** Addition of words is addition of their numbers, modulo the size of a word. */
  lemma PlusAdds(a: Bits, b: Bits)
    requires |a| == |b|
    ensures Val(Plus(a, b)) == (Val(a) + Val(b)) % Pow2(|a|)
  {
    hide Val, ToBits, Pow2;
    var v, m := Val(a) + Val(b), Pow2(|a|);
    var k := ValWraps(|a|, v);
    ValBound(Plus(a, b));
    Remainder(v, m, k, Val(Plus(a, b)));
  }

  lemma Remainder(v: nat, m: nat, k: nat, r: nat)
    requires v == r + m * k && r < m
    ensures v % m == r
  {
    MultipleBelow(m, v / m, k);
    MultipleBelow(m, k, v / m);
  }

  lemma MultipleBelow(m: nat, p: nat, q: nat)
    ensures p < q ==> m * p + m <= m * q
  {
    if p < q { assert m * p + m == m * (p + 1) <= m * q; }
  }

  /** A word is determined by its number. */
  lemma SameValue(a: Bits, b: Bits)
    requires |a| == |b| && Val(a) == Val(b)
    ensures a == b
  {
    ToBitsOfVal(a);
    ToBitsOfVal(b);
  }

  lemma PlusCommutes(a: Bits, b: Bits)
    requires |a| == |b|
    ensures Plus(a, b) == Plus(b, a)
  {
    hide Val, Plus, Pow2;
    PlusAdds(a, b);
    PlusAdds(b, a);
    SameValue(Plus(a, b), Plus(b, a));
  }

  lemma PlusAssociates(a: Bits, b: Bits, c: Bits)
    requires |a| == |b| == |c|
    ensures Plus(Plus(a, b), c) == Plus(a, Plus(b, c))
  {
    hide Val, Plus, Pow2;
    PlusAdds(a, b);
    PlusAdds(Plus(a, b), c);
    PlusAdds(b, c);
    PlusAdds(a, Plus(b, c));
    SumModulo(Val(a) + Val(b), Val(c), Pow2(|a|));
    SumModulo(Val(b) + Val(c), Val(a), Pow2(|a|));
    SameValue(Plus(Plus(a, b), c), Plus(a, Plus(b, c)));
  }

  lemma SumModulo(x: nat, y: nat, m: nat)
    requires m > 0
    ensures (x % m + y) % m == (x + y) % m
  {
    var z := x % m + y;
    assert z == m * (z / m) + z % m && x == m * (x / m) + x % m;
    assert x + y == z % m + m * (z / m + x / m);
    Remainder(x + y, m, z / m + x / m, z % m);
  }
}
