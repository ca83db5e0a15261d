/** Feistel networks over 32-bit halves, for any round function.  What the
    data encryption standard needs from its shape alone is proved here. */
module Feistel {
  import opened Bits

  /** The two halves of a block. */
  datatype Halves = Halves(l: Word, r: Word) {
    function Swap(): Halves { Halves(r, l) }

    function Join(): (b: Block) { l + r }
  }

  function Split(b: Block): (h: Halves)
    ensures h.Join() == b
  {
    Halves(b[..32], b[32..])
  }

  /** A round function of a half block and a 48-bit round key. */
  type RoundFunction = (Word, Key48) -> Word

  function Round(f: RoundFunction, k: Key48, h: Halves): Halves {
    Halves(h.r, Xor(h.l, f(h.r, k)))
  }

  /** The halves after the first n rounds. */
  function Rounds(f: RoundFunction, keys: seq<Key48>, n: nat, h: Halves): Halves
    requires n <= |keys|
  {
    if n == 0 then h else Round(f, keys[n - 1], Rounds(f, keys, n - 1, h))
  }

  /** All rounds and the exchange that follows: the "preoutput block" R16 L16. */
  function Core(f: RoundFunction, keys: seq<Key48>, h: Halves): Halves {
    Rounds(f, keys, |keys|, h).Swap()
  }

  function CoreIter(f: RoundFunction, keys: seq<Key48>, n: nat, h: Halves): Halves {
    if n == 0 then h else Core(f, keys, CoreIter(f, keys, n - 1, h))
  }

  function Reverse<T>(s: seq<T>): (r: seq<T>)
    ensures |r| == |s|
    ensures forall i :: 0 <= i < |s| ==> r[i] == s[|s| - 1 - i]
  {
    seq(|s|, i requires 0 <= i < |s| => s[|s| - 1 - i])
  }

  lemma ReverseTwice<T>(s: seq<T>)
    ensures Reverse(Reverse(s)) == s
  {
  }

  lemma RoundUndone(f: RoundFunction, k: Key48, h: Halves)
    ensures Round(f, k, Round(f, k, h).Swap()) == h.Swap()
  {
    assert Xor(Xor(h.l, f(h.r, k)), f(h.r, k)) == h.l;
  }

  /** Running n rounds with the keys reversed takes the last n rounds back. */
  lemma {:induction false} RoundsUndone(f: RoundFunction, keys: seq<Key48>, n: nat, h: Halves)
    requires n <= |keys|
    ensures Rounds(f, Reverse(keys), n, Rounds(f, keys, |keys|, h).Swap())
         == Rounds(f, keys, |keys| - n, h).Swap()
  {
    if n > 0 {
      RoundsUndone(f, keys, n - 1, h);
      RoundUndone(f, keys[|keys| - n], Rounds(f, keys, |keys| - n, h));
    }
  }

  /** The network with its keys reversed is its own inverse. */
  lemma CoreUndone(f: RoundFunction, keys: seq<Key48>, h: Halves)
    ensures Core(f, Reverse(keys), Core(f, keys, h)) == h
  {
    RoundsUndone(f, keys, |keys|, h);
  }
}
