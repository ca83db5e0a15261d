/** The three hash functions of crypt/ as their standards define them: pad the
    message, cut it into blocks, fold the block transformation over them. */
module HashStandard {
  import opened Bits
  import opened ByteOrder
  import Md5
  import Sha2

  datatype Kind = MD5 | SHA256 | SHA512 {
    function BlockSize(): nat { if SHA512? then 128 else 64 }

    /** Bytes in a word, which is half the length field. */
    function WordSize(): nat { if SHA512? then 8 else 4 }

    function LengthSize(): nat { 2 * WordSize() }

    /** One more than the largest word. */
    function WordLimit(): nat { if SHA512? then 0x1_0000_0000_0000_0000 else 0x1_0000_0000 }

    function Order(): Order { if MD5? then Little else Big }

    function Variant(): Sha2.Variant { if SHA512? then Sha2.V512 else Sha2.V256 }
  }

  /** The value carried from block to block. */
  datatype Chain = ChainMd5(m: Md5.Md5State) | ChainSha(r: Sha2.Regs)

  predicate ChainOk(k: Kind, c: Chain) {
    if k.MD5? then c.ChainMd5? else c.ChainSha? && c.r.Ok(k.Variant())
  }

  function Initial(k: Kind): (c: Chain)
    ensures ChainOk(k, c)
  {
    if k.MD5? then ChainMd5(Md5.InitialState()) else ChainSha(Sha2.InitialHash(k.Variant()))
  }

  function Compress(k: Kind, block: seq<byte>, c: Chain): (c': Chain)
    requires |block| == k.BlockSize() && ChainOk(k, c)
    ensures ChainOk(k, c')
  {
    if k.MD5? then ChainMd5(Md5.Transform(c.m, block))
    else ChainSha(Sha2.Compress(k.Variant(), block, c.r))
  }

  lemma BlocksLeft(k: Kind, n: nat)
    requires n % k.BlockSize() == 0 && n > 0
    ensures n >= k.BlockSize() && (n - k.BlockSize()) % k.BlockSize() == 0
  {
  }

  function Fold(k: Kind, data: seq<byte>, c: Chain): (c': Chain)
    requires |data| % k.BlockSize() == 0 && ChainOk(k, c)
    ensures ChainOk(k, c')
    decreases |data|
  {
    hide Compress, ChainOk;
    if |data| == 0 then c
    else
      BlocksLeft(k, |data|);
      Fold(k, data[k.BlockSize()..], Compress(k, data[..k.BlockSize()], c))
  }

  /** The least number of zero bytes that makes the padded length fit. */
  function ZeroCount(k: Kind, n: nat): (z: nat)
    ensures z < k.BlockSize() && (n + 1 + z + k.LengthSize()) % k.BlockSize() == 0
  {
    (k.BlockSize() - k.LengthSize() - 1 - n) % k.BlockSize()
  }

  /** The message length in bits, in a field of 64 or 128 bits. */
  function LengthField(k: Kind, n: nat): (f: seq<byte>)
    ensures |f| == k.LengthSize()
  {
    Store(k.Order(), 8 * n, k.LengthSize())
  }

  /** RFC 1321, 3.1 and 3.2; FIPS 180-2, 5.1.1 and 5.1.2. */
  function Padding(k: Kind, n: nat): (p: seq<byte>)
    ensures (n + |p|) % k.BlockSize() == 0
  {
    [0x80] + seq(ZeroCount(k, n), _ => 0) + LengthField(k, n)
  }

  /** The words of the result, in the byte order of the standard. */
  function Output(k: Kind, c: Chain): seq<byte>
    requires ChainOk(k, c)
  {
    Flatten(k, ChainWords(k, c))
  }

  function ChainWords(k: Kind, c: Chain): seq<Bits>
    requires ChainOk(k, c)
  {
    if k.MD5? then [c.m.a, c.m.b, c.m.c, c.m.d]
    else [c.r.a, c.r.b, c.r.c, c.r.d, c.r.e, c.r.f, c.r.g, c.r.h]
  }

  function Flatten(k: Kind, ws: seq<Bits>): seq<byte> {
    if |ws| == 0 then [] else Flatten(k, ws[..|ws| - 1]) + Store(k.Order(), Val(ws[|ws| - 1]), k.WordSize())
  }

  /** The digest of a whole message. */
  function Digest(k: Kind, msg: seq<byte>): seq<byte> {
    hide Initial, ChainOk, Padding, Fold;
    Output(k, Fold(k, msg + Padding(k, |msg|), Initial(k)))
  }

  lemma {:induction false} FoldAppend(k: Kind, a: seq<byte>, b: seq<byte>, c: Chain)
    requires |a| % k.BlockSize() == 0 && |b| % k.BlockSize() == 0 && ChainOk(k, c)
    ensures |a + b| % k.BlockSize() == 0
    ensures Fold(k, a + b, c) == Fold(k, b, Fold(k, a, c))
    decreases |a|
  {
    hide Compress;
    var n := k.BlockSize();
    assert |a + b| % n == 0;
    if |a| == 0 {
      assert a + b == b;
    } else {
      assert (a + b)[..n] == a[..n] && (a + b)[n..] == a[n..] + b;
      FoldAppend(k, a[n..], b, Compress(k, a[..n], c));
    }
  }
}
