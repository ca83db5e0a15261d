/** Password hashing on top of the hash functions: `$1$` (crypt/md5-crypt.c),
    `$5$` (crypt/sha256-crypt.c) and `$6$` (crypt/sha512-crypt.c).

    The first half states which byte strings are hashed in which order; the
    second half is the code that feeds them to contexts piece by piece. */
module HashCrypt {
  import opened Bits
  import opened ByteOrder
  import opened HashStandard
  import opened HashContext

  // ----------------------------------------------------------- what is hashed

  function DigestSize(k: Kind): nat {
    if k.MD5? then 16 else 8 * k.WordSize()
  }

  lemma {:induction false} FlattenSize(k: Kind, ws: seq<Bits>)
    ensures |Flatten(k, ws)| == |ws| * k.WordSize()
  {
    hide Store;
    if |ws| > 0 { FlattenSize(k, ws[..|ws| - 1]); }
  }

  lemma DigestHasSize(k: Kind, msg: seq<byte>)
    ensures |Digest(k, msg)| == DigestSize(k)
  {
    hide Fold, Initial, Padding, Flatten;
    FlattenSize(k, ChainWords(k, Fold(k, msg + Padding(k, |msg|), Initial(k))));
  }

  /** The bytes of b over and over, n in all. */
  function Cyclic(b: seq<byte>, n: nat): (r: seq<byte>)
    requires |b| > 0
    ensures |r| == n
    ensures forall i :: 0 <= i < n ==> r[i] == b[i % |b|]
  {
    seq(n, i requires 0 <= i < n => b[i % |b|])
  }

  function Repeat(s: seq<byte>, n: nat): seq<byte> {
    if n == 0 then [] else Repeat(s, n - 1) + s
  }

  /** For every bit of n, from the lowest up: `one` if it is set, else `zero`. */
  function BitFeed(n: nat, one: seq<byte>, zero: seq<byte>): seq<byte> {
    if n == 0 then [] else (if n % 2 == 1 then one else zero) + BitFeed(n / 2, one, zero)
  }

  /** One round: the last result and the key change places, the salt is left
      out every third time and the key every seventh. */
  function RoundInput(i: nat, c: seq<byte>, p: seq<byte>, s: seq<byte>): seq<byte> {
    (if i % 2 != 0 then p else c) + (if i % 3 != 0 then s else [])
    + (if i % 7 != 0 then p else []) + (if i % 2 != 0 then c else p)
  }

  function RoundsOf(k: Kind, n: nat, a: seq<byte>, p: seq<byte>, s: seq<byte>): seq<byte> {
    if n == 0 then a else Digest(k, RoundInput(n - 1, RoundsOf(k, n - 1, a, p, s), p, s))
  }

  /** The intermediate digest of the SHA variants. */
  function ShaStart(k: Kind, key: seq<byte>, salt: seq<byte>): seq<byte> {
    var b := Digest(k, key + salt + key);
    DigestHasSize(k, key + salt + key);
    Digest(k, key + salt + Cyclic(b, |key|) + BitFeed(|key|, b, key))
  }

  function ShaP(k: Kind, key: seq<byte>): seq<byte> {
    DigestHasSize(k, Repeat(key, |key|));
    Cyclic(Digest(k, Repeat(key, |key|)), |key|)
  }

  /** How often the salt is repeated: it depends on the intermediate digest. */
  function SaltTimes(a: seq<byte>): nat
    requires |a| > 0
  {
    var first: nat := a[0];
    16 + first
  }

  function ShaS(k: Kind, salt: seq<byte>, a: seq<byte>): seq<byte>
    requires |a| > 0
  {
    DigestHasSize(k, Repeat(salt, SaltTimes(a)));
    Cyclic(Digest(k, Repeat(salt, SaltTimes(a))), |salt|)
  }

  function ShaCrypt(k: Kind, key: seq<byte>, salt: seq<byte>, rounds: nat): seq<byte> {
    var a := ShaStart(k, key, salt);
    StartHasSize(k, key, salt);
    RoundsOf(k, rounds, a, ShaP(k, key), ShaS(k, salt, a))
  }

  lemma StartHasSize(k: Kind, key: seq<byte>, salt: seq<byte>)
    ensures |ShaStart(k, key, salt)| == DigestSize(k)
  {
    hide Digest;
    var b := Digest(k, key + salt + key);
    DigestHasSize(k, key + salt + key);
    DigestHasSize(k, key + salt + Cyclic(b, |key|) + BitFeed(|key|, b, key));
  }

  /** The MD5 variant: a zero byte or the first key byte for each bit. */
  function Md5Start(key: seq<byte>, salt: seq<byte>): seq<byte> {
    var b := Digest(MD5, key + salt + key);
    DigestHasSize(MD5, key + salt + key);
    Digest(MD5, key + PREFIX1 + salt + Cyclic(b, |key|) + BitFeed(|key|, [0], key[..if |key| > 0 then 1 else 0]))
  }

  const PREFIX1: seq<byte> := [0x24, 0x31, 0x24]

  function Md5Crypt(key: seq<byte>, salt: seq<byte>): seq<byte> {
    RoundsOf(MD5, 1000, Md5Start(key, salt), key, salt)
  }

  // ----------------------------------------------------------- the sequences

  lemma CyclicMore(b: seq<byte>, n: nat)
    requires |b| > 0
    ensures Cyclic(b, |b| + n) == b + Cyclic(b, n)
  {
    forall i | 0 <= i < |b| + n
      ensures Cyclic(b, |b| + n)[i] == (b + Cyclic(b, n))[i]
    {
      if i < |b| { DivUniqueMod(i, |b|, 0, i); }
      else {
        var q := (i - |b|) / |b|;
        DivUniqueMod(i, |b|, q + 1, (i - |b|) % |b|);
      }
    }
  }

  lemma DivUniqueMod(v: nat, d: nat, q: nat, r: nat)
    requires d > 0 && r < d && v == d * q + r
    ensures v % d == r
  {
    DivUnique(v, d, q, r);
  }

  lemma CyclicShort(b: seq<byte>, n: nat)
    requires 0 < |b| && n <= |b|
    ensures Cyclic(b, n) == b[..n]
  {
    forall i | 0 <= i < n ensures i % |b| == i { DivUniqueMod(i, |b|, 0, i); }
  }

  /** `for (cnt = len; cnt >= size; cnt -= size) cp = mempcpy (cp, temp, size);
      memcpy (cp, temp, cnt)`: a digest repeated cyclically. */
  method RepeatInto(temp: seq<byte>, len: nat) returns (bytes: seq<byte>)
    requires |temp| > 0
    ensures bytes == Cyclic(temp, len)
  {
    bytes := [];
    var cnt: nat := len;
    while cnt >= |temp|
      invariant cnt <= len && bytes + Cyclic(temp, cnt) == Cyclic(temp, len)
    {
      CyclicMore(temp, cnt - |temp|);
      ghost var before := bytes;
      bytes := bytes + temp;
      cnt := cnt - |temp|;
      assert bytes + Cyclic(temp, cnt) == before + (temp + Cyclic(temp, cnt));
    }
    CyclicShort(temp, cnt);
    bytes := bytes + temp[..cnt];
  }

  // ------------------------------------------------------------- the contexts

  /** `for (cnt = len; cnt > size; cnt -= size) process_bytes (alt, size);
      process_bytes (alt, cnt)` */
  method FeedCyclic(ctx: Context, alt: seq<byte>, len: nat)
    requires ctx.Valid() && |alt| > 0
    modifies ctx, ctx.buffer
    ensures ctx.Valid() && ctx.msg == old(ctx.msg) + Cyclic(alt, len)
  {
    hide Context.Valid, Context.Holding;
    var cnt: nat := len;
    while cnt > |alt|
      invariant cnt <= len && ctx.Valid() && ctx.msg + Cyclic(alt, cnt) == old(ctx.msg) + Cyclic(alt, len)
    {
      CyclicMore(alt, cnt - |alt|);
      ghost var before := ctx.msg;
      ctx.ProcessBytes(alt, false);
      cnt := cnt - |alt|;
      assert ctx.msg + Cyclic(alt, cnt) == before + (alt + Cyclic(alt, cnt));
    }
    CyclicShort(alt, cnt);
    ctx.ProcessBytes(alt[..cnt], false);
  }

  /** `for (cnt = len; cnt > 0; cnt >>= 1)` with one of two strings a bit. */
  method FeedBits(ctx: Context, len: nat, one: seq<byte>, zero: seq<byte>)
    requires ctx.Valid()
    modifies ctx, ctx.buffer
    ensures ctx.Valid() && ctx.msg == old(ctx.msg) + BitFeed(len, one, zero)
  {
    hide Context.Valid, Context.Holding;
    var cnt: nat := len;
    while cnt > 0
      invariant ctx.Valid() && ctx.msg + BitFeed(cnt, one, zero) == old(ctx.msg) + BitFeed(len, one, zero)
    {
      ghost var before := ctx.msg;
      var piece := if cnt % 2 == 1 then one else zero;
      ctx.ProcessBytes(piece, false);
      assert ctx.msg + BitFeed(cnt / 2, one, zero) == before + (piece + BitFeed(cnt / 2, one, zero));
      cnt := cnt / 2;
    }
  }

  method FeedRepeated(ctx: Context, s: seq<byte>, n: nat)
    requires ctx.Valid()
    modifies ctx, ctx.buffer
    ensures ctx.Valid() && ctx.msg == old(ctx.msg) + Repeat(s, n)
  {
    hide Context.Valid, Context.Holding;
    for cnt := 0 to n
      invariant ctx.Valid() && ctx.msg == old(ctx.msg) + Repeat(s, cnt)
    {
      ctx.ProcessBytes(s, false);
    }
  }

  /** The alternate sum of key, salt and key. */
  method Alternate(k: Kind, o: Order, key: seq<byte>, salt: seq<byte>) returns (b: seq<byte>)
    ensures b == Digest(k, key + salt + key) && |b| == DigestSize(k)
  {
    hide Context.Valid, Context.Holding, Digest;
    var alt := new Context(k, o);
    alt.ProcessBytes(key, false);
    alt.ProcessBytes(salt, false);
    alt.ProcessBytes(key, false);
    assert alt.msg == key + salt + key;
    b := alt.Finish();
    DigestHasSize(k, key + salt + key);
  }

  /** The rounds that "burn CPU cycles". */
  method RunRounds(k: Kind, o: Order, rounds: nat, a: seq<byte>, p: seq<byte>, s: seq<byte>) returns (c: seq<byte>)
    ensures c == RoundsOf(k, rounds, a, p, s)
  {
    hide Context.Valid, Context.Holding, Digest;
    c := a;
    for cnt := 0 to rounds
      invariant c == RoundsOf(k, cnt, a, p, s)
    {
      var ctx := new Context(k, o);
      ctx.ProcessBytes(if cnt % 2 != 0 then p else c, false);
      if cnt % 3 != 0 { ctx.ProcessBytes(s, false); }
      if cnt % 7 != 0 { ctx.ProcessBytes(p, false); }
      ctx.ProcessBytes(if cnt % 2 != 0 then c else p, false);
      assert ctx.msg == RoundInput(cnt, c, p, s);
      c := ctx.Finish();
    }
  }

  /** The digest of n copies of s, stretched over len bytes. */
  method HashRepeated(k: Kind, o: Order, s: seq<byte>, n: nat, len: nat) returns (bytes: seq<byte>)
    ensures |Digest(k, Repeat(s, n))| == DigestSize(k)
    ensures bytes == Cyclic(Digest(k, Repeat(s, n)), len)
  {
    hide Context.Valid, Context.Holding, Digest;
    var alt := new Context(k, o);
    FeedRepeated(alt, s, n);
    assert alt.msg == Repeat(s, n);
    var temp := alt.Finish();
    DigestHasSize(k, Repeat(s, n));
    bytes := RepeatInto(temp, len);
  }

  /** `__sha256_crypt_r` and `__sha512_crypt_r` up to the result string. */
  method ShaCryptRun(k: Kind, o: Order, key: seq<byte>, salt: seq<byte>, rounds: nat) returns (c: seq<byte>)
    ensures c == ShaCrypt(k, key, salt, rounds)
  {
    hide Context.Valid, Context.Holding, Digest, Cyclic, BitFeed, RoundsOf;
    var b := Alternate(k, o, key, salt);
    var ctx := new Context(k, o);
    ctx.ProcessBytes(key, false);
    ctx.ProcessBytes(salt, false);
    FeedCyclic(ctx, b, |key|);
    FeedBits(ctx, |key|, b, key);
    assert ctx.msg == key + salt + Cyclic(b, |key|) + BitFeed(|key|, b, key);
    var a := ctx.Finish();
    StartHasSize(k, key, salt);

    var p := HashRepeated(k, o, key, |key|, |key|);
    var first: nat := a[0];
    var s := HashRepeated(k, o, salt, 16 + first, |salt|);
    c := RunRounds(k, o, rounds, a, p, s);
  }

  /** `__md5_crypt_r` up to the result string. */
  method Md5CryptRun(o: Order, key: seq<byte>, salt: seq<byte>) returns (c: seq<byte>)
    ensures c == Md5Crypt(key, salt)
  {
    hide Context.Valid, Context.Holding, Digest, Cyclic, BitFeed, RoundsOf;
    var b := Alternate(MD5, o, key, salt);
    var ctx := new Context(MD5, o);
    ctx.ProcessBytes(key, false);
    ctx.ProcessBytes(PREFIX1, false);
    ctx.ProcessBytes(salt, false);
    FeedCyclic(ctx, b, |key|);
    FeedBits(ctx, |key|, [0], key[..if |key| > 0 then 1 else 0]);
    assert ctx.msg == key + PREFIX1 + salt + Cyclic(b, |key|) + BitFeed(|key|, [0], key[..if |key| > 0 then 1 else 0]);
    var a := ctx.Finish();
    c := RunRounds(MD5, o, 1000, a, key, salt);
  }
}
