/** The streaming contexts `md5_ctx`, `sha256_ctx` and `sha512_ctx`.

    The three source files are the same machine over different block sizes and
    counters: a buffer of two blocks, of which at most one block rests between
    calls, a chaining value, and a byte count in two words. */
module HashContext {
  import opened Bits
  import opened ByteOrder
  import opened HashStandard
  import opened HashCounter

  // --------------------------------------------------------------- blocks

  /** One block, by the code for the kind. */
  method CompressBlock(k: Kind, o: Order, block: seq<byte>, c: Chain) returns (c': Chain)
    requires |block| == k.BlockSize() && ChainOk(k, c)
    ensures c' == Compress(k, block, c) && ChainOk(k, c')
  {
    hide Md5.Transform, Sha2.Compress, Sha2.Regs.Ok;
    if k.MD5? {
      var s := Md5.ProcessBlock(o, block, c.m);
      c' := ChainMd5(s);
    } else {
      var r := Sha2.ProcessBlock(k.Variant(), o, block, c.r);
      c' := ChainSha(r);
    }
  }

  /** The loop over the blocks of a piece of data. */
  method CompressAll(k: Kind, o: Order, data: seq<byte>, c: Chain) returns (c': Chain)
    requires |data| % k.BlockSize() == 0 && ChainOk(k, c)
    ensures c' == Fold(k, data, c) && ChainOk(k, c')
  {
    hide Compress, ChainOk;
    c' := c;
    var at := 0;
    while at < |data|
      invariant 0 <= at <= |data| && (|data| - at) % k.BlockSize() == 0 && ChainOk(k, c')
      invariant Fold(k, data[at..], c') == Fold(k, data, c)
    {
      var n := k.BlockSize();
      BlocksLeft(k, |data| - at);
      assert data[at..][..n] == data[at..at + n] && data[at..][n..] == data[at + n..];
      c' := CompressBlock(k, o, data[at..at + n], c');
      at := at + n;
    }
  }

  /** `memcpy (&dst[at], src, |src|)` */
  method Memcpy(dst: array<byte>, at: nat, src: seq<byte>)
    requires at + |src| <= dst.Length
    modifies dst
    ensures dst[..at] == old(dst[..at]) && dst[at..at + |src|] == src
    ensures dst[at + |src|..] == old(dst[at + |src|..])
  {
    for i := 0 to |src|
      invariant dst[..at] == old(dst[..at]) && dst[at..at + i] == src[..i]
      invariant dst[at + |src|..] == old(dst[at + |src|..])
    {
      dst[at + i] := src[i];
      assert dst[at..at + (i + 1)] == dst[at..at + i] + [src[i]];
    }
  }

  // -------------------------------------------------------------- the context

  class Context {
    const kind: Kind
    const order: Order
    const buffer: array<byte>
    var chain: Chain
    var lo: nat
    var hi: nat
    var buflen: nat

    /** All bytes given so far. */
    ghost var msg: seq<byte>

    ghost predicate Shape()
      reads this
    {
      && buffer.Length == 2 * kind.BlockSize()
      && ChainOk(kind, chain)
      && lo < kind.WordLimit() && hi < kind.WordLimit()
    }

    /** The first n bytes of msg are in the chaining value and the counter. */
    ghost predicate Absorbed(n: int)
      reads this
      requires Shape()
    {
      && 0 <= n <= |msg| && n % kind.BlockSize() == 0
      && chain == Fold(kind, msg[..n], Initial(kind))
      && Count(kind, lo, hi) == n % CountLimit(kind)
    }

    /** The first p bytes of msg have been taken in; at most one block of them
        rests in the buffer, and it may be a whole one. */
    ghost predicate Holding(p: nat)
      reads this, buffer
    {
      && Shape() && buflen <= kind.BlockSize() && buflen <= p <= |msg|
      && Absorbed(p - buflen)
      && buffer[..buflen] == msg[p - buflen..p]
    }

    ghost predicate Valid()
      reads this, buffer
    {
      Holding(|msg|)
    }

    /** `md5_init_ctx`, `__sha256_init_ctx`, `__sha512_init_ctx` */
    constructor (kind: Kind, order: Order)
      ensures Valid() && msg == [] && this.kind == kind && this.order == order && fresh(buffer)
    {
      hide Initial, ChainOk, CountLimit, Count, Kind.WordLimit;
      this.kind, this.order := kind, order;
      buffer := new byte[2 * kind.BlockSize()](_ => 0);
      chain := Initial(kind);
      lo, hi, buflen := 0, 0, 0;
      msg := [];
      new;
      WordLimitPositive(kind);
      EmptyCount(kind);
    }

    /** `__md5_process_block` and the like: whole blocks. */
    method ProcessBlock(data: seq<byte>, ghost n: nat)
      requires Shape() && |data| % kind.BlockSize() == 0
      requires Absorbed(n) && n + |data| <= |msg| && data == msg[n..n + |data|]
      modifies this`chain, this`lo, this`hi
      ensures Shape() && Absorbed(n + |data|)
    {
      hide Initial, ChainOk, Fold, CountLimit;
      lo, hi := AddLength(kind, lo, hi, |data|);
      CountSum(kind, n, |data|);
      chain := CompressAll(kind, order, data, chain);
      FoldAppend(kind, msg[..n], data, Initial(kind));
      assert msg[..n] + data == msg[..n + |data|];
    }

    /** First part of `process_bytes`: top up a buffer that is not empty. */
    method FillBuffer(data: seq<byte>, ghost p: nat) returns (add: nat)
      requires Holding(p) && buflen != 0 && p + |data| <= |msg| && data == msg[p..p + |data|]
      modifies this`chain, this`lo, this`hi, this`buflen, buffer
      ensures add <= |data| && Holding(p + add)
      ensures add < |data| ==> buflen == 0
    {
      hide Fold, Initial, ChainOk, CountLimit, Count, Kind.WordLimit;
      var b := kind.BlockSize();
      var leftOver := buflen;
      add := if 2 * b - leftOver > |data| then |data| else 2 * b - leftOver;
      Memcpy(buffer, leftOver, data[..add]);
      buflen := buflen + add;
      ghost var from := p - leftOver;
      assert buffer[..buflen] == buffer[..leftOver] + data[..add] == msg[from..from + buflen];
      if buflen > b {
        EmptyBuffer(p + add);
      }
    }

    /** Process the whole blocks of an overfull buffer and move the rest down. */
    method EmptyBuffer(ghost p: nat)
      requires Shape() && kind.BlockSize() < buflen <= 2 * kind.BlockSize() && buflen <= p <= |msg|
      requires Absorbed(p - buflen) && buffer[..buflen] == msg[p - buflen..p]
      modifies this`chain, this`lo, this`hi, this`buflen, buffer
      ensures Holding(p) && (old(buflen) == 2 * kind.BlockSize() ==> buflen == 0)
    {
      hide Fold, Initial, ChainOk, CountLimit, Count, Kind.WordLimit, Kind.BlockSize;
      var b := kind.BlockSize();
      BlockSizePositive(kind);
      ghost var from := p - buflen;
      var whole := buflen - buflen % b;
      WholeBlocks(b, buflen);
      ghost var held := buffer[..buflen];
      assert buffer[..whole] == held[..whole] == msg[from..from + whole];
      ProcessBlock(buffer[..whole], from);
      var rest := buffer[whole..buflen];
      assert rest == held[whole..] == msg[from + whole..p];
      buflen := buflen % b;
      Memcpy(buffer, 0, rest);
      assert buffer[..buflen] == buffer[0..0 + |rest|];
    }

    /** Second part: whole blocks straight from the input, one at a time through
        the buffer if the input is not aligned. */
    method ProcessWhole(data: seq<byte>, unaligned: bool, ghost p: nat) returns (used: nat)
      requires Holding(p) && buflen == 0 && p + |data| <= |msg| && data == msg[p..p + |data|]
      requires |data| >= kind.BlockSize()
      modifies this`chain, this`lo, this`hi, buffer
      ensures used <= |data| && |data| - used <= kind.BlockSize() && Holding(p + used)
    {
      hide Fold, Initial, ChainOk, CountLimit, Count, Kind.WordLimit;
      var b := kind.BlockSize();
      if unaligned {
        used := 0;
        while |data| - used > b
          invariant used <= |data| && Shape() && Absorbed(p + used)
        {
          Memcpy(buffer, 0, data[used..used + b]);
          assert buffer[..b] == buffer[0..0 + b] == msg[p + used..p + used + b];
          ProcessBlock(buffer[..b], p + used);
          used := used + b;
        }
      } else {
        used := |data| - |data| % b;
        ProcessBlock(data[..used], p);
      }
      assert buffer[..0] == msg[p + used..p + used];
    }

    /** Third part: keep the rest, processing it if it fills a block. */
    method KeepRest(data: seq<byte>, ghost p: nat)
      requires Holding(p) && buflen == 0 && p + |data| == |msg| && data == msg[p..]
      requires |data| <= kind.BlockSize()
      modifies this`chain, this`lo, this`hi, this`buflen, buffer
      ensures Valid()
    {
      hide Fold, Initial, ChainOk, CountLimit, Count, Kind.WordLimit;
      var b := kind.BlockSize();
      var leftOver := buflen;
      Memcpy(buffer, leftOver, data);
      leftOver := leftOver + |data|;
      assert buffer[..leftOver] == buffer[0..0 + |data|] == data;
      if leftOver >= b {
        ProcessBlock(buffer[..b], p);
        leftOver := leftOver - b;
        Memcpy(buffer, 0, buffer[b..b + leftOver]);
        assert buffer[..leftOver] == msg[p + b..];
      }
      buflen := leftOver;
    }

    /** `md5_process_bytes` and the like, for any length and alignment. */
    method ProcessBytes(data: seq<byte>, unaligned: bool)
      requires Valid()
      modifies this`chain, this`lo, this`hi, this`buflen, this`msg, buffer
      ensures Valid() && msg == old(msg) + data
    {
      hide Fold, Initial, ChainOk, CountLimit, Count, Kind.WordLimit;
      ghost var p := |msg|;
      MoreMessage(data);
      var rest := data;
      if buflen != 0 {
        var add := FillBuffer(rest, p);
        rest, p := rest[add..], p + add;
      }
      if |rest| >= kind.BlockSize() {
        var used := ProcessWhole(rest, unaligned, p);
        rest, p := rest[used..], p + used;
      }
      if |rest| > 0 {
        KeepRest(rest, p);
      }
    }

    /** Bytes not yet taken in change nothing that is known of the others. */
    ghost method MoreMessage(data: seq<byte>)
      requires Valid()
      modifies this`msg
      ensures msg == old(msg) + data && Holding(|old(msg)|)
    {
      hide Fold, Initial, ChainOk, CountLimit, Count, Kind.WordLimit;
      ghost var n, p := |msg| - buflen, |msg|;
      msg := msg + data;
      assert msg[..n] == old(msg)[..n] && msg[n..p] == old(msg)[n..];
    }

    /** A word written with `SWAP` on this host, in the standard's byte order. */
    method SwappedWord(v: nat) returns (b: seq<byte>)
      ensures b == Store(kind.Order(), v, kind.WordSize())
    {
      var n := kind.WordSize();
      StoreSwap(order, v, n);
      b := Store(order, if order != kind.Order() then Swap(v, n) else v, n);
    }

    /** `md5_finish_ctx` and the like: the digest of everything given. */
    method Finish() returns (digest: seq<byte>)
      requires Valid()
      modifies this`chain, this`lo, this`hi, buffer
      ensures digest == Digest(kind, msg)
    {
      hide Fold, Initial, ChainOk, CountLimit, Count, Kind.WordLimit, Output, Padding, Kind.BlockSize;
      var bytes := buflen;
      ghost var done := |msg| - bytes;
      BlockSizePositive(kind);
      lo, hi := AddLength(kind, lo, hi, bytes);
      CountSum(kind, done, bytes);
      var n := PadBuffer();
      ghost var tail := buffer[..n];
      FoldAppend(kind, msg[..done], tail, Initial(kind));
      assert msg[..done] + tail == msg + Padding(kind, |msg|);
      chain := CompressAll(kind, order, buffer[..n], chain);
      digest := WriteResult();
    }

    /** Complete the last block, or the last two, in the buffer. */
    method PadBuffer() returns (n: nat)
      requires Shape() && buflen <= kind.BlockSize() && buflen <= |msg| && (|msg| - buflen) % kind.BlockSize() == 0
      requires buffer[..buflen] == msg[|msg| - buflen..] && Count(kind, lo, hi) == |msg| % CountLimit(kind)
      modifies buffer
      ensures n <= buffer.Length && n % kind.BlockSize() == 0
      ensures buffer[..n] == msg[|msg| - buflen..] + Padding(kind, |msg|)
    {
      hide ChainOk, CountLimit, Count, Kind.WordLimit, LengthField, LengthBytes, FillBuf, Padding;
      var b, l := kind.BlockSize(), kind.LengthSize();
      var bytes := buflen;
      var pad := if bytes >= b - l then b + (b - l) - bytes else b - l - bytes;
      PaddedTail(kind, |msg|, bytes, pad);
      LengthBytesRight(kind, lo, hi, |msg|);
      var field := LengthWords();
      ghost var last := buffer[..bytes];
      Memcpy(buffer, bytes, FillBuf(pad));
      assert buffer[..bytes + pad] == last + FillBuf(pad);
      Memcpy(buffer, bytes + pad, field);
      n := bytes + pad + l;
      assert buffer[..n] == last + FillBuf(pad) + field;
    }

    /** The length field, word by word. */
    method LengthWords() returns (field: seq<byte>)
      requires Shape()
      ensures field == LengthBytes(kind, lo, hi)
    {
      hide Kind.WordLimit, LowWord, HighWord;
      var m := kind.WordLimit();
      WordLimitPositive(kind);
      var low := SwappedWord(LowWord(m, lo));
      var high := SwappedWord(HighWord(8 * kind.WordSize(), m, lo, hi));
      field := if kind.MD5? then low + high else high + low;
    }

    /** `md5_read_ctx` and the last loops of the others. */
    method WriteResult() returns (digest: seq<byte>)
      requires ChainOk(kind, chain)
      ensures digest == Output(kind, chain)
    {
      var words := ChainWords(kind, chain);
      digest := [];
      for i := 0 to |words|
        invariant digest == Flatten(kind, words[..i])
      {
        assert words[..i + 1][..i] == words[..i];
        var b := SwappedWord(Val(words[i]));
        digest := digest + b;
      }
      assert words[..|words|] == words;
    }
  }

  /** `fillbuf` */
  function FillBuf(n: nat): (f: seq<byte>)
    requires n > 0
    ensures |f| == n
  {
    [0x80] + seq(n - 1, _ => 0)
  }

  /** The padding that follows the last bytes is the standard's. */
  lemma PaddedTail(k: Kind, n: nat, bytes: nat, pad: nat)
    requires bytes <= k.BlockSize() && bytes <= n && (n - bytes) % k.BlockSize() == 0
    requires pad == if bytes >= k.BlockSize() - k.LengthSize()
                    then k.BlockSize() + (k.BlockSize() - k.LengthSize()) - bytes
                    else k.BlockSize() - k.LengthSize() - bytes
    ensures pad > 0 && Padding(k, n) == FillBuf(pad) + LengthField(k, n)
    ensures (bytes + pad + k.LengthSize()) % k.BlockSize() == 0
  {
    hide LengthField;
    var b, l := k.BlockSize(), k.LengthSize();
    var q := (n - bytes) / b;
    DivModParts(n - bytes, b);
    var over := if bytes >= b - l then 1 else 0;
    assert b - l - 1 - n == b * (-q - over) + (pad - 1) by {
      assert b * (-q - over) == -(b * q) - b * over;
    }
    DivUnique(b - l - 1 - n, b, -q - over, pad - 1);
    DivUnique(bytes + pad + l, b, 1 + over, 0);
  }

  /** Any message, given in any pieces with any alignment, has the digest of
      the whole. */
  method DigestOfPieces(kind: Kind, order: Order, pieces: seq<seq<byte>>, unaligned: seq<bool>) returns (digest: seq<byte>)
    requires |unaligned| == |pieces|
    ensures digest == Digest(kind, Concat(pieces))
  {
    hide Digest, Context.Holding;
    var ctx := new Context(kind, order);
    for i := 0 to |pieces|
      invariant ctx.kind == kind && ctx.Valid() && ctx.msg == Concat(pieces[..i])
      invariant fresh(ctx) && fresh(ctx.buffer)
    {
      assert pieces[..i + 1][..i] == pieces[..i];
      ctx.ProcessBytes(pieces[i], unaligned[i]);
    }
    assert pieces[..|pieces|] == pieces;
    digest := ctx.Finish();
  }

  function Concat(pieces: seq<seq<byte>>): seq<byte> {
    if |pieces| == 0 then [] else Concat(pieces[..|pieces| - 1]) + pieces[|pieces| - 1]
  }

  lemma BlockSizePositive(k: Kind)
    ensures k.BlockSize() > 0
  {
  }

  lemma WholeBlocks(b: nat, n: nat)
    requires 0 < b < n <= 2 * b
    ensures n % b == (if n == 2 * b then 0 else n - b) && (n - n % b) % b == 0
  {
    if n == 2 * b { DivUnique(n, b, 2, 0); } else { DivUnique(n, b, 1, n - b); DivUnique(b, b, 1, 0); }
  }

  lemma EmptyCount(k: Kind)
    ensures CountLimit(k) > 0 && Count(k, 0, 0) == 0 % CountLimit(k)
  {
  }

  lemma CountSum(k: Kind, n: nat, len: nat)
    ensures CountLimit(k) > 0 && (n % CountLimit(k) + len) % CountLimit(k) == (n + len) % CountLimit(k)
    ensures n % k.BlockSize() == 0 && len % k.BlockSize() == 0 ==> (n + len) % k.BlockSize() == 0
  {
    hide CountLimit, Kind.WordLimit, Kind.BlockSize;
    WordLimitPositive(k);
    BlockSizePositive(k);
    ModSum(n, len, CountLimit(k));
    ModSum(n, len, k.BlockSize());
  }

  lemma ModSum(n: nat, len: nat, m: nat)
    requires m > 0
    ensures (n % m + len) % m == (n + len) % m
  {
    var r := n % m + len;
    DivModParts(n, m);
    DivModParts(r, m);
    assert m * (n / m + r / m) == m * (n / m) + m * (r / m);
    DivUnique(n + len, m, n / m + r / m, r % m);
  }
}
