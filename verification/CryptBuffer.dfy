/** Building the result string in the caller's buffer. Every piece is written
    only as far as there is room; the caller learns of a buffer that is too
    small at the end. */
module CryptBuffer {
  import opened ByteOrder
  import opened HashStandard
  import opened HashCrypt
  import opened CryptDigits
  import opened CryptStrings

  /** After the text `out`, in a buffer of which `size` characters may be used,
      `left` are left behind position `cp`. Nothing is known of cp once there
      is no room. */
  ghost predicate Progress(buffer: array<char>, size: int, cp: int, left: int, out: string)
    reads buffer
  {
    && size <= buffer.Length
    && (left > 0 <==> size > |out|)
    && (left > 0 ==> cp == |out| && left == size - |out| && buffer[..cp] == out)
  }

  /** What the caller keeps: everything from `size` on. */
  twostate predicate Beyond(buffer: array<char>, size: int)
    reads buffer
  {
    forall i :: 0 <= i < buffer.Length && size <= i ==> buffer[i] == old(buffer[i])
  }

  /** `__stpncpy`: at most n characters, padded with zeros up to n. */
  method Stpncpy(buffer: array<char>, cp: nat, s: string, n: nat) returns (end: nat)
    requires cp + n <= buffer.Length
    modifies buffer
    ensures end == cp + Min(|s|, n)
    ensures forall i :: 0 <= i < buffer.Length && !(cp <= i < cp + n) ==> buffer[i] == old(buffer[i])
    ensures buffer[cp..end] == s[..end - cp]
  {
    end := cp + Min(|s|, n);
    for i := 0 to n
      invariant forall j :: 0 <= j < buffer.Length && !(cp <= j < cp + i) ==> buffer[j] == old(buffer[j])
      invariant forall j :: cp <= j < cp + i && j < end ==> buffer[j] == s[j - cp]
    {
      buffer[cp + i] := if i < |s| then s[i] else '\0';
    }
  }

  lemma Appended(before: string, piece: string, all: string, cp: nat, end: nat)
    requires cp == |before| <= end <= |all| && all[..cp] == before && all[cp..end] == piece
    ensures all[..end] == before + piece
  {
    assert all[..end] == all[..cp] + all[cp..end];
  }

  /** The prefix: `buflen` falls by three even if there is no room. */
  method PutPrefix(buffer: array<char>, size: int, prefix: string) returns (cp: nat, left: int)
    requires size <= buffer.Length
    modifies buffer
    ensures Progress(buffer, size, cp, left, prefix) && Beyond(buffer, size)
  {
    cp := Stpncpy(buffer, 0, prefix, Max(0, size));
    left := size - |prefix|;
    if left > 0 { assert buffer[..cp] == buffer[0..cp]; }
  }

  /** `snprintf (cp, MAX (0, left), …)`: one less than the size is written, then
      a zero; the whole length is returned. */
  method PutRounds(buffer: array<char>, size: int, cp0: int, left0: int, ghost out: string, s: string) returns (cp: int, left: int)
    requires Progress(buffer, size, cp0, left0, out)
    modifies buffer
    ensures Progress(buffer, size, cp, left, out + s) && Beyond(buffer, size)
  {
    cp, left := cp0 + |s|, left0 - |s|;
    if left0 > 0 {
      var n := Min(|s|, left0 - 1);
      ghost var was := buffer[..];
      var end := Stpncpy(buffer, cp0, s[..n], n);
      buffer[end] := '\0';
      if left > 0 {
        assert s[..n] == s;
        assert buffer[..][..cp0] == out by { assert buffer[..][..cp0] == was[..cp0]; }
        assert buffer[..][cp0..end] == s;
        Appended(out, s, buffer[..], cp0, end);
        assert buffer[..][..end] == buffer[..cp];
      }
    }
  }

  /** The salt: as much as fits. */
  method PutSalt(buffer: array<char>, size: int, cp0: int, left0: int, ghost out: string, s: string) returns (cp: int, left: int)
    requires Progress(buffer, size, cp0, left0, out)
    modifies buffer
    ensures Progress(buffer, size, cp, left, out + s) && Beyond(buffer, size)
  {
    cp := cp0;
    left := left0 - Min(Max(0, left0), |s|);
    if left0 > 0 {
      ghost var was := buffer[..];
      cp := Stpncpy(buffer, cp0, s, Min(left0, |s|));
      if left > 0 {
        assert buffer[..][..cp0] == out by { assert buffer[..][..cp0] == was[..cp0]; }
        assert buffer[..][cp0..cp] == s;
        Appended(out, s, buffer[..], cp0, cp);
        assert buffer[..][..cp] == buffer[..cp];
      }
    }
  }

  /** One character, if there is room. */
  method PutChar(buffer: array<char>, size: int, cp0: int, left0: int, ghost out: string, c: char) returns (cp: int, left: int)
    requires Progress(buffer, size, cp0, left0, out)
    modifies buffer
    ensures Progress(buffer, size, cp, left, out + [c]) && Beyond(buffer, size)
  {
    cp, left := cp0, left0;
    if left0 > 0 {
      buffer[cp] := c;
      cp, left := cp + 1, left - 1;
    }
  }

  /** `b64_from_24bit` */
  method PutSextets(buffer: array<char>, size: int, cp0: int, left0: int, ghost out: string, w0: nat, n0: nat) returns (cp: int, left: int)
    requires Progress(buffer, size, cp0, left0, out)
    modifies buffer
    ensures Progress(buffer, size, cp, left, out + Sextets(w0, n0)) && Beyond(buffer, size)
  {
    hide Progress, Sextets, B64Char;
    var w, n := w0, n0;
    cp, left := cp0, left0;
    ghost var done := out;
    while n > 0 && left > 0
      invariant 0 <= n <= n0 && Progress(buffer, size, cp, left, done) && Beyond(buffer, size)
      invariant done + Sextets(w, n) == out + Sextets(w0, n0)
    {
      var c := B64Char(w % 64);
      SextetStep(w, n);
      assert done + [c] + Sextets(w / 64, n - 1) == done + ([c] + Sextets(w / 64, n - 1));
      cp, left := PutChar(buffer, size, cp, left, done, c);
      done := done + [c];
      n := n - 1;
      w := w / 64;
    }
    NoRoom(buffer, size, cp, left, done, Sextets(w, n));
  }

  lemma SextetStep(w: nat, n: nat)
    requires n > 0
    ensures Sextets(w, n) == [B64Char(w % 64)] + Sextets(w / 64, n - 1)
  {
  }

  /** Without room the rest is dropped. */
  lemma NoRoom(buffer: array<char>, size: int, cp: int, left: int, out: string, rest: string)
    requires Progress(buffer, size, cp, left, out) && (left <= 0 || rest == [])
    ensures Progress(buffer, size, cp, left, out + rest)
  {
    if rest == [] { assert out + rest == out; }
  }

  /** All the rows of a digest. */
  method PutDigest(buffer: array<char>, size: int, cp0: int, left0: int, ghost out: string, k: Kind, d: seq<byte>) returns (cp: int, left: int)
    requires Progress(buffer, size, cp0, left0, out)
    modifies buffer
    ensures Progress(buffer, size, cp, left, out + Encode(k, d)) && Beyond(buffer, size)
  {
    hide Progress, RowAt, EncodeRows;
    cp, left := cp0, left0;
    EncodeStart(k, d);
    assert out + [] == out;
    for r := 0 to RowCount(k)
      invariant Progress(buffer, size, cp, left, out + EncodeRows(k, d, r)) && Beyond(buffer, size)
    {
      var row := RowAt(k, r);
      var b2: nat, b1: nat, b0: nat := ByteOr0(d, row.b2), ByteOr0(d, row.b1), ByteOr0(d, row.b0);
      var w := b2 * 0x10000 + b1 * 0x100 + b0;
      EncodeStep(k, d, r);
      assert out + EncodeRows(k, d, r + 1) == out + EncodeRows(k, d, r) + Sextets(RowWord(d, row), row.n);
      cp, left := PutSextets(buffer, size, cp, left, out + EncodeRows(k, d, r), w, row.n);
    }
  }

  lemma EncodeStart(k: Kind, d: seq<byte>)
    ensures EncodeRows(k, d, 0) == []
  {
  }

  /** The result string: complete with its final zero, or an error if and only
      if it does not fit; nothing behind the buffer is touched either way. */
  method BuildResult(k: Kind, st: Setting, d: seq<byte>, buffer: array<char>, buflen: int) returns (ok: bool)
    requires buflen <= buffer.Length
    modifies buffer
    ensures ok <==> buflen > |Text(k, st, Encode(k, d))|
    ensures ok ==> buffer[..|Text(k, st, Encode(k, d))|] == Text(k, st, Encode(k, d))
    ensures ok ==> buffer[|Text(k, st, Encode(k, d))|] == '\0'
    ensures Beyond(buffer, buflen)
  {
    hide Progress, Encode, Decimal, Prefix;
    var cp: int, left := PutPrefix(buffer, buflen, Prefix(k));
    ghost var out := Prefix(k);
    if st.custom {
      cp, left := PutRounds(buffer, buflen, cp, left, out, ROUNDS + Decimal(st.rounds) + "$");
      out := out + (ROUNDS + Decimal(st.rounds) + "$");
    }
    assert out == Prefix(k) + RoundsText(st);
    cp, left := PutSalt(buffer, buflen, cp, left, out, st.salt);
    cp, left := PutChar(buffer, buflen, cp, left, out + st.salt, '$');
    cp, left := PutDigest(buffer, buflen, cp, left, out + st.salt + "$", k, d);
    ok := Terminate(buffer, buflen, cp, left, Text(k, st, Encode(k, d)));
  }

  method Terminate(buffer: array<char>, size: int, cp: int, left: int, ghost out: string) returns (ok: bool)
    requires Progress(buffer, size, cp, left, out)
    modifies buffer
    ensures ok <==> size > |out|
    ensures ok ==> buffer[..|out|] == out && buffer[|out|] == '\0'
    ensures Beyond(buffer, size)
  {
    ok := left > 0;
    if ok { buffer[cp] := '\0'; }
  }

  /** `__md5_crypt_r`, `__sha256_crypt_r` and `__sha512_crypt_r`. */
  method CryptR(k: Kind, o: Order, key: seq<byte>, salt: string, buffer: array<char>, buflen: int) returns (ok: bool)
    requires buflen <= buffer.Length
    modifies buffer
    ensures ok <==> buflen > |CryptText(k, key, salt)|
    ensures ok ==> buffer[..|CryptText(k, key, salt)|] == CryptText(k, key, salt)
    ensures ok ==> buffer[|CryptText(k, key, salt)|] == '\0'
    ensures Beyond(buffer, buflen)
  {
    hide Text, Encode, Parse, ShaCrypt, Md5Crypt;
    var st := Parse(k, salt);
    var d;
    if k.MD5? { d := Md5CryptRun(o, key, Bytes(st.salt)); }
    else { d := ShaCryptRun(k, o, key, Bytes(st.salt), st.rounds); }
    ok := BuildResult(k, st, d, buffer, buflen);
  }

  /** `__md5_crypt` and its SHA counterparts: the buffer kept from earlier calls
      is replaced if it is too small, and then always large enough. */
  method Crypt(k: Kind, o: Order, key: seq<byte>, salt: string, kept: array<char>) returns (buffer: array<char>)
    modifies kept
    ensures buffer == kept || fresh(buffer)
    ensures buffer.Length > |CryptText(k, key, salt)|
    ensures buffer[..|CryptText(k, key, salt)|] == CryptText(k, key, salt)
    ensures buffer[|CryptText(k, key, salt)|] == '\0'
  {
    hide CryptText, Needed;
    buffer := kept;
    var needed := Needed(k, salt);
    if kept.Length < needed { buffer := new char[needed]; }
    BufferSuffices(k, key, salt);
    var ok := CryptR(k, o, key, salt, buffer, buffer.Length);
  }
}
