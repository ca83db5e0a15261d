/** The strings of `$1$`, `$5$` and `$6$`: how a salt argument is read, what the
    result string holds, and when a result string read as a salt argument means
    what it was made from. */
module CryptStrings {
  import opened ByteOrder
  import opened HashStandard
  import opened HashCrypt
  import opened CryptDigits
  import opened UfcOutput

  /** A C string has no zero character. */
  predicate NoNul(s: string) { forall c :: c in s ==> c != '\0' }

  function Prefix(k: Kind): (p: string)
    ensures |p| == 3 && NoNul(p)
  {
    match k case MD5 => "$1$" case SHA256 => "$5$" case SHA512 => "$6$"
  }

  const ROUNDS: string := "rounds="
  const ROUNDS_DEFAULT: nat := 5000
  const ROUNDS_MIN: nat := 1000
  const ROUNDS_MAX: nat := 999999999
  const ULONG_MAX: nat := 0xFFFF_FFFF_FFFF_FFFF

  function SaltMax(k: Kind): nat { if k.MD5? then 8 else 16 }

  // ------------------------------------------------------------------ strtoul

  predicate IsSpace(c: char) { c == ' ' || '\t' <= c <= '\r' }

  predicate IsDigit(c: char) { '0' <= c <= '9' }

  /** How many spaces s begins with. */
  function Spaces(s: string): (n: nat)
    ensures n <= |s|
  {
    if s != [] && IsSpace(s[0]) then 1 + Spaces(s[1..]) else 0
  }

  function Digits(s: string): (n: nat)
    ensures n <= |s| && (forall i :: 0 <= i < n ==> IsDigit(s[i])) && (n < |s| ==> !IsDigit(s[n]))
  {
    if s != [] && IsDigit(s[0]) then 1 + Digits(s[1..]) else 0
  }

  function DigitsValue(s: string): nat
    requires forall i :: 0 <= i < |s| ==> IsDigit(s[i])
  {
    if s == [] then 0
    else
      assert IsDigit(s[|s| - 1]);
      10 * DigitsValue(s[..|s| - 1]) + (s[|s| - 1] as int - '0' as int)
  }

  /** `strtoul (s, &end, 10)`: spaces, a sign, digits; nothing read if there is
      no digit; too large a number becomes ULONG_MAX and a minus sign negates
      within the word. */
  function Strtoul(s: string): (r: (nat, nat))
    ensures r.1 <= |s|
  {
    var start := Spaces(s);
    var signed := start < |s| && (s[start] == '-' || s[start] == '+');
    var body := s[if signed then start + 1 else start..];
    var n := Digits(body);
    if n == 0 then (0, 0) else
      var v := DigitsValue(body[..n]);
      var w := if v > ULONG_MAX then ULONG_MAX
               else if signed && s[start] == '-' then (ULONG_MAX + 1 - v) % (ULONG_MAX + 1) else v;
      (w, |s| - |body| + n)
  }

  // ---------------------------------------------------------- the salt argument

  /** `strcspn (s, "$")` */
  function Cspn(s: string): (n: nat)
    ensures n <= |s| && (forall i :: 0 <= i < n ==> s[i] != '$') && (n < |s| ==> s[n] == '$')
  {
    if s != [] && s[0] != '$' then 1 + Cspn(s[1..]) else 0
  }

  function Min(a: int, b: int): int { if a < b then a else b }

  function Max(a: int, b: int): int { if a > b then a else b }

  function Field(k: Kind, s: string): (f: string)
    ensures f <= s && |f| <= SaltMax(k) && '$' !in f
    ensures |f| == SaltMax(k) || f == s || s[|f|] == '$'
  {
    s[..Min(Cspn(s), SaltMax(k))]
  }

  datatype Setting = Setting(custom: bool, rounds: nat, salt: string)

  function Unprefixed(k: Kind, s: string): string {
    if Prefix(k) <= s then s[3..] else s
  }

  /** Whether a salt argument without its prefix asks for a number of rounds:
      `rounds=`, a number, and a dollar sign right behind it. */
  predicate AsksRounds(s: string) {
    && ROUNDS <= s
    && Strtoul(s[|ROUNDS|..]).1 < |s[|ROUNDS|..]|
    && s[|ROUNDS|..][Strtoul(s[|ROUNDS|..]).1] == '$'
  }

  function Setting0(k: Kind, t: string): Setting {
    if !k.MD5? && AsksRounds(t) then
      var num := t[|ROUNDS|..];
      var (v, end) := Strtoul(num);
      Setting(true, Max(ROUNDS_MIN, Min(v, ROUNDS_MAX)), Field(k, num[end + 1..]))
    else
      Setting(false, ROUNDS_DEFAULT, Field(k, t))
  }

  /** What a salt argument means. */
  function Parse(k: Kind, s: string): Setting {
    Setting0(k, Unprefixed(k, s))
  }

  // -------------------------------------------------------------- the result

  function Decimal(n: nat): (s: string)
    ensures s != [] && forall i :: 0 <= i < |s| ==> IsDigit(s[i])
  {
    (if n < 10 then [] else Decimal(n / 10)) + [('0' as int + n % 10) as char]
  }

  function RoundsText(st: Setting): string {
    if st.custom then ROUNDS + Decimal(st.rounds) + "$" else ""
  }

  /** Prefix, rounds if asked for, salt, and the digest. */
  function Text(k: Kind, st: Setting, digits: string): string {
    Prefix(k) + RoundsText(st) + st.salt + "$" + digits
  }

  function Bytes(s: string): seq<byte> {
    seq(|s|, i requires 0 <= i < |s| => s[i] as int % 256)
  }

  /** The digest for a key under a setting. */
  function DigestOf(k: Kind, key: seq<byte>, st: Setting): seq<byte> {
    if k.MD5? then Md5Crypt(key, Bytes(st.salt)) else ShaCrypt(k, key, Bytes(st.salt), st.rounds)
  }

  /** What `crypt` returns for a key and a salt argument. */
  function CryptText(k: Kind, key: seq<byte>, salt: string): string {
    Text(k, Parse(k, salt), Encode(k, DigestOf(k, key, Parse(k, salt))))
  }

  // ------------------------------------------------------- reading a result back

  lemma {:induction false} DecimalValue(n: nat)
    ensures DigitsValue(Decimal(n)) == n
  {
    var s := Decimal(n);
    if n >= 10 {
      DecimalValue(n / 10);
      assert s[..|s| - 1] == Decimal(n / 10);
    }
  }

  /** At most m digits for a number below 10 to the m. */
  lemma {:induction false} DecimalLength(n: nat, m: nat)
    requires n < Pow10(m) && m > 0
    ensures |Decimal(n)| <= m
  {
    if n >= 10 { DecimalLength(n / 10, m - 1); }
  }

  function Pow10(m: nat): nat { if m == 0 then 1 else 10 * Pow10(m - 1) }

  lemma {:induction false} DigitsThen(s: string, rest: string)
    requires (forall i :: 0 <= i < |s| ==> IsDigit(s[i])) && (rest == [] || !IsDigit(rest[0]))
    ensures Digits(s + rest) == |s|
  {
    if s == [] { assert s + rest == rest; }
    else {
      DigitsThen(s[1..], rest);
      assert (s + rest)[1..] == s[1..] + rest;
    }
  }

  lemma {:induction false} CspnThen(s: string, rest: string)
    requires '$' !in s
    ensures Cspn(s + "$" + rest) == |s|
  {
    var t := s + "$" + rest;
    if s == [] { assert t[0] == '$'; }
    else {
      CspnThen(s[1..], rest);
      assert t[1..] == s[1..] + "$" + rest;
    }
  }

  lemma FieldThen(k: Kind, s: string, rest: string)
    requires '$' !in s && |s| <= SaltMax(k)
    ensures Field(k, s + "$" + rest) == s
  {
    CspnThen(s, rest);
  }

  /** A printed number is read back, up to the dollar sign. */
  lemma StrtoulDecimal(n: nat, rest: string)
    ensures Strtoul(Decimal(n) + "$" + rest) == (if n > ULONG_MAX then ULONG_MAX else n, |Decimal(n)|)
  {
    var d := Decimal(n);
    var s := d + "$" + rest;
    assert IsDigit(d[0]) && s[0] == d[0];
    assert Spaces(s) == 0 && s[0] != '-' && s[0] != '+';
    assert s[0..] == s && s == d + ("$" + rest);
    DigitsThen(d, "$" + rest);
    assert s[..|d|] == d;
    DecimalValue(n);
  }

  /** A request for rounds, taken apart. */
  lemma RequestMeans(k: Kind, num: string, v: nat, end: nat)
    requires !k.MD5? && Strtoul(num) == (v, end) && end < |num| && num[end] == '$'
    ensures Setting0(k, ROUNDS + num) == Setting(true, Max(ROUNDS_MIN, Min(v, ROUNDS_MAX)), Field(k, num[end + 1..]))
  {
    hide Strtoul, Field;
    var t := ROUNDS + num;
    assert t[|ROUNDS|..] == num;
  }

  /** A salt argument that asks for n rounds gets them, within the limits. */
  lemma RoundsAsked(k: Kind, n: nat, rest: string)
    requires !k.MD5?
    ensures Parse(k, ROUNDS + (Decimal(n) + "$" + rest))
         == Setting(true, if n < 1000 then 1000 else if n > 999999999 then 999999999 else n, Field(k, rest))
  {
    hide Strtoul, Decimal, Field, Setting0;
    var num := Decimal(n) + "$" + rest;
    StrtoulDecimal(n, rest);
    assert num[|Decimal(n)| + 1..] == rest;
    RequestMeans(k, num, if n > ULONG_MAX then ULONG_MAX else n, |Decimal(n)|);
    assert (ROUNDS + num)[0] == 'r';
  }

  /** The prefix of the scheme may be missing from the salt argument. */
  lemma PrefixOptional(k: Kind, s: string)
    requires !(Prefix(k) <= s)
    ensures Parse(k, Prefix(k) + s) == Parse(k, s)
  {
    hide Setting0;
    assert (Prefix(k) + s)[3..] == s;
  }

  lemma TextTail(k: Kind, st: Setting, digits: string)
    ensures Unprefixed(k, Text(k, st, digits)) == RoundsText(st) + (st.salt + "$" + digits)
  {
    hide RoundsText;
    assert Text(k, st, digits) == Prefix(k) + (RoundsText(st) + (st.salt + "$" + digits));
  }

  /** A setting that asked for rounds is read back from its text. */
  lemma CustomKept(k: Kind, st: Setting, digits: string)
    requires !k.MD5? && st.custom && ROUNDS_MIN <= st.rounds <= ROUNDS_MAX
    requires '$' !in st.salt && |st.salt| <= SaltMax(k)
    ensures Parse(k, Text(k, st, digits)) == st
  {
    hide Strtoul, Decimal, Field, Cspn, Setting0, Text;
    var rest := st.salt + "$" + digits;
    var num := Decimal(st.rounds) + "$" + rest;
    TextTail(k, st, digits);
    assert RoundsText(st) + rest == ROUNDS + num;
    StrtoulDecimal(st.rounds, rest);
    var end := |Decimal(st.rounds)|;
    assert num[end + 1..] == rest;
    RequestMeans(k, num, st.rounds, end);
    FieldThen(k, st.salt, digits);
  }

  /** A salt that, with the dollar sign behind it, would ask for rounds. */
  predicate Mistakable(k: Kind, st: Setting) {
    !k.MD5? && !st.custom && AsksRounds(st.salt + "$")
  }

  /** Spaces and digits end before the dollar sign, whatever stands behind it. */
  lemma {:induction false} SpansThen(s: string, rest: string)
    ensures Spaces(s + "$" + rest) == Spaces(s + "$") <= |s| && Digits(s + "$" + rest) == Digits(s + "$") <= |s|
  {
    var t, u := s + "$" + rest, s + "$";
    if s == [] { assert t[0] == '$' && u[0] == '$'; }
    else {
      SpansThen(s[1..], rest);
      assert t[1..] == s[1..] + "$" + rest && u[1..] == s[1..] + "$" && t[0] == s[0] == u[0];
    }
  }

  lemma StrtoulThen(s: string, rest: string)
    ensures Strtoul(s + "$" + rest) == Strtoul(s + "$") && Strtoul(s + "$").1 <= |s|
  {
    hide Spaces, Digits, DigitsValue;
    var t, u := s + "$" + rest, s + "$";
    SpansThen(s, rest);
    var start := Spaces(u);
    assert t[start] == u[start];
    if u[start] == '-' || u[start] == '+' {
      assert start < |s|;
      StrtoulTail(s, rest, start + 1);
    } else {
      StrtoulTail(s, rest, start);
    }
  }

  /** The digits from position `from` on. */
  lemma StrtoulTail(s: string, rest: string, from: nat)
    requires from <= |s|
    ensures Digits((s + "$" + rest)[from..]) == Digits((s + "$")[from..]) <= |s| - from
    ensures (s + "$" + rest)[from..][..Digits((s + "$")[from..])] == (s + "$")[from..][..Digits((s + "$")[from..])]
  {
    hide Digits;
    SpansThen(s[from..], rest);
    assert (s + "$" + rest)[from..] == s[from..] + "$" + rest;
    assert (s + "$")[from..] == s[from..] + "$";
    var n := Digits((s + "$")[from..]);
    assert (s + "$" + rest)[from..][..n] == (s + "$")[from..][..n];
  }

  lemma StartsRounds(s: string, rest: string)
    requires '$' !in s
    ensures (ROUNDS <= s + "$" + rest) == (ROUNDS <= s)
  {
    var t := s + "$" + rest;
    if |s| >= |ROUNDS| { assert t[..|ROUNDS|] == s[..|ROUNDS|]; }
    else { assert ROUNDS[|s|] != '$' && t[|s|] == '$'; }
  }

  /** Asking for rounds does not depend on what follows a dollar sign. */
  lemma AsksThen(s: string, rest: string)
    requires '$' !in s
    ensures AsksRounds(s + "$" + rest) == AsksRounds(s + "$")
  {
    hide Strtoul;
    var t, u := s + "$" + rest, s + "$";
    StartsRounds(s, rest);
    StartsRounds(s, "");
    assert u + "" == u;
    if ROUNDS <= s {
      var n := s[|ROUNDS|..];
      assert t[|ROUNDS|..] == n + "$" + rest && u[|ROUNDS|..] == n + "$";
      StrtoulThen(n, rest);
    }
  }

  /** A setting that did not ask for rounds is read back exactly if its salt
      cannot be mistaken for a request. */
  lemma PlainKept(k: Kind, st: Setting, digits: string)
    requires !st.custom && st.rounds == ROUNDS_DEFAULT && '$' !in st.salt && |st.salt| <= SaltMax(k)
    ensures Parse(k, Text(k, st, digits)).custom == Mistakable(k, st)
    ensures !Mistakable(k, st) ==> Parse(k, Text(k, st, digits)) == st
  {
    hide Strtoul, Field, Cspn, AsksRounds;
    var t := Unprefixed(k, Text(k, st, digits));
    assert Text(k, st, digits) == Prefix(k) + t && t == st.salt + "$" + digits;
    AsksThen(st.salt, digits);
    FieldThen(k, st.salt, digits);
  }

  lemma ParsedShape(k: Kind, salt: string)
    ensures var st := Parse(k, salt);
      && '$' !in st.salt && |st.salt| <= SaltMax(k)
      && ROUNDS_MIN <= st.rounds <= ROUNDS_MAX
      && (k.MD5? ==> !st.custom)
      && (!st.custom ==> st.rounds == ROUNDS_DEFAULT)
  {
    hide Strtoul, Field, AsksRounds;
    var t := Unprefixed(k, salt);
    if !k.MD5? && AsksRounds(t) { AsksMeans(t); }
  }

  lemma AsksMeans(t: string)
    requires AsksRounds(t)
    ensures |ROUNDS| <= |t| && Strtoul(t[|ROUNDS|..]).1 < |t[|ROUNDS|..]|
  {
  }

  /** A result used as a salt argument: the same setting, unless the salt could
      be mistaken for a request for rounds. */
  lemma SettingKept(k: Kind, salt: string, digits: string)
    ensures (Parse(k, Text(k, Parse(k, salt), digits)) == Parse(k, salt)) == !Mistakable(k, Parse(k, salt))
  {
    hide Strtoul, Field, AsksRounds, Setting0, Text;
    ParsedShape(k, salt);
    var st := Parse(k, salt);
    if st.custom { CustomKept(k, st, digits); } else { PlainKept(k, st, digits); }
  }

  lemma TextLength(k: Kind, st: Setting, digits: string)
    requires st.rounds <= ROUNDS_MAX
    ensures |Text(k, st, digits)| == 3 + |RoundsText(st)| + |st.salt| + 1 + |digits|
    ensures |RoundsText(st)| <= if st.custom then 17 else 0
    ensures st.custom ==> |RoundsText(st)| >= 9
  {
    hide Decimal;
    assert Pow10(9) == 1000000000;
    DecimalLength(st.rounds, 9);
  }

  /** Digits of a digest hold no dollar sign, so sixteen of them make a salt. */
  lemma {:induction false} NoDollar(s: string, n: nat)
    requires n <= |s| && forall i :: 0 <= i < |s| ==> GoodForSalt(s[i])
    ensures n <= Cspn(s)
  {
    if n > 0 { NoDollar(s[1..], n - 1); }
  }

  /** Checking a password: hashing the key under the result of hashing it gives
      that result, exactly unless the salt could be mistaken for a request for
      rounds. For `$1$` that is always. */
  lemma CheckingWorks(k: Kind, key: seq<byte>, salt: string)
    ensures (CryptText(k, key, CryptText(k, key, salt)) == CryptText(k, key, salt)) == !Mistakable(k, Parse(k, salt))
    ensures k.MD5? ==> CryptText(k, key, CryptText(k, key, salt)) == CryptText(k, key, salt)
  {
    hide Strtoul, AsksRounds, Encode, DigestOf, Text, Parse;
    var st := Parse(k, salt);
    var digits := Encode(k, DigestOf(k, key, st));
    SettingKept(k, salt, digits);
    if Mistakable(k, st) {
      EncodedLength(k, DigestOf(k, key, st));
      MistakenLonger(k, salt, digits);
      var again := Parse(k, Text(k, st, digits));
      EncodedLength(k, DigestOf(k, key, again));
      MistakenText(k, salt, digits, Encode(k, DigestOf(k, key, again)));
    }
  }

  /** After a mistake: the sixteen first digits become the salt. */
  lemma MistakenLonger(k: Kind, salt: string, digits: string)
    requires Mistakable(k, Parse(k, salt)) && |digits| >= 16 && forall i :: 0 <= i < |digits| ==> GoodForSalt(digits[i])
    ensures Parse(k, Text(k, Parse(k, salt), digits)).custom
    ensures |Parse(k, Text(k, Parse(k, salt), digits)).salt| == 16
  {
    hide Strtoul, AsksRounds, Setting0, Text;
    var st := Parse(k, salt);
    ParsedShape(k, salt);
    TextTail(k, st, digits);
    assert RoundsText(st) + (st.salt + "$" + digits) == st.salt + "$" + digits;
    var num, end := MistakenField(st.salt, digits);
    RequestMeans(k, num, Strtoul(num).0, end);
    NoDollar(digits, 16);
  }

  lemma DollarAt(n: string, end: nat)
    requires '$' !in n && end <= |n| && (n + "$")[end] == '$'
    ensures end == |n|
  {
  }

  /** The number of a mistaken salt ends where the salt does. */
  lemma MistakenField(s: string, digits: string) returns (num: string, end: nat)
    requires '$' !in s && AsksRounds(s + "$")
    ensures s + "$" + digits == ROUNDS + num && Strtoul(num).1 == end < |num|
    ensures num[end] == '$' && num[end + 1..] == digits
  {
    hide Strtoul;
    StartsRounds(s, "");
    assert s + "$" + "" == s + "$";
    var n := s[|ROUNDS|..];
    assert s == ROUNDS + n && (s + "$")[|ROUNDS|..] == n + "$";
    num := n + "$" + digits;
    StrtoulThen(n, digits);
    end := Strtoul(n + "$").1;
    DollarAt(n, end);
  }

  lemma MistakenText(k: Kind, salt: string, digits: string, others: string)
    requires Mistakable(k, Parse(k, salt)) && |others| == |digits|
    requires Parse(k, Text(k, Parse(k, salt), digits)).custom
    requires |Parse(k, Text(k, Parse(k, salt), digits)).salt| == 16
    ensures |Text(k, Parse(k, Text(k, Parse(k, salt), digits)), others)| > |Text(k, Parse(k, salt), digits)|
  {
    hide Parse, Text, AsksRounds;
    ParsedShape(k, salt);
    ParsedShape(k, Text(k, Parse(k, salt), digits));
    TextLength(k, Parse(k, salt), digits);
    TextLength(k, Parse(k, Text(k, Parse(k, salt), digits)), others);
  }

  /** An argument without the final dollar sign that is mistaken. */
  lemma MistakenExample(key: seq<byte>)
    ensures var salt := "$5$rounds=7";
      CryptText(SHA256, key, CryptText(SHA256, key, salt)) != CryptText(SHA256, key, salt)
  {
    hide CryptText;
    var salt := "$5$rounds=7";
    MistakableSeven();
    CheckingWorks(SHA256, key, salt);
  }

  lemma MistakableSeven()
    ensures Mistakable(SHA256, Parse(SHA256, "$5$rounds=7"))
  {
    hide AsksRounds, Cspn;
    var s, t := "$5$rounds=7", "rounds=7";
    assert s[3..] == t;
    NoRequest();
    CspnAll(t);
    assert t[..8] == t;
    Request();
    assert t + "$" == "rounds=7$";
  }

  lemma NoRequest()
    ensures !AsksRounds("rounds=7")
  {
    assert "rounds=7"[7..] == "7";
    assert Digits("7"[1..]) == 0;
    assert Digits("7") == 1 && Spaces("7") == 0;
    assert "7"[0..] == "7";
  }

  lemma Request()
    ensures AsksRounds("rounds=7$")
  {
    assert "rounds=7$"[7..] == "7$" && "7$"[0..] == "7$";
    DigitsThen("7", "$");
    assert "7" + "$" == "7$";
    assert Spaces("7$") == 0;
  }

  lemma {:induction false} CspnAll(s: string)
    requires '$' !in s
    ensures Cspn(s) == |s|
  {
    if s != [] { CspnAll(s[1..]); }
  }

  // ------------------------------------------------------------- the buffer size

  /** What `crypt` allocates for a salt argument. */
  function Needed(k: Kind, salt: string): nat {
    if k.MD5? then 3 + |salt| + 1 + 26 + 1 else 3 + 8 + 9 + 1 + |salt| + 1 + DigitCount(k) + 1
  }

  /** The allocated buffer always holds the result and its final zero. */
  lemma BufferSuffices(k: Kind, key: seq<byte>, salt: string)
    ensures |CryptText(k, key, salt)| < Needed(k, salt)
  {
    hide Encode, DigestOf, Text, Strtoul, AsksRounds, Decimal, RoundsText;
    var st := Parse(k, salt);
    EncodedLength(k, DigestOf(k, key, st));
    ParsedShape(k, salt);
    TextLength(k, st, Encode(k, DigestOf(k, key, st)));
    assert |st.salt| <= |salt| by { SaltWithin(k, salt); }
  }

  lemma SaltWithin(k: Kind, salt: string)
    ensures |Parse(k, salt).salt| <= |salt|
  {
    hide Strtoul, AsksRounds;
    var t := Unprefixed(k, salt);
    if !k.MD5? && AsksRounds(t) { AsksMeans(t); }
  }
}
