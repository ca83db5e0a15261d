/** Flattening a tree of option tables into getopt's tables, and which option a
    key selects (argp/argp-parse.c). */
module ArgpOptions {
  import opened Basics
  import opened ArgpTree

  // ------------------------------------------------------------------ one table

  const COLON: int := 0x3a
  const DASH: int := 0x2d
  const PLUS: int := 0x2b

  /** `__option_is_short`: a printable character, and not documentation only. */
  predicate IsShort(o: ArgpOption) { !o.isDoc && 0x20 <= o.key <= 0x7e }

  /** The option whose argument and flags count for entry i: the last entry up to
      it that is not an alias. */
  function RealIndex(opts: seq<ArgpOption>, i: nat): (r: nat)
    requires i < |opts|
    ensures r <= i
  {
    if !opts[i].isAlias || i == 0 then i else RealIndex(opts, i - 1)
  }

  /** Entry m is the nearest one at or before i that is not an alias, or the first
      of all if there is none. */
  predicate Nearest(opts: seq<ArgpOption>, i: nat, m: nat) {
    && m <= i < |opts| && (opts[m].isAlias ==> m == 0)
    && forall k :: m < k <= i ==> opts[k].isAlias
  }

  lemma {:induction false} RealIsNearest(opts: seq<ArgpOption>, i: nat, m: nat)
    requires i < |opts|
    ensures Nearest(opts, i, m) <==> m == RealIndex(opts, i)
  {
    if opts[i].isAlias && i > 0 {
      RealIsNearest(opts, i - 1, m);
      assert m <= i - 1 ==> (Nearest(opts, i, m) <==> Nearest(opts, i - 1, m));
    }
  }

  function Real(opts: seq<ArgpOption>, i: nat): ArgpOption
    requires i < |opts|
  {
    opts[RealIndex(opts, i)]
  }

  predicate Live(opts: seq<ArgpOption>, i: nat)
    requires i < |opts|
  {
    !Real(opts, i).isDoc
  }

  /** The characters that entry i adds to the short option string. */
  function ShortOf(opts: seq<ArgpOption>, i: nat): (s: seq<int>)
    requires i < |opts|
    ensures |s| <= 3
  {
    if Live(opts, i) && IsShort(opts[i]) then
      [opts[i].key] + (if !Real(opts, i).hasArg then [] else if Real(opts, i).argOptional then [COLON, COLON] else [COLON])
    else []
  }

  function ShortText(opts: seq<ArgpOption>, n: nat): (s: seq<int>)
    requires n <= |opts|
    ensures |s| <= 3 * n
  {
    if n == 0 then [] else ShortText(opts, n - 1) + ShortOf(opts, n - 1)
  }

  datatype HasArg = NoArgument | RequiredArgument | OptionalArgument

  /** A candidate for the long option table. */
  datatype Candidate = Candidate(name: string, hasArg: HasArg, key: int)

  predicate IsLong(opts: seq<ArgpOption>, i: nat)
    requires i < |opts|
  {
    Live(opts, i) && opts[i].name.Some?
  }

  function CandidateOf(opts: seq<ArgpOption>, i: nat): Candidate
    requires i < |opts| && opts[i].name.Some?
  {
    var main := Real(opts, i);
    Candidate(opts[i].name.value,
              if !main.hasArg then NoArgument else if main.argOptional then OptionalArgument else RequiredArgument,
              if opts[i].key != 0 then opts[i].key else main.key)
  }

  /** What an entry is for getopt, by the nearest entry m that is not an alias: the
      argument is that of m, the key its own if it has one. */
  lemma CandidateMeans(opts: seq<ArgpOption>, i: nat, m: nat)
    requires Nearest(opts, i, m)
    ensures opts[i].name.Some? ==>
      var c := CandidateOf(opts, i);
      && c.name == opts[i].name.value
      && (c.hasArg == NoArgument <==> !opts[m].hasArg)
      && (c.hasArg == OptionalArgument <==> opts[m].hasArg && opts[m].argOptional)
      && (c.hasArg == RequiredArgument <==> opts[m].hasArg && !opts[m].argOptional)
      && c.key == if opts[i].key != 0 then opts[i].key else opts[m].key
  {
    RealIsNearest(opts, i, m);
  }

  // ------------------------------------------------------- the value of an option

  const USER: int := 0x100_0000

  /** `(key & USER_MASK) + ((group + 1) << USER_BITS)` */
  function Encode(key: int, group: nat): int {
    Int32(key % USER + (group + 1) * USER)
  }

  /** `opt >> USER_BITS` */
  function GroupKey(opt: int): int { opt / USER }

  /** `(opt << GROUP_BITS) >> GROUP_BITS` */
  function UserKey(opt: int): int {
    var m := opt % USER;
    if m < USER / 2 then m else m - USER
  }

  /** The value gives group and key back exactly for keys of 24 bits with sign
      and for the first 127 groups. */
  lemma EncodeExact(key: int, group: nat)
    requires -0x8000_0000 <= key <= 0x7FFF_FFFF
    ensures (GroupKey(Encode(key, group)) == group + 1 && UserKey(Encode(key, group)) == key)
       <==> (group < 127 && -USER / 2 <= key < USER / 2)
  {
    var low := key % USER;
    var v := low + (group + 1) * USER;
    var byte := (group + 1) % 256;
    EncodedWraps(v, low + byte * USER, (group + 1) / 256);
    EncodedParts(low, if byte < 128 then byte else byte - 256);
  }

  lemma EncodedWraps(v: int, w: int, q: int)
    requires 0 <= w < 0x1_0000_0000 && v == w + q * 0x1_0000_0000
    ensures v % 0x1_0000_0000 == w
  {
  }

  lemma EncodedParts(low: int, high: int)
    requires 0 <= low < USER
    ensures (low + high * USER) / USER == high && (low + high * USER) % USER == low
  {
  }
}
