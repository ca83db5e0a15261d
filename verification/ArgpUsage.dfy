/** The usage patterns of a tree of argps: every multi-line args doc offers its
    lines as alternatives, and each call of `argp_args_usage` shows one
    combination and moves on to the next (argp/argp-help.c). */
module ArgpUsage {
  import opened Basics
  import opened ArgpTree
  import ByteOrder

  // ------------------------------------------------------------- lines of a doc

  /** Position of the first newline, or the length. */
  function LineEnd(s: string): (n: nat)
    ensures n <= |s| && (forall i :: 0 <= i < n ==> s[i] != '\n') && (n < |s| ==> s[n] == '\n')
  {
    if s != [] && s[0] != '\n' then 1 + LineEnd(s[1..]) else 0
  }

  function Lines(s: string): (ls: seq<string>)
    ensures |ls| >= 1
    decreases |s|
  {
    var n := LineEnd(s);
    if n == |s| then [s] else [s[..n]] + Lines(s[n + 1..])
  }

  /** Lines with newlines between them. */
  function Joined(ls: seq<string>): string
    requires |ls| >= 1
  {
    if |ls| == 1 then ls[0] else ls[0] + "\n" + Joined(ls[1..])
  }

  /** A doc is its lines, and no line has a newline in it. */
  lemma {:induction false} LinesBack(s: string)
    ensures Joined(Lines(s)) == s && forall i :: 0 <= i < |Lines(s)| ==> '\n' !in Lines(s)[i]
    decreases |s|
  {
    var n := LineEnd(s);
    if n < |s| {
      LinesBack(s[n + 1..]);
      assert Lines(s)[1..] == Lines(s[n + 1..]);
      assert s == s[..n] + "\n" + s[n + 1..];
    }
  }

  /** A doc of several lines has a level of its own. */
  predicate Multiple(a: Argp) {
    a.argsDoc.Some? && |Lines(a.argsDoc.value)| > 1
  }

  function OwnLevels(a: Argp): nat { if Multiple(a) then 1 else 0 }

  function OwnSize(a: Argp): (n: nat)
    ensures n >= 1
  {
    if Multiple(a) then |Lines(a.argsDoc.value)| else 1
  }

  // ----------------------------------------------------- levels as a mixed radix

  /** How many levels a tree has. */
  function Levels(a: Argp): nat { OwnLevels(a) + ListLevels(a.children) }

  function ListLevels(cs: seq<Argp>): nat {
    if |cs| == 0 then 0 else ListLevels(cs[..|cs| - 1]) + Levels(cs[|cs| - 1])
  }

  /** How many combinations of lines a tree has. */
  function Size(a: Argp): (n: nat)
    ensures n >= 1
  {
    ListSize(a.children) * OwnSize(a)
  }

  function ListSize(cs: seq<Argp>): (n: nat)
    ensures n >= 1
  {
    if |cs| == 0 then 1
    else MulPositive(ListSize(cs[..|cs| - 1]), Size(cs[|cs| - 1])); ListSize(cs[..|cs| - 1]) * Size(cs[|cs| - 1])
  }

  lemma MulPositive(a: nat, b: nat)
    requires a >= 1 && b >= 1
    ensures a * b >= 1
  {
  }

  /** A level vector with every level within its doc: the own level first, then
      those of the children. */
  predicate Fits(a: Argp, d: seq<nat>) {
    && |d| == Levels(a)
    && (Multiple(a) ==> d[0] < OwnSize(a))
    && ListFits(a.children, d[OwnLevels(a)..])
  }

  predicate ListFits(cs: seq<Argp>, d: seq<nat>) {
    && |d| == ListLevels(cs)
    && (|cs| > 0 ==>
          var init, last := cs[..|cs| - 1], cs[|cs| - 1];
          ListFits(init, d[..ListLevels(init)]) && Fits(last, d[ListLevels(init)..]))
  }

  function Own(a: Argp, d: seq<nat>): nat
    requires |d| == Levels(a)
  {
    if Multiple(a) then d[0] else 0
  }

  /** The number of a combination. The first child counts fastest and the own
      level slowest, although it comes first in the vector. */
  function Value(a: Argp, d: seq<nat>): nat
    requires |d| == Levels(a)
  {
    ListValue(a.children, d[OwnLevels(a)..]) + ListSize(a.children) * Own(a, d)
  }

  function ListValue(cs: seq<Argp>, d: seq<nat>): nat
    requires |d| == ListLevels(cs)
  {
    if |cs| == 0 then 0
    else
      var init, last := cs[..|cs| - 1], cs[|cs| - 1];
      ListValue(init, d[..ListLevels(init)]) + ListSize(init) * Value(last, d[ListLevels(init)..])
  }

  /** The vector of a number. */
  function Digits(a: Argp, v: nat): (d: seq<nat>)
    ensures |d| == Levels(a)
  {
    var low := ListDigits(a.children, v % ListSize(a.children));
    if Multiple(a) then [v / ListSize(a.children)] + low else low
  }

  function ListDigits(cs: seq<Argp>, v: nat): (d: seq<nat>)
    ensures |d| == ListLevels(cs)
  {
    if |cs| == 0 then []
    else
      var init, last := cs[..|cs| - 1], cs[|cs| - 1];
      ListDigits(init, v % ListSize(init)) + Digits(last, v / ListSize(init))
  }

  lemma Places(m: nat, n: nat, low: nat, high: nat)
    requires low < m && high < n
    ensures low + m * high < m * n && (low + m * high) % m == low && (low + m * high) / m == high
  {
    ByteOrder.DivUnique(low + m * high, m, high, low);
    assert m * high <= m * (n - 1);
  }

  lemma PlacesBack(m: nat, n: nat, v: nat)
    requires m > 0 && v < m * n
    ensures 0 <= v % m < m && 0 <= v / m < n && v % m + m * (v / m) == v
  {
    assert v == m * (v / m) + v % m;
  }

  /** Every vector in range has a number below the size, and is its vector. */
  lemma {:induction false} ValueDigits(a: Argp, d: seq<nat>)
    requires Fits(a, d)
    ensures Value(a, d) < Size(a) && Digits(a, Value(a, d)) == d
  {
    var rest := d[OwnLevels(a)..];
    ListValueDigits(a.children, rest);
    Places(ListSize(a.children), OwnSize(a), ListValue(a.children, rest), Own(a, d));
  }

  lemma {:induction false} ListValueDigits(cs: seq<Argp>, d: seq<nat>)
    requires ListFits(cs, d)
    ensures ListValue(cs, d) < ListSize(cs) && ListDigits(cs, ListValue(cs, d)) == d
  {
    hide Value, Digits, Size, ListValue, ListDigits, ListSize, ListFits, Fits, ListLevels;
    if |cs| > 0 {
      var init, last := cs[..|cs| - 1], cs[|cs| - 1];
      ListParts(cs, d);
      var low, high := d[..ListLevels(init)], d[ListLevels(init)..];
      ListValueDigits(init, low);
      ValueDigits(last, high);
      Places(ListSize(init), Size(last), ListValue(init, low), Value(last, high));
      ListDigitsParts(cs, ListValue(cs, d));
    } else {
      ListNothing(d);
    }
  }

  lemma ListNothing(d: seq<nat>)
    requires ListFits([], d)
    ensures d == [] && ListValue([], d) == 0 && ListSize([]) == 1 && ListDigits([], 0) == []
  {
  }

  lemma ListParts(cs: seq<Argp>, d: seq<nat>)
    requires |cs| > 0 && ListFits(cs, d)
    ensures var init, last := cs[..|cs| - 1], cs[|cs| - 1];
      && |d| == ListLevels(cs) == ListLevels(init) + Levels(last)
      && ListFits(init, d[..ListLevels(init)]) && Fits(last, d[ListLevels(init)..])
      && |d[..ListLevels(init)]| == ListLevels(init)
      && ListValue(cs, d) == ListValue(init, d[..ListLevels(init)]) + ListSize(init) * Value(last, d[ListLevels(init)..])
      && ListSize(cs) == ListSize(init) * Size(last)
  {
  }

  lemma ListDigitsParts(cs: seq<Argp>, v: nat)
    requires |cs| > 0
    ensures var init, last := cs[..|cs| - 1], cs[|cs| - 1];
      ListDigits(cs, v) == ListDigits(init, v % ListSize(init)) + Digits(last, v / ListSize(init))
  {
  }

  /** Every number below the size has a vector in range. */
  lemma {:induction false} DigitsValue(a: Argp, v: nat)
    requires v < Size(a)
    ensures Fits(a, Digits(a, v)) && Value(a, Digits(a, v)) == v
  {
    var m := ListSize(a.children);
    PlacesBack(m, OwnSize(a), v);
    ListDigitsValue(a.children, v % m);
    assert Digits(a, v)[OwnLevels(a)..] == ListDigits(a.children, v % m);
  }

  lemma {:induction false} ListDigitsValue(cs: seq<Argp>, v: nat)
    requires v < ListSize(cs)
    ensures ListFits(cs, ListDigits(cs, v)) && ListValue(cs, ListDigits(cs, v)) == v
  {
    if |cs| > 0 {
      var init, last := cs[..|cs| - 1], cs[|cs| - 1];
      var m := ListSize(init);
      PlacesBack(m, Size(last), v);
      ListDigitsValue(init, v % m);
      DigitsValue(last, v / m);
      var d := ListDigits(cs, v);
      assert d[..ListLevels(init)] == ListDigits(init, v % m) && d[ListLevels(init)..] == Digits(last, v / m);
    }
  }

  // ------------------------------------------------------------ what is printed

  function OwnShown(a: Argp, level: nat): seq<string>
    requires a.argsDoc.Some? ==> level < |Lines(a.argsDoc.value)|
  {
    if a.argsDoc.Some? then [Lines(a.argsDoc.value)[level]] else []
  }

  /** The lines of a combination: the own one, then those of the children. */
  function Shown(a: Argp, d: seq<nat>): seq<string>
    requires Fits(a, d)
  {
    OwnShown(a, Own(a, d)) + ListShown(a.children, d[OwnLevels(a)..])
  }

  function ListShown(cs: seq<Argp>, d: seq<nat>): seq<string>
    requires ListFits(cs, d)
  {
    if |cs| == 0 then []
    else
      var init, last := cs[..|cs| - 1], cs[|cs| - 1];
      ListShown(init, d[..ListLevels(init)]) + Shown(last, d[ListLevels(init)..])
  }

  // ------------------------------------------------------------------- the code

  /** A level is kept in a char with sign. */
  type Level = n: int | -128 <= n < 128

  /** No doc has so many lines that its level would not fit. */
  predicate SmallDocs(a: Argp) {
    OwnSize(a) <= 128 && ListSmall(a.children)
  }

  predicate ListSmall(cs: seq<Argp>) {
    forall i :: 0 <= i < |cs| ==> SmallDocs(cs[i])
  }

  /** The line that a level stands for: the loop that walks to it does nothing for
      a negative level. */
  function Line(level: int): nat { if level < 0 then 0 else level }

  function LinesOf(d: seq<int>): (r: seq<nat>)
    ensures |r| == |d| && forall i :: 0 <= i < |d| ==> r[i] == Line(d[i])
  {
    seq(|d|, i requires 0 <= i < |d| => Line(d[i]))
  }

  /** What the levels can be: within the doc if they fit, else any char. */
  predicate Held(a: Argp, d: seq<int>) {
    && |d| == Levels(a)
    && (Multiple(a) ==> if OwnSize(a) <= 128 then 0 <= d[0] < OwnSize(a) else -128 <= d[0] < 128)
    && ListHeld(a.children, d[OwnLevels(a)..])
  }

  predicate ListHeld(cs: seq<Argp>, d: seq<int>) {
    && |d| == ListLevels(cs)
    && (|cs| > 0 ==>
          var init, last := cs[..|cs| - 1], cs[|cs| - 1];
          ListHeld(init, d[..ListLevels(init)]) && Held(last, d[ListLevels(init)..]))
  }

  lemma {:induction false} HeldFits(a: Argp, d: seq<int>)
    requires Held(a, d)
    ensures Fits(a, LinesOf(d))
  {
    ListHeldFits(a.children, d[OwnLevels(a)..]);
    assert LinesOf(d)[OwnLevels(a)..] == LinesOf(d[OwnLevels(a)..]);
  }

  lemma {:induction false} ListHeldFits(cs: seq<Argp>, d: seq<int>)
    requires ListHeld(cs, d)
    ensures ListFits(cs, LinesOf(d))
  {
    if |cs| > 0 {
      var init, last := cs[..|cs| - 1], cs[|cs| - 1];
      var n := ListLevels(init);
      ListHeldFits(init, d[..n]);
      HeldFits(last, d[n..]);
      assert LinesOf(d)[..n] == LinesOf(d[..n]) && LinesOf(d)[n..] == LinesOf(d[n..]);
    }
  }

  lemma LinesStep(s: string)
    ensures LineEnd(s) == |s| ==> Lines(s) == [s]
    ensures LineEnd(s) < |s| ==> Lines(s) == [s[..LineEnd(s)]] + Lines(s[LineEnd(s) + 1..])
  {
    hide LineEnd;
  }

  lemma LineAt(doc: string, cp: nat)
    requires cp <= |doc|
    ensures var n := LineEnd(doc[cp..]);
      if cp + n == |doc| then Lines(doc[cp..]) == [doc[cp..cp + n]]
      else cp + n < |doc| && Lines(doc[cp..]) == [doc[cp..cp + n]] + Lines(doc[cp + n + 1..])
  {
    hide Lines, LineEnd;
    var s := doc[cp..];
    var n := LineEnd(s);
    LinesStep(s);
    assert s[..n] == doc[cp..cp + n];
    if n < |s| { assert s[n + 1..] == doc[cp + n + 1..]; } else { assert doc[cp..cp + n] == s; }
  }

  /** Walk to the line of the given level; `more` says whether another follows. */
  method PickLine(doc: string, level: nat) returns (line: string, more: bool)
    requires level < |Lines(doc)|
    ensures line == Lines(doc)[level] && more == (level + 1 < |Lines(doc)|)
  {
    hide Lines, LineEnd;
    var cp, nl := 0, LineEnd(doc);
    assert doc[0..] == doc;
    for i := 0 to level
      invariant cp <= nl <= |doc| && nl == cp + LineEnd(doc[cp..])
      invariant Lines(doc[cp..]) == Lines(doc)[i..]
    {
      LineAt(doc, cp);
      assert |Lines(doc[cp..])| > 1;
      assert Lines(doc[cp..])[1..] == Lines(doc[nl + 1..]);
      cp := nl + 1;
      nl := cp + LineEnd(doc[cp..]);
    }
    LineAt(doc, cp);
    line := doc[cp..nl];
    more := nl < |doc|;
    assert Lines(doc[cp..])[0] == line;
  }

  /** A number that has been moved on by one if asked to; a carry is left if it
      has wrapped. */
  predicate Stepped(v: nat, v': nat, size: nat, advance: bool, carry: bool) {
    if advance then carry == (v + 1 == size) && v' == (if carry then 0 else v + 1)
    else !carry && v' == v
  }

  lemma SteppedTwice(l: nat, l': nat, m: nat, h: nat, h': nat, n: nat, a0: bool, a1: bool, a2: bool)
    requires l < m && h < n && Stepped(l, l', m, a0, a1) && Stepped(h, h', n, a1, a2)
    ensures Stepped(l + m * h, l' + m * h', m * n, a0, a2)
  {
    NextPlace(m, h);
    if a1 { if !a2 { Places(m, n, 0, h + 1); } }
    else if a0 { Places(m, n, l + 1, h); }
  }

  lemma NextPlace(m: nat, h: nat)
    ensures m * (h + 1) == m * h + m && m * 0 == 0
  {
  }

  /** What one call does to its part of the vector: a step, or, if some doc is too
      long, never a carry. */
  ghost predicate Advanced(a: Argp, d: seq<int>, d': seq<int>, advance: bool, carry: bool)
    requires Held(a, d)
  {
    HeldLength(a, d);
    Held(a, d') && if SmallDocs(a) then Stepped(Value(a, LinesOf(d)), Value(a, LinesOf(d')), Size(a), advance, carry) else !carry
  }

  ghost predicate ListAdvanced(cs: seq<Argp>, d: seq<int>, d': seq<int>, advance: bool, carry: bool)
    requires ListHeld(cs, d)
  {
    ListHeld(cs, d') && if ListSmall(cs) then Stepped(ListValue(cs, LinesOf(d)), ListValue(cs, LinesOf(d')), ListSize(cs), advance, carry) else !carry
  }

  lemma ListAdvancedMore(cs: seq<Argp>, i: nat, low: seq<int>, low': seq<int>, high: seq<int>, high': seq<int>, a0: bool, a1: bool, a2: bool)
    requires i < |cs| && ListHeld(cs[..i], low) && Held(cs[i], high)
    requires ListAdvanced(cs[..i], low, low', a0, a1) && Advanced(cs[i], high, high', a1, a2)
    ensures ListHeld(cs[..i + 1], low + high) && ListAdvanced(cs[..i + 1], low + high, low' + high', a0, a2)
  {
    hide Value, ListValue, Size, ListSize, SmallDocs, ListSmall, Held, ListHeld, Fits, ListFits, Stepped, LinesOf, ListLevels;
    HeldJoin(cs, i, low, high);
    HeldJoin(cs, i, low', high');
    SmallJoin(cs, i);
    LinesJoin(low, high);
    LinesJoin(low', high');
    if ListSmall(cs[..i + 1]) {
      SteppedJoin(cs, i, LinesOf(low), LinesOf(low'), LinesOf(high), LinesOf(high'), a0, a1, a2);
    } else {
      NoCarry(ListValue(cs[..i], LinesOf(low)), ListValue(cs[..i], LinesOf(low')), ListSize(cs[..i]), a0, a1);
      NoCarry(Value(cs[i], LinesOf(high)), Value(cs[i], LinesOf(high')), Size(cs[i]), a1, a2);
    }
  }

  lemma LinesTail(d: seq<int>, k: nat)
    requires k <= |d|
    ensures LinesOf(d)[k..] == LinesOf(d[k..]) && (k > 0 ==> LinesOf(d)[0] == Line(d[0]))
  {
  }

  lemma LinesJoin(low: seq<int>, high: seq<int>)
    ensures LinesOf(low + high) == LinesOf(low) + LinesOf(high)
  {
  }

  lemma NoCarry(v: nat, v': nat, size: nat, advance: bool, carry: bool)
    ensures Stepped(v, v', size, advance, carry) && !advance ==> !carry
  {
  }

  /** Steps of a list and of one more argp, when every level fits. */
  lemma SteppedJoin(cs: seq<Argp>, i: nat, l: seq<nat>, l': seq<nat>, h: seq<nat>, h': seq<nat>, a0: bool, a1: bool, a2: bool)
    requires i < |cs| && ListFits(cs[..i], l) && ListFits(cs[..i], l') && Fits(cs[i], h) && Fits(cs[i], h')
    requires |l| == |l'| == ListLevels(cs[..i]) && |h| == |h'| == Levels(cs[i])
    requires Stepped(ListValue(cs[..i], l), ListValue(cs[..i], l'), ListSize(cs[..i]), a0, a1)
    requires Stepped(Value(cs[i], h), Value(cs[i], h'), Size(cs[i]), a1, a2)
    ensures |l + h| == |l' + h'| == ListLevels(cs[..i + 1])
    ensures Stepped(ListValue(cs[..i + 1], l + h), ListValue(cs[..i + 1], l' + h'), ListSize(cs[..i + 1]), a0, a2)
  {
    hide *;
    ListJoin(cs, i, l, h);
    ListJoin(cs, i, l', h');
    ListValueDigits(cs[..i], l);
    ValueDigits(cs[i], h);
    SteppedTwice(ListValue(cs[..i], l), ListValue(cs[..i], l'), ListSize(cs[..i]), Value(cs[i], h), Value(cs[i], h'), Size(cs[i]), a0, a1, a2);
  }

  lemma SmallJoin(cs: seq<Argp>, i: nat)
    requires i < |cs|
    ensures ListSmall(cs[..i + 1]) <==> ListSmall(cs[..i]) && SmallDocs(cs[i])
  {
    hide SmallDocs;
    assert cs[..i + 1] == cs[..i] + [cs[i]];
  }

  /** The vectors of a list and of one more argp, put together. */
  lemma HeldJoin(cs: seq<Argp>, i: nat, low: seq<int>, high: seq<int>)
    requires i < |cs| && ListHeld(cs[..i], low) && Held(cs[i], high)
    ensures ListHeld(cs[..i + 1], low + high) && |low + high| == ListLevels(cs[..i + 1])
    ensures |low| == ListLevels(cs[..i]) && |high| == Levels(cs[i])
    ensures ListFits(cs[..i], LinesOf(low)) && Fits(cs[i], LinesOf(high))
  {
    hide Held, Fits, ListFits;
    ListHeldFits(cs[..i], low);
    HeldFits(cs[i], high);
    HeldLength(cs[i], high);
    var more := cs[..i + 1];
    assert more[..|more| - 1] == cs[..i] && more[|more| - 1] == cs[i];
    assert (low + high)[..|low|] == low && (low + high)[|low|..] == high;
  }

  lemma ListJoin(cs: seq<Argp>, i: nat, low: seq<nat>, high: seq<nat>)
    requires i < |cs| && ListFits(cs[..i], low) && Fits(cs[i], high)
    ensures ListFits(cs[..i + 1], low + high) && |low + high| == ListLevels(cs[..i + 1])
    ensures |low| == ListLevels(cs[..i]) && |high| == Levels(cs[i])
    ensures ListValue(cs[..i + 1], low + high) == ListValue(cs[..i], low) + ListSize(cs[..i]) * Value(cs[i], high)
    ensures ListSize(cs[..i + 1]) == ListSize(cs[..i]) * Size(cs[i])
    ensures ListShown(cs[..i + 1], low + high) == ListShown(cs[..i], low) + Shown(cs[i], high)
  {
    hide Value, Size, Fits, Shown;
    FitsLength(cs[i], high);
    var more := cs[..i + 1];
    assert more[..|more| - 1] == cs[..i] && more[|more| - 1] == cs[i];
    assert (low + high)[..|low|] == low && (low + high)[|low|..] == high;
  }

  lemma FitsLength(a: Argp, d: seq<nat>)
    requires Fits(a, d)
    ensures |d| == Levels(a)
  {
  }

  lemma HeldLength(a: Argp, d: seq<int>)
    requires Held(a, d)
    ensures |d| == Levels(a)
  {
  }

  /** The part of the vector that belongs to some argps. */
  ghost function Part(levels: array<Level>, at: nat, n: nat): (d: seq<int>)
    requires at + n <= levels.Length
    reads levels
    ensures |d| == n
  {
    seq(n, i requires 0 <= i < n reads levels => levels[at + i] as int)
  }

  twostate predicate Outside(levels: array<Level>, at: nat, end: nat)
    reads levels
  {
    forall i :: 0 <= i < levels.Length && !(at <= i < end) ==> levels[i] == old(levels[i])
  }

  /** The lines shown for a list, when its vector is put together. */
  lemma ShownMore(cs: seq<Argp>, i: nat, low: seq<int>, high: seq<int>)
    requires i < |cs| && ListHeld(cs[..i], low) && Held(cs[i], high)
    ensures ListFits(cs[..i], LinesOf(low)) && Fits(cs[i], LinesOf(high)) && ListFits(cs[..i + 1], LinesOf(low + high))
    ensures ListShown(cs[..i + 1], LinesOf(low + high)) == ListShown(cs[..i], LinesOf(low)) + Shown(cs[i], LinesOf(high))
  {
    hide *;
    HeldJoin(cs, i, low, high);
    ListJoin(cs, i, LinesOf(low), LinesOf(high));
    LinesJoin(low, high);
  }

  /** The own level is the slowest digit; if it does not fit it only ever grows and
      wraps, and never leaves a carry. */
  lemma OwnAdvanced(a: Argp, d: seq<int>, d': seq<int>, advance: bool, c: bool, carry: bool)
    requires Held(a, d) && |d'| == |d|
    requires ListAdvanced(a.children, d[OwnLevels(a)..], d'[OwnLevels(a)..], advance, c)
    requires Multiple(a) ==> if OwnSize(a) <= 128 then 0 <= d'[0] < OwnSize(a) else -128 <= d'[0] < 128
    requires if OwnSize(a) <= 128 then Stepped(if Multiple(a) then d[0] else 0, if Multiple(a) then d'[0] else 0, OwnSize(a), c, carry) else !carry
    ensures Advanced(a, d, d', advance, carry)
  {
    hide ListValue, ListSize, Fits, ListFits, ListHeld, ListSmall;
    var low, low' := d[OwnLevels(a)..], d'[OwnLevels(a)..];
    if SmallDocs(a) {
      var l, l' := LinesOf(low), LinesOf(low');
      ListHeldFits(a.children, low);
      ListValueDigits(a.children, l);
      assert LinesOf(d)[OwnLevels(a)..] == l && LinesOf(d')[OwnLevels(a)..] == l';
      SteppedTwice(ListValue(a.children, l), ListValue(a.children, l'), ListSize(a.children),
                   Own(a, LinesOf(d)), Own(a, LinesOf(d')), OwnSize(a), advance, c, carry);
    }
  }

  /** The calls for the children, in order; the carry of one moves the next. */
  method UsageChildren(a: Argp, levels: array<Level>, at: nat, advance: bool) returns (end: nat, carry: bool, out: seq<string>)
    requires at + ListLevels(a.children) <= levels.Length
    requires ListHeld(a.children, Part(levels, at, ListLevels(a.children)))
    modifies levels
    ensures end == at + ListLevels(a.children) && Outside(levels, at, end)
    ensures ListAdvanced(a.children, old(Part(levels, at, ListLevels(a.children))), Part(levels, at, ListLevels(a.children)), advance, carry)
    ensures ListFits(a.children, LinesOf(old(Part(levels, at, ListLevels(a.children)))))
    ensures out == ListShown(a.children, LinesOf(old(Part(levels, at, ListLevels(a.children)))))
    decreases a, 0
  {
    hide Fits, ListFits, Held, ListHeld, Advanced, ListAdvanced, Shown, ListShown, Multiple, SmallDocs, LinesOf, ListLevels, Levels;
    var cs := a.children;
    ghost var d := Part(levels, at, ListLevels(cs));
    end, carry, out := at, advance, [];
    Nothing(advance);
    assert cs[..0] == [] && d[..0] == [];
    for i := 0 to |cs|
      invariant end == at + ListLevels(cs[..i]) && ListLevels(cs[..i]) <= ListLevels(cs) && Outside(levels, at, end)
      invariant ListHeld(cs[..i], d[..ListLevels(cs[..i])]) && ListFits(cs[..i], LinesOf(d[..ListLevels(cs[..i])]))
      invariant ListAdvanced(cs[..i], d[..ListLevels(cs[..i])], Part(levels, at, ListLevels(cs[..i])), advance, carry)
      invariant out == ListShown(cs[..i], LinesOf(d[..ListLevels(cs[..i])]))
    {
      ghost var n, m := ListLevels(cs[..i]), Levels(cs[i]);
      PrefixHeld(cs, d, i);
      ghost var low', high := Part(levels, at, n), d[n..n + m];
      assert Part(levels, end, m) == high;
      var before, shown := carry, [];
      var more;
      end, more, shown := ArgsUsage(cs[i], levels, end, carry);
      carry := !more;
      ghost var high' := Part(levels, at + n, m);
      assert Part(levels, at, n) == low';
      PartSplit(levels, at, n, m);
      assert d[..n + m] == d[..n] + high;
      ListAdvancedMore(cs, i, d[..n], low', high, high', advance, before, carry);
      ShownMore(cs, i, d[..n], high);
      out := out + shown;
    }
    assert cs[..|cs|] == cs && d[..ListLevels(cs)] == d;
  }

  lemma PartSplit(levels: array<Level>, at: nat, n: nat, m: nat)
    requires at + n + m <= levels.Length
    ensures Part(levels, at, n + m) == Part(levels, at, n) + Part(levels, at + n, m)
  {
  }

  lemma Nothing(advance: bool)
    ensures ListHeld([], []) && ListFits([], LinesOf([])) && ListAdvanced([], [], [], advance, advance)
    ensures ListShown([], LinesOf([])) == [] && ListLevels([]) == 0
  {
  }

  /** The vector of a list starts with that of its first members. */
  lemma {:induction false} PrefixHeld(cs: seq<Argp>, d: seq<int>, i: nat)
    requires ListHeld(cs, d) && i < |cs|
    ensures ListLevels(cs[..i + 1]) == ListLevels(cs[..i]) + Levels(cs[i]) <= |d| == ListLevels(cs)
    ensures Held(cs[i], d[ListLevels(cs[..i])..ListLevels(cs[..i]) + Levels(cs[i])])
    decreases |cs|
  {
    hide Held;
    var init, last := cs[..|cs| - 1], cs[|cs| - 1];
    assert cs[..i + 1][..i] == cs[..i];
    if i < |init| {
      var low := d[..ListLevels(init)];
      PrefixHeld(init, low, i);
      assert init[..i] == cs[..i] && init[..i + 1] == cs[..i + 1];
      assert low[ListLevels(cs[..i])..ListLevels(cs[..i]) + Levels(cs[i])] == d[ListLevels(cs[..i])..ListLevels(cs[..i]) + Levels(cs[i])];
    } else {
      assert cs[..i] == init && cs[..i + 1] == cs;
      assert d[ListLevels(init)..ListLevels(init) + Levels(last)] == d[ListLevels(init)..];
    }
  }

  /** `argp_args_usage`: one combination is shown and, if asked, the vector moves
      to the next; the result says whether it has not wrapped. */
  method ArgsUsage(a: Argp, levels: array<Level>, at: nat, advance: bool) returns (end: nat, more: bool, out: seq<string>)
    requires at + Levels(a) <= levels.Length && Held(a, Part(levels, at, Levels(a)))
    modifies levels
    ensures end == at + Levels(a) && Outside(levels, at, end)
    ensures Advanced(a, old(Part(levels, at, Levels(a))), Part(levels, at, Levels(a)), advance, !more)
    ensures Fits(a, LinesOf(old(Part(levels, at, Levels(a)))))
    ensures out == Shown(a, LinesOf(old(Part(levels, at, Levels(a)))))
    decreases a, 1
  {
    hide ListFits, ListHeld, ListAdvanced, ListShown, Lines, Advanced, Fits, LinesOf, SmallDocs, ListSmall, ListLevels;
    ghost var d := Part(levels, at, Levels(a));
    HeldFits(a, d);
    var own := OwnLevels(a);
    ghost var n := ListLevels(a.children);
    assert Part(levels, at + own, n) == d[own..];
    out := [];
    var multiple, hasMore := Multiple(a), false;
    if a.argsDoc.Some? {
      var line;
      line, hasMore := PickLine(a.argsDoc.value, if multiple then Line(levels[at]) else 0);
      out := [line];
    }
    end := if multiple then at + 1 else at;
    var carry, shown;
    end, carry, shown := UsageChildren(a, levels, end, advance);
    LinesTail(d, own);
    out := out + shown;
    ghost var c := carry;
    ghost var rest := Part(levels, at + own, n);
    if carry && multiple {
      if hasMore {
        levels[at] := if levels[at] == 127 then -128 else levels[at] + 1;
        carry := false;
      } else if levels[at] > 0 {
        levels[at] := 0;
      }
    }
    more := !carry;
    ghost var d' := Part(levels, at, Levels(a));
    assert d'[own..] == rest by { assert Part(levels, at + own, n) == rest; }
    OwnAdvanced(a, d, d', advance, c, carry);
  }

  /** The loop in `_help`, given up after `limit` rounds: it ends exactly if every
      level fits in its char and there are no more combinations than rounds; then
      there are as many patterns as combinations, and the vector is back at zero.
      Pattern v is combination number v. */
  method UsagePatterns(a: Argp, limit: nat) returns (ended: bool, patterns: seq<seq<string>>, final: seq<Level>)
    ensures ended <==> SmallDocs(a) && Size(a) <= limit
    ensures !ended ==> |patterns| == limit
    ensures ended ==> |patterns| == Size(a)
    ensures ended ==> |final| == Levels(a) && forall i :: 0 <= i < |final| ==> final[i] == 0
    ensures SmallDocs(a) ==> |patterns| <= Size(a) && forall v :: 0 <= v < |patterns| ==> Fits(a, Digits(a, v)) && patterns[v] == Shown(a, Digits(a, v))
  {
    hide Fits, Held, SmallDocs, Shown, Digits, Value, Size, Levels;
    var levels := new Level[Levels(a)](_ => 0);
    ghost var zero := Part(levels, 0, Levels(a));
    assert forall i :: 0 <= i < |zero| ==> zero[i] == 0;
    ZeroVector(a, LinesOf(zero));
    ZeroHeld(a, zero);
    patterns := [];
    var more := true;
    while more && |patterns| < limit
      invariant Held(a, Part(levels, 0, Levels(a))) && |patterns| <= limit && (!SmallDocs(a) ==> more)
      invariant SmallDocs(a) ==> Counting(a, Part(levels, 0, Levels(a)), patterns, more)
      decreases limit - |patterns|, more
    {
      ghost var d := Part(levels, 0, Levels(a));
      HeldFits(a, d);
      ValueDigits(a, LinesOf(d));
      var end, out;
      end, more, out := ArgsUsage(a, levels, 0, true);
      patterns := patterns + [out];
    }
    ended := !more;
    if ended {
      ghost var d := Part(levels, 0, Levels(a));
      HeldFits(a, d);
      HeldFits(a, zero);
      ValueDigits(a, LinesOf(d));
      ValueDigits(a, LinesOf(zero));
      NonNegative(a, d);
      forall i | 0 <= i < levels.Length ensures levels[i] == 0 {
        assert d[i] == levels[0 + i] && LinesOf(d)[i] == LinesOf(zero)[i];
      }
    }
    final := levels[..];
  }

  /** Where the loop stands when every level fits. */
  ghost predicate Counting(a: Argp, d: seq<int>, patterns: seq<seq<string>>, more: bool) {
    && |d| == Levels(a) && (more ==> |patterns| < Size(a)) && (!more ==> |patterns| == Size(a))
    && Value(a, LinesOf(d)) == (if more then |patterns| else 0)
    && forall v :: 0 <= v < |patterns| ==> Fits(a, Digits(a, v)) && patterns[v] == Shown(a, Digits(a, v))
  }

  /** A doc of 129 lines, for which the loop never ends. */
  lemma LongDoc()
    ensures !SmallDocs(Argp(None, false, Some(seq(128, _ => '\n')), []))
  {
    EmptyLines(128);
  }

  lemma {:induction false} EmptyLines(n: nat)
    ensures |Lines(seq(n, _ => '\n'))| == n + 1
  {
    if n > 0 {
      EmptyLines(n - 1);
      assert seq(n, _ => '\n')[1..] == seq(n - 1, _ => '\n');
    }
  }

  /** Levels that fit are not negative. */
  lemma {:induction false} NonNegative(a: Argp, d: seq<int>)
    requires Held(a, d) && SmallDocs(a)
    ensures forall i :: 0 <= i < |d| ==> d[i] >= 0
  {
    ListNonNegative(a.children, d[OwnLevels(a)..]);
    forall i | 0 <= i < |d| ensures d[i] >= 0 {
      if i >= OwnLevels(a) { assert d[OwnLevels(a)..][i - OwnLevels(a)] == d[i]; }
    }
  }

  lemma {:induction false} ListNonNegative(cs: seq<Argp>, d: seq<int>)
    requires ListHeld(cs, d) && ListSmall(cs)
    ensures forall i :: 0 <= i < |d| ==> d[i] >= 0
  {
    hide SmallDocs, Held;
    if |cs| > 0 {
      var init, last := cs[..|cs| - 1], cs[|cs| - 1];
      var n := ListLevels(init);
      ListNonNegative(init, d[..n]);
      NonNegative(last, d[n..]);
      forall i | 0 <= i < |d| ensures d[i] >= 0 {
        if i < n { assert d[..n][i] == d[i]; } else { assert d[n..][i - n] == d[i]; }
      }
    }
  }

  lemma {:induction false} ZeroHeld(a: Argp, d: seq<int>)
    requires |d| == Levels(a) && forall i :: 0 <= i < |d| ==> d[i] == 0
    ensures Held(a, d)
  {
    ListZeroHeld(a.children, d[OwnLevels(a)..]);
  }

  lemma {:induction false} ListZeroHeld(cs: seq<Argp>, d: seq<int>)
    requires |d| == ListLevels(cs) && forall i :: 0 <= i < |d| ==> d[i] == 0
    ensures ListHeld(cs, d)
  {
    if |cs| > 0 {
      var init, last := cs[..|cs| - 1], cs[|cs| - 1];
      ListZeroHeld(init, d[..ListLevels(init)]);
      ZeroHeld(last, d[ListLevels(init)..]);
    }
  }

  /** The vector of zeros is combination zero. */
  lemma {:induction false} ZeroVector(a: Argp, d: seq<nat>)
    requires |d| == Levels(a) && forall i :: 0 <= i < |d| ==> d[i] == 0
    ensures Fits(a, d) && Value(a, d) == 0
  {
    ListZeroVector(a.children, d[OwnLevels(a)..]);
  }

  lemma {:induction false} ListZeroVector(cs: seq<Argp>, d: seq<nat>)
    requires |d| == ListLevels(cs) && forall i :: 0 <= i < |d| ==> d[i] == 0
    ensures ListFits(cs, d) && ListValue(cs, d) == 0
  {
    if |cs| > 0 {
      var init, last := cs[..|cs| - 1], cs[|cs| - 1];
      ListZeroVector(init, d[..ListLevels(init)]);
      ZeroVector(last, d[ListLevels(init)..]);
    }
  }

  /** Every combination is shown exactly once. */
  lemma EachCombinationOnce(a: Argp, d: seq<nat>, v: nat)
    requires Fits(a, d) && v < Size(a)
    ensures Digits(a, v) == d <==> v == Value(a, d)
    ensures Value(a, d) < Size(a)
  {
    ValueDigits(a, d);
    DigitsValue(a, v);
  }
}
