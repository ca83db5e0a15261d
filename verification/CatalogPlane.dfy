/** The hash plane of a catalog file: `size` columns, `depth` rows, a message in
    the column (set * number) % size (catgets/gencat.c, `write_out`). */
module CatalogPlane {
  import opened Basics
  import opened ByteOrder
  import opened CatalogLists

  /** A message together with the number of its set. */
  datatype Entry = Entry(set_: int, number: int, text: seq<byte>)

  const UINT_MAX: nat := 0xFFFF_FFFF

  function EntriesOf(s: MessageSet): (es: seq<Entry>)
    ensures |es| == |s.messages|
  {
    seq(|s.messages|, j requires 0 <= j < |s.messages| =>
      Entry(s.number, s.messages[j].number, s.messages[j].text))
  }

  /** All messages in the order in which the loops over sets and messages meet
      them. */
  function Entries(sets: seq<MessageSet>): seq<Entry> {
    if |sets| == 0 then [] else Entries(sets[..|sets| - 1]) + EntriesOf(sets[|sets| - 1])
  }

  /** The product of two C ints, kept in 32 bits, as a size_t. */
  function Product(a: int, b: int): nat {
    Int32(a * b) % 0x1_0000_0000_0000_0000
  }

  function Column(e: Entry, size: nat): (c: nat)
    requires size > 0
    ensures c < size
  {
    Product(e.number, e.set_) % size
  }

  /** As long as the product is an int, the column is its remainder. */
  lemma ColumnPlain(e: Entry, size: nat)
    requires size > 0 && 0 <= e.set_ * e.number <= 0x7FFF_FFFF
    ensures Column(e, size) == e.set_ * e.number % size
  {
  }

  // ------------------------------------------------------------------- depth

  /** How many entries belong in column c. */
  function Count(es: seq<Entry>, size: nat, c: nat): nat
    requires size > 0
  {
    if |es| == 0 then 0
    else Count(es[..|es| - 1], size, c) + (if Column(es[|es| - 1], size) == c then 1 else 0)
  }

  /** The number of rows needed: the fullest column, and at least one. */
  function Depth(es: seq<Entry>, size: nat): (d: nat)
    requires size > 0
    ensures d >= 1
  {
    if |es| == 0 then 1
    else
      var before, here := Depth(es[..|es| - 1], size), Count(es, size, Column(es[|es| - 1], size));
      if here > before then here else before
  }

  lemma EmptyPlane(size: nat)
    requires size > 0
    ensures Depth([], size) == 1 && forall c :: Count([], size, c) == 0
  {
  }

  lemma CountOne(es: seq<Entry>, e: Entry, size: nat, c: nat)
    requires size > 0
    ensures Count(es + [e], size, c) == Count(es, size, c) + (if Column(e, size) == c then 1 else 0)
  {
    assert (es + [e])[..|es|] == es;
  }

  lemma DepthOne(es: seq<Entry>, e: Entry, size: nat)
    requires size > 0
    ensures Depth(es + [e], size) == var here := Count(es, size, Column(e, size)) + 1;
              if here > Depth(es, size) then here else Depth(es, size)
  {
    assert (es + [e])[..|es|] == es;
    CountOne(es, e, size, Column(e, size));
  }

  /** Depth is the maximum of the column counts. */
  lemma {:induction false} DepthIsMaximum(es: seq<Entry>, size: nat)
    requires size > 0
    ensures forall c :: 0 <= c < size ==> Count(es, size, c) <= Depth(es, size)
    ensures Depth(es, size) == 1 || exists c :: 0 <= c < size && Count(es, size, c) == Depth(es, size)
  {
    hide Column, Depth, Count;
    EmptyPlane(size);
    if |es| > 0 {
      var init, e := es[..|es| - 1], es[|es| - 1];
      var last := Column(e, size);
      DepthIsMaximum(init, size);
      assert es == init + [e];
      DepthOne(init, e, size);
      forall c | 0 <= c < size ensures Count(es, size, c) == Count(init, size, c) + (if last == c then 1 else 0) {
        CountOne(init, e, size, c);
      }
      if Count(es, size, last) <= Depth(init, size) && Depth(init, size) != 1 {
        var c :| 0 <= c < size && Count(init, size, c) == Depth(init, size);
        assert Count(es, size, c) == Depth(es, size);
      } else {
        assert Count(es, size, last) == Depth(es, size);
      }
    }
  }

  lemma {:induction false} Grows(a: seq<Entry>, b: seq<Entry>, size: nat)
    requires size > 0
    ensures Depth(a, size) <= Depth(a + b, size)
    ensures forall c :: 0 <= c < size ==> Count(a, size, c) <= Count(a + b, size, c)
  {
    hide Column;
    if |b| == 0 { assert a + b == a; }
    else {
      var b', e := b[..|b| - 1], b[|b| - 1];
      Grows(a, b', size);
      assert a + b == (a + b') + [e];
      DepthOne(a + b', e, size);
      forall c | 0 <= c < size ensures Count(a, size, c) <= Count(a + b, size, c) { CountOne(a + b', e, size, c); }
    }
  }

  lemma {:induction false} DepthBound(es: seq<Entry>, size: nat)
    requires size > 0
    ensures Depth(es, size) <= (if |es| > 0 then |es| else 1) && forall c :: 0 <= c < size ==> Count(es, size, c) <= |es|
  {
    hide Column, Depth, Count;
    EmptyPlane(size);
    if |es| > 0 {
      var init, e := es[..|es| - 1], es[|es| - 1];
      DepthBound(init, size);
      assert es == init + [e];
      DepthOne(init, e, size);
      forall c | 0 <= c < size ensures Count(es, size, c) <= |es| { CountOne(init, e, size, c); }
    }
  }

  /** Entries that all belong in one column need a row each. */
  lemma {:induction false} OneColumn(es: seq<Entry>, size: nat, c: nat)
    requires size > 0 && c < size && forall i :: 0 <= i < |es| ==> Column(es[i], size) == c
    ensures Count(es, size, c) == |es| && Depth(es, size) == if |es| > 0 then |es| else 1
  {
    hide Column, Depth, Count;
    EmptyPlane(size);
    if |es| > 0 {
      var init, e := es[..|es| - 1], es[|es| - 1];
      assert forall i :: 0 <= i < |init| ==> init[i] == es[i];
      OneColumn(init, size, c);
      assert es == init + [e];
      DepthOne(init, e, size);
      CountOne(init, e, size, c);
    }
  }

  // ------------------------------------------------------------- one size

  /** What is known while the columns are counted: never too much, and exact
      until the size has turned out to be too large. */
  ghost predicate Counted(deep: array<nat>, depth: nat, best: nat, done: seq<Entry>, size: nat)
    requires size > 0
    reads deep
  {
    && deep.Length == size && 1 <= depth <= Depth(done, size)
    && (forall c :: 0 <= c < size ==> deep[c] <= Count(done, size, c))
    && (depth * size > best
        || (depth == Depth(done, size) && forall c :: 0 <= c < size ==> deep[c] == Count(done, size, c)))
  }

  /** `++deep[idx]` and the new maximum. */
  method CountEntry(deep: array<nat>, depth0: nat, best: nat, ghost done: seq<Entry>, size: nat, e: Entry) returns (depth: nat)
    requires size > 0 && Counted(deep, depth0, best, done, size)
    modifies deep
    ensures Counted(deep, depth, best, done + [e], size) && depth >= depth0
  {
    hide Column, Depth, Count;
    var idx := Column(e, size);
    DepthOne(done, e, size);
    forall c | 0 <= c < size ensures Count(done + [e], size, c) == Count(done, size, c) + (if c == idx then 1 else 0) {
      CountOne(done, e, size, c);
    }
    depth := depth0;
    deep[idx] := deep[idx] + 1;
    if deep[idx] > depth { depth := deep[idx]; }
    assert depth * size >= depth0 * size by { MulMonotone(depth0, depth, size); }
  }

  lemma MulMonotone(a: nat, b: nat, m: nat)
    requires a <= b
    ensures a * m <= b * m
  {
  }

  lemma Skipped(deep: array<nat>, depth: nat, best: nat, done: seq<Entry>, rest: seq<Entry>, size: nat)
    requires size > 0 && Counted(deep, depth, best, done, size) && (depth * size > best || rest == [])
    ensures Counted(deep, depth, best, done + rest, size)
  {
    if rest == [] { assert done + rest == done; }
    Grows(done, rest, size);
  }

  /** The messages of one set; the loop is left early if the size is hopeless. */
  method CountSet(deep: array<nat>, depth0: nat, best: nat, ghost done: seq<Entry>, size: nat, s: MessageSet) returns (depth: nat)
    requires size > 0 && Counted(deep, depth0, best, done, size)
    modifies deep
    ensures Counted(deep, depth, best, done + EntriesOf(s), size)
  {
    hide Counted;
    depth := depth0;
    var m := 0;
    ghost var es := EntriesOf(s);
    assert done + es[..0] == done;
    while m < |s.messages|
      invariant m <= |s.messages| && Counted(deep, depth, best, done + es[..m], size)
    {
      assert done + es[..m] + [es[m]] == done + es[..m + 1];
      var before := depth;
      depth := CountEntry(deep, depth, best, done + es[..m], size, Entry(s.number, s.messages[m].number, s.messages[m].text));
      m := m + 1;
      if depth > before && depth * size > best { break; }
    }
    assert (done + es[..m]) + es[m..] == done + es;
    assert m == |s.messages| ==> es[m..] == [];
    Skipped(deep, depth, best, done + es[..m], es[m..], size);
  }

  /** The depth found for a size is exact whenever it matters. */
  method TrySize(sets: seq<MessageSet>, size: nat, best: nat) returns (depth: nat)
    requires size > 0
    ensures 1 <= depth <= Depth(Entries(sets), size)
    ensures depth * size <= best ==> depth == Depth(Entries(sets), size)
  {
    hide Column;
    var deep := new nat[size](_ => 0);
    depth := 1;
    for i := 0 to |sets|
      invariant Counted(deep, depth, best, Entries(sets[..i]), size)
    {
      assert sets[..i + 1][..i] == sets[..i];
      depth := CountSet(deep, depth, best, Entries(sets[..i]), size, sets[i]);
    }
    assert sets[..|sets|] == sets;
  }

  // ------------------------------------------------------------- the search

  /** A size is at least as good as every size from s0 on, and better than every
      larger one. */
  ghost predicate Best(es: seq<Entry>, s0: nat, size: nat)
    requires s0 > 0
  {
    && size >= s0
    && (forall s :: s >= s0 ==> size * Depth(es, size) <= s * Depth(es, s))
    && (forall s :: s > size ==> size * Depth(es, size) < s * Depth(es, s))
  }

  /** The sizes from s0 on among which the search settles on one: some plane has
      fewer than UINT_MAX slots, or exactly as many and is not a single row. */
  ghost predicate Accepted(es: seq<Entry>, s0: nat)
    requires s0 > 0
  {
    || (exists s :: s >= s0 && s * Depth(es, s) < UINT_MAX)
    || (Depth(es, UINT_MAX) > 1 && exists s :: s >= s0 && s * Depth(es, s) == UINT_MAX)
  }

  /** When the plane chosen for a catalog with so many counted messages has a
      slot for each of its entries. */
  ghost predicate HasPlane(es: seq<Entry>, messages: nat) {
    |es| <= 1 || Accepted(es, 1 + messages / 5)
  }

  /** What has been learned about the sizes below `act`. */
  ghost predicate Searched(es: seq<Entry>, s0: nat, act: nat, total: nat, size: nat, depth: nat)
    requires s0 > 0
  {
    && s0 <= act && total <= UINT_MAX
    && (forall s :: s0 <= s < act ==> total <= s * Depth(es, s) && (size < s ==> total < s * Depth(es, s)))
    && ((total == size == depth == UINT_MAX && forall s :: s0 <= s < act ==> UINT_MAX < s * Depth(es, s))
        || (s0 <= size < act && depth == Depth(es, size) && total == size * depth))
  }

  /** After the search: the optimum, unless it was thrown away or never found. */
  lemma SearchOver(es: seq<Entry>, s0: nat, act: nat, total: nat, size: nat, depth: nat)
    requires s0 > 0 && act > total && Searched(es, s0, act, total, size, depth)
    ensures Accepted(es, s0) <==> size != UINT_MAX
    ensures size != UINT_MAX ==> Best(es, s0, size) && depth == Depth(es, size) && size * depth <= UINT_MAX
  {
    hide Depth;
    forall s | s >= act ensures total < s * Depth(es, s) { MulAtLeast(s, Depth(es, s)); }
    if s0 <= size < act && depth == Depth(es, size) && total == size * depth {
      assert Best(es, s0, size);
      if size == UINT_MAX { SingleRow(depth); }
      else if total == UINT_MAX { SingleRowWorse(es, s0, size); }
    }
  }

  lemma SingleRow(depth: nat)
    requires depth >= 1 && UINT_MAX * depth <= UINT_MAX
    ensures depth == 1
  {
  }

  lemma SingleRowWorse(es: seq<Entry>, s0: nat, size: nat)
    requires s0 > 0 && Best(es, s0, size) && size < UINT_MAX && size * Depth(es, size) == UINT_MAX
    ensures Depth(es, UINT_MAX) > 1
  {
    hide Depth;
    assert size * Depth(es, size) < UINT_MAX * Depth(es, UINT_MAX);
  }

  /** The search for the size: the plane is the smallest possible, the widest
      among equals, and its depth is exact. If the search settles on none, or on
      a single row of UINT_MAX slots, one slot is taken; then and only then some
      entry may be left without a slot. */
  method FindPlane(sets: seq<MessageSet>, messages: nat) returns (size: nat, depth: nat)
    ensures size >= 1 && depth >= 1 && size * depth <= UINT_MAX
    ensures Accepted(Entries(sets), 1 + messages / 5) ==>
      Best(Entries(sets), 1 + messages / 5, size) && depth == Depth(Entries(sets), size)
    ensures !Accepted(Entries(sets), 1 + messages / 5) ==> size == depth == 1
    ensures Depth(Entries(sets), size) <= depth <==> HasPlane(Entries(sets), messages)
    ensures HasPlane(Entries(sets), messages) ==> depth == Depth(Entries(sets), size)
  {
    hide Depth, Entries, Accepted;
    ghost var es, s0 := Entries(sets), 1 + messages / 5;
    var bestTotal: nat := UINT_MAX;
    size, depth := UINT_MAX, UINT_MAX;
    var actSize: nat := 1 + messages / 5;
    while actSize <= bestTotal
      invariant Searched(es, s0, actSize, bestTotal, size, depth) && depth >= 1
      decreases UINT_MAX + 1 - actSize
    {
      var actDepth := TrySize(sets, actSize, bestTotal);
      MulMonotone(actDepth, Depth(es, actSize), actSize);
      SearchStep(es, s0, actSize, bestTotal, size, depth, actDepth);
      if actDepth * actSize <= bestTotal {
        bestTotal := actDepth * actSize;
        size := actSize;
        depth := actDepth;
      }
      actSize := actSize + 1;
    }
    SearchOver(es, s0, actSize, bestTotal, size, depth);
    if size == UINT_MAX { size, depth := 1, 1; }
    OneColumn(es, 1, 0);
  }

  lemma SearchStep(es: seq<Entry>, s0: nat, act: nat, total: nat, size: nat, depth: nat, found: nat)
    requires s0 > 0 && Searched(es, s0, act, total, size, depth) && act <= total
    requires found * act <= Depth(es, act) * act && (found * act <= total ==> found == Depth(es, act))
    ensures found * act <= total ==> Searched(es, s0, act + 1, found * act, act, found)
    ensures found * act > total ==> Searched(es, s0, act + 1, total, size, depth)
  {
    hide Depth;
    assert act * Depth(es, act) == Depth(es, act) * act;
    assert found == Depth(es, act) ==> act * found == found * act;
  }

  /** The largest number of counted messages with which a plane is always found. */
  const ALWAYS_FITS: nat := 146540

  lemma AlwaysFits(es: seq<Entry>, messages: nat)
    requires |es| <= messages <= ALWAYS_FITS
    ensures HasPlane(es, messages)
  {
    hide Depth;
    var s := 1 + messages / 5;
    DepthBound(es, s);
    FewSlots(s, Depth(es, s));
    assert s * Depth(es, s) < UINT_MAX;
  }

  lemma FewSlots(s: nat, d: nat)
    requires s <= 1 + ALWAYS_FITS / 5 && d <= ALWAYS_FITS
    ensures s * d < UINT_MAX
  {
    MulMonotone(s, 1 + ALWAYS_FITS / 5, d);
  }
}
