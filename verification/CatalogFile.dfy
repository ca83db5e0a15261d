/** The bytes of a catalog file: written by gencat on a host of one byte order,
    opened and searched on a host of either (catgets/gencat.c `write_out`,
    catgets/open_catalog.c, catgets/catgets.c). */
module CatalogFile {
  import opened Basics
  import opened ByteOrder
  import opened CatalogLists
  import opened CatalogPlane
  import opened CatalogTable

  const MAGIC: nat := 0x9604_08de
  const LIMIT: nat := 0x1_0000_0000
  const INT_MAX: nat := 0x7FFF_FFFF

  // --------------------------------------------------------------- words in bytes

  function WordBytes(o: Order, ws: seq<nat>): (b: seq<byte>)
    ensures |b| == 4 * |ws|
  {
    if |ws| == 0 then [] else WordBytes(o, ws[..|ws| - 1]) + Store(o, ws[|ws| - 1], 4)
  }

  predicate Fit32(ws: seq<nat>) { forall i :: 0 <= i < |ws| ==> ws[i] < LIMIT }

  lemma LimitIsPower()
    ensures LIMIT == Pow256(4)
  {
  }

  lemma {:induction false} WordRead(o: Order, ws: seq<nat>, i: nat)
    requires Fit32(ws) && i < |ws|
    ensures Load(o, WordBytes(o, ws)[4 * i..4 * i + 4]) == ws[i]
  {
    hide Load, Store, Pow256;
    var init := ws[..|ws| - 1];
    if i < |init| {
      WordRead(o, init, i);
      assert WordBytes(o, ws)[4 * i..4 * i + 4] == WordBytes(o, init)[4 * i..4 * i + 4];
    } else {
      LimitIsPower();
      LoadStore(o, ws[i], 4);
      assert WordBytes(o, ws)[4 * i..4 * i + 4] == Store(o, ws[i], 4);
    }
  }

  /** The second table: every word with its bytes swapped. */
  method SwapTable(words: seq<nat>) returns (swapped: seq<nat>)
    ensures |swapped| == |words| && forall i :: 0 <= i < |words| ==> swapped[i] == Swap(words[i], 4)
  {
    swapped := [];
    for cnt := 0 to |words|
      invariant |swapped| == cnt && forall i :: 0 <= i < cnt ==> swapped[i] == Swap(words[i], 4)
    {
      swapped := swapped + [Swap(words[cnt], 4)];
    }
  }

  lemma {:induction false} SwappedTable(o: Order, a: seq<nat>, b: seq<nat>)
    requires |a| == |b| && forall i :: 0 <= i < |a| ==> b[i] == Swap(a[i], 4)
    ensures WordBytes(o, b) == WordBytes(o.Other(), a)
  {
    hide Store, Swap;
    if |a| > 0 {
      SwappedTable(o, a[..|a| - 1], b[..|b| - 1]);
      StoreSwap(o, a[|a| - 1], 4);
    }
  }

  // -------------------------------------------------------------------- the file

  function Header(w: Order, size: nat, depth: nat): (b: seq<byte>)
    ensures |b| == 12
  {
    Store(w, MAGIC, 4) + Store(w, size, 4) + Store(w, depth, 4)
  }

  function FileOf(w: Order, size: nat, depth: nat, tab: seq<nat>, pool: seq<byte>): seq<byte> {
    Header(w, size, depth) + WordBytes(Little, tab) + WordBytes(Big, tab) + pool
  }

  /** A file that holds the given messages. */
  ghost predicate Holds(file: seq<byte>, w: Order, size: nat, depth: nat, tab: seq<nat>, es: seq<Entry>) {
    && 0 < size < LIMIT && depth < LIMIT && Fit32(tab)
    && Filled(tab, size, depth, es) && depth == Depth(es, size)
    && file == FileOf(w, size, depth, tab, Pool(es))
  }

  ghost predicate IsCatalog(file: seq<byte>, w: Order, es: seq<Entry>) {
    exists size, depth, tab :: Holds(file, w, size, depth, tab, es)
  }

  lemma WantFits(es: seq<Entry>, size: nat, r: nat, c: nat)
    requires size > 0 && EntriesOk(es) && |Pool(es)| <= INT_MAX
    ensures var s := Want(es, size, r, c); s.set_ < LIMIT && s.number < LIMIT && s.offset < LIMIT
  {
    hide Pool;
    if r < Count(es, size, c) {
      var i := Nth(es, size, c, r);
      PoolHolds(es, i);
      EachOk(es, i);
    }
  }

  /** Slots by their number. */
  lemma SlotByNumber(tab: seq<nat>, size: nat, depth: nat, es: seq<Entry>, p: nat)
    requires Filled(tab, size, depth, es) && p < size * depth
    ensures p / size < depth && p % size < size && At(size, p / size, p % size) == p
    ensures SlotAt(tab, p) == Want(es, size, p / size, p % size)
  {
    hide Want;
    ParseSlot(size, depth, p);
    assert SlotAt(tab, At(size, p / size, p % size)) == Want(es, size, p / size, p % size);
  }

  lemma ParseSlot(size: nat, depth: nat, p: nat)
    requires size > 0 && p < size * depth
    ensures 0 <= p / size < depth && 0 <= p % size < size && At(size, p / size, p % size) == p
  {
    assert p == size * (p / size) + p % size;
    if p / size >= depth { MulMonotone(depth, p / size, size); }
  }

  lemma TableFits(tab: seq<nat>, size: nat, depth: nat, es: seq<Entry>)
    requires Filled(tab, size, depth, es) && |Pool(es)| <= INT_MAX
    ensures Fit32(tab)
  {
    hide Filled, Want, Pool, At, EntriesOk;
    FilledLength(tab, size, depth, es);
    forall i | 0 <= i < |tab| ensures tab[i] < LIMIT {
      var p := i / 3;
      SlotByNumber(tab, size, depth, es, p);
      WantFits(es, size, p / size, p % size);
      assert i == 3 * p || i == 3 * p + 1 || i == 3 * p + 2;
    }
  }

  /** `write_out` after the merge: plane, table, pool, and the bytes. There is no
      file if the table is too small for the messages. */
  method WriteOut(w: Order, sets: seq<MessageSet>, messages: nat) returns (written: Option<seq<byte>>)
    requires EntriesOk(Entries(sets)) && |Pool(Entries(sets))| <= INT_MAX
    ensures written.Some? <==> HasPlane(Entries(sets), messages)
    ensures written.Some? ==> IsCatalog(written.value, w, Entries(sets))
  {
    hide EntriesOk, Entries, Pool, HasPlane, Accepted, Best, Filled, Fit32, Depth;
    ghost var es := Entries(sets);
    var size, depth := FindPlane(sets, messages);
    var ok, words, pool := FillTable(sets, size, depth);
    if !ok { return None; }
    TableFits(words, size, depth, es);
    var swapped := SwapTable(words);
    SwappedTable(w, words, swapped);
    var file := Header(w, size, depth);
    if w.Little? { file := file + WordBytes(w, words) + WordBytes(w, swapped); }
    else { file := file + WordBytes(w, swapped) + WordBytes(w, words); }
    file := file + pool;
    PlaneFits(size, depth);
    assert Holds(file, w, size, depth, words, es);
    written := Some(file);
  }

  lemma PlaneFits(size: nat, depth: nat)
    requires size >= 1 && depth >= 1 && size * depth <= UINT_MAX
    ensures size < LIMIT && depth < LIMIT
  {
    MulAtLeast(size, depth);
    MulAtLeast(depth, size);
  }

  // ------------------------------------------------------------------- opening it

  /** `struct catalog_info`: the file as it lies in memory, with the positions of
      the table and of the strings. */
  datatype CatalogInfo = CatalogInfo(order: Order, file: seq<byte>, planeSize: nat, planeDepth: nat, table: nat, strings: nat) {
    predicate Sane() {
      && table + 4 * (3 * (planeSize * planeDepth)) <= |file| && strings <= |file|
    }

    /** `name_ptr[i]` */
    function NamePtr(i: nat): nat
      requires Sane() && i < 3 * (planeSize * planeDepth)
    {
      Load(order, file[table + 4 * i..table + 4 * i + 4])
    }

    function Text(offset: nat): seq<byte>
      requires Sane()
    {
      StringAt(file[strings..], offset)
    }
  }

  /** An opened catalog shows the table and the strings of the messages. */
  ghost predicate Shows(info: CatalogInfo, tab: seq<nat>, es: seq<Entry>) {
    && info.Sane() && Filled(tab, info.planeSize, info.planeDepth, es)
    && info.planeDepth == Depth(es, info.planeSize)
    && (forall i :: 0 <= i < |tab| ==> info.NamePtr(i) == tab[i])
    && info.file[info.strings..] == Pool(es)
  }

  lemma MagicRead(r: Order, w: Order, v: nat)
    requires v < LIMIT
    ensures Load(r, Store(w, v, 4)) == if r == w then v else Swap(v, 4)
    ensures Swap(Swap(v, 4), 4) == v
  {
    hide Pow256, FromLittle, ToLittle;
    LimitIsPower();
    LoadStore(w, v, 4);
    SwapLoad(w, Store(w, v, 4));
    SwapTwice(v, 4);
  }

  lemma MagicAsymmetric()
    ensures Swap(MAGIC, 4) == 0xde08_0496
  {
    assert MAGIC == 0xde + 256 * (0x08 + 256 * (0x04 + 256 * 0x96));
    assert ToLittle(0x96, 1) == [0x96];
    assert ToLittle(0x9604, 2) == [0x04, 0x96];
    assert ToLittle(0x960408, 3) == [0x08, 0x04, 0x96];
    assert ToLittle(MAGIC, 4) == [0xde, 0x08, 0x04, 0x96];
    assert Backwards([0xde, 0x08, 0x04, 0x96]) == [0x96, 0x04, 0x08, 0xde];
    assert FromLittle([0xde]) == 0xde;
    assert [0x08, 0xde][1..] == [0xde];
    assert FromLittle([0x08, 0xde]) == 0xde08;
    assert [0x04, 0x08, 0xde][1..] == [0x08, 0xde];
    assert FromLittle([0x04, 0x08, 0xde]) == 0xde0804;
    assert [0x96, 0x04, 0x08, 0xde][1..] == [0x04, 0x08, 0xde];
  }
}
