/** Opening a catalog file and fetching messages from it
    (catgets/open_catalog.c and catgets/catgets.c). */
module CatalogRead {
  import opened Basics
  import opened ByteOrder
  import opened CatalogLists
  import opened CatalogPlane
  import opened CatalogTable
  import opened CatalogFile

  // --------------------------------------------------------------------- opening

  lemma HeaderRead(r: Order, w: Order, size: nat, depth: nat, rest: seq<byte>)
    requires size < LIMIT && depth < LIMIT
    ensures var f := Header(w, size, depth) + rest;
      && Load(r, f[0..4]) == (if r == w then MAGIC else Swap(MAGIC, 4))
      && Load(r, f[4..8]) == (if r == w then size else Swap(size, 4))
      && Load(r, f[8..12]) == (if r == w then depth else Swap(depth, 4))
    ensures Swap(Swap(size, 4), 4) == size && Swap(Swap(depth, 4), 4) == depth
  {
    hide Load, Store, Swap;
    var f := Header(w, size, depth) + rest;
    MagicRead(r, w, MAGIC);
    MagicRead(r, w, size);
    MagicRead(r, w, depth);
    assert f[0..4] == Store(w, MAGIC, 4) && f[4..8] == Store(w, size, 4) && f[8..12] == Store(w, depth, 4);
  }

  /** The table of the reader's own order shows the right words. */
  lemma TableRead(r: Order, header: seq<byte>, tab: seq<nat>, pool: seq<byte>, i: nat)
    requires Fit32(tab) && i < |tab| && |header| == 12
    ensures var f := header + WordBytes(Little, tab) + WordBytes(Big, tab) + pool;
      var at := 12 + (if r.Little? then 0 else 4 * |tab|);
      at + 4 * i + 4 <= |f| && Load(r, f[at + 4 * i..at + 4 * i + 4]) == tab[i]
  {
    hide Load, WordBytes;
    WordRead(r, tab, i);
    var f := header + WordBytes(Little, tab) + WordBytes(Big, tab) + pool;
    var at := 12 + (if r.Little? then 0 else 4 * |tab|);
    assert f[at..at + 4 * |tab|] == WordBytes(r, tab);
    assert f[at + 4 * i..at + 4 * i + 4] == WordBytes(r, tab)[4 * i..4 * i + 4];
  }

  /** What a host of order r sees in the file. */
  function View(r: Order, file: seq<byte>, size: nat, depth: nat): CatalogInfo {
    var words := 3 * (size * depth);
    CatalogInfo(r, file, size, depth, 12 + (if r.Little? then 0 else 4 * words), 12 + 8 * words)
  }

  lemma ViewShows(r: Order, file: seq<byte>, w: Order, size: nat, depth: nat, tab: seq<nat>, es: seq<Entry>)
    requires Holds(file, w, size, depth, tab, es)
    ensures Shows(View(r, file, size, depth), tab, es) && |file| == 12 + 8 * |tab| + |Pool(es)|
  {
    hide Load, WordBytes, Filled, Depth, Pool, Header, Fit32;
    FilledLength(tab, size, depth, es);
    var info := View(r, file, size, depth);
    assert info.Sane();
    forall i | 0 <= i < |tab| ensures info.NamePtr(i) == tab[i] {
      TableRead(r, Header(w, size, depth), tab, Pool(es), i);
    }
  }

  /** Every offset in the table lies in the pool. */
  lemma OffsetInPool(tab: seq<nat>, size: nat, depth: nat, es: seq<Entry>, p: nat)
    requires Filled(tab, size, depth, es) && p < size * depth && |es| > 0
    ensures 3 * p + 2 < |tab| && tab[3 * p + 2] < |Pool(es)|
  {
    hide Pool, Filled, At;
    FilledLength(tab, size, depth, es);
    SlotByNumber(tab, size, depth, es, p);
    var r, c := p / size, p % size;
    if r < Count(es, size, c) { PoolHolds(es, Nth(es, size, c, r)); } else { PoolHolds(es, 0); }
  }

  lemma PoolEnds(es: seq<Entry>)
    requires |es| > 0
    ensures |Pool(es)| > 0 && Pool(es)[|Pool(es)| - 1] == 0
  {
  }

  /** The decoding part of `__open_catalog`, on a file that gencat has written:
      it is accepted, whichever host wrote it and whichever opens it. */
  method OpenCatalog(r: Order, file: seq<byte>, ghost w: Order, ghost size: nat, ghost depth: nat, ghost tab: seq<nat>, ghost es: seq<Entry>)
    returns (result: Option<CatalogInfo>)
    requires Holds(file, w, size, depth, tab, es) && |es| > 0
    ensures result == Some(View(r, file, size, depth)) && Shows(View(r, file, size, depth), tab, es)
  {
    hide Load, Swap, WordBytes, Filled, Depth, Pool, Header, Fit32, Shows;
    FilledLength(tab, size, depth, es);
    ViewShows(r, file, w, size, depth, tab, es);
    assert file == Header(w, size, depth) + (WordBytes(Little, tab) + WordBytes(Big, tab) + Pool(es));
    HeaderRead(r, w, size, depth, WordBytes(Little, tab) + WordBytes(Big, tab) + Pool(es));
    MagicAsymmetric();

    var magic := Load(r, file[0..4]);
    var swapping;
    if magic == MAGIC { swapping := false; }
    else if magic == Swap(MAGIC, 4) { swapping := true; }
    else { return None; }
    var planeSize, planeDepth := Load(r, file[4..8]), Load(r, file[8..12]);
    if swapping { planeSize, planeDepth := Swap(planeSize, 4), Swap(planeDepth, 4); }
    assert planeSize == size && planeDepth == depth;
    var info := View(r, file, planeSize, planeDepth);
    var ok := CheckStrings(info, tab, es);
    if !ok { return None; }
    result := Some(info);
  }

  /** The largest offset in the table. */
  method MaxOffset(info: CatalogInfo, ghost tab: seq<nat>, ghost es: seq<Entry>) returns (maxOffset: nat)
    requires Shows(info, tab, es) && |es| > 0
    ensures maxOffset < |Pool(es)|
    ensures forall p :: 0 <= p && 3 * p + 2 < |tab| ==> tab[3 * p + 2] <= maxOffset
  {
    hide Filled, Depth, Pool, CatalogInfo.NamePtr;
    FilledLength(tab, info.planeSize, info.planeDepth, es);
    PoolEnds(es);
    maxOffset := 0;
    var cnt := 2;
    ghost var q := 0;
    while cnt < 3 * (info.planeSize * info.planeDepth)
      invariant cnt == 3 * q + 2 && maxOffset < |Pool(es)|
      invariant forall p :: 0 <= p < q ==> 3 * p + 2 < |tab| && tab[3 * p + 2] <= maxOffset
    {
      OffsetInPool(tab, info.planeSize, info.planeDepth, es, q);
      if info.NamePtr(cnt) > maxOffset { maxOffset := info.NamePtr(cnt); }
      cnt := cnt + 3;
      q := q + 1;
    }
  }

  /** The check of the file's size and of the last string; the sizes compared
      count the words of the tables as if they were bytes. */
  method CheckStrings(info: CatalogInfo, ghost tab: seq<nat>, ghost es: seq<Entry>) returns (ok: bool)
    requires Shows(info, tab, es) && |es| > 0 && info.strings == 12 + 8 * |tab|
    ensures ok
  {
    hide Filled, Depth, Pool, CatalogInfo.NamePtr;
    FilledLength(tab, info.planeSize, info.planeDepth, es);
    PoolEnds(es);
    assert |info.file| == info.strings + |Pool(es)|;
    assert info.file[|info.file| - 1] == info.file[info.strings..][|Pool(es)| - 1];
    var tabSize := 3 * (info.planeSize * info.planeDepth);
    var maxOffset := MaxOffset(info, tab, es);
    if |info.file| <= 12 + 2 * tabSize + maxOffset { return false; }
    var lastp := info.strings + maxOffset;
    var limit := |info.file| - 12 + 2 * tabSize + maxOffset;
    while info.file[lastp] != 0
      invariant lastp < |info.file| && limit >= |info.file| - lastp
      decreases |info.file| - lastp
    {
      limit := limit - 1;
      if limit == 0 { return false; }
      lastp := lastp + 1;
    }
    ok := true;
  }

  // ------------------------------------------------------------------- looking up

  predicate IsInt(v: int) { -0x8000_0000 <= v <= 0x7FFF_FFFF }

  lemma ColumnOf(e: Entry, s: nat, m: nat, size: nat)
    requires size > 0 && e.set_ == s && e.number == m
    ensures Column(e, size) == Product(s, m) % size
  {
    assert e.number * e.set_ == s * m;
  }

  /** A match in the column is the entry itself. */
  lemma MatchIsEntry(es: seq<Entry>, size: nat, r: nat, c: nat, s: nat, m: nat)
    requires size > 0 && EntriesOk(es) && KeysDistinct(es) && s > 0
    requires Want(es, size, r, c).set_ == s && Want(es, size, r, c).number == m
    ensures (s, m) in CatalogMap(es) && CatalogMap(es)[(s, m)] == StringAt(Pool(es), Want(es, size, r, c).offset)
  {
    hide Column, Count, Pool, StringAt, CatalogMap, Want, KeysDistinct;
    var i := SlotEntry(es, size, r, c);
    MapHolds(es, i);
    TextStored(es, i);
  }

  /** A message of the catalog is in some row of its column. */
  lemma PresentInColumn(es: seq<Entry>, size: nat, s: nat, m: nat) returns (r: nat)
    requires size > 0 && EntriesOk(es) && KeysDistinct(es) && (s, m) in CatalogMap(es)
    ensures r < Depth(es, size)
    ensures Want(es, size, r, Product(s, m) % size).set_ == s && Want(es, size, r, Product(s, m) % size).number == m
  {
    hide Column, Count, Pool, CatalogMap, Want, Depth;
    MapOnly(es, (s, m));
    var i :| 0 <= i < |es| && (es[i].set_, es[i].number) == (s, m);
    EntrySlot(es, size, i);
    ColumnOf(es[i], s, m, size);
    r := Count(es[..i], size, Column(es[i], size));
  }

  /** `catgets`: None stands for the caller's default string. */
  method Catgets(info: CatalogInfo, set0: int, message: int, ghost tab: seq<nat>, ghost es: seq<Entry>) returns (text: Option<seq<byte>>)
    requires Shows(info, tab, es) && KeysDistinct(es) && IsInt(set0) && IsInt(message)
    ensures text == if (set0 + 1, message) in CatalogMap(es) then Some(CatalogMap(es)[(set0 + 1, message)]) else None
  {
    hide Filled, Depth, CatalogMap, KeysDistinct, Want, At, StringAt, Pool, EntriesOk, CatalogInfo.NamePtr, Product;
    ghost var size, depth := info.planeSize, info.planeDepth;
    FilledLength(tab, size, depth, es);
    var s := Int32(set0 + 1);
    if s <= 0 || message < 0 { NotAKey(es, set0 + 1, message); return None; }
    ghost var c := Product(s, message) % size;
    var idx := Product(s, message) % info.planeSize * 3;
    var cnt := 0;
    ghost var present := (s, message) in CatalogMap(es);
    ghost var row := 0;
    if present { row := PresentInColumn(es, size, s, message); }
    DepthPositive(es, size);
    RowStart(size, c);
    while true
      invariant cnt < depth && idx == 3 * At(size, cnt, c)
      invariant present ==> cnt <= row
      decreases depth - cnt
    {
      SlotMeans(tab, size, depth, es, cnt, c);
      assert SlotAt(tab, At(size, cnt, c)) == Want(es, size, cnt, c);
      if info.NamePtr(idx) == s && info.NamePtr(idx + 1) == message {
        MatchIsEntry(es, size, cnt, c, s, message);
        return Some(info.Text(info.NamePtr(idx + 2)));
      }
      idx := idx + info.planeSize * 3;
      RowNext(size, cnt, c);
      cnt := cnt + 1;
      if cnt >= info.planeDepth { break; }
    }
    text := None;
  }

  lemma NotAKey(es: seq<Entry>, s: int, m: int)
    requires EntriesOk(es) && (Int32(s) <= 0 || m < 0) && -0x8000_0000 < s <= 0x8000_0000
    ensures (s, m) !in CatalogMap(es)
  {
    hide CatalogMap, EntriesOk;
    if (s, m) in CatalogMap(es) {
      MapOnly(es, (s, m));
      var i :| 0 <= i < |es| && (es[i].set_, es[i].number) == (s, m);
      EachOk(es, i);
    }
  }

  lemma DepthPositive(es: seq<Entry>, size: nat)
    requires size > 0
    ensures Depth(es, size) >= 1
  {
  }

  lemma RowStart(size: nat, c: nat)
    ensures At(size, 0, c) == c
  {
  }

  lemma RowNext(size: nat, r: nat, c: nat)
    ensures At(size, r + 1, c) == At(size, r, c) + size
  {
  }

  // ------------------------------------------------------------------ round trip

  /** Written on one host, opened on another, and asked for any message: the
      stored text if there is one, the default if not; exactly if the messages
      have a plane. */
  method RoundTrip(w: Order, r: Order, sets: seq<MessageSet>, messages: nat, set0: int, message: int) returns (ok: bool, text: Option<seq<byte>>)
    requires SetsOk(sets) && EntriesOk(Entries(sets)) && |Entries(sets)| > 0
    requires |Pool(Entries(sets))| <= INT_MAX
    requires IsInt(set0) && IsInt(message)
    ensures ok <==> HasPlane(Entries(sets), messages)
    ensures ok ==> text == var m := CatalogMap(Entries(sets));
      if (set0 + 1, message) in m then Some(m[(set0 + 1, message)]) else None
  {
    hide SetsOk, EntriesOk, Entries, Pool, HasPlane, Holds, Shows, KeysDistinct, CatalogMap;
    ghost var es := Entries(sets);
    EntriesDistinct(sets);
    var written := WriteOut(w, sets, messages);
    if written.None? { return false, None; }
    var file := written.value;
    ghost var size, depth, tab :| Holds(file, w, size, depth, tab, es);
    var catalog := OpenCatalog(r, file, w, size, depth, tab, es);
    text := Catgets(catalog.value, set0, message, tab, es);
    ok := true;
  }

  lemma {:induction false} EntrySet(sets: seq<MessageSet>, i: nat)
    requires i < |Entries(sets)|
    ensures exists j, k :: 0 <= j < |sets| && 0 <= k < |sets[j].messages| && Entries(sets)[i] == EntriesOf(sets[j])[k]
  {
    var init, last := sets[..|sets| - 1], sets[|sets| - 1];
    if i < |Entries(init)| {
      EntrySet(init, i);
      var j, k :| 0 <= j < |init| && 0 <= k < |init[j].messages| && Entries(init)[i] == EntriesOf(init[j])[k];
      assert sets[j] == init[j];
    } else {
      assert Entries(sets)[i] == EntriesOf(last)[i - |Entries(init)|];
    }
  }

  /** Sets with distinct numbers and ascending messages have distinct keys. */
  lemma {:induction false} EntriesDistinct(sets: seq<MessageSet>)
    requires SetsOk(sets)
    ensures KeysDistinct(Entries(sets))
  {
    if |sets| > 0 {
      var init, last := sets[..|sets| - 1], sets[|sets| - 1];
      EntriesDistinct(init);
      var es, n := Entries(sets), |Entries(init)|;
      forall i, j | 0 <= i < j < |es| ensures es[i].set_ != es[j].set_ || es[i].number != es[j].number {
        if j < n { assert Entries(init)[i] == es[i] && Entries(init)[j] == es[j]; }
        else if i < n {
          EntrySet(init, i);
          assert Entries(init)[i] == es[i] && EntriesOf(last)[j - n] == es[j];
        } else {
          assert EntriesOf(last)[i - n] == es[i] && EntriesOf(last)[j - n] == es[j];
          assert last.messages[i - n].number < last.messages[j - n].number;
        }
      }
    }
  }
}
