/** The whole way of a message: input lines, an old catalog file, the new file,
    and `catgets` on it (catgets/gencat.c, catgets/open_catalog.c,
    catgets/catgets.c). */
module Gencat {
  import opened Basics
  import opened ByteOrder
  import opened CatalogLists
  import opened CatalogPlane
  import opened CatalogTable
  import opened CatalogFile
  import opened CatalogRead
  import opened CatalogMerge

  // --------------------------------------------------------- maps of messages

  /** Numbers are ints and texts are C strings. */
  ghost predicate MapOk(m: map<Key, seq<byte>>) {
    forall k :: k in m ==> 1 <= k.0 <= INT_MAX && 1 <= k.1 <= INT_MAX && 0 !in m[k]
  }

  lemma MapEntries(es: seq<Entry>)
    requires KeysDistinct(es) && MapOk(CatalogMap(es))
    ensures EntriesOk(es)
  {
    hide CatalogMap, KeysDistinct;
    forall i | 0 <= i < |es| ensures EntryOk(es[i]) { MapHolds(es, i); }
  }

  lemma EntriesMap(es: seq<Entry>)
    requires KeysDistinct(es) && EntriesOk(es)
    ensures MapOk(CatalogMap(es))
  {
    hide CatalogMap, KeysDistinct;
    forall k | k in CatalogMap(es)
      ensures 1 <= k.0 <= INT_MAX && 1 <= k.1 <= INT_MAX && 0 !in CatalogMap(es)[k]
    {
      MapOnly(es, k);
      var i :| 0 <= i < |es| && (es[i].set_, es[i].number) == k;
      MapHolds(es, i);
      EachOk(es, i);
    }
  }

  /** The bytes that the texts of a map take in a pool. */
  ghost function Weight(m: map<Key, seq<byte>>): nat {
    if m == map[] then 0 else var k :| k in m; |m[k]| + 1 + Weight(m - {k})
  }

  lemma {:induction false} WeightSplit(m: map<Key, seq<byte>>, k: Key)
    requires k in m
    ensures Weight(m) == |m[k]| + 1 + Weight(m - {k})
    decreases |m|
  {
    var c :| c in m && Weight(m) == |m[c]| + 1 + Weight(m - {c});
    if c != k {
      WeightSplit(m - {c}, k);
      WeightSplit(m - {k}, c);
      assert m - {c} - {k} == m - {k} - {c};
    }
  }

  /** A new key: its text is added, and nothing else. */
  lemma FreshKey(es: seq<Entry>)
    requires |es| > 0 && KeysDistinct(es)
    ensures var init, e := es[..|es| - 1], es[|es| - 1];
      && KeysDistinct(init) && (e.set_, e.number) !in CatalogMap(init)
      && CatalogMap(es) == CatalogMap(init)[(e.set_, e.number) := e.text]
      && CatalogMap(es) - {(e.set_, e.number)} == CatalogMap(init)
  {
    var init, e := es[..|es| - 1], es[|es| - 1];
    if (e.set_, e.number) in CatalogMap(init) { MapOnly(init, (e.set_, e.number)); }
  }

  lemma {:induction false} PoolWeight(es: seq<Entry>)
    requires KeysDistinct(es)
    ensures |Pool(es)| == Weight(CatalogMap(es)) && |CatalogMap(es)| == |es|
  {
    hide KeysDistinct, CatalogMap;
    if |es| == 0 {
      EmptyMap();
    } else {
      var init, e := es[..|es| - 1], es[|es| - 1];
      FreshKey(es);
      PoolWeight(init);
      WeightSplit(CatalogMap(es), (e.set_, e.number));
    }
  }

  lemma EmptyMap()
    ensures CatalogMap([]) == map[]
  {
  }

  lemma MergeOk(newer: map<Key, seq<byte>>, older: map<Key, seq<byte>>)
    requires MapOk(newer) && MapOk(older)
    ensures MapOk(Merge(newer, older))
  {
  }

  lemma MergeCount(newer: map<Key, seq<byte>>, older: map<Key, seq<byte>>)
    ensures |Merge(newer, older)| <= |newer| + |older.Keys - newer.Keys|
  {
    var m := Merge(newer, older);
    assert m.Keys <= newer.Keys + (older.Keys - newer.Keys);
    Subset(m.Keys, newer.Keys + (older.Keys - newer.Keys));
  }

  lemma {:induction false} Subset(a: set<Key>, b: set<Key>)
    requires a <= b
    ensures |a| <= |b|
  {
    if a != {} {
      var k :| k in a;
      Subset(a - {k}, b - {k});
    }
  }

  // ------------------------------------------------------------ lists and states

  lemma {:induction false} SumAppend(a: seq<MessageSet>, s: MessageSet)
    ensures MessageSum(a + [s]) == MessageSum(a) + |s.messages|
  {
    if |a| > 0 {
      SumAppend(a[1..], s);
      assert (a + [s])[1..] == a[1..] + [s];
    } else {
      assert (a + [s])[1..] == [];
    }
  }

  lemma {:induction false} EntriesSum(sets: seq<MessageSet>)
    ensures |Entries(sets)| == MessageSum(sets)
  {
    if |sets| > 0 {
      var init := sets[..|sets| - 1];
      EntriesSum(init);
      SumAppend(init, sets[|sets| - 1]);
      assert init + [sets[|sets| - 1]] == sets;
    }
  }

  /** The lists of a catalog that is being read hold the messages that the lines
      mean. */
  lemma ListsHoldTexts(sets: seq<MessageSet>, st: CatalogLines.State)
    requires SetsOk(sets) && st.sets == SetStates(sets)
    ensures CatalogMap(Entries(sets)) == CatalogLines.Texts(st)
  {
    hide CatalogMap, Entries, SetStates, Contents;
    var m := CatalogLines.Texts(st);
    SetStatesMean(sets);
    forall k | k in m ensures HasKey(sets, k) {
      var i :| 0 <= i < |sets| && sets[i].number == k.0;
      SetList(sets, i);
      var j := ContentsIndex(sets[i].messages, k.1);
    }
    forall i, j | 0 <= i < |sets| && 0 <= j < |sets[i].messages|
      ensures (sets[i].number, sets[i].messages[j].number) in m
      ensures m[(sets[i].number, sets[i].messages[j].number)] == sets[i].messages[j].text
    {
      SetList(sets, i);
      ContentsAt(sets[i].messages, j);
    }
    RepresentsOne(sets, m);
  }

  // -------------------------------------------------------------------- gencat

  /** What a catalog is to hold after lines were read and an old one merged in. */
  ghost function Updated(lines: seq<CatalogLines.Line>, older: map<Key, seq<byte>>): map<Key, seq<byte>> {
    Merge(CatalogLines.Texts(CatalogLines.AfterLines(CatalogLines.START, lines)), older)
  }

  /** How many messages are then counted: the lines, and what the old one adds. */
  ghost function Counted(lines: seq<CatalogLines.Line>, older: map<Key, seq<byte>>): nat {
    var st := CatalogLines.AfterLines(CatalogLines.START, lines);
    st.counted + |older.Keys - CatalogLines.Texts(st).Keys|
  }

  /** Lines are read and an old file is merged in. */
  method Build(w: Order, lines: seq<CatalogLines.Line>, old_: Option<seq<byte>>, ghost w0: Order, ghost oldEntries: seq<Entry>)
    returns (sets: seq<MessageSet>, total: nat)
    requires if old_.Some? then IsCatalog(old_.value, w0, oldEntries) && KeysDistinct(oldEntries) && oldEntries != [] else oldEntries == []
    requires MapOk(CatalogLines.Texts(CatalogLines.AfterLines(CatalogLines.START, lines)))
    ensures SetsOk(sets) && CatalogMap(Entries(sets)) == Updated(lines, CatalogMap(oldEntries))
    ensures total == Counted(lines, CatalogMap(oldEntries)) && |CatalogMap(Entries(sets))| <= total
    ensures MapOk(CatalogMap(Entries(sets)))
  {
    hide SetsOk, EntriesOk, Entries, Holds, KeysDistinct, CatalogMap, Merge, MapOk, CatalogLines.Texts, CatalogLines.AfterLines, SetStates, MessageSum, SetOk;
    var catalog := new Catalog();
    catalog.ReadLines(lines);
    sets, total := catalog.sets, catalog.total;
    ghost var st := CatalogLines.AfterLines(CatalogLines.START, lines);
    ghost var newer, older := CatalogLines.Texts(st), CatalogMap(oldEntries);
    ListsOk(sets);
    ListsHoldTexts(sets, st);
    CountsEnough(sets, total);
    if old_.Some? {
      ghost var size, depth, tab :| Holds(old_.value, w0, size, depth, tab, oldEntries);
      OldOk(old_.value, w0, size, depth, tab, oldEntries);
      var info := OpenCatalog(w, old_.value, w0, size, depth, tab, oldEntries);
      sets, total := ReadOld(info.value, sets, total, tab, oldEntries);
    } else {
      MergeNothing(newer);
      EmptyMap();
      NoOldOk();
      assert {} - newer.Keys == {};
    }
    MergeOk(newer, older);
    MergeCount(newer, older);
  }

  /** Lines are read, an old file is merged in, a new file is written on a host of
      order w and opened on one of order r: a message is found exactly if it is in
      the merge of what the lines mean with what the old file holds. That fails
      exactly if the merged messages have no plane, which takes more than 146540
      counted messages. */
  method Update(w: Order, r: Order, lines: seq<CatalogLines.Line>, old_: Option<seq<byte>>, ghost w0: Order, ghost oldEntries: seq<Entry>,
                set0: int, message: int)
    returns (ok: bool, text: Option<seq<byte>>, ghost merged: seq<Entry>)
    requires if old_.Some? then IsCatalog(old_.value, w0, oldEntries) && KeysDistinct(oldEntries) && oldEntries != [] else oldEntries == []
    requires MapOk(CatalogLines.Texts(CatalogLines.AfterLines(CatalogLines.START, lines)))
    requires var m := Updated(lines, CatalogMap(oldEntries)); m != map[] && Weight(m) <= INT_MAX
    requires IsInt(set0) && IsInt(message)
    ensures KeysDistinct(merged) && CatalogMap(merged) == Updated(lines, CatalogMap(oldEntries))
    ensures ok <==> HasPlane(merged, Counted(lines, CatalogMap(oldEntries)))
    ensures Counted(lines, CatalogMap(oldEntries)) <= ALWAYS_FITS ==> ok
    ensures var m := Updated(lines, CatalogMap(oldEntries));
      ok ==> text == if (set0 + 1, message) in m then Some(m[(set0 + 1, message)]) else None
    ensures ok ==> forall t ::
      CatalogLines.Meant(lines, set0 + 1, CatalogLines.ByNumber(message), t) ==>
      t != [] || (set0 + 1, message) !in CatalogMap(oldEntries) ==> text == Some(t)
  {
    hide SetsOk, EntriesOk, Entries, Pool, HasPlane, KeysDistinct, CatalogMap, MapOk, Weight, Updated, Counted, IsCatalog, CatalogLines.Texts, CatalogLines.AfterLines, CatalogLines.Meant;
    var sets, total := Build(w, lines, old_, w0, oldEntries);
    merged := Entries(sets);
    EntriesDistinct(sets);
    MapEntries(merged);
    PoolWeight(merged);
    EmptyMap();
    if total <= ALWAYS_FITS { AlwaysFits(merged, total); }
    ok, text := RoundTrip(w, r, sets, total, set0, message);
    LinesFirst(lines, CatalogMap(oldEntries), set0 + 1, message);
  }

  /** The text that the lines have for a number is that of the updated catalog,
      except that an empty one deletes. */
  lemma LinesFirst(lines: seq<CatalogLines.Line>, older: map<Key, seq<byte>>, s: int, n: int)
    ensures forall t :: CatalogLines.Meant(lines, s, CatalogLines.ByNumber(n), t) && (t != [] || (s, n) !in older) ==>
      (s, n) in Updated(lines, older) && Updated(lines, older)[(s, n)] == t
  {
    hide CatalogLines.Meant, CatalogLines.Texts, CatalogLines.AfterLines;
    CatalogLines.TextsMean(lines);
  }

  /** Lists in order as the input keeps them are lists in order as the output
      needs them. */
  lemma ListsOk(sets: seq<MessageSet>)
    requires NumbersDistinct(sets) && forall i :: 0 <= i < |sets| ==> sets[i].number >= 1 && SetOk(sets[i])
    ensures SetsOk(sets)
  {
  }

  lemma CountsEnough(sets: seq<MessageSet>, total: nat)
    requires SetsOk(sets) && total >= MessageSum(sets)
    ensures |CatalogMap(Entries(sets))| <= total
  {
    hide CatalogMap, MessageSum;
    EntriesSum(sets);
    EntriesDistinct(sets);
    PoolWeight(Entries(sets));
  }

  lemma OldOk(file: seq<byte>, w0: Order, size: nat, depth: nat, tab: seq<nat>, es: seq<Entry>)
    requires Holds(file, w0, size, depth, tab, es) && KeysDistinct(es)
    ensures MapOk(CatalogMap(es))
  {
    hide CatalogMap, MapOk;
    FilledLength(tab, size, depth, es);
    EntriesMap(es);
  }

  lemma NoOldOk()
    ensures MapOk(map[])
  {
  }
}
