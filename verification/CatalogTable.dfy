/** Filling the plane, and looking a message up in it (catgets/gencat.c,
    `write_out`, and catgets/catgets.c). */
module CatalogTable {
  import opened Basics
  import opened ByteOrder
  import opened CatalogLists
  import opened CatalogPlane

  // -------------------------------------------------------------- the contents

  /** The string pool: every text with a final zero. */
  function Pool(es: seq<Entry>): seq<byte> {
    if |es| == 0 then [] else Pool(es[..|es| - 1]) + es[|es| - 1].text + [0]
  }

  /** Three words of the table: set, message, offset of the text. */
  datatype Slot = Slot(set_: nat, number: nat, offset: nat)

  predicate EntryOk(e: Entry) {
    1 <= e.set_ <= 0x7FFF_FFFF && 1 <= e.number <= 0x7FFF_FFFF && 0 !in e.text
  }

  predicate EntriesOk(es: seq<Entry>) { forall i :: 0 <= i < |es| ==> EntryOk(es[i]) }

  predicate KeysDistinct(es: seq<Entry>) {
    forall i, j :: 0 <= i < j < |es| ==> es[i].set_ != es[j].set_ || es[i].number != es[j].number
  }

  function SlotOf(es: seq<Entry>, i: nat): Slot
    requires EntriesOk(es) && i < |es|
  {
    Slot(es[i].set_, es[i].number, |Pool(es[..i])|)
  }

  /** Which entry is number r in column c. */
  function Nth(es: seq<Entry>, size: nat, c: nat, r: nat): (i: nat)
    requires size > 0 && r < Count(es, size, c)
    ensures i < |es| && Column(es[i], size) == c && Count(es[..i], size, c) == r
  {
    var init := es[..|es| - 1];
    if r < Count(init, size, c) then
      var i := Nth(init, size, c, r);
      assert es[..i] == init[..i];
      i
    else |es| - 1
  }

  /** The wanted contents of the slot in row r of column c. */
  function Want(es: seq<Entry>, size: nat, r: nat, c: nat): Slot
    requires size > 0 && EntriesOk(es)
  {
    if r < Count(es, size, c) then SlotOf(es, Nth(es, size, c, r)) else Slot(0, 0, 0)
  }

  /** The number of a slot. */
  function At(size: nat, r: nat, c: nat): nat { r * size + c }

  lemma AtBound(size: nat, depth: nat, r: nat, c: nat)
    requires r < depth && c < size
    ensures At(size, r, c) < size * depth
  {
    MulMonotone(r + 1, depth, size);
  }

  lemma AtDistinct(size: nat, r: nat, c: nat, r': nat, c': nat)
    requires c < size && c' < size && At(size, r, c) == At(size, r', c')
    ensures r == r' && c == c'
  {
    DivUnique(At(size, r, c), size, r, c);
    DivUnique(At(size, r', c'), size, r', c');
  }

  function SlotAt(words: seq<nat>, p: nat): Slot
    requires 3 * p + 2 < |words|
  {
    Slot(words[3 * p], words[3 * p + 1], words[3 * p + 2])
  }

  function Stored(words: seq<nat>, p: nat, s: Slot): (r: seq<nat>)
    requires 3 * p + 2 < |words|
    ensures |r| == |words| && SlotAt(r, p) == s
    ensures forall q :: 0 <= q && 3 * q + 2 < |words| && q != p ==> SlotAt(r, q) == SlotAt(words, q)
  {
    words[..3 * p] + [s.set_, s.number, s.offset] + words[3 * p + 3..]
  }

  /** The table holds the entries, column by column in their order, and zeros
      elsewhere. */
  ghost predicate Filled(words: seq<nat>, size: nat, depth: nat, es: seq<Entry>) {
    && size > 0 && EntriesOk(es) && |words| == 3 * (size * depth)
    && forall r, c {:trigger At(size, r, c)} :: 0 <= r < depth && 0 <= c < size ==>
         && At(size, r, c) < size * depth && SlotAt(words, At(size, r, c)) == Want(es, size, r, c)
  }

  // ------------------------------------------------------------------- filling

  lemma FilledEmpty(words: seq<nat>, size: nat, depth: nat)
    requires size > 0 && |words| == 3 * (size * depth) && forall i :: 0 <= i < |words| ==> words[i] == 0
    ensures Filled(words, size, depth, [])
  {
    forall r, c | 0 <= r < depth && 0 <= c < size
      ensures At(size, r, c) < size * depth && SlotAt(words, At(size, r, c)) == Want([], size, r, c)
    {
      AtBound(size, depth, r, c);
    }
  }

  /** One more entry changes what is wanted in one slot only. */
  lemma WantMore(es: seq<Entry>, e: Entry, size: nat, r: nat, c: nat)
    requires size > 0 && EntriesOk(es) && EntryOk(e)
    ensures EntriesOk(es + [e])
    ensures Want(es + [e], size, r, c)
         == if c == Column(e, size) && r == Count(es, size, c) then Slot(e.set_, e.number, |Pool(es)|) else Want(es, size, r, c)
  {
    hide Column;
    var more := es + [e];
    assert more[..|es|] == es;
    CountOne(es, e, size, c);
    if r < Count(es, size, c) {
      var i := Nth(es, size, c, r);
      assert more[..i] == es[..i];
    }
  }

  lemma FilledMore(words: seq<nat>, words': seq<nat>, size: nat, depth: nat, es: seq<Entry>, e: Entry)
    requires Filled(words, size, depth, es) && EntryOk(e) && |words'| == |words|
    requires Count(es, size, Column(e, size)) < depth
    requires var p := At(size, Count(es, size, Column(e, size)), Column(e, size));
      p < size * depth && words' == Stored(words, p, Slot(e.set_, e.number, |Pool(es)|))
    ensures Filled(words', size, depth, es + [e])
  {
    hide Column, Count, Want, At, Pool, EntriesOk;
    var c0 := Column(e, size);
    var r0 := Count(es, size, c0);
    var p := At(size, r0, c0);
    WantMore(es, e, size, r0, c0);
    forall r, c | 0 <= r < depth && 0 <= c < size
      ensures At(size, r, c) < size * depth && SlotAt(words', At(size, r, c)) == Want(es + [e], size, r, c)
    {
      WantMore(es, e, size, r, c);
      assert SlotAt(words, At(size, r, c)) == Want(es, size, r, c);
      if r == r0 && c == c0 { assert At(size, r, c) == p; }
      else { if At(size, r, c) == p { AtDistinct(size, r, c, r0, c0); } }
    }
  }

  /** An occupied slot has a set number. */
  lemma WantOccupied(es: seq<Entry>, size: nat, r: nat, c: nat)
    requires size > 0 && EntriesOk(es)
    ensures Want(es, size, r, c).set_ == 0 <==> r >= Count(es, size, c)
  {
    if r < Count(es, size, c) { var i := Nth(es, size, c, r); assert EntryOk(es[i]); }
  }

  lemma AtBeyond(size: nat, depth: nat, r: nat, c: nat)
    requires r >= depth
    ensures At(size, r, c) >= size * depth
  {
    MulMonotone(depth, r, size);
  }

  /** The collision probe: down the column to the first free slot. It finds one
      exactly if the column is not full; the source goes on behind the table if
      it is, and the model stops there. */
  method Probe(array1: array<nat>, size: nat, depth: nat, ghost es: seq<Entry>, c: nat) returns (found: Option<nat>)
    requires Filled(array1[..], size, depth, es) && c < size
    ensures found == if Count(es, size, c) < depth then Some(3 * At(size, Count(es, size, c), c)) else None
  {
    hide Count, Want, Pool, EntriesOk;
    var idx := c * 3;
    ghost var r := 0;
    assert At(size, 0, c) == c;
    while idx < array1.Length && array1[idx] != 0
      invariant r <= Count(es, size, c) && idx == 3 * At(size, r, c) && r <= depth
      decreases depth - r
    {
      InTable(size, depth, r, c);
      SlotMeans(array1[..], size, depth, es, r, c);
      r := r + 1;
      assert At(size, r, c) == At(size, r - 1, c) + size;
      idx := idx + size * 3;
    }
    InTable(size, depth, r, c);
    if idx >= array1.Length { return None; }
    SlotMeans(array1[..], size, depth, es, r, c);
    found := Some(idx);
  }

  lemma InTable(size: nat, depth: nat, r: nat, c: nat)
    requires c < size
    ensures At(size, r, c) < size * depth <==> r < depth
  {
    if r < depth { AtBound(size, depth, r, c); } else { AtBeyond(size, depth, r, c); }
  }

  lemma SlotMeans(words: seq<nat>, size: nat, depth: nat, es: seq<Entry>, r: nat, c: nat)
    requires Filled(words, size, depth, es) && r < depth && c < size
    ensures At(size, r, c) < size * depth && SlotAt(words, At(size, r, c)) == Want(es, size, r, c)
    ensures words[3 * At(size, r, c)] == 0 <==> r >= Count(es, size, c)
  {
    hide At, Want, Count;
    assert SlotAt(words, At(size, r, c)) == Want(es, size, r, c);
    WantOccupied(es, size, r, c);
  }

  /** One message: find the slot, store three words, and add the text. */
  method StoreEntry(array1: array<nat>, size: nat, depth: nat, ghost es: seq<Entry>, e: Entry, pool: seq<byte>)
    returns (ok: bool, pool': seq<byte>)
    requires Filled(array1[..], size, depth, es) && EntryOk(e) && pool == Pool(es)
    modifies array1
    ensures ok <==> Count(es, size, Column(e, size)) < depth
    ensures ok ==> Filled(array1[..], size, depth, es + [e]) && pool' == Pool(es + [e])
  {
    hide Column, Count, Want, At, Filled, EntriesOk;
    ghost var was := array1[..];
    FilledLength(was, size, depth, es);
    var c := Column(e, size);
    var found := Probe(array1, size, depth, es, c);
    if found.None? { return false, pool; }
    SlotMeans(was, size, depth, es, Count(es, size, c), c);
    var idx := found.value;
    var s: nat, n: nat := e.set_, e.number;
    array1[idx] := s;
    array1[idx + 1] := n;
    array1[idx + 2] := |pool|;
    ghost var p := At(size, Count(es, size, c), c);
    assert array1[..] == Stored(was, p, Slot(s, n, |Pool(es)|));
    FilledMore(was, array1[..], size, depth, es, e);
    ok, pool' := true, pool + e.text + [0];
    assert (es + [e])[..|es|] == es;
  }

  lemma FilledLength(words: seq<nat>, size: nat, depth: nat, es: seq<Entry>)
    requires Filled(words, size, depth, es)
    ensures size > 0 && EntriesOk(es) && |words| == 3 * (size * depth)
  {
  }

  /** An entry whose column is full when its turn comes makes the plane too
      shallow, and only such an entry does. */
  lemma RoomLeft(all: seq<Entry>, i: nat, size: nat)
    requires size > 0 && i < |all|
    ensures Count(all[..i], size, Column(all[i], size)) < Depth(all, size)
  {
    hide Column, Depth, Count;
    var c := Column(all[i], size);
    CountOne(all[..i], all[i], size, c);
    Grows(all[..i] + [all[i]], all[i + 1..], size);
    assert all[..i] + [all[i]] + all[i + 1..] == all;
    DepthIsMaximum(all, size);
  }

  /** The loops over sets and messages that fill the table. They stay inside it
      exactly if the plane is deep enough for the fullest column. */
  method FillTable(sets: seq<MessageSet>, size: nat, depth: nat) returns (ok: bool, words: seq<nat>, pool: seq<byte>)
    requires size > 0 && depth > 0 && EntriesOk(Entries(sets))
    ensures ok <==> Depth(Entries(sets), size) <= depth
    ensures ok ==> Filled(words, size, depth, Entries(sets)) && pool == Pool(Entries(sets))
  {
    hide Column, Depth, Count, Want, At, Filled, EntriesOk, Pool;
    ghost var all := Entries(sets);
    var array1 := new nat[3 * (size * depth)](_ => 0);
    ok, words, pool := true, [], [];
    FilledEmpty(array1[..], size, depth);
    PoolEmpty();
    EmptyPlane(size);
    ghost var done := 0;
    assert all[..0] == [];
    for i := 0 to |sets|
      invariant done == |Entries(sets[..i])| && Entries(sets[..i]) <= all && Depth(all[..done], size) <= depth
      invariant Filled(array1[..], size, depth, all[..done]) && pool == Pool(all[..done])
    {
      EntriesPrefix(sets, i);
      ghost var base := done;
      for m := 0 to |sets[i].messages|
        invariant done == base + m && Depth(all[..done], size) <= depth
        invariant Filled(array1[..], size, depth, all[..done]) && pool == Pool(all[..done])
      {
        ghost var now := all[..done];
        var e := Entry(sets[i].number, sets[i].messages[m].number, sets[i].messages[m].text);
        assert e == EntriesOf(sets[i])[m] == all[done];
        RoomLeft(all, done, size);
        DepthOne(now, e, size);
        EachOk(all, done);
        ok, pool := StoreEntry(array1, size, depth, now, e, pool);
        if !ok { return; }
        done := done + 1;
        assert now + [e] == all[..done];
      }
    }
    assert sets[..|sets|] == sets;
    assert all[..done] == all;
    words := array1[..];
  }

  lemma PoolEmpty()
    ensures Pool([]) == []
  {
  }

  lemma EachOk(es: seq<Entry>, i: nat)
    requires EntriesOk(es) && i < |es|
    ensures EntryOk(es[i])
  {
  }

  lemma {:induction false} EntriesPrefix(sets: seq<MessageSet>, i: nat)
    requires i < |sets|
    ensures Entries(sets[..i + 1]) == Entries(sets[..i]) + EntriesOf(sets[i]) <= Entries(sets)
    decreases |sets| - i
  {
    assert sets[..i + 1][..i] == sets[..i];
    if i + 1 < |sets| { EntriesPrefix(sets, i + 1); } else { assert sets[..i + 1] == sets; }
  }

  // -------------------------------------------------------------------- looking up

  /** The catalog as a finite map. */
  ghost function CatalogMap(es: seq<Entry>): map<(int, int), seq<byte>> {
    if |es| == 0 then map[] else CatalogMap(es[..|es| - 1])[(es[|es| - 1].set_, es[|es| - 1].number) := es[|es| - 1].text]
  }

  lemma {:induction false} MapHolds(es: seq<Entry>, i: nat)
    requires KeysDistinct(es) && i < |es|
    ensures (es[i].set_, es[i].number) in CatalogMap(es) && CatalogMap(es)[(es[i].set_, es[i].number)] == es[i].text
  {
    if i < |es| - 1 { MapHolds(es[..|es| - 1], i); }
  }

  lemma {:induction false} MapOnly(es: seq<Entry>, k: (int, int))
    requires k in CatalogMap(es)
    ensures exists i :: 0 <= i < |es| && (es[i].set_, es[i].number) == k
  {
    var init := es[..|es| - 1];
    if k in CatalogMap(init) {
      MapOnly(init, k);
      var i :| 0 <= i < |init| && (init[i].set_, init[i].number) == k;
      assert es[i] == init[i];
    }
  }

  /** The C string that starts at an offset. */
  function StringAt(pool: seq<byte>, o: nat): seq<byte>
    decreases |pool| - o
  {
    if o >= |pool| || pool[o] == 0 then [] else [pool[o]] + StringAt(pool, o + 1)
  }

  lemma {:induction false} StringEnds(pool: seq<byte>, o: nat, text: seq<byte>)
    requires o + |text| < |pool| && 0 !in text && pool[o..o + |text|] == text && pool[o + |text|] == 0
    ensures StringAt(pool, o) == text
    decreases |text|
  {
    if |text| > 0 {
      assert pool[o] == text[0] && pool[o + 1..o + |text|] == text[1..];
      StringEnds(pool, o + 1, text[1..]);
    }
  }

  lemma {:induction false} PoolHolds(es: seq<Entry>, i: nat)
    requires i < |es|
    ensures var o := |Pool(es[..i])|;
      && o + |es[i].text| < |Pool(es)| && Pool(es)[o..o + |es[i].text|] == es[i].text
      && Pool(es)[o + |es[i].text|] == 0
  {
    var init := es[..|es| - 1];
    if i < |init| {
      assert init[..i] == es[..i];
      PoolHolds(init, i);
    }
  }

  /** What is stored at an entry's offset. */
  lemma TextStored(es: seq<Entry>, i: nat)
    requires EntriesOk(es) && i < |es|
    ensures StringAt(Pool(es), |Pool(es[..i])|) == es[i].text
  {
    hide Pool, StringAt;
    PoolHolds(es, i);
    EachOk(es, i);
    StringEnds(Pool(es), |Pool(es[..i])|, es[i].text);
  }

  /** An occupied slot belongs to an entry of its column. */
  lemma SlotEntry(es: seq<Entry>, size: nat, r: nat, c: nat) returns (i: nat)
    requires size > 0 && EntriesOk(es) && Want(es, size, r, c).set_ != 0
    ensures i < |es| && Want(es, size, r, c) == SlotOf(es, i)
  {
    i := Nth(es, size, c, r);
  }

  /** Every entry has a slot in its column. */
  lemma EntrySlot(es: seq<Entry>, size: nat, i: nat)
    requires size > 0 && EntriesOk(es) && KeysDistinct(es) && i < |es|
    ensures Count(es[..i], size, Column(es[i], size)) < Count(es, size, Column(es[i], size)) <= Depth(es, size)
    ensures Want(es, size, Count(es[..i], size, Column(es[i], size)), Column(es[i], size)) == SlotOf(es, i)
  {
    hide Column;
    var c := Column(es[i], size);
    CountOne(es[..i], es[i], size, c);
    assert es[..i] + [es[i]] == es[..i + 1] && es[..i + 1] + es[i + 1..] == es;
    Grows(es[..i + 1], es[i + 1..], size);
    DepthIsMaximum(es, size);
    var j := Nth(es, size, c, Count(es[..i], size, c));
    SameRank(es, size, c, i, j);
  }

  lemma SameRank(es: seq<Entry>, size: nat, c: nat, i: nat, j: nat)
    requires size > 0 && i < |es| && j < |es| && Column(es[i], size) == Column(es[j], size) == c
    requires Count(es[..i], size, c) == Count(es[..j], size, c)
    ensures i == j
  {
    hide Column, Count;
    if i < j { RankGrows(es, size, c, i, j); }
    if j < i { RankGrows(es, size, c, j, i); }
  }

  lemma RankGrows(es: seq<Entry>, size: nat, c: nat, i: nat, j: nat)
    requires size > 0 && i < j < |es| && Column(es[i], size) == c < size
    ensures Count(es[..i], size, c) < Count(es[..j], size, c)
  {
    hide Column, Count;
    CountOne(es[..i], es[i], size, c);
    assert es[..i] + [es[i]] == es[..i + 1] && es[..i + 1] + es[i + 1..j] == es[..j];
    Grows(es[..i + 1], es[i + 1..j], size);
  }
}
