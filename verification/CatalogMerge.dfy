/** Merging an old catalog file into the lists (catgets/gencat.c, `read_old`). */
module CatalogMerge {
  import opened Basics
  import opened ByteOrder
  import opened CatalogLists
  import opened CatalogPlane
  import opened CatalogTable
  import opened CatalogFile
  import opened CatalogRead

  type Key = (int, int)

  /** New messages override old ones, and a new empty message deletes the old. */
  ghost function Merge(newer: map<Key, seq<byte>>, older: map<Key, seq<byte>>): map<Key, seq<byte>> {
    map k | k in newer.Keys + older.Keys && !(k in newer && k in older && newer[k] == []) ::
      if k in newer then newer[k] else older[k]
  }

  lemma MergeOne(newer: map<Key, seq<byte>>, older: map<Key, seq<byte>>, k: Key, t: seq<byte>)
    requires k !in older
    ensures Merge(newer, older[k := t]) ==
      if k !in newer then Merge(newer, older)[k := t]
      else if newer[k] == [] then Merge(newer, older) - {k} else Merge(newer, older)
    ensures k in Merge(newer, older) <==> k in newer
    ensures k in newer ==> Merge(newer, older)[k] == newer[k]
  {
    var more := older[k := t];
    var want := if k !in newer then Merge(newer, older)[k := t]
                else if newer[k] == [] then Merge(newer, older) - {k} else Merge(newer, older);
    assert Merge(newer, more).Keys == want.Keys;
  }

  // --------------------------------------------------------- lists and maps

  ghost predicate HasKey(sets: seq<MessageSet>, k: Key) {
    exists i, j :: 0 <= i < |sets| && 0 <= j < |sets[i].messages|
      && sets[i].number == k.0 && sets[i].messages[j].number == k.1
  }

  /** The lists hold exactly the messages of a map. */
  ghost predicate Represents(sets: seq<MessageSet>, m: map<Key, seq<byte>>) {
    && (forall k :: k in m ==> HasKey(sets, k))
    && forall i, j :: 0 <= i < |sets| && 0 <= j < |sets[i].messages| ==>
         && (sets[i].number, sets[i].messages[j].number) in m
         && m[(sets[i].number, sets[i].messages[j].number)] == sets[i].messages[j].text
  }

  lemma {:induction false} MessageIndex(sets: seq<MessageSet>, i: nat, j: nat) returns (n: nat)
    requires i < |sets| && j < |sets[i].messages|
    ensures n < |Entries(sets)| && Entries(sets)[n] == EntriesOf(sets[i])[j]
  {
    EntriesPrefix(sets, i);
    n := |Entries(sets[..i])| + j;
    assert Entries(sets)[n] == (Entries(sets[..i]) + EntriesOf(sets[i]))[n];
  }

  /** The map of the flattened lists. */
  lemma RepresentsEntries(sets: seq<MessageSet>)
    requires SetsOk(sets)
    ensures Represents(sets, CatalogMap(Entries(sets)))
  {
    hide CatalogMap, Entries, SetsOk, KeysDistinct;
    var m := CatalogMap(Entries(sets));
    EntriesDistinct(sets);
    forall k | k in m ensures HasKey(sets, k) {
      MapOnly(Entries(sets), k);
      var n :| 0 <= n < |Entries(sets)| && (Entries(sets)[n].set_, Entries(sets)[n].number) == k;
      EntrySet(sets, n);
    }
    forall i, j | 0 <= i < |sets| && 0 <= j < |sets[i].messages|
      ensures (sets[i].number, sets[i].messages[j].number) in m
      ensures m[(sets[i].number, sets[i].messages[j].number)] == sets[i].messages[j].text
    {
      var n := MessageIndex(sets, i, j);
      MapHolds(Entries(sets), n);
    }
  }

  /** Lists represent one map only. */
  lemma RepresentsOne(sets: seq<MessageSet>, m: map<Key, seq<byte>>)
    requires SetsOk(sets) && Represents(sets, m)
    ensures CatalogMap(Entries(sets)) == m
  {
    hide CatalogMap, SetsOk;
    var c := CatalogMap(Entries(sets));
    RepresentsEntries(sets);
    forall k ensures k in c <==> k in m
    {
      if k in c { assert HasKey(sets, k); }
      if k in m { assert HasKey(sets, k); }
    }
    forall k | k in m ensures c[k] == m[k] { assert HasKey(sets, k); }
  }

  /** A new empty set changes no message. */
  lemma RepresentsFront(sets: seq<MessageSet>, s: MessageSet, m: map<Key, seq<byte>>)
    requires Represents(sets, m) && s.messages == []
    ensures Represents([s] + sets, m)
  {
    var more := [s] + sets;
    forall k | k in m ensures HasKey(more, k) {
      assert HasKey(sets, k);
      var i, j :| 0 <= i < |sets| && 0 <= j < |sets[i].messages| && sets[i].number == k.0 && sets[i].messages[j].number == k.1;
      assert more[i + 1] == sets[i];
    }
    forall i, j | 0 <= i < |more| && 0 <= j < |more[i].messages|
      ensures (more[i].number, more[i].messages[j].number) in m
      ensures m[(more[i].number, more[i].messages[j].number)] == more[i].messages[j].text
    {
      assert more[i] == sets[i - 1];
    }
  }

  // ---------------------------------------------------------- the parts read so far

  function OldSlot(es: seq<Entry>, size: nat, p: nat): Slot
    requires size > 0 && EntriesOk(es)
  {
    Want(es, size, Quotient(p, size), p % size)
  }

  /** The messages in the first p slots of the old table. */
  ghost function OldPart(es: seq<Entry>, size: nat, p: nat): map<Key, seq<byte>>
    requires size > 0 && EntriesOk(es)
  {
    if p == 0 then map[]
    else
      var s := OldSlot(es, size, p - 1);
      var before := OldPart(es, size, p - 1);
      if s.set_ == 0 then before else before[(s.set_, s.number) := StringAt(Pool(es), s.offset)]
  }

  lemma {:induction false} OldPartKeys(es: seq<Entry>, size: nat, p: nat, k: Key)
    requires size > 0 && EntriesOk(es) && k in OldPart(es, size, p)
    ensures exists q :: 0 <= q < p && OldSlot(es, size, q).set_ != 0
              && k == (OldSlot(es, size, q).set_, OldSlot(es, size, q).number)
  {
    hide OldSlot, StringAt, Pool;
    if k in OldPart(es, size, p - 1) {
      OldPartKeys(es, size, p - 1, k);
    } else {
      assert k == (OldSlot(es, size, p - 1).set_, OldSlot(es, size, p - 1).number);
    }
  }

  /** Two slots with the same key are one. */
  lemma SlotsDistinct(es: seq<Entry>, size: nat, p: nat, q: nat)
    requires size > 0 && EntriesOk(es) && KeysDistinct(es)
    requires OldSlot(es, size, p).set_ != 0 && OldSlot(es, size, p).set_ == OldSlot(es, size, q).set_
    requires OldSlot(es, size, p).number == OldSlot(es, size, q).number
    ensures p == q
  {
    hide Column, Count, Pool;
    var i := Nth(es, size, p % size, Quotient(p, size));
    var j := Nth(es, size, q % size, Quotient(q, size));
    assert i == j;
    Rejoin(p, size);
    Rejoin(q, size);
  }

  lemma Rejoin(p: nat, size: nat)
    requires size > 0
    ensures p == size * Quotient(p, size) + p % size && 0 <= p % size < size
  {
  }

  lemma OldPartFresh(es: seq<Entry>, size: nat, p: nat)
    requires size > 0 && EntriesOk(es) && KeysDistinct(es) && OldSlot(es, size, p).set_ != 0
    ensures (OldSlot(es, size, p).set_, OldSlot(es, size, p).number) !in OldPart(es, size, p)
  {
    hide OldSlot, OldPart, KeysDistinct;
    var k := (OldSlot(es, size, p).set_, OldSlot(es, size, p).number);
    if k in OldPart(es, size, p) {
      OldPartKeys(es, size, p, k);
      var q :| 0 <= q < p && OldSlot(es, size, q).set_ != 0 && k == (OldSlot(es, size, q).set_, OldSlot(es, size, q).number);
      SlotsDistinct(es, size, p, q);
    }
  }

  lemma {:induction false} OldPartHas(es: seq<Entry>, size: nat, p: nat, q: nat)
    requires size > 0 && EntriesOk(es) && KeysDistinct(es) && q < p && OldSlot(es, size, q).set_ != 0
    ensures var s := OldSlot(es, size, q);
      (s.set_, s.number) in OldPart(es, size, p) && OldPart(es, size, p)[(s.set_, s.number)] == StringAt(Pool(es), s.offset)
  {
    hide OldSlot, StringAt, Pool, KeysDistinct;
    if q < p - 1 {
      OldPartHas(es, size, p - 1, q);
      if OldSlot(es, size, p - 1).set_ != 0 { OldPartFresh(es, size, p - 1); }
    }
  }

  /** All slots together are the old catalog. */
  lemma OldPartAll(es: seq<Entry>, size: nat, depth: nat)
    requires size > 0 && EntriesOk(es) && KeysDistinct(es) && depth == Depth(es, size)
    ensures OldPart(es, size, size * depth) == CatalogMap(es)
  {
    hide OldPart, CatalogMap, KeysDistinct, Depth, StringAt, Pool;
    var part, m := OldPart(es, size, size * depth), CatalogMap(es);
    forall k | k in part ensures k in m && m[k] == part[k] {
      OldPartKeys(es, size, size * depth, k);
      var q :| 0 <= q < size * depth && OldSlot(es, size, q).set_ != 0 && k == (OldSlot(es, size, q).set_, OldSlot(es, size, q).number);
      OldPartHas(es, size, size * depth, q);
      MatchIsEntry(es, size, Quotient(q, size), q % size, k.0, k.1);
    }
    forall k | k in m ensures k in part {
      MapOnly(es, k);
      var i :| 0 <= i < |es| && (es[i].set_, es[i].number) == k;
      EachOk(es, i);
      var r := PresentInColumn(es, size, k.0, k.1);
      var c := Product(k.0, k.1) % size;
      AtBound(size, depth, r, c);
      AtSplit(size, r, c);
      OldPartHas(es, size, size * depth, At(size, r, c));
    }
  }

  lemma AtSplit(size: nat, r: nat, c: nat)
    requires c < size
    ensures Quotient(At(size, r, c), size) == r && At(size, r, c) % size == c
  {
    DivUnique(At(size, r, c), size, r, c);
  }

  // ------------------------------------------------------------------ one message

  /** Place of a number in a list: before the first that is not smaller. */
  method Locate(ms: seq<Message>, n: int) returns (at: nat)
    requires ListOk(ms)
    ensures at <= |ms| && (at < |ms| ==> ms[at].number >= n)
    ensures forall j :: 0 <= j < at ==> ms[j].number < n
    ensures (at < |ms| && ms[at].number == n) <==> HasNumber(ms, n)
  {
    at := 0;
    while at < |ms| && ms[at].number < n
      invariant at <= |ms| && forall j :: 0 <= j < at ==> ms[j].number < n
    {
      at := at + 1;
    }
    assert forall j :: at < j < |ms| ==> ms[at].number < ms[j].number;
  }

  /** One list replaced. */
  lemma Replaced(sets: seq<MessageSet>, at: nat, ms: seq<Message>)
    requires SetsOk(sets) && at < |sets| && ListOk(ms)
    ensures SetsOk(WithList(sets, at, ms))
  {
  }

  lemma HasKeyAt(sets: seq<MessageSet>, at: nat, n: int)
    requires SetsOk(sets) && at < |sets|
    ensures HasKey(sets, (sets[at].number, n)) <==> HasNumber(sets[at].messages, n)
  {
    if HasNumber(sets[at].messages, n) {
      var j :| 0 <= j < |sets[at].messages| && sets[at].messages[j].number == n;
    }
  }

  function WithList(sets: seq<MessageSet>, at: nat, ms: seq<Message>): (r: seq<MessageSet>)
    requires at < |sets|
    ensures |r| == |sets| && r[at] == sets[at].(messages := ms)
    ensures forall i :: 0 <= i < |sets| && i != at ==> r[i] == sets[i]
  {
    sets[at := sets[at].(messages := ms)]
  }

  /** A key whose message is still in its list. */
  lemma KeyStays(sets: seq<MessageSet>, at: nat, r: seq<Message>, x: Key)
    requires at < |sets| && HasKey(sets, x)
    requires x.0 == sets[at].number && HasNumber(sets[at].messages, x.1) ==> HasNumber(r, x.1)
    ensures HasKey(WithList(sets, at, r), x)
  {
    var next := WithList(sets, at, r);
    var i, j :| 0 <= i < |sets| && 0 <= j < |sets[i].messages| && sets[i].number == x.0 && sets[i].messages[j].number == x.1;
    if i == at {
      assert HasNumber(sets[at].messages, x.1);
      var j' :| 0 <= j' < |r| && r[j'].number == x.1;
      assert next[at].messages[j'].number == x.1;
    } else {
      assert next[i] == sets[i];
    }
  }

  /** Lists that hold the messages of a map after one of them has changed. */
  lemma ListReplaced(sets: seq<MessageSet>, at: nat, r: seq<Message>, m: map<Key, seq<byte>>, m': map<Key, seq<byte>>, key: Key)
    requires at < |sets| && SetsOk(sets) && Represents(sets, m) && key.0 == sets[at].number
    requires forall x :: x != key ==> (x in m <==> x in m') && (x in m ==> m[x] == m'[x])
    requires forall n :: HasNumber(sets[at].messages, n) && n != key.1 ==> HasNumber(r, n)
    requires key in m' ==> HasNumber(r, key.1)
    requires forall j :: 0 <= j < |r| ==> (key.0, r[j].number) in m' && m'[(key.0, r[j].number)] == r[j].text
    ensures Represents(WithList(sets, at, r), m')
  {
    var next := WithList(sets, at, r);
    forall x | x in m' ensures HasKey(next, x) {
      if x == key { var j :| 0 <= j < |r| && r[j].number == key.1; assert next[at].messages[j].number == x.1; }
      else { KeyStays(sets, at, r, x); }
    }
    forall i, j | 0 <= i < |next| && 0 <= j < |next[i].messages|
      ensures (next[i].number, next[i].messages[j].number) in m'
      ensures m'[(next[i].number, next[i].messages[j].number)] == next[i].messages[j].text
    {
      if i != at { assert sets[i].number != sets[at].number; }
    }
  }

  lemma ListTexts(sets: seq<MessageSet>, at: nat, m: map<Key, seq<byte>>, j: nat)
    requires at < |sets| && Represents(sets, m) && j < |sets[at].messages|
    ensures (sets[at].number, sets[at].messages[j].number) in m
    ensures m[(sets[at].number, sets[at].messages[j].number)] == sets[at].messages[j].text
  {
  }

  /** Inserting a message that was not there. */
  lemma InsertedMap(sets: seq<MessageSet>, at: nat, k: nat, msg: Message, m: map<Key, seq<byte>>)
    requires SetsOk(sets) && Represents(sets, m) && at < |sets| && k <= |sets[at].messages|
    requires (sets[at].number, msg.number) !in m
    ensures Represents(WithList(sets, at, sets[at].messages[..k] + [msg] + sets[at].messages[k..]),
                       m[(sets[at].number, msg.number) := msg.text])
  {
    hide SetsOk, Represents;
    var ms := sets[at].messages;
    var r := ms[..k] + [msg] + ms[k..];
    var key: Key := (sets[at].number, msg.number);
    assert r[k] == msg;
    forall n | HasNumber(ms, n) ensures HasNumber(r, n) {
      var j :| 0 <= j < |ms| && ms[j].number == n;
      assert r[if j < k then j else j + 1] == ms[j];
    }
    forall j | 0 <= j < |r|
      ensures (key.0, r[j].number) in m[key := msg.text] && m[key := msg.text][(key.0, r[j].number)] == r[j].text
    {
      if j != k {
        var j' := if j < k then j else j - 1;
        assert r[j] == ms[j'];
        ListTexts(sets, at, m, j');
      }
    }
    ListReplaced(sets, at, r, m, m[key := msg.text], key);
  }

  /** Removing a message. */
  lemma RemovedMap(sets: seq<MessageSet>, at: nat, k: nat, m: map<Key, seq<byte>>)
    requires SetsOk(sets) && Represents(sets, m) && at < |sets| && k < |sets[at].messages|
    ensures Represents(WithList(sets, at, sets[at].messages[..k] + sets[at].messages[k + 1..]),
                       m - {(sets[at].number, sets[at].messages[k].number)})
  {
    hide SetsOk, Represents;
    SetList(sets, at);
    var ms := sets[at].messages;
    var r := ms[..k] + ms[k + 1..];
    var key: Key := (sets[at].number, ms[k].number);
    forall n | HasNumber(ms, n) && n != key.1 ensures HasNumber(r, n) {
      var j :| 0 <= j < |ms| && ms[j].number == n;
      assert r[if j < k then j else j - 1] == ms[j];
    }
    forall j | 0 <= j < |r|
      ensures (key.0, r[j].number) in m - {key} && (m - {key})[(key.0, r[j].number)] == r[j].text
    {
      var j' := if j < k then j else j + 1;
      assert r[j] == ms[j'];
      ListTexts(sets, at, m, j');
      assert if j' < k then ms[j'].number < ms[k].number else ms[k].number < ms[j'].number;
    }
    ListReplaced(sets, at, r, m, m - {key}, key);
  }

  lemma RemovedOk(ms: seq<Message>, k: nat)
    requires ListOk(ms) && k < |ms|
    ensures ListOk(ms[..k] + ms[k + 1..])
  {
    var r := ms[..k] + ms[k + 1..];
    forall i, j | 0 <= i < j < |r| ensures r[i].number < r[j].number {
      assert r[i] == ms[if i < k then i else i + 1] && r[j] == ms[if j < k then j else j + 1];
    }
  }

  /** One old message: inserted, left to the new one, or deleted by it. */
  method MergeMessage(sets: seq<MessageSet>, at: nat, n: nat, text: seq<byte>, ghost newer: map<Key, seq<byte>>, ghost older: map<Key, seq<byte>>)
    returns (r: seq<MessageSet>, added: nat)
    requires SetsOk(sets) && at < |sets| && n >= 1
    requires Represents(sets, Merge(newer, older)) && (sets[at].number, n) !in older
    ensures SetsOk(r) && |r| == |sets| && r[at].number == sets[at].number
    ensures added == if (sets[at].number, n) in newer then 0 else 1
    ensures Represents(r, Merge(newer, older[(sets[at].number, n) := text]))
  {
    hide Merge, SetsOk, ListOk, Represents;
    ghost var key: Key := (sets[at].number, n);
    MergeOne(newer, older, key, text);
    KeyMeans(sets, at, n, Merge(newer, older));
    SetList(sets, at);
    var ms := sets[at].messages;
    var k := Locate(ms, n);
    r, added := sets, 0;
    if k == |ms| || ms[k].number > n {
      var msg := Message(n, text, None);
      OrderedSplice(ms, k, msg);
      InsertedMap(sets, at, k, msg, Merge(newer, older));
      Replaced(sets, at, ms[..k] + [msg] + ms[k..]);
      r, added := WithList(sets, at, ms[..k] + [msg] + ms[k..]), 1;
    } else {
      TextMeans(sets, at, k, Merge(newer, older));
      if ms[k].text == [] {
        RemovedMap(sets, at, k, Merge(newer, older));
        RemovedOk(ms, k);
        Replaced(sets, at, ms[..k] + ms[k + 1..]);
        r := WithList(sets, at, ms[..k] + ms[k + 1..]);
      }
    }
  }

  lemma OrderedSplice(ms: seq<Message>, k: nat, m: Message)
    requires ListOk(ms) && k <= |ms| && m.number >= 1 && !HasNumber(ms, m.number)
    requires (forall j :: 0 <= j < k ==> ms[j].number < m.number) && (k < |ms| ==> ms[k].number > m.number)
    ensures ListOk(ms[..k] + [m] + ms[k..])
  {
    Spliced(ms, k, m);
  }

  lemma SetList(sets: seq<MessageSet>, at: nat)
    requires SetsOk(sets) && at < |sets|
    ensures ListOk(sets[at].messages) && sets[at].number >= 1
  {
  }

  lemma KeyMeans(sets: seq<MessageSet>, at: nat, n: int, m: map<Key, seq<byte>>)
    requires SetsOk(sets) && at < |sets| && Represents(sets, m)
    ensures (sets[at].number, n) in m <==> HasNumber(sets[at].messages, n)
  {
    HasKeyAt(sets, at, n);
    if HasNumber(sets[at].messages, n) {
      var j :| 0 <= j < |sets[at].messages| && sets[at].messages[j].number == n;
    }
  }

  lemma TextMeans(sets: seq<MessageSet>, at: nat, k: nat, m: map<Key, seq<byte>>)
    requires at < |sets| && k < |sets[at].messages| && Represents(sets, m)
    ensures (sets[at].number, sets[at].messages[k].number) in m
    ensures m[(sets[at].number, sets[at].messages[k].number)] == sets[at].messages[k].text
  {
  }

  // ---------------------------------------------------------------- the whole file

  /** Fetch the set of an old message, unless it is the one used last. */
  method UseSet(sets: seq<MessageSet>, set0: nat, lastSet: int, wanted: nat, ghost m: map<Key, seq<byte>>)
    returns (r: seq<MessageSet>, at: nat)
    requires SetsOk(sets) && Represents(sets, m) && wanted >= 1
    requires lastSet >= 0 ==> set0 < |sets| && sets[set0].number == lastSet + 1
    ensures SetsOk(r) && Represents(r, m) && at < |r| && r[at].number == wanted
  {
    hide SetsOk, Represents;
    r, at := sets, set0;
    if wanted - 1 != lastSet {
      r, at := FindSet(sets, wanted - 1);
      if r != sets { RepresentsFront(sets, MessageSet(wanted, [], 0), m); }
    }
  }

  /** `read_old`: the lists after the merge, still in order. */
  method ReadOld(info: CatalogInfo, sets: seq<MessageSet>, total: nat, ghost tab: seq<nat>, ghost es: seq<Entry>)
    returns (r: seq<MessageSet>, total': nat)
    requires Shows(info, tab, es) && KeysDistinct(es) && SetsOk(sets)
    ensures SetsOk(r) && total' == total + |CatalogMap(es).Keys - CatalogMap(Entries(sets)).Keys|
    ensures CatalogMap(Entries(r)) == Merge(CatalogMap(Entries(sets)), CatalogMap(es))
  {
    hide SetsOk, Merge, Represents, Filled, Depth, Pool, StringAt, KeysDistinct, CatalogMap, Entries, OldSlot, EntriesOk, CatalogInfo.NamePtr, Shows, Added, OldPart;
    ghost var newer := CatalogMap(Entries(sets));
    ghost var size, depth := info.planeSize, info.planeDepth;
    ShowsMeans(info, tab, es);
    r, total' := sets, total;
    RepresentsEntries(sets);
    MergeNothing(newer);
    OldPartNothing(es, size);
    AddedStart(es, size, newer);
    var at: nat, lastSet: int := 0, -1;
    for cnt := 0 to info.planeSize * info.planeDepth
      invariant SetsOk(r) && Represents(r, Merge(newer, OldPart(es, size, cnt)))
      invariant total' == total + Added(es, size, cnt, newer)
      invariant lastSet >= -1 && (lastSet >= 0 ==> at < |r| && r[at].number == lastSet + 1)
    {
      ShowsSlot(info, tab, es, cnt);
      ghost var slot := OldSlot(es, size, cnt);
      var s, n := info.NamePtr(cnt * 3), info.NamePtr(cnt * 3 + 1);
      if s != 0 {
        var text := info.Text(info.NamePtr(cnt * 3 + 2));
        OldPartFresh(es, size, cnt);
        r, at := UseSet(r, at, lastSet, s, Merge(newer, OldPart(es, size, cnt)));
        lastSet := s - 1;
        var added;
        r, added := MergeMessage(r, at, n, text, newer, OldPart(es, size, cnt));
        total' := total' + added;
      }
      OldPartStep(es, size, cnt);
      CountStep(es, size, cnt, newer);
    }
    OldPartAll(es, size, depth);
    AddedMeans(es, size, size * depth, newer);
    RepresentsOne(r, Merge(newer, CatalogMap(es)));
  }

  /** Old messages without a new counterpart in the first p slots. */
  ghost function Added(es: seq<Entry>, size: nat, p: nat, newer: map<Key, seq<byte>>): nat
    requires size > 0 && EntriesOk(es)
  {
    |OldPart(es, size, p).Keys - newer.Keys|
  }

  lemma CountStep(es: seq<Entry>, size: nat, p: nat, newer: map<Key, seq<byte>>)
    requires size > 0 && EntriesOk(es) && KeysDistinct(es)
    ensures var s := OldSlot(es, size, p);
      Added(es, size, p + 1, newer) == Added(es, size, p, newer) + (if s.set_ == 0 || (s.set_, s.number) in newer then 0 else 1)
  {
    hide OldPart, OldSlot, KeysDistinct, EntriesOk, StringAt, Pool;
    OldPartStep(es, size, p);
    var s := OldSlot(es, size, p);
    if s.set_ != 0 {
      var k: Key := (s.set_, s.number);
      OldPartFresh(es, size, p);
      assert OldPart(es, size, p + 1).Keys == OldPart(es, size, p).Keys + {k};
      CountNewKey(OldPart(es, size, p).Keys, newer.Keys, k);
    }
  }

  lemma AddedMeans(es: seq<Entry>, size: nat, p: nat, newer: map<Key, seq<byte>>)
    requires size > 0 && EntriesOk(es)
    ensures Added(es, size, p, newer) == |OldPart(es, size, p).Keys - newer.Keys|
  {
  }

  lemma AddedStart(es: seq<Entry>, size: nat, newer: map<Key, seq<byte>>)
    requires size > 0 && EntriesOk(es)
    ensures Added(es, size, 0, newer) == 0
  {
  }

  lemma CountNewKey(older: set<Key>, newer: set<Key>, k: Key)
    requires k !in older
    ensures |older + {k} - newer| == |older - newer| + (if k in newer then 0 else 1)
  {
    if k in newer { assert older + {k} - newer == older - newer; }
    else { assert older + {k} - newer == (older - newer) + {k}; }
  }

  lemma MergeNothing(m: map<Key, seq<byte>>)
    ensures Merge(m, map[]) == m
  {
  }

  lemma OldPartNothing(es: seq<Entry>, size: nat)
    requires size > 0 && EntriesOk(es)
    ensures OldPart(es, size, 0) == map[]
  {
  }

  lemma OldPartStep(es: seq<Entry>, size: nat, p: nat)
    requires size > 0 && EntriesOk(es)
    ensures var s := OldSlot(es, size, p);
      OldPart(es, size, p + 1) == if s.set_ == 0 then OldPart(es, size, p)
        else OldPart(es, size, p)[(s.set_, s.number) := StringAt(Pool(es), s.offset)]
  {
  }

  lemma ShowsMeans(info: CatalogInfo, tab: seq<nat>, es: seq<Entry>)
    requires Shows(info, tab, es)
    ensures info.planeSize > 0 && EntriesOk(es) && info.Sane() && info.planeDepth == Depth(es, info.planeSize)
    ensures |tab| == 3 * (info.planeSize * info.planeDepth)
  {
    FilledLength(tab, info.planeSize, info.planeDepth, es);
  }

  /** What the words of a slot say. */
  lemma ShowsSlot(info: CatalogInfo, tab: seq<nat>, es: seq<Entry>, p: nat)
    requires Shows(info, tab, es) && p < info.planeSize * info.planeDepth
    ensures info.planeSize > 0 && EntriesOk(es) && info.Sane()
    ensures var s := OldSlot(es, info.planeSize, p);
      && info.NamePtr(p * 3) == s.set_ && info.NamePtr(p * 3 + 1) == s.number && info.NamePtr(p * 3 + 2) == s.offset
      && info.Text(s.offset) == StringAt(Pool(es), s.offset) && (s.set_ != 0 ==> s.number >= 1)
  {
    hide Filled, Pool, StringAt, CatalogInfo.NamePtr, Depth;
    ShowsMeans(info, tab, es);
    SlotByNumber(tab, info.planeSize, info.planeDepth, es, p);
    var r, c := p / info.planeSize, p % info.planeSize;
    if r < Count(es, info.planeSize, c) { EachOk(es, Nth(es, info.planeSize, c, r)); }
  }

  /** Reading a file that gencat wrote from some lists into an empty catalog
      gives the same messages, on whatever host. */
  method ReadBack(w: Order, r: Order, sets: seq<MessageSet>, messages: nat) returns (ok: bool, again: seq<MessageSet>)
    requires SetsOk(sets) && EntriesOk(Entries(sets)) && |Entries(sets)| > 0
    requires |Pool(Entries(sets))| <= INT_MAX
    ensures ok <==> HasPlane(Entries(sets), messages)
    ensures ok ==> SetsOk(again) && CatalogMap(Entries(again)) == CatalogMap(Entries(sets))
  {
    hide SetsOk, EntriesOk, Entries, Pool, HasPlane, Holds, Shows, KeysDistinct, CatalogMap, Merge;
    ghost var es := Entries(sets);
    EntriesDistinct(sets);
    var written := WriteOut(w, sets, messages);
    if written.None? { return false, []; }
    var file := written.value;
    ghost var size, depth, tab :| Holds(file, w, size, depth, tab, es);
    var catalog := OpenCatalog(r, file, w, size, depth, tab, es);
    var total;
    NoSets();
    again, total := ReadOld(catalog.value, [], 0, tab, es);
    MergeIntoNothing(CatalogMap(es));
    ok := true;
  }

  lemma NoSets()
    ensures SetsOk([]) && CatalogMap(Entries([])) == map[]
  {
  }

  lemma MergeIntoNothing(m: map<Key, seq<byte>>)
    ensures Merge(map[], m) == m
  {
  }
}
