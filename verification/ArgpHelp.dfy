/** The help list ("hol") and its own reckoning of which short options are
    shadowed (argp/argp-help.c: `make_hol`, `hol_append`, `argp_hol`,
    `hol_entry_short_iterate`). */
module ArgpHelp {
  import opened ArgpTree
  import opened ArgpOptions
  import opened ArgpTables

  // ------------------------------------------------------------------ declarations

  /** A short option: where it is declared, and its key. */
  datatype Decl = Decl(path: Path, index: nat, key: int)

  /** The short options among entries i up to n of a table. */
  function DeclsOf(path: Path, opts: seq<ArgpOption>, i: nat, n: nat): seq<Decl>
    requires i <= n <= |opts|
    decreases n - i
  {
    if i == n then []
    else DeclsOf(path, opts, i, n - 1) + (if IsShort(opts[n - 1]) then [Decl(path, n - 1, opts[n - 1].key)] else [])
  }

  /** The short options of a tree, parents first. */
  function TreeDecls(a: Argp, path: Path): seq<Decl> {
    DeclsOf(path, Table(a), 0, |Table(a)|) + ListDecls(a.children, path)
  }

  function ListDecls(cs: seq<Argp>, path: Path): seq<Decl> {
    if |cs| == 0 then [] else ListDecls(cs[..|cs| - 1], path) + TreeDecls(cs[|cs| - 1], path + [|cs| - 1])
  }

  function Keys(ds: seq<Decl>): (k: seq<int>)
    ensures |k| == |ds| && forall i :: 0 <= i < |ds| ==> k[i] == ds[i].key
  {
    seq(|ds|, i requires 0 <= i < |ds| => ds[i].key)
  }

  /** The declarations whose key has not been used before. */
  function Unshadowed(ds: seq<Decl>): seq<Decl> {
    if |ds| == 0 then []
    else
      var before := Unshadowed(ds[..|ds| - 1]);
      if ds[|ds| - 1].key in Keys(before) then before else before + [ds[|ds| - 1]]
  }

  lemma UnshadowedOne(ds: seq<Decl>, d: Decl)
    ensures Unshadowed(ds + [d]) == if d.key in Keys(Unshadowed(ds)) then Unshadowed(ds) else Unshadowed(ds) + [d]
  {
    assert (ds + [d])[..|ds|] == ds;
  }

  lemma {:induction false} UnshadowedKeys(ds: seq<Decl>, c: int)
    ensures c in Keys(Unshadowed(ds)) <==> c in Keys(ds)
  {
    if |ds| > 0 {
      var init, last := ds[..|ds| - 1], ds[|ds| - 1];
      UnshadowedKeys(init, c);
      assert Keys(ds) == Keys(init) + [last.key];
      assert Keys(Unshadowed(init) + [last]) == Keys(Unshadowed(init)) + [last.key];
    }
  }

  lemma {:induction false} UnshadowedDistinct(ds: seq<Decl>)
    ensures forall i, j :: 0 <= i < j < |Unshadowed(ds)| ==> Unshadowed(ds)[i].key != Unshadowed(ds)[j].key
  {
    if |ds| > 0 {
      var init, last := ds[..|ds| - 1], ds[|ds| - 1];
      UnshadowedDistinct(init);
      var u := Unshadowed(init);
      if last.key !in Keys(u) { assert forall i :: 0 <= i < |u| ==> Keys(u)[i] != last.key; }
    }
  }

  lemma {:induction false} UnshadowedPrefix(a: seq<Decl>, b: seq<Decl>)
    ensures Unshadowed(a) <= Unshadowed(a + b)
  {
    if |b| == 0 { assert a + b == a; }
    else {
      UnshadowedPrefix(a, b[..|b| - 1]);
      assert (a + b)[..|a + b| - 1] == a + b[..|b| - 1];
    }
  }

  // ------------------------------------------------------------------- the list

  /** A real option with its aliases: `num` entries of a table from `first` on,
      and where their letters start in the list's short options. */
  datatype HolEntry = HolEntry(path: Path, opts: seq<ArgpOption>, first: nat, num: nat, so: nat)

  datatype Hol = Hol(entries: seq<HolEntry>, short: seq<int>)

  predicate EntryOk(e: HolEntry) { e.first + e.num <= |e.opts| && Grouped(e.opts, e.first, e.first + e.num) }

  /** An option that is no alias, and aliases behind it. */
  predicate Grouped(opts: seq<ArgpOption>, first: nat, end: nat)
    requires end <= |opts|
  {
    forall i :: first <= i < end ==> (opts[i].isAlias <==> i > first)
  }

  function EntryDecls(e: HolEntry): seq<Decl>
    requires EntryOk(e)
  {
    DeclsOf(e.path, e.opts, e.first, e.first + e.num)
  }

  predicate EntriesOk(es: seq<HolEntry>) { forall i :: 0 <= i < |es| ==> EntryOk(es[i]) }

  function EntriesDecls(es: seq<HolEntry>): seq<Decl>
    requires EntriesOk(es)
  {
    if |es| == 0 then [] else EntriesDecls(es[..|es| - 1]) + EntryDecls(es[|es| - 1])
  }

  /** The list shows the given declarations: its letters are the unshadowed keys,
      and each entry points at its own. */
  ghost predicate Lists(h: Hol, ds: seq<Decl>) {
    && EntriesOk(h.entries) && EntriesDecls(h.entries) == ds && h.short == Keys(Unshadowed(ds))
    && forall i :: 0 <= i < |h.entries| ==> h.entries[i].so == |Unshadowed(EntriesDecls(h.entries[..i]))|
  }

  /** The letter at a position, or the final zero. */
  function CharAt(s: seq<int>, i: nat): int { if i < |s| then s[i] else 0 }

  /** Whether the option at hand is the one whose letter comes next: it is
      exactly if its key has not been used before. */
  lemma NextLetter(all: seq<Decl>, done: seq<Decl>, d: Decl, rest: seq<Decl>)
    requires all == done + [d] + rest && d.key != 0
    ensures CharAt(Keys(Unshadowed(all)), |Unshadowed(done)|) == d.key <==> d.key !in Keys(Unshadowed(done))
    ensures |Unshadowed(done + [d])| == |Unshadowed(done)| + (if d.key in Keys(Unshadowed(done)) then 0 else 1)
  {
    hide Unshadowed;
    UnshadowedOne(done, d);
    UnshadowedPrefix(done + [d], rest);
    UnshadowedDistinct(all);
    var u, v := Unshadowed(done), Unshadowed(all);
    assert Unshadowed(done + [d]) <= v;
    if d.key in Keys(u) {
      var i :| 0 <= i < |u| && Keys(u)[i] == d.key;
      assert v[i] == u[i];
    } else {
      assert v[|u|] == d;
    }
  }

  // --------------------------------------------------------------------- make_hol

  /** `find_char` */
  method FindChar(ch: int, s: seq<int>) returns (found: bool)
    ensures found == (ch in s)
  {
    var i := 0;
    while i < |s|
      invariant i <= |s| && ch !in s[..i]
    {
      if s[i] == ch { return true; }
      i := i + 1;
    }
    found := false;
  }

  lemma DeclsStep(path: Path, opts: seq<ArgpOption>, i: nat, n: nat)
    requires i <= n < |opts|
    ensures DeclsOf(path, opts, i, n + 1) == DeclsOf(path, opts, i, n) + (if IsShort(opts[n]) then [Decl(path, n, opts[n].key)] else [])
  {
  }

  lemma {:induction false} DeclsSplit(path: Path, opts: seq<ArgpOption>, i: nat, m: nat, n: nat)
    requires i <= m <= n <= |opts|
    ensures DeclsOf(path, opts, i, n) == DeclsOf(path, opts, i, m) + DeclsOf(path, opts, m, n)
    decreases n
  {
    if m < n { DeclsSplit(path, opts, i, m, n - 1); }
  }

  /** One more option behind those seen so far. */
  method AddLetter(short: seq<int>, o: ArgpOption, ghost ds: seq<Decl>, ghost d: Decl) returns (r: seq<int>)
    requires short == Keys(Unshadowed(ds)) && d.key == o.key
    ensures r == Keys(Unshadowed(if IsShort(o) then ds + [d] else ds))
  {
    r := short;
    if IsShort(o) {
      UnshadowedOne(ds, d);
      var found := FindChar(o.key, short);
      if !found { r := r + [o.key]; }
      assert !found ==> Keys(Unshadowed(ds) + [d]) == short + [d.key];
    }
  }

  /** One entry: an option and the aliases behind it. */
  method MakeEntry(path: Path, opts: seq<ArgpOption>, first: nat, short: seq<int>, ghost before: seq<Decl>) returns (e: HolEntry, r: seq<int>)
    requires first < |opts| && !opts[first].isAlias && short == Keys(Unshadowed(before))
    ensures EntryOk(e) && e.path == path && e.opts == opts && e.first == first && e.num > 0 && e.so == |short|
    ensures first + e.num < |opts| ==> !opts[first + e.num].isAlias
    ensures r == Keys(Unshadowed(before + DeclsOf(path, opts, first, first + e.num)))
  {
    hide Unshadowed;
    var o := first;
    r := short;
    assert before + DeclsOf(path, opts, first, first) == before;
    while true
      invariant first <= o < |opts| && Grouped(opts, first, o) && (opts[o].isAlias <==> o > first)
      invariant r == Keys(Unshadowed(before + DeclsOf(path, opts, first, o)))
      decreases |opts| - o
    {
      ghost var ds := before + DeclsOf(path, opts, first, o);
      ghost var d := Decl(path, o, opts[o].key);
      DeclsStep(path, opts, first, o);
      assert before + DeclsOf(path, opts, first, o + 1) == if IsShort(opts[o]) then ds + [d] else ds;
      r := AddLetter(r, opts[o], ds, d);
      o := o + 1;
      if o >= |opts| || !opts[o].isAlias { break; }
    }
    e := HolEntry(path, opts, first, o - first, |short|);
  }

  /** `make_hol`; the first entry of a table must not be an alias. */
  method MakeHol(a: Argp, path: Path) returns (h: Hol)
    requires |Table(a)| > 0 ==> !Table(a)[0].isAlias
    ensures Lists(h, DeclsOf(path, Table(a), 0, |Table(a)|)) && (|h.entries| == 0 <==> |Table(a)| == 0)
  {
    hide Unshadowed, DeclsOf;
    var opts := Table(a);
    h := Hol([], []);
    ListsNothing(path, opts);
    var o := 0;
    while o < |opts|
      invariant o <= |opts| && (o < |opts| ==> !opts[o].isAlias)
      invariant Lists(h, DeclsOf(path, opts, 0, o)) && (|h.entries| == 0 <==> o == 0)
    {
      ghost var before := DeclsOf(path, opts, 0, o);
      var e, short := MakeEntry(path, opts, o, h.short, before);
      DeclsSplit(path, opts, 0, o, o + e.num);
      ListsMore(h, before, e, short);
      h := Hol(h.entries + [e], short);
      o := o + e.num;
    }
  }

  lemma ListsNothing(path: Path, opts: seq<ArgpOption>)
    ensures DeclsOf(path, opts, 0, 0) == [] && Lists(Hol([], []), [])
  {
  }

  lemma ListsMore(h: Hol, ds: seq<Decl>, e: HolEntry, short: seq<int>)
    requires Lists(h, ds) && EntryOk(e) && e.so == |Unshadowed(ds)|
    requires short == Keys(Unshadowed(ds + EntryDecls(e)))
    ensures Lists(Hol(h.entries + [e], short), ds + EntryDecls(e))
  {
    hide Unshadowed, EntryDecls, EntriesDecls, Keys;
    var es := h.entries + [e];
    EntriesOne(h.entries, e);
    forall i | 0 <= i < |es| ensures es[i].so == |Unshadowed(EntriesDecls(es[..i]))| {
      if i < |h.entries| { assert es[..i] == h.entries[..i] && es[i] == h.entries[i]; }
      else { assert es[..i] == h.entries; }
    }
  }

  lemma EntriesOne(es: seq<HolEntry>, e: HolEntry)
    requires EntriesOk(es) && EntryOk(e)
    ensures EntriesOk(es + [e]) && EntriesDecls(es + [e]) == EntriesDecls(es) + EntryDecls(e)
  {
    hide EntryDecls;
    assert (es + [e])[..|es|] == es;
  }

  // ------------------------------------------------------------------- hol_append

  lemma {:induction false} EntriesAppend(a: seq<HolEntry>, b: seq<HolEntry>)
    requires EntriesOk(a) && EntriesOk(b)
    ensures EntriesOk(a + b) && EntriesDecls(a + b) == EntriesDecls(a) + EntriesDecls(b)
  {
    hide EntryDecls;
    if |b| == 0 { assert a + b == a; }
    else {
      EntriesAppend(a, b[..|b| - 1]);
      assert (a + b)[..|a + b| - 1] == a + b[..|b| - 1];
    }
  }

  /** The letters of one entry of the appended list, walked with the two
      pointers `so` and `more_so`. */
  method MergeEntry(e: HolEntry, short: seq<int>, holShort: seq<int>, moreShort: seq<int>, moreSo: nat,
                    ghost hol: seq<Decl>, ghost more: seq<Decl>, ghost done: seq<Decl>, ghost rest: seq<Decl>)
    returns (r: seq<int>, moreSo': nat)
    requires EntryOk(e) && more == done + EntryDecls(e) + rest
    requires holShort == Keys(Unshadowed(hol)) && moreShort == Keys(Unshadowed(more))
    requires moreSo == |Unshadowed(done)| && short == Keys(Unshadowed(hol + done))
    ensures r == Keys(Unshadowed(hol + (done + EntryDecls(e)))) && moreSo' == |Unshadowed(done + EntryDecls(e))|
  {
    hide Unshadowed, DeclsOf;
    r, moreSo' := short, moreSo;
    NoDecls(e);
    assert done + [] == done;
    for k := 0 to e.num
      invariant moreSo' == |Unshadowed(done + DeclsOf(e.path, e.opts, e.first, e.first + k))|
      invariant r == Keys(Unshadowed(hol + (done + DeclsOf(e.path, e.opts, e.first, e.first + k))))
    {
      var opt := e.opts[e.first + k];
      ghost var seen := done + DeclsOf(e.path, e.opts, e.first, e.first + k);
      ghost var d := Decl(e.path, e.first + k, opt.key);
      DeclsStep(e.path, e.opts, e.first, e.first + k);
      DeclsSplit(e.path, e.opts, e.first, e.first + k + 1, e.first + e.num);
      if IsShort(opt) {
        ghost var after := DeclsOf(e.path, e.opts, e.first + k + 1, e.first + e.num) + rest;
        assert more == seen + [d] + after;
        assert done + DeclsOf(e.path, e.opts, e.first, e.first + k + 1) == seen + [d];
        NextLetter(more, seen, d, after);
        MergeLetter(hol, seen, d);
        var ch := CharAt(moreShort, moreSo');
        if ch == opt.key {
          var found := FindChar(ch, holShort);
          if !found { r := r + [ch]; }
          moreSo' := moreSo' + 1;
        }
      } else {
        assert done + DeclsOf(e.path, e.opts, e.first, e.first + k + 1) == seen;
      }
    }
  }

  lemma NoDecls(e: HolEntry)
    requires EntryOk(e)
    ensures DeclsOf(e.path, e.opts, e.first, e.first) == []
  {
  }

  /** A letter of the appended list is new to the sum exactly if it is new to
      both parts. */
  lemma MergeLetter(hol: seq<Decl>, seen: seq<Decl>, d: Decl)
    ensures Keys(Unshadowed(hol + (seen + [d]))) == Keys(Unshadowed(hol + seen))
      + (if d.key in Keys(Unshadowed(seen)) || d.key in Keys(Unshadowed(hol)) then [] else [d.key])
  {
    hide Unshadowed;
    assert hol + (seen + [d]) == (hol + seen) + [d];
    UnshadowedOne(hol + seen, d);
    UnshadowedKeys(hol + seen, d.key);
    UnshadowedKeys(hol, d.key);
    UnshadowedKeys(seen, d.key);
    assert Keys(hol + seen) == Keys(hol) + Keys(seen);
    assert Keys(Unshadowed(hol + seen) + [d]) == Keys(Unshadowed(hol + seen)) + [d.key];
  }

  lemma ListsMeans(h: Hol, ds: seq<Decl>)
    requires Lists(h, ds)
    ensures EntriesOk(h.entries) && EntriesDecls(h.entries) == ds
    ensures h.short == Keys(Unshadowed(ds)) && |h.short| == |Unshadowed(ds)|
    ensures |h.entries| == 0 ==> ds == []
  {
  }

  /** `hol_append` */
  method HolAppend(h: Hol, m: Hol, ghost dh: seq<Decl>, ghost dm: seq<Decl>) returns (r: Hol)
    requires Lists(h, dh) && Lists(m, dm)
    ensures Lists(r, dh + dm)
  {
    hide Lists, EntriesDecls;
    ListsMeans(h, dh);
    ListsMeans(m, dm);
    r := h;
    if |m.entries| == 0 { assert dh + dm == dh; }
    else if |h.entries| == 0 { assert dh + dm == dm; r := m; }
    else { r := AppendEntries(h, m, dh, dm); }
  }

  method AppendEntries(h: Hol, m: Hol, ghost dh: seq<Decl>, ghost dm: seq<Decl>) returns (r: Hol)
    requires Lists(h, dh) && Lists(m, dm)
    ensures Lists(r, dh + dm)
  {
    hide Unshadowed, EntryDecls, EntriesDecls, Lists, Keys;
    ListsMeans(h, dh);
    ListsMeans(m, dm);
    r := h;
    var moreSo := 0;
    NothingSeen();
    assert dh + [] == dh && m.entries[..0] == [];
    for k := 0 to |m.entries|
      invariant Lists(r, dh + EntriesDecls(m.entries[..k])) && moreSo == |Unshadowed(EntriesDecls(m.entries[..k]))|
    {
      ghost var done, rest := EntriesDecls(m.entries[..k]), EntriesDecls(m.entries[k + 1..]);
      SplitEntries(m.entries, k);
      ListsMeans(r, dh + done);
      var entry := m.entries[k].(so := |r.short|);
      SameDecls(entry, m.entries[k]);
      var short, next := MergeEntry(m.entries[k], r.short, h.short, m.short, moreSo, dh, dm, done, rest);
      assert (dh + done) + EntryDecls(entry) == dh + (done + EntryDecls(entry));
      ListsMore(r, dh + done, entry, short);
      r, moreSo := Hol(r.entries + [entry], short), next;
    }
    assert m.entries[..|m.entries|] == m.entries;
  }

  lemma NothingSeen()
    ensures Unshadowed([]) == [] && EntriesDecls([]) == []
  {
  }

  lemma SameDecls(a: HolEntry, b: HolEntry)
    requires EntryOk(a) && EntryOk(b) && a.path == b.path && a.opts == b.opts && a.first == b.first && a.num == b.num
    ensures EntryDecls(a) == EntryDecls(b)
  {
  }

  lemma SplitEntries(es: seq<HolEntry>, k: nat)
    requires EntriesOk(es) && k < |es|
    ensures EntriesOk(es[..k]) && EntriesOk(es[k + 1..])
    ensures EntriesDecls(es) == EntriesDecls(es[..k]) + EntryDecls(es[k]) + EntriesDecls(es[k + 1..])
    ensures EntriesDecls(es[..k + 1]) == EntriesDecls(es[..k]) + EntryDecls(es[k])
  {
    hide EntryDecls;
    assert es[..k + 1][..k] == es[..k] && es[..k + 1][k] == es[k];
    assert es == es[..k + 1] + es[k + 1..];
    EntriesAppend(es[..k + 1], es[k + 1..]);
  }

  // --------------------------------------------------------------------- argp_hol

  /** No table of the tree starts with an alias. */
  predicate Startable(a: Argp) {
    (|Table(a)| > 0 ==> !Table(a)[0].isAlias) && forall i :: 0 <= i < |a.children| ==> Startable(a.children[i])
  }

  /** `argp_hol`: the list shows the options of the whole tree, and of several
      declarations of a letter the first. */
  method ArgpHol(a: Argp, path: Path) returns (h: Hol)
    requires Startable(a)
    ensures Lists(h, TreeDecls(a, path))
    decreases a
  {
    hide Lists, DeclsOf;
    h := MakeHol(a, path);
    ghost var own, cs := DeclsOf(path, Table(a), 0, |Table(a)|), a.children;
    assert own + ListDecls(cs[..0], path) == own;
    for i := 0 to |a.children|
      invariant Lists(h, own + ListDecls(cs[..i], path))
    {
      var m := ArgpHol(a.children[i], path + [i]);
      assert cs[..i + 1][..i] == cs[..i];
      assert (own + ListDecls(cs[..i], path)) + TreeDecls(cs[i], path + [i]) == own + ListDecls(cs[..i + 1], path);
      h := HolAppend(h, m, own + ListDecls(cs[..i], path), TreeDecls(cs[i], path + [i]));
    }
    assert cs[..|cs|] == cs;
  }

  // ------------------------------------------------------------- what an entry shows

  /** An option given to the callback, and the option of the table that it is an
      alias of. */
  datatype Report = Report(option: Decl, origin: nat)

  predicate Visible(e: HolEntry, d: Decl) { d.index < |e.opts| && !e.opts[d.index].hidden }

  /** The reports due for options of an entry: all but the hidden ones. */
  function Reports(e: HolEntry, kept: seq<Decl>): seq<Report> {
    if |kept| == 0 then []
    else
      var d := kept[|kept| - 1];
      Reports(e, kept[..|kept| - 1]) + (if Visible(e, d) then [Report(d, RealIndex(e.opts, d.index))] else [])
  }

  lemma {:induction false} ReportsPrefix(e: HolEntry, a: seq<Decl>, b: seq<Decl>)
    requires a <= b
    ensures Reports(e, a) <= Reports(e, b)
  {
    if a != b { ReportsPrefix(e, a, b[..|b| - 1]); } else { assert a == b; }
  }

  lemma ReportsOne(e: HolEntry, kept: seq<Decl>, d: Decl)
    ensures Reports(e, kept + [d]) == Reports(e, kept) + (if Visible(e, d) then [Report(d, RealIndex(e.opts, d.index))] else [])
  {
    assert (kept + [d])[..|kept|] == kept;
  }

  /** The options of an entry are the first of them and its aliases. */
  lemma {:induction false} RealOfEntry(e: HolEntry, k: nat)
    requires EntryOk(e) && k < e.num
    ensures RealIndex(e.opts, e.first + k) == e.first && (e.opts[e.first + k].isAlias <==> k > 0)
  {
    if k > 0 { RealOfEntry(e, k - 1); }
  }

  /** Calls were made until one was answered with something else than zero. */
  ghost predicate Called(func: (seq<Report>, Report) -> int, calls: seq<Report>, val: int) {
    && (forall k :: 0 <= k < |calls| - 1 ==> func(calls[..k], calls[k]) == 0)
    && val == if |calls| == 0 then 0 else func(calls[..|calls| - 1], calls[|calls| - 1])
  }

  lemma CalledOnce(func: (seq<Report>, Report) -> int, calls: seq<Report>, c: Report)
    requires Called(func, calls, 0)
    ensures Called(func, calls + [c], func(calls, c))
  {
    var all := calls + [c];
    assert all[..|calls|] == calls;
    forall k | 0 <= k < |all| - 1 ensures func(all[..k], all[k]) == 0 {
      assert all[..k] == calls[..k];
      if k == |calls| - 1 { assert func(calls[..k], calls[k]) == 0; }
    }
  }

  /** `hol_entry_short_iterate`: the callback gets the unshadowed options of an
      entry (`kept`) that are not hidden, each with the option it is an alias of,
      until it answers with something else than zero. */
  method ShortIterate(h: Hol, i: nat, func: (seq<Report>, Report) -> int, ghost ds: seq<Decl>)
    returns (val: int, calls: seq<Report>, ghost kept: seq<Decl>)
    requires Lists(h, ds) && i < |h.entries|
    ensures EntriesOk(h.entries[..i]) && EntriesOk(h.entries[..i + 1])
    ensures Unshadowed(EntriesDecls(h.entries[..i])) + kept == Unshadowed(EntriesDecls(h.entries[..i + 1])) <= Unshadowed(ds)
    ensures Called(func, calls, val) && calls <= Reports(h.entries[i], kept)
    ensures val == 0 ==> calls == Reports(h.entries[i], kept)
  {
    hide Unshadowed, DeclsOf, EntriesDecls, Reports, RealIndex, Called, EntryOk;
    var e := h.entries[i];
    ghost var done, rest := EntriesDecls(h.entries[..i]), EntriesDecls(h.entries[i + 1..]);
    SplitEntries(h.entries, i);
    EntryFits(e);
    var so, origin := e.so, e.first;
    val, calls, kept := 0, [], [];
    var k := 0;
    NoDecls(e);
    assert done + [] == done;
    NoReports(e, func);
    while k < e.num && val == 0
      invariant k <= e.num && origin == e.first
      invariant so == |Unshadowed(done + DeclsOf(e.path, e.opts, e.first, e.first + k))|
      invariant Unshadowed(done) + kept == Unshadowed(done + DeclsOf(e.path, e.opts, e.first, e.first + k))
      invariant Called(func, calls, val) && calls == Reports(e, kept)
    {
      var opt := e.opts[e.first + k];
      ghost var seen := done + DeclsOf(e.path, e.opts, e.first, e.first + k);
      var d := Decl(e.path, e.first + k, opt.key);
      DeclsStep(e.path, e.opts, e.first, e.first + k);
      DeclsSplit(e.path, e.opts, e.first, e.first + k + 1, e.first + e.num);
      if IsShort(opt) {
        ghost var after := DeclsOf(e.path, e.opts, e.first + k + 1, e.first + e.num) + rest;
        assert ds == seen + [d] + after;
        assert done + DeclsOf(e.path, e.opts, e.first, e.first + k + 1) == seen + [d];
        NextLetter(ds, seen, d, after);
        UnshadowedOne(seen, d);
        if CharAt(h.short, so) == opt.key {
          RealOfEntry(e, k);
          ReportsOne(e, kept, d);
          if !opt.isAlias { origin := e.first + k; }
          if !opt.hidden {
            CalledOnce(func, calls, Report(d, origin));
            val := func(calls, Report(d, origin));
            calls := calls + [Report(d, origin)];
          }
          kept := kept + [d];
          so := so + 1;
        }
      } else {
        assert done + DeclsOf(e.path, e.opts, e.first, e.first + k + 1) == seen;
      }
      k := k + 1;
    }
    kept := AllKept(e, done, kept, k);
    assert ds == EntriesDecls(h.entries[..i + 1]) + rest;
    UnshadowedPrefix(EntriesDecls(h.entries[..i + 1]), rest);
  }

  lemma EntryFits(e: HolEntry)
    requires EntryOk(e)
    ensures e.first + e.num <= |e.opts|
  {
  }

  lemma NoReports(e: HolEntry, func: (seq<Report>, Report) -> int)
    ensures Reports(e, []) == [] && Called(func, [], 0)
  {
  }

  /** What the rest of an entry adds to the options kept of its first k. */
  lemma AllKept(e: HolEntry, done: seq<Decl>, got: seq<Decl>, k: nat) returns (kept: seq<Decl>)
    requires EntryOk(e) && k <= e.num
    requires Unshadowed(done) + got == Unshadowed(done + DeclsOf(e.path, e.opts, e.first, e.first + k))
    ensures Unshadowed(done) + kept == Unshadowed(done + EntryDecls(e)) && got <= kept && (k == e.num ==> kept == got)
    ensures Reports(e, got) <= Reports(e, kept)
  {
    hide Unshadowed, DeclsOf, Reports;
    var now, later := DeclsOf(e.path, e.opts, e.first, e.first + k), DeclsOf(e.path, e.opts, e.first + k, e.first + e.num);
    DeclsSplit(e.path, e.opts, e.first, e.first + k, e.first + e.num);
    assert done + EntryDecls(e) == (done + now) + later;
    UnshadowedPrefix(done + now, later);
    var all := Unshadowed(done + EntryDecls(e));
    kept := all[|Unshadowed(done)|..];
    assert all == Unshadowed(done) + kept;
    assert got <= kept;
    ReportsPrefix(e, got, kept);
  }
}
