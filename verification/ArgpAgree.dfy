/** The parser and the help list reckon separately which of several declarations
    of a short option counts: where they agree, and the one case where they do not. */
module ArgpAgree {
  import opened Basics
  import opened ArgpTree
  import opened ArgpOptions
  import opened ArgpTables
  import opened ArgpHelp

  // ----------------------------------------------------- one order of declarations

  /** The short options of the groups in order. */
  function NodeDecls(nodes: seq<Node>): seq<Decl> {
    if |nodes| == 0 then []
    else
      var last := nodes[|nodes| - 1];
      NodeDecls(nodes[..|nodes| - 1]) + DeclsOf(last.path, last.opts, 0, |last.opts|)
  }

  lemma {:induction false} NodeDeclsAppend(a: seq<Node>, b: seq<Node>)
    ensures NodeDecls(a + b) == NodeDecls(a) + NodeDecls(b)
  {
    hide DeclsOf;
    if |b| == 0 { assert a + b == a; }
    else {
      NodeDeclsAppend(a, b[..|b| - 1]);
      assert (a + b)[..|a + b| - 1] == a + b[..|b| - 1];
    }
  }

  /** The help list meets the declarations in the order of the groups. */
  lemma {:induction false} SameOrder(a: Argp, path: Path, parent: Option<nat>, index: nat, base: nat)
    ensures NodeDecls(Nodes(a, path, parent, index, base)) == TreeDecls(a, path)
    decreases a
  {
    hide DeclsOf, ListNodes, ListDecls, NodeDecls;
    var own := Node(path, Table(a), a.hasParser, parent, index, |a.children|);
    if IsGroup(a) {
      ListSameOrder(a.children, path, Some(base), base + 1);
      NodeDeclsAppend([own], ListNodes(a.children, path, Some(base), base + 1));
      OneNode(own);
    } else {
      ListSameOrder(a.children, path, None, base);
      EmptyTable(path);
    }
  }

  lemma OneNode(n: Node)
    ensures NodeDecls([n]) == DeclsOf(n.path, n.opts, 0, |n.opts|)
  {
    assert [n][..0] == [];
  }

  lemma EmptyTable(path: Path)
    ensures DeclsOf(path, [], 0, 0) == []
  {
  }

  lemma {:induction false} ListSameOrder(cs: seq<Argp>, path: Path, parent: Option<nat>, base: nat)
    ensures NodeDecls(ListNodes(cs, path, parent, base)) == ListDecls(cs, path)
    decreases cs
  {
    hide Nodes, TreeDecls;
    if |cs| > 0 {
      var k := |cs| - 1;
      ListSameOrder(cs[..k], path, parent, base);
      var init := ListNodes(cs[..k], path, parent, base);
      SameOrder(cs[k], path + [k], parent, k, base + |init|);
      NodeDeclsAppend(init, Nodes(cs[k], path + [k], parent, k, base + |init|));
    }
  }

  // ----------------------------------------------------------- the first of a key

  predicate FirstDecl(ds: seq<Decl>, c: int, p: nat) {
    p < |ds| && ds[p].key == c && forall q :: 0 <= q < p ==> ds[q].key != c
  }

  /** What is not shadowed is the first declaration of its key. */
  lemma {:induction false} KeptIsFirst(ds: seq<Decl>, d: Decl) returns (p: nat)
    requires d in Unshadowed(ds)
    ensures FirstDecl(ds, d.key, p) && ds[p] == d
  {
    var init, last := ds[..|ds| - 1], ds[|ds| - 1];
    if d in Unshadowed(init) {
      p := KeptIsFirst(init, d);
      assert forall q :: 0 <= q < p ==> ds[q] == init[q];
    } else {
      p := |ds| - 1;
      UnshadowedKeys(init, d.key);
      assert forall q :: 0 <= q < p ==> Keys(init)[q] == ds[q].key;
    }
  }

  /** The first declaration of a key is not shadowed. */
  lemma FirstIsKept(ds: seq<Decl>, c: int, p: nat)
    requires FirstDecl(ds, c, p)
    ensures ds[p] in Unshadowed(ds)
  {
    hide Unshadowed;
    UnshadowedKeys(ds, c);
    assert Keys(ds)[p] == c;
    var u := Unshadowed(ds);
    var i :| 0 <= i < |Keys(u)| && Keys(u)[i] == c;
    assert u[i] in u;
    var p' := KeptIsFirst(ds, u[i]);
    assert p == p';
  }

  // ------------------------------------------------------------- in the help list

  /** Entry j of a table has the letter c, whatever its option is. */
  predicate ShownAt(opts: seq<ArgpOption>, j: nat, c: int)
    requires j < |opts|
  {
    IsShort(opts[j]) && opts[j].key == c
  }

  predicate Shows(opts: seq<ArgpOption>, n: nat, c: int)
    requires n <= |opts|
  {
    exists j :: 0 <= j < n && ShownAt(opts, j, c)
  }

  /** Entry j of group g is the first in the tree with the letter c. */
  ghost predicate FirstShown(nodes: seq<Node>, c: int, g: nat, j: nat) {
    && g < |nodes| && j < |nodes[g].opts| && ShownAt(nodes[g].opts, j, c) && !Shows(nodes[g].opts, j, c)
    && forall h :: 0 <= h < g ==> !Shows(nodes[h].opts, |nodes[h].opts|, c)
  }

  lemma {:induction false} NoDeclOf(path: Path, opts: seq<ArgpOption>, n: nat, c: int)
    requires n <= |opts|
    ensures c in Keys(DeclsOf(path, opts, 0, n)) <==> Shows(opts, n, c)
  {
    if n > 0 {
      NoDeclOf(path, opts, n - 1, c);
      DeclsStep(path, opts, 0, n - 1);
      var ds, d := DeclsOf(path, opts, 0, n - 1), Decl(path, n - 1, opts[n - 1].key);
      assert Keys(ds + [d]) == Keys(ds) + [d.key];
      assert Shows(opts, n, c) <==> Shows(opts, n - 1, c) || ShownAt(opts, n - 1, c);
      assert !IsShort(opts[n - 1]) ==> DeclsOf(path, opts, 0, n) == ds;
    }
  }

  lemma {:induction false} NoDeclBefore(nodes: seq<Node>, c: int)
    requires forall h :: 0 <= h < |nodes| ==> !Shows(nodes[h].opts, |nodes[h].opts|, c)
    ensures c !in Keys(NodeDecls(nodes))
  {
    hide DeclsOf, Shows;
    if |nodes| > 0 {
      var init, last := nodes[..|nodes| - 1], nodes[|nodes| - 1];
      NoDeclBefore(init, c);
      NoDeclOf(last.path, last.opts, |last.opts|, c);
      assert Keys(NodeDecls(nodes)) == Keys(NodeDecls(init)) + Keys(DeclsOf(last.path, last.opts, 0, |last.opts|));
    }
  }

  /** The first entry with a letter is the first in the common order. */
  lemma FirstAmongAll(nodes: seq<Node>, c: int, g: nat, j: nat) returns (p: nat)
    requires FirstShown(nodes, c, g, j)
    ensures FirstDecl(NodeDecls(nodes), c, p) && NodeDecls(nodes)[p] == Decl(nodes[g].path, j, c)
  {
    hide DeclsOf, NodeDecls, Shows;
    var n := nodes[g];
    var before, low := NodeDecls(nodes[..g]), DeclsOf(n.path, n.opts, 0, j);
    NoDeclBefore(nodes[..g], c);
    NoDeclOf(n.path, n.opts, j, c);
    SplitAt(nodes, g, j, c);
    p := |before| + |low|;
    var ds := NodeDecls(nodes);
    forall q | 0 <= q < p ensures ds[q].key != c {
      if q < |before| { assert Keys(before)[q] == ds[q].key; } else { assert Keys(low)[q - |before|] == ds[q].key; }
    }
  }

  lemma SplitAt(nodes: seq<Node>, g: nat, j: nat, c: int)
    requires g < |nodes| && j < |nodes[g].opts| && ShownAt(nodes[g].opts, j, c)
    ensures NodeDecls(nodes[..g]) + DeclsOf(nodes[g].path, nodes[g].opts, 0, j) + [Decl(nodes[g].path, j, c)] <= NodeDecls(nodes)
  {
    hide DeclsOf, NodeDecls;
    var n, upTo := nodes[g], nodes[..g] + [nodes[g]];
    assert nodes == upTo + nodes[g + 1..];
    NodeDeclsAppend(upTo, nodes[g + 1..]);
    NodeDeclsAppend(nodes[..g], [n]);
    OneNode(n);
    DeclsStep(n.path, n.opts, 0, j);
    DeclsSplit(n.path, n.opts, 0, j + 1, |n.opts|);
  }

  lemma {:induction false} LeastShown(nodes: seq<Node>, c: int, h: nat) returns (g: nat, j: nat)
    requires h < |nodes| && Shows(nodes[h].opts, |nodes[h].opts|, c)
    ensures FirstShown(nodes, c, g, j)
  {
    hide Shows;
    if forall k :: 0 <= k < h ==> !Shows(nodes[k].opts, |nodes[k].opts|, c) {
      g := h;
      j := LeastAt(nodes[h].opts, |nodes[h].opts|, c);
    } else {
      var k :| 0 <= k < h && Shows(nodes[k].opts, |nodes[k].opts|, c);
      g, j := LeastShown(nodes, c, k);
    }
  }

  lemma {:induction false} LeastAt(opts: seq<ArgpOption>, n: nat, c: int) returns (j: nat)
    requires n <= |opts| && Shows(opts, n, c)
    ensures j < n && ShownAt(opts, j, c) && !Shows(opts, j, c)
  {
    if Shows(opts, n - 1, c) { j := LeastAt(opts, n - 1, c); } else { j := n - 1; }
  }

  /** Among all options of the tree, the help list keeps for a letter the first
      that has it. */
  lemma HelpKeepsFirst(a: Argp, d: Decl) returns (g: nat, j: nat)
    requires d in Unshadowed(TreeDecls(a, []))
    ensures FirstShown(Nodes(a, [], None, 0, 0), d.key, g, j) && d == Decl(Nodes(a, [], None, 0, 0)[g].path, j, d.key)
  {
    hide Nodes, TreeDecls, Unshadowed, NodeDecls, Shows;
    var nodes := Nodes(a, [], None, 0, 0);
    SameOrder(a, [], None, 0, 0);
    var q := KeptIsFirst(TreeDecls(a, []), d);
    assert Keys(NodeDecls(nodes))[q] == d.key;
    if forall h :: 0 <= h < |nodes| ==> !Shows(nodes[h].opts, |nodes[h].opts|, d.key) { NoDeclBefore(nodes, d.key); }
    var h :| 0 <= h < |nodes| && Shows(nodes[h].opts, |nodes[h].opts|, d.key);
    g, j := LeastShown(nodes, d.key, h);
    var p := FirstAmongAll(nodes, d.key, g, j);
    assert p == q;
  }

  /** Conversely, the help list keeps the first of every letter. */
  lemma FirstIsShown(a: Argp, c: int, g: nat, j: nat)
    requires FirstShown(Nodes(a, [], None, 0, 0), c, g, j)
    ensures Decl(Nodes(a, [], None, 0, 0)[g].path, j, c) in Unshadowed(TreeDecls(a, []))
  {
    hide Nodes, TreeDecls, Unshadowed, NodeDecls, Shows;
    SameOrder(a, [], None, 0, 0);
    var p := FirstAmongAll(Nodes(a, [], None, 0, 0), c, g, j);
    FirstIsKept(TreeDecls(a, []), c, p);
  }

  // ------------------------------------------------------------------ agreement

  /** Entry j of group g is the first in the tree that a parser can get for c. */
  ghost predicate FirstShort(nodes: seq<Node>, c: int, g: nat, j: nat) {
    && FirstGroup(nodes, c, g) && j < |nodes[g].opts| && DeclaresAt(nodes[g].opts, j, c)
    && forall i :: 0 <= i < j ==> !DeclaresAt(nodes[g].opts, i, c)
  }

  /** The option that the help list keeps is the one that the parser's group gets
      first, exactly if it is not an alias of documentation. */
  lemma AgreeExactly(nodes: seq<Node>, c: int, g: nat, j: nat)
    requires FirstShown(nodes, c, g, j)
    ensures FirstShort(nodes, c, g, j) <==> Live(nodes[g].opts, j)
  {
    hide Live;
    forall h | 0 <= h < g ensures !Declares(nodes[h].opts, c) { NotDeclared(nodes[h].opts, |nodes[h].opts|, c); }
    NotDeclared(nodes[g].opts, j, c);
    if Live(nodes[g].opts, j) { assert DeclaresAt(nodes[g].opts, j, c); }
  }

  lemma NotDeclared(opts: seq<ArgpOption>, n: nat, c: int)
    requires n <= |opts| && !Shows(opts, n, c)
    ensures forall j :: 0 <= j < n ==> !DeclaresAt(opts, j, c)
  {
    hide Live;
    forall j | 0 <= j < n ensures !DeclaresAt(opts, j, c) { assert !ShownAt(opts, j, c); }
  }

  /** No letter belongs to an alias of documentation. */
  predicate LettersLive(opts: seq<ArgpOption>) {
    forall j :: 0 <= j < |opts| && IsShort(opts[j]) ==> Live(opts, j)
  }

  /** Then the help list and the parser agree on every letter: it is shown exactly
      if some group gets it, and the option shown is that group's first. */
  lemma HelpAgreesWithParser(a: Argp, c: int)
    requires forall h :: 0 <= h < |Nodes(a, [], None, 0, 0)| ==> LettersLive(Nodes(a, [], None, 0, 0)[h].opts)
    ensures c in Keys(Unshadowed(TreeDecls(a, []))) <==> exists g: nat :: FirstGroup(Nodes(a, [], None, 0, 0), c, g)
    ensures forall d :: d in Unshadowed(TreeDecls(a, [])) && d.key == c ==>
      exists g: nat :: FirstShort(Nodes(a, [], None, 0, 0), c, g, d.index) && d.path == Nodes(a, [], None, 0, 0)[g].path
  {
    hide Nodes, TreeDecls, Unshadowed, NodeDecls, LettersLive, Declares;
    var nodes := Nodes(a, [], None, 0, 0);
    forall d | d in Unshadowed(TreeDecls(a, [])) && d.key == c
      ensures exists g: nat :: FirstShort(nodes, c, g, d.index) && d.path == nodes[g].path
    {
      var g, j := HelpKeepsFirst(a, d);
      AgreeExactly(nodes, c, g, j);
      LiveAt(nodes[g].opts, j);
    }
    if c in Keys(Unshadowed(TreeDecls(a, []))) {
      var i :| 0 <= i < |Unshadowed(TreeDecls(a, []))| && Keys(Unshadowed(TreeDecls(a, [])))[i] == c;
      var d := Unshadowed(TreeDecls(a, []))[i];
      assert d in Unshadowed(TreeDecls(a, []));
      var g: nat :| FirstShort(nodes, c, g, d.index) && d.path == nodes[g].path;
      assert FirstGroup(nodes, c, g);
    }
    if exists g: nat :: FirstGroup(nodes, c, g) {
      var g: nat :| FirstGroup(nodes, c, g);
      DeclaredIsShown(nodes[g].opts, c);
      var h, j := LeastShown(nodes, c, g);
      var p := FirstAmongAll(nodes, c, h, j);
      SameOrder(a, [], None, 0, 0);
      assert Keys(NodeDecls(nodes))[p] == c;
      UnshadowedKeys(TreeDecls(a, []), c);
    }
  }

  lemma LiveAt(opts: seq<ArgpOption>, j: nat)
    requires LettersLive(opts) && j < |opts| && IsShort(opts[j])
    ensures Live(opts, j)
  {
  }

  lemma DeclaredIsShown(opts: seq<ArgpOption>, c: int)
    requires Declares(opts, c)
    ensures Shows(opts, |opts|, c)
  {
    hide Live;
    var j :| 0 <= j < |opts| && DeclaresAt(opts, j, c);
    assert ShownAt(opts, j, c);
  }

  /** An alias that is not documentation, behind an option that is: the help list
      shows its letter, and no parser gets it. */
  lemma AliasOfDocumentation()
    ensures var opts := [ArgpOption(Some("a"), 0, false, false, true, false, false), ArgpOption(None, 0x62, false, true, false, false, false)];
      && 0x62 in Keys(DeclsOf([], opts, 0, 2))
      && !Declares(opts, 0x62)
  {
    var opts := [ArgpOption(Some("a"), 0, false, false, true, false, false), ArgpOption(None, 0x62, false, true, false, false, false)];
    assert RealIndex(opts, 1) == 0;
    assert ShownAt(opts, 1, 0x62);
    NoDeclOf([], opts, 2, 0x62);
  }
}
