/** The groups of a parser are the argps of the tree that have options or a parser,
    each once, a parent before its children and the children in their order
    (argp/argp-parse.c, `convert_options`). */
module ArgpOrder {
  import opened Basics
  import opened ArgpTree
  import opened ArgpTables

  /** The argp at a place of the tree. */
  function Sub(a: Argp, p: Path): Option<Argp>
    decreases |p|
  {
    if p == [] then Some(a)
    else if p[0] < |a.children| then Sub(a.children[p[0]], p[1..]) else None
  }

  /** A group made from that argp. */
  predicate Made(n: Node, b: Option<Argp>) {
    b.Some? && IsGroup(b.value) && n.opts == Table(b.value) && n.hasParser == b.value.hasParser && n.childCount == |b.value.children|
  }

  /** Place p comes before place q: above it, or in an earlier child. */
  ghost predicate Earlier(p: Path, q: Path) {
    exists k: nat :: k <= |p| && k <= |q| && p[..k] == q[..k] && ((k == |p| < |q|) || (k < |p| && k < |q| && p[k] < q[k]))
  }

  // ------------------------------------------------------------ every group is made

  lemma {:induction false} NodeAt(a: Argp, path: Path, parent: Option<nat>, index: nat, base: nat, i: nat)
    requires i < |Nodes(a, path, parent, index, base)|
    ensures var n := Nodes(a, path, parent, index, base)[i]; path <= n.path && Made(n, Sub(a, n.path[|path|..]))
    decreases a
  {
    hide Made;
    var n := Nodes(a, path, parent, index, base)[i];
    if IsGroup(a) && i == 0 { NodeItself(a, n, path); }
    else {
      var up, from, j := if IsGroup(a) then Some(base) else None, if IsGroup(a) then base + 1 else base, if IsGroup(a) then i - 1 else i;
      assert n == ListNodes(a.children, path, up, from)[j];
      var k := ListNodeAt(a.children, path, up, from, j);
      SubOfChild(a, path, k, n.path);
    }
  }

  lemma NodeItself(a: Argp, n: Node, path: Path)
    requires IsGroup(a) && n.path == path && n.opts == Table(a) && n.hasParser == a.hasParser && n.childCount == |a.children|
    ensures Made(n, Sub(a, n.path[|path|..]))
  {
  }

  lemma SubOfChild(a: Argp, path: Path, k: nat, p: Path)
    requires k < |a.children| && path + [k] <= p
    ensures path <= p && Sub(a, p[|path|..]) == Sub(a.children[k], p[|path| + 1..])
  {
    assert p[|path|..][0] == k && p[|path|..][1..] == p[|path| + 1..];
  }

  lemma {:induction false} ListNodeAt(cs: seq<Argp>, path: Path, parent: Option<nat>, base: nat, i: nat) returns (k: nat)
    requires i < |ListNodes(cs, path, parent, base)|
    ensures var n := ListNodes(cs, path, parent, base)[i];
      k < |cs| && path + [k] <= n.path && Made(n, Sub(cs[k], n.path[|path| + 1..]))
    decreases cs
  {
    hide Made, Nodes;
    var l := |cs| - 1;
    var init := ListNodes(cs[..l], path, parent, base);
    if i < |init| { k := ListNodeAt(cs[..l], path, parent, base, i); }
    else {
      k := l;
      NodeAt(cs[l], path + [l], parent, l, base + |init|, i - |init|);
    }
  }

  lemma {:induction false} HasNode(a: Argp, path: Path, parent: Option<nat>, index: nat, base: nat, q: Path) returns (i: nat)
    requires Sub(a, q).Some? && IsGroup(Sub(a, q).value)
    ensures i < |Nodes(a, path, parent, index, base)| && Nodes(a, path, parent, index, base)[i].path == path + q
    decreases a
  {
    if q == [] { i := 0; assert path + q == path; }
    else {
      var up, from := if IsGroup(a) then Some(base) else None, if IsGroup(a) then base + 1 else base;
      var j := ListHasNode(a.children, path, up, from, q[0], q[1..]);
      i := if IsGroup(a) then j + 1 else j;
      assert path + [q[0]] + q[1..] == path + q;
    }
  }

  lemma {:induction false} ListHasNode(cs: seq<Argp>, path: Path, parent: Option<nat>, base: nat, k: nat, q: Path) returns (i: nat)
    requires k < |cs| && Sub(cs[k], q).Some? && IsGroup(Sub(cs[k], q).value)
    ensures i < |ListNodes(cs, path, parent, base)| && ListNodes(cs, path, parent, base)[i].path == path + [k] + q
    decreases cs
  {
    hide Nodes;
    var l := |cs| - 1;
    var init := ListNodes(cs[..l], path, parent, base);
    if k < l { i := ListHasNode(cs[..l], path, parent, base, k, q); }
    else {
      var j := HasNode(cs[l], path + [l], parent, l, base + |init|, q);
      i := |init| + j;
    }
  }

  // ---------------------------------------------------------------------- in order

  lemma Above(path: Path, p: Path)
    requires path < p
    ensures Earlier(path, p)
  {
    assert path[..|path|] == p[..|path|];
  }

  lemma InEarlierChild(path: Path, k: nat, l: nat, p: Path, q: Path)
    requires path + [k] <= p && path + [l] <= q && k < l
    ensures Earlier(p, q)
  {
    assert p[..|path|] == path == q[..|path|] && p[|path|] == k && q[|path|] == l;
  }

  lemma {:induction false} NodesOrder(a: Argp, path: Path, parent: Option<nat>, index: nat, base: nat, i: nat, j: nat)
    requires i < j < |Nodes(a, path, parent, index, base)|
    ensures Earlier(Nodes(a, path, parent, index, base)[i].path, Nodes(a, path, parent, index, base)[j].path)
    decreases a
  {
    hide Earlier, Made;
    var up, from, d := if IsGroup(a) then Some(base) else None, if IsGroup(a) then base + 1 else base, if IsGroup(a) then 1 else 0;
    var rest := ListNodes(a.children, path, up, from);
    assert Nodes(a, path, parent, index, base)[j] == rest[j - d];
    if IsGroup(a) && i == 0 {
      var k := ListNodeAt(a.children, path, up, from, j - d);
      Above(path, rest[j - d].path);
    } else {
      ListOrder(a.children, path, up, from, i - d, j - d);
    }
  }

  lemma {:induction false} ListOrder(cs: seq<Argp>, path: Path, parent: Option<nat>, base: nat, i: nat, j: nat)
    requires i < j < |ListNodes(cs, path, parent, base)|
    ensures Earlier(ListNodes(cs, path, parent, base)[i].path, ListNodes(cs, path, parent, base)[j].path)
    decreases cs
  {
    hide Earlier, Made, Nodes;
    var l := |cs| - 1;
    var init := ListNodes(cs[..l], path, parent, base);
    if j < |init| { ListOrder(cs[..l], path, parent, base, i, j); }
    else if i >= |init| { NodesOrder(cs[l], path + [l], parent, l, base + |init|, i - |init|, j - |init|); }
    else {
      var k := ListNodeAt(cs[..l], path, parent, base, i);
      NodeAt(cs[l], path + [l], parent, l, base + |init|, j - |init|);
      InEarlierChild(path, k, l, init[i].path, ListNodes(cs, path, parent, base)[j].path);
    }
  }

  /** The groups are exactly the argps with options or a parser, in that order. */
  lemma NodesMean(a: Argp)
    ensures var nodes := Nodes(a, [], None, 0, 0);
      && (forall i :: 0 <= i < |nodes| ==> Made(nodes[i], Sub(a, nodes[i].path)))
      && (forall p: Path :: Sub(a, p).Some? && IsGroup(Sub(a, p).value) ==> exists i :: 0 <= i < |nodes| && nodes[i].path == p)
      && (forall i, j :: 0 <= i < j < |nodes| ==> Earlier(nodes[i].path, nodes[j].path))
  {
    hide Nodes, Made, Earlier, Sub;
    var nodes := Nodes(a, [], None, 0, 0);
    forall i | 0 <= i < |nodes| ensures Made(nodes[i], Sub(a, nodes[i].path)) {
      NodeAt(a, [], None, 0, 0, i);
      assert nodes[i].path[0..] == nodes[i].path;
    }
    forall p: Path | Sub(a, p).Some? && IsGroup(Sub(a, p).value) ensures exists i :: 0 <= i < |nodes| && nodes[i].path == p {
      var i := HasNode(a, [], None, 0, 0, p);
      assert [] + p == p;
    }
    forall i, j | 0 <= i < j < |nodes| ensures Earlier(nodes[i].path, nodes[j].path) { NodesOrder(a, [], None, 0, 0, i, j); }
  }
}
