/** What the merged getopt tables hold, and that the first declaration of an
    option in the tree is the one that counts. */
module ArgpTables {
  import opened Basics
  import opened ArgpTree
  import opened ArgpOptions

  // --------------------------------------------------------------------- the tree

  /** A place in the tree: the child numbers on the way from the root. */
  type Path = seq<nat>

  /** An argp that has a table or a parser, and so becomes a group; `parent` is
      the number of the group above it. */
  datatype Node = Node(path: Path, opts: seq<ArgpOption>, hasParser: bool, parent: Option<nat>, parentIndex: nat, childCount: nat)

  predicate IsGroup(a: Argp) { a.options.Some? || a.hasParser }

  function Table(a: Argp): seq<ArgpOption> { if a.options.Some? then a.options.value else [] }

  /** The groups of a tree, parents first; the first gets number `base`. */
  function Nodes(a: Argp, path: Path, parent: Option<nat>, index: nat, base: nat): seq<Node> {
    if IsGroup(a) then
      [Node(path, Table(a), a.hasParser, parent, index, |a.children|)] + ListNodes(a.children, path, Some(base), base + 1)
    else
      ListNodes(a.children, path, None, base)
  }

  function ListNodes(cs: seq<Argp>, path: Path, parent: Option<nat>, base: nat): seq<Node> {
    if |cs| == 0 then []
    else
      var init := ListNodes(cs[..|cs| - 1], path, parent, base);
      init + Nodes(cs[|cs| - 1], path + [|cs| - 1], parent, |cs| - 1, base + |init|)
  }

  // ------------------------------------------------------------------- the tables

  datatype LongOption = LongOption(name: string, hasArg: HasArg, val: int)

  /** A group with the end of its part of the short options, and its first child
      input. */
  datatype Group = Group(node: Node, shortEnd: nat, inputBase: nat)

  datatype Tables = Tables(short: seq<int>, longs: seq<LongOption>, groups: seq<Group>, inputs: nat)

  predicate HasName(longs: seq<LongOption>, name: string) { exists i :: 0 <= i < |longs| && longs[i].name == name }

  function NewLong(longs: seq<LongOption>, opts: seq<ArgpOption>, i: nat, g: nat): (n: seq<LongOption>)
    requires i < |opts|
    ensures |n| <= 1
  {
    if IsLong(opts, i) && !HasName(longs, opts[i].name.value) then
      var c := CandidateOf(opts, i);
      [LongOption(c.name, c.hasArg, Encode(c.key, g))]
    else []
  }

  /** The first n entries of a table in group g. */
  function AddOptions(t: Tables, opts: seq<ArgpOption>, n: nat, g: nat): (u: Tables)
    requires n <= |opts|
    ensures u.groups == t.groups && u.inputs == t.inputs
  {
    if n == 0 then t
    else
      var u := AddOptions(t, opts, n - 1, g);
      u.(short := u.short + ShortOf(opts, n - 1), longs := u.longs + NewLong(u.longs, opts, n - 1, g))
  }

  function AddNode(t: Tables, node: Node): Tables {
    var u := AddOptions(t, node.opts, |node.opts|, |t.groups|);
    Tables(u.short, u.longs, t.groups + [Group(node, |u.short|, t.inputs)], t.inputs + node.childCount)
  }

  function AddNodes(t: Tables, nodes: seq<Node>): Tables {
    if |nodes| == 0 then t else AddNode(AddNodes(t, nodes[..|nodes| - 1]), nodes[|nodes| - 1])
  }

  lemma {:induction false} AddNodesTwice(t: Tables, a: seq<Node>, b: seq<Node>)
    ensures AddNodes(t, a + b) == AddNodes(AddNodes(t, a), b)
  {
    if |b| == 0 { assert a + b == a; }
    else {
      var b' := b[..|b| - 1];
      AddNodesTwice(t, a, b');
      assert (a + b)[..|a + b| - 1] == a + b';
    }
  }

  // ---------------------------------------------------------------------- sizes

  function OptionSum(nodes: seq<Node>): nat {
    if |nodes| == 0 then 0 else OptionSum(nodes[..|nodes| - 1]) + |nodes[|nodes| - 1].opts|
  }

  function ShortSum(nodes: seq<Node>): nat {
    if |nodes| == 0 then 0
    else ShortSum(nodes[..|nodes| - 1]) + |ShortText(nodes[|nodes| - 1].opts, |nodes[|nodes| - 1].opts|)|
  }

  function InputSum(nodes: seq<Node>): nat {
    if |nodes| == 0 then 0 else InputSum(nodes[..|nodes| - 1]) + nodes[|nodes| - 1].childCount
  }

  lemma {:induction false} OptionsAdd(t: Tables, opts: seq<ArgpOption>, n: nat, g: nat)
    requires n <= |opts|
    ensures AddOptions(t, opts, n, g).short == t.short + ShortText(opts, n)
    ensures |t.longs| <= |AddOptions(t, opts, n, g).longs| <= |t.longs| + n
    ensures t.longs <= AddOptions(t, opts, n, g).longs
  {
    hide ShortOf, NewLong;
    if n > 0 { OptionsAdd(t, opts, n - 1, g); }
  }

  lemma {:induction false} NodesAdd(t: Tables, nodes: seq<Node>)
    ensures var u := AddNodes(t, nodes);
      && |u.short| == |t.short| + ShortSum(nodes) && ShortSum(nodes) <= 3 * OptionSum(nodes)
      && |t.longs| <= |u.longs| <= |t.longs| + OptionSum(nodes)
      && |u.groups| == |t.groups| + |nodes| && u.inputs == t.inputs + InputSum(nodes)
      && t.short <= u.short && t.longs <= u.longs && t.groups <= u.groups
  {
    hide ShortText, AddOptions;
    if |nodes| > 0 {
      var init, last := nodes[..|nodes| - 1], nodes[|nodes| - 1];
      NodesAdd(t, init);
      var u := AddNodes(t, init);
      OptionsAdd(u, last.opts, |last.opts|, |u.groups|);
    }
  }

  // ------------------------------------------------------- the groups' own parts

  /** Group i ends where the short options of the first i + 1 nodes end. */
  lemma {:induction false} GroupsAdd(t: Tables, nodes: seq<Node>, i: nat)
    requires i < |nodes|
    ensures var u := AddNodes(t, nodes);
      && |t.groups| + i < |u.groups| && u.groups[|t.groups| + i].node == nodes[i]
      && u.groups[|t.groups| + i].shortEnd == |AddNodes(t, nodes[..i + 1]).short|
      && AddNodes(t, nodes[..i + 1]).short <= u.short
  {
    hide AddOptions;
    var init := nodes[..|nodes| - 1];
    NodesAdd(t, init);
    NodesAdd(t, nodes);
    if i < |init| {
      GroupsAdd(t, init, i);
      assert init[..i + 1] == nodes[..i + 1];
      OptionsAdd(AddNodes(t, init), nodes[|nodes| - 1].opts, |nodes[|nodes| - 1].opts|, |AddNodes(t, init).groups|);
    } else {
      assert nodes[..i + 1] == nodes;
    }
  }

  // -------------------------------------------------------- first declaration: short

  /** Entry j of a table declares the short option c. */
  predicate DeclaresAt(opts: seq<ArgpOption>, j: nat, c: int)
    requires j < |opts|
  {
    Live(opts, j) && IsShort(opts[j]) && opts[j].key == c
  }

  predicate Declares(opts: seq<ArgpOption>, c: int) {
    exists j :: 0 <= j < |opts| && DeclaresAt(opts, j, c)
  }

  /** Characters that are not letters of options somewhere in the string. */
  predicate OrdinaryKey(c: int) { c != COLON && c != DASH && c != PLUS }

  lemma EntryDeclares(opts: seq<ArgpOption>, j: nat, c: int)
    requires j < |opts| && c != COLON
    ensures c in ShortOf(opts, j) <==> DeclaresAt(opts, j, c)
  {
  }

  lemma {:induction false} TextDeclares(opts: seq<ArgpOption>, n: nat, c: int)
    requires n <= |opts| && c != COLON
    ensures c in ShortText(opts, n) <==> exists j :: 0 <= j < n && DeclaresAt(opts, j, c)
  {
    hide ShortOf, DeclaresAt;
    if n > 0 {
      TextDeclares(opts, n - 1, c);
      EntryDeclares(opts, n - 1, c);
    }
  }

  predicate FirstIn(s: seq<int>, c: int, p: nat) { p < |s| && s[p] == c && forall q :: 0 <= q < p ==> s[q] != c }

  /** The number of the first group that declares c, if there is one. */
  predicate FirstGroup(nodes: seq<Node>, c: int, g: nat) {
    g < |nodes| && Declares(nodes[g].opts, c) && forall h :: 0 <= h < g ==> !Declares(nodes[h].opts, c)
  }

  /** The characters before group g's part hold no c unless an earlier group
      declares it. */
  lemma {:induction false} BeforeGroup(t: Tables, nodes: seq<Node>, c: int)
    requires c != COLON && c !in t.short && forall h :: 0 <= h < |nodes| ==> !Declares(nodes[h].opts, c)
    ensures c !in AddNodes(t, nodes).short
  {
    hide AddOptions, ShortText;
    if |nodes| > 0 {
      var init, last := nodes[..|nodes| - 1], nodes[|nodes| - 1];
      BeforeGroup(t, init, c);
      OptionsAdd(AddNodes(t, init), last.opts, |last.opts|, |AddNodes(t, init).groups|);
      TextDeclares(last.opts, |last.opts|, c);
      assert !Declares(last.opts, c);
    }
  }

  /** The first occurrence of c lies in the part of the first group that
      declares it. */
  lemma FirstOccurrence(t: Tables, nodes: seq<Node>, c: int, g: nat, p: nat)
    requires OrdinaryKey(c) && c !in t.short && FirstGroup(nodes, c, g) && FirstIn(AddNodes(t, nodes).short, c, p)
    ensures |AddNodes(t, nodes[..g]).short| <= p < |AddNodes(t, nodes[..g + 1]).short|
  {
    hide AddOptions, ShortText, Declares;
    var all := AddNodes(t, nodes);
    var before, upTo := AddNodes(t, nodes[..g]), AddNodes(t, nodes[..g + 1]);
    BeforeGroup(t, nodes[..g], c);
    GroupsAdd(t, nodes, g);
    assert nodes[..g + 1][..g] == nodes[..g];
    OptionsAdd(before, nodes[g].opts, |nodes[g].opts|, |before.groups|);
    var text := ShortText(nodes[g].opts, |nodes[g].opts|);
    TextHas(nodes[g].opts, c);
    var q :| 0 <= q < |text| && text[q] == c;
    assert upTo.short == before.short + text && upTo.short[|before.short| + q] == c;
    assert all.short[|before.short| + q] == c;
    assert forall i :: 0 <= i < |before.short| ==> all.short[i] == before.short[i];
  }

  lemma TextHas(opts: seq<ArgpOption>, c: int)
    requires c != COLON && Declares(opts, c)
    ensures c in ShortText(opts, |opts|)
  {
    TextDeclares(opts, |opts|, c);
  }

  /** A character that no group declares does not occur. */
  lemma NoOccurrence(t: Tables, nodes: seq<Node>, c: int)
    requires OrdinaryKey(c) && c !in t.short
    ensures c in AddNodes(t, nodes).short ==> exists g: nat :: FirstGroup(nodes, c, g)
  {
    hide AddNodes;
    if forall h :: 0 <= h < |nodes| ==> !Declares(nodes[h].opts, c) { BeforeGroup(t, nodes, c); }
    else {
      var h :| 0 <= h < |nodes| && Declares(nodes[h].opts, c);
      var g := LeastDeclaring(nodes, c, h);
    }
  }

  lemma {:induction false} LeastDeclaring(nodes: seq<Node>, c: int, h: nat) returns (g: nat)
    requires h < |nodes| && Declares(nodes[h].opts, c)
    ensures FirstGroup(nodes, c, g)
  {
    if forall k :: 0 <= k < h ==> !Declares(nodes[k].opts, c) { g := h; }
    else {
      var k :| 0 <= k < h && Declares(nodes[k].opts, c);
      g := LeastDeclaring(nodes, c, k);
    }
  }

  // --------------------------------------------------------- first declaration: long

  /** Entry j of group g is the first in the tree with the long name. */
  ghost predicate FirstLong(nodes: seq<Node>, name: string, g: nat, j: nat) {
    && g < |nodes| && j < |nodes[g].opts|
    && IsLong(nodes[g].opts, j) && nodes[g].opts[j].name.value == name
    && NoLong(nodes[g].opts, j, name)
    && forall h :: 0 <= h < g ==> NoLong(nodes[h].opts, |nodes[h].opts|, name)
  }

  /** None of the first n entries has the long name. */
  predicate NoLong(opts: seq<ArgpOption>, n: nat, name: string)
    requires n <= |opts|
  {
    forall j :: 0 <= j < n && IsLong(opts, j) ==> opts[j].name.value != name
  }

  /** The entry that `find_long_option` meets first. */
  predicate FoundLong(longs: seq<LongOption>, name: string, k: nat) {
    k < |longs| && longs[k].name == name && forall q :: 0 <= q < k ==> longs[q].name != name
  }

  lemma {:induction false} NoLongOptions(t: Tables, opts: seq<ArgpOption>, n: nat, g: nat, name: string)
    requires n <= |opts| && NoLong(opts, n, name) && !HasName(t.longs, name)
    ensures !HasName(AddOptions(t, opts, n, g).longs, name)
  {
    hide ShortOf;
    if n > 0 { NoLongOptions(t, opts, n - 1, g, name); }
  }

  lemma {:induction false} NoLongNodes(t: Tables, nodes: seq<Node>, name: string)
    requires !HasName(t.longs, name) && forall h :: 0 <= h < |nodes| ==> NoLong(nodes[h].opts, |nodes[h].opts|, name)
    ensures !HasName(AddNodes(t, nodes).longs, name)
  {
    hide AddOptions, NoLong;
    if |nodes| > 0 {
      var init, last := nodes[..|nodes| - 1], nodes[|nodes| - 1];
      NoLongNodes(t, init, name);
      NoLongOptions(AddNodes(t, init), last.opts, |last.opts|, |AddNodes(t, init).groups|, name);
    }
  }

  /** The long table keeps the first declaration of every name: its value carries
      that declaration's group and key. */
  lemma FirstLongWins(t: Tables, nodes: seq<Node>, name: string, g: nat, j: nat, m: nat) returns (k: nat)
    requires t.groups == [] && !HasName(t.longs, name) && FirstLong(nodes, name, g, j) && Nearest(nodes[g].opts, j, m)
    ensures FoundLong(AddNodes(t, nodes).longs, name, k)
    ensures IsEntry(AddNodes(t, nodes).longs[k], nodes[g].opts[j], nodes[g].opts[m], g)
  {
    hide AddNodes, HasName, NoLong, Encode, RealIndex, Nearest;
    k := FirstLongAt(t, nodes, name, g, j);
    CandidateMeans(nodes[g].opts, j, m);
  }

  lemma FirstLongAt(t: Tables, nodes: seq<Node>, name: string, g: nat, j: nat) returns (k: nat)
    requires t.groups == [] && !HasName(t.longs, name) && FirstLong(nodes, name, g, j)
    ensures FoundLong(AddNodes(t, nodes).longs, name, k)
    ensures AddNodes(t, nodes).longs[k].val == Encode(CandidateOf(nodes[g].opts, j).key, g)
    ensures AddNodes(t, nodes).longs[k].hasArg == CandidateOf(nodes[g].opts, j).hasArg
  {
    hide AddOptions, NoLong, AddNodes, HasName;
    var before := AddNodes(t, nodes[..g]);
    NoLongNodes(t, nodes[..g], name);
    NodesAdd(t, nodes[..g]);
    var opts := nodes[g].opts;
    NoLongOptions(before, opts, j, g, name);
    var mid := AddOptions(before, opts, j, g);
    var next := AddOptions(before, opts, j + 1, g);
    LongAdded(before, opts, j, g, name);
    LongsPrefix(before, opts, j + 1, |opts|, g);
    NodesPrefix(t, nodes, g);
    var all := AddNodes(t, nodes);
    k := |mid.longs|;
    assert next.longs <= all.longs;
    assert all.longs[k] == next.longs[k];
    assert forall q :: 0 <= q < k ==> all.longs[q] == mid.longs[q];
    NoNameBelow(mid.longs, name);
  }

  /** A name that is found has been declared. */
  lemma FoundIsDeclared(t: Tables, nodes: seq<Node>, name: string)
    requires !HasName(t.longs, name) && HasName(AddNodes(t, nodes).longs, name)
    ensures exists g, j :: FirstLong(nodes, name, g, j)
  {
    hide AddNodes, NoLong;
    if forall h :: 0 <= h < |nodes| ==> NoLong(nodes[h].opts, |nodes[h].opts|, name) { NoLongNodes(t, nodes, name); }
    else {
      var h :| 0 <= h < |nodes| && !NoLong(nodes[h].opts, |nodes[h].opts|, name);
      var g, j := LeastLong(nodes, name, h);
    }
  }

  lemma {:induction false} LeastLong(nodes: seq<Node>, name: string, h: nat) returns (g: nat, j: nat)
    requires h < |nodes| && !NoLong(nodes[h].opts, |nodes[h].opts|, name)
    ensures FirstLong(nodes, name, g, j)
  {
    hide NoLong;
    if forall k :: 0 <= k < h ==> NoLong(nodes[k].opts, |nodes[k].opts|, name) {
      g := h;
      j := LeastEntry(nodes[h].opts, |nodes[h].opts|, name);
    } else {
      var k :| 0 <= k < h && !NoLong(nodes[k].opts, |nodes[k].opts|, name);
      g, j := LeastLong(nodes, name, k);
    }
  }

  lemma {:induction false} LeastEntry(opts: seq<ArgpOption>, n: nat, name: string) returns (j: nat)
    requires n <= |opts| && !NoLong(opts, n, name)
    ensures j < n && IsLong(opts, j) && opts[j].name.value == name && NoLong(opts, j, name)
  {
    if NoLong(opts, n - 1, name) { j := n - 1; } else { j := LeastEntry(opts, n - 1, name); }
  }

  lemma NoNameBelow(longs: seq<LongOption>, name: string)
    requires !HasName(longs, name)
    ensures forall q :: 0 <= q < |longs| ==> longs[q].name != name
  {
  }

  lemma LongAdded(t: Tables, opts: seq<ArgpOption>, j: nat, g: nat, name: string)
    requires j < |opts| && IsLong(opts, j) && opts[j].name.value == name && !HasName(AddOptions(t, opts, j, g).longs, name)
    ensures var c := CandidateOf(opts, j);
      AddOptions(t, opts, j + 1, g).longs == AddOptions(t, opts, j, g).longs + [LongOption(c.name, c.hasArg, Encode(c.key, g))]
    ensures CandidateOf(opts, j).name == name
  {
    hide ShortOf, Encode;
  }

  lemma {:induction false} LongsPrefix(t: Tables, opts: seq<ArgpOption>, m: nat, n: nat, g: nat)
    requires m <= n <= |opts|
    ensures AddOptions(t, opts, m, g).longs <= AddOptions(t, opts, n, g).longs
    ensures AddOptions(t, opts, m, g).short <= AddOptions(t, opts, n, g).short
    decreases n
  {
    hide ShortOf, NewLong;
    if m < n { LongsPrefix(t, opts, m, n - 1, g); }
  }

  lemma NodesPrefix(t: Tables, nodes: seq<Node>, g: nat)
    requires g < |nodes| && |t.groups| == 0
    ensures AddOptions(AddNodes(t, nodes[..g]), nodes[g].opts, |nodes[g].opts|, g).longs <= AddNodes(t, nodes).longs
  {
    hide AddOptions;
    var upTo, rest := nodes[..g + 1], nodes[g + 1..];
    assert upTo[..g] == nodes[..g] && upTo + rest == nodes;
    NodesAdd(t, nodes[..g]);
    AddNodesTwice(t, upTo, rest);
    NodesAdd(AddNodes(t, upTo), rest);
  }

  /** A long name reaches the group and the key of its first declaration, if the
      key has 24 bits and the group is one of the first 127. */
  lemma LongDispatch(t: Tables, nodes: seq<Node>, name: string, g: nat, j: nat, m: nat, key: int) returns (k: nat)
    requires t.groups == [] && !HasName(t.longs, name) && FirstLong(nodes, name, g, j) && Nearest(nodes[g].opts, j, m)
    requires key == if nodes[g].opts[j].key != 0 then nodes[g].opts[j].key else nodes[g].opts[m].key
    requires g < 127 && -USER / 2 <= key < USER / 2
    ensures FoundLong(AddNodes(t, nodes).longs, name, k)
    ensures GroupKey(AddNodes(t, nodes).longs[k].val) - 1 == g && UserKey(AddNodes(t, nodes).longs[k].val) == key
  {
    hide AddNodes, Encode, GroupKey, UserKey, HasName, NoLong;
    k := FirstLongWins(t, nodes, name, g, j, m);
    EncodeExact(key, g);
  }

  /** The long option for an entry of group g and the entry it is an alias of. */
  predicate IsEntry(l: LongOption, opt: ArgpOption, main: ArgpOption, g: nat) {
    && opt.name == Some(l.name) && l.val == Encode(if opt.key != 0 then opt.key else main.key, g)
    && (l.hasArg == NoArgument <==> !main.hasArg)
    && (l.hasArg == OptionalArgument <==> main.hasArg && main.argOptional)
    && (l.hasArg == RequiredArgument <==> main.hasArg && !main.argOptional)
  }

  /** Where the letter of entry j of group g stands in the short options: it is
      followed by as many colons as the same entry's kind of argument asks for, and
      with them the part of the entry ends. */
  lemma LetterAndColons(t: Tables, nodes: seq<Node>, g: nat, j: nat, m: nat) returns (p: nat, n: nat)
    requires t.groups == [] && g < |nodes| && Nearest(nodes[g].opts, j, m)
    requires !nodes[g].opts[m].isDoc && IsShort(nodes[g].opts[j])
    ensures n == if !nodes[g].opts[m].hasArg then 0 else if nodes[g].opts[m].argOptional then 2 else 1
    ensures p + 1 + n <= |AddNodes(t, nodes).short|
    ensures AddNodes(t, nodes).short[p..p + 1 + n] == [nodes[g].opts[j].key] + seq(n, _ => COLON)
    ensures p == |AddOptions(AddNodes(t, nodes[..g]), nodes[g].opts, j, g).short|
    ensures p + 1 + n == |AddOptions(AddNodes(t, nodes[..g]), nodes[g].opts, j + 1, g).short|
  {
    hide AddNodes, AddOptions, NewLong, ShortOf;
    var before, opts := AddNodes(t, nodes[..g]), nodes[g].opts;
    n := if !opts[m].hasArg then 0 else if opts[m].argOptional then 2 else 1;
    EntryLetters(opts, j, m, n);
    NextEntry(before, opts, j, g);
    ShortGrows(t, nodes, g, j + 1);
    p := |AddOptions(before, opts, j, g).short|;
  }

  lemma EntryLetters(opts: seq<ArgpOption>, j: nat, m: nat, n: nat)
    requires Nearest(opts, j, m) && !opts[m].isDoc && IsShort(opts[j])
    requires n == if !opts[m].hasArg then 0 else if opts[m].argOptional then 2 else 1
    ensures ShortOf(opts, j) == [opts[j].key] + seq(n, _ => COLON)
  {
    RealIsNearest(opts, j, m);
  }

  lemma NextEntry(t: Tables, opts: seq<ArgpOption>, j: nat, g: nat)
    requires j < |opts|
    ensures AddOptions(t, opts, j + 1, g).short == AddOptions(t, opts, j, g).short + ShortOf(opts, j)
  {
  }

  /** The letters up to an entry are a prefix of all. */
  lemma ShortGrows(t: Tables, nodes: seq<Node>, g: nat, j: nat)
    requires t.groups == [] && g < |nodes| && j <= |nodes[g].opts|
    ensures AddOptions(AddNodes(t, nodes[..g]), nodes[g].opts, j, g).short <= AddNodes(t, nodes).short
  {
    hide AddOptions, ShortText;
    var before, opts := AddNodes(t, nodes[..g]), nodes[g].opts;
    NodesAdd(t, nodes[..g]);
    OptionsAdd(before, opts, j, g);
    OptionsAdd(before, opts, |opts|, g);
    ShortTextPrefix(opts, j, |opts|);
    var upTo := nodes[..g] + [nodes[g]];
    assert nodes == upTo + nodes[g + 1..];
    AddNodesTwice(t, upTo, nodes[g + 1..]);
    AddNodesTwice(t, nodes[..g], [nodes[g]]);
    OneMore(before, nodes[g]);
    NodesAdd(AddNodes(t, upTo), nodes[g + 1..]);
  }

  lemma OneMore(t: Tables, node: Node)
    ensures AddNodes(t, [node]) == AddNode(t, node)
  {
    assert AddNodes(t, []) == t;
  }

  lemma {:induction false} ShortTextPrefix(opts: seq<ArgpOption>, i: nat, n: nat)
    requires i <= n <= |opts|
    ensures ShortText(opts, i) <= ShortText(opts, n)
    decreases n
  {
    hide ShortOf;
    if i < n { ShortTextPrefix(opts, i, n - 1); }
  }

  // ------------------------------------------------------------------ child inputs

  /** The parent of node i, if it has one, is the group `up` with `limit` children
      or an earlier node, and has a slot for it. */
  predicate ParentOk(nodes: seq<Node>, base: nat, up: Option<nat>, limit: nat, i: nat)
    requires i < |nodes|
  {
    match nodes[i].parent
    case None => true
    case Some(p) =>
      || (up == Some(p) && nodes[i].parentIndex < limit)
      || (base <= p < base + i && nodes[i].parentIndex < nodes[p - base].childCount)
  }

  predicate ParentsOk(nodes: seq<Node>, base: nat, up: Option<nat>, limit: nat) {
    forall i :: 0 <= i < |nodes| ==> ParentOk(nodes, base, up, limit, i)
  }

  lemma ParentsJoin(a: seq<Node>, b: seq<Node>, base: nat, up: Option<nat>, la: nat, lb: nat, limit: nat)
    requires ParentsOk(a, base, up, la) && ParentsOk(b, base + |a|, up, lb) && la <= limit && lb <= limit
    ensures ParentsOk(a + b, base, up, limit)
  {
    forall i | 0 <= i < |a + b| ensures ParentOk(a + b, base, up, limit, i) {
      if i < |a| { assert ParentOk(a, base, up, la, i); } else { assert ParentOk(b, base + |a|, up, lb, i - |a|); }
    }
  }

  lemma {:induction false} ListParents(cs: seq<Argp>, path: Path, up: Option<nat>, base: nat)
    ensures ParentsOk(ListNodes(cs, path, up, base), base, up, |cs|)
    decreases cs
  {
    hide Nodes, ParentsOk;
    if |cs| > 0 {
      var k := |cs| - 1;
      var init := ListNodes(cs[..k], path, up, base);
      ListParents(cs[..k], path, up, base);
      ChildInputs(cs[k], path + [k], up, k, base + |init|);
      ParentsJoin(init, Nodes(cs[k], path + [k], up, k, base + |init|), base, up, k, k + 1, |cs|);
    } else {
      NoParents(base, up);
    }
  }

  lemma NoParents(base: nat, up: Option<nat>)
    ensures ParentsOk([], base, up, 0)
  {
  }

  /** Every group that has a parent group finds its input in a slot of that
      parent. */
  lemma {:induction false} ChildInputs(a: Argp, path: Path, up: Option<nat>, index: nat, base: nat)
    ensures ParentsOk(Nodes(a, path, up, index, base), base, up, index + 1)
    decreases a
  {
    hide ListNodes;
    var limit := index + 1;
    if IsGroup(a) {
      var own := Node(path, Table(a), a.hasParser, up, index, |a.children|);
      var rest := ListNodes(a.children, path, Some(base), base + 1);
      ListParents(a.children, path, Some(base), base + 1);
      var all := [own] + rest;
      forall i | 0 <= i < |all| ensures ParentOk(all, base, up, limit, i) {
        if i > 0 { assert ParentOk(rest, base + 1, Some(base), |a.children|, i - 1); }
      }
    } else {
      var rest := ListNodes(a.children, path, None, base);
      ListParents(a.children, path, None, base);
      forall i | 0 <= i < |rest| ensures ParentOk(rest, base, up, limit, i) {
        assert ParentOk(rest, base, None, |a.children|, i);
      }
    }
  }
}
