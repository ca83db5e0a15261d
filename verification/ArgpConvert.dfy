/** Reserving and filling the tables (argp/argp-parse.c: `calc_sizes`,
    `parser_init`, `parser_convert`, `convert_options`, and the choice of the
    group in `parser_parse_opt`). */
module ArgpConvert {
  import opened Basics
  import opened ArgpTree
  import opened ArgpOptions
  import opened ArgpTables

  // ---------------------------------------------------------------------- sizes

  function OptionTotal(a: Argp): nat { |Table(a)| + ListOptionTotal(a.children) }

  function ListOptionTotal(cs: seq<Argp>): nat {
    if |cs| == 0 then 0 else ListOptionTotal(cs[..|cs| - 1]) + OptionTotal(cs[|cs| - 1])
  }

  function GroupTotal(a: Argp): nat { (if IsGroup(a) then 1 else 0) + ListGroupTotal(a.children) }

  function ListGroupTotal(cs: seq<Argp>): nat {
    if |cs| == 0 then 0 else ListGroupTotal(cs[..|cs| - 1]) + GroupTotal(cs[|cs| - 1])
  }

  /** Every child in the tree has an input slot. */
  function ChildTotal(a: Argp): nat { ListChildTotal(a.children) }

  function ListChildTotal(cs: seq<Argp>): nat {
    if |cs| == 0 then 0 else ListChildTotal(cs[..|cs| - 1]) + ChildTotal(cs[|cs| - 1]) + 1
  }

  /** `struct parser_sizes` */
  datatype Sizes = Sizes(shortLen: nat, longLen: nat, numGroups: nat, numChildInputs: nat)

  /** `calc_sizes` */
  method CalcSizes(a: Argp, s: Sizes) returns (r: Sizes)
    ensures r == Sizes(s.shortLen + 3 * OptionTotal(a), s.longLen + OptionTotal(a),
                       s.numGroups + GroupTotal(a), s.numChildInputs + ChildTotal(a))
    decreases a
  {
    r := s;
    if a.options.Some? || a.hasParser {
      r := r.(numGroups := r.numGroups + 1);
      if a.options.Some? {
        var numOpts := |a.options.value|;
        r := r.(shortLen := r.shortLen + numOpts * 3, longLen := r.longLen + numOpts);
      }
    }
    ghost var own := r;
    ghost var cs := a.children;
    for i := 0 to |a.children|
      invariant r == Sizes(own.shortLen + 3 * ListOptionTotal(cs[..i]), own.longLen + ListOptionTotal(cs[..i]),
                           own.numGroups + ListGroupTotal(cs[..i]), own.numChildInputs + ListChildTotal(cs[..i]))
    {
      assert cs[..i + 1][..i] == cs[..i];
      r := CalcSizes(a.children[i], r);
      r := r.(numChildInputs := r.numChildInputs + 1);
    }
    assert cs[..|cs|] == cs;
  }

  lemma {:induction false} SumsAppend(a: seq<Node>, b: seq<Node>)
    ensures OptionSum(a + b) == OptionSum(a) + OptionSum(b) && InputSum(a + b) == InputSum(a) + InputSum(b)
    ensures ShortSum(a + b) == ShortSum(a) + ShortSum(b)
  {
    hide ShortText;
    if |b| == 0 { assert a + b == a; }
    else {
      SumsAppend(a, b[..|b| - 1]);
      assert (a + b)[..|a + b| - 1] == a + b[..|b| - 1];
    }
  }

  /** What is counted is what the flattened tree has; input slots may be left
      over below an argp that is no group. */
  lemma {:induction false} NodesTotals(a: Argp, path: Path, parent: Option<nat>, index: nat, base: nat)
    ensures var n := Nodes(a, path, parent, index, base);
      |n| == GroupTotal(a) && OptionSum(n) == OptionTotal(a) && InputSum(n) <= ChildTotal(a)
    decreases a
  {
    if IsGroup(a) {
      var own := [Node(path, Table(a), a.hasParser, parent, index, |a.children|)];
      var rest := ListNodes(a.children, path, Some(base), base + 1);
      ListNodesTotals(a.children, path, Some(base), base + 1);
      SumsAppend(own, rest);
      assert own[..0] == [];
    } else {
      ListNodesTotals(a.children, path, None, base);
    }
  }

  lemma {:induction false} ListNodesTotals(cs: seq<Argp>, path: Path, parent: Option<nat>, base: nat)
    ensures var n := ListNodes(cs, path, parent, base);
      |n| == ListGroupTotal(cs) && OptionSum(n) == ListOptionTotal(cs) && InputSum(n) + |cs| <= ListChildTotal(cs)
    decreases cs
  {
    hide Nodes, ListNodes, OptionSum, InputSum, ListGroupTotal, ListOptionTotal, ListChildTotal, GroupTotal, OptionTotal, ChildTotal;
    if |cs| > 0 {
      var k := |cs| - 1;
      ListNodesTotals(cs[..k], path, parent, base);
      var init := ListNodes(cs[..k], path, parent, base);
      NodesTotals(cs[k], path + [k], parent, k, base + |init|);
      SumsAppend(init, Nodes(cs[k], path + [k], parent, k, base + |init|));
      ListNodesUnfold(cs, path, parent, base);
      TotalsUnfold(cs);
    } else {
      ListEmpty(path, parent, base);
    }
  }

  lemma ListEmpty(path: Path, parent: Option<nat>, base: nat)
    ensures ListNodes([], path, parent, base) == [] && OptionSum([]) == 0 && InputSum([]) == 0
    ensures ListGroupTotal([]) == 0 && ListOptionTotal([]) == 0 && ListChildTotal([]) == 0
  {
  }

  lemma TotalsUnfold(cs: seq<Argp>)
    requires |cs| > 0
    ensures ListGroupTotal(cs) == ListGroupTotal(cs[..|cs| - 1]) + GroupTotal(cs[|cs| - 1])
    ensures ListOptionTotal(cs) == ListOptionTotal(cs[..|cs| - 1]) + OptionTotal(cs[|cs| - 1])
    ensures ListChildTotal(cs) == ListChildTotal(cs[..|cs| - 1]) + ChildTotal(cs[|cs| - 1]) + 1
  {
    hide GroupTotal, OptionTotal, ChildTotal;
  }

  // --------------------------------------------------------------------- filling

  function Values(s: seq<Option<LongOption>>): (v: seq<LongOption>)
    requires forall i :: 0 <= i < |s| ==> s[i].Some?
    ensures |v| == |s| && forall i :: 0 <= i < |s| ==> v[i] == s[i].value
  {
    seq(|s|, i requires 0 <= i < |s| => s[i].value)
  }

  /** The parser's tables with their cursors. */
  class Parser {
    const shortOpts: array<int>
    const longOpts: array<Option<LongOption>>
    const groups: array<Group>
    const numInputs: nat
    var shortEnd: nat
    var longEnd: nat
    var egroup: nat
    var inputsEnd: nat

    /** The cursors are in their tables, and both option tables are terminated. */
    ghost predicate Valid()
      reads this, shortOpts, longOpts, groups
    {
      && shortEnd < shortOpts.Length && shortOpts[shortEnd] == 0
      && longEnd < longOpts.Length && longOpts[longEnd].None? && (forall i :: 0 <= i < longEnd ==> longOpts[i].Some?)
      && egroup <= groups.Length && inputsEnd <= numInputs
    }

    /** What the tables hold. */
    ghost function T(): Tables
      reads this, shortOpts, longOpts, groups
      requires Valid()
    {
      Tables(shortOpts[..shortEnd], Values(longOpts[..longEnd]), groups[..egroup], inputsEnd)
    }

    /** There is room for the given contents, terminators included. */
    ghost predicate Room(t: Tables) {
      |t.short| < shortOpts.Length && |t.longs| < longOpts.Length && |t.groups| <= groups.Length && t.inputs <= numInputs
    }

    /** The allocation in `parser_init` and the start of `parser_convert`. */
    constructor (s: Sizes, inOrder: bool, noArgs: bool)
      requires |Prefix(inOrder, noArgs)| <= s.shortLen
      ensures Valid() && T() == Start(inOrder, noArgs)
      ensures fresh(shortOpts) && fresh(longOpts) && fresh(groups)
      ensures shortOpts.Length == s.shortLen + 1 && longOpts.Length == s.longLen + 1
      ensures groups.Length == s.numGroups + 1 && numInputs == s.numChildInputs
    {
      shortOpts := new int[s.shortLen + 1](_ => 0);
      longOpts := new Option<LongOption>[s.longLen + 1](_ => None);
      groups := new Group[s.numGroups + 1](_ => Group(Node([], [], false, None, 0, 0), 0, 0));
      numInputs := s.numChildInputs;
      shortEnd, longEnd, egroup, inputsEnd := 0, 0, 0, 0;
      new;
      if inOrder { PutShort(DASH); } else if noArgs { PutShort(PLUS); }
    }

    /** `*cvt->short_end++ = c`, with a zero kept behind it. */
    method PutShort(c: int)
      requires Valid() && shortEnd + 1 < shortOpts.Length
      modifies this`shortEnd, shortOpts
      ensures Valid() && T() == old(T()).(short := old(T()).short + [c])
    {
      shortOpts[shortEnd] := c;
      shortEnd := shortEnd + 1;
      shortOpts[shortEnd] := 0;
    }

    /** `find_long_option`; None if there is no such name. */
    method FindLong(name: string) returns (k: Option<nat>)
      requires Valid()
      ensures k.None? <==> !HasName(T().longs, name)
      ensures k.Some? ==> FoundLong(T().longs, name, k.value)
    {
      var l := 0;
      while longOpts[l].Some?
        invariant l <= longEnd && forall q :: 0 <= q < l ==> longOpts[q].value.name != name
        decreases longEnd - l
      {
        if longOpts[l].value.name == name {
          assert T().longs[l].name == name;
          return Some(l);
        }
        l := l + 1;
      }
      k := None;
    }

    /** One entry of an option table, whose last non-alias is `main`. */
    method AddOption(opts: seq<ArgpOption>, i: nat, main: ArgpOption, g: nat, ghost t: Tables)
      requires Valid() && i < |opts| && main == Real(opts, i)
      requires T() == AddOptions(t, opts, i, g) && Room(AddOptions(t, opts, i + 1, g))
      modifies this`shortEnd, this`longEnd, shortOpts, longOpts
      ensures Valid() && T() == AddOptions(t, opts, i + 1, g)
    {
      hide AddOptions, Encode, HasName;
      var opt := opts[i];
      OptionStep(t, opts, i, g);
      ghost var was := T();
      if !main.isDoc {
        if IsShort(opt) { AddShort(opt.key, main); }
        assert T().short == was.short + ShortOf(opts, i);
        assert T() == was.(short := T().short);
        if opt.name.Some? {
          var k := FindLong(opt.name.value);
          if k.None? {
            AddLong(LongOption(
              opt.name.value,
              if main.hasArg then (if main.argOptional then OptionalArgument else RequiredArgument) else NoArgument,
              Encode(if opt.key != 0 then opt.key else main.key, g)));
          }
        }
      }
    }

    method AddShort(key: int, main: ArgpOption)
      requires Valid() && shortEnd + (if !main.hasArg then 1 else if main.argOptional then 3 else 2) < shortOpts.Length
      modifies this`shortEnd, shortOpts
      ensures Valid() && T() == old(T()).(short := old(T()).short + ([key]
                + (if !main.hasArg then [] else if main.argOptional then [COLON, COLON] else [COLON])))
    {
      PutShort(key);
      if main.hasArg {
        PutShort(COLON);
        if main.argOptional { PutShort(COLON); }
      }
    }

    method AddLong(l: LongOption)
      requires Valid() && longEnd + 1 < longOpts.Length
      modifies this`longEnd, longOpts
      ensures Valid() && T() == old(T()).(longs := old(T()).longs + [l])
    {
      longOpts[longEnd] := Some(l);
      longEnd := longEnd + 1;
      longOpts[longEnd] := None;
      assert longOpts[..longEnd] == old(longOpts[..longEnd]) + [Some(l)];
    }

    /** The loop over a table. */
    method AddTable(opts: seq<ArgpOption>, g: nat)
      requires Valid() && Room(AddOptions(T(), opts, |opts|, g))
      modifies this`shortEnd, this`longEnd, shortOpts, longOpts
      ensures Valid() && T() == AddOptions(old(T()), opts, |opts|, g)
    {
      hide AddOptions;
      ghost var t := T();
      NoOptions(t, opts, g);
      if |opts| > 0 {
        var main := opts[0];
        for i := 0 to |opts|
          invariant Valid() && T() == AddOptions(t, opts, i, g)
          invariant main == opts[if i == 0 then 0 else RealIndex(opts, i - 1)]
        {
          if !opts[i].isAlias { main := opts[i]; }
          LongsPrefix(t, opts, i + 1, |opts|, g);
          AddOption(opts, i, main, g, t);
        }
      }
    }

    /** A group's own table and its entry in the list of groups. */
    method AddGroup(node: Node)
      requires Valid() && Room(AddNode(T(), node))
      modifies this, shortOpts, longOpts, groups
      ensures Valid() && T() == AddNode(old(T()), node)
    {
      hide AddOptions;
      AddTable(node.opts, egroup);
      groups[egroup] := Group(node, shortEnd, inputsEnd);
      inputsEnd := inputsEnd + node.childCount;
      egroup := egroup + 1;
    }

    lemma CountsGroups()
      requires Valid()
      ensures egroup == |T().groups|
    {
    }

    lemma RoomLess(t: Tables, some: seq<Node>, all: seq<Node>)
      requires some <= all && Room(AddNodes(t, all))
      ensures Room(AddNodes(t, some))
    {
      Smaller(t, some, all);
    }

    /** `convert_options` */
    method ConvertOptions(a: Argp, path: Path, parent: Option<nat>, index: nat)
      requires Valid() && Room(AddNodes(T(), Nodes(a, path, parent, index, egroup)))
      modifies this, shortOpts, longOpts, groups
      ensures Valid() && T() == AddNodes(old(T()), Nodes(a, path, parent, index, old(egroup)))
      decreases a, 1
    {
      hide AddNode, AddNodes, ListNodes, Nodes;
      NodesFirst(T(), a, path, parent, index, egroup);
      var up := None;
      if IsGroup(a) {
        up := Some(egroup);
        AddGroup(Node(path, Table(a), a.hasParser, parent, index, |a.children|));
        CountsGroups();
      }
      ConvertChildren(a, path, up);
    }

    method ConvertChildren(a: Argp, path: Path, up: Option<nat>)
      requires Valid() && Room(AddNodes(T(), ListNodes(a.children, path, up, egroup)))
      modifies this, shortOpts, longOpts, groups
      ensures Valid() && T() == AddNodes(old(T()), ListNodes(a.children, path, up, old(egroup)))
      decreases a, 0
    {
      hide AddNodes, ListNodes, Nodes, Parser.Valid, Parser.T, Parser.Room;
      ghost var start, base, cs := T(), egroup, a.children;
      ghost var all := ListNodes(cs, path, up, base);
      CountsGroups();
      ListStart(start, path, up, base);
      assert cs[..0] == [];
      for i := 0 to |a.children|
        invariant Valid() && T() == AddNodes(start, ListNodes(cs[..i], path, up, base))
      {
        ghost var done := ListNodes(cs[..i], path, up, base);
        ghost var more := Nodes(cs[i], path + [i], up, i, base + |done|);
        NodesAdd(start, done);
        CountsGroups();
        ListNext(cs, i, path, up, base);
        AddNodesTwice(start, done, more);
        RoomLess(start, done + more, all);
        ConvertOptions(a.children[i], path + [i], up, i);
      }
      assert cs[..|cs|] == cs;
    }
  }

  /** The group of an argp comes before those of its children. */
  lemma NodesFirst(t: Tables, a: Argp, path: Path, parent: Option<nat>, index: nat, n: nat)
    requires |t.groups| == n
    ensures IsGroup(a) ==>
      var node := Node(path, Table(a), a.hasParser, parent, index, |a.children|);
      && AddNodes(t, Nodes(a, path, parent, index, n)) == AddNodes(AddNode(t, node), ListNodes(a.children, path, Some(n), n + 1))
      && |AddNode(t, node).groups| == n + 1
      && |AddNode(t, node).short| <= |AddNodes(t, Nodes(a, path, parent, index, n)).short|
      && |AddNode(t, node).longs| <= |AddNodes(t, Nodes(a, path, parent, index, n)).longs|
      && |AddNode(t, node).groups| <= |AddNodes(t, Nodes(a, path, parent, index, n)).groups|
      && AddNode(t, node).inputs <= AddNodes(t, Nodes(a, path, parent, index, n)).inputs
    ensures !IsGroup(a) ==> Nodes(a, path, parent, index, n) == ListNodes(a.children, path, None, n)
  {
    hide ListNodes, AddOptions;
    if IsGroup(a) {
      var node := Node(path, Table(a), a.hasParser, parent, index, |a.children|);
      var rest := ListNodes(a.children, path, Some(n), n + 1);
      AddNodesTwice(t, [node], rest);
      assert [node][..0] == [];
      assert AddNodes(t, [node]) == AddNode(t, node);
      NodesAdd(AddNode(t, node), rest);
    }
  }

  lemma ListStart(t: Tables, path: Path, up: Option<nat>, base: nat)
    ensures AddNodes(t, ListNodes([], path, up, base)) == t
  {
  }

  lemma {:induction false} ListNext(cs: seq<Argp>, i: nat, path: Path, up: Option<nat>, base: nat)
    requires i < |cs|
    ensures var done := ListNodes(cs[..i], path, up, base);
      var more := Nodes(cs[i], path + [i], up, i, base + |done|);
      ListNodes(cs[..i + 1], path, up, base) == done + more && done + more <= ListNodes(cs, path, up, base)
    decreases |cs| - i
  {
    hide Nodes, ListNodes;
    var some := cs[..i + 1];
    assert some[..i] == cs[..i] && some[i] == cs[i];
    ListNodesUnfold(some, path, up, base);
    if i + 1 < |cs| { ListNext(cs, i + 1, path, up, base); } else { assert some == cs; }
  }

  lemma ListNodesUnfold(cs: seq<Argp>, path: Path, up: Option<nat>, base: nat)
    requires |cs| > 0
    ensures var init := ListNodes(cs[..|cs| - 1], path, up, base);
      ListNodes(cs, path, up, base) == init + Nodes(cs[|cs| - 1], path + [|cs| - 1], up, |cs| - 1, base + |init|)
  {
    hide Nodes;
  }

  /** The tables of the first groups are no larger than those of all. */
  lemma Smaller(t: Tables, some: seq<Node>, all: seq<Node>)
    requires some <= all
    ensures var u, v := AddNodes(t, some), AddNodes(t, all);
      |u.short| <= |v.short| && |u.longs| <= |v.longs| && |u.groups| <= |v.groups| && u.inputs <= v.inputs
  {
    hide AddNodes;
    assert all == some + all[|some|..];
    AddNodesTwice(t, some, all[|some|..]);
    NodesAdd(AddNodes(t, some), all[|some|..]);
  }

  lemma NoOptions(t: Tables, opts: seq<ArgpOption>, g: nat)
    ensures AddOptions(t, opts, 0, g) == t
  {
  }

  lemma OptionStep(t: Tables, opts: seq<ArgpOption>, i: nat, g: nat)
    requires i < |opts|
    ensures var u := AddOptions(t, opts, i, g);
      AddOptions(t, opts, i + 1, g) == u.(short := u.short + ShortOf(opts, i), longs := u.longs + NewLong(u.longs, opts, i, g))
  {
  }

  function Prefix(inOrder: bool, noArgs: bool): seq<int> {
    if inOrder then [DASH] else if noArgs then [PLUS] else []
  }

  function Start(inOrder: bool, noArgs: bool): Tables { Tables(Prefix(inOrder, noArgs), [], [], 0) }

  // ---------------------------------------------------------------- the whole tree

  function AllNodes(argp: Option<Argp>): seq<Node> {
    if argp.Some? then Nodes(argp.value, [], None, 0, 0) else []
  }

  /** `parser_init` reserves a character for the mark that stands before the
      options only if ARGP_NO_ARGS is clear. */
  function Reserved(argp: Option<Argp>, noArgs: bool): nat {
    (if noArgs then 0 else 1) + (if argp.Some? then 3 * OptionTotal(argp.value) else 0)
  }

  /** What is written: the mark, the options, and the final zero. */
  function Written(argp: Option<Argp>, inOrder: bool, noArgs: bool): nat {
    |Prefix(inOrder, noArgs)| + ShortSum(AllNodes(argp)) + 1
  }

  /** Some entry writes fewer than three characters. */
  predicate Slack(nodes: seq<Node>) {
    exists g, j :: 0 <= g < |nodes| && 0 <= j < |nodes[g].opts| && |ShortOf(nodes[g].opts, j)| < 3
  }

  lemma {:induction false} TextFull(opts: seq<ArgpOption>, n: nat)
    requires n <= |opts|
    ensures |ShortText(opts, n)| == 3 * n <==> forall j :: 0 <= j < n ==> |ShortOf(opts, j)| == 3
  {
    hide ShortOf;
    if n > 0 { TextFull(opts, n - 1); }
  }

  lemma {:induction false} SumFull(nodes: seq<Node>)
    ensures ShortSum(nodes) <= 3 * OptionSum(nodes)
    ensures ShortSum(nodes) == 3 * OptionSum(nodes) <==> !Slack(nodes)
  {
    hide ShortOf, ShortText;
    if |nodes| > 0 {
      var init, last := nodes[..|nodes| - 1], nodes[|nodes| - 1];
      SumFull(init);
      TextFull(last.opts, |last.opts|);
      if Slack(init) {
        var g, j :| 0 <= g < |init| && 0 <= j < |init[g].opts| && |ShortOf(init[g].opts, j)| < 3;
        assert nodes[g] == init[g];
      } else if |ShortText(last.opts, |last.opts|)| < 3 * |last.opts| {
        var j :| 0 <= j < |last.opts| && |ShortOf(last.opts, j)| != 3;
        assert nodes[|nodes| - 1].opts == last.opts;
      } else {
        forall g, j | 0 <= g < |nodes| && 0 <= j < |nodes[g].opts| ensures |ShortOf(nodes[g].opts, j)| == 3 {
          if g < |init| { assert nodes[g] == init[g]; }
        }
      }
    }
  }

  /** The short option string fits in what was reserved, exactly unless
      ARGP_NO_ARGS is set and every entry writes three characters. */
  lemma ShortFits(argp: Option<Argp>, inOrder: bool, noArgs: bool)
    ensures Written(argp, inOrder, noArgs) <= Reserved(argp, noArgs) + 1 <==> (!noArgs || Slack(AllNodes(argp)))
  {
    hide ShortText, Slack, Nodes;
    SumFull(AllNodes(argp));
    if argp.Some? { NodesTotals(argp.value, [], None, 0, 0); }
  }

  /** With ARGP_NO_ARGS and no options the mark and the zero need two characters
      and one is reserved. */
  lemma NoArgsOverrun()
    ensures Written(None, false, true) == 2 && Reserved(None, true) + 1 == 1
  {
  }

  /** All tables as `parser_init` makes them: everything written fits in what
      `calc_sizes` reserved. */
  method ParserInit(argp: Option<Argp>, inOrder: bool, noArgs: bool) returns (p: Parser)
    requires !noArgs || Slack(AllNodes(argp))
    ensures fresh(p) && fresh(p.shortOpts) && fresh(p.longOpts) && fresh(p.groups)
    ensures p.Valid() && p.T() == AddNodes(Start(inOrder, noArgs), AllNodes(argp))
    ensures p.shortOpts.Length == Reserved(argp, noArgs) + 1
    ensures p.groups.Length == |AllNodes(argp)| + 1 && |p.T().groups| == |AllNodes(argp)|
  {
    hide AddNodes, Slack, Nodes, ShortSum;
    var szs := Sizes(if noArgs then 0 else 1, 0, 0, 0);
    ShortFits(argp, inOrder, noArgs);
    NodesAdd(Start(inOrder, noArgs), AllNodes(argp));
    if argp.Some? {
      NodesTotals(argp.value, [], None, 0, 0);
      szs := CalcSizes(argp.value, szs);
    }
    SumFull(AllNodes(argp));
    p := new Parser(szs, inOrder, noArgs);
    if argp.Some? {
      p.ConvertOptions(argp.value, [], None, 0);
    } else {
      NoNodes(Start(inOrder, noArgs));
    }
  }

  lemma NoNodes(t: Tables)
    ensures AddNodes(t, []) == t
  {
  }

  // -------------------------------------------------------------- choosing a group

  /** `strchr (short_opts, c)` */
  method FindShort(p: Parser, c: int) returns (at: Option<nat>)
    requires p.Valid() && c != 0
    ensures at.None? ==> c !in p.T().short
    ensures at.Some? ==> FirstIn(p.T().short, c, at.value)
  {
    var i := 0;
    while i < p.shortEnd
      invariant i <= p.shortEnd && forall q :: 0 <= q < i ==> p.shortOpts[q] != c
    {
      if p.shortOpts[i] == c { return Some(i); }
      i := i + 1;
    }
    at := None;
  }

  /** The group whose parser gets a short option: the first in the tree that
      declares it; none if no group does. */
  method GroupOfShort(p: Parser, c: int, ghost argp: Option<Argp>, ghost inOrder: bool, ghost noArgs: bool) returns (g: Option<nat>)
    requires p.Valid() && p.T() == AddNodes(Start(inOrder, noArgs), AllNodes(argp)) && OrdinaryKey(c) && c != 0
    ensures g.Some? ==> FirstGroup(AllNodes(argp), c, g.value)
    ensures g.None? ==> forall h :: 0 <= h < |AllNodes(argp)| ==> !Declares(AllNodes(argp)[h].opts, c)
  {
    hide AddNodes, AllNodes, Declares;
    ghost var t, nodes := Start(inOrder, noArgs), AllNodes(argp);
    NodesAdd(t, nodes);
    var at := FindShort(p, c);
    if at.None? {
      forall h | 0 <= h < |nodes| ensures !Declares(nodes[h].opts, c) { if Declares(nodes[h].opts, c) { Occurs(t, nodes, c, h); } }
      return None;
    }
    NoOccurrence(t, nodes, c);
    ghost var want: nat :| FirstGroup(nodes, c, want);
    FirstOccurrence(t, nodes, c, want, at.value);
    GroupsAdd(t, nodes, want);
    var i := 0;
    while i < p.egroup
      invariant i <= want
      decreases p.egroup - i
    {
      if p.groups[i].shortEnd > at.value {
        if i < want {
          GroupsAdd(t, nodes, i);
          Smaller(t, nodes[..i + 1], nodes[..want]);
        }
        assert i == want;
        return Some(i);
      }
      assert p.T().groups[want] == p.groups[want];
      i := i + 1;
    }
    assert false;
  }

  lemma Occurs(t: Tables, nodes: seq<Node>, c: int, h: nat)
    requires h < |nodes| && c != COLON && Declares(nodes[h].opts, c)
    ensures c in AddNodes(t, nodes).short
  {
    hide AddOptions, ShortText, Declares;
    GroupsAdd(t, nodes, h);
    var before := AddNodes(t, nodes[..h]);
    assert nodes[..h + 1][..h] == nodes[..h];
    OptionsAdd(before, nodes[h].opts, |nodes[h].opts|, |before.groups|);
    TextHas(nodes[h].opts, c);
    assert c in AddNodes(t, nodes[..h + 1]).short;
  }
}
