/** The lists of sets and messages that gencat keeps while it reads its input
    (catgets/gencat.c). A linked list is a sequence that is reassigned. */
module CatalogLists {
  import opened Basics
  import opened ByteOrder
  import opened CatalogLines

  /** A message has a symbol if its number was chosen by gencat. */
  datatype Message = Message(number: int, text: seq<byte>, symbol: Option<string>)

  datatype MessageSet = MessageSet(number: int, messages: seq<Message>, last: int)

  predicate Ascending(ms: seq<Message>) {
    forall i, j :: 0 <= i < j < |ms| ==> ms[i].number < ms[j].number
  }

  predicate SymbolsDistinct(ms: seq<Message>) {
    forall i, j :: 0 <= i < j < |ms| && ms[i].symbol.Some? ==> ms[i].symbol != ms[j].symbol
  }

  /** Ascending and positive: what the output needs. */
  predicate ListOk(ms: seq<Message>) {
    Ascending(ms) && forall i :: 0 <= i < |ms| ==> ms[i].number >= 1
  }

  /** What every input line keeps: besides, numbers up to `last` and no symbol
      twice. */
  predicate SetOk(s: MessageSet) {
    && ListOk(s.messages) && SymbolsDistinct(s.messages)
    && s.last >= 0 && forall i :: 0 <= i < |s.messages| ==> s.messages[i].number <= s.last
  }

  /** The list as a map from numbers to messages. */
  function Contents(ms: seq<Message>): map<int, Item> {
    if |ms| == 0 then map[]
    else
      var m := ms[|ms| - 1];
      Contents(ms[..|ms| - 1])[m.number := Item(m.text, m.symbol)]
  }

  predicate HasNumber(ms: seq<Message>, n: int) { exists i :: 0 <= i < |ms| && ms[i].number == n }

  predicate HasSymbol(ms: seq<Message>, s: string) { exists i :: 0 <= i < |ms| && ms[i].symbol == Some(s) }

  // ------------------------------------------------------------- insertion

  lemma {:induction false} ContentsMeans(ms: seq<Message>)
    requires Ascending(ms)
    ensures forall n :: n in Contents(ms) <==> HasNumber(ms, n)
    ensures forall i :: 0 <= i < |ms| ==> ms[i].number in Contents(ms) && Contents(ms)[ms[i].number] == Item(ms[i].text, ms[i].symbol)
  {
    if |ms| > 0 {
      var init, last := ms[..|ms| - 1], ms[|ms| - 1];
      ContentsMeans(init);
      assert forall i :: 0 <= i < |init| ==> init[i] == ms[i];
      forall n ensures HasNumber(ms, n) <==> HasNumber(init, n) || n == last.number {
        if HasNumber(init, n) { var i :| 0 <= i < |init| && init[i].number == n; assert ms[i].number == n; }
        if n == last.number { assert ms[|ms| - 1].number == n; }
      }
    }
  }

  /** A message is in a map under its number. */
  predicate InMap(m: Message, c: map<int, Item>) {
    m.number in c && c[m.number] == Item(m.text, m.symbol)
  }

  lemma ContentsAt(ms: seq<Message>, i: nat)
    requires Ascending(ms) && i < |ms|
    ensures InMap(ms[i], Contents(ms))
  {
    ContentsMeans(ms);
  }

  lemma ContentsIndex(ms: seq<Message>, n: int) returns (i: nat)
    requires Ascending(ms) && n in Contents(ms)
    ensures i < |ms| && ms[i].number == n
  {
    ContentsMeans(ms);
    i :| 0 <= i < |ms| && ms[i].number == n;
  }

  /** A list with a map's numbers and items has it as its contents. */
  lemma ContentsAre(ms: seq<Message>, c: map<int, Item>)
    requires Ascending(ms)
    requires forall i :: 0 <= i < |ms| ==> InMap(ms[i], c)
    requires forall n :: n in c ==> HasNumber(ms, n)
    ensures Contents(ms) == c
  {
    hide Contents, Ascending;
    forall n | n in Contents(ms) ensures n in c && Contents(ms)[n] == c[n] {
      var i := ContentsIndex(ms, n);
      ContentsAt(ms, i);
      assert InMap(ms[i], c);
    }
    forall n | n in c ensures n in Contents(ms) {
      assert HasNumber(ms, n);
      var i :| 0 <= i < |ms| && ms[i].number == n;
      ContentsAt(ms, i);
    }
    assert Contents(ms).Keys == c.Keys;
  }

  /** Insertion before the first larger number. */
  method Insert(ms: seq<Message>, m: Message) returns (r: seq<Message>)
    requires ListOk(ms) && m.number >= 1 && !HasNumber(ms, m.number)
    ensures ListOk(r) && Contents(r) == Contents(ms)[m.number := Item(m.text, m.symbol)]
    ensures exists k :: 0 <= k <= |ms| && r == ms[..k] + [m] + ms[k..]
  {
    hide Contents;
    if |ms| == 0 || ms[0].number > m.number {
      r := [m] + ms;
      assert r == ms[..0] + [m] + ms[0..];
      Spliced(ms, 0, m);
    } else {
      var run := 0;
      while run + 1 < |ms| && ms[run + 1].number <= m.number
        invariant run < |ms| && ms[run].number <= m.number
      {
        run := run + 1;
      }
      r := ms[..run + 1] + [m] + ms[run + 1..];
      Spliced(ms, run + 1, m);
    }
  }

  lemma Spliced(ms: seq<Message>, k: nat, m: Message)
    requires ListOk(ms) && m.number >= 1 && k <= |ms| && !HasNumber(ms, m.number)
    requires k > 0 ==> ms[k - 1].number <= m.number
    requires k < |ms| ==> ms[k].number > m.number
    ensures ListOk(ms[..k] + [m] + ms[k..])
    ensures Contents(ms[..k] + [m] + ms[k..]) == Contents(ms)[m.number := Item(m.text, m.symbol)]
  {
    hide Contents;
    SplicedOrder(ms, k, m);
    SplicedContents(ms, k, m);
  }

  lemma SplicedContents(ms: seq<Message>, k: nat, m: Message)
    requires Ascending(ms) && k <= |ms| && !HasNumber(ms, m.number) && Ascending(ms[..k] + [m] + ms[k..])
    ensures Contents(ms[..k] + [m] + ms[k..]) == Contents(ms)[m.number := Item(m.text, m.symbol)]
  {
    hide Contents, Ascending;
    var r := ms[..k] + [m] + ms[k..];
    var c := Contents(ms)[m.number := Item(m.text, m.symbol)];
    forall i | 0 <= i < |r| ensures InMap(r[i], c) {
      if i != k {
        var j := if i < k then i else i - 1;
        assert r[i] == ms[j] && ms[j].number != m.number;
        ContentsAt(ms, j);
      }
    }
    forall n | n in c ensures HasNumber(r, n) {
      if n == m.number { assert r[k] == m; }
      else {
        var j := ContentsIndex(ms, n);
        assert r[if j < k then j else j + 1] == ms[j];
      }
    }
    ContentsAre(r, c);
  }

  lemma SplicedOrder(ms: seq<Message>, k: nat, m: Message)
    requires ListOk(ms) && m.number >= 1 && k <= |ms| && !HasNumber(ms, m.number)
    requires k > 0 ==> ms[k - 1].number <= m.number
    requires k < |ms| ==> ms[k].number > m.number
    ensures ListOk(ms[..k] + [m] + ms[k..])
  {
    var r := ms[..k] + [m] + ms[k..];
    forall i, j | 0 <= i < j < |r| ensures r[i].number < r[j].number {
      if i < k { BelowSplice(ms, k, m, i); }
      if j > k { AboveSplice(ms, k, m, j - 1); }
      assert i > k ==> ms[i - 1].number < ms[j - 1].number;
    }
  }

  lemma BelowSplice(ms: seq<Message>, k: nat, m: Message, i: nat)
    requires Ascending(ms) && i < k <= |ms| && !HasNumber(ms, m.number) && ms[k - 1].number <= m.number
    ensures ms[i].number < m.number
  {
    assert ms[i].number != m.number && ms[i].number <= ms[k - 1].number;
  }

  lemma AboveSplice(ms: seq<Message>, k: nat, m: Message, i: nat)
    requires Ascending(ms) && k <= i < |ms| && ms[k].number > m.number
    ensures ms[i].number > m.number
  {
    assert ms[i].number >= ms[k].number;
  }

  lemma InsertedSymbols(ms: seq<Message>, r: seq<Message>, k: nat, m: Message)
    requires k <= |ms| && r == ms[..k] + [m] + ms[k..] && SymbolsDistinct(ms)
    requires m.symbol.Some? ==> !HasSymbol(ms, m.symbol.value)
    ensures SymbolsDistinct(r)
  {
    forall i, j | 0 <= i < j < |r| && r[i].symbol.Some? ensures r[i].symbol != r[j].symbol {
      var i' := if i < k then i else i - 1;
      var j' := if j < k then j else j - 1;
      if i == k { assert r[j] == ms[j']; assert ms[j'].symbol != Some(m.symbol.value); }
      else if j == k { assert r[i] == ms[i']; }
      else { assert r[i] == ms[i'] && r[j] == ms[j']; }
    }
  }

  // ------------------------------------------------------------ message lines

  /** Look for a number. */
  method FindNumber(ms: seq<Message>, n: int) returns (i: nat)
    ensures i <= |ms| && (i < |ms| ==> ms[i].number == n)
    ensures i < |ms| <==> HasNumber(ms, n)
    ensures forall j :: 0 <= j < i ==> ms[j].number != n
  {
    i := 0;
    while i < |ms| && ms[i].number != n
      invariant i <= |ms| && forall j :: 0 <= j < i ==> ms[j].number != n
    {
      i := i + 1;
    }
  }

  /** A symbolic message in the way of an explicit number gets the next number
      and goes to the end of the list. */
  method MoveAway(s: MessageSet, i: nat) returns (r: MessageSet)
    requires SetOk(s) && i < |s.messages|
    ensures SetOk(r) && r.number == s.number && r.last == s.last + 1
    ensures !HasNumber(r.messages, s.messages[i].number)
    ensures |r.messages| == |s.messages|
    ensures Contents(r.messages)
         == (Contents(s.messages) - {s.messages[i].number})[s.last + 1 := Item(s.messages[i].text, s.messages[i].symbol)]
  {
    var m := s.messages[i].(number := s.last + 1);
    r := MessageSet(s.number, s.messages[..i] + s.messages[i + 1..] + [m], s.last + 1);
    Moved(s, i, m, r.messages);
  }

  /** Entry j of the list without entry i and with m at its end. */
  function MovedAt(ms: seq<Message>, i: nat, m: Message, j: nat): Message
    requires i < |ms| && j < |ms|
  {
    if j < i then ms[j] else if j < |ms| - 1 then ms[j + 1] else m
  }

  lemma Moved(s: MessageSet, i: nat, m: Message, r: seq<Message>)
    requires SetOk(s) && i < |s.messages| && m == s.messages[i].(number := s.last + 1)
    requires r == s.messages[..i] + s.messages[i + 1..] + [m]
    ensures ListOk(r) && SymbolsDistinct(r) && !HasNumber(r, s.messages[i].number)
    ensures forall j :: 0 <= j < |r| ==> r[j].number <= s.last + 1
    ensures Contents(r) == (Contents(s.messages) - {s.messages[i].number})[m.number := Item(m.text, m.symbol)]
  {
    hide Contents;
    var ms := s.messages;
    assert |r| == |ms| && forall j :: 0 <= j < |r| ==> r[j] == MovedAt(ms, i, m, j);
    MovedOrder(s, i, m, r);
    MovedContents(s, i, m, r);
  }

  lemma MovedOrder(s: MessageSet, i: nat, m: Message, r: seq<Message>)
    requires SetOk(s) && i < |s.messages| && m == s.messages[i].(number := s.last + 1)
    requires |r| == |s.messages| && forall j :: 0 <= j < |r| ==> r[j] == MovedAt(s.messages, i, m, j)
    ensures ListOk(r) && SymbolsDistinct(r) && !HasNumber(r, s.messages[i].number)
    ensures forall j :: 0 <= j < |r| ==> r[j].number <= s.last + 1
  {
    var ms := s.messages;
    forall a, b | 0 <= a < b < |r| ensures r[a].number < r[b].number { MovedPair(s, i, m, a, b); }
    forall a, b | 0 <= a < b < |r| && r[a].symbol.Some? ensures r[a].symbol != r[b].symbol { MovedPair(s, i, m, a, b); }
  }

  lemma MovedPair(s: MessageSet, i: nat, m: Message, a: nat, b: nat)
    requires SetOk(s) && i < |s.messages| && m == s.messages[i].(number := s.last + 1) && a < b < |s.messages|
    ensures MovedAt(s.messages, i, m, a).number < MovedAt(s.messages, i, m, b).number
    ensures MovedAt(s.messages, i, m, a).symbol.Some? ==>
              MovedAt(s.messages, i, m, a).symbol != MovedAt(s.messages, i, m, b).symbol
  {
    var ms := s.messages;
    var a' := if a < i then a else a + 1;
    var b' := if b < i then b else if b < |ms| - 1 then b + 1 else i;
    assert MovedAt(ms, i, m, a) == ms[a'] && MovedAt(ms, i, m, b).symbol == ms[b'].symbol;
    if a' < b' { assert ms[a'].symbol.Some? ==> ms[a'].symbol != ms[b'].symbol; }
    else { assert ms[b'].symbol.Some? ==> ms[b'].symbol != ms[a'].symbol; }
  }

  lemma MovedContents(s: MessageSet, i: nat, m: Message, r: seq<Message>)
    requires SetOk(s) && i < |s.messages| && m == s.messages[i].(number := s.last + 1) && ListOk(r)
    requires |r| == |s.messages| && forall j :: 0 <= j < |r| ==> r[j] == MovedAt(s.messages, i, m, j)
    ensures Contents(r) == (Contents(s.messages) - {s.messages[i].number})[m.number := Item(m.text, m.symbol)]
  {
    hide Contents, Ascending, SymbolsDistinct, InMap;
    var ms := s.messages;
    var c := (Contents(ms) - {ms[i].number})[m.number := Item(m.text, m.symbol)];
    forall j | 0 <= j < |r| ensures InMap(r[j], c) { MovedIn(s, i, m, j); }
    forall n | n in c ensures HasNumber(r, n) {
      if n == m.number { assert r[|r| - 1] == m; }
      else {
        var k := ContentsIndex(ms, n);
        assert r[if k < i then k else k - 1] == ms[k];
      }
    }
    ContentsAre(r, c);
  }

  lemma MovedIn(s: MessageSet, i: nat, m: Message, j: nat)
    requires SetOk(s) && i < |s.messages| && m == s.messages[i].(number := s.last + 1) && j < |s.messages|
    ensures InMap(MovedAt(s.messages, i, m, j), (Contents(s.messages) - {s.messages[i].number})[m.number := Item(m.text, m.symbol)])
  {
    hide Contents;
    var ms := s.messages;
    if j < |ms| - 1 {
      var k := if j < i then j else j + 1;
      assert MovedAt(ms, i, m, j) == ms[k] && ms[k].number != m.number;
      assert if k < i then ms[k].number < ms[i].number else ms[i].number < ms[k].number;
      ContentsAt(ms, k);
    }
  }

  /** A set and its largest number as a state of the input. */
  function SetStateOf(s: MessageSet): SetState { SetState(Contents(s.messages), s.last) }

  /** A line that starts with a number; `converted` says whether the text could
      be converted, which is found out after the number has been claimed, and
      only if it could be claimed. */
  method NumericLine(s: MessageSet, n: nat, text: seq<byte>, converted: bool) returns (r: MessageSet, refused: bool)
    requires SetOk(s)
    ensures SetOk(r) && r.number == s.number
    ensures refused == NumberRefused(SetStateOf(s), n) && SetStateOf(r) == NumberedIn(SetStateOf(s), n, text, converted)
    ensures |r.messages| == |s.messages| + (if converted && !refused then 1 else 0)
  {
    hide Contents;
    r := s;
    var number := n;
    ContentsMeans(s.messages);
    var i := FindNumber(s.messages, n);
    if i < |s.messages| {
      if s.messages[i].symbol.None? { number := 0; }
      else { r := MoveAway(s, i); }
    }
    if number != 0 && number > r.last { r := r.(last := number); }
    refused := number == 0;
    if converted && number != 0 { r := Insertion(r, Message(number, text, None)); }
  }

  /** The new message of a line, with a number that is free. */
  method Insertion(s: MessageSet, m: Message) returns (r: MessageSet)
    requires SetOk(s) && 1 <= m.number <= s.last && !HasNumber(s.messages, m.number)
    requires m.symbol.Some? ==> !HasSymbol(s.messages, m.symbol.value)
    ensures SetOk(r) && r.number == s.number && r.last == s.last && |r.messages| == |s.messages| + 1
    ensures Contents(r.messages) == Contents(s.messages)[m.number := Item(m.text, m.symbol)]
  {
    hide Contents;
    var ms := Insert(s.messages, m);
    ghost var k :| 0 <= k <= |s.messages| && ms == s.messages[..k] + [m] + s.messages[k..];
    InsertedSymbols(s.messages, ms, k, m);
    r := s.(messages := ms);
  }

  /** A line that starts with a letter or an underscore. */
  method SymbolicLine(s: MessageSet, symbol: string, text: seq<byte>, converted: bool) returns (r: MessageSet, refused: bool)
    requires SetOk(s)
    ensures SetOk(r) && r.number == s.number
    ensures refused == Known(SetStateOf(s), symbol) && SetStateOf(r) == SymbolicIn(SetStateOf(s), symbol, text, converted)
    ensures |r.messages| == |s.messages| + (if converted && !refused then 1 else 0)
  {
    hide Contents;
    r := s;
    ContentsMeans(s.messages);
    var i := 0;
    while i < |s.messages| && s.messages[i].symbol != Some(symbol)
      invariant i <= |s.messages| && forall j :: 0 <= j < i ==> s.messages[j].symbol != Some(symbol)
    {
      i := i + 1;
    }
    refused := i < |s.messages|;
    if refused {
      assert Contents(s.messages)[s.messages[i].number].symbol == Some(symbol);
      return;
    }
    assert !Known(SetStateOf(s), symbol) by { UnknownSymbol(s, symbol); }
    r := r.(last := s.last + 1);
    if converted { r := Insertion(r, Message(s.last + 1, text, Some(symbol))); }
  }

  lemma UnknownSymbol(s: MessageSet, symbol: string)
    requires SetOk(s) && forall i :: 0 <= i < |s.messages| ==> s.messages[i].symbol != Some(symbol)
    ensures !Known(SetStateOf(s), symbol)
  {
    hide Contents;
    ContentsMeans(s.messages);
    var c := Contents(s.messages);
    forall n | n in c ensures c[n].symbol != Some(symbol) {
      assert HasNumber(s.messages, n);
      var i :| 0 <= i < |s.messages| && s.messages[i].number == n;
      assert c[s.messages[i].number] == Item(s.messages[i].text, s.messages[i].symbol);
    }
  }

  // -------------------------------------------------------------- the catalog

  predicate NumbersDistinct(sets: seq<MessageSet>) {
    forall i, j :: 0 <= i < j < |sets| ==> sets[i].number != sets[j].number
  }

  predicate SetsOk(sets: seq<MessageSet>) {
    NumbersDistinct(sets) && forall i :: 0 <= i < |sets| ==> sets[i].number >= 1 && ListOk(sets[i].messages)
  }

  /** `find_set`: the set stored under number + 1; a new one goes in front. */
  method FindSet(sets: seq<MessageSet>, number: nat) returns (r: seq<MessageSet>, at: nat)
    requires SetsOk(sets)
    ensures SetsOk(r) && at < |r| && r[at].number == number + 1
    ensures r == sets || r == [MessageSet(number + 1, [], 0)] + sets
  {
    at := 0;
    while at < |sets| && sets[at].number != number + 1
      invariant at <= |sets| && forall j :: 0 <= j < at ==> sets[j].number != number + 1
    {
      at := at + 1;
    }
    r := sets;
    if at == |sets| { r, at := [MessageSet(number + 1, [], 0)] + sets, 0; }
  }

  function MessageSum(sets: seq<MessageSet>): nat {
    if |sets| == 0 then 0 else |sets[0].messages| + MessageSum(sets[1..])
  }

  lemma {:induction false} SumAt(sets: seq<MessageSet>, i: nat, s: MessageSet)
    requires i < |sets|
    ensures MessageSum(sets[i := s]) == MessageSum(sets) - |sets[i].messages| + |s.messages|
  {
    if i > 0 {
      SumAt(sets[1..], i - 1, s);
      assert sets[i := s][1..] == sets[1..][i - 1 := s];
    } else {
      assert sets[0 := s][1..] == sets[1..];
    }
  }

  /** All sets by their numbers. */
  function SetStates(sets: seq<MessageSet>): map<int, SetState> {
    if |sets| == 0 then map[] else SetStates(sets[1..])[sets[0].number := SetStateOf(sets[0])]
  }

  lemma {:induction false} SetStatesMean(sets: seq<MessageSet>)
    requires NumbersDistinct(sets)
    ensures forall i :: 0 <= i < |sets| ==> sets[i].number in SetStates(sets) && SetStates(sets)[sets[i].number] == SetStateOf(sets[i])
    ensures forall n :: n in SetStates(sets) ==> exists i :: 0 <= i < |sets| && sets[i].number == n
  {
    hide SetStateOf;
    if |sets| > 0 {
      var rest := sets[1..];
      assert forall i :: 0 <= i < |rest| ==> rest[i] == sets[i + 1];
      SetStatesMean(rest);
      forall i | 0 <= i < |sets|
        ensures sets[i].number in SetStates(sets) && SetStates(sets)[sets[i].number] == SetStateOf(sets[i])
      {
        if i > 0 { assert rest[i - 1] == sets[i]; }
      }
      forall n | n in SetStates(sets) ensures exists i :: 0 <= i < |sets| && sets[i].number == n {
        if n != sets[0].number {
          var i :| 0 <= i < |rest| && rest[i].number == n;
          assert sets[i + 1].number == n;
        }
      }
    }
  }

  lemma {:induction false} SetStatesAt(sets: seq<MessageSet>, i: nat, s: MessageSet)
    requires NumbersDistinct(sets) && i < |sets| && s.number == sets[i].number
    ensures SetStates(sets[i := s]) == SetStates(sets)[s.number := SetStateOf(s)]
  {
    hide SetStateOf;
    if i > 0 {
      assert forall j :: 0 <= j < |sets[1..]| ==> sets[1..][j] == sets[j + 1];
      SetStatesAt(sets[1..], i - 1, s);
      assert sets[i := s][1..] == sets[1..][i - 1 := s];
    } else {
      assert sets[0 := s][1..] == sets[1..];
    }
  }

  /** Where `find_set` finds or makes a set, in terms of states. */
  lemma SetStatesWith(sets: seq<MessageSet>, r: seq<MessageSet>, number: int)
    requires NumbersDistinct(sets) && NumbersDistinct(r) && (r == sets || r == [MessageSet(number, [], 0)] + sets)
    requires exists i :: 0 <= i < |r| && r[i].number == number
    ensures SetStates(r) == WithSet(SetStates(sets), number) && MessageSum(r) == MessageSum(sets)
  {
    SetStatesMean(sets);
    if r != sets {
      assert r[1..] == sets;
      assert Contents([]) == map[];
      assert r[0].number == number;
      forall i | 0 <= i < |sets| ensures sets[i].number != number { assert r[i + 1] == sets[i]; }
    }
  }

  /** The catalog while the input is read. */
  class Catalog {
    var sets: seq<MessageSet>
    var current: nat
    var total: nat

    /** Lists in order, and at least as many messages counted as there are. */
    ghost predicate Valid()
      reads this
    {
      && NumbersDistinct(sets) && current < |sets| && total >= MessageSum(sets)
      && forall i :: 0 <= i < |sets| ==> sets[i].number >= 1 && SetOk(sets[i])
    }

    /** What the catalog stands for. */
    ghost function State(): State
      requires Valid()
      reads this
      ensures State().current in State().sets
    {
      SetStatesMean(sets);
      CatalogLines.State(SetStates(sets), sets[current].number, total)
    }

    /** An empty catalog: the set NL_SETD and nothing in it. */
    constructor ()
      ensures Valid() && State() == START
    {
      sets, current, total := [MessageSet(2, [], 0)], 0, 0;
      new;
      EmptyCatalog(sets);
    }

    /** `$set N`; number 0 is refused. */
    method SelectSet(number: nat)
      requires Valid()
      modifies this
      ensures Valid() && State() == AfterLine(old(State()), UseSet(number))
    {
      hide SetStates, MessageSum, Contents;
      if number != 0 {
        ghost var was := sets;
        sets, current := FindSet(sets, number);
        SetStatesWith(was, sets, number + 1);
      }
    }

    /** `$delset N`: the set is made if need be, and stays in the output. */
    method DeleteSetLine(number: nat)
      requires Valid()
      modifies this
      ensures Valid() && State() == AfterLine(old(State()), DeleteSet(number))
    {
      hide SetStates, MessageSum, Contents;
      ghost var was := sets;
      var at;
      var count := |sets|;
      sets, at := FindSet(sets, number);
      SetStatesWith(was, sets, number + 1);
      if |sets| > count { current := current + 1; }
    }

    /** A message line; the line counts if it is refused or its text could be
        converted. */
    method MessageLine(line: Line)
      requires Valid() && (line.Numbered? || line.Symbolic?)
      modifies this
      ensures Valid() && State() == AfterLine(old(State()), line)
    {
      hide SetOk, SetStateOf, NumberedIn, SymbolicIn, Known, NumberRefused, Contents;
      var s, refused;
      SetStatesMean(sets);
      if line.Numbered? { s, refused := NumericLine(sets[current], line.n, line.text, line.converted); }
      else { s, refused := SymbolicLine(sets[current], line.symbol, line.text, line.converted); }
      SetStatesAt(sets, current, s);
      SumAt(sets, current, s);
      sets := sets[current := s];
      if refused || line.converted { total := total + 1; }
    }

    method ReadLine(line: Line)
      requires Valid()
      modifies this
      ensures Valid() && State() == AfterLine(old(State()), line)
    {
      hide SetOk, SetStates, MessageSum, AfterLine;
      match line {
        case UseSet(number) => SelectSet(number);
        case DeleteSet(number) => DeleteSetLine(number);
        case Numbered(_, _, _) => MessageLine(line);
        case Symbolic(_, _, _) => MessageLine(line);
      }
    }

    /** Any sequence of lines: the lists stay in order and hold what the lines
        mean. */
    method ReadLines(lines: seq<Line>)
      requires Valid()
      modifies this
      ensures Valid() && State() == AfterLines(old(State()), lines)
    {
      hide SetOk, SetStates, MessageSum, AfterLine;
      for i := 0 to |lines|
        invariant Valid() && State() == AfterLines(old(State()), lines[..i])
      {
        ReadLine(lines[i]);
        assert lines[..i + 1][..i] == lines[..i];
      }
      assert lines[..|lines|] == lines;
    }
  }

  lemma EmptyCatalog(sets: seq<MessageSet>)
    requires sets == [MessageSet(2, [], 0)]
    ensures SetStates(sets) == START.sets && MessageSum(sets) == 0
  {
    assert sets[1..] == [] && Contents([]) == map[];
  }
}
