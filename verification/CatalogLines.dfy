/** What gencat's input lines mean, stated on maps: every set is a map from
    numbers to messages (catgets/gencat.c, `read_input_file`). */
module CatalogLines {
  import opened Basics
  import opened ByteOrder

  /** An input line that matters here; `converted` says whether a message text
      could be converted. */
  datatype Line =
    | UseSet(number: nat)
    | DeleteSet(number: nat)
    | Numbered(n: nat, text: seq<byte>, converted: bool)
    | Symbolic(symbol: string, text: seq<byte>, converted: bool)

  /** A message has a symbol if its number was chosen by gencat. */
  datatype Item = Item(text: seq<byte>, symbol: Option<string>)

  /** A set and the largest number given out in it. */
  datatype SetState = SetState(items: map<int, Item>, last: int)

  /** All sets by their numbers, the one lines go to, and the messages counted. */
  datatype State = State(sets: map<int, SetState>, current: int, counted: nat)

  const START: State := State(map[2 := SetState(map[], 0)], 2, 0)

  /** A line with an explicit number is refused if that is zero or was given
      explicitly before. */
  predicate NumberRefused(s: SetState, n: int) {
    n == 0 || (n in s.items && s.items[n].symbol.None?)
  }

  /** Otherwise it takes the number, from a symbolic message if need be, which
      then gets the next free one. */
  function NumberedIn(s: SetState, n: int, text: seq<byte>, converted: bool): SetState {
    if NumberRefused(s, n) then s
    else
      var t := if n in s.items then SetState((s.items - {n})[s.last + 1 := s.items[n]], s.last + 1)
               else if n > s.last then s.(last := n) else s;
      if converted then t.(items := t.items[n := Item(text, None)]) else t
  }

  predicate Known(s: SetState, symbol: string) {
    exists n :: n in s.items && s.items[n].symbol == Some(symbol)
  }

  /** A new symbol gets the next free number, even if its text is not stored. */
  function SymbolicIn(s: SetState, symbol: string, text: seq<byte>, converted: bool): SetState {
    if Known(s, symbol) then s
    else SetState(if converted then s.items[s.last + 1 := Item(text, Some(symbol))] else s.items, s.last + 1)
  }

  function WithSet(sets: map<int, SetState>, number: int): map<int, SetState> {
    if number in sets then sets else sets[number := SetState(map[], 0)]
  }

  predicate Refused(s: SetState, line: Line) {
    (line.Numbered? && NumberRefused(s, line.n)) || (line.Symbolic? && Known(s, line.symbol))
  }

  /** Sets are stored under their number plus one; `$set 0` is refused; `$delset`
      deletes nothing. A message line counts if it is refused or its text could
      be converted. */
  function AfterLine(st: State, line: Line): (r: State)
    requires st.current in st.sets
    ensures r.current in r.sets
  {
    match line
    case UseSet(number) => if number == 0 then st else st.(sets := WithSet(st.sets, number + 1), current := number + 1)
    case DeleteSet(number) => st.(sets := WithSet(st.sets, number + 1))
    case Numbered(n, text, converted) =>
      InCurrent(st, line, NumberedIn(st.sets[st.current], n, text, converted), converted)
    case Symbolic(symbol, text, converted) =>
      InCurrent(st, line, SymbolicIn(st.sets[st.current], symbol, text, converted), converted)
  }

  function InCurrent(st: State, line: Line, t: SetState, converted: bool): State
    requires st.current in st.sets
  {
    State(st.sets[st.current := t], st.current,
          st.counted + (if converted || Refused(st.sets[st.current], line) then 1 else 0))
  }

  function AfterLines(st: State, lines: seq<Line>): (r: State)
    requires st.current in st.sets
    ensures r.current in r.sets
  {
    if |lines| == 0 then st else AfterLine(AfterLines(st, lines[..|lines| - 1]), lines[|lines| - 1])
  }

  /** The messages by set and number. */
  ghost function Texts(st: State): map<(int, int), seq<byte>> {
    map s, n | s in st.sets && n in st.sets[s].items :: (s, n) := st.sets[s].items[n].text
  }

  // --------------------------------------------------------------- nothing is lost

  /** A message that is still there: with its text and symbol and, if its number
      was given explicitly, its number. */
  ghost predicate Kept(n: int, item: Item, s: SetState) {
    exists m :: m in s.items && s.items[m] == item && (item.symbol.None? ==> m == n)
  }

  ghost predicate SetKept(a: SetState, b: SetState) {
    forall n :: n in a.items ==> Kept(n, a.items[n], b)
  }

  ghost predicate Keeps(a: State, b: State) {
    forall s :: s in a.sets ==> s in b.sets && SetKept(a.sets[s], b.sets[s])
  }

  /** Numbers given out lie between 1 and the last one. */
  ghost predicate NumbersBounded(s: SetState) {
    s.last >= 0 && forall n :: n in s.items ==> 1 <= n <= s.last
  }

  lemma KeptSame(s: SetState)
    ensures SetKept(s, s)
  {
    forall n | n in s.items ensures Kept(n, s.items[n], s) { }
  }

  lemma NumberedKeeps(s: SetState, n: int, text: seq<byte>, converted: bool)
    requires NumbersBounded(s)
    ensures SetKept(s, NumberedIn(s, n, text, converted))
  {
    var r := NumberedIn(s, n, text, converted);
    forall k | k in s.items ensures Kept(k, s.items[k], r) {
      var m := if k == n && !NumberRefused(s, n) then s.last + 1 else k;
      assert m in r.items && r.items[m] == s.items[k];
    }
  }

  lemma SymbolicKeeps(s: SetState, symbol: string, text: seq<byte>, converted: bool)
    requires NumbersBounded(s)
    ensures SetKept(s, SymbolicIn(s, symbol, text, converted))
  {
    var r := SymbolicIn(s, symbol, text, converted);
    forall k | k in s.items ensures Kept(k, s.items[k], r) { assert k in r.items && r.items[k] == s.items[k]; }
  }

  ghost predicate AllNumbered(st: State) {
    st.current in st.sets && forall s :: s in st.sets ==> NumbersBounded(st.sets[s])
  }

  lemma LineKeeps(st: State, line: Line)
    requires AllNumbered(st)
    ensures AllNumbered(AfterLine(st, line)) && Keeps(st, AfterLine(st, line))
  {
    hide SetKept;
    var r := AfterLine(st, line);
    forall s | s in st.sets ensures s in r.sets && SetKept(st.sets[s], r.sets[s]) {
      KeptSame(st.sets[s]);
      if s == st.current {
        if line.Numbered? { NumberedKeeps(st.sets[s], line.n, line.text, line.converted); }
        if line.Symbolic? { SymbolicKeeps(st.sets[s], line.symbol, line.text, line.converted); }
      }
    }
  }

  lemma SetKeptOn(a: SetState, b: SetState, c: SetState)
    requires SetKept(a, b) && SetKept(b, c)
    ensures SetKept(a, c)
  {
    forall n | n in a.items ensures Kept(n, a.items[n], c) {
      assert Kept(n, a.items[n], b);
      var m :| m in b.items && b.items[m] == a.items[n] && (a.items[n].symbol.None? ==> m == n);
      assert Kept(m, b.items[m], c);
    }
  }

  /** No sequence of lines loses a message or renumbers an explicit one. */
  lemma {:induction false} LinesKeep(st: State, lines: seq<Line>)
    requires AllNumbered(st)
    ensures AllNumbered(AfterLines(st, lines)) && Keeps(st, AfterLines(st, lines))
  {
    hide SetKept, NumbersBounded, AfterLine;
    if |lines| == 0 {
      forall s | s in st.sets ensures SetKept(st.sets[s], st.sets[s]) { KeptSame(st.sets[s]); }
    } else {
      var init := AfterLines(st, lines[..|lines| - 1]);
      LinesKeep(st, lines[..|lines| - 1]);
      LineKeeps(init, lines[|lines| - 1]);
      var r := AfterLines(st, lines);
      forall s | s in st.sets ensures s in r.sets && SetKept(st.sets[s], r.sets[s]) {
        SetKeptOn(st.sets[s], init.sets[s], r.sets[s]);
      }
    }
  }

  // ----------------------------------------------------------- what one line does

  /** A number that is not refused holds the text of its line; the symbolic
      message that was there has the number after the largest, and nothing else
      has changed. Without a text the number is claimed all the same. */
  lemma NumberStored(s: SetState, n: int, text: seq<byte>)
    requires NumbersBounded(s) && !NumberRefused(s, n)
    ensures var r := NumberedIn(s, n, text, true);
      && n in r.items && r.items[n] == Item(text, None)
      && NumberedIn(s, n, text, false) == SetState(r.items - {n}, r.last)
      && (if n in s.items then r.last == s.last + 1 && r.last in r.items && r.items[r.last] == s.items[n]
          else r.last == if n > s.last then n else s.last)
      && (forall k :: k in s.items && k != n ==> k in r.items && r.items[k] == s.items[k])
      && (forall k :: k in r.items && k != n ==> k in s.items || (n in s.items && k == s.last + 1))
  {
    if n !in s.items { assert s.items[n := Item(text, None)] - {n} == s.items; }
  }

  /** A new symbol has the text of its line under the number after the largest. */
  lemma SymbolStored(s: SetState, symbol: string, text: seq<byte>)
    requires NumbersBounded(s) && !Known(s, symbol)
    ensures var r := SymbolicIn(s, symbol, text, true);
      && r.last == s.last + 1 && r.items == s.items[r.last := Item(text, Some(symbol))]
      && SymbolicIn(s, symbol, text, false) == SetState(s.items, s.last + 1)
      && (forall k :: k in s.items ==> k < r.last && r.items[k] == s.items[k])
  {
  }

  // ------------------------------------------------------------- what all lines mean

  /** The set that the next line goes to: that of the last `$set` with a number
      other than zero, else the default set. */
  function SetAfter(lines: seq<Line>): int {
    if |lines| == 0 then 2
    else
      var line := lines[|lines| - 1];
      if line.UseSet? && line.number > 0 then line.number + 1 else SetAfter(lines[..|lines| - 1])
  }

  /** How a line names its message. */
  datatype Name = ByNumber(n: int) | BySymbol(symbol: string)

  /** A line that has a text for a message of that name. */
  predicate HasTextFor(line: Line, name: Name) {
    match line
    case Numbered(n, _, converted) => converted && n > 0 && name == ByNumber(n)
    case Symbolic(symbol, _, converted) => converted && name == BySymbol(symbol)
    case UseSet(_) => false
    case DeleteSet(_) => false
  }

  function TextOf(line: Line): seq<byte> {
    if line.Numbered? || line.Symbolic? then line.text else []
  }

  /** Line i has a text for that message of set s. */
  predicate Gives(lines: seq<Line>, i: nat, s: int, name: Name)
    requires i < |lines|
  {
    HasTextFor(lines[i], name) && SetAfter(lines[..i]) == s
  }

  predicate FirstGives(lines: seq<Line>, i: nat, s: int, name: Name) {
    i < |lines| && Gives(lines, i, s, name) && forall j :: 0 <= j < i ==> !Gives(lines, j, s, name)
  }

  /** Some line has a text for that message, and the first such text is this one. */
  ghost predicate Meant(lines: seq<Line>, s: int, name: Name, text: seq<byte>) {
    exists i: nat :: FirstGives(lines, i, s, name) && TextOf(lines[i]) == text
  }

  /** The state holds that text for the message: under its number, given
      explicitly, or under some number with its symbol. */
  ghost predicate Has(st: State, s: int, name: Name, text: seq<byte>) {
    s in st.sets &&
    match name
    case ByNumber(n) => n in st.sets[s].items && st.sets[s].items[n] == Item(text, None)
    case BySymbol(x) => exists n :: n in st.sets[s].items && st.sets[s].items[n] == Item(text, Some(x))
  }

  lemma StartNumbered()
    ensures AllNumbered(START) && SetAfter([]) == START.current
  {
  }

  lemma {:induction false} CurrentSet(lines: seq<Line>)
    ensures AfterLines(START, lines).current == SetAfter(lines)
  {
    if |lines| > 0 { CurrentSet(lines[..|lines| - 1]); }
  }

  /** One line adds what it has a text for, unless the message is there already. */
  lemma NumberStep(st: State, line: Line, s: int, n: int, text: seq<byte>)
    requires AllNumbered(st)
    ensures Has(AfterLine(st, line), s, ByNumber(n), text) <==>
      || Has(st, s, ByNumber(n), text)
      || (s == st.current && HasTextFor(line, ByNumber(n)) && TextOf(line) == text && !(exists t :: Has(st, s, ByNumber(n), t)))
  {
    var b := s in st.sets && n in st.sets[s].items && st.sets[s].items[n].symbol.None?;
    assert b ==> Has(st, s, ByNumber(n), st.sets[s].items[n].text);
    if s == st.current && line.Numbered? && !NumberRefused(st.sets[s], line.n) { NumberStored(st.sets[s], line.n, line.text); }
  }

  lemma SymbolStep(st: State, line: Line, s: int, x: string, text: seq<byte>)
    requires AllNumbered(st)
    ensures Has(AfterLine(st, line), s, BySymbol(x), text) <==>
      || Has(st, s, BySymbol(x), text)
      || (s == st.current && HasTextFor(line, BySymbol(x)) && TextOf(line) == text && !(exists t :: Has(st, s, BySymbol(x), t)))
  {
    hide AfterLine, Has;
    if Has(AfterLine(st, line), s, BySymbol(x), text) { SymbolBack(st, line, s, x, text); }
    else if Has(st, s, BySymbol(x), text) || (s == st.current && HasTextFor(line, BySymbol(x)) && TextOf(line) == text && !(exists t :: Has(st, s, BySymbol(x), t))) {
      SymbolForth(st, line, s, x, text);
    }
  }

  lemma SymbolForth(st: State, line: Line, s: int, x: string, text: seq<byte>)
    requires AllNumbered(st)
    requires Has(st, s, BySymbol(x), text) ||
      (s == st.current && HasTextFor(line, BySymbol(x)) && TextOf(line) == text && !(exists t :: Has(st, s, BySymbol(x), t)))
    ensures Has(AfterLine(st, line), s, BySymbol(x), text)
  {
    var r := AfterLine(st, line);
    if Has(st, s, BySymbol(x), text) {
      var n :| n in st.sets[s].items && st.sets[s].items[n] == Item(text, Some(x));
      LineKeeps(st, line);
      assert Kept(n, st.sets[s].items[n], r.sets[s]);
    } else {
      if k :| k in st.sets[s].items && st.sets[s].items[k].symbol == Some(x) { assert Has(st, s, BySymbol(x), st.sets[s].items[k].text); }
      SymbolStored(st.sets[s], x, text);
      assert r.sets[s].items[r.sets[s].last] == Item(text, Some(x));
    }
  }

  lemma SymbolBack(st: State, line: Line, s: int, x: string, text: seq<byte>)
    requires AllNumbered(st) && Has(AfterLine(st, line), s, BySymbol(x), text)
    ensures Has(st, s, BySymbol(x), text) ||
      (s == st.current && HasTextFor(line, BySymbol(x)) && TextOf(line) == text && !(exists t :: Has(st, s, BySymbol(x), t)))
  {
    var r := AfterLine(st, line);
    var n :| n in r.sets[s].items && r.sets[s].items[n] == Item(text, Some(x));
    if s == st.current && line.Numbered? && !NumberRefused(st.sets[s], line.n) {
      var was := st.sets[s];
      NumberStored(was, line.n, line.text);
      var m := if n in was.items && n != line.n then n else line.n;
      assert m in was.items && was.items[m] == Item(text, Some(x));
    } else if s == st.current && line.Symbolic? && !Known(st.sets[s], line.symbol) {
      SymbolStored(st.sets[s], line.symbol, line.text);
    } else {
      assert s in st.sets && n in st.sets[s].items && st.sets[s].items[n] == Item(text, Some(x));
    }
  }

  /** Each message, by number or by symbol, has the text of the first line that has
      one for it, and there are no others. */
  lemma {:induction false} LinesMean(lines: seq<Line>, s: int, name: Name, text: seq<byte>)
    ensures Has(AfterLines(START, lines), s, name, text) <==> Meant(lines, s, name, text)
  {
    hide AfterLine, AllNumbered, SetAfter, Has, Meant, HasTextFor;
    if |lines| == 0 { NothingMeant(s, name, text); }
    else {
      var init, line := lines[..|lines| - 1], lines[|lines| - 1];
      var st := AfterLines(START, init);
      StartNumbered();
      LinesKeep(START, init);
      CurrentSet(init);
      match name {
        case ByNumber(n) => NumberStep(st, line, s, n, text);
        case BySymbol(x) => SymbolStep(st, line, s, x, text);
      }
      forall t ensures Has(st, s, name, t) <==> Meant(init, s, name, t) { LinesMean(init, s, name, t); }
      MeantStep(lines, s, name, text);
    }
  }

  lemma NothingMeant(s: int, name: Name, text: seq<byte>)
    ensures !Has(START, s, name, text) && !Meant([], s, name, text)
  {
  }

  lemma {:induction false} FirstOf(lines: seq<Line>, k: nat, s: int, name: Name) returns (i: nat)
    requires k < |lines| && Gives(lines, k, s, name)
    ensures FirstGives(lines, i, s, name)
  {
    if j: nat :| j < k && Gives(lines, j, s, name) { i := FirstOf(lines, j, s, name); } else { i := k; }
  }

  /** The first line with a text is as before, or the new one if there was none. */
  lemma MeantStep(lines: seq<Line>, s: int, name: Name, text: seq<byte>)
    requires |lines| > 0
    ensures var init, line := lines[..|lines| - 1], lines[|lines| - 1];
      Meant(lines, s, name, text) <==>
        || Meant(init, s, name, text)
        || (s == SetAfter(init) && HasTextFor(line, name) && TextOf(line) == text && !(exists t :: Meant(init, s, name, t)))
  {
    hide SetAfter, HasTextFor;
    var init, line := lines[..|lines| - 1], lines[|lines| - 1];
    assert lines[..|init|] == init;
    forall i: nat | i < |init| ensures Gives(lines, i, s, name) == Gives(init, i, s, name) && lines[i] == init[i] {
      assert lines[..i] == init[..i];
    }
    if k: nat :| k < |init| && Gives(init, k, s, name) {
      var i := FirstOf(init, k, s, name);
      assert Meant(init, s, name, TextOf(init[i])) && FirstGives(lines, i, s, name);
      assert forall j: nat :: FirstGives(lines, j, s, name) ==> j == i;
    } else {
      assert Gives(lines, |init|, s, name) ==> FirstGives(lines, |init|, s, name);
    }
  }

  /** The messages after all lines: each is that of an explicit number or of a
      symbol, and every number and every symbol that some line has a text for is
      there. */
  lemma TextsMean(lines: seq<Line>)
    ensures var texts := Texts(AfterLines(START, lines));
      && (forall s, n :: (s, n) in texts ==>
            Meant(lines, s, ByNumber(n), texts[(s, n)]) || exists x :: Meant(lines, s, BySymbol(x), texts[(s, n)]))
      && (forall s, n, t :: Meant(lines, s, ByNumber(n), t) ==> (s, n) in texts && texts[(s, n)] == t)
      && (forall s, x, t :: Meant(lines, s, BySymbol(x), t) ==> exists n :: (s, n) in texts && texts[(s, n)] == t)
  {
    hide AfterLines, Meant;
    var st := AfterLines(START, lines);
    var texts := Texts(st);
    forall s, n | (s, n) in texts
      ensures Meant(lines, s, ByNumber(n), texts[(s, n)]) || exists x :: Meant(lines, s, BySymbol(x), texts[(s, n)])
    {
      var item := st.sets[s].items[n];
      match item.symbol {
        case None => LinesMean(lines, s, ByNumber(n), item.text);
        case Some(x) => LinesMean(lines, s, BySymbol(x), item.text);
      }
    }
    forall s, n, t | Meant(lines, s, ByNumber(n), t) ensures (s, n) in texts && texts[(s, n)] == t { LinesMean(lines, s, ByNumber(n), t); }
    forall s, x, t | Meant(lines, s, BySymbol(x), t) ensures exists n :: (s, n) in texts && texts[(s, n)] == t {
      LinesMean(lines, s, BySymbol(x), t);
      var n :| n in st.sets[s].items && st.sets[s].items[n] == Item(t, Some(x));
      assert (s, n) in texts;
    }
  }

  // ---------------------------------------------------------------- what is counted

  function NameOf(line: Line): Name
    requires line.Numbered? || line.Symbolic?
  {
    if line.Numbered? then ByNumber(line.n) else BySymbol(line.symbol)
  }

  /** Some line has a text for that message. */
  ghost predicate Given(lines: seq<Line>, s: int, name: Name) {
    exists t :: Meant(lines, s, name, t)
  }

  /** A message line is counted if it has a text, or if it is refused: for number
      zero, or because an earlier line has a text for the same message. */
  ghost predicate Counts(before: seq<Line>, line: Line) {
    && (line.Numbered? || line.Symbolic?)
    && (line.converted || line == Numbered(0, line.text, false) || Given(before, SetAfter(before), NameOf(line)))
  }

  ghost function CountedLines(lines: seq<Line>): nat {
    if |lines| == 0 then 0
    else CountedLines(lines[..|lines| - 1]) + (if Counts(lines[..|lines| - 1], lines[|lines| - 1]) then 1 else 0)
  }

  lemma {:induction false} CountMeans(lines: seq<Line>)
    ensures AfterLines(START, lines).counted == CountedLines(lines)
  {
    hide Given, SetAfter, Refused;
    if |lines| > 0 {
      var init, line := lines[..|lines| - 1], lines[|lines| - 1];
      CountMeans(init);
      if line.Numbered? || line.Symbolic? { RefusedMeans(init, line); }
    }
  }

  /** A line is refused exactly for these two reasons. */
  lemma RefusedMeans(lines: seq<Line>, line: Line)
    requires line.Numbered? || line.Symbolic?
    ensures var st := AfterLines(START, lines);
      Refused(st.sets[st.current], line) <==> (line.Numbered? && line.n == 0) || Given(lines, SetAfter(lines), NameOf(line))
  {
    hide AfterLines, SetAfter, Meant, Has;
    var st := AfterLines(START, lines);
    CurrentSet(lines);
    RefusedHas(st, line);
    forall t ensures Has(st, st.current, NameOf(line), t) <==> Meant(lines, SetAfter(lines), NameOf(line), t) {
      LinesMean(lines, st.current, NameOf(line), t);
    }
  }

  lemma RefusedHas(st: State, line: Line)
    requires st.current in st.sets && (line.Numbered? || line.Symbolic?)
    ensures Refused(st.sets[st.current], line) <==> (line.Numbered? && line.n == 0) || exists t :: Has(st, st.current, NameOf(line), t)
  {
    var items := st.sets[st.current].items;
    if line.Numbered? {
      if line.n in items && items[line.n].symbol.None? { assert Has(st, st.current, NameOf(line), items[line.n].text); }
    } else if m :| m in items && items[m].symbol == Some(line.symbol) {
      assert Has(st, st.current, NameOf(line), items[m].text);
    }
  }
}
