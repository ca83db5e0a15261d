/** Driving the user's parsers (argp/argp-parse.c: `group_parse`, `parser_init`,
    `parser_parse_arg`, `parser_parse_opt`, `parser_parse_next`,
    `parser_finalize`, `__argp_parse`). The parsers and getopt are arbitrary
    functions of what has happened so far. */
module ArgpRun {
  import opened Basics

  datatype Key = Init | Opt | Arg | Args | NoArgs | End | Success | Error | Fini

  /** A call of `group_parse`. */
  datatype Call = Call(group: nat, key: Key)

  /** The fields of `struct argp_state` that a parser may change and that the
      driver looks at. */
  datatype State = State(next: int, quoted: int, argc: int, noArgs: bool)

  datatype Reply = Reply(err: int, state: State)

  /** What getopt says, with the new OPTIND: no more options (and whether a `--`
      stands before that place), an argument, an error, or an option and the
      group that its value or its place in the short options stands for. */
  datatype Getopt =
    | NoMore(optind: int, dashes: bool)
    | Argument(optind: int)
    | Unknown(optind: int)
    | Selected(optind: int, group: Option<nat>)

  const OK: int := 0
  const EBADKEY: int := 7
  const EINVAL: int := 22

  // ------------------------------------------------------------- the protocol

  datatype Outcome = Neither | Successful | Failed

  /** How far a group has come. */
  datatype Phase = Fresh | Parsing | NoArgsSeen | EndSeen | Closed(outcome: Outcome) | Finished(outcome: Outcome) | Broken

  /** The next call of a group: INIT, then options and arguments, perhaps NO_ARGS,
      perhaps END, perhaps one of SUCCESS and ERROR, and at last FINI. */
  function Step(p: Phase, k: Key): Phase {
    match p
    case Fresh => if k.Init? then Parsing else Broken
    case Parsing =>
      if k.Opt? || k.Arg? || k.Args? then Parsing
      else if k.NoArgs? then NoArgsSeen
      else if k.End? then EndSeen
      else Close(k)
    case NoArgsSeen => if k.End? then EndSeen else Close(k)
    case EndSeen => Close(k)
    case Closed(o) => if k.Fini? then Finished(o) else Broken
    case _ => Broken
  }

  function Close(k: Key): Phase {
    match k
    case Success => Closed(Successful)
    case Error => Closed(Outcome.Failed)
    case Fini => Finished(Neither)
    case _ => Broken
  }

  function PhaseOf(trace: seq<Call>, g: nat): Phase {
    if |trace| == 0 then Fresh
    else
      var before, last := PhaseOf(trace[..|trace| - 1], g), trace[|trace| - 1];
      if last.group == g then Step(before, last.key) else before
  }

  /** The keys of a group's calls. */
  function KeysOf(trace: seq<Call>, g: nat): seq<Key> {
    if |trace| == 0 then []
    else
      var before, last := KeysOf(trace[..|trace| - 1], g), trace[|trace| - 1];
      if last.group == g then before + [last.key] else before
  }

  predicate Body(ks: seq<Key>) { forall i :: 0 <= i < |ks| ==> ks[i].Opt? || ks[i].Arg? || ks[i].Args? }

  /** INIT (opt | ARG | ARGS)* [NO_ARGS] [END] */
  ghost predicate Opened(ks: seq<Key>, noArgs: bool, end: bool) {
    exists body :: Body(body)
      && ks == [Init] + body + (if noArgs then [NoArgs] else []) + (if end then [End] else [])
  }

  function Closing(o: Outcome): seq<Key> {
    match o case Neither => [] case Successful => [Success] case Failed => [Error]
  }

  ghost predicate Written(ks: seq<Key>, p: Phase) {
    match p
    case Fresh => ks == []
    case Parsing => Opened(ks, false, false)
    case NoArgsSeen => Opened(ks, true, false)
    case EndSeen => exists n :: Opened(ks, n, true)
    case Closed(o) => o != Neither && exists n, e, start :: Opened(start, n, e) && ks == start + Closing(o)
    case Finished(o) => exists n, e, start :: Opened(start, n, e) && ks == start + Closing(o) + [Fini]
    case Broken => true
  }

  /** A phase is reached by the calls that its name promises: at the end a group
      has had INIT (opt | ARG | ARGS)* [NO_ARGS] [END] [SUCCESS | ERROR] FINI. */
  lemma {:induction false} PhaseMeans(trace: seq<Call>, g: nat)
    ensures Written(KeysOf(trace, g), PhaseOf(trace, g))
  {
    if |trace| > 0 {
      var init, last := trace[..|trace| - 1], trace[|trace| - 1];
      PhaseMeans(init, g);
      if last.group == g { WrittenStep(KeysOf(init, g), PhaseOf(init, g), last.key); }
    }
  }

  lemma WrittenStep(ks: seq<Key>, p: Phase, k: Key)
    requires Written(ks, p)
    ensures Written(ks + [k], Step(p, k))
  {
    match p
    case Fresh => if k.Init? { OpenedInit(k); assert ks + [k] == [k]; }
    case Parsing => ParsingStep(ks, k);
    case NoArgsSeen => if k.End? { OpenedEnd(ks, true); } else { CloseStep(ks, true, false, k); }
    case EndSeen => var n :| Opened(ks, n, true); CloseStep(ks, n, true, k);
    case Closed(o) =>
      if k.Fini? {
        var n, e, start :| Opened(start, n, e) && ks == start + Closing(o);
        assert Opened(start, n, e) && ks + [k] == start + Closing(o) + [Fini];
      }
    case Finished(_) =>
    case Broken =>
  }

  lemma OpenedInit(k: Key)
    requires k.Init?
    ensures Opened([k], false, false)
  {
    assert Body([]) && [k] == [Init] + [] + [] + [];
  }

  lemma OpenedEnd(ks: seq<Key>, n: bool)
    requires Opened(ks, n, false)
    ensures Opened(ks + [End], n, true)
  {
    var body :| Body(body) && ks == [Init] + body + (if n then [NoArgs] else []) + [];
    assert ks + [End] == [Init] + body + (if n then [NoArgs] else []) + [End];
  }

  lemma ParsingStep(ks: seq<Key>, k: Key)
    requires Opened(ks, false, false)
    ensures Written(ks + [k], Step(Parsing, k))
  {
    var body :| Body(body) && ks == [Init] + body + [] + [];
    if k.Opt? || k.Arg? || k.Args? { assert Body(body + [k]) && ks + [k] == [Init] + (body + [k]) + [] + []; }
    else if k.NoArgs? { assert ks + [k] == [Init] + body + [NoArgs] + []; }
    else if k.End? { OpenedEnd(ks, false); }
    else { CloseStep(ks, false, false, k); }
  }

  lemma CloseStep(ks: seq<Key>, n: bool, e: bool, k: Key)
    requires Opened(ks, n, e)
    ensures Written(ks + [k], Close(k))
  {
    if k.Fini? { assert Opened(ks, n, e) && ks + [k] == ks + Closing(Neither) + [Fini]; }
    else if k.Success? { assert Opened(ks, n, e) && ks + [k] == ks + Closing(Successful); }
    else if k.Error? { assert Opened(ks, n, e) && ks + [k] == ks + Closing(Outcome.Failed); }
  }

  // ------------------------------------------------------------------ the driver

  const OPEN: set<Phase> := {Parsing, NoArgsSeen, EndSeen}
  const CLOSED: set<Phase> := {Closed(Successful), Closed(Outcome.Failed)}
  const FINISHED: set<Phase> := {Finished(Neither), Finished(Successful), Finished(Outcome.Failed)}

  /** A call for each group, the first group first. */
  function Up(k: Key, n: nat): seq<Call> {
    if n == 0 then [] else Up(k, n - 1) + [Call(n - 1, k)]
  }

  /** A call for each of the groups from g on, the last group first. */
  function Down(k: Key, n: nat, g: nat): seq<Call>
    decreases n - g
  {
    if g >= n then [] else Down(k, n, g + 1) + [Call(g, k)]
  }

  /** NO_ARGS for those of the first n groups that have had no argument. */
  function NoArgsCalls(processed: seq<int>, n: nat): seq<Call>
    requires n <= |processed|
  {
    if n == 0 then []
    else NoArgsCalls(processed, n - 1) + (if processed[n - 1] == 0 then [Call(n - 1, NoArgs)] else [])
  }

  /** Calls made so far in a pass, the last of them answered with `err`, all
      others without objection. */
  ghost predicate Going(t0: seq<Call>, t: seq<Call>, answers: seq<int>, done: seq<Call>, err: int) {
    && |answers| == |t| && t == t0 + done
    && (forall i :: |t0| <= i < |t| - 1 ==> (answers[i] == OK || answers[i] == EBADKEY))
    && (if |done| == 0 then err == OK else err == answers[|t| - 1])
  }

  /** A pass over the groups: the calls of a plan, up to and including the first
      whose answer is an objection, which is then the result; zero if there is
      none. */
  ghost predicate Pass(t0: seq<Call>, t: seq<Call>, answers: seq<int>, plan: seq<Call>, err: int) {
    && |answers| == |t| && t0 <= t <= t0 + plan
    && (forall i :: |t0| <= i < |t| - 1 ==> (answers[i] == OK || answers[i] == EBADKEY))
    && if err == OK then t == t0 + plan && (|t| > |t0| ==> (answers[|t| - 1] == OK || answers[|t| - 1] == EBADKEY))
       else |t| > |t0| && err == answers[|t| - 1] && err != OK && err != EBADKEY
  }

  lemma PassOver(t0: seq<Call>, t: seq<Call>, answers: seq<int>, done: seq<Call>, plan: seq<Call>, err: int)
    requires Going(t0, t, answers, done, err) && done <= plan && ((err == OK || err == EBADKEY) ==> done == plan)
    ensures Pass(t0, t, answers, plan, if err == EBADKEY then OK else err)
  {
    assert t0 + done <= t0 + plan;
  }

  lemma PassGrows(t0: seq<Call>, t: seq<Call>, answers: seq<int>, plan: seq<Call>, err: int)
    requires Pass(t0, t, answers, plan, err)
    ensures t0 <= t
  {
  }

  lemma PlansJoin(a: seq<Call>, p: seq<Call>, b: seq<Call>, q: seq<Call>)
    requires a <= p && b <= q && (a == p || b == [])
    ensures a + b <= p + q
  {
  }

  lemma {:induction false} UpPrefix(k: Key, g: nat, n: nat)
    requires g <= n
    ensures Up(k, g) <= Up(k, n)
    decreases n
  {
    if g < n { UpPrefix(k, g, n - 1); }
  }

  lemma {:induction false} DownPrefix(k: Key, n: nat, g: nat, h: nat)
    requires h <= g
    ensures Down(k, n, g) <= Down(k, n, h)
    decreases g - h
  {
    if h < g { DownPrefix(k, n, g, h + 1); }
  }

  lemma {:induction false} NoArgsPrefix(processed: seq<int>, g: nat, n: nat)
    requires g <= n <= |processed|
    ensures NoArgsCalls(processed, g) <= NoArgsCalls(processed, n)
    decreases n
  {
    if g < n { NoArgsPrefix(processed, g, n - 1); }
  }

  /** The first n groups have refused an argument: ARG, then ARGS. */
  function Refusals(n: nat): seq<Call> {
    if n == 0 then [] else Refusals(n - 1) + [Call(n - 1, Arg), Call(n - 1, Args)]
  }

  /** Whoever takes an argument, the first group is asked first. */
  lemma FirstOffer(before: seq<Call>, after: seq<Call>, n: nat, handler: nat, viaArgs: bool, taken: bool)
    requires taken ==> handler < n
    requires after == before + (if taken then Refusals(handler) + [Call(handler, Arg)] + (if viaArgs then [Call(handler, Args)] else []) else Refusals(n))
    ensures n > 0 ==> before + [Call(0, Arg)] <= after
  {
    if n > 0 {
      var k := if taken then handler else n;
      if k > 0 { RefusalsStart(k); }
    }
  }

  /** An offer that follows on the refusal of another. */
  predicate NextOffer(a: Call, b: Call) {
    (a.key.Arg? && b == Call(a.group, Args)) || (a.key.Args? && b == Call(a.group + 1, Arg))
  }

  /** Calls from `from` on, each the offer that follows on the one before. */
  ghost predicate Offers(calls: seq<Call>, from: nat) {
    forall i :: from <= i < |calls| - 1 ==> NextOffer(calls[i], calls[i + 1])
  }

  /** The state that a refused offer leaves to the next: for ARG the argument is
      consumed, for ARGS it is put back. */
  function Handed(c: Call, s: State): State {
    s.(next := if c.key.Arg? then s.next - 1 else s.next + 1)
  }

  ghost predicate HandedOn(calls: seq<Call>, given: seq<State>, left: seq<State>, from: nat) {
    |given| == |left| == |calls| && forall i :: from <= i < |calls| - 1 ==> given[i + 1] == Handed(calls[i], left[i])
  }

  /** What one round of the loop makes of the answers to its calls: all but the
      last are refusals, and the last is the result; without a call it is that
      for an unknown key. */
  ghost predicate Round(before: seq<int>, after: seq<int>, err: int) {
    && before <= after && (forall i :: |before| <= i < |after| - 1 ==> after[i] == EBADKEY)
    && err == if |after| > |before| then after[|after| - 1] else EBADKEY
  }

  lemma {:induction false} RefusalsAt(n: nat, i: nat)
    requires i < 2 * n
    ensures |Refusals(n)| == 2 * n && Refusals(n)[i] == Call(i / 2, if i % 2 == 0 then Arg else Args)
  {
    if n > 1 && i < 2 * n - 2 { RefusalsAt(n - 1, i); }
    else if n > 1 { RefusalsAt(n - 1, 0); }
    else { assert Refusals(0) == []; }
  }

  /** Refusals and one more offer are offers, one after the other. */
  lemma RefusalsOffers(t: seq<Call>, calls: seq<Call>, k: nat)
    requires calls == t + Refusals(k) || calls == t + Refusals(k) + [Call(k, Arg)]
    ensures Offers(calls, |t|)
  {
    hide Refusals;
    forall i | |t| <= i < |calls| - 1 ensures NextOffer(calls[i], calls[i + 1]) {
      var j := i - |t|;
      if k > 0 { RefusalsAt(k, if j < 2 * k then j else 0); }
      else { assert Refusals(0) == [] by { NoRefusals(); } }
      if j + 1 < 2 * k { RefusalsAt(k, j + 1); }
    }
  }

  lemma NoRefusals()
    ensures Refusals(0) == []
  {
  }

  /** The loop goes on: every answer but the last is zero, and a new round follows,
      or a refusal, and the next offer follows. */
  ghost predicate Running(calls: seq<Call>, answers: seq<int>, from: nat) {
    |answers| == |calls| && forall i :: from <= i < |calls| - 1 ==>
      (answers[i] == OK && FirstCall(calls[i + 1])) || (answers[i] == EBADKEY && NextOffer(calls[i], calls[i + 1]))
  }

  /** The first call of a round: an option, or an argument for the first group. */
  predicate FirstCall(c: Call) { c.key.Opt? || c == Call(0, Arg) }

  lemma RunningMore(t: seq<Call>, a: seq<int>, t': seq<Call>, a': seq<int>, err: int, from: nat)
    requires Running(t, a, from) && from <= |t| && (|t| > from ==> a[|t| - 1] == OK)
    requires t <= t' && |a'| == |t'| && Round(a, a', err) && Offers(t', |t|) && (|t'| > |t| ==> FirstCall(t'[|t|]))
    ensures Running(t', a', from)
    ensures if |t'| > |t| then a'[|t'| - 1] == err else err == EBADKEY && a' == a
  {
    forall i | from <= i < |t'| - 1
      ensures (a'[i] == OK && FirstCall(t'[i + 1])) || (a'[i] == EBADKEY && NextOffer(t'[i], t'[i + 1]))
    {
      if i < |t| { assert a'[i] == a[i] && t'[i] == t[i]; if i + 1 < |t| { assert t'[i + 1] == t[i + 1]; } }
    }
  }

  lemma HandedMore(from: nat, t: seq<Call>, g: seq<State>, l: seq<State>, t': seq<Call>, g': seq<State>, l': seq<State>, s: State)
    requires HandedOn(t, g, l, from) && from <= |t| && t <= t' && g <= g' && l <= l' && |g'| == |l'| == |t'| && |t| < |t'| <= |t| + 2
    requires |t| > from ==> t[|t| - 1].key.Args? && s == l[|t| - 1]
    requires g'[|t|] == s.(next := s.next + 1)
    requires |t'| == |t| + 2 ==> g'[|t| + 1] == Handed(t'[|t|], l'[|t|])
    ensures HandedOn(t', g', l', from)
  {
    forall i | from <= i < |t'| - 1 ensures g'[i + 1] == Handed(t'[i], l'[i]) {
      if i < |t| { assert t'[i] == t[i] && l'[i] == l[i]; }
      if i + 1 < |t| { assert g'[i + 1] == g[i + 1]; }
    }
  }

  lemma RoundMore(before: seq<int>, a: seq<int>, a': seq<int>, err: int)
    requires Round(before, a, EBADKEY) && (a' == a + [err] || a' == a + [EBADKEY, err])
    ensures Round(before, a', err)
  {
  }

  lemma RoundResult(before: seq<int>, after: seq<int>, err: int)
    requires Round(before, after, err)
    ensures err == if |after| > |before| then after[|after| - 1] else EBADKEY
  {
  }

  lemma NothingHanded(t: seq<Call>, g: seq<State>, l: seq<State>)
    requires |g| == |l| == |t|
    ensures HandedOn(t, g, l, |t|)
  {
  }

  lemma NoCalls(t: seq<Call>, a: seq<int>)
    requires |a| == |t|
    ensures Round(a, a, EBADKEY) && Offers(t, |t|)
  {
  }

  lemma OneCall(t: seq<Call>, t': seq<Call>, a: seq<int>, a': seq<int>, err: int)
    requires (a' == a + [err] && |t'| == |t| + 1) || (a' == a && t' == t && err == EBADKEY)
    ensures Round(a, a', err) && Offers(t', |t|)
  {
  }

  lemma TakenOffers(t: seq<Call>, t': seq<Call>, n: nat, handler: nat, viaArgs: bool, taken: bool)
    requires t' == t + (if taken then Refusals(handler) + [Call(handler, Arg)] + (if viaArgs then [Call(handler, Args)] else []) else Refusals(n))
    ensures Offers(t', |t|)
  {
    if !taken { RefusalsOffers(t, t', n); }
    else if viaArgs { assert t' == t + Refusals(handler + 1); RefusalsOffers(t, t', handler + 1); }
    else { assert t' == t + Refusals(handler) + [Call(handler, Arg)]; RefusalsOffers(t, t', handler); }
  }

  lemma RefusalsEnd(t: seq<Call>, n: nat)
    requires n > 0
    ensures |t + Refusals(n)| > |t| && (t + Refusals(n))[|t + Refusals(n)| - 1] == Call(n - 1, Args)
  {
  }

  lemma PassWhole(t0: seq<Call>, t: seq<Call>, answers: seq<int>, plan: seq<Call>)
    requires Pass(t0, t, answers, plan, OK)
    ensures t == t0 + plan
  {
  }

  lemma BegunRuns(calls: seq<Call>, answers: seq<int>)
    requires |answers| == |calls|
    ensures Running(calls, answers, |calls|)
  {
  }

  /** Why the loop has stopped: the objection of a parser, an option that its
      parser does not know, an option that getopt or no group knows, or an
      argument that nobody takes or that is not there. */
  datatype Cause = Objection | OptionRefused | NoSuchOption | Arguments

  /** How that shows in the calls since `from`. */
  ghost predicate Stopped(cause: Cause, groups: nat, from: nat, calls: seq<Call>, answers: seq<int>, stop: State) {
    |answers| == |calls| &&
    var idle := |calls| <= from || answers[|calls| - 1] == OK;
    match cause
    case Objection => !idle && answers[|calls| - 1] != EBADKEY
    case OptionRefused => !idle && answers[|calls| - 1] == EBADKEY && calls[|calls| - 1].key.Opt?
    case NoSuchOption => idle
    case Arguments =>
      || (!idle && groups > 0 && answers[|calls| - 1] == EBADKEY && calls[|calls| - 1] == Call(groups - 1, Args))
      || (idle && (groups == 0 || stop.next >= stop.argc || stop.noArgs))
  }

  lemma {:induction false} RefusalsStart(n: nat)
    requires n > 0
    ensures [Call(0, Arg)] <= Refusals(n)
  {
    if n > 1 { RefusalsStart(n - 1); } else { assert Refusals(0) == []; }
  }

  /** Every call was answered as the parser of its group does, given the calls
      before and the state at the time; a group without a parser does not know any
      key. */
  ghost predicate Honest(hasParser: seq<bool>, user: (seq<Call>, State) -> Reply,
                         calls: seq<Call>, answers: seq<int>, given: seq<State>, left: seq<State>)
    ensures Honest(hasParser, user, calls, answers, given, left) ==> |answers| == |given| == |left| == |calls|
  {
    && |answers| == |given| == |left| == |calls|
    && (forall i :: 0 <= i < |calls| ==> calls[i].group < |hasParser|)
    && forall i :: 0 <= i < |calls| ==>
         Reply(answers[i], left[i]) == if hasParser[calls[i].group] then user(calls[..i], given[i]) else Reply(EBADKEY, given[i])
  }

  lemma HonestMore(hasParser: seq<bool>, user: (seq<Call>, State) -> Reply, t: seq<Call>, a: seq<int>, g: seq<State>, l: seq<State>,
                   c: Call, s: State, r: Reply)
    requires Honest(hasParser, user, t, a, g, l) && c.group < |hasParser|
    requires r == if hasParser[c.group] then user(t, s) else Reply(EBADKEY, s)
    ensures Honest(hasParser, user, t + [c], a + [r.err], g + [s], l + [r.state])
  {
    var t' := t + [c];
    assert t'[..|t|] == t;
    assert forall i :: 0 <= i < |t| ==> t'[..i] == t[..i];
  }

  lemma PhasesMore(t: seq<Call>, c: Call, ps: seq<Phase>)
    requires c.group < |ps| && forall h :: 0 <= h < |ps| ==> ps[h] == PhaseOf(t, h)
    ensures forall h :: 0 <= h < |ps| ==> ps[c.group := Step(ps[c.group], c.key)][h] == PhaseOf(t + [c], h)
  {
    assert (t + [c])[..|t|] == t;
  }

  class Driver {
    /** Whether a group has a parser, what the parsers answer, and what getopt
        answers. */
    const hasParser: seq<bool>
    const user: (seq<Call>, State) -> Reply
    const getopt: (seq<Call>, State) -> Getopt
    var state: State
    var processed: seq<int>
    var tryGetopt: bool
    var trace: seq<Call>
    ghost var phases: seq<Phase>
    /** What the calls were answered, and the state before and after each. */
    ghost var answers: seq<int>
    ghost var given: seq<State>
    ghost var left: seq<State>

    ghost predicate Valid()
      reads this
    {
      && |processed| == |phases| == |hasParser| && Honest(hasParser, user, trace, answers, given, left)
      && (forall g :: 0 <= g < |phases| ==> phases[g] == PhaseOf(trace, g))
      && forall h, s :: getopt(h, s).Selected? && getopt(h, s).group.Some? ==> getopt(h, s).group.value < |hasParser|
    }

    ghost predicate All(ps: set<Phase>)
      reads this
    {
      forall g :: 0 <= g < |phases| ==> phases[g] in ps
    }

    constructor (hasParser: seq<bool>, user: (seq<Call>, State) -> Reply, getopt: (seq<Call>, State) -> Getopt, argc: int, noArgs: bool)
      requires forall h, s :: getopt(h, s).Selected? && getopt(h, s).group.Some? ==> getopt(h, s).group.value < |hasParser|
      ensures Valid() && trace == [] && All({Fresh})
      ensures this.hasParser == hasParser && this.user == user && this.getopt == getopt
      ensures state == State(0, 0, argc, noArgs) && tryGetopt && forall g :: 0 <= g < |processed| ==> processed[g] == 0
    {
      this.hasParser, this.user, this.getopt := hasParser, user, getopt;
      state := State(0, 0, argc, noArgs);
      processed := seq(|hasParser|, _ => 0);
      tryGetopt, trace := true, [];
      phases := seq(|hasParser|, _ => Fresh);
      answers, given, left := [], [], [];
    }

    /** `group_parse`; a group without a parser does not know any key. */
    method GroupParse(g: nat, key: Key) returns (err: int)
      requires Valid() && g < |hasParser|
      modifies this`state, this`trace, this`phases, this`answers, this`given, this`left
      ensures Valid() && trace == old(trace) + [Call(g, key)]
      ensures phases == old(phases)[g := Step(old(phases)[g], key)] && answers == old(answers) + [err]
      ensures given == old(given) + [old(state)] && left == old(left) + [state]
      ensures Reply(err, state) == if hasParser[g] then user(old(trace), old(state)) else Reply(EBADKEY, old(state))
    {
      hide Honest, PhaseOf;
      ghost var a, gs, l := answers, given, left;
      err := EBADKEY;
      given := given + [state];
      if hasParser[g] {
        var reply := user(trace, state);
        err, state := reply.err, reply.state;
      }
      ghost var was := trace;
      trace := trace + [Call(g, key)];
      phases, answers := phases[g := Step(phases[g], key)], answers + [err];
      left := left + [state];
      HonestMore(hasParser, user, was, a, gs, l, Call(g, key), given[|gs|], Reply(err, state));
      PhasesMore(was, Call(g, key), old(phases));
    }

    /** The INIT pass of `parser_init`. */
    method InitPass() returns (err: int)
      requires Valid() && All({Fresh})
      modifies this`state, this`trace, this`phases, this`answers, this`given, this`left
      ensures Valid() && err != EBADKEY && Pass(old(trace), trace, answers, Up(Init, |hasParser|), err)
      ensures err == OK ==> All({Parsing})
      ensures err != OK ==> All({Fresh, Parsing})
    {
      hide PhaseOf, Honest;
      err := OK;
      var g := 0;
      while g < |hasParser| && (err == OK || err == EBADKEY)
        invariant Valid() && g <= |hasParser| && Going(old(trace), trace, answers, Up(Init, g), err)
        invariant forall h :: 0 <= h < |phases| ==> phases[h] == if h < g then Parsing else Fresh
      {
        err := GroupParse(g, Init);
        g := g + 1;
      }
      UpPrefix(Init, g, |hasParser|);
      PassOver(old(trace), trace, answers, Up(Init, g), Up(Init, |hasParser|), err);
      if err == EBADKEY { err := OK; }
    }

    /** One group is offered the argument that NEXT stands at, with ARG and, if it
        refuses, with ARGS. */
    method OfferOne(g: nat) returns (err: int, key: Key)
      requires Valid() && All({Parsing}) && g < |hasParser|
      modifies this`state, this`trace, this`phases, this`answers, this`given, this`left
      ensures Valid() && All({Parsing}) && (key == Arg || key == Args)
      ensures old(trace) + [Call(g, Arg)] <= trace && old(answers) <= answers && old(given) <= given && old(left) <= left
      ensures given[|old(trace)|] == old(state).(next := old(state).next + 1) && left[|trace| - 1] == state
      ensures key == Arg ==> err != EBADKEY && trace == old(trace) + [Call(g, Arg)] && answers == old(answers) + [err]
      ensures key == Args ==> trace == old(trace) + [Call(g, Arg), Call(g, Args)] && answers == old(answers) + [EBADKEY, err]
      ensures key == Args ==> given[|old(trace)| + 1] == Handed(Call(g, Arg), left[|old(trace)|])
    {
      hide PhaseOf, Honest;
      state := state.(next := state.next + 1);
      key := Arg;
      err := GroupParse(g, Arg);
      if err == EBADKEY {
        state := state.(next := state.next - 1);
        key := Args;
        err := GroupParse(g, Args);
      }
    }

    /** The offers in order, until a group takes the argument. */
    method OfferAll() returns (err: int, key: Key, g: nat)
      requires Valid() && All({Parsing})
      modifies this`state, this`trace, this`phases, this`answers, this`given, this`left
      ensures Valid() && All({Parsing}) && g <= |hasParser| && Round(old(answers), answers, err)
      ensures err == EBADKEY ==> trace == old(trace) + Refusals(|hasParser|)
      ensures err != EBADKEY ==> (g > 0 &&
        trace == old(trace) + Refusals(g - 1) + [Call(g - 1, Arg)] + (if key == Args then [Call(g - 1, Args)] else []))
      ensures HandedOn(trace, given, left, |old(trace)|)
      ensures if |hasParser| == 0 then state == old(state)
        else |trace| > |old(trace)| && given[|old(trace)|] == old(state).(next := old(state).next + 1) && state == left[|trace| - 1]
    {
      hide PhaseOf, Honest, Round, HandedOn, Handed;
      err, key, g := EBADKEY, Opt, 0;
      NoCalls(trace, answers);
      NothingHanded(trace, given, left);
      while g < |hasParser| && err == EBADKEY
        invariant Valid() && All({Parsing}) && g <= |hasParser| && Round(old(answers), answers, err)
        invariant err == EBADKEY ==> trace == old(trace) + Refusals(g)
        invariant err != EBADKEY ==> (g > 0 &&
          trace == old(trace) + Refusals(g - 1) + [Call(g - 1, Arg)] + (if key == Args then [Call(g - 1, Args)] else []))
        invariant HandedOn(trace, given, left, |old(trace)|)
        invariant if g == 0 then state == old(state) && trace == old(trace)
          else |trace| > |old(trace)| && given[|old(trace)|] == old(state).(next := old(state).next + 1) && state == left[|trace| - 1]
        invariant g > 0 && err == EBADKEY ==> trace[|trace| - 1].key.Args?
      {
        ghost var t, a, gs, l, s := trace, answers, given, left, state;
        err, key := OfferOne(g);
        HandedMore(|old(trace)|, t, gs, l, trace, given, left, s);
        RoundMore(old(answers), a, answers, err);
        g := g + 1;
      }
    }

    /** `parser_parse_arg`: the argument is put back and offered. A group that took
        it with ARGS has all arguments counted as used; a group that moved NEXT
        back makes getopt look again. */
    method ParseArg() returns (err: int, ghost handler: nat, ghost viaArgs: bool)
      requires Valid() && All({Parsing})
      modifies this
      ensures Valid() && All({Parsing}) && Round(old(answers), answers, err)
      ensures err == EBADKEY ==> trace == old(trace) + Refusals(|hasParser|) && processed == old(processed)
      ensures err != EBADKEY ==> handler < |hasParser|
      ensures err != EBADKEY ==>
        trace == old(trace) + Refusals(handler) + [Call(handler, Arg)] + (if viaArgs then [Call(handler, Args)] else [])
      ensures |hasParser| > 0 ==> old(trace) + [Call(0, Arg)] <= trace
      ensures HandedOn(trace, given, left, |old(trace)|) && (|hasParser| > 0 ==> given[|old(trace)|] == old(state))
      ensures var s := if |hasParser| == 0 then old(state).(next := old(state).next - 1) else left[|trace| - 1];
        state == if err == OK && viaArgs then s.(next := s.argc) else s
      ensures err == OK && state.next > old(state.next) - 1 ==>
        processed == old(processed)[handler := old(processed)[handler] + state.next - (old(state.next) - 1)]
      ensures err != OK || state.next <= old(state.next) - 1 ==> processed == old(processed)
      ensures tryGetopt == (old(tryGetopt) || (err == OK && state.next <= old(state.next) - 1))
    {
      hide PhaseOf, Honest, Round, HandedOn;
      state := state.(next := state.next - 1);
      var index := state.next;
      var key, g;
      err, key, g := OfferAll();
      handler, viaArgs := if g > 0 then g - 1 else 0, key == Args;
      FirstOffer(old(trace), trace, |hasParser|, handler, viaArgs, err != EBADKEY);
      if err == OK {
        if key == Args { state := state.(next := state.argc); }
        if state.next > index {
          g := g - 1;
          processed := processed[g := processed[g] + (state.next - index)];
        } else {
          tryGetopt := true;
        }
      }
    }

    /** `parser_parse_opt`, once the group is known. */
    method ParseOpt(group: Option<nat>) returns (err: int)
      requires Valid() && All({Parsing}) && (group.Some? ==> group.value < |hasParser|)
      modifies this`state, this`trace, this`phases, this`answers, this`given, this`left
      ensures Valid() && All({Parsing})
      ensures group.None? ==> err == EBADKEY && trace == old(trace) && answers == old(answers) && state == old(state)
      ensures group.Some? ==> trace == old(trace) + [Call(group.value, Opt)] && answers == old(answers) + [err]
      ensures group.Some? ==> given == old(given) + [old(state)] && left == old(left) + [state]
    {
      err := EBADKEY;
      if group.Some? { err := GroupParse(group.value, Opt); }
    }

    /** The state as getopt gets it: a `--` that lies ahead again is forgotten. */
    function Seen(): State
      reads this
    {
      if state.quoted != 0 && state.next < state.quoted then state.(quoted := 0) else state
    }

    /** Whether the next round asks getopt. */
    predicate Consults()
      reads this
    {
      tryGetopt && Seen().quoted == 0
    }

    /** Getopt has its say, if it is asked. */
    method Look() returns (answer: Getopt)
      modifies this`state, this`tryGetopt
      ensures !old(Consults()) ==> answer == NoMore(old(state.next), false) && state == old(Seen()) && tryGetopt == old(tryGetopt)
      ensures old(Consults()) ==> answer == getopt(trace, old(Seen())) && tryGetopt == !answer.NoMore?
      ensures old(Consults()) ==> state == old(Seen()).(
        next := answer.optind, quoted := if answer.NoMore? && answer.optind > 1 && answer.dashes then answer.optind else 0)
    {
      if state.quoted != 0 && state.next < state.quoted { state := state.(quoted := 0); }
      answer := NoMore(state.next, false);
      if tryGetopt && state.quoted == 0 {
        answer := getopt(trace, state);
        state := state.(next := answer.optind);
        if answer.NoMore? {
          tryGetopt := false;
          if state.next > 1 && answer.dashes { state := state.(quoted := state.next); }
        }
      }
    }

    /** `parser_parse_next`; the second result says whether an unknown key comes
        from an argument. An option goes to its group. A plain argument is offered
        to the groups if there is one left and ARGP_NO_ARGS is clear; otherwise
        the loop is told to stop. A round without a call is the last; otherwise
        the last answer is the result. */
    method ParseNext(argEbadkey0: bool) returns (err: int, argEbadkey: bool, ghost answer: Getopt)
      requires Valid() && All({Parsing})
      modifies this
      ensures Valid() && All({Parsing})
      ensures old(trace) <= trace && Round(old(answers), answers, err) && Offers(trace, |old(trace)|)
      ensures |trace| > |old(trace)| ==> FirstCall(trace[|old(trace)|])
      ensures err != EBADKEY ==> argEbadkey == argEbadkey0
      ensures err == EBADKEY ==> (argEbadkey <==> answer.NoMore? || answer.Argument?)
      ensures answer == if old(Consults()) then getopt(old(trace), old(Seen())) else NoMore(old(state.next), false)
      ensures var s := old(Seen()).(
          next := answer.optind,
          quoted := if !old(Consults()) then old(Seen()).quoted
                    else if answer.NoMore? && answer.optind > 1 && answer.dashes then answer.optind else 0);
        match answer
        case Unknown(_) => trace == old(trace) && state == s
        case Selected(_, group) =>
          if group.Some? then trace == old(trace) + [Call(group.value, Opt)] && given == old(given) + [s] && left == old(left) + [state]
          else trace == old(trace) && state == s
        case Argument(_) => Offered(old(trace), s)
        case NoMore(optind, _) =>
          if optind >= s.argc || s.noArgs then trace == old(trace) && state == s
          else Offered(old(trace), s.(next := optind + 1))
    {
      hide PhaseOf, Honest, Round, HandedOn, Offers;
      argEbadkey := argEbadkey0;
      var a := Look();
      answer := a;
      NoCalls(trace, answers);
      if a.Unknown? { return EBADKEY, false, answer; }
      if a.NoMore? {
        if state.next >= state.argc || state.noArgs { return EBADKEY, true, answer; }
        state := state.(next := state.next + 1);
      }
      if a.Selected? {
        err := ParseOpt(a.group);
        OneCall(old(trace), trace, old(answers), answers, err);
      } else {
        ghost var handler, viaArgs;
        err, handler, viaArgs := ParseArg();
        TakenOffers(old(trace), trace, |hasParser|, handler, viaArgs, err != EBADKEY);
        RoundResult(old(answers), answers, err);
      }
      if err == EBADKEY { argEbadkey := !a.Selected?; }
    }

    /** The argument before NEXT in state s has been offered, from the first group
        on; with ARGS refused by the last, or with a group that took it. */
    ghost predicate Offered(before: seq<Call>, s: State)
      reads this
    {
      && HandedOn(trace, given, left, |before|)
      && (if |hasParser| == 0 then trace == before && state == s.(next := s.next - 1)
          else before + [Call(0, Arg)] <= trace && given[|before|] == s)
      && (|answers| == |trace| > |before| && answers[|trace| - 1] == EBADKEY ==> trace == before + Refusals(|hasParser|))
    }

    /** A round that ends the loop, after rounds that did not. */
    lemma RoundStops(from: nat, t: seq<Call>, a: seq<int>, answer: Getopt, err: int) returns (cause: Cause)
      requires Valid() && err != OK && t <= trace && |a| == |t| && from <= |t| && (|t| > from ==> a[|t| - 1] == OK)
      requires Round(a, answers, err)
      requires answer.Unknown? ==> trace == t
      requires answer.Selected? ==> trace == if answer.group.Some? then t + [Call(answer.group.value, Opt)] else t
      requires (answer.NoMore? || answer.Argument?) && err == EBADKEY ==>
        if trace == t then |hasParser| == 0 || state.next >= state.argc || state.noArgs else trace == t + Refusals(|hasParser|)
      ensures Stopped(cause, |hasParser|, from, trace, answers, state)
      ensures cause.Objection? <==> err != EBADKEY
      ensures cause.Objection? ==> |trace| > 0 && err == answers[|trace| - 1]
      ensures cause.Arguments? <==> err == EBADKEY && (answer.NoMore? || answer.Argument?)
      ensures cause.NoSuchOption? ==> trace == t && (answer.Unknown? || (answer.Selected? && answer.group.None?))
    {
      hide PhaseOf, Honest, Refusals;
      if trace == t { assert answers == a; }
      cause := if err != EBADKEY then Objection
        else if answer.NoMore? || answer.Argument? then Arguments
        else if trace == t then NoSuchOption else OptionRefused;
      if cause.Arguments? && trace != t {
        if |hasParser| > 0 { RefusalsEnd(t, |hasParser|); } else { NoRefusals(); }
      }
    }

    /** What the passes at the end make of a run whose loop stopped for want of
        arguments. */
    ghost predicate Closing(parsed: seq<Call>, ended: seq<Call>, told: seq<Call>, stop: State, hasEndIndex: bool, code: int, err: int)
      requires Valid() && |ended| <= |answers| && |told| <= |answers|
      reads this
    {
      && (if stop.next == stop.argc
          then Pass(parsed, ended, answers[..|ended|], NoArgsCalls(processed, |hasParser|) + Down(End, |hasParser|, 0), code)
          else ended == parsed && code == if hasEndIndex then OK else EBADKEY)
      && (if code == OK then Pass(ended, told, answers[..|told|], Down(Success, |hasParser|, 0), err)
          else told == ended + Up(Error, |hasParser|) && err == if code == EBADKEY then EINVAL else code)
    }

    // ------------------------------------------------------------ the end of a run

    /** NO_ARGS to the groups that have had no argument. */
    method NoArgsPass() returns (err: int, ghost done: seq<Call>)
      requires Valid() && All({Parsing})
      modifies this`state, this`trace, this`phases, this`answers, this`given, this`left
      ensures Valid() && All({Parsing, NoArgsSeen})
      ensures old(answers) <= answers
      ensures Going(old(trace), trace, answers, done, err) && done <= NoArgsCalls(processed, |hasParser|)
      ensures (err == OK || err == EBADKEY) ==> done == NoArgsCalls(processed, |hasParser|)
    {
      hide PhaseOf, Honest;
      err := OK;
      var g := 0;
      while g < |hasParser| && (err == OK || err == EBADKEY)
        invariant Valid() && g <= |hasParser| && Going(old(trace), trace, answers, NoArgsCalls(processed, g), err) && old(answers) <= answers
        invariant forall h :: 0 <= h < |phases| ==> phases[h].Parsing? || (h < g && phases[h].NoArgsSeen?)
      {
        if processed[g] == 0 { err := GroupParse(g, NoArgs); }
        g := g + 1;
      }
      done := NoArgsCalls(processed, g);
      NoArgsPrefix(processed, g, |hasParser|);
    }

    /** END to all groups, the last first, unless a parser has objected before. */
    method EndPass(err0: int, ghost t0: seq<Call>, ghost done0: seq<Call>) returns (err: int, ghost done: seq<Call>)
      requires Valid() && All({Parsing, NoArgsSeen}) && Going(t0, trace, answers, done0, err0)
      modifies this`state, this`trace, this`phases, this`answers, this`given, this`left
      ensures Valid() && All(OPEN) && Going(t0, trace, answers, done0 + done, err) && old(answers) <= answers
      ensures done <= Down(End, |hasParser|, 0) && (err0 != OK && err0 != EBADKEY ==> err == err0 && done == [])
      ensures (err == OK || err == EBADKEY) ==> done == Down(End, |hasParser|, 0)
    {
      hide PhaseOf, Honest;
      err := err0;
      var g: nat := |hasParser|;
      assert done0 + [] == done0;
      while g > 0 && (err == OK || err == EBADKEY)
        invariant Valid() && g <= |hasParser| && Going(t0, trace, answers, done0 + Down(End, |hasParser|, g), err) && old(answers) <= answers
        invariant err0 != OK && err0 != EBADKEY ==> err == err0 && g == |hasParser|
        invariant forall h :: 0 <= h < |phases| ==> if h < g then phases[h].Parsing? || phases[h].NoArgsSeen? else phases[h].EndSeen?
      {
        g := g - 1;
        err := GroupParse(g, End);
        assert done0 + Down(End, |hasParser|, g) == done0 + Down(End, |hasParser|, g + 1) + [Call(g, End)];
      }
      done := Down(End, |hasParser|, g);
      DownPrefix(End, |hasParser|, g, 0);
    }

    /** All arguments have been parsed: tell the parsers. */
    method EndPasses() returns (err: int)
      requires Valid() && All({Parsing})
      modifies this`state, this`trace, this`phases, this`answers, this`given, this`left
      ensures Valid() && All(OPEN) && err != EBADKEY && old(answers) <= answers
      ensures Pass(old(trace), trace, answers, NoArgsCalls(processed, |hasParser|) + Down(End, |hasParser|, 0), err)
    {
      hide PhaseOf, Honest, Going;
      ghost var done1, done2;
      err, done1 := NoArgsPass();
      err, done2 := EndPass(err, old(trace), done1);
      PlansJoin(done1, NoArgsCalls(processed, |hasParser|), done2, Down(End, |hasParser|, 0));
      PassOver(old(trace), trace, answers, done1 + done2, NoArgsCalls(processed, |hasParser|) + Down(End, |hasParser|, 0), err);
      if err == EBADKEY { err := OK; }
    }

    method ErrorPass()
      requires Valid() && All(OPEN)
      modifies this`state, this`trace, this`phases, this`answers, this`given, this`left
      ensures Valid() && All({Closed(Outcome.Failed)}) && trace == old(trace) + Up(Error, |hasParser|) && old(answers) <= answers
    {
      hide PhaseOf, Honest;
      for g := 0 to |hasParser|
        invariant Valid() && trace == old(trace) + Up(Error, g) && old(answers) <= answers
        invariant forall h :: 0 <= h < |phases| ==> if h < g then phases[h] == Closed(Outcome.Failed) else phases[h] in OPEN
      {
        var ignored := GroupParse(g, Error);
      }
    }

    /** SUCCESS from the last group to the first, until a parser objects. */
    method SuccessPass() returns (err: int)
      requires Valid() && All(OPEN)
      modifies this`state, this`trace, this`phases, this`answers, this`given, this`left
      ensures Valid() && All(OPEN + {Closed(Successful)}) && err != EBADKEY && old(answers) <= answers
      ensures Pass(old(trace), trace, answers, Down(Success, |hasParser|, 0), err)
      ensures err == OK ==> All({Closed(Successful)})
    {
      hide PhaseOf, Honest;
      err := OK;
      var g: nat := |hasParser|;
      while g > 0 && (err == OK || err == EBADKEY)
        invariant Valid() && g <= |hasParser| && Going(old(trace), trace, answers, Down(Success, |hasParser|, g), err)
        invariant old(answers) <= answers
        invariant forall h :: 0 <= h < |phases| ==> if h < g then phases[h] in OPEN else phases[h] == Closed(Successful)
      {
        g := g - 1;
        err := GroupParse(g, Success);
      }
      DownPrefix(Success, |hasParser|, g, 0);
      PassOver(old(trace), trace, answers, Down(Success, |hasParser|, g), Down(Success, |hasParser|, 0), err);
      if err == EBADKEY { err := OK; }
    }

    method FiniPass()
      requires Valid() && All(OPEN + CLOSED)
      modifies this`state, this`trace, this`phases, this`answers, this`given, this`left
      ensures Valid() && |phases| == |old(phases)| && trace == old(trace) + Down(Fini, |hasParser|, 0)
      ensures old(answers) <= answers
      ensures forall g :: 0 <= g < |phases| ==>
        phases[g] == Finished(if old(phases)[g].Closed? then old(phases)[g].outcome else Neither)
    {
      hide PhaseOf, Honest;
      var g: nat := |hasParser|;
      while g > 0
        invariant Valid() && g <= |hasParser| && |phases| == |old(phases)|
        invariant trace == old(trace) + Down(Fini, |hasParser|, g) && old(answers) <= answers
        invariant forall h :: 0 <= h < g ==> phases[h] == old(phases)[h]
        invariant forall h :: g <= h < |phases| ==>
          phases[h] == Finished(if old(phases)[h].Closed? then old(phases)[h].outcome else Neither)
      {
        g := g - 1;
        var ignored := GroupParse(g, Fini);
      }
    }

    /** The last passes: ERROR to all groups or SUCCESS until one objects (up to
        `told`), and FINI. */
    method Tell(code: int) returns (err: int, ghost told: seq<Call>)
      requires Valid() && All(OPEN)
      modifies this`state, this`trace, this`phases, this`answers, this`given, this`left
      ensures Valid() && err != EBADKEY && All(FINISHED)
      ensures All({Finished(Outcome.Failed)}) || All(FINISHED - {Finished(Outcome.Failed)})
      ensures err == OK ==> All({Finished(Successful)})
      ensures old(answers) <= answers && old(trace) <= told <= trace
      ensures trace == told + Down(Fini, |hasParser|, 0) && |told| <= |answers|
      ensures code != OK ==> told == old(trace) + Up(Error, |hasParser|) && err == if code == EBADKEY then EINVAL else code
      ensures code == OK ==> Pass(old(trace), told, answers[..|told|], Down(Success, |hasParser|, 0), err)
    {
      hide PhaseOf, Honest, Pass, Up, Down;
      err := code;
      if err != OK { ErrorPass(); } else { err := SuccessPass(); }
      told := trace;
      ghost var was := answers;
      assert was[..|told|] == was;
      if code == OK { PassGrows(old(trace), told, was, Down(Success, |hasParser|, 0), err); }
      FiniPass();
      assert answers[..|told|] == was;
      if err == EBADKEY { err := EINVAL; }
    }

    /** `parser_finalize`. Unless an error is left over, the passes that end the
        parsing are made if all arguments are used (`ended` are the calls up to
        there, `code` the result); arguments left over are an error if the caller
        cannot take them. An error goes to all groups; otherwise the SUCCESS pass
        is made (up to `told`). FINI goes to all groups at last. */
    method Finalize(err0: int, argEbadkey: bool, hasEndIndex: bool)
      returns (err: int, ghost code: int, ghost ended: seq<Call>, ghost told: seq<Call>)
      requires Valid() && All({Parsing})
      modifies this`state, this`trace, this`phases, this`answers, this`given, this`left
      ensures Valid() && err != EBADKEY && All(FINISHED)
      ensures All({Finished(Outcome.Failed)}) || All(FINISHED - {Finished(Outcome.Failed)})
      ensures err == OK ==> All({Finished(Successful)})
      ensures old(answers) <= answers
      ensures old(trace) <= ended <= told <= trace && trace == told + Down(Fini, |hasParser|, 0) && |told| <= |answers|
      ensures !(err0 == OK || (err0 == EBADKEY && argEbadkey)) ==> ended == old(trace) && code == err0
      ensures (err0 == OK || (err0 == EBADKEY && argEbadkey)) && old(state.next != state.argc) ==>
        ended == old(trace) && code == if hasEndIndex then OK else EBADKEY
      ensures (err0 == OK || (err0 == EBADKEY && argEbadkey)) && old(state.next == state.argc) ==>
        Pass(old(trace), ended, answers[..|ended|], NoArgsCalls(processed, |hasParser|) + Down(End, |hasParser|, 0), code)
      ensures code != OK ==> told == ended + Up(Error, |hasParser|) && err == if code == EBADKEY then EINVAL else code
      ensures code == OK ==> Pass(ended, told, answers[..|told|], Down(Success, |hasParser|, 0), err)
    {
      hide PhaseOf, Honest, Pass, Up, Down, NoArgsCalls;
      var e := if err0 == EBADKEY && argEbadkey then OK else err0;
      if e == OK {
        if state.next == state.argc {
          e := EndPasses();
          PassGrows(old(trace), trace, answers, NoArgsCalls(processed, |hasParser|) + Down(End, |hasParser|, 0), e);
        }
        else if !hasEndIndex { e := EBADKEY; }
      }
      code, ended := e, trace;
      ghost var was := answers;
      assert was[..|ended|] == was;
      err, told := Tell(e);
      assert answers[..|ended|] == was;
    }

    /** `__argp_parse`, stopped if it has not come to an end after `limit` rounds
        of its loop. In every run that ends and whose INIT pass succeeds, each
        group has followed the protocol to its end; ERROR has gone to all groups
        or to none, and never where SUCCESS went; result zero means SUCCESS for
        all; and the code for an unknown key is never the result.

        The calls are INIT to all groups, those of the loop (up to `parsed`), the
        passes that end the parsing (up to `ended`), ERROR or SUCCESS (up to
        `told`), and FINI. An objection in the loop goes to ERROR and is the
        result, an option that nobody knows is EINVAL; after the last argument the
        passes decide. */
    method ArgpParse(hasEndIndex: bool, limit: nat)
      returns (done: bool, initialized: bool, err: int,
               ghost cause: Cause, ghost at: State, ghost stop: State, ghost code: int,
               ghost parsed: seq<Call>, ghost ended: seq<Call>, ghost told: seq<Call>)
      requires Valid() && All({Fresh})
      modifies this
      ensures Valid()
      ensures done ==> err != EBADKEY
      ensures done && initialized ==> All(FINISHED)
      ensures done && initialized ==> forall g :: 0 <= g < |phases| ==> Written(KeysOf(trace, g), phases[g])
      ensures done && initialized ==> All({Finished(Outcome.Failed)}) || All(FINISHED - {Finished(Outcome.Failed)})
      ensures done && err == OK ==> All({Finished(Successful)})
      ensures !initialized ==> done && err != OK && All({Fresh, Parsing})
      ensures !initialized ==> Pass(old(trace), trace, answers, Up(Init, |hasParser|), err)
      ensures initialized ==> old(trace) + Up(Init, |hasParser|) <= parsed <= trace
      ensures initialized ==> Running(parsed, answers[..|parsed|], |old(trace)| + |Up(Init, |hasParser|)|)
      ensures !done ==> All({Parsing}) && parsed == trace
      ensures done && initialized ==>
        && parsed <= ended <= told <= trace && trace == told + Down(Fini, |hasParser|, 0)
        && Stopped(cause, |hasParser|, |old(trace)| + |Up(Init, |hasParser|)|, parsed, answers[..|parsed|], stop)
      ensures done && initialized && cause.NoSuchOption? ==>
        getopt(parsed, at).Unknown? || (getopt(parsed, at).Selected? && getopt(parsed, at).group.None?)
      ensures done && initialized && cause.Objection? ==>
        told == parsed + Up(Error, |hasParser|) && err == answers[|parsed| - 1]
      ensures done && initialized && (cause.OptionRefused? || cause.NoSuchOption?) ==>
        told == parsed + Up(Error, |hasParser|) && err == EINVAL
      ensures done && initialized && cause.Arguments? ==>
        Closing(parsed, ended, told, stop, hasEndIndex, code, err)
    {
      hide PhaseOf, Honest, Written, KeysOf, Running, Round, Offers, Stopped, Pass, Refusals, HandedOn;
      done, initialized := true, true;
      cause, at, stop, code := Objection, state, state, OK;
      parsed, ended, told := [], [], [];
      err := InitPass();
      if err != OK { initialized := false; return; }
      assert trace == old(trace) + Up(Init, |hasParser|) by { PassWhole(old(trace), trace, answers, Up(Init, |hasParser|)); }
      ghost var from := |trace|;
      BegunRuns(trace, answers);
      var argEbadkey, rounds := false, 0;
      while err == OK && rounds < limit
        invariant Valid() && All({Parsing}) && from <= |trace| && old(trace) + Up(Init, |hasParser|) <= trace
        invariant Running(trace, answers, from) && (err == OK && |trace| > from ==> answers[|trace| - 1] == OK)
        invariant err != OK ==> Stopped(cause, |hasParser|, from, trace, answers, state) && (cause.Objection? <==> err != EBADKEY)
        invariant err != OK ==> (cause.Objection? ==> |trace| > 0 && err == answers[|trace| - 1])
        invariant err == EBADKEY ==> (argEbadkey <==> cause.Arguments?)
        invariant err != OK && cause.NoSuchOption? ==>
          getopt(trace, at).Unknown? || (getopt(trace, at).Selected? && getopt(trace, at).group.None?)
      {
        ghost var t, a, answer := trace, answers, Unknown(0);
        at := Seen();
        err, argEbadkey, answer := ParseNext(argEbadkey);
        RunningMore(t, a, trace, answers, err, from);
        if err != OK { cause := RoundStops(from, t, a, answer, err); }
        rounds := rounds + 1;
      }
      parsed, stop := trace, state;
      ghost var was := answers;
      assert was[..|parsed|] == was;
      if err == OK { done := false; return; }
      err, code, ended, told := Finalize(err, argEbadkey, hasEndIndex);
      assert answers[..|parsed|] == was;
      assert cause.Objection? ==> answers[|parsed| - 1] == was[|parsed| - 1];
      forall g | 0 <= g < |phases| ensures Written(KeysOf(trace, g), phases[g]) { PhaseMeans(trace, g); }
    }
  }
}
