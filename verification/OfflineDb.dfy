/** The offline SQLite adapter (db/offline_db.py): the translation of `$n` placeholders and
    the offline pool singleton, which is set up without a lock. */
module OfflineDb {
  import opened Text

  // ------------------------------------------------------------------
  // _translate_query
  // ------------------------------------------------------------------

  /** A query text as the pattern `\$(\d+)` cuts it up. */
  datatype Token = Literal(c: char) | Param(digits: string)

  function DigitRun(s: string): (run: string)
    ensures |run| <= |s| && AllDigits(run)
  {
    if s != "" && IsDigit(s[0]) then [s[0]] + DigitRun(s[1..]) else ""
  }

  function Tokens(query: string): seq<Token>
    decreases |query|
  {
    if query == "" then []
    else if query[0] == '$' && DigitRun(query[1..]) != "" then
      var digits := DigitRun(query[1..]);
      [Param(digits)] + Tokens(query[1 + |digits|..])
    else [Literal(query[0])] + Tokens(query[1..])
  }

  function Replaced(tokens: seq<Token>): string {
    if tokens == [] then ""
    else (match tokens[0] case Literal(c) => [c] case Param(_) => "?") + Replaced(tokens[1..])
  }

  /** _translate_query */
  function Translate(query: string): string {
    Replaced(Tokens(query))
  }

  /** The numbers of the placeholders, in the order they stand in the text. */
  function Numbers(tokens: seq<Token>): seq<nat> {
    if tokens == [] then []
    else
      (if tokens[0].Param? && AllDigits(tokens[0].digits) then [DigitsValue(tokens[0].digits)] else [])
      + Numbers(tokens[1..])
  }

  /** A statement with its values in place. */
  datatype Piece<V> = Text(c: char) | Bound(value: V)

  datatype Statement<V> = Rejected | Pieces(pieces: seq<Piece<V>>)

  function Prepend<V>(piece: Piece<V>, rest: Statement<V>): Statement<V> {
    match rest case Rejected => Rejected case Pieces(pieces) => Pieces([piece] + pieces)
  }

  /** The statement PostgreSQL runs: `$n` is the n-th argument. */
  function PgStatement<V>(tokens: seq<Token>, args: seq<V>): Statement<V> {
    if tokens == [] then Pieces([])
    else
      match tokens[0]
      case Literal(c) => Prepend(Piece.Text(c), PgStatement(tokens[1..], args))
      case Param(digits) =>
        if !AllDigits(digits) || DigitsValue(digits) == 0 || DigitsValue(digits) > |args| then Rejected
        else Prepend(Bound(args[DigitsValue(digits) - 1]), PgStatement(tokens[1..], args))
  }

  /** The statement SQLite runs: the question marks take the arguments in turn, and there
      must be as many of one as of the other. */
  function SqliteStatement<V>(text: string, args: seq<V>): Statement<V> {
    if text == "" then (if args == [] then Pieces([]) else Rejected)
    else if text[0] == '?' then
      if args == [] then Rejected else Prepend(Bound(args[0]), SqliteStatement(text[1..], args[1..]))
    else Prepend(Piece.Text(text[0]), SqliteStatement(text[1..], args))
  }

  predicate NoQuestionMark(tokens: seq<Token>) {
    forall i :: 0 <= i < |tokens| && tokens[i].Literal? ==> tokens[i].c != '?'
  }

  predicate ParamsHaveDigits(tokens: seq<Token>) {
    forall i :: 0 <= i < |tokens| && tokens[i].Param? ==> AllDigits(tokens[i].digits)
  }

  lemma {:induction false} TokensHaveDigits(query: string)
    ensures ParamsHaveDigits(Tokens(query))
    decreases |query|
  {
    if query != "" {
      if query[0] == '$' && DigitRun(query[1..]) != "" {
        TokensHaveDigits(query[1 + |DigitRun(query[1..])|..]);
      } else {
        TokensHaveDigits(query[1..]);
      }
    }
  }

  /** The statement whose i-th hole is filled with the i-th value. */
  function Filled<V>(tokens: seq<Token>, values: seq<V>): Statement<V>
    decreases |tokens|
  {
    if tokens == [] then (if values == [] then Pieces([]) else Rejected)
    else
      match tokens[0]
      case Literal(c) => Prepend(Piece.Text(c), Filled(tokens[1..], values))
      case Param(_) => if values == [] then Rejected else Prepend(Bound(values[0]), Filled(tokens[1..], values[1..]))
  }

  lemma {:induction false} SqliteFills<V>(tokens: seq<Token>, args: seq<V>)
    requires NoQuestionMark(tokens)
    ensures SqliteStatement(Replaced(tokens), args) == Filled(tokens, args)
    decreases |tokens|
  {
    if tokens != [] {
      var text := Replaced(tokens);
      assert text[1..] == Replaced(tokens[1..]);
      assert NoQuestionMark(tokens[1..]);
      if tokens[0].Literal? {
        SqliteFills(tokens[1..], args);
      } else if args != [] {
        SqliteFills(tokens[1..], args[1..]);
      }
    }
  }

  predicate InRange(numbers: seq<nat>, count: nat) {
    forall i :: 0 <= i < |numbers| ==> 1 <= numbers[i] <= count
  }

  function Chosen<V>(numbers: seq<nat>, args: seq<V>): seq<V>
    requires InRange(numbers, |args|)
  {
    seq(|numbers|, i requires 0 <= i < |numbers| => args[numbers[i] - 1])
  }

  lemma {:induction false} PgFills<V>(tokens: seq<Token>, args: seq<V>)
    requires ParamsHaveDigits(tokens)
    ensures PgStatement(tokens, args) ==
            if InRange(Numbers(tokens), |args|) then Filled(tokens, Chosen(Numbers(tokens), args)) else Rejected
    decreases |tokens|
  {
    if tokens != [] {
      assert ParamsHaveDigits(tokens[1..]);
      PgFills(tokens[1..], args);
      var numbers, rest := Numbers(tokens), Numbers(tokens[1..]);
      if tokens[0].Param? {
        assert numbers == [DigitsValue(tokens[0].digits)] + rest;
        assert InRange(numbers, |args|) <==> 1 <= numbers[0] <= |args| && InRange(rest, |args|) by {
          if InRange(numbers, |args|) {
            assert forall i :: 0 <= i < |rest| ==> rest[i] == numbers[i + 1];
          }
        }
        if InRange(numbers, |args|) {
          assert Chosen(numbers, args)[1..] == Chosen(rest, args);
        }
      } else {
        assert numbers == rest;
      }
    }
  }

  /** Filling with as many values as holes works, and tells any two lists of values apart. */
  lemma {:induction false} FilledInjective<V>(tokens: seq<Token>, xs: seq<V>, ys: seq<V>)
    requires ParamsHaveDigits(tokens) && |xs| == |Numbers(tokens)| && |ys| == |Numbers(tokens)|
    ensures Filled(tokens, xs).Pieces? && Filled(tokens, ys).Pieces?
    ensures Filled(tokens, xs) == Filled(tokens, ys) ==> xs == ys
    decreases |tokens|
  {
    if tokens != [] {
      assert ParamsHaveDigits(tokens[1..]);
      if tokens[0].Param? {
        FilledInjective(tokens[1..], xs[1..], ys[1..]);
        if Filled(tokens, xs) == Filled(tokens, ys) {
          assert Filled(tokens, xs).pieces[1..] == Filled(tokens[1..], xs[1..]).pieces;
          assert Filled(tokens, ys).pieces[1..] == Filled(tokens[1..], ys[1..]).pieces;
          assert Filled(tokens, xs).pieces[0] == Filled(tokens, ys).pieces[0];
          assert xs == [xs[0]] + xs[1..] && ys == [ys[0]] + ys[1..];
        }
      } else {
        FilledInjective(tokens[1..], xs, ys);
        if Filled(tokens, xs) == Filled(tokens, ys) {
          assert Filled(tokens, xs).pieces[1..] == Filled(tokens[1..], xs).pieces;
          assert Filled(tokens, ys).pieces[1..] == Filled(tokens[1..], ys).pieces;
        }
      }
    }
  }

  predicate NumberedInOrder(numbers: seq<nat>) {
    forall i :: 0 <= i < |numbers| ==> numbers[i] == i + 1
  }

  /** For a query without a question mark of its own and with k placeholders, translation
      keeps the bound statement for all argument lists of length k exactly when the i-th
      placeholder of the text is `$i`. */
  lemma TranslationPreservesBindings(query: string)
    requires NoQuestionMark(Tokens(query))
    ensures (forall args: seq<int> :: |args| == |Numbers(Tokens(query))| ==>
               SqliteStatement(Translate(query), args) == PgStatement(Tokens(query), args))
       <==> NumberedInOrder(Numbers(Tokens(query)))
  {
    var tokens := Tokens(query);
    TokensHaveDigits(query);
    if NumberedInOrder(Numbers(tokens)) {
      forall args: seq<int> | |args| == |Numbers(tokens)|
        ensures SqliteStatement(Translate(query), args) == PgStatement(tokens, args)
      {
        InOrderBindsAlike(tokens, args);
      }
    } else {
      var args := OutOfOrderDiffers(tokens);
    }
  }

  lemma InOrderBindsAlike<V>(tokens: seq<Token>, args: seq<V>)
    requires ParamsHaveDigits(tokens) && NoQuestionMark(tokens)
    requires NumberedInOrder(Numbers(tokens)) && |args| == |Numbers(tokens)|
    ensures SqliteStatement(Replaced(tokens), args) == PgStatement(tokens, args)
  {
    SqliteFills(tokens, args);
    PgFills(tokens, args);
    assert Chosen(Numbers(tokens), args) == args;
  }

  lemma OutOfOrderDiffers(tokens: seq<Token>) returns (args: seq<int>)
    requires ParamsHaveDigits(tokens) && NoQuestionMark(tokens) && !NumberedInOrder(Numbers(tokens))
    ensures |args| == |Numbers(tokens)| && SqliteStatement(Replaced(tokens), args) != PgStatement(tokens, args)
  {
    var numbers := Numbers(tokens);
    var i :| 0 <= i < |numbers| && numbers[i] != i + 1;
    args := seq(|numbers|, j => if j == i then 1 else 0);
    SqliteFills(tokens, args);
    PgFills(tokens, args);
    FilledInjective(tokens, args, args);
    if InRange(numbers, |numbers|) {
      FilledInjective(tokens, args, Chosen(numbers, args));
      assert Chosen(numbers, args)[i] == 0 && args[i] == 1;
    }
  }

  // ------------------------------------------------------------------
  // The offline pool singleton
  // ------------------------------------------------------------------

  type TaskId = nat
  type Instance = nat

  /** A coroutine in get_pool on its offline branch. `ready` records whether the schema had
      been loaded when the call returned. */
  datatype Task =
    | Start
    | Initializing(instance: Instance)
    | Returned(instance: Instance, ready: bool)
    | Failed

  /** `pool` is db.connection._pool and `offline` is db.offline_db._offline_pool. */
  datatype State = State(
    pool: Option<Instance>, offline: Option<Instance>, loaded: set<Instance>, tasks: map<TaskId, Task>, created: nat)

  const INITIAL := State(None, None, {}, map[], 0)

  datatype Step =
    | Spawn(t: TaskId)
    | Enter(t: TaskId)     // up to awaiting init(), or all the way when nothing is awaited
    | Loaded(t: TaskId)    // init() returns
    | LoadFails(t: TaskId) // init() raises
    | Close                // close_pool: the offline close() awaits nothing

  function Next(s: State, step: Step): Option<State> {
    match step
    case Spawn(t) => if t in s.tasks then None else Some(s.(tasks := s.tasks[t := Start]))
    case Enter(t) =>
      if t !in s.tasks || s.tasks[t] != Start then None
      else if s.pool.Some? then
        Some(s.(tasks := s.tasks[t := Returned(s.pool.value, s.pool.value in s.loaded)]))
      else if s.offline.Some? then
        Some(s.(pool := s.offline, tasks := s.tasks[t := Returned(s.offline.value, s.offline.value in s.loaded)]))
      else
        Some(s.(offline := Some(s.created), created := s.created + 1, tasks := s.tasks[t := Initializing(s.created)]))
    case Loaded(t) =>
      if t !in s.tasks || !s.tasks[t].Initializing? || s.offline.None? then None
      else
        var loaded := s.loaded + {s.tasks[t].instance};
        Some(s.(pool := s.offline, loaded := loaded,
                tasks := s.tasks[t := Returned(s.offline.value, s.offline.value in loaded)]))
    case LoadFails(t) =>
      if t !in s.tasks || !s.tasks[t].Initializing? then None else Some(s.(tasks := s.tasks[t := Failed]))
    case Close => Some(s.(pool := None))
  }

  function Run(steps: seq<Step>): Option<State> {
    if steps == [] then Some(INITIAL)
    else
      match Run(steps[..|steps| - 1])
      case None => None
      case Some(s) => Next(s, steps[|steps| - 1])
  }

  predicate HasLoaded(steps: seq<Step>) {
    exists i :: 0 <= i < |steps| && steps[i].Loaded?
  }

  ghost predicate OneInstance(s: State) {
    && s.created <= 1
    && (s.offline == if s.created == 1 then Some(0) else None)
    && (s.pool.Some? ==> s.pool == s.offline)
    && (forall t :: t in s.tasks && (s.tasks[t].Initializing? || s.tasks[t].Returned?) ==>
          s.offline == Some(s.tasks[t].instance))
    && s.loaded <= {0}
  }

  lemma {:induction false} OneInstanceHolds(steps: seq<Step>)
    requires Run(steps).Some?
    ensures OneInstance(Run(steps).value)
    ensures 0 in Run(steps).value.loaded <==> HasLoaded(steps)
  {
    if steps != [] {
      var n := |steps| - 1;
      OneInstanceHolds(steps[..n]);
      if HasLoaded(steps[..n]) {
        var i :| 0 <= i < n && steps[..n][i].Loaded?;
        assert steps[i].Loaded?;
      }
      if HasLoaded(steps) && !steps[n].Loaded? {
        var i :| 0 <= i < |steps| && steps[i].Loaded?;
        assert steps[..n][i].Loaded?;
      }
    }
  }

  /** In every interleaving, closes and failed loads included, one instance is ever made and
      every call that returns gets it. */
  lemma EveryoneGetsTheInstance(steps: seq<Step>, t: TaskId)
    requires Run(steps).Some?
    ensures Run(steps).value.created <= 1
    ensures t in Run(steps).value.tasks && Run(steps).value.tasks[t].Returned? ==>
              Run(steps).value.offline == Some(Run(steps).value.tasks[t].instance)
  {
    OneInstanceHolds(steps);
  }

  /** A call that finds the instance already there returns without waiting for its schema:
      what it returns is initialized exactly when some call had finished loading before. */
  lemma ReadyOnlyAfterLoad(steps: seq<Step>, t: TaskId)
    requires Run(steps + [Enter(t)]).Some? && Run(steps + [Enter(t)]).value.tasks[t].Returned?
    ensures Run(steps + [Enter(t)]).value.tasks[t].ready <==> HasLoaded(steps)
  {
    assert (steps + [Enter(t)])[..|steps|] == steps;
    OneInstanceHolds(steps);
  }

  lemma ExtendRun(steps: seq<Step>, step: Step)
    ensures Run(steps + [step]) == match Run(steps) case None => None case Some(s) => Next(s, step)
  {
    assert (steps + [step])[..|steps|] == steps;
  }

  /** Two calls at once: the second returns a pool whose schema is not loaded. */
  lemma SecondCallerMayGetUnloaded(steps: seq<Step>, first: TaskId, second: TaskId)
    requires Run(steps) == Some(INITIAL) && first != second
    ensures var run := steps + [Spawn(first)] + [Spawn(second)] + [Enter(first)] + [Enter(second)];
            Run(run).Some? && Run(run).value.tasks[second] == Returned(0, false)
  {
    ExtendRun(steps, Spawn(first));
    ExtendRun(steps + [Spawn(first)], Spawn(second));
    ExtendRun(steps + [Spawn(first)] + [Spawn(second)], Enter(first));
    ExtendRun(steps + [Spawn(first)] + [Spawn(second)] + [Enter(first)], Enter(second));
  }
}
