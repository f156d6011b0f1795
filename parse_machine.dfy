/**
 * The shift/reduce stack machine of the LR(1) driver.  A configuration is
 * the stack of (state, symbol) pairs and the symbols not yet consumed;
 * `Next` is one round of the driver loop (record the step, then act) and
 * `Run` repeats it, with a fuel bound standing for the driver's unbounded
 * loop.  Failures are the exceptions the driver raises.
 */
module ParseMachine {
  import opened Wrappers
  import opened Text

  /** A table entry: shift to a state, reduce by a production (left-hand
      side and body text), or accept. */
  datatype Action = Shift(target: int) | Reduce(lhs: string, body: string) | Accept

  /** ACTION entries keyed by (state, terminal). */
  type ActionTable = map<(int, string), Action>
  /** GOTO entries keyed by (state, non-terminal). */
  type GotoTable = map<(int, string), int>

  /** One recorded step: the stack and the remaining symbols before the
      action, and the action taken. */
  datatype ParsingStep = ParsingStep(stack: seq<(int, string)>, input: seq<string>, action: Action)

  datatype Config = Config(stack: seq<(int, string)>, input: seq<string>)

  /** Why a run stops without accepting. */
  datatype ParseError =
    | StackUnderflow                          // `stack[-1]` or `pop()` on an empty stack
    | InputExhausted                          // `symbols[cursor]` past the end
    | NoAction(state: int, symbol: string)    // no ACTION entry: "Parsing error at symbol ..."
    | MissingGoto(state: int, lhs: string)    // no GOTO entry after a reduce
    | OutOfFuel                               // the bound on the number of rounds ran out

  datatype Outcome =
    | Fail(error: ParseError)
    | Accepted(step: ParsingStep)
    | Moved(step: ParsingStep, next: Config)

  /** The configuration the driver starts from on the tokens of an input. */
  function Initial(tokens: seq<string>): Config {
    Config([(0, "$")], tokens + ["$"])
  }

  function ConfigOf(step: ParsingStep): Config {
    Config(step.stack, step.input)
  }

  /** One round of the driver loop. */
  function Next(table: ActionTable, gotos: GotoTable, c: Config): Outcome {
    if c.stack == [] then Fail(StackUnderflow)
    else if c.input == [] then Fail(InputExhausted)
    else
      var state := c.stack[|c.stack| - 1].0;
      var symbol := c.input[0];
      if (state, symbol) !in table then Fail(NoAction(state, symbol))
      else
        var action := table[(state, symbol)];
        var step := ParsingStep(c.stack, c.input, action);
        match action
        case Shift(target) => Moved(step, Config(c.stack + [(target, symbol)], c.input[1..]))
        case Accept => Accepted(step)
        case Reduce(lhs, body) =>
          var n := |SplitWs(body)|;
          if n >= |c.stack| then Fail(StackUnderflow)
          else
            var rest := c.stack[..|c.stack| - n];
            var prev := rest[|rest| - 1].0;
            if (prev, lhs) !in gotos then Fail(MissingGoto(prev, lhs))
            else Moved(step, Config(rest + [(gotos[(prev, lhs)], lhs)], c.input))
  }

  /** The steps recorded up to and including acceptance, or why the run
      stopped; at most `fuel` rounds are made. */
  function Run(table: ActionTable, gotos: GotoTable, c: Config, fuel: nat): Result<seq<ParsingStep>, ParseError>
    decreases fuel
  {
    if fuel == 0 then Err(OutOfFuel)
    else
      match Next(table, gotos, c)
      case Fail(e) => Err(e)
      case Accepted(step) => Ok([step])
      case Moved(step, next) => Prepend(step, Run(table, gotos, next, fuel - 1))
  }

  function Prepend(step: ParsingStep, r: Result<seq<ParsingStep>, ParseError>): Result<seq<ParsingStep>, ParseError> {
    match r
    case Ok(steps) => Ok([step] + steps)
    case Err(e) => Err(e)
  }

  function PrependAll(steps: seq<ParsingStep>, r: Result<seq<ParsingStep>, ParseError>): Result<seq<ParsingStep>, ParseError> {
    match r
    case Ok(rest) => Ok(steps + rest)
    case Err(e) => Err(e)
  }

  lemma PrependAllEmpty(r: Result<seq<ParsingStep>, ParseError>)
    ensures PrependAll([], r) == r
  {
    if r.Ok? {
      assert [] + r.value == r.value;
    }
  }

  lemma PrependAllSnoc(steps: seq<ParsingStep>, step: ParsingStep, r: Result<seq<ParsingStep>, ParseError>)
    ensures PrependAll(steps, Prepend(step, r)) == PrependAll(steps + [step], r)
  {
    if r.Ok? {
      assert steps + ([step] + r.value) == (steps + [step]) + r.value;
    }
  }

  /** The driver loop: a stack of (state, symbol) pairs and a cursor into
      the symbols; every round records the stack and the remaining
      symbols, then shifts, reduces or accepts. */
  method Drive(table: ActionTable, gotos: GotoTable, symbols: seq<string>, fuel: nat)
    returns (result: Result<seq<ParsingStep>, ParseError>)
    ensures result == Run(table, gotos, Config([(0, "$")], symbols), fuel)
  {
    ghost var goal := Run(table, gotos, Config([(0, "$")], symbols), fuel);
    var steps: seq<ParsingStep> := [];
    var stack: seq<(int, string)> := [(0, "$")];
    var cursor := 0;
    var left := fuel;
    assert symbols[cursor..] == symbols;
    PrependAllEmpty(goal);
    while true
      invariant 0 <= cursor <= |symbols|
      invariant goal == PrependAll(steps, Run(table, gotos, Config(stack, symbols[cursor..]), left))
      decreases left
    {
      ghost var c := Config(stack, symbols[cursor..]);
      if left == 0 {
        return Err(OutOfFuel);
      }
      if stack == [] {
        return Err(StackUnderflow);
      }
      var state := stack[|stack| - 1].0;
      if cursor >= |symbols| {
        return Err(InputExhausted);
      }
      var symbol := symbols[cursor];
      if (state, symbol) !in table {
        return Err(NoAction(state, symbol));
      }
      var action := table[(state, symbol)];
      var step := ParsingStep(stack, symbols[cursor..], action);
      ghost var before := steps;
      steps := steps + [step];
      match action {
        case Shift(target) =>
          stack := stack + [(target, symbol)];
          cursor := cursor + 1;
          assert symbols[cursor..] == c.input[1..];
          assert Next(table, gotos, c) == Moved(step, Config(stack, symbols[cursor..]));
          PrependAllSnoc(before, step, Run(table, gotos, Config(stack, symbols[cursor..]), left - 1));
        case Reduce(lhs, body) =>
          var n := |SplitWs(body)|;
          var popped := 0;
          while popped < n
            invariant popped <= n && popped <= |c.stack|
            invariant stack == c.stack[..|c.stack| - popped]
          {
            if stack == [] {
              return Err(StackUnderflow);
            }
            stack := stack[..|stack| - 1];
            popped := popped + 1;
          }
          if stack == [] {
            return Err(StackUnderflow);
          }
          var prev := stack[|stack| - 1].0;
          if (prev, lhs) !in gotos {
            return Err(MissingGoto(prev, lhs));
          }
          stack := stack + [(gotos[(prev, lhs)], lhs)];
          assert Next(table, gotos, c) == Moved(step, Config(stack, symbols[cursor..]));
          PrependAllSnoc(before, step, Run(table, gotos, Config(stack, symbols[cursor..]), left - 1));
        case Accept =>
          return Ok(steps);
      }
      left := left - 1;
    }
  }

  // ---------------------------------------------------------------------
  // Properties of the machine

  /** A shift pushes the target state with the current symbol and consumes
      that symbol; a reduce by A -> body pops one pair per body symbol,
      pushes GOTO of the uncovered state on A, and consumes nothing. */
  lemma MoveEffect(table: ActionTable, gotos: GotoTable, c: Config, step: ParsingStep, next: Config)
    requires Next(table, gotos, c) == Moved(step, next)
    ensures step.stack == c.stack && step.input == c.input && c.stack != [] && c.input != []
    ensures (c.stack[|c.stack| - 1].0, c.input[0]) in table && step.action == table[(c.stack[|c.stack| - 1].0, c.input[0])]
    ensures step.action.Shift? ==>
      next.stack == c.stack + [(step.action.target, c.input[0])] && next.input == c.input[1..]
    ensures step.action.Reduce? ==>
      var n := |SplitWs(step.action.body)|;
      n < |c.stack|
      && next.input == c.input
      && |next.stack| == |c.stack| - n + 1
      && next.stack[..|next.stack| - 1] == c.stack[..|c.stack| - n]
      && (c.stack[|c.stack| - n - 1].0, step.action.lhs) in gotos
      && next.stack[|next.stack| - 1] == (gotos[(c.stack[|c.stack| - n - 1].0, step.action.lhs)], step.action.lhs)
    ensures !step.action.Accept?
  {
  }

  /** A successful run records the starting configuration first, ends with
      its only accept step, and every step leads to the next by one round
      of the machine. */
  lemma {:induction false} RunTrace(table: ActionTable, gotos: GotoTable, c: Config, fuel: nat)
    requires Run(table, gotos, c, fuel).Ok?
    ensures var steps := Run(table, gotos, c, fuel).value;
      |steps| >= 1
      && ConfigOf(steps[0]) == c
      && Next(table, gotos, ConfigOf(steps[|steps| - 1])) == Accepted(steps[|steps| - 1])
      && steps[|steps| - 1].action == Accept
      && (forall k :: 0 <= k < |steps| - 1 ==>
            steps[k].action != Accept
            && Next(table, gotos, ConfigOf(steps[k])) == Moved(steps[k], ConfigOf(steps[k + 1])))
    decreases fuel
  {
    match Next(table, gotos, c)
    case Accepted(step) =>
    case Moved(step, next) =>
      RunTrace(table, gotos, next, fuel - 1);
      var rest := Run(table, gotos, next, fuel - 1).value;
      var steps := Run(table, gotos, c, fuel).value;
      assert steps == [step] + rest;
      forall k | 0 <= k < |steps| - 1
        ensures steps[k].action != Accept
        ensures Next(table, gotos, ConfigOf(steps[k])) == Moved(steps[k], ConfigOf(steps[k + 1]))
      {
        if k == 0 {
          MoveEffect(table, gotos, c, step, next);
        } else {
          assert steps[k] == rest[k - 1] && steps[k + 1] == rest[k];
        }
      }
  }

  /** Along a successful run the remaining input only shrinks from the
      front: every step sees a suffix of the symbols the run started with. */
  lemma {:induction false} RunInputSuffix(table: ActionTable, gotos: GotoTable, c: Config, fuel: nat)
    requires Run(table, gotos, c, fuel).Ok?
    ensures var steps := Run(table, gotos, c, fuel).value;
      forall k :: 0 <= k < |steps| ==>
        |steps[k].input| <= |c.input| && steps[k].input == c.input[|c.input| - |steps[k].input|..]
    decreases fuel
  {
    match Next(table, gotos, c)
    case Accepted(step) =>
    case Moved(step, next) =>
      MoveEffect(table, gotos, c, step, next);
      RunInputSuffix(table, gotos, next, fuel - 1);
      var rest := Run(table, gotos, next, fuel - 1).value;
      var steps := Run(table, gotos, c, fuel).value;
      assert steps == [step] + rest;
      forall k | 0 <= k < |steps|
        ensures |steps[k].input| <= |c.input| && steps[k].input == c.input[|c.input| - |steps[k].input|..]
      {
        if k > 0 {
          var s := steps[k].input;
          assert s == rest[k - 1].input;
          assert s == next.input[|next.input| - |s|..];
          if step.action.Shift? {
            assert next.input == c.input[1..];
          }
        }
      }
  }

  /** When the ACTION table has no entry for state 0, every run from the
      driver's starting configuration stops at once, at the first symbol. */
  lemma RunFailsWithoutStateZero(table: ActionTable, gotos: GotoTable, tokens: seq<string>, fuel: nat)
    requires forall key :: key in table ==> key.0 != 0
    requires fuel > 0
    ensures Run(table, gotos, Initial(tokens), fuel) == Err(NoAction(0, (tokens + ["$"])[0]))
  {
    var c := Initial(tokens);
    assert c.stack[|c.stack| - 1].0 == 0;
    assert (0, c.input[0]) !in table;
  }
}
