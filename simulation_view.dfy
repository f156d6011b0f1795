/**
 * The parsing-steps view of the frontend, and the record each step of the
 * backend's stack machine becomes: the stack, the remaining input, the
 * action name and the action's value as text.
 */
module SimulationView {
  import opened Wrappers
  import opened Text
  import opened ParseMachine

  /** A recorded step as the frontend receives it. */
  datatype StepRecord = StepRecord(stack: seq<(int, string)>, input: seq<string>, action: string, value: string)

  /** The text blocks shown for one step. */
  datatype StepBlock = StepBlock(stackText: string, inputText: string, actionText: string)

  function ActionName(a: Action): string {
    match a
    case Shift(_) => "shift"
    case Reduce(_, _) => "reduce"
    case Accept => "accept"
  }

  /** Python's `str` of an action's value: the target state, the tuple
      (lhs, body) written with single quotes, or 0 for accept. */
  function ValueText(a: Action): string {
    match a
    case Shift(target) => IntToString(target)
    case Reduce(lhs, body) => "('" + lhs + "', '" + body + "')"
    case Accept => "0"
  }

  /** The record the backend keeps for a step, taken before the step acts. */
  function Record(step: ParsingStep): StepRecord {
    StepRecord(step.stack, step.input, ActionName(step.action), ValueText(step.action))
  }

  /** One stack pair: the state, the symbol, one space. */
  function PairText(p: (int, string)): string {
    IntToString(p.0) + p.1 + " "
  }

  /** The stack from bottom to top. */
  function StackText(stack: seq<(int, string)>): string {
    if stack == [] then "" else PairText(stack[0]) + StackText(stack[1..])
  }

  function InputText(input: seq<string>): string {
    Join(input, " ")
  }

  function ActionText(r: StepRecord): string {
    r.action + " " + r.value
  }

  function Block(r: StepRecord): StepBlock {
    StepBlock(StackText(r.stack), InputText(r.input), ActionText(r))
  }

  /** One block per step, in the order of the steps. */
  function StepsView(records: seq<StepRecord>): (r: seq<StepBlock>)
    ensures |r| == |records|
    ensures forall i :: 0 <= i < |r| ==> r[i] == Block(records[i])
  {
    if records == [] then [] else [Block(records[0])] + StepsView(records[1..])
  }

  /** The action names tell the three kinds of action apart, and the value
      of a shift reads back as its target state. */
  lemma RecordKeepsAction(a: Action, b: Action)
    ensures ActionName(a) == ActionName(b) <==>
      (a.Shift? && b.Shift?) || (a.Reduce? && b.Reduce?) || (a.Accept? && b.Accept?)
    ensures a.Shift? ==> ParseInt(ValueText(a)) == Some(a.target)
  {
    if a.Shift? {
      ParseIntOfString(a.target);
    }
  }

  lemma PairTextNoSpace(p: (int, string))
    requires ' ' !in p.1
    ensures PairText(p) == (IntToString(p.0) + p.1) + [' '] && ' ' !in IntToString(p.0) + p.1
  {
    var digits := NatToString(if p.0 < 0 then -p.0 else p.0);
    assert forall k :: 0 <= k < |digits| ==> digits[k] != ' ';
    if p.0 < 0 {
      assert IntToString(p.0) == "-" + digits;
    }
  }

  /** Splitting the stack text on spaces gives back, for each pair from
      bottom to top, its state followed by its symbol, and then the empty
      piece after the last space. */
  lemma {:induction false} StackTextPieces(stack: seq<(int, string)>)
    requires forall k :: 0 <= k < |stack| ==> ' ' !in stack[k].1
    ensures |SplitOn(StackText(stack), ' ')| == |stack| + 1
    ensures forall k :: 0 <= k < |stack| ==>
      SplitOn(StackText(stack), ' ')[k] == IntToString(stack[k].0) + stack[k].1
    ensures SplitOn(StackText(stack), ' ')[|stack|] == ""
  {
    if stack != [] {
      StackTextPieces(stack[1..]);
      var head := IntToString(stack[0].0) + stack[0].1;
      PairTextNoSpace(stack[0]);
      SplitOnAppend(head, StackText(stack[1..]), ' ');
      assert StackText(stack) == head + [' '] + StackText(stack[1..]);
    }
  }

  /** The input text splits back into the remaining symbols when none of
      them holds a space. */
  lemma InputTextPieces(input: seq<string>)
    requires |input| >= 1
    requires forall k :: 0 <= k < |input| ==> ' ' !in input[k]
    ensures SplitOn(InputText(input), ' ') == input
  {
    SplitOnJoin(input, ' ');
  }

  /** The stack [(0, "$"), (4, "a")] is shown as "0$ 4a ". */
  lemma StackTextExample()
    ensures StackText([(0, "$"), (4, "a")]) == "0$ 4a "
  {
    assert IntToString(4) == "4" && IntToString(0) == "0";
    assert StackText([(4, "a")]) == "4a ";
  }

  /** The input ["a", "b", "$"] is shown as "a b $". */
  lemma InputTextExample()
    ensures InputText(["a", "b", "$"]) == "a b $"
  {
    assert Join(["b", "$"], " ") == "b $";
  }

  /** A reduce by E → E + T is shown as "reduce ('E', 'E + T')". */
  lemma ReduceTextExample()
    ensures ActionText(Record(ParsingStep([(0, "$")], ["$"], Reduce("E", "E + T")))) == "reduce ('E', 'E + T')"
  {
  }
}
