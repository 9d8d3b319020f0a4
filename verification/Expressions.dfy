// The expression language: what it accepts, and what an accepted expression says about a
// scope. An expression starts here as the tree the parser produced.
module Expressions {
  import opened Values
  import Text

  datatype BinaryOperator = Add | Sub | Mult | Div | FloorDiv | Mod | OtherBinary
  datatype UnaryOperator = Negate | Plus | Not | Invert
  datatype BooleanOperator = And | Or
  datatype Comparison = Eq | NotEq | Lt | LtE | Gt | GtE | Is | IsNot | In | NotIn

  /** The operators of a chained comparison, each with the operand to its right. */
  datatype Chain = End | Then(op: Comparison, operand: Node, rest: Chain)

  /** One node of a parsed tree. `ForeignConstant` is a literal such as bytes, `Construct`
      any node type the language has no meaning for: a call, a subscript, a lambda. */
  datatype Node =
    | Constant(value: Value)
    | ForeignConstant
    | Name(id: string)
    | Attribute(base: Node, attr: string)
    | Binary(bop: BinaryOperator, left: Node, right: Node)
    | Unary(uop: UnaryOperator, operand: Node)
    | Boolean(op: BooleanOperator, values: seq<Node>)
    | Compare(first: Node, chain: Chain)
    | Choose(test: Node, body: Node, orelse: Node)
    | Elements(elts: seq<Node>)
    | Construct

  /** Why an expression is wrong: every one of these is an `ExpressionError`. */
  datatype Fault =
    | Undefined | NotAGroup | NotANumber | ByZero | NotYesNo | NothingCanBeIn | NoOrder
    | Foreign

  /** An exception the evaluator does not mean to raise. */
  datatype Panic = MembershipInText | UnknownOperator | EscapedConstant

  /** What evaluating came to: a value, a fact nobody collected (named by the node that
      read it), an error in the expression, or an exception nothing here handles. */
  datatype Outcome<+T> = Val(value: T) | Missing(at: Node) | Wrong(fault: Fault) | Crash(panic: Panic) {

    predicate IsFailure() {
      !Val?
    }

    function PropagateFailure<U>(): Outcome<U>
      requires !Val?
    {
      match this
      case Missing(at) => Missing(at)
      case Wrong(fault) => Wrong(fault)
      case Crash(panic) => Crash(panic)
    }

    function Extract(): T
      requires Val?
    {
      value
    }
  }

  // ------------------------------------------------------------------------- checking

  datatype Verdict = Accepted | Refused(culprit: Node)

  predicate Hidden(name: string) {
    name != "" && name[0] == '_'
  }

  predicate LiteralHeld(v: Value) {
    v.Bool? || v.Num? || v.Text? || v.Nothing?
  }

  /** The allowlist, as it is walked: a node before its children, left to right. */
  function Check(e: Node): Verdict
    decreases e, 1
  {
    match e
    case Constant(v) => if LiteralHeld(v) then Accepted else Refused(e)
    case ForeignConstant => Refused(e)
    case Name(id) => if Hidden(id) then Refused(e) else Accepted
    case Attribute(base, attr) => if Hidden(attr) then Refused(e) else Check(base)
    case Binary(op, l, r) =>
      if op.OtherBinary? then Refused(e) else CheckBoth(Check(l), Check(r))
    case Unary(op, x) => if op.Invert? then Refused(e) else Check(x)
    case Boolean(_, values) => CheckAll(values)
    case Compare(first, chain) => CheckBoth(Check(first), CheckChain(chain))
    case Choose(test, body, orelse) => CheckBoth(Check(test), CheckBoth(Check(body), Check(orelse)))
    case Elements(elts) => CheckAll(elts)
    case Construct => Refused(e)
  }

  function CheckBoth(a: Verdict, b: Verdict): Verdict {
    if a.Refused? then a else b
  }

  function CheckAll(es: seq<Node>): Verdict
    decreases es, 0
  {
    if es == [] then Accepted else CheckBoth(Check(es[0]), CheckAll(es[1..]))
  }

  function CheckChain(chain: Chain): Verdict
    decreases chain, 0
  {
    match chain
    case End => Accepted
    case Then(_, operand, rest) => CheckBoth(Check(operand), CheckChain(rest))
  }

  // ----------------------------------------------------------------------------- names

  /** Every root name in the tree, whether or not evaluating would reach it. */
  function Names(e: Node): set<string>
    decreases e, 1
  {
    match e
    case Constant(_) => {}
    case ForeignConstant => {}
    case Name(id) => {id}
    case Attribute(base, _) => Names(base)
    case Binary(_, l, r) => Names(l) + Names(r)
    case Unary(_, x) => Names(x)
    case Boolean(_, values) => NamesOfAll(values)
    case Compare(first, chain) => Names(first) + NamesOfChain(chain)
    case Choose(test, body, orelse) => Names(test) + Names(body) + Names(orelse)
    case Elements(elts) => NamesOfAll(elts)
    case Construct => {}
  }

  function NamesOfAll(es: seq<Node>): set<string>
    decreases es, 0
  {
    if es == [] then {} else Names(es[0]) + NamesOfAll(es[1..])
  }

  function NamesOfChain(chain: Chain): set<string>
    decreases chain, 0
  {
    match chain
    case End => {}
    case Then(_, operand, rest) => Names(operand) + NamesOfChain(rest)
  }

  // ------------------------------------------------------------------------ evaluating

  function Evaluate(e: Node, s: Scope): Outcome<Value>
    decreases e, 1
  {
    match e
    case Constant(v) => Val(v)
    case ForeignConstant => Crash(EscapedConstant)
    case Name(id) => Resolve(s, id, e)
    case Attribute(base, attr) =>
      var container :- Evaluate(base, s);
      if container.Group? then Resolve(container.members, attr, e) else Wrong(NotAGroup)
    case Binary(op, l, r) =>
      var lv :- Evaluate(l, s);
      var x :- AsNumber(lv);
      var rv :- Evaluate(r, s);
      var y :- AsNumber(rv);
      var n :- Arithmetic(op, x, y);
      Val(Num(n))
    case Unary(op, x) =>
      var v :- Evaluate(x, s);
      ApplyUnary(op, v)
    case Boolean(op, values) => Connected(op, values, s)
    case Compare(first, chain) =>
      var v :- Evaluate(first, s);
      Chained(v, chain, s)
    case Choose(test, body, orelse) =>
      var v :- Evaluate(test, s);
      var yes :- Truth(v);
      if yes then Evaluate(body, s) else Evaluate(orelse, s)
    case Elements(elts) =>
      var vs :- EvaluateAll(elts, s);
      Val(Tuple(vs))
    case Construct => Wrong(Foreign)
  }

  function EvaluateAll(es: seq<Node>, s: Scope): Outcome<seq<Value>>
    decreases es, 0
  {
    if es == [] then Val([]) else
      var v :- Evaluate(es[0], s);
      var vs :- EvaluateAll(es[1..], s);
      Val([v] + vs)
  }

  /** `and` and `or`: the first operand that decides the answer decides it. */
  function Connected(op: BooleanOperator, values: seq<Node>, s: Scope): Outcome<Value>
    decreases values, 0
  {
    if values == [] then Val(Bool(op.And?)) else
      var v :- Evaluate(values[0], s);
      var yes :- Truth(v);
      if yes != op.And? then Val(Bool(!op.And?)) else Connected(op, values[1..], s)
  }

  /** A chain of comparisons, each against the operand before it. */
  function Chained(left: Value, chain: Chain, s: Scope): Outcome<Value>
    decreases chain, 0
  {
    match chain
    case End => Val(Bool(true))
    case Then(op, operand, rest) =>
      var right :- Evaluate(operand, s);
      var holds :- Compared(op, left, right);
      if holds then Chained(right, rest, s) else Val(Bool(false))
  }

  function Resolve(s: Scope, name: string, at: Node): Outcome<Value> {
    if name !in s then Wrong(Undefined)
    else if s[name].Unreported? then Missing(at)
    else Val(s[name])
  }

  function AsNumber(v: Value): Outcome<Number> {
    if v.Num? then Val(v.n) else Wrong(NotANumber)
  }

  function Truth(v: Value): Outcome<bool> {
    if v.Bool? then Val(v.b) else Wrong(NotYesNo)
  }

  function ApplyUnary(op: UnaryOperator, v: Value): Outcome<Value> {
    if op.Not? then
      var yes :- Truth(v);
      Val(Bool(!yes))
    else
      var n :- AsNumber(v);
      Val(Num(if op.Negate? then Minus(n) else n))
  }

  function Minus(n: Number): Number {
    match n
    case Whole(i) => Whole(-i)
    case Frac(r) => Frac(-r)
  }

  /** Python's `//` rounds toward minus infinity whatever the signs. */
  function FloorQuotient(x: real, y: real): int
    requires y != 0.0
  {
    (x / y).Floor
  }

  function Arithmetic(op: BinaryOperator, x: Number, y: Number): Outcome<Number> {
    if op.OtherBinary? then Crash(UnknownOperator)
    else if (op.Div? || op.FloorDiv? || op.Mod?) && y.Real() == 0.0 then Wrong(ByZero)
    else if op.Div? then Val(Frac(x.Real() / y.Real()))
    else if x.Whole? && y.Whole? then
      Val(Whole(if op.Add? then x.i + y.i
                else if op.Sub? then x.i - y.i
                else if op.Mult? then x.i * y.i
                else
                  var q := FloorQuotient(x.Real(), y.Real());
                  if op.FloorDiv? then q else x.i - y.i * q))
    else
      Val(Frac(if op.Add? then x.Real() + y.Real()
               else if op.Sub? then x.Real() - y.Real()
               else if op.Mult? then x.Real() * y.Real()
               else
                 var q := FloorQuotient(x.Real(), y.Real()) as real;
                 if op.FloorDiv? then q else x.Real() - y.Real() * q))
  }

  function Compared(op: Comparison, left: Value, right: Value): Outcome<bool> {
    match op
    case Is => Val(left == right)
    case IsNot => Val(left != right)
    case In => Contained(left, right)
    case NotIn =>
      var inside :- Contained(left, right);
      Val(!inside)
    case Eq => Val(Equal(left, right))
    case NotEq => Val(!Equal(left, right))
    case _ =>
      if left.Bool? || right.Bool? then Wrong(NoOrder)
      else if left.Num? && right.Num? then Val(OrderedNumbers(op, left.n.Real(), right.n.Real()))
      else if left.Text? && right.Text? then Val(OrderedTexts(op, left.s, right.s))
      else Wrong(NoOrder)
  }

  function Contained(left: Value, right: Value): Outcome<bool> {
    if right.Tuple? then Val(exists i | 0 <= i < |right.items| :: Equal(left, right.items[i]))
    else if right.Text? then
      if left.Text? then Val(Text.Contains(right.s, left.s)) else Crash(MembershipInText)
    else Wrong(NothingCanBeIn)
  }

  predicate OrderedNumbers(op: Comparison, x: real, y: real) {
    match op
    case Lt => x < y
    case LtE => x <= y
    case Gt => x > y
    case _ => x >= y
  }

  predicate OrderedTexts(op: Comparison, a: string, b: string) {
    match op
    case Lt => Text.Before(a, b)
    case LtE => Text.AtMost(a, b)
    case Gt => Text.Before(b, a)
    case _ => Text.AtMost(b, a)
  }

  /** An expression used as a condition: any value other than a boolean is a mistake. */
  function TruthOf(e: Node, s: Scope): Outcome<bool> {
    var v :- Evaluate(e, s);
    Truth(v)
  }

  // ------------------------------------------------------------- the loops, as written

  /** The loop over the operands of `and` and `or`, returning early. */
  method BooleanLoop(op: BooleanOperator, values: seq<Node>, s: Scope) returns (r: Outcome<Value>)
    ensures r == Connected(op, values, s)
  {
    var wanted := op.And?;
    var i := 0;
    while i < |values|
      invariant 0 <= i <= |values|
      invariant Connected(op, values, s) == Connected(op, values[i..], s)
    {
      var v := Evaluate(values[i], s);
      if v.IsFailure() {
        return v;
      }
      var yes := Truth(v.value);
      if yes.IsFailure() {
        return yes.PropagateFailure();
      }
      if yes.value != wanted {
        return Val(Bool(!wanted));
      }
      assert values[i..][1..] == values[i + 1..];
      i := i + 1;
    }
    return Val(Bool(wanted));
  }

  /** The loop over a chain of comparisons, carrying the last operand along. */
  method ComparisonLoop(first: Node, chain: Chain, s: Scope) returns (r: Outcome<Value>)
    ensures r == Evaluate(Compare(first, chain), s)
  {
    var left := Evaluate(first, s);
    if left.IsFailure() {
      return left;
    }
    var ahead := chain;
    while ahead.Then?
      invariant left.Val?
      invariant Evaluate(Compare(first, chain), s) == Chained(left.value, ahead, s)
      decreases ahead
    {
      var right := Evaluate(ahead.operand, s);
      if right.IsFailure() {
        return right;
      }
      var holds := Compared(ahead.op, left.value, right.value);
      if holds.IsFailure() {
        return holds.PropagateFailure();
      }
      if !holds.value {
        return Val(Bool(false));
      }
      left, ahead := right, ahead.rest;
    }
    return Val(Bool(true));
  }
}
