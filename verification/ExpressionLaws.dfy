// What holds of every expression the checker accepts: the ways evaluation can end, and
// the part of the scope it can depend on.
module ExpressionSoundness {
  import opened Values
  import opened Expressions

  /** The whole tree, as a set of nodes. */
  ghost function Nodes(e: Node): set<Node>
    decreases e, 1
  {
    {e} + match e
          case Attribute(base, _) => Nodes(base)
          case Binary(_, l, r) => Nodes(l) + Nodes(r)
          case Unary(_, x) => Nodes(x)
          case Boolean(_, values) => NodesOfAll(values)
          case Compare(first, chain) => Nodes(first) + NodesOfChain(chain)
          case Choose(test, body, orelse) => Nodes(test) + Nodes(body) + Nodes(orelse)
          case Elements(elts) => NodesOfAll(elts)
          case _ => {}
  }

  ghost function NodesOfAll(es: seq<Node>): set<Node>
    decreases es, 0
  {
    if es == [] then {} else Nodes(es[0]) + NodesOfAll(es[1..])
  }

  ghost function NodesOfChain(chain: Chain): set<Node>
    decreases chain, 0
  {
    match chain
    case End => {}
    case Then(_, operand, rest) => Nodes(operand) + NodesOfChain(rest)
  }

  /** What the language allows of one node, whatever is under it. */
  ghost predicate Allowed(n: Node) {
    match n
    case Constant(v) => LiteralHeld(v)
    case Name(id) => !Hidden(id)
    case Attribute(_, attr) => !Hidden(attr)
    case Binary(op, _, _) => !op.OtherBinary?
    case Unary(op, _) => !op.Invert?
    case ForeignConstant => false
    case Construct => false
    case _ => true
  }

  ghost predicate AllAllowed(nodes: set<Node>) {
    forall n | n in nodes :: Allowed(n)
  }

  /** The walk accepts a tree exactly when every node in it is allowed; a refusal names a
      node of the tree that is not. */
  lemma {:induction false} CheckIsExact(e: Node)
    ensures Check(e).Accepted? <==> AllAllowed(Nodes(e))
    ensures Check(e).Refused? ==> Check(e).culprit in Nodes(e) && !Allowed(Check(e).culprit)
    decreases e, 1
  {
    assert e in Nodes(e);
    match e
    case Attribute(base, _) => CheckIsExact(base);
    case Binary(_, l, r) => CheckIsExact(l); CheckIsExact(r);
    case Unary(_, x) => CheckIsExact(x);
    case Boolean(_, values) => CheckAllIsExact(values);
    case Compare(first, chain) => CheckIsExact(first); CheckChainIsExact(chain);
    case Choose(test, body, orelse) => CheckIsExact(test); CheckIsExact(body); CheckIsExact(orelse);
    case Elements(elts) => CheckAllIsExact(elts);
    case _ =>
  }

  lemma {:induction false} CheckAllIsExact(es: seq<Node>)
    ensures CheckAll(es).Accepted? <==> AllAllowed(NodesOfAll(es))
    ensures CheckAll(es).Refused? ==> CheckAll(es).culprit in NodesOfAll(es) && !Allowed(CheckAll(es).culprit)
    decreases es, 0
  {
    if es != [] {
      CheckIsExact(es[0]);
      CheckAllIsExact(es[1..]);
    }
  }

  lemma {:induction false} CheckChainIsExact(chain: Chain)
    ensures CheckChain(chain).Accepted? <==> AllAllowed(NodesOfChain(chain))
    ensures CheckChain(chain).Refused? ==>
              CheckChain(chain).culprit in NodesOfChain(chain) && !Allowed(CheckChain(chain).culprit)
    decreases chain, 0
  {
    if chain.Then? {
      CheckIsExact(chain.operand);
      CheckChainIsExact(chain.rest);
    }
  }

  // ------------------------------------------------------------------ how it can end

  /** The ends an accepted expression may come to: anything but the fall-through for an
      unknown construct, and of the stray exceptions only the one `in` raises on text. */
  ghost predicate Expected<T>(r: Outcome<T>, nodes: set<Node>) {
    && (r.Wrong? ==> r.fault != Foreign)
    && (r.Crash? ==> r.panic == MembershipInText)
    && (r.Missing? ==> r.at in nodes && (r.at.Name? || r.at.Attribute?))
  }

  /** An accepted expression ends in a value that is never the unreported marker, in
      naming a fact it reads, in an expression error that is not the fall-through, or in
      the one stray exception of testing something that is not text for membership in
      text. */
  lemma {:induction false} AcceptedEvaluationIsExpected(e: Node, s: Scope)
    requires Check(e).Accepted?
    ensures Expected(Evaluate(e, s), Nodes(e))
    ensures Evaluate(e, s).Val? ==> !Evaluate(e, s).value.Unreported?
    decreases e, 1
  {
    match e
    case Constant(_) =>
    case Name(_) =>
    case Attribute(base, _) => AcceptedEvaluationIsExpected(base, s);
    case Binary(_, _, _) => BinaryIsExpected(e, s);
    case Unary(_, x) => AcceptedEvaluationIsExpected(x, s);
    case Boolean(op, values) => ConnectedIsExpected(op, values, s);
    case Compare(first, chain) =>
      AcceptedEvaluationIsExpected(first, s);
      if Evaluate(first, s).Val? {
        ChainedIsExpected(Evaluate(first, s).value, chain, s);
      }
    case Choose(test, body, orelse) =>
      AcceptedEvaluationIsExpected(test, s);
      AcceptedEvaluationIsExpected(body, s);
      AcceptedEvaluationIsExpected(orelse, s);
    case Elements(elts) => EvaluateAllIsExpected(elts, s);
  }

  lemma {:induction false} BinaryIsExpected(e: Node, s: Scope)
    requires e.Binary? && Check(e).Accepted?
    ensures Expected(Evaluate(e, s), Nodes(e))
    ensures Evaluate(e, s).Val? ==> Evaluate(e, s).value.Num?
    decreases e, 0
  {
    AcceptedEvaluationIsExpected(e.left, s);
    AcceptedEvaluationIsExpected(e.right, s);
  }

  lemma {:induction false} EvaluateAllIsExpected(es: seq<Node>, s: Scope)
    requires CheckAll(es).Accepted?
    ensures Expected(EvaluateAll(es, s), NodesOfAll(es))
    decreases es, 0
  {
    if es != [] {
      AcceptedEvaluationIsExpected(es[0], s);
      EvaluateAllIsExpected(es[1..], s);
    }
  }

  lemma {:induction false} ConnectedIsExpected(op: BooleanOperator, values: seq<Node>, s: Scope)
    requires CheckAll(values).Accepted?
    ensures Expected(Connected(op, values, s), NodesOfAll(values))
    ensures Connected(op, values, s).Val? ==> Connected(op, values, s).value.Bool?
    decreases values, 0
  {
    if values != [] {
      AcceptedEvaluationIsExpected(values[0], s);
      ConnectedIsExpected(op, values[1..], s);
    }
  }

  lemma ComparedIsExpected(op: Comparison, left: Value, right: Value)
    ensures Expected(Compared(op, left, right), {})
    ensures !Compared(op, left, right).Missing?
  {
  }

  lemma {:induction false} ChainedIsExpected(left: Value, chain: Chain, s: Scope)
    requires CheckChain(chain).Accepted?
    ensures Expected(Chained(left, chain, s), NodesOfChain(chain))
    ensures Chained(left, chain, s).Val? ==> Chained(left, chain, s).value.Bool?
    decreases chain, 0
  {
    if chain.Then? {
      var operand := Evaluate(chain.operand, s);
      AcceptedEvaluationIsExpected(chain.operand, s);
      if operand.Val? {
        var holds := Compared(chain.op, left, operand.value);
        ComparedIsExpected(chain.op, left, operand.value);
        if holds.Val? && holds.value {
          ChainedIsExpected(operand.value, chain.rest, s);
        }
      }
    }
  }

  // ------------------------------------------------------------- the stray exception

  predicate Membership(op: Comparison) {
    op.In? || op.NotIn?
  }

  /** Operands that cannot hold text whatever the scope says, seen from the tree alone. */
  predicate NeverText(e: Node) {
    match e
    case Constant(v) => !v.Text?
    case Binary(_, _, _) => true
    case Unary(_, _) => true
    case Boolean(_, _) => true
    case Compare(_, _) => true
    case Elements(_) => true
    case _ => false
  }

  predicate AlwaysText(e: Node) {
    e.Constant? && e.value.Text?
  }

  /** Every membership test either looks for a text literal, or looks somewhere that is
      written as a list or as an answer. */
  predicate Guarded(e: Node)
    decreases e, 1
  {
    match e
    case Attribute(base, _) => Guarded(base)
    case Binary(_, l, r) => Guarded(l) && Guarded(r)
    case Unary(_, x) => Guarded(x)
    case Boolean(_, values) => AllGuarded(values)
    case Compare(first, chain) => Guarded(first) && ChainGuarded(first, chain)
    case Choose(test, body, orelse) => Guarded(test) && Guarded(body) && Guarded(orelse)
    case Elements(elts) => AllGuarded(elts)
    case _ => true
  }

  predicate AllGuarded(es: seq<Node>)
    decreases es, 0
  {
    es == [] || (Guarded(es[0]) && AllGuarded(es[1..]))
  }

  predicate ChainGuarded(left: Node, chain: Chain)
    decreases chain, 0
  {
    match chain
    case End => true
    case Then(op, operand, rest) =>
      && (Membership(op) ==> AlwaysText(left) || NeverText(operand))
      && Guarded(operand) && ChainGuarded(operand, rest)
  }

  /** One comparison raises the stray exception exactly when it is a membership test of
      something that is not text in something that is. */
  lemma ComparedCrashesExactly(op: Comparison, left: Value, right: Value)
    ensures Compared(op, left, right).Crash? <==> Membership(op) && right.Text? && !left.Text?
  {
  }

  /** `1 in 'a'` is accepted, and evaluating it raises an exception no caller handles. */
  lemma MembershipInTextEscapes(s: Scope)
    ensures var e := Compare(Constant(Num(Whole(1))), Then(In, Constant(Text("a")), End));
            Check(e).Accepted? && Evaluate(e, s) == Crash(MembershipInText)
  {
    var one, a := Constant(Num(Whole(1))), Constant(Text("a"));
    assert CheckChain(Then(In, a, End)).Accepted?;
    assert Evaluate(one, s) == Val(Num(Whole(1)));
    assert Chained(Num(Whole(1)), Then(In, a, End), s) == Crash(MembershipInText);
  }

  /** A guarded, accepted expression never raises it, on any scope. */
  lemma {:induction false} GuardedNeverCrashes(e: Node, s: Scope)
    requires Check(e).Accepted? && Guarded(e)
    ensures !Evaluate(e, s).Crash?
    ensures Evaluate(e, s).Val? && NeverText(e) ==> !Evaluate(e, s).value.Text?
    decreases e, 1
  {
    match e
    case Constant(_) =>
    case Name(_) =>
    case Attribute(base, _) => GuardedNeverCrashes(base, s);
    case Binary(_, _, _) => GuardedBinary(e, s);
    case Unary(_, x) => GuardedNeverCrashes(x, s);
    case Boolean(op, values) => GuardedConnected(op, values, s);
    case Compare(first, chain) =>
      GuardedNeverCrashes(first, s);
      if Evaluate(first, s).Val? {
        GuardedChained(first, Evaluate(first, s).value, chain, s);
      }
    case Choose(test, body, orelse) =>
      GuardedNeverCrashes(test, s);
      GuardedNeverCrashes(body, s);
      GuardedNeverCrashes(orelse, s);
    case Elements(elts) => GuardedAll(elts, s);
  }

  lemma {:induction false} GuardedBinary(e: Node, s: Scope)
    requires e.Binary? && Check(e).Accepted? && Guarded(e)
    ensures !Evaluate(e, s).Crash?
    ensures Evaluate(e, s).Val? ==> Evaluate(e, s).value.Num?
    decreases e, 0
  {
    GuardedNeverCrashes(e.left, s);
    GuardedNeverCrashes(e.right, s);
  }

  lemma {:induction false} GuardedAll(es: seq<Node>, s: Scope)
    requires CheckAll(es).Accepted? && AllGuarded(es)
    ensures !EvaluateAll(es, s).Crash?
    decreases es, 0
  {
    if es != [] {
      GuardedNeverCrashes(es[0], s);
      GuardedAll(es[1..], s);
    }
  }

  lemma {:induction false} GuardedConnected(op: BooleanOperator, values: seq<Node>, s: Scope)
    requires CheckAll(values).Accepted? && AllGuarded(values)
    ensures !Connected(op, values, s).Crash?
    ensures Connected(op, values, s).Val? ==> Connected(op, values, s).value.Bool?
    decreases values, 0
  {
    if values != [] {
      GuardedNeverCrashes(values[0], s);
      GuardedConnected(op, values[1..], s);
    }
  }

  lemma {:induction false} GuardedChained(first: Node, left: Value, chain: Chain, s: Scope)
    requires CheckChain(chain).Accepted? && ChainGuarded(first, chain)
    requires Evaluate(first, s) == Val(left)
    ensures !Chained(left, chain, s).Crash?
    ensures Chained(left, chain, s).Val? ==> Chained(left, chain, s).value.Bool?
    decreases chain, 0
  {
    if chain.Then? {
      GuardedNeverCrashes(chain.operand, s);
      if Evaluate(chain.operand, s).Val? {
        var right := Evaluate(chain.operand, s).value;
        ComparedCrashesExactly(chain.op, left, right);
        GuardedChained(chain.operand, right, chain.rest, s);
      }
    }
  }

  // ------------------------------------------------------------------------ locality

  /** The two scopes give each of the names the same meaning, or both give it none. */
  ghost predicate AgreeOn(names: set<string>, s: Scope, t: Scope) {
    forall n | n in names :: (n in s <==> n in t) && (n in s ==> s[n] == t[n])
  }

  /** Evaluation depends on nothing outside the names the expression reports. */
  lemma {:induction false} EvaluationIsLocal(e: Node, s: Scope, t: Scope)
    requires AgreeOn(Names(e), s, t)
    ensures Evaluate(e, s) == Evaluate(e, t)
    decreases e, 1
  {
    match e
    case Name(id) => assert id in Names(e);
    case Attribute(base, _) => EvaluationIsLocal(base, s, t);
    case Binary(_, l, r) => EvaluationIsLocal(l, s, t); EvaluationIsLocal(r, s, t);
    case Unary(_, x) => EvaluationIsLocal(x, s, t);
    case Boolean(op, values) => ConnectedIsLocal(op, values, s, t);
    case Compare(first, chain) =>
      EvaluationIsLocal(first, s, t);
      if Evaluate(first, s).Val? {
        ChainedIsLocal(Evaluate(first, s).value, chain, s, t);
      }
    case Choose(test, body, orelse) =>
      EvaluationIsLocal(test, s, t);
      EvaluationIsLocal(body, s, t);
      EvaluationIsLocal(orelse, s, t);
    case Elements(elts) => EvaluateAllIsLocal(elts, s, t);
    case _ =>
  }

  lemma {:induction false} EvaluateAllIsLocal(es: seq<Node>, s: Scope, t: Scope)
    requires AgreeOn(NamesOfAll(es), s, t)
    ensures EvaluateAll(es, s) == EvaluateAll(es, t)
    decreases es, 0
  {
    if es != [] {
      EvaluationIsLocal(es[0], s, t);
      EvaluateAllIsLocal(es[1..], s, t);
    }
  }

  lemma {:induction false} ConnectedIsLocal(op: BooleanOperator, values: seq<Node>, s: Scope, t: Scope)
    requires AgreeOn(NamesOfAll(values), s, t)
    ensures Connected(op, values, s) == Connected(op, values, t)
    decreases values, 0
  {
    if values != [] {
      EvaluationIsLocal(values[0], s, t);
      ConnectedIsLocal(op, values[1..], s, t);
    }
  }

  lemma {:induction false} ChainedIsLocal(left: Value, chain: Chain, s: Scope, t: Scope)
    requires AgreeOn(NamesOfChain(chain), s, t)
    ensures Chained(left, chain, s) == Chained(left, chain, t)
    decreases chain, 0
  {
    if chain.Then? {
      EvaluationIsLocal(chain.operand, s, t);
      if Evaluate(chain.operand, s).Val? {
        ChainedIsLocal(Evaluate(chain.operand, s).value, chain.rest, s, t);
      }
    }
  }
}
