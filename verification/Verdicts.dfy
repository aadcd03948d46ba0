/**
 Verdict expressions (collectors/build_receipt.py): the interpreter, Python's own meaning of the same
 syntax, and the level a run is given.
 */
module Verdicts {
  import opened Results
  import Lexical

  /** A metric's value.  Booleans compare as the numbers 0 and 1, as in Python. */
  datatype Value = Num(n: real) | Bool(b: bool) | Text(s: string) | Nothing {
    predicate Truthy() {
      match this
      case Num(n) => n != 0.0
      case Bool(b) => b
      case Text(s) => s != ""
      case Nothing => false
    }

    predicate Numeric() {
      Num? || Bool?
    }

    function Number(): real
      requires Numeric()
    {
      if Num? then n else if b then 1.0 else 0.0
    }
  }

  datatype Op = Lt | LtE | Gt | GtE | Eq | NotEq | Unlisted

  /**
   Abstract syntax, as the parser gives it.  `Other` is any node the interpreter does not know, a minus sign
   included.
   */
  datatype Expr =
    | Name(id: string)
    | Constant(value: Value)
    | And(values: seq<Expr>)
    | Or(values: seq<Expr>)
    | Not(operand: Expr)
    | Compare(left: Expr, ops: seq<Op>, comparators: seq<Expr>)
    | Other

  type Env = map<string, Value>

  /** Python's `<`: numbers with numbers, text with text. */
  function Less(a: Value, b: Value): Result<bool> {
    if a.Numeric() && b.Numeric() then Success(a.Number() < b.Number())
    else if a.Text? && b.Text? then Success(Lexical.Less(a.s, b.s))
    else Failure(TypeError)
  }

  predicate Same(a: Value, b: Value) {
    if a.Numeric() && b.Numeric() then a.Number() == b.Number() else a == b
  }

  function Negated(r: Result<bool>): Result<bool> {
    if r.Success? then Success(!r.value) else r
  }

  function Apply(op: Op, a: Value, b: Value): Result<bool> {
    match op
    case Lt => Less(a, b)
    case LtE => Negated(Less(b, a))
    case Gt => Less(b, a)
    case GtE => Negated(Less(a, b))
    case Eq => Success(Same(a, b))
    case NotEq => Success(!Same(a, b))
    case Unlisted => Failure(ValueError)
  }

  // ------------------------------------------------------------------- the interpreter

  /** `and` and `or` evaluate every operand and give a boolean; a chain of comparisons stops at the first that fails. */
  function Interp(e: Expr, env: Env): Result<Value> {
    match e
    case Name(id) => if id in env then Success(env[id]) else Failure(ValueError)
    case Constant(value) => Success(value)
    case And(values) =>
      var r := InterpAll(values, env);
      if r.Failure? then Failure(r.error) else Success(Bool(forall k :: 0 <= k < |r.value| ==> r.value[k].Truthy()))
    case Or(values) =>
      var r := InterpAll(values, env);
      if r.Failure? then Failure(r.error) else Success(Bool(exists k :: 0 <= k < |r.value| && r.value[k].Truthy()))
    case Not(operand) =>
      var r := Interp(operand, env);
      if r.Failure? then r else Success(Bool(!r.value.Truthy()))
    case Compare(left, ops, comparators) =>
      var r := Interp(left, env);
      if r.Failure? then r else InterpChain(r.value, ops, comparators, env)
    case Other => Failure(ValueError)
  }

  function InterpAll(es: seq<Expr>, env: Env): (r: Result<seq<Value>>)
    ensures r.Success? ==> |r.value| == |es| && forall k :: 0 <= k < |es| ==> Interp(es[k], env) == Success(r.value[k])
    ensures r.Failure? ==> exists k :: 0 <= k < |es| && Interp(es[k], env).Failure?
  {
    if es == [] then Success([])
    else
      var first := Interp(es[0], env);
      if first.Failure? then Failure(first.error)
      else
        var rest := InterpAll(es[1..], env);
        if rest.Failure? then rest else Success([first.value] + rest.value)
  }

  function InterpChain(left: Value, ops: seq<Op>, comparators: seq<Expr>, env: Env): (r: Result<Value>)
    decreases comparators
    ensures r.Success? ==> r.value.Bool?
  {
    if ops == [] || comparators == [] then Success(Bool(true))
    else
      var right := Interp(comparators[0], env);
      if right.Failure? then right
      else
        var holds := Apply(ops[0], left, right.value);
        if holds.Failure? then Failure(holds.error)
        else if !holds.value then Success(Bool(false))
        else InterpChain(right.value, ops[1..], comparators[1..], env)
  }

  // ------------------------------------------------------------------- what Python would make of it

  /** `and` and `or` stop early and give the operand they stopped at. */
  function Eval(e: Expr, env: Env): Result<Value> {
    match e
    case Name(id) => if id in env then Success(env[id]) else Failure(ValueError)
    case Constant(value) => Success(value)
    case And(values) => EvalUntil(values, false, env)
    case Or(values) => EvalUntil(values, true, env)
    case Not(operand) =>
      var r := Eval(operand, env);
      if r.Failure? then r else Success(Bool(!r.value.Truthy()))
    case Compare(left, ops, comparators) =>
      var r := Eval(left, env);
      if r.Failure? then r else EvalChain(r.value, ops, comparators, env)
    case Other => Failure(ValueError)
  }

  /** The first operand whose truth is `stop`, or the last one. */
  function EvalUntil(es: seq<Expr>, stop: bool, env: Env): Result<Value>
    decreases es
  {
    if es == [] then Success(Bool(!stop))
    else
      var first := Eval(es[0], env);
      if first.Failure? || |es| == 1 || first.value.Truthy() == stop then first else EvalUntil(es[1..], stop, env)
  }

  /** A chain is the conjunction of its comparisons. */
  function EvalChain(left: Value, ops: seq<Op>, comparators: seq<Expr>, env: Env): Result<Value>
    decreases comparators
  {
    if ops == [] || comparators == [] then Success(Bool(true))
    else
      var right := Eval(comparators[0], env);
      if right.Failure? then right
      else
        var holds := Apply(ops[0], left, right.value);
        if holds.Failure? then Failure(holds.error)
        else if holds.value then EvalChain(right.value, ops[1..], comparators[1..], env)
        else Success(Bool(false))
  }

  /** No `and` or `or` is compared with anything. */
  predicate Flat(e: Expr)
    decreases e, 0
  {
    match e
    case And(values) => forall v | v in values :: Flat(v)
    case Or(values) => forall v | v in values :: Flat(v)
    case Not(operand) => Flat(operand)
    case Compare(left, ops, comparators) => FlatOperand(left) && forall v | v in comparators :: FlatOperand(v)
    case _ => true
  }

  predicate FlatOperand(e: Expr)
    decreases e, 1
  {
    !e.And? && !e.Or? && Flat(e)
  }

  /**
   Whenever the interpreter answers, Python would have, with the same truth: and with the same value, `and`
   and `or` aside.
   */
  lemma {:induction false} AnswersAsPython(e: Expr, env: Env)
    requires Flat(e) && Interp(e, env).Success?
    ensures Eval(e, env).Success?
    ensures Eval(e, env).value.Truthy() == Interp(e, env).value.Truthy()
    ensures !e.And? && !e.Or? ==> Eval(e, env) == Interp(e, env)
  {
    match e
    case And(values) =>
      OperandsAsPython(values, env);
      StopsAtFirst(values, false, env);
    case Or(values) =>
      OperandsAsPython(values, env);
      StopsAtFirst(values, true, env);
    case Not(operand) => AnswersAsPython(operand, env);
    case Compare(left, ops, comparators) =>
      AnswersAsPython(left, env);
      ChainAsPython(Interp(left, env).value, ops, comparators, env);
    case _ =>
  }

  lemma {:induction false} OperandsAsPython(es: seq<Expr>, env: Env)
    requires forall k :: 0 <= k < |es| ==> Flat(es[k]) && Interp(es[k], env).Success?
    ensures forall k :: 0 <= k < |es| ==>
      Eval(es[k], env).Success? && Eval(es[k], env).value.Truthy() == Interp(es[k], env).value.Truthy()
  {
    forall k | 0 <= k < |es|
      ensures Eval(es[k], env).Success? && Eval(es[k], env).value.Truthy() == Interp(es[k], env).value.Truthy()
    {
      AnswersAsPython(es[k], env);
    }
  }

  lemma {:induction false} StopsAtFirst(es: seq<Expr>, stop: bool, env: Env)
    requires forall k :: 0 <= k < |es| ==> Eval(es[k], env).Success?
    ensures EvalUntil(es, stop, env).Success?
    ensures EvalUntil(es, stop, env).value.Truthy() == stop <==>
            exists k :: 0 <= k < |es| && Eval(es[k], env).value.Truthy() == stop
  {
    if |es| > 1 {
      StopsAtFirst(es[1..], stop, env);
      assert forall k :: 1 <= k < |es| ==> es[k] == es[1..][k - 1];
    }
  }

  lemma {:induction false} ChainAsPython(left: Value, ops: seq<Op>, comparators: seq<Expr>, env: Env)
    requires forall v | v in comparators :: FlatOperand(v)
    requires InterpChain(left, ops, comparators, env).Success?
    decreases comparators
    ensures EvalChain(left, ops, comparators, env) == InterpChain(left, ops, comparators, env)
  {
    if ops != [] && comparators != [] {
      assert comparators[0] in comparators;
      AnswersAsPython(comparators[0], env);
      var right := Interp(comparators[0], env).value;
      if Apply(ops[0], left, right) == Success(true) {
        ChainAsPython(right, ops[1..], comparators[1..], env);
      }
    }
  }

  /** Without that condition they differ: `(x and y) < 3` compares a boolean here and `y` in Python. */
  lemma NestedOperandsDiffer(env: Env)
    requires "x" in env && env["x"] == Num(1.0) && "y" in env && env["y"] == Num(5.0)
    ensures var e := Compare(And([Name("x"), Name("y")]), [Lt], [Constant(Num(3.0))]);
            Interp(e, env) == Success(Bool(true)) && Eval(e, env) == Success(Bool(false))
  {
    var both := And([Name("x"), Name("y")]);
    var r := InterpAll(both.values, env);
    assert Interp(both.values[0], env) == Success(Num(1.0)) && Interp(both.values[1], env) == Success(Num(5.0));
    assert Interp(both, env) == Success(Bool(true));
    assert EvalUntil(both.values[1..], false, env) == Success(Num(5.0));
    assert Eval(both.values[0], env) == Success(Num(1.0));
    assert Eval(both, env) == Success(Num(5.0));
    assert InterpChain(Bool(true), [Lt], [Constant(Num(3.0))], env) == Success(Bool(true));
    assert EvalChain(Num(5.0), [Lt], [Constant(Num(3.0))], env) == Success(Bool(false));
  }

  function AfterFirst(left: Value, op: Op, e: Expr, rest: Result<Value>, env: Env): Result<Value> {
    var right := Interp(e, env);
    if right.Failure? then right
    else
      var holds := Apply(op, left, right.value);
      if holds.Failure? then Failure(holds.error) else if holds.value then rest else Success(Bool(false))
  }

  /** A chain of comparisons is a conjunction of single ones, each middle operand shared by two of them. */
  lemma ChainIsConjunction(left: Expr, op: Op, middle: Expr, ops: seq<Op>, rest: seq<Expr>, env: Env)
    requires rest != []
    ensures var first := Interp(Compare(left, [op], [middle]), env);
            Interp(Compare(left, [op] + ops, [middle] + rest), env) ==
            if first == Success(Bool(true)) then Interp(Compare(middle, ops, rest), env) else first
  {
    var r := Interp(left, env);
    if r.Success? {
      assert ([op] + ops)[1..] == ops && ([middle] + rest)[1..] == rest;
      assert InterpChain(r.value, [op], [middle], env) == AfterFirst(r.value, op, middle, Success(Bool(true)), env);
      assert InterpChain(r.value, [op] + ops, [middle] + rest, env)
          == AfterFirst(r.value, op, middle, Interp(Compare(middle, ops, rest), env), env);
    }
  }

  // ------------------------------------------------------------------- when the interpreter answers

  /** Nodes and operators the interpreter knows, and only these names. */
  predicate WellFormed(e: Expr, names: set<string>)
    decreases e
  {
    match e
    case Name(id) => id in names
    case Constant(value) => value.Numeric()
    case And(values) => forall k :: 0 <= k < |values| ==> WellFormed(values[k], names)
    case Or(values) => forall k :: 0 <= k < |values| ==> WellFormed(values[k], names)
    case Not(operand) => WellFormed(operand, names)
    case Compare(left, ops, comparators) =>
      && WellFormed(left, names)
      && Unlisted !in ops && |ops| == |comparators|
      && forall k :: 0 <= k < |comparators| ==> WellFormed(comparators[k], names)
    case Other => false
  }

  predicate NumericEnv(env: Env) {
    forall id | id in env :: env[id].Numeric()
  }

  /** On numbers, an expression of known nodes and declared names always has an answer, a number again. */
  lemma {:induction false} WellFormedAnswers(e: Expr, env: Env)
    requires NumericEnv(env) && WellFormed(e, env.Keys)
    ensures Interp(e, env).Success? && Interp(e, env).value.Numeric()
  {
    match e
    case And(values) => AllAnswer(values, env);
    case Or(values) => AllAnswer(values, env);
    case Not(operand) => WellFormedAnswers(operand, env);
    case Compare(left, ops, comparators) =>
      WellFormedAnswers(left, env);
      ChainAnswers(Interp(left, env).value, ops, comparators, env);
    case _ =>
  }

  lemma {:induction false} AllAnswer(es: seq<Expr>, env: Env)
    requires NumericEnv(env) && forall k :: 0 <= k < |es| ==> WellFormed(es[k], env.Keys)
    ensures InterpAll(es, env).Success?
  {
    forall k | 0 <= k < |es|
      ensures Interp(es[k], env).Success?
    {
      WellFormedAnswers(es[k], env);
    }
  }

  lemma {:induction false} ChainAnswers(left: Value, ops: seq<Op>, comparators: seq<Expr>, env: Env)
    requires NumericEnv(env) && left.Numeric() && Unlisted !in ops
    requires forall k :: 0 <= k < |comparators| ==> WellFormed(comparators[k], env.Keys)
    decreases comparators
    ensures InterpChain(left, ops, comparators, env).Success?
  {
    if ops != [] && comparators != [] {
      assert ops[0] in ops;
      WellFormedAnswers(comparators[0], env);
      ChainAnswers(Interp(comparators[0], env).value, ops[1..], comparators[1..], env);
    }
  }

  /** Comparisons of two operands only, and numeric constants. */
  predicate Pairwise(e: Expr)
    decreases e
  {
    match e
    case Name(_) => true
    case Constant(value) => value.Numeric()
    case And(values) => forall k :: 0 <= k < |values| ==> Pairwise(values[k])
    case Or(values) => forall k :: 0 <= k < |values| ==> Pairwise(values[k])
    case Not(operand) => Pairwise(operand)
    case Compare(left, ops, comparators) => |ops| == |comparators| == 1 && Pairwise(left) && Pairwise(comparators[0])
    case Other => true
  }

  /** Without longer chains, an answer means that every node and name is in order, also where Python would not look. */
  lemma {:induction false} AnswersIffWellFormed(e: Expr, env: Env)
    requires NumericEnv(env) && Pairwise(e)
    ensures Interp(e, env).Success? <==> WellFormed(e, env.Keys)
  {
    if WellFormed(e, env.Keys) {
      WellFormedAnswers(e, env);
    }
    if Interp(e, env).Success? {
      match e
      case And(values) => AllAreWellFormed(values, env);
      case Or(values) => AllAreWellFormed(values, env);
      case Not(operand) => AnswersIffWellFormed(operand, env);
      case Compare(left, ops, comparators) =>
        AnswersIffWellFormed(left, env);
        AnswersIffWellFormed(comparators[0], env);
      case _ =>
    }
  }

  lemma {:induction false} AllAreWellFormed(es: seq<Expr>, env: Env)
    requires NumericEnv(env) && InterpAll(es, env).Success? && forall k :: 0 <= k < |es| ==> Pairwise(es[k])
    ensures forall k :: 0 <= k < |es| ==> WellFormed(es[k], env.Keys)
  {
    forall k | 0 <= k < |es|
      ensures WellFormed(es[k], env.Keys)
    {
      AnswersIffWellFormed(es[k], env);
    }
  }

  /** What Python settles at the first operand still fails here if the second names no metric. */
  lemma EagerOperandFails(first: Expr, id: string, env: Env)
    requires Eval(first, env).Success? && Eval(first, env).value.Truthy() && id !in env
    ensures Eval(Or([first, Name(id)]), env).Success?
    ensures Interp(Or([first, Name(id)]), env).Failure?
  {
    var es := [first, Name(id)];
    assert Interp(es[1], env).Failure?;
  }

  /** A chain does stop early: what follows a failed comparison may name no metric. */
  lemma ChainStopsEarly(id: string, env: Env)
    ensures var zero := Constant(Num(0.0));
            Interp(Compare(zero, [Gt, Lt], [zero, Name(id)]), env) == Success(Bool(false))
  {
  }

  // ------------------------------------------------------------------- the level of a run

  datatype Level = Green | Amber | Red

  datatype Rule = Otherwise | When(test: Expr)

  /** The three rules of a cadence; red's is never looked at. */
  datatype Rules = Rules(green: Rule, amber: Rule, red: Rule)

  function Check(rule: Rule, metrics: Env): Result<bool> {
    if rule.Otherwise? then Success(true)
    else
      var r := Interp(rule.test, metrics);
      if r.Failure? then Failure(r.error) else Success(r.value.Truthy())
  }

  function ComputeVerdict(rules: Rules, metrics: Env): Result<Level> {
    var green := Check(rules.green, metrics);
    if green.Failure? then Failure(green.error)
    else if green.value then Success(Green)
    else
      var amber := Check(rules.amber, metrics);
      if amber.Failure? then Failure(amber.error)
      else if amber.value then Success(Amber)
      else Success(Red)
  }

  /** What the rule says, read as Python. */
  predicate Holds(rule: Rule, metrics: Env) {
    rule.Otherwise? || (Eval(rule.test, metrics).Success? && Eval(rule.test, metrics).value.Truthy())
  }

  predicate Sound(rule: Rule, names: set<string>) {
    rule.Otherwise? || (WellFormed(rule.test, names) && Flat(rule.test))
  }

  lemma CheckIsHolds(rule: Rule, metrics: Env)
    requires NumericEnv(metrics) && Sound(rule, metrics.Keys)
    ensures Check(rule, metrics) == Success(Holds(rule, metrics))
  {
    if rule.When? {
      WellFormedAnswers(rule.test, metrics);
      AnswersAsPython(rule.test, metrics);
    }
  }

  /** A cadence whose green and amber rules are sound gives every run a level: the first whose rule holds, else red. */
  lemma VerdictIsFirstThatHolds(rules: Rules, metrics: Env)
    requires NumericEnv(metrics) && Sound(rules.green, metrics.Keys) && Sound(rules.amber, metrics.Keys)
    ensures ComputeVerdict(rules, metrics) ==
            Success(if Holds(rules.green, metrics) then Green else if Holds(rules.amber, metrics) then Amber else Red)
  {
    CheckIsHolds(rules.green, metrics);
    CheckIsHolds(rules.amber, metrics);
  }
}
