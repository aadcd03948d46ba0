/**
 What a verdict rule says about the numbers a run has measured, without the interpreter's help
 (collectors/build_receipt.py).
 */
module VerdictMeanings {
  import opened Results
  import opened Verdicts
  import Lexical

  /** The relation an operator stands for. */
  predicate Relates(op: Op, x: real, y: real) {
    match op
    case Lt => x < y
    case LtE => x <= y
    case Gt => x > y
    case GtE => x >= y
    case Eq => x == y
    case NotEq => x != y
    case Unlisted => false
  }

  /** The number a measured value is; true is one and false zero. */
  function NumberOf(v: Value): real {
    match v
    case Num(n) => n
    case Bool(b) => if b then 1.0 else 0.0
    case Text(_) => 0.0
    case Nothing => 0.0
  }

  function Truth(holds: bool): real {
    if holds then 1.0 else 0.0
  }

  /** The number an expression stands for: a metric its value, a statement one if it is true and zero if not. */
  ghost function Meaning(e: Expr, env: Env): real
    requires NumericEnv(env) && WellFormed(e, env.Keys)
    decreases e
  {
    match e
    case Name(id) => NumberOf(env[id])
    case Constant(value) => NumberOf(value)
    case And(values) => Truth(forall k :: 0 <= k < |values| ==> Meaning(values[k], env) != 0.0)
    case Or(values) => Truth(exists k :: 0 <= k < |values| && Meaning(values[k], env) != 0.0)
    case Not(operand) => Truth(Meaning(operand, env) == 0.0)
    case Compare(left, ops, comparators) => Truth(ChainHolds(Meaning(left, env), ops, Meanings(comparators, env)))
  }

  ghost function Meanings(es: seq<Expr>, env: Env): (numbers: seq<real>)
    requires NumericEnv(env) && forall k :: 0 <= k < |es| ==> WellFormed(es[k], env.Keys)
    ensures |numbers| == |es| && forall k :: 0 <= k < |es| ==> numbers[k] == Meaning(es[k], env)
    decreases es
  {
    if es == [] then [] else [Meaning(es[0], env)] + Meanings(es[1..], env)
  }

  /** The number at `k` is in its relation with the one before it, which at first is `x`. */
  predicate LinkHolds(x: real, ops: seq<Op>, numbers: seq<real>, k: nat)
    requires k < |ops| == |numbers|
  {
    Relates(ops[k], if k == 0 then x else numbers[k - 1], numbers[k])
  }

  predicate ChainHolds(x: real, ops: seq<Op>, numbers: seq<real>)
    requires |ops| == |numbers|
  {
    forall k :: 0 <= k < |ops| ==> LinkHolds(x, ops, numbers, k)
  }

  lemma ChainStep(x: real, ops: seq<Op>, numbers: seq<real>)
    requires |ops| == |numbers| && ops != []
    ensures ChainHolds(x, ops, numbers) <==>
      Relates(ops[0], x, numbers[0]) && ChainHolds(numbers[0], ops[1..], numbers[1..])
  {
    var ops', rest := ops[1..], numbers[1..];
    assert LinkHolds(x, ops, numbers, 0) <==> Relates(ops[0], x, numbers[0]);
    forall k: nat | k < |rest|
      ensures LinkHolds(numbers[0], ops', rest, k) <==> LinkHolds(x, ops, numbers, k + 1)
    {
    }
    if ChainHolds(numbers[0], ops', rest) && LinkHolds(x, ops, numbers, 0) {
      forall k | 0 <= k < |ops|
        ensures LinkHolds(x, ops, numbers, k)
      {
        assert k > 0 ==> LinkHolds(numbers[0], ops', rest, k - 1);
      }
    }
  }

  /** The value is a number, and this one. */
  predicate IsNumber(r: Result<Value>, n: real) {
    r.Success? && r.value.Numeric() && NumberOf(r.value) == n
  }

  lemma ApplyMeans(op: Op, a: Value, b: Value)
    requires a.Numeric() && b.Numeric() && op != Unlisted
    ensures Apply(op, a, b) == Success(Relates(op, NumberOf(a), NumberOf(b)))
  {
  }

  lemma TruthyMeans(v: Value)
    requires v.Numeric()
    ensures v.Truthy() <==> NumberOf(v) != 0.0
  {
  }

  /** On numbers the interpreter gives every well-formed expression the number it stands for. */
  lemma {:induction false} InterpMeans(e: Expr, env: Env)
    requires NumericEnv(env) && WellFormed(e, env.Keys)
    ensures IsNumber(Interp(e, env), Meaning(e, env))
    decreases e
  {
    match e
    case Name(_) =>
    case Constant(_) =>
    case And(values) => AllMean(e, values, env);
    case Or(values) => AllMean(e, values, env);
    case Not(operand) =>
      InterpMeans(operand, env);
      TruthyMeans(Interp(operand, env).value);
    case Compare(left, ops, comparators) =>
      InterpMeans(left, env);
      forall k | 0 <= k < |comparators|
        ensures IsNumber(Interp(comparators[k], env), Meaning(comparators[k], env))
      {
        InterpMeans(comparators[k], env);
      }
      ChainMeans(Interp(left, env).value, ops, comparators, Meanings(comparators, env), env);
  }

  lemma {:induction false} AllMean(e: Expr, values: seq<Expr>, env: Env)
    requires NumericEnv(env) && forall k :: 0 <= k < |values| ==> WellFormed(values[k], env.Keys)
    requires forall k :: 0 <= k < |values| ==> values[k] < e
    ensures InterpAll(values, env).Success?
    ensures forall k :: 0 <= k < |values| ==>
      (InterpAll(values, env).value[k].Truthy() <==> Meaning(values[k], env) != 0.0)
    decreases e, 0
  {
    forall k | 0 <= k < |values|
      ensures IsNumber(Interp(values[k], env), Meaning(values[k], env))
    {
      InterpMeans(values[k], env);
    }
    forall k | 0 <= k < |values| && InterpAll(values, env).Success?
      ensures InterpAll(values, env).value[k].Truthy() <==> Meaning(values[k], env) != 0.0
    {
      TruthyMeans(Interp(values[k], env).value);
    }
  }

  /** A chain compares each operand with the next. */
  lemma {:induction false} ChainMeans(left: Value, ops: seq<Op>, comparators: seq<Expr>, numbers: seq<real>, env: Env)
    requires left.Numeric() && Unlisted !in ops && |ops| == |comparators| == |numbers|
    requires forall k :: 0 <= k < |comparators| ==> IsNumber(Interp(comparators[k], env), numbers[k])
    ensures InterpChain(left, ops, comparators, env) == Success(Bool(ChainHolds(NumberOf(left), ops, numbers)))
    decreases comparators
  {
    if ops != [] {
      var right := Interp(comparators[0], env).value;
      assert ops[0] in ops;
      ApplyMeans(ops[0], left, right);
      ChainStep(NumberOf(left), ops, numbers);
      ChainMeans(right, ops[1..], comparators[1..], numbers[1..], env);
    }
  }

  // ------------------------------------------------------------------- the level of a run

  ghost predicate IsTrue(rule: Rule, metrics: Env)
    requires NumericEnv(metrics) && (rule.When? ==> WellFormed(rule.test, metrics.Keys))
  {
    rule.Otherwise? || Meaning(rule.test, metrics) != 0.0
  }

  /** The verdict in terms of the numbers: the first level whose rule is true of them, else red. */
  lemma VerdictOfNumbers(rules: Rules, metrics: Env)
    requires NumericEnv(metrics)
    requires rules.green.When? ==> WellFormed(rules.green.test, metrics.Keys)
    requires rules.amber.When? ==> WellFormed(rules.amber.test, metrics.Keys)
    ensures ComputeVerdict(rules, metrics) == Success(
      if IsTrue(rules.green, metrics) then Level.Green
      else if IsTrue(rules.amber, metrics) then Level.Amber else Level.Red)
  {
    if rules.green.When? {
      InterpMeans(rules.green.test, metrics);
      TruthyMeans(Interp(rules.green.test, metrics).value);
    }
    if rules.amber.When? {
      InterpMeans(rules.amber.test, metrics);
      TruthyMeans(Interp(rules.amber.test, metrics).value);
    }
  }

  /** A clause `metric op number`. */
  datatype Clause = Clause(metric: string, op: Op, number: real) {
    function Test(): Expr {
      Compare(Name(metric), [op], [Constant(Num(number))])
    }
  }

  /** A run is green under a conjunction of clauses exactly when each relation holds of what was measured. */
  lemma GreenIffAllClausesHold(clauses: seq<Clause>, tests: seq<Expr>, rules: Rules, metrics: Env)
    requires |tests| == |clauses| && forall k :: 0 <= k < |clauses| ==> tests[k] == clauses[k].Test()
    requires forall k :: 0 <= k < |clauses| ==> clauses[k].op != Unlisted && clauses[k].metric in metrics
    requires NumericEnv(metrics) && rules.green == When(And(tests))
    requires rules.amber.When? ==> WellFormed(rules.amber.test, metrics.Keys)
    ensures ComputeVerdict(rules, metrics) == Success(Level.Green) <==>
      forall k :: 0 <= k < |clauses| ==>
        Relates(clauses[k].op, NumberOf(metrics[clauses[k].metric]), clauses[k].number)
  {
    forall k | 0 <= k < |clauses|
      ensures WellFormed(tests[k], metrics.Keys)
      ensures Meaning(tests[k], metrics)
           == Truth(Relates(clauses[k].op, NumberOf(metrics[clauses[k].metric]), clauses[k].number))
    {
      ClauseMeans(clauses[k], metrics);
    }
    VerdictOfNumbers(rules, metrics);
  }

  lemma ClauseMeans(c: Clause, metrics: Env)
    requires NumericEnv(metrics) && c.op != Unlisted && c.metric in metrics
    ensures WellFormed(c.Test(), metrics.Keys)
    ensures Meaning(c.Test(), metrics) == Truth(Relates(c.op, NumberOf(metrics[c.metric]), c.number))
  {
    var numbers := Meanings([Constant(Num(c.number))], metrics);
    assert numbers[0] == c.number;
    assert LinkHolds(NumberOf(metrics[c.metric]), [c.op], numbers, 0) <==>
      Relates(c.op, NumberOf(metrics[c.metric]), c.number);
  }

  // ------------------------------------------------------------------- text

  /** One text comes before another: it begins it, or has the smaller character where they first differ. */
  ghost predicate Before(s: string, t: string) {
    (s <= t && s != t) || exists k :: 0 <= k < |s| && k < |t| && s[..k] == t[..k] && s[k] < t[k]
  }

  lemma {:induction false} LessIsBefore(s: string, t: string)
    ensures Lexical.Less(s, t) <==> Before(s, t)
  {
    if s != [] && t != [] {
      if s[0] == t[0] {
        LessIsBefore(s[1..], t[1..]);
        if k :| 0 <= k < |s[1..]| && k < |t[1..]| && s[1..][..k] == t[1..][..k] && s[1..][k] < t[1..][k] {
          assert s[..k + 1] == [s[0]] + s[1..][..k] && t[..k + 1] == [t[0]] + t[1..][..k];
        }
        if k :| 0 <= k < |s| && k < |t| && s[..k] == t[..k] && s[k] < t[k] {
          assert k > 0 && s[1..][..k - 1] == s[..k][1..] && t[1..][..k - 1] == t[..k][1..];
        }
      } else if s[0] < t[0] {
        assert s[..0] == t[..0];
      }
    }
  }

  /** Text is compared by that order, and equal only to the same text. */
  lemma TextComparisons(s: string, t: string)
    ensures Apply(Lt, Text(s), Text(t)) == Success(Before(s, t))
    ensures Apply(Gt, Text(s), Text(t)) == Success(Before(t, s))
    ensures Apply(LtE, Text(s), Text(t)) == Success(Before(s, t) || s == t)
    ensures Apply(GtE, Text(s), Text(t)) == Success(Before(t, s) || s == t)
    ensures Apply(Eq, Text(s), Text(t)) == Success(s == t)
    ensures Apply(NotEq, Text(s), Text(t)) == Success(s != t)
  {
    LessIsBefore(s, t);
    LessIsBefore(t, s);
    Lexical.LessTotal(s, t);
  }

  /** A text by itself counts as true unless it is empty; a missing value never does. */
  lemma TextByItself(metric: string, metrics: Env)
    requires metric in metrics
    ensures metrics[metric].Text? ==> Check(When(Name(metric)), metrics) == Success(|metrics[metric].s| > 0)
    ensures metrics[metric].Nothing? ==> Check(When(Name(metric)), metrics) == Success(false)
  {
  }

  /** Numbers are ordered with numbers and text with text, and nothing else is. */
  predicate Ordered(a: Value, b: Value) {
    (a.Numeric() && b.Numeric()) || (a.Text? && b.Text?)
  }

  /**
   A comparison raises a value error for a name that was not measured or an operator not on the list, a type
   error where the two have no order but one is asked for, and nothing else: what differs in kind is unequal.
   */
  lemma ComparisonFails(metric: string, op: Op, c: Value, metrics: Env)
    ensures var r := Check(When(Compare(Name(metric), [op], [Constant(c)])), metrics);
            && (r == Failure(ValueError) <==> metric !in metrics || op == Unlisted)
            && (r == Failure(TypeError) <==>
                  metric in metrics && op in {Lt, LtE, Gt, GtE} && !Ordered(metrics[metric], c))
            && (metric in metrics && metrics[metric] != c && !Ordered(metrics[metric], c) ==>
                  (op == Eq ==> r == Success(false)) && (op == NotEq ==> r == Success(true)))
  {
    var e := Compare(Name(metric), [op], [Constant(c)]);
    if metric in metrics {
      var left := metrics[metric];
      assert InterpChain(left, [op], [Constant(c)], metrics) ==
        AfterFirst(left, op, Constant(c), Success(Bool(true)), metrics);
      assert Interp(Name(metric), metrics) == Success(left) && Interp(Constant(c), metrics) == Success(c);
      assert Interp(e, metrics) == AfterFirst(left, op, Constant(c), Success(Bool(true)), metrics);
    } else {
      assert Interp(Name(metric), metrics) == Failure(ValueError);
      assert Interp(e, metrics) == Failure(ValueError);
    }
  }
}
