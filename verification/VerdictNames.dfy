/**
 The validator's check of the names in a verdict expression, which looks at its text alone, against what
 the interpreter makes of it (collectors/validate.py).
 */
module VerdictNames {
  import opened Results
  import opened Verdicts

  // ------------------------------------------------------------------- the scan of the text

  // ASCII only, as the validator's pattern has it.
  predicate StartsWord(c: char) {
    'a' <= c <= 'z' || 'A' <= c <= 'Z' || c == '_'
  }

  predicate InWord(c: char) {
    StartsWord(c) || '0' <= c <= '9'
  }

  /** How many characters at the start of a text continue a word. */
  function WordLength(t: string): (n: nat)
    ensures n <= |t|
  {
    if t == "" || !InWord(t[0]) then 0 else 1 + WordLength(t[1..])
  }

  /** All matches of `[A-Za-z_][A-Za-z0-9_]*`, from left to right. */
  function Scan(t: string): set<string> {
    if t == "" then {}
    else if !StartsWord(t[0]) then Scan(t[1..])
    else
      var n := 1 + WordLength(t[1..]);
      {t[..n]} + Scan(t[n..])
  }

  /** Words the validator lets pass beside the declared metrics. */
  const KEYWORDS: set<string> := {"and", "or", "not", "True", "False", "true", "false", "None"}

  predicate Passes(text: string, declared: set<string>) {
    Scan(text) - KEYWORDS <= declared
  }

  predicate IsAsciiName(w: string) {
    w != "" && StartsWord(w[0]) && forall i :: 0 <= i < |w| ==> InWord(w[i])
  }

  predicate NoWordIn(t: string) {
    forall i :: 0 <= i < |t| ==> !StartsWord(t[i])
  }

  lemma {:induction false} WordLengthOf(w: string, t: string)
    requires (forall i :: 0 <= i < |w| ==> InWord(w[i])) && (t == "" || !InWord(t[0]))
    ensures WordLength(w + t) == |w|
  {
    if w == "" {
      assert w + t == t;
    } else {
      assert (w + t)[1..] == w[1..] + t;
      WordLengthOf(w[1..], t);
    }
  }

  lemma ScanOfWord(w: string, t: string)
    requires IsAsciiName(w) && (t == "" || !InWord(t[0]))
    ensures Scan(w + t) == {w} + Scan(t)
  {
    var u := w + t;
    assert u[1..] == w[1..] + t;
    WordLengthOf(w[1..], t);
    assert u[..|w|] == w && u[|w|..] == t;
  }

  lemma {:induction false} ScanOfRest(r: string, t: string)
    requires NoWordIn(r)
    ensures Scan(r + t) == Scan(t)
  {
    if r == "" {
      assert r + t == t;
    } else {
      assert (r + t)[1..] == r[1..] + t;
      ScanOfRest(r[1..], t);
    }
  }

  // ------------------------------------------------------------------- an expression and its text

  /** A name or keyword, or what stands between two: operators, numerals, brackets, space, a comment. */
  datatype Piece = Word(text: string) | Rest(text: string)

  function TextOf(pieces: seq<Piece>): string {
    if pieces == [] then "" else pieces[0].text + TextOf(pieces[1..])
  }

  function Words(pieces: seq<Piece>): set<string> {
    if pieces == [] then {}
    else (if pieces[0].Word? then {pieces[0].text} else {}) + Words(pieces[1..])
  }

  /** Names are ASCII, and no letter stands elsewhere: no exponent, no base prefix, no comment. */
  predicate Plain(pieces: seq<Piece>) {
    pieces == []
    || (Plain(pieces[1..])
        && match pieces[0]
           case Word(w) => IsAsciiName(w) && (|pieces| > 1 ==> EndsWord(pieces[1]))
           case Rest(r) => NoWordIn(r))
  }

  predicate EndsWord(p: Piece) {
    p.Rest? && p.text != "" && !InWord(p.text[0])
  }

  lemma {:induction false} ScanOfPlain(pieces: seq<Piece>)
    requires Plain(pieces)
    ensures Scan(TextOf(pieces)) == Words(pieces)
  {
    if pieces != [] {
      var rest := pieces[1..];
      ScanOfPlain(rest);
      match pieces[0]
      case Rest(r) => ScanOfRest(r, TextOf(rest));
      case Word(w) =>
        if rest != [] {
          assert EndsWord(pieces[1]);
        }
        ScanOfWord(w, TextOf(rest));
    }
  }

  /** The names an expression mentions. */
  function Names(e: Expr): set<string>
    decreases e
  {
    match e
    case Name(id) => {id}
    case Constant(_) => {}
    case And(values) => NamesOfAll(values)
    case Or(values) => NamesOfAll(values)
    case Not(operand) => Names(operand)
    case Compare(left, ops, comparators) => Names(left) + NamesOfAll(comparators)
    case Other => {}
  }

  function NamesOfAll(es: seq<Expr>): set<string> {
    if es == [] then {} else Names(es[0]) + NamesOfAll(es[1..])
  }

  // Python's own words of an expression; the parser never takes them for names.
  const RESERVED: set<string> := {"and", "or", "not", "True", "False", "None"}

  /** The words of the text are the names of the expression, besides reserved ones. */
  predicate Spells(pieces: seq<Piece>, e: Expr) {
    Words(pieces) - RESERVED == Names(e)
  }

  /** Only nodes, operators and constants the interpreter can compare, whatever the names. */
  predicate KnownNodes(e: Expr) {
    WellFormed(e, Names(e))
  }

  /**
   Spelled plainly, known nodes are well formed exactly when their text passes the validator and an
   undeclared `true` or `false` is not used as a name.
   */
  lemma PassedIsWellFormed(pieces: seq<Piece>, e: Expr, declared: set<string>)
    requires Plain(pieces) && Spells(pieces, e) && KnownNodes(e)
    ensures WellFormed(e, declared) <==> Passes(TextOf(pieces), declared) && Names(e) * {"true", "false"} <= declared
  {
    ScanOfPlain(pieces);
    NamesDecide(e, Names(e), declared);
    assert KEYWORDS == RESERVED + {"true", "false"};
    var words := Words(pieces);
    assert words - KEYWORDS == Names(e) - {"true", "false"};
  }

  lemma {:induction false} NamesDecide(e: Expr, known: set<string>, declared: set<string>)
    requires WellFormed(e, known)
    decreases e
    ensures WellFormed(e, declared) <==> Names(e) <= declared
  {
    match e
    case And(values) => AllNamesDecide(values, known, declared);
    case Or(values) => AllNamesDecide(values, known, declared);
    case Not(operand) => NamesDecide(operand, known, declared);
    case Compare(left, ops, comparators) =>
      NamesDecide(left, known, declared);
      AllNamesDecide(comparators, known, declared);
    case _ =>
  }

  lemma {:induction false} AllNamesDecide(es: seq<Expr>, known: set<string>, declared: set<string>)
    requires forall k :: 0 <= k < |es| ==> WellFormed(es[k], known)
    decreases es
    ensures (forall k :: 0 <= k < |es| ==> WellFormed(es[k], declared)) <==> NamesOfAll(es) <= declared
  {
    if es != [] {
      NamesDecide(es[0], known, declared);
      AllNamesDecide(es[1..], known, declared);
      assert forall k :: 1 <= k < |es| ==> es[k] == es[1..][k - 1];
    }
  }

  // ------------------------------------------------------------------- where they differ

  /** A lower-case `true` passes the validator and then fails in every run without a metric of that name. */
  lemma LowerCaseTruePassesAndFails(metrics: Env)
    requires "true" !in metrics
    ensures Passes("true", metrics.Keys)
    ensures ComputeVerdict(Rules(When(Name("true")), Otherwise, Otherwise), metrics) == Failure(ValueError)
  {
    assert "true" + "" == "true";
    ScanOfWord("true", "");
  }

  function Below(id: string, n: real): Expr {
    Compare(Name(id), [Lt], [Constant(Num(n))])
  }

  /** A name without an ASCII letter is not seen: `\u{e9} < 3` passes with no such metric and fails in every run. */
  lemma UnseenNamePassesAndFails(id: string, numeral: string, n: real, metrics: Env)
    requires NoWordIn(id) && NoWordIn(numeral) && id !in metrics
    ensures Passes(id + " < " + numeral, metrics.Keys)
    ensures ComputeVerdict(Rules(When(Below(id, n)), Otherwise, Otherwise), metrics) == Failure(ValueError)
  {
    var text := id + " < " + numeral;
    assert text == text + "" && NoWordIn(text);
    ScanOfRest(text, "");
    assert Interp(Name(id), metrics) == Failure(ValueError);
  }

  /** An exponent is taken for a name: `cov < 1e3` is well formed and is rejected, for want of a metric `e3`. */
  lemma ExponentIsRejected(id: string, digits: string, exponent: string, n: real, declared: set<string>)
    requires IsAsciiName(id) && id in declared && NoWordIn(digits)
    requires IsAsciiName(exponent) && exponent !in declared + KEYWORDS
    ensures WellFormed(Below(id, n), declared)
    ensures !Passes(id + (" < " + digits + exponent), declared)
  {
    ScanOfWord(exponent, "");
    assert exponent + "" == exponent;
    ScanOfRest(" < " + digits, exponent);
    ScanOfWord(id, " < " + digits + exponent);
  }

  /** Text compared with a number passes and then fails. */
  lemma TextComparedWithNumberFails(id: string, numeral: string, n: real, metrics: Env)
    requires IsAsciiName(id) && id in metrics && metrics[id].Text? && NoWordIn(numeral)
    ensures Passes(id + " < " + numeral, metrics.Keys)
    ensures ComputeVerdict(Rules(When(Below(id, n)), Otherwise, Otherwise), metrics) == Failure(TypeError)
  {
    var rest := " < " + numeral;
    assert id + " < " + numeral == id + rest && rest == rest + "" && NoWordIn(rest);
    ScanOfWord(id, rest);
    ScanOfRest(rest, "");
    var right := Constant(Num(n));
    assert Interp(right, metrics) == Success(Num(n));
    assert InterpChain(metrics[id], [Lt], [right], metrics) == Failure(TypeError);
    assert Interp(Name(id), metrics) == Success(metrics[id]);
    assert Interp(Below(id, n), metrics) == Failure(TypeError);
  }
}
