/** Expression evaluation (`eval_expr`). Evaluation reads the symbol table
    and never writes it; the only effect it has is to report faults, so it is
    a function returning the value together with the fault messages it
    reports, in the order it reports them. Integers are unbounded here. */
module Evaluator {
  import opened Ast

  const DivisionByZero := "Division by zero"
  const UnknownOperator := "Unknown operator in eval_expr"
  const NotAnExpression := "eval_expr: expected expression node"

  /** The operator texts the evaluator recognises. */
  const Arithmetic: set<string> := {"+", "-", "*", "/"}
  const Comparisons: set<string> := {"==", "!=", "<=", ">=", "<", ">"}

  /** Every message evaluation can report. */
  const EvalFaults: set<string> := {DivisionByZero, UnknownOperator, NotAnExpression}

  datatype Outcome = Outcome(value: int, errors: seq<string>)

  function Abs(x: int): nat {
    if x < 0 then -x else x
  }

  /** C's `/` on `int`: the quotient truncated toward zero (Dafny's own `/`
      rounds toward negative infinity for a positive divisor). */
  function CDiv(a: int, b: int): int
    requires b != 0
  {
    var q := Abs(a) / Abs(b);
    if (a < 0) == (b < 0) then q else -q
  }

  /** The defining property of truncating division: the remainder left by
      the quotient has the sign of the dividend and is smaller in magnitude
      than the divisor, and the quotient never overshoots the dividend. */
  lemma CDivTruncates(a: int, b: int)
    requires b != 0
    ensures a - b * CDiv(a, b) == (if a < 0 then -(Abs(a) % Abs(b)) else Abs(a) % Abs(b))
    ensures Abs(a - b * CDiv(a, b)) < Abs(b)
    ensures Abs(b * CDiv(a, b)) <= Abs(a)
  {
    Truncation(a, b, Abs(a) / Abs(b), Abs(a) % Abs(b), CDiv(a, b));
  }

  /** The same facts for any quotient magnitude `q` and remainder `m` of the
      operands' magnitudes, when the quotient's sign follows the operands' signs. */
  lemma Truncation(a: int, b: int, q: int, m: int, c: int)
    requires b != 0 && 0 <= q && 0 <= m < Abs(b) && Abs(a) == Abs(b) * q + m
    requires c == (if (a < 0) == (b < 0) then q else -q)
    ensures a - b * c == (if a < 0 then -m else m)
    ensures Abs(a - b * c) < Abs(b)
    ensures Abs(b * c) <= Abs(a)
  {
    ProductSign(a, b, q, c);
  }

  /** The product of the divisor and a quotient of magnitude `q` whose sign
      follows the operands' signs has the sign of the dividend. */
  lemma ProductSign(a: int, b: int, q: int, c: int)
    requires b != 0 && 0 <= q
    requires c == (if (a < 0) == (b < 0) then q else -q)
    ensures 0 <= Abs(b) * q
    ensures b * c == (if a < 0 then -(Abs(b) * q) else Abs(b) * q)
  {
  }

  /** Where truncating and Dafny's division part: -7 / 2 is -3 in C. */
  lemma CDivDiffersFromEuclidean()
    ensures CDiv(-7, 2) == -3 && -7 / 2 == -4
  {
  }

  /** One operator applied to its two evaluated operands. */
  function ApplyOp(op: string, l: int, r: int): Outcome {
    if op == "+" then Outcome(l + r, [])
    else if op == "-" then Outcome(l - r, [])
    else if op == "*" then Outcome(l * r, [])
    else if op == "/" then
      (if r == 0 then Outcome(0, [DivisionByZero]) else Outcome(CDiv(l, r), []))
    else if op == "==" then Outcome(if l == r then 1 else 0, [])
    else if op == "!=" then Outcome(if l != r then 1 else 0, [])
    else if op == "<=" then Outcome(if l <= r then 1 else 0, [])
    else if op == ">=" then Outcome(if l >= r then 1 else 0, [])
    else if op == "<" then Outcome(if l < r then 1 else 0, [])
    else if op == ">" then Outcome(if l > r then 1 else 0, [])
    else Outcome(0, [UnknownOperator])
  }

  /** The value of an expression node in the symbol table `sym`. */
  function Eval(n: Node, sym: seq<int>): (r: Outcome)
    requires |sym| == Capacity
    ensures forall m :: m in r.errors ==> m in EvalFaults
    decreases n
  {
    match n
    case Null => Outcome(0, [])
    case Node(kind, name, left, right, intValue, varId) =>
      match kind
      case IntKind => Outcome(intValue, [])
      case VarKind => Outcome(if 0 <= varId < Capacity then sym[varId] else 0, [])
      case OpKind =>
        var l := Eval(left, sym);
        var r := Eval(right, sym);
        var a := ApplyOp(name, l.value, r.value);
        Outcome(a.value, l.errors + r.errors + a.errors)
      case _ => Outcome(0, [NotAnExpression])
  }

  /** Comparisons are total: each yields 0 or 1 with no fault, they are
      pairwise complementary, and exactly one of <, ==, > holds. */
  lemma ComparisonLaws(op: string, l: int, r: int)
    requires op in Comparisons
    ensures ApplyOp(op, l, r).errors == []
    ensures ApplyOp(op, l, r).value == 0 || ApplyOp(op, l, r).value == 1
    ensures ApplyOp("!=", l, r).value == 1 - ApplyOp("==", l, r).value
    ensures ApplyOp("<=", l, r).value == 1 - ApplyOp(">", l, r).value
    ensures ApplyOp(">=", l, r).value == 1 - ApplyOp("<", l, r).value
    ensures ApplyOp("<", l, r) == ApplyOp(">", r, l)
    ensures ApplyOp("<", l, r).value + ApplyOp("==", l, r).value + ApplyOp(">", l, r).value == 1
  {
  }

  /** A comparison yields 1 exactly when its relation holds. */
  lemma ComparisonMeaning(l: int, r: int)
    ensures ApplyOp("==", l, r).value == 1 <==> l == r
    ensures ApplyOp("!=", l, r).value == 1 <==> l != r
    ensures ApplyOp("<=", l, r).value == 1 <==> l <= r
    ensures ApplyOp(">=", l, r).value == 1 <==> l >= r
    ensures ApplyOp("<", l, r).value == 1 <==> l < r
    ensures ApplyOp(">", l, r).value == 1 <==> l > r
  {
  }

  /** Division faults exactly on a zero divisor and then yields 0; otherwise
      it yields the truncated quotient. */
  lemma DivisionSemantics(l: int, r: int)
    ensures ApplyOp("/", l, r).errors == [DivisionByZero] <==> r == 0
    ensures ApplyOp("/", l, r).errors == [] <==> r != 0
    ensures r == 0 ==> ApplyOp("/", l, r).value == 0
    ensures r != 0 ==> var q := ApplyOp("/", l, r).value;
      Abs(l - r * q) < Abs(r) && (l - r * q == 0 || (l - r * q < 0) == (l < 0))
  {
    if r != 0 {
      CDivTruncates(l, r);
    }
  }

  /** Operators the evaluator does not know are reported and yield 0; known
      ones never report anything but a zero divisor. */
  lemma OperatorFaults(op: string, l: int, r: int)
    ensures op !in Arithmetic + Comparisons ==> ApplyOp(op, l, r) == Outcome(0, [UnknownOperator])
    ensures op in Arithmetic + Comparisons ==> forall m :: m in ApplyOp(op, l, r).errors ==> m == DivisionByZero
    ensures op in {"+", "-", "*"} ==> ApplyOp(op, l, r).errors == []
  {
  }

  /** Leaves: NULL yields 0, a literal its value, a variable its cell when the
      id is inside the table and 0 otherwise, all without a fault; a node of
      a statement kind is reported and yields 0. */
  lemma EvalLeaves(n: Node, sym: seq<int>)
    requires |sym| == Capacity
    ensures n.Null? ==> Eval(n, sym) == Outcome(0, [])
    ensures n.Node? && n.kind == IntKind ==> Eval(n, sym) == Outcome(n.intValue, [])
    ensures n.Node? && n.kind == VarKind && 0 <= n.varId < Capacity ==> Eval(n, sym) == Outcome(sym[n.varId], [])
    ensures n.Node? && n.kind == VarKind && !(0 <= n.varId < Capacity) ==> Eval(n, sym) == Outcome(0, [])
    ensures n.Node? && n.kind !in {IntKind, VarKind, OpKind} ==> Eval(n, sym) == Outcome(0, [NotAnExpression])
  {
  }

  /** An operator node evaluates its left operand before its right one, so
      the left operand's faults are reported first, then the right's, then
      the operator's own. */
  lemma EvalOperandsInOrder(n: Node, sym: seq<int>)
    requires |sym| == Capacity && n.Node? && n.kind == OpKind
    ensures Eval(n, sym).errors ==
      Eval(n.left, sym).errors + Eval(n.right, sym).errors
      + ApplyOp(n.name, Eval(n.left, sym).value, Eval(n.right, sym).value).errors
    ensures Eval(n, sym).value == ApplyOp(n.name, Eval(n.left, sym).value, Eval(n.right, sym).value).value
  {
  }

  /** The variable ids an evaluation can read. */
  function Reads(n: Node): set<int>
    decreases n
  {
    if n.Null? then {}
    else if n.kind == VarKind then {n.varId}
    else if n.kind == OpKind then Reads(n.left) + Reads(n.right)
    else {}
  }

  /** Evaluation depends on no cell outside the variables it mentions. */
  lemma {:induction false} EvalReadsOnlyItsVariables(n: Node, s1: seq<int>, s2: seq<int>)
    requires |s1| == Capacity && |s2| == Capacity
    requires forall i :: 0 <= i < Capacity && i in Reads(n) ==> s1[i] == s2[i]
    ensures Eval(n, s1) == Eval(n, s2)
    decreases n
  {
    if n.Node? && n.kind == OpKind {
      EvalReadsOnlyItsVariables(n.left, s1, s2);
      EvalReadsOnlyItsVariables(n.right, s1, s2);
    }
  }
}
