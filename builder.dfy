/** The tree builder: one function per grammar action, each turning the
    values of a rule's right-hand side into the node for its left-hand side,
    without evaluating anything. The actions `stmt: declaration`,
    `stmt: assignment`, `stmt: printStatement`, `stmt: IfStatement` and
    `block: stmts` pass their only child through unchanged and have no
    function of their own.

    The predicates `IsExpr`, `IsCond`, `IsStmt` and `IsStmts` describe the
    trees the grammar can produce; each action keeps them, so every tree the
    parser hands to the executor satisfies them. */
module Builder {
  import opened Ast
  import opened Evaluator

  // ---- the shapes the grammar produces ----

  predicate IsExpr(n: Node)
    decreases n
  {
    n.Node? &&
    (n.kind == IntKind || n.kind == VarKind ||
     (n.kind == OpKind && n.name in Arithmetic && IsExpr(n.left) && IsExpr(n.right)))
  }

  /** `expr OP expr`, where the scanner supplies OP as one of the comparisons. */
  predicate IsCond(n: Node) {
    n.Node? && n.kind == OpKind && n.name in Comparisons && IsExpr(n.left) && IsExpr(n.right)
  }

  predicate IsStmt(n: Node)
    decreases n
  {
    n.Node? &&
    match n.kind
    case DeclKind => IsTarget(n.left) && IsExpr(n.right)
    case AssignKind => IsTarget(n.left) && IsExpr(n.right)
    case PrintKind => IsExpr(n.left)
    case IfKind =>
      IsCond(n.left) && n.right.Node? && n.right.kind == BranchesKind &&
      IsStmts(n.right.left) && IsStmts(n.right.right)
    case _ => false
  }

  /** A left-leaning chain of statements, NULL when empty. */
  predicate IsStmts(n: Node)
    decreases n
  {
    n.Null? || (n.kind == StmtListKind && IsStmts(n.left) && IsStmt(n.right))
  }

  /** The target of a declaration or assignment: a variable the symbol table has a cell for. */
  predicate IsTarget(n: Node) {
    n.Node? && n.kind == VarKind && 0 <= n.varId < Capacity
  }

  /** The statements of a chain in source order: the chain's `left` spine
      holds the earlier statements, so they come first. */
  function Flatten(n: Node): (stmts: seq<Node>)
    decreases n
  {
    if n.Null? then []
    else if n.kind == StmtListKind then Flatten(n.left) + [n.right]
    else [n]
  }

  // ---- grammar actions ----

  /** `stmts: %empty` */
  function EmptyStmts(): (r: Node)
    ensures IsStmts(r) && Flatten(r) == []
  {
    Null
  }

  /** `stmts: stmts stmt` appends one statement to the chain; the first
      statement is wrapped as well, with no previous list. */
  function AppendStmt(prev: Node, stmt: Node): (r: Node)
    ensures r.Node? && r.kind == StmtListKind && r.left == prev && r.right == stmt
    ensures IsStmts(prev) && IsStmt(stmt) ==> IsStmts(r)
    ensures Flatten(r) == Flatten(prev) + [stmt]
  {
    if prev.Null? then NewStmtListNode(Null, stmt) else NewStmtListNode(prev, stmt)
  }

  /** `stmt: expr ';'` prints the value of the expression. */
  function ExprStatement(e: Node): (r: Node)
    ensures r.Node? && r.kind == PrintKind && r.left == e
    ensures IsExpr(e) ==> IsStmt(r)
  {
    NewPrintNode(e)
  }

  /** `declaration: INT VARIABLE '=' expr ';'` */
  function Declaration(id: int, e: Node): (r: Node)
    ensures r.Node? && r.kind == DeclKind && r.left.Node? && r.left.kind == VarKind
    ensures r.left.varId == id && r.right == e
    ensures 0 <= id < Capacity && IsExpr(e) ==> IsStmt(r)
  {
    NewDeclNode(NewVarNode(id), e)
  }

  /** `assignment: VARIABLE '=' expr ';'` */
  function Assignment(id: int, e: Node): (r: Node)
    ensures r.Node? && r.kind == AssignKind && r.left.Node? && r.left.kind == VarKind
    ensures r.left.varId == id && r.right == e
    ensures 0 <= id < Capacity && IsExpr(e) ==> IsStmt(r)
  {
    NewAssignNode(NewVarNode(id), e)
  }

  /** `printStatement: PRINT '(' expr ')' ';'` */
  function PrintStatement(e: Node): (r: Node)
    ensures r.Node? && r.kind == PrintKind && r.left == e
    ensures IsExpr(e) ==> IsStmt(r)
  {
    NewPrintNode(e)
  }

  /** `IfStatement: IF '(' condition ')' ':' block ELSE ':' block END` */
  function IfElseStatement(cond: Node, thenList: Node, elseList: Node): (r: Node)
    ensures r.Node? && r.kind == IfKind && r.left == cond
    ensures r.right.Node? && r.right.kind == BranchesKind
    ensures r.right.left == thenList && r.right.right == elseList
    ensures IsCond(cond) && IsStmts(thenList) && IsStmts(elseList) ==> IsStmt(r)
  {
    NewIfNode(cond, thenList, elseList)
  }

  /** `IfStatement: IF '(' condition ')' ':' block END`: the else-list is absent. */
  function IfStatement(cond: Node, thenList: Node): (r: Node)
    ensures r.Node? && r.kind == IfKind && r.left == cond
    ensures r.right.Node? && r.right.kind == BranchesKind
    ensures r.right.left == thenList && r.right.right == Null
    ensures IsCond(cond) && IsStmts(thenList) ==> IsStmt(r)
  {
    NewIfNode(cond, thenList, Null)
  }

  /** `condition: expr OP expr`: the comparison is built, not evaluated; in
      every symbol table it evaluates to 0 or 1, with no fault of its own. */
  function Condition(op: string, l: Node, r: Node): (c: Node)
    ensures c.Node? && c.kind == OpKind && c.name == op && c.left == l && c.right == r
    ensures op in Comparisons && IsExpr(l) && IsExpr(r) ==> IsCond(c)
    ensures op in Comparisons ==> forall sym: seq<int> | |sym| == Capacity ::
      var v := Eval(c, sym);
      (v.value == 0 || v.value == 1) && v.errors == Eval(l, sym).errors + Eval(r, sym).errors
  {
    NewOpNode(op, l, r)
  }

  /** `expr: INTEGER` evaluates to its value. */
  function IntegerExpr(v: int): (r: Node)
    ensures IsExpr(r)
    ensures forall sym: seq<int> | |sym| == Capacity :: Eval(r, sym) == Outcome(v, [])
  {
    NewIntNode(v)
  }

  /** `expr: VARIABLE` evaluates to the variable's cell. */
  function VariableExpr(id: int): (r: Node)
    ensures IsExpr(r) && r.kind == VarKind && r.varId == id
    ensures forall sym: seq<int> | |sym| == Capacity && 0 <= id < Capacity :: Eval(r, sym) == Outcome(sym[id], [])
  {
    NewVarNode(id)
  }

  /** `expr: expr '+' expr` evaluates to the sum of its operands. */
  function PlusExpr(l: Node, r: Node): (e: Node)
    ensures IsExpr(l) && IsExpr(r) ==> IsExpr(e)
    ensures forall sym: seq<int> | |sym| == Capacity ::
      Eval(e, sym) == Outcome(Eval(l, sym).value + Eval(r, sym).value, Eval(l, sym).errors + Eval(r, sym).errors)
  {
    NewOpNode("+", l, r)
  }

  /** `expr: expr '-' expr` evaluates to the difference of its operands. */
  function MinusExpr(l: Node, r: Node): (e: Node)
    ensures IsExpr(l) && IsExpr(r) ==> IsExpr(e)
    ensures forall sym: seq<int> | |sym| == Capacity ::
      Eval(e, sym) == Outcome(Eval(l, sym).value - Eval(r, sym).value, Eval(l, sym).errors + Eval(r, sym).errors)
  {
    NewOpNode("-", l, r)
  }

  /** `expr: expr '*' expr` evaluates to the product of its operands. */
  function TimesExpr(l: Node, r: Node): (e: Node)
    ensures IsExpr(l) && IsExpr(r) ==> IsExpr(e)
    ensures forall sym: seq<int> | |sym| == Capacity ::
      Eval(e, sym) == Outcome(Eval(l, sym).value * Eval(r, sym).value, Eval(l, sym).errors + Eval(r, sym).errors)
  {
    NewOpNode("*", l, r)
  }

  /** `expr: expr '/' expr` evaluates to the truncated quotient, or reports a
      zero divisor after the operands' own faults and yields 0. */
  function DivideExpr(l: Node, r: Node): (e: Node)
    ensures IsExpr(l) && IsExpr(r) ==> IsExpr(e)
    ensures forall sym: seq<int> | |sym| == Capacity ::
      var a, b := Eval(l, sym), Eval(r, sym);
      Eval(e, sym) ==
        if b.value == 0 then Outcome(0, a.errors + b.errors + [DivisionByZero])
        else Outcome(CDiv(a.value, b.value), a.errors + b.errors)
  {
    NewOpNode("/", l, r)
  }

  /** `expr: '(' expr ')'` adds no node: the parenthesised tree is returned as is. */
  function Parenthesized(e: Node): (r: Node)
    ensures r == e
  {
    e
  }

  /** The driver reduces `stmts: stmts stmt` once per statement, left to
      right, starting from `stmts: %empty`. */
  function BuildStmts(stmts: seq<Node>): Node
    decreases |stmts|
  {
    if stmts == [] then EmptyStmts()
    else AppendStmt(BuildStmts(stmts[..|stmts| - 1]), stmts[|stmts| - 1])
  }

  /** The chain built from a run of statements holds exactly those
      statements, in the order they were parsed. */
  lemma {:induction false} BuildStmtsInOrder(stmts: seq<Node>)
    ensures Flatten(BuildStmts(stmts)) == stmts
    decreases |stmts|
  {
    if stmts != [] {
      var init, last := stmts[..|stmts| - 1], stmts[|stmts| - 1];
      BuildStmtsInOrder(init);
      SplitLast(stmts);
      assert BuildStmts(stmts) == AppendStmt(BuildStmts(init), last);
    }
  }

  /** ... and it is a well-formed list when they are well-formed statements. */
  lemma {:induction false} BuildStmtsWellFormed(stmts: seq<Node>)
    requires forall i :: 0 <= i < |stmts| ==> IsStmt(stmts[i])
    ensures IsStmts(BuildStmts(stmts))
    decreases |stmts|
  {
    if stmts != [] {
      var init, last := stmts[..|stmts| - 1], stmts[|stmts| - 1];
      assert forall i :: 0 <= i < |init| ==> IsStmt(init[i]) by {
        forall i | 0 <= i < |init| ensures IsStmt(init[i]) {
          assert init[i] == stmts[i];
        }
      }
      BuildStmtsWellFormed(init);
      assert IsStmt(last);
      assert BuildStmts(stmts) == AppendStmt(BuildStmts(init), last);
    }
  }

  lemma SplitLast<T>(s: seq<T>)
    requires s != []
    ensures s[..|s| - 1] + [s[|s| - 1]] == s
  {
  }

  /** Expressions and conditions the grammar builds can fault only on a zero divisor. */
  lemma {:induction false} BuiltExprFaultsOnlyOnZeroDivisor(n: Node, sym: seq<int>)
    requires |sym| == Capacity && (IsExpr(n) || IsCond(n))
    ensures forall m :: m in Eval(n, sym).errors ==> m == DivisionByZero
    decreases n
  {
    if n.kind == OpKind {
      BuiltExprFaultsOnlyOnZeroDivisor(n.left, sym);
      BuiltExprFaultsOnlyOnZeroDivisor(n.right, sym);
      OperatorFaults(n.name, Eval(n.left, sym).value, Eval(n.right, sym).value);
    }
  }
}
