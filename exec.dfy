/** What executing a statement does, as functions on the interpreter's whole
    state: the symbol table and the three output streams (runtime output,
    tree diagrams, faults). These are the specifications the executor class
    is proved against, and the lemmas below state what executing a tree
    means: one cell per declaration or assignment, one branch per `if`,
    statements in source order, diagrams that never influence results. */
module Exec {
  import opened Format
  import opened Ast
  import opened Evaluator
  import opened Printer
  import opened Builder

  const DeclNotVariable := "Declaration left side is not a variable"
  const AssignNotVariable := "Assignment left side is not a variable"
  const IfMalformed := "If branches malformed"
  const UnknownStatement := "Unknown statement kind in execute_stmt"

  /** The symbol table and the lines written so far to each stream. */
  datatype State = State(sym: seq<int>, out: seq<string>, tree: seq<string>, err: seq<string>)

  /** The line `yyerror` writes for a fault reported while the scanner is at `line`. */
  function ErrorLine(line: int, msg: string): string {
    "Error: " + msg + " at line " + IntToString(line)
  }

  /** The fault lines for a run of messages, in order. */
  function Report(line: int, msgs: seq<string>): (lines: seq<string>)
    ensures |lines| == |msgs|
    ensures forall i :: 0 <= i < |msgs| ==> lines[i] == ErrorLine(line, msgs[i])
  {
    seq(|msgs|, i requires 0 <= i < |msgs| => ErrorLine(line, msgs[i]))
  }

  function StoreLine(verb: string, id: int, v: int): string {
    verb + " var[" + IntToString(id) + "] = " + IntToString(v)
  }

  function PrintLine(v: int): string {
    "Print: " + IntToString(v)
  }

  /** What the executor needs of a tree to stay inside defined behaviour:
      every declaration and assignment in the tree, including those in a
      list an `if` does not take, has a target node, and a variable target
      names a cell of the table (the executor checks neither). Demanding it
      of untaken lists too is stronger than the C code needs. */
  predicate Executable(n: Node)
    decreases n
  {
    n.Null? ||
    match n.kind
    case DeclKind => n.left.Node? && (n.left.kind == VarKind ==> 0 <= n.left.varId < Capacity)
    case AssignKind => n.left.Node? && (n.left.kind == VarKind ==> 0 <= n.left.varId < Capacity)
    case IfKind =>
      n.right.Node? && n.right.kind == BranchesKind ==> Executable(n.right.left) && Executable(n.right.right)
    case StmtListKind => Executable(n.left) && Executable(n.right)
    case _ => true
  }

  /** A declaration or assignment, once its diagram is drawn: evaluate the
      right-hand side, then store it if the target is a variable. */
  function Store(n: Node, s: State, line: int, verb: string, fault: string): State
    requires |s.sym| == Capacity && n.Node? && n.left.Node?
    requires n.left.kind == VarKind ==> 0 <= n.left.varId < Capacity
  {
    var v := Eval(n.right, s.sym);
    var s1 := s.(err := s.err + Report(line, v.errors));
    if n.left.kind == VarKind then
      s1.(sym := s1.sym[n.left.varId := v.value],
          out := s1.out + [StoreLine(verb, n.left.varId, v.value)])
    else
      s1.(err := s1.err + [ErrorLine(line, fault)])
  }

  /** `execute_stmt`: NULL does nothing; anything else first draws its
      diagram, then runs according to its kind. */
  function ExecStmt(n: Node, s: State, line: int): (r: State)
    requires |s.sym| == Capacity && Executable(n)
    ensures |r.sym| == Capacity
    decreases n, if n.Node? && n.kind == StmtListKind then 1 else 0
  {
    if n.Null? then s
    else
      var s1 := s.(tree := s.tree + Header(n));
      match n.kind
      case DeclKind => Store(n, s1, line, "Declared", DeclNotVariable)
      case AssignKind => Store(n, s1, line, "Assigned", AssignNotVariable)
      case PrintKind =>
        var v := Eval(n.left, s1.sym);
        s1.(out := s1.out + [PrintLine(v.value)], err := s1.err + Report(line, v.errors))
      case IfKind =>
        var c := Eval(n.left, s1.sym);
        var s2 := s1.(err := s1.err + Report(line, c.errors));
        if n.right.Node? && n.right.kind == BranchesKind then
          ExecList(if c.value != 0 then n.right.left else n.right.right, s2, line)
        else
          s2.(err := s2.err + [ErrorLine(line, IfMalformed)])
      case StmtListKind => ExecList(n, s1, line)
      case _ => s1.(err := s1.err + [ErrorLine(line, UnknownStatement)])
  }

  /** `execute_list`: a chain runs its earlier part, then its last
      statement; anything else is run as a single statement. */
  function ExecList(n: Node, s: State, line: int): (r: State)
    requires |s.sym| == Capacity && Executable(n)
    ensures |r.sym| == Capacity
    decreases n, if n.Node? && n.kind == StmtListKind then 0 else 2
  {
    if n.Null? then s
    else if n.kind == StmtListKind then ExecStmt(n.right, ExecList(n.left, s, line), line)
    else ExecStmt(n, s, line)
  }

  // ---- reference semantics: a run of statements, first to last ----

  predicate AllExecutable(stmts: seq<Node>) {
    forall i :: 0 <= i < |stmts| ==> Executable(stmts[i])
  }

  function ExecSeq(stmts: seq<Node>, s: State, line: int): (r: State)
    requires |s.sym| == Capacity && AllExecutable(stmts)
    ensures |r.sym| == Capacity
    decreases |stmts|
  {
    if stmts == [] then s else ExecSeq(stmts[1..], ExecStmt(stmts[0], s, line), line)
  }

  lemma {:induction false} ExecSeqSnoc(stmts: seq<Node>, x: Node, s: State, line: int)
    requires |s.sym| == Capacity && AllExecutable(stmts) && Executable(x)
    ensures AllExecutable(stmts + [x])
    ensures ExecSeq(stmts + [x], s, line) == ExecStmt(x, ExecSeq(stmts, s, line), line)
    decreases |stmts|
  {
    if stmts != [] {
      assert (stmts + [x])[1..] == stmts[1..] + [x];
      ExecSeqSnoc(stmts[1..], x, ExecStmt(stmts[0], s, line), line);
    }
  }

  lemma {:induction false} FlattenExecutable(n: Node)
    requires Executable(n)
    ensures AllExecutable(Flatten(n))
    decreases n
  {
    if n.Node? && n.kind == StmtListKind {
      FlattenExecutable(n.left);
    }
  }

  /** A statement chain runs exactly as its statements would one after the
      other in source order: everything before a statement has finished
      before it starts. */
  lemma {:induction false} ExecListIsSequential(n: Node, s: State, line: int)
    requires |s.sym| == Capacity && Executable(n)
    ensures AllExecutable(Flatten(n))
    ensures ExecList(n, s, line) == ExecSeq(Flatten(n), s, line)
    decreases n
  {
    FlattenExecutable(n);
    if n.Node? {
      if n.kind == StmtListKind {
        ExecListIsSequential(n.left, s, line);
        FlattenExecutable(n.left);
        ExecSeqSnoc(Flatten(n.left), n.right, s, line);
      } else {
        assert Flatten(n) == [n];
        assert ExecSeq([n], s, line) == ExecSeq([], ExecStmt(n, s, line), line);
      }
    }
  }

  // ---- the streams only grow ----

  lemma {:induction false} ExecStmtAppends(n: Node, s: State, line: int)
    requires |s.sym| == Capacity && Executable(n)
    ensures var r := ExecStmt(n, s, line);
      s.out <= r.out && s.tree <= r.tree && s.err <= r.err
    decreases n, if n.Node? && n.kind == StmtListKind then 1 else 0
  {
    if n.Node? {
      var s1 := s.(tree := s.tree + Header(n));
      if n.kind == IfKind {
        var c := Eval(n.left, s1.sym);
        var s2 := s1.(err := s1.err + Report(line, c.errors));
        if n.right.Node? && n.right.kind == BranchesKind {
          ExecListAppends(if c.value != 0 then n.right.left else n.right.right, s2, line);
        }
      } else if n.kind == StmtListKind {
        ExecListAppends(n, s1, line);
      }
    }
  }

  /** Execution only ever appends to the three streams. */
  lemma {:induction false} ExecListAppends(n: Node, s: State, line: int)
    requires |s.sym| == Capacity && Executable(n)
    ensures var r := ExecList(n, s, line);
      s.out <= r.out && s.tree <= r.tree && s.err <= r.err
    decreases n, if n.Node? && n.kind == StmtListKind then 0 else 2
  {
    if n.Node? {
      if n.kind == StmtListKind {
        ExecListAppends(n.left, s, line);
        ExecStmtAppends(n.right, ExecList(n.left, s, line), line);
      } else {
        ExecStmtAppends(n, s, line);
      }
    }
  }

  // ---- the diagrams never influence results ----

  lemma {:induction false} ExecStmtIgnoresTree(n: Node, s: State, t: seq<string>, line: int)
    requires |s.sym| == Capacity && Executable(n)
    ensures var a, b := ExecStmt(n, s, line), ExecStmt(n, s.(tree := t), line);
      a.sym == b.sym && a.out == b.out && a.err == b.err
    decreases n, if n.Node? && n.kind == StmtListKind then 1 else 0
  {
    if n.Node? {
      var s1 := s.(tree := s.tree + Header(n));
      var t1 := s1.(tree := t + Header(n));
      if n.kind == IfKind {
        var c := Eval(n.left, s1.sym);
        var s2 := s1.(err := s1.err + Report(line, c.errors));
        if n.right.Node? && n.right.kind == BranchesKind {
          ExecListIgnoresTree(if c.value != 0 then n.right.left else n.right.right, s2, t + Header(n), line);
        }
      } else if n.kind == StmtListKind {
        ExecListIgnoresTree(n, s1, t + Header(n), line);
      }
    }
  }

  /** The tree stream is diagnostic only: whatever it already holds, the
      symbol table, the runtime output and the faults come out the same. */
  lemma {:induction false} ExecListIgnoresTree(n: Node, s: State, t: seq<string>, line: int)
    requires |s.sym| == Capacity && Executable(n)
    ensures var a, b := ExecList(n, s, line), ExecList(n, s.(tree := t), line);
      a.sym == b.sym && a.out == b.out && a.err == b.err
    decreases n, if n.Node? && n.kind == StmtListKind then 0 else 2
  {
    if n.Node? {
      if n.kind == StmtListKind {
        var a, b := ExecList(n.left, s, line), ExecList(n.left, s.(tree := t), line);
        ExecListIgnoresTree(n.left, s, t, line);
        assert b == a.(tree := b.tree);
        ExecStmtIgnoresTree(n.right, a, b.tree, line);
      } else {
        ExecStmtIgnoresTree(n, s, t, line);
      }
    }
  }

  // ---- only the targets of declarations and assignments change ----

  /** The cells a tree's declarations and assignments name. */
  function Targets(n: Node): set<int>
    decreases n
  {
    if n.Null? then {}
    else
      (if (n.kind == DeclKind || n.kind == AssignKind) && n.left.Node? && n.left.kind == VarKind
       then {n.left.varId} else {})
      + Targets(n.left) + Targets(n.right)
  }

  lemma {:induction false} ExecStmtFrame(n: Node, s: State, line: int)
    requires |s.sym| == Capacity && Executable(n)
    ensures forall i :: 0 <= i < Capacity && i !in Targets(n) ==> ExecStmt(n, s, line).sym[i] == s.sym[i]
    decreases n, if n.Node? && n.kind == StmtListKind then 1 else 0
  {
    if n.Node? {
      var s1 := s.(tree := s.tree + Header(n));
      if n.kind == IfKind {
        var c := Eval(n.left, s1.sym);
        var s2 := s1.(err := s1.err + Report(line, c.errors));
        if n.right.Node? && n.right.kind == BranchesKind {
          ExecListFrame(if c.value != 0 then n.right.left else n.right.right, s2, line);
        }
      } else if n.kind == StmtListKind {
        ExecListFrame(n, s1, line);
      }
    }
  }

  /** Running a tree changes no cell of the symbol table except those its
      declarations and assignments name. */
  lemma {:induction false} ExecListFrame(n: Node, s: State, line: int)
    requires |s.sym| == Capacity && Executable(n)
    ensures forall i :: 0 <= i < Capacity && i !in Targets(n) ==> ExecList(n, s, line).sym[i] == s.sym[i]
    decreases n, if n.Node? && n.kind == StmtListKind then 0 else 2
  {
    if n.Node? {
      if n.kind == StmtListKind {
        ExecListFrame(n.left, s, line);
        ExecStmtFrame(n.right, ExecList(n.left, s, line), line);
      } else {
        ExecStmtFrame(n, s, line);
      }
    }
  }

  // ---- one statement at a time ----

  /** Declaration and assignment: with a variable target exactly that cell
      takes the value and one line is written; otherwise the table and the
      runtime output are untouched and a fault follows the evaluation's own. */
  lemma StoreSemantics(n: Node, s: State, line: int)
    requires |s.sym| == Capacity && Executable(n)
    requires n.Node? && (n.kind == DeclKind || n.kind == AssignKind)
    ensures var r, v := ExecStmt(n, s, line), Eval(n.right, s.sym);
      var verb := if n.kind == DeclKind then "Declared" else "Assigned";
      var fault := if n.kind == DeclKind then DeclNotVariable else AssignNotVariable;
      r.tree == s.tree + Header(n) &&
      if n.left.kind == VarKind then
        var id := n.left.varId;
        r.sym == s.sym[id := v.value] &&
        (forall i :: 0 <= i < Capacity && i != id ==> r.sym[i] == s.sym[i]) &&
        r.out == s.out + [StoreLine(verb, id, v.value)] &&
        r.err == s.err + Report(line, v.errors)
      else
        r.sym == s.sym && r.out == s.out &&
        r.err == s.err + Report(line, v.errors) + [ErrorLine(line, fault)]
  {
  }

  /** A declared variable reads back as the declared value. */
  lemma DeclareThenRead(id: int, e: Node, s: State, line: int)
    requires |s.sym| == Capacity && 0 <= id < Capacity && Executable(e)
    ensures Executable(Declaration(id, e))
    ensures Eval(VariableExpr(id), ExecStmt(Declaration(id, e), s, line).sym).value == Eval(e, s.sym).value
  {
    StoreSemantics(Declaration(id, e), s, line);
  }

  /** Print writes exactly one line, with the value, and stores nothing. */
  lemma PrintSemantics(n: Node, s: State, line: int)
    requires |s.sym| == Capacity && n.Node? && n.kind == PrintKind && Executable(n)
    ensures var r, v := ExecStmt(n, s, line), Eval(n.left, s.sym);
      r.sym == s.sym && r.out == s.out + [PrintLine(v.value)] &&
      r.err == s.err + Report(line, v.errors) && r.tree == s.tree + Header(n)
  {
  }

  /** An `if` runs exactly one of its lists, the then-list when the
      condition is nonzero and the else-list otherwise; an absent list runs
      nothing, so the table and the runtime output stay as they were. A
      malformed `if` runs neither and reports a fault. */
  lemma IfRunsOneBranch(n: Node, s: State, line: int)
    requires |s.sym| == Capacity && n.Node? && n.kind == IfKind && Executable(n)
    ensures var r, c := ExecStmt(n, s, line), Eval(n.left, s.sym);
      var s2 := s.(tree := s.tree + Header(n), err := s.err + Report(line, c.errors));
      if n.right.Node? && n.right.kind == BranchesKind then
        r == ExecList(if c.value != 0 then n.right.left else n.right.right, s2, line) &&
        (c.value != 0 && n.right.left.Null? ==> r.sym == s.sym && r.out == s.out) &&
        (c.value == 0 && n.right.right.Null? ==> r.sym == s.sym && r.out == s.out)
      else
        r == s2.(err := s2.err + [ErrorLine(line, IfMalformed)])
  {
  }

  /** The list an `if` does not take has no effect on the table, the
      runtime output or the faults, whatever it holds (it only appears in
      the diagram): the else-list under a nonzero condition, the then-list
      under a zero one. */
  lemma UntakenBranchIsInert(cond: Node, then1: Node, then2: Node, else1: Node, else2: Node, s: State, line: int)
    requires |s.sym| == Capacity
    requires Executable(then1) && Executable(then2) && Executable(else1) && Executable(else2)
    requires Eval(cond, s.sym).value != 0 ==> then1 == then2
    requires Eval(cond, s.sym).value == 0 ==> else1 == else2
    ensures Executable(IfElseStatement(cond, then1, else1)) && Executable(IfElseStatement(cond, then2, else2))
    ensures var a, b := ExecStmt(IfElseStatement(cond, then1, else1), s, line),
                        ExecStmt(IfElseStatement(cond, then2, else2), s, line);
      a.sym == b.sym && a.out == b.out && a.err == b.err
  {
    var n1, n2 := IfElseStatement(cond, then1, else1), IfElseStatement(cond, then2, else2);
    var c := Eval(cond, s.sym);
    var s2 := s.(tree := s.tree + Header(n1), err := s.err + Report(line, c.errors));
    if c.value != 0 {
      ExecListIgnoresTree(then1, s2, s.tree + Header(n2), line);
    } else {
      ExecListIgnoresTree(else1, s2, s.tree + Header(n2), line);
    }
  }

  // ---- output order ----

  /** A statement that writes exactly one runtime line and contains no other statement. */
  predicate Simple(x: Node) {
    x.Node? &&
    (x.kind == PrintKind ||
     ((x.kind == DeclKind || x.kind == AssignKind) && x.left.Node? && x.left.kind == VarKind &&
      0 <= x.left.varId < Capacity))
  }

  predicate AllSimple(stmts: seq<Node>) {
    forall i :: 0 <= i < |stmts| ==> Simple(stmts[i])
  }

  /** The runtime line a simple statement writes in symbol table `sym`. */
  function LineOf(x: Node, sym: seq<int>): string
    requires Simple(x) && |sym| == Capacity
  {
    if x.kind == PrintKind then PrintLine(Eval(x.left, sym).value)
    else StoreLine(if x.kind == DeclKind then "Declared" else "Assigned", x.left.varId, Eval(x.right, sym).value)
  }

  /** The table after a simple statement: a print leaves it alone, a store sets one cell. */
  function SymAfter(x: Node, sym: seq<int>): (r: seq<int>)
    requires Simple(x) && |sym| == Capacity
    ensures |r| == Capacity
  {
    if x.kind == PrintKind then sym else sym[x.left.varId := Eval(x.right, sym).value]
  }

  /** A straight-line program as a reference: each statement, first to last,
      writes its line in the table its predecessors left. */
  function Lines(stmts: seq<Node>, sym: seq<int>): (lines: seq<string>)
    requires AllSimple(stmts) && |sym| == Capacity
    ensures |lines| == |stmts|
    decreases |stmts|
  {
    if stmts == [] then [] else [LineOf(stmts[0], sym)] + Lines(stmts[1..], SymAfter(stmts[0], sym))
  }

  /** The table a straight-line program leaves. */
  function FinalSym(stmts: seq<Node>, sym: seq<int>): (r: seq<int>)
    requires AllSimple(stmts) && |sym| == Capacity
    ensures |r| == Capacity
    decreases |stmts|
  {
    if stmts == [] then sym else FinalSym(stmts[1..], SymAfter(stmts[0], sym))
  }

  lemma AppendThenConcat(before: seq<string>, l: string, mid: seq<string>, rest: seq<string>, after: seq<string>)
    requires mid == before + [l] && after == mid + rest
    ensures after == before + ([l] + rest)
  {
  }

  lemma SimpleTail(stmts: seq<Node>)
    requires AllSimple(stmts) && stmts != []
    ensures AllSimple(stmts[1..])
  {
    forall i | 0 <= i < |stmts| - 1 ensures Simple(stmts[1..][i]) {
      assert stmts[1..][i] == stmts[i + 1];
    }
  }

  lemma ExecSeqCons(stmts: seq<Node>, s: State, line: int)
    requires |s.sym| == Capacity && AllExecutable(stmts) && stmts != []
    ensures AllExecutable(stmts[1..])
    ensures ExecSeq(stmts, s, line) == ExecSeq(stmts[1..], ExecStmt(stmts[0], s, line), line)
  {
  }

  lemma SimpleAreExecutable(stmts: seq<Node>)
    requires AllSimple(stmts)
    ensures AllExecutable(stmts)
  {
  }

  /** A simple statement writes its one line and changes the table as `SymAfter` says. */
  lemma SimpleStep(x: Node, s: State, line: int)
    requires |s.sym| == Capacity && Simple(x)
    ensures Executable(x)
    ensures ExecStmt(x, s, line).out == s.out + [LineOf(x, s.sym)]
    ensures ExecStmt(x, s, line).sym == SymAfter(x, s.sym)
    ensures ExecStmt(x, s, line).tree == s.tree + Header(x)
  {
    if x.kind == PrintKind {
      PrintSemantics(x, s, line);
    } else {
      StoreSemantics(x, s, line);
    }
  }

  /** Without conditionals the executor's runtime output is the
      reference's lines, in source order. */
  lemma {:induction false} ExecSeqWritesLines(stmts: seq<Node>, s: State, line: int)
    requires |s.sym| == Capacity && AllSimple(stmts)
    ensures AllExecutable(stmts)
    ensures ExecSeq(stmts, s, line).out == s.out + Lines(stmts, s.sym)
    decreases |stmts|
  {
    SimpleAreExecutable(stmts);
    if stmts != [] {
      var s' := ExecStmt(stmts[0], s, line);
      SimpleStep(stmts[0], s, line);
      SimpleTail(stmts);
      ExecSeqWritesLines(stmts[1..], s', line);
      ExecSeqCons(stmts, s, line);
      AppendThenConcat(s.out, LineOf(stmts[0], s.sym), s'.out, Lines(stmts[1..], s'.sym),
                       ExecSeq(stmts, s, line).out);
    }
  }

  /** Without conditionals the executor leaves the table the reference leaves. */
  lemma {:induction false} ExecSeqLeavesFinalSym(stmts: seq<Node>, s: State, line: int)
    requires |s.sym| == Capacity && AllSimple(stmts)
    ensures AllExecutable(stmts)
    ensures ExecSeq(stmts, s, line).sym == FinalSym(stmts, s.sym)
    decreases |stmts|
  {
    SimpleAreExecutable(stmts);
    if stmts != [] {
      var s' := ExecStmt(stmts[0], s, line);
      SimpleStep(stmts[0], s, line);
      SimpleTail(stmts);
      ExecSeqLeavesFinalSym(stmts[1..], s', line);
      ExecSeqCons(stmts, s, line);
    }
  }

  /** The diagrams a run of statements draws: each statement's own, first to last. */
  function Headers(stmts: seq<Node>): seq<string>
    decreases |stmts|
  {
    if stmts == [] then [] else Header(stmts[0]) + Headers(stmts[1..])
  }

  lemma ConcatThenConcat(before: seq<string>, h: seq<string>, mid: seq<string>, rest: seq<string>, after: seq<string>)
    requires mid == before + h && after == mid + rest
    ensures after == before + (h + rest)
  {
  }

  /** Without conditionals every statement draws its own diagram, once,
      just before it runs, in source order. */
  lemma {:induction false} ExecSeqDrawsHeaders(stmts: seq<Node>, s: State, line: int)
    requires |s.sym| == Capacity && AllSimple(stmts)
    ensures AllExecutable(stmts)
    ensures ExecSeq(stmts, s, line).tree == s.tree + Headers(stmts)
    decreases |stmts|
  {
    SimpleAreExecutable(stmts);
    if stmts != [] {
      var s' := ExecStmt(stmts[0], s, line);
      SimpleStep(stmts[0], s, line);
      SimpleTail(stmts);
      ExecSeqDrawsHeaders(stmts[1..], s', line);
      ExecSeqCons(stmts, s, line);
      ConcatThenConcat(s.tree, Header(stmts[0]), s'.tree, Headers(stmts[1..]), ExecSeq(stmts, s, line).tree);
    }
  }

  /** In the reference, the k-th line is the one the k-th statement writes
      in the table the statements before it left. */
  lemma {:induction false} LinesInOrder(stmts: seq<Node>, sym: seq<int>, k: nat)
    requires AllSimple(stmts) && |sym| == Capacity && k < |stmts|
    ensures AllSimple(stmts[..k])
    ensures Lines(stmts, sym)[k] == LineOf(stmts[k], FinalSym(stmts[..k], sym))
    decreases k
  {
    if k > 0 {
      var rest := stmts[1..];
      SimpleTail(stmts);
      LinesInOrder(rest, SymAfter(stmts[0], sym), k - 1);
      assert rest[k - 1] == stmts[k];
      assert stmts[..k][1..] == rest[..k - 1];
      assert FinalSym(stmts[..k], sym) == FinalSym(rest[..k - 1], SymAfter(stmts[0], sym));
    } else {
      assert stmts[..0] == [];
    }
  }

  /** For a chain of simple statements the runtime output is one line per
      statement, in source order, as the reference writes them, and the
      diagram stream holds each statement's own diagram, in the same order. */
  lemma StraightLineOutputInOrder(n: Node, s: State, line: int)
    requires |s.sym| == Capacity && Executable(n) && AllSimple(Flatten(n))
    ensures ExecList(n, s, line).out == s.out + Lines(Flatten(n), s.sym)
    ensures ExecList(n, s, line).sym == FinalSym(Flatten(n), s.sym)
    ensures ExecList(n, s, line).tree == s.tree + Headers(Flatten(n))
  {
    ExecListIsSequential(n, s, line);
    ExecSeqWritesLines(Flatten(n), s, line);
    ExecSeqLeavesFinalSym(Flatten(n), s, line);
    ExecSeqDrawsHeaders(Flatten(n), s, line);
  }

  // ---- trees the grammar builds ----

  lemma {:induction false} BuiltStmtIsExecutable(n: Node)
    requires IsStmt(n)
    ensures Executable(n)
    decreases n
  {
    if n.kind == IfKind {
      BuiltStmtsAreExecutable(n.right.left);
      BuiltStmtsAreExecutable(n.right.right);
    }
  }

  /** Every tree the grammar builds stays inside the executor's defined behaviour. */
  lemma {:induction false} BuiltStmtsAreExecutable(n: Node)
    requires IsStmts(n)
    ensures Executable(n)
    decreases n
  {
    if n.Node? {
      BuiltStmtsAreExecutable(n.left);
      BuiltStmtIsExecutable(n.right);
    }
  }

  /** Fault lines that all say "Division by zero". */
  predicate OnlyZeroDivisorFaults(before: seq<string>, after: seq<string>, line: int) {
    before <= after &&
    forall k :: |before| <= k < |after| ==> after[k] == ErrorLine(line, DivisionByZero)
  }

  lemma ReportZeroDivisor(msgs: seq<string>, line: int, before: seq<string>)
    requires forall m :: m in msgs ==> m == DivisionByZero
    ensures OnlyZeroDivisorFaults(before, before + Report(line, msgs), line)
  {
    var after := before + Report(line, msgs);
    forall k | |before| <= k < |after| ensures after[k] == ErrorLine(line, DivisionByZero) {
      assert after[k] == ErrorLine(line, msgs[k - |before|]);
      assert msgs[k - |before|] in msgs;
    }
  }

  lemma {:induction false} BuiltStmtFaultsOnlyOnZeroDivisor(n: Node, s: State, line: int)
    requires |s.sym| == Capacity && IsStmt(n)
    ensures Executable(n)
    ensures OnlyZeroDivisorFaults(s.err, ExecStmt(n, s, line).err, line)
    decreases n
  {
    BuiltStmtIsExecutable(n);
    var s1 := s.(tree := s.tree + Header(n));
    match n.kind {
      case DeclKind =>
        StoreSemantics(n, s, line);
        BuiltExprFaultsOnlyOnZeroDivisor(n.right, s.sym);
        ReportZeroDivisor(Eval(n.right, s.sym).errors, line, s.err);
      case AssignKind =>
        StoreSemantics(n, s, line);
        BuiltExprFaultsOnlyOnZeroDivisor(n.right, s.sym);
        ReportZeroDivisor(Eval(n.right, s.sym).errors, line, s.err);
      case PrintKind =>
        PrintSemantics(n, s, line);
        BuiltExprFaultsOnlyOnZeroDivisor(n.left, s.sym);
        ReportZeroDivisor(Eval(n.left, s.sym).errors, line, s.err);
      case IfKind =>
        var c := Eval(n.left, s1.sym);
        var s2 := s1.(err := s1.err + Report(line, c.errors));
        BuiltExprFaultsOnlyOnZeroDivisor(n.left, s.sym);
        ReportZeroDivisor(c.errors, line, s.err);
        var branch := if c.value != 0 then n.right.left else n.right.right;
        BuiltStmtsFaultOnlyOnZeroDivisor(branch, s2, line);
        assert ExecStmt(n, s, line) == ExecList(branch, s2, line);
    }
  }

  /** A program the grammar builds never reports a malformed tree, an
      unknown operator or a misplaced node: the only fault it can raise at
      run time is a zero divisor. */
  lemma {:induction false} BuiltStmtsFaultOnlyOnZeroDivisor(n: Node, s: State, line: int)
    requires |s.sym| == Capacity && IsStmts(n)
    ensures Executable(n)
    ensures OnlyZeroDivisorFaults(s.err, ExecList(n, s, line).err, line)
    decreases n
  {
    BuiltStmtsAreExecutable(n);
    if n.Node? {
      var mid := ExecList(n.left, s, line);
      BuiltStmtsFaultOnlyOnZeroDivisor(n.left, s, line);
      BuiltStmtFaultsOnlyOnZeroDivisor(n.right, mid, line);
    }
  }
}
