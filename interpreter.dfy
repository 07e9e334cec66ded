/** The executor as it runs: the global symbol table `sym[256]` and the
    three output streams (runtime output, tree diagrams, faults), updated in
    place by `execute_stmt`, `execute_list` and the tree printer. Every
    method is proved to leave exactly the state the functions of `Exec`
    describe, so the lemmas there carry over to the running interpreter.
    `line` is the scanner's line number when execution starts; nothing
    advances it while the tree runs. */
module Interpreter {
  import opened Format
  import opened Ast
  import opened Evaluator
  import opened Printer
  import opened Builder
  import opened Exec

  class Interpreter {
    const sym: array<int>
    var out: seq<string>
    var tree: seq<string>
    var err: seq<string>
    const line: int

    ghost predicate Valid()
      reads this
    {
      sym.Length == Capacity
    }

    /** The whole state, as the specification functions see it. */
    ghost function Snapshot(): State
      reads this, sym
    {
      State(sym[..], out, tree, err)
    }

    /** Program start: every cell of the table is 0 and the streams are empty. */
    constructor (line: int)
      ensures Valid() && fresh(sym) && this.line == line
      ensures Snapshot() == State(seq(Capacity, _ => 0), [], [], [])
    {
      sym := new int[Capacity](_ => 0);
      out, tree, err := [], [], [];
      this.line := line;
    }

    /** `yyerror`: one fault line. */
    method Error(msg: string)
      modifies this`err
      ensures err == old(err) + [ErrorLine(line, msg)]
    {
      err := err + [ErrorLine(line, msg)];
    }

    /** `printTreeVertical`: the right subtree, a blank line, the indented
        name, then the left subtree, each child one level (five blanks) deeper. */
    method PrintTreeVertical(root: Node, space: nat)
      modifies this`tree
      ensures tree == old(tree) + TreeLines(root, space)
      decreases root
    {
      if root.Null? {
        return;
      }
      var deeper := space + SpacingPerLevel;
      PrintTreeVertical(root.right, deeper);
      var indent := "";
      for i := SpacingPerLevel to deeper
        invariant indent == Spaces(i - SpacingPerLevel)
      {
        indent := indent + " ";
      }
      tree := tree + ["", indent + root.name];
      PrintTreeVertical(root.left, deeper);
    }

    /** `print_tree_header`: the diagram of one statement and its separator. */
    method PrintTreeHeader(n: Node)
      modifies this`tree
      ensures tree == old(tree) + Header(n)
    {
      if n.Null? {
        return;
      }
      PrintTreeVertical(n, 0);
      tree := tree + ["", Separator, ""];
    }

    /** The shared body of a declaration and an assignment. */
    method StoreInto(n: Node, verb: string, fault: string)
      requires Valid() && n.Node? && n.left.Node?
      requires n.left.kind == VarKind ==> 0 <= n.left.varId < Capacity
      modifies this`out, this`err, sym
      ensures Snapshot() == Store(n, old(Snapshot()), line, verb, fault)
    {
      var v := Eval(n.right, sym[..]);
      err := err + Report(line, v.errors);
      var varNode := n.left;
      if varNode.kind == VarKind {
        var id := varNode.varId;
        sym[id] := v.value;
        out := out + [StoreLine(verb, id, v.value)];
      } else {
        Error(fault);
      }
    }

    /** `execute_stmt` */
    method ExecuteStmt(n: Node)
      requires Valid() && Executable(n)
      modifies this, sym
      ensures Snapshot() == ExecStmt(n, old(Snapshot()), line)
      decreases n, if n.Node? && n.kind == StmtListKind then 1 else 0
    {
      if n.Null? {
        return;
      }
      PrintTreeHeader(n);
      match n.kind {
        case DeclKind =>
          StoreInto(n, "Declared", DeclNotVariable);
        case AssignKind =>
          StoreInto(n, "Assigned", AssignNotVariable);
        case PrintKind =>
          var v := Eval(n.left, sym[..]);
          err := err + Report(line, v.errors);
          out := out + [PrintLine(v.value)];
        case IfKind =>
          var c := Eval(n.left, sym[..]);
          err := err + Report(line, c.errors);
          var branches := n.right;
          if branches.Node? && branches.kind == BranchesKind {
            if c.value != 0 {
              ExecuteList(branches.left);
            } else {
              ExecuteList(branches.right);
            }
          } else {
            Error(IfMalformed);
          }
        case StmtListKind =>
          ExecuteList(n);
        case _ =>
          Error(UnknownStatement);
      }
    }

    /** `execute_list` */
    method ExecuteList(n: Node)
      requires Valid() && Executable(n)
      modifies this, sym
      ensures Snapshot() == ExecList(n, old(Snapshot()), line)
      decreases n, if n.Node? && n.kind == StmtListKind then 0 else 2
    {
      if n.Null? {
        return;
      }
      if n.kind == StmtListKind {
        ExecuteList(n.left);
        ExecuteStmt(n.right);
      } else {
        ExecuteStmt(n);
      }
    }

    /** `program: stmts`: once the whole tree is built, run it. A program
        the grammar built faults only on a zero divisor, and when it has no
        conditional its runtime output is the reference's lines, one per
        statement, in source order, each after its own diagram. */
    method Program(root: Node)
      requires Valid() && IsStmts(root)
      modifies this, sym
      ensures Executable(root)
      ensures Snapshot() == ExecList(root, old(Snapshot()), line)
      ensures OnlyZeroDivisorFaults(old(err), err, line)
      ensures AllSimple(Flatten(root)) ==> out == old(out) + Lines(Flatten(root), old(sym[..]))
      ensures AllSimple(Flatten(root)) ==> tree == old(tree) + Headers(Flatten(root))
    {
      BuiltStmtsFaultOnlyOnZeroDivisor(root, Snapshot(), line);
      if AllSimple(Flatten(root)) {
        StraightLineOutputInOrder(root, Snapshot(), line);
      }
      ExecuteList(root);
    }
  }
}
