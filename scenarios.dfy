/** Small programs built with the grammar actions and run from the initial
    state, with the exact lines they write. */
module Scenarios {
  import opened Format
  import opened Ast
  import opened Evaluator
  import opened Printer
  import opened Builder
  import opened Exec

  /** The state the program starts in: every cell 0, every stream empty. */
  function Initial(): (s: State)
    ensures |s.sym| == Capacity && s.out == [] && s.err == []
  {
    State(seq(Capacity, _ => 0), [], [], [])
  }

  /** `int a = 5; print(a);` with `a` scanned as id 1: the declaration's line
      comes first, then the print reads the declared value back. */
  lemma DeclareThenPrint(line: int)
    ensures var root := BuildStmts([Declaration(1, IntegerExpr(5)), PrintStatement(VariableExpr(1))]);
      IsStmts(root) && Executable(root) &&
      ExecList(root, Initial(), line).out == ["Declared var[1] = 5", "Print: 5"] &&
      ExecList(root, Initial(), line).err == []
  {
    var d, p := Declaration(1, IntegerExpr(5)), PrintStatement(VariableExpr(1));
    assert [d][..0] == [] && [d, p][..1] == [d];
    var first := BuildStmts([d]);
    assert first == AppendStmt(BuildStmts([]), d);
    assert BuildStmts([]) == Null;
    var root := BuildStmts([d, p]);
    assert root == AppendStmt(first, p);
    BuiltStmtsAreExecutable(root);
    var s1 := ExecStmt(d, Initial(), line);
    DeclareFive(line);
    PrintFive(s1, line);
    assert ExecList(first, Initial(), line) == s1;
    AppendThenConcat([], "Declared var[1] = 5", s1.out, ["Print: 5"], ExecList(root, Initial(), line).out);
  }

  lemma DeclareFive(line: int)
    ensures Executable(Declaration(1, IntegerExpr(5)))
    ensures var r := ExecStmt(Declaration(1, IntegerExpr(5)), Initial(), line);
      |r.sym| == Capacity && r.sym[1] == 5 && r.out == ["Declared var[1] = 5"] && r.err == []
  {
    var d := Declaration(1, IntegerExpr(5));
    StoreSemantics(d, Initial(), line);
    assert Eval(d.right, Initial().sym) == Outcome(5, []);
    assert StoreLine("Declared", 1, 5) == "Declared var[1] = 5" by {
      assert IntToString(1) == "1" && IntToString(5) == "5";
    }
  }

  lemma PrintFive(s: State, line: int)
    requires |s.sym| == Capacity && s.sym[1] == 5
    ensures Executable(PrintStatement(VariableExpr(1)))
    ensures var r := ExecStmt(PrintStatement(VariableExpr(1)), s, line);
      r.out == s.out + ["Print: 5"] && r.err == s.err
  {
    var p := PrintStatement(VariableExpr(1));
    PrintSemantics(p, s, line);
    assert Eval(p.left, s.sym) == Outcome(5, []);
    assert PrintLine(5) == "Print: 5" by {
      assert IntToString(5) == "5";
    }
  }

  /** `2 + 3 * 4`: the grammar's precedence puts the product under the sum, so it is 14. */
  lemma ProductBindsTighter(sym: seq<int>)
    requires |sym| == Capacity
    ensures Eval(PlusExpr(IntegerExpr(2), TimesExpr(IntegerExpr(3), IntegerExpr(4))), sym) == Outcome(14, [])
    ensures Eval(TimesExpr(PlusExpr(IntegerExpr(2), IntegerExpr(3)), IntegerExpr(4)), sym) == Outcome(20, [])
  {
  }

  /** `print(5 / 0);` reports the zero divisor and still prints, with 0. */
  lemma PrintOfZeroDivisor(line: int)
    ensures var root := BuildStmts([PrintStatement(DivideExpr(IntegerExpr(5), IntegerExpr(0)))]);
      Executable(root) &&
      ExecList(root, Initial(), line).out == ["Print: 0"] &&
      ExecList(root, Initial(), line).err == ["Error: Division by zero at line " + IntToString(line)]
  {
    var p := PrintStatement(DivideExpr(IntegerExpr(5), IntegerExpr(0)));
    assert [p][..0] == [];
    var root := BuildStmts([p]);
    assert root == AppendStmt(BuildStmts([]), p);
    assert BuildStmts([]) == Null;
    assert ExecList(root, Initial(), line) == ExecStmt(p, Initial(), line);
    PrintSemantics(p, Initial(), line);
    assert Eval(p.left, Initial().sym) == Outcome(0, [DivisionByZero]);
    assert PrintLine(0) == "Print: 0" by {
      assert IntToString(0) == "0";
    }
    assert Report(line, [DivisionByZero]) == [ErrorLine(line, DivisionByZero)];
    ZeroDivisorLine(line);
  }

  lemma ZeroDivisorLine(line: int)
    ensures ErrorLine(line, DivisionByZero) == "Error: Division by zero at line " + IntToString(line)
  {
    assert "Error: " + DivisionByZero + " at line " == "Error: Division by zero at line ";
  }

  /** `if (1 > 2): print(1); end`: no runtime line, no change to the table
      and no fault, although the diagram shows the whole `if`, untaken
      print included. */
  lemma FalseConditionWithoutElse(line: int)
    ensures var n := IfStatement(Condition(">", IntegerExpr(1), IntegerExpr(2)),
                                 BuildStmts([PrintStatement(IntegerExpr(1))]));
      Executable(n) &&
      ExecStmt(n, Initial(), line).out == [] &&
      ExecStmt(n, Initial(), line).sym == Initial().sym &&
      ExecStmt(n, Initial(), line).err == [] &&
      ExecStmt(n, Initial(), line).tree == Header(n)
  {
    var p := PrintStatement(IntegerExpr(1));
    var n := IfStatement(Condition(">", IntegerExpr(1), IntegerExpr(2)), BuildStmts([p]));
    assert [p][..0] == [];
    assert BuildStmts([p]) == AppendStmt(Null, p);
    IfRunsOneBranch(n, Initial(), line);
  }
}
