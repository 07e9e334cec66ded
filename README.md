# A verified model of a tree-walking interpreter for a toy statement language

The program is a Bison parser (`parser.tab.c`, generated from `parser.y`) whose hand-written parts form a small interpreter:

- **Tree builder.** Each grammar action builds a syntax-tree node from nodes already built. Nothing is evaluated during parsing.
- **Executor.** Once the whole program is parsed, the top-level statement list is executed (`execute_list`).
  - Declarations and assignments store into a global table `int sym[256]`.
  - `print` and expression statements print a value.
  - `if` runs exactly one of its two lists.
- **Evaluator.** `eval_expr` evaluates expressions: `+ - * /` with C's truncating division, and comparisons that yield 0 or 1.
- **Tree printer.** Before each statement runs, its tree is drawn rotated a quarter turn into a diagnostic stream, followed by a separator.
- **Output streams.** Runtime results (`Declared var[i] = v`, `Assigned var[i] = v`, `Print: v`) go to an output stream. Faults go to an error stream as `Error: <message> at line <n>`.

The Dafny modules follow those pieces:

| file | module | contents |
|---|---|---|
| `format.dfy` | `Format` | `%d` formatting of integers, with its inverse, and runs of blanks |
| `ast.dfy` | `Ast` | the `Node` datatype (one uniform shape, as the C struct; `Null` is a NULL pointer) and the node constructors |
| `eval.dfy` | `Evaluator` | `eval_expr` as a pure function returning the value and the fault messages it reports, in order; C's truncating division `CDiv` |
| `printer.dfy` | `Printer` | the lines `printTreeVertical` and `print_tree_header` write, and their relation to an in-order traversal |
| `builder.dfy` | `Builder` | one function per grammar action; predicates describing the trees the grammar can build |
| `exec.dfy` | `Exec` | `execute_stmt`/`execute_list` as functions on the whole state (table plus three streams); lemmas on what execution does |
| `interpreter.dfy` | `Interpreter` | the executor as it runs. The class `Interpreter` holds `sym: array<int>` (256 cells, updated in place) and the `out`, `tree` and `err` line sequences. Each method is proved to leave exactly the state the `Exec` functions describe. |
| `scenarios.dfy` | `Scenarios` | small programs built with the grammar actions, with the exact lines they write |

Each stream is modelled as the sequence of its lines. A line is the text written up to a newline. `yylineno` is set by the scanner, which is not part of this model. By the time the tree is executed, parsing has finished and the line number no longer changes. It is therefore a parameter `line` of the executor, and every run-time fault reports that same line.

## Model

| member | source | states |
|---|---|---|
| Format.NatToString | parser.tab.c:276 | `%d` of a non-negative number is a run of digits, a single digit exactly below 10, with no leading zero |
| Format.IntToString | parser.tab.c:276 | `%d` is never empty and starts with `-` exactly for negative numbers |
| Format.ParseIntToString | parser.tab.c:276 | reading the printed decimal back gives the number: `%d` loses nothing |
| Format.IntToStringInjective | parser.tab.c:298 | two numbers print the same exactly when they are equal, so each output line determines its values |
| Ast.NewNodeKind | parser.tab.c:125-135 | the node has the given kind, name and children, and payloads 0 and -1 |
| Ast.NewIntNode | parser.tab.c:137-147 | a leaf of kind INT carrying the value, named `INTEGER(v)` |
| Ast.NewVarNode | parser.tab.c:149-159 | a leaf of kind VAR carrying the id, named `VAR(id=i)` |
| Ast.NewOpNode | parser.tab.c:161-164 | an OP node named by the operator text, with the operands as children |
| Ast.NewDeclNode | parser.tab.c:166-168 | a DECL node named `dec` with the target on the left and the expression on the right |
| Ast.NewAssignNode | parser.tab.c:170-172 | an ASSIGN node named `assign` with the target on the left and the expression on the right |
| Ast.NewPrintNode | parser.tab.c:174-176 | a PRINT node named `print` with the expression on the left and no right child |
| Ast.NewIfNode | parser.tab.c:178-181 | an IF node named `if` whose right child is always a BRANCHES node named `branches` holding the then- and else-lists |
| Ast.NewStmtListNode | parser.tab.c:183-185 | a STMTLIST node named `stmtlist` with the previous list on the left and the statement on the right |
| Evaluator.Eval | parser.tab.c:220-254 | every fault evaluation reports is one of its three messages |
| Evaluator.CDivTruncates | parser.tab.c:237 | `CDiv` truncates toward zero: the remainder has the dividend's sign and is smaller than the divisor; the product never overshoots the dividend |
| Evaluator.CDivDiffersFromEuclidean | parser.tab.c:237 | C's `-7 / 2` is -3, where Dafny's `/` gives -4 |
| Evaluator.ComparisonLaws | parser.tab.c:239-245 | each comparison yields 0 or 1 with no fault; `!=`, `<=`, `>=` complement `==`, `>`, `<`; exactly one of `<`, `==`, `>` holds |
| Evaluator.ComparisonMeaning | parser.tab.c:240-245 | each comparison yields 1 exactly when its relation holds |
| Evaluator.DivisionSemantics | parser.tab.c:235-238 | division faults exactly on a zero divisor and then yields 0; otherwise it yields the truncated quotient |
| Evaluator.OperatorFaults | parser.tab.c:231-248 | an unknown operator reports "Unknown operator in eval_expr" and yields 0; known ones report nothing but a zero divisor; `+ - *` report nothing |
| Evaluator.EvalLeaves | parser.tab.c:221-227 | NULL yields 0; a literal yields its value; a variable yields its cell inside the table and 0 outside it; a statement node reports "expected expression node" and yields 0 |
| Evaluator.EvalOperandsInOrder | parser.tab.c:228-249 | the left operand's faults come before the right's, and those before the operator's own; the value is the operator applied to both operand values |
| Evaluator.EvalReadsOnlyItsVariables | parser.tab.c:220-254 | evaluation depends on no table cell except the variables the expression mentions |
| Printer.TreeLines | parser.tab.c:197-210 | the diagram has exactly two lines per node |
| Printer.Header | parser.tab.c:213-217 | NULL draws nothing; otherwise the whole diagram of the statement, drawn from depth 0, comes first, followed by a blank line, the 50-dash separator and another blank line |
| Printer.TreeLinesAreReversedInOrder | parser.tab.c:197-210 | every node is drawn once, in reverse in-order (right subtree, node, left subtree): a blank line, then its name indented by five blanks per level of depth |
| Builder.EmptyStmts | parser.tab.c:1392-1396 | an empty statement list is NULL, a well-formed list holding no statement |
| Builder.AppendStmt | parser.tab.c:1398-1410 | `stmts stmt` builds `stmtlist(prev, stmt)` in both branches; the list's statements are the previous ones followed by the new one; well-formedness is kept |
| Builder.ExprStatement | parser.tab.c:1436-1443 | `expr ;` becomes a PRINT of the expression |
| Builder.Declaration | parser.tab.c:1445-1454 | a DECL of a VAR node with the scanned id; a well-formed statement when the id is inside the table |
| Builder.Assignment | parser.tab.c:1456-1464 | an ASSIGN of a VAR node with the scanned id; a well-formed statement when the id is inside the table |
| Builder.PrintStatement | parser.tab.c:1466-1473 | `print ( expr ) ;` becomes a PRINT of the expression |
| Builder.IfElseStatement | parser.tab.c:1475-1482 | an IF whose BRANCHES child holds both blocks |
| Builder.IfStatement | parser.tab.c:1484-1491 | an IF whose BRANCHES child holds the block and NULL as the else-list |
| Builder.Condition | parser.tab.c:1501-1510 | the comparison is built, not evaluated; in every table it evaluates to 0 or 1 with no fault of its own |
| Builder.IntegerExpr | parser.tab.c:1512-1518 | evaluates to the literal, with no fault, in every table |
| Builder.VariableExpr | parser.tab.c:1520-1526 | evaluates to the variable's cell, with no fault, in every table |
| Builder.PlusExpr | parser.tab.c:1528-1534 | evaluates to the sum of the operands, with the operands' faults in order |
| Builder.MinusExpr | parser.tab.c:1536-1542 | evaluates to the difference of the operands, with the operands' faults in order |
| Builder.TimesExpr | parser.tab.c:1544-1550 | evaluates to the product of the operands, with the operands' faults in order |
| Builder.DivideExpr | parser.tab.c:1552-1558 | evaluates to the truncated quotient; on a zero divisor, to 0 with "Division by zero" after the operands' faults |
| Builder.Parenthesized | parser.tab.c:1560-1566 | parentheses add no node: the inner tree itself is returned |
| Builder.BuildStmtsInOrder | parser.tab.c:1392-1410 | the chain built by reducing `stmts: stmts stmt` left to right holds exactly the parsed statements, in source order |
| Builder.BuildStmtsWellFormed | parser.tab.c:1392-1410 | that chain is a well-formed list when each statement is well formed |
| Builder.BuiltExprFaultsOnlyOnZeroDivisor | parser.tab.c:1501-1558 | expressions and conditions the grammar builds can fault only on a zero divisor |
| Exec.Report | parser.tab.c:1766-1769 | one `Error: <message> at line <n>` line per reported message, in order |
| Exec.ExecStmt | parser.tab.c:261-327 | executing a statement keeps the table at 256 cells |
| Exec.ExecList | parser.tab.c:330-340 | executing a list keeps the table at 256 cells |
| Exec.ExecListIsSequential | parser.tab.c:330-340 | a statement chain runs exactly as its statements would run one after the other, in source order |
| Exec.ExecStmtAppends | parser.tab.c:261-327 | executing a statement only appends to the three streams |
| Exec.ExecListAppends | parser.tab.c:330-340 | executing a list only appends to the three streams |
| Exec.ExecStmtIgnoresTree | parser.tab.c:264-265 | whatever the diagram stream holds, a statement leaves the same table, output and faults |
| Exec.ExecListIgnoresTree | parser.tab.c:264-265 | the diagram stream never influences the table, output or faults of a list |
| Exec.ExecStmtFrame | parser.tab.c:268-294 | a statement changes no cell except those its declarations and assignments name |
| Exec.ExecListFrame | parser.tab.c:268-294 | a list changes no cell except those its declarations and assignments name |
| Exec.StoreSemantics | parser.tab.c:268-294 | with a VAR target, exactly that cell takes the value, every other cell is unchanged, and one `Declared`/`Assigned` line is written; otherwise the table and output are unchanged and the fault follows the expression's own faults |
| Exec.DeclareThenRead | parser.tab.c:268-281 | after `int x = e;`, reading `x` yields the value of `e` |
| Exec.PrintSemantics | parser.tab.c:295-300 | print writes exactly one `Print: v` line and leaves the table unchanged |
| Exec.IfRunsOneBranch | parser.tab.c:301-317 | an `if` runs the then-list when the condition is nonzero and the else-list otherwise; an absent list leaves table and output unchanged; a malformed `if` runs neither and reports "If branches malformed" |
| Exec.UntakenBranchIsInert | parser.tab.c:301-317 | the list an `if` does not take (the else-list under a nonzero condition, the then-list under a zero one) has no effect on table, output or faults, whatever list `Executable` accepts it holds |
| Exec.SymAfter | parser.tab.c:268-300 | a simple statement's effect on the table in the straight-line reference keeps 256 cells |
| Exec.Lines | parser.tab.c:295-299 | the straight-line reference writes exactly one line per statement |
| Exec.SimpleStep | parser.tab.c:268-300 | a declaration, assignment or print writes its one line and changes the table as the reference says |
| Exec.ExecSeqWritesLines | parser.tab.c:330-340 | without conditionals, the runtime output is the reference's lines, in source order |
| Exec.ExecSeqLeavesFinalSym | parser.tab.c:330-340 | without conditionals, the executor leaves the table the reference leaves |
| Exec.LinesInOrder | parser.tab.c:330-340 | the k-th output line is the one the k-th statement writes, in the table the statements before it left |
| Exec.ExecSeqDrawsHeaders | parser.tab.c:264-265 | without conditionals, the diagram stream receives each statement's own diagram and separator, once, in source order |
| Exec.StraightLineOutputInOrder | parser.tab.c:330-340 | for a chain of simple statements the runtime output and final table are the reference's, and the diagram stream holds each statement's diagram in source order |
| Exec.BuiltStmtIsExecutable | parser.tab.c:270-275 | every declaration and assignment in a statement the grammar builds, including those in lists an `if` does not take, has a VAR target with an id the table has a cell for, when the scanner's ids are below 256 |
| Exec.BuiltStmtsAreExecutable | parser.tab.c:330-340 | every list the grammar builds stays inside the executor's defined behaviour |
| Exec.BuiltStmtFaultsOnlyOnZeroDivisor | parser.tab.c:301-316 | a statement the grammar builds never reports a malformed `if`, an unknown operator or a misplaced node; its only possible fault is a zero divisor |
| Exec.BuiltStmtsFaultOnlyOnZeroDivisor | parser.tab.c:330-340 | the same for a whole built program |
| Interpreter.Interpreter.constructor | parser.tab.c:98 | the table starts with 256 zero cells and the streams start empty |
| Interpreter.Interpreter.Error | parser.tab.c:1766-1769 | `yyerror` appends one `Error: <message> at line <n>` line |
| Interpreter.Interpreter.PrintTreeVertical | parser.tab.c:197-210 | the recursion and its indent loop append exactly `TreeLines(root, space)` to the diagram stream |
| Interpreter.Interpreter.PrintTreeHeader | parser.tab.c:213-217 | appends exactly the statement's diagram and separator |
| Interpreter.Interpreter.StoreInto | parser.tab.c:268-294 | the shared body of declaration and assignment updates the array in place as `Store` describes |
| Interpreter.Interpreter.ExecuteStmt | parser.tab.c:261-327 | the new table and streams are exactly `ExecStmt` of the old ones |
| Interpreter.Interpreter.ExecuteList | parser.tab.c:330-340 | the new table and streams are exactly `ExecList` of the old ones |
| Interpreter.Interpreter.Program | parser.tab.c:1383-1390 | running a built program faults only on a zero divisor; without conditionals its output is the reference's lines and each statement's diagram is drawn once, in source order |
| Scenarios.DeclareThenPrint | parser.tab.c:268-299 | `int a = 5; print(a);` writes `Declared var[1] = 5` then `Print: 5`, and no fault |
| Scenarios.ProductBindsTighter | parser.tab.c:1528-1550 | `2 + 3 * 4` built as the grammar's precedence builds it is 14; `(2 + 3) * 4` is 20 |
| Scenarios.PrintOfZeroDivisor | parser.tab.c:235-236 | `print(5 / 0);` writes `Print: 0` and one `Error: Division by zero at line <n>` |
| Scenarios.FalseConditionWithoutElse | parser.tab.c:301-316 | an `if` with a false condition and no else writes no output, stores nothing and reports no fault, while the diagram stream receives exactly the whole `if`'s diagram and separator |

## Left out

- The Bison automaton (parser.tab.c:343-1382, 1567-1760) is generated, table-driven code. Only its per-rule actions are modelled, as functions over already-built child nodes. `BuildStmts` stands for the driver reducing `stmts: stmts stmt` once per statement.
- The scanner (`yylex`) is not part of this model. Variable ids and the text of the `condition` operator are inputs. `IsCond` assumes the operator is one of the six comparisons.
- `yylineno` is a parameter fixed for the whole run (see above). Syntax errors reported by the driver are not modelled.
- File handling in `main` and the choice of stream in `yyerror` (parser.tab.c:1766-1789) are not modelled. Each stream is a sequence of lines.
- `malloc`, `strdup`, `perror`/`exit` and `free_tree` (parser.tab.c:125-135, 188-194) are not needed with datatypes. A NULL label (which `new_node_kind` turns into "") cannot arise, because names are always strings.
- The identity actions `stmt: declaration`, `stmt: assignment`, `stmt: printStatement`, `stmt: IfStatement` and `block: stmts` (parser.tab.c:1412-1434, 1493-1499) get no function. Each passes its child through unchanged.
- Evaluator.Eval: does not model 32-bit `int` overflow in `+ - *` or in `INT_MIN / -1` (parser.tab.c:232-237), which is undefined behaviour in C. All integers are unbounded.
- Evaluator.CDivTruncates: truncating division is stated for unbounded integers only, for the same reason.
- Interpreter.Interpreter.ExecuteStmt: requires `Executable`. Every declaration and assignment in the tree, including those in lists an `if` does not take, must have a target node, and a VAR target must have an id inside the table. The C code dereferences the target and writes `sym[id]` without a check (parser.tab.c:273-275, 286-288), so anything else is undefined behaviour. `BuiltStmtsAreExecutable` shows that every tree the grammar builds meets the requirement when the scanner's ids are below 256.
- Programs in which an `if` holds a declaration or assignment of an id of 256 or more in a list it does not take are excluded by `Executable`. C runs them without reaching that statement (parser.tab.c:308-312), so their behaviour is defined but not modelled.
- Exec.ExecStmt / Exec.ExecList: their own contracts state only that the table keeps 256 cells. What execution does is stated by the lemmas listed with them.
- Output order is proved for chains without `if`. With conditionals the order is given by `ExecListIsSequential` together with `IfRunsOneBranch`.

Three behaviours of the code that a reader might not expect:
- An `if` statement's diagram is drawn before it runs (parser.tab.c:265). It contains the whole `if` tree, including the BRANCHES and STMTLIST nodes of both lists. So the list that is not taken does appear in the diagram stream, although its statements are never drawn on their own. The comment at parser.tab.c:264 says the tree stream reflects the statements executed; for an `if` it also shows statements that never run.
- A zero divisor does not abort the statement. The expression yields 0 and execution continues (parser.tab.c:236).
- A declaration or assignment whose target is not a variable still evaluates its right-hand side first. Faults from that evaluation come before the target fault (parser.tab.c:272-279).
