/** The syntax tree of the toy language. As in the C struct it models, every
    node has the same shape: a kind tag, a printable name, two children and
    the two payload fields; which of them matter depends on the kind. `Null`
    stands for an absent child (a NULL pointer). The constructor functions
    build a node from already-built children and never check them, so trees
    such as a declaration whose target is not a variable can be built and are
    rejected only when executed. */
module Ast {
  import opened Format

  /** Number of cells in the symbol table `sym`. */
  const Capacity := 256

  datatype Kind =
    | UnknownKind
    | IntKind       // integer literal
    | VarKind       // variable reference
    | OpKind        // arithmetic or comparison operator
    | DeclKind      // `int ID = expr ;`
    | AssignKind    // `ID = expr ;`
    | PrintKind     // `print ( expr ) ;` and `expr ;`
    | IfKind        // left: condition, right: a Branches node
    | BranchesKind  // left: then-list, right: else-list (or Null)
    | StmtListKind  // left: previous list (or Null), right: statement

  datatype Node =
    | Null
    | Node(kind: Kind, name: string, left: Node, right: Node, intValue: int, varId: int)

  /** The generic allocator: payload fields start as 0 and -1. */
  function NewNodeKind(name: string, kind: Kind, left: Node, right: Node): (n: Node)
    ensures n.Node? && n.kind == kind && n.name == name
    ensures n.left == left && n.right == right
    ensures n.intValue == 0 && n.varId == -1
  {
    Node(kind, name, left, right, 0, -1)
  }

  /** An integer literal carries its value and the name `INTEGER(v)`. */
  function NewIntNode(v: int): (n: Node)
    ensures n.Node? && n.kind == IntKind && n.intValue == v
    ensures n.left == Null && n.right == Null
    ensures n.name == "INTEGER(" + IntToString(v) + ")"
  {
    Node(IntKind, "INTEGER(" + IntToString(v) + ")", Null, Null, v, -1)
  }

  /** A variable reference carries its id and the name `VAR(id=i)`. */
  function NewVarNode(id: int): (n: Node)
    ensures n.Node? && n.kind == VarKind && n.varId == id
    ensures n.left == Null && n.right == Null
    ensures n.name == "VAR(id=" + IntToString(id) + ")"
  {
    Node(VarKind, "VAR(id=" + IntToString(id) + ")", Null, Null, 0, id)
  }

  /** An operator node is labelled by its operator text. */
  function NewOpNode(op: string, l: Node, r: Node): (n: Node)
    ensures n.Node? && n.kind == OpKind && n.name == op && n.left == l && n.right == r
  {
    NewNodeKind(op, OpKind, l, r)
  }

  function NewDeclNode(varNode: Node, exprNode: Node): (n: Node)
    ensures n.Node? && n.kind == DeclKind && n.name == "dec" && n.left == varNode && n.right == exprNode
  {
    NewNodeKind("dec", DeclKind, varNode, exprNode)
  }

  function NewAssignNode(varNode: Node, exprNode: Node): (n: Node)
    ensures n.Node? && n.kind == AssignKind && n.name == "assign" && n.left == varNode && n.right == exprNode
  {
    NewNodeKind("assign", AssignKind, varNode, exprNode)
  }

  /** A print node keeps its expression on the left and nothing on the right. */
  function NewPrintNode(exprNode: Node): (n: Node)
    ensures n.Node? && n.kind == PrintKind && n.name == "print" && n.left == exprNode && n.right == Null
  {
    NewNodeKind("print", PrintKind, exprNode, Null)
  }

  /** An if node does not hold its two lists directly: they hang under a
      Branches node on its right, so every if node has both lists even when
      the else-list is absent. */
  function NewIfNode(cond: Node, thenList: Node, elseList: Node): (n: Node)
    ensures n.Node? && n.kind == IfKind && n.name == "if" && n.left == cond
    ensures n.right.Node? && n.right.kind == BranchesKind && n.right.name == "branches"
    ensures n.right.left == thenList && n.right.right == elseList
  {
    var branches := NewNodeKind("branches", BranchesKind, thenList, elseList);
    NewNodeKind("if", IfKind, cond, branches)
  }

  function NewStmtListNode(prevList: Node, stmt: Node): (n: Node)
    ensures n.Node? && n.kind == StmtListKind && n.name == "stmtlist" && n.left == prevList && n.right == stmt
  {
    NewNodeKind("stmtlist", StmtListKind, prevList, stmt)
  }

  /** Number of nodes in a tree. */
  function Size(n: Node): nat {
    if n.Null? then 0 else 1 + Size(n.left) + Size(n.right)
  }
}
