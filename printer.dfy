/** The diagnostic tree diagram (`printTreeVertical`, `print_tree_header`).
    The tree stream is modelled as the sequence of its lines, each standing
    for the text up to a newline. A node is drawn as a blank line followed by
    its name indented five blanks per level of depth, after its whole right
    subtree and before its whole left subtree: a diagram rotated a quarter
    turn, so that it reads as the in-order traversal from the bottom up. */
module Printer {
  import opened Ast
  import opened Format

  const SpacingPerLevel := 5

  /** Fifty dashes, closing the diagram of one statement. */
  const Separator := "--------------------------------------------------"

  /** The lines written for `n` when its root is indented by `space` blanks. */
  function TreeLines(n: Node, space: nat): (lines: seq<string>)
    ensures |lines| == 2 * Size(n)
    decreases n
  {
    if n.Null? then []
    else
      TreeLines(n.right, space + SpacingPerLevel)
      + ["", Spaces(space) + n.name]
      + TreeLines(n.left, space + SpacingPerLevel)
  }

  /** The lines written before a statement executes: its diagram, then a
      blank line, the separator and another blank line; nothing for NULL. */
  function Header(n: Node): (lines: seq<string>)
    ensures n.Null? ==> lines == []
    ensures n.Node? ==> |lines| == 2 * Size(n) + 3 && lines[..2 * Size(n)] == TreeLines(n, 0)
    ensures n.Node? ==> lines[2 * Size(n)] == "" && lines[2 * Size(n) + 1] == Separator && lines[2 * Size(n) + 2] == ""
  {
    if n.Null? then [] else TreeLines(n, 0) + ["", Separator, ""]
  }

  /** The usual left-node-right traversal, each name paired with its depth. */
  function InOrder(n: Node, depth: nat): (r: seq<(nat, string)>)
    ensures |r| == Size(n)
    decreases n
  {
    if n.Null? then [] else InOrder(n.left, depth + 1) + [(depth, n.name)] + InOrder(n.right, depth + 1)
  }

  /** The diagram lists every node exactly once, in reverse in-order, each
      name on its own line after a blank one and indented by five blanks per
      level of depth. */
  lemma {:induction false} TreeLinesAreReversedInOrder(n: Node, depth: nat, k: nat)
    requires k < Size(n)
    ensures var e := InOrder(n, depth)[Size(n) - 1 - k];
      TreeLines(n, SpacingPerLevel * depth)[2 * k] == "" &&
      TreeLines(n, SpacingPerLevel * depth)[2 * k + 1] == Spaces(SpacingPerLevel * e.0) + e.1
    decreases n, 1
  {
    if k < Size(n.right) {
      DrawnInRightSubtree(n, depth, k);
    } else if k == Size(n.right) {
      DrawnAtRoot(n, depth, k);
    } else {
      DrawnInLeftSubtree(n, depth, k);
    }
  }

  lemma IndexInFirst<T>(a: seq<T>, b: seq<T>, c: seq<T>, i: int)
    requires 0 <= i < |a|
    ensures (a + b + c)[i] == a[i]
  {
  }

  lemma IndexInLast<T>(a: seq<T>, b: seq<T>, c: seq<T>, i: int)
    requires 0 <= i < |c|
    ensures (a + b + c)[|a| + |b| + i] == c[i]
  {
  }

  lemma DrawnInRightSubtree(n: Node, depth: nat, k: nat)
    requires n.Node? && k < Size(n.right)
    ensures k < Size(n)
    ensures var e := InOrder(n, depth)[Size(n) - 1 - k];
      TreeLines(n, SpacingPerLevel * depth)[2 * k] == "" &&
      TreeLines(n, SpacingPerLevel * depth)[2 * k + 1] == Spaces(SpacingPerLevel * e.0) + e.1
    decreases n, 0
  {
    TreeLinesAreReversedInOrder(n.right, depth + 1, k);
    var tr := TreeLines(n.right, SpacingPerLevel * (depth + 1));
    var mid := ["", Spaces(SpacingPerLevel * depth) + n.name];
    var tl := TreeLines(n.left, SpacingPerLevel * (depth + 1));
    var ir := InOrder(n.right, depth + 1);
    var il := InOrder(n.left, depth + 1);
    assert TreeLines(n, SpacingPerLevel * depth) == tr + mid + tl;
    IndexInFirst(tr, mid, tl, 2 * k);
    IndexInFirst(tr, mid, tl, 2 * k + 1);
    assert InOrder(n, depth) == il + [(depth, n.name)] + ir;
    IndexInLast(il, [(depth, n.name)], ir, Size(n.right) - 1 - k);
  }

  lemma DrawnAtRoot(n: Node, depth: nat, k: nat)
    requires n.Node? && k == Size(n.right)
    ensures k < Size(n)
    ensures var e := InOrder(n, depth)[Size(n) - 1 - k];
      TreeLines(n, SpacingPerLevel * depth)[2 * k] == "" &&
      TreeLines(n, SpacingPerLevel * depth)[2 * k + 1] == Spaces(SpacingPerLevel * e.0) + e.1
  {
    assert InOrder(n, depth)[Size(n) - 1 - k] == (depth, n.name);
  }

  lemma DrawnInLeftSubtree(n: Node, depth: nat, k: nat)
    requires n.Node? && Size(n.right) < k < Size(n)
    ensures var e := InOrder(n, depth)[Size(n) - 1 - k];
      TreeLines(n, SpacingPerLevel * depth)[2 * k] == "" &&
      TreeLines(n, SpacingPerLevel * depth)[2 * k + 1] == Spaces(SpacingPerLevel * e.0) + e.1
    decreases n, 0
  {
    var k' := k - Size(n.right) - 1;
    TreeLinesAreReversedInOrder(n.left, depth + 1, k');
    var tr := TreeLines(n.right, SpacingPerLevel * (depth + 1));
    var mid := ["", Spaces(SpacingPerLevel * depth) + n.name];
    var tl := TreeLines(n.left, SpacingPerLevel * (depth + 1));
    var il := InOrder(n.left, depth + 1);
    assert TreeLines(n, SpacingPerLevel * depth) == tr + mid + tl;
    IndexInLast(tr, mid, tl, 2 * k');
    IndexInLast(tr, mid, tl, 2 * k' + 1);
    assert InOrder(n, depth) == il + [(depth, n.name)] + InOrder(n.right, depth + 1);
    IndexInFirst(il, [(depth, n.name)], InOrder(n.right, depth + 1), Size(n.left) - 1 - k');
  }
}
