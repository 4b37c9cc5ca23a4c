/** `ProjectCollector.print_tree` (uniter.py:107-118): the lines it prints,
    one per node, in order, without their line breaks. */
module TreeRender {
  import opened Common
  import opened Tree

  function Connector(last: bool): (r: string)
    ensures |r| == 4
  {
    if last then "└── " else "├── "
  }

  function Extension(last: bool): (r: string)
    ensures |r| == 4
  {
    if last then "    " else "│   "
  }

  /** `print_tree(tree, prefix)`: for each item, its line, then, for a
      dictionary, its own items with the prefix extended. Only the last item of
      a level (`i == len(items) - 1`) is last. */
  function PrintTree(items: seq<Item>, prefix: string): seq<string>
    decreases items
  {
    if items == [] then []
    else
      var last := |items| == 1;
      var line := prefix + Connector(last) + items[0].name;
      match items[0].node
      case File => [line] + PrintTree(items[1..], prefix)
      case Dir(cs) =>
        [line + "/"] + PrintTree(cs, prefix + Extension(last)) + PrintTree(items[1..], prefix)
  }

  /** Number of nodes below a level. */
  function Count(items: seq<Item>): nat
    decreases items, 0
  {
    if items == [] then 0 else NodeCount(items[0].node) + Count(items[1..])
  }

  /** A node and everything below it. */
  function NodeCount(n: Node): nat
    decreases n, 1
  {
    match n
    case File => 1
    case Dir(cs) => 1 + Count(cs)
  }

  /** `print_tree` prints exactly one line per node. */
  lemma {:induction false} OneLinePerNode(items: seq<Item>, prefix: string)
    ensures |PrintTree(items, prefix)| == Count(items)
    decreases items
  {
    if items != [] {
      var last := |items| == 1;
      match items[0].node
      case File =>
        OneLinePerNode(items[1..], prefix);
      case Dir(cs) =>
        OneLinePerNode(cs, prefix + Extension(last));
        OneLinePerNode(items[1..], prefix);
    }
  }

  /** One node as a row of the listing: whether each of its ancestors was the
      last of its level, whether it is, its name and its kind. */
  datatype Row = Row(ancestors: seq<bool>, last: bool, name: string, isDir: bool)

  /** The nodes below a level in pre-order (a node, then its descendants,
      then its next sibling), each with its position in the tree. */
  function Rows(items: seq<Item>, ancestors: seq<bool>): seq<Row>
    decreases items
  {
    if items == [] then []
    else
      var last := |items| == 1;
      var row := Row(ancestors, last, items[0].name, items[0].node.Dir?);
      match items[0].node
      case File => [row] + Rows(items[1..], ancestors)
      case Dir(cs) =>
        [row] + Rows(cs, ancestors + [last]) + Rows(items[1..], ancestors)
  }

  /** The indentation of a row: one four-character block per ancestor,
      blank below a last ancestor and a vertical bar otherwise. */
  function Indent(ancestors: seq<bool>): (r: string)
    ensures |r| == 4 * |ancestors|
  {
    if ancestors == [] then ""
    else Indent(ancestors[..|ancestors| - 1]) + Extension(ancestors[|ancestors| - 1])
  }

  /** How a row is printed. */
  function LineOf(r: Row): string
  {
    Indent(r.ancestors) + Connector(r.last) + r.name + (if r.isDir then "/" else "")
  }

  function Lines(rows: seq<Row>): (r: seq<string>)
    ensures |r| == |rows|
    ensures forall k :: 0 <= k < |rows| ==> r[k] == LineOf(rows[k])
  {
    if rows == [] then [] else [LineOf(rows[0])] + Lines(rows[1..])
  }

  lemma LinesAppend(a: seq<Row>, b: seq<Row>)
    ensures Lines(a + b) == Lines(a) + Lines(b)
  {
  }

  lemma IndentSnoc(ancestors: seq<bool>, last: bool)
    ensures Indent(ancestors + [last]) == Indent(ancestors) + Extension(last)
  {
    assert (ancestors + [last])[..|ancestors|] == ancestors;
  }

  /** `print_tree` prints, line by line, the pre-order rows of the tree
      formatted by `LineOf`. */
  lemma {:induction false} PrintTreeIsRows(items: seq<Item>, ancestors: seq<bool>)
    ensures PrintTree(items, Indent(ancestors)) == Lines(Rows(items, ancestors))
    decreases items
  {
    if items != [] {
      var last := |items| == 1;
      var row := Row(ancestors, last, items[0].name, items[0].node.Dir?);
      var prefix := Indent(ancestors);
      var rest := Rows(items[1..], ancestors);
      PrintTreeIsRows(items[1..], ancestors);
      assert Lines([row]) == [LineOf(row)];
      match items[0].node
      case File =>
        assert LineOf(row) == prefix + Connector(last) + items[0].name;
        LinesAppend([row], rest);
      case Dir(cs) =>
        var below := Rows(cs, ancestors + [last]);
        assert LineOf(row) == prefix + Connector(last) + items[0].name + "/";
        IndentSnoc(ancestors, last);
        PrintTreeIsRows(cs, ancestors + [last]);
        assert PrintTree(cs, prefix + Extension(last)) == Lines(below);
        LinesAppend([row] + below, rest);
        LinesAppend([row], below);
    }
  }

  /** Block `k` of the indentation stands for ancestor `k`. */
  lemma {:induction false} IndentBlocks(ancestors: seq<bool>, k: nat)
    requires k < |ancestors|
    ensures Indent(ancestors)[4 * k..4 * k + 4] == Extension(ancestors[k])
    decreases |ancestors|
  {
    var n := |ancestors| - 1;
    var init := ancestors[..n];
    var a := Indent(init);
    var b := Extension(ancestors[n]);
    assert Indent(ancestors) == a + b;
    if k < n {
      IndentBlocks(init, k);
      assert (a + b)[4 * k..4 * k + 4] == a[4 * k..4 * k + 4];
    } else {
      assert (a + b)[4 * k..4 * k + 4] == b;
    }
  }

  /** Every row below a level carries the level's ancestors as a prefix. */
  lemma {:induction false} RowsBelow(items: seq<Item>, ancestors: seq<bool>, r: Row)
    requires r in Rows(items, ancestors)
    ensures |r.ancestors| >= |ancestors| && r.ancestors[..|ancestors|] == ancestors
    decreases items
  {
    var last := |items| == 1;
    if r !in Rows(items[1..], ancestors) && r != Row(ancestors, last, items[0].name, items[0].node.Dir?) {
      match items[0].node
      case File =>
      case Dir(cs) =>
        RowsBelow(cs, ancestors + [last], r);
        assert (ancestors + [last])[..|ancestors|] == ancestors;
    } else if r in Rows(items[1..], ancestors) {
      RowsBelow(items[1..], ancestors, r);
    }
  }

  /** The rows of depth `depth`, in order. */
  function AtDepth(rows: seq<Row>, depth: nat): seq<Row>
  {
    if rows == [] then []
    else (if |rows[0].ancestors| == depth then [rows[0]] else []) + AtDepth(rows[1..], depth)
  }

  lemma AtDepthAppend(a: seq<Row>, b: seq<Row>, depth: nat)
    ensures AtDepth(a + b, depth) == AtDepth(a, depth) + AtDepth(b, depth)
  {
    if a != [] {
      assert (a + b)[1..] == a[1..] + b;
      AtDepthAppend(a[1..], b, depth);
    } else {
      assert a + b == b;
    }
  }

  lemma AtDepthNone(rows: seq<Row>, depth: nat)
    requires forall r :: r in rows ==> |r.ancestors| > depth
    ensures AtDepth(rows, depth) == []
  {
    if rows != [] {
      assert rows[0] in rows;
      AtDepthNone(rows[1..], depth);
    }
  }

  /** The items of a level as rows: item `i` is last exactly when it is the
      final item. */
  function ItemRows(items: seq<Item>, ancestors: seq<bool>): (r: seq<Row>)
    ensures |r| == |items|
    ensures forall i :: 0 <= i < |items| ==>
      r[i] == Row(ancestors, i == |items| - 1, items[i].name, items[i].node.Dir?)
  {
    if items == [] then []
    else [Row(ancestors, |items| == 1, items[0].name, items[0].node.Dir?)] + ItemRows(items[1..], ancestors)
  }

  /** The lines of one level are its items in order, and only the final item
      gets the closing connector `"└── "`; all deeper lines belong to them. */
  lemma {:induction false} LevelRows(items: seq<Item>, ancestors: seq<bool>)
    ensures AtDepth(Rows(items, ancestors), |ancestors|) == ItemRows(items, ancestors)
    decreases items
  {
    if items != [] {
      var last := |items| == 1;
      var row := Row(ancestors, last, items[0].name, items[0].node.Dir?);
      var n := |ancestors|;
      LevelRows(items[1..], ancestors);
      match items[0].node
      case File =>
        AtDepthAppend([row], Rows(items[1..], ancestors), n);
      case Dir(cs) =>
        var deeper := Rows(cs, ancestors + [last]);
        forall r | r in deeper ensures |r.ancestors| > n {
          RowsBelow(cs, ancestors + [last], r);
        }
        AtDepthNone(deeper, n);
        AtDepthAppend([row] + deeper, Rows(items[1..], ancestors), n);
        AtDepthAppend([row], deeper, n);
    }
  }

  /** A directory line ends in `"/"` and a file line does not, for names that
      do not themselves end in `"/"` (no file name can). */
  lemma SlashMarksDirectories(r: Row)
    requires r.name == [] || r.name[|r.name| - 1] != '/'
    ensures EndsWith(LineOf(r), "/") <==> r.isDir
  {
    var body := Indent(r.ancestors) + Connector(r.last) + r.name;
    assert body[|body| - 1] != '/' by {
      if r.name == [] {
        assert body[|body| - 1] == Connector(r.last)[3];
      } else {
        assert body[|body| - 1] == r.name[|r.name| - 1];
      }
    }
    if !r.isDir {
      assert LineOf(r) == body;
    }
  }
}
