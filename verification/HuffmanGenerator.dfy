/** The generator itself: a heap of nodes updated in place, proved against the value-level tree,
    numbering and table. */
module HuffmanGenerator {
  import opened Options
  import opened HuffmanTree
  import opened HuffmanTable

  /** One element of a node's transition list. */
  datatype Trans = Trans(node: TreeNode?, sym: Option<nat>)

  /** The list object a node appends its transitions to. */
  class TransList {
    var items: seq<Trans>
    ghost var Row: seq<Entry>
    ghost var Owner: TreeNode?

    constructor ()
      ensures items == [] && Row == []
    {
      items, Row, Owner := [], [], null;
    }
  }

  class TreeNode {
    var term: Option<nat>
    var left: TreeNode?
    var right: TreeNode?
    const trans: TransList
    var id: Option<nat>
    var accept: bool

    ghost var Repr: set<TreeNode>
    ghost var Shape: Tree

    constructor ()
      ensures Valid() && fresh(this) && Repr == {this} && Shape == FRESH
      ensures fresh(trans) && EmptyLists({this})
    {
      term, left, right, id, accept := None, null, null, None, false;
      trans := new TransList();
      Repr, Shape := {this}, FRESH;
      new;
      trans.Owner := this;
    }

    /** The node heads a tree of distinct objects whose value is `Shape`. */
    ghost predicate Valid()
      reads this, Repr
    {
      && this in Repr
      && (left != null ==> left in Repr && left.Repr <= Repr && this !in left.Repr && left.Valid())
      && (right != null ==> right in Repr && right.Repr <= Repr && this !in right.Repr && right.Valid())
      && (left != null && right != null ==> left.Repr !! right.Repr)
      && Shape == Node(term, id, accept, ShapeOf(left), ShapeOf(right))
    }
  }

  ghost function ShapeOf(n: TreeNode?): Tree
    reads n
  {
    if n == null then Empty else n.Shape
  }

  class Context {
    var nextId: nat
    var root: TreeNode

    constructor ()
      ensures nextId == 0 && root.Valid() && fresh(root.Repr) && root.Shape == FRESH
      ensures EmptyLists(root.Repr) && fresh(ListsOf(root.Repr))
    {
      nextId := 0;
      root := new TreeNode();
    }
  }

  ghost function ListsOf(nodes: set<TreeNode>): set<TransList>
  {
    set n | n in nodes :: n.trans
  }

  /** Each node has a list of its own. */
  ghost predicate OwnLists(nodes: set<TreeNode>)
    reads ListsOf(nodes)
  {
    forall n :: n in nodes ==> n.trans.Owner == n
  }

  ghost predicate EmptyLists(nodes: set<TreeNode>)
    reads ListsOf(nodes)
  {
    OwnLists(nodes) && forall n :: n in nodes ==> n.trans.items == [] && n.trans.Row == []
  }

  /** Insertion, creating the missing nodes on the way down. */
  method Add(node: TreeNode, sym: nat, bits: Bits)
    requires node.Valid() && EmptyLists(node.Repr)
    modifies node.Repr
    ensures node.Valid() && EmptyLists(node.Repr)
    ensures old(node.Repr) <= node.Repr && forall n :: n in node.Repr - old(node.Repr) ==> fresh(n) && fresh(n.trans)
    ensures node.Shape == HuffmanTree.Add(old(node.Shape), sym, bits)
    decreases |bits|, 1
  {
    if |bits| == 0 {
      node.term := Some(sym);
      node.Shape := node.Shape.(term := node.term);
    } else if !bits[0] {
      if node.left == null {
        NewLeft(node);
      }
      AddLeft(node, sym, bits[1..]);
    } else {
      if node.right == null {
        NewRight(node);
      }
      AddRight(node, sym, bits[1..]);
    }
  }

  method NewLeft(node: TreeNode)
    requires node.Valid() && EmptyLists(node.Repr) && node.left == null
    modifies node
    ensures node.Valid() && EmptyLists(node.Repr) && node.left != null
    ensures old(node.Repr) <= node.Repr && forall n :: n in node.Repr - old(node.Repr) ==> fresh(n) && fresh(n.trans)
    ensures node.Shape == old(node.Shape).(left := FRESH)
  {
    node.left := new TreeNode();
    node.Repr := node.Repr + {node.left};
    node.Shape := node.Shape.(left := FRESH);
  }

  method AddLeft(node: TreeNode, sym: nat, bits: Bits)
    requires node.Valid() && EmptyLists(node.Repr) && node.left != null
    requires node.Shape.Node? && node.Shape.left.Node?
    modifies node.Repr
    ensures node.Valid() && EmptyLists(node.Repr)
    ensures old(node.Repr) <= node.Repr && forall n :: n in node.Repr - old(node.Repr) ==> fresh(n) && fresh(n.trans)
    ensures node.Shape == old(node.Shape).(left := HuffmanTree.Add(old(node.Shape).left, sym, bits))
    decreases |bits|, 2
  {
    var child := node.left;
    ghost var other, was := node.right, node.Repr;
    assert child.Valid() && (other != null ==> other.Valid());
    assert EmptyLists(child.Repr);
    Add(child, sym, bits);
    assert EmptyLists(was) && EmptyLists(child.Repr);
    assert other != null ==> other.Valid() && other.Repr !! child.Repr;
    node.Repr := was + child.Repr;
    node.Shape := node.Shape.(left := child.Shape);
    assert child.Valid() && (other != null ==> other.Valid());
  }

  method NewRight(node: TreeNode)
    requires node.Valid() && EmptyLists(node.Repr) && node.right == null
    modifies node
    ensures node.Valid() && EmptyLists(node.Repr) && node.right != null
    ensures old(node.Repr) <= node.Repr && forall n :: n in node.Repr - old(node.Repr) ==> fresh(n) && fresh(n.trans)
    ensures node.Shape == old(node.Shape).(right := FRESH)
  {
    node.right := new TreeNode();
    node.Repr := node.Repr + {node.right};
    node.Shape := node.Shape.(right := FRESH);
  }

  method AddRight(node: TreeNode, sym: nat, bits: Bits)
    requires node.Valid() && EmptyLists(node.Repr) && node.right != null
    requires node.Shape.Node? && node.Shape.right.Node?
    modifies node.Repr
    ensures node.Valid() && EmptyLists(node.Repr)
    ensures old(node.Repr) <= node.Repr && forall n :: n in node.Repr - old(node.Repr) ==> fresh(n) && fresh(n.trans)
    ensures node.Shape == old(node.Shape).(right := HuffmanTree.Add(old(node.Shape).right, sym, bits))
    decreases |bits|, 2
  {
    var child := node.right;
    ghost var other, was := node.left, node.Repr;
    assert child.Valid() && (other != null ==> other.Valid());
    assert EmptyLists(child.Repr);
    Add(child, sym, bits);
    assert EmptyLists(was) && EmptyLists(child.Repr);
    assert other != null ==> other.Valid() && other.Repr !! child.Repr;
    node.Repr := was + child.Repr;
    node.Shape := node.Shape.(right := child.Shape);
    assert child.Valid() && (other != null ==> other.Valid());
  }

  /** Preorder numbering and accept marks. */
  method SetNodeId(ctx: Context, node: TreeNode, prefix: Bits)
    requires node.Valid() && Full(node.Shape)
    modifies ctx`nextId, node.Repr`id, node.Repr`accept, node.Repr`Shape
    ensures node.Valid()
    ensures (node.Shape, ctx.nextId) == Number(old(node.Shape), old(ctx.nextId), prefix)
    decreases node.Repr
  {
    if node.term.Some? {
      return;
    }
    if Padding(prefix) {
      node.accept := true;
    }
    node.id := Some(ctx.nextId);
    ctx.nextId := ctx.nextId + 1;
    ghost var l, r := node.left, node.right;
    assert l.Valid() && r.Valid();
    SetNodeId(ctx, node.left, prefix + [false]);
    assert r.Valid() && r.Shape == old(r.Shape);
    SetNodeId(ctx, node.right, prefix + [true]);
    assert l.Valid();
    node.Shape := Node(node.term, node.id, node.accept, node.left.Shape, node.right.Shape);
  }

  // ---------- transition lists ----------

  /** The transition list `es` stands for the entries `row`: each target is among `all`, has the value
      the entry names, and carries that value's id and accept mark. */
  ghost predicate Settled(es: seq<Trans>, row: seq<Entry>, all: set<TreeNode>)
    reads all`Shape, all`id, all`accept
  {
    && |es| == |row|
    && forall i :: 0 <= i < |es| ==> Stands(es[i], row[i], all)
  }

  ghost predicate Stands(e: Trans, entry: Entry, all: set<TreeNode>)
    reads all`Shape, all`id, all`accept
  {
    && e.sym == entry.sym
    && if e.node == null then entry.node.None?
       else
         && e.node in all && entry.node == Some(e.node.Shape) && e.node.Shape.Node?
         && e.node.Shape.id == e.node.id && e.node.Shape.accept == e.node.accept
  }

  /** A subtree of the finished tree whose value is `rs`. */
  ghost predicate Ready(n: TreeNode, rs: Tree, all: set<TreeNode>)
    reads n, n.Repr
  {
    match rs
    case Empty => false
    case Node(term, _, _, _, _) =>
      Full(rs) && term.None? && n.Valid() && n.Repr <= all && Full(n.Shape) && LeafShaped(n.Shape)
  }

  lemma ReadyChildren(n: TreeNode, rs: Tree, all: set<TreeNode>)
    requires Ready(n, rs, all)
    ensures n in n.Repr && n in all && n.term == n.Shape.term
    ensures n.term.None? <==> n.left != null
    ensures n.term.None? <==> n.right != null
    ensures n.left != null ==>
              Ready(n.left, rs, all) && n.left.Repr < n.Repr && n !in n.left.Repr && n.Shape.left == n.left.Shape
    ensures n.right != null ==>
              Ready(n.right, rs, all) && n.right.Repr < n.Repr && n !in n.right.Repr && n.Shape.right == n.right.Shape
    ensures n.left != null && n.right != null ==> n.left.Repr !! n.right.Repr
  {
    assert n.Shape.left == ShapeOf(n.left) && n.Shape.right == ShapeOf(n.right);
    assert n.term.None? ==> Full(n.Shape.left) && Full(n.Shape.right);
    if n.left != null {
      assert n.left.Valid() && n.left.Shape.Node?;
      assert n !in n.left.Repr;
    }
    if n.right != null {
      assert n.right.Valid() && n.right.Shape.Node?;
      assert n !in n.right.Repr;
    }
  }

  /** Appends to `out`, the list of the start node, the entries below `node` for the next `left` bits. */
  method Traverse(node: TreeNode, sym: Option<nat>, out: TransList, root: TreeNode, left: nat, ghost all: set<TreeNode>)
    requires Ready(root, root.Shape, all) && Ready(node, root.Shape, all)
    requires AssertHolds(node.Shape, sym, root.Shape, left)
    requires Settled(out.items, out.Row, all)
    modifies out`items, out`Row
    ensures Settled(out.items, out.Row, all)
    ensures out.Row == old(out.Row) + HuffmanTable.Traverse(node.Shape, sym, root.Shape, left)
    decreases left, 0
  {
    if left == 0 {
      ReadyChildren(node, root.Shape, all);
      if sym == Some(EOS) {
        out.items, out.Row := out.items + [Trans(null, None)], out.Row + [Entry(None, None)];
      } else {
        out.items, out.Row := out.items + [Trans(node, sym)], out.Row + [Entry(Some(node.Shape), sym)];
      }
    } else {
      var n := if node.term.Some? then root else node;
      ReadyChildren(n, root.Shape, all);
      Go(n.left, sym, out, root, left - 1, all);
      Go(n.right, sym, out, root, left - 1, all);
    }
  }

  method Go(child: TreeNode, sym: Option<nat>, out: TransList, root: TreeNode, left: nat, ghost all: set<TreeNode>)
    requires Ready(root, root.Shape, all) && Ready(child, root.Shape, all)
    requires AssertGo(child.Shape, sym, root.Shape, left)
    requires Settled(out.items, out.Row, all)
    modifies out`items, out`Row
    ensures Settled(out.items, out.Row, all)
    ensures out.Row == old(out.Row) + HuffmanTable.Go(child.Shape, sym, root.Shape, left)
    decreases left, 1
  {
    var nsym := sym;
    if child.term.Some? {
      assert sym.None?;
      nsym := child.term;
    }
    Traverse(child, nsym, out, root, left, all);
  }

  ghost function RowOf(t: Tree, rs: Tree): seq<Entry>
  {
    if Full(rs) && rs.term.None? && Full(t) then HuffmanTable.Traverse(t, None, rs, 4) else []
  }

  /** The list of `n` holds the compiled entries of its value. */
  ghost predicate RowDone(n: TreeNode, rs: Tree, all: set<TreeNode>)
    reads n, n.trans, all
  {
    Settled(n.trans.items, n.trans.Row, all) && n.trans.Row == RowOf(n.Shape, rs)
  }

  /** The nodes `done` are closed under children, and each holds its compiled entries. */
  ghost predicate Compiled(done: set<TreeNode>, rs: Tree, all: set<TreeNode>)
    reads done, ListsOf(done), all
  {
    && (forall n :: n in done ==> RowDone(n, rs, all))
    && (forall n :: n in done && n.left != null ==> n.left in done)
    && (forall n :: n in done && n.right != null ==> n.right in done)
  }

  lemma ListsApart(a: set<TreeNode>, b: set<TreeNode>)
    requires OwnLists(a) && OwnLists(b) && a !! b
    ensures ListsOf(a) !! ListsOf(b)
  {
    forall x | x in ListsOf(a)
      ensures x !in ListsOf(b)
    {
      assert x.Owner in a;
    }
  }

  lemma ChildLists(node: TreeNode, l: TreeNode, r: TreeNode)
    requires EmptyLists(node.Repr) && node in node.Repr
    requires l.Repr < node.Repr && r.Repr < node.Repr && l.Repr !! r.Repr && node !in l.Repr && node !in r.Repr
    ensures ListsOf(l.Repr) <= ListsOf(node.Repr) && ListsOf(r.Repr) <= ListsOf(node.Repr)
    ensures ListsOf(l.Repr) !! ListsOf(r.Repr) && node.trans in ListsOf(node.Repr)
    ensures node.trans !in ListsOf(l.Repr) && node.trans !in ListsOf(r.Repr)
    ensures EmptyLists(l.Repr) && EmptyLists(r.Repr)
  {
    ListsApart({node}, l.Repr);
    ListsApart({node}, r.Repr);
    ListsApart(l.Repr, r.Repr);
    assert node.trans in ListsOf({node});
  }

  /** Compiles every node of the tree; a missing child is skipped at the call. */
  method BuildTransitionTable(node: TreeNode, root: TreeNode, ghost all: set<TreeNode>, ghost lists: set<TransList>)
    returns (ghost done: set<TreeNode>)
    requires Ready(root, root.Shape, all) && Ready(node, root.Shape, all)
    requires EmptyLists(node.Repr) && lists == ListsOf(node.Repr)
    requires Shallowest(root.Shape) >= 4
    modifies lists
    ensures node in done && done <= node.Repr && Compiled(done, root.Shape, all)
    decreases node.Repr, 1
  {
    ReadyChildren(node, root.Shape, all);
    var l, r := node.left, node.right;
    if l == null {
      assert node.trans in lists;
      CompileRow(node, root, all);
      done := {node};
    } else {
      ChildLists(node, l, r);
      done := BuildInner(node, l, r, root, all, ListsOf(l.Repr), ListsOf(r.Repr));
    }
  }

  method BuildInner(node: TreeNode, l: TreeNode, r: TreeNode, root: TreeNode, ghost all: set<TreeNode>,
                    ghost ll: set<TransList>, ghost rl: set<TransList>)
    returns (ghost done: set<TreeNode>)
    requires Ready(root, root.Shape, all) && Ready(l, root.Shape, all) && Ready(r, root.Shape, all)
    requires Ready(node, root.Shape, all) && node.left == l && node.right == r && node in node.Repr
    requires l.Repr < node.Repr && r.Repr < node.Repr
    requires ll == ListsOf(l.Repr) && rl == ListsOf(r.Repr) && ll !! rl && node.trans !in ll && node.trans !in rl
    requires EmptyLists(l.Repr) && EmptyLists(r.Repr) && node.trans.items == [] && node.trans.Row == []
    requires Shallowest(root.Shape) >= 4
    modifies ll, rl, node.trans
    ensures node in done && done <= node.Repr && Compiled(done, root.Shape, all)
    decreases node.Repr, 0, 1
  {
    CompileRow(node, root, all);
    assert EmptyLists(l.Repr) && EmptyLists(r.Repr);
    ghost var below := BuildBoth(node, l, r, root, all, ll, rl);
    assert RowDone(node, root.Shape, all);
    CompiledWith(node, below, root.Shape, all);
    done := {node} + below;
  }

  lemma CompiledWith(node: TreeNode, below: set<TreeNode>, rs: Tree, all: set<TreeNode>)
    requires RowDone(node, rs, all) && Compiled(below, rs, all)
    requires node.left != null && node.left in below && node.right != null && node.right in below
    ensures Compiled({node} + below, rs, all)
  {
  }

  method BuildBoth(ghost node: TreeNode, l: TreeNode, r: TreeNode, root: TreeNode, ghost all: set<TreeNode>,
                   ghost ll: set<TransList>, ghost rl: set<TransList>)
    returns (ghost done: set<TreeNode>)
    requires Ready(root, root.Shape, all) && Ready(l, root.Shape, all) && Ready(r, root.Shape, all)
    requires l.Repr < node.Repr && r.Repr < node.Repr
    requires ll == ListsOf(l.Repr) && rl == ListsOf(r.Repr) && ll !! rl
    requires EmptyLists(l.Repr) && EmptyLists(r.Repr)
    requires Shallowest(root.Shape) >= 4
    modifies ll, rl
    ensures l in done && r in done && done <= node.Repr && Compiled(done, root.Shape, all)
    decreases node.Repr, 0, 0
  {
    ghost var dl := BuildTransitionTable(l, root, all, ll);
    ghost var dr := BuildTransitionTable(r, root, all, rl);
    assert ListsOf(dl) <= ll;
    assert Compiled(dl, root.Shape, all);
    done := dl + dr;
  }

  method CompileRow(node: TreeNode, root: TreeNode, ghost all: set<TreeNode>)
    requires Ready(root, root.Shape, all) && Ready(node, root.Shape, all)
    requires node.trans.items == [] && node.trans.Row == []
    requires Shallowest(root.Shape) >= 4
    modifies node.trans
    ensures RowDone(node, root.Shape, all)
  {
    FirstSymbol(node.Shape, root.Shape, 4);
    Traverse(node, None, node.trans, root, 4, all);
  }

  /** The flags, next state and symbol of one transition. */
  method PrintCell(e: Trans, ghost entry: Entry, ghost all: set<TreeNode>) returns (cell: Cell)
    requires Stands(e, entry, all)
    ensures cell == Print(entry)
  {
    var flags: bv8 := 0;
    var out := 0;
    if e.sym.Some? {
      out := e.sym.value;
      flags := flags | SYM;
    }
    var id := 0;
    if e.node == null {
      flags := flags | FAIL;
    } else if e.node.id.None? {
      flags := flags | ACCEPTED;
    } else {
      id := e.node.id.value;
      if e.node.accept {
        flags := flags | ACCEPTED;
      }
    }
    cell := Cell(id, flags, out);
  }

  method PrintRowOf(items: seq<Trans>, ghost entries: seq<Entry>, ghost all: set<TreeNode>) returns (row: seq<Cell>)
    requires Settled(items, entries, all)
    ensures row == PrintRow(entries)
  {
    row := [];
    for i := 0 to |items|
      invariant row == PrintRow(entries[..i])
    {
      assert Stands(items[i], entries[i], all);
      var cell := PrintCell(items[i], entries[i], all);
      assert entries[..i + 1][..i] == entries[..i];
      row := row + [cell];
    }
    assert entries[..|items|] == entries;
  }

  /** The printed rows, in preorder. */
  method PrintTransitionTable(node: TreeNode, ghost rs: Tree, ghost all: set<TreeNode>, ghost done: set<TreeNode>)
    returns (rows: Table)
    requires Ready(node, rs, all) && node in done && Compiled(done, rs, all)
    ensures rows == Rows(rs, node.Shape)
    decreases node.Repr
  {
    ReadyChildren(node, rs, all);
    if node.term.Some? {
      return [];
    }
    var row := PrintRowOf(node.trans.items, node.trans.Row, all);
    assert row == HuffmanTable.Row(rs, node.Shape);
    var left := PrintTransitionTable(node.left, rs, all, done);
    var right := PrintTransitionTable(node.right, rs, all, done);
    rows := [row] + left + right;
  }
}

/** The main program of the generator. */
module HuffmanProgram {
  import opened Options
  import opened HuffmanTree
  import opened HuffmanTable
  import opened HuffmanCodec
  import opened HuffmanGenerator

  /** Inserts the lines of the code table in order. */
  method ReadCodes(codes: seq<Code>) returns (ctx: Context)
    ensures fresh(ctx) && fresh(ctx.root.Repr) && ctx.nextId == 0
    ensures ctx.root.Valid() && EmptyLists(ctx.root.Repr) && fresh(ListsOf(ctx.root.Repr))
    ensures ctx.root.Shape == Build(codes)
  {
    ctx := new Context();
    var root := ctx.root;
    for i := 0 to |codes|
      invariant ctx.root == root && ctx.nextId == 0 && fresh(ctx)
      invariant root.Valid() && EmptyLists(root.Repr) && fresh(root.Repr) && fresh(ListsOf(root.Repr))
      invariant root.Shape == Build(codes[..i])
    {
      HuffmanGenerator.Add(root, codes[i].sym, codes[i].bits);
      assert codes[..i + 1][..i] == codes[..i];
    }
    assert codes[..|codes|] == codes;
  }

  /** Compiles the tree and prints it. */
  method Compile(root: TreeNode, ghost rs: Tree, ghost lists: set<TransList>) returns (table: Table)
    requires root.Shape == rs && Ready(root, rs, root.Repr) && EmptyLists(root.Repr) && Shallowest(rs) >= 4
    requires lists == ListsOf(root.Repr)
    modifies lists
    ensures table == Rows(rs, rs)
  {
    ghost var all := root.Repr;
    ghost var done := BuildTransitionTable(root, root, all, lists);
    table := PrintTransitionTable(root, rs, all, done);
  }

  /** Reads a code table and returns the rows of its transition table. */
  method Generate(codes: seq<Code>) returns (table: Table)
    requires CodeBook(codes)
    ensures table == TableOf(codes)
  {
    BookCompiles(codes);
    var ctx := ReadCodes(codes);
    var root := ctx.root;
    SetNodeId(ctx, root, []);
    assert root.Shape == TreeOf(codes);
    table := Compile(root, TreeOf(codes), ListsOf(root.Repr));
  }
}
