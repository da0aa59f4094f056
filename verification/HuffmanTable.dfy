/** Numbering the tree and compiling it to a table that reads four bits at a time. */
module HuffmanTable {
  import opened Options
  import opened HuffmanTree

  const EOS: nat := 256
  const ACCEPTED: bv8 := 1
  const SYM: bv8 := 2
  const FAIL: bv8 := 4

  // ---------- numbering ----------

  /** An input may stop below a prefix of at most seven one-bits. */
  predicate Padding(prefix: Bits)
  {
    |prefix| <= 7 && forall i :: 0 <= i < |prefix| ==> prefix[i]
  }

  /** The numbered tree and the next free id. */
  function Number(t: Tree, next: nat, prefix: Bits): (Tree, nat)
    requires Full(t)
  {
    if t.term.Some? then (t, next)
    else
      var l := Number(t.left, next + 1, prefix + [false]);
      var r := Number(t.right, l.1, prefix + [true]);
      (Node(None, Some(next), t.accept || Padding(prefix), l.0, r.0), r.1)
  }

  /** The first difference decides, and a prefix comes first: preorder on paths. */
  predicate Before(p: Bits, q: Bits)
  {
    if q == [] then false
    else if p == [] then true
    else if p[0] == q[0] then Before(p[1..], q[1..])
    else q[0]
  }

  predicate InnerAt(t: Tree, p: Bits)
  {
    At(t, p).Node? && At(t, p).term.None?
  }

  /** The ids of the inner nodes are consecutive in preorder, starting at `next`. */
  predicate IdsFrom(u: Tree, next: nat)
  {
    u.Node? && u.term.None? ==>
      u.id == Some(next) && IdsFrom(u.left, next + 1) && IdsFrom(u.right, next + 1 + Inner(u.left))
  }

  /** Leaves have no id, and an inner node accepts exactly when its path is valid padding. */
  predicate MarksFrom(u: Tree, prefix: Bits)
  {
    u.Node? ==>
      if u.term.Some? then u.id.None?
      else (u.accept <==> Padding(prefix)) && MarksFrom(u.left, prefix + [false]) && MarksFrom(u.right, prefix + [true])
  }

  lemma LeafPath(t: Tree, p: Bits)
    requires LeafShaped(t) && t.Node? && t.term.Some? && p != []
    ensures At(t, p).Empty?
  {
    assert At(t, p) == At(Empty, p[1..]);
  }

  /** Numbering keeps every path and every symbol. */
  lemma {:induction false} NumberKeeps(t: Tree, next: nat, prefix: Bits, p: Bits)
    requires Full(t)
    ensures At(Number(t, next, prefix).0, p).Node? <==> At(t, p).Node?
    ensures At(t, p).Node? && LeafShaped(t) ==> At(Number(t, next, prefix).0, p).term == At(t, p).term
    decreases |p|
  {
    if p != [] && t.term.None? {
      var l := Number(t.left, next + 1, prefix + [false]);
      if p[0] {
        NumberKeeps(t.right, l.1, prefix + [true], p[1..]);
      } else {
        NumberKeeps(t.left, next + 1, prefix + [false], p[1..]);
      }
    }
  }

  /** Numbering gives consecutive preorder ids and marks exactly the padding paths. */
  lemma {:induction false} NumberShape(t: Tree, next: nat, prefix: Bits)
    requires Full(t) && LeafShaped(t) && Blank(t)
    ensures var u := Number(t, next, prefix).0;
            Full(u) && LeafShaped(u) && IdsFrom(u, next) && MarksFrom(u, prefix) && Inner(u) == Inner(t)
    ensures Number(t, next, prefix).1 == next + Inner(t)
  {
    if t.term.None? {
      var l := Number(t.left, next + 1, prefix + [false]);
      NumberShape(t.left, next + 1, prefix + [false]);
      NumberShape(t.right, l.1, prefix + [true]);
    }
  }

  lemma {:induction false} MarkAt(u: Tree, prefix: Bits, p: Bits)
    requires LeafShaped(u) && MarksFrom(u, prefix) && At(u, p).Node?
    ensures At(u, p).term.None? ==> (At(u, p).accept <==> Padding(prefix + p))
    ensures At(u, p).term.Some? ==> At(u, p).id.None?
    decreases |p|
  {
    if p == [] {
      assert prefix + p == prefix;
    } else if u.term.None? {
      assert prefix + p == prefix + [p[0]] + p[1..];
      MarkAt(Child(u, p[0]), prefix + [p[0]], p[1..]);
    } else {
      LeafPath(u, p);
    }
  }

  /** The inner nodes in preorder. */
  function InnerNodes(t: Tree): (ns: seq<Tree>)
    requires Full(t)
    ensures |ns| == Inner(t)
    ensures forall i :: 0 <= i < |ns| ==> Full(ns[i])
  {
    if t.term.Some? then [] else [t] + InnerNodes(t.left) + InnerNodes(t.right)
  }

  /** The node with id `next + k` is the k-th inner node in preorder; the first id is the root's. */
  lemma {:induction false} IdAt(u: Tree, next: nat, p: Bits)
    requires Full(u) && LeafShaped(u) && IdsFrom(u, next) && InnerAt(u, p)
    ensures At(u, p).id.Some? && next <= At(u, p).id.value < next + Inner(u)
    ensures InnerNodes(u)[At(u, p).id.value - next] == At(u, p)
    ensures At(u, p).id.value == next <==> p == []
    decreases |p|
  {
    if p != [] {
      if u.term.Some? {
        LeafPath(u, p);
      } else if p[0] {
        IdAt(u.right, next + 1 + Inner(u.left), p[1..]);
      } else {
        IdAt(u.left, next + 1, p[1..]);
      }
    }
  }

  /** Ids below the left child come before those below the right one, and both after the root's. */
  lemma IdBelow(u: Tree, next: nat, p: Bits)
    requires Full(u) && LeafShaped(u) && IdsFrom(u, next) && InnerAt(u, p) && p != []
    ensures u.term.None? && At(u, p).id.Some?
    ensures var k := At(u, p).id.value; next < k && (p[0] <==> next + Inner(u.left) < k)
  {
    if u.term.Some? {
      LeafPath(u, p);
    } else if p[0] {
      IdAt(u.right, next + 1 + Inner(u.left), p[1..]);
    } else {
      IdAt(u.left, next + 1, p[1..]);
    }
  }

  lemma IdOfRoot(u: Tree, next: nat)
    requires Full(u) && LeafShaped(u) && IdsFrom(u, next) && InnerAt(u, [])
    ensures At(u, []).id == Some(next)
  {
    IdAt(u, next, []);
  }

  /** Ids grow in preorder of the paths. */
  lemma {:induction false} IdOrder(u: Tree, next: nat, p: Bits, q: Bits)
    requires Full(u) && LeafShaped(u) && IdsFrom(u, next) && InnerAt(u, p) && InnerAt(u, q)
    requires At(u, p).id.Some? && At(u, q).id.Some?
    ensures At(u, p).id.value < At(u, q).id.value <==> Before(p, q)
    decreases |p|
  {
    if p == [] {
      IdOfRoot(u, next);
    } else {
      IdBelow(u, next, p);
    }
    if q == [] {
      IdOfRoot(u, next);
    } else {
      IdBelow(u, next, q);
    }
    if p != [] && q != [] && p[0] == q[0] {
      IdOrder(Child(u, p[0]), if p[0] then next + 1 + Inner(u.left) else next + 1, p[1..], q[1..]);
    }
  }

  /** Every id in the range is used. */
  lemma {:induction false} IdOnto(u: Tree, next: nat, id: nat) returns (p: Bits)
    requires Full(u) && IdsFrom(u, next) && next <= id < next + Inner(u)
    ensures InnerAt(u, p) && At(u, p).id == Some(id)
  {
    if id == next {
      p := [];
    } else if id <= next + Inner(u.left) {
      var q := IdOnto(u.left, next + 1, id);
      p := [false] + q;
    } else {
      var q := IdOnto(u.right, next + 1 + Inner(u.left), id);
      p := [true] + q;
    }
  }

  // ---------- the bit-by-bit decoder ----------

  function Step(root: Tree, node: Tree, b: bool): (r: Tree)
    requires Full(root) && Full(node) && root.term.None?
    ensures Full(r)
  {
    Child(if node.term.Some? then root else node, b)
  }

  /** The node after reading `bits`; a finished code word continues at the root. */
  function WalkNode(root: Tree, node: Tree, bits: Bits): (r: Tree)
    requires Full(root) && Full(node) && root.term.None?
    ensures Full(r)
    decreases |bits|
  {
    if bits == [] then node else WalkNode(root, Step(root, node, bits[0]), bits[1..])
  }

  /** The symbols whose code words are completed while reading `bits`. */
  function WalkOut(root: Tree, node: Tree, bits: Bits): seq<nat>
    requires Full(root) && Full(node) && root.term.None?
    decreases |bits|
  {
    if bits == [] then []
    else
      var c := Step(root, node, bits[0]);
      (if c.term.Some? then [c.term.value] else []) + WalkOut(root, c, bits[1..])
  }

  lemma {:induction false} WalkConcat(root: Tree, node: Tree, a: Bits, b: Bits)
    requires Full(root) && Full(node) && root.term.None?
    ensures WalkNode(root, node, a + b) == WalkNode(root, WalkNode(root, node, a), b)
    ensures WalkOut(root, node, a + b) == WalkOut(root, node, a) + WalkOut(root, WalkNode(root, node, a), b)
    decreases |a|
  {
    if a == [] {
      assert a + b == b;
    } else {
      assert (a + b)[1..] == a[1..] + b;
      WalkConcat(root, Step(root, node, a[0]), a[1..], b);
    }
  }

  // ---------- compiling one node ----------

  /** A table entry before printing: the node reached, or `None` for failure, and the symbol emitted. */
  datatype Entry = Entry(node: Option<Tree>, sym: Option<nat>)

  function Pow2(n: nat): (r: nat)
    ensures r >= 1
  {
    if n == 0 then 1 else 2 * Pow2(n - 1)
  }

  /** The entries below `node` after `left` more bits, smallest bit string first. */
  function Traverse(node: Tree, sym: Option<nat>, root: Tree, left: nat): (es: seq<Entry>)
    requires Full(root) && Full(node) && root.term.None?
    ensures |es| == Pow2(left)
    decreases left, 0, node
  {
    if left == 0 then
      [if sym == Some(EOS) then Entry(None, None) else Entry(Some(node), sym)]
    else
      Go(Step(root, node, false), sym, root, left - 1) + Go(Step(root, node, true), sym, root, left - 1)
  }

  function Go(child: Tree, sym: Option<nat>, root: Tree, left: nat): (es: seq<Entry>)
    requires Full(root) && Full(child) && root.term.None?
    ensures |es| == Pow2(left)
    decreases left, 1, child
  {
    Traverse(child, if child.term.Some? then child.term else sym, root, left)
  }

  /** The generator's assertion: no second symbol is completed within the `left` bits. */
  predicate AssertHolds(node: Tree, sym: Option<nat>, root: Tree, left: nat)
    requires Full(root) && Full(node) && root.term.None?
    decreases left, 0, node
  {
    left == 0
    || (AssertGo(Step(root, node, false), sym, root, left - 1) && AssertGo(Step(root, node, true), sym, root, left - 1))
  }

  predicate AssertGo(child: Tree, sym: Option<nat>, root: Tree, left: nat)
    requires Full(root) && Full(child) && root.term.None?
    decreases left, 1, child
  {
    && (child.term.Some? ==> sym.None?)
    && AssertHolds(child, if child.term.Some? then child.term else sym, root, left)
  }

  /** The `n` bits of `k`, most significant first. */
  function BitsOf(k: nat, n: nat): (r: Bits)
    requires k < Pow2(n)
    ensures |r| == n
    decreases n, k
  {
    if n == 0 then []
    else if k < Pow2(n - 1) then [false] + BitsOf(k, n - 1)
    else [true] + BitsOf(k - Pow2(n - 1), n - 1)
  }

  function Finish(node: Tree, sym: Option<nat>): Entry
  {
    if sym == Some(EOS) then Entry(None, None) else Entry(Some(node), sym)
  }

  function Last(sym: Option<nat>, out: seq<nat>): Option<nat>
  {
    if out == [] then sym else Some(out[|out| - 1])
  }

  /** Entry k describes the walk along the bits of k: where it ends, and the last symbol it completes. */
  lemma {:induction false} TraverseIsWalk(node: Tree, sym: Option<nat>, root: Tree, left: nat, k: nat)
    requires Full(root) && Full(node) && root.term.None?
    requires k < Pow2(left)
    ensures Traverse(node, sym, root, left)[k] ==
            Finish(WalkNode(root, node, BitsOf(k, left)), Last(sym, WalkOut(root, node, BitsOf(k, left))))
    decreases left
  {
    if left > 0 {
      var b := k >= Pow2(left - 1);
      var k' := if b then k - Pow2(left - 1) else k;
      var c := Step(root, node, b);
      var csym := if c.term.Some? then c.term else sym;
      TraverseIsWalk(c, csym, root, left - 1, k');
      TraverseSplit(node, sym, root, left, k, b, k');
      assert BitsOf(k, left) == [b] + BitsOf(k', left - 1);
      LastHead(root, node, sym, b, BitsOf(k', left - 1));
    }
  }

  lemma LastHead(root: Tree, node: Tree, sym: Option<nat>, b: bool, bits: Bits)
    requires Full(root) && Full(node) && root.term.None?
    ensures var c := Step(root, node, b);
            && WalkNode(root, node, [b] + bits) == WalkNode(root, c, bits)
            && Last(sym, WalkOut(root, node, [b] + bits))
            == Last(if c.term.Some? then c.term else sym, WalkOut(root, c, bits))
  {
    var c := Step(root, node, b);
    WalkHead(root, node, b, bits);
    LastOf(sym, if c.term.Some? then c.term else sym, if c.term.Some? then [c.term.value] else [],
           WalkOut(root, c, bits));
  }

  lemma LastOf(sym: Option<nat>, csym: Option<nat>, head: seq<nat>, tail: seq<nat>)
    requires csym == Last(sym, head)
    ensures Last(csym, tail) == Last(sym, head + tail)
  {
  }

  lemma WalkHead(root: Tree, node: Tree, b: bool, bits: Bits)
    requires Full(root) && Full(node) && root.term.None?
    ensures var c := Step(root, node, b);
            && WalkNode(root, node, [b] + bits) == WalkNode(root, c, bits)
            && WalkOut(root, node, [b] + bits) == (if c.term.Some? then [c.term.value] else []) + WalkOut(root, c, bits)
  {
    assert ([b] + bits)[1..] == bits;
  }

  lemma TraverseSplit(node: Tree, sym: Option<nat>, root: Tree, left: nat, k: nat, b: bool, k': nat)
    requires Full(root) && Full(node) && root.term.None?
    requires left > 0 && k < Pow2(left) && b == (k >= Pow2(left - 1)) && k == k' + (if b then Pow2(left - 1) else 0)
    ensures k' < Pow2(left - 1)
    ensures var c := Step(root, node, b);
            Traverse(node, sym, root, left)[k] == Traverse(c, if c.term.Some? then c.term else sym, root, left - 1)[k']
  {
  }

  // ---------- the assertion of the generator ----------

  /** The depth of the nearest leaf: the length of the shortest code word. */
  function Shallowest(t: Tree): nat
    requires Full(t)
  {
    if t.term.Some? then 0
    else
      var l, r := Shallowest(t.left), Shallowest(t.right);
      1 + if l < r then l else r
  }

  lemma {:induction false} SecondSymbol(node: Tree, sym: Option<nat>, root: Tree, m: nat)
    requires Full(root) && Full(node) && root.term.None? && node.term.None? && sym.Some?
    ensures AssertHolds(node, sym, root, m) <==> Shallowest(node) > m
    decreases m
  {
    if m > 0 {
      if node.left.term.None? {
        SecondSymbol(node.left, sym, root, m - 1);
      }
      if node.right.term.None? {
        SecondSymbol(node.right, sym, root, m - 1);
      }
    }
  }

  lemma {:induction false} FirstSymbol(node: Tree, root: Tree, m: nat)
    requires Full(root) && Full(node) && root.term.None? && m <= 4 && Shallowest(root) >= 4
    ensures AssertHolds(node, None, root, m)
    decreases m, 0
  {
    if m > 0 {
      var n := if node.term.Some? then root else node;
      FirstSymbolBelow(n.left, root, m - 1);
      FirstSymbolBelow(n.right, root, m - 1);
    }
  }

  lemma {:induction false} FirstSymbolBelow(c: Tree, root: Tree, m: nat)
    requires Full(root) && Full(c) && root.term.None? && m <= 3 && Shallowest(root) >= 4
    ensures AssertGo(c, None, root, m)
    decreases m, 1
  {
    if c.term.None? {
      FirstSymbol(c, root, m);
    } else if m > 0 {
      SecondSymbol(root, c.term, root, m);
    }
  }

  lemma {:induction false} SomeLeafChild(t: Tree) returns (p: Bits)
    requires Full(t) && t.term.None?
    ensures At(t, p).Node? && Full(At(t, p)) && At(t, p).term.None? && At(t, p).left.Node? && At(t, p).left.term.Some?
  {
    if t.left.term.Some? {
      p := [];
    } else {
      var q := SomeLeafChild(t.left);
      p := [false] + q;
    }
  }

  lemma {:induction false} FullAt(t: Tree, p: Bits)
    requires Full(t) && LeafShaped(t)
    ensures At(t, p).Node? ==> Full(At(t, p)) && LeafShaped(At(t, p))
    decreases |p|
  {
    if p != [] && t.term.None? {
      FullAt(Child(t, p[0]), p[1..]);
    }
  }

  ghost predicate NeverFires(root: Tree)
    requires Full(root) && root.term.None?
  {
    forall p :: Full(At(root, p)) ==> AssertHolds(At(root, p), None, root, 4)
  }

  /** The one-symbol-per-nibble assertion holds at every node exactly when no code word is
      shorter than four bits. */
  lemma AssertionNeverFires(root: Tree)
    requires Full(root) && root.term.None?
    ensures NeverFires(root) <==> Shallowest(root) >= 4
  {
    if Shallowest(root) >= 4 {
      forall p | Full(At(root, p))
        ensures AssertHolds(At(root, p), None, root, 4)
      {
        FirstSymbol(At(root, p), root, 4);
      }
    }
    var p := SomeLeafChild(root);
    var c := At(root, p).left;
    SecondSymbol(root, c.term, root, 3);
    assert AssertHolds(c, c.term, root, 3) ==> AssertHolds(root, c.term, root, 3);
    assert AssertHolds(At(root, p), None, root, 4) ==> AssertGo(c, None, root, 3);
  }

  lemma {:induction false} NoOutput(root: Tree, node: Tree, bits: Bits)
    requires Full(root) && Full(node) && root.term.None? && node.term.None?
    requires Shallowest(node) > |bits|
    ensures WalkOut(root, node, bits) == []
    decreases |bits|
  {
    if bits != [] {
      NoOutput(root, Child(node, bits[0]), bits[1..]);
    }
  }

  /** At most one code word ends within four bits. */
  lemma {:induction false} OneOutput(root: Tree, node: Tree, bits: Bits)
    requires Full(root) && Full(node) && root.term.None? && Shallowest(root) >= 4 && |bits| <= 4
    ensures |WalkOut(root, node, bits)| <= 1
    decreases |bits|
  {
    if bits != [] {
      var c := Step(root, node, bits[0]);
      if c.term.Some? {
        if bits[1..] != [] {
          NoOutput(root, root, bits[1..]);
          assert WalkOut(root, c, bits[1..]) == WalkOut(root, root, bits[1..]);
        }
      } else {
        OneOutput(root, c, bits[1..]);
      }
    }
  }

  // ---------- the printed table ----------

  /** One printed entry. */
  datatype Cell = Cell(state: nat, flags: bv8, sym: nat)

  type Table = seq<seq<Cell>>

  function Print(e: Entry): Cell
  {
    var flags: bv8 := if e.sym.Some? then SYM else 0;
    var out := if e.sym.Some? then e.sym.value else 0;
    match e.node
    case None => Cell(0, flags | FAIL, out)
    case Some(nd) =>
      if !nd.Node? || nd.id.None? then Cell(0, flags | ACCEPTED, out)
      else Cell(nd.id.value, if nd.accept then flags | ACCEPTED else flags, out)
  }

  predicate Has(flags: bv8, bit: bv8)
  {
    flags & bit != 0
  }

  lemma PrintFlags(e: Entry)
    ensures Has(Print(e).flags, SYM) <==> e.sym.Some?
    ensures Has(Print(e).flags, FAIL) <==> e.node.None?
    ensures e.node.Some? && e.node.value.Node? ==>
              (Has(Print(e).flags, ACCEPTED) <==> e.node.value.id.None? || e.node.value.accept)
  {
  }

  function PrintRow(es: seq<Entry>): (r: seq<Cell>)
    ensures |r| == |es|
    ensures forall k :: 0 <= k < |es| ==> r[k] == Print(es[k])
  {
    if es == [] then [] else PrintRow(es[..|es| - 1]) + [Print(es[|es| - 1])]
  }

  function Row(root: Tree, node: Tree): (r: seq<Cell>)
    requires Full(root) && Full(node) && root.term.None?
    ensures |r| == 16
  {
    assert Pow2(4) == 16;
    PrintRow(Traverse(node, None, root, 4))
  }

  /** The rows below `t`, in printing order. */
  function Rows(root: Tree, t: Tree): (rows: Table)
    requires Full(root) && Full(t) && root.term.None?
    ensures |rows| == Inner(t)
    ensures forall i :: 0 <= i < |rows| ==> |rows[i]| == 16
    decreases t
  {
    if t.term.Some? then [] else [Row(root, t)] + Rows(root, t.left) + Rows(root, t.right)
  }

  lemma {:induction false} RowsByNode(root: Tree, t: Tree, i: nat)
    requires Full(root) && Full(t) && root.term.None? && i < Inner(t)
    ensures Rows(root, t)[i] == Row(root, InnerNodes(t)[i])
  {
    var here, below := [Row(root, t)], Rows(root, t.left);
    assert Rows(root, t) == here + below + Rows(root, t.right);
    if 0 < i <= |below| {
      RowsByNode(root, t.left, i - 1);
    } else if i > |below| {
      RowsByNode(root, t.right, i - 1 - |below|);
    }
  }

  /** The row printed in position i belongs to the node whose id is i. */
  lemma RowOfId(root: Tree, p: Bits)
    requires Full(root) && LeafShaped(root) && IdsFrom(root, 0) && root.term.None? && InnerAt(root, p)
    ensures var n := At(root, p);
            && Full(n) && n.id.Some? && n.id.value < |Rows(root, root)|
            && Rows(root, root)[n.id.value] == Row(root, n)
  {
    FullAt(root, p);
    IdAt(root, 0, p);
    RowsByNode(root, root, At(root, p).id.value);
  }

  // ---------- running the table ----------

  datatype Outcome = Failed | Decoded(syms: seq<nat>, accepted: bool)

  ghost predicate Runnable(table: Table)
  {
    && |table| > 0
    && (forall i :: 0 <= i < |table| ==> |table[i]| == 16)
    && (forall i, k :: 0 <= i < |table| && 0 <= k < 16 ==> table[i][k].state < |table|)
  }

  type Nibble = x: int | 0 <= x < 16

  /** The consumer of the table: follow `state`, emit `sym` under SYM, stop on FAIL, and report
      whether the last entry had ACCEPTED (`accepted` covers the empty input). */
  ghost function Run(table: Table, state: nat, accepted: bool, input: seq<Nibble>): Outcome
    requires Runnable(table) && state < |table|
    decreases |input|
  {
    if input == [] then Decoded([], accepted)
    else
      var e := table[state][input[0]];
      if Has(e.flags, FAIL) then Failed
      else
        match Run(table, e.state, Has(e.flags, ACCEPTED), input[1..])
        case Failed => Failed
        case Decoded(syms, acc) => Decoded((if Has(e.flags, SYM) then [e.sym] else []) + syms, acc)
  }

  /** The four bits of a nibble, most significant first. */
  function NibbleBits(n: Nibble): (r: Bits)
    ensures |r| == 4
  {
    var m := if n >= 8 then n - 8 else n;
    var l := if m >= 4 then m - 4 else m;
    [n >= 8, m >= 4, l >= 2, l == 1 || l == 3]
  }

  function BitsOfNibbles(input: seq<Nibble>): (r: Bits)
    ensures |r| == 4 * |input|
  {
    if input == [] then [] else NibbleBits(input[0]) + BitsOfNibbles(input[1..])
  }
}
