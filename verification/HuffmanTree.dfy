/** The binary code tree of client/src/mkhufftbl.py, seen as a value. */
module HuffmanTree {
  import opened Options

  /** A code word; `false` is the character '0' and `true` the character '1'. */
  type Bits = seq<bool>

  /** One line of the code table: a symbol and its code word. */
  datatype Code = Code(sym: nat, bits: Bits)

  /** A tree node with the fields of the generator's `Node` class; `Empty` is a missing child. */
  datatype Tree =
    | Empty
    | Node(term: Option<nat>, id: Option<nat>, accept: bool, left: Tree, right: Tree)

  const FRESH := Node(None, None, false, Empty, Empty)

  /** Insertion of one code word below the node `t`. */
  function Add(t: Tree, sym: nat, bits: Bits): (r: Tree)
    requires t.Node?
    ensures r.Node?
    decreases |bits|
  {
    if bits == [] then t.(term := Some(sym))
    else if !bits[0] then t.(left := Add(if t.left.Empty? then FRESH else t.left, sym, bits[1..]))
    else t.(right := Add(if t.right.Empty? then FRESH else t.right, sym, bits[1..]))
  }

  /** The tree after inserting the lines of the code table in order. */
  function Build(codes: seq<Code>): (r: Tree)
    ensures r.Node?
  {
    if codes == [] then FRESH
    else
      var last := codes[|codes| - 1];
      Add(Build(codes[..|codes| - 1]), last.sym, last.bits)
  }

  function Child(t: Tree, b: bool): Tree
    requires t.Node?
  {
    if b then t.right else t.left
  }

  /** The node reached from `t` along `path`, or `Empty` when there is none. */
  function At(t: Tree, path: Bits): Tree
    decreases |path|
  {
    if t.Empty? || path == [] then t else At(Child(t, path[0]), path[1..])
  }

  ghost predicate PrefixFree(codes: seq<Code>)
  {
    forall i, j :: 0 <= i < |codes| && 0 <= j < |codes| && i != j ==> !(codes[i].bits <= codes[j].bits)
  }

  ghost predicate DistinctSymbols(codes: seq<Code>)
  {
    forall i, j :: 0 <= i < |codes| && 0 <= j < |codes| && codes[i].sym == codes[j].sym ==> i == j
  }

  // ---------- what insertion does to every path ----------

  lemma {:induction false} AddAt(t: Tree, sym: nat, bits: Bits, p: Bits)
    requires t.Node?
    ensures At(Add(t, sym, bits), p).Node? <==> (At(t, p).Node? || p <= bits)
    ensures At(Add(t, sym, bits), p).Node? ==>
              At(Add(t, sym, bits), p).term ==
              if p == bits then Some(sym) else if At(t, p).Node? then At(t, p).term else None
    decreases |bits|
  {
    if bits == [] {
      if p != [] {
        assert At(Add(t, sym, bits), p) == At(t, p);
      }
    } else if p != [] {
      if p[0] == bits[0] {
        var c := Child(t, bits[0]);
        var c' := if c.Empty? then FRESH else c;
        AddAt(c', sym, bits[1..], p[1..]);
        assert p <= bits <==> p[1..] <= bits[1..];
        assert p == [p[0]] + p[1..] && bits == [bits[0]] + bits[1..];
        if c.Empty? && p[1..] != [] {
          assert At(FRESH, p[1..]) == At(Empty, p[1..][1..]);
        }
      }
    }
  }

  ghost predicate Begins(codes: seq<Code>, p: Bits)
  {
    p == [] || exists i :: 0 <= i < |codes| && p <= codes[i].bits
  }

  lemma BeginsSnoc(front: seq<Code>, last: Code, p: Bits)
    ensures Begins(front + [last], p) <==> Begins(front, p) || p <= last.bits
  {
    var codes := front + [last];
    assert codes[|front|] == last;
    if i :| 0 <= i < |front| && p <= front[i].bits {
      assert codes[i] == front[i];
    }
  }

  /** Every path of a built tree: it exists exactly when it begins some code word, and it carries
      a symbol exactly when it is that symbol's whole code word. */
  lemma {:induction false} BuildAt(codes: seq<Code>, p: Bits)
    requires PrefixFree(codes)
    ensures At(Build(codes), p).Node? <==> Begins(codes, p)
    ensures forall s: nat :: (At(Build(codes), p).Node? && At(Build(codes), p).term == Some(s)) <==> Code(s, p) in codes
  {
    if codes == [] {
      if p != [] {
        assert At(FRESH, p) == At(Empty, p[1..]);
      }
    } else {
      var front, last := codes[..|codes| - 1], codes[|codes| - 1];
      FrontOf(codes, p);
      BuildAt(front, p);
      BeginsSnoc(front, last, p);
      AddAt(Build(front), last.sym, last.bits, p);
    }
  }

  /** A prefix-free code without its last word: that word is not among the rest, and no other is lost. */
  lemma FrontOf(codes: seq<Code>, p: Bits)
    requires PrefixFree(codes) && codes != []
    ensures var front, last := codes[..|codes| - 1], codes[|codes| - 1];
            && codes == front + [last] && PrefixFree(front)
            && (forall s: nat :: Code(s, p) in codes <==> Code(s, p) in front || Code(s, p) == last)
            && (p == last.bits ==> forall s: nat :: Code(s, p) !in front)
  {
    var front, last := codes[..|codes| - 1], codes[|codes| - 1];
    assert codes == front + [last];
    assert forall i :: 0 <= i < |front| ==> front[i] == codes[i] && front[i].bits != last.bits;
  }

  // ---------- insertion order does not matter ----------

  /** No ids and no accept marks yet. */
  predicate Blank(t: Tree)
  {
    t.Node? ==> t.id == None && !t.accept && Blank(t.left) && Blank(t.right)
  }

  lemma {:induction false} AddBlank(t: Tree, sym: nat, bits: Bits)
    requires t.Node? && Blank(t)
    ensures Blank(Add(t, sym, bits))
    decreases |bits|
  {
    if bits != [] {
      var c := Child(t, bits[0]);
      AddBlank(if c.Empty? then FRESH else c, sym, bits[1..]);
    }
  }

  lemma {:induction false} BuildBlank(codes: seq<Code>)
    ensures Blank(Build(codes))
  {
    if codes != [] {
      var n := |codes| - 1;
      BuildBlank(codes[..n]);
      AddBlank(Build(codes[..n]), codes[n].sym, codes[n].bits);
    }
  }

  ghost predicate SamePath(t: Tree, u: Tree, p: Bits)
  {
    && (At(t, p).Node? <==> At(u, p).Node?)
    && (At(t, p).Node? ==> At(u, p).Node? && At(t, p).term == At(u, p).term)
  }

  lemma {:induction false} BlankExtensional(t: Tree, u: Tree)
    requires Blank(t) && Blank(u)
    requires forall p :: SamePath(t, u, p)
    ensures t == u
    decreases t
  {
    assert SamePath(t, u, []);
    if t.Node? {
      forall p
        ensures SamePath(t.left, u.left, p) && SamePath(t.right, u.right, p)
      {
        assert SamePath(t, u, [false] + p) && SamePath(t, u, [true] + p);
        assert ([false] + p)[1..] == p && ([true] + p)[1..] == p;
      }
      BlankExtensional(t.left, u.left);
      BlankExtensional(t.right, u.right);
    }
  }

  /** Two listings of the same prefix-free code, in any order, build the same tree. */
  lemma OrderIndependent(c: seq<Code>, d: seq<Code>)
    requires PrefixFree(c) && PrefixFree(d)
    requires forall x :: x in c <==> x in d
    ensures Build(c) == Build(d)
  {
    forall p
      ensures SamePath(Build(c), Build(d), p)
    {
      BuildAt(c, p);
      BuildAt(d, p);
      if i :| 0 <= i < |c| && p <= c[i].bits {
        assert c[i] in d;
      }
      if i :| 0 <= i < |d| && p <= d[i].bits {
        assert d[i] in c;
      }
      if At(Build(c), p).Node? {
        var t, u := At(Build(c), p).term, At(Build(d), p).term;
        if t.Some? {
          assert u == Some(t.value);
        } else if u.Some? {
          assert t == Some(u.value);
        }
      }
    }
    BuildBlank(c);
    BuildBlank(d);
    BlankExtensional(Build(c), Build(d));
  }

  // ---------- leaves, completeness and the Kraft sum ----------

  /** A leaf carries a symbol and nothing below it; an inner node carries none. */
  predicate LeafShaped(t: Tree)
  {
    t.Node? ==>
      if t.term.Some? then t.left.Empty? && t.right.Empty? else LeafShaped(t.left) && LeafShaped(t.right)
  }

  /** No half-open inner node: the recursions of the generator never meet a missing child. */
  predicate Full(t: Tree)
  {
    t.Node? && (t.term.None? ==> Full(t.left) && Full(t.right))
  }

  function Leaves(t: Tree): nat
  {
    if t.Empty? then 0 else if t.term.Some? then 1 else Leaves(t.left) + Leaves(t.right)
  }

  function Inner(t: Tree): nat
  {
    if t.Empty? || t.term.Some? then 0 else 1 + Inner(t.left) + Inner(t.right)
  }

  function Share(n: nat): (r: real)
    ensures 0.0 < r <= 1.0
  {
    if n == 0 then 1.0 else Share(n - 1) / 2.0
  }

  /** The Kraft sum of a code: each word of length n takes a share of 1 / 2^n. */
  function Kraft(codes: seq<Code>): real
  {
    if codes == [] then 0.0 else Kraft(codes[..|codes| - 1]) + Share(|codes[|codes| - 1].bits|)
  }

  function Weight(t: Tree): real
  {
    if t.Empty? then 0.0
    else if t.term.Some? then 1.0
    else (Weight(t.left) + Weight(t.right)) / 2.0
  }

  /** `bits` neither passes through a leaf of `t` nor stops at a node that already exists. */
  predicate Insertable(t: Tree, bits: Bits)
    decreases |bits|
  {
    t.Empty?
    || (t.term.None?
        && if bits == [] then t.left.Empty? && t.right.Empty? else Insertable(Child(t, bits[0]), bits[1..]))
  }

  lemma {:induction false} AddCounts(t: Tree, sym: nat, bits: Bits)
    requires t.Node? && LeafShaped(t) && Insertable(t, bits)
    ensures LeafShaped(Add(t, sym, bits))
    ensures Leaves(Add(t, sym, bits)) == Leaves(t) + 1
    ensures Weight(Add(t, sym, bits)) == Weight(t) + Share(|bits|)
    decreases |bits|
  {
    if bits != [] {
      var c := Child(t, bits[0]);
      AddCounts(if c.Empty? then FRESH else c, sym, bits[1..]);
    }
  }

  lemma {:induction false} InsertableByPaths(t: Tree, bits: Bits)
    requires LeafShaped(t)
    requires forall p :: p <= bits && At(t, p).Node? ==> At(t, p).term.None?
    requires forall p :: bits < p ==> At(t, p).Empty?
    ensures Insertable(t, bits)
    decreases |bits|
  {
    if t.Node? {
      assert [] <= bits && At(t, []).term.None?;
      if bits == [] {
        assert At(t, [false]).Empty? && At(t, [true]).Empty?;
        assert At(t, [false]) == At(t.left, []) && At(t, [true]) == At(t.right, []);
      } else {
        var b := bits[0];
        forall p | p <= bits[1..] && At(Child(t, b), p).Node?
          ensures At(Child(t, b), p).term.None?
        {
          assert ([b] + p)[1..] == p && [b] + p <= bits;
          assert At(t, [b] + p) == At(Child(t, b), p);
        }
        forall p | bits[1..] < p
          ensures At(Child(t, b), p).Empty?
        {
          assert ([b] + p)[1..] == p && bits < [b] + p;
          assert At(t, [b] + p) == At(Child(t, b), p);
        }
        InsertableByPaths(Child(t, b), bits[1..]);
      }
    }
  }

  /** The last word of a prefix-free code finds a free place in the tree of the others. */
  lemma LastInsertable(codes: seq<Code>)
    requires codes != [] && PrefixFree(codes) && LeafShaped(Build(codes[..|codes| - 1]))
    ensures Insertable(Build(codes[..|codes| - 1]), codes[|codes| - 1].bits)
  {
    var n := |codes| - 1;
    var front, last := codes[..n], codes[n];
    assert forall i :: 0 <= i < n ==> front[i] == codes[i];
    forall p | p <= last.bits && At(Build(front), p).Node?
      ensures At(Build(front), p).term.None?
    {
      BuildAt(front, p);
      assert forall i :: 0 <= i < n ==> front[i].bits != p;
      assert forall s: nat :: Code(s, p) !in front;
    }
    forall p | last.bits < p
      ensures At(Build(front), p).Empty?
    {
      BuildAt(front, p);
      assert forall i :: 0 <= i < n && p <= codes[i].bits ==> codes[n].bits <= codes[i].bits;
    }
    InsertableByPaths(Build(front), last.bits);
  }

  /** A prefix-free code has one leaf per word, and the weight of its tree is its Kraft sum. */
  lemma {:induction false} BuildCounts(codes: seq<Code>)
    requires PrefixFree(codes)
    ensures LeafShaped(Build(codes))
    ensures Leaves(Build(codes)) == |codes|
    ensures Weight(Build(codes)) == Kraft(codes)
  {
    if codes != [] {
      var n := |codes| - 1;
      var front, last := codes[..n], codes[n];
      assert forall i :: 0 <= i < n ==> front[i] == codes[i];
      BuildCounts(front);
      LastInsertable(codes);
      AddCounts(Build(front), last.sym, last.bits);
    }
  }

  lemma {:induction false} WeightFull(t: Tree)
    requires LeafShaped(t)
    ensures Weight(t) <= 1.0
    ensures Weight(t) == 1.0 <==> Full(t)
  {
    if t.Node? && t.term.None? {
      WeightFull(t.left);
      WeightFull(t.right);
    }
  }

  lemma {:induction false} FullCounts(t: Tree)
    requires Full(t)
    ensures Leaves(t) == Inner(t) + 1
  {
    if t.term.None? {
      FullCounts(t.left);
      FullCounts(t.right);
    }
  }

  /** A prefix-free code has a tree without half-open nodes exactly when its Kraft sum is 1;
      such a tree has one inner node fewer than it has code words. */
  lemma CompleteIffKraftOne(codes: seq<Code>)
    requires PrefixFree(codes)
    ensures Kraft(codes) <= 1.0
    ensures Full(Build(codes)) <==> Kraft(codes) == 1.0
    ensures Full(Build(codes)) ==> Inner(Build(codes)) == |codes| - 1
  {
    BuildCounts(codes);
    WeightFull(Build(codes));
    if Full(Build(codes)) {
      FullCounts(Build(codes));
    }
  }
}
