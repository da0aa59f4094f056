/** The table decoder against the bit-by-bit decoder, and against the encoder of
    section 5.2 of RFC 7541. */
module HuffmanCodec {
  import opened Options
  import opened HuffmanTree
  import opened HuffmanTable

  /** A numbered tree the generator can compile: full, with ids and accept marks in place. */
  ghost predicate Compilable(root: Tree)
  {
    && Full(root) && LeafShaped(root) && root.term.None?
    && IdsFrom(root, 0) && MarksFrom(root, [])
    && Shallowest(root) >= 4
  }

  // ---------- the table refines the bit-by-bit walk ----------

  predicate Accepts(node: Tree)
  {
    node.Node? && (node.term.Some? || node.accept)
  }

  /** A finished code word leaves the table in state 0, the root. */
  function StateOf(node: Tree): nat
  {
    if node.Node? && node.id.Some? then node.id.value else 0
  }

  lemma {:induction false} WalkPath(root: Tree, p: Bits, bits: Bits) returns (q: Bits)
    requires Full(root) && LeafShaped(root) && root.term.None? && At(root, p).Node? && Full(At(root, p))
    ensures At(root, q) == WalkNode(root, At(root, p), bits) && At(root, q).Node?
    decreases |bits|
  {
    if bits == [] {
      q := p;
    } else {
      var from := if At(root, p).term.Some? then [] else p;
      AtConcat(root, from, [bits[0]]);
      assert At(root, from + [bits[0]]) == Step(root, At(root, p), bits[0]);
      q := WalkPath(root, from + [bits[0]], bits[1..]);
    }
  }

  lemma {:induction false} AtConcat(t: Tree, p: Bits, q: Bits)
    ensures At(t, p + q) == At(At(t, p), q)
    decreases |p|
  {
    if p == [] {
      assert p + q == q;
    } else if t.Node? {
      assert (p + q)[1..] == p[1..] + q;
      AtConcat(Child(t, p[0]), p[1..], q);
    }
  }

  /** A leaf and the root read the same bits the same way. */
  lemma LeafIsRoot(root: Tree, leaf: Tree, bits: Bits)
    requires Full(root) && Full(leaf) && root.term.None? && leaf.term.Some?
    ensures WalkOut(root, leaf, bits) == WalkOut(root, root, bits)
    ensures bits != [] ==> WalkNode(root, leaf, bits) == WalkNode(root, root, bits)
  {
  }

  lemma TableRunnable(root: Tree)
    requires Compilable(root)
    ensures Runnable(Rows(root, root))
  {
    var table: Table := Rows(root, root);
    forall i: nat, k: nat | i < |table| && k < 16
      ensures table[i][k].state < |table|
    {
      var p := IdOnto(root, 0, i);
      FullAt(root, p);
      RowOfId(root, p);
      var q := CellIsWalk(root, p, k);
    }
  }

  lemma NibbleBitsOf(k: Nibble)
    ensures k < Pow2(4) && BitsOf(k, 4) == NibbleBits(k)
  {
    assert Pow2(4) == 16 && Pow2(3) == 8 && Pow2(2) == 4 && Pow2(1) == 2 && Pow2(0) == 1;
    var k3 := if k < 8 then k else k - 8;
    var k2 := if k3 < 4 then k3 else k3 - 4;
    var k1 := if k2 < 2 then k2 else k2 - 2;
    var k0 := if k1 < 1 then k1 else k1 - 1;
    assert BitsOf(k0, 0) == [];
    assert BitsOf(k1, 1) == [k1 >= 1];
    assert BitsOf(k2, 2) == [k2 >= 2, k1 >= 1];
    assert BitsOf(k3, 3) == [k3 >= 4, k2 >= 2, k1 >= 1];
    assert BitsOf(k, 4) == [k >= 8, k3 >= 4, k2 >= 2, k1 >= 1];
  }

  lemma RowCell(root: Tree, node: Tree, k: Nibble)
    requires Full(root) && Full(node) && root.term.None?
    ensures Row(root, node)[k] ==
            Print(Finish(WalkNode(root, node, NibbleBits(k)), Last(None, WalkOut(root, node, NibbleBits(k)))))
  {
    NibbleBitsOf(k);
    TraverseIsWalk(node, None, root, 4, k);
  }

  /** What a printed entry says about a walk that ends at `m` and completes the symbols `out`. */
  ghost predicate Describes(e: Cell, m: Tree, out: seq<nat>)
  {
    && |out| <= 1 && m.Node?
    && (Has(e.flags, FAIL) <==> out == [EOS])
    && (out == [EOS] ==> e.state == 0 && e.sym == 0)
    && (out != [EOS] ==>
          && (Has(e.flags, SYM) <==> out != [])
          && e.sym == (if out == [] then 0 else out[0])
          && (Has(e.flags, ACCEPTED) <==> Accepts(m))
          && e.state == StateOf(m))
  }

  lemma PrintDescribes(m: Tree, out: seq<nat>)
    requires |out| <= 1 && m.Node? && (m.term.Some? ==> m.id.None?) && (m.term.None? ==> m.id.Some?)
    ensures Describes(Print(Finish(m, Last(None, out))), m, out)
  {
    PrintFlags(Finish(m, Last(None, out)));
  }

  /** Entry k of a row: what reading the nibble k bit by bit does from that row's node. */
  lemma CellIsWalk(root: Tree, p: Bits, k: Nibble) returns (q: Bits)
    requires Compilable(root) && InnerAt(root, p) && Full(At(root, p))
    ensures var n := At(root, p);
            Describes(Row(root, n)[k], WalkNode(root, n, NibbleBits(k)), WalkOut(root, n, NibbleBits(k)))
    ensures At(root, q) == WalkNode(root, At(root, p), NibbleBits(k)) && At(root, q).Node?
    ensures StateOf(At(root, q)) < Inner(root)
  {
    var n := At(root, p);
    var bits := NibbleBits(k);
    RowCell(root, n, k);
    OneOutput(root, n, bits);
    q := WalkPath(root, p, bits);
    MarkAt(root, [], q);
    if InnerAt(root, q) {
      IdAt(root, 0, q);
    }
    PrintDescribes(WalkNode(root, n, bits), WalkOut(root, n, bits));
  }

  /** The outcome of the bit-by-bit decoder, in the table's terms. */
  ghost function WalkOutcome(root: Tree, node: Tree, accepted: bool, bits: Bits): Outcome
    requires Full(root) && Full(node) && root.term.None?
  {
    var out := WalkOut(root, node, bits);
    if EOS in out then Failed
    else Decoded(out, if bits == [] then accepted else Accepts(WalkNode(root, node, bits)))
  }

  function Prepend(out: seq<nat>, rest: Outcome): Outcome
  {
    match rest
    case Failed => Failed
    case Decoded(syms, accepted) => Decoded(out + syms, accepted)
  }

  lemma WalkOutcomeStep(root: Tree, node: Tree, accepted: bool, b: Bits, rest: Bits)
    requires Full(root) && Full(node) && root.term.None? && b != []
    requires |WalkOut(root, node, b)| <= 1
    ensures var out, next := WalkOut(root, node, b), WalkNode(root, node, b);
            WalkOutcome(root, node, accepted, b + rest) ==
            if out == [EOS] then Failed else Prepend(out, WalkOutcome(root, next, Accepts(next), rest))
  {
    WalkConcat(root, node, b, rest);
  }

  lemma RunStep(table: Table, state: nat, accepted: bool, input: seq<Nibble>, m: Tree, out: seq<nat>)
    requires Runnable(table) && state < |table| && input != []
    requires Describes(table[state][input[0]], m, out)
    ensures StateOf(m) < |table| || out == [EOS]
    ensures Run(table, state, accepted, input) ==
            if out == [EOS] then Failed else Prepend(out, Run(table, StateOf(m), Accepts(m), input[1..]))
  {
    var e := table[state][input[0]];
    assert e.state < |table|;
    if out != [EOS] {
      assert (if Has(e.flags, SYM) then [e.sym] else []) == out;
    }
  }

  lemma CellOfState(root: Tree, p: Bits, k: Nibble) returns (q: Bits, e: Cell)
    requires Compilable(root) && At(root, p).Node? && Full(At(root, p))
    requires Runnable(Rows(root, root)) && StateOf(At(root, p)) < |Rows(root, root)|
    ensures e == Rows(root, root)[StateOf(At(root, p))][k]
    ensures At(root, q) == WalkNode(root, At(root, p), NibbleBits(k)) && At(root, q).Node?
    ensures Describes(e, At(root, q), WalkOut(root, At(root, p), NibbleBits(k)))
    ensures StateOf(At(root, q)) < |Rows(root, root)|
  {
    MarkAt(root, [], p);
    var n := At(root, p);
    var from := if n.term.Some? then [] else p;
    IdAt(root, 0, from);
    RowOfId(root, from);
    q := CellIsWalk(root, from, k);
    if n.term.Some? {
      LeafIsRoot(root, n, NibbleBits(k));
    }
    e := Rows(root, root)[StateOf(n)][k];
  }

  /** The 16-way table fails on an input exactly when the bit-by-bit walk completes EOS; otherwise it
      emits the same symbols and accepts exactly when the walk ends at an accepting node. */
  lemma {:induction false} RunIsWalk(root: Tree, p: Bits, accepted: bool, input: seq<Nibble>)
    requires Compilable(root) && At(root, p).Node? && Full(At(root, p))
    requires Runnable(Rows(root, root)) && StateOf(At(root, p)) < |Rows(root, root)|
    ensures Run(Rows(root, root), StateOf(At(root, p)), accepted, input) ==
            WalkOutcome(root, At(root, p), accepted, BitsOfNibbles(input))
    decreases |input|
  {
    if input != [] {
      var n := At(root, p);
      var b, rest := NibbleBits(input[0]), BitsOfNibbles(input[1..]);
      var q, e := CellOfState(root, p, input[0]);
      FullAt(root, q);
      WalkOutcomeStep(root, n, accepted, b, rest);
      RunStep(Rows(root, root), StateOf(n), accepted, input, At(root, q), WalkOut(root, n, b));
      RunIsWalk(root, q, Accepts(At(root, q)), input[1..]);
    }
  }

  // ---------- code books ----------

  /** A complete prefix-free code with no word under four bits. */
  ghost predicate CodeBook(codes: seq<Code>)
  {
    && PrefixFree(codes) && DistinctSymbols(codes)
    && Kraft(codes) == 1.0
    && forall i :: 0 <= i < |codes| ==> |codes[i].bits| >= 4
  }

  /** EOS is in the book, all ones and at least eight bits long. */
  ghost predicate HasEos(codes: seq<Code>)
  {
    exists c :: c in codes && c.sym == EOS && AllOnes(c.bits) && |c.bits| >= 8
  }

  predicate AllOnes(bits: Bits)
  {
    forall i :: 0 <= i < |bits| ==> bits[i]
  }

  function Ones(n: nat): (r: Bits)
    ensures |r| == n && AllOnes(r)
  {
    if n == 0 then [] else Ones(n - 1) + [true]
  }

  predicate LeafAt(t: Tree, p: Bits, s: nat)
  {
    At(t, p).Node? && At(t, p).term == Some(s)
  }

  /** The leaves of a compilable tree are exactly the words of a code with distinct symbols. */
  ghost predicate Represents(t: Tree, codes: seq<Code>)
  {
    && Compilable(t)
    && DistinctSymbols(codes)
    && forall p, s: nat :: LeafAt(t, p, s) <==> Code(s, p) in codes
  }

  lemma ProperPrefixInner(t: Tree, p: Bits, q: Bits)
    requires LeafShaped(t) && At(t, p).Node? && q <= p && q != p
    ensures InnerAt(t, q)
  {
    assert p == q + p[|q|..];
    AtConcat(t, q, p[|q|..]);
    LeafShapedAt(t, q);
    if At(t, q).Node? && At(t, q).term.Some? {
      LeafPath(At(t, q), p[|q|..]);
    }
  }

  lemma {:induction false} LeafShapedAt(t: Tree, p: Bits)
    requires LeafShaped(t)
    ensures LeafShaped(At(t, p))
    decreases |p|
  {
    if p != [] && t.Node? {
      LeafShapedAt(Child(t, p[0]), p[1..]);
    }
  }

  /** The generator's pipeline: insert every word, number the tree, compile it. */
  function TreeOf(codes: seq<Code>): Tree
    requires Full(Build(codes))
  {
    Number(Build(codes), 0, []).0
  }

  lemma BookIsFull(codes: seq<Code>)
    requires PrefixFree(codes) && Kraft(codes) == 1.0
    ensures Full(Build(codes)) && LeafShaped(Build(codes))
  {
    CompleteIffKraftOne(codes);
    BuildCounts(codes);
  }

  lemma {:induction false} NearestLeaf(t: Tree) returns (p: Bits)
    requires Full(t) && LeafShaped(t)
    ensures At(t, p).Node? && At(t, p).term.Some? && |p| == Shallowest(t)
  {
    if t.term.Some? {
      p := [];
    } else if Shallowest(t.left) < Shallowest(t.right) {
      var q := NearestLeaf(t.left);
      p := [false] + q;
    } else {
      var q := NearestLeaf(t.right);
      p := [true] + q;
    }
  }

  /** A code book compiles: the recursions are total, the generator's assertion never fires, the
      leaves of the tree are the words of the book, and there is one row fewer than there are words. */
  lemma BookCompiles(codes: seq<Code>)
    requires CodeBook(codes)
    ensures Full(Build(codes)) && Represents(TreeOf(codes), codes) && NeverFires(TreeOf(codes))
    ensures Runnable(Rows(TreeOf(codes), TreeOf(codes)))
    ensures |Rows(TreeOf(codes), TreeOf(codes))| == |codes| - 1
  {
    BookIsFull(codes);
    CompleteIffKraftOne(codes);
    BuildBlank(codes);
    NumberShape(Build(codes), 0, []);
    var t := TreeOf(codes);
    forall p, s: nat
      ensures LeafAt(t, p, s) <==> Code(s, p) in codes
    {
      BuildAt(codes, p);
      NumberKeeps(Build(codes), 0, [], p);
    }
    var p := NearestLeaf(t);
    assert LeafAt(t, p, At(t, p).term.value);
    AssertionNeverFires(t);
    TableRunnable(t);
  }

  // ---------- encoding ----------

  predicate InBook(codes: seq<Code>, s: nat)
  {
    exists i :: 0 <= i < |codes| && codes[i].sym == s
  }

  function WordOf(codes: seq<Code>, s: nat): (r: Bits)
    requires InBook(codes, s)
    ensures Code(s, r) in codes
  {
    if codes[0].sym == s then codes[0].bits else WordOf(codes[1..], s)
  }

  lemma WordUnique(codes: seq<Code>, s: nat, w: Bits)
    requires DistinctSymbols(codes) && Code(s, w) in codes
    ensures InBook(codes, s) && WordOf(codes, s) == w
  {
    var i :| 0 <= i < |codes| && codes[i] == Code(s, w);
    assert codes[i].sym == s;
    var j :| 0 <= j < |codes| && codes[j] == Code(s, WordOf(codes, s));
  }

  predicate AllInBook(codes: seq<Code>, msg: seq<nat>)
  {
    forall i :: 0 <= i < |msg| ==> InBook(codes, msg[i])
  }

  /** A message the encoder accepts: symbols of the book other than EOS. */
  predicate Message(codes: seq<Code>, msg: seq<nat>)
  {
    AllInBook(codes, msg) && EOS !in msg
  }

  function Encode(codes: seq<Code>, msg: seq<nat>): Bits
    requires AllInBook(codes, msg)
  {
    if msg == [] then [] else WordOf(codes, msg[0]) + Encode(codes, msg[1..])
  }

  lemma {:induction false} EncodeConcat(codes: seq<Code>, a: seq<nat>, b: seq<nat>)
    requires AllInBook(codes, a) && AllInBook(codes, b)
    ensures AllInBook(codes, a + b) && Encode(codes, a + b) == Encode(codes, a) + Encode(codes, b)
    decreases |a|
  {
    if a == [] {
      assert a + b == b;
    } else {
      assert (a + b)[1..] == a[1..] + b;
      EncodeConcat(codes, a[1..], b);
    }
  }

  // ---------- walking along encodings ----------

  /** Walking down the tree emits nothing before its last step. */
  lemma {:induction false} WalkDown(root: Tree, p: Bits, bits: Bits)
    requires Full(root) && LeafShaped(root) && root.term.None? && InnerAt(root, p) && At(root, p + bits).Node?
    ensures Full(At(root, p)) && Full(At(root, p + bits))
    ensures WalkNode(root, At(root, p), bits) == At(root, p + bits)
    ensures WalkOut(root, At(root, p), bits) ==
            if bits != [] && At(root, p + bits).term.Some? then [At(root, p + bits).term.value] else []
    decreases |bits|
  {
    FullAt(root, p);
    FullAt(root, p + bits);
    if bits == [] {
      assert p + bits == p;
    } else {
      var q, rest := p + [bits[0]], bits[1..];
      assert q + rest == p + bits && bits == [bits[0]] + rest;
      AtConcat(root, p, [bits[0]]);
      AtConcat(root, q, rest);
      assert At(root, q) == Step(root, At(root, p), bits[0]);
      WalkHead(root, At(root, p), bits[0], rest);
      if rest != [] {
        ProperPrefixInner(root, q + rest, q);
        WalkDown(root, q, rest);
      }
    }
  }

  lemma WalkWord(t: Tree, codes: seq<Code>, s: nat, rest: Bits)
    requires Represents(t, codes) && InBook(codes, s)
    ensures WordOf(codes, s) != []
    ensures var bits := WordOf(codes, s) + rest;
            && WalkOut(t, t, bits) == [s] + WalkOut(t, t, rest)
            && if rest == [] then Accepts(WalkNode(t, t, bits)) else WalkNode(t, t, bits) == WalkNode(t, t, rest)
  {
    var w := WordOf(codes, s);
    assert LeafAt(t, w, s);
    assert [] + w == w && At(t, []) == t;
    WalkDown(t, [], w);
    WalkConcat(t, t, w, rest);
    LeafIsRoot(t, At(t, w), rest);
  }

  /** Reading an encoded message emits it and then reads on as if from the root. */
  lemma {:induction false} WalkEncoded(t: Tree, codes: seq<Code>, msg: seq<nat>, rest: Bits)
    requires Represents(t, codes) && AllInBook(codes, msg)
    ensures var bits := Encode(codes, msg) + rest;
            && WalkOut(t, t, bits) == msg + WalkOut(t, t, rest)
            && (rest != [] ==> WalkNode(t, t, bits) == WalkNode(t, t, rest))
            && (rest == [] && msg != [] ==> Accepts(WalkNode(t, t, bits)))
    decreases |msg|
  {
    if msg == [] {
      assert Encode(codes, msg) + rest == rest;
    } else {
      var w, e := WordOf(codes, msg[0]), Encode(codes, msg[1..]);
      assert Encode(codes, msg) + rest == w + (e + rest);
      WalkEncoded(t, codes, msg[1..], rest);
      WalkWord(t, codes, msg[0], e + rest);
      if msg[1..] != [] {
        WalkWord(t, codes, msg[1], []);
      }
    }
  }

  /** Whatever the input, the bits read so far are the words of the symbols emitted so far followed
      by the path from the root to the current node. */
  lemma {:induction false} WalkDecomposes(t: Tree, codes: seq<Code>, p: Bits, bits: Bits) returns (q: Bits)
    requires Represents(t, codes) && InnerAt(t, p) && Full(At(t, p))
    ensures AllInBook(codes, WalkOut(t, At(t, p), bits))
    ensures p + bits == Encode(codes, WalkOut(t, At(t, p), bits)) + q
    ensures InnerAt(t, q)
    ensures var m := WalkNode(t, At(t, p), bits);
            if m.term.Some? then q == [] else At(t, q) == m
    decreases |bits|, 0
  {
    if bits == [] {
      q := p;
      assert p + bits == [] + q;
    } else {
      var next, rest := p + [bits[0]], bits[1..];
      assert next + rest == p + bits && bits == [bits[0]] + rest;
      AtConcat(t, p, [bits[0]]);
      var c := Step(t, At(t, p), bits[0]);
      assert At(t, next) == c;
      WalkHead(t, At(t, p), bits[0], rest);
      if c.term.Some? {
        q := WalkDecomposesLeaf(t, codes, next, rest);
      } else {
        q := WalkDecomposes(t, codes, next, rest);
        assert WalkOut(t, At(t, p), bits) == WalkOut(t, c, rest);
      }
    }
  }

  lemma {:induction false} WalkDecomposesLeaf(t: Tree, codes: seq<Code>, w: Bits, bits: Bits) returns (q: Bits)
    requires Represents(t, codes) && At(t, w).Node? && At(t, w).term.Some? && Full(At(t, w))
    ensures AllInBook(codes, [At(t, w).term.value] + WalkOut(t, At(t, w), bits))
    ensures w + bits == Encode(codes, [At(t, w).term.value] + WalkOut(t, At(t, w), bits)) + q
    ensures InnerAt(t, q)
    ensures var m := WalkNode(t, At(t, w), bits);
            if m.term.Some? then q == [] else At(t, q) == m
    decreases |bits|, 1
  {
    var s := At(t, w).term.value;
    assert LeafAt(t, w, s);
    WordUnique(codes, s, w);
    assert At(t, []) == t;
    q := WalkDecomposes(t, codes, [], bits);
    LeafIsRoot(t, At(t, w), bits);
    assert [] + bits == bits;
    LeafCons(codes, s, WalkOut(t, t, bits), bits, q);
  }

  lemma LeafCons(codes: seq<Code>, s: nat, tail: seq<nat>, bits: Bits, q: Bits)
    requires InBook(codes, s) && AllInBook(codes, tail) && bits == Encode(codes, tail) + q
    ensures AllInBook(codes, [s] + tail) && WordOf(codes, s) + bits == Encode(codes, [s] + tail) + q
  {
    EncodeCons(codes, s, tail);
    var w, e := WordOf(codes, s), Encode(codes, tail);
    assert w + (e + q) == (w + e) + q;
  }

  lemma EncodeCons(codes: seq<Code>, s: nat, tail: seq<nat>)
    requires InBook(codes, s) && AllInBook(codes, tail)
    ensures AllInBook(codes, [s] + tail)
    ensures Encode(codes, [s] + tail) == WordOf(codes, s) + Encode(codes, tail)
  {
    assert ([s] + tail)[1..] == tail;
  }

  lemma RoundTripWalk(t: Tree, codes: seq<Code>, msg: seq<nat>, k: nat)
    requires Represents(t, codes) && HasEos(codes) && Message(codes, msg) && k < 8
    ensures WalkOutcome(t, t, true, Encode(codes, msg) + Ones(k)) == Decoded(msg, true)
  {
    var eos :| eos in codes && eos.sym == EOS && AllOnes(eos.bits) && |eos.bits| >= 8;
    assert LeafAt(t, eos.bits, EOS);
    ProperPrefixInner(t, eos.bits, Ones(k));
    assert At(t, []) == t && [] + Ones(k) == Ones(k);
    WalkDown(t, [], Ones(k));
    MarkAt(t, [], Ones(k));
    WalkEncoded(t, codes, msg, Ones(k));
  }

  lemma ConverseWalk(t: Tree, codes: seq<Code>, bits: Bits, msg: seq<nat>) returns (k: nat)
    requires Represents(t, codes) && WalkOutcome(t, t, true, bits) == Decoded(msg, true)
    ensures Message(codes, msg) && k < 8 && bits == Encode(codes, msg) + Ones(k)
  {
    assert At(t, []) == t && [] + bits == bits;
    var q := WalkDecomposes(t, codes, [], bits);
    MarkAt(t, [], q);
    assert [] + q == q;
    k := |q|;
    assert q == Ones(k);
  }

  lemma EosWalk(t: Tree, codes: seq<Code>, bits: Bits)
    requires Represents(t, codes) && InBook(codes, EOS)
    ensures WalkOutcome(t, t, true, bits) == Failed <==>
            exists msg, rest :: StopsAtEos(codes, bits, msg, rest)
  {
    if EOS in WalkOut(t, t, bits) {
      assert At(t, []) == t && [] + bits == bits;
      var q := WalkDecomposes(t, codes, [], bits);
      var msg, rest := SplitAtEos(codes, WalkOut(t, t, bits), q);
      assert StopsAtEos(codes, bits, msg, rest);
    }
    if msg, rest :| StopsAtEos(codes, bits, msg, rest) {
      EosEmitted(t, codes, msg, rest);
    }
  }

  lemma SplitAtEos(codes: seq<Code>, out: seq<nat>, q: Bits) returns (msg: seq<nat>, rest: Bits)
    requires AllInBook(codes, out) && EOS in out && InBook(codes, EOS)
    ensures StopsAtEos(codes, Encode(codes, out) + q, msg, rest)
  {
    var i := FirstEos(out);
    var tail := out[i + 1..];
    msg := out[..i];
    assert out == msg + ([EOS] + tail);
    EncodeConcat(codes, msg, [EOS] + tail);
    assert ([EOS] + tail)[1..] == tail;
    var w, e := WordOf(codes, EOS), Encode(codes, tail);
    assert Encode(codes, msg) + (w + e) + q == Encode(codes, msg) + (w + (e + q));
    rest := e + q;
  }

  lemma EosEmitted(t: Tree, codes: seq<Code>, msg: seq<nat>, rest: Bits)
    requires Represents(t, codes) && InBook(codes, EOS) && Message(codes, msg)
    ensures EOS in WalkOut(t, t, Encode(codes, msg) + (WordOf(codes, EOS) + rest))
  {
    WalkEncoded(t, codes, msg, WordOf(codes, EOS) + rest);
    WalkWord(t, codes, EOS, rest);
    assert EOS in [EOS] + WalkOut(t, t, rest);
  }

  /** The input is a message, the EOS word, and anything after it. */
  ghost predicate StopsAtEos(codes: seq<Code>, bits: Bits, msg: seq<nat>, rest: Bits)
  {
    InBook(codes, EOS) && Message(codes, msg) && bits == Encode(codes, msg) + (WordOf(codes, EOS) + rest)
  }

  lemma {:induction false} FirstEos(out: seq<nat>) returns (i: nat)
    requires EOS in out
    ensures i < |out| && out[i] == EOS && EOS !in out[..i]
  {
    if out[0] == EOS {
      i := 0;
    } else {
      var j := FirstEos(out[1..]);
      i := j + 1;
    }
  }

  // ---------- octets ----------

  type Octet = x: int | 0 <= x < 256

  function Nibbles(octets: seq<Octet>): (r: seq<Nibble>)
    ensures |r| == 2 * |octets|
  {
    if octets == [] then [] else [octets[0] / 16, octets[0] % 16] + Nibbles(octets[1..])
  }

  function BitsOfOctets(octets: seq<Octet>): (r: Bits)
    ensures |r| == 8 * |octets|
  {
    BitsOfNibbles(Nibbles(octets))
  }

  function NibbleOf(bits: Bits): Nibble
    requires |bits| == 4
  {
    (if bits[0] then 8 else 0) + (if bits[1] then 4 else 0) + (if bits[2] then 2 else 0) + (if bits[3] then 1 else 0)
  }

  lemma NibbleRoundTrip(bits: Bits, n: Nibble)
    requires |bits| == 4
    ensures NibbleBits(NibbleOf(bits)) == bits
    ensures NibbleOf(NibbleBits(n)) == n
  {
  }

  /** Packs whole octets, most significant bit first. */
  function Pack(bits: Bits): (r: seq<Octet>)
    requires |bits| % 8 == 0
    ensures 8 * |r| == |bits|
    decreases |bits|
  {
    if bits == [] then []
    else [16 * NibbleOf(bits[..4]) + NibbleOf(bits[4..8])] + Pack(bits[8..])
  }

  lemma NibblesSplit(n: Nibble, rest: seq<Nibble>)
    ensures BitsOfNibbles([n] + rest) == NibbleBits(n) + BitsOfNibbles(rest)
  {
    assert ([n] + rest)[1..] == rest;
  }

  lemma OctetsSplit(hi: Nibble, lo: Nibble, rest: seq<Octet>)
    ensures BitsOfOctets([16 * hi + lo] + rest) == NibbleBits(hi) + (NibbleBits(lo) + BitsOfOctets(rest))
  {
    var o: Octet := 16 * hi + lo;
    assert o / 16 == hi && o % 16 == lo;
    assert ([o] + rest)[1..] == rest;
    assert Nibbles([o] + rest) == [hi] + ([lo] + Nibbles(rest));
    NibblesSplit(hi, [lo] + Nibbles(rest));
    NibblesSplit(lo, Nibbles(rest));
  }

  lemma {:induction false} UnpackPack(bits: Bits)
    requires |bits| % 8 == 0
    ensures BitsOfOctets(Pack(bits)) == bits
    decreases |bits|
  {
    if bits != [] {
      var a, b, rest := bits[..4], bits[4..8], bits[8..];
      UnpackPack(rest);
      NibbleRoundTrip(a, 0);
      NibbleRoundTrip(b, 0);
      OctetsSplit(NibbleOf(a), NibbleOf(b), Pack(rest));
      assert bits == a + (b + rest);
    }
  }

  lemma {:induction false} PackUnpack(os: seq<Octet>)
    ensures Pack(BitsOfOctets(os)) == os
    decreases |os|
  {
    if os != [] {
      var hi: Nibble, lo: Nibble := os[0] / 16, os[0] % 16;
      assert os == [16 * hi + lo] + os[1..];
      OctetsSplit(hi, lo, os[1..]);
      PackUnpack(os[1..]);
      PackStep(hi, lo, NibbleBits(hi), NibbleBits(lo), BitsOfOctets(os[1..]));
    }
  }

  lemma PackStep(hi: Nibble, lo: Nibble, a: Bits, b: Bits, rest: Bits)
    requires |rest| % 8 == 0 && a == NibbleBits(hi) && b == NibbleBits(lo)
    ensures Pack(a + (b + rest)) == [16 * hi + lo] + Pack(rest)
  {
    var bits := a + (b + rest);
    assert bits[..4] == a && bits[4..8] == b && bits[8..] == rest;
    NibbleRoundTrip(a, hi);
    NibbleRoundTrip(b, lo);
  }

  // ---------- encoder and decoder on octets ----------

  /** The number of one-bits that reach the next octet boundary. */
  function PadLength(n: nat): (k: nat)
    ensures k < 8 && (n + k) % 8 == 0
  {
    (8 - n % 8) % 8
  }

  lemma PadUnique(n: nat, k: nat, m: nat)
    requires k < 8 && n + k == 8 * m
    ensures k == PadLength(n)
  {
  }

  /** Section 5.2 of RFC 7541: the words one after another, then the fewest one-bits that reach an
      octet boundary. */
  function EncodeOctets(codes: seq<Code>, msg: seq<nat>): seq<Octet>
    requires AllInBook(codes, msg)
  {
    var bits := Encode(codes, msg);
    Pack(bits + Ones(PadLength(|bits|)))
  }

  ghost function TableOf(codes: seq<Code>): (table: Table)
    requires CodeBook(codes)
    ensures Runnable(table)
  {
    BookCompiles(codes);
    Rows(TreeOf(codes), TreeOf(codes))
  }

  ghost function Decode(codes: seq<Code>, os: seq<Octet>): Outcome
    requires CodeBook(codes)
  {
    Run(TableOf(codes), 0, true, Nibbles(os))
  }

  lemma DecodeIsWalk(codes: seq<Code>, os: seq<Octet>) returns (t: Tree)
    requires CodeBook(codes)
    ensures Represents(t, codes) && Decode(codes, os) == WalkOutcome(t, t, true, BitsOfOctets(os))
  {
    BookCompiles(codes);
    t := TreeOf(codes);
    assert At(t, []) == t;
    IdAt(t, 0, []);
    RunIsWalk(t, [], true, Nibbles(os));
  }

  /** Any message, followed by at most seven one-bits, decodes to itself and is accepted. */
  lemma RoundTrip(codes: seq<Code>, msg: seq<nat>, k: nat, os: seq<Octet>)
    requires CodeBook(codes) && HasEos(codes) && Message(codes, msg) && k < 8
    requires BitsOfOctets(os) == Encode(codes, msg) + Ones(k)
    ensures Decode(codes, os) == Decoded(msg, true)
  {
    var t := DecodeIsWalk(codes, os);
    RoundTripWalk(t, codes, msg, k);
  }

  /** An accepted input is a message followed by at most seven one-bits. */
  lemma Converse(codes: seq<Code>, os: seq<Octet>, msg: seq<nat>) returns (k: nat)
    requires CodeBook(codes) && Decode(codes, os) == Decoded(msg, true)
    ensures Message(codes, msg) && k < 8
    ensures BitsOfOctets(os) == Encode(codes, msg) + Ones(k)
  {
    var t := DecodeIsWalk(codes, os);
    k := ConverseWalk(t, codes, BitsOfOctets(os), msg);
  }

  lemma EncodedIsAccepted(codes: seq<Code>, msg: seq<nat>)
    requires CodeBook(codes) && HasEos(codes) && Message(codes, msg)
    ensures Decode(codes, EncodeOctets(codes, msg)) == Decoded(msg, true)
  {
    var k := PadLength(|Encode(codes, msg)|);
    UnpackPack(Encode(codes, msg) + Ones(k));
    RoundTrip(codes, msg, k, EncodeOctets(codes, msg));
  }

  lemma AcceptedIsEncoded(codes: seq<Code>, os: seq<Octet>, msg: seq<nat>)
    requires CodeBook(codes) && Decode(codes, os) == Decoded(msg, true)
    ensures Message(codes, msg) && os == EncodeOctets(codes, msg)
  {
    var k := Converse(codes, os, msg);
    PadUnique(|Encode(codes, msg)|, k, |os|);
    PackUnpack(os);
  }

  /** The decoder accepts exactly the encoder's own output, and returns the message that was encoded:
      every message has one accepted form. */
  lemma CanonicalCodec(codes: seq<Code>, os: seq<Octet>, msg: seq<nat>)
    requires CodeBook(codes) && HasEos(codes)
    ensures Decode(codes, os) == Decoded(msg, true) <==> Message(codes, msg) && os == EncodeOctets(codes, msg)
  {
    if Decode(codes, os) == Decoded(msg, true) {
      AcceptedIsEncoded(codes, os, msg);
    } else if Message(codes, msg) {
      EncodedIsAccepted(codes, msg);
    }
  }

  /** The decoder fails exactly on the inputs in which a message is followed by the EOS word,
      whatever comes after it. */
  lemma FailsExactlyOnEos(codes: seq<Code>, os: seq<Octet>)
    requires CodeBook(codes) && HasEos(codes)
    ensures Decode(codes, os) == Failed <==>
            exists msg, rest :: StopsAtEos(codes, BitsOfOctets(os), msg, rest)
  {
    var t := DecodeIsWalk(codes, os);
    var c :| c in codes && c.sym == EOS;
    var i :| 0 <= i < |codes| && codes[i] == c;
    assert codes[i].sym == EOS;
    EosWalk(t, codes, BitsOfOctets(os));
  }

  /** Two books that list the same code in a different order give the same table. */
  lemma SameTable(c: seq<Code>, d: seq<Code>)
    requires CodeBook(c) && CodeBook(d) && forall x :: x in c <==> x in d
    ensures TableOf(c) == TableOf(d)
  {
    BookIsFull(c);
    BookIsFull(d);
    OrderIndependent(c, d);
  }

  /** With at most 257 words over the symbols 0..256 every printed state and symbol fits an octet, and
      a failing entry prints state 0 and symbol 0. */
  lemma CellsFitOctets(codes: seq<Code>, i: nat, k: nat)
    requires CodeBook(codes) && |codes| <= 257 && i < |codes| - 1 && k < 16
    requires forall c :: c in codes ==> c.sym <= EOS
    ensures |TableOf(codes)| == |codes| - 1 && |TableOf(codes)[i]| == 16
    ensures var cell := TableOf(codes)[i][k];
            cell.state < 256 && cell.sym < 256 && (Has(cell.flags, FAIL) ==> cell.state == 0 && cell.sym == 0)
  {
    BookCompiles(codes);
    CellOfBook(TreeOf(codes), codes, i, k);
  }

  lemma CellOfBook(t: Tree, codes: seq<Code>, i: nat, k: nat)
    requires Represents(t, codes) && i < |Rows(t, t)| && k < 16
    ensures var cell := Rows(t, t)[i][k];
            && (Has(cell.flags, FAIL) ==> cell.state == 0 && cell.sym == 0)
            && (cell.sym == 0 || (cell.sym != EOS && InBook(codes, cell.sym)))
  {
    var p := IdOnto(t, 0, i);
    FullAt(t, p);
    RowOfId(t, p);
    var q := CellIsWalk(t, p, k);
    var r := WalkDecomposes(t, codes, p, NibbleBits(k));
  }
}
