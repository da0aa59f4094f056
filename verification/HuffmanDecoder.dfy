/** The runtime decoder of client/src/lib/nghttp2_hd_huffman.c: it keeps its place in the table between calls, so that
    a string may arrive in blocks. */
module HuffmanDecoder {
  import opened HuffmanTree
  import opened HuffmanTable
  import opened HuffmanCodec

  // ---------- where a run ends ----------

  /** The state after following the table along the input. */
  ghost function EndState(table: Table, state: nat, input: seq<Nibble>): (r: nat)
    requires Runnable(table) && state < |table|
    ensures r < |table|
    decreases |input|
  {
    if input == [] then state else EndState(table, table[state][input[0]].state, input[1..])
  }

  /** The symbols emitted along the input, up to the first failing entry. */
  ghost function Emitted(table: Table, state: nat, input: seq<Nibble>): seq<nat>
    requires Runnable(table) && state < |table|
    decreases |input|
  {
    if input == [] || Has(table[state][input[0]].flags, FAIL) then []
    else
      var e := table[state][input[0]];
      (if Has(e.flags, SYM) then [e.sym] else []) + Emitted(table, e.state, input[1..])
  }

  /** What is emitted without a failure is the result of the run. */
  lemma {:induction false} EmittedIsDecoded(table: Table, state: nat, accepted: bool, input: seq<Nibble>)
    requires Runnable(table) && state < |table|
    ensures var r := Run(table, state, accepted, input); r.Decoded? ==> r.syms == Emitted(table, state, input)
    decreases |input|
  {
    if input != [] {
      var e := table[state][input[0]];
      assert e.state < |table|;
      EmittedIsDecoded(table, e.state, Has(e.flags, ACCEPTED), input[1..]);
    }
  }

  /** A nibble emits at most one symbol. */
  lemma {:induction false} EmittedFits(table: Table, state: nat, input: seq<Nibble>)
    requires Runnable(table) && state < |table|
    ensures |Emitted(table, state, input)| <= |input|
    decreases |input|
  {
    if input != [] {
      EmittedFits(table, table[state][input[0]].state, input[1..]);
    }
  }

  /** The symbol an entry emits, if any. */
  function Output(e: Cell): seq<nat>
  {
    if Has(e.flags, SYM) then [e.sym] else []
  }

  lemma RunFirst(table: Table, state: nat, accepted: bool, x: Nibble, rest: seq<Nibble>)
    requires Runnable(table) && state < |table|
    ensures var e := table[state][x];
            && e.state < |table|
            && Run(table, state, accepted, [x] + rest)
            == (if Has(e.flags, FAIL) then Failed
                else Prepend(Output(e), Run(table, e.state, Has(e.flags, ACCEPTED), rest)))
            && Emitted(table, state, [x] + rest)
            == (if Has(e.flags, FAIL) then [] else Output(e) + Emitted(table, e.state, rest))
            && EndState(table, state, [x] + rest) == EndState(table, e.state, rest)
  {
    assert ([x] + rest)[1..] == rest;
  }

  lemma PrependTwice(a: seq<nat>, b: seq<nat>, r: Outcome)
    ensures Prepend(a + b, r) == Prepend(a, Prepend(b, r))
  {
    if r.Decoded? {
      assert a + b + r.syms == a + (b + r.syms);
    }
  }

  /** A run over an input in two parts goes on after the first where that one ended. */
  lemma {:induction false} RunSplit(table: Table, state: nat, accepted: bool, a: seq<Nibble>, b: seq<Nibble>)
    requires Runnable(table) && state < |table|
    ensures EndState(table, state, a + b) == EndState(table, EndState(table, state, a), b)
    ensures var r := Run(table, state, accepted, a);
            Run(table, state, accepted, a + b)
            == if r.Failed? then Failed else Prepend(r.syms, Run(table, EndState(table, state, a), r.accepted, b))
    decreases |a|, 0
  {
    if a == [] {
      assert a + b == b;
      var r := Run(table, state, accepted, b);
      if r.Decoded? {
        assert [] + r.syms == r.syms;
      }
    } else {
      var x, rest := a[0], a[1..];
      assert a == [x] + rest && a + b == [x] + (rest + b);
      RunFirst(table, state, accepted, x, rest);
      RunFirst(table, state, accepted, x, rest + b);
      SplitAfter(table, table[state][x], rest, b);
    }
  }

  /** The same after a first entry. */
  lemma {:induction false} SplitAfter(table: Table, e: Cell, rest: seq<Nibble>, b: seq<Nibble>)
    requires Runnable(table) && e.state < |table|
    ensures EndState(table, e.state, rest + b) == EndState(table, EndState(table, e.state, rest), b)
    ensures var r := Run(table, e.state, Has(e.flags, ACCEPTED), rest);
            Prepend(Output(e), Run(table, e.state, Has(e.flags, ACCEPTED), rest + b))
            == if r.Failed? then Failed
               else Prepend(Output(e) + r.syms, Run(table, EndState(table, e.state, rest), r.accepted, b))
    decreases |rest|, 1
  {
    RunSplit(table, e.state, Has(e.flags, ACCEPTED), rest, b);
    var r := Run(table, e.state, Has(e.flags, ACCEPTED), rest);
    if r.Decoded? {
      PrependTwice(Output(e), r.syms, Run(table, EndState(table, e.state, rest), r.accepted, b));
    }
  }

  lemma Assoc<T>(a: seq<T>, b: seq<T>, c: seq<T>)
    ensures (a + b) + c == a + (b + c)
  {
  }

  lemma {:induction false} EmittedSplit(table: Table, state: nat, accepted: bool, a: seq<Nibble>, b: seq<Nibble>)
    requires Runnable(table) && state < |table| && Run(table, state, accepted, a).Decoded?
    ensures Emitted(table, state, a + b) == Emitted(table, state, a) + Emitted(table, EndState(table, state, a), b)
    decreases |a|
  {
    if a == [] {
      assert a + b == b;
    } else {
      var x, rest := a[0], a[1..];
      assert a == [x] + rest;
      Assoc([x], rest, b);
      EmittedFirst(table, state, accepted, x, rest, b);
      var e := table[state][x];
      EmittedSplit(table, e.state, Has(e.flags, ACCEPTED), rest, b);
      Assoc(Output(e), Emitted(table, e.state, rest), Emitted(table, EndState(table, e.state, rest), b));
    }
  }

  lemma EmittedFirst(table: Table, state: nat, accepted: bool, x: Nibble, rest: seq<Nibble>, b: seq<Nibble>)
    requires Runnable(table) && state < |table| && Run(table, state, accepted, [x] + rest).Decoded?
    ensures var e := table[state][x];
            && e.state < |table| && Run(table, e.state, Has(e.flags, ACCEPTED), rest).Decoded?
            && Emitted(table, state, [x] + rest) == Output(e) + Emitted(table, e.state, rest)
            && Emitted(table, state, [x] + (rest + b)) == Output(e) + Emitted(table, e.state, rest + b)
            && EndState(table, state, [x] + rest) == EndState(table, e.state, rest)
  {
    RunFirst(table, state, accepted, x, rest);
    RunFirst(table, state, accepted, x, rest + b);
  }

  /** While EOS is not completed, the run ends at the row of the node at which the bit-by-bit walk ends, a finished
      word being the root. */
  lemma {:induction false} EndIsWalk(root: Tree, p: Bits, input: seq<Nibble>)
    requires Compilable(root) && At(root, p).Node? && Full(At(root, p))
    requires Runnable(Rows(root, root)) && StateOf(At(root, p)) < |Rows(root, root)|
    requires EOS !in WalkOut(root, At(root, p), BitsOfNibbles(input))
    ensures EndState(Rows(root, root), StateOf(At(root, p)), input)
         == StateOf(WalkNode(root, At(root, p), BitsOfNibbles(input)))
    decreases |input|
  {
    if input != [] {
      var n := At(root, p);
      var b, rest := NibbleBits(input[0]), BitsOfNibbles(input[1..]);
      var q, e := CellOfState(root, p, input[0]);
      FullAt(root, q);
      WalkConcat(root, n, b, rest);
      assert e.state == StateOf(At(root, q));
      EndIsWalk(root, q, input[1..]);
    }
  }

  // ---------- one call, and a string in blocks ----------

  /** What the decoder keeps between calls. */
  datatype Context = Context(state: nat, accept: bool)

  datatype Answer = Error | Read(syms: seq<nat>, ctx: Context)

  /** One call on a block of octets; only the final one asks for an accepting end. */
  ghost function Call(table: Table, ctx: Context, src: seq<Octet>, final: bool): Answer
    requires Runnable(table) && ctx.state < |table|
  {
    match Run(table, ctx.state, ctx.accept, Nibbles(src))
    case Failed => Error
    case Decoded(syms, accepted) =>
      if final && !accepted then Error else Read(syms, Context(EndState(table, ctx.state, Nibbles(src)), accepted))
  }

  /** A string in blocks, the last of them final. */
  ghost function Calls(table: Table, ctx: Context, blocks: seq<seq<Octet>>): Answer
    requires Runnable(table) && ctx.state < |table| && blocks != []
    decreases |blocks|
  {
    if |blocks| == 1 then Call(table, ctx, blocks[0], true)
    else
      match Call(table, ctx, blocks[0], false)
      case Error => Error
      case Read(syms, next) =>
        match Calls(table, next, blocks[1..])
        case Error => Error
        case Read(more, last) => Read(syms + more, last)
  }

  function Concat(blocks: seq<seq<Octet>>): seq<Octet>
  {
    if blocks == [] then [] else blocks[0] + Concat(blocks[1..])
  }

  lemma {:induction false} NibblesConcat(a: seq<Octet>, b: seq<Octet>)
    ensures Nibbles(a + b) == Nibbles(a) + Nibbles(b)
  {
    if a == [] {
      assert a + b == b;
    } else {
      assert (a + b)[1..] == a[1..] + b;
      NibblesConcat(a[1..], b);
    }
  }

  lemma CallSplit(table: Table, ctx: Context, a: seq<Octet>, b: seq<Octet>, final: bool)
    requires Runnable(table) && ctx.state < |table|
    ensures Call(table, ctx, a + b, final)
         == match Call(table, ctx, a, false)
            case Error => Error
            case Read(syms, next) =>
              match Call(table, next, b, final)
              case Error => Error
              case Read(more, last) => Read(syms + more, last)
  {
    NibblesConcat(a, b);
    RunSplit(table, ctx.state, ctx.accept, Nibbles(a), Nibbles(b));
  }

  /** Fed in any blocks, a string is decoded as if it had come in one. */
  lemma {:induction false} BlocksIrrelevant(table: Table, ctx: Context, blocks: seq<seq<Octet>>)
    requires Runnable(table) && ctx.state < |table| && blocks != []
    ensures Calls(table, ctx, blocks) == Call(table, ctx, Concat(blocks), true)
    decreases |blocks|
  {
    if |blocks| == 1 {
      assert Concat(blocks[1..]) == [];
      assert Concat(blocks) == blocks[0];
    } else {
      CallSplit(table, ctx, blocks[0], Concat(blocks[1..]), true);
      var r := Call(table, ctx, blocks[0], false);
      if r.Read? {
        BlocksIrrelevant(table, r.ctx, blocks[1..]);
      }
    }
  }

  /** The decoder, fed the blocks of a string, accepts with a message exactly when the string is the encoding of the
      message. */
  lemma BlocksCanonical(codes: seq<Code>, blocks: seq<seq<Octet>>, msg: seq<nat>)
    requires CodeBook(codes) && HasEos(codes) && blocks != []
    ensures var r := Calls(TableOf(codes), Context(0, true), blocks);
            r.Read? && r.syms == msg <==> Message(codes, msg) && Concat(blocks) == EncodeOctets(codes, msg)
  {
    BlocksIrrelevant(TableOf(codes), Context(0, true), blocks);
    CanonicalCodec(codes, Concat(blocks), msg);
  }

  // ---------- the decoder ----------

  /** The nibbles of an octet, high one first. */
  function Two(o: Octet): seq<Nibble>
  {
    [o / 16, o % 16]
  }

  lemma NibblesFirst(o: Octet, rest: seq<Octet>)
    ensures Nibbles([o] + rest) == Two(o) + Nibbles(rest)
  {
    assert ([o] + rest)[1..] == rest;
  }

  lemma NibblesLast(front: seq<Octet>, o: Octet)
    ensures Nibbles(front + [o]) == Nibbles(front) + Two(o)
  {
    var one := [o];
    assert one[1..] == [];
    NibblesConcat(front, one);
  }

  lemma NibblesMiddle(front: seq<Octet>, o: Octet, rest: seq<Octet>)
    ensures Nibbles(front + ([o] + rest)) == Nibbles(front) + (Two(o) + Nibbles(rest))
  {
    NibblesFirst(o, rest);
    NibblesConcat(front, [o] + rest);
  }

  lemma OctetSplits(src: seq<Octet>, i: nat)
    requires i < |src|
    ensures Nibbles(src[..i + 1]) == Nibbles(src[..i]) + Two(src[i])
    ensures Nibbles(src) == Nibbles(src[..i]) + (Two(src[i]) + Nibbles(src[i + 1..]))
  {
    Parts(src, i);
    NibblesLast(src[..i], src[i]);
    NibblesMiddle(src[..i], src[i], src[i + 1..]);
  }

  lemma Parts<T>(s: seq<T>, i: nat)
    requires i < |s|
    ensures s[..i + 1] == s[..i] + [s[i]] && s == s[..i] + ([s[i]] + s[i + 1..])
  {
  }

  /** What one octet does: fail at its first or its second nibble, or go on. */
  datatype Step = First | Second(syms: seq<nat>) | Through(syms: seq<nat>, next: Context)

  ghost function Take(table: Table, state: nat, o: Octet): (r: Step)
    requires Runnable(table) && state < |table|
    ensures r.Through? ==> r.next.state < |table|
  {
    var t := table[state][o / 16];
    if Has(t.flags, FAIL) then First
    else
      var u := table[t.state][o % 16];
      if Has(u.flags, FAIL) then Second(Output(t))
      else Through(Output(t) + Output(u), Context(u.state, Has(u.flags, ACCEPTED)))
  }

  lemma TakeRuns(table: Table, state: nat, accepted: bool, o: Octet, rest: seq<Nibble>)
    requires Runnable(table) && state < |table|
    ensures var r := Take(table, state, o);
            && Run(table, state, accepted, Two(o) + rest)
            == (if r.Through? then Prepend(r.syms, Run(table, r.next.state, r.next.accept, rest)) else Failed)
            && Emitted(table, state, Two(o) + rest)
            == (match r case First => [] case Second(syms) => syms
                case Through(syms, next) => syms + Emitted(table, next.state, rest))
            && (r.Through? ==> EndState(table, state, Two(o) + rest) == EndState(table, r.next.state, rest))
  {
    var hi: Nibble, lo: Nibble := o / 16, o % 16;
    var t := table[state][hi];
    assert Two(o) + rest == [hi] + ([lo] + rest);
    RunFirst(table, state, accepted, hi, [lo] + rest);
    var u := table[t.state][lo];
    RunFirst(table, t.state, Has(t.flags, ACCEPTED), lo, rest);
    PrependTwice(Output(t), Output(u), Run(table, u.state, Has(u.flags, ACCEPTED), rest));
    Assoc(Output(t), Output(u), Emitted(table, u.state, rest));
    assert Output(t) + [] == Output(t);
  }

  /** How far a call has come: `done` read without failing. */
  ghost predicate Came(table: Table, start: Context, done: seq<Octet>, syms: seq<nat>, now: Context)
    requires Runnable(table) && start.state < |table|
  {
    && Run(table, start.state, start.accept, Nibbles(done)) == Decoded(syms, now.accept)
    && now.state == EndState(table, start.state, Nibbles(done))
  }

  /** The next octet takes the call further, or settles what it answers and has emitted. */
  lemma Further(table: Table, start: Context, src: seq<Octet>, i: nat, syms: seq<nat>, now: Context)
    requires Runnable(table) && start.state < |table| && i < |src| && Came(table, start, src[..i], syms, now)
    ensures var r := Take(table, now.state, src[i]);
            match r
            case Through(more, next) => Came(table, start, src[..i + 1], syms + more, next)
            case _ =>
              && Run(table, start.state, start.accept, Nibbles(src)) == Failed
              && Emitted(table, start.state, Nibbles(src)) == syms + (if r.Second? then r.syms else [])
  {
    var done, rest := Nibbles(src[..i]), Nibbles(src[i + 1..]);
    var r := Take(table, now.state, src[i]);
    OctetSplits(src, i);
    EmittedIsDecoded(table, start.state, start.accept, done);
    if r.Through? {
      var two := Two(src[i]);
      RunSplit(table, start.state, start.accept, done, two);
      TakeRuns(table, now.state, now.accept, src[i], []);
      assert two + [] == two;
      assert Run(table, r.next.state, r.next.accept, []) == Decoded([], r.next.accept);
      assert r.syms + [] == r.syms;
    } else {
      RunSplit(table, start.state, start.accept, done, Two(src[i]) + rest);
      EmittedSplit(table, start.state, start.accept, done, Two(src[i]) + rest);
      TakeRuns(table, now.state, now.accept, src[i], rest);
    }
  }

  const HEADER_COMP := -523

  /** The buffer the symbols go to. */
  class Buffer {
    var last: seq<nat>

    constructor ()
      ensures last == []
    {
      last := [];
    }
  }

  class Decoder {
    var state: nat
    var accept: bool

    constructor ()
      ensures Abs() == Context(0, true)
    {
      state, accept := 0, true;
    }

    ghost function Abs(): Context
      reads this
    {
      Context(state, accept)
    }

    /** One octet of a call; the context advances only if neither nibble fails. */
    method Octet(table: Table, buf: Buffer, o: Octet) returns (ok: bool)
      requires Runnable(table) && state < |table|
      modifies this, buf
      ensures var r := Take(table, old(state), o);
              && ok == r.Through?
              && Abs() == (if r.Through? then r.next else old(Abs()))
              && buf.last == old(buf.last) + (if r.First? then [] else r.syms)
    {
      var t := table[state][o / 16];
      if Has(t.flags, FAIL) {
        return false;
      }
      if Has(t.flags, SYM) {
        buf.last := buf.last + [t.sym];
      }
      assert buf.last == old(buf.last) + Output(t);
      var u := table[t.state][o % 16];
      if Has(u.flags, FAIL) {
        return false;
      }
      if Has(u.flags, SYM) {
        buf.last := buf.last + [u.sym];
      }
      assert buf.last == old(buf.last) + (Output(t) + Output(u));
      state := u.state;
      accept := Has(u.flags, ACCEPTED);
      ok := true;
    }

    /** One call. On a failure the context stays before the failing octet, and what was emitted until then is in
        the buffer. */
    method Decode(table: Table, buf: Buffer, src: seq<Octet>, final: bool) returns (r: int)
      requires Runnable(table) && state < |table|
      modifies this, buf
      ensures state < |table|
      ensures buf.last == old(buf.last) + Emitted(table, old(state), Nibbles(src))
      ensures match Call(table, old(Abs()), src, final)
              case Read(syms, ctx) => r == |src| && Abs() == ctx && buf.last == old(buf.last) + syms
              case Error => r == HEADER_COMP
    {
      ghost var start, syms := Abs(), [];
      EmittedIsDecoded(table, start.state, start.accept, Nibbles(src));
      for i := 0 to |src|
        invariant state < |table| && Came(table, start, src[..i], syms, Abs())
        invariant buf.last == old(buf.last) + syms
      {
        Further(table, start, src, i, syms, Abs());
        ghost var step := Take(table, state, src[i]);
        var ok := Octet(table, buf, src[i]);
        if !ok {
          return HEADER_COMP;
        }
        syms := syms + step.syms;
      }
      assert src[..|src|] == src;
      if final && !accept {
        return HEADER_COMP;
      }
      r := |src|;
    }
  }

  /** The reader of one string of known length, `hd_inflate_read_huff`. */
  class Inflater {
    const decoder: Decoder
    var left: nat

    constructor (length: nat)
      ensures fresh(decoder) && decoder.Abs() == Context(0, true) && left == length
    {
      decoder := new Decoder();
      left := length;
    }

    /** Reads what the string still lacks from the input, and is final once the input covers it. */
    method ReadHuff(table: Table, buf: Buffer, input: seq<Octet>) returns (r: int)
      requires Runnable(table) && decoder.state < |table|
      modifies this, decoder, buf
      ensures decoder.state < |table|
      ensures |buf.last| <= |old(buf.last)| + 2 * (if |input| >= old(left) then old(left) else |input|)
      ensures var fin := |input| >= old(left);
              var src := if fin then input[..old(left)] else input;
              match Call(table, old(decoder.Abs()), src, fin)
              case Read(syms, ctx) =>
                && r == |src| && left == old(left) - |src| && decoder.Abs() == ctx && buf.last == old(buf.last) + syms
              case Error => r == HEADER_COMP && left == old(left)
    {
      var fin, last := false, |input|;
      if |input| >= left {
        last := left;
        fin := true;
      }
      assert input[..|input|] == input;
      EmittedFits(table, decoder.state, Nibbles(input[..last]));
      r := decoder.Decode(table, buf, input[..last], fin);
      if r >= 0 {
        left := left - r;
      }
    }
  }

  datatype Received = Bad | More | Whole(syms: seq<nat>)

  lemma ConcatLast(blocks: seq<seq<Octet>>, i: nat)
    requires i < |blocks|
    ensures Concat(blocks[..i + 1]) == Concat(blocks[..i]) + blocks[i]
    ensures Concat(blocks) == Concat(blocks[..i]) + blocks[i] + Concat(blocks[i + 1..])
  {
    var front, one, rest := blocks[..i], [blocks[i]], blocks[i + 1..];
    Parts(blocks, i);
    ConcatOne(blocks[i]);
    ConcatTwo(front, one);
    Assoc(front, one, rest);
    ConcatTwo(front + one, rest);
  }

  lemma ConcatOne(block: seq<Octet>)
    ensures Concat([block]) == block
  {
    var one := [block];
    assert one[1..] == [];
    assert Concat(one[1..]) == [];
  }

  lemma {:induction false} ConcatTwo(a: seq<seq<Octet>>, b: seq<seq<Octet>>)
    ensures Concat(a + b) == Concat(a) + Concat(b)
  {
    if a == [] {
      assert a + b == b;
    } else {
      assert (a + b)[1..] == a[1..] + b;
      ConcatTwo(a[1..], b);
    }
  }

  /** The block that completes the string. */
  lemma FinalBlock(table: Table, came: seq<Octet>, here: seq<Octet>, rest: seq<Octet>, left: nat)
    requires Runnable(table) && |here| >= left
    ensures var all, start := came + here + rest, Context(0, true);
            && |all| >= |came| + left
            && Call(table, start, all[..|came| + left], true)
            == match Call(table, start, came, false)
               case Error => Error
               case Read(syms, next) =>
                 match Call(table, next, here[..left], true)
                 case Error => Error
                 case Read(more, last) => Read(syms + more, last)
  {
    var all := came + here + rest;
    assert all[..|came| + left] == came + here[..left];
    CallSplit(table, Context(0, true), came, here[..left], true);
  }

  /** What is bad already stays bad. */
  lemma EarlyError(table: Table, came: seq<Octet>, rest: seq<Octet>, length: nat)
    requires Runnable(table) && Call(table, Context(0, true), came, false).Error?
    ensures Call(table, Context(0, true), came + rest, false).Error?
    ensures |came| <= length <= |came + rest| ==> Call(table, Context(0, true), (came + rest)[..length], true).Error?
  {
    CallSplit(table, Context(0, true), came, rest, false);
    if |came| <= length <= |came + rest| {
      assert (came + rest)[..length] == came + rest[..length - |came|];
      CallSplit(table, Context(0, true), came, rest[..length - |came|], true);
    }
  }

  /** What one more block does to the outcome, with `left` octets of the string still to come. */
  lemma NextBlock(table: Table, blocks: seq<seq<Octet>>, i: nat, left: nat)
    requires Runnable(table) && i < |blocks|
    ensures var all, came, here, start := Concat(blocks), Concat(blocks[..i]), blocks[i], Context(0, true);
            var length := |came| + left;
            && Concat(blocks[..i + 1]) == came + here
            && match Call(table, start, came, false)
               case Error => true
               case Read(syms, ctx) =>
                 if |here| >= left then
                   |all| >= length && Call(table, start, all[..length], true)
                   == match Call(table, ctx, here[..left], true)
                      case Error => Error
                      case Read(more, last) => Read(syms + more, last)
                 else
                   match Call(table, ctx, here, false)
                   case Error =>
                     if |all| >= length then Call(table, start, all[..length], true).Error?
                     else Call(table, start, all, false).Error?
                   case Read(more, last) => Call(table, start, came + here, false) == Read(syms + more, last)
  {
    var came, here, rest := Concat(blocks[..i]), blocks[i], Concat(blocks[i + 1..]);
    ConcatLast(blocks, i);
    if |here| >= left {
      FinalBlock(table, came, here, rest, left);
    } else {
      CallSplit(table, Context(0, true), came, here, false);
      if Call(table, Context(0, true), came + here, false).Error? {
        EarlyError(table, came + here, rest, |came| + left);
      }
    }
  }

  /** A string of known length read from whatever blocks arrive: the outcome is that of one final call on its octets,
      cut off the front of all the input; with too little input it is found bad or asks for more. Whatever happens, no
      more was written than twice the length, which is what the buffer holds. */
  method ReadString(table: Table, length: nat, blocks: seq<seq<Octet>>) returns (r: Received, buf: Buffer)
    requires Runnable(table)
    ensures var all, start := Concat(blocks), Context(0, true);
            if |all| >= length && blocks != [] then
              match Call(table, start, all[..length], true)
              case Read(syms, _) => r == Whole(syms)
              case Error => r == Bad
            else r == if Call(table, start, all, false).Read? then More else Bad
    ensures |buf.last| <= 2 * length
  {
    var inflater := new Inflater(length);
    buf := new Buffer();
    ghost var start := Context(0, true);
    ghost var all := Concat(blocks);
    assert Call(table, start, [], false) == Read([], start);
    for i := 0 to |blocks|
      invariant inflater.decoder.state < |table| && fresh(inflater) && fresh(inflater.decoder) && fresh(buf)
      invariant var came := Concat(blocks[..i]);
                && |came| + inflater.left == length && (i > 0 ==> inflater.left > 0) && |buf.last| <= 2 * |came|
                && Call(table, start, came, false) == Read(buf.last, inflater.decoder.Abs())
    {
      NextBlock(table, blocks, i, inflater.left);
      var n := inflater.ReadHuff(table, buf, blocks[i]);
      if n < 0 {
        return Bad, buf;
      }
      if inflater.left == 0 {
        return Whole(buf.last), buf;
      }
    }
    assert blocks[..|blocks|] == blocks;
    r := More;
  }
}
