/** The runtime encoder of client/src/lib/nghttp2_hd_huffman.c, which packs code words into octets with shifts on
    32-bit words. */
module HuffmanEncoder {
  import opened HuffmanTree
  import opened HuffmanTable
  import opened HuffmanCodec

  // ---------- bits as numbers ----------

  /** The number written by the bits, most significant first. */
  function Val(bits: Bits): nat
  {
    if bits == [] then 0
    else
      var n := |bits| - 1;
      2 * Val(bits[..n]) + if bits[n] then 1 else 0
  }

  lemma {:induction false} ValBound(bits: Bits)
    ensures Val(bits) < Pow2(|bits|)
  {
    if bits != [] {
      ValBound(bits[..|bits| - 1]);
    }
  }

  lemma Twice(x: nat, p: nat, q: nat)
    requires q == 2 * p
    ensures x * q == 2 * (x * p)
  {
  }

  lemma {:induction false} ValConcat(a: Bits, b: Bits)
    ensures Val(a + b) == Val(a) * Pow2(|b|) + Val(b)
  {
    if b == [] {
      assert a + b == a;
    } else {
      var n := |b| - 1;
      assert (a + b)[..|a| + n] == a + b[..n];
      ValConcat(a, b[..n]);
      Twice(Val(a), Pow2(n), Pow2(n + 1));
    }
  }

  lemma {:induction false} Pow2Add(m: nat, n: nat)
    ensures Pow2(m + n) == Pow2(m) * Pow2(n)
  {
    if n > 0 {
      Pow2Add(m, n - 1);
      Twice(Pow2(m), Pow2(n - 1), Pow2(n));
    }
  }

  function Zeros(n: nat): (r: Bits)
    ensures |r| == n
  {
    if n == 0 then [] else Zeros(n - 1) + [false]
  }

  lemma {:induction false} ValZeros(n: nat)
    ensures Val(Zeros(n)) == 0
  {
    if n > 0 {
      ValZeros(n - 1);
      assert Zeros(n)[..n - 1] == Zeros(n - 1);
    }
  }

  lemma Gap(x: nat, q: nat, p: nat)
    requires x < q
    ensures q * p >= x * p + p
  {
    var d := q - x;
    assert q * p == x * p + d * p;
    assert d * p == p + (d - 1) * p;
  }

  lemma DivMod(x: nat, p: nat, y: nat, n: nat)
    requires y < p && n == x * p + y
    ensures n / p == x && n % p == y
  {
    var q := n / p;
    assert n == q * p + n % p;
    if x < q {
      Gap(x, q, p);
    } else if q < x {
      Gap(q, x, p);
    }
  }

  /** Dropping the last k bits divides, and keeping them takes the remainder. */
  lemma ValParts(bits: Bits, k: nat)
    requires k <= |bits|
    ensures Val(bits) / Pow2(k) == Val(bits[..|bits| - k])
    ensures Val(bits) % Pow2(k) == Val(bits[|bits| - k..])
  {
    var a, b := bits[..|bits| - k], bits[|bits| - k..];
    assert bits == a + b;
    ValConcat(a, b);
    ValBound(b);
    DivMod(Val(a), Pow2(k), Val(b), Val(bits));
  }

  // ---------- the machine's operations ----------

  const WORD: nat := 0x1_0000_0000

  /** A 32-bit word shifted left. */
  function Shl(x: nat, k: nat): nat
  {
    x * Pow2(k) % WORD
  }

  lemma NatQuotient(x: nat, p: nat)
    requires p >= 1
    ensures 0 <= x / p
  {
  }

  function Shr(x: nat, k: nat): nat
  {
    var p := Pow2(k);
    NatQuotient(x, p);
    x / p
  }

  /** The cast to an octet. */
  function U8(x: nat): Octet
  {
    x % 256
  }

  /** Bitwise or. */
  function Or(a: nat, b: nat): nat
    decreases a + b
  {
    if a == 0 && b == 0 then 0 else 2 * Or(a / 2, b / 2) + if a % 2 == 1 || b % 2 == 1 then 1 else 0
  }

  lemma {:induction false} OrZero(a: nat)
    ensures Or(a, 0) == a
  {
    if a > 0 {
      OrZero(a / 2);
    }
  }

  lemma SnocVal(bits: Bits, b: bool)
    ensures Val(bits + [b]) == 2 * Val(bits) + if b then 1 else 0
  {
    assert (bits + [b])[..|bits|] == bits;
  }

  lemma OrStep(x: nat, y: nat, b: nat, x1: nat, y1: nat)
    requires b <= 1 && x1 == 2 * x && y1 == 2 * y + b
    ensures Or(x1, y1) == 2 * Or(x, y) + b
  {
    if x1 == 0 && y1 == 0 {
      assert Or(x, y) == 0;
    } else {
      assert x1 / 2 == x && y1 / 2 == y;
    }
  }

  lemma OrSnoc(t: Bits, v: Bits, u: Bits, b: bool)
    requires Or(Val(t), Val(v)) == Val(u)
    ensures Or(Val(t + [false]), Val(v + [b])) == Val(u + [b])
  {
    SnocVal(t, false);
    SnocVal(v, b);
    SnocVal(u, b);
    OrStep(Val(t), Val(v), if b then 1 else 0, Val(t + [false]), Val(v + [b]));
  }

  /** Bits below others are or-ed in where zeros stand. */
  lemma {:induction false} OrConcat(t: Bits, v: Bits)
    ensures Or(Val(t + Zeros(|v|)), Val(v)) == Val(t + v)
  {
    if v == [] {
      assert t + Zeros(0) == t && t + v == t;
      OrZero(Val(t));
    } else {
      var n := |v| - 1;
      OrConcat(t, v[..n]);
      OrSnoc(t + Zeros(n), v[..n], t + v[..n], v[n]);
      assert t + Zeros(n + 1) == (t + Zeros(n)) + [false];
      assert v[..n] + [v[n]] == v && t + v == (t + v[..n]) + [v[n]];
    }
  }

  lemma {:induction false} OrBound(a: nat, b: nat, k: nat)
    requires a < Pow2(k) && b < Pow2(k)
    ensures Or(a, b) < Pow2(k)
    decreases k
  {
    if k > 0 {
      OrBound(a / 2, b / 2, k - 1);
    }
  }

  lemma OctetPower(k: nat)
    requires k == 8
    ensures Pow2(k) == 256
  {
    assert Pow2(k - 8) == 1;
    assert Pow2(k - 7) == 2;
    assert Pow2(k - 6) == 4;
    assert Pow2(k - 5) == 8;
    assert Pow2(k - 4) == 16;
    assert Pow2(k - 3) == 32;
    assert Pow2(k - 2) == 64;
    assert Pow2(k - 1) == 128;
  }

  lemma WordPower(k: nat)
    requires k == 32
    ensures Pow2(k) == WORD
  {
    OctetPower(k - 24);
    Pow2Add(k - 24, k - 24);
    Pow2Add(k - 16, k - 16);
  }

  lemma {:induction false} PowerGrows(m: nat, n: nat)
    requires m <= n
    ensures Pow2(m) <= Pow2(n)
  {
    if m < n {
      PowerGrows(m, n - 1);
    }
  }

  /** Or on octets. */
  function Or8(a: Octet, b: Octet): Octet
  {
    OctetPower(8);
    OrBound(a, b, 8);
    Or(a, b)
  }

  lemma OctetBound(v: Bits, n: nat)
    requires |v| <= n == 8
    ensures Val(v) < 256
  {
    ValBound(v);
    PowerGrows(|v|, n);
    OctetPower(n);
  }

  lemma OctetBounds(tail: Bits, v: Bits, n: nat)
    requires |tail| + |v| == n == 8
    ensures Val(tail + Zeros(|v|)) < 256 && Val(v) < 256 && Val(tail + v) < 256
  {
    OctetBound(tail + Zeros(|v|), n);
    OctetBound(v, n);
    OctetBound(tail + v, n);
  }

  /** Bits that follow others in an octet are or-ed into it. */
  lemma OrBits(tail: Bits, v: Bits)
    requires |tail| + |v| == 8
    ensures Val(tail + Zeros(|v|)) < 256 && Val(v) < 256 && Val(tail + v) < 256
    ensures Or8(Val(tail + Zeros(|v|)), Val(v)) == Val(tail + v)
  {
    OctetBounds(tail, v, |tail| + |v|);
    OrConcat(tail, v);
  }

  lemma ShiftedVal(w: Bits, k: nat)
    ensures Val(w + Zeros(k)) == Val(w) * Pow2(k)
  {
    ValConcat(w, Zeros(k));
    ValZeros(k);
  }

  lemma ShrVal(w: Bits, m: nat)
    requires m <= |w|
    ensures Shr(Val(w), m) == Val(w[..|w| - m])
  {
    ValParts(w, m);
  }

  lemma SmallOctet(x: nat)
    requires x < 256
    ensures U8(x) == x
  {
  }

  /** A word shifted right keeps its first bits. */
  lemma ShrBits(w: Bits, m: nat)
    requires m <= |w| <= m + 8
    ensures U8(Shr(Val(w), m)) == Val(w[..|w| - m])
  {
    var first, n := w[..|w| - m], 8;
    ShrVal(w, m);
    OctetBound(first, n);
    SmallOctet(Val(first));
  }

  lemma OctetRemainder(x: nat, p: nat, y: nat)
    requires p == 256 && y < 256
    ensures (x * p + y) % 256 == y
  {
  }

  lemma LowOctet(a: Bits, b: Bits, n: nat)
    requires |b| == n == 8
    ensures U8(Val(a + b)) == Val(b)
  {
    ValConcat(a, b);
    OctetPower(n);
    OctetBound(b, n);
    OctetRemainder(Val(a), Pow2(n), Val(b));
  }

  /** The octet before the last k bits of a number. */
  lemma OctetAt(v: Bits, k: nat, n: nat)
    requires k + n <= |v| && n == 8
    ensures U8(Shr(Val(v), k)) == Val(v[|v| - k - n..|v| - k])
  {
    var front := v[..|v| - k];
    var a, b := front[..|front| - n], front[|front| - n..];
    ShrVal(v, k);
    LowOctet(a, b, n);
    assert front == a + b;
    assert b == v[|v| - k - n..|v| - k];
  }

  /** A word kept to 32 bits. */
  lemma Kept(v: Bits, n: nat)
    requires n == 32
    ensures Val(v) % WORD == Val(if |v| <= n then v else v[|v| - n..])
  {
    WordPower(n);
    if |v| <= n {
      ValBound(v);
      PowerGrows(|v|, n);
    } else {
      ValParts(v, n);
    }
  }

  /** And of a word shifted left, when it lies within the 32 bits that are kept. */
  lemma ShlOctet(w: Bits, pad: nat, k: nat)
    requires k + 8 <= |w| + pad && k + 8 <= 32
    ensures var v := w + Zeros(pad);
            U8(Shr(Shl(Val(w), pad), k)) == Val(v[|v| - k - 8..|v| - k])
  {
    var v := w + Zeros(pad);
    var n, e := 32, 8;
    var u := if |v| <= n then v else v[|v| - n..];
    ShiftedVal(w, pad);
    Kept(v, n);
    OctetAt(u, k, e);
    assert u[|u| - k - e..|u| - k] == v[|v| - k - e..|v| - k];
  }

  /** A short word shifted to the top of what an octet has free. */
  lemma ShlShort(w: Bits, k: nat)
    requires |w| + k <= 8
    ensures U8(Shl(Val(w), k)) == Val(w + Zeros(k))
  {
    var n, e := 32, 8;
    ShiftedVal(w, k);
    Kept(w + Zeros(k), n);
    OctetBound(w + Zeros(k), e);
  }

  // ---------- what is written ----------

  /** The bits of an octet. */
  lemma OctetVal(bits: Bits)
    requires |bits| == 8
    ensures Val(bits) < 256 && BitsOfOctets([Val(bits)]) == bits
  {
    var a, b := bits[..4], bits[4..];
    assert bits == a + b;
    ValConcat(a, b);
    NibbleVal(a);
    NibbleVal(b);
    TwoNibbles(a, b, Val(bits));
  }

  lemma OctetBits(hi: Nibble, lo: Nibble, o: Octet)
    requires o == 16 * hi + lo
    ensures BitsOfOctets([o]) == NibbleBits(hi) + NibbleBits(lo)
  {
    var none: seq<Octet> := [];
    OctetsSplit(hi, lo, none);
    assert [16 * hi + lo] + none == [o];
    assert NibbleBits(lo) + BitsOfOctets(none) == NibbleBits(lo);
  }

  lemma TwoNibbles(a: Bits, b: Bits, o: nat)
    requires |a| == |b| == 4 && o == 16 * NibbleOf(a) + NibbleOf(b)
    ensures o < 256 && BitsOfOctets([o]) == a + b
  {
    OctetBits(NibbleOf(a), NibbleOf(b), o);
    NibbleRoundTrip(a, 0);
    NibbleRoundTrip(b, 0);
  }

  lemma NibbleVal(bits: Bits)
    requires |bits| == 4
    ensures Val(bits) == NibbleOf(bits) && Pow2(|bits|) == 16
  {
    var n := |bits|;
    assert Pow2(n - 4) == 1 && Pow2(n - 3) == 2 && Pow2(n - 2) == 4 && Pow2(n - 1) == 8;
    var b3, b2, b1, b0 := bits[..3], bits[..2], bits[..1], bits[..0];
    assert b3[..2] == b2 && b2[..1] == b1 && b1[..0] == b0;
    assert Val(b0) == 0;
    assert Val(b1) == if bits[0] then 1 else 0;
    assert Val(b2) == 2 * Val(b1) + if bits[1] then 1 else 0;
    assert Val(b3) == 2 * Val(b2) + if bits[2] then 1 else 0;
    assert Val(bits) == 2 * Val(b3) + if bits[3] then 1 else 0;
  }

  lemma {:induction false} OctetsConcat(a: seq<Octet>, b: seq<Octet>)
    ensures BitsOfOctets(a + b) == BitsOfOctets(a) + BitsOfOctets(b)
  {
    if a == [] {
      assert a + b == b;
    } else {
      var hi: Nibble, lo: Nibble := a[0] / 16, a[0] % 16;
      var rest := a[1..];
      assert a == [16 * hi + lo] + rest && a + b == [16 * hi + lo] + (rest + b);
      OctetsSplit(hi, lo, rest);
      OctetsSplit(hi, lo, rest + b);
      OctetsConcat(rest, b);
    }
  }

  lemma Appended(os: seq<Octet>, bits: Bits)
    requires |bits| == 8
    ensures Val(bits) < 256 && BitsOfOctets(os + [Val(bits)]) == BitsOfOctets(os) + bits
  {
    OctetVal(bits);
    OctetsConcat(os, [Val(bits)]);
  }

  // ---------- the encoder ----------

  /** A row of the table of code words: their length, and their bits aligned to the right. */
  datatype Sym = Sym(nbits: nat, code: nat)

  function SymOf(w: Bits): Sym
  {
    Sym(|w|, Val(w))
  }

  /** After the octets `base` the bits have been written, all but the last ones in whole octets, and those at the top
      of the octet held, of which `free` bits are unused. */
  ghost predicate Wrote(base: seq<Octet>, out: seq<Octet>, hold: Octet, free: nat, bits: Bits)
  {
    && 1 <= free <= 8 && base <= out && |bits| == 8 * (|out| - |base|) + 8 - free
    && BitsOfOctets(out[|base|..]) == bits[..|bits| + free - 8]
    && (free < 8 ==> hold == Val(bits[|bits| + free - 8..] + Zeros(free)))
  }

  /** The bits have been written in whole octets. */
  ghost predicate Whole(base: seq<Octet>, out: seq<Octet>, bits: Bits)
  {
    base <= out && |bits| == 8 * (|out| - |base|) && BitsOfOctets(out[|base|..]) == bits
  }

  lemma TakeDrop<T>(s: seq<T>, w: seq<T>, i: nat)
    requires i <= |s|
    ensures (s + w)[..i] == s[..i] && (s + w)[i..] == s[i..] + w && s[..i] + (s[i..] + w) == s + w
  {
  }

  /** What is held, as bits: those at its top, then zeros. */
  lemma Held(base: seq<Octet>, out: seq<Octet>, hold: Octet, free: nat, bits: Bits)
    requires Wrote(base, out, hold, free, bits) && (free == 8 ==> hold == 0)
    ensures hold == Val(bits[|bits| + free - 8..] + Zeros(free))
  {
    if free == 8 {
      assert bits[|bits| + free - 8..] == [];
      ZeroOctet(free);
    }
  }

  lemma ZeroOctet(n: nat)
    ensures Val([] + Zeros(n)) == 0
  {
    assert [] + Zeros(n) == Zeros(n);
    ValZeros(n);
  }

  lemma Assoc<T>(a: seq<T>, b: seq<T>, c: seq<T>)
    ensures (a + b) + c == a + (b + c)
  {
  }

  /** The octet held takes some more bits and stays held. */
  lemma HoldMore(base: seq<Octet>, out: seq<Octet>, hold: Octet, free: nat, bits: Bits, w: Bits, b: Octet)
    requires Wrote(base, out, hold, free, bits) && (free == 8 ==> hold == 0) && |w| < free
    requires b == Val(w + Zeros(free - |w|))
    ensures Wrote(base, out, Or8(hold, b), free - |w|, bits + w)
  {
    var i, rest := |bits| + free - 8, free - |w|;
    var tail, v := bits[i..], w + Zeros(rest);
    Held(base, out, hold, free, bits);
    assert |v| == free;
    OrBits(tail, v);
    Assoc(tail, w, Zeros(rest));
    TakeDrop(bits, w, i);
  }

  /** It takes as many as it has room for and is done. */
  lemma HoldDone(base: seq<Octet>, out: seq<Octet>, hold: Octet, free: nat, bits: Bits, w: Bits, b: Octet)
    requires Wrote(base, out, hold, free, bits) && (free == 8 ==> hold == 0) && |w| == free && b == Val(w)
    ensures forall h: Octet :: Wrote(base, out + [Or8(hold, b)], h, 8, bits + w)
  {
    var i := |bits| + free - 8;
    var tail := bits[i..];
    Held(base, out, hold, free, bits);
    OrBits(tail, w);
    WholeMore(base, out, bits[..i], tail + w);
    TakeDrop(bits, w, i);
  }

  lemma WholeMore(base: seq<Octet>, out: seq<Octet>, bits: Bits, octet: Bits)
    requires Whole(base, out, bits) && |octet| == 8
    ensures Val(octet) < 256
    ensures forall h: Octet :: Wrote(base, out + [Val(octet)], h, 8, bits + octet)
  {
    Appended(out[|base|..], octet);
    assert (out + [Val(octet)])[|base|..] == out[|base|..] + [Val(octet)];
    var all := bits + octet;
    assert all[..|all| + 8 - 8] == all;
  }

  /** A fresh octet is held with its first bits. */
  lemma HoldFirst(base: seq<Octet>, out: seq<Octet>, bits: Bits, w: Bits, free: nat, b: Octet)
    requires Whole(base, out, bits)
    requires 1 <= free < 8 && |w| + free == 8 && b == Val(w + Zeros(free))
    ensures Wrote(base, out, b, free, bits + w)
  {
    var all := bits + w;
    assert all[..|all| + free - 8] == bits && all[|all| + free - 8..] == w;
  }

  /** What a whole number of octets leaves. */
  lemma Aligned(base: seq<Octet>, out: seq<Octet>, hold: Octet, bits: Bits)
    requires Wrote(base, out, hold, 8, bits)
    ensures Whole(base, out, bits)
  {
    assert bits[..|bits| + 8 - 8] == bits;
  }

  /** The octets of a shifted code word from its end, as the encoder takes them. */
  ghost predicate Octets(code: nat, z: Bits)
  {
    |z| <= 32 && forall k: nat :: k + 8 <= |z| ==> U8(Shr(code, k)) == Val(z[|z| - k - 8..|z| - k])
  }

  lemma NextOctet(base: seq<Octet>, out: seq<Octet>, bits: Bits, code: nat, z: Bits, k: nat)
    requires Octets(code, z) && k + 8 <= |z| && Whole(base, out, bits + z[..|z| - k - 8])
    ensures Whole(base, out + [U8(Shr(code, k))], bits + z[..|z| - k])
  {
    var e := |z| - k - 8;
    var octet, more := z[e..|z| - k], out + [U8(Shr(code, k))];
    WholeMore(base, out, bits + z[..e], octet);
    Aligned(base, more, 0, (bits + z[..e]) + octet);
    assert (bits + z[..e]) + octet == bits + z[..|z| - k];
  }

  lemma LastOctet(code: nat, z: Bits)
    requires Octets(code, z) && |z| >= 8
    ensures U8(code) == Val(z[|z| - 8..])
  {
    var k: nat := 0;
    assert Shr(code, k) == code;
    assert z[|z| - k - 8..|z| - k] == z[|z| - 8..];
  }

  /** The last octet of the rest of a word completes it, or is held with what is left of it. */
  lemma RestDone(base: seq<Octet>, out: seq<Octet>, bits: Bits, z: Bits, n: nat, b: Octet)
    requires 8 <= |z| && 1 <= n <= |z| < n + 8 && |z| % 8 == 0 && z[n..] == Zeros(|z| - n) && b == Val(z[|z| - 8..])
    requires Whole(base, out, bits + z[..|z| - 8])
    ensures n == |z| ==> forall h: Octet :: Wrote(base, out + [b], h, 8, bits + z[..n])
    ensures n < |z| ==> Wrote(base, out, b, |z| - n, bits + z[..n])
  {
    var e := |z| - 8;
    var octet := z[e..];
    if n == |z| {
      WholeMore(base, out, bits + z[..e], octet);
      assert (bits + z[..e]) + octet == bits + z[..n];
    } else {
      assert octet == z[e..n] + Zeros(|z| - n);
      HoldFirst(base, out, bits + z[..e], z[e..n], |z| - n, b);
      assert (bits + z[..e]) + z[e..n] == bits + z[..n];
    }
  }

  lemma Suffix<T>(a: seq<T>, z: seq<T>, i: nat, j: nat)
    requires i <= j <= |z|
    ensures (a + z)[|a| + i..|a| + j] == z[i..j]
  {
  }

  lemma OctetOfRest(w: Bits, pad: nat, code: nat, k: nat)
    requires code == (if pad == 0 then Val(w) else Shl(Val(w), pad)) && k + 8 <= |w| + pad && k + 8 <= 32
    ensures var v := w + Zeros(pad); U8(Shr(code, k)) == Val(v[|v| - k - 8..|v| - k])
  {
    var e := 8;
    if pad == 0 {
      assert w + Zeros(pad) == w;
      OctetAt(w, k, e);
    } else {
      ShlOctet(w, pad, k);
    }
  }

  lemma RoundUp(n: nat, left: nat, shift: nat)
    requires n % 8 == 0 && left <= n < left + 8 && shift % 8 == 0 && shift < left <= shift + 8
    ensures n == shift + 8
  {
  }

  lemma PadTo8(n: nat) returns (pad: nat)
    requires n <= 31
    ensures pad < 8 && (n + pad) % 8 == 0 && n + pad <= 32
    ensures pad == if n % 8 == 0 then 0 else 8 - n % 8
  {
    pad := if n % 8 == 0 then 0 else 8 - n % 8;
  }

  lemma Suffixed<T>(a: seq<T>, b: seq<T>)
    ensures (a + b)[..|a|] == a && (a + b)[|a|..] == b
  {
  }

  lemma Regroup<T>(w: seq<T>, j: nat, s: seq<T>)
    requires j <= |w|
    ensures w + s == w[..j] + (w[j..] + s)
  {
  }

  lemma Regroup3<T>(s: seq<T>, w: seq<T>, j: nat)
    requires j <= |w|
    ensures (s + w[..j]) + w[j..] == s + w
  {
  }

  lemma RestOctet(w: Bits, j: nat, pad: nat, code: nat, k: nat, z: Bits)
    requires j <= |w| && z == w[j..] + Zeros(pad) && code == if pad == 0 then Val(w) else Shl(Val(w), pad)
    requires k + 8 <= |z| <= 32
    ensures U8(Shr(code, k)) == Val(z[|z| - k - 8..|z| - k])
  {
    OctetOfRest(w, pad, code, k);
    Regroup(w, j, Zeros(pad));
    SuffixOctet(w + Zeros(pad), w[..j], z, code, k);
  }

  lemma SuffixOctet(v: Bits, a: Bits, z: Bits, code: nat, k: nat)
    requires v == a + z && k + 8 <= |z| && U8(Shr(code, k)) == Val(v[|v| - k - 8..|v| - k])
    ensures U8(Shr(code, k)) == Val(z[|z| - k - 8..|z| - k])
  {
    Suffix(a, z, |z| - k - 8, |z| - k);
  }

  /** The rest of a code word once the first octet is full: shifted to end at an octet boundary. */
  lemma RestOctets(w: Bits, j: nat, pad: nat, code: nat)
    requires 1 <= j < |w| && |w| - j + pad <= 32 && code == if pad == 0 then Val(w) else Shl(Val(w), pad)
    ensures Octets(code, w[j..] + Zeros(pad))
  {
    var z := w[j..] + Zeros(pad);
    forall k: nat | k + 8 <= |z|
      ensures U8(Shr(code, k)) == Val(z[|z| - k - 8..|z| - k])
    {
      RestOctet(w, j, pad, code, k, z);
    }
  }

  /** The output: the octets written, and the one held at its end. */
  class Bufs {
    var out: seq<Octet>
    var hold: Octet

    constructor ()
      ensures out == []
    {
      out, hold := [], 0;
    }

    method AddB(b: Octet)
      modifies this
      ensures out == old(out) + [b]
    {
      out := out + [b];
    }

    method AddBHold(b: Octet)
      modifies this
      ensures out == old(out) && hold == b
    {
      hold := b;
    }

    method OrB(b: Octet)
      modifies this
      ensures out == old(out) + [Or8(old(hold), b)]
    {
      out := out + [Or8(hold, b)];
    }

    method OrBHold(b: Octet)
      modifies this
      ensures out == old(out) && hold == Or8(old(hold), b)
    {
      hold := Or8(hold, b);
    }

    /** One of the steps that write an octet while more than `shift` bits are left. */
    method AddAbove(code: nat, nbits: nat, shift: nat, ghost base: seq<Octet>, ghost bits: Bits, ghost z: Bits,
                    ghost e: nat)
      returns (left: nat, ghost f: nat)
      requires Octets(code, z) && shift % 8 == 0 && 8 <= shift && 1 <= nbits <= shift + 8
      requires |z| % 8 == 0 && e % 8 == 0 && e + nbits <= |z| < e + nbits + 8
      requires Whole(base, out, bits + z[..e])
      modifies this
      ensures f == (if nbits > shift then e + 8 else e) && left + f == nbits + e && 1 <= left <= shift
      ensures Whole(base, out, bits + z[..f])
    {
      left, f := nbits, e;
      if nbits > shift {
        RoundUp(|z| - e, nbits, shift);
        NextOctet(base, out, bits, code, z, shift);
        AddB(U8(Shr(code, shift)));
        left, f := nbits - 8, e + 8;
      }
    }

    /** The steps for the octets before the last. */
    method AddOctets(code: nat, nbits: nat, ghost base: seq<Octet>, ghost bits: Bits, ghost z: Bits)
      returns (left: nat, ghost e: nat)
      requires Octets(code, z) && 1 <= nbits <= |z| < nbits + 8 && |z| % 8 == 0
      requires Whole(base, out, bits)
      modifies this
      ensures 1 <= left <= 8 && e + left == nbits && |z| == e + 8 && Whole(base, out, bits + z[..e])
    {
      assert bits + z[..0] == bits;
      left, e := AddAbove(code, nbits, 24, base, bits, z, 0);
      left, e := AddAbove(code, left, 16, base, bits, z, e);
      left, e := AddAbove(code, left, 8, base, bits, z, e);
    }

    /** The rest of a code word, from an octet boundary on: whole octets, then what is left is held. */
    method AddRest(code: nat, nbits: nat, ghost base: seq<Octet>, ghost bits: Bits, ghost z: Bits) returns (free: nat)
      requires Octets(code, z) && 1 <= nbits <= |z| < nbits + 8 && |z| % 8 == 0
      requires z[nbits..] == Zeros(|z| - nbits)
      requires Whole(base, out, bits)
      modifies this
      ensures Wrote(base, out, hold, free, bits + z[..nbits])
    {
      var left;
      ghost var e;
      left, e := AddOctets(code, nbits, base, bits, z);
      LastOctet(code, z);
      RestDone(base, out, bits, z, nbits, U8(code));
      if left == 8 {
        AddB(U8(code));
        free := 8;
      } else {
        AddBHold(U8(code));
        free := 8 - left;
      }
    }

    /** The rest of a word is first shifted to end at an octet boundary. */
    method AddShifted(word: nat, nbits: nat, ghost base: seq<Octet>, ghost bits: Bits, ghost w: Bits, ghost j: nat)
      returns (free: nat)
      requires 1 <= j < |w| <= 32 && nbits == |w| - j && word == Val(w) && Whole(base, out, bits)
      modifies this
      ensures Wrote(base, out, hold, free, bits + w[j..])
    {
      var code := word;
      ghost var pad := PadTo8(nbits);
      if nbits % 8 != 0 {
        code := Shl(code, 8 - nbits % 8);
      }
      RestOctets(w, j, pad, code);
      ghost var z := w[j..] + Zeros(pad);
      Suffixed(w[j..], Zeros(pad));
      free := AddRest(code, nbits, base, bits, z);
    }

    /** A word longer than what the held octet has free. */
    method EncodeLong(rembits: nat, sym: Sym, ghost base: seq<Octet>, ghost bits: Bits, ghost w: Bits)
      returns (free: nat)
      requires Wrote(base, out, hold, rembits, bits) && (rembits == 8 ==> hold == 0)
      requires sym == SymOf(w) && rembits < |w| <= 32
      modifies this
      ensures Wrote(base, out, hold, free, bits + w)
    {
      var nbits, code := sym.nbits, sym.code;
      ghost var first := w[..rembits];
      ShrBits(w, nbits - rembits);
      HoldDone(base, out, hold, rembits, bits, first, U8(Shr(code, nbits - rembits)));
      OrB(U8(Shr(code, nbits - rembits)));
      Aligned(base, out, hold, bits + first);
      nbits := nbits - rembits;
      free := AddShifted(code, nbits, base, bits + first, w, rembits);
      Regroup3(bits, w, rembits);
    }

    /** `huff_encode_sym`: the word goes where the last one ended. */
    method EncodeSym(rembits: nat, sym: Sym, ghost base: seq<Octet>, ghost bits: Bits, ghost w: Bits)
      returns (free: nat)
      requires Wrote(base, out, hold, rembits, bits) && (rembits == 8 ==> hold == 0)
      requires sym == SymOf(w) && 1 <= |w| <= 32
      modifies this
      ensures Wrote(base, out, hold, free, bits + w)
    {
      var nbits, code := sym.nbits, sym.code;
      if rembits > nbits {
        ShlShort(w, rembits - nbits);
        HoldMore(base, out, hold, rembits, bits, w, U8(Shl(code, rembits - nbits)));
        OrBHold(U8(Shl(code, rembits - nbits)));
        return rembits - nbits;
      }
      if rembits == nbits {
        OctetBound(w, 8);
        HoldDone(base, out, hold, rembits, bits, w, U8(code));
        OrB(U8(code));
        return 8;
      }
      free := EncodeLong(rembits, sym, base, bits, w);
    }

    /** One symbol: a new octet is begun when the last one is full. */
    method EncodeNext(rembits: nat, sym: Sym, ghost base: seq<Octet>, ghost bits: Bits, ghost w: Bits)
      returns (free: nat)
      requires Wrote(base, out, hold, rembits, bits) && sym == SymOf(w) && 1 <= |w| <= 32
      modifies this
      ensures Wrote(base, out, hold, free, bits + w)
    {
      if rembits == 8 {
        AddBHold(0);
      }
      free := EncodeSym(rembits, sym, base, bits, w);
    }

    /** The padding: the first bits of EOS. */
    method Pad(rembits: nat, sym: Sym, ghost base: seq<Octet>, ghost bits: Bits, ghost codes: seq<Code>)
      requires HasEos(codes) && DistinctSymbols(codes) && InBook(codes, EOS) && sym == SymOf(WordOf(codes, EOS))
      requires Wrote(base, out, hold, rembits, bits) && rembits < 8
      modifies this
      ensures Wrote(base, out, hold, 8, bits + Ones(rembits))
    {
      ghost var ones := WordOf(codes, EOS);
      EosOnes(codes);
      ShrBits(ones, sym.nbits - rembits);
      HoldDone(base, out, hold, rembits, bits, ones[..rembits], U8(Shr(sym.code, sym.nbits - rembits)));
      AllOnesAre(ones[..rembits], rembits);
      OrB(U8(Shr(sym.code, sym.nbits - rembits)));
    }

    /** The words of the symbols, one after another. */
    method EncodeWords(table: seq<Sym>, src: seq<Octet>, ghost codes: seq<Code>) returns (rembits: nat)
      requires Lists(table, codes)
      modifies this
      ensures AllInBook(codes, src) && Wrote(old(out), out, hold, rembits, HuffmanCodec.Encode(codes, src))
    {
      ghost var base, bits := out, [];
      rembits := 8;
      WroteNothing(out, hold);
      for i := 0 to |src|
        invariant AllInBook(codes, src[..i]) && bits == HuffmanCodec.Encode(codes, src[..i])
        invariant Wrote(base, out, hold, rembits, bits)
      {
        ghost var w := WordAt(table, codes, src[i]);
        EncodeLast(codes, src, i);
        rembits := EncodeNext(rembits, table[src[i]], base, bits, w);
        bits := bits + w;
      }
      assert src[..|src|] == src;
    }

    /** `nghttp2_hd_huff_encode`: the words of the symbols, padded with the first bits of EOS. */
    method Encode(table: seq<Sym>, src: seq<Octet>, ghost codes: seq<Code>)
      requires HasEos(codes) && DistinctSymbols(codes) && Lists(table, codes)
      modifies this
      ensures AllInBook(codes, src) && out == old(out) + EncodeOctets(codes, src)
    {
      ghost var base := out;
      var rembits := EncodeWords(table, src, codes);
      ghost var bits := HuffmanCodec.Encode(codes, src);
      if rembits < 8 {
        ghost var eos := WordAt(table, codes, EOS);
        Pad(rembits, table[EOS], base, bits, codes);
        Padded(base, out, hold, codes, src, rembits);
      } else {
        ghost var none := 0;
        assert bits + Ones(none) == bits;
        Padded(base, out, hold, codes, src, none);
      }
    }
  }

  /** The table has the word of every symbol up to EOS, of at most 32 bits. */
  ghost predicate Lists(table: seq<Sym>, codes: seq<Code>)
  {
    |table| == EOS + 1
    && forall s: nat :: s <= EOS ==>
                          InBook(codes, s) && 1 <= |WordOf(codes, s)| <= 32 && table[s] == SymOf(WordOf(codes, s))
  }

  lemma WordAt(table: seq<Sym>, codes: seq<Code>, s: nat) returns (w: Bits)
    requires Lists(table, codes) && s <= EOS
    ensures s < |table| && InBook(codes, s) && w == WordOf(codes, s) && 1 <= |w| <= 32 && table[s] == SymOf(w)
  {
    w := WordOf(codes, s);
  }

  lemma WroteNothing(out: seq<Octet>, hold: Octet)
    ensures Wrote(out, out, hold, 8, [])
  {
    var os := out[|out|..];
    assert os == [] && BitsOfOctets(os) == [];
  }

  lemma EncodeLast(codes: seq<Code>, src: seq<nat>, i: nat)
    requires i < |src| && AllInBook(codes, src[..i]) && InBook(codes, src[i])
    ensures AllInBook(codes, src[..i + 1])
    ensures HuffmanCodec.Encode(codes, src[..i + 1]) == HuffmanCodec.Encode(codes, src[..i]) + WordOf(codes, src[i])
  {
    var one := [src[i]];
    assert src[..i + 1] == src[..i] + one;
    assert one[1..] == [];
    assert HuffmanCodec.Encode(codes, one) == WordOf(codes, src[i]) + HuffmanCodec.Encode(codes, []);
    EncodeConcat(codes, src[..i], one);
  }

  lemma EosOnes(codes: seq<Code>)
    requires HasEos(codes) && DistinctSymbols(codes)
    ensures InBook(codes, EOS) && AllOnes(WordOf(codes, EOS)) && |WordOf(codes, EOS)| >= 8
  {
    var c :| c in codes && c.sym == EOS && AllOnes(c.bits) && |c.bits| >= 8;
    WordUnique(codes, EOS, c.bits);
  }

  lemma {:induction false} AllOnesAre(bits: Bits, n: nat)
    requires AllOnes(bits) && |bits| == n
    ensures bits == Ones(n)
  {
  }

  lemma Padded(base: seq<Octet>, out: seq<Octet>, hold: Octet, codes: seq<Code>, src: seq<nat>, k: nat)
    requires AllInBook(codes, src) && k < 8 && Wrote(base, out, hold, 8, HuffmanCodec.Encode(codes, src) + Ones(k))
    ensures out == base + EncodeOctets(codes, src)
  {
    var os, bits := out[|base|..], HuffmanCodec.Encode(codes, src) + Ones(k);
    Aligned(base, out, hold, bits);
    PadUnique(|HuffmanCodec.Encode(codes, src)|, k, |os|);
    PackUnpack(os);
    assert out == base + os;
  }

  lemma EncodeLength(codes: seq<Code>, src: seq<nat>)
    requires AllInBook(codes, src)
    ensures |EncodeOctets(codes, src)| == (|HuffmanCodec.Encode(codes, src)| + 7) / 8
  {
  }

  /** `nghttp2_hd_huff_encode_count`: the number of octets the encoder will write. */
  method EncodeCount(table: seq<Sym>, src: seq<Octet>, ghost codes: seq<Code>) returns (n: nat)
    requires Lists(table, codes)
    ensures AllInBook(codes, src) && n == |EncodeOctets(codes, src)|
  {
    var nbits := 0;
    for i := 0 to |src|
      invariant AllInBook(codes, src[..i]) && nbits == |HuffmanCodec.Encode(codes, src[..i])|
    {
      EncodeLast(codes, src, i);
      nbits := nbits + table[src[i]].nbits;
    }
    assert src[..|src|] == src;
    n := (nbits + 7) / 8;
  }
}
