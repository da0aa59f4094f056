/** The texts client and server exchange: the pushed path and the request path, with the decimal printing
    (`std::to_string`), reading (`std::stoi`) and splitting (`boost::split`) they are made of. */
module WireFormat {
  import opened Options

  const INT_MAX := 0x7fff_ffff

  // ---------- decimal numbers ----------

  predicate Digit(c: char)
  {
    '0' <= c <= '9'
  }

  predicate Space(c: char)
  {
    c == ' ' || '\t' <= c <= '\r'
  }

  function PrintNat(n: nat): (s: string)
    ensures s != [] && forall c :: c in s ==> Digit(c)
  {
    var last := [('0' as int + n % 10) as char];
    if n < 10 then last else PrintNat(n / 10) + last
  }

  /** `std::to_string`. */
  function Print(n: int): (s: string)
    ensures s != [] && forall c :: c in s ==> Digit(c) || c == '-'
  {
    if n < 0 then "-" + PrintNat(-n) else PrintNat(n)
  }

  /** The number of digits a text starts with. */
  function Leading(s: string): (k: nat)
    ensures k <= |s| && (forall i :: 0 <= i < k ==> Digit(s[i])) && (k < |s| ==> !Digit(s[k]))
  {
    if s != [] && Digit(s[0]) then 1 + Leading(s[1..]) else 0
  }

  function Value(s: string): nat
    requires forall c :: c in s ==> Digit(c)
  {
    if s == [] then 0
    else
      assert Digit(s[|s| - 1]);
      10 * Value(s[..|s| - 1]) + (s[|s| - 1] as int - '0' as int)
  }

  function SkipSpace(s: string): string
  {
    if s != [] && Space(s[0]) then SkipSpace(s[1..]) else s
  }

  /** A number that fits the source's int; `std::stoi` throws on any other. */
  function Fits(n: int): Option<int>
  {
    if -INT_MAX - 1 <= n <= INT_MAX then Some(n) else None
  }

  /** `std::stoi`: spaces, a sign, the longest run of digits; the rest is ignored. None is its exception. */
  function Stoi(s: string): Option<int>
  {
    var t := SkipSpace(s);
    var signed := t != [] && (t[0] == '-' || t[0] == '+');
    var u := if signed then t[1..] else t;
    var k := Leading(u);
    if k == 0 then None
    else
      var v: int := Value(u[..k]);
      Fits(if signed && t[0] == '-' then 0 - v else v)
  }

  lemma {:induction false} PrintValue(n: nat)
    ensures Value(PrintNat(n)) == n
  {
    if n >= 10 {
      PrintValue(n / 10);
      var s := PrintNat(n);
      assert s[..|s| - 1] == PrintNat(n / 10);
    }
  }

  lemma {:induction false} LeadingOf(digits: string, rest: string)
    requires forall c :: c in digits ==> Digit(c)
    requires rest != [] ==> !Digit(rest[0])
    ensures Leading(digits + rest) == |digits|
  {
    if digits == [] {
      assert digits + rest == rest;
    } else {
      assert (digits + rest)[1..] == digits[1..] + rest;
      LeadingOf(digits[1..], rest);
    }
  }

  lemma LeadingDigits(digits: string, rest: string)
    requires digits != [] && (forall c :: c in digits ==> Digit(c)) && (rest != [] ==> !Digit(rest[0]))
    ensures var u := digits + rest; Leading(u) == |digits| && u[..|digits|] == digits && Digit(u[0])
  {
    LeadingOf(digits, rest);
    assert digits[0] in digits;
  }

  lemma BehindSign(c: char, u: string)
    ensures ([c] + u)[1..] == u && ([c] + u)[0] == c
  {
  }

  /** What is read from a sign, digits and something that is not a digit. */
  lemma ReadBehind(c: char, digits: string, rest: string)
    requires c == '-' || c == '+'
    requires digits != [] && (forall c :: c in digits ==> Digit(c)) && (rest != [] ==> !Digit(rest[0]))
    ensures var v: int := Value(digits); Stoi([c] + (digits + rest)) == Fits(if c == '-' then 0 - v else v)
  {
    BehindSign(c, digits + rest);
    LeadingDigits(digits, rest);
  }

  lemma ReadPlain(digits: string, rest: string)
    requires digits != [] && (forall c :: c in digits ==> Digit(c)) && (rest != [] ==> !Digit(rest[0]))
    ensures Stoi(digits + rest) == Fits(Value(digits))
  {
    LeadingDigits(digits, rest);
  }

  /** Reading back a printed number gives it, whatever follows it that is not a digit, exactly when it fits. */
  lemma ReadPrinted(n: int, rest: string)
    requires rest != [] ==> !Digit(rest[0])
    ensures Stoi(Print(n) + rest) == Fits(n)
  {
    if n < 0 {
      PrintValue(-n);
      ReadBehind('-', PrintNat(-n), rest);
      Minus(PrintNat(-n), rest);
    } else {
      PrintValue(n);
      ReadPlain(PrintNat(n), rest);
    }
  }

  lemma Minus(digits: string, rest: string)
    ensures "-" + digits + rest == ['-'] + (digits + rest)
  {
  }

  /** A number is printed without leading zeros, and with a minus exactly when it is negative. */
  lemma {:induction false} PrintedPlainly(n: nat)
    ensures PrintNat(n)[0] == '0' <==> n == 0
    ensures |PrintNat(n)| == 1 <==> n < 10
  {
    if n >= 10 {
      PrintedPlainly(n / 10);
    }
  }

  function ZeroDigits(k: nat): (s: string)
    ensures |s| == k && forall c :: c in s ==> Digit(c)
  {
    seq(k, i => '0')
  }

  lemma {:induction false} ValueZeros(k: nat, digits: string)
    requires forall c :: c in digits ==> Digit(c)
    ensures forall c :: c in ZeroDigits(k) + digits ==> Digit(c)
    ensures Value(ZeroDigits(k) + digits) == Value(digits)
    decreases |digits|, k
  {
    var s := ZeroDigits(k) + digits;
    if digits != [] {
      var n := |digits| - 1;
      ValueZeros(k, digits[..n]);
      assert s[..|s| - 1] == ZeroDigits(k) + digits[..n];
    } else if k > 0 {
      ValueZeros(k - 1, digits);
      assert s[..|s| - 1] == ZeroDigits(k - 1) + digits;
    }
  }

  lemma {:induction false} SkipSpaces(spaces: string, t: string)
    requires (forall c :: c in spaces ==> Space(c)) && t != [] && !Space(t[0])
    ensures SkipSpace(spaces + t) == t
  {
    if spaces == [] {
      assert spaces + t == t;
    } else {
      assert (spaces + t)[1..] == spaces[1..] + t;
      SkipSpaces(spaces[1..], t);
    }
  }

  lemma StoiSkips(spaces: string, t: string)
    requires (forall c :: c in spaces ==> Space(c)) && t != [] && !Space(t[0])
    ensures Stoi(spaces + t) == Stoi(t)
  {
    SkipSpaces(spaces, t);
    assert SkipSpace(t) == t;
  }

  /** A number written with leading zeros. */
  function Numeral(zeros: nat, n: nat): (s: string)
    ensures s != [] && (forall c :: c in s ==> Digit(c)) && Value(s) == n
  {
    ValueZeros(zeros, PrintNat(n));
    PrintValue(n);
    ZeroDigits(zeros) + PrintNat(n)
  }

  /** `std::stoi` on a text that has a number: spaces, any number of zeros, the digits, and whatever follows that is
      not a digit. */
  lemma ReadNumber(spaces: string, zeros: nat, n: nat, rest: string)
    requires (forall c :: c in spaces ==> Space(c)) && (rest != [] ==> !Digit(rest[0]))
    ensures Stoi(spaces + (Numeral(zeros, n) + rest)) == Fits(n)
  {
    ReadPlain(Numeral(zeros, n), rest);
    LeadingDigits(Numeral(zeros, n), rest);
    StoiSkips(spaces, Numeral(zeros, n) + rest);
  }

  /** And with a sign before the zeros. */
  lemma ReadSigned(spaces: string, sign: char, zeros: nat, n: nat, rest: string)
    requires (forall c :: c in spaces ==> Space(c)) && (rest != [] ==> !Digit(rest[0])) && (sign == '+' || sign == '-')
    ensures Stoi(spaces + ([sign] + (Numeral(zeros, n) + rest))) == Fits(if sign == '-' then 0 - n else n)
  {
    ReadSignedDigits(spaces, sign, Numeral(zeros, n), rest);
  }

  lemma ReadSignedDigits(spaces: string, sign: char, digits: string, rest: string)
    requires (forall c :: c in spaces ==> Space(c)) && (rest != [] ==> !Digit(rest[0])) && (sign == '+' || sign == '-')
    requires digits != [] && forall c :: c in digits ==> Digit(c)
    ensures var v: int := Value(digits);
            Stoi(spaces + ([sign] + (digits + rest))) == Fits(if sign == '-' then 0 - v else v)
  {
    ReadBehind(sign, digits, rest);
    SkipsToSign(spaces, sign, digits + rest);
  }

  lemma SkipsToSign(spaces: string, sign: char, u: string)
    requires (forall c :: c in spaces ==> Space(c)) && (sign == '+' || sign == '-')
    ensures Stoi(spaces + ([sign] + u)) == Stoi([sign] + u)
  {
    BehindSign(sign, u);
    StoiSkips(spaces, [sign] + u);
  }

  /** It throws on every other text: when what follows the spaces is not a digit, or not one behind a sign. */
  lemma ReadNothing(spaces: string, t: string)
    requires forall c :: c in spaces ==> Space(c)
    requires t != [] ==> !Space(t[0]) && !Digit(t[0])
    requires t != [] && (t[0] == '+' || t[0] == '-') && |t| > 1 ==> !Digit(t[1])
    ensures Stoi(spaces + t) == None
  {
    if t == [] {
      AllSpaces(spaces);
      assert spaces + t == spaces;
    } else {
      StoiSkips(spaces, t);
    }
  }

  lemma {:induction false} AllSpaces(spaces: string)
    requires forall c :: c in spaces ==> Space(c)
    ensures SkipSpace(spaces) == []
  {
    if spaces != [] {
      AllSpaces(spaces[1..]);
    }
  }

  // ---------- searching and splitting ----------

  /** `find(c, from)`, with the length standing for not found. */
  function Find(s: string, c: char, from: nat): (i: nat)
    requires from <= |s|
    ensures from <= i <= |s| && (i < |s| ==> s[i] == c) && forall j :: from <= j < i ==> s[j] != c
    decreases |s| - from
  {
    if from == |s| || s[from] == c then from else Find(s, c, from + 1)
  }

  /** `rfind(c) + 1`; not found gives 0. */
  function AfterLast(s: string, c: char): (i: nat)
    ensures i <= |s| && (i > 0 ==> s[i - 1] == c) && forall j :: i <= j < |s| ==> s[j] != c
  {
    if s == [] then 0
    else if s[|s| - 1] == c then |s|
    else AfterLast(s[..|s| - 1], c)
  }

  /** `find(c) + 1`; not found gives 0. */
  function AfterFirst(s: string, c: char): (i: nat)
    ensures i <= |s|
  {
    var i := Find(s, c, 0);
    if i < |s| then i + 1 else 0
  }

  /** `boost::split` on one character: the pieces between its occurrences. */
  function Split(s: string, c: char): (p: seq<string>)
    ensures |p| >= 1
    decreases |s|
  {
    var i := Find(s, c, 0);
    if i == |s| then [s] else [s[..i]] + Split(s[i + 1..], c)
  }

  /** The parts with the character between them. */
  function Join(parts: seq<string>, c: char): string
    requires parts != []
  {
    if |parts| == 1 then parts[0] else parts[0] + [c] + Join(parts[1..], c)
  }

  lemma {:induction false} FindIn(a: string, c: char, b: string, from: nat)
    requires from <= |a| && forall i :: from <= i < |a| ==> a[i] != c
    ensures Find(a + [c] + b, c, from) == |a|
  {
    var s := a + [c] + b;
    var i := Find(s, c, from);
    assert s[|a|] == c;
    assert i <= |a|;
    assert forall j :: from <= j < |a| ==> s[j] == a[j];
  }

  lemma FindNone(a: string, c: char)
    requires c !in a
    ensures Find(a, c, 0) == |a|
  {
  }

  lemma AfterIn(a: string, c: char, b: string)
    requires c !in a
    ensures AfterFirst(a + [c] + b, c) == |a| + 1
    ensures (a + [c] + b)[|a| + 1..] == b
  {
    FindIn(a, c, b, 0);
  }

  lemma {:induction false} LastIn(a: string, c: char, b: string)
    requires c !in b
    ensures AfterLast(a + [c] + b, c) == |a| + 1
    ensures (a + [c] + b)[|a| + 1..] == b
  {
    var s := a + [c] + b;
    var i := AfterLast(s, c);
    assert s[|a|] == c;
    assert i > |a|;
    assert forall j :: |a| + 1 <= j < |s| ==> s[j] == b[j - |a| - 1];
    assert forall j :: |a| + 1 <= j < |s| ==> s[j] != c;
  }

  predicate Without(parts: seq<string>, c: char)
  {
    forall k :: 0 <= k < |parts| ==> c !in parts[k]
  }

  lemma SplitIn(a: string, c: char, b: string)
    requires c !in a
    ensures Split(a + [c] + b, c) == [a] + Split(b, c)
  {
    FindIn(a, c, b, 0);
    AfterIn(a, c, b);
    assert (a + [c] + b)[..|a|] == a;
  }

  /** Splitting takes joined parts apart again, for any parts without the character. */
  lemma {:induction false} SplitJoin(parts: seq<string>, c: char)
    requires parts != [] && Without(parts, c)
    ensures Split(Join(parts, c), c) == parts
    decreases |parts|
  {
    assert c !in parts[0];
    if |parts| == 1 {
      FindNone(parts[0], c);
    } else {
      var rest := Join(parts[1..], c);
      SplitJoin(parts[1..], c);
      SplitIn(parts[0], c, rest);
    }
  }

  /** And joining puts split pieces together again, for every text. */
  lemma {:induction false} JoinSplit(s: string, c: char)
    ensures Join(Split(s, c), c) == s && Without(Split(s, c), c)
    decreases |s|
  {
    var i := Find(s, c, 0);
    if i < |s| {
      var rest := Split(s[i + 1..], c);
      JoinSplit(s[i + 1..], c);
      assert s == s[..i] + [c] + s[i + 1..];
      assert Split(s, c) == [s[..i]] + rest;
      assert ([s[..i]] + rest)[1..] == rest;
    }
  }

  lemma Regroup(p: string, c: char, before: string, after: string)
    ensures p + [c] + (before + [c] + after) == (p + [c] + before) + [c] + after
  {
  }

  /** The last of several joined parts is what follows the last occurrence. */
  lemma {:induction false} LastOfJoin(parts: seq<string>, c: char)
    requires |parts| >= 2 && c !in parts[|parts| - 1]
    ensures var s := Join(parts, c);
            AfterLast(s, c) > 0 && s[AfterLast(s, c)..] == parts[|parts| - 1]
    decreases |parts|
  {
    var rest := Join(parts[1..], c);
    var s := Join(parts, c);
    if |parts| == 2 {
      LastIn(parts[0], c, rest);
    } else {
      LastOfJoin(parts[1..], c);
      var k := AfterLast(rest, c);
      var before, after := rest[..k - 1], rest[k..];
      assert rest == before + [c] + after;
      Regroup(parts[0], c, before, after);
      LastIn(parts[0] + [c] + before, c, after);
    }
  }

  /** There is one piece more than there are separators. */
  lemma {:induction false} SplitCount(s: string, c: char)
    ensures |Split(s, c)| == multiset(s)[c] + 1
    decreases |s|
  {
    var i := Find(s, c, 0);
    if i < |s| {
      SplitCount(s[i + 1..], c);
      assert s == s[..i] + [c] + s[i + 1..];
      assert c !in s[..i];
    } else {
      assert c !in s;
    }
  }

  lemma {:induction false} FindFrom(s: string, c: char, from: nat, i: nat)
    requires from <= i <= |s|
    ensures Find(s[from..], c, i - from) + from == Find(s, c, i)
    decreases |s| - i
  {
    if i < |s| && s[i] != c {
      FindFrom(s, c, from, i + 1);
    }
  }

  lemma AfterLastIs(s: string, c: char, k: nat)
    requires k <= |s| && (k > 0 ==> s[k - 1] == c) && forall j :: k <= j < |s| ==> s[j] != c
    ensures AfterLast(s, c) == k
  {
  }

  /** What follows the last separator is the last of the joined parts. */
  lemma LastOfPieces(p: seq<string>, c: char)
    requires p != [] && Without(p, c)
    ensures var s := Join(p, c); s[AfterLast(s, c)..] == p[|p| - 1]
  {
    if |p| == 1 {
      AfterLastIs(p[0], c, 0);
      assert p[0][0..] == p[0];
    } else {
      LastOfJoin(p, c);
    }
  }

  // ---------- the pushed path ----------

  /** The path of a pushed segment, `/seg_S_rate_R_face_F`; the rate is the text of the request. */
  function PushPath(seg: int, rate: string, face: int): string
  {
    Join(PushParts(seg, rate, face), '_')
  }

  function PushParts(seg: int, rate: string, face: int): (p: seq<string>)
    ensures |p| == 6
  {
    ["/seg", Print(seg), "rate", rate, "face", Print(face)]
  }

  function SegFromUri(uri: string): Option<int>
  {
    var l := AfterFirst(uri, '_');
    Stoi(uri[l..Find(uri, '_', l)])
  }

  function FaceFromUri(uri: string): Option<int>
  {
    Stoi(uri[AfterLast(uri, '_')..])
  }

  /** Drops everything up to the first underscore, n times. */
  function Drop(uri: string, n: nat): string
  {
    if n == 0 then uri
    else
      var sub := Drop(uri, n - 1);
      sub[AfterFirst(sub, '_')..]
  }

  /** The number between the third and the fourth underscore. */
  function RateOf(uri: string): Option<int>
  {
    var sub := Drop(uri, 3);
    Stoi(sub[..Find(sub, '_', 0)])
  }

  lemma {:induction false} DropPlain(uri: string, k: nat, n: nat)
    requires k <= n && '_' !in Drop(uri, k)
    ensures Drop(uri, n) == Drop(uri, k)
  {
    if k < n {
      DropPlain(uri, k, n - 1);
      NoneAfter(Drop(uri, n - 1), '_');
    }
  }

  lemma NoneAfter(s: string, c: char)
    requires c !in s
    ensures s[AfterFirst(s, c)..] == s
  {
    FindNone(s, c);
    assert s[0..] == s;
  }

  /** Up to the first separator stands the first part. */
  lemma FirstOfJoin(parts: seq<string>, c: char)
    requires parts != [] && c !in parts[0]
    ensures var s := Join(parts, c); s[..Find(s, c, 0)] == parts[0]
  {
    if |parts| == 1 {
      FindNone(parts[0], c);
      assert parts[0][..|parts[0]|] == parts[0];
    } else {
      FirstPart(parts[0], c, Join(parts[1..], c));
      FindNone(parts[0], c);
      assert parts[0][..|parts[0]|] == parts[0];
    }
  }

  lemma CutFrom(s: string, c: char, l: nat)
    requires l <= |s|
    ensures s[l..Find(s, c, l)] == s[l..][..Find(s[l..], c, 0)]
  {
    FindFrom(s, c, l, l);
  }

  lemma SegPiece(p: seq<string>)
    requires p != [] && Without(p, '_')
    ensures SegFromUri(Join(p, '_')) == Stoi(p[if |p| > 1 then 1 else 0])
  {
    var s, c := Join(p, '_'), '_';
    if |p| == 1 {
      FindNone(s, c);
      assert s[0..|s|] == s;
    } else {
      AfterIn(p[0], c, Join(p[1..], c));
      CutFrom(s, c, AfterFirst(s, c));
      FirstOfJoin(p[1..], c);
    }
  }

  lemma RatePiece(p: seq<string>, n: nat)
    requires p != [] && Without(p, '_') && n == 3
    ensures RateOf(Join(p, '_')) == Stoi(p[if |p| > n then n else |p| - 1])
  {
    var k := if |p| > n then n else |p| - 1;
    DropJoin(p, k);
    FirstOfJoin(p[k..], '_');
    if k < n {
      assert p[k..] == [p[k]];
      DropPlain(Join(p, '_'), k, n);
    }
  }

  /** What the client reads from any text at all, since every text is the joining of its pieces: with the pieces
      between underscores numbered from 0, the segment is the number in piece 1, the rate that in piece 3, and the
      face that in the last one; where there are fewer pieces, the last one stands in. */
  lemma UriPieces(p: seq<string>)
    requires p != [] && Without(p, '_')
    ensures SegFromUri(Join(p, '_')) == Stoi(p[if |p| > 1 then 1 else 0])
    ensures RateOf(Join(p, '_')) == Stoi(p[if |p| > 3 then 3 else |p| - 1])
    ensures FaceFromUri(Join(p, '_')) == Stoi(p[|p| - 1])
  {
    SegPiece(p);
    RatePiece(p, 3);
    LastOfPieces(p, '_');
  }

  method RateFromUri(uri: string) returns (rate: Option<int>)
    ensures rate == RateOf(uri)
  {
    var sub := uri;
    for i := 0 to 3
      invariant sub == Drop(uri, i)
    {
      var l := AfterFirst(sub, '_');
      sub := sub[l..];
    }
    var r := Find(sub, '_', 0);
    rate := Stoi(sub[..r]);
  }

  lemma PlainNumber(n: int, c: char)
    requires !Digit(c) && c != '-'
    ensures c !in Print(n) && Stoi(Print(n)) == Fits(n)
  {
    ReadPrinted(n, "");
    assert Print(n) + "" == Print(n);
  }

  /** Between the first two underscores of joined parts stands the second part. */
  lemma SecondOfJoin(parts: seq<string>, c: char)
    requires |parts| >= 3 && c !in parts[0] && c !in parts[1]
    ensures var s := Join(parts, c);
            var l := AfterFirst(s, c);
            s[l..Find(s, c, l)] == parts[1]
  {
    var s, rest, tail := Join(parts, c), Join(parts[1..], c), Join(parts[2..], c);
    assert parts[1..][1..] == parts[2..];
    assert rest == parts[1] + [c] + tail;
    AfterIn(parts[0], c, rest);
    var head := parts[0] + [c] + parts[1];
    assert s == head + [c] + tail;
    assert forall i :: |parts[0]| + 1 <= i < |head| ==> head[i] == parts[1][i - |parts[0]| - 1];
    FindIn(head, c, tail, |parts[0]| + 1);
  }

  lemma {:induction false} DropJoin(parts: seq<string>, n: nat)
    requires n < |parts| && forall i :: 0 <= i < n ==> '_' !in parts[i]
    ensures Drop(Join(parts, '_'), n) == Join(parts[n..], '_')
  {
    if n == 0 {
      assert parts[0..] == parts;
    } else {
      DropJoin(parts, n - 1);
      assert parts[n - 1..][1..] == parts[n..];
      AfterIn(parts[n - 1], '_', Join(parts[n..], '_'));
    }
  }

  /** The text of a pushed path. */
  lemma PushedText(seg: int, rate: string, face: int)
    ensures PushPath(seg, rate, face) == "/seg_" + Print(seg) + "_rate_" + rate + "_face_" + Print(face)
  {
    var first, second, third := "/seg_", "_rate_", "_face_";
    JoinSix("/seg", Print(seg), "rate", rate, "face", Print(face), '_');
    Spelled();
    Regrouped("/seg", Print(seg), "rate", rate, "face", Print(face), first, second, third, '_');
  }

  lemma Spelled()
    ensures "/seg_" == "/seg" + ['_'] && "_rate_" == ['_'] + "rate" + ['_'] && "_face_" == ['_'] + "face" + ['_']
  {
  }

  lemma JoinSix(a: string, x: string, b: string, y: string, d: string, z: string, c: char)
    ensures Join([a, x, b, y, d, z], c) == a + [c] + (x + [c] + (b + [c] + (y + [c] + (d + [c] + z))))
  {
    JoinMore(a, [x, b, y, d, z], c);
    JoinMore(x, [b, y, d, z], c);
    JoinMore(b, [y, d, z], c);
    JoinMore(y, [d, z], c);
    JoinMore(d, [z], c);
    assert [a] + [x, b, y, d, z] == [a, x, b, y, d, z] && [x] + [b, y, d, z] == [x, b, y, d, z];
    assert [b] + [y, d, z] == [b, y, d, z] && [y] + [d, z] == [y, d, z] && [d] + [z] == [d, z];
  }

  lemma JoinMore(a: string, parts: seq<string>, c: char)
    requires parts != []
    ensures Join([a] + parts, c) == a + [c] + Join(parts, c)
  {
    assert ([a] + parts)[1..] == parts;
  }

  lemma Regrouped(a: string, x: string, b: string, y: string, d: string, z: string, a1: string, b1: string, d1: string,
                  c: char)
    requires a1 == a + [c] && b1 == [c] + b + [c] && d1 == [c] + d + [c]
    ensures a + [c] + (x + [c] + (b + [c] + (y + [c] + (d + [c] + z)))) == a1 + x + b1 + y + d1 + z
  {
    assert x + [c] + (b + [c] + (y + [c] + (d + [c] + z))) == x + b1 + (y + [c] + (d + [c] + z));
    assert y + [c] + (d + [c] + z) == y + d1 + z;
  }

  /** The segment and the face of a pushed path come back, for every rate text. */
  lemma PushedSegFace(seg: int, rate: string, face: int)
    ensures SegFromUri(PushPath(seg, rate, face)) == Fits(seg)
    ensures FaceFromUri(PushPath(seg, rate, face)) == Fits(face)
  {
    var parts := PushParts(seg, rate, face);
    PlainNumber(seg, '_');
    PlainNumber(face, '_');
    SecondOfJoin(parts, '_');
    LastOfJoin(parts, '_');
  }

  /** The rate read from a pushed path is that of the rate text up to its first underscore, if it has one. */
  lemma PushedRate(seg: int, rate: string, face: int)
    ensures RateOf(PushPath(seg, rate, face)) == Stoi(rate[..Find(rate, '_', 0)])
  {
    var parts := PushParts(seg, rate, face);
    PlainNumber(seg, '_');
    DropJoin(parts, 3);
    FirstPart(rate, '_', Join(parts[3..][1..], '_'));
  }

  lemma FirstPart(a: string, c: char, b: string)
    ensures var s := a + [c] + b; s[..Find(s, c, 0)] == a[..Find(a, c, 0)]
  {
    var i := Find(a, c, 0);
    if i == |a| {
      FindIn(a, c, b, 0);
      assert (a + [c] + b)[..i] == a[..i];
    } else {
      var head, rest := a[..i], a[i + 1..];
      Inserted(a, i, c, b);
      FindIn(head, c, rest + [c] + b, 0);
      assert (a + [c] + b)[..i] == head;
    }
  }

  lemma Inserted(a: string, i: nat, c: char, b: string)
    requires i < |a| && a[i] == c
    ensures a + [c] + b == a[..i] + [c] + (a[i + 1..] + [c] + b)
  {
    assert a == a[..i] + [c] + a[i + 1..];
  }

  lemma PlainRate(text: string, seg: int, face: int)
    requires '_' !in text
    ensures RateOf(PushPath(seg, text, face)) == Stoi(text)
  {
    FindNone(text, '_');
    assert text[..|text|] == text;
    PushedRate(seg, text, face);
  }

  /** Round trip of the pushed path: segment, rate and face come back exactly when they fit. */
  lemma PushRoundTrip(seg: int, rate: int, face: int)
    ensures var path := PushPath(seg, Print(rate), face);
            SegFromUri(path) == Fits(seg) && RateOf(path) == Fits(rate) && FaceFromUri(path) == Fits(face)
  {
    var text := Print(rate);
    PlainNumber(rate, '_');
    PushedSegFace(seg, text, face);
    PlainRate(text, seg, face);
  }

  // ---------- the request path ----------

  /** What a handler makes of a path: a complaint when it has not four parts; undefined behaviour or an
      exception when a part lacks its separator or its number; else the fields. */
  datatype Fields<T> = Incorrect | Failing | Fields(face: int, rate: T, num: int)

  /** The request path the client writes, `/faceF/bitrate=R/num=K`; in this client K is 1. */
  function RequestPath(face: int, rate: int, num: int): string
  {
    Join(RequestParts(face, rate, num), '/')
  }

  function RequestParts(face: int, rate: int, num: int): seq<string>
  {
    ["", "face" + Print(face), "bitrate=" + Print(rate), "num=" + Print(num)]
  }

  /** The second piece of a text, as a number. */
  function Second(s: string, c: char): Option<int>
  {
    var p := Split(s, c);
    if |p| < 2 then None else Stoi(p[1])
  }

  function FieldsOf(path: string): Fields<int>
  {
    var p := Split(path, '/');
    if |p| != 4 then Incorrect
    else
      var f, b, n := Second(p[1], 'e'), Second(p[2], '='), Second(p[3], '=');
      if f.Some? && b.Some? && n.Some? then Fields(f.value, b.value, n.value) else Failing
  }

  /** The handlers of server_6f_2x2_v2.cpp: the second vector is refilled by each split. */
  method ParseRequest(path: string) returns (r: Fields<int>)
    ensures r == FieldsOf(path)
  {
    var strs := Split(path, '/');
    if |strs| != 4 {
      return Incorrect;
    }
    var temp := Split(strs[1], 'e');
    if |temp| < 2 || Stoi(temp[1]).None? {
      return Failing;
    }
    var face := Stoi(temp[1]).value;
    temp := Split(strs[2], '=');
    if |temp| < 2 || Stoi(temp[1]).None? {
      return Failing;
    }
    var bitrate := Stoi(temp[1]).value;
    temp := Split(strs[3], '=');
    if |temp| < 2 || Stoi(temp[1]).None? {
      return Failing;
    }
    var num := Stoi(temp[1]).value;
    r := Fields(face, bitrate, num);
  }

  lemma SecondIs(name: string, c: char, n: int)
    requires c !in name && !Digit(c) && c != '-'
    ensures Second(name + [c] + Print(n), c) == Fits(n)
    ensures Split(name + [c] + Print(n), c) == [name, Print(n)]
  {
    PlainNumber(n, c);
    var parts := [name, Print(n)];
    assert parts[1..] == [Print(n)];
    SplitJoin(parts, c);
  }

  lemma SplitRequest(face: int, rate: int, num: int)
    ensures Split(RequestPath(face, rate, num), '/') == RequestParts(face, rate, num)
  {
    NoSlash("face", face);
    NoSlash("bitrate=", rate);
    NoSlash("num=", num);
    SplitJoin(RequestParts(face, rate, num), '/');
  }

  lemma NoSlash(name: string, n: int)
    requires '/' !in name
    ensures '/' !in name + Print(n)
  {
    PlainNumber(n, '/');
  }

  /** What the handlers read from the parts of a request path. */
  lemma FaceNumber(face: int)
    ensures Second("face" + Print(face), 'e') == Fits(face)
  {
    var name := "fac";
    assert "face" == name + ['e'];
    SecondIs(name, 'e', face);
  }

  lemma RateNumber(rate: int)
    ensures Split("bitrate=" + Print(rate), '=') == ["bitrate", Print(rate)]
    ensures Second("bitrate=" + Print(rate), '=') == Fits(rate)
  {
    var name := "bitrate";
    assert "bitrate=" == name + ['='];
    SecondIs(name, '=', rate);
  }

  lemma CountNumber(num: int)
    ensures Second("num=" + Print(num), '=') == Fits(num)
  {
    var name := "num";
    assert "num=" == name + ['='];
    SecondIs(name, '=', num);
  }

  /** Round trip of the request path: the fields come back exactly when all three numbers fit. */
  lemma RequestRoundTrip(face: int, rate: int, num: int)
    ensures FieldsOf(RequestPath(face, rate, num))
         == if Fits(face).Some? && Fits(rate).Some? && Fits(num).Some? then Fields(face, rate, num) else Failing
  {
    SplitRequest(face, rate, num);
    FaceNumber(face);
    RateNumber(rate);
    CountNumber(num);
  }

  /** The handler of server.cpp keeps the rate as text and takes the face from its own registration. */
  function AskOf(path: string, face: int): Fields<string>
  {
    var p := Split(path, '/');
    if |p| != 4 then Incorrect
    else
      var b, n := Split(p[2], '='), Second(p[3], '=');
      if |b| < 2 || n.None? then Failing else Fields(face, b[1], n.value)
  }

  /** It reads the client's request path as the rate's text and the push count. */
  lemma AskRoundTrip(face: int, rate: int, num: int)
    ensures AskOf(RequestPath(face, rate, num), face)
         == if Fits(num).Some? then Fields(face, Print(rate), num) else Failing
  {
    SplitRequest(face, rate, num);
    RateNumber(rate);
    CountNumber(num);
  }

  /** A path is incorrect exactly if it has not three slashes. */
  lemma IncorrectExactly(path: string, face: int)
    ensures AskOf(path, face).Incorrect? <==> multiset(path)['/'] != 3
    ensures FieldsOf(path).Incorrect? <==> multiset(path)['/'] != 3
  {
    SplitCount(path, '/');
  }

  /** The text of a request path. */
  lemma RequestText(face: int, rate: int, num: int)
    ensures RequestPath(face, rate, num) == "/face" + Print(face) + "/bitrate=" + Print(rate) + "/num=" + Print(num)
  {
    var f, b, n := "face", "bitrate=", "num=";
    var fs, bs, ns := "/face", "/bitrate=", "/num=";
    JoinFour("", f + Print(face), b + Print(rate), n + Print(num), '/');
    Chain(f, Print(face), b, Print(rate), n, Print(num), fs, bs, ns, '/');
  }

  lemma Chain(a: string, x: string, b: string, y: string, d: string, z: string, a1: string, b1: string, d1: string,
              c: char)
    requires a1 == [c] + a && b1 == [c] + b && d1 == [c] + d
    ensures "" + [c] + (a + x) + [c] + (b + y) + [c] + (d + z) == a1 + x + b1 + y + d1 + z
  {
    Glue("", c, a, x, a1);
    Glue(a1 + x, c, b, y, b1);
    Glue(a1 + x + b1 + y, c, d, z, d1);
  }

  lemma Glue(front: string, c: char, a: string, x: string, a1: string)
    requires a1 == [c] + a
    ensures front + [c] + (a + x) == front + a1 + x
  {
  }

  lemma JoinFour(w: string, x: string, y: string, z: string, c: char)
    ensures Join([w, x, y, z], c) == w + [c] + x + [c] + y + [c] + z
  {
    var parts := [w, x, y, z];
    assert parts[1..] == [x, y, z] && parts[1..][1..] == [y, z] && [y, z][1..] == [z];
    assert Join([y, z], c) == y + [c] + z;
  }

  /** What the push server takes from any four parts: the text between the first two equals signs of the third part,
      and the number between those of the fourth; a part without an equals sign, or number, fails. */
  lemma AskParts(p: seq<string>, face: int)
    requires |p| == 4 && Without(p, '/')
    ensures var b, n := Split(p[2], '='), Split(p[3], '=');
            AskOf(Join(p, '/'), face)
            == if '=' in p[2] && '=' in p[3] && Stoi(n[1]).Some? then Fields(face, b[1], Stoi(n[1]).value) else Failing
  {
    SplitJoin(p, '/');
    SplitCount(p[2], '=');
    SplitCount(p[3], '=');
    assert '=' in p[2] <==> '=' in multiset(p[2]);
    assert '=' in p[3] <==> '=' in multiset(p[3]);
  }
}
