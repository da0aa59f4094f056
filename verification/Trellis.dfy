/** The path trellis of client/src/backup/K_push.cpp: enumeration, filter, cost and choice. */
module Trellis {
  import Products

  datatype Selection = Selection(bitrate: int, numOfSegment: int)

  type Path = seq<Selection>

  const SENTINEL: real := 100000000.0
  const SEGMENT_MS: int := 1000
  const ALPHA: real := 10.0
  const BETA: real := 13.5
  const GAMMA: real := 0.08

  // ---------- enumeration ----------

  /** `path` followed by each point of `points`, last point first. */
  function Extensions(path: Path, points: seq<Selection>): seq<Path>
  {
    if points == [] then []
    else [path + [points[|points| - 1]]] + Extensions(path, points[..|points| - 1])
  }

  /** All extensions of all paths, last path first: every new path goes to the front. */
  function ExtendAll(paths: seq<Path>, points: seq<Selection>): seq<Path>
  {
    if paths == [] then []
    else Extensions(paths[|paths| - 1], points) + ExtendAll(paths[..|paths| - 1], points)
  }

  function Singletons(points: seq<Selection>): seq<Path>
  {
    if points == [] then [] else Singletons(points[..|points| - 1]) + [[points[|points| - 1]]]
  }

  function Trellis(points: seq<Selection>, n: nat): seq<Path>
    requires n >= 1
    decreases n
  {
    if n == 1 then Singletons(points) else ExtendAll(Trellis(points, n - 1), points)
  }

  /** The inner loop: each extension of the path goes to the front. */
  method InsertExtensions(before: seq<Path>, path: Path, points: seq<Selection>) returns (trellis: seq<Path>)
    ensures trellis == Extensions(path, points) + before
  {
    trellis := before;
    for j := 0 to |points|
      invariant trellis == Extensions(path, points[..j]) + before
    {
      assert points[..j + 1][..j] == points[..j];
      trellis := [path + [points[j]]] + trellis;
    }
    assert points[..|points|] == points;
  }

  lemma SingletonsNext(points: seq<Selection>, i: nat)
    requires i < |points|
    ensures Singletons(points[..i + 1]) == Singletons(points[..i]) + [[points[i]]]
  {
    assert points[..i + 1][..i] == points[..i];
  }

  lemma ExtendNext(paths: seq<Path>, i: nat, points: seq<Selection>)
    requires i < |paths|
    ensures ExtendAll(paths[..i + 1], points) == Extensions(paths[i], points) + ExtendAll(paths[..i], points)
  {
    assert paths[..i + 1][..i] == paths[..i];
  }

  method BuildTrellis(points: seq<Selection>, n: nat) returns (trellis: seq<Path>)
    requires n >= 1
    ensures trellis == Trellis(points, n)
    decreases n
  {
    trellis := [];
    if n == 1 {
      for i := 0 to |points|
        invariant trellis == Singletons(points[..i])
      {
        SingletonsNext(points, i);
        trellis := trellis + [[points[i]]];
      }
      assert points[..|points|] == points;
    } else {
      var sub := BuildTrellis(points, n - 1);
      for i := 0 to |sub|
        invariant trellis == ExtendAll(sub[..i], points)
      {
        ExtendNext(sub, i, points);
        trellis := InsertExtensions(trellis, sub[i], points);
      }
      assert sub[..|sub|] == sub;
    }
  }

  predicate NoDuplicates<T(==)>(s: seq<T>)
  {
    forall i, j :: 0 <= i < j < |s| ==> s[i] != s[j]
  }

  predicate DrawnFrom(path: Path, points: seq<Selection>)
  {
    forall i :: 0 <= i < |path| ==> path[i] in points
  }

  function Power(c: nat, n: nat): nat
  {
    if n == 0 then 1 else Power(c, n - 1) * c
  }

  lemma {:induction false} ExtensionsExact(path: Path, points: seq<Selection>, q: Path)
    ensures |Extensions(path, points)| == |points|
    ensures q in Extensions(path, points) <==> |q| == |path| + 1 && q[..|path|] == path && q[|path|] in points
    ensures NoDuplicates(points) ==> NoDuplicates(Extensions(path, points))
    decreases |points|
  {
    if points != [] {
      var n := |points| - 1;
      var first, rest := path + [points[n]], Extensions(path, points[..n]);
      ExtensionsExact(path, points[..n], q);
      ExtensionsExact(path, points[..n], first);
      assert q == first <==> |q| == |path| + 1 && q[..|path|] == path && q[|path|] == points[n];
      assert points == points[..n] + [points[n]];
      if NoDuplicates(points) {
        assert first[|path|] == points[n] && points[n] !in points[..n];
        ConcatNoDuplicates([first], rest);
      }
    }
  }

  lemma ConcatNoDuplicates<T>(a: seq<T>, b: seq<T>)
    requires NoDuplicates(a) && NoDuplicates(b) && forall x :: x in a ==> x !in b
    ensures NoDuplicates(a + b)
  {
    forall i, j | 0 <= i < j < |a + b|
      ensures (a + b)[i] != (a + b)[j]
    {
      if i < |a| <= j {
        assert a[i] in a && b[j - |a|] in b;
      }
    }
  }

  lemma OneMore(n: nat, m: nat)
    ensures (n + 1) * m == n * m + m
  {
  }

  lemma {:induction false} ExtendAllSize(paths: seq<Path>, points: seq<Selection>)
    ensures |ExtendAll(paths, points)| == |paths| * |points|
    decreases |paths|
  {
    if paths != [] {
      ExtendAllSize(paths[..|paths| - 1], points);
      ExtensionsExact(paths[|paths| - 1], points, []);
      OneMore(|paths| - 1, |points|);
    }
  }

  predicate AllLong(paths: seq<Path>, k: nat)
  {
    forall i :: 0 <= i < |paths| ==> |paths[i]| == k
  }

  lemma {:induction false} ExtendAllMembers(paths: seq<Path>, points: seq<Selection>, k: nat, q: Path)
    requires AllLong(paths, k)
    ensures q in ExtendAll(paths, points) <==> |q| == k + 1 && q[..k] in paths && q[k] in points
    decreases |paths|
  {
    if paths != [] {
      var n := |paths| - 1;
      assert paths == paths[..n] + [paths[n]];
      ExtendAllMembers(paths[..n], points, k, q);
      ExtensionsExact(paths[n], points, q);
    }
  }

  lemma {:induction false} ExtendAllOnce(paths: seq<Path>, points: seq<Selection>, k: nat)
    requires AllLong(paths, k) && NoDuplicates(paths) && NoDuplicates(points)
    ensures NoDuplicates(ExtendAll(paths, points))
    decreases |paths|
  {
    if paths != [] {
      var n := |paths| - 1;
      var front, last := paths[..n], paths[n];
      ExtendAllOnce(front, points, k);
      ExtensionsExact(last, points, []);
      forall x | x in Extensions(last, points)
        ensures x !in ExtendAll(front, points)
      {
        ExtensionsExact(last, points, x);
        ExtendAllMembers(front, points, k, x);
      }
      ConcatNoDuplicates(Extensions(last, points), ExtendAll(front, points));
    }
  }

  lemma {:induction false} SingletonsExact(points: seq<Selection>, q: Path)
    ensures |Singletons(points)| == |points|
    ensures forall i :: 0 <= i < |points| ==> Singletons(points)[i] == [points[i]]
    ensures q in Singletons(points) <==> |q| == 1 && q[0] in points
    decreases |points|
  {
    if points != [] {
      var n := |points| - 1;
      SingletonsExact(points[..n], q);
      assert points == points[..n] + [points[n]];
      assert q == [points[n]] <==> |q| == 1 && q[0] == points[n];
    }
  }

  lemma {:induction false} TrellisSize(points: seq<Selection>, n: nat)
    requires n >= 1
    ensures |Trellis(points, n)| == Power(|points|, n)
    decreases n
  {
    if n == 1 {
      SingletonsExact(points, []);
      assert Power(|points|, 1) == Power(|points|, 0) * |points|;
    } else {
      TrellisSize(points, n - 1);
      ExtendAllSize(Trellis(points, n - 1), points);
    }
  }

  lemma {:induction false} TrellisLong(points: seq<Selection>, n: nat)
    requires n >= 1
    ensures AllLong(Trellis(points, n), n)
    decreases n
  {
    if n == 1 {
      SingletonsExact(points, []);
    } else {
      TrellisLong(points, n - 1);
      var t := Trellis(points, n);
      forall i | 0 <= i < |t|
        ensures |t[i]| == n
      {
        ExtendAllMembers(Trellis(points, n - 1), points, n - 1, t[i]);
        assert t[i] in t;
      }
    }
  }

  lemma DrawnSnoc(path: Path, n: nat, points: seq<Selection>)
    requires |path| == n + 1
    ensures DrawnFrom(path, points) <==> DrawnFrom(path[..n], points) && path[n] in points
  {
    assert forall i :: 0 <= i < n ==> path[..n][i] == path[i];
  }

  lemma TrellisStep(points: seq<Selection>, k: nat, q: Path)
    requires k >= 1 && |q| == k + 1
    ensures q in Trellis(points, k + 1) <==> q[..k] in Trellis(points, k) && q[k] in points
  {
    TrellisLong(points, k);
    ExtendAllMembers(Trellis(points, k), points, k, q);
  }

  lemma TrellisFirst(points: seq<Selection>, q: Path)
    requires |q| == 1
    ensures q in Singletons(points) <==> DrawnFrom(q, points)
  {
    SingletonsExact(points, q);
    DrawnSnoc(q, 0, points);
  }

  lemma MembersStep(points: seq<Selection>, k: nat, q: Path)
    requires k >= 1 && |q| == k + 1 && (q[..k] in Trellis(points, k) <==> DrawnFrom(q[..k], points))
    ensures q in Trellis(points, k + 1) <==> DrawnFrom(q, points)
  {
    TrellisStep(points, k, q);
    DrawnSnoc(q, k, points);
  }

  lemma {:induction false} TrellisMembers(points: seq<Selection>, n: nat, q: Path)
    requires |q| == n >= 1
    ensures q in Trellis(points, n) <==> DrawnFrom(q, points)
    decreases n
  {
    if n == 1 {
      TrellisFirst(points, q);
    } else {
      TrellisMembers(points, n - 1, q[..n - 1]);
      MembersStep(points, n - 1, q);
    }
  }

  lemma {:induction false} TrellisOnce(points: seq<Selection>, n: nat)
    requires n >= 1 && NoDuplicates(points)
    ensures NoDuplicates(Trellis(points, n))
    decreases n
  {
    if n == 1 {
      SingletonsExact(points, []);
    } else {
      TrellisOnce(points, n - 1);
      TrellisLong(points, n - 1);
      ExtendAllOnce(Trellis(points, n - 1), points, n - 1);
    }
  }

  /** The trellis holds exactly the sequences of n set points, |points|^n of them, and each once when the
      set points are distinct. */
  lemma TrellisExact(points: seq<Selection>, n: nat)
    requires n >= 1
    ensures |Trellis(points, n)| == Power(|points|, n)
    ensures forall q :: q in Trellis(points, n) <==> |q| == n && DrawnFrom(q, points)
    ensures NoDuplicates(points) ==> NoDuplicates(Trellis(points, n))
  {
    TrellisSize(points, n);
    forall q
      ensures q in Trellis(points, n) <==> |q| == n && DrawnFrom(q, points)
    {
      TrellisLong(points, n);
      if |q| == n {
        TrellisMembers(points, n, q);
      }
    }
    if NoDuplicates(points) {
      TrellisOnce(points, n);
    }
  }

  // ---------- the order of the trellis ----------

  /** The paths with every set point after each, in the order of the two loops. */
  function Enumerated(paths: seq<Path>, points: seq<Selection>): seq<Path>
  {
    if paths == [] then []
    else Enumerated(paths[..|paths| - 1], points) + Continued(paths[|paths| - 1], points)
  }

  function Continued(path: Path, points: seq<Selection>): seq<Path>
  {
    if points == [] then []
    else Continued(path, points[..|points| - 1]) + [path + [points[|points| - 1]]]
  }

  function Reversed(s: seq<Path>): (r: seq<Path>)
    ensures |r| == |s| && forall i :: 0 <= i < |s| ==> r[i] == s[|s| - 1 - i]
  {
    if s == [] then [] else [s[|s| - 1]] + Reversed(s[..|s| - 1])
  }

  lemma ReversedConcat(a: seq<Path>, b: seq<Path>)
    ensures Reversed(a + b) == Reversed(b) + Reversed(a)
  {
  }

  lemma {:induction false} ExtensionsReversed(path: Path, points: seq<Selection>)
    ensures Extensions(path, points) == Reversed(Continued(path, points))
    decreases |points|
  {
    if points != [] {
      var n := |points| - 1;
      ExtensionsReversed(path, points[..n]);
      ReversedConcat(Continued(path, points[..n]), [path + [points[n]]]);
    }
  }

  lemma {:induction false} ExtendAllReversed(paths: seq<Path>, points: seq<Selection>)
    ensures ExtendAll(paths, points) == Reversed(Enumerated(paths, points))
    decreases |paths|
  {
    if paths != [] {
      var n := |paths| - 1;
      ExtendAllReversed(paths[..n], points);
      ExtensionsReversed(paths[n], points);
      ReversedConcat(Enumerated(paths[..n], points), Continued(paths[n], points));
    }
  }

  /** The order of the trellis: since every path is put in front, each round turns the order of the two loops round. */
  lemma TrellisOrder(points: seq<Selection>, n: nat)
    requires n >= 2
    ensures Trellis(points, n) == Reversed(Enumerated(Trellis(points, n - 1), points))
  {
    ExtendAllReversed(Trellis(points, n - 1), points);
  }

  lemma {:induction false} ContinuedEnds(path: Path, points: seq<Selection>)
    requires points != []
    ensures var r := Continued(path, points);
            r != [] && r[0] == path + [points[0]] && r[|r| - 1] == path + [points[|points| - 1]]
    decreases |points|
  {
    if |points| > 1 {
      ContinuedEnds(path, points[..|points| - 1]);
    } else {
      assert Continued(path, points[..0]) == [];
    }
  }

  lemma {:induction false} EnumeratedEnds(paths: seq<Path>, points: seq<Selection>)
    requires paths != [] && points != []
    ensures var r := Enumerated(paths, points);
            && r != [] && r[0] == paths[0] + [points[0]]
            && r[|r| - 1] == paths[|paths| - 1] + [points[|points| - 1]]
    decreases |paths|
  {
    var n := |paths| - 1;
    ContinuedEnds(paths[n], points);
    if n > 0 {
      EnumeratedEnds(paths[..n], points);
    } else {
      assert Enumerated(paths[..0], points) == [];
    }
  }

  /** The first and the last path come from the last and the first shorter one. */
  lemma Ends(points: seq<Selection>, n: nat)
    requires n >= 2 && points != [] && Trellis(points, n - 1) != []
    ensures var sub, t := Trellis(points, n - 1), Trellis(points, n);
            && t != [] && t[0] == sub[|sub| - 1] + [points[|points| - 1]] && t[|t| - 1] == sub[0] + [points[0]]
  {
    TrellisOrder(points, n);
    EnumeratedEnds(Trellis(points, n - 1), points);
  }

  /** The first path of the trellis, and the last one: only the first and the last set point occur in them, in turns but
      for the first two places. */
  function EndPath(points: seq<Selection>, n: nat, first: bool): (path: Path)
    requires n >= 1 && points != []
    ensures |path| == n
    decreases n
  {
    var low, high := points[0], points[|points| - 1];
    if n == 1 then [if first then low else high]
    else EndPath(points, n - 1, !first) + [if first then high else low]
  }

  /** So the path that the planner may take unchecked is known. */
  lemma {:induction false} EndPaths(points: seq<Selection>, n: nat)
    requires n >= 1 && points != []
    ensures var t := Trellis(points, n);
            t != [] && t[0] == EndPath(points, n, true) && t[|t| - 1] == EndPath(points, n, false)
    decreases n
  {
    if n == 1 {
      SingletonsExact(points, []);
    } else {
      EndPaths(points, n - 1);
      Ends(points, n);
    }
  }

  // ---------- monotone paths ----------

  function Bitrates(path: Path): (r: seq<int>)
    ensures |r| == |path|
  {
    seq(|path|, i requires 0 <= i < |path| => path[i].bitrate)
  }

  predicate Rising(s: seq<int>)
  {
    forall i, j :: 0 <= i < j < |s| ==> s[i] <= s[j]
  }

  predicate Falling(s: seq<int>)
  {
    forall i, j :: 0 <= i < j < |s| ==> s[i] >= s[j]
  }

  /** The current bitrate followed by the path never turns. */
  predicate Monotone(cur: int, path: Path)
  {
    Rising([cur] + Bitrates(path)) || Falling([cur] + Bitrates(path))
  }

  lemma {:induction false} RisingByPairs(s: seq<int>)
    ensures Rising(s) <==> forall i :: 1 <= i < |s| ==> s[i - 1] <= s[i]
    decreases |s|
  {
    if |s| > 1 && forall i :: 1 <= i < |s| ==> s[i - 1] <= s[i] {
      var n := |s| - 1;
      RisingByPairs(s[..n]);
      assert forall i :: 1 <= i < n ==> s[..n][i - 1] <= s[..n][i];
      assert forall i, j :: 0 <= i < j < n ==> s[..n][i] <= s[..n][j];
      assert s[n - 1] == s[..n][n - 1];
    }
  }

  lemma {:induction false} FallingByPairs(s: seq<int>)
    ensures Falling(s) <==> forall i :: 1 <= i < |s| ==> s[i - 1] >= s[i]
    decreases |s|
  {
    if |s| > 1 && forall i :: 1 <= i < |s| ==> s[i - 1] >= s[i] {
      var n := |s| - 1;
      FallingByPairs(s[..n]);
      assert forall i :: 1 <= i < n ==> s[..n][i - 1] >= s[..n][i];
      assert forall i, j :: 0 <= i < j < n ==> s[..n][i] >= s[..n][j];
      assert s[n - 1] == s[..n][n - 1];
    }
  }

  /** Whether the rates rise or fall can be read off neighbours. */
  lemma Directions(cur: int, path: Path) returns (s: seq<int>, rises: bool, falls: bool)
    ensures |s| == |path| + 1 && forall i :: 0 <= i < |s| ==> ([Selection(cur, 1)] + path)[i].bitrate == s[i]
    ensures rises <==> forall i :: 1 <= i < |s| ==> s[i - 1] <= s[i]
    ensures falls <==> forall i :: 1 <= i < |s| ==> s[i - 1] >= s[i]
    ensures Monotone(cur, path) <==> rises || falls
  {
    s := [cur] + Bitrates(path);
    rises, falls := Rising(s), Falling(s);
    RisingByPairs(s);
    FallingByPairs(s);
  }

  method CheckOrder(path: Path, curBitrate: int) returns (ok: bool)
    ensures ok <==> Monotone(curBitrate, path)
  {
    var temp := [Selection(curBitrate, 1)] + path;
    ghost var s, rises, falls := Directions(curBitrate, path);
    var isIncrease := 0;
    var i := 1;
    while i < |temp|
      invariant 1 <= i <= |temp| && isIncrease == 0
      invariant forall j :: 1 <= j < i ==> s[j - 1] == s[j]
    {
      if temp[i - 1].bitrate - temp[i].bitrate < 0 {
        isIncrease := 1;
        break;
      } else if temp[i - 1].bitrate - temp[i].bitrate > 0 {
        isIncrease := -1;
        break;
      }
      i := i + 1;
    }
    if isIncrease == 0 {
      return true;
    }
    assert isIncrease == 1 ==> !falls;
    assert isIncrease == -1 ==> !rises;
    for k := 1 to |temp|
      invariant isIncrease == 1 ==> forall j :: 1 <= j < k ==> s[j - 1] <= s[j]
      invariant isIncrease == -1 ==> forall j :: 1 <= j < k ==> s[j - 1] >= s[j]
    {
      if temp[k - 1].bitrate - temp[k].bitrate < 0 && isIncrease == -1 {
        return false;
      } else if temp[k - 1].bitrate - temp[k].bitrate > 0 && isIncrease == 1 {
        return false;
      }
    }
    return true;
  }

  // ---------- cost ----------

  /** What the cost reads from the globals; `exp` is the exponential function. */
  datatype Env = Env(curBuff: int, curRtt: int, thrpEst: real, buffOpt: int, bMin: int, rates: seq<int>,
                     exp: real -> real)
  {
    predicate Valid()
    {
      thrpEst > 0.0
    }
  }

  predicate Pushes(path: Path)
  {
    path != [] && forall i :: 0 <= i < |path| ==> path[i].numOfSegment >= 1
  }

  /** The first position of the rate, or -1. */
  function RateIndex(rates: seq<int>, rate: int): (k: int)
    ensures -1 <= k < |rates|
    ensures k >= 0 ==> rates[k] == rate && rate !in rates[..k]
    ensures k == -1 ==> rate !in rates
  {
    RateIndexFrom(rates, rate, 0)
  }

  function RateIndexFrom(rates: seq<int>, rate: int, i: nat): (k: int)
    requires i <= |rates| && rate !in rates[..i]
    ensures -1 <= k < |rates|
    ensures k >= 0 ==> rates[k] == rate && rate !in rates[..k]
    ensures k == -1 ==> rate !in rates
    decreases |rates| - i
  {
    if i == |rates| then assert rates[..i] == rates; -1
    else if rates[i] == rate then i
    else assert rates[..i + 1] == rates[..i] + [rates[i]]; RateIndexFrom(rates, rate, i + 1)
  }

  function Portion(path: Path, i: nat): real
    requires i < |path|
  {
    path[i].numOfSegment as real / |path| as real
  }

  function AverageN(path: Path, i: nat): real
    requires i <= |path| && path != []
  {
    if i == 0 then 0.0 else AverageN(path, i - 1) + Portion(path, i - 1)
  }

  /** The buffer that selection i uses up. */
  function Spend(env: Env, path: Path, i: nat): real
    requires i < |path| && env.Valid()
  {
    path[i].numOfSegment as real * (1.0 - path[i].bitrate as real / env.thrpEst)
  }

  /** The buffer, in seconds, that the first i selections use up. */
  function Used(env: Env, path: Path, i: nat): real
    requires i <= |path| && env.Valid()
  {
    if i == 0 then env.curRtt as real / 1000.0
    else Used(env, path, i - 1) + Spend(env, path, i - 1)
  }

  function Abs(x: int): int
  {
    if x < 0 then -x else x
  }

  /** How the version changes with selection i. */
  function Change(env: Env, path: Path, cur: int, i: nat): int
    requires i < |path|
  {
    RateIndex(env.rates, path[i].bitrate) - RateIndex(env.rates, if i == 0 then cur else path[i - 1].bitrate)
  }

  function Jump(env: Env, path: Path, cur: int, i: nat): int
    requires i < |path|
  {
    Abs(Change(env, path, cur, i))
  }

  /** The largest version jump among the first i selections. */
  function MaxJump(env: Env, path: Path, cur: int, i: nat): (m: int)
    requires i <= |path|
    ensures m >= 0
  {
    if i == 0 then 0
    else
      var m, j := MaxJump(env, path, cur, i - 1), Jump(env, path, cur, i - 1);
      if m < j then j else m
  }

  /** No version change, up or down, is larger, and one of them is as large. */
  lemma {:induction false} MaxJumpIsLargest(env: Env, path: Path, cur: int, i: nat)
    requires i <= |path|
    ensures var m := MaxJump(env, path, cur, i);
            && (forall j :: 0 <= j < i ==> -m <= Change(env, path, cur, j) <= m)
            && (m == 0 || exists j :: 0 <= j < i && (Change(env, path, cur, j) == m || Change(env, path, cur, j) == -m))
  {
    if i > 0 {
      MaxJumpIsLargest(env, path, cur, i - 1);
      assert MaxJump(env, path, cur, i) == MaxJump(env, path, cur, i - 1)
             || MaxJump(env, path, cur, i) == Jump(env, path, cur, i - 1);
    }
  }

  /** The cost function's own buffer guard. */
  predicate KeepsBuffer(env: Env, path: Path)
    requires env.Valid()
  {
    env.curBuff as real - Used(env, path, |path|) * 1000.0 >= env.bMin as real
  }

  predicate Reaches(path: Path, tar: int)
  {
    path != [] && path[|path| - 1].bitrate == tar
  }

  function Weigh(env: Env, averageN: real, jump: int, used: real): real
    requires averageN > 0.0
  {
    ALPHA / averageN + BETA * jump as real + GAMMA * env.exp((env.buffOpt - env.curBuff) as real / 1000.0 - used)
  }

  function Cost(env: Env, path: Path, cur: int, tar: int): real
    requires env.Valid() && Pushes(path) && AverageN(path, |path|) > 0.0
  {
    if !Reaches(path, tar) || !KeepsBuffer(env, path) then SENTINEL
    else
      Weigh(env, AverageN(path, |path|), MaxJump(env, path, cur, |path|), Used(env, path, |path|))
  }

  lemma {:induction false} AveragePositive(path: Path, i: nat)
    requires Pushes(path) && i <= |path|
    ensures AverageN(path, i) >= 0.0 && (i > 0 ==> AverageN(path, i) > 0.0)
  {
    if i > 0 {
      AveragePositive(path, i - 1);
      Ratio(path[i - 1].numOfSegment as real, |path| as real);
    }
  }

  lemma Ratio(a: real, b: real)
    requires a > 0.0 && b > 0.0
    ensures a / b > 0.0
  {
  }

  function CostOf(env: Env, path: Path, cur: int, tar: int): real
    requires env.Valid() && Pushes(path)
  {
    AveragePositive(path, |path|);
    Cost(env, path, cur, tar)
  }

  // ---------- cost in terms of the whole path ----------

  /** The segments pushed along a path. */
  function Segments(path: Path): int
  {
    if path == [] then 0 else Segments(path[..|path| - 1]) + path[|path| - 1].numOfSegment
  }

  /** The same, each weighted with its bitrate. */
  function Volume(path: Path): int
  {
    if path == [] then 0
    else Volume(path[..|path| - 1]) + path[|path| - 1].numOfSegment * path[|path| - 1].bitrate
  }

  lemma {:induction false} AverageInTotals(path: Path, i: nat)
    requires i <= |path| && path != []
    ensures AverageN(path, i) == Segments(path[..i]) as real / |path| as real
  {
    if i > 0 {
      AverageInTotals(path, i - 1);
      assert path[..i][..i - 1] == path[..i - 1];
      Products.Shares(Segments(path[..i - 1]) as real, path[i - 1].numOfSegment as real, |path| as real);
    }
  }

  lemma {:induction false} UsedInTotals(env: Env, path: Path, i: nat)
    requires i <= |path| && env.Valid()
    ensures Used(env, path, i) == env.curRtt as real / 1000.0 + Segments(path[..i]) as real
                                  - Volume(path[..i]) as real / env.thrpEst
  {
    if i > 0 {
      UsedInTotals(env, path, i - 1);
      assert path[..i][..i - 1] == path[..i - 1];
      var x := path[i - 1];
      Products.Share(x.numOfSegment as real, x.bitrate as real, env.thrpEst);
      Products.Shares(Volume(path[..i - 1]) as real, (x.numOfSegment * x.bitrate) as real, env.thrpEst);
    }
  }

  /** The cost of a path by what it pushes in all: a path that misses the target, or leaves less than the minimum in the
      buffer, costs the sentinel; else many requests, a large jump and a buffer far from its optimum cost. */
  function TotalCost(path: Path, tar: int, jump: int, thrp: real, curBuff: int, curRtt: int, buffOpt: int, bMin: int,
                     exp: real -> real): real
    requires path != [] && Segments(path) > 0 && thrp > 0.0
  {
    var used := curRtt as real / 1000.0 + Segments(path) as real - Volume(path) as real / thrp;
    if path[|path| - 1].bitrate != tar || curBuff as real - 1000.0 * used < bMin as real then 100000000.0
    else 10.0 * |path| as real / Segments(path) as real + 13.5 * jump as real
         + 0.08 * exp((buffOpt - curBuff) as real / 1000.0 - used)
  }

  /** The cost function computes it. */
  lemma CostInTotals(env: Env, path: Path, cur: int, tar: int)
    requires env.Valid() && Pushes(path)
    ensures Segments(path) > 0
    ensures CostOf(env, path, cur, tar)
            == TotalCost(path, tar, MaxJump(env, path, cur, |path|), env.thrpEst, env.curBuff, env.curRtt, env.buffOpt,
                         env.bMin, env.exp)
  {
    assert path[..|path|] == path;
    AverageInTotals(path, |path|);
    UsedInTotals(env, path, |path|);
    AveragePositive(path, |path|);
    SomeSegments(path);
    Inverse(Segments(path) as real, |path| as real);
  }

  lemma {:induction false} SomeSegments(path: Path)
    requires Pushes(path)
    ensures Segments(path) > 0
  {
    if |path| > 1 {
      SomeSegments(path[..|path| - 1]);
    } else {
      assert path[..0] == [];
    }
  }

  lemma Inverse(s: real, n: real)
    requires s > 0.0 && n > 0.0
    ensures s / n > 0.0 && ALPHA / (s / n) == 10.0 * n / s
  {
    var q := s / n;
    Ratio(s, n);
    var r := 10.0 / q;
    Regrouped(r, q, n, s);
    Products.Divide(10.0 * n, r, s);
  }

  lemma Regrouped(r: real, q: real, n: real, s: real)
    requires r * q == 10.0 && s == q * n
    ensures 10.0 * n == r * s
  {
    assert r * (q * n) == (r * q) * n;
  }

  method GetOverallCost(env: Env, path: Path, curBitrate: int, tarBitrate: int) returns (cost: real)
    requires env.Valid() && Pushes(path)
    ensures cost == CostOf(env, path, curBitrate, tarBitrate)
  {
    AveragePositive(path, |path|);
    if path[|path| - 1].bitrate != tarBitrate {
      return SENTINEL;
    }
    var averageN := 0.0;
    var used := env.curRtt as real / 1000.0;
    var maxChange := 0;
    for i := 0 to |path|
      invariant averageN == AverageN(path, i)
      invariant used == Used(env, path, i)
      invariant maxChange == MaxJump(env, path, curBitrate, i)
    {
      var portion := path[i].numOfSegment as real / |path| as real;
      var spend := path[i].numOfSegment as real * (1.0 - path[i].bitrate as real / env.thrpEst);
      assert portion == Portion(path, i) && spend == Spend(env, path, i);
      averageN, used := averageN + portion, used + spend;
      var curVersion := RateIndex(env.rates, if i == 0 then curBitrate else path[i - 1].bitrate);
      var nextVersion := RateIndex(env.rates, path[i].bitrate);
      var jump := Abs(nextVersion - curVersion);
      assert jump == Jump(env, path, curBitrate, i);
      if maxChange < jump {
        maxChange := jump;
      }
    }
    if env.curBuff as real - used * 1000.0 < env.bMin as real {
      return SENTINEL;
    }
    var delta := (env.buffOpt - env.curBuff) as real / 1000.0 - used;
    cost := ALPHA / averageN + BETA * maxChange as real + GAMMA * env.exp(delta);
    assert cost == Weigh(env, averageN, maxChange, used);
  }

  // ---------- choice ----------

  /** The paths the planner may take: the first one unchecked, the others only when monotone. */
  predicate Candidate(trellis: seq<Path>, cur: int, i: nat)
    requires i < |trellis|
  {
    i == 0 || Monotone(cur, trellis[i])
  }

  predicate Usable(trellis: seq<Path>)
  {
    trellis != [] && forall i :: 0 <= i < |trellis| ==> Pushes(trellis[i])
  }

  /** The first cheapest candidate. */
  ghost predicate IsBest(env: Env, trellis: seq<Path>, cur: int, tar: int, k: nat)
    requires env.Valid() && Usable(trellis)
  {
    && k < |trellis| && Candidate(trellis, cur, k)
    && (forall i :: 0 <= i < |trellis| && Candidate(trellis, cur, i) ==>
                      CostOf(env, trellis[k], cur, tar) <= CostOf(env, trellis[i], cur, tar))
    && (forall i :: 0 <= i < k && Candidate(trellis, cur, i) ==>
                      CostOf(env, trellis[k], cur, tar) < CostOf(env, trellis[i], cur, tar))
  }

  method GetBestPath(env: Env, trellis: seq<Path>, curBitrate: int, tarBitrate: int) returns (best: Path, ghost k: nat)
    requires env.Valid() && Usable(trellis)
    ensures best in trellis && Pushes(best) && (best == trellis[0] || Monotone(curBitrate, best))
    ensures forall i :: 0 <= i < |trellis| && Candidate(trellis, curBitrate, i) ==>
                          CostOf(env, best, curBitrate, tarBitrate) <= CostOf(env, trellis[i], curBitrate, tarBitrate)
    ensures IsBest(env, trellis, curBitrate, tarBitrate, k) && best == trellis[k]
  {
    best, k := trellis[0], 0;
    var minCost := GetOverallCost(env, best, curBitrate, tarBitrate);
    for i := 1 to |trellis|
      invariant k < i && Candidate(trellis, curBitrate, k) && best == trellis[k]
      invariant minCost == CostOf(env, best, curBitrate, tarBitrate)
      invariant forall j :: 0 <= j < i && Candidate(trellis, curBitrate, j) ==>
                              minCost <= CostOf(env, trellis[j], curBitrate, tarBitrate)
      invariant forall j :: 0 <= j < k && Candidate(trellis, curBitrate, j) ==>
                              minCost < CostOf(env, trellis[j], curBitrate, tarBitrate)
    {
      var path := trellis[i];
      var ok := CheckOrder(path, curBitrate);
      if ok {
        var cost := GetOverallCost(env, path, curBitrate, tarBitrate);
        if cost < minCost {
          best, k, minCost := path, i, cost;
        }
      }
    }
  }

  /** If some monotone path costs less than the sentinel, the chosen path ends at the target and passes the
      cost function's buffer guard. */
  lemma BestIsFeasible(env: Env, trellis: seq<Path>, cur: int, tar: int, k: nat, i: nat)
    requires env.Valid() && Usable(trellis) && IsBest(env, trellis, cur, tar, k)
    requires i < |trellis| && Monotone(cur, trellis[i]) && CostOf(env, trellis[i], cur, tar) < SENTINEL
    ensures Reaches(trellis[k], tar) && KeepsBuffer(env, trellis[k])
  {
    assert Candidate(trellis, cur, i);
  }

  // ---------- rates ----------

  predicate Ascending(rates: seq<int>)
  {
    rates != [] && forall i, j :: 0 <= i < j < |rates| ==> rates[i] < rates[j]
  }

  /** The highest rate below the throughput, or the lowest rate when there is none. */
  ghost predicate IsMaxRate(rates: seq<int>, thrp: real, r: int)
    requires rates != []
  {
    if exists i :: 0 <= i < |rates| && rates[i] as real < thrp
    then r in rates && r as real < thrp && forall i :: 0 <= i < |rates| && rates[i] as real < thrp ==> rates[i] <= r
    else r == rates[0]
  }

  method ComputeMaxAdaptedRate(rates: seq<int>, thrp: real) returns (r: int)
    requires Ascending(rates)
    ensures IsMaxRate(rates, thrp, r)
  {
    r := rates[0];
    var i := |rates|;
    while i > 0
      invariant 0 <= i <= |rates| && r == rates[0]
      invariant forall j :: i <= j < |rates| ==> rates[j] as real >= thrp
    {
      i := i - 1;
      if rates[i] as real < thrp {
        r := rates[i];
        return;
      }
    }
  }
}
