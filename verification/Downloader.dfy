/** The download side of client/src/nghttp.cc: decisions, stream closes and the re-decision made on a
    data frame, as steps on the shared download status. */
module Downloader {
  import opened Playout

  /** What a stream was requested for; face 0 is the base layer, other faces are tiles. */
  datatype Chunk = Chunk(seg: int, face: int)

  /** `Deciding` repeats until something is requested; `first` tells the entry from the retries.
      `Ending` is the tail of the close callback after the last stream of an iteration. */
  datatype Phase = Idle | Deciding(first: bool) | Loading | Ending(chunk: Chunk) | Stopped

  /** The last predicted stream id, the id the session assigns next, the map from predicted ids to chunks,
      and the open streams. */
  datatype Ids = Ids(cur: int, next: int, target: map<int, Chunk>, open: set<int>)

  /** The download status: iteration counter, requested and finished streams of the iteration, next base
      segment, current enhancement segment, stream ids, and the metric arrays. */
  datatype Down = Down(phase: Phase, iter: nat, req: int, fin: int, bl: nat, el: int, ids: Ids,
                       elDone: seq<bool>, tileList: seq<seq<int>>, tileVersion: seq<int>, redecided: seq<bool>,
                       ver: seq<seq<int>>, terminated: bool)

  // ---------- tiles ----------

  /** The numbers, from 1, of the visible tiles. */
  function Visible(mask: seq<bool>): seq<int>
  {
    if mask == [] then []
    else
      var n := |mask| - 1;
      Visible(mask[..n]) + (if mask[n] then [n + 1] else [])
  }

  predicate StrictlySorted(s: seq<int>)
  {
    forall i, j :: 0 <= i < j < |s| ==> s[i] < s[j]
  }

  predicate TileNumbers(s: seq<int>, noTile: nat)
  {
    forall i :: 0 <= i < |s| ==> 1 <= s[i] <= noTile
  }

  lemma {:induction false} VisibleSorted(mask: seq<bool>)
    ensures StrictlySorted(Visible(mask)) && TileNumbers(Visible(mask), |mask|)
  {
    if mask != [] {
      VisibleSorted(mask[..|mask| - 1]);
    }
  }

  lemma {:induction false} VisibleMembers(mask: seq<bool>, x: int)
    ensures x in Visible(mask) <==> 1 <= x <= |mask| && mask[x - 1]
  {
    if mask != [] {
      VisibleMembers(mask[..|mask| - 1], x);
    }
  }

  /** The marked tiles of a mask, as a set. */
  function Seen(mask: seq<bool>): set<int>
  {
    set i | 0 <= i < |mask| && mask[i] :: i + 1
  }

  /** A sorted list has as many entries as members. */
  lemma {:induction false} SortedSize(s: seq<int>, members: set<int>)
    requires StrictlySorted(s) && forall x :: x in s <==> x in members
    ensures |s| == |members|
    decreases |s|
  {
    if s == [] {
      assert forall x :: x in members ==> x in s;
      assert members == {};
    } else {
      var n := |s| - 1;
      assert s[n] in s && s == s[..n] + [s[n]];
      forall x
        ensures x in s[..n] <==> x in members - {s[n]}
      {
        if x in s[..n] {
          var i :| 0 <= i < n && s[..n][i] == x;
          assert s[i] < s[n];
        }
      }
      SortedSize(s[..n], members - {s[n]});
    }
  }

  lemma VisibleIsSeen(mask: seq<bool>)
    ensures |Visible(mask)| == |Seen(mask)| && forall x :: x in Visible(mask) <==> x in Seen(mask)
  {
    forall x
      ensures x in Visible(mask) <==> x in Seen(mask)
    {
      VisibleMembers(mask, x);
      assert x in Seen(mask) ==> 0 <= x - 1 < |mask| && mask[x - 1];
    }
    VisibleSorted(mask);
    SortedSize(Visible(mask), Seen(mask));
  }

  /** The merge of std::set_difference. */
  function SetDifference(a: seq<int>, b: seq<int>): seq<int>
    decreases |a| + |b|
  {
    if a == [] then []
    else if b == [] then a
    else if a[0] < b[0] then [a[0]] + SetDifference(a[1..], b)
    else if b[0] < a[0] then SetDifference(a, b[1..])
    else SetDifference(a[1..], b[1..])
  }

  lemma HeadLess(a: seq<int>, x: int)
    requires StrictlySorted(a) && a != [] && x in a[1..]
    ensures a[0] < x
  {
    var i :| 0 <= i < |a[1..]| && a[1..][i] == x;
    assert a[i + 1] == x;
  }

  lemma {:induction false} SetDifferenceMembers(a: seq<int>, b: seq<int>, x: int)
    requires StrictlySorted(a) && StrictlySorted(b)
    ensures x in SetDifference(a, b) <==> x in a && x !in b
    decreases |a| + |b|
  {
    if a != [] && b != [] {
      assert x in a <==> x == a[0] || x in a[1..];
      assert x in b <==> x == b[0] || x in b[1..];
      if x in a[1..] {
        HeadLess(a, x);
      }
      if x in b[1..] {
        HeadLess(b, x);
      }
      if a[0] < b[0] {
        SetDifferenceMembers(a[1..], b, x);
      } else if b[0] < a[0] {
        SetDifferenceMembers(a, b[1..], x);
      } else {
        SetDifferenceMembers(a[1..], b[1..], x);
      }
    }
  }

  lemma PrependSorted(x: int, rest: seq<int>)
    requires StrictlySorted(rest) && forall y :: y in rest ==> x < y
    ensures StrictlySorted([x] + rest)
  {
    assert forall j :: 0 <= j < |rest| ==> rest[j] in rest;
  }

  /** On sorted ranges the merge is the set difference, sorted again. */
  lemma {:induction false} SetDifferenceSorted(a: seq<int>, b: seq<int>)
    requires StrictlySorted(a) && StrictlySorted(b)
    ensures StrictlySorted(SetDifference(a, b))
    ensures forall x :: x in SetDifference(a, b) <==> x in a && x !in b
    decreases |a| + |b|
  {
    forall x
      ensures x in SetDifference(a, b) <==> x in a && x !in b
    {
      SetDifferenceMembers(a, b, x);
    }
    if a != [] && b != [] {
      if a[0] < b[0] {
        SetDifferenceSorted(a[1..], b);
        forall y | y in SetDifference(a[1..], b)
          ensures a[0] < y
        {
          HeadLess(a, y);
        }
        PrependSorted(a[0], SetDifference(a[1..], b));
      } else if b[0] < a[0] {
        SetDifferenceSorted(a, b[1..]);
      } else {
        SetDifferenceSorted(a[1..], b[1..]);
      }
    }
  }

  /** The number of leading versions whose cost stays within the limit. */
  function Pick(enhaBr: seq<nat>, base: nat, weight: nat, limit: real): (l: nat)
    ensures l <= |enhaBr|
    ensures forall j :: 0 <= j < l ==> (base + enhaBr[j] * weight) as real <= limit
    ensures l < |enhaBr| ==> (base + enhaBr[l] * weight) as real > limit
  {
    PickFrom(enhaBr, base, weight, limit, 0)
  }

  function PickFrom(enhaBr: seq<nat>, base: nat, weight: nat, limit: real, l: nat): (r: nat)
    requires l <= |enhaBr|
    requires forall j :: 0 <= j < l ==> (base + enhaBr[j] * weight) as real <= limit
    ensures l <= r <= |enhaBr|
    ensures forall j :: 0 <= j < r ==> (base + enhaBr[j] * weight) as real <= limit
    ensures r < |enhaBr| ==> (base + enhaBr[r] * weight) as real > limit
    decreases |enhaBr| - l
  {
    if l == |enhaBr| || (base + enhaBr[l] * weight) as real > limit then l
    else PickFrom(enhaBr, base, weight, limit, l + 1)
  }

  /** Some version of n tiles can be paid for. */
  predicate Affords(enhaBr: seq<nat>, base: nat, n: nat, limit: real)
  {
    enhaBr != [] && (base + enhaBr[0] * n) as real <= limit
  }

  /** Version v, counted from 1, is the last one before the first that cannot be paid for. */
  predicate Highest(enhaBr: seq<nat>, base: nat, n: nat, limit: real, v: int)
  {
    && 1 <= v <= |enhaBr| && (forall j :: 0 <= j < v ==> (base + enhaBr[j] * n) as real <= limit)
    && (v < |enhaBr| ==> (base + enhaBr[v] * n) as real > limit)
  }

  // ---------- requests ----------

  /** One request: the id is predicted as two more than the last one, the session assigns its own next
      id, and an id already in the map keeps its old entry. */
  function Send(ids: Ids, chunk: Chunk): Ids
  {
    var id := ids.cur + 2;
    Ids(id, ids.next + 2, if id in ids.target then ids.target else ids.target[id := chunk], ids.open + {ids.next})
  }

  function SendAll(ids: Ids, seg: int, tiles: seq<int>): Ids
    decreases |tiles|
  {
    if tiles == [] then ids
    else
      var n := |tiles| - 1;
      Send(SendAll(ids, seg, tiles[..n]), Chunk(seg, tiles[n]))
  }

  /** The arrays have their allocated lengths. */
  predicate Shaped(c: Config, d: Down)
  {
    && |d.elDone| == c.noSeg && |d.ver| == c.noSeg
    && |d.tileList| == 2 * c.noSeg && |d.tileVersion| == 2 * c.noSeg && |d.redecided| == 2 * c.noSeg
    && (forall s :: 0 <= s < |d.ver| ==> |d.ver[s]| == c.noTile + 1)
  }

  /** A base chunk is wanted: some are left and less than the threshold minus one second is buffered. */
  predicate Wants(c: Config, buf: int, d: Down)
  {
    d.bl < c.noSeg - 1 && buf < (c.thres - 1) * 1000
  }

  predicate WantsBase(c: Config, p: Player, d: Down)
  {
    Wants(c, p.buf, d)
  }

  /** A decision from its three readings of the player does not index past the last segment. */
  predicate InArrays(c: Config, buf: int, seen: int, used: int, d: Down)
  {
    !Wants(c, buf, d) && seen != c.noSeg - 1 ==> 0 <= used + 1 < c.noSeg
  }

  function DecideBase(d: Down, first: bool): Down
    requires d.iter < |d.tileVersion| && d.iter < |d.redecided|
  {
    d.(ids := Send(d.ids, Chunk(d.bl, 0)), tileVersion := d.tileVersion[d.iter := 0],
       req := 1, fin := 0, phase := Loading,
       redecided := if first then d.redecided[d.iter := false] else d.redecided)
  }

  function DecideEnhancement(c: Config, d: Down, first: bool, el: int, tiles: seq<int>, l: nat): Down
    requires d.iter < |d.tileVersion| && d.iter < |d.redecided| && d.iter < |d.tileList|
  {
    if l == 0 then d.(el := el, req := 0, phase := Deciding(false))
    else
      var f := d.(ids := SendAll(d.ids, el, tiles), tileVersion := d.tileVersion[d.iter := l], el := el,
                  req := |tiles|, fin := 0, tileList := d.tileList[d.iter := d.tileList[d.iter] + tiles]);
      if |tiles| > 0 then
        f.(phase := Loading, redecided := if first then d.redecided[d.iter := false] else d.redecided)
      else f.(phase := Deciding(false))
  }

  /** One pass of the adaptation function, up to its request, its return or its retry, from what it reads of the
      player: the buffer level, the playing segment compared with the last one, and the playing segment whose
      successor is loaded. */
  function DecideReads(c: Config, buf: int, seen: int, used: int, d: Down, mask: seq<bool>, est: real): Down
    requires d.phase.Deciding? && |d.elDone| == c.noSeg
    requires d.iter < |d.tileVersion| && d.iter < |d.redecided| && d.iter < |d.tileList|
    requires InArrays(c, buf, seen, used, d)
  {
    var first := d.phase.first;
    if Wants(c, buf, d) then DecideBase(d, first)
    else if seen == c.noSeg - 1 then d.(req := 0, phase := Stopped)
    else
      var el := used + 1;
      if d.elDone[el] then d.(el := el, req := 0, phase := Deciding(false))
      else
        var tiles := Visible(mask);
        DecideEnhancement(c, d, first, el, tiles, Pick(c.enhaBr, c.baseBr, |tiles|, est))
  }

  /** The pass with all readings at one moment. */
  function Decide(c: Config, p: Player, d: Down, mask: seq<bool>, est: real): Down
    requires d.phase.Deciding? && |d.elDone| == c.noSeg
    requires d.iter < |d.tileVersion| && d.iter < |d.redecided| && d.iter < |d.tileList|
    requires p.playing != c.noSeg - 1 ==> 0 <= p.playing + 1 < c.noSeg
  {
    DecideReads(c, p.buf, p.playing, p.playing, d, mask, est)
  }

  /** `update_tile_version` on one segment. */
  function UpdateRow(row: seq<int>, face: int, version: int, noTile: nat): (r: seq<int>)
    requires 0 <= face < |row| && noTile <= |row|
    ensures |r| == |row|
    ensures forall t :: 0 <= t < |row| ==>
                          r[t] == if (face == 0 && t < noTile) || (face != 0 && t == face) then version else row[t]
  {
    if face == 0 then seq(|row|, t requires 0 <= t < |row| => if t < noTile then version else row[t])
    else row[face := version]
  }

  /** A stream closes: count it, record the tile versions, and see whether it was the last one. */
  function Close(c: Config, d: Down, s: int): Down
    requires d.iter < |d.tileVersion| && s in d.ids.target
    requires 0 <= d.ids.target[s].seg < |d.ver|
    requires 0 <= d.ids.target[s].face < |d.ver[d.ids.target[s].seg]| && c.noTile <= |d.ver[d.ids.target[s].seg]|
  {
    var k := d.ids.target[s];
    var row := UpdateRow(d.ver[k.seg], k.face, d.tileVersion[d.iter], c.noTile);
    var e := d.(ids := d.ids.(open := d.ids.open - {s}), fin := d.fin + 1, ver := d.ver[k.seg := row]);
    if e.fin == e.req then e.(phase := Ending(k)) else e
  }

  /** The rest of the close callback when the iteration is over; the player receives the base chunk. */
  function Finish(c: Config, d: Down): Down
    requires d.phase.Ending? && (d.phase.chunk.face > 0 ==> 0 <= d.phase.chunk.seg < |d.elDone|)
  {
    var k := d.phase.chunk;
    var e := if k.face > 0 then d.(elDone := d.elDone[k.seg := true]) else d;
    var f := if k.face == 0 then e.(bl := e.bl + 1) else e;
    f.(terminated := f.terminated || (k.seg == c.noSeg - 1 && k.face > 0), iter := f.iter + 1, phase := Deciding(true))
  }

  /** A data frame of an enhancement stream, late in the iteration: request the tiles that became visible. */
  function Redecide(c: Config, d: Down, s: int, mask: seq<bool>, room: real): Down
    requires d.iter < |d.redecided| && d.iter < |d.tileList| && s in d.ids.target && c.sd >= 0
  {
    var add := SetDifference(Visible(mask), d.tileList[d.iter]);
    var l := Pick(c.enhaBr, 0, |add| * (c.sd / 1000), room);
    var e := d.(redecided := d.redecided[d.iter := true]);
    if |add| > 0 && l > 0 then
      var g := e.(ids := SendAll(d.ids, d.ids.target[s].seg, add),
                  tileList := d.tileList[d.iter := d.tileList[d.iter] + add]);
      g.(req := |g.tileList[d.iter]|)
    else e
  }

  /** The initial stream closed: the adaptation starts after it. */
  function Start(d: Down): Down
  {
    d.(ids := d.ids.(cur := 13), bl := 0, phase := Deciding(true))
  }

  function Count(s: seq<bool>): (n: nat)
    ensures n <= |s|
  {
    if s == [] then 0 else Count(s[..|s| - 1]) + if s[|s| - 1] then 1 else 0
  }

  lemma {:induction false} CountSet(s: seq<bool>, k: nat)
    requires k < |s| && !s[k]
    ensures Count(s[k := true]) == Count(s) + 1
    decreases |s|
  {
    var n := |s| - 1;
    if k < n {
      CountSet(s[..n], k);
      assert s[k := true][..n] == s[..n][k := true];
    } else {
      assert s[k := true][..n] == s[..n];
    }
  }
}
