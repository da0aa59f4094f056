/** Player and downloader together: every interleaving of their atomic steps. */
module Streaming {
  import opened Playout
  import opened Downloader

  datatype State = State(p: Player, d: Down)

  datatype Event =
    | Poll
    | Begin
    | Decision(mask: seq<bool>, est: real)
    | StreamClose(stream: int)
    | IterationEnd
    | DataFrame(stream: int, mask: seq<bool>, room: real)

  /** When the event can happen. A data frame belongs to a push promised on a stream that is still open;
      it is only acted on for a tile stream, once per iteration. */
  predicate Enabled(c: Config, s: State, e: Event)
  {
    match e
    case Poll => true
    case Begin => s.d.phase.Idle?
    case Decision(mask, _) => s.d.phase.Deciding? && |mask| == c.noTile
    case StreamClose(k) => s.d.phase.Loading? && k in s.d.ids.open
    case IterationEnd => s.d.phase.Ending?
    case DataFrame(k, mask, _) =>
      && s.d.phase.Loading? && k in s.d.ids.open && |mask| == c.noTile
      && k in s.d.ids.target && s.d.ids.target[k].face > 0
      && s.d.iter < |s.d.redecided| && !s.d.redecided[s.d.iter]
  }

  /** Every array and map access of the event is in range. */
  predicate Safe(c: Config, s: State, e: Event)
  {
    && c.Valid() && Shaped(c, s.d)
    && match e
       case Poll => InRange(c, s.p)
       case Begin => true
       case Decision(_, _) =>
         && s.d.phase.Deciding? && s.d.iter < 2 * c.noSeg && s.d.bl < c.noSeg
         && (s.p.playing != c.noSeg - 1 ==> 0 <= s.p.playing + 1 < c.noSeg)
       case StreamClose(k) =>
         && s.d.iter < 2 * c.noSeg && k in s.d.ids.target
         && 0 <= s.d.ids.target[k].seg < c.noSeg && 0 <= s.d.ids.target[k].face <= c.noTile
       case IterationEnd => s.d.phase.Ending? && 0 <= s.d.phase.chunk.seg < c.noSeg && s.d.bl < c.noSeg
       case DataFrame(k, _, _) => s.d.iter < 2 * c.noSeg && k in s.d.ids.target && 0 <= s.d.ids.target[k].seg < c.noSeg
  }

  function Next(c: Config, s: State, e: Event): State
    requires Safe(c, s, e)
  {
    match e
    case Poll => s.(p := PlayerStep(c, s.p))
    case Begin => s.(d := Start(s.d))
    case Decision(mask, est) => s.(d := Decide(c, s.p, s.d, mask, est))
    case StreamClose(k) => s.(d := Close(c, s.d, k))
    case IterationEnd =>
      State(if s.d.phase.chunk.face == 0 then Receive(c, s.p) else s.p, Finish(c, s.d))
    case DataFrame(k, mask, room) => s.(d := Redecide(c, s.d, k, mask, room))
  }

  // ---------- the iteration protocol ----------

  /** The current iteration loads tiles, not the base layer. */
  predicate Tiled(d: Down)
  {
    d.iter < |d.tileList| && d.tileList[d.iter] != []
  }

  predicate BaseBusy(d: Down)
  {
    (d.phase.Loading? && !Tiled(d)) || (d.phase.Ending? && d.phase.chunk.face == 0)
  }

  predicate TilesBusy(d: Down)
  {
    (d.phase.Loading? && Tiled(d)) || (d.phase.Ending? && d.phase.chunk.face > 0)
  }

  /** Iterations are counted by what they completed, so the iteration index stays in range. */
  predicate Counted(c: Config, d: Down)
  {
    && d.bl <= c.noSeg - 1 && d.iter == d.bl + Count(d.elDone)
    && (BaseBusy(d) ==> d.bl < c.noSeg - 1)
    && (TilesBusy(d) ==> 0 <= d.el < c.noSeg && d.el < |d.elDone| && !d.elDone[d.el])
    && (forall j :: d.iter < j < |d.tileList| ==> d.tileList[j] == [])
    && (!d.phase.Loading? && !d.phase.Ending? && d.iter < |d.tileList| ==> d.tileList[d.iter] == [])
  }

  /** Predicted ids are the session's ids, and streams and chunks determine each other. */
  predicate Identified(d: Down)
  {
    && (d.phase.Idle? ==> d.ids.target == map[] && d.ids.open == {} && d.ids.next == 15 && d.bl == 0)
    && (!d.phase.Idle? ==> d.ids.next == d.ids.cur + 2 && d.ids.cur >= 13)
    && (forall k :: k in d.ids.target ==> 13 < k < d.ids.next)
    && (forall k :: k in d.ids.open ==> k in d.ids.target)
    && OneToOne(d.ids)
  }

  predicate OneToOne(ids: Ids)
  {
    forall j, k :: j in ids.target && k in ids.target && ids.target[j] == ids.target[k] ==> j == k
  }

  /** Where a requested chunk stands. */
  predicate Accounted(c: Config, d: Down, k: Chunk)
  {
    && 0 <= k.seg < c.noSeg && 0 <= k.face <= c.noTile
    && k.seg < |d.elDone|
    && if k.face == 0 then k.seg < d.bl || (k.seg == d.bl && BaseBusy(d))
       else d.elDone[k.seg] || (TilesBusy(d) && k.seg == d.el && Tiled(d) && k.face in d.tileList[d.iter])
  }

  predicate AllAccounted(c: Config, d: Down)
  {
    forall k :: k in d.ids.target ==> Accounted(c, d, d.ids.target[k])
  }

  predicate Distinct(s: seq<int>)
  {
    forall i, j :: 0 <= i < j < |s| ==> s[i] != s[j]
  }

  /** The open streams of the iteration are the requested ones that have not finished. */
  predicate Balanced(c: Config, d: Down)
  {
    && (d.phase.Loading? ==> d.ids.open != {} && 0 <= d.fin && |d.ids.open| == d.req - d.fin)
    && (!d.phase.Loading? ==> d.ids.open == {})
    && (BaseBusy(d) && d.phase.Loading? ==>
          d.req == 1 && forall k :: k in d.ids.open && k in d.ids.target ==> d.ids.target[k] == Chunk(d.bl, 0))
    && (BaseBusy(d) && d.phase.Ending? ==> d.phase.chunk == Chunk(d.bl, 0))
    && (TilesBusy(d) ==>
          && Tiled(d)
          && TileNumbers(d.tileList[d.iter], c.noTile) && Distinct(d.tileList[d.iter])
          && (d.iter < |d.redecided| && !d.redecided[d.iter] ==> StrictlySorted(d.tileList[d.iter])))
    && (TilesBusy(d) && d.phase.Loading? ==>
          && d.req == |d.tileList[d.iter]|
          && forall k :: k in d.ids.open && k in d.ids.target ==>
                           d.ids.target[k].seg == d.el && d.ids.target[k].face > 0
                           && d.ids.target[k].face in d.tileList[d.iter])
    && (TilesBusy(d) && d.phase.Ending? ==> d.phase.chunk.seg == d.el)
    && (d.phase.Ending? ==> d.phase.chunk.face >= 0)
  }

  predicate DownInv(c: Config, d: Down)
  {
    c.noSeg >= 1 && Shaped(c, d) && Counted(c, d) && Identified(d) && AllAccounted(c, d) && Balanced(c, d)
  }

  predicate Inv(c: Config, s: State, origin: int)
  {
    PlayerInv(c, s.p, s.d.bl, origin) && DownInv(c, s.d)
  }

  /** The start: the player polls from the beginning, the downloader waits for the initial stream 13. */
  predicate Init(c: Config, s: State, origin: int)
  {
    && PlayerInit(c, s.p, origin) && Shaped(c, s.d)
    && s.d.phase == Idle && s.d.iter == 0 && s.d.bl == 0 && !s.d.terminated
    && s.d.ids.target == map[] && s.d.ids.open == {} && s.d.ids.next == 15
    && (forall i :: 0 <= i < |s.d.elDone| ==> !s.d.elDone[i])
    && (forall i :: 0 <= i < |s.d.tileList| ==> s.d.tileList[i] == [])
    && (forall i, t :: 0 <= i < |s.d.ver| && 0 <= t < |s.d.ver[i]| ==> s.d.ver[i][t] == -1)
  }

  lemma {:induction false} CountNone(s: seq<bool>)
    requires forall i :: 0 <= i < |s| ==> !s[i]
    ensures Count(s) == 0
    decreases |s|
  {
    if s != [] {
      CountNone(s[..|s| - 1]);
    }
  }

  lemma InitInv(c: Config, s: State, origin: int)
    requires Init(c, s, origin)
    ensures Inv(c, s, origin)
  {
    PlayerInitInv(c, s.p, origin);
    CountNone(s.d.elDone);
  }

  lemma {:induction false} CountRoom(s: seq<bool>, k: nat)
    requires k < |s| && !s[k]
    ensures Count(s) < |s|
    decreases |s|
  {
    if k < |s| - 1 {
      CountRoom(s[..|s| - 1], k);
    }
  }

  /** The iteration index is in range whenever an iteration is decided or running. */
  lemma IterInRange(c: Config, d: Down)
    requires c.noSeg >= 1 && Shaped(c, d) && Counted(c, d)
    ensures d.iter < 2 * c.noSeg
  {
  }

  /** An event that can happen accesses every array and map in range. */
  lemma InvSafe(c: Config, s: State, e: Event, origin: int)
    requires Inv(c, s, origin) && Enabled(c, s, e)
    ensures Safe(c, s, e)
  {
    IterInRange(c, s.d);
    InvInRange(c, s.p, s.d.bl, origin);
    match e {
      case StreamClose(k) => assert Accounted(c, s.d, s.d.ids.target[k]);
      case DataFrame(k, _, _) => assert Accounted(c, s.d, s.d.ids.target[k]);
      case _ =>
    }
  }

  // ---------- requests ----------

  /** The ids the session is about to assign to `n` requests. */
  predicate NewId(ids: Ids, n: nat, k: int)
  {
    ids.next <= k < ids.next + 2 * n && (k - ids.next) % 2 == 0
  }

  predicate InStep(ids: Ids)
  {
    && ids.next == ids.cur + 2
    && (forall k :: k in ids.target ==> k < ids.next)
    && (forall k :: k in ids.open ==> k < ids.next)
  }

  /** From `was` to `now` a batch of requests was issued: fresh consecutive ids, one for each tile. */
  ghost predicate Issued(was: Ids, now: Ids, seg: int, tiles: seq<int>)
  {
    && InStep(now) && now.next == was.next + 2 * |tiles|
    && |now.open| == |was.open| + |tiles|
    && (forall k :: k in now.open <==> k in was.open || NewId(was, |tiles|, k))
    && (forall k :: k in now.target <==> k in was.target || NewId(was, |tiles|, k))
    && (forall k :: k in was.target ==> k in now.target && now.target[k] == was.target[k])
    && (forall k :: NewId(was, |tiles|, k) ==>
                      k in now.target && now.target[k] == Chunk(seg, tiles[(k - was.next) / 2]))
  }

  lemma IssuedMore(was: Ids, e: Ids, seg: int, tiles: seq<int>, x: int)
    requires InStep(was) && Issued(was, e, seg, tiles)
    ensures Issued(was, Send(e, Chunk(seg, x)), seg, tiles + [x])
  {
    var n := |tiles|;
    var f := Send(e, Chunk(seg, x));
    assert e.next !in e.open && e.next !in e.target;
    assert forall k :: NewId(was, n + 1, k) <==> NewId(was, n, k) || k == e.next;
    assert f.open == e.open + {e.next};
    assert f.target == e.target[e.next := Chunk(seg, x)];
  }

  lemma {:induction false} SendAllFacts(ids: Ids, seg: int, tiles: seq<int>)
    requires InStep(ids)
    ensures Issued(ids, SendAll(ids, seg, tiles), seg, tiles)
    decreases |tiles|
  {
    if tiles != [] {
      var n := |tiles| - 1;
      SendAllFacts(ids, seg, tiles[..n]);
      IssuedMore(ids, SendAll(ids, seg, tiles[..n]), seg, tiles[..n], tiles[n]);
      assert tiles == tiles[..n] + [tiles[n]];
    }
  }

  lemma SendFacts(ids: Ids, chunk: Chunk)
    requires InStep(ids)
    ensures Send(ids, chunk) == Ids(ids.next, ids.next + 2, ids.target[ids.next := chunk], ids.open + {ids.next})
    ensures InStep(Send(ids, chunk)) && ids.next !in ids.target && ids.next !in ids.open
  {
  }

  /** Each tile of a batch has a new open stream of its own. */
  lemma IssuedFor(was: Ids, now: Ids, seg: int, tiles: seq<int>, x: int) returns (k: int)
    requires InStep(was) && Issued(was, now, seg, tiles) && x in tiles
    ensures k in now.open && k !in was.open && k in now.target && now.target[k] == Chunk(seg, x)
  {
    var j :| 0 <= j < |tiles| && tiles[j] == x;
    k := was.next + 2 * j;
    assert NewId(was, |tiles|, k);
  }

  /** A batch for tiles that were not asked for before keeps streams and chunks in one-to-one relation. */
  lemma IssuedInjective(was: Ids, now: Ids, seg: int, tiles: seq<int>)
    requires InStep(was) && OneToOne(was) && Issued(was, now, seg, tiles) && Distinct(tiles)
    requires forall k :: k in was.target && was.target[k].seg == seg ==> was.target[k].face !in tiles
    ensures OneToOne(now)
  {
    forall k | NewId(was, |tiles|, k)
      ensures now.target[k].face in tiles
    {
    }
    forall j, k | NewId(was, |tiles|, j) && NewId(was, |tiles|, k) && j != k
      ensures now.target[j] != now.target[k]
    {
      assert (j - was.next) / 2 != (k - was.next) / 2;
    }
  }

  // ---------- each event keeps the protocol ----------

  lemma DecideBaseInv(c: Config, d: Down, first: bool)
    requires DownInv(c, d) && d.phase == Deciding(first) && d.bl < c.noSeg - 1
    ensures d.iter < 2 * c.noSeg && DownInv(c, DecideBase(d, first))
  {
    SendFacts(d.ids, Chunk(d.bl, 0));
    var e := DecideBase(d, first);
    assert e.ids.open == {d.ids.next};
    forall k | k in d.ids.target
      ensures Accounted(c, e, e.ids.target[k]) && d.ids.target[k] != Chunk(d.bl, 0)
    {
      assert Accounted(c, d, d.ids.target[k]);
    }
    assert Accounted(c, e, Chunk(d.bl, 0));
  }

  lemma DecideIdleInv(c: Config, d: Down, e: Down)
    requires DownInv(c, d) && d.phase.Deciding?
    requires e == d.(el := e.el, req := e.req, fin := e.fin, phase := e.phase, tileVersion := e.tileVersion)
    requires e.phase.Deciding? || e.phase.Stopped?
    requires |e.tileVersion| == |d.tileVersion|
    ensures DownInv(c, e)
  {
    forall k | k in e.ids.target
      ensures Accounted(c, e, e.ids.target[k])
    {
      assert Accounted(c, d, d.ids.target[k]);
    }
  }

  /** From d to e an iteration for the tiles of segment `el` was started. */
  ghost predicate TilesStarted(d: Down, e: Down, el: int, tiles: seq<int>)
  {
    && Issued(d.ids, e.ids, el, tiles)
    && e.phase == Loading && e.iter == d.iter && e.bl == d.bl && e.el == el && e.req == |tiles| && e.fin == 0
    && d.iter < |d.tileList| && e.tileList == d.tileList[d.iter := tiles]
    && e.elDone == d.elDone && e.ver == d.ver
    && |e.tileVersion| == |d.tileVersion| && |e.redecided| == |d.redecided|
  }

  lemma DecideTilesStarted(c: Config, d: Down, first: bool, el: int, tiles: seq<int>, l: nat)
    requires Shaped(c, d) && d.iter < 2 * c.noSeg && d.tileList[d.iter] == [] && InStep(d.ids)
    requires l > 0 && tiles != []
    ensures TilesStarted(d, DecideEnhancement(c, d, first, el, tiles, l), el, tiles)
  {
    SendAllFacts(d.ids, el, tiles);
    assert d.tileList[d.iter] + tiles == tiles;
  }

  ghost predicate MayStart(c: Config, d: Down, el: int, tiles: seq<int>)
  {
    && DownInv(c, d) && d.phase.Deciding? && d.iter < 2 * c.noSeg
    && 0 <= el < c.noSeg && !d.elDone[el]
    && tiles != [] && StrictlySorted(tiles) && TileNumbers(tiles, c.noTile)
  }

  lemma TilesStartedAccounted(c: Config, d: Down, e: Down, el: int, tiles: seq<int>)
    requires MayStart(c, d, el, tiles) && TilesStarted(d, e, el, tiles)
    ensures AllAccounted(c, e) && Identified(e)
    ensures forall k :: NewId(d.ids, |tiles|, k) ==> e.ids.target[k].seg == el && e.ids.target[k].face in tiles
  {
    forall k | k in d.ids.target
      ensures Accounted(c, e, e.ids.target[k]) && (d.ids.target[k].seg == el ==> d.ids.target[k].face !in tiles)
    {
      assert Accounted(c, d, d.ids.target[k]);
    }
    forall k | NewId(d.ids, |tiles|, k)
      ensures Accounted(c, e, e.ids.target[k]) && e.ids.target[k].face in tiles
    {
      assert tiles[(k - d.ids.next) / 2] in tiles;
    }
    IssuedInjective(d.ids, e.ids, el, tiles);
  }

  lemma TilesStartedInv(c: Config, d: Down, e: Down, el: int, tiles: seq<int>)
    requires MayStart(c, d, el, tiles) && TilesStarted(d, e, el, tiles)
    ensures DownInv(c, e)
  {
    TilesStartedAccounted(c, d, e, el, tiles);
    assert e.tileList[e.iter] == tiles;
    assert forall k :: k in e.ids.open ==> NewId(d.ids, |tiles|, k);
    assert forall j :: 0 <= j < |tiles| ==> tiles[j] in tiles;
  }

  lemma DecideEnhancementInv(c: Config, d: Down, first: bool, el: int, tiles: seq<int>, l: nat)
    requires DownInv(c, d) && d.phase == Deciding(first) && 0 <= el < c.noSeg && !d.elDone[el]
    requires StrictlySorted(tiles) && TileNumbers(tiles, c.noTile)
    ensures d.iter < 2 * c.noSeg && DownInv(c, DecideEnhancement(c, d, first, el, tiles, l))
  {
    var e := DecideEnhancement(c, d, first, el, tiles, l);
    if l > 0 && tiles != [] {
      DecideTilesStarted(c, d, first, el, tiles, l);
      TilesStartedInv(c, d, e, el, tiles);
    } else {
      if tiles == [] {
        assert d.tileList[d.iter] + tiles == [];
        assert d.tileList[d.iter := d.tileList[d.iter] + tiles] == d.tileList;
      }
      DecideIdleInv(c, d, e);
    }
  }

  /** A decision keeps the protocol whatever it reads, as long as it stays in the arrays. */
  lemma ReadsInv(c: Config, buf: int, seen: int, used: int, d: Down, mask: seq<bool>, est: real)
    requires DownInv(c, d) && d.phase.Deciding? && |mask| == c.noTile && InArrays(c, buf, seen, used, d)
    ensures d.iter < 2 * c.noSeg && DownInv(c, DecideReads(c, buf, seen, used, d, mask, est))
    ensures DecideReads(c, buf, seen, used, d, mask, est).bl == d.bl
  {
    var first := d.phase.first;
    IterInRange(c, d);
    if Wants(c, buf, d) {
      DecideBaseInv(c, d, first);
    } else if seen == c.noSeg - 1 || d.elDone[used + 1] {
      DecideIdleInv(c, d, DecideReads(c, buf, seen, used, d, mask, est));
    } else {
      var tiles := Visible(mask);
      VisibleSorted(mask);
      DecideEnhancementInv(c, d, first, used + 1, tiles, Pick(c.enhaBr, c.baseBr, |tiles|, est));
    }
  }

  lemma DecisionInv(c: Config, p: Player, d: Down, mask: seq<bool>, est: real)
    requires DownInv(c, d) && d.phase.Deciding? && |mask| == c.noTile
    requires p.playing != c.noSeg - 1 ==> 0 <= p.playing + 1 < c.noSeg
    ensures d.iter < 2 * c.noSeg && DownInv(c, Decide(c, p, d, mask, est))
  {
    ReadsInv(c, p.buf, p.playing, p.playing, d, mask, est);
  }

  lemma CloseInv(c: Config, d: Down, k: int)
    requires DownInv(c, d) && d.phase.Loading? && k in d.ids.open
    ensures d.iter < 2 * c.noSeg && k in d.ids.target && Accounted(c, d, d.ids.target[k])
    ensures DownInv(c, Close(c, d, k))
  {
    assert Accounted(c, d, d.ids.target[k]);
    var e := Close(c, d, k);
    assert |e.ids.open| == |d.ids.open| - 1;
    assert e.ids.open == {} <==> e.fin == e.req;
    forall j | j in e.ids.target
      ensures Accounted(c, e, e.ids.target[j])
    {
      assert Accounted(c, d, d.ids.target[j]);
    }
  }

  lemma FinishInv(c: Config, d: Down)
    requires DownInv(c, d) && d.phase.Ending?
    ensures d.phase.chunk.face > 0 ==> 0 <= d.phase.chunk.seg < |d.elDone|
    ensures DownInv(c, Finish(c, d))
    ensures Finish(c, d).bl == d.bl + (if d.phase.chunk.face == 0 then 1 else 0) <= c.noSeg - 1
  {
    var e := Finish(c, d);
    if d.phase.chunk.face > 0 {
      CountSet(d.elDone, d.el);
    }
    forall j | j in e.ids.target
      ensures Accounted(c, e, e.ids.target[j])
    {
      assert Accounted(c, d, d.ids.target[j]);
    }
  }

  /** From d to f the running iteration was extended by the tiles `add`. */
  ghost predicate TilesAdded(d: Down, f: Down, add: seq<int>)
  {
    && Issued(d.ids, f.ids, d.el, add)
    && d.iter < |d.redecided| && d.iter < |d.tileList|
    && f == d.(ids := f.ids, redecided := d.redecided[d.iter := true], req := |d.tileList[d.iter] + add|,
               tileList := d.tileList[d.iter := d.tileList[d.iter] + add])
  }

  lemma UnlistedTiles(mask: seq<bool>, list: seq<int>)
    requires StrictlySorted(list)
    ensures var diff := SetDifference(Visible(mask), list);
            StrictlySorted(diff) && TileNumbers(diff, |mask|) && forall x :: x in diff ==> x !in list
  {
    VisibleSorted(mask);
    SetDifferenceSorted(Visible(mask), list);
    var diff := SetDifference(Visible(mask), list);
    assert forall j :: 0 <= j < |diff| ==> diff[j] in diff;
  }

  /** The re-decision adds tiles that are not yet in the list of the iteration. */
  lemma RedecideAdds(c: Config, d: Down, s: int, mask: seq<bool>, room: real) returns (add: seq<int>)
    requires DownInv(c, d) && d.phase.Loading? && s in d.ids.open && s in d.ids.target && d.ids.target[s].face > 0
    requires |mask| == c.noTile && d.iter < 2 * c.noSeg && !d.redecided[d.iter] && c.sd >= 0
    ensures TilesBusy(d) && StrictlySorted(add) && TileNumbers(add, c.noTile)
    ensures forall x :: x in add ==> x !in d.tileList[d.iter]
    ensures TilesAdded(d, Redecide(c, d, s, mask, room), add)
  {
    var was := d.tileList[d.iter];
    assert Accounted(c, d, d.ids.target[s]);
    UnlistedTiles(mask, was);
    add := SetDifference(Visible(mask), was);
    if add == [] || Pick(c.enhaBr, 0, |add| * (c.sd / 1000), room) == 0 {
      add := [];
      assert was + add == was && d.tileList[d.iter := was] == d.tileList;
    }
    SendAllFacts(d.ids, d.el, add);
  }

  lemma NewTiles(mask: seq<bool>, list: seq<int>)
    requires StrictlySorted(list)
    ensures var add, more := SetDifference(Visible(mask), list), Seen(mask) - set x | x in list;
            |add| == |more| && forall x :: x in add <==> x in more
  {
    VisibleSorted(mask);
    VisibleIsSeen(mask);
    SetDifferenceSorted(Visible(mask), list);
    SortedSize(SetDifference(Visible(mask), list), Seen(mask) - set x | x in list);
  }

  /** The tiles `add` are the visible ones that are not in the list, and f is d with them, or without. */
  ghost predicate Outcome(c: Config, d: Down, f: Down, mask: seq<bool>, add: seq<int>, asks: bool)
  {
    && d.iter < |d.tileList| && d.iter < |d.redecided| && d.req == |d.tileList[d.iter]| && InStep(d.ids)
    && var list := d.tileList[d.iter];
       var more := Seen(mask) - set x | x in list;
       && |add| == |more| && (forall x :: x in add <==> x in more)
       && f == if add != [] && asks
               then d.(ids := SendAll(d.ids, d.el, add), redecided := d.redecided[d.iter := true],
                       req := |list| + |add|, tileList := d.tileList[d.iter := list + add])
               else d.(redecided := d.redecided[d.iter := true])
  }

  /** A re-decision asks if the lowest version of the tiles it could add fits the bits that can still be received. */
  predicate Asks(c: Config, d: Down, mask: seq<bool>, room: real)
    requires d.iter < |d.tileList| && c.sd >= 0
  {
    Affords(c.enhaBr, 0, |Seen(mask) - set x | x in d.tileList[d.iter]| * (c.sd / 1000), room)
  }

  lemma RedecideOutcome(c: Config, d: Down, s: int, mask: seq<bool>, room: real) returns (add: seq<int>)
    requires DownInv(c, d) && d.phase.Loading? && s in d.ids.open && s in d.ids.target && d.ids.target[s].face > 0
    requires |mask| == c.noTile && d.iter < 2 * c.noSeg && !d.redecided[d.iter] && c.sd >= 0
    ensures Outcome(c, d, Redecide(c, d, s, mask, room), mask, add, Asks(c, d, mask, room))
  {
    assert Accounted(c, d, d.ids.target[s]);
    NewTiles(mask, d.tileList[d.iter]);
    add := SetDifference(Visible(mask), d.tileList[d.iter]);
  }

  /** From d to f the re-decision was made. */
  ghost predicate Redecided(c: Config, d: Down, f: Down, mask: seq<bool>, room: real)
    requires d.iter < |d.tileList| && c.sd >= 0
  {
    var list := d.tileList[d.iter];
    var more := Seen(mask) - set x | x in list;
    var asks := Asks(c, d, mask, room);
    && d.iter < |f.tileList| && d.iter < |f.redecided| && f.redecided[d.iter]
    && (forall x :: x in f.tileList[d.iter] <==> x in list || (x in more && asks))
    && f.req == |f.tileList[d.iter]| == |list| + (if asks then |more| else 0)
    && |f.ids.open| == |d.ids.open| + (if asks then |more| else 0)
    && (asks ==> forall x :: x in more ==> Asked(d, f, x))
  }

  /** A new stream was opened for the tile. */
  ghost predicate Asked(d: Down, f: Down, x: int)
  {
    exists k :: k in f.ids.open && k !in d.ids.open && k in f.ids.target && f.ids.target[k] == Chunk(d.el, x)
  }

  lemma OutcomeRedecided(c: Config, d: Down, f: Down, mask: seq<bool>, room: real, add: seq<int>)
    requires d.iter < |d.tileList| && c.sd >= 0 && Outcome(c, d, f, mask, add, Asks(c, d, mask, room))
    ensures Redecided(c, d, f, mask, room)
  {
    if add != [] && Asks(c, d, mask, room) {
      SendAllFacts(d.ids, d.el, add);
      forall x | x in add
        ensures Asked(d, f, x)
      {
        var k := IssuedFor(d.ids, f.ids, d.el, add, x);
      }
    }
  }

  /** Exactly when and what a re-decision requests: with n tiles visible now and not in the list, all of them if the
      lowest version of n tiles fits the bits that can still be received, and none otherwise. The tiles of the list are
      then the requests of the iteration. */
  lemma RedecideExactly(c: Config, d: Down, s: int, mask: seq<bool>, room: real)
    requires DownInv(c, d) && d.phase.Loading? && s in d.ids.open && s in d.ids.target && d.ids.target[s].face > 0
    requires |mask| == c.noTile && d.iter < 2 * c.noSeg && !d.redecided[d.iter] && c.sd >= 0
    ensures Redecided(c, d, Redecide(c, d, s, mask, room), mask, room)
  {
    var add := RedecideOutcome(c, d, s, mask, room);
    OutcomeRedecided(c, d, Redecide(c, d, s, mask, room), mask, room, add);
  }

  lemma TilesAddedInv(c: Config, d: Down, f: Down, add: seq<int>)
    requires DownInv(c, d) && d.phase.Loading? && TilesBusy(d) && TilesAdded(d, f, add)
    requires StrictlySorted(add) && TileNumbers(add, c.noTile)
    requires forall x :: x in add ==> x !in d.tileList[d.iter]
    ensures DownInv(c, f)
  {
    var list := d.tileList[d.iter] + add;
    forall k | k in d.ids.target
      ensures Accounted(c, f, f.ids.target[k]) && (d.ids.target[k].seg == d.el ==> d.ids.target[k].face !in add)
    {
      assert Accounted(c, d, d.ids.target[k]);
    }
    forall k | NewId(d.ids, |add|, k)
      ensures Accounted(c, f, f.ids.target[k]) && f.ids.target[k].face > 0 && f.ids.target[k].face in list
    {
      assert add[(k - d.ids.next) / 2] in add;
    }
    IssuedInjective(d.ids, f.ids, d.el, add);
    assert forall j :: 0 <= j < |add| ==> add[j] in add;
    assert forall j :: 0 <= j < |d.tileList[d.iter]| ==> d.tileList[d.iter][j] in d.tileList[d.iter];
    assert Distinct(list);
  }

  lemma RedecideInv(c: Config, d: Down, s: int, mask: seq<bool>, room: real)
    requires DownInv(c, d) && d.phase.Loading? && s in d.ids.open && s in d.ids.target && d.ids.target[s].face > 0
    requires |mask| == c.noTile && d.iter < 2 * c.noSeg && !d.redecided[d.iter] && c.sd >= 0
    ensures DownInv(c, Redecide(c, d, s, mask, room))
  {
    var add := RedecideAdds(c, d, s, mask, room);
    TilesAddedInv(c, d, Redecide(c, d, s, mask, room), add);
  }

  lemma StartInv(c: Config, d: Down)
    requires DownInv(c, d) && d.phase.Idle?
    ensures DownInv(c, Start(d)) && Start(d).bl == d.bl
  {
    var e := Start(d);
    assert e.ids.target == map[];
  }

  lemma IterationEndInv(c: Config, s: State, origin: int)
    requires Inv(c, s, origin) && Enabled(c, s, IterationEnd) && Safe(c, s, IterationEnd)
    ensures Inv(c, Next(c, s, IterationEnd), origin)
  {
    FinishInv(c, s.d);
    if s.d.phase.chunk.face == 0 {
      ReceiveInv(c, s.p, s.d.bl, origin);
    }
  }

  lemma DownStepInv(c: Config, s: State, e: Event, origin: int)
    requires Inv(c, s, origin) && Enabled(c, s, e) && Safe(c, s, e) && !e.Poll? && !e.IterationEnd?
    ensures Next(c, s, e).p == s.p && DownInv(c, Next(c, s, e).d) && Next(c, s, e).d.bl == s.d.bl
  {
    match e {
      case Begin => StartInv(c, s.d);
      case Decision(mask, est) => DecisionInv(c, s.p, s.d, mask, est);
      case StreamClose(k) => CloseInv(c, s.d, k);
      case DataFrame(k, mask, room) => RedecideInv(c, s.d, k, mask, room);
    }
  }

  /** Every event that can happen is safe and keeps the invariant. */
  lemma StepInv(c: Config, s: State, e: Event, origin: int)
    requires Inv(c, s, origin) && Enabled(c, s, e)
    ensures Safe(c, s, e) && Inv(c, Next(c, s, e), origin)
  {
    InvSafe(c, s, e, origin);
    match e {
      case Poll => PlayerStepInv(c, s.p, s.d.bl, origin);
      case IterationEnd => IterationEndInv(c, s, origin);
      case _ => DownStepInv(c, s, e, origin);
    }
  }
}
