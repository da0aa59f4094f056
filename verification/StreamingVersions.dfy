/** How the recorded tile versions evolve over a run, and the order in which layers are loaded. */
module StreamingVersions {
  import opened Playout
  import opened Downloader
  import opened Streaming
  import opened StreamingRuns

  // ---------- what a decision does ----------

  /** From d to e a decision was made that wanted a base chunk or not, and else looked at the segment after `used`:
      a base chunk is requested only if wanted, and tiles only of that segment, if they are not there yet. */
  ghost predicate Decided(c: Config, d: Down, e: Down, wants: bool, used: int)
  {
    && e.ver == d.ver && e.elDone == d.elDone && e.bl == d.bl && e.iter == d.iter && e.terminated == d.terminated
    && (e.phase.Loading? || e.phase.Deciding? || e.phase.Stopped?)
    && (e.phase.Loading? && !Tiled(e) ==> wants)
    && (e.phase.Loading? && Tiled(e) ==>
          && !wants && e.el == used + 1 && 0 <= e.el < |d.elDone| && !d.elDone[e.el]
          && c.noTile > 0 && c.enhaBr != [])
  }

  lemma ReadsDecided(c: Config, buf: int, seen: int, used: int, d: Down, mask: seq<bool>, est: real)
    requires DownInv(c, d) && d.phase.Deciding? && |mask| == c.noTile && InArrays(c, buf, seen, used, d)
    ensures d.iter < 2 * c.noSeg
    ensures Decided(c, d, DecideReads(c, buf, seen, used, d, mask, est), Wants(c, buf, d), used)
  {
    IterInRange(c, d);
    assert c.noTile == 0 ==> Visible(mask) == [];
  }

  // ---------- what every event keeps ----------

  /** Only segments whose tiles were loaded, or are being loaded, have a version above the base version. */
  predicate BaseOnly(d: Down)
  {
    forall s, t :: 0 <= s < |d.ver| && 0 <= t < |d.ver[s]|
                   && s < |d.elDone| && !d.elDone[s] && !(TilesBusy(d) && s == d.el) ==>
                     d.ver[s][t] <= 0
  }

  /** In a running tile iteration a recorded tile belongs to the iteration and its stream is closed. */
  predicate TilesPending(d: Down)
  {
    TilesBusy(d) && 0 <= d.el < |d.ver| && Tiled(d) ==>
      forall t :: 0 <= t < |d.ver[d.el]| && d.ver[d.el][t] > 0 ==>
                    forall k :: k in d.ids.open && k in d.ids.target ==> d.ids.target[k].face != t
  }

  predicate TilesListed(d: Down)
  {
    TilesBusy(d) && 0 <= d.el < |d.ver| && Tiled(d) ==>
      forall t :: 0 <= t < |d.ver[d.el]| && d.ver[d.el][t] > 0 ==> t in d.tileList[d.iter]
  }

  predicate VersionChosen(d: Down)
  {
    d.phase.Loading? && d.iter < |d.tileVersion| ==>
      (if Tiled(d) then d.tileVersion[d.iter] >= 1 else d.tileVersion[d.iter] == 0)
  }

  predicate Floor(d: Down)
  {
    forall s, t :: 0 <= s < |d.ver| && 0 <= t < |d.ver[s]| ==> d.ver[s][t] >= -1
  }

  predicate Kept(d: Down)
  {
    BaseOnly(d) && TilesPending(d) && TilesListed(d) && VersionChosen(d) && Floor(d)
  }

  /** The base chunk on its way will not overwrite a tile version. */
  predicate Clean(c: Config, d: Down)
  {
    d.phase.Loading? && !Tiled(d) && d.bl < |d.ver| ==>
      forall t :: 0 <= t < c.noTile && t < |d.ver[d.bl]| ==> d.ver[d.bl][t] <= 0
  }

  predicate RowGrown(row: seq<int>, other: seq<int>)
  {
    |row| == |other| && forall t :: 0 <= t < |row| ==> row[t] <= other[t]
  }

  /** No version went down from d to e. */
  predicate Grown(d: Down, e: Down)
  {
    |d.ver| == |e.ver| && forall s :: 0 <= s < |d.ver| ==> RowGrown(d.ver[s], e.ver[s])
  }

  lemma DecideBaseKept(c: Config, d: Down, first: bool)
    requires DownInv(c, d) && Kept(d) && d.phase == Deciding(first) && d.bl < c.noSeg - 1
    ensures d.iter < 2 * c.noSeg && Kept(DecideBase(d, first))
  {
    DecideBaseInv(c, d, first);
    assert !Tiled(DecideBase(d, first));
  }

  lemma DecideTilesKept(c: Config, d: Down, first: bool, el: int, tiles: seq<int>, l: nat)
    requires DownInv(c, d) && Kept(d) && d.phase == Deciding(first) && 0 <= el < c.noSeg && !d.elDone[el]
    requires StrictlySorted(tiles) && TileNumbers(tiles, c.noTile)
    ensures d.iter < 2 * c.noSeg && Kept(DecideEnhancement(c, d, first, el, tiles, l))
  {
    DecideEnhancementInv(c, d, first, el, tiles, l);
    var e := DecideEnhancement(c, d, first, el, tiles, l);
    assert e.ver == d.ver && e.elDone == d.elDone && e.bl == d.bl && e.iter == d.iter;
  }

  lemma ReadsKept(c: Config, buf: int, seen: int, used: int, d: Down, mask: seq<bool>, est: real)
    requires DownInv(c, d) && Kept(d) && d.phase.Deciding? && |mask| == c.noTile && InArrays(c, buf, seen, used, d)
    ensures d.iter < 2 * c.noSeg
    ensures var e := DecideReads(c, buf, seen, used, d, mask, est); Kept(e) && e.ver == d.ver
  {
    IterInRange(c, d);
    var first := d.phase.first;
    if Wants(c, buf, d) {
      DecideBaseKept(c, d, first);
    } else if seen != c.noSeg - 1 && !d.elDone[used + 1] {
      var tiles := Visible(mask);
      VisibleSorted(mask);
      DecideTilesKept(c, d, first, used + 1, tiles, Pick(c.enhaBr, c.baseBr, |tiles|, est));
    }
  }

  /** Which versions a closing stream writes. */
  lemma CloseWrites(c: Config, d: Down, k: int)
    requires DownInv(c, d) && d.phase.Loading? && k in d.ids.open
    ensures d.iter < 2 * c.noSeg && k in d.ids.target && Accounted(c, d, d.ids.target[k])
    ensures var x, f := d.ids.target[k], Close(c, d, k);
            && |f.ver| == |d.ver|
            && forall s, t :: 0 <= s < |d.ver| && 0 <= t < |d.ver[s]| ==>
                                |f.ver[s]| == |d.ver[s]| &&
                                f.ver[s][t] == if s == x.seg && (if x.face == 0 then t < c.noTile else t == x.face)
                                               then d.tileVersion[d.iter] else d.ver[s][t]
  {
    CloseInv(c, d, k);
  }

  lemma CloseBaseKept(c: Config, d: Down, k: int)
    requires DownInv(c, d) && Kept(d) && d.phase.Loading? && k in d.ids.open && !Tiled(d)
    ensures d.iter < 2 * c.noSeg && k in d.ids.target && Accounted(c, d, d.ids.target[k])
    ensures Kept(Close(c, d, k)) && (Clean(c, d) ==> Grown(d, Close(c, d, k)))
    ensures Close(c, d, k).phase == Ending(Chunk(d.bl, 0))
  {
    CloseWrites(c, d, k);
    assert |d.ids.open| == 1;
    assert Close(c, d, k).phase == Ending(Chunk(d.bl, 0));
  }

  lemma CloseTileKept(c: Config, d: Down, k: int)
    requires DownInv(c, d) && Kept(d) && d.phase.Loading? && k in d.ids.open && Tiled(d)
    ensures d.iter < 2 * c.noSeg && k in d.ids.target && Accounted(c, d, d.ids.target[k])
    ensures Kept(Close(c, d, k)) && Grown(d, Close(c, d, k))
  {
    CloseWrites(c, d, k);
    CloseInv(c, d, k);
    var x, f := d.ids.target[k], Close(c, d, k);
    assert TilesBusy(d) && TilesBusy(f);
    assert d.ver[d.el][x.face] <= 0;
    forall j | j in f.ids.open
      ensures d.ids.target[j].face != x.face
    {
      assert d.ids.target[j].seg == d.el == x.seg;
    }
  }

  lemma FinishKept(c: Config, d: Down)
    requires DownInv(c, d) && Kept(d) && d.phase.Ending?
    ensures d.phase.chunk.face > 0 ==> 0 <= d.phase.chunk.seg < |d.elDone|
    ensures Kept(Finish(c, d)) && Finish(c, d).ver == d.ver
  {
    FinishInv(c, d);
  }

  lemma RedecideKept(c: Config, d: Down, s: int, mask: seq<bool>, room: real)
    requires DownInv(c, d) && d.phase.Loading? && s in d.ids.open && s in d.ids.target && d.ids.target[s].face > 0
    requires |mask| == c.noTile && d.iter < 2 * c.noSeg && !d.redecided[d.iter] && c.sd >= 0
    requires Kept(d)
    ensures Kept(Redecide(c, d, s, mask, room)) && Redecide(c, d, s, mask, room).ver == d.ver
  {
    var f := Redecide(c, d, s, mask, room);
    var add := RedecideAdds(c, d, s, mask, room);
    TilesAddedInv(c, d, f, add);
    forall k | NewId(d.ids, |add|, k)
      ensures f.ids.target[k].face in add
    {
    }
    assert forall x :: x in d.tileList[d.iter] ==> x in f.tileList[f.iter];
  }

  /** Every event keeps the versions in order, and lowers none of them unless a base chunk overwrites a tile. */
  lemma StepKept(c: Config, s: State, e: Event, origin: int)
    requires Inv(c, s, origin) && Kept(s.d) && Enabled(c, s, e)
    ensures Safe(c, s, e) && Kept(Next(c, s, e).d) && (Clean(c, s.d) ==> Grown(s.d, Next(c, s, e).d))
  {
    StepInv(c, s, e, origin);
    match e {
      case Poll =>
      case Begin =>
      case Decision(mask, est) => ReadsKept(c, s.p.buf, s.p.playing, s.p.playing, s.d, mask, est);
      case StreamClose(k) => if Tiled(s.d) { CloseTileKept(c, s.d, k); } else { CloseBaseKept(c, s.d, k); }
      case IterationEnd => FinishKept(c, s.d);
      case DataFrame(k, mask, room) => RedecideKept(c, s.d, k, mask, room);
    }
  }

  lemma KeptOver(c: Config, s: State, e: Event, t: State, origin: int)
    requires Inv(c, s, origin) && Steps(c, s, e, t) && Kept(s.d)
    ensures Kept(t.d) && (Clean(c, s.d) ==> Grown(s.d, t.d))
  {
    StepInv(c, s, e, origin);
    StepKept(c, s, e, origin);
  }

  /** In every reachable state the versions are in order; a step from a clean one lowers none. */
  lemma {:induction false} RunKept(c: Config, states: seq<State>, events: seq<Event>, origin: int, i: nat)
    requires Run(c, states, events, origin) && i < |states|
    ensures Kept(states[i].d)
    ensures i + 1 < |states| && Clean(c, states[i].d) ==> Grown(states[i].d, states[i + 1].d)
  {
    if i > 0 {
      RunKept(c, states, events, origin, i - 1);
      assert Inv(c, states[i - 1], origin) by { RunInv(c, states, events, origin, i - 1); }
      KeptOver(c, states[i - 1], events[i - 1], states[i], origin);
    }
    if i + 1 < |states| {
      assert Inv(c, states[i], origin) by { RunInv(c, states, events, origin, i); }
      KeptOver(c, states[i], events[i], states[i + 1], origin);
    }
  }

  /** All states of the run are clean. */
  ghost predicate AllClean(c: Config, states: seq<State>)
  {
    forall i :: 0 <= i < |states| ==> Clean(c, states[i].d)
  }

  lemma GrownTwice(d: Down, e: Down, f: Down)
    requires Grown(d, e) && Grown(e, f)
    ensures Grown(d, f)
  {
    forall s | 0 <= s < |d.ver|
      ensures RowGrown(d.ver[s], f.ver[s])
    {
      assert RowGrown(d.ver[s], e.ver[s]) && RowGrown(e.ver[s], f.ver[s]);
    }
  }

  lemma {:induction false} CleanGrows(c: Config, states: seq<State>, events: seq<Event>, origin: int, i: nat, j: nat)
    requires Run(c, states, events, origin) && AllClean(c, states) && i <= j < |states|
    ensures Grown(states[i].d, states[j].d)
    decreases j - i
  {
    if i < j {
      RunKept(c, states, events, origin, i);
      CleanGrows(c, states, events, origin, i + 1, j);
      GrownTwice(states[i].d, states[i + 1].d, states[j].d);
    }
  }

  // ---------- with the threshold, tiles wait for the base layer ----------

  /** The base layer of segment s has arrived. */
  predicate BaseArrived(d: Down, s: int)
  {
    s < d.bl || (s == d.bl && d.phase.Ending? && d.phase.chunk.face == 0)
  }

  /** No tile of a segment is recorded before its base layer, except for the last segment, whose base layer
      is never requested. */
  predicate Untouched(c: Config, d: Down)
  {
    forall s, t :: 0 <= s < |d.ver| && 0 <= t < |d.ver[s]| && s <= c.noSeg - 2 && !BaseArrived(d, s) ==>
                     d.ver[s][t] == -1
  }

  predicate BaseFirst(c: Config, d: Down)
  {
    TilesBusy(d) && d.el <= c.noSeg - 2 ==> d.el < d.bl
  }

  /** The tiles of the last segment come last. */
  predicate LastSegment(c: Config, p: Player, d: Down)
  {
    && |d.elDone| == c.noSeg && c.noSeg >= 1
    && (d.terminated ==> d.elDone[c.noSeg - 1] && !d.phase.Loading? && !d.phase.Ending?)
    && (d.elDone[c.noSeg - 1] || (TilesBusy(d) && d.el == c.noSeg - 1) ==>
          d.bl == c.noSeg - 1 && p.playing >= c.noSeg - 2)
  }

  predicate Ordered(c: Config, p: Player, d: Down)
  {
    Untouched(c, d) && BaseFirst(c, d) && LastSegment(c, p, d)
  }

  /** The threshold leaves more than one segment buffered before tiles are requested. */
  predicate Threshold(c: Config)
  {
    (c.thres - 1) * 1000 > c.sd
  }

  /** When the decision turns to tiles, the base layer of their segment has been received. */
  lemma TilesAfterBase(c: Config, s: State, origin: int)
    requires Inv(c, s, origin) && Threshold(c) && !WantsBase(c, s.p, s.d) && s.p.playing != c.noSeg - 1
    ensures s.p.playing + 1 <= c.noSeg - 2 ==> s.p.playing + 1 < s.d.bl
    ensures s.p.playing + 1 == c.noSeg - 1 ==> s.d.bl == c.noSeg - 1
  {
    InvInRange(c, s.p, s.d.bl, origin);
    var p := s.p;
    if p.mode == Playing {
      Quotient(p.played, c.sd);
    }
    if p.playing >= 0 {
      var k: nat := p.playing;
      assert Span(k + 1, c.sd) == Span(k, c.sd) + c.sd;
      if s.d.bl < k {
        SpanGap(s.d.bl, k, c.sd);
      }
    }
  }

  lemma PollOrdered(c: Config, s: State, origin: int)
    requires Inv(c, s, origin) && LastSegment(c, s.p, s.d) && InRange(c, s.p)
    ensures LastSegment(c, PlayerStep(c, s.p), s.d)
  {
    InvInRange(c, s.p, s.d.bl, origin);
    if s.p.pc == Decremented {
      AdvanceOne(c, s.p.played);
    }
  }

  /** The base layer of the segment a decision turns to has been received. */
  predicate Received(c: Config, used: int, d: Down)
  {
    && (used + 1 <= c.noSeg - 2 ==> used + 1 < d.bl)
    && (used + 1 == c.noSeg - 1 ==> d.bl == c.noSeg - 1)
  }

  /** A decision made on such readings keeps the order; p is the player before it and q the player after. */
  lemma DecidedOrdered(c: Config, p: Player, q: Player, d: Down, e: Down, wants: bool, used: int)
    requires Ordered(c, p, d) && d.phase.Deciding? && Decided(c, d, e, wants, used)
    requires wants ==> d.bl < c.noSeg - 1
    requires !wants ==> Received(c, used, d)
    requires p.playing <= used <= q.playing
    ensures Ordered(c, q, e)
  {
  }

  lemma DecisionOrdered(c: Config, s: State, mask: seq<bool>, est: real, origin: int)
    requires Inv(c, s, origin) && Ordered(c, s.p, s.d) && Threshold(c)
    requires Enabled(c, s, Decision(mask, est)) && Safe(c, s, Decision(mask, est))
    ensures Ordered(c, s.p, Next(c, s, Decision(mask, est)).d)
  {
    var p, d := s.p, s.d;
    var wants := WantsBase(c, p, d);
    assert !wants && p.playing != c.noSeg - 1 ==> Received(c, p.playing, d) by {
      if !wants && p.playing != c.noSeg - 1 {
        TilesAfterBase(c, s, origin);
      }
    }
    assert p.playing + 1 <= c.noSeg by { InvInRange(c, p, d.bl, origin); }
    ReadsDecided(c, p.buf, p.playing, p.playing, d, mask, est);
    DecidedOrdered(c, p, p, d, Decide(c, p, d, mask, est), wants, p.playing);
  }

  lemma CloseOrdered(c: Config, p: Player, d: Down, k: int)
    requires DownInv(c, d) && Ordered(c, p, d) && d.phase.Loading? && k in d.ids.open
    ensures d.iter < 2 * c.noSeg && k in d.ids.target && Accounted(c, d, d.ids.target[k])
    ensures Ordered(c, p, Close(c, d, k))
  {
    CloseWrites(c, d, k);
    CloseInv(c, d, k);
    var f := Close(c, d, k);
    assert !Tiled(d) ==> |d.ids.open| == 1 && f.phase == Ending(Chunk(d.bl, 0));
  }

  lemma EndOrdered(c: Config, s: State, origin: int)
    requires Inv(c, s, origin) && Ordered(c, s.p, s.d) && Enabled(c, s, IterationEnd) && Safe(c, s, IterationEnd)
    ensures Ordered(c, Next(c, s, IterationEnd).p, Next(c, s, IterationEnd).d)
  {
    FinishInv(c, s.d);
  }

  lemma StepOrdered(c: Config, s: State, e: Event, origin: int)
    requires Inv(c, s, origin) && Ordered(c, s.p, s.d) && Threshold(c) && Enabled(c, s, e)
    ensures Safe(c, s, e) && Ordered(c, Next(c, s, e).p, Next(c, s, e).d)
  {
    StepInv(c, s, e, origin);
    match e {
      case Poll => PollOrdered(c, s, origin);
      case Begin =>
      case Decision(mask, est) => DecisionOrdered(c, s, mask, est, origin);
      case StreamClose(k) => CloseOrdered(c, s.p, s.d, k);
      case IterationEnd => EndOrdered(c, s, origin);
      case DataFrame(k, mask, room) => var add := RedecideAdds(c, s.d, k, mask, room);
    }
  }

  /** With the threshold, in every reachable state tiles are loaded only for segments whose base layer has
      been received, or for the last one, and segments without a base layer are untouched. */
  lemma {:induction false} RunOrdered(c: Config, states: seq<State>, events: seq<Event>, origin: int, i: nat)
    requires Run(c, states, events, origin) && Threshold(c) && i < |states|
    ensures Ordered(c, states[i].p, states[i].d)
  {
    if i == 0 {
      assert Init(c, states[0], origin);
    } else {
      RunOrdered(c, states, events, origin, i - 1);
      RunInv(c, states, events, origin, i - 1);
      StepOrdered(c, states[i - 1], events[i - 1], origin);
    }
  }

  /** So no base chunk overwrites a tile. */
  lemma OrderedClean(c: Config, s: State, origin: int)
    requires Inv(c, s, origin) && Ordered(c, s.p, s.d)
    ensures Clean(c, s.d)
  {
  }

  lemma ThresholdClean(c: Config, states: seq<State>, events: seq<Event>, origin: int)
    requires Run(c, states, events, origin) && Threshold(c)
    ensures AllClean(c, states)
  {
    forall i | 0 <= i < |states|
      ensures Clean(c, states[i].d)
    {
      RunInv(c, states, events, origin, i);
      RunOrdered(c, states, events, origin, i);
      OrderedClean(c, states[i], origin);
    }
  }

  /** With the threshold, once the tiles of the last segment are in and the session is terminated, nothing
      more is requested. */
  lemma QuietAfterTermination(c: Config, states: seq<State>, events: seq<Event>, origin: int, i: nat)
    requires Run(c, states, events, origin) && Threshold(c) && i < |events| && states[i].d.terminated
    ensures states[i + 1].d.ids.next == states[i].d.ids.next
  {
    RunOrdered(c, states, events, origin, i);
    RunInv(c, states, events, origin, i);
    var s, d := states[i], states[i].d;
    InvInRange(c, s.p, d.bl, origin);
    assert Steps(c, states[i], events[i], states[i + 1]);
    if events[i].Decision? {
      assert d.bl == c.noSeg - 1;
      assert s.p.playing == c.noSeg - 1 || d.elDone[s.p.playing + 1];
    }
  }
}
