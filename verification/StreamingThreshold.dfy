/** Exactly when tiles wait for the base layer of their segment, and exactly when recorded tile versions only
    grow: for every configuration, over all runs. */
module StreamingThreshold {
  import opened Playout
  import opened Downloader
  import opened Streaming
  import opened StreamingRuns
  import opened StreamingVersions

  // ---------- what else keeps tiles and base chunks apart ----------

  /** No tiles were loaded, and none are being loaded. */
  predicate NoTiles(d: Down)
  {
    !TilesBusy(d) && forall s :: 0 <= s < |d.elDone| ==> !d.elDone[s]
  }

  /** Tiles are never loaded if there are none or no version of them, nor before the first base chunk if the
      threshold asks for one. */
  predicate TilesHeld(c: Config, d: Down)
  {
    c.noTile == 0 || c.enhaBr == [] || (c.thres >= 2 && c.noSeg >= 2 && d.bl == 0) ==> NoTiles(d)
  }

  /** A threshold of at most one second never asks for a base chunk. */
  predicate BaseHeld(c: Config, d: Down)
  {
    c.thres <= 1 ==> !BaseBusy(d)
  }

  /** No tile has number 0. */
  predicate NoTileZero(d: Down)
  {
    forall s :: 0 <= s < |d.ver| && |d.ver[s]| > 0 ==> d.ver[s][0] <= 0
  }

  predicate Apart(c: Config, d: Down)
  {
    TilesHeld(c, d) && BaseHeld(c, d) && NoTileZero(d)
  }

  lemma DecisionApart(c: Config, s: State, mask: seq<bool>, est: real, origin: int)
    requires Inv(c, s, origin) && Apart(c, s.d)
    requires Enabled(c, s, Decision(mask, est)) && Safe(c, s, Decision(mask, est))
    ensures Apart(c, Next(c, s, Decision(mask, est)).d)
  {
    var p, d := s.p, s.d;
    ReadsDecided(c, p.buf, p.playing, p.playing, d, mask, est);
    assert d.bl == 0 ==> p.buf == 0;
    DecidedApart(c, d, Decide(c, p, d, mask, est), p.buf, p.playing);
  }

  lemma DecidedApart(c: Config, d: Down, e: Down, buf: int, used: int)
    requires Apart(c, d) && d.phase.Deciding? && Decided(c, d, e, Wants(c, buf, d), used)
    requires buf >= 0 && (d.bl == 0 ==> buf == 0)
    ensures Apart(c, e)
  {
  }

  lemma CloseApart(c: Config, d: Down, k: int)
    requires DownInv(c, d) && Kept(d) && Apart(c, d) && d.phase.Loading? && k in d.ids.open
    ensures d.iter < 2 * c.noSeg && k in d.ids.target && Accounted(c, d, d.ids.target[k])
    ensures Apart(c, Close(c, d, k))
  {
    CloseWrites(c, d, k);
    CloseInv(c, d, k);
    if !Tiled(d) {
      CloseBaseKept(c, d, k);
    }
  }

  lemma FrameApart(c: Config, d: Down, k: int, mask: seq<bool>, room: real)
    requires DownInv(c, d) && Apart(c, d) && d.phase.Loading? && k in d.ids.open && k in d.ids.target
    requires d.ids.target[k].face > 0 && |mask| == c.noTile && d.iter < 2 * c.noSeg && !d.redecided[d.iter] && c.sd >= 0
    ensures Apart(c, Redecide(c, d, k, mask, room))
  {
    var add := RedecideAdds(c, d, k, mask, room);
  }

  lemma StepApart(c: Config, s: State, e: Event, origin: int)
    requires Inv(c, s, origin) && Kept(s.d) && Apart(c, s.d) && Enabled(c, s, e) && Safe(c, s, e)
    ensures Apart(c, Next(c, s, e).d)
  {
    match e {
      case Poll =>
      case Begin =>
      case Decision(mask, est) => DecisionApart(c, s, mask, est, origin);
      case StreamClose(k) => CloseApart(c, s.d, k);
      case IterationEnd => FinishInv(c, s.d);
      case DataFrame(k, mask, room) => FrameApart(c, s.d, k, mask, room);
    }
  }

  lemma ApartOver(c: Config, s: State, e: Event, t: State, origin: int)
    requires Inv(c, s, origin) && Kept(s.d) && Apart(c, s.d) && Steps(c, s, e, t)
    ensures Apart(c, t.d)
  {
    StepInv(c, s, e, origin);
    StepApart(c, s, e, origin);
  }

  lemma {:induction false} RunApart(c: Config, states: seq<State>, events: seq<Event>, origin: int, i: nat)
    requires Run(c, states, events, origin) && i < |states|
    ensures Apart(c, states[i].d)
  {
    if i == 0 {
      assert Init(c, states[0], origin);
    } else {
      RunApart(c, states, events, origin, i - 1);
      assert Inv(c, states[i - 1], origin) && Kept(states[i - 1].d) by {
        RunKept(c, states, events, origin, i - 1);
        RunInv(c, states, events, origin, i - 1);
      }
      ApartOver(c, states[i - 1], events[i - 1], states[i], origin);
    }
  }

  // ---------- when tiles wait for the base layer ----------

  /** Tiles are being loaded for a segment, not the last, whose base layer has not been received. */
  predicate Premature(c: Config, d: Down)
  {
    TilesBusy(d) && 0 <= d.el <= c.noSeg - 2 && d.bl <= d.el
  }

  /** The configurations in which tiles wait: there are no tiles to load, or a single segment; or the threshold
      exceeds a segment, or, with two segments, asks for the first base chunk at all. */
  predicate TilesWait(c: Config)
  {
    c.noTile == 0 || c.enhaBr == [] || c.noSeg <= 1 || Threshold(c) || (c.noSeg == 2 && c.thres >= 2)
  }

  lemma NeverPremature(c: Config, states: seq<State>, events: seq<Event>, origin: int, i: nat)
    requires TilesWait(c) && Run(c, states, events, origin) && i < |states|
    ensures !Premature(c, states[i].d)
  {
    RunApart(c, states, events, origin, i);
    if Threshold(c) {
      RunOrdered(c, states, events, origin, i);
    }
  }

  lemma {:induction false} AllVisible(mask: seq<bool>)
    requires |mask| > 0 && forall i :: 0 <= i < |mask| ==> mask[i]
    ensures Visible(mask) != []
  {
  }

  /** A decision with every tile visible and enough bandwidth for the first version. */
  lemma BigDecision(c: Config, p: Player, d: Down) returns (mask: seq<bool>, est: real)
    requires c.Valid() && Shaped(c, d) && d.phase.Deciding? && d.iter < 2 * c.noSeg && d.tileList[d.iter] == []
    requires c.noTile >= 1 && |c.enhaBr| >= 1 && !WantsBase(c, p, d)
    requires 0 <= p.playing + 1 < c.noSeg && !d.elDone[p.playing + 1]
    ensures |mask| == c.noTile
    ensures var e := Decide(c, p, d, mask, est);
            e.phase == Loading && Tiled(e) && e.el == p.playing + 1 && e.bl == d.bl
  {
    mask := seq(c.noTile, i => true);
    AllVisible(mask);
    var tiles := Visible(mask);
    est := (c.baseBr + c.enhaBr[0] * |tiles|) as real;
    var l := Pick(c.enhaBr, c.baseBr, |tiles|, est);
    assert l > 0;
  }

  function Fresh(c: Config): State
    requires c.Valid()
  {
    State(Player(Initial, Head, 0, 0, -1, 0, seq(c.noSeg, i => 0), seq(c.noSeg, i => 0), [], 0, 0),
          Down(Idle, 0, 0, 0, 0, 0, Ids(0, 15, map[], {}), seq(c.noSeg, i => false), seq(2 * c.noSeg, i => []),
               seq(2 * c.noSeg, i => 0), seq(2 * c.noSeg, i => false),
               seq(c.noSeg, i => seq(c.noTile + 1, t => -1)), false))
  }

  /** In every other configuration some run asks for tiles too early. */
  lemma PrematureRun(c: Config) returns (states: seq<State>, events: seq<Event>)
    requires c.Valid() && !TilesWait(c)
    ensures Run(c, states, events, 0) && Premature(c, states[|events|].d)
  {
    var s := Fresh(c);
    states, events := [s], [];
    var t := Extend(c, states, events, 0, Begin);
    states, events, s := states + [t], events + [Begin], t;
    if (c.thres - 1) * 1000 > 0 {
      states, events, s := FirstChunkPlays(c, states, events, s);
    }
    var mask, est := BigDecision(c, s.p, s.d);
    t := Extend(c, states, events, 0, Decision(mask, est));
    states, events := states + [t], events + [Decision(mask, est)];
  }

  /** One base chunk is loaded and starts playing. */
  lemma FirstChunkPlays(c: Config, before: seq<State>, was: seq<Event>, s0: State)
    returns (states: seq<State>, events: seq<Event>, s: State)
    requires c.Valid() && c.noSeg >= 2 && Run(c, before, was, 0) && before[|was|] == s0
    requires s0 == Fresh(c).(d := Start(Fresh(c).d)) && (c.thres - 1) * 1000 > 0
    ensures Run(c, states, events, 0) && states[|events|] == s
    ensures Shaped(c, s.d) && s.d.phase.Deciding? && s.d.iter == 1 && s.d.tileList[1] == [] && s.d.bl == 1
    ensures s.p.mode == Playing && s.p.playing == 0 && s.p.buf == c.sd && !s.d.elDone[1]
  {
    SpanGap(0, c.noSeg, c.sd);
    SpanIsProduct(c.noSeg, c.sd);
    states, events := before, was;
    var decision := Decision(seq(c.noTile, i => true), 0.0);
    var t := Extend(c, states, events, 0, decision);
    states, events := states + [t], events + [decision];
    assert t.d == DecideBase(s0.d, true);
    assert t.d.ids.open == {15} && t.d.ids.target == map[15 := Chunk(0, 0)];
    t := Extend(c, states, events, 0, StreamClose(15));
    states, events := states + [t], events + [StreamClose(15)];
    assert t.d.phase == Ending(Chunk(0, 0));
    t := Extend(c, states, events, 0, IterationEnd);
    states, events := states + [t], events + [IterationEnd];
    t := Extend(c, states, events, 0, Poll);
    states, events := states + [t], events + [Poll];
    t := Extend(c, states, events, 0, Poll);
    states, events, s := states + [t], events + [Poll], t;
  }

  /** Tiles wait for the base layer of their segment in all runs exactly in these configurations; with three
      or more segments and tiles to load, exactly when the threshold less one second exceeds a segment. */
  lemma ThresholdExact(c: Config)
    requires c.Valid()
    ensures TilesWait(c) <==>
            forall states: seq<State>, events: seq<Event>, origin: int, i: nat ::
              Run(c, states, events, origin) && i < |states| ==> !Premature(c, states[i].d)
  {
    if TilesWait(c) {
      forall states: seq<State>, events: seq<Event>, origin: int, i: nat
        | Run(c, states, events, origin) && i < |states|
        ensures !Premature(c, states[i].d)
      {
        NeverPremature(c, states, events, origin, i);
      }
    } else {
      var states, events := PrematureRun(c);
      assert Run(c, states, events, 0) && |events| < |states|;
    }
  }

  // ---------- when versions only grow ----------

  /** With the threshold, no recorded tile version goes down during a run. */
  lemma VersionsOnlyGrow(c: Config, states: seq<State>, events: seq<Event>, origin: int, i: nat, j: nat)
    requires Run(c, states, events, origin) && Threshold(c) && i <= j < |states|
    ensures Grown(states[i].d, states[j].d)
  {
    ThresholdClean(c, states, events, origin);
    CleanGrows(c, states, events, origin, i, j);
  }

  /** The configurations in which no base chunk can overwrite a tile: the threshold exceeds a segment, or never
      asks for a base chunk; or there are at most two segments, at most one tile, or no version of the tiles. */
  predicate NoOverwrite(c: Config)
  {
    Threshold(c) || c.thres <= 1 || c.noSeg <= 2 || c.noTile <= 1 || c.enhaBr == []
  }

  lemma ApartClean(c: Config, s: State, origin: int)
    requires Inv(c, s, origin) && Kept(s.d) && Apart(c, s.d)
    requires c.thres <= 1 || c.noSeg <= 2 || c.noTile <= 1 || c.enhaBr == []
    ensures Clean(c, s.d)
  {
  }

  lemma NeverFalls(c: Config, states: seq<State>, events: seq<Event>, origin: int, i: nat, j: nat)
    requires NoOverwrite(c) && Run(c, states, events, origin) && i <= j < |states|
    ensures Grown(states[i].d, states[j].d)
  {
    if Threshold(c) {
      ThresholdClean(c, states, events, origin);
    } else {
      forall n | 0 <= n < |states|
        ensures Clean(c, states[n].d)
      {
        RunInv(c, states, events, origin, n);
        RunKept(c, states, events, origin, n);
        RunApart(c, states, events, origin, n);
        ApartClean(c, states[n], origin);
      }
    }
    CleanGrows(c, states, events, origin, i, j);
  }

  lemma {:induction false} FirstVisible(mask: seq<bool>)
    requires |mask| > 0 && mask[0] && forall i :: 1 <= i < |mask| ==> !mask[i]
    ensures Visible(mask) == [1]
  {
    if |mask| > 1 {
      FirstVisible(mask[..|mask| - 1]);
    } else {
      assert Visible(mask[..0]) == [];
    }
  }

  /** A decision for one tile of segment 1. */
  lemma OneTile(c: Config, p: Player, d: Down) returns (mask: seq<bool>, est: real)
    requires c.Valid() && c.noSeg >= 3 && c.noTile >= 2 && |c.enhaBr| >= 1 && Shaped(c, d) && d.phase.Deciding?
    requires d.iter == 1 && d.tileList[1] == [] && p.playing == 0 && !d.elDone[1] && InStep(d.ids)
    requires !WantsBase(c, p, d)
    ensures |mask| == c.noTile
    ensures var e := Decide(c, p, d, mask, est);
            TilesStarted(d, e, 1, [1]) && |e.tileVersion| > 1 && e.tileVersion[1] >= 1
  {
    mask := seq(c.noTile, i => i == 0);
    FirstVisible(mask);
    est := (c.baseBr + c.enhaBr[0] * 1) as real;
    var l := Pick(c.enhaBr, c.baseBr, 1, est);
    assert l > 0;
    DecideTilesStarted(c, d, d.phase.first, 1, [1], l);
  }

  /** It is requested. */
  lemma RequestTile(c: Config, before: seq<State>, was: seq<Event>, s0: State)
    returns (states: seq<State>, events: seq<Event>, t: State)
    requires c.Valid() && Run(c, before, was, 0) && before[|was|] == s0
    requires c.noSeg >= 3 && c.noTile >= 2 && |c.enhaBr| >= 1 && Shaped(c, s0.d) && s0.d.phase.Deciding?
    requires s0.d.iter == 1 && s0.d.tileList[1] == [] && s0.d.bl == 1 && s0.p.playing == 0 && !s0.d.elDone[1]
    requires !WantsBase(c, s0.p, s0.d)
    ensures Run(c, states, events, 0) && states[|events|] == t
    ensures Inv(c, t, 0) && t.p == s0.p && t.d.phase == Loading && t.d.bl == 1 && t.d.req == 1 && t.d.fin == 0
    ensures var k := s0.d.ids.next;
            k in t.d.ids.open && k in t.d.ids.target && t.d.ids.target[k] == Chunk(1, 1)
    ensures t.d.iter == 1 && |t.d.tileVersion| > 1 && t.d.tileVersion[1] >= 1
  {
    assert Inv(c, s0, 0) by { RunInv(c, before, was, 0, |was|); }
    var mask, est := OneTile(c, s0.p, s0.d);
    t := Extend(c, before, was, 0, Decision(mask, est));
    states, events := before + [t], was + [Decision(mask, est)];
    RunInv(c, states, events, 0, |events|);
    assert NewId(s0.d.ids, 1, s0.d.ids.next);
  }

  /** It is loaded. */
  lemma LoadTile(c: Config, before: seq<State>, was: seq<Event>, s0: State)
    returns (states: seq<State>, events: seq<Event>, s: State)
    requires c.Valid() && Run(c, before, was, 0) && before[|was|] == s0
    requires c.noSeg >= 3 && c.noTile >= 2 && |c.enhaBr| >= 1 && Shaped(c, s0.d) && s0.d.phase.Deciding?
    requires s0.d.iter == 1 && s0.d.tileList[1] == [] && s0.d.bl == 1 && s0.p.playing == 0 && !s0.d.elDone[1]
    requires !WantsBase(c, s0.p, s0.d)
    ensures Run(c, states, events, 0) && states[|events|] == s
    ensures s.p == s0.p && Shaped(c, s.d) && s.d.phase.Deciding? && s.d.bl == 1 && s.d.ver[1][1] >= 1
  {
    var t;
    states, events, t := RequestTile(c, before, was, s0);
    var k := s0.d.ids.next;
    var close := StreamClose(k);
    var u := Extend(c, states, events, 0, close);
    states, events := states + [u], events + [close];
    CloseWrites(c, t.d, k);
    assert u.d.phase == Ending(Chunk(1, 1));
    s := Extend(c, states, events, 0, IterationEnd);
    states, events := states + [s], events + [IterationEnd];
  }

  function Rank(pc: Pc): nat
  {
    match pc
    case Decremented => 6
    case Advanced => 5
    case Recording => 4
    case Checking => 3
    case Deadlines => 2
    case Sleeping => 1
    case _ => 0
  }

  /** Playing on, the buffer falls below any positive limit. */
  lemma {:induction false} PlayDown(c: Config, before: seq<State>, was: seq<Event>, s0: State, limit: int)
    returns (states: seq<State>, events: seq<Event>, s: State)
    requires c.Valid() && Run(c, before, was, 0) && before[|was|] == s0 && s0.p.mode == Playing && limit > 0
    ensures Run(c, states, events, 0) && states[|events|] == s && before <= states
    ensures s.d == s0.d && s.p.buf < limit
    ensures if s0.p.buf < limit then s == s0 else s.p.mode == Playing && s.p.pc == Decremented
    decreases if s0.p.buf < 0 then 0 else s0.p.buf, Rank(s0.p.pc)
  {
    states, events, s := before, was, s0;
    if s0.p.buf >= limit {
      RunInv(c, before, was, 0, |was|);
      InvInRange(c, s0.p, s0.d.bl, 0);
      var t := Extend(c, before, was, 0, Poll);
      states, events, s := PlayDown(c, before + [t], was + [Poll], t, limit);
    }
  }

  /** A wanted base chunk is requested. */
  lemma RequestBase(c: Config, before: seq<State>, was: seq<Event>, s0: State)
    returns (states: seq<State>, events: seq<Event>, t: State)
    requires Run(c, before, was, 0) && before[|was|] == s0 && s0.d.phase.Deciding? && WantsBase(c, s0.p, s0.d)
    ensures Run(c, states, events, 0) && states[|events|] == t && before <= states
    ensures Inv(c, t, 0) && t.p == s0.p && t.d.phase == Loading && t.d.bl == s0.d.bl && t.d.req == 1 && t.d.fin == 0
    ensures var k := s0.d.ids.next;
            k in t.d.ids.open && k in t.d.ids.target && t.d.ids.target[k] == Chunk(s0.d.bl, 0)
    ensures t.d.iter < |t.d.tileVersion| && t.d.tileVersion[t.d.iter] == 0 && !Tiled(t.d)
  {
    var decision := Decision(seq(c.noTile, i => true), 0.0);
    RunInv(c, before, was, 0, |was|);
    t := Extend(c, before, was, 0, decision);
    states, events := before + [t], was + [decision];
    SendFacts(s0.d.ids, Chunk(s0.d.bl, 0));
    RunInv(c, states, events, 0, |events|);
  }

  /** The base chunk of segment 1 arrives and overwrites the tile. */
  lemma LoadBase(c: Config, before: seq<State>, was: seq<Event>, s0: State)
    returns (states: seq<State>, events: seq<Event>, s: State)
    requires c.Valid() && Run(c, before, was, 0) && before[|was|] == s0
    requires c.noSeg >= 3 && c.noTile >= 2 && s0.d.phase.Deciding? && s0.d.bl == 1
    requires WantsBase(c, s0.p, s0.d)
    ensures Run(c, states, events, 0) && states[|events|] == s && before <= states
    ensures Shaped(c, s.d) && s.d.ver[1][1] == 0
  {
    var t;
    states, events, t := RequestBase(c, before, was, s0);
    var k := s0.d.ids.next;
    s := Extend(c, states, events, 0, StreamClose(k));
    states, events := states + [s], events + [StreamClose(k)];
    CloseWrites(c, t.d, k);
  }

  /** In every other configuration some run lowers a version: a tile of segment 1 is loaded while the base chunk
      of segment 0 plays, and then overwritten by the base chunk of segment 1. */
  lemma FallingRun(c: Config) returns (states: seq<State>, events: seq<Event>, i: nat)
    requires c.Valid() && !NoOverwrite(c)
    ensures Run(c, states, events, 0) && i < |states| && !Grown(states[i].d, states[|events|].d)
  {
    var s := Fresh(c);
    states, events := [s], [];
    var t := Extend(c, states, events, 0, Begin);
    states, events, s := states + [t], events + [Begin], t;
    states, events, s := FirstChunkPlays(c, states, events, s);
    states, events, s := LoadTile(c, states, events, s);
    i := |events|;
    var loaded := s;
    states, events, s := PlayDown(c, states, events, s, (c.thres - 1) * 1000);
    states, events, s := LoadBase(c, states, events, s);
    assert states[i] == loaded;
    assert !RowGrown(loaded.d.ver[1], s.d.ver[1]);
  }

  /** Recorded versions only grow in all runs exactly in these configurations: the threshold exceeds a segment
      or never asks for a base chunk, unless the video is too small for a version to be overwritten. */
  lemma VersionsGrowExactly(c: Config)
    requires c.Valid()
    ensures NoOverwrite(c) <==>
            forall states: seq<State>, events: seq<Event>, origin: int, i: nat, j: nat ::
              Run(c, states, events, origin) && i <= j < |states| ==> Grown(states[i].d, states[j].d)
  {
    if NoOverwrite(c) {
      forall states: seq<State>, events: seq<Event>, origin: int, i: nat, j: nat
        | Run(c, states, events, origin) && i <= j < |states|
        ensures Grown(states[i].d, states[j].d)
      {
        NeverFalls(c, states, events, origin, i, j);
      }
    } else {
      var states, events, i := FallingRun(c);
      assert Run(c, states, events, 0) && i <= |events| < |states|;
    }
  }
}
