/** What a decision chooses, in terms of what it reads: which chunk or tiles, in which version, and what becomes of the
    version and of the flag for the re-decision while the iteration lasts. */
module StreamingChoices {
  import opened Playout
  import opened Downloader
  import opened Streaming
  import opened StreamingRuns
  import opened StreamingVersions

  // ---------- one decision ----------

  /** The base layer is behind the threshold, and not complete. */
  predicate BaseDue(c: Config, p: Player, d: Down)
  {
    d.bl < c.noSeg - 1 && p.buf < (c.thres - 1) * 1000
  }

  /** Else the tiles of the segment after the playing one are due, if they were not loaded yet, some are visible and
      some version of them fits the estimate. */
  predicate TilesDue(c: Config, p: Player, d: Down, mask: seq<bool>, est: real)
  {
    && !BaseDue(c, p, d) && p.playing != c.noSeg - 1
    && 0 <= p.playing + 1 < |d.elDone| && !d.elDone[p.playing + 1]
    && Seen(mask) != {} && Affords(c.enhaBr, c.baseBr, |Seen(mask)|, est)
  }

  /** Exactly one request is open, for the next base chunk. */
  ghost predicate AsksBase(d: Down, e: Down)
  {
    && e.phase == Loading && e.ids.open == {d.ids.next} && e.req == 1 && e.fin == 0
    && d.ids.next in e.ids.target && e.ids.target[d.ids.next] == Chunk(d.bl, 0)
    && d.iter < |e.tileList| && e.tileList[d.iter] == []
    && d.iter < |e.tileVersion| && e.tileVersion[d.iter] == 0
  }

  /** Each of these tiles of the segment is requested, in the highest version that fits. */
  ghost predicate AsksTiles(c: Config, d: Down, e: Down, seg: int, tiles: set<int>, est: real)
  {
    && e.phase == Loading && e.el == seg && e.req == |tiles| == |e.ids.open| && e.fin == 0
    && d.iter < |e.tileList| && (forall x :: x in e.tileList[d.iter] <==> x in tiles)
    && (forall x :: x in tiles ==> exists k :: k in e.ids.open && k in e.ids.target && e.ids.target[k] == Chunk(seg, x))
    && d.iter < |e.tileVersion| && Highest(c.enhaBr, c.baseBr, |tiles|, est, e.tileVersion[d.iter])
  }

  /** Nothing was requested. */
  predicate AsksNothing(d: Down, e: Down)
  {
    e.ids == d.ids && e.req == 0 && e.tileList == d.tileList && !e.phase.Loading?
  }

  lemma PickIsHighest(enhaBr: seq<nat>, base: nat, n: nat, limit: real)
    ensures Pick(enhaBr, base, n, limit) > 0 <==> Affords(enhaBr, base, n, limit)
    ensures Affords(enhaBr, base, n, limit) ==> Highest(enhaBr, base, n, limit, Pick(enhaBr, base, n, limit))
  {
  }

  lemma TilesAsked(c: Config, d: Down, seg: int, mask: seq<bool>, est: real)
    requires DownInv(c, d) && d.phase.Deciding? && |mask| == c.noTile && d.iter < 2 * c.noSeg
    requires 0 <= seg < c.noSeg && !d.elDone[seg]
    ensures var tiles := Visible(mask);
            var l := Pick(c.enhaBr, c.baseBr, |tiles|, est);
            var e := DecideEnhancement(c, d, d.phase.first, seg, tiles, l);
            if Seen(mask) != {} && Affords(c.enhaBr, c.baseBr, |Seen(mask)|, est)
            then AsksTiles(c, d, e, seg, Seen(mask), est) else AsksNothing(d, e) && e.phase.Deciding?
  {
    var tiles := Visible(mask);
    var l := Pick(c.enhaBr, c.baseBr, |tiles|, est);
    var e := DecideEnhancement(c, d, d.phase.first, seg, tiles, l);
    VisibleIsSeen(mask);
    PickIsHighest(c.enhaBr, c.baseBr, |tiles|, est);
    if l > 0 && tiles != [] {
      DecideTilesStarted(c, d, d.phase.first, seg, tiles, l);
      forall x | x in tiles
        ensures exists k :: k in e.ids.open && k in e.ids.target && e.ids.target[k] == Chunk(seg, x)
      {
        var k := IssuedFor(d.ids, e.ids, seg, tiles, x);
      }
    } else if l > 0 {
      assert d.tileList[d.iter] + tiles == [];
      assert d.tileList[d.iter := d.tileList[d.iter] + tiles] == d.tileList;
    }
  }

  /** Exactly when and what a decision requests: the next base chunk when that is due; else, when they are due, the
      visible tiles of the segment after the playing one, in the highest version that fits; and it returns for good
      exactly when no base chunk is due and the last segment plays. */
  lemma DecisionExactly(c: Config, p: Player, d: Down, mask: seq<bool>, est: real)
    requires DownInv(c, d) && d.phase.Deciding? && |mask| == c.noTile
    requires p.playing != c.noSeg - 1 ==> 0 <= p.playing + 1 < c.noSeg
    ensures d.iter < 2 * c.noSeg
    ensures var e := Decide(c, p, d, mask, est);
            && (if BaseDue(c, p, d) then AsksBase(d, e)
                else if TilesDue(c, p, d, mask, est) then AsksTiles(c, d, e, p.playing + 1, Seen(mask), est)
                else AsksNothing(d, e))
            && (e.phase.Stopped? <==> !BaseDue(c, p, d) && p.playing == c.noSeg - 1)
  {
    IterInRange(c, d);
    if BaseDue(c, p, d) {
      SendFacts(d.ids, Chunk(d.bl, 0));
    } else if p.playing != c.noSeg - 1 && !d.elDone[p.playing + 1] {
      TilesAsked(c, d, p.playing + 1, mask, est);
    }
  }

  // ---------- while the iteration lasts ----------

  /** No iteration ends from event i on before event j. */
  predicate Lasts(events: seq<Event>, i: nat, j: nat)
    requires j <= |events|
  {
    forall k :: i <= k < j ==> !events[k].IterationEnd?
  }

  /** Some iteration is running or being completed. */
  predicate Busy(d: Down)
  {
    d.phase.Loading? || d.phase.Ending?
  }

  /** What an iteration does not change while it lasts. */
  predicate Same(d: Down, f: Down)
  {
    && Busy(f) && f.iter == d.iter && f.tileVersion == d.tileVersion && f.el == d.el && f.bl == d.bl
    && (Tiled(f) <==> Tiled(d))
  }

  lemma BusyStep(c: Config, s: State, e: Event, origin: int)
    requires Inv(c, s, origin) && Enabled(c, s, e) && Busy(s.d) && !e.IterationEnd?
    ensures Safe(c, s, e)
    ensures var d, f := s.d, Next(c, s, e).d;
            && Same(d, f)
            && |f.redecided| == |d.redecided| == |d.tileVersion| == 2 * c.noSeg
            && (forall m :: 0 <= m < |d.redecided| && (m != d.iter || !e.DataFrame?) ==>
                              f.redecided[m] == d.redecided[m])
            && (e.DataFrame? && d.iter < |d.redecided| ==> f.redecided[d.iter])
  {
    InvSafe(c, s, e, origin);
  }

  /** While an iteration lasts its version and its segment stand. */
  lemma {:induction false} VersionStands(c: Config, states: seq<State>, events: seq<Event>, origin: int, i: nat, j: nat)
    requires Run(c, states, events, origin) && i <= j <= |events| && Busy(states[i].d) && Lasts(events, i, j)
    ensures Same(states[i].d, states[j].d)
    decreases j - i
  {
    if i < j {
      VersionStands(c, states, events, origin, i, j - 1);
      assert Inv(c, states[j - 1], origin) by { RunInv(c, states, events, origin, j - 1); }
      assert Steps(c, states[j - 1], events[j - 1], states[j]);
      BusyStep(c, states[j - 1], events[j - 1], origin);
    }
  }

  lemma ClosedAt(c: Config, s: State, k: int, t: State, origin: int)
    requires Inv(c, s, origin) && Steps(c, s, StreamClose(k), t)
    ensures k in s.d.ids.target && s.d.iter < |s.d.tileVersion|
    ensures var x, ver := s.d.ids.target[k], t.d.ver;
            && 0 <= x.seg < |ver| && 0 <= x.face < |ver[x.seg]| == c.noTile + 1
            && (if Tiled(s.d) then x.seg == s.d.el && x.face > 0 && ver[x.seg][x.face] == s.d.tileVersion[s.d.iter]
                else x == Chunk(s.d.bl, 0)
                     && forall t :: 0 <= t < c.noTile ==> ver[x.seg][t] == s.d.tileVersion[s.d.iter])
  {
    InvSafe(c, s, StreamClose(k), origin);
    CloseWrites(c, s.d, k);
  }

  /** The running iteration is as the decision made at p and d began it. */
  predicate Decided(c: Config, p: Player, d: Down, mask: seq<bool>, est: real, f: Down)
  {
    && f.iter < |f.tileVersion|
    && if BaseDue(c, p, d) then !Tiled(f) && f.bl == d.bl && f.tileVersion[f.iter] == 0
       else Tiled(f) && f.el == p.playing + 1 && Highest(c.enhaBr, c.baseBr, |Seen(mask)|, est, f.tileVersion[f.iter])
  }

  lemma DecidedAt(c: Config, s: State, mask: seq<bool>, est: real, t: State, origin: int)
    requires Inv(c, s, origin) && Steps(c, s, Decision(mask, est), t) && Busy(t.d)
    ensures Decided(c, s.p, s.d, mask, est, t.d)
  {
    InvSafe(c, s, Decision(mask, est), origin);
    DecisionExactly(c, s.p, s.d, mask, est);
    if !BaseDue(c, s.p, s.d) {
      assert Seen(mask) != {};
      var x :| x in Seen(mask);
      assert x in t.d.tileList[s.d.iter];
    }
  }

  /** The versions written for the chunk are those chosen at p and d. */
  predicate Written(c: Config, p: Player, d: Down, mask: seq<bool>, est: real, x: Chunk, ver: seq<seq<int>>)
  {
    && 0 <= x.seg < |ver| && 0 <= x.face < |ver[x.seg]| == c.noTile + 1
    && if BaseDue(c, p, d) then x == Chunk(d.bl, 0) && forall t :: 0 <= t < c.noTile ==> ver[x.seg][t] == 0
       else x.seg == p.playing + 1 && x.face > 0 && Highest(c.enhaBr, c.baseBr, |Seen(mask)|, est, ver[x.seg][x.face])
  }

  lemma ClosedDecided(c: Config, p: Player, d: Down, mask: seq<bool>, est: real, s: State, k: int, t: State,
                      origin: int)
    requires Inv(c, s, origin) && Steps(c, s, StreamClose(k), t) && Decided(c, p, d, mask, est, s.d)
    ensures k in s.d.ids.target && Written(c, p, d, mask, est, s.d.ids.target[k], t.d.ver)
  {
    ClosedAt(c, s, k, t, origin);
  }

  lemma DecidedStands(c: Config, states: seq<State>, events: seq<Event>, origin: int, i: nat, j: nat, mask: seq<bool>,
                      est: real)
    requires Run(c, states, events, origin) && i < j <= |events| && events[i] == Decision(mask, est)
    requires Busy(states[i + 1].d) && Lasts(events, i + 1, j)
    ensures Decided(c, states[i].p, states[i].d, mask, est, states[j].d)
  {
    assert Inv(c, states[i], origin) by { RunInv(c, states, events, origin, i); }
    DecidedAt(c, states[i], mask, est, states[i + 1], origin);
    VersionStands(c, states, events, origin, i + 1, j);
  }

  /** What a closing stream of the iteration records is what its decision chose: the base version for all tiles of the
      base chunk due then, or the highest version that fitted the estimate for a tile of the segment after the one
      that played then; whatever the player and a re-decision did in between. */
  lemma RecordsChosen(c: Config, states: seq<State>, events: seq<Event>, origin: int, i: nat, j: nat, mask: seq<bool>,
                      est: real, k: int)
    requires Run(c, states, events, origin) && i < j < |events| && events[i] == Decision(mask, est)
    requires Busy(states[i + 1].d) && Lasts(events, i + 1, j) && events[j] == StreamClose(k)
    ensures k in states[j].d.ids.target
    ensures Written(c, states[i].p, states[i].d, mask, est, states[j].d.ids.target[k], states[j + 1].d.ver)
  {
    DecidedStands(c, states, events, origin, i, j, mask, est);
    assert Inv(c, states[j], origin) by { RunInv(c, states, events, origin, j); }
    ClosedDecided(c, states[i].p, states[i].d, mask, est, states[j], k, states[j + 1], origin);
  }

  // ---------- the flag for the re-decision ----------

  /** The pass that would come at event i is the first of its iteration. */
  predicate FirstPass(events: seq<Event>, i: nat)
    requires i <= |events|
  {
    i > 0 && (events[i - 1].Begin? || events[i - 1].IterationEnd? || (events[i - 1].Poll? && FirstPass(events, i - 1)))
  }

  /** The phase knows whether the pass to come is the first one. */
  predicate Knows(d: Down, first: bool)
  {
    d.phase.Deciding? ==> (d.phase.first <==> first)
  }

  lemma KnowsOver(c: Config, s: State, e: Event, t: State, origin: int, first: bool)
    requires Inv(c, s, origin) && Steps(c, s, e, t) && Knows(s.d, first)
    ensures Knows(t.d, e.Begin? || e.IterationEnd? || (e.Poll? && first))
  {
    InvSafe(c, s, e, origin);
  }

  lemma {:induction false} FirstExactly(c: Config, states: seq<State>, events: seq<Event>, origin: int, i: nat)
    requires Run(c, states, events, origin) && i < |states|
    ensures Knows(states[i].d, FirstPass(events, i))
  {
    if i > 0 {
      FirstExactly(c, states, events, origin, i - 1);
      assert Inv(c, states[i - 1], origin) by { RunInv(c, states, events, origin, i - 1); }
      KnowsOver(c, states[i - 1], events[i - 1], states[i], origin, FirstPass(events, i - 1));
    }
  }

  /** The flags of the iterations to come are as they were allocated. */
  predicate Untouched(d: Down, was: seq<bool>)
  {
    && |was| == |d.redecided|
    && forall m :: 0 <= m < |was| && (m > d.iter || (m == d.iter && !Busy(d))) ==> d.redecided[m] == was[m]
  }

  lemma UntouchedDecision(c: Config, s: State, mask: seq<bool>, est: real, t: State, origin: int, was: seq<bool>)
    requires Inv(c, s, origin) && Steps(c, s, Decision(mask, est), t) && Untouched(s.d, was)
    ensures Untouched(t.d, was)
  {
    InvSafe(c, s, Decision(mask, est), origin);
  }

  lemma UntouchedStep(c: Config, s: State, e: Event, t: State, origin: int, was: seq<bool>)
    requires Inv(c, s, origin) && Steps(c, s, e, t) && Untouched(s.d, was)
    ensures Untouched(t.d, was)
  {
    if e.Decision? {
      UntouchedDecision(c, s, e.mask, e.est, t, origin, was);
    } else {
      InvSafe(c, s, e, origin);
    }
  }

  lemma {:induction false} FlagsUntouched(c: Config, states: seq<State>, events: seq<Event>, origin: int, i: nat)
    requires Run(c, states, events, origin) && i < |states|
    ensures Untouched(states[i].d, states[0].d.redecided)
  {
    if i > 0 {
      FlagsUntouched(c, states, events, origin, i - 1);
      assert Inv(c, states[i - 1], origin) by { RunInv(c, states, events, origin, i - 1); }
      UntouchedStep(c, states[i - 1], events[i - 1], states[i], origin, states[0].d.redecided);
    }
  }

  /** Between two events a re-decision was made. */
  predicate Reframed(events: seq<Event>, i: nat, j: nat)
    requires j <= |events|
  {
    exists k :: i <= k < j && events[k].DataFrame?
  }

  lemma FlagAtDecision(c: Config, s: State, e: Event, t: State, origin: int)
    requires Inv(c, s, origin) && Steps(c, s, e, t) && e.Decision? && Busy(t.d)
    ensures s.d.phase.Deciding? && t.d.iter == s.d.iter < |s.d.redecided| == |t.d.redecided|
    ensures t.d.redecided[t.d.iter] <==> !s.d.phase.first && s.d.redecided[s.d.iter]
  {
    InvSafe(c, s, e, origin);
  }

  /** The flag of the running iteration is set if a re-decision was made, or if it was allocated set and not reset. */
  predicate Flagged(d: Down, was: seq<bool>, first: bool, made: bool)
  {
    d.iter < |d.redecided| == |was| && (d.redecided[d.iter] <==> made || (!first && was[d.iter]))
  }

  /** In an iteration a re-decision is no longer possible exactly if one was made; or if the iteration was begun by a
      retry, which does not reset the flag, and the flag was allocated set. */
  lemma {:induction false} FlagExactly(c: Config, states: seq<State>, events: seq<Event>, origin: int, i: nat, j: nat)
    requires Run(c, states, events, origin) && i < j <= |events| && events[i].Decision? && Busy(states[i + 1].d)
    requires Lasts(events, i + 1, j)
    ensures Flagged(states[j].d, states[0].d.redecided, FirstPass(events, i), Reframed(events, i + 1, j))
    decreases j
  {
    if j == i + 1 {
      FlagAfterDecision(c, states, events, origin, i);
    } else {
      FlagExactly(c, states, events, origin, i, j - 1);
      assert Busy(states[j - 1].d) by { VersionStands(c, states, events, origin, i + 1, j - 1); }
      assert Inv(c, states[j - 1], origin) by { RunInv(c, states, events, origin, j - 1); }
      FlagOver(c, states[j - 1], events[j - 1], states[j], origin);
      ReframedNow(events, i + 1, j);
    }
  }

  lemma ReframedNow(events: seq<Event>, i: nat, j: nat)
    requires i < j <= |events|
    ensures Reframed(events, i, j) <==> Reframed(events, i, j - 1) || events[j - 1].DataFrame?
  {
  }

  lemma FlagAfterDecision(c: Config, states: seq<State>, events: seq<Event>, origin: int, i: nat)
    requires Run(c, states, events, origin) && i < |events| && events[i].Decision? && Busy(states[i + 1].d)
    ensures Flagged(states[i + 1].d, states[0].d.redecided, FirstPass(events, i), false)
  {
    assert Inv(c, states[i], origin) by { RunInv(c, states, events, origin, i); }
    FlagAtDecision(c, states[i], events[i], states[i + 1], origin);
    FirstExactly(c, states, events, origin, i);
    FlagsUntouched(c, states, events, origin, i);
  }

  lemma FlagOver(c: Config, s: State, e: Event, t: State, origin: int)
    requires Inv(c, s, origin) && Steps(c, s, e, t) && Busy(s.d) && !e.IterationEnd?
    ensures s.d.iter == t.d.iter < |s.d.redecided| == |t.d.redecided|
    ensures t.d.redecided[t.d.iter] <==> s.d.redecided[s.d.iter] || e.DataFrame?
  {
    BusyStep(c, s, e, origin);
    IterInRange(c, s.d);
  }
}
