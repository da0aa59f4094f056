/** Whole runs of player and downloader: what holds in every reachable state, and what a run never undoes. */
module StreamingRuns {
  import opened Playout
  import opened Downloader
  import opened Streaming

  /** One step of a run; a step outside the arrays could lead anywhere. */
  ghost predicate Steps(c: Config, s: State, e: Event, t: State)
  {
    Enabled(c, s, e) && (Safe(c, s, e) ==> t == Next(c, s, e))
  }

  ghost predicate Run(c: Config, states: seq<State>, events: seq<Event>, origin: int)
  {
    && |states| == |events| + 1 && Init(c, states[0], origin)
    && forall i :: 0 <= i < |events| ==> Steps(c, states[i], events[i], states[i + 1])
  }

  /** Every reachable state satisfies the invariant, and no step of a run leaves an array. */
  lemma {:induction false} RunInv(c: Config, states: seq<State>, events: seq<Event>, origin: int, i: nat)
    requires Run(c, states, events, origin) && i < |states|
    ensures Inv(c, states[i], origin)
    ensures i < |events| ==> Safe(c, states[i], events[i]) && states[i + 1] == Next(c, states[i], events[i])
  {
    if i == 0 {
      InitInv(c, states[0], origin);
    } else {
      RunInv(c, states, events, origin, i - 1);
      StepInv(c, states[i - 1], events[i - 1], origin);
    }
    if i < |events| {
      assert Steps(c, states[i], events[i], states[i + 1]);
      StepInv(c, states[i], events[i], origin);
    }
  }

  /** Any event that can happen extends a run. */
  lemma Extend(c: Config, states: seq<State>, events: seq<Event>, origin: int, e: Event) returns (t: State)
    requires Run(c, states, events, origin) && Enabled(c, states[|events|], e)
    ensures Safe(c, states[|events|], e) && t == Next(c, states[|events|], e)
    ensures Run(c, states + [t], events + [e], origin)
  {
    RunInv(c, states, events, origin, |events|);
    StepInv(c, states[|events|], e, origin);
    t := Next(c, states[|events|], e);
    var ss, es := states + [t], events + [e];
    forall i | 0 <= i < |es|
      ensures Steps(c, ss[i], es[i], ss[i + 1])
    {
      if i < |events| {
        assert Steps(c, states[i], events[i], states[i + 1]);
      }
    }
  }

  /** In every reachable state: received time is buffered, played or in flight; the buffer is not negative;
      waiting and stalling happen at segment boundaries only; the player stays inside the video. */
  lemma PlayoutGuarantees(c: Config, states: seq<State>, events: seq<Event>, origin: int, i: nat)
    requires Run(c, states, events, origin) && i < |states|
    ensures var p, d := states[i].p, states[i].d;
            && p.buf >= 0
            && p.buf + p.played + (if p.pc == Decremented then INTER else 0) == d.bl * c.sd
            && (p.mode != Playing ==> exists k: nat :: p.played == k * c.sd)
            && p.played <= d.bl * c.sd < c.VideoLen() && p.playing < c.noSeg && p.pc != Exited
  {
    RunInv(c, states, events, origin, i);
    var p, d := states[i].p, states[i].d;
    InvInRange(c, p, d.bl, origin);
    SpanIsProduct(d.bl, c.sd);
    SpanGap(d.bl, c.noSeg, c.sd);
    SpanIsProduct(c.noSeg, c.sd);
    if p.mode == Initial {
      assert p.played == 0 * c.sd;
    } else if p.mode == Stalled {
      SpanIsProduct(p.playing, c.sd);
    }
  }

  /** At every loop head in playback the deadline of each segment still to come is the start time plus its
      offset plus all stall time so far; every poll is one of wait, play or stall, except the one that starts
      playback, whose interval is the last summand. */
  lemma ScheduleGuarantee(c: Config, states: seq<State>, events: seq<Event>, origin: int, i: nat, k: nat)
    requires Run(c, states, events, origin) && i < |states|
    requires states[i].p.mode == Playing && states[i].p.pc == Head && states[i].p.playing <= k < c.noSeg
    ensures var p := states[i].p;
            && k < |p.deadline|
            && p.deadline[k] == p.start + k * c.sd + Sum(p.stall)
            && p.clock - origin == p.waited + p.played + Sum(p.stall) + INTER
  {
    RunInv(c, states, events, origin, i);
    SpanIsProduct(k, c.sd);
  }

  /** In every reachable state the next predicted id is the id the session will assign, streams and chunks
      determine each other, and the open streams of an iteration are its unfinished requests. */
  lemma ProtocolGuarantees(c: Config, states: seq<State>, events: seq<Event>, origin: int, i: nat)
    requires Run(c, states, events, origin) && i < |states|
    ensures var d := states[i].d;
            && (!d.phase.Idle? ==> d.ids.cur + 2 == d.ids.next && d.ids.cur + 2 !in d.ids.target)
            && OneToOne(d.ids)
            && (d.phase.Loading? ==> |d.ids.open| == d.req - d.fin > 0)
            && (!d.phase.Loading? ==> d.ids.open == {})
            && d.bl <= c.noSeg - 1 && d.iter == d.bl + Count(d.elDone) < 2 * c.noSeg
  {
    RunInv(c, states, events, origin, i);
    IterInRange(c, states[i].d);
  }

  // ---------- the re-decision happens once ----------

  /** While iteration `iter` lasts, its re-decision stays spent. */
  predicate Spent(d: Down, iter: nat)
  {
    d.iter > iter
    || (d.iter == iter && (d.phase.Loading? || d.phase.Ending?) && iter < |d.redecided| && d.redecided[iter])
  }

  lemma SpentStep(c: Config, s: State, e: Event, origin: int, iter: nat)
    requires Inv(c, s, origin) && Enabled(c, s, e) && Safe(c, s, e)
    requires Spent(s.d, iter) || (e.DataFrame? && s.d.iter == iter)
    ensures Spent(Next(c, s, e).d, iter)
  {
    if e.DataFrame? {
      var add := RedecideAdds(c, s.d, e.stream, e.mask, e.room);
    }
  }

  lemma SpentOver(c: Config, s: State, e: Event, t: State, origin: int, iter: nat)
    requires Inv(c, s, origin) && Steps(c, s, e, t)
    requires Spent(s.d, iter) || (e.DataFrame? && s.d.iter == iter)
    ensures Spent(t.d, iter)
  {
    StepInv(c, s, e, origin);
    SpentStep(c, s, e, origin, iter);
  }

  lemma {:induction false} SpentFrom(c: Config, states: seq<State>, events: seq<Event>, origin: int, i: nat, j: nat)
    requires Run(c, states, events, origin) && i < j < |states| && events[i].DataFrame?
    ensures Spent(states[j].d, states[i].d.iter)
    decreases j
  {
    assert Inv(c, states[j - 1], origin) by { RunInv(c, states, events, origin, j - 1); }
    assert Steps(c, states[j - 1], events[j - 1], states[j]);
    if j - 1 > i {
      SpentFrom(c, states, events, origin, i, j - 1);
    }
    SpentOver(c, states[j - 1], events[j - 1], states[j], origin, states[i].d.iter);
  }

  /** Two re-decisions of a run belong to different iterations. */
  lemma RedecidesOnce(c: Config, states: seq<State>, events: seq<Event>, origin: int, i: nat, j: nat)
    requires Run(c, states, events, origin) && i < j < |events| && events[i].DataFrame? && events[j].DataFrame?
    ensures states[i].d.iter < states[j].d.iter
  {
    SpentFrom(c, states, events, origin, i, j);
    assert Steps(c, states[j], events[j], states[j + 1]);
  }

  // ---------- deadlines over a run ----------

  /** The deadlines have been set once. */
  predicate DeadlinesSet(p: Player)
  {
    p.mode != Initial && !(p.pc == Deadlines && p.playing == 0)
  }

  lemma DeadlineStep(c: Config, s: State, e: Event, origin: int, k: nat)
    requires Inv(c, s, origin) && Enabled(c, s, e) && Safe(c, s, e) && k < c.noSeg && DeadlinesSet(s.p)
    ensures DeadlinesSet(Next(c, s, e).p)
    ensures |s.p.deadline| == |Next(c, s, e).p.deadline| == c.noSeg
    ensures s.p.deadline[k] <= Next(c, s, e).p.deadline[k]
  {
    if e.Poll? {
      InvInRange(c, s.p, s.d.bl, origin);
      DeadlinesOnlyLater(c, s.p, s.d.bl, origin, k);
    }
  }

  /** Over any stretch of a run after playback has started, no deadline moves earlier. */
  lemma {:induction false} DeadlinesNeverEarlier(c: Config, states: seq<State>, events: seq<Event>, origin: int,
                                                 i: nat, j: nat, k: nat)
    requires Run(c, states, events, origin) && i <= j < |states| && k < c.noSeg && DeadlinesSet(states[i].p)
    ensures DeadlinesSet(states[j].p) && |states[i].p.deadline| == |states[j].p.deadline| == c.noSeg
    ensures states[i].p.deadline[k] <= states[j].p.deadline[k]
    decreases j - i
  {
    RunInv(c, states, events, origin, i);
    if i < j {
      assert Steps(c, states[i], events[i], states[i + 1]);
      DeadlineStep(c, states[i], events[i], origin, k);
      DeadlinesNeverEarlier(c, states, events, origin, i + 1, j, k);
    }
  }
}
