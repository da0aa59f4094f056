/** Where playback falls short, and in exactly which configurations: a segment that plays without being recorded, and a
    player that waits for ever because more than one segment is buffered when it looks for exactly one. */
module StreamingLimits {
  import opened Playout
  import opened Downloader
  import opened Streaming
  import opened StreamingRuns
  import opened StreamingVersions
  import opened StreamingThreshold
  import opened StreamingReads
  import opened StreamingHistory

  // ---------- segments that play unrecorded ----------

  /** A configuration that never asks for a base chunk never receives one. */
  lemma {:induction false} NothingLoaded(c: Config, states: seq<State>, events: seq<Event>, origin: int, i: nat)
    requires Run(c, states, events, origin) && i < |states| && c.thres <= 1
    ensures states[i].d.bl == 0
  {
    if i > 0 {
      NothingLoaded(c, states, events, origin, i - 1);
      RunApart(c, states, events, origin, i - 1);
      assert Inv(c, states[i - 1], origin) by { RunInv(c, states, events, origin, i - 1); }
      NothingLoadedStep(c, states[i - 1], events[i - 1], states[i], origin);
    }
  }

  lemma NothingLoadedStep(c: Config, s: State, e: Event, t: State, origin: int)
    requires Inv(c, s, origin) && Steps(c, s, e, t) && s.d.bl == 0 && !BaseBusy(s.d)
    ensures t.d.bl == 0
  {
    InvSafe(c, s, e, origin);
    if e.Decision? {
      DecisionInv(c, s.p, s.d, e.mask, e.est);
    }
  }

  lemma NoMiss(c: Config, s: State, e: Event, seg: nat, origin: int)
    requires Inv(c, s, origin) && s.d.bl <= 1
    ensures !LooksFull(c, s, e, seg)
  {
    if seg > 1 {
      SpanGap(1, seg, c.sd);
    }
  }

  /** Reaching the start of segment 1 with an empty buffer and the next chunk under way. */
  lemma ReachStart(c: Config) returns (states: seq<State>, events: seq<Event>, s: State, k: int)
    requires c.Valid() && c.noSeg >= 3 && c.thres >= 2
    ensures Run(c, states, events, 0) && states[|events|] == s && Inv(c, s, 0)
    ensures s.p.mode == Playing && s.p.pc == Decremented && s.p.buf == 0 && s.d.bl == 1
    ensures s.d.phase == Loading && !Tiled(s.d) && s.d.req == 1 && s.d.fin == 0
    ensures k in s.d.ids.open && k in s.d.ids.target && s.d.ids.target[k] == Chunk(1, 0)
  {
    s := Fresh(c);
    states, events := [s], [];
    var t := Extend(c, states, events, 0, Begin);
    states, events, s := states + [t], events + [Begin], t;
    states, events, s := FirstChunkPlays(c, states, events, s);
    states, events, s := PlayDown(c, states, events, s, INTER);
    RunInv(c, states, events, 0, |events|);
    k := s.d.ids.next;
    states, events, s := RequestBase(c, states, events, s);
  }

  lemma AtStart(c: Config, p: Player, chunks: nat, origin: int)
    requires PlayerInv(c, p, chunks, origin) && p.mode == Playing && p.pc == Decremented && p.buf == 0 && chunks >= 1
    ensures InRange(c, p) && InRange(c, PlayerStep(c, p))
    ensures var q := PlayerStep(c, PlayerStep(c, p));
            && q.mode == Playing && q.pc == Checking && q.playing == chunks && q.played == Span(chunks, c.sd)
            && q.buf == 0
    ensures PlayerStep(c, p).mode == Playing && PlayerStep(c, p).pc == Advanced && PlayerStep(c, p).playing == chunks
    ensures PlayerStep(c, p).played == Span(chunks, c.sd) && PlayerStep(c, p).buf == 0
  {
    PlayerStepInv(c, p, chunks, origin);
    var q := PlayerStep(c, p);
    QuotientUnique(q.played, c.sd, chunks);
    InvInRange(c, q, chunks, origin);
  }

  /** In every configuration with three segments or more that asks for base chunks, some run misses segment 1: its chunk
      arrives between the two looks at the buffer. */
  lemma MissRun(c: Config) returns (states: seq<State>, events: seq<Event>)
    requires c.Valid() && c.noSeg >= 3 && c.thres >= 2
    ensures Run(c, states, events, 0) && Missed(c, states, events, |events|, 1)
  {
    var s, k;
    states, events, s, k := ReachStart(c);
    AtStart(c, s.p, s.d.bl, 0);
    var t := Extend(c, states, events, 0, Poll);
    states, events := states + [t], events + [Poll];
    var first := |events|;
    t := Extend(c, states, events, 0, Poll);
    states, events := states + [t], events + [Poll];
    t := Extend(c, states, events, 0, StreamClose(k));
    states, events := states + [t], events + [StreamClose(k)];
    t := Extend(c, states, events, 0, IterationEnd);
    states, events := states + [t], events + [IterationEnd];
    var second := |events|;
    t := Extend(c, states, events, 0, Poll);
    states, events := states + [t], events + [Poll];
    assert LooksEmpty(c, states[first], events[first], 1);
    assert LooksFull(c, states[second], events[second], 1);
  }

  /** A segment can be played unrecorded exactly in the configurations with three segments or more that ask for base
      chunks; so in all others every segment that the player has come past is recorded. */
  lemma MissedExactly(c: Config)
    requires c.Valid()
    ensures c.noSeg <= 2 || c.thres <= 1 <==>
            forall states: seq<State>, events: seq<Event>, origin: int, i: nat, seg: nat ::
              Run(c, states, events, origin) && i < |states| ==> !Missed(c, states, events, i, seg)
  {
    if c.noSeg <= 2 || c.thres <= 1 {
      forall states: seq<State>, events: seq<Event>, origin: int, i: nat, seg: nat
        | Run(c, states, events, origin) && i < |states|
        ensures !Missed(c, states, events, i, seg)
      {
        forall j | 0 <= j < i
          ensures !LooksFull(c, states[j], events[j], seg)
        {
          RunInv(c, states, events, origin, j);
          if c.thres <= 1 {
            NothingLoaded(c, states, events, origin, j);
          }
          NoMiss(c, states[j], events[j], seg, origin);
        }
      }
    } else {
      var states, events := MissRun(c);
      assert Run(c, states, events, 0) && |events| < |states|;
    }
  }

  // ---------- playback that never goes on ----------

  /** The player waits, with more than the one segment that it waits for. */
  predicate Overfull(c: Config, p: Player)
  {
    p.mode != Playing && p.pc in {Head, Sleeping} && p.buf > c.sd
  }

  /** It then waits for ever, whatever else happens. */
  lemma {:induction false} OverfullForever(c: Config, states: seq<State>, events: seq<Event>, origin: int, i: nat,
                                           j: nat)
    requires Run(c, states, events, origin) && i <= j < |states| && Overfull(c, states[i].p)
    ensures Overfull(c, states[j].p) && states[j].p.mode == states[i].p.mode && states[j].p.played == states[i].p.played
    decreases j - i
  {
    if i < j {
      OverfullForever(c, states, events, origin, i, j - 1);
      assert Inv(c, states[j - 1], origin) by { RunInv(c, states, events, origin, j - 1); }
      OverfullStep(c, states[j - 1], events[j - 1], states[j], origin);
    }
  }

  lemma OverfullStep(c: Config, s: State, e: Event, t: State, origin: int)
    requires Inv(c, s, origin) && Steps(c, s, e, t) && Overfull(c, s.p)
    ensures Overfull(c, t.p) && t.p.mode == s.p.mode && t.p.played == s.p.played
  {
    InvSafe(c, s, e, origin);
    InvInRange(c, s.p, s.d.bl, origin);
  }

  /** Outside playback at most one segment is buffered or under way. */
  predicate OneAtMost(c: Config, s: State)
  {
    s.p.mode != Playing ==> s.p.buf + (if BaseBusy(s.d) then c.sd else 0) <= c.sd
  }

  /** Outside playback the buffer holds whole segments. */
  lemma LessThanOne(c: Config, p: Player, chunks: nat, origin: int)
    requires PlayerInv(c, p, chunks, origin) && p.mode != Playing && p.buf < c.sd
    ensures p.buf == 0
  {
    var k: nat := if p.mode == Initial then 0 else p.playing;
    assert p.played == Span(k, c.sd);
    if chunks > k {
      SpanGap(k, chunks, c.sd);
    } else if chunks < k {
      SpanGap(chunks, k, c.sd);
    }
  }

  lemma OneAtMostDecided(c: Config, s: State, mask: seq<bool>, est: real, t: State, origin: int)
    requires Inv(c, s, origin) && Steps(c, s, Decision(mask, est), t) && OneAtMost(c, s) && !Threshold(c)
    ensures OneAtMost(c, t)
  {
    InvSafe(c, s, Decision(mask, est), origin);
    ReadsDecided(c, s.p.buf, s.p.playing, s.p.playing, s.d, mask, est);
    if s.p.mode != Playing && s.p.buf < c.sd {
      LessThanOne(c, s.p, s.d.bl, origin);
    }
  }

  lemma OneAtMostAccess(c: Config, s: State, origin: int)
    requires Inv(c, s, origin) && OneAtMost(c, s)
    ensures InRange(c, s.p) && OneAtMost(c, s.(p := PlayerStep(c, s.p)))
  {
    InvInRange(c, s.p, s.d.bl, origin);
  }

  lemma OneAtMostStep(c: Config, s: State, e: Event, t: State, origin: int)
    requires Inv(c, s, origin) && Steps(c, s, e, t) && OneAtMost(c, s) && !Threshold(c)
    ensures OneAtMost(c, t)
  {
    InvSafe(c, s, e, origin);
    match e
    case Poll => OneAtMostAccess(c, s, origin);
    case Begin =>
    case Decision(mask, est) => OneAtMostDecided(c, s, mask, est, t, origin);
    case StreamClose(k) => CloseInv(c, s.d, k);
    case IterationEnd => FinishInv(c, s.d);
    case DataFrame(k, mask, room) => var add := RedecideAdds(c, s.d, k, mask, room);
  }

  lemma {:induction false} RunOneAtMost(c: Config, states: seq<State>, events: seq<Event>, origin: int, i: nat)
    requires Run(c, states, events, origin) && i < |states| && !Threshold(c)
    ensures OneAtMost(c, states[i])
  {
    assert Init(c, states[0], origin);
    if i > 0 {
      RunOneAtMost(c, states, events, origin, i - 1);
      assert Inv(c, states[i - 1], origin) by { RunInv(c, states, events, origin, i - 1); }
      OneAtMostStep(c, states[i - 1], events[i - 1], states[i], origin);
    }
  }

  lemma NeverOverfull(c: Config, states: seq<State>, events: seq<Event>, origin: int, i: nat)
    requires Run(c, states, events, origin) && i < |states| && (c.noSeg <= 2 || !Threshold(c))
    ensures !Overfull(c, states[i].p)
  {
    RunInv(c, states, events, origin, i);
    if !Threshold(c) {
      RunOneAtMost(c, states, events, origin, i);
    }
  }

  /** With the threshold and three segments or more, two chunks can arrive before the first poll. */
  lemma OverfullRun(c: Config) returns (states: seq<State>, events: seq<Event>)
    requires c.Valid() && c.noSeg >= 3 && Threshold(c)
    ensures Run(c, states, events, 0) && Overfull(c, states[|events|].p)
  {
    var s := Fresh(c);
    states, events := [s], [];
    var t := Extend(c, states, events, 0, Begin);
    states, events, s := states + [t], events + [Begin], t;
    states, events, s := LoadChunk(c, states, events, s);
    states, events, s := LoadChunk(c, states, events, s);
  }

  /** A player that waits for ever with chunks to play can be reached exactly in the configurations in which the
      threshold exceeds a segment and there are three or more; so, but for small videos, exactly where tiles wait for
      their base layer. */
  lemma OverfullExactly(c: Config)
    requires c.Valid()
    ensures c.noSeg <= 2 || !Threshold(c) <==>
            forall states: seq<State>, events: seq<Event>, origin: int, i: nat ::
              Run(c, states, events, origin) && i < |states| ==> !Overfull(c, states[i].p)
  {
    if c.noSeg <= 2 || !Threshold(c) {
      forall states: seq<State>, events: seq<Event>, origin: int, i: nat
        | Run(c, states, events, origin) && i < |states|
        ensures !Overfull(c, states[i].p)
      {
        NeverOverfull(c, states, events, origin, i);
      }
    } else {
      var states, events := OverfullRun(c);
      assert Run(c, states, events, 0) && |events| < |states|;
    }
  }
}
