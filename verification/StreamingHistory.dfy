/** What the state of a run tells of the events that led to it: every counter and flag of player and downloader is the
    count, or the occurrence, of events of one kind. */
module StreamingHistory {
  import opened Playout
  import opened Downloader
  import opened Streaming
  import opened StreamingRuns

  // ---------- the accesses of the player ----------

  /** Kinds of accesses: a poll that waits for the start, one that stalls in a segment, the one that counts a played
      slot, and the sleep that ends a poll. */
  datatype Access = Waits | Stalls(seg: int) | Plays | Sleeps

  predicate Is(c: Config, p: Player, a: Access)
  {
    match a
    case Waits => p.mode == Initial && p.pc == Head && p.buf != c.sd
    case Stalls(seg) => p.mode == Stalled && p.pc == Head && p.playing == seg
    case Plays => p.pc == Decremented
    case Sleeps => p.pc == Sleeping
  }

  /** How many of the first i events are accesses of the kind. */
  ghost function Times(c: Config, states: seq<State>, events: seq<Event>, i: nat, a: Access): nat
    requires i <= |events| <= |states|
  {
    if i == 0 then 0
    else Times(c, states, events, i - 1, a) + if events[i - 1].Poll? && Is(c, states[i - 1].p, a) then 1 else 0
  }

  /** One access moves each counter exactly if it is of its kind, and of the stall times only that of its segment. */
  lemma AccessCounts(c: Config, p: Player, chunks: nat, origin: int, k: nat)
    requires PlayerInv(c, p, chunks, origin) && k < c.noSeg
    ensures InRange(c, p)
    ensures var q := PlayerStep(c, p);
            && |q.stall| == |p.stall| == c.noSeg
            && q.stall[k] == p.stall[k] + (if Is(c, p, Stalls(k)) then INTER else 0)
            && q.waited == p.waited + (if Is(c, p, Waits) then INTER else 0)
            && q.played == p.played + (if Is(c, p, Plays) then INTER else 0)
            && q.clock == p.clock + (if Is(c, p, Sleeps) then INTER else 0)
  {
    InvInRange(c, p, chunks, origin);
  }

  /** The counters in terms of the accesses so far. */
  ghost predicate CountsUp(c: Config, states: seq<State>, events: seq<Event>, origin: int, i: nat, k: nat)
    requires i <= |events| && |events| + 1 == |states|
  {
    var p := states[i].p;
    && k < |p.stall| && p.stall[k] == INTER * Times(c, states, events, i, Stalls(k))
    && p.waited == INTER * Times(c, states, events, i, Waits)
    && p.played == INTER * Times(c, states, events, i, Plays)
    && p.clock == origin + INTER * Times(c, states, events, i, Sleeps)
  }

  lemma CountsUpFirst(c: Config, states: seq<State>, events: seq<Event>, origin: int, k: nat)
    requires |events| + 1 == |states| && Init(c, states[0], origin) && k < c.noSeg
    ensures CountsUp(c, states, events, origin, 0, k)
  {
  }

  lemma CountsUpStep(c: Config, states: seq<State>, events: seq<Event>, origin: int, i: nat, k: nat)
    requires i < |events| && |events| + 1 == |states| && CountsUp(c, states, events, origin, i, k) && k < c.noSeg
    requires Inv(c, states[i], origin) && Steps(c, states[i], events[i], states[i + 1])
    ensures CountsUp(c, states, events, origin, i + 1, k)
  {
    var s, t := states[i], states[i + 1];
    InvSafe(c, s, events[i], origin);
    if events[i].Poll? {
      AccessCounts(c, s.p, s.d.bl, origin, k);
    } else {
      assert t.p == s.p || t.p == Receive(c, s.p);
    }
  }

  /** In every reachable state the stall time of each segment is one interval for each poll that stalled in that
      segment, and likewise for the wait before the start, the play time and the clock. */
  lemma {:induction false} CountersCount(c: Config, states: seq<State>, events: seq<Event>, origin: int, i: nat, k: nat)
    requires Run(c, states, events, origin) && i < |states| && k < c.noSeg
    ensures CountsUp(c, states, events, origin, i, k)
  {
    if i == 0 {
      CountsUpFirst(c, states, events, origin, k);
    } else {
      CountersCount(c, states, events, origin, i - 1, k);
      assert Inv(c, states[i - 1], origin) by { RunInv(c, states, events, origin, i - 1); }
      CountsUpStep(c, states, events, origin, i - 1, k);
    }
  }

  // ---------- start, stall and resume ----------

  /** Playback stops and goes on exactly at these accesses: it stalls when the buffer is read empty at the end of a
      slot, and starts or resumes when, at the head of a poll, exactly one segment is read. */
  lemma ChangesExactly(c: Config, p: Player, chunks: nat, origin: int)
    requires PlayerInv(c, p, chunks, origin)
    ensures InRange(c, p)
    ensures var q := PlayerStep(c, p);
            && (p.mode == Playing ==> (q.mode == Stalled <==> p.pc == Checking && p.buf == 0) && q.mode != Initial)
            && (p.mode == Initial ==> (q.pc == Starting <==> p.pc == Head && p.buf == c.sd)
                                      && (q.mode == Playing <==> p.pc == Starting) && q.mode != Stalled)
            && (p.mode == Stalled ==> (q.pc == Resuming <==> p.pc == Head && p.buf == c.sd)
                                      && (q.mode == Playing <==> p.pc == Resuming) && q.mode != Initial)
  {
    InvInRange(c, p, chunks, origin);
  }

  /** The poll at which the player finds exactly one segment buffered before the start. */
  predicate FindsFirst(c: Config, s: State, e: Event)
  {
    e.Poll? && s.p.mode == Initial && s.p.pc == Head && s.p.buf == c.sd
  }

  /** Playback has started, or is about to, exactly if some poll found exactly one segment buffered. */
  lemma {:induction false} StartsExactly(c: Config, states: seq<State>, events: seq<Event>, origin: int, i: nat)
    requires Run(c, states, events, origin) && i < |states|
    ensures states[i].p.mode != Initial || states[i].p.pc == Starting
            <==> exists j :: 0 <= j < i && FindsFirst(c, states[j], events[j])
  {
    if i > 0 {
      StartsExactly(c, states, events, origin, i - 1);
      var s, e := states[i - 1], events[i - 1];
      RunInv(c, states, events, origin, i - 1);
      if e.Poll? {
        ChangesExactly(c, s.p, s.d.bl, origin);
      }
      if FindsFirst(c, s, e) {
        assert exists j :: 0 <= j < i && FindsFirst(c, states[j], events[j]);
      }
    }
  }

  // ---------- which segments are recorded ----------

  /** The player, at the start of the segment, first looks at the buffer and finds it empty. */
  predicate LooksEmpty(c: Config, s: State, e: Event, seg: int)
  {
    && e.Poll? && s.p.mode == Playing && s.p.pc == Advanced && s.p.playing == seg && s.p.played == Span(seg, c.sd)
    && s.p.buf == 0
  }

  /** There it looks again and finds it filled. */
  predicate LooksFull(c: Config, s: State, e: Event, seg: int)
  {
    && e.Poll? && s.p.mode == Playing && s.p.pc == Checking && s.p.playing == seg && s.p.played == Span(seg, c.sd)
    && s.p.buf > 0
  }

  ghost predicate WasEmpty(c: Config, states: seq<State>, events: seq<Event>, i: nat, seg: int)
    requires i <= |events| <= |states|
  {
    exists j :: 0 <= j < i && LooksEmpty(c, states[j], events[j], seg)
  }

  ghost predicate WasFull(c: Config, states: seq<State>, events: seq<Event>, i: nat, seg: int)
    requires i <= |events| <= |states|
  {
    exists j :: 0 <= j < i && LooksFull(c, states[j], events[j], seg)
  }

  /** The chunk of the segment arrived between the two looks, so that it plays unrecorded. */
  ghost predicate Missed(c: Config, states: seq<State>, events: seq<Event>, i: nat, seg: int)
    requires i <= |events| <= |states|
  {
    WasEmpty(c, states, events, i, seg) && WasFull(c, states, events, i, seg)
  }

  /** The player is past the point where it may record the segment. */
  predicate Past(c: Config, p: Player, seg: int)
  {
    || seg < p.playing
    || (seg == p.playing && p.mode == Playing
        && !(p.pc in {Advanced, Recording, Checking} && p.played == Span(p.playing, c.sd)))
  }

  /** What the record of a segment tells of the two looks. */
  predicate Tells(c: Config, p: Player, seg: int, empty: bool, full: bool)
  {
    if Past(c, p, seg) then seg in p.recorded <==> !(empty && full)
    else
      && !full
      && if seg == p.playing && p.mode == Playing && p.pc == Checking then seg in p.recorded <==> !empty
         else seg !in p.recorded && (empty ==> seg == p.playing && p.mode == Stalled)
  }

  lemma {:induction false} SpanGrid(k: nat, sd: int)
    requires sd % (10 * INTER) == 0
    ensures Span(k, sd) % INTER == 0
  {
    if k > 0 {
      SpanGrid(k - 1, sd);
      GridSum(Span(k - 1, sd), sd);
    }
  }

  /** Play time reaches a new segment at its start. */
  lemma NewAtBoundary(c: Config, x: int)
    requires c.Valid() && x >= 0 && x % INTER == 0
    ensures (x + INTER) / c.sd == x / c.sd || x + INTER == Span((x + INTER) / c.sd, c.sd)
  {
    AdvanceOne(c, x);
    Quotient(x, c.sd);
    Quotient(x + INTER, c.sd);
    if x / c.sd != (x + INTER) / c.sd {
      Reached(x, x / c.sd, (x + INTER) / c.sd, c.sd);
    }
  }

  lemma Reached(x: int, j: nat, k: nat, sd: int)
    requires sd > 0 && sd % (10 * INTER) == 0 && x % INTER == 0
    requires j < k && x < Span(j, sd) + sd && Span(k, sd) <= x + INTER
    ensures x + INTER == Span(k, sd)
  {
    SpanGap(j, k, sd);
    SpanGrid(k, sd);
  }

  lemma NoneSkipped(c: Config, x: int)
    requires c.Valid() && x >= 0
    ensures (x + INTER) / c.sd <= x / c.sd + 1
  {
    Quotient(x, c.sd);
    Quotient(x + INTER, c.sd);
    NextButOne(x, x / c.sd, (x + INTER) / c.sd, c.sd);
  }

  lemma NextButOne(x: int, j: nat, k: nat, sd: int)
    requires sd > INTER && x < Span(j, sd) + sd && Span(k, sd) <= x + INTER
    ensures k <= j + 1
  {
    if k > j + 1 {
      SpanGap(j + 1, k, sd);
    }
  }

  lemma TellsAdvanced(c: Config, p: Player, q: Player, seg: nat, empty: bool, full: bool)
    requires p.mode == Playing && p.pc == Decremented && Recorded(c, p) && Tells(c, p, seg, empty, full)
    requires q == p.(played := q.played, playing := q.playing, pc := Advanced)
    requires p.playing <= q.playing <= p.playing + 1
    requires q.playing == p.playing <==> q.played != Span(q.playing, c.sd)
    ensures Tells(c, q, seg, empty, full)
  {
  }

  lemma TellsAtAdvance(c: Config, p: Player, chunks: nat, seg: nat, empty: bool, full: bool)
    requires Placed(c, p, chunks) && Recorded(c, p) && InRange(c, p) && p.pc == Decremented
    requires Tells(c, p, seg, empty, full)
    ensures Tells(c, PlayerStep(c, p), seg, empty, full)
  {
    NewAtBoundary(c, p.played);
    AdvanceOne(c, p.played);
    NoneSkipped(c, p.played);
    TellsAdvanced(c, p, PlayerStep(c, p), seg, empty, full);
  }

  lemma TellsAtCheck(c: Config, p: Player, chunks: nat, seg: nat, empty: bool, full: bool)
    requires Placed(c, p, chunks) && Recorded(c, p) && InRange(c, p) && p.pc == Checking
    requires Tells(c, p, seg, empty, full)
    ensures var looks := p.mode == Playing && p.playing == seg && p.played == Span(seg, c.sd) && p.buf > 0;
            Tells(c, PlayerStep(c, p), seg, empty, full || looks)
  {
    if p.buf == 0 {
      EmptyOnBoundary(c, p, chunks);
    }
  }

  lemma TellsElsewhere(c: Config, p: Player, chunks: nat, seg: nat, empty: bool, full: bool)
    requires Placed(c, p, chunks) && Recorded(c, p) && InRange(c, p) && p.pc !in {Decremented, Checking}
    requires Tells(c, p, seg, empty, full)
    ensures var looks := p.mode == Playing && p.pc == Advanced && p.playing == seg && p.played == Span(seg, c.sd)
                         && p.buf == 0;
            Tells(c, PlayerStep(c, p), seg, empty || looks, full)
  {
    PlacedBounds(c, p, chunks);
    if p.pc == Advanced {
      SpanIsProduct(p.playing, c.sd);
    }
  }

  lemma TellsAccess(c: Config, s: State, origin: int, seg: nat, empty: bool, full: bool)
    requires PlayerInv(c, s.p, s.d.bl, origin) && InRange(c, s.p) && Tells(c, s.p, seg, empty, full)
    ensures Tells(c, PlayerStep(c, s.p), seg, empty || LooksEmpty(c, s, Poll, seg), full || LooksFull(c, s, Poll, seg))
  {
    match s.p.pc
    case Decremented => TellsAtAdvance(c, s.p, s.d.bl, seg, empty, full);
    case Checking => TellsAtCheck(c, s.p, s.d.bl, seg, empty, full);
    case _ => TellsElsewhere(c, s.p, s.d.bl, seg, empty, full);
  }

  lemma TellsStep(c: Config, s: State, e: Event, t: State, origin: int, seg: nat, empty: bool, full: bool)
    requires Inv(c, s, origin) && Steps(c, s, e, t) && Tells(c, s.p, seg, empty, full)
    ensures Tells(c, t.p, seg, empty || LooksEmpty(c, s, e, seg), full || LooksFull(c, s, e, seg))
  {
    InvSafe(c, s, e, origin);
    if e.Poll? {
      TellsAccess(c, s, origin, seg, empty, full);
    }
  }

  lemma {:induction false} RunTells(c: Config, states: seq<State>, events: seq<Event>, origin: int, i: nat, seg: nat)
    requires Run(c, states, events, origin) && i < |states|
    ensures Tells(c, states[i].p, seg, WasEmpty(c, states, events, i, seg), WasFull(c, states, events, i, seg))
  {
    if i > 0 {
      var s, e := states[i - 1], events[i - 1];
      RunTells(c, states, events, origin, i - 1, seg);
      assert Inv(c, s, origin) by { RunInv(c, states, events, origin, i - 1); }
      TellsStep(c, s, e, states[i], origin, seg, WasEmpty(c, states, events, i - 1, seg),
                WasFull(c, states, events, i - 1, seg));
      WasNow(c, states, events, i, seg);
    }
  }

  lemma WasNow(c: Config, states: seq<State>, events: seq<Event>, i: nat, seg: nat)
    requires 0 < i <= |events| <= |states|
    ensures WasEmpty(c, states, events, i, seg)
            <==> WasEmpty(c, states, events, i - 1, seg) || LooksEmpty(c, states[i - 1], events[i - 1], seg)
    ensures WasFull(c, states, events, i, seg)
            <==> WasFull(c, states, events, i - 1, seg) || LooksFull(c, states[i - 1], events[i - 1], seg)
  {
  }

  /** A segment that the player has come past is recorded exactly unless it was missed: the buffer was empty at its
      start when the player first looked, and filled when it looked again. */
  lemma RecordedExactly(c: Config, states: seq<State>, events: seq<Event>, origin: int, i: nat, seg: nat)
    requires Run(c, states, events, origin) && i < |states| && Past(c, states[i].p, seg)
    ensures seg in states[i].p.recorded <==> !Missed(c, states, events, i, seg)
  {
    RunTells(c, states, events, origin, i, seg);
  }

  // ---------- what the downloader has completed ----------

  /** The event ends the iteration for the tiles of the segment. */
  predicate EndsTiles(s: State, e: Event, seg: int)
  {
    e.IterationEnd? && s.d.phase.Ending? && s.d.phase.chunk.face > 0 && s.d.phase.chunk.seg == seg
  }

  lemma DoneKept(c: Config, s: State, e: Event, t: State, origin: int)
    requires Inv(c, s, origin) && Steps(c, s, e, t) && !e.IterationEnd?
    ensures t.d.elDone == s.d.elDone && t.d.terminated == s.d.terminated
  {
    InvSafe(c, s, e, origin);
  }

  lemma DoneAtEnd(c: Config, s: State, t: State, origin: int)
    requires Inv(c, s, origin) && Steps(c, s, IterationEnd, t)
    ensures s.d.phase.Ending? && 0 <= s.d.phase.chunk.seg < |s.d.elDone| == c.noSeg
    ensures var x := s.d.phase.chunk;
            && t.d.elDone == (if x.face > 0 then s.d.elDone[x.seg := true] else s.d.elDone)
            && (t.d.terminated <==> s.d.terminated || (x.face > 0 && x.seg == c.noSeg - 1))
  {
    InvSafe(c, s, IterationEnd, origin);
  }

  lemma DoneOver(c: Config, s: State, e: Event, t: State, origin: int, seg: nat)
    requires Inv(c, s, origin) && Steps(c, s, e, t) && seg < c.noSeg
    ensures |s.d.elDone| == |t.d.elDone| == c.noSeg
    ensures t.d.elDone[seg] <==> s.d.elDone[seg] || EndsTiles(s, e, seg)
    ensures t.d.terminated <==> s.d.terminated || EndsTiles(s, e, c.noSeg - 1)
  {
    if e.IterationEnd? {
      DoneAtEnd(c, s, t, origin);
    } else {
      DoneKept(c, s, e, t, origin);
    }
  }

  /** An iteration for the tiles of the segment has ended. */
  ghost predicate Ended(states: seq<State>, events: seq<Event>, i: nat, seg: int)
    requires i <= |events| <= |states|
  {
    exists j :: 0 <= j < i && EndsTiles(states[j], events[j], seg)
  }

  lemma EndedNow(states: seq<State>, events: seq<Event>, i: nat, seg: int)
    requires 0 < i <= |events| <= |states|
    ensures Ended(states, events, i, seg)
            <==> Ended(states, events, i - 1, seg) || EndsTiles(states[i - 1], events[i - 1], seg)
  {
  }

  /** The tiles of a segment are marked as loaded exactly if an iteration for them has ended; and the session has been
      terminated exactly if one for the last segment has. */
  lemma {:induction false} DoneExactly(c: Config, states: seq<State>, events: seq<Event>, origin: int, i: nat, seg: nat)
    requires Run(c, states, events, origin) && i < |states| && seg < c.noSeg
    ensures |states[i].d.elDone| == c.noSeg
    ensures states[i].d.elDone[seg] <==> Ended(states, events, i, seg)
    ensures states[i].d.terminated <==> Ended(states, events, i, c.noSeg - 1)
  {
    if i > 0 {
      DoneExactly(c, states, events, origin, i - 1, seg);
      assert Inv(c, states[i - 1], origin) by { RunInv(c, states, events, origin, i - 1); }
      DoneOver(c, states[i - 1], events[i - 1], states[i], origin, seg);
      EndedNow(states, events, i, seg);
      EndedNow(states, events, i, c.noSeg - 1);
    }
  }

  /** So the session is terminated in exactly the states in which the tiles of the last segment are in. */
  lemma TerminatedExactly(c: Config, states: seq<State>, events: seq<Event>, origin: int, i: nat)
    requires Run(c, states, events, origin) && i < |states|
    ensures c.noSeg >= 1 && |states[i].d.elDone| == c.noSeg
    ensures states[i].d.terminated <==> states[i].d.elDone[c.noSeg - 1]
  {
    assert c.noSeg >= 1 by { RunInv(c, states, events, origin, i); }
    DoneExactly(c, states, events, origin, i, c.noSeg - 1);
  }
}
