/** The deadline of every segment at every moment, in terms of the time stalled in each segment. */
module StreamingDeadlines {
  import opened Playout
  import opened Downloader
  import opened Streaming
  import opened StreamingRuns
  import opened StreamingHistory

  /** The player stands at the start of a segment in which it may still stall. */
  predicate AtStart(c: Config, p: Player)
  {
    p.mode == Playing && p.pc in {Advanced, Recording, Checking} && p.played == Span(p.playing, c.sd)
  }

  /** No time was stalled in the segments to come. */
  predicate Unstalled(c: Config, p: Player)
  {
    forall j :: 0 <= j < |p.stall| && (j > p.playing || (j == p.playing && AtStart(c, p))) ==> p.stall[j] == 0
  }

  /** The stall is not over, or the deadlines are about to be set after it. */
  predicate Halted(p: Player)
  {
    p.mode == Stalled || (p.pc == Deadlines && p.playing >= 1)
  }

  /** The deadline of segment k is the start plus its offset plus the time stalled in the first n segments. */
  predicate DueAfter(c: Config, p: Player, k: nat, n: nat)
  {
    k < |p.deadline| && n <= |p.stall| && p.deadline[k] == p.start + Span(k, c.sd) + Sum(p.stall[..n])
  }

  /** What the deadline of a segment shows, when it has begun and while playback is halted. */
  predicate Dated(c: Config, p: Player, k: nat)
  {
    && Unstalled(c, p) && (k < p.playing ==> DueAfter(c, p, k, k + 1))
    && (Halted(p) && 0 <= p.playing <= k ==> DueAfter(c, p, k, p.playing))
  }

  lemma {:induction false} SumOfFirst(s: seq<int>, n: nat)
    requires n <= |s| && forall j :: n <= j < |s| ==> s[j] == 0
    ensures Sum(s) == Sum(s[..n])
    decreases |s|
  {
    if n == |s| {
      assert s[..n] == s;
    } else {
      SumOfFirst(s[..|s| - 1], n);
      assert s[..|s| - 1][..n] == s[..n];
    }
  }

  /** The schedule of the running playback, with the stalls counted that were before. */
  lemma ScheduleDue(c: Config, p: Player, k: nat, n: nat)
    requires OnSchedule(c, p, p.start + Sum(p.stall)) && p.playing <= k < |p.deadline| && n <= |p.stall|
    requires forall j :: n <= j < |p.stall| ==> p.stall[j] == 0
    ensures DueAfter(c, p, k, n)
  {
    SumOfFirst(p.stall, n);
  }

  lemma DatedAtHead(c: Config, p: Player, k: nat)
    requires InRange(c, p) && p.pc == Head && Dated(c, p, k)
    ensures Dated(c, PlayerStep(c, p), k)
  {
    var q := PlayerStep(c, p);
    if p.mode == Stalled && p.played < c.VideoLen() {
      assert forall n :: 0 <= n <= p.playing ==> q.stall[..n] == p.stall[..n];
    }
  }

  lemma DatedAdvanced(c: Config, p: Player, q: Player, k: nat)
    requires p.mode == Playing && p.pc == Decremented && Dated(c, p, k) && k < |p.deadline| == |p.stall|
    requires OnSchedule(c, p, p.start + Sum(p.stall)) && 0 <= p.playing
    requires q == p.(played := q.played, playing := q.playing, pc := Advanced)
    requires p.playing <= q.playing <= p.playing + 1
    requires q.playing == p.playing <==> q.played != Span(q.playing, c.sd)
    ensures Dated(c, q, k)
  {
    if k == p.playing {
      ScheduleDue(c, p, k, k + 1);
    }
  }

  lemma DatedAtAdvance(c: Config, p: Player, chunks: nat, origin: int, k: nat)
    requires PlayerInv(c, p, chunks, origin) && InRange(c, p) && p.pc == Decremented && Dated(c, p, k) && k < c.noSeg
    ensures Dated(c, PlayerStep(c, p), k)
  {
    NewAtBoundary(c, p.played);
    AdvanceOne(c, p.played);
    NoneSkipped(c, p.played);
    DatedAdvanced(c, p, PlayerStep(c, p), k);
  }

  lemma DatedAtCheck(c: Config, p: Player, chunks: nat, origin: int, k: nat)
    requires PlayerInv(c, p, chunks, origin) && InRange(c, p) && p.pc == Checking && Dated(c, p, k) && k < c.noSeg
    ensures Dated(c, PlayerStep(c, p), k)
  {
    if p.buf == 0 {
      EmptyOnBoundary(c, p, chunks);
      PlacedBounds(c, p, chunks);
      if p.playing <= k {
        ScheduleDue(c, p, k, p.playing);
      }
    }
  }

  lemma DatedElsewhere(c: Config, p: Player, k: nat)
    requires InRange(c, p) && p.pc !in {Head, Decremented, Checking} && Dated(c, p, k)
    requires Positioned(c, p)
    ensures Dated(c, PlayerStep(c, p), k)
  {
  }

  lemma DatedAccess(c: Config, p: Player, chunks: nat, origin: int, k: nat)
    requires PlayerInv(c, p, chunks, origin) && InRange(c, p) && Dated(c, p, k) && k < c.noSeg
    ensures Dated(c, PlayerStep(c, p), k)
  {
    match p.pc
    case Head => DatedAtHead(c, p, k);
    case Decremented => DatedAtAdvance(c, p, chunks, origin, k);
    case Checking => DatedAtCheck(c, p, chunks, origin, k);
    case _ => DatedElsewhere(c, p, k);
  }

  lemma DatedOver(c: Config, s: State, e: Event, t: State, origin: int, k: nat)
    requires Inv(c, s, origin) && Steps(c, s, e, t) && Dated(c, s.p, k) && k < c.noSeg
    ensures Dated(c, t.p, k)
  {
    InvSafe(c, s, e, origin);
    if e.Poll? {
      DatedAccess(c, s.p, s.d.bl, origin, k);
    } else {
      assert t.p == s.p || t.p == Receive(c, s.p);
    }
  }

  lemma {:induction false} RunDated(c: Config, states: seq<State>, events: seq<Event>, origin: int, i: nat, k: nat)
    requires Run(c, states, events, origin) && i < |states| && k < c.noSeg
    ensures Dated(c, states[i].p, k)
  {
    if i > 0 {
      RunDated(c, states, events, origin, i - 1, k);
      assert Inv(c, states[i - 1], origin) by { RunInv(c, states, events, origin, i - 1); }
      DatedOver(c, states[i - 1], events[i - 1], states[i], origin, k);
    }
  }

  /** The stalls that count for the deadline of segment k: those in the segments up to k, except that a stall in
      progress does not count yet for the segments from the playing one on. */
  function Counting(p: Player, k: nat): int
  {
    if Halted(p) && p.playing <= k then p.playing else k + 1
  }

  lemma DatedDue(c: Config, p: Player, chunks: nat, origin: int, k: nat)
    requires PlayerInv(c, p, chunks, origin) && Dated(c, p, k) && k < c.noSeg && DeadlinesSet(p)
    ensures 0 <= Counting(p, k) <= c.noSeg && DueAfter(c, p, k, Counting(p, k))
  {
    PlacedBounds(c, p, chunks);
    if !Halted(p) && p.playing <= k {
      ScheduleDue(c, p, k, k + 1);
    }
  }

  /** In every reachable state with deadlines, that of each segment, whether played, playing or still to come, is the
      start of playback plus its offset plus the time stalled in the segments up to it. */
  lemma DeadlineExactly(c: Config, states: seq<State>, events: seq<Event>, origin: int, i: nat, k: nat)
    requires Run(c, states, events, origin) && i < |states| && k < c.noSeg && DeadlinesSet(states[i].p)
    ensures var p, n := states[i].p, Counting(states[i].p, k);
            && 0 <= n <= |p.stall| && k < |p.deadline|
            && p.deadline[k] == p.start + k * c.sd + Sum(p.stall[..n])
  {
    RunDated(c, states, events, origin, i, k);
    RunInv(c, states, events, origin, i);
    DatedDue(c, states[i].p, states[i].d.bl, origin, k);
    SpanIsProduct(k, c.sd);
  }
}
