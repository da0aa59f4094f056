/** The player thread of client/src/duc_metric.h as a sequence of atomic accesses. Times and buffer
    levels are whole milliseconds. */
module Playout {

  /** The polling interval of the player. */
  const INTER: int := 100

  /** `sd` is the segment duration, a whole number of seconds given in milliseconds; `thres` is the
      base-buffer threshold in seconds. */
  datatype Config = Config(noSeg: nat, sd: int, thres: int, noTile: nat, baseBr: nat, enhaBr: seq<nat>)
  {
    predicate Valid()
    {
      noSeg >= 1 && sd >= 1000 && sd % 1000 == 0
    }

    function VideoLen(): int
    {
      noSeg * sd
    }
  }

  /** The duration of `k` segments. */
  function Span(k: int, sd: int): int
    decreases k
  {
    if k <= 0 then 0 else Span(k - 1, sd) + sd
  }

  datatype Mode = Initial | Playing | Stalled

  /** The next atomic access of the player thread. */
  datatype Pc =
    | Head | Starting | Decremented | Advanced | Recording | Checking | Resuming | Deadlines | Sleeping | Exited

  /** The player's fields. `recorded` lists the segments whose quality was recorded, `start` is the time
      of the first segment, and `waited` the time spent in initial buffering; the last three are history. */
  datatype Player = Player(mode: Mode, pc: Pc, buf: int, played: int, playing: int, clock: int,
                           deadline: seq<int>, stall: seq<int>,
                           recorded: seq<int>, start: int, waited: int)

  /** The per-segment arrays are indexed in range by the next access. */
  predicate InRange(c: Config, p: Player)
  {
    && c.Valid() && |p.deadline| == c.noSeg && |p.stall| == c.noSeg
    && (p.pc in {Recording, Resuming, Deadlines} || (p.pc == Head && p.mode == Stalled) ==> 0 <= p.playing < c.noSeg)
  }

  /** Deadlines of the segments from `k` on, `sd` apart, the first one now. */
  function SetDeadlines(d: seq<int>, k: int, now: int, sd: int): (r: seq<int>)
    requires 0 <= k < |d|
    ensures |r| == |d|
    ensures forall i :: 0 <= i < k ==> r[i] == d[i]
    ensures forall i :: k <= i < |d| ==> r[i] == now + Span(i - k, sd)
  {
    seq(|d|, i requires 0 <= i < |d| => if i < k then d[i] else now + Span(i - k, sd))
  }

  /** One atomic access of the player thread. */
  function PlayerStep(c: Config, p: Player): Player
    requires InRange(c, p)
  {
    match p.pc
    case Head =>
      if p.played >= c.VideoLen() then p.(pc := Exited)
      else (
        match p.mode
        case Initial =>
          if p.buf == c.sd then p.(pc := Starting) else p.(pc := Sleeping, waited := p.waited + INTER)
        case Playing => p.(buf := p.buf - INTER, pc := Decremented)
        case Stalled =>
          var q := p.(stall := p.stall[p.playing := p.stall[p.playing] + INTER]);
          if p.buf == c.sd then q.(pc := Resuming) else q.(pc := Sleeping)
      )
    case Starting => p.(mode := Playing, playing := 0, recorded := p.recorded + [0], start := p.clock, pc := Deadlines)
    case Decremented => p.(played := p.played + INTER, playing := (p.played + INTER) / c.sd, pc := Advanced)
    case Advanced => if p.played == p.playing * c.sd && p.buf != 0 then p.(pc := Recording) else p.(pc := Checking)
    case Recording => p.(recorded := p.recorded + [p.playing], pc := Checking)
    case Checking => if p.buf == 0 then p.(mode := Stalled, pc := Sleeping) else p.(pc := Sleeping)
    case Resuming => p.(mode := Playing, recorded := p.recorded + [p.playing], pc := Deadlines)
    case Deadlines => p.(deadline := SetDeadlines(p.deadline, p.playing, p.clock, c.sd), pc := Sleeping)
    case Sleeping => p.(clock := p.clock + INTER, pc := Head)
    case Exited => p
  }

  /** The downloader's only access to the player's counters: one base chunk arrives. */
  function Receive(c: Config, p: Player): Player
  {
    p.(buf := p.buf + c.sd)
  }

  function Sum(s: seq<int>): int
  {
    if s == [] then 0 else Sum(s[..|s| - 1]) + s[|s| - 1]
  }

  lemma {:induction false} SumUpdate(s: seq<int>, k: nat, x: int)
    requires k < |s|
    ensures Sum(s[k := x]) == Sum(s) - s[k] + x
    decreases |s|
  {
    var n := |s| - 1;
    if k < n {
      SumUpdate(s[..n], k, x);
      assert s[k := x][..n] == s[..n][k := x];
    } else {
      assert s[k := x][..n] == s[..n];
    }
  }

  // ---------- what every access keeps ----------

  /** Buffered plus played time, plus the slot in flight between the two counter updates, is the
      duration of the chunks received so far. */
  predicate Conserved(c: Config, p: Player, chunks: nat)
  {
    p.buf + p.played + (if p.pc == Decremented then INTER else 0) == Span(chunks, c.sd)
  }

  predicate Grid(p: Player)
  {
    p.buf % INTER == 0 && p.played % INTER == 0 && p.buf >= 0 && p.played >= 0
  }

  /** How mode, access, buffer and position fit together. */
  predicate Positioned(c: Config, p: Player)
    requires c.Valid()
  {
    match p.mode
    case Initial =>
      p.played == 0 && p.playing == -1 && p.pc in {Head, Starting, Sleeping} && (p.pc == Starting ==> p.buf >= c.sd)
    case Playing =>
      && p.playing >= 0 && p.playing == p.played / c.sd
      && p.pc in {Head, Decremented, Advanced, Recording, Checking, Deadlines, Sleeping}
      && (p.pc in {Head, Recording, Deadlines, Sleeping} ==> p.buf >= INTER)
      && (p.pc in {Recording, Deadlines} ==> p.played == Span(p.playing, c.sd))
      && (p.pc in {Advanced, Recording, Checking} ==> p.played >= INTER)
    case Stalled =>
      && p.playing >= 1 && p.played == Span(p.playing, c.sd)
      && p.pc in {Head, Resuming, Sleeping} && (p.pc == Resuming ==> p.buf >= c.sd)
  }

  /** Each segment is recorded at most once, in order. */
  predicate Recorded(c: Config, p: Player)
  {
    && (forall i, j :: 0 <= i < j < |p.recorded| ==> p.recorded[i] < p.recorded[j])
    && (forall i :: 0 <= i < |p.recorded| ==> 0 <= p.recorded[i] <= p.playing)
    && (p.pc in {Recording, Resuming} || p.mode == Stalled
        || (p.pc == Advanced && p.played == Span(p.playing, c.sd)) ==>
          forall i :: 0 <= i < |p.recorded| ==> p.recorded[i] < p.playing)
    && (p.pc == Checking && p.played == Span(p.playing, c.sd) && p.playing in p.recorded ==> p.buf >= INTER)
  }

  /** Every poll is one of initial wait, play or stall, and the deadlines follow the clock. */
  predicate Timed(c: Config, p: Player, origin: int)
  {
    var unspent := if p.pc == Head || p.pc == Decremented then INTER else 0;
    && (forall i :: 0 <= i < |p.stall| ==> p.stall[i] >= 0)
    && match p.mode
       case Initial =>
         p.clock == origin + p.waited - (if p.pc == Sleeping then INTER else 0) && Sum(p.stall) == 0
       case Playing =>
         && p.start == origin + p.waited
         && p.clock == p.start + p.played + Sum(p.stall) + unspent
         && (p.pc != Deadlines ==> OnSchedule(c, p, p.start + Sum(p.stall)))
         && (p.pc == Deadlines && p.playing >= 1 ==> Postponed(c, p))
       case Stalled =>
         && p.start == origin + p.waited
         && p.clock == p.start + p.played + Sum(p.stall) + unspent
         && Postponed(c, p)
  }

  /** The deadlines are still those set before the current stall. */
  predicate Postponed(c: Config, p: Player)
  {
    && 0 <= p.playing < |p.deadline|
    && OnSchedule(c, p, p.deadline[p.playing] - Span(p.playing, c.sd))
    && p.deadline[p.playing] - Span(p.playing, c.sd) <= p.start + Sum(p.stall)
  }

  predicate OnSchedule(c: Config, p: Player, base: int)
  {
    forall i :: 0 <= i < |p.deadline| && p.playing <= i ==> p.deadline[i] == base + Span(i, c.sd)
  }

  predicate Placed(c: Config, p: Player, chunks: nat)
  {
    c.Valid() && chunks <= c.noSeg - 1 && Conserved(c, p, chunks) && Grid(p) && Positioned(c, p)
  }

  predicate PlayerInv(c: Config, p: Player, chunks: nat, origin: int)
  {
    |p.deadline| == c.noSeg && |p.stall| == c.noSeg && Placed(c, p, chunks) && Recorded(c, p) && Timed(c, p, origin)
  }

  /** The state before the first poll; the deadline array starts uninitialised. */
  predicate PlayerInit(c: Config, p: Player, origin: int)
  {
    && c.Valid() && |p.deadline| == c.noSeg && |p.stall| == c.noSeg
    && p.mode == Initial && p.pc == Head && p.buf == 0 && p.played == 0 && p.playing == -1
    && p.clock == origin && p.recorded == [] && p.waited == 0
    && forall i :: 0 <= i < |p.stall| ==> p.stall[i] == 0
  }

  lemma {:induction false} SumZero(s: seq<int>)
    requires forall i :: 0 <= i < |s| ==> s[i] == 0
    ensures Sum(s) == 0
    decreases |s|
  {
    if s != [] {
      SumZero(s[..|s| - 1]);
    }
  }

  lemma PlayerInitInv(c: Config, p: Player, origin: int)
    requires PlayerInit(c, p, origin)
    ensures PlayerInv(c, p, 0, origin)
  {
    SumZero(p.stall);
  }

  // ---------- arithmetic on segment boundaries ----------

  lemma {:induction false} SpanIsProduct(k: nat, sd: int)
    ensures Span(k, sd) == k * sd
  {
    if k > 0 {
      SpanIsProduct(k - 1, sd);
    }
  }

  lemma {:induction false} SpanAdd(j: nat, k: nat, sd: int)
    ensures Span(j + k, sd) == Span(j, sd) + Span(k, sd)
  {
    if k > 0 {
      SpanAdd(j, k - 1, sd);
    }
  }

  lemma {:induction false} SpanGap(j: nat, k: nat, sd: int)
    requires sd > 0 && j < k
    ensures Span(j, sd) + sd <= Span(k, sd)
  {
    if j < k - 1 {
      SpanGap(j, k - 1, sd);
    }
  }

  /** The segment playing at time x is the one whose slot contains x. */
  lemma Quotient(x: int, sd: int)
    requires sd > 0 && x >= 0
    ensures x / sd >= 0 && Span(x / sd, sd) <= x < Span(x / sd, sd) + sd
  {
    assert x == sd * (x / sd) + x % sd;
    SpanIsProduct(x / sd, sd);
  }

  lemma QuotientUnique(x: int, sd: int, q: nat)
    requires sd > 0 && Span(q, sd) <= x < Span(q, sd) + sd
    ensures x >= 0 && x / sd == q
  {
    SpanIsProduct(q, sd);
    assert x >= 0;
    Quotient(x, sd);
    if x / sd < q {
      SpanGap(x / sd, q, sd);
    } else if x / sd > q {
      SpanGap(q, x / sd, sd);
    }
  }

  /** The position never passes the last received chunk. */
  lemma PlayingBound(c: Config, p: Player, chunks: nat)
    requires c.Valid() && Conserved(c, p, chunks) && p.buf >= 0 && p.played >= 0 && chunks <= c.noSeg - 1
    ensures p.played / c.sd <= chunks
    ensures p.played < c.VideoLen()
  {
    Quotient(p.played, c.sd);
    if p.played / c.sd > chunks {
      SpanGap(chunks, p.played / c.sd, c.sd);
    }
    SpanGap(chunks, c.noSeg, c.sd);
    SpanIsProduct(c.noSeg, c.sd);
  }

  lemma PlacedBounds(c: Config, p: Player, chunks: nat)
    requires Placed(c, p, chunks)
    ensures p.pc != Exited && p.played < c.VideoLen() && p.playing <= chunks
  {
    PlayingBound(c, p, chunks);
    if p.mode == Stalled {
      QuotientUnique(p.played, c.sd, p.playing);
    }
  }

  lemma InvInRange(c: Config, p: Player, chunks: nat, origin: int)
    requires PlayerInv(c, p, chunks, origin)
    ensures InRange(c, p) && p.pc != Exited && p.played < c.VideoLen() && p.playing <= chunks
  {
    PlacedBounds(c, p, chunks);
  }

  lemma StepGrid(c: Config, p: Player, chunks: nat)
    requires Placed(c, p, chunks) && InRange(c, p)
    ensures Grid(PlayerStep(c, p)) && Conserved(c, PlayerStep(c, p), chunks)
  {
    PlacedBounds(c, p, chunks);
  }

  /** With an empty buffer the position is a segment boundary. */
  lemma EmptyOnBoundary(c: Config, p: Player, chunks: nat)
    requires c.Valid() && Conserved(c, p, chunks) && p.pc != Decremented && p.buf == 0
    ensures p.played / c.sd == chunks && p.played == Span(chunks, c.sd)
  {
    QuotientUnique(p.played, c.sd, chunks);
  }

  lemma StepPositioned(c: Config, p: Player, chunks: nat)
    requires Placed(c, p, chunks) && InRange(c, p)
    ensures Positioned(c, PlayerStep(c, p))
  {
    PlacedBounds(c, p, chunks);
    if p.pc == Checking && p.buf == 0 {
      EmptyOnBoundary(c, p, chunks);
      assert chunks >= 1;
    }
    if p.pc == Resuming {
      QuotientUnique(p.played, c.sd, p.playing);
    }
    if p.pc == Decremented {
      Quotient(p.played + INTER, c.sd);
    }
    if p.pc == Starting {
      QuotientUnique(p.played, c.sd, 0);
    }
    if p.pc == Advanced {
      SpanIsProduct(p.playing, c.sd);
    }
  }

  /** One step of play time stays in the segment or reaches the start of the next one. */
  lemma AdvanceOne(c: Config, played: int)
    requires c.Valid() && played >= 0
    ensures played / c.sd <= (played + INTER) / c.sd
    ensures played + INTER == Span((played + INTER) / c.sd, c.sd) ==> played / c.sd < (played + INTER) / c.sd
  {
    var j, k := played / c.sd, (played + INTER) / c.sd;
    Quotient(played, c.sd);
    Quotient(played + INTER, c.sd);
    if k < j {
      SpanGap(k, j, c.sd);
    }
  }

  lemma RecordedAtAdvance(c: Config, p: Player, chunks: nat)
    requires Placed(c, p, chunks) && Recorded(c, p) && InRange(c, p) && p.pc == Decremented
    ensures Recorded(c, PlayerStep(c, p))
  {
    AdvanceOne(c, p.played);
  }

  lemma RecordedAtCheck(c: Config, p: Player, chunks: nat)
    requires Placed(c, p, chunks) && Recorded(c, p) && InRange(c, p) && p.pc in {Advanced, Checking}
    ensures Recorded(c, PlayerStep(c, p))
  {
    if p.pc == Advanced {
      SpanIsProduct(p.playing, c.sd);
    } else if p.buf == 0 {
      EmptyOnBoundary(c, p, chunks);
    }
  }

  lemma RecordedElsewhere(c: Config, p: Player, chunks: nat)
    requires Placed(c, p, chunks) && Recorded(c, p) && InRange(c, p) && p.pc !in {Decremented, Advanced, Checking}
    ensures Recorded(c, PlayerStep(c, p))
  {
    PlacedBounds(c, p, chunks);
  }

  lemma TimedAtHead(c: Config, p: Player, chunks: nat, origin: int)
    requires Placed(c, p, chunks) && Timed(c, p, origin) && InRange(c, p) && p.pc == Head
    ensures Timed(c, PlayerStep(c, p), origin)
  {
    PlacedBounds(c, p, chunks);
    if p.mode == Stalled {
      SumUpdate(p.stall, p.playing, p.stall[p.playing] + INTER);
    }
  }

  lemma SetOnSchedule(c: Config, p: Player, base: int)
    requires 0 <= p.playing < |p.deadline| && p.clock == base + Span(p.playing, c.sd)
    ensures OnSchedule(c, p.(deadline := SetDeadlines(p.deadline, p.playing, p.clock, c.sd)), base)
  {
    forall i | p.playing <= i < |p.deadline|
      ensures p.clock + Span(i - p.playing, c.sd) == base + Span(i, c.sd)
    {
      SpanAdd(i - p.playing, p.playing, c.sd);
    }
  }

  lemma TimedOnceSet(c: Config, p: Player, origin: int)
    requires p.mode == Playing && p.pc == Deadlines && Timed(c, p, origin)
    requires 0 <= p.playing < |p.deadline| && p.played == Span(p.playing, c.sd)
    ensures Timed(c, p.(deadline := SetDeadlines(p.deadline, p.playing, p.clock, c.sd), pc := Sleeping), origin)
  {
    SetOnSchedule(c, p, p.start + Sum(p.stall));
  }

  lemma TimedAtDeadlines(c: Config, p: Player, chunks: nat, origin: int)
    requires Placed(c, p, chunks) && Timed(c, p, origin) && InRange(c, p) && p.pc == Deadlines
    ensures Timed(c, PlayerStep(c, p), origin)
  {
    TimedOnceSet(c, p, origin);
  }

  lemma TimedAtAdvance(c: Config, p: Player, chunks: nat, origin: int)
    requires Placed(c, p, chunks) && Timed(c, p, origin) && InRange(c, p) && p.pc == Decremented
    ensures Timed(c, PlayerStep(c, p), origin)
  {
    AdvanceOne(c, p.played);
  }

  lemma TimedAtCheck(c: Config, p: Player, chunks: nat, origin: int)
    requires Placed(c, p, chunks) && Timed(c, p, origin) && InRange(c, p) && p.pc == Checking
    ensures Timed(c, PlayerStep(c, p), origin)
  {
    PlacedBounds(c, p, chunks);
    if p.buf == 0 {
      EmptyOnBoundary(c, p, chunks);
    }
  }

  lemma TimedElsewhere(c: Config, p: Player, chunks: nat, origin: int)
    requires Placed(c, p, chunks) && Timed(c, p, origin) && InRange(c, p)
    requires p.pc !in {Head, Deadlines, Decremented, Checking}
    ensures Timed(c, PlayerStep(c, p), origin)
  {
    PlacedBounds(c, p, chunks);
  }

  lemma StepTimed(c: Config, p: Player, chunks: nat, origin: int)
    requires PlayerInv(c, p, chunks, origin) && InRange(c, p)
    ensures Timed(c, PlayerStep(c, p), origin)
  {
    match p.pc
    case Head => TimedAtHead(c, p, chunks, origin);
    case Deadlines => TimedAtDeadlines(c, p, chunks, origin);
    case Decremented => TimedAtAdvance(c, p, chunks, origin);
    case Checking => TimedAtCheck(c, p, chunks, origin);
    case _ => TimedElsewhere(c, p, chunks, origin);
  }

  /** Every access of the player keeps the invariant, indexes its arrays in range and never leaves
      the playback loop. */
  lemma PlayerStepInv(c: Config, p: Player, chunks: nat, origin: int)
    requires PlayerInv(c, p, chunks, origin)
    ensures InRange(c, p) && PlayerInv(c, PlayerStep(c, p), chunks, origin)
  {
    InvInRange(c, p, chunks, origin);
    StepGrid(c, p, chunks);
    StepPositioned(c, p, chunks);
    StepTimed(c, p, chunks, origin);
    match p.pc
    case Decremented => RecordedAtAdvance(c, p, chunks);
    case Advanced | Checking => RecordedAtCheck(c, p, chunks);
    case _ => RecordedElsewhere(c, p, chunks);
  }

  /** Once the deadlines are set, no access moves one earlier. */
  lemma DeadlinesOnlyLater(c: Config, p: Player, chunks: nat, origin: int, i: nat)
    requires PlayerInv(c, p, chunks, origin) && InRange(c, p) && i < c.noSeg
    requires p.mode != Initial && !(p.pc == Deadlines && p.playing == 0)
    ensures PlayerStep(c, p).deadline[i] >= p.deadline[i]
  {
    if p.pc == Deadlines && p.playing <= i {
      SpanAdd(i - p.playing, p.playing, c.sd);
    }
  }

  lemma GridSum(x: int, y: int)
    requires x % INTER == 0 && y % (10 * INTER) == 0
    ensures (x + y) % INTER == 0
  {
  }

  lemma ReceiveGrid(c: Config, p: Player, chunks: nat)
    requires c.Valid() && Conserved(c, p, chunks) && Grid(p)
    ensures Conserved(c, Receive(c, p), chunks + 1) && Grid(Receive(c, p))
  {
    GridSum(p.buf, c.sd);
  }

  lemma ReceivePositioned(c: Config, p: Player)
    requires c.Valid() && p.buf >= 0 && Positioned(c, p)
    ensures Positioned(c, Receive(c, p))
  {
  }

  lemma ReceiveRecorded(c: Config, p: Player)
    requires c.Valid() && Recorded(c, p)
    ensures Recorded(c, Receive(c, p))
  {
  }

  lemma ReceiveTimed(c: Config, p: Player, origin: int)
    requires Timed(c, p, origin)
    ensures Timed(c, Receive(c, p), origin)
  {
  }

  /** An arriving chunk keeps it too, wherever the player thread is. */
  lemma ReceiveInv(c: Config, p: Player, chunks: nat, origin: int)
    requires PlayerInv(c, p, chunks, origin) && chunks + 1 <= c.noSeg - 1
    ensures PlayerInv(c, Receive(c, p), chunks + 1, origin)
  {
    ReceiveGrid(c, p, chunks);
    ReceivePositioned(c, p);
    ReceiveRecorded(c, p);
    ReceiveTimed(c, p, origin);
  }
}
