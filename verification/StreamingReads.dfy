/** The decision function reads the player three times, and the player may move on in between. This module lifts the
    assumption that a decision is one step, and shows where it matters. */
module StreamingReads {
  import opened Playout
  import opened Downloader
  import opened Streaming
  import opened StreamingRuns
  import opened StreamingVersions
  import opened StreamingThreshold

  /** The player after n more accesses. */
  function Polls(c: Config, p: Player, n: nat): Player
  {
    if n == 0 then p
    else
      var q := Polls(c, p, n - 1);
      if InRange(c, q) then PlayerStep(c, q) else q
  }

  lemma {:induction false} PollsInv(c: Config, p: Player, n: nat, chunks: nat, origin: int)
    requires PlayerInv(c, p, chunks, origin)
    ensures PlayerInv(c, Polls(c, p, n), chunks, origin)
  {
    if n > 0 {
      PollsInv(c, p, n - 1, chunks, origin);
      PlayerStepInv(c, Polls(c, p, n - 1), chunks, origin);
    }
  }

  lemma {:induction false} PollsFirst(c: Config, p: Player, n: nat)
    requires InRange(c, p)
    ensures Polls(c, p, n + 1) == Polls(c, PlayerStep(c, p), n)
  {
    if n == 0 {
      assert Polls(c, p, 0) == p;
    } else {
      PollsFirst(c, p, n - 1);
    }
  }

  /** What an access needs so as not to go back. */
  predicate Ahead(c: Config, p: Player)
  {
    && c.Valid() && p.played >= 0 && (p.pc == Starting ==> p.playing == -1)
    && (p.pc == Decremented ==> p.playing == p.played / c.sd)
  }

  lemma StepForward(c: Config, p: Player)
    requires Ahead(c, p) && InRange(c, p)
    ensures p.playing <= PlayerStep(c, p).playing && p.played <= PlayerStep(c, p).played
  {
    if p.pc == Decremented {
      AdvanceOne(c, p.played);
    }
  }

  lemma PollsAhead(c: Config, p: Player, n: nat, chunks: nat, origin: int)
    requires PlayerInv(c, p, chunks, origin)
    ensures Ahead(c, Polls(c, p, n))
  {
    PollsInv(c, p, n, chunks, origin);
  }

  lemma {:induction false} AheadForward(c: Config, p: Player, n: nat)
    requires forall m: nat :: m < n ==> Ahead(c, Polls(c, p, m))
    ensures p.playing <= Polls(c, p, n).playing && p.played <= Polls(c, p, n).played
  {
    if n > 0 {
      var q := Polls(c, p, n - 1);
      AheadForward(c, p, n - 1);
      if InRange(c, q) {
        StepForward(c, q);
      }
    }
  }

  /** Playing on, neither the position nor the playing segment goes back. */
  lemma PollsForward(c: Config, p: Player, n: nat, chunks: nat, origin: int)
    requires PlayerInv(c, p, chunks, origin)
    ensures p.playing <= Polls(c, p, n).playing && p.played <= Polls(c, p, n).played
  {
    forall m: nat | m < n
      ensures Ahead(c, Polls(c, p, m))
    {
      PollsAhead(c, p, m, chunks, origin);
    }
    AheadForward(c, p, n);
  }

  /** A decision during which the player makes a accesses before the first reading of its segment and b more before
      the second. It stays in the arrays exactly unless the player enters the last segment between these two; and
      then the invariant of player and downloader is kept, whatever the buffer did meanwhile. */
  lemma SpreadDecision(c: Config, s: State, mask: seq<bool>, est: real, a: nat, b: nat, origin: int)
    requires Inv(c, s, origin) && s.d.phase.Deciding? && |mask| == c.noTile
    ensures s.d.iter < 2 * c.noSeg
    ensures var p, q := Polls(c, s.p, a), Polls(c, Polls(c, s.p, a), b);
            && (InArrays(c, s.p.buf, p.playing, q.playing, s.d)
                <==> Wants(c, s.p.buf, s.d) || !(p.playing < c.noSeg - 1 == q.playing))
            && (InArrays(c, s.p.buf, p.playing, q.playing, s.d) ==>
                  Inv(c, State(q, DecideReads(c, s.p.buf, p.playing, q.playing, s.d, mask, est)), origin))
  {
    var p := Polls(c, s.p, a);
    PollsInv(c, s.p, a, s.d.bl, origin);
    var q := Polls(c, p, b);
    PollsInv(c, p, b, s.d.bl, origin);
    InvInRange(c, p, s.d.bl, origin);
    InvInRange(c, q, s.d.bl, origin);
    PlayingFrom(c, p, s.d.bl, origin);
    PlayingFrom(c, q, s.d.bl, origin);
    IterInRange(c, s.d);
    if InArrays(c, s.p.buf, p.playing, q.playing, s.d) {
      ReadsInv(c, s.p.buf, p.playing, q.playing, s.d, mask, est);
    }
  }

  lemma PlayingFrom(c: Config, p: Player, chunks: nat, origin: int)
    requires PlayerInv(c, p, chunks, origin)
    ensures -1 <= p.playing
  {
  }

  // ---------- when a decision may leave the arrays ----------

  /** The player is playing, or will start or resume with what is buffered. */
  predicate CanPlay(c: Config, p: Player)
  {
    p.mode == Playing || p.pc == Starting || p.pc == Resuming || p.buf == c.sd
  }

  /** A decision that begins now may find the player entering the last segment under its readings: it turns to
      tiles, all base chunks are in, and the player is still before the last segment but can go on. */
  predicate MayEnterLast(c: Config, s: State)
  {
    !Wants(c, s.p.buf, s.d) && s.d.bl == c.noSeg - 1 && s.p.playing < c.noSeg - 1 && CanPlay(c, s.p)
  }

  /** How far the access is from the next one that takes time from the buffer. */
  function Stage(p: Player): nat
  {
    if p.mode != Playing then
      match p.pc
      case Sleeping => 12
      case Head => 11
      case _ => 10
    else if p.pc == Deadlines then 7
    else Rank(p.pc)
  }

  lemma StepPlays(c: Config, p: Player, chunks: nat, origin: int)
    requires PlayerInv(c, p, chunks, origin) && CanPlay(c, p) && p.playing < chunks
    ensures InRange(c, p)
    ensures var q := PlayerStep(c, p);
            CanPlay(c, q) && 0 <= q.buf <= p.buf && (q.buf < p.buf || Stage(q) < Stage(p))
  {
    if p.pc == Checking && p.buf == 0 {
      QuotientUnique(p.played, c.sd, chunks);
    }
    InvInRange(c, p, chunks, origin);
  }

  lemma NextPlays(c: Config, p: Player, chunks: nat, origin: int)
    requires PlayerInv(c, p, chunks, origin) && InRange(c, p)
    ensures PlayerInv(c, PlayerStep(c, p), chunks, origin) && PlayerStep(c, p).playing <= chunks
  {
    PlayerStepInv(c, p, chunks, origin);
    InvInRange(c, PlayerStep(c, p), chunks, origin);
  }

  /** The next access, from which the remaining ones are counted. */
  lemma OneAccess(c: Config, p: Player, chunks: nat, origin: int) returns (q: Player)
    requires PlayerInv(c, p, chunks, origin) && CanPlay(c, p) && p.playing < chunks
    ensures PlayerInv(c, q, chunks, origin) && CanPlay(c, q) && q.playing <= chunks
    ensures 0 <= q.buf <= p.buf && (q.buf < p.buf || Stage(q) < Stage(p))
    ensures forall n: nat :: Polls(c, p, n + 1) == Polls(c, q, n)
  {
    StepPlays(c, p, chunks, origin);
    NextPlays(c, p, chunks, origin);
    q := PlayerStep(c, p);
    forall n: nat
      ensures Polls(c, p, n + 1) == Polls(c, q, n)
    {
      PollsFirst(c, p, n);
    }
  }

  /** With all its chunks received, a player that can go on reaches the segment after the last of them. */
  lemma {:induction false} ReachesLast(c: Config, p: Player, chunks: nat, origin: int) returns (n: nat)
    requires PlayerInv(c, p, chunks, origin) && CanPlay(c, p) && p.playing < chunks
    ensures Polls(c, p, n).playing == chunks
    decreases if p.buf < 0 then 0 else p.buf, Stage(p)
  {
    var q := OneAccess(c, p, chunks, origin);
    var m := 0;
    if q.playing == chunks {
      assert Polls(c, q, m) == q;
    } else {
      m := ReachesLast(c, q, chunks, origin);
    }
    n := m + 1;
  }

  /** The player waits, and no access of its own will change that. */
  predicate Waits(c: Config, p: Player)
  {
    p.mode != Playing && p.pc in {Head, Sleeping, Exited} && p.buf != c.sd
  }

  lemma {:induction false} PollsWait(c: Config, p: Player, n: nat)
    requires Waits(c, p)
    ensures Waits(c, Polls(c, p, n)) && Polls(c, p, n).playing == p.playing
  {
    if n > 0 {
      PollsWait(c, p, n - 1);
    }
  }

  lemma PollsStay(c: Config, p: Player, n: nat, chunks: nat, origin: int)
    requires PlayerInv(c, p, chunks, origin) && !CanPlay(c, p)
    ensures !CanPlay(c, Polls(c, p, n)) && Polls(c, p, n).playing == p.playing
  {
    PollsWait(c, p, n);
  }

  /** The decision stays in the arrays however its readings are spread. */
  ghost predicate AlwaysInArrays(c: Config, s: State)
  {
    forall a: nat, b: nat ::
      InArrays(c, s.p.buf, Polls(c, s.p, a).playing, Polls(c, Polls(c, s.p, a), b).playing, s.d)
  }

  lemma StaysInArrays(c: Config, s: State, a: nat, b: nat, origin: int)
    requires Inv(c, s, origin) && !MayEnterLast(c, s)
    ensures InArrays(c, s.p.buf, Polls(c, s.p, a).playing, Polls(c, Polls(c, s.p, a), b).playing, s.d)
  {
    var p := Polls(c, s.p, a);
    var q := Polls(c, p, b);
    PollsInv(c, s.p, a, s.d.bl, origin);
    PollsInv(c, p, b, s.d.bl, origin);
    InvInRange(c, p, s.d.bl, origin);
    InvInRange(c, q, s.d.bl, origin);
    PollsForward(c, s.p, a, s.d.bl, origin);
    PlayingFrom(c, q, s.d.bl, origin);
    if !CanPlay(c, s.p) {
      PollsStay(c, s.p, a, s.d.bl, origin);
      PollsStay(c, p, b, s.d.bl, origin);
      InvInRange(c, s.p, s.d.bl, origin);
    }
  }

  /** From the state in which a decision begins one can tell whether it is safe: it stays in the arrays for all
      spreads of its readings exactly unless the player may enter the last segment. */
  lemma SpreadExact(c: Config, s: State, origin: int)
    requires Inv(c, s, origin)
    ensures AlwaysInArrays(c, s) <==> !MayEnterLast(c, s)
  {
    if MayEnterLast(c, s) {
      var n := ReachesLast(c, s.p, s.d.bl, origin);
      assert Polls(c, s.p, 0) == s.p;
      assert !InArrays(c, s.p.buf, Polls(c, s.p, 0).playing, Polls(c, Polls(c, s.p, 0), n).playing, s.d);
    } else {
      forall a: nat, b: nat
        ensures InArrays(c, s.p.buf, Polls(c, s.p, a).playing, Polls(c, Polls(c, s.p, a), b).playing, s.d)
      {
        StaysInArrays(c, s, a, b, origin);
      }
    }
  }

  // ---------- runs with spread decisions ----------

  datatype Act = Plain(e: Event) | Spread(mask: seq<bool>, est: real, a: nat, b: nat)

  /** The player does not enter the last segment between the two readings of its segment. */
  predicate Settled(c: Config, s: State, x: Act)
  {
    x.Spread? ==>
      Wants(c, s.p.buf, s.d)
      || !(Polls(c, s.p, x.a).playing < c.noSeg - 1 == Polls(c, Polls(c, s.p, x.a), x.b).playing)
  }

  ghost predicate Acts(c: Config, s: State, x: Act, t: State)
  {
    match x
    case Plain(e) => Enabled(c, s, e) && (Safe(c, s, e) ==> t == Next(c, s, e))
    case Spread(mask, est, a, b) =>
      var p, q := Polls(c, s.p, a), Polls(c, Polls(c, s.p, a), b);
      && s.d.phase.Deciding? && |mask| == c.noTile
      && (Shaped(c, s.d) && s.d.iter < 2 * c.noSeg && InArrays(c, s.p.buf, p.playing, q.playing, s.d) ==>
            t == State(q, DecideReads(c, s.p.buf, p.playing, q.playing, s.d, mask, est)))
  }

  ghost predicate SpreadRun(c: Config, states: seq<State>, acts: seq<Act>, origin: int)
  {
    && |states| == |acts| + 1 && Init(c, states[0], origin)
    && forall i :: 0 <= i < |acts| ==> Acts(c, states[i], acts[i], states[i + 1])
  }

  /** The invariant of player and downloader, and with it conservation of time, the iteration protocol and the
      deadlines, holds in every run with spread decisions too, as long as they are settled. */
  lemma {:induction false} SpreadRunInv(c: Config, states: seq<State>, acts: seq<Act>, origin: int, i: nat)
    requires SpreadRun(c, states, acts, origin) && i < |states|
    requires forall j :: 0 <= j < i ==> Settled(c, states[j], acts[j])
    ensures Inv(c, states[i], origin)
  {
    if i == 0 {
      InitInv(c, states[0], origin);
    } else {
      var s, x := states[i - 1], acts[i - 1];
      SpreadRunInv(c, states, acts, origin, i - 1);
      assert Acts(c, s, x, states[i]) && Settled(c, s, x);
      match x
      case Plain(e) => StepInv(c, s, e, origin);
      case Spread(mask, est, a, b) => SpreadDecision(c, s, mask, est, a, b, origin);
    }
  }

  // ---------- which configurations are safe ----------

  /** The act, if a spread decision, stays in the arrays. */
  predicate ActInArrays(c: Config, s: State, x: Act)
  {
    x.Spread? ==>
      InArrays(c, s.p.buf, Polls(c, s.p, x.a).playing, Polls(c, Polls(c, s.p, x.a), x.b).playing, s.d)
  }

  /** No base chunk was ever requested, and playback has not started. */
  predicate NotStarted(s: State)
  {
    s.d.bl == 0 && !BaseBusy(s.d) && s.p.mode == Initial && s.p.pc != Starting
  }

  lemma {:induction false} PollsNotStarted(c: Config, p: Player, n: nat, origin: int)
    requires PlayerInv(c, p, 0, origin) && p.mode == Initial && p.pc != Starting
    ensures Polls(c, p, n).mode == Initial && Polls(c, p, n).pc != Starting
  {
    if n > 0 {
      PollsNotStarted(c, p, n - 1, origin);
      PollsInv(c, p, n - 1, 0, origin);
    }
  }

  lemma SpreadNotStarted(c: Config, s: State, mask: seq<bool>, est: real, a: nat, b: nat, origin: int)
    requires Inv(c, s, origin) && NotStarted(s) && s.d.phase.Deciding? && |mask| == c.noTile
    requires c.noSeg <= 1 || c.thres <= 1
    ensures ActInArrays(c, s, Spread(mask, est, a, b)) && s.d.iter < 2 * c.noSeg
    ensures var p, q := Polls(c, s.p, a), Polls(c, Polls(c, s.p, a), b);
            NotStarted(State(q, DecideReads(c, s.p.buf, p.playing, q.playing, s.d, mask, est)))
  {
    var p := Polls(c, s.p, a);
    var q := Polls(c, p, b);
    PollsInv(c, s.p, a, 0, origin);
    PollsNotStarted(c, s.p, a, origin);
    PollsInv(c, p, b, 0, origin);
    PollsNotStarted(c, p, b, origin);
    assert !Wants(c, s.p.buf, s.d) && p.playing == q.playing == -1;
    ReadsDecided(c, s.p.buf, p.playing, q.playing, s.d, mask, est);
  }

  lemma PlainNotStarted(c: Config, s: State, e: Event, origin: int)
    requires Inv(c, s, origin) && NotStarted(s) && Enabled(c, s, e) && Safe(c, s, e)
    requires c.noSeg <= 1 || c.thres <= 1
    ensures NotStarted(Next(c, s, e))
  {
    match e
    case Decision(mask, est) =>
      assert !WantsBase(c, s.p, s.d);
      ReadsDecided(c, s.p.buf, s.p.playing, s.p.playing, s.d, mask, est);
    case StreamClose(k) => CloseInv(c, s.d, k);
    case IterationEnd => FinishInv(c, s.d);
    case DataFrame(k, mask, room) => var add := RedecideAdds(c, s.d, k, mask, room);
    case _ =>
  }

  lemma {:induction false} NeverStarts(c: Config, states: seq<State>, acts: seq<Act>, origin: int, i: nat)
    requires SpreadRun(c, states, acts, origin) && i < |states| && (c.noSeg <= 1 || c.thres <= 1)
    ensures Inv(c, states[i], origin) && NotStarted(states[i])
  {
    if i == 0 {
      NotStartedInit(c, states[0], origin);
    } else {
      NeverStarts(c, states, acts, origin, i - 1);
      NotStartedStep(c, states[i - 1], acts[i - 1], states[i], origin);
    }
  }

  lemma NotStartedInit(c: Config, s: State, origin: int)
    requires Init(c, s, origin)
    ensures Inv(c, s, origin) && NotStarted(s)
  {
    InitInv(c, s, origin);
  }

  lemma NotStartedInArrays(c: Config, s: State, x: Act, t: State, origin: int)
    requires Inv(c, s, origin) && NotStarted(s) && Acts(c, s, x, t) && (c.noSeg <= 1 || c.thres <= 1)
    ensures ActInArrays(c, s, x)
  {
    if x.Spread? {
      SpreadNotStarted(c, s, x.mask, x.est, x.a, x.b, origin);
    }
  }

  lemma NotStartedStep(c: Config, s: State, x: Act, t: State, origin: int)
    requires Inv(c, s, origin) && NotStarted(s) && Acts(c, s, x, t) && (c.noSeg <= 1 || c.thres <= 1)
    ensures Inv(c, t, origin) && NotStarted(t)
  {
    match x
    case Plain(e) =>
      StepInv(c, s, e, origin);
      PlainNotStarted(c, s, e, origin);
    case Spread(mask, est, a, b) =>
      SpreadNotStarted(c, s, mask, est, a, b, origin);
      SpreadDecision(c, s, mask, est, a, b, origin);
  }

  // ---------- the run to the end ----------

  /** A wanted base chunk is requested and arrives. */
  lemma LoadChunk(c: Config, before: seq<State>, was: seq<Event>, s0: State)
    returns (states: seq<State>, events: seq<Event>, s: State)
    requires Run(c, before, was, 0) && before[|was|] == s0 && s0.d.phase.Deciding? && WantsBase(c, s0.p, s0.d)
    ensures Run(c, states, events, 0) && states[|events|] == s
    ensures s.d.phase.Deciding? && s.d.bl == s0.d.bl + 1 && s.p == Receive(c, s0.p)
  {
    var t;
    states, events, t := RequestBase(c, before, was, s0);
    var k := s0.d.ids.next;
    var u := Extend(c, states, events, 0, StreamClose(k));
    states, events := states + [u], events + [StreamClose(k)];
    assert u.d.phase == Ending(Chunk(s0.d.bl, 0));
    s := Extend(c, states, events, 0, IterationEnd);
    states, events := states + [s], events + [IterationEnd];
  }

  /** Playing the last base chunk but its last slot, wherever loading stands. */
  lemma {:induction false} LoadAll(c: Config, before: seq<State>, was: seq<Event>, s0: State)
    returns (states: seq<State>, events: seq<Event>, s: State)
    requires c.Valid() && c.thres >= 2 && Run(c, before, was, 0) && before[|was|] == s0
    requires s0.d.phase.Deciding? && 1 <= s0.d.bl <= c.noSeg - 1
    requires s0.p.mode == Playing && s0.p.pc == Decremented && s0.p.buf < INTER
    ensures Run(c, states, events, 0) && states[|events|] == s
    ensures s.d.phase.Deciding? && s.d.bl == c.noSeg - 1
    ensures s.p.mode == Playing && s.p.pc == Decremented && s.p.buf < INTER
    decreases c.noSeg - s0.d.bl
  {
    states, events, s := before, was, s0;
    if s0.d.bl < c.noSeg - 1 {
      states, events, s := LoadChunk(c, states, events, s);
      RunInv(c, before, was, 0, |was|);
      states, events, s := PlayDown(c, states, events, s, INTER);
      states, events, s := LoadAll(c, states, events, s);
    }
  }

  /** In every configuration with more than one segment that asks for base chunks, some run comes to a decision under
      which the player may enter the last segment. */
  lemma PastTheEnd(c: Config) returns (states: seq<State>, events: seq<Event>)
    requires c.Valid() && c.noSeg >= 2 && c.thres >= 2
    ensures Run(c, states, events, 0)
    ensures states[|events|].d.phase.Deciding? && MayEnterLast(c, states[|events|])
  {
    var s := Fresh(c);
    states, events := [s], [];
    var t := Extend(c, states, events, 0, Begin);
    states, events, s := states + [t], events + [Begin], t;
    states, events, s := FirstChunkPlays(c, states, events, s);
    states, events, s := PlayDown(c, states, events, s, INTER);
    states, events, s := LoadAll(c, states, events, s);
    RunInv(c, states, events, 0, |events|);
    BeforeLast(c, s.p, s.d.bl, 0);
  }

  lemma BeforeLast(c: Config, p: Player, chunks: nat, origin: int)
    requires PlayerInv(c, p, chunks, origin) && p.mode == Playing && p.pc == Decremented
    ensures p.playing < chunks
  {
    Quotient(p.played, c.sd);
    if p.playing >= chunks && p.playing > chunks {
      SpanGap(chunks, p.playing, c.sd);
    }
  }

  function PlainActs(events: seq<Event>): (acts: seq<Act>)
    ensures |acts| == |events| && forall i :: 0 <= i < |events| ==> acts[i] == Plain(events[i])
  {
    seq(|events|, i requires 0 <= i < |events| => Plain(events[i]))
  }

  lemma PlainRun(c: Config, states: seq<State>, events: seq<Event>, origin: int, x: Act)
    requires Run(c, states, events, origin) && x.Spread? && |x.mask| == c.noTile && states[|events|].d.phase.Deciding?
    requires !ActInArrays(c, states[|events|], x)
    ensures SpreadRun(c, states + [states[|events|]], PlainActs(events) + [x], origin)
  {
    var ss, xs := states + [states[|events|]], PlainActs(events) + [x];
    forall i | 0 <= i < |xs|
      ensures Acts(c, ss[i], xs[i], ss[i + 1])
    {
      if i < |events| {
        assert Steps(c, states[i], events[i], states[i + 1]);
      }
    }
  }

  /** All spread decisions of all runs stay in the arrays exactly if the video has a single segment or no base chunk is
      ever asked for; so never in a configuration that plays anything. */
  lemma SpreadSafeExactly(c: Config)
    requires c.Valid()
    ensures c.noSeg <= 1 || c.thres <= 1 <==>
            forall states: seq<State>, acts: seq<Act>, origin: int, i: nat ::
              SpreadRun(c, states, acts, origin) && i < |acts| ==> ActInArrays(c, states[i], acts[i])
  {
    if c.noSeg <= 1 || c.thres <= 1 {
      forall states: seq<State>, acts: seq<Act>, origin: int, i: nat
        | SpreadRun(c, states, acts, origin) && i < |acts|
        ensures ActInArrays(c, states[i], acts[i])
      {
        NeverStarts(c, states, acts, origin, i);
        NotStartedInArrays(c, states[i], acts[i], states[i + 1], origin);
      }
    } else {
      var states, events := PastTheEnd(c);
      var s := states[|events|];
      RunInv(c, states, events, 0, |events|);
      SpreadExact(c, s, 0);
      var a: nat, b: nat :|
        !InArrays(c, s.p.buf, Polls(c, s.p, a).playing, Polls(c, Polls(c, s.p, a), b).playing, s.d);
      var x := Spread(seq(c.noTile, i => true), 0.0, a, b);
      PlainRun(c, states, events, 0, x);
      var ss, xs := states + [s], PlainActs(events) + [x];
      assert SpreadRun(c, ss, xs, 0) && xs[|events|] == x && ss[|events|] == s;
      assert !ActInArrays(c, ss[|events|], xs[|events|]);
    }
  }

  // ---------- the order of the layers ----------

  /** Between the reading of the buffer level and the last reading of the segment at most `slack` is played. */
  predicate Prompt(c: Config, s: State, x: Act, slack: int)
  {
    x.Spread? ==> Polls(c, Polls(c, s.p, x.a), x.b).played - s.p.played <= slack
  }

  lemma PlayedFrom(c: Config, p: Player, chunks: nat, origin: int)
    requires PlayerInv(c, p, chunks, origin)
    ensures -1 <= p.playing && p.played >= 0 && (p.playing >= 0 ==> Span(p.playing, c.sd) <= p.played)
  {
    if p.mode == Playing {
      Quotient(p.played, c.sd);
    }
  }

  lemma SpanAhead(bl: nat, used: int, sd: int)
    requires sd > 0 && used >= -1 && Span(bl, sd) > sd + (if used >= 0 then Span(used, sd) else 0)
    ensures used + 1 < bl
  {
    if used >= 0 {
      var k: nat := used;
      assert Span(k + 1, sd) == Span(k, sd) + sd;
      if bl < k + 1 {
        SpanGap(bl, k + 1, sd);
      }
    }
  }

  lemma SpreadTilesAfterBase(c: Config, s: State, q: Player, slack: int, origin: int)
    requires Inv(c, s, origin) && PlayerInv(c, q, s.d.bl, origin) && (c.thres - 1) * 1000 - slack > c.sd
    requires !Wants(c, s.p.buf, s.d) && q.played - s.p.played <= slack
    ensures q.playing != c.noSeg - 1 ==> Received(c, q.playing, s.d)
  {
    PlayedFrom(c, q, s.d.bl, origin);
    if s.d.bl < c.noSeg - 1 {
      assert Span(s.d.bl, c.sd) >= s.p.buf + s.p.played;
      SpanAhead(s.d.bl, q.playing, c.sd);
    }
  }

  lemma SpreadOrdered(c: Config, s: State, mask: seq<bool>, est: real, p: Player, q: Player, slack: int, origin: int)
    requires Inv(c, s, origin) && Kept(s.d) && Ordered(c, s.p, s.d) && s.d.phase.Deciding? && |mask| == c.noTile
    requires PlayerInv(c, q, s.d.bl, origin) && s.p.playing <= q.playing
    requires InArrays(c, s.p.buf, p.playing, q.playing, s.d)
    requires q.played - s.p.played <= slack && (c.thres - 1) * 1000 - slack > c.sd
    ensures s.d.iter < 2 * c.noSeg
    ensures var e := DecideReads(c, s.p.buf, p.playing, q.playing, s.d, mask, est);
            Kept(e) && Ordered(c, q, e) && e.ver == s.d.ver
  {
    if !Wants(c, s.p.buf, s.d) {
      SpreadTilesAfterBase(c, s, q, slack, origin);
    }
    assert q.playing + 1 <= c.noSeg by { InvInRange(c, q, s.d.bl, origin); }
    ReadsDecided(c, s.p.buf, p.playing, q.playing, s.d, mask, est);
    ReadsKept(c, s.p.buf, p.playing, q.playing, s.d, mask, est);
    DecidedOrdered(c, s.p, q, s.d, DecideReads(c, s.p.buf, p.playing, q.playing, s.d, mask, est),
                   Wants(c, s.p.buf, s.d), q.playing);
  }

  lemma ActOrdered(c: Config, s: State, x: Act, t: State, slack: int, origin: int)
    requires Inv(c, s, origin) && Kept(s.d) && Ordered(c, s.p, s.d) && Acts(c, s, x, t)
    requires Settled(c, s, x) && Prompt(c, s, x, slack) && slack >= 0 && (c.thres - 1) * 1000 - slack > c.sd
    ensures Inv(c, t, origin) && Kept(t.d) && Ordered(c, t.p, t.d) && Grown(s.d, t.d)
  {
    match x
    case Plain(e) =>
      StepOrdered(c, s, e, origin);
      StepInv(c, s, e, origin);
      OrderedClean(c, s, origin);
      StepKept(c, s, e, origin);
    case Spread(mask, est, a, b) =>
      var p := Polls(c, s.p, a);
      var q := Polls(c, p, b);
      PollsInv(c, s.p, a, s.d.bl, origin);
      PollsInv(c, p, b, s.d.bl, origin);
      PollsForward(c, s.p, a, s.d.bl, origin);
      PollsForward(c, p, b, s.d.bl, origin);
      SpreadDecision(c, s, mask, est, a, b, origin);
      SpreadOrdered(c, s, mask, est, p, q, slack, origin);
  }

  /** With a threshold that exceeds a segment by more than is ever played between the readings of a decision, the order
      of the layers holds in spread runs too: no tiles before their base layer, and no version ever goes down. */
  lemma {:induction false} SpreadRunOrdered(c: Config, states: seq<State>, acts: seq<Act>, slack: int, origin: int,
                                            i: nat)
    requires SpreadRun(c, states, acts, origin) && i < |states|
    requires slack >= 0 && (c.thres - 1) * 1000 - slack > c.sd
    requires forall j :: 0 <= j < i ==> Settled(c, states[j], acts[j]) && Prompt(c, states[j], acts[j], slack)
    ensures Inv(c, states[i], origin) && Kept(states[i].d) && Ordered(c, states[i].p, states[i].d)
    ensures !Premature(c, states[i].d)
    ensures i > 0 ==> Grown(states[i - 1].d, states[i].d)
  {
    if i == 0 {
      InitInv(c, states[0], origin);
    } else {
      SpreadRunOrdered(c, states, acts, slack, origin, i - 1);
      ActOrdered(c, states[i - 1], acts[i - 1], states[i], slack, origin);
    }
  }

  lemma {:induction false} SpreadVersionsGrow(c: Config, states: seq<State>, acts: seq<Act>, slack: int, origin: int,
                                              i: nat, j: nat)
    requires SpreadRun(c, states, acts, origin) && i <= j < |states|
    requires slack >= 0 && (c.thres - 1) * 1000 - slack > c.sd
    requires forall n :: 0 <= n < j ==> Settled(c, states[n], acts[n]) && Prompt(c, states[n], acts[n], slack)
    ensures Grown(states[i].d, states[j].d)
    decreases j - i
  {
    if i < j {
      SpreadVersionsGrow(c, states, acts, slack, origin, i, j - 1);
      SpreadRunOrdered(c, states, acts, slack, origin, j);
      GrownTwice(states[i].d, states[j - 1].d, states[j].d);
    }
  }
}
