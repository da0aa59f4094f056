/** What the downloader's tables hold in a run: the streams that were requested, those that are open, the version last
    written for each tile, and the lists of the iterations that are over. */
module StreamingRecords {
  import opened Playout
  import opened Downloader
  import opened Streaming
  import opened StreamingRuns
  import opened StreamingVersions

  // ---------- streams ----------

  /** From `was` to `now` some streams were requested, under the next odd ids, and the one closed by the event was
      dropped from the open ones; what a stream was requested for stands. */
  ghost predicate Moved(was: Ids, now: Ids, e: Event)
  {
    && now.next >= was.next && (now.next - was.next) % 2 == 0
    && (forall k :: k in now.target <==> k in was.target || (was.next <= k < now.next && (k - was.next) % 2 == 0))
    && (forall k :: k in was.target ==> k in now.target && now.target[k] == was.target[k])
    && (forall k :: k in now.open <==>
                      (k in was.open || (was.next <= k < now.next && (k - was.next) % 2 == 0)) && e != StreamClose(k))
  }

  lemma IssuedMoved(was: Ids, now: Ids, seg: int, tiles: seq<int>, e: Event)
    requires InStep(was) && Issued(was, now, seg, tiles) && !e.StreamClose?
    ensures Moved(was, now, e)
  {
    forall k
      ensures NewId(was, |tiles|, k) <==> was.next <= k < now.next && (k - was.next) % 2 == 0
    {
    }
  }

  lemma SentMoved(was: Ids, chunk: Chunk, e: Event)
    requires InStep(was) && !e.StreamClose?
    ensures Moved(was, Send(was, chunk), e)
  {
    SendFacts(was, chunk);
  }

  /** A decision requests the next base chunk, the visible tiles of one segment, or nothing. */
  lemma DecidedIds(c: Config, p: Player, d: Down, mask: seq<bool>, est: real)
    requires d.phase.Deciding? && Shaped(c, d) && d.iter < 2 * c.noSeg
    requires p.playing != c.noSeg - 1 ==> 0 <= p.playing + 1 < c.noSeg
    ensures var now := Decide(c, p, d, mask, est).ids;
            now == d.ids || now == Send(d.ids, Chunk(d.bl, 0)) || now == SendAll(d.ids, p.playing + 1, Visible(mask))
  {
  }

  lemma RequestsMoved(was: Ids, now: Ids, chunk: Chunk, seg: int, tiles: seq<int>, e: Event)
    requires InStep(was) && !e.StreamClose?
    requires now == was || now == Send(was, chunk) || now == SendAll(was, seg, tiles)
    ensures Moved(was, now, e)
  {
    if now == Send(was, chunk) {
      SentMoved(was, chunk, e);
    } else if now != was {
      SendAllFacts(was, seg, tiles);
      IssuedMoved(was, now, seg, tiles, e);
    }
  }

  lemma MovedByDecision(c: Config, s: State, mask: seq<bool>, est: real, t: State, origin: int)
    requires Inv(c, s, origin) && Steps(c, s, Decision(mask, est), t)
    ensures Moved(s.d.ids, t.d.ids, Decision(mask, est))
  {
    InvSafe(c, s, Decision(mask, est), origin);
    DecidedIds(c, s.p, s.d, mask, est);
    RequestsMoved(s.d.ids, t.d.ids, Chunk(s.d.bl, 0), s.p.playing + 1, Visible(mask), Decision(mask, est));
  }

  lemma MovedByFrame(c: Config, s: State, e: Event, t: State, origin: int)
    requires Inv(c, s, origin) && Steps(c, s, e, t) && e.DataFrame?
    ensures Moved(s.d.ids, t.d.ids, e)
  {
    var add := RedecideAdds(c, s.d, e.stream, e.mask, e.room);
    IssuedMoved(s.d.ids, t.d.ids, s.d.el, add, e);
  }

  lemma MovedElsewhere(c: Config, s: State, e: Event, t: State, origin: int)
    requires Inv(c, s, origin) && Steps(c, s, e, t) && !e.Decision? && !e.DataFrame?
    ensures Moved(s.d.ids, t.d.ids, e)
  {
    InvSafe(c, s, e, origin);
  }

  lemma MovedOver(c: Config, s: State, e: Event, t: State, origin: int)
    requires Inv(c, s, origin) && Steps(c, s, e, t)
    ensures Moved(s.d.ids, t.d.ids, e)
  {
    match e
    case Decision(mask, est) => MovedByDecision(c, s, mask, est, t, origin);
    case DataFrame(_, _, _) => MovedByFrame(c, s, e, t, origin);
    case _ => MovedElsewhere(c, s, e, t, origin);
  }

  /** The stream was closed by one of the first i events. */
  predicate Closed(events: seq<Event>, i: nat, k: int)
    requires i <= |events|
  {
    exists j :: 0 <= j < i && events[j] == StreamClose(k)
  }

  lemma ClosedNow(events: seq<Event>, i: nat, k: int)
    requires 0 < i <= |events|
    ensures Closed(events, i, k) <==> Closed(events, i - 1, k) || events[i - 1] == StreamClose(k)
  {
  }

  /** Where the stream stands: it was requested if its id is one the session has assigned, an odd number from 15 on, and
      it is open if it was requested and not closed since. */
  predicate StreamStands(ids: Ids, k: int, closed: bool)
  {
    && ids.next % 2 == 1 && (k in ids.target <==> 15 <= k < ids.next && k % 2 == 1)
    && (k in ids.open <==> k in ids.target && !closed) && (closed ==> k in ids.target)
  }

  lemma StreamStandsOver(was: Ids, now: Ids, e: Event, k: int, closed: bool)
    requires Moved(was, now, e) && was.next >= 15 && StreamStands(was, k, closed)
    requires e == StreamClose(k) ==> k in was.open
    ensures StreamStands(now, k, closed || e == StreamClose(k)) && now.next >= 15
  {
  }

  /** In every reachable state the streams known to the client are exactly those the session has assigned, and the open
      ones are those not closed yet. */
  lemma {:induction false} StreamsExactly(c: Config, states: seq<State>, events: seq<Event>, origin: int, i: nat,
                                          k: int)
    requires Run(c, states, events, origin) && i < |states|
    ensures states[i].d.ids.next >= 15 && StreamStands(states[i].d.ids, k, Closed(events, i, k))
  {
    if i > 0 {
      StreamsExactly(c, states, events, origin, i - 1, k);
      assert Inv(c, states[i - 1], origin) by { RunInv(c, states, events, origin, i - 1); }
      MovedOver(c, states[i - 1], events[i - 1], states[i], origin);
      assert events[i - 1] == StreamClose(k) ==> k in states[i - 1].d.ids.open;
      StreamStandsOver(states[i - 1].d.ids, states[i].d.ids, events[i - 1], k, Closed(events, i - 1, k));
      ClosedNow(events, i, k);
    }
  }

  /** The stream was requested for the chunk. */
  predicate RequestedFor(ids: Ids, k: int, chunk: Chunk)
  {
    k in ids.target && ids.target[k] == chunk
  }

  lemma RequestedForOver(c: Config, s: State, e: Event, t: State, origin: int, k: int, chunk: Chunk)
    requires Inv(c, s, origin) && Steps(c, s, e, t) && RequestedFor(s.d.ids, k, chunk)
    ensures RequestedFor(t.d.ids, k, chunk)
  {
    MovedOver(c, s, e, t, origin);
  }

  /** What a stream was requested for stands for the rest of the run, beyond its close. */
  lemma {:induction false} TargetsStand(c: Config, states: seq<State>, events: seq<Event>, origin: int, i: nat, j: nat,
                                        k: int, chunk: Chunk)
    requires Run(c, states, events, origin) && i <= j < |states| && RequestedFor(states[i].d.ids, k, chunk)
    ensures RequestedFor(states[j].d.ids, k, chunk)
    decreases j
  {
    if i < j {
      TargetsStand(c, states, events, origin, i, j - 1, k, chunk);
      assert Inv(c, states[j - 1], origin) by { RunInv(c, states, events, origin, j - 1); }
      RequestedForOver(c, states[j - 1], events[j - 1], states[j], origin, k, chunk);
    }
  }

  // ---------- versions ----------

  /** The event closes a stream whose chunk covers the slot t of the segment: the base chunk covers the slots below the
      number of tiles, a tile its own. */
  predicate Covers(c: Config, s: State, e: Event, seg: int, t: int)
  {
    && e.StreamClose? && e.stream in s.d.ids.target && s.d.iter < |s.d.tileVersion|
    && var x := s.d.ids.target[e.stream]; x.seg == seg && if x.face == 0 then t < c.noTile else t == x.face
  }

  /** The version of the iteration in which the slot was last covered by a closing stream, or -1. */
  ghost function Last(c: Config, states: seq<State>, events: seq<Event>, i: nat, seg: int, t: int): int
    requires i <= |events| <= |states|
  {
    if i == 0 then -1
    else if Covers(c, states[i - 1], events[i - 1], seg, t) then
      states[i - 1].d.tileVersion[states[i - 1].d.iter]
    else Last(c, states, events, i - 1, seg, t)
  }

  predicate HasSlot(c: Config, d: Down, seg: nat, t: nat)
  {
    seg < |d.ver| == c.noSeg && t < |d.ver[seg]| == c.noTile + 1
  }

  lemma SlotKept(c: Config, s: State, e: Event, t: State, origin: int, seg: nat, slot: nat)
    requires Inv(c, s, origin) && Steps(c, s, e, t) && !e.StreamClose? && HasSlot(c, s.d, seg, slot)
    ensures HasSlot(c, t.d, seg, slot) && t.d.ver[seg][slot] == s.d.ver[seg][slot]
  {
    InvSafe(c, s, e, origin);
  }

  lemma SlotOver(c: Config, s: State, e: Event, t: State, origin: int, seg: nat, slot: nat)
    requires Inv(c, s, origin) && Steps(c, s, e, t) && HasSlot(c, s.d, seg, slot)
    ensures HasSlot(c, t.d, seg, slot)
    ensures Covers(c, s, e, seg, slot) ==> t.d.ver[seg][slot] == s.d.tileVersion[s.d.iter]
    ensures !Covers(c, s, e, seg, slot) ==> t.d.ver[seg][slot] == s.d.ver[seg][slot]
  {
    if e.StreamClose? {
      CloseWrites(c, s.d, e.stream);
    } else {
      SlotKept(c, s, e, t, origin, seg, slot);
    }
  }

  /** In every reachable state the recorded version of a tile is that of the last closed stream that covered it. */
  lemma {:induction false} VersionsAreLast(c: Config, states: seq<State>, events: seq<Event>, origin: int, i: nat,
                                           seg: nat, t: nat)
    requires Run(c, states, events, origin) && i < |states| && seg < c.noSeg && t <= c.noTile
    ensures HasSlot(c, states[i].d, seg, t) && states[i].d.ver[seg][t] == Last(c, states, events, i, seg, t)
  {
    if i > 0 {
      VersionsAreLast(c, states, events, origin, i - 1, seg, t);
      assert Inv(c, states[i - 1], origin) by { RunInv(c, states, events, origin, i - 1); }
      SlotOver(c, states[i - 1], events[i - 1], states[i], origin, seg, t);
    }
  }

  // ---------- iterations that are over ----------

  lemma PastOver(c: Config, s: State, e: Event, t: State, origin: int, m: nat)
    requires Inv(c, s, origin) && Steps(c, s, e, t) && m < s.d.iter
    ensures m < |s.d.tileList| == |t.d.tileList| && m < |s.d.tileVersion| == |t.d.tileVersion| && m < t.d.iter
    ensures t.d.tileList[m] == s.d.tileList[m] && t.d.tileVersion[m] == s.d.tileVersion[m]
  {
    InvSafe(c, s, e, origin);
  }

  /** What an iteration that is over asked for, and in which version, stands for the rest of the run. */
  lemma {:induction false} PastStands(c: Config, states: seq<State>, events: seq<Event>, origin: int, i: nat, j: nat,
                                      m: nat)
    requires Run(c, states, events, origin) && i <= j < |states| && m < states[i].d.iter
    ensures m < states[j].d.iter && m < |states[j].d.tileList| == |states[i].d.tileList|
    ensures m < |states[j].d.tileVersion| == |states[i].d.tileVersion|
    ensures states[j].d.tileList[m] == states[i].d.tileList[m]
    ensures states[j].d.tileVersion[m] == states[i].d.tileVersion[m]
    decreases j
  {
    if i == j {
      RunInv(c, states, events, origin, i);
    } else {
      PastStands(c, states, events, origin, i, j - 1, m);
      assert Inv(c, states[j - 1], origin) by { RunInv(c, states, events, origin, j - 1); }
      PastOver(c, states[j - 1], events[j - 1], states[j], origin, m);
    }
  }
}
