/** The client at work: its handlers called on any script of events make a run, so the run theorems hold of the
    objects themselves. */
module StreamingSession {
  import opened Playout
  import opened Downloader
  import opened Streaming
  import opened StreamingRuns
  import opened StreamingVersions
  import opened StreamingThreshold
  import opened StreamingHistory
  import opened StreamingClient

  /** What the run theorems say of the objects after a run. */
  ghost predicate Sound(c: Config, client: Client)
    reads client, client.player, client.buff, client.iterTileList, client.segElDownload
  {
    var p := client.player;
    && p.baseLayerBuff >= 0 && p.playedTime <= client.blSegId * c.sd < c.VideoLen() && p.playingSegId < c.noSeg
    && client.blSegId <= c.noSeg - 1 && client.iterId < 2 * c.noSeg
    && (client.phase.Loading? ==> |client.ids.open| == client.reqSNum - client.finSNum > 0)
    && (TilesWait(c) && client.phase.Loading? && client.iterId < client.iterTileList.Length
        && client.iterTileList[client.iterId] != [] && 0 <= client.elSegId <= c.noSeg - 2 ==>
          client.elSegId < client.blSegId)
    && 0 < c.noSeg == client.segElDownload.Length && (client.terminated <==> client.segElDownload[c.noSeg - 1])
  }

  /** The stall time of each segment is one interval for each poll of the run that stalled in it, and the play time
      one for each slot. */
  ghost predicate Tallied(c: Config, states: seq<State>, events: seq<Event>, client: Client)
    requires |events| < |states|
    reads client, client.player, client.player.stallTime
  {
    var p := client.player;
    && p.stallTime.Length == c.noSeg && p.playedTime == INTER * Times(c, states, events, |events|, Plays)
    && forall k :: 0 <= k < c.noSeg ==> p.stallTime[k] == INTER * Times(c, states, events, |events|, Stalls(k))
  }

  lemma TalliedAfter(c: Config, client: Client, states: seq<State>, events: seq<Event>, origin: int)
    requires Run(c, states, events, origin) && states[|events|] == client.Whole()
    ensures Tallied(c, states, events, client)
  {
    var n := |events|;
    assert Inv(c, client.Whole(), origin) by { RunInv(c, states, events, origin, n); }
    forall k | 0 <= k < c.noSeg
      ensures CountsUp(c, states, events, origin, n, k)
    {
      CountersCount(c, states, events, origin, n, k);
    }
    assert c.noSeg > 0;
    assert CountsUp(c, states, events, origin, n, 0);
    assert client.player.stallTime[..] == states[n].p.stall;
    forall k | 0 <= k < c.noSeg
      ensures client.player.stallTime[k] == INTER * Times(c, states, events, n, Stalls(k))
    {
      assert CountsUp(c, states, events, origin, n, k);
    }
  }

  /** No version recorded in any state of the run is above the one recorded now. */
  ghost predicate NoneFell(states: seq<State>, client: Client)
    reads client, client.buff, client.buff.tileVer
  {
    forall i :: 0 <= i < |states| ==>
      && |states[i].d.ver| == client.buff.tileVer.Length
      && forall s :: 0 <= s < |states[i].d.ver| ==> RowGrown(states[i].d.ver[s], client.buff.tileVer[s])
  }

  lemma SoundAfter(c: Config, client: Client, states: seq<State>, events: seq<Event>, origin: int)
    requires Run(c, states, events, origin) && states[|events|] == client.Whole()
    ensures Sound(c, client)
    ensures NoOverwrite(c) ==> NoneFell(states, client)
  {
    var n := |events|;
    PlayoutGuarantees(c, states, events, origin, n);
    ProtocolGuarantees(c, states, events, origin, n);
    TerminatedExactly(c, states, events, origin, n);
    assert client.segElDownload[..] == states[n].d.elDone;
    if TilesWait(c) {
      NeverPremature(c, states, events, origin, n);
    }
    if NoOverwrite(c) {
      forall i | 0 <= i < |states|
        ensures Grown(states[i].d, client.Abs())
      {
        NeverFalls(c, states, events, origin, i, n);
      }
    }
  }

  /** One event: a step of the run if it can happen, and nothing if not. */
  method Handle(client: Client, e: Event, ghost origin: int, ghost before: seq<State>, ghost was: seq<Event>)
    returns (ghost states: seq<State>, ghost events: seq<Event>)
    requires client.Apart() && Run(client.c, before, was, origin) && before[|was|] == client.Whole()
    modifies client.Objects()
    ensures client.Apart() && Run(client.c, states, events, origin) && states[|events|] == client.Whole()
    ensures if Enabled(client.c, before[|was|], e) then events == was + [e] && before <= states
            else events == was && states == before
  {
    states, events := before, was;
    RunInv(client.c, before, was, origin, |was|);
    var can := client.Can(e);
    if can {
      var t := Extend(client.c, before, was, origin, e);
      client.Do(e, origin);
      states, events := before + [t], was + [e];
    }
  }

  /** Connects and handles a script of events, skipping those that cannot happen. */
  method Session(c: Config, origin: int, script: seq<Event>)
    returns (client: Client, ghost states: seq<State>, ghost events: seq<Event>)
    requires c.Valid()
    ensures client.c == c && client.Apart()
    ensures Run(c, states, events, origin) && states[|events|] == client.Whole()
    ensures Sound(c, client) && Tallied(c, states, events, client)
    ensures NoOverwrite(c) ==> NoneFell(states, client)
  {
    client := Connect(c, origin);
    states, events := [client.Whole()], [];
    for n := 0 to |script|
      invariant client.c == c && client.Apart() && fresh(client.Objects())
      invariant Run(c, states, events, origin) && states[|events|] == client.Whole()
    {
      states, events := Handle(client, script[n], origin, states, events);
    }
    SoundAfter(c, client, states, events, origin);
    TalliedAfter(c, client, states, events, origin);
  }
}
