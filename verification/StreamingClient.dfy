/** The client's objects and callbacks, updated in place, proved against the step functions that the run
    theorems are about. */
module StreamingClient {
  import opened Playout
  import opened Downloader
  import opened Streaming

  /** The tile versions shared by player and downloader. */
  class Buffer {
    const noTile: nat
    const tileVer: array<seq<int>>

    constructor (noSeg: nat, noTile: nat)
      ensures this.noTile == noTile && tileVer.Length == noSeg && fresh(tileVer)
      ensures forall s :: 0 <= s < noSeg ==> tileVer[s] == seq(noTile + 1, t => -1)
    {
      this.noTile := noTile;
      tileVer := new seq<int>[noSeg](s => seq(noTile + 1, t => -1));
    }

    method UpdateTileVersion(segId: nat, faceId: nat, version: int)
      requires segId < tileVer.Length && |tileVer[segId]| == noTile + 1 && faceId <= noTile
      modifies tileVer
      ensures tileVer[..] == old(tileVer[..])[segId := UpdateRow(old(tileVer[segId]), faceId, version, noTile)]
    {
      if faceId == 0 {
        for i := 0 to noTile
          invariant |tileVer[segId]| == noTile + 1
          invariant forall t :: 0 <= t <= noTile ==>
                                  tileVer[segId][t] == if t < i then version else old(tileVer[segId])[t]
          invariant forall s :: 0 <= s < tileVer.Length && s != segId ==> tileVer[s] == old(tileVer[s])
        {
          tileVer[segId] := tileVer[segId][i := version];
        }
      } else {
        tileVer[segId] := tileVer[segId][faceId := version];
      }
      assert tileVer[segId] == UpdateRow(old(tileVer[segId]), faceId, version, noTile);
    }
  }

  /** The player thread. `pc` names its next atomic access; `recorded`, `start` and `waited` are history. */
  class PlayerThread {
    const c: Config
    var state: Mode
    var pc: Pc
    var baseLayerBuff: int
    var playedTime: int
    var playingSegId: int
    var clock: int
    const deadline: array<int>
    const stallTime: array<int>
    ghost var recorded: seq<int>
    ghost var start: int
    ghost var waited: int

    constructor (c: Config, origin: int)
      requires c.Valid()
      ensures this.c == c && fresh(deadline) && fresh(stallTime) && deadline != stallTime
      ensures PlayerInit(c, Abs(), origin)
    {
      this.c := c;
      state, pc := Initial, Head;
      baseLayerBuff, playedTime, playingSegId, clock := 0, 0, -1, origin;
      deadline := new int[c.noSeg];
      stallTime := new int[c.noSeg](i => 0);
      recorded, start, waited := [], 0, 0;
    }

    ghost function Abs(): Player
      reads this, deadline, stallTime
    {
      Player(state, pc, baseLayerBuff, playedTime, playingSegId, clock, deadline[..], stallTime[..],
             recorded, start, waited)
    }

    method IncreBuffSize(amount: int)
      modifies this`baseLayerBuff
      ensures baseLayerBuff == old(baseLayerBuff) + amount
    {
      baseLayerBuff := baseLayerBuff + amount;
    }

    method DecreBuffSize(amount: int)
      modifies this`baseLayerBuff
      ensures baseLayerBuff == old(baseLayerBuff) - amount
    {
      baseLayerBuff := baseLayerBuff - amount;
    }

    method IncrePlayTime(amount: int)
      requires c.Valid()
      modifies this`playedTime, this`playingSegId
      ensures playedTime == old(playedTime) + amount && playingSegId == playedTime / c.sd
    {
      playedTime := playedTime + amount;
      playingSegId := playedTime / c.sd;
    }

    /** The deadlines from the playing segment on, each one segment after the previous. */
    method UpdateDeadlines()
      requires 0 <= playingSegId < deadline.Length
      modifies deadline
      ensures deadline[..] == SetDeadlines(old(deadline[..]), playingSegId, clock, c.sd)
    {
      deadline[playingSegId] := clock;
      for i := playingSegId + 1 to deadline.Length
        invariant forall k :: 0 <= k < playingSegId ==> deadline[k] == old(deadline[k])
        invariant forall k :: playingSegId <= k < i ==> deadline[k] == clock + Span(k - playingSegId, c.sd)
      {
        deadline[i] := deadline[i - 1] + c.sd;
      }
    }

    /** One atomic access of the playback loop. */
    method Poll()
      requires InRange(c, Abs()) && deadline != stallTime
      modifies this, deadline, stallTime
      ensures Abs() == PlayerStep(c, old(Abs()))
    {
      match pc {
        case Head =>
          if playedTime >= c.VideoLen() {
            pc := Exited;
          } else {
            match state {
              case Initial =>
                if baseLayerBuff == c.sd {
                  pc := Starting;
                } else {
                  pc := Sleeping;
                  waited := waited + INTER;
                }
              case Playing =>
                DecreBuffSize(INTER);
                pc := Decremented;
              case Stalled =>
                stallTime[playingSegId] := stallTime[playingSegId] + INTER;
                pc := if baseLayerBuff == c.sd then Resuming else Sleeping;
            }
          }
        case Starting =>
          state, playingSegId, pc := Playing, 0, Deadlines;
          recorded, start := recorded + [0], clock;
        case Decremented =>
          IncrePlayTime(INTER);
          pc := Advanced;
        case Advanced =>
          pc := if playedTime == playingSegId * c.sd && baseLayerBuff != 0 then Recording else Checking;
        case Recording =>
          recorded := recorded + [playingSegId];
          pc := Checking;
        case Checking =>
          if baseLayerBuff == 0 {
            state := Stalled;
          }
          pc := Sleeping;
        case Resuming =>
          state, pc := Playing, Deadlines;
          recorded := recorded + [playingSegId];
        case Deadlines =>
          UpdateDeadlines();
          pc := Sleeping;
        case Sleeping =>
          clock := clock + INTER;
          pc := Head;
        case Exited =>
      }
    }
  }

  /** The visible tiles of a mask, numbered from 1. */
  method GetVisibleTile(mask: seq<bool>) returns (tiles: seq<int>)
    ensures tiles == Visible(mask)
  {
    tiles := [];
    for i := 0 to |mask|
      invariant tiles == Visible(mask[..i])
    {
      assert mask[..i + 1][..i] == mask[..i];
      if mask[i] {
        tiles := tiles + [i + 1];
      }
    }
    assert mask[..|mask|] == mask;
  }

  lemma PickUnique(enhaBr: seq<nat>, base: nat, weight: nat, limit: real, l: nat)
    requires l <= |enhaBr|
    requires forall j :: 0 <= j < l ==> (base + enhaBr[j] * weight) as real <= limit
    requires l < |enhaBr| ==> (base + enhaBr[l] * weight) as real > limit
    ensures l == Pick(enhaBr, base, weight, limit)
  {
  }

  /** The loop over the enhancement versions that stops at the first one over the limit. */
  method FindVersion(enhaBr: seq<nat>, base: nat, weight: nat, limit: real) returns (l: nat)
    ensures l == Pick(enhaBr, base, weight, limit)
  {
    l := 0;
    while l < |enhaBr|
      invariant l <= |enhaBr|
      invariant forall j :: 0 <= j < l ==> (base + enhaBr[j] * weight) as real <= limit
    {
      if (base + enhaBr[l] * weight) as real > limit {
        break;
      }
      l := l + 1;
    }
    PickUnique(enhaBr, base, weight, limit, l);
  }

  /** The download status and the callbacks of the event loop. */
  class Client {
    const c: Config
    const player: PlayerThread
    const buff: Buffer
    var phase: Phase
    var iterId: nat
    var reqSNum: int
    var finSNum: int
    var blSegId: nat
    var elSegId: int
    var ids: Ids
    const segElDownload: array<bool>
    const iterTileList: array<seq<int>>
    const iterTileVersion: array<int>
    const iterReDecide: array<bool>
    var terminated: bool

    /** The arrays are different objects. */
    ghost predicate Apart()
    {
      && player.c == c && buff.noTile == c.noTile && segElDownload != iterReDecide
      && player.deadline != player.stallTime && player.deadline != iterTileVersion
      && player.stallTime != iterTileVersion
      && iterTileList != buff.tileVer
    }

    ghost function Abs(): Down
      reads this, segElDownload, iterTileList, iterTileVersion, iterReDecide, buff.tileVer
    {
      Down(phase, iterId, reqSNum, finSNum, blSegId, elSegId, ids, segElDownload[..], iterTileList[..],
           iterTileVersion[..], iterReDecide[..], buff.tileVer[..], terminated)
    }

    /** The objects of both sides. */
    ghost function Objects(): set<object>
    {
      {this, segElDownload, iterTileList, iterTileVersion, iterReDecide, buff.tileVer,
       player, player.deadline, player.stallTime}
    }

    /** Both sides together. */
    ghost function Whole(): State
      reads this, segElDownload, iterTileList, iterTileVersion, iterReDecide, buff.tileVer
      reads player, player.deadline, player.stallTime
    {
      State(player.Abs(), Abs())
    }

    constructor (c: Config, player: PlayerThread)
      requires c.Valid() && player.c == c && player.deadline != player.stallTime
      ensures this.c == c && this.player == player && Apart()
      ensures fresh(Objects() - {player, player.deadline, player.stallTime})
      ensures Shaped(c, Abs()) && phase == Idle && iterId == 0 && blSegId == 0 && !terminated
      ensures ids == Ids(0, 15, map[], {})
      ensures forall i :: 0 <= i < c.noSeg ==> !segElDownload[i]
      ensures forall i :: 0 <= i < 2 * c.noSeg ==> iterTileList[i] == []
      ensures forall s :: 0 <= s < c.noSeg ==> buff.tileVer[s] == seq(c.noTile + 1, t => -1)
    {
      this.c := c;
      this.player := player;
      buff := new Buffer(c.noSeg, c.noTile);
      phase, iterId, reqSNum, finSNum, blSegId, elSegId, terminated := Idle, 0, 0, 0, 0, 0, false;
      ids := Ids(0, 15, map[], {});
      segElDownload := new bool[c.noSeg](i => false);
      iterTileList := new seq<int>[2 * c.noSeg](i => []);
      iterTileVersion := new int[2 * c.noSeg];
      iterReDecide := new bool[2 * c.noSeg];
    }

    /** One request and the entry of its predicted id in the maps. */
    method SendGetRequest(segId: int, faceId: int)
      modifies this`ids
      ensures ids == Send(old(ids), Chunk(segId, faceId))
    {
      var sessionId := ids.next;
      ids := ids.(next := ids.next + 2, open := ids.open + {sessionId});
      ids := ids.(cur := ids.cur + 2);
      if ids.cur !in ids.target {
        ids := ids.(target := ids.target[ids.cur := Chunk(segId, faceId)]);
      }
    }

    /** Requests for all tiles of the list, each noted in the list of the iteration. */
    method RequestTiles(segId: int, tiles: seq<int>)
      requires iterId < iterTileList.Length
      modifies this`ids, iterTileList
      ensures ids == SendAll(old(ids), segId, tiles)
      ensures iterTileList[..] == old(iterTileList[..])[iterId := old(iterTileList[iterId]) + tiles]
    {
      for i := 0 to |tiles|
        invariant ids == SendAll(old(ids), segId, tiles[..i])
        invariant iterTileList[iterId] == old(iterTileList[iterId]) + tiles[..i]
        invariant forall j :: 0 <= j < iterTileList.Length && j != iterId ==> iterTileList[j] == old(iterTileList[j])
      {
        assert tiles[..i + 1][..i] == tiles[..i];
        SendGetRequest(segId, tiles[i]);
        iterTileList[iterId] := iterTileList[iterId] + [tiles[i]];
      }
      assert tiles[..|tiles|] == tiles;
      assert iterTileList[..] == old(iterTileList[..])[iterId := old(iterTileList[iterId]) + tiles];
    }

    /** The tail of the adaptation function: wait for what was requested, or ask to be called again. */
    method Settle(first: bool)
      requires Shaped(c, Abs()) && iterId < 2 * c.noSeg
      modifies this`phase, iterReDecide
      ensures var d := old(Abs());
              Abs() == if d.req > 0
                       then d.(phase := Loading,
                               redecided := if first then d.redecided[d.iter := false] else d.redecided)
                       else d.(phase := Deciding(false))
    {
      if reqSNum > 0 {
        phase := Loading;
        if first {
          iterReDecide[iterId] := false;
        }
      } else {
        phase := Deciding(false);
      }
    }

    /** The request for the next base chunk. */
    method AdaptBase(first: bool)
      requires Shaped(c, Abs()) && iterId < 2 * c.noSeg
      modifies this`ids, this`reqSNum, this`finSNum, this`phase, iterTileVersion, iterReDecide
      ensures Abs() == DecideBase(old(Abs()), first)
    {
      iterTileVersion[iterId] := 0;
      SendGetRequest(blSegId, 0);
      reqSNum := 1;
      finSNum := 0;
      Settle(first);
    }

    /** The requests for the visible tiles, in the best version the estimate allows. */
    method AdaptTiles(mask: seq<bool>, est: real)
      requires Shaped(c, Abs()) && iterId < 2 * c.noSeg && reqSNum == 0
      modifies this`ids, this`reqSNum, this`finSNum, iterTileList, iterTileVersion
      ensures var d := old(Abs());
              var tiles := Visible(mask);
              var l := Pick(c.enhaBr, c.baseBr, |tiles|, est);
              Abs() == if l == 0 then d
                       else d.(ids := SendAll(d.ids, elSegId, tiles), tileVersion := d.tileVersion[d.iter := l],
                               req := |tiles|, fin := 0, tileList := d.tileList[d.iter := d.tileList[d.iter] + tiles])
    {
      var tiles := GetVisibleTile(mask);
      var l := FindVersion(c.enhaBr, c.baseBr, |tiles|, est);
      if l > 0 {
        iterTileVersion[iterId] := l;
        RequestTiles(elSegId, tiles);
        reqSNum := |tiles|;
        finSNum := 0;
      }
    }

    /** The requests for the tiles of the segment after the playing one, unless they are there already. */
    method AdaptNext(playing: int, mask: seq<bool>, est: real, first: bool)
      requires Shaped(c, Abs()) && iterId < 2 * c.noSeg && 0 <= playing + 1 < c.noSeg && reqSNum == 0
      modifies this`ids, this`reqSNum, this`finSNum, this`phase, this`elSegId,
               iterTileList, iterTileVersion, iterReDecide
      ensures var d, tiles := old(Abs()), Visible(mask);
              Abs() == if d.elDone[playing + 1] then d.(el := playing + 1, phase := Deciding(false))
                       else DecideEnhancement(c, d, first, playing + 1, tiles, Pick(c.enhaBr, c.baseBr, |tiles|, est))
    {
      elSegId := playing + 1;
      if !segElDownload[elSegId] {
        AdaptTiles(mask, est);
      }
      Settle(first);
    }

    /** One pass of the adaptation function: request the next base chunk, or the tiles of the next segment to
        play, or return, or ask to be called again. */
    method Adapt(mask: seq<bool>, est: real)
      requires Apart() && c.Valid() && Shaped(c, Abs()) && phase.Deciding? && iterId < 2 * c.noSeg
      requires player.playingSegId != c.noSeg - 1 ==> 0 <= player.playingSegId + 1 < c.noSeg
      modifies this, iterTileList, iterTileVersion, iterReDecide
      ensures Abs() == Decide(c, old(player.Abs()), old(Abs()), mask, est)
    {
      var first := phase.first;
      reqSNum := 0;
      if blSegId < c.noSeg - 1 && player.baseLayerBuff < (c.thres - 1) * 1000 {
        AdaptBase(first);
      } else if player.playingSegId == c.noSeg - 1 {
        phase := Stopped;
      } else {
        AdaptNext(player.playingSegId, mask, est, first);
      }
    }

    /** A mapped stream closes. */
    method OnStreamClose(stream: int)
      requires Apart() && c.Valid() && Shaped(c, Abs()) && phase.Loading?
      requires iterId < 2 * c.noSeg && stream in ids.target
      requires 0 <= ids.target[stream].seg < c.noSeg && 0 <= ids.target[stream].face <= c.noTile
      modifies this, buff.tileVer
      ensures Abs() == Close(c, old(Abs()), stream)
    {
      var chunk := ids.target[stream];
      ids := ids.(open := ids.open - {stream});
      finSNum := finSNum + 1;
      buff.UpdateTileVersion(chunk.seg, chunk.face, iterTileVersion[iterId]);
      if finSNum == reqSNum {
        phase := Ending(chunk);
      }
    }

    /** The tail of the close callback when all streams of the iteration are in. */
    method EndIteration()
      requires Apart() && c.Valid() && Shaped(c, Abs()) && phase.Ending? && 0 <= phase.chunk.seg < c.noSeg
      modifies this, segElDownload, player`baseLayerBuff
      ensures Abs() == Finish(c, old(Abs()))
      ensures player.Abs() == if old(phase).chunk.face == 0 then Receive(c, old(player.Abs())) else old(player.Abs())
    {
      var chunk := phase.chunk;
      if chunk.face > 0 {
        segElDownload[chunk.seg] := true;
      }
      if chunk.face == 0 {
        player.IncreBuffSize(c.sd);
        blSegId := blSegId + 1;
      }
      if chunk.seg == c.noSeg - 1 && chunk.face > 0 {
        terminated := true;
      }
      iterId := iterId + 1;
      phase := Deciding(true);
    }

    /** A data frame of a tile stream, late in the iteration. */
    method OnDataFrame(stream: int, mask: seq<bool>, room: real)
      requires Apart() && c.Valid() && Shaped(c, Abs()) && iterId < 2 * c.noSeg && stream in ids.target
      modifies this, iterTileList, iterReDecide
      ensures Abs() == Redecide(c, old(Abs()), stream, mask, room)
    {
      var segId := ids.target[stream].seg;
      iterReDecide[iterId] := true;
      var viewport := GetVisibleTile(mask);
      var add := SetDifference(viewport, iterTileList[iterId]);
      var l := FindVersion(c.enhaBr, 0, |add| * (c.sd / 1000), room);
      if |add| > 0 && l > 0 {
        RequestTiles(segId, add);
        reqSNum := |iterTileList[iterId]|;
      }
    }

    /** The initial stream closes and the adaptation starts after it. */
    method OnInitialClose()
      requires phase.Idle?
      modifies this
      ensures Abs() == Start(old(Abs()))
    {
      ids := ids.(cur := 13);
      blSegId := 0;
      phase := Deciding(true);
    }

    /** Whether the event can happen now. */
    method Can(e: Event) returns (can: bool)
      requires Apart() && Shaped(c, Abs())
      ensures can == Enabled(c, Whole(), e)
    {
      match e {
        case Poll => can := true;
        case Begin => can := phase.Idle?;
        case Decision(mask, _) => can := phase.Deciding? && |mask| == c.noTile;
        case StreamClose(stream) => can := phase.Loading? && stream in ids.open;
        case IterationEnd => can := phase.Ending?;
        case DataFrame(stream, mask, _) =>
          can := phase.Loading? && stream in ids.open && |mask| == c.noTile && stream in ids.target
            && ids.target[stream].face > 0 && iterId < iterReDecide.Length && !iterReDecide[iterId];
      }
    }

    /** The handler of an event, on both sides: the invariant and the event give it what it needs, and what it
        does to all objects is one step of a run. */
    method Do(e: Event, ghost origin: int)
      requires Apart() && Inv(c, Whole(), origin) && Enabled(c, Whole(), e)
      modifies Objects()
      ensures Apart() && Safe(c, old(Whole()), e) && Whole() == Next(c, old(Whole()), e)
    {
      InvSafe(c, Whole(), e, origin);
      match e {
        case Poll => player.Poll();
        case Begin => OnInitialClose();
        case Decision(mask, est) => Adapt(mask, est);
        case StreamClose(stream) => OnStreamClose(stream);
        case IterationEnd => EndIteration();
        case DataFrame(stream, mask, room) => OnDataFrame(stream, mask, room);
      }
    }
  }

  /** Player and client as they stand before the first poll: an initial state of the runs. */
  method Connect(c: Config, origin: int) returns (client: Client)
    requires c.Valid()
    ensures client.Apart() && client.c == c && fresh(client.Objects())
    ensures Init(c, client.Whole(), origin)
  {
    var player := new PlayerThread(c, origin);
    client := new Client(c, player);
  }
}
