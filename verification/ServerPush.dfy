/** The push server of server/src/server.cpp: a request on a face starts a chain of pushed segments, each
    push starting the next one when its stream closes. */
module ServerPush {
  import opened Options
  import opened WireFormat

  const FACES := 6
  const MAX_SEGMENTS := 20001

  type Face = f: nat | f < FACES

  datatype Push = Push(seg: nat, path: string)

  /** The response to one request: what was pushed on it and how often it was ended. */
  datatype Response = Response(face: Face, pushes: seq<Push>, ended: nat)

  /** A pushed stream that is still open, with what its close callback captured. */
  datatype Open = Open(res: nat, face: Face, seg: nat)

  /** The shared arrays and counters of the server, and the session: responses and open pushed streams. */
  datatype Server = Server(num: seq<int>, pushing: seq<bool>, rate: seq<string>, headed: nat, increased: bool,
                           responses: seq<Response>, open: seq<Open>)
  {
    predicate Valid()
    {
      && |num| == FACES && |pushing| == FACES && |rate| == FACES
      && forall i :: 0 <= i < |open| ==> open[i].res < |responses|
    }

    function End(res: nat): Server
      requires res < |responses|
    {
      this.(responses := responses[res := responses[res].(ended := responses[res].ended + 1)])
    }

    function Pushed(res: nat, face: Face, seg: nat): Server
      requires Valid() && res < |responses|
    {
      this.(num := num[face := num[face] - 1], pushing := pushing[face := true],
           responses := responses[res := responses[res].(pushes :=
             responses[res].pushes + [Push(seg, PushPath(seg, rate[face], face))])],
           open := open + [Open(res, face, seg)])
    }
  }

  function Remove(open: seq<Open>, i: nat): (rest: seq<Open>)
    requires i < |open|
    ensures |rest| == |open| - 1
    ensures forall k :: 0 <= k < |rest| ==> rest[k] == open[if k < i then k else k + 1]
    ensures forall o :: o in rest ==> o in open
    ensures forall o :: o in open && o != open[i] ==> o in rest
  {
    var rest := open[..i] + open[i + 1..];
    assert open == open[..i] + [open[i]] + open[i + 1..];
    rest
  }

  function Initial(): Server
  {
    Server(seq(FACES, _ => 0), seq(FACES, _ => false), seq(FACES, _ => ""), 0, false, [], [])
  }

  /** `push_remaining_files`, with no terminate request. */
  function PushRemaining(s: Server, res: nat, face: Face, seg: nat): (t: Server)
    requires s.Valid() && res < |s.responses|
    ensures t.Valid() && |t.responses| == |s.responses|
  {
    if seg >= MAX_SEGMENTS then s.End(res)
    else if s.num[face] == 0 then s
    else s.Pushed(res, face, seg)
  }

  /** The close callback of a pushed stream. */
  function Closed(s: Server, i: nat, error: bool): (t: Server)
    requires s.Valid() && i < |s.open|
    ensures t.Valid() && |t.responses| == |s.responses|
  {
    var o := s.open[i];
    var t := s.(open := Remove(s.open, i), increased := error && s.increased, headed := o.seg);
    if t.num[o.face] == 0 then t.(pushing := t.pushing[o.face := false]).End(o.res)
    else PushRemaining(t.(pushing := t.pushing[o.face := true]), o.res, o.face, o.seg + 1)
  }

  /** `handle`: the counter moves before the path is looked at, and a busy face only takes the new numbers. */
  function Handle(s: Server, face: Face, ask: Fields<string>): (t: Server)
    requires s.Valid() && !ask.Failing?
    ensures t.Valid() && |t.responses| == |s.responses| + 1
  {
    var t := (if s.increased then s else s.(headed := s.headed + 1, increased := true))
             .(responses := s.responses + [Response(face, [], 0)]);
    match ask
    case Incorrect => t
    case Fields(_, rate, num) =>
      var u := t.(rate := t.rate[face := rate], num := t.num[face := num]);
      if u.pushing[face] then u else PushRemaining(u, |s.responses|, face, u.headed)
  }

  /** A request, or the closing of the open stream at an index; there may be none there. */
  datatype Event = Request(face: Face, ask: Fields<string>) | Close(index: nat, error: bool)
  {
    predicate Failing()
    {
      Request? && ask.Failing?
    }
  }

  function Step(s: Server, e: Event): (t: Server)
    requires s.Valid()
    ensures t.Valid() && |t.responses| >= |s.responses|
  {
    match e
    case Request(face, ask) => if ask.Failing? then s else Handle(s, face, ask)
    case Close(i, error) => if i < |s.open| then Closed(s, i, error) else s
  }

  function Run(s: Server, events: seq<Event>): (t: Server)
    requires s.Valid()
    ensures t.Valid() && |t.responses| >= |s.responses|
  {
    if events == [] then s else Step(Run(s, events[..|events| - 1]), events[|events| - 1])
  }

  // ---------- every run ----------

  predicate Consecutive(pushes: seq<Push>)
  {
    forall i :: 0 <= i < |pushes| ==> pushes[i].seg == pushes[0].seg + i && pushes[i].seg < MAX_SEGMENTS
  }

  /** An open stream carries the last push of a response not yet ended, on a face marked as pushing. */
  predicate OpenOk(s: Server, o: Open)
    requires s.Valid() && o.res < |s.responses|
  {
    var r := s.responses[o.res];
    s.pushing[o.face] && r.face == o.face && r.ended == 0 && r.pushes != [] && r.pushes[|r.pushes| - 1].seg == o.seg
  }

  ghost predicate ResponsesOk(s: Server)
  {
    forall r :: 0 <= r < |s.responses| ==> Consecutive(s.responses[r].pushes) && s.responses[r].ended <= 1
  }

  /** One face has at most one stream in flight. */
  ghost predicate OneInFlight(s: Server)
  {
    forall i, j :: 0 <= i < j < |s.open| ==> s.open[i].face != s.open[j].face && s.open[i].res != s.open[j].res
  }

  ghost predicate Inv(s: Server)
  {
    && s.Valid() && ResponsesOk(s) && OneInFlight(s)
    && forall i :: 0 <= i < |s.open| ==> OpenOk(s, s.open[i])
  }

  /** No push of the face or of the response is in flight. */
  predicate Quiet(s: Server, res: nat, face: Face)
  {
    forall i :: 0 <= i < |s.open| ==> s.open[i].face != face && s.open[i].res != res
  }

  lemma EndInv(s: Server, res: nat, face: Face)
    requires Inv(s) && res < |s.responses| && Quiet(s, res, face) && s.responses[res].ended == 0
    ensures Inv(s.End(res))
  {
  }

  lemma PushedInv(s: Server, res: nat, face: Face, seg: nat)
    requires Inv(s) && res < |s.responses| && Quiet(s, res, face) && seg < MAX_SEGMENTS
    requires var r := s.responses[res];
             r.face == face && r.ended == 0 && (r.pushes == [] || r.pushes[|r.pushes| - 1].seg + 1 == seg)
    ensures Inv(s.Pushed(res, face, seg))
  {
    var t := s.Pushed(res, face, seg);
    var pushes, more := s.responses[res].pushes, t.responses[res].pushes;
    assert Consecutive(more) by {
      assert Consecutive(pushes);
      assert pushes <= more;
    }
    assert OneInFlight(t);
    forall i | 0 <= i < |t.open| ensures OpenOk(t, t.open[i]) {
      if i < |s.open| {
        assert OpenOk(s, s.open[i]);
      }
    }
  }

  /** The state of the close callback when it decides. */
  function Marked(s: Server, i: nat, error: bool): Server
    requires s.Valid() && i < |s.open|
  {
    var o := s.open[i];
    s.(open := Remove(s.open, i), increased := error && s.increased, headed := o.seg,
       pushing := s.pushing[o.face := s.num[o.face] != 0])
  }

  /** Setting or clearing the mark of a face none of whose pushes is in flight. */
  lemma MarkInv(s: Server, i: nat, error: bool, mark: bool)
    requires Inv(s) && i < |s.open|
    ensures var o := s.open[i];
            var t := s.(open := Remove(s.open, i), increased := error && s.increased, headed := o.seg,
                        pushing := s.pushing[o.face := mark]);
            Inv(t) && Quiet(t, o.res, o.face)
  {
    var rest := Remove(s.open, i);
    assert forall k :: 0 <= k < |rest| ==>
                         rest[k].face != s.open[i].face && rest[k].res != s.open[i].res && OpenOk(s, rest[k]);
  }

  lemma PushRemainingInv(s: Server, res: nat, face: Face, seg: nat)
    requires Inv(s) && res < |s.responses| && Quiet(s, res, face)
    requires var r := s.responses[res];
             r.face == face && r.ended == 0 && (r.pushes == [] || r.pushes[|r.pushes| - 1].seg + 1 == seg)
    ensures Inv(PushRemaining(s, res, face, seg))
  {
    if seg >= MAX_SEGMENTS {
      EndInv(s, res, face);
    } else if s.num[face] != 0 {
      PushedInv(s, res, face, seg);
    }
  }

  lemma ArriveInv(s: Server, face: Face, headed: nat, rate: seq<string>, num: seq<int>)
    requires Inv(s) && |rate| == |num| == FACES
    ensures Inv(s.(headed := headed, increased := true, rate := rate, num := num,
                   responses := s.responses + [Response(face, [], 0)]))
  {
    assert forall i :: 0 <= i < |s.open| ==> OpenOk(s, s.open[i]);
  }

  lemma HandleInv(s: Server, face: Face, ask: Fields<string>)
    requires Inv(s) && !ask.Failing?
    ensures Inv(Handle(s, face, ask))
  {
    var headed := if s.increased then s.headed else s.headed + 1;
    if ask.Incorrect? {
      ArriveInv(s, face, headed, s.rate, s.num);
    } else {
      var rate, num := s.rate[face := ask.rate], s.num[face := ask.num];
      ArriveInv(s, face, headed, rate, num);
      var u := s.(headed := headed, increased := true, rate := rate, num := num,
                   responses := s.responses + [Response(face, [], 0)]);
      assert forall i :: 0 <= i < |s.open| ==> OpenOk(s, s.open[i]);
      if !u.pushing[face] {
        PushRemainingInv(u, |s.responses|, face, headed);
      }
    }
  }

  lemma ClosedInv(s: Server, i: nat, error: bool)
    requires Inv(s) && i < |s.open|
    ensures Inv(Closed(s, i, error))
  {
    var o := s.open[i];
    assert OpenOk(s, o);
    MarkInv(s, i, error, s.num[o.face] != 0);
    var t := Marked(s, i, error);
    if s.num[o.face] == 0 {
      EndInv(t, o.res, o.face);
    } else {
      PushRemainingInv(t, o.res, o.face, o.seg + 1);
    }
  }

  lemma {:induction false} RunInv(s: Server, events: seq<Event>)
    requires Inv(s)
    ensures Inv(Run(s, events))
  {
    if events != [] {
      var t := Run(s, events[..|events| - 1]);
      RunInv(s, events[..|events| - 1]);
      match events[|events| - 1]
      case Request(face, ask) => if !ask.Failing? { HandleInv(t, face, ask); }
      case Close(i, error) => if i < |t.open| { ClosedInv(t, i, error); }
    }
  }

  /** In every run of the server, whatever the requests and the order of the closes: each response pushes
      consecutive segments below the maximum and is ended at most once, never while one of its pushes is in
      flight; and each face has at most one push in flight. */
  lemma EveryRun(events: seq<Event>)
    ensures var s := Run(Initial(), events);
            && (forall r :: 0 <= r < |s.responses| ==> Consecutive(s.responses[r].pushes) && s.responses[r].ended <= 1)
            && (forall i, j :: 0 <= i < j < |s.open| ==> s.open[i].face != s.open[j].face)
            && (forall i :: 0 <= i < |s.open| ==> s.responses[s.open[i].res].ended == 0)
  {
    RunInv(Initial(), events);
    var s := Run(Initial(), events);
    assert forall i :: 0 <= i < |s.open| ==> OpenOk(s, s.open[i]);
  }

  // ---------- what a request asks for ----------

  predicate NoRequest(events: seq<Event>, face: Face)
  {
    forall i :: 0 <= i < |events| ==> !(events[i].Request? && events[i].face == face)
  }

  predicate InFlight(s: Server, face: Face)
  {
    exists o :: o in s.open && o.face == face
  }

  /** What a request asks for, on which response, after how many pushes there, and where its chain starts. A request
      on an idle face gets its own response; one on a busy face takes over the response that is running. */
  datatype Job = Job(res: nat, face: Face, start: nat, rate: string, k: int, before: nat)

  /** How many segments the job has pushed. */
  function Made(s: Server, job: Job): int
    requires job.res < |s.responses|
  {
    |s.responses[job.res].pushes| - job.before
  }

  /** The pushes of a job so far: consecutive segments from its start, each under its own path. */
  ghost predicate Progress(job: Job, r: Response)
  {
    var n := |r.pushes| - job.before;
    && r.face == job.face && n >= 0 && (job.before > 0 ==> job.start > 0)
    && job.start + n <= (if job.start < MAX_SEGMENTS then MAX_SEGMENTS else job.start)
    && forall m :: job.before <= m < |r.pushes| ==>
                     var seg := job.start + (m - job.before);
                     r.pushes[m] == Push(seg, PushPath(seg, job.rate, job.face))
  }

  /** How a job stands: what is pushed and what is still wanted always make k, and either the last push is
      in flight, or the response was ended, once. */
  ghost predicate Serving(s: Server, job: Job)
    requires s.Valid()
  {
    && job.res < |s.responses|
    && var r := s.responses[job.res];
       var n := |r.pushes| - job.before;
       && Progress(job, r) && s.rate[job.face] == job.rate
       && n + s.num[job.face] == job.k && (job.k >= 0 ==> n <= job.k)
       && if r.ended == 0 then r.pushes != [] && Open(job.res, job.face, job.start + n - 1) in s.open
          else
            && r.ended == 1 && !InFlight(s, job.face)
            && (n == job.k || job.start + n >= MAX_SEGMENTS)
            && (s.pushing[job.face] <==> r.pushes != [] && n != job.k)
  }

  /** What the standing of a job depends on is the same in both states. */
  ghost predicate SameFor(s: Server, t: Server, job: Job)
    requires s.Valid() && t.Valid() && job.res < |s.responses| <= |t.responses|
  {
    var f := job.face;
    && t.num[f] == s.num[f] && t.pushing[f] == s.pushing[f] && t.rate[f] == s.rate[f]
    && t.responses[job.res] == s.responses[job.res]
    && forall o: Open :: o.face == f ==> (o in t.open <==> o in s.open)
  }

  lemma SameServing(s: Server, t: Server, job: Job)
    requires s.Valid() && t.Valid() && job.res < |s.responses| <= |t.responses|
    requires Serving(s, job) && SameFor(s, t, job)
    ensures Serving(t, job)
  {
  }

  lemma OtherRequest(s: Server, job: Job, face: Face, ask: Fields<string>)
    requires Inv(s) && Serving(s, job) && face != job.face && !ask.Failing?
    ensures Serving(Handle(s, face, ask), job)
  {
    SameServing(s, Handle(s, face, ask), job);
  }

  lemma OtherClose(s: Server, job: Job, i: nat, error: bool)
    requires Inv(s) && Serving(s, job) && i < |s.open| && s.open[i].face != job.face
    ensures Serving(Closed(s, i, error), job)
  {
    var o := s.open[i];
    assert OpenOk(s, o);
    SameServing(s, Closed(s, i, error), job);
  }

  /** A job after its push closed and before the callback decides: the face is marked by whether more is wanted. */
  ghost predicate Between(t: Server, job: Job)
    requires t.Valid() && job.res < |t.responses|
  {
    var r := t.responses[job.res];
    && Progress(job, r) && t.rate[job.face] == job.rate && r.ended == 0 && r.pushes != []
    && Made(t, job) + t.num[job.face] == job.k && (job.k >= 0 ==> Made(t, job) <= job.k)
    && Quiet(t, job.res, job.face) && (t.pushing[job.face] <==> t.num[job.face] != 0)
  }

  lemma EndServes(t: Server, job: Job)
    requires t.Valid() && job.res < |t.responses| && Between(t, job)
    requires t.num[job.face] == 0 || job.start + Made(t, job) >= MAX_SEGMENTS
    ensures Serving(t.End(job.res), job)
  {
  }

  lemma PushServes(t: Server, job: Job)
    requires t.Valid() && job.res < |t.responses| && Between(t, job)
    requires t.num[job.face] != 0 && job.start + Made(t, job) < MAX_SEGMENTS
    ensures Serving(t.Pushed(job.res, job.face, job.start + Made(t, job)), job)
  {
    var n := Made(t, job);
    var u := t.Pushed(job.res, job.face, job.start + n);
    assert u.open[|t.open|] == Open(job.res, job.face, job.start + n);
  }

  lemma OwnBetween(s: Server, job: Job, i: nat, error: bool)
    requires Inv(s) && Serving(s, job) && i < |s.open| && s.open[i].face == job.face
    ensures s.open[i].res == job.res && s.open[i].seg + 1 == job.start + Made(s, job)
    ensures Inv(Marked(s, i, error)) && Between(Marked(s, i, error), job)
  {
    var o := s.open[i];
    assert o in s.open;
    assert o == Open(job.res, job.face, job.start + Made(s, job) - 1);
    MarkInv(s, i, error, s.num[o.face] != 0);
  }

  lemma OwnClose(s: Server, job: Job, i: nat, error: bool)
    requires Inv(s) && Serving(s, job) && i < |s.open| && s.open[i].face == job.face
    ensures Serving(Closed(s, i, error), job)
  {
    OwnBetween(s, job, i, error);
    var t := Marked(s, i, error);
    if t.num[job.face] == 0 || s.open[i].seg + 1 >= MAX_SEGMENTS {
      EndServes(t, job);
    } else {
      PushServes(t, job);
    }
  }

  lemma StepServing(s: Server, job: Job, e: Event)
    requires Inv(s) && Serving(s, job) && !(e.Request? && e.face == job.face)
    ensures Serving(Step(s, e), job)
  {
    match e
    case Request(other, what) => if !what.Failing? { OtherRequest(s, job, other, what); }
    case Close(i, error) =>
      if i < |s.open| {
        if s.open[i].face == job.face { OwnClose(s, job, i, error); } else { OtherClose(s, job, i, error); }
      }
  }

  /** Whatever happens but further requests on its face, a job stays served. */
  lemma {:induction false} RunServing(s: Server, job: Job, events: seq<Event>)
    requires Inv(s) && Serving(s, job) && NoRequest(events, job.face)
    ensures Serving(Run(s, events), job)
  {
    if events != [] {
      var before := events[..|events| - 1];
      RunServing(s, job, before);
      RunInv(s, before);
      StepServing(Run(s, before), job, events[|events| - 1]);
    }
  }

  // ---------- progress ----------

  /** How many pushes of the face have closed in a run. */
  function Closes(s: Server, events: seq<Event>, face: Face): nat
    requires s.Valid()
  {
    if events == [] then 0
    else
      var before, e := events[..|events| - 1], events[|events| - 1];
      var open := Run(s, before).open;
      Closes(s, before, face) + if e.Close? && e.index < |open| && open[e.index].face == face then 1 else 0
  }

  /** How many segments a job will push. */
  function Want(job: Job): (n: nat)
  {
    if job.start >= MAX_SEGMENTS || job.k == 0 then 0
    else if 0 < job.k && job.start + job.k <= MAX_SEGMENTS then job.k
    else MAX_SEGMENTS - job.start
  }

  /** Pushes made, and one more for the end. */
  function Done(s: Server, job: Job): int
    requires job.res < |s.responses|
  {
    Made(s, job) + s.responses[job.res].ended
  }

  lemma OwnCount(s: Server, job: Job, i: nat, error: bool)
    requires Inv(s) && Serving(s, job) && i < |s.open| && s.open[i].face == job.face
    ensures Done(Closed(s, i, error), job) == Done(s, job) + 1
  {
    OwnBetween(s, job, i, error);
  }

  lemma OtherCount(s: Server, job: Job, e: Event)
    requires Inv(s) && job.res < |s.responses| && !(e.Request? && e.face == job.face)
    requires e.Close? && e.index < |s.open| ==> s.open[e.index].res != job.res
    ensures Done(Step(s, e), job) == Done(s, job)
  {
  }

  lemma {:induction false} JobCount(t: Server, job: Job, events: seq<Event>)
    requires Inv(t) && Serving(t, job) && NoRequest(events, job.face)
    ensures Serving(Run(t, events), job) && Done(Run(t, events), job) == Done(t, job) + Closes(t, events, job.face)
  {
    RunServing(t, job, events);
    if events != [] {
      var before, e := events[..|events| - 1], events[|events| - 1];
      JobCount(t, job, before);
      RunInv(t, before);
      var u := Run(t, before);
      if e.Close? && e.index < |u.open| && u.open[e.index].face == job.face {
        OwnCount(u, job, e.index, e.error);
      } else {
        assert e.Close? && e.index < |u.open| ==> OpenOk(u, u.open[e.index]);
        OtherCount(u, job, e);
      }
    }
  }

  /** How far a job is after so many steps, each of them a push or the end. */
  ghost predicate Stands(u: Server, job: Job, steps: int)
    requires u.Valid() && job.res < |u.responses|
  {
    var want := Want(job);
    && 0 <= steps <= want + 1
    && Made(u, job) == (if steps <= want then steps else want)
    && u.responses[job.res].ended == (if steps <= want then 0 else 1)
    && (InFlight(u, job.face) <==> steps <= want)
  }

  lemma ServingStands(u: Server, job: Job)
    requires Inv(u) && Serving(u, job)
    ensures Stands(u, job, Done(u, job))
  {
  }

  /** The number of closed pushes alone says how far a job is. */
  lemma JobByCloses(t: Server, job: Job, events: seq<Event>)
    requires Inv(t) && Serving(t, job) && NoRequest(events, job.face)
    ensures job.res < |Run(t, events).responses|
    ensures Stands(Run(t, events), job, Done(t, job) + Closes(t, events, job.face))
  {
    JobCount(t, job, events);
    RunInv(t, events);
    ServingStands(Run(t, events), job);
  }

  /** Once nothing of the face is in flight any more: all segments were pushed and the face is idle exactly if they
      lie below the maximum; else the pushes stop there, and unless the response has none the face stays marked. */
  ghost predicate Finished(u: Server, job: Job)
    requires u.Valid() && job.res < |u.responses|
  {
    var r := u.responses[job.res];
    && Progress(job, r) && r.ended == 1
    && (Made(u, job) == job.k && !u.pushing[job.face]
        <==> 0 <= job.k && (job.k == 0 || job.start + job.k <= MAX_SEGMENTS))
    && (!(0 <= job.k && (job.k == 0 || job.start + job.k <= MAX_SEGMENTS)) ==>
          && Made(u, job) == (if job.start < MAX_SEGMENTS then MAX_SEGMENTS - job.start else 0)
          && (u.pushing[job.face] <==> r.pushes != []))
  }

  lemma JobFinished(u: Server, job: Job)
    requires u.Valid() && Serving(u, job) && !InFlight(u, job.face)
    ensures Finished(u, job)
  {
    assert forall o :: o in u.open ==> o.face != job.face;
  }

  // ---------- a request on an idle face ----------

  /** Right after a request for k segments on an idle face. */
  lemma ServeStart(s: Server, face: Face, rate: string, k: int)
    requires Inv(s) && !s.pushing[face] && k != 0
    ensures var t := Handle(s, face, Fields(face, rate, k));
            var job := Job(|s.responses|, face, t.headed, rate, k, 0);
            Serving(t, job) && Done(t, job) == 1
  {
    var t := Handle(s, face, Fields(face, rate, k));
    assert forall i :: 0 <= i < |s.open| ==> OpenOk(s, s.open[i]);
    if t.headed < MAX_SEGMENTS {
      assert t.open[|t.open| - 1] == Open(|s.responses|, face, t.headed);
    }
  }

  /** A request for k segments on an idle face, and any events after it but further requests on that face:
      requests on other faces, and the closes of any pushes in any order. */
  lemma Serve(s: Server, face: Face, rate: string, k: int, events: seq<Event>)
    requires Inv(s) && !s.pushing[face] && k != 0 && NoRequest(events, face)
    ensures var t := Handle(s, face, Fields(face, rate, k));
            Serving(Run(t, events), Job(|s.responses|, face, t.headed, rate, k, 0))
  {
    var ask := Fields(face, rate, k);
    var t := Handle(s, face, ask);
    HandleInv(s, face, ask);
    ServeStart(s, face, rate, k);
    RunServing(t, Job(|s.responses|, face, t.headed, rate, k, 0), events);
  }

  /** Once nothing of the face is in flight any more, the request has been served: exactly k consecutive
      segments pushed, the response ended once and the face idle again. This holds if and only if the k
      segments lie below the maximum. Otherwise the pushes stop at the maximum, and unless there were none the
      face stays marked as pushing. */
  lemma ServedExactly(s: Server, face: Face, rate: string, k: int, events: seq<Event>)
    requires Inv(s) && !s.pushing[face] && k != 0 && NoRequest(events, face)
    requires !InFlight(Run(Handle(s, face, Fields(face, rate, k)), events), face)
    ensures var t := Handle(s, face, Fields(face, rate, k));
            var u := Run(t, events);
            var r := u.responses[|s.responses|];
            var job := Job(|s.responses|, face, t.headed, rate, k, 0);
            && Progress(job, r) && r.ended == 1
            && (|r.pushes| == k && !u.pushing[face] <==> 0 < k && t.headed + k <= MAX_SEGMENTS)
            && (!(0 < k && t.headed + k <= MAX_SEGMENTS) ==>
                  && |r.pushes| == (if t.headed < MAX_SEGMENTS then MAX_SEGMENTS - t.headed else 0)
                  && (u.pushing[face] <==> t.headed < MAX_SEGMENTS))
  {
    Serve(s, face, rate, k, events);
    var t := Handle(s, face, Fields(face, rate, k));
    JobFinished(Run(t, events), Job(|s.responses|, face, t.headed, rate, k, 0));
  }

  /** The number of closed pushes alone says how far a request is, under any interleaving: after j closes, one
      more segment than that is pushed, up to all of them; and the last close, and no other, ends the response
      and leaves nothing in flight. */
  lemma ServedByCloses(s: Server, face: Face, rate: string, k: int, events: seq<Event>)
    requires Inv(s) && !s.pushing[face] && k != 0 && NoRequest(events, face)
    ensures var t := Handle(s, face, Fields(face, rate, k));
            var u := Run(t, events);
            var r := u.responses[|s.responses|];
            var want := Want(Job(|s.responses|, face, t.headed, rate, k, 0));
            var j := Closes(t, events, face);
            && j <= want
            && |r.pushes| == (if j < want then j + 1 else want)
            && r.ended == (if j < want then 0 else 1)
            && (InFlight(u, face) <==> j < want)
  {
    var t := Handle(s, face, Fields(face, rate, k));
    HandleInv(s, face, Fields(face, rate, k));
    ServeStart(s, face, rate, k);
    JobByCloses(t, Job(|s.responses|, face, t.headed, rate, k, 0), events);
  }

  // ---------- a request on a busy face ----------

  /** What a request on any face, busy or not, leaves in the shared arrays: its rate, and its count less what was
      pushed at once; nothing of the other faces. */
  lemma RequestStored(s: Server, face: Face, rate: string, k: int)
    requires Inv(s)
    ensures var t := Handle(s, face, Fields(face, rate, k));
            && t.rate == s.rate[face := rate]
            && t.num[face] + |t.responses[|s.responses|].pushes| == k
            && (s.pushing[face] ==> t.num[face] == k && t.pushing == s.pushing && t.open == s.open)
            && forall f: Face :: f != face ==> t.num[f] == s.num[f] && t.pushing[f] == s.pushing[f]
  {
  }

  /** What a request for k segments makes of the response whose push is in flight on its face. */
  function Taken(s: Server, i: nat, rate: string, k: int): Job
    requires s.Valid() && i < |s.open|
  {
    var o := s.open[i];
    Job(o.res, o.face, o.seg + 1, rate, k, |s.responses[o.res].pushes|)
  }

  /** In t the request was handed to the response in flight, which has made its pushes so far. */
  ghost predicate TakenAt(s: Server, i: nat, rate: string, k: int, t: Server)
    requires s.Valid() && i < |s.open|
  {
    var o := s.open[i];
    && t.Valid() && Serving(t, Taken(s, i, rate, k)) && Done(t, Taken(s, i, rate, k)) == 0
    && o.res < |s.responses| && o.res < |t.responses| && t.responses[o.res].pushes == s.responses[o.res].pushes != []
    && 0 <= o.seg < MAX_SEGMENTS
  }

  lemma TakenStart(s: Server, i: nat, rate: string, k: int)
    requires Inv(s) && i < |s.open|
    ensures var t := Handle(s, s.open[i].face, Fields(s.open[i].face, rate, k));
            Inv(t) && TakenAt(s, i, rate, k, t) && Ignored(t, |s.responses|)
  {
    var o := s.open[i];
    HandleInv(s, o.face, Fields(o.face, rate, k));
    assert OpenOk(s, o);
    assert forall j :: 0 <= j < |s.open| ==> s.open[j].res < |s.responses|;
  }

  /** A request on a face with a push in flight is served by the response that is running there: from the next segment
      on, at the new rate, its k segments follow those already made; after j closes j of them are pushed, and the close
      after the last one ends the response. Its own response gets nothing. */
  lemma BusyByCloses(s: Server, i: nat, rate: string, k: int, t: Server, events: seq<Event>)
    requires Inv(s) && i < |s.open| && t == Handle(s, s.open[i].face, Fields(s.open[i].face, rate, k))
    requires NoRequest(events, s.open[i].face)
    ensures var o := s.open[i];
            var u, job, j := Run(t, events), Taken(s, i, rate, k), Closes(t, events, o.face);
            && Progress(job, u.responses[o.res]) && Stands(u, job, j)
            && s.responses[o.res].pushes <= u.responses[o.res].pushes && Ignored(u, |s.responses|)
  {
    var job := Taken(s, i, rate, k);
    TakenStart(s, i, rate, k);
    JobByCloses(t, job, events);
    RunServing(t, job, events);
    PushesKept(t, job.res, events);
    IgnoredForever(t, |s.responses|, events);
  }

  lemma {:induction false} PushesKept(s: Server, res: nat, events: seq<Event>)
    requires Inv(s) && res < |s.responses|
    ensures s.responses[res].pushes <= Run(s, events).responses[res].pushes
  {
    if events != [] {
      var before := events[..|events| - 1];
      PushesKept(s, res, before);
      RunInv(s, before);
      PushesKeptOnce(Run(s, before), res, events[|events| - 1]);
    }
  }

  lemma PushesKeptOnce(s: Server, res: nat, e: Event)
    requires Inv(s) && res < |s.responses|
    ensures s.responses[res].pushes <= Step(s, e).responses[res].pushes
  {
  }

  /** What became of a request for k segments on a face that had segment `seg` in flight, after the pushes `was`. */
  ghost predicate Carried(u: Server, o: Open, was: seq<Push>, rate: string, k: int)
    requires u.Valid() && o.res < |u.responses|
  {
    var r, n := u.responses[o.res], |was|;
    && r.ended == 1 && was <= r.pushes
    && (forall m :: n <= m < |r.pushes| ==>
                      var seg := o.seg + 1 + (m - n); r.pushes[m] == Push(seg, PushPath(seg, rate, o.face)))
    && (|r.pushes| == n + k && !u.pushing[o.face] <==> 0 <= k && o.seg + k < MAX_SEGMENTS)
    && (!(0 <= k && o.seg + k < MAX_SEGMENTS) ==> |r.pushes| == n + (MAX_SEGMENTS - 1 - o.seg) && u.pushing[o.face])
  }

  lemma FinishedCarried(u: Server, o: Open, was: seq<Push>, rate: string, k: int)
    requires u.Valid() && o.res < |u.responses| && was != [] && was <= u.responses[o.res].pushes
    requires 0 <= o.seg < MAX_SEGMENTS && Finished(u, Job(o.res, o.face, o.seg + 1, rate, k, |was|))
    ensures Carried(u, o, was, rate, k)
  {
  }

  lemma JobOver(t: Server, job: Job, events: seq<Event>)
    requires Inv(t) && Serving(t, job) && NoRequest(events, job.face) && !InFlight(Run(t, events), job.face)
    ensures Run(t, events).Valid() && job.res < |Run(t, events).responses| && Finished(Run(t, events), job)
  {
    RunServing(t, job, events);
    JobFinished(Run(t, events), job);
  }

  lemma TakenCarried(s: Server, i: nat, rate: string, k: int, t: Server, events: seq<Event>)
    requires s.Valid() && i < |s.open| && Inv(t) && TakenAt(s, i, rate, k, t)
    requires NoRequest(events, s.open[i].face) && !InFlight(Run(t, events), s.open[i].face)
    ensures var u, o := Run(t, events), s.open[i];
            u.Valid() && o.res < |u.responses| && Carried(u, o, s.responses[o.res].pushes, rate, k)
  {
    var o := s.open[i];
    JobOver(t, Taken(s, i, rate, k), events);
    PushesKept(t, o.res, events);
    FinishedCarried(Run(t, events), o, s.responses[o.res].pushes, rate, k);
  }

  /** Once nothing is in flight there any more, exactly the k segments were pushed and the face is idle if and only if
      they lie below the maximum; otherwise the pushes stop there and the face stays marked. */
  lemma BusyExactly(s: Server, i: nat, rate: string, k: int, t: Server, events: seq<Event>)
    requires Inv(s) && i < |s.open| && t == Handle(s, s.open[i].face, Fields(s.open[i].face, rate, k))
    requires NoRequest(events, s.open[i].face) && !InFlight(Run(t, events), s.open[i].face)
    ensures var u, o := Run(t, events), s.open[i];
            o.res < |s.responses| && o.res < |u.responses| && Carried(u, o, s.responses[o.res].pushes, rate, k)
  {
    TakenStart(s, i, rate, k);
    TakenCarried(s, i, rate, k, t, events);
  }

  // ---------- every request can be carried to its end ----------

  lemma {:induction false} RunFrom(s: Server, e: Event, rest: seq<Event>)
    requires s.Valid()
    ensures Run(s, [e] + rest) == Run(Step(s, e), rest)
  {
    var events := [e] + rest;
    if rest == [] {
      assert events[..0] == [] && Run(s, []) == s;
    } else {
      var n := |rest| - 1;
      RunFrom(s, e, rest[..n]);
      assert events[..|events| - 1] == [e] + rest[..n];
    }
  }

  /** Closing the pushes of a job one after another gets it done. */
  lemma {:induction false} Drain(s: Server, job: Job) returns (events: seq<Event>)
    requires Inv(s) && Serving(s, job)
    ensures NoRequest(events, job.face) && !InFlight(Run(s, events), job.face)
    decreases MAX_SEGMENTS + 1 + job.start - Done(s, job)
  {
    if s.responses[job.res].ended == 1 {
      events := [];
    } else {
      var o := Open(job.res, job.face, job.start + Made(s, job) - 1);
      var i: nat :| i < |s.open| && s.open[i] == o;
      OwnClose(s, job, i, false);
      OwnCount(s, job, i, false);
      ClosedInv(s, i, false);
      var rest := Drain(Closed(s, i, false), job);
      events := [Close(i, false)] + rest;
      RunFrom(s, Close(i, false), rest);
    }
  }

  /** So every request on an idle face can be carried to its end. */
  lemma Finishes(s: Server, face: Face, rate: string, k: int) returns (events: seq<Event>)
    requires Inv(s) && !s.pushing[face] && k != 0
    ensures NoRequest(events, face) && !InFlight(Run(Handle(s, face, Fields(face, rate, k)), events), face)
  {
    var ask := Fields(face, rate, k);
    var t := Handle(s, face, ask);
    HandleInv(s, face, ask);
    Serve(s, face, rate, k, []);
    assert Run(t, []) == t;
    events := Drain(t, Job(|s.responses|, face, t.headed, rate, k, 0));
  }

  /** The first request of a server leaves its face marked with nothing in flight, in some run, exactly when
      its count is negative or reaches past the maximum. */
  lemma FirstRequest(face: Face, rate: string, k: int) returns (events: seq<Event>)
    requires k != 0
    ensures var s := Run(Initial(), [Request(face, Fields(face, rate, k))] + events);
            NoRequest(events, face) && !InFlight(s, face) && (s.pushing[face] <==> k < 0 || 1 + k > MAX_SEGMENTS)
  {
    var s := Initial();
    events := Finishes(s, face, rate, k);
    ServedExactly(s, face, rate, k, events);
    RunFrom(s, Request(face, Fields(face, rate, k)), events);
  }

  /** The client reads from every path the server pushes for a request the segment and the face it stands
      for, and the rate too when the request came from the client. */
  lemma ClientReads(job: Job, r: Response, push: Push, rate: int)
    requires Progress(job, r) && job.before <= |r.pushes| && push in r.pushes[job.before..]
    ensures SegFromUri(push.path) == Some(push.seg) && FaceFromUri(push.path) == Some(job.face)
    ensures job.rate == Print(rate) ==> RateOf(push.path) == Fits(rate)
  {
    var m :| job.before <= m < |r.pushes| && r.pushes[m] == push;
    assert push.path == PushPath(push.seg, job.rate, job.face) && push.seg < MAX_SEGMENTS;
    ReadBack(push.path, push.seg, job.rate, job.face, rate);
  }

  lemma ReadBack(path: string, seg: nat, text: string, face: nat, rate: int)
    requires path == PushPath(seg, text, face)
    ensures SegFromUri(path) == Fits(seg) && FaceFromUri(path) == Fits(face)
    ensures text == Print(rate) ==> RateOf(path) == Fits(rate)
  {
    PushedSegFace(seg, text, face);
    if text == Print(rate) {
      PushRoundTrip(seg, rate, face);
    }
  }

  // ---------- where chains start ----------

  predicate OnlyRequests(events: seq<Event>)
  {
    forall i :: 0 <= i < |events| ==> events[i].Request?
  }

  /** Where a request that arrives now would start its chain. */
  function NextStart(s: Server): nat
  {
    if s.increased then s.headed else s.headed + 1
  }

  lemma {:induction false} RequestsShareStart(s: Server, events: seq<Event>)
    requires s.Valid() && OnlyRequests(events)
    ensures NextStart(Run(s, events)) == NextStart(s)
  {
    if events != [] {
      var before := events[..|events| - 1];
      RequestsShareStart(s, before);
      assert events[|events| - 1].Request?;
    }
  }

  /** After a stream closes, all requests up to the next close start at one segment, on whatever faces and
      whether or not they start a chain: the one after the closed segment, or, when the close was an error and a
      request arrived after the last close without one, the closed segment again. */
  lemma RoundStart(s: Server, i: nat, error: bool, events: seq<Event>, face: Face, ask: Fields<string>)
    requires s.Valid() && i < |s.open| && OnlyRequests(events) && !ask.Failing?
    ensures Handle(Run(Closed(s, i, error), events), face, ask).headed
         == if error && s.increased then s.open[i].seg else s.open[i].seg + 1
  {
    RequestsShareStart(Closed(s, i, error), events);
  }

  // ---------- requests that are never answered ----------

  /** Nothing was pushed on the response, it was not ended, and no callback refers to it. */
  predicate Ignored(s: Server, res: nat)
  {
    && res < |s.responses| && s.responses[res].pushes == [] && s.responses[res].ended == 0
    && forall i :: 0 <= i < |s.open| ==> s.open[i].res != res
  }

  lemma IgnoredHandle(s: Server, res: nat, face: Face, ask: Fields<string>)
    requires Inv(s) && Ignored(s, res) && !ask.Failing?
    ensures Ignored(Handle(s, face, ask), res)
  {
  }

  lemma IgnoredClosed(s: Server, res: nat, i: nat, error: bool)
    requires Inv(s) && Ignored(s, res) && i < |s.open|
    ensures Ignored(Closed(s, i, error), res)
  {
  }

  lemma IgnoredStep(s: Server, res: nat, e: Event)
    requires Inv(s) && Ignored(s, res)
    ensures Ignored(Step(s, e), res)
  {
    match e
    case Request(face, ask) => if !ask.Failing? { IgnoredHandle(s, res, face, ask); }
    case Close(i, error) => if i < |s.open| { IgnoredClosed(s, res, i, error); }
  }

  lemma {:induction false} IgnoredForever(s: Server, res: nat, events: seq<Event>)
    requires Inv(s) && Ignored(s, res)
    ensures Ignored(Run(s, events), res)
  {
    if events != [] {
      var before := events[..|events| - 1];
      IgnoredForever(s, res, before);
      RunInv(s, before);
      IgnoredStep(Run(s, before), res, events[|events| - 1]);
    }
  }

  /** A request is ignored at once if its path is incorrect, or its face is pushing, or it asks for no
      segment while there are some. */
  lemma IgnoredAtOnce(s: Server, face: Face, ask: Fields<string>)
    requires Inv(s) && !ask.Failing?
    ensures var t := Handle(s, face, ask);
            Ignored(t, |s.responses|)
            <==> ask.Incorrect? || s.pushing[face] || (ask.num == 0 && t.headed < MAX_SEGMENTS)
  {
  }

  /** And it is never answered, in any run, if and only if it is ignored at once. */
  lemma NeverAnswered(s: Server, face: Face, ask: Fields<string>)
    requires Inv(s) && !ask.Failing?
    ensures var t := Handle(s, face, ask);
            (forall events :: Ignored(Run(t, events), |s.responses|))
            <==> ask.Incorrect? || s.pushing[face] || (ask.num == 0 && t.headed < MAX_SEGMENTS)
  {
    var t := Handle(s, face, ask);
    var res := |s.responses|;
    HandleInv(s, face, ask);
    IgnoredAtOnce(s, face, ask);
    if Ignored(t, res) {
      forall events ensures Ignored(Run(t, events), res) {
        IgnoredForever(t, res, events);
      }
    } else {
      assert Run(t, []) == t;
      assert !Ignored(Run(t, []), res);
    }
  }

  lemma StuckStep(s: Server, face: Face, e: Event)
    requires Inv(s) && s.pushing[face] && !InFlight(s, face)
    ensures var t := Step(s, e); t.pushing[face] && !InFlight(t, face)
  {
    if e.Close? && e.index < |s.open| {
      var o := s.open[e.index];
      assert o in s.open;
      assert forall p :: p in Closed(s, e.index, e.error).open ==> p in s.open || p.face == o.face;
    }
  }

  /** A step keeps the faces of the responses and adds at most one. */
  lemma FacesKept(s: Server, e: Event)
    requires s.Valid()
    ensures var t := Step(s, e);
            && |t.responses| <= |s.responses| + 1
            && (|t.responses| > |s.responses| ==>
                  e.Request? && !e.ask.Failing? && t.responses[|s.responses|].face == e.face)
            && forall res :: 0 <= res < |s.responses| ==> t.responses[res].face == s.responses[res].face
  {
  }

  /** A face marked as pushing with nothing in flight stays so, and every later request on it goes unanswered. */
  lemma {:induction false} StuckForever(s: Server, face: Face, events: seq<Event>)
    requires Inv(s) && s.pushing[face] && !InFlight(s, face)
    ensures var t := Run(s, events);
            && t.pushing[face] && !InFlight(t, face)
            && forall res :: |s.responses| <= res < |t.responses| && t.responses[res].face == face ==> Ignored(t, res)
  {
    if events != [] {
      var before, e := events[..|events| - 1], events[|events| - 1];
      StuckForever(s, face, before);
      RunInv(s, before);
      var u := Run(s, before);
      var t := Step(u, e);
      StuckStep(u, face, e);
      FacesKept(u, e);
      forall res | |s.responses| <= res < |t.responses| && t.responses[res].face == face
        ensures Ignored(t, res)
      {
        if res < |u.responses| {
          IgnoredStep(u, res, e);
        } else {
          IgnoredAtOnce(u, face, e.ask);
        }
      }
    }
  }

  // ---------- the server's handlers ----------

  /** The shared arrays and counters; `responses` and `open` are the session. */
  class PushServer {
    const num: array<int>
    const pushing: array<bool>
    const rate: array<string>
    var headed: nat
    var increased: bool
    var responses: seq<Response>
    var open: seq<Open>

    constructor ()
      ensures Valid() && fresh(num) && fresh(pushing) && fresh(rate)
      ensures Abs() == Initial()
    {
      num := new int[FACES](_ => 0);
      pushing := new bool[FACES](_ => false);
      rate := new string[FACES](_ => "");
      headed, increased, responses, open := 0, false, [], [];
      new;
      assert num[..] == Initial().num && pushing[..] == Initial().pushing && rate[..] == Initial().rate;
    }

    ghost function Abs(): Server
      reads this, num, pushing, rate
    {
      Server(num[..], pushing[..], rate[..], headed, increased, responses, open)
    }

    ghost predicate Valid()
      reads this, num, pushing, rate
    {
      num.Length == FACES && pushing.Length == FACES && rate.Length == FACES && Abs().Valid()
    }

    method End(res: nat)
      requires Valid() && res < |responses|
      modifies this`responses
      ensures Valid() && Abs() == old(Abs()).End(res)
    {
      responses := responses[res := responses[res].(ended := responses[res].ended + 1)];
    }

    method PushRemainingFiles(res: nat, face: Face, seg: nat)
      requires Valid() && res < |responses|
      modifies this`responses, this`open, num, pushing
      ensures Valid() && Abs() == PushRemaining(old(Abs()), res, face, seg)
    {
      if seg >= MAX_SEGMENTS {
        End(res);
        return;
      }
      if num[face] == 0 {
        return;
      }
      num[face] := num[face] - 1;
      var path := PushPath(seg, rate[face], face);
      responses := responses[res := responses[res].(pushes := responses[res].pushes + [Push(seg, path)])];
      open := open + [Open(res, face, seg)];
      pushing[face] := true;
    }

    /** The close callback of the pushed stream at an index, with what it captured. */
    method OnClose(i: nat, error: bool)
      requires Valid() && i < |open|
      modifies this, num, pushing
      ensures Valid() && Abs() == Closed(old(Abs()), i, error)
    {
      var o := open[i];
      open := Remove(open, i);
      if !error {
        increased := false;
      }
      headed := o.seg;
      if num[o.face] == 0 {
        pushing[o.face] := false;
        End(o.res);
      } else {
        pushing[o.face] := true;
        PushRemainingFiles(o.res, o.face, o.seg + 1);
      }
    }

    method PushFile(res: nat, face: Face)
      requires Valid() && res < |responses|
      modifies this`responses, this`open, num, pushing
      ensures Valid()
      ensures Abs() == if old(pushing[face]) then old(Abs()) else PushRemaining(old(Abs()), res, face, headed)
    {
      if pushing[face] {
        return;
      }
      PushRemainingFiles(res, face, headed);
    }

    method OnRequest(path: string, face: Face)
      requires Valid() && !AskOf(path, face).Failing?
      modifies this, num, pushing, rate
      ensures Valid() && Abs() == Handle(old(Abs()), face, AskOf(path, face))
    {
      var res := |responses|;
      responses := responses + [Response(face, [], 0)];
      if !increased {
        headed := headed + 1;
        increased := true;
      }
      var strs := Split(path, '/');
      if |strs| != 4 {
        return;
      }
      var temp := Split(strs[2], '=');
      rate[face] := temp[1];
      temp := Split(strs[3], '=');
      num[face] := Stoi(temp[1]).value;
      PushFile(res, face);
    }

    /** One event of the session; the close of a stream that is not open does not happen. */
    method Do(a: Action)
      requires Valid() && !EventOf(a).Failing()
      modifies this, num, pushing, rate
      ensures Valid() && Abs() == Step(old(Abs()), EventOf(a))
    {
      match a {
        case Ask(path, face) => OnRequest(path, face);
        case Shut(index, error) =>
          if index < |open| {
            OnClose(index, error);
          }
      }
    }
  }

  /** What the session delivers: a request path on a face, or the close of a pushed stream. */
  datatype Action = Ask(path: string, face: Face) | Shut(index: nat, error: bool)

  function EventOf(a: Action): Event
  {
    match a
    case Ask(path, face) => Request(face, AskOf(path, face))
    case Shut(index, error) => Close(index, error)
  }

  function EventsOf(script: seq<Action>): (events: seq<Event>)
    ensures |events| == |script| && forall i :: 0 <= i < |script| ==> events[i] == EventOf(script[i])
  {
    seq(|script|, i requires 0 <= i < |script| => EventOf(script[i]))
  }

  /** A server at work: any script of parseable requests and of closes takes it through a run, so the run theorems
      hold of its own fields. */
  method Session(script: seq<Action>) returns (server: PushServer)
    requires forall i :: 0 <= i < |script| ==> !EventOf(script[i]).Failing()
    ensures server.Valid() && server.Abs() == Run(Initial(), EventsOf(script))
    ensures forall r :: 0 <= r < |server.responses| ==>
                          Consecutive(server.responses[r].pushes) && server.responses[r].ended <= 1
    ensures forall i, j :: 0 <= i < j < |server.open| ==> server.open[i].face != server.open[j].face
    ensures forall i :: 0 <= i < |server.open| ==> server.pushing[server.open[i].face]
  {
    server := new PushServer();
    for n := 0 to |script|
      invariant server.Valid() && fresh(server) && fresh(server.num) && fresh(server.pushing) && fresh(server.rate)
      invariant server.Abs() == Run(Initial(), EventsOf(script[..n]))
    {
      assert EventsOf(script[..n + 1])[..n] == EventsOf(script[..n]);
      server.Do(script[n]);
    }
    assert EventsOf(script[..|script|]) == EventsOf(script);
    RunInv(Initial(), EventsOf(script));
    assert forall i :: 0 <= i < |server.open| ==> OpenOk(server.Abs(), server.open[i]);
  }
}
