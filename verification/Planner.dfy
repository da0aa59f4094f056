/** `Seamless_method` of client/src/backup/K_push.cpp: following a planned path over several calls. */
module Planner {
  import opened Trellis
  import Products

  /** What changes between calls: the last received bitrate, the buffer level, and the throughputs. */
  datatype Input = Input(curBitrate: int, curBuff: int, inst: real, smoothed: real)

  /** The constants of the planner. */
  datatype Setup = Setup(trellis: seq<Path>, rates: seq<int>, margin: real, tarBuff: int, curRtt: int, buffOpt: int,
                         bMin: int, maxN: int, exp: real -> real)
  {
    predicate Valid()
    {
      Usable(trellis) && Ascending(rates) && maxN >= 1
    }
  }

  /** The change of the buffer, in milliseconds, while the selection is pushed. */
  function Gain(x: Selection, thrp: real): real
    requires thrp > 0.0
  {
    (SEGMENT_MS * x.numOfSegment) as real * (1.0 - x.bitrate as real / thrp)
  }

  /** The buffer levels along a path, the first one before it. */
  function Flow(buff: real, path: Path, thrp: real): (f: seq<real>)
    requires thrp > 0.0
    ensures |f| == |path| + 1 && f[0] == buff
    ensures forall i :: 0 <= i < |path| ==>
                          f[i + 1] == f[i] + Gain(path[i], thrp)
  {
    if path == [] then [buff]
    else
      var n := |path| - 1;
      var f := Flow(buff, path[..n], thrp);
      f + [f[n] + Gain(path[n], thrp)]
  }

  /** Each level is the first one with what was pushed since, less what was played while it was pushed. */
  lemma {:induction false} FlowInTotals(buff: real, path: Path, thrp: real, i: nat)
    requires thrp > 0.0 && i <= |path|
    ensures Flow(buff, path, thrp)[i]
         == buff + 1000.0 * (Segments(path[..i]) as real - Volume(path[..i]) as real / thrp)
  {
    if i > 0 {
      var x := path[i - 1];
      FlowInTotals(buff, path, thrp, i - 1);
      assert path[..i][..i - 1] == path[..i - 1];
      GainInTotals(x, thrp);
      Products.Shares(Volume(path[..i - 1]) as real, (x.numOfSegment * x.bitrate) as real, thrp);
    }
  }

  lemma GainInTotals(x: Selection, thrp: real)
    requires thrp > 0.0
    ensures Gain(x, thrp) == 1000.0 * (x.numOfSegment as real - (x.numOfSegment * x.bitrate) as real / thrp)
  {
    var n, b := x.numOfSegment as real, x.bitrate as real;
    Products.Share(n, b, thrp);
    Thousand(n, 1.0 - b / thrp);
  }

  lemma Thousand(n: real, y: real)
    ensures (1000.0 * n) * y == 1000.0 * (n * y)
  {
  }

  method CallBuffFlowPath(curBuff: int, path: Path, thrp: real) returns (flow: seq<real>)
    requires thrp > 0.0
    ensures flow == Flow(curBuff as real, path, thrp)
  {
    var cur := curBuff as real;
    flow := [cur];
    for i := 0 to |path|
      invariant flow == Flow(curBuff as real, path[..i], thrp) && cur == flow[i]
    {
      assert path[..i + 1][..i] == path[..i];
      cur := cur + Gain(path[i], thrp);
      flow := flow + [cur];
    }
    assert path[..|path|] == path;
  }

  /** The plan in progress. `from` is the bitrate it was made at, `checked` says that it is not the unchecked
      first path of the trellis, and `chosen` lists the bitrates taken from it; the three are history. */
  datatype Plan = Plan(path: Path, flow: seq<real>, index: int, from: int, checked: bool, chosen: seq<int>)

  ghost predicate PlanInv(s: Setup, plan: Plan)
  {
    plan.path != [] ==>
      && plan.path in s.trellis
      && |plan.flow| == |plan.path| + 1 && 0 <= plan.index <= |plan.path|
      && plan.chosen == Bitrates(plan.path)[..plan.index]
      && (plan.checked ==> Monotone(plan.from, plan.path))
      && (!plan.checked ==> plan.path == s.trellis[0])
  }

  function Distance(x: real, y: real): real
  {
    if x < y then y - x else x - y
  }

  /** The buffer left its predicted course by more than one segment. */
  predicate Deviates(plan: Plan, curBuff: int)
    requires 0 <= plan.index < |plan.flow|
  {
    Distance(curBuff as real, plan.flow[plan.index]) > SEGMENT_MS as real
  }

  /** That is, it is more than 1000 milliseconds below the predicted level, or above it. */
  lemma DeviatesExactly(plan: Plan, curBuff: int)
    requires 0 <= plan.index < |plan.flow|
    ensures Deviates(plan, curBuff) <==> curBuff as real < plan.flow[plan.index] - 1000.0
                                         || curBuff as real > plan.flow[plan.index] + 1000.0
  {
  }

  function EnvOf(s: Setup, input: Input, thrp: real): Env
  {
    Env(input.curBuff, s.curRtt, thrp, s.buffOpt, s.bMin, s.rates, s.exp)
  }

  /** A new plan for the input, at its start: a best path to the highest affordable rate. */
  ghost predicate IsReplanTo(s: Setup, input: Input, plan: Plan, tar: int, k: nat)
    requires s.Valid() && input.inst > 0.0
  {
    && IsMaxRate(s.rates, input.inst * (1.0 - s.margin), tar)
    && IsBest(EnvOf(s, input, input.inst), s.trellis, input.curBitrate, tar, k)
    && plan == Plan(s.trellis[k], Flow(input.curBuff as real, s.trellis[k], input.inst), 0,
                    input.curBitrate, k != 0, [])
  }

  ghost predicate IsReplan(s: Setup, input: Input, plan: Plan)
    requires s.Valid() && input.inst > 0.0
  {
    exists tar: int, k: nat :: IsReplanTo(s, input, plan, tar, k)
  }

  function Follow(plan: Plan): Plan
    requires 0 <= plan.index < |plan.path|
  {
    plan.(index := plan.index + 1, chosen := plan.chosen + [plan.path[plan.index].bitrate])
  }

  /** The plan can be followed further. */
  predicate OnCourse(plan: Plan, curBuff: int)
    requires plan.path != [] ==> 0 <= plan.index < |plan.flow|
  {
    plan.path != [] && !Deviates(plan, curBuff) && plan.index < |plan.path|
  }

  /** A call while the throughput is below the current bitrate: keep following the plan, unless there is
      none, the buffer deviates, or it is used up; then follow a new one. */
  ghost predicate FollowsOrReplans(s: Setup, input: Input, plan: Plan, next: Plan)
    requires s.Valid() && input.inst > 0.0
    requires PlanInv(s, plan)
  {
    if OnCourse(plan, input.curBuff) then next == Follow(plan)
    else exists made: Plan :: made.path != [] && made.index == 0 && IsReplan(s, input, made) && next == Follow(made)
  }

  /** No selection of the plan can be taken: there is none left, or the buffer is off its course. */
  predicate OffCourse(plan: Plan, curBuff: int)
    requires plan.path != [] ==> 0 <= plan.index < |plan.flow|
  {
    || plan.path == [] || plan.index >= |plan.path|
    || curBuff as real < plan.flow[plan.index] - 1000.0 || curBuff as real > plan.flow[plan.index] + 1000.0
  }

  /** What the cost of a path for a new plan is made of. */
  lemma PlannedCost(s: Setup, input: Input, path: Path, tar: int)
    requires s.Valid() && input.inst > 0.0 && Pushes(path)
    ensures Segments(path) > 0
    ensures var env := EnvOf(s, input, input.inst);
            CostOf(env, path, input.curBitrate, tar)
            == TotalCost(path, tar, MaxJump(env, path, input.curBitrate, |path|), input.inst, input.curBuff, s.curRtt,
                         s.buffOpt, s.bMin, s.exp)
  {
    CostInTotals(EnvOf(s, input, input.inst), path, input.curBitrate, tar);
  }

  /** A new plan of which the first selection has been taken: a cheapest candidate for the highest affordable rate, with
      the buffer levels along it from the current one. */
  ghost predicate Renewed(s: Setup, input: Input, next: Plan)
    requires s.Valid() && input.inst > 0.0
  {
    && next.index == 1 && next.from == input.curBitrate && next.path in s.trellis && next.path != []
    && next.chosen == [next.path[0].bitrate]
    && (exists tar: int, k: nat ::
          && IsMaxRate(s.rates, input.inst * (1.0 - s.margin), tar)
          && IsBest(EnvOf(s, input, input.inst), s.trellis, input.curBitrate, tar, k) && next.path == s.trellis[k])
    && |next.flow| == |next.path| + 1
    && forall i :: 0 <= i <= |next.path| ==>
         next.flow[i] == input.curBuff as real
                         + 1000.0 * (Segments(next.path[..i]) as real - Volume(next.path[..i]) as real / input.inst)
  }

  ghost predicate TakesCourse(s: Setup, input: Input, plan: Plan, next: Plan)
    requires s.Valid() && input.inst > 0.0 && PlanInv(s, plan)
  {
    if OffCourse(plan, input.curBuff) then Renewed(s, input, next)
    else next == plan.(index := plan.index + 1, chosen := plan.chosen + [plan.path[plan.index].bitrate])
  }

  /** A call below the current bitrate takes the next selection of the plan exactly while the buffer stays within 1000
      milliseconds of the predicted level and a selection is left; off course on either side, it takes the first
      selection of a plan made for this call. */
  lemma FollowExactly(s: Setup, input: Input, plan: Plan, next: Plan)
    requires s.Valid() && input.inst > 0.0 && PlanInv(s, plan) && FollowsOrReplans(s, input, plan, next)
    ensures TakesCourse(s, input, plan, next)
  {
    if plan.path != [] {
      DeviatesExactly(plan, input.curBuff);
    }
    if OffCourse(plan, input.curBuff) {
      var made: Plan :| made.path != [] && made.index == 0 && IsReplan(s, input, made) && next == Follow(made);
      FollowedRenewed(s, input, made);
    }
  }

  lemma FollowedRenewed(s: Setup, input: Input, made: Plan)
    requires s.Valid() && input.inst > 0.0 && made.path != [] && made.index == 0 && IsReplan(s, input, made)
    ensures Renewed(s, input, Follow(made))
  {
    var tar: int, k: nat :| IsReplanTo(s, input, made, tar, k);
    forall i | 0 <= i <= |made.path|
      ensures made.flow[i] == input.curBuff as real
                              + 1000.0 * (Segments(made.path[..i]) as real
                                          - Volume(made.path[..i]) as real / input.inst)
    {
      FlowInTotals(input.curBuff as real, made.path, input.inst, i);
    }
  }

  /** What a call may do to the plan: leave it alone, follow or renew it, or drop it. */
  ghost predicate PlanStep(s: Setup, input: Input, plan: Plan, next: Plan)
    requires s.Valid() && input.inst > 0.0 && PlanInv(s, plan)
  {
    next == plan || FollowsOrReplans(s, input, plan, next) || next == plan.(path := [])
  }

  lemma FollowInv(s: Setup, plan: Plan)
    requires PlanInv(s, plan) && 0 <= plan.index < |plan.path|
    ensures PlanInv(s, Follow(plan))
  {
    var b := Bitrates(plan.path);
    assert b[..plan.index + 1] == b[..plan.index] + [b[plan.index]];
  }

  lemma ReplanInv(s: Setup, input: Input, plan: Plan)
    requires s.Valid() && input.inst > 0.0 && IsReplan(s, input, plan)
    ensures plan.path != [] && PlanInv(s, plan)
  {
    var tar: int, k: nat :| IsReplanTo(s, input, plan, tar, k);
    assert Pushes(s.trellis[k]) && Candidate(s.trellis, input.curBitrate, k);
    assert Bitrates(plan.path)[..0] == [];
  }

  /** Taking the next selection, of the plan if it is on course and of a new one if not. */
  lemma CourseFollowed(s: Setup, input: Input, plan: Plan, made: Plan)
    requires s.Valid() && input.inst > 0.0 && PlanInv(s, plan) && PlanInv(s, made)
    requires made.path != [] && 0 <= made.index < |made.path|
    requires if OnCourse(plan, input.curBuff) then made == plan else made.index == 0 && IsReplan(s, input, made)
    ensures FollowsOrReplans(s, input, plan, Follow(made)) && PlanInv(s, Follow(made))
  {
    FollowInv(s, made);
  }

  /** Every call keeps the plan usable: the buffer list has one more entry than the path and the index is
      never past its end. */
  lemma PlanStepInv(s: Setup, input: Input, plan: Plan, next: Plan)
    requires s.Valid() && input.inst > 0.0 && PlanInv(s, plan) && PlanStep(s, input, plan, next)
    ensures PlanInv(s, next)
  {
    if next != plan && next != plan.(path := []) {
      if OnCourse(plan, input.curBuff) {
        FollowInv(s, plan);
      } else {
        var made: Plan :| made.path != [] && made.index == 0 && IsReplan(s, input, made) && next == Follow(made);
        ReplanInv(s, input, made);
        FollowInv(s, made);
      }
    }
  }

  /** Any sequence of calls, from the empty plan. */
  ghost predicate Calls(s: Setup, inputs: seq<Input>, plans: seq<Plan>)
  {
    && s.Valid() && |plans| == |inputs| + 1 && plans[0].path == []
    && (forall i :: 0 <= i < |inputs| ==> inputs[i].inst > 0.0)
    && forall i :: 0 <= i < |inputs| ==> PlanInv(s, plans[i]) ==> PlanStep(s, inputs[i], plans[i], plans[i + 1])
  }

  /** Over any sequence of calls the index stays within the plan and its buffer list, and the bitrates taken
      since the plan was made are the first bitrates of its path; unless the plan is the unchecked first path,
      they run in one direction from the bitrate it was made at. */
  lemma {:induction false} CallsFollowPlan(s: Setup, inputs: seq<Input>, plans: seq<Plan>, i: nat)
    requires Calls(s, inputs, plans) && i < |plans|
    ensures PlanInv(s, plans[i])
    ensures var plan := plans[i];
            plan.path != [] ==>
              && 0 <= plan.index <= |plan.path| < |plan.flow|
              && plan.chosen <= Bitrates(plan.path) && |plan.chosen| == plan.index
              && (plan.path == s.trellis[0] || Rising([plan.from] + plan.chosen) || Falling([plan.from] + plan.chosen))
  {
    if i > 0 {
      CallsFollowPlan(s, inputs, plans, i - 1);
      assert PlanStep(s, inputs[i - 1], plans[i - 1], plans[i]);
      PlanStepInv(s, inputs[i - 1], plans[i - 1], plans[i]);
    }
    var plan := plans[i];
    if plan.path != [] && plan.checked {
      PrefixKeepsDirection([plan.from] + Bitrates(plan.path), plan.index + 1);
      assert ([plan.from] + Bitrates(plan.path))[..plan.index + 1] == [plan.from] + plan.chosen;
    }
  }

  lemma CallsMore(s: Setup, inputs: seq<Input>, plans: seq<Plan>, input: Input, next: Plan)
    requires Calls(s, inputs, plans) && input.inst > 0.0
    requires PlanInv(s, plans[|inputs|]) && PlanStep(s, input, plans[|inputs|], next)
    ensures Calls(s, inputs + [input], plans + [next])
  {
    var ins, ps := inputs + [input], plans + [next];
    forall i | 0 <= i < |ins| && PlanInv(s, ps[i])
      ensures PlanStep(s, ins[i], ps[i], ps[i + 1])
    {
      if i < |inputs| {
        assert ps[i] == plans[i] && ps[i + 1] == plans[i + 1] && ins[i] == inputs[i];
      }
    }
  }

  lemma PrefixKeepsDirection(b: seq<int>, n: nat)
    requires n <= |b|
    ensures Rising(b) ==> Rising(b[..n])
    ensures Falling(b) ==> Falling(b[..n])
  {
  }

  // ---------- the planner object ----------

  /** Rebuffer, or fetch `count` segments at the bitrate. */
  datatype Request = Rebuffer | Rate(bitrate: int, count: int)

  /** The push count before the first choice. */
  const FIRST_COUNT: int := 4

  /** The buffer after pushing n segments at the current bitrate. */
  function After(input: Input, thrp: real, n: int): real
    requires thrp > 0.0
  {
    input.curBuff as real + (n * SEGMENT_MS) as real * (1.0 - input.curBitrate as real / thrp)
  }

  /** The smallest push count from 2 on that refills the buffer to its target, at most maxN. */
  ghost predicate IsPushCount(s: Setup, input: Input, thrp: real, n: int)
    requires thrp > 0.0
  {
    && 1 <= n <= s.maxN
    && (forall k :: 2 <= k < n ==> After(input, thrp, k) < s.tarBuff as real)
    && (1 < n < s.maxN ==> After(input, thrp, n) >= s.tarBuff as real)
    && (n == 1 ==> s.maxN == 1)
  }

  /** With n segments the buffer rises by what is needed. */
  predicate Refills(rise: real, need: real, n: int)
  {
    (1000 * n) as real * rise >= need
  }

  lemma RefillsExactly(input: Input, thrp: real, n: int, level: int)
    requires thrp > 0.0
    ensures After(input, thrp, n) >= level as real
            <==> Refills(thrp - input.curBitrate as real, (level - input.curBuff) as real * thrp, n)
  {
    var m, b := (1000 * n) as real, input.curBitrate as real;
    var x := m * (1.0 - b / thrp);
    Products.Share(m, b, thrp);
    assert b / thrp * thrp == b;
    Times(m, b, thrp, b / thrp);
    var d := (level - input.curBuff) as real;
    Products.Scale(x, d, thrp, x * thrp, d * thrp);
  }

  lemma Times(m: real, b: real, t: real, q: real)
    requires q * t == b
    ensures (m * (1.0 - q)) * t == m * (t - b)
  {
    assert (m * (1.0 - q)) * t == m * (t - q * t);
  }

  /** The push count below the buffer target: the first from 2 on with which the buffer, which drains at the bitrate
      while it fills at the throughput, comes to its target; and the maximum if none does, as when the throughput is
      not above the bitrate. */
  lemma PushCountExactly(s: Setup, input: Input, thrp: real, n: int)
    requires thrp > 0.0 && s.maxN >= 1 && input.curBuff < s.tarBuff && IsPushCount(s, input, thrp, n)
    ensures var need, rise := (s.tarBuff - input.curBuff) as real * thrp, thrp - input.curBitrate as real;
            && 1 <= n <= s.maxN && (n == 1 ==> s.maxN == 1)
            && (forall k :: 2 <= k < n ==> !Refills(rise, need, k))
            && (n < s.maxN ==> Refills(rise, need, n))
    ensures thrp <= input.curBitrate as real ==> n == s.maxN
  {
    var need, rise := (s.tarBuff - input.curBuff) as real * thrp, thrp - input.curBitrate as real;
    forall k | 2 <= k < n
      ensures !Refills(rise, need, k)
    {
      RefillsExactly(input, thrp, k, s.tarBuff);
      assert After(input, thrp, k) < s.tarBuff as real;
    }
    if n < s.maxN {
      RefillsExactly(input, thrp, n, s.tarBuff);
      Products.Positive((s.tarBuff - input.curBuff) as real, thrp);
      NotPositive((1000 * n) as real, rise);
    }
  }

  lemma NotPositive(m: real, r: real)
    requires m >= 0.0
    ensures r <= 0.0 ==> m * r <= 0.0
  {
  }

  /** Below the buffer target the bitrate is kept and the push count refills the buffer; at or above it the
      bitrate is the highest affordable one and the push count the greatest. */
  ghost predicate Restores(s: Setup, input: Input, thrp: real, bitrate: int, n: int)
    requires s.Valid() && thrp > 0.0
  {
    if input.curBuff < s.tarBuff then bitrate == input.curBitrate && IsPushCount(s, input, thrp, n)
    else IsMaxRate(s.rates, thrp * (1.0 - s.margin), bitrate) && n == s.maxN
  }

  /** The estimate in use while the throughput covers the bitrate. */
  function Mixed(input: Input): (thrp: real)
    ensures thrp <= input.inst && thrp <= input.smoothed && (thrp == input.inst || thrp == input.smoothed)
  {
    if input.smoothed < input.inst then input.smoothed else input.inst
  }

  /** The request keeps the bitrate and refills the buffer, or steps to the highest affordable rate. */
  ghost predicate Recovers(s: Setup, input: Input, r: Request)
    requires s.Valid() && input.inst > 0.0 && input.smoothed > 0.0
  {
    r.Rate? && Restores(s, input, Mixed(input), r.bitrate, r.count)
  }

  /** The first request is for the highest affordable rate, four segments of it. */
  ghost predicate StartsAt(s: Setup, input: Input, r: Request)
    requires s.Valid()
  {
    r.Rate? && IsMaxRate(s.rates, input.inst * (1.0 - s.margin), r.bitrate) && r.count == 4
  }

  class Seamless {
    const setup: Setup
    var bestPath: Path
    var buffFlow: seq<real>
    var curIndex: int
    var nextBitrate: int
    var nextN: int
    var pushCount: int
    var onBuffering: bool
    var firstAdapt: bool
    ghost var from: int
    ghost var checked: bool
    ghost var chosen: seq<int>

    constructor (setup: Setup)
      requires setup.Valid()
      ensures this.setup == setup && Valid() && bestPath == [] && firstAdapt && onBuffering
    {
      this.setup := setup;
      bestPath, buffFlow, curIndex := [], [], 0;
      nextBitrate, nextN, pushCount := 0, 0, FIRST_COUNT;
      onBuffering, firstAdapt := true, true;
      from, checked, chosen := 0, false, [];
    }

    ghost function PlanOf(): Plan
      reads this
    {
      Plan(bestPath, buffFlow, curIndex, from, checked, chosen)
    }

    ghost predicate Valid()
      reads this
    {
      setup.Valid() && PlanInv(setup, PlanOf()) && (firstAdapt ==> pushCount == FIRST_COUNT)
    }

    /** Makes a new plan and goes to its start. */
    method Replan(input: Input)
      requires Valid() && input.inst > 0.0
      modifies this`bestPath, this`buffFlow, this`curIndex, this`from, this`checked, this`chosen
      ensures IsReplan(setup, input, PlanOf()) && Valid() && bestPath != [] && curIndex == 0
    {
      var tar := ComputeMaxAdaptedRate(setup.rates, input.inst * (1.0 - setup.margin));
      ghost var k;
      bestPath, k := GetBestPath(EnvOf(setup, input, input.inst), setup.trellis, input.curBitrate, tar);
      buffFlow := CallBuffFlowPath(input.curBuff, bestPath, input.inst);
      curIndex := 0;
      from, checked, chosen := input.curBitrate, k != 0, [];
      assert IsReplanTo(setup, input, PlanOf(), tar, k);
      ReplanInv(setup, input, PlanOf());
    }

    /** Takes the next selection of the plan. */
    method TakeNext()
      requires 0 <= curIndex < |bestPath|
      modifies this`curIndex, this`nextBitrate, this`nextN, this`chosen
      ensures PlanOf() == Follow(old(PlanOf())) && curIndex == old(curIndex) + 1
      ensures nextBitrate == bestPath[old(curIndex)].bitrate && nextN == bestPath[old(curIndex)].numOfSegment
    {
      nextBitrate := bestPath[curIndex].bitrate;
      nextN := bestPath[curIndex].numOfSegment;
      chosen := chosen + [nextBitrate];
      curIndex := curIndex + 1;
    }

    /** Makes a new plan unless the one in progress can be followed further. */
    method KeepCourse(input: Input)
      requires Valid() && input.inst > 0.0
      modifies this`bestPath, this`buffFlow, this`curIndex, this`from, this`checked, this`chosen
      ensures Valid() && bestPath != [] && 0 <= curIndex < |bestPath|
      ensures if OnCourse(old(PlanOf()), input.curBuff) then PlanOf() == old(PlanOf())
              else curIndex == 0 && IsReplan(setup, input, PlanOf())
    {
      if |bestPath| == 0 || Distance(input.curBuff as real, buffFlow[curIndex]) > SEGMENT_MS as real {
        Replan(input);
      } else if curIndex >= |bestPath| {
        Replan(input);
      }
    }

    /** The throughput fell below the current bitrate. */
    method FollowPlan(input: Input)
      requires Valid() && input.inst > 0.0
      modifies this`bestPath, this`buffFlow, this`curIndex, this`from, this`checked, this`chosen,
               this`nextBitrate, this`nextN
      ensures Valid() && FollowsOrReplans(setup, input, old(PlanOf()), PlanOf())
      ensures 1 <= curIndex <= |bestPath|
      ensures nextBitrate == bestPath[curIndex - 1].bitrate && nextN == bestPath[curIndex - 1].numOfSegment
    {
      ghost var plan := PlanOf();
      KeepCourse(input);
      ghost var made := PlanOf();
      CourseFollowed(setup, input, plan, made);
      TakeNext();
    }

    /** The loop that raises the push count while the buffer is below target. */
    method RaisePushCount(input: Input, thrp: real)
      requires setup.maxN >= 1 && thrp > 0.0 && input.curBuff < setup.tarBuff
      modifies this`nextN
      ensures IsPushCount(setup, input, thrp, nextN)
    {
      nextN := 1;
      var temp := input.curBuff as real;
      while temp < setup.tarBuff as real && nextN < setup.maxN
        invariant 1 <= nextN <= setup.maxN
        invariant temp == if nextN == 1 then input.curBuff as real else After(input, thrp, nextN)
        invariant forall k :: 2 <= k < nextN ==> After(input, thrp, k) < setup.tarBuff as real
        decreases setup.maxN - nextN
      {
        nextN := nextN + 1;
        temp := input.curBuff as real + (nextN * SEGMENT_MS) as real * (1.0 - input.curBitrate as real / thrp);
      }
    }

    /** The throughput covers the current bitrate: drop the plan; refill the buffer, or step up. */
    method Recover(input: Input, thrp: real)
      requires setup.Valid() && thrp > 0.0
      modifies this`bestPath, this`nextBitrate, this`nextN
      ensures PlanOf() == old(PlanOf()).(path := [])
      ensures Restores(setup, input, thrp, nextBitrate, nextN)
    {
      bestPath := [];
      if input.curBuff < setup.tarBuff {
        nextBitrate := input.curBitrate;
        RaisePushCount(input, thrp);
      } else {
        nextBitrate := ComputeMaxAdaptedRate(setup.rates, thrp * (1.0 - setup.margin));
        nextN := setup.maxN;
      }
    }

    /** The choice of a call below the current bitrate. */
    method ChooseByPlan(input: Input) returns (r: Request)
      requires Valid() && !firstAdapt && input.inst > 0.0
      modifies this`bestPath, this`buffFlow, this`curIndex, this`from, this`checked, this`chosen, this`nextBitrate,
               this`nextN, this`pushCount
      ensures Valid() && Followed(input, old(PlanOf()), r)
    {
      ghost var plan := PlanOf();
      FollowPlan(input);
      pushCount := nextN;
      r := Rate(nextBitrate, pushCount);
    }

    /** The choice of a call whose throughput covers the current bitrate. */
    method ChooseByBuffer(input: Input) returns (r: Request)
      requires Valid() && !firstAdapt && input.inst > 0.0 && input.smoothed > 0.0
      modifies this`bestPath, this`nextBitrate, this`nextN, this`pushCount
      ensures Valid() && PlanOf() == old(PlanOf()).(path := []) && Recovers(setup, input, r)
    {
      Recover(input, Mixed(input));
      pushCount := nextN;
      r := Rate(nextBitrate, pushCount);
    }

    /** The request is the selection just taken from the plan. */
    ghost predicate Followed(input: Input, plan: Plan, r: Request)
      requires setup.Valid() && input.inst > 0.0 && PlanInv(setup, plan)
      reads this
    {
      && FollowsOrReplans(setup, input, plan, PlanOf())
      && 1 <= curIndex <= |bestPath|
      && r == Rate(bestPath[curIndex - 1].bitrate, bestPath[curIndex - 1].numOfSegment)
    }

    /** One call of the adaptation. */
    method SeamlessMethod(input: Input) returns (r: Request)
      requires Valid() && input.inst > 0.0 && input.smoothed > 0.0
      modifies this
      ensures Valid()
      ensures PlanStep(setup, input, old(PlanOf()), PlanOf())
      ensures firstAdapt <==> old(firstAdapt) && input.curBuff <= SEGMENT_MS
      ensures input.curBuff <= SEGMENT_MS ==> r == Rebuffer && PlanOf() == old(PlanOf())
      ensures input.curBuff > SEGMENT_MS && old(firstAdapt) ==>
                && PlanOf() == old(PlanOf())
                && StartsAt(setup, input, r)
      ensures input.curBuff > SEGMENT_MS && !old(firstAdapt) ==>
                if input.inst < input.curBitrate as real then Followed(input, old(PlanOf()), r)
                else PlanOf() == old(PlanOf()).(path := []) && Recovers(setup, input, r)
    {
      if input.curBuff <= SEGMENT_MS {
        onBuffering := true;
        return Rebuffer;
      }
      if onBuffering && input.curBuff == setup.tarBuff {
        onBuffering := false;
      }
      if firstAdapt {
        firstAdapt := false;
        var rate := ComputeMaxAdaptedRate(setup.rates, input.inst * (1.0 - setup.margin));
        return Rate(rate, pushCount);
      }
      if input.inst < input.curBitrate as real {
        r := ChooseByPlan(input);
      } else {
        r := ChooseByBuffer(input);
      }
    }
  }

  /** A call before the i-th one was not a rebuffering one. */
  predicate Begun(inputs: seq<Input>, i: nat)
    requires i <= |inputs|
  {
    exists j :: 0 <= j < i && inputs[j].curBuff > SEGMENT_MS
  }

  /** A call after the first, with a filled buffer, whose throughput is below the current bitrate. */
  predicate Low(inputs: seq<Input>, i: nat)
    requires i < |inputs|
  {
    inputs[i].curBuff > SEGMENT_MS && Begun(inputs, i) && inputs[i].inst < inputs[i].curBitrate as real
  }

  /** What a call answers: with a low buffer it asks to rebuffer; the first other call asks for the highest affordable
      rate; one below the current bitrate asks for the bitrate and the push count just taken from the plan; and one at
      or above it drops the plan and refills the buffer or steps up. */
  ghost predicate Answers(s: Setup, inputs: seq<Input>, i: nat, r: Request, next: Plan)
    requires s.Valid() && i < |inputs| && inputs[i].inst > 0.0 && inputs[i].smoothed > 0.0
  {
    var x := inputs[i];
    if x.curBuff <= SEGMENT_MS then r == Rebuffer
    else if !Begun(inputs, i) then StartsAt(s, x, r)
    else if x.inst < x.curBitrate as real then
      && next.chosen != [] && 1 <= next.index <= |next.path|
      && r == Rate(next.chosen[|next.chosen| - 1], next.path[next.index - 1].numOfSegment)
    else next.path == [] && Recovers(s, x, r)
  }

  /** A call below the current bitrate also follows its plan or a new one, as the buffer is on or off its course. */
  ghost predicate Answered(s: Setup, inputs: seq<Input>, i: nat, plan: Plan, r: Request, next: Plan)
    requires s.Valid() && i < |inputs| && inputs[i].inst > 0.0 && inputs[i].smoothed > 0.0 && PlanInv(s, plan)
  {
    Answers(s, inputs, i, r, next) && (Low(inputs, i) ==> TakesCourse(s, inputs[i], plan, next))
  }

  lemma LastChosen(s: Setup, plan: Plan)
    requires PlanInv(s, plan) && 1 <= plan.index <= |plan.path|
    ensures plan.chosen != [] && plan.chosen[|plan.chosen| - 1] == plan.path[plan.index - 1].bitrate
  {
    assert plan.chosen == Bitrates(plan.path)[..plan.index];
  }

  /** What one call of the object does, by whether it is the first. */
  ghost predicate Responds(s: Setup, x: Input, first: bool, plan: Plan, r: Request, next: Plan)
    requires s.Valid() && x.inst > 0.0 && x.smoothed > 0.0 && PlanInv(s, plan)
  {
    if x.curBuff <= SEGMENT_MS then r == Rebuffer
    else if first then StartsAt(s, x, r)
    else if x.inst < x.curBitrate as real then
      && FollowsOrReplans(s, x, plan, next) && 1 <= next.index <= |next.path|
      && r == Rate(next.path[next.index - 1].bitrate, next.path[next.index - 1].numOfSegment)
    else next.path == [] && Recovers(s, x, r)
  }

  lemma CallAnswered(s: Setup, inputs: seq<Input>, n: nat, r: Request, plan: Plan, next: Plan)
    requires s.Valid() && n < |inputs| && inputs[n].inst > 0.0 && inputs[n].smoothed > 0.0
    requires PlanInv(s, plan) && PlanInv(s, next) && Responds(s, inputs[n], !Begun(inputs, n), plan, r, next)
    ensures Answered(s, inputs, n, plan, r, next)
  {
    assert Answers(s, inputs, n, r, next) by {
      if Low(inputs, n) {
        LastChosen(s, next);
      }
    }
    if Low(inputs, n) {
      FollowExactly(s, inputs[n], plan, next);
    }
  }

  /** The first n calls: each takes a planning step and is answered. */
  ghost predicate Worked(s: Setup, inputs: seq<Input>, n: nat, plans: seq<Plan>, requests: seq<Request>)
  {
    && n <= |inputs| && |requests| == n && Calls(s, inputs[..n], plans)
    && (forall i :: 0 <= i < n ==> inputs[i].inst > 0.0 && inputs[i].smoothed > 0.0 && PlanInv(s, plans[i]))
    && forall i :: 0 <= i < n ==> Answered(s, inputs, i, plans[i], requests[i], plans[i + 1])
  }

  lemma WorkedMore(s: Setup, inputs: seq<Input>, n: nat, plans: seq<Plan>, requests: seq<Request>, next: Plan,
                   r: Request)
    requires Worked(s, inputs, n, plans, requests) && n < |inputs| && inputs[n].inst > 0.0 && inputs[n].smoothed > 0.0
    requires PlanInv(s, plans[n]) && PlanStep(s, inputs[n], plans[n], next) && Answered(s, inputs, n, plans[n], r, next)
    ensures Worked(s, inputs, n + 1, plans + [next], requests + [r])
  {
    CallsMore(s, inputs[..n], plans, inputs[n], next);
    assert inputs[..n + 1] == inputs[..n] + [inputs[n]];
    var ps, rs := plans + [next], requests + [r];
    forall i | 0 <= i < n + 1
      ensures inputs[i].inst > 0.0 && inputs[i].smoothed > 0.0 && PlanInv(s, ps[i])
      ensures Answered(s, inputs, i, ps[i], rs[i], ps[i + 1])
    {
      if i < n {
        assert Answered(s, inputs, i, plans[i], requests[i], plans[i + 1]);
      }
    }
  }

  lemma CallWorked(s: Setup, inputs: seq<Input>, n: nat, plans: seq<Plan>, requests: seq<Request>, next: Plan,
                   r: Request)
    requires Worked(s, inputs, n, plans, requests) && n < |inputs| && inputs[n].inst > 0.0 && inputs[n].smoothed > 0.0
    requires PlanInv(s, plans[n]) && PlanInv(s, next) && PlanStep(s, inputs[n], plans[n], next)
    requires Responds(s, inputs[n], !Begun(inputs, n), plans[n], r, next)
    ensures Worked(s, inputs, n + 1, plans + [next], requests + [r])
  {
    CallAnswered(s, inputs, n, r, plans[n], next);
    WorkedMore(s, inputs, n, plans, requests, next, r);
  }

  /** After any calls the index stays in the plan and in its buffer list, and the bitrates taken from the plan run in
      one direction, unless it is the unchecked first path. */
  lemma WorkedCourse(s: Setup, inputs: seq<Input>, plans: seq<Plan>, requests: seq<Request>)
    requires Worked(s, inputs, |inputs|, plans, requests)
    ensures var plan := plans[|inputs|];
            plan.path != [] ==>
              && 0 <= plan.index <= |plan.path| < |plan.flow|
              && (plan.path == s.trellis[0] || Rising([plan.from] + plan.chosen) || Falling([plan.from] + plan.chosen))
  {
    assert inputs[..|inputs|] == inputs;
    CallsFollowPlan(s, inputs, plans, |inputs|);
  }

  lemma BegunMore(inputs: seq<Input>, n: nat)
    requires n < |inputs|
    ensures Begun(inputs, n + 1) <==> Begun(inputs, n) || inputs[n].curBuff > SEGMENT_MS
  {
  }

  /** A planner at work: its calls on any inputs are calls in the sense above, so what is proved of those holds of
      its own fields. */
  method Session(setup: Setup, inputs: seq<Input>)
    returns (planner: Seamless, requests: seq<Request>, ghost plans: seq<Plan>)
    requires setup.Valid() && forall i :: 0 <= i < |inputs| ==> inputs[i].inst > 0.0 && inputs[i].smoothed > 0.0
    ensures planner.setup == setup && Worked(setup, inputs, |inputs|, plans, requests)
    ensures plans[|inputs|] == planner.PlanOf()
    ensures planner.bestPath != [] ==>
              && 0 <= planner.curIndex <= |planner.bestPath| < |planner.buffFlow|
              && (planner.bestPath == setup.trellis[0] || Rising([planner.from] + planner.chosen)
                  || Falling([planner.from] + planner.chosen))
  {
    planner := new Seamless(setup);
    requests, plans := [], [planner.PlanOf()];
    for n := 0 to |inputs|
      invariant planner.setup == setup && fresh(planner) && planner.Valid()
      invariant Worked(setup, inputs, n, plans, requests) && plans[n] == planner.PlanOf()
      invariant planner.firstAdapt <==> !Begun(inputs, n)
    {
      BegunMore(inputs, n);
      var r := planner.SeamlessMethod(inputs[n]);
      CallWorked(setup, inputs, n, plans, requests, planner.PlanOf(), r);
      requests, plans := requests + [r], plans + [planner.PlanOf()];
    }
    WorkedCourse(setup, inputs, plans, requests);
  }
}
