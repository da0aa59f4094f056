/** `decide_nextN` of client/src/backup/Kpush_noBuffering.cpp: how many segments to ask for in one request. */
module PushCount {
  import Products

  const SEGMENT_MS := 1000
  const BUFF_LOW := 25000
  const MAX_COUNT := 4
  const START_COST := 1000000000.0
  const ALPHA := 0.6

  /** The weighted cost of asking for i segments at a buffer level above the low mark. */
  function Cost(buff: int, i: int): (cost: real)
    requires buff > BUFF_LOW && i >= 1
  {
    ALPHA * (1.0 / i as real) + (1.0 - ALPHA) * ((i * SEGMENT_MS) as real / (buff - BUFF_LOW) as real)
  }

  /** i is the first of the counts with the least cost. */
  ghost predicate IsFirstMin(buff: int, i: int)
    requires buff > BUFF_LOW
  {
    && 1 <= i <= MAX_COUNT
    && (forall j :: 1 <= j <= MAX_COUNT ==> Cost(buff, i) <= Cost(buff, j))
    && forall j :: 1 <= j < i ==> Cost(buff, i) < Cost(buff, j)
  }

  /** The count in use for a buffer level. */
  ghost predicate IsCount(buff: int, n: int)
  {
    if buff > BUFF_LOW then IsFirstMin(buff, n) else n == 1
  }

  lemma CostBelowStart(buff: int, i: int)
    requires buff > BUFF_LOW && 1 <= i <= MAX_COUNT
    ensures Cost(buff, i) < START_COST
  {
    var d, n := (buff - BUFF_LOW) as real, (i * SEGMENT_MS) as real;
    Products.Quotient(1.0, i as real);
    Products.Quotient(n, d);
  }

  /** The chosen count; the source leaves it unset when no cost is below the first one compared with. */
  method DecideNextN(buff: int) returns (pushCount: int)
    ensures IsCount(buff, pushCount)
  {
    if buff > BUFF_LOW {
      var nextN := 0;
      var lowest := START_COST;
      for i := 1 to MAX_COUNT + 1
        invariant i > 1 ==> 1 <= nextN < i && lowest == Cost(buff, nextN)
        invariant i == 1 ==> lowest == START_COST
        invariant forall j :: 1 <= j < i ==> lowest <= Cost(buff, j)
        invariant forall j :: 1 <= j < nextN ==> lowest < Cost(buff, j)
      {
        CostBelowStart(buff, i);
        var costRequest := 1.0 / i as real;
        var costBuffer := (i * SEGMENT_MS) as real / (buff - BUFF_LOW) as real;
        var cost := ALPHA * costRequest + (1.0 - ALPHA) * costBuffer;
        if cost < lowest {
          nextN := i;
          lowest := cost;
        }
      }
      pushCount := nextN;
    } else {
      pushCount := 1;
    }
  }

  /** Per segment asked for, the buffer's share of the cost. */
  function Weight(buff: int): (x: real)
    requires buff > BUFF_LOW
    ensures x > 0.0
  {
    400.0 / (buff - BUFF_LOW) as real
  }

  lemma CostLinear(buff: int, i: int)
    requires buff > BUFF_LOW && i >= 1
    ensures Cost(buff, i) == 0.6 / i as real + i as real * Weight(buff)
  {
    var d, n := (buff - BUFF_LOW) as real, i as real;
    assert (i * SEGMENT_MS) as real == n * 1000.0;
    assert 0.4 * (n * 1000.0 / d) == n * (400.0 / d);
    assert 0.6 * (1.0 / n) == 0.6 / n;
  }

  lemma WeightAgainst(buff: int, bound: real)
    requires buff > BUFF_LOW
    ensures Weight(buff) < bound <==> 400.0 < bound * (buff - BUFF_LOW) as real
  {
    QuotientAgainst(400.0, (buff - BUFF_LOW) as real, Weight(buff), bound);
  }

  lemma QuotientAgainst(p: real, d: real, x: real, bound: real)
    requires d > 0.0 && x == p / d
    ensures x < bound <==> p < bound * d
  {
    assert x * d == p;
    Against(p, d, x, bound, bound * d);
  }

  lemma Against(p: real, d: real, x: real, bound: real, q: real)
    requires d > 0.0 && x * d == p && q == bound * d
    ensures x < bound <==> p < q
  {
    Products.Scale(x, bound, d, p, q);
  }

  /** Exactly which count is chosen at every buffer level: the optimum moves up at three levels. */
  lemma CountTable(buff: int, n: int)
    ensures IsCount(buff, n)
       <==> n == if buff <= 26333 then 1 else if buff <= 29000 then 2 else if buff <= 33000 then 3 else 4
  {
    if buff > BUFF_LOW {
      var x := Weight(buff);
      CostLinear(buff, 1);
      CostLinear(buff, 2);
      CostLinear(buff, 3);
      CostLinear(buff, 4);
      WeightAgainst(buff, 0.3);
      WeightAgainst(buff, 0.1);
      WeightAgainst(buff, 0.05);
      assert x < 0.3 <==> buff > 26333;
      assert x < 0.1 <==> buff > 29000;
      assert x < 0.05 <==> buff > 33000;
    }
  }

  /** The count never falls as the buffer fills, at all levels, those below the low mark included. */
  lemma CountMonotone(buff: int, more: int, n: int, m: int)
    requires buff <= more && IsCount(buff, n) && IsCount(more, m)
    ensures n <= m
  {
    CountTable(buff, n);
    CountTable(more, m);
  }
}
