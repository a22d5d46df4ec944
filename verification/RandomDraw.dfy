/** The weighted draw (`random_select` in airdrop/tools/select_batch.py). The hash that drives it is a parameter. */
module RandomDraw {
  import opened Lists
  import opened Options
  import opened Selection

  datatype Tier = Large | Medium | Small

  const WEIGHT_SCALE: nat := 100000000000000000000000000000000000000000000000000000000000000000000000000000000

  datatype Bounds = Bounds(mediumFrom: nat, largeFrom: nat, largeTo: Limit)

  /** `tier_of`: `None` for an amount that is not drawn at all. */
  function TierOf(amount: nat, b: Bounds): Option<Tier>
  {
    if b.largeTo.Some? && amount >= b.largeTo.value then None
    else if amount >= b.largeFrom then Some(Large)
    else Some(if amount >= b.mediumFrom then Medium else Small)
  }

  /** The tiers are consecutive intervals of amounts. */
  lemma TiersAre(amount: nat, b: Bounds)
    requires b.mediumFrom < b.largeFrom && (b.largeTo.Some? ==> b.largeFrom < b.largeTo.value)
    ensures TierOf(amount, b) == Some(Small) <==> amount < b.mediumFrom
    ensures TierOf(amount, b) == Some(Medium) <==> b.mediumFrom <= amount < b.largeFrom
    ensures TierOf(amount, b) == Some(Large) <==> b.largeFrom <= amount && (b.largeTo.Some? ==> amount < b.largeTo.value)
  {
  }

  /** One draw, as it is logged. */
  datatype Draw = Draw(tier: Tier, row: Row, selected: bool)

  function Drawn(log: seq<Draw>): seq<Row>
  {
    if log == [] then [] else [log[0].row] + Drawn(log[1..])
  }

  function Picks(log: seq<Draw>): seq<Row>
  {
    if log == [] then [] else (if log[0].selected then [log[0].row] else []) + Picks(log[1..])
  }

  lemma {:induction false} LogConcat(u: seq<Draw>, v: seq<Draw>)
    ensures Drawn(u + v) == Drawn(u) + Drawn(v) && Picks(u + v) == Picks(u) + Picks(v)
  {
    if u == [] {
      assert u + v == v;
    } else {
      LogConcat(u[1..], v);
      assert (u + v)[1..] == u[1..] + v;
      Associative([u[0].row], Drawn(u[1..]), Drawn(v));
      Associative(if u[0].selected then [u[0].row] else [], Picks(u[1..]), Picks(v));
    }
  }

  lemma LogAppend(log: seq<Draw>, d: Draw)
    ensures Drawn(log + [d]) == Drawn(log) + [d.row]
    ensures Picks(log + [d]) == if d.selected then Picks(log) + [d.row] else Picks(log)
  {
    LogConcat(log, [d]);
    assert [d][1..] == [];
  }

  // ----- the scan for the drawn entry

  lemma {:induction false} SumPrefix(ws: seq<nat>, i: nat, j: nat)
    requires i <= j <= |ws|
    ensures Sum(ws[..i]) <= Sum(ws[..j])
  {
    assert ws[..j] == ws[..i] + ws[i..j];
    SumConcat(ws[..i], ws[i..j]);
  }

  /** Running totals until one exceeds `r`: the entry whose interval of the weights contains `r`. */
  method Scan(ws: seq<nat>, r: nat) returns (index: nat)
    requires r < Sum(ws)
    ensures index < |ws| && Sum(ws[..index]) <= r < Sum(ws[..index + 1])
  {
    hide Sum;
    index := 0;
    var running := 0;
    assert ws[..0] == [] && ws[..|ws|] == ws;
    EmptySum();
    while index < |ws|
      invariant index <= |ws| && running == Sum(ws[..index]) <= r
    {
      SumAppend(ws, index);
      running := running + ws[index];
      if running > r {
        return;
      }
      index := index + 1;
    }
    assert false;
  }

  lemma SumAppend(ws: seq<nat>, i: nat)
    requires i < |ws|
    ensures Sum(ws[..i + 1]) == Sum(ws[..i]) + ws[i]
  {
    assert ws[..i + 1] == ws[..i] + [ws[i]];
    SumConcat(ws[..i], [ws[i]]);
    assert [ws[i]][1..] == [];
  }

  /** No other entry has `r` in its interval. */
  lemma ScanUnique(ws: seq<nat>, r: nat, i: nat, j: nat)
    requires i < |ws| && Sum(ws[..i]) <= r < Sum(ws[..i + 1])
    requires j < |ws| && Sum(ws[..j]) <= r < Sum(ws[..j + 1])
    ensures i == j
  {
    hide Sum;
    if i < j {
      SumPrefix(ws, i + 1, j);
    } else if j < i {
      SumPrefix(ws, j + 1, i);
    }
  }

  lemma OneSum(w: nat)
    ensures Sum([w]) == w
  {
    assert [w][1..] == [];
  }

  lemma SumWithout(ws: seq<nat>, i: nat)
    requires i < |ws|
    ensures Sum(ws) == ws[i] + Sum(ws[..i] + ws[i + 1..])
  {
    OneSum(ws[i]);
    hide Sum;
    var left, right := ws[..i], ws[i + 1..];
    assert ws == left + ([ws[i]] + right);
    SumConcat(left, [ws[i]] + right);
    SumConcat([ws[i]], right);
    SumConcat(left, right);
  }

  predicate Positive(ws: seq<nat>) { forall i :: 0 <= i < |ws| ==> ws[i] >= 1 }

  lemma PositiveWithout(ws: seq<nat>, i: nat)
    requires Positive(ws) && i < |ws|
    ensures Positive(ws[..i] + ws[i + 1..])
  {
  }

  lemma SumPositive(ws: seq<nat>)
    requires ws != [] && Positive(ws)
    ensures Sum(ws) >= 1
  {
  }

  // ----- one tier

  predicate AllTier(log: seq<Draw>, tier: Tier) { forall i :: 0 <= i < |log| ==> log[i].tier == tier }

  /** Every row drawn and not taken costs more than is left. */
  predicate SkippedTooMuch(log: seq<Draw>, left: Limit)
  {
    forall i :: 0 <= i < |log| && !log[i].selected ==> left.Some? && log[i].row.amount > left.value
  }

  function Residue(x: nat, total: nat): (r: nat)
    requires total > 0
    ensures r < total
  {
    x % total
  }

  function Remove<T>(s: seq<T>, i: nat): (r: seq<T>)
    requires i < |s|
    ensures |r| == |s| - 1
  {
    s[..i] + s[i + 1..]
  }

  /** `x`, reduced by the sum of the weights, falls in the interval of entry `i`. */
  predicate Hits(ws: seq<nat>, i: nat, x: nat)
  {
    i < |ws| && Sum(ws) > 0 && Sum(ws[..i]) <= Residue(x, Sum(ws)) < Sum(ws[..i + 1])
  }

  /** Where the draw of a tier stands: who can still be drawn with what weight, the next draw, and what is left of the count
      wanted, the budget and the slots. */
  datatype Stand = Stand(pool: seq<Row>, ws: seq<nat>, k: nat, wanted: Limit, budget: Limit, slots: Limit)
  {
    predicate Valid() { |pool| == |ws| }

    /** The draw goes on. */
    predicate Open() { pool != [] && wanted != Some(0) && slots != Some(0) }

    predicate Fits(row: Row) { budget.None? || row.amount <= budget.value }

    /** Entry `i` was drawn. */
    function After(i: nat): (s: Stand)
      requires Valid() && Open() && i < |pool|
      ensures s.Valid()
    {
      if Fits(pool[i]) then Stand(Remove(pool, i), Remove(ws, i), k + 1, Minus(wanted, 1), Minus(budget, pool[i].amount), Minus(slots, 1))
      else Stand(Remove(pool, i), Remove(ws, i), k + 1, wanted, budget, slots)
    }
  }

  /** The log is the course the draws take from one stand to another: each takes out of the pool the entry it hits, and
      selects it exactly when it fits the budget left. */
  ghost predicate Follows(tier: Tier, draw: nat -> nat, s: Stand, log: seq<Draw>, end: Stand)
    requires s.Valid()
    decreases |log|
  {
    if log == [] then s == end
    else
      && s.Open()
      && exists i: nat :: i < |s.ws| && Hits(s.ws, i, draw(s.k)) && log[0] == Draw(tier, s.pool[i], s.Fits(s.pool[i]))
                          && Follows(tier, draw, s.After(i), log[1..], end)
  }

  lemma {:induction false} FollowsOn(tier: Tier, draw: nat -> nat, s: Stand, log: seq<Draw>, end: Stand, j: nat)
    requires s.Valid() && end.Valid() && Follows(tier, draw, s, log, end)
    requires end.Open() && j < |end.ws| && Hits(end.ws, j, draw(end.k))
    ensures Follows(tier, draw, s, log + [Draw(tier, end.pool[j], end.Fits(end.pool[j]))], end.After(j))
    decreases |log|
  {
    hide Hits;
    var d := Draw(tier, end.pool[j], end.Fits(end.pool[j]));
    if log == [] {
      assert Follows(tier, draw, s.After(j), [], end.After(j));
      assert (log + [d])[0] == d && (log + [d])[1..] == [];
    } else {
      var i: nat :| i < |s.ws| && Hits(s.ws, i, draw(s.k)) && log[0] == Draw(tier, s.pool[i], s.Fits(s.pool[i]))
               && Follows(tier, draw, s.After(i), log[1..], end);
      FollowsOn(tier, draw, s.After(i), log[1..], end, j);
      assert (log + [d])[1..] == log[1..] + [d] && (log + [d])[0] == log[0];
    }
  }

  /** The hash values leave no choice: a draw that is carried to its end has one course. */
  lemma {:induction false} OneCourse(tier: Tier, draw: nat -> nat, s: Stand, log: seq<Draw>, end: Stand, log': seq<Draw>, end': Stand)
    requires s.Valid() && Follows(tier, draw, s, log, end) && Follows(tier, draw, s, log', end')
    requires !end.Open() && !end'.Open()
    ensures log == log' && end == end'
    decreases |log|
  {
    hide Follows;
    CourseEnds(tier, draw, s, log, end);
    CourseEnds(tier, draw, s, log', end');
    if log != [] {
      var i := FirstDraw(tier, draw, s, log, end);
      var j := FirstDraw(tier, draw, s, log', end');
      ScanUnique(s.ws, Residue(draw(s.k), Sum(s.ws)), i, j);
      hide Hits, Sum, Residue;
      OneCourse(tier, draw, s.After(i), log[1..], end, log'[1..], end');
      assert log == [log[0]] + log[1..] && log' == [log'[0]] + log'[1..];
    }
  }

  lemma CourseEnds(tier: Tier, draw: nat -> nat, s: Stand, log: seq<Draw>, end: Stand)
    requires s.Valid() && Follows(tier, draw, s, log, end) && !end.Open()
    ensures log == [] <==> !s.Open()
    ensures log == [] ==> s == end
  {
  }

  lemma FirstDraw(tier: Tier, draw: nat -> nat, s: Stand, log: seq<Draw>, end: Stand) returns (i: nat)
    requires s.Valid() && Follows(tier, draw, s, log, end) && log != []
    ensures s.Open() && i < |s.ws| && Hits(s.ws, i, draw(s.k)) && log[0] == Draw(tier, s.pool[i], s.Fits(s.pool[i]))
    ensures Follows(tier, draw, s.After(i), log[1..], end)
  {
    hide Hits;
    i :| i < |s.ws| && Hits(s.ws, i, draw(s.k)) && log[0] == Draw(tier, s.pool[i], s.Fits(s.pool[i]))
         && Follows(tier, draw, s.After(i), log[1..], end);
  }

  /** Draws from `pool` until it is empty, enough are taken, or no slot is left. */
  method DrawTier(tier: Tier, pool0: seq<Row>, weights0: seq<nat>, draw: nat -> nat, wanted: Limit, budget: Limit, slots: Limit)
    returns (log: seq<Draw>, ghost end: Stand, budgetLeft: Limit, slotsLeft: Limit)
    requires |pool0| == |weights0| && Positive(weights0)
    ensures Follows(tier, draw, Stand(pool0, weights0, 0, wanted, budget, slots), log, end) && !end.Open()
    ensures end.budget == budgetLeft && end.slots == slotsLeft
    ensures multiset(pool0) == multiset(Drawn(log)) + multiset(end.pool)
    ensures AllTier(log, tier)
    ensures Within(budget, Total(Picks(log))) && budgetLeft == Minus(budget, Total(Picks(log)))
    ensures Within(slots, |Picks(log)|) && slotsLeft == Minus(slots, |Picks(log)|)
    ensures Within(wanted, |Picks(log)|)
    ensures end.pool == [] || wanted == Some(|Picks(log)|) || slotsLeft == Some(0)
    ensures SkippedTooMuch(log, budgetLeft)
  {
    hide Sum, Total, Drawn, Picks, SkippedTooMuch, Positive, Residue, Follows, PoolKept, LimitsKept, Hits;
    ghost var start := Stand(pool0, weights0, 0, wanted, budget, slots);
    NotBegun(tier, start, draw);
    var pool, weights := pool0, weights0;
    budgetLeft, slotsLeft, log := budget, slots, [];
    var taken, k, total := 0, 0, Sum(weights);
    end := start;
    while pool != [] && !(wanted.Some? && taken >= wanted.value) && !(slotsLeft.Some? && slotsLeft.value == 0)
      invariant Within(wanted, taken) && end == Stand(pool, weights, k, Minus(wanted, taken), budgetLeft, slotsLeft)
      invariant |pool| == |weights| && total == Sum(weights)
      invariant PoolKept(tier, start, draw, log, end)
      invariant taken == |Picks(log)| && LimitsKept(tier, wanted, budget, slots, log, budgetLeft, slotsLeft)
      decreases |pool|
    {
      PoolPositive(tier, start, draw, log, end);
      var index := Scan(weights, Residue(draw(k), total));
      var row := pool[index];
      var fits := budgetLeft.None? || row.amount <= budgetLeft.value;
      ItHits(weights, index, draw(k));
      PoolStep(tier, start, draw, log, end, index);
      LimitsStep(tier, wanted, budget, slots, log, budgetLeft, slotsLeft, Draw(tier, row, fits));
      SumWithout(weights, index);
      end := end.After(index);
      total := total - weights[index];
      pool := Remove(pool, index);
      weights := Remove(weights, index);
      log := log + [Draw(tier, row, fits)];
      k := k + 1;
      if fits {
        taken := taken + 1;
        if budgetLeft.Some? {
          budgetLeft := Some(budgetLeft.value - row.amount);
        }
        if slotsLeft.Some? {
          slotsLeft := Some(slotsLeft.value - 1);
        }
      }
    }
    KeptMeans(tier, start, draw, log, end, wanted, budget, slots, budgetLeft, slotsLeft);
  }

  lemma ItHits(ws: seq<nat>, i: nat, x: nat)
    requires i < |ws| && Sum(ws) > 0 && Sum(ws[..i]) <= Residue(x, Sum(ws)) < Sum(ws[..i + 1])
    ensures Hits(ws, i, x)
  {
    hide Sum, Residue;
  }

  ghost predicate PoolKept(tier: Tier, start: Stand, draw: nat -> nat, log: seq<Draw>, s: Stand)
  {
    && start.Valid() && s.Valid() && Positive(s.ws) && Follows(tier, draw, start, log, s)
    && multiset(start.pool) == multiset(Drawn(log)) + multiset(s.pool)
  }

  ghost predicate LimitsKept(tier: Tier, wanted: Limit, budget: Limit, slots: Limit, log: seq<Draw>, budgetLeft: Limit, slotsLeft: Limit)
  {
    && AllTier(log, tier)
    && Within(budget, Total(Picks(log))) && budgetLeft == Minus(budget, Total(Picks(log)))
    && Within(slots, |Picks(log)|) && slotsLeft == Minus(slots, |Picks(log)|)
    && Within(wanted, |Picks(log)|)
    && SkippedTooMuch(log, budgetLeft)
  }

  lemma KeptMeans(tier: Tier, start: Stand, draw: nat -> nat, log: seq<Draw>, s: Stand,
                  wanted: Limit, budget: Limit, slots: Limit, budgetLeft: Limit, slotsLeft: Limit)
    requires PoolKept(tier, start, draw, log, s)
    requires LimitsKept(tier, wanted, budget, slots, log, budgetLeft, slotsLeft)
    ensures start.Valid() && Follows(tier, draw, start, log, s)
    ensures multiset(start.pool) == multiset(Drawn(log)) + multiset(s.pool)
    ensures AllTier(log, tier)
    ensures Within(budget, Total(Picks(log))) && budgetLeft == Minus(budget, Total(Picks(log)))
    ensures Within(slots, |Picks(log)|) && slotsLeft == Minus(slots, |Picks(log)|)
    ensures Within(wanted, |Picks(log)|) && SkippedTooMuch(log, budgetLeft)
  {
  }

  lemma PoolPositive(tier: Tier, start: Stand, draw: nat -> nat, log: seq<Draw>, s: Stand)
    requires PoolKept(tier, start, draw, log, s) && s.ws != []
    ensures Sum(s.ws) >= 1
  {
    hide Follows, Drawn;
    SumPositive(s.ws);
  }

  lemma PoolStep(tier: Tier, start: Stand, draw: nat -> nat, log: seq<Draw>, s: Stand, i: nat)
    requires PoolKept(tier, start, draw, log, s) && s.Valid() && s.Open() && i < |s.pool| && Hits(s.ws, i, draw(s.k))
    ensures PoolKept(tier, start, draw, log + [Draw(tier, s.pool[i], s.Fits(s.pool[i]))], s.After(i))
  {
    hide Follows, Drawn, Hits, Positive;
    DrawnOnce(start.pool, log, Draw(tier, s.pool[i], s.Fits(s.pool[i])), s.pool, i);
    PositiveWithout(s.ws, i);
    FollowsOn(tier, draw, start, log, s, i);
  }

  lemma LimitsStep(tier: Tier, wanted: Limit, budget: Limit, slots: Limit, log: seq<Draw>, budgetLeft: Limit, slotsLeft: Limit, d: Draw)
    requires LimitsKept(tier, wanted, budget, slots, log, budgetLeft, slotsLeft) && d.tier == tier
    requires d.selected == (budgetLeft.None? || d.row.amount <= budgetLeft.value)
    requires !(wanted.Some? && |Picks(log)| >= wanted.value) && !(slotsLeft.Some? && slotsLeft.value == 0)
    ensures LimitsKept(tier, wanted, budget, slots, log + [d],
                       if d.selected then Minus(budgetLeft, d.row.amount) else budgetLeft,
                       if d.selected then Minus(slotsLeft, 1) else slotsLeft)
    ensures |Picks(log + [d])| == |Picks(log)| + if d.selected then 1 else 0
  {
    hide Picks, Total, SkippedTooMuch;
    LogAppend(log, d);
    SkipKeeps(log, d, budgetLeft);
    TotalAppend(Picks(log), d.row);
  }

  lemma NotBegun(tier: Tier, s: Stand, draw: nat -> nat)
    requires s.Valid() && Positive(s.ws)
    ensures PoolKept(tier, s, draw, [], s) && LimitsKept(tier, s.wanted, s.budget, s.slots, [], s.budget, s.slots) && Picks([]) == []
  {
    NoTotal();
    EmptyLog();
  }

  lemma EmptyLog()
    ensures Drawn([]) == [] && Picks([]) == [] && forall left :: SkippedTooMuch([], left)
  {
  }

  lemma SkipKeeps(log: seq<Draw>, d: Draw, left: Limit)
    requires SkippedTooMuch(log, left) && d.selected == (left.None? || d.row.amount <= left.value)
    ensures SkippedTooMuch(log + [d], if d.selected then Minus(left, d.row.amount) else left)
  {
  }

  /** Each row is either in the log or still in the pool. */
  lemma DrawnOnce(pool0: seq<Row>, log: seq<Draw>, d: Draw, pool: seq<Row>, i: nat)
    requires multiset(pool0) == multiset(Drawn(log)) + multiset(pool) && i < |pool| && d.row == pool[i]
    ensures multiset(pool0) == multiset(Drawn(log + [d])) + multiset(pool[..i] + pool[i + 1..])
  {
    LogAppend(log, d);
    hide Drawn;
    PoolParts(pool, i);
    assert multiset(Drawn(log) + [d.row]) == multiset(Drawn(log)) + multiset{d.row};
  }

  lemma PoolParts(pool: seq<Row>, i: nat)
    requires i < |pool|
    ensures multiset(pool) == multiset{pool[i]} + multiset(pool[..i] + pool[i + 1..])
  {
    assert pool == pool[..i] + ([pool[i]] + pool[i + 1..]);
  }

  // ----- the three tiers

  function InTier(rows: seq<Row>, b: Bounds, t: Tier): seq<Row>
  {
    if rows == [] then []
    else (if TierOf(rows[0].amount, b) == Some(t) then [rows[0]] else []) + InTier(rows[1..], b, t)
  }

  lemma {:induction false} TiersApart(rows: seq<Row>, b: Bounds)
    ensures multiset(InTier(rows, b, Large)) + multiset(InTier(rows, b, Medium)) + multiset(InTier(rows, b, Small)) <= multiset(rows)
  {
    if rows != [] {
      TiersApart(rows[1..], b);
      assert rows == [rows[0]] + rows[1..];
    }
  }

  lemma {:induction false} TierMembers(rows: seq<Row>, b: Bounds, t: Tier)
    ensures forall r :: r in InTier(rows, b, t) ==> TierOf(r.amount, b) == Some(t) && r in rows
  {
    if rows != [] {
      TierMembers(rows[1..], b, t);
    }
  }

  function Weights(pool: seq<Row>, tier: Tier, divisor: nat -> nat): (ws: seq<nat>)
    requires forall r :: r in pool ==> divisor(r.amount) >= 1
    ensures |ws| == |pool| && Positive(ws)
  {
    if pool == [] then []
    else
      var w := if tier.Small? then WEIGHT_SCALE / divisor(pool[0].amount) else 1;
      [if w >= 1 then w else 1] + Weights(pool[1..], tier, divisor)
  }

  /** The odds: equal in the two upper tiers; in the small one in inverse proportion to the divisor, rounded down, and never
      nothing. */
  lemma {:induction false} WeightsAre(pool: seq<Row>, tier: Tier, divisor: nat -> nat, i: nat)
    requires i < |pool| && forall r :: r in pool ==> divisor(r.amount) >= 1
    ensures var w, d := Weights(pool, tier, divisor)[i], divisor(pool[i].amount);
            && d >= 1
            && (!tier.Small? ==> w == 1)
            && (tier.Small? && d <= WEIGHT_SCALE ==> w * d <= WEIGHT_SCALE < (w + 1) * d)
            && (tier.Small? && d > WEIGHT_SCALE ==> w == 1)
  {
    assert pool[i] in pool;
    if i > 0 {
      WeightsAre(pool[1..], tier, divisor, i - 1);
    } else {
      Quotients(WEIGHT_SCALE, divisor(pool[0].amount));
    }
  }

  lemma Quotients(a: nat, d: nat)
    requires d >= 1
    ensures a / d * d <= a < (a / d + 1) * d
    ensures d <= a ==> a / d >= 1
    ensures d > a ==> a / d == 0
  {
    assert a == d * (a / d) + a % d;
    assert (a / d + 1) * d == a / d * d + d;
  }

  predicate ByAddress(x: Row, y: Row) { x.address <= y.address }

  /** The draws of one tier. */
  function Of(log: seq<Draw>, t: Tier): seq<Draw>
  {
    if log == [] then [] else (if log[0].tier == t then [log[0]] else []) + Of(log[1..], t)
  }

  lemma {:induction false} OfOne(log: seq<Draw>, t: Tier, u: Tier)
    requires AllTier(log, t)
    ensures Of(log, u) == if u == t then log else []
  {
    if log != [] {
      OfOne(log[1..], t, u);
    }
  }

  lemma {:induction false} OfConcat(u: seq<Draw>, v: seq<Draw>, t: Tier)
    ensures Of(u + v, t) == Of(u, t) + Of(v, t)
  {
    if u == [] {
      assert u + v == v;
    } else {
      OfConcat(u[1..], v, t);
      assert (u + v)[1..] == u[1..] + v;
      Associative(if u[0].tier == t then [u[0]] else [], Of(u[1..], t), Of(v, t));
    }
  }

  datatype Counts = Counts(large: Limit, medium: Limit, small: Limit)
  {
    function Get(t: Tier): Limit
    {
      match t case Large => large case Medium => medium case Small => small
    }
  }

  /** One tier of the draw: the limits left, and what became of its candidates. */
  ghost predicate TierDone(candidates: seq<Row>, b: Bounds, t: Tier, log: seq<Draw>, wanted: Limit, slotsLeft: Limit)
  {
    && AllTier(log, t) && Within(wanted, |Picks(log)|)
    && FromTier(candidates, b, t, log)
    && (Emptied(candidates, b, t, log) || wanted == Some(|Picks(log)|) || slotsLeft == Some(0))
  }

  ghost predicate FromTier(candidates: seq<Row>, b: Bounds, t: Tier, log: seq<Draw>)
  {
    multiset(Drawn(log)) <= multiset(InTier(candidates, b, t))
  }

  /** Every candidate of the tier was drawn. */
  ghost predicate Emptied(candidates: seq<Row>, b: Bounds, t: Tier, log: seq<Draw>)
  {
    multiset(Drawn(log)) == multiset(InTier(candidates, b, t))
  }

  function TierDraws(draw: (Tier, nat) -> nat, t: Tier): nat -> nat
  {
    k => draw(t, k)
  }

  function Pool(candidates: seq<Row>, b: Bounds, t: Tier): seq<Row> { Sorted(InTier(candidates, b, t), ByAddress) }

  predicate Divides(divisor: nat -> nat, rows: seq<Row>) { forall r :: r in rows ==> divisor(r.amount) >= 1 }

  lemma PoolRows(candidates: seq<Row>, b: Bounds, t: Tier)
    ensures multiset(Pool(candidates, b, t)) == multiset(InTier(candidates, b, t))
    ensures forall r :: r in Pool(candidates, b, t) ==> r in candidates
  {
    hide InTier;
    var found := InTier(candidates, b, t);
    TierMembers(candidates, b, t);
    SortedKeeps(found, ByAddress);
    SameRows(Pool(candidates, b, t), found);
  }

  /** The pool is the tier's candidates by address. */
  lemma PoolSorted(candidates: seq<Row>, b: Bounds, t: Tier)
    ensures multiset(Pool(candidates, b, t)) == multiset(InTier(candidates, b, t))
    ensures forall i, j :: 0 <= i < j < |Pool(candidates, b, t)| ==> Pool(candidates, b, t)[i].address <= Pool(candidates, b, t)[j].address
  {
    PoolRows(candidates, b, t);
    assert TotalOrder(ByAddress);
    SortedOrdered(InTier(candidates, b, t), ByAddress);
    assert Ordered(Pool(candidates, b, t), ByAddress);
  }

  /** The stand of a tier before its first draw. */
  ghost function Start(candidates: seq<Row>, b: Bounds, t: Tier, divisor: nat -> nat, wanted: Limit, budget: Limit, slots: Limit): (s: Stand)
    requires Divides(divisor, candidates)
    ensures s.Valid()
  {
    PoolRows(candidates, b, t);
    var pool := Pool(candidates, b, t);
    Stand(pool, Weights(pool, t, divisor), 0, wanted, budget, slots)
  }

  /** The draws of a tier are the ones its hash values lead to, from its first to its last. */
  ghost predicate Course(candidates: seq<Row>, b: Bounds, t: Tier, divisor: nat -> nat, draw: (Tier, nat) -> nat,
                         wanted: Limit, budget: Limit, slots: Limit, log: seq<Draw>, end: Stand)
    requires Divides(divisor, candidates)
  {
    Follows(t, TierDraws(draw, t), Start(candidates, b, t, divisor, wanted, budget, slots), log, end) && !end.Open()
  }

  /** The three tiers one after the other, each with what the ones before it left of the limits. */
  ghost predicate WholeCourse(candidates: seq<Row>, b: Bounds, counts: Counts, divisor: nat -> nat, draw: (Tier, nat) -> nat,
                              budget: Limit, slots: Limit, log: seq<Draw>)
    requires Divides(divisor, candidates)
  {
    exists x, y, z, e, e', e'' ::
      && log == x + y + z
      && Course(candidates, b, Large, divisor, draw, counts.large, budget, slots, x, e)
      && Course(candidates, b, Medium, divisor, draw, counts.medium, e.budget, e.slots, y, e')
      && Course(candidates, b, Small, divisor, draw, counts.small, e'.budget, e'.slots, z, e'')
  }

  /** One log, and so one choice, for given candidates, limits and hash values. */
  lemma DrawIsUnique(candidates: seq<Row>, b: Bounds, counts: Counts, divisor: nat -> nat, draw: (Tier, nat) -> nat,
                     budget: Limit, slots: Limit, log: seq<Draw>, log': seq<Draw>)
    requires Divides(divisor, candidates)
    requires WholeCourse(candidates, b, counts, divisor, draw, budget, slots, log)
    requires WholeCourse(candidates, b, counts, divisor, draw, budget, slots, log')
    ensures log == log'
  {
    hide Follows, Start;
    var x, y, z, e, f, g :|
      && log == x + y + z
      && Course(candidates, b, Large, divisor, draw, counts.large, budget, slots, x, e)
      && Course(candidates, b, Medium, divisor, draw, counts.medium, e.budget, e.slots, y, f)
      && Course(candidates, b, Small, divisor, draw, counts.small, f.budget, f.slots, z, g);
    var x', y', z', e', f', g' :|
      && log' == x' + y' + z'
      && Course(candidates, b, Large, divisor, draw, counts.large, budget, slots, x', e')
      && Course(candidates, b, Medium, divisor, draw, counts.medium, e'.budget, e'.slots, y', f')
      && Course(candidates, b, Small, divisor, draw, counts.small, f'.budget, f'.slots, z', g');
    OneCourse(Large, TierDraws(draw, Large), Start(candidates, b, Large, divisor, counts.large, budget, slots), x, e, x', e');
    OneCourse(Medium, TierDraws(draw, Medium), Start(candidates, b, Medium, divisor, counts.medium, e.budget, e.slots), y, f, y', f');
    OneCourse(Small, TierDraws(draw, Small), Start(candidates, b, Small, divisor, counts.small, f.budget, f.slots), z, g, z', g');
  }

  method DrawFrom(t: Tier, candidates: seq<Row>, b: Bounds, divisor: nat -> nat, draw: (Tier, nat) -> nat,
                  wanted: Limit, budget: Limit, slots: Limit)
    returns (log: seq<Draw>, ghost end: Stand, budgetLeft: Limit, slotsLeft: Limit)
    requires Divides(divisor, candidates)
    ensures TierDone(candidates, b, t, log, wanted, slotsLeft)
    ensures Course(candidates, b, t, divisor, draw, wanted, budget, slots, log, end) && end.budget == budgetLeft && end.slots == slotsLeft
    ensures Within(budget, Total(Picks(log))) && budgetLeft == Minus(budget, Total(Picks(log)))
    ensures Within(slots, |Picks(log)|) && slotsLeft == Minus(slots, |Picks(log)|)
    ensures SkippedTooMuch(log, budgetLeft)
  {
    hide InTier, Weights, Total, Picks, Drawn, SkippedTooMuch, AllTier, Follows, Pool;
    PoolRows(candidates, b, t);
    var pool := Pool(candidates, b, t);
    log, end, budgetLeft, slotsLeft := DrawTier(t, pool, Weights(pool, t, divisor), TierDraws(draw, t), wanted, budget, slots);
    assert end.pool == [] ==> multiset(end.pool) == multiset{};
  }

  lemma SameRows(u: seq<Row>, v: seq<Row>)
    requires multiset(u) == multiset(v)
    ensures forall r :: r in u ==> r in v
  {
    forall r | r in u ensures r in v {
      assert r in multiset(u);
    }
  }

  /** The limits hold, and what was skipped does not fit the money left in the end. */
  ghost predicate LimitsHold(budget: Limit, slots: Limit, log: seq<Draw>)
  {
    var chosen := Picks(log);
    Within(budget, Total(chosen)) && Within(slots, |chosen|) && SkippedTooMuch(log, Minus(budget, Total(chosen)))
  }

  /** A tier takes no more than its count, and is left only when it is empty, has its count, or no slot is left. */
  ghost predicate TierHolds(candidates: seq<Row>, b: Bounds, t: Tier, wanted: Limit, slots: Limit, log: seq<Draw>)
  {
    var mine := Of(log, t);
    && Within(wanted, |Picks(mine)|)
    && (Emptied(candidates, b, t, mine) || wanted == Some(|Picks(mine)|) || slots == Some(|Picks(log)|))
  }

  /** What the draw promises of its log; only candidates are drawn, and none twice. */
  ghost predicate FairDraw(candidates: seq<Row>, b: Bounds, counts: Counts, budget: Limit, slots: Limit, log: seq<Draw>)
  {
    && multiset(Drawn(log)) <= multiset(candidates)
    && LimitsHold(budget, slots, log)
    && forall t: Tier :: TierHolds(candidates, b, t, counts.Get(t), slots, log)
  }

  method RandomSelect(candidates: seq<Row>, b: Bounds, counts: Counts, divisor: nat -> nat, draw: (Tier, nat) -> nat,
                      budget: Limit, slots: Limit)
    returns (chosen: seq<Row>, log: seq<Draw>)
    requires Divides(divisor, candidates)
    ensures chosen == Picks(log) && FairDraw(candidates, b, counts, budget, slots, log)
    ensures WholeCourse(candidates, b, counts, divisor, draw, budget, slots, log)
  {
    hide InTier, Total, Picks, Drawn, SkippedTooMuch, Of, Course;
    ghost var e, e', e'';
    var x, b1, s1, y, b2, s2, z, b3, s3;
    x, e, b1, s1 := DrawFrom(Large, candidates, b, divisor, draw, counts.large, budget, slots);
    y, e', b2, s2 := DrawFrom(Medium, candidates, b, divisor, draw, counts.medium, b1, s1);
    z, e'', b3, s3 := DrawFrom(Small, candidates, b, divisor, draw, counts.small, b2, s2);
    log := x + y + z;
    LogConcat(x + y, z);
    LogConcat(x, y);
    chosen := Picks(x) + Picks(y) + Picks(z);
    AllDrawn(candidates, b, x, y, z);
    ThreeLimits(budget, slots, x, y, z, b1, b2, b3, s1, s2, s3);
    OfThree(x, y, z);
    TierLater(candidates, b, Large, counts.large, slots, log, s1, |Picks(x)|);
    TierLater(candidates, b, Medium, counts.medium, slots, log, s2, |Picks(x)| + |Picks(y)|);
    TierLater(candidates, b, Small, counts.small, slots, log, s3, |chosen|);
  }

  lemma ThreeLimits(budget: Limit, slots: Limit, x: seq<Draw>, y: seq<Draw>, z: seq<Draw>,
                    b1: Limit, b2: Limit, b3: Limit, s1: Limit, s2: Limit, s3: Limit)
    requires Within(budget, Total(Picks(x))) && b1 == Minus(budget, Total(Picks(x))) && SkippedTooMuch(x, b1)
    requires Within(b1, Total(Picks(y))) && b2 == Minus(b1, Total(Picks(y))) && SkippedTooMuch(y, b2)
    requires Within(b2, Total(Picks(z))) && b3 == Minus(b2, Total(Picks(z))) && SkippedTooMuch(z, b3)
    requires Within(slots, |Picks(x)|) && s1 == Minus(slots, |Picks(x)|)
    requires Within(s1, |Picks(y)|) && s2 == Minus(s1, |Picks(y)|)
    requires Within(s2, |Picks(z)|) && s3 == Minus(s2, |Picks(z)|)
    ensures LimitsHold(budget, slots, x + y + z)
  {
    hide Total, Picks, SkippedTooMuch;
    LogConcat(x + y, z);
    LogConcat(x, y);
    TotalConcat(Picks(x) + Picks(y), Picks(z));
    TotalConcat(Picks(x), Picks(y));
    StillTooMuch(x, b1, Total(Picks(y)));
    StillTooMuch(x, b2, Total(Picks(z)));
    StillTooMuch(y, b2, Total(Picks(z)));
    SkippedConcat(x, y, z, b3);
  }

  /** A tier that stopped because no slot was left: none is left at the end either. */
  lemma TierLater(candidates: seq<Row>, b: Bounds, t: Tier, wanted: Limit, slots: Limit, log: seq<Draw>, left: Limit, n: nat)
    requires TierDone(candidates, b, t, Of(log, t), wanted, left)
    requires n <= |Picks(log)| && Within(slots, |Picks(log)|) && left == Minus(slots, n)
    ensures TierHolds(candidates, b, t, wanted, slots, log)
  {
    hide Picks, Of, Emptied, FromTier;
  }

  lemma OfThree(x: seq<Draw>, y: seq<Draw>, z: seq<Draw>)
    requires AllTier(x, Large) && AllTier(y, Medium) && AllTier(z, Small)
    ensures Of(x + y + z, Large) == x && Of(x + y + z, Medium) == y && Of(x + y + z, Small) == z
  {
    hide AllTier, Of;
    forall t: Tier ensures Of(x + y + z, t) == match t case Large => x case Medium => y case Small => z {
      OfConcat(x + y, z, t);
      OfConcat(x, y, t);
      OfOne(x, Large, t);
      OfOne(y, Medium, t);
      OfOne(z, Small, t);
    }
  }

  lemma AllDrawn(candidates: seq<Row>, b: Bounds, x: seq<Draw>, y: seq<Draw>, z: seq<Draw>)
    requires FromTier(candidates, b, Large, x) && FromTier(candidates, b, Medium, y) && FromTier(candidates, b, Small, z)
    ensures multiset(Drawn(x + y + z)) <= multiset(candidates)
  {
    hide Drawn, InTier;
    LogConcat(x + y, z);
    LogConcat(x, y);
    TiersApart(candidates, b);
    var p, q, r := multiset(Drawn(x)), multiset(Drawn(y)), multiset(Drawn(z));
    assert multiset(Drawn(x) + Drawn(y) + Drawn(z)) == p + q + r;
  }

  lemma StillTooMuch(log: seq<Draw>, left: Limit, spent: nat)
    requires SkippedTooMuch(log, left) && Within(left, spent)
    ensures SkippedTooMuch(log, Minus(left, spent))
  {
  }

  lemma SkippedConcat(x: seq<Draw>, y: seq<Draw>, z: seq<Draw>, left: Limit)
    requires SkippedTooMuch(x, left) && SkippedTooMuch(y, left) && SkippedTooMuch(z, left)
    ensures SkippedTooMuch(x + y + z, left)
  {
  }
}
