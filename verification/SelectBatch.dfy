/** A whole selection (`main` in airdrop/tools/select_batch.py): what is paid, what is selected and what remains. */
module SelectBatch {
  import opened Lists
  import opened Options
  import opened Selection
  import opened RandomDraw

  datatype Strategy =
    | SmallestFirst
    | LargestFirst
    | InputOrder
    | Random(bounds: Bounds, counts: Counts, divisor: nat -> nat, draw: (Tier, nat) -> nat)

  datatype Outcome =
    | NotListed(address: nat)
    | AlreadyPaid(address: nat)
    | OnHold(address: nat)
    | ForcedOverBudget
    | ForcedTooMany
    | Selected(selected: seq<Row>, remaining: seq<Row>)

  // ----- rows by address

  predicate Unique(rows: seq<Row>)
  {
    rows == [] || (rows[0].address !in Keys(rows[1..]) && Unique(rows[1..]))
  }

  function Keys(rows: seq<Row>): set<nat>
  {
    set r | r in rows :: r.address
  }

  function Keep(rows: seq<Row>, keys: set<nat>): seq<Row>
  {
    if rows == [] then [] else (if rows[0].address in keys then [rows[0]] else []) + Keep(rows[1..], keys)
  }

  function Drop(rows: seq<Row>, keys: set<nat>): seq<Row>
  {
    if rows == [] then [] else (if rows[0].address in keys then [] else [rows[0]]) + Drop(rows[1..], keys)
  }

  lemma {:induction false} KeepAndDrop(rows: seq<Row>, keys: set<nat>)
    ensures multiset(rows) == multiset(Keep(rows, keys)) + multiset(Drop(rows, keys))
    ensures forall r :: r in Drop(rows, keys) ==> r in rows && r.address !in keys
    ensures forall r :: r in Keep(rows, keys) ==> r in rows && r.address in keys
  {
    if rows != [] {
      KeepAndDrop(rows[1..], keys);
      assert rows == [rows[0]] + rows[1..];
    }
  }

  lemma {:induction false} DropUnique(rows: seq<Row>, keys: set<nat>)
    requires Unique(rows)
    ensures Unique(Drop(rows, keys))
  {
    if rows != [] {
      hide Keys;
      var d := Drop(rows[1..], keys);
      DropUnique(rows[1..], keys);
      DropKeys(rows[1..], keys);
      assert ([rows[0]] + d)[1..] == d;
      assert Drop(rows, keys) == if rows[0].address in keys then d else [rows[0]] + d;
    }
  }

  lemma DropKeys(rows: seq<Row>, keys: set<nat>)
    ensures Keys(Drop(rows, keys)) <= Keys(rows)
  {
    KeepAndDrop(rows, keys);
  }

  /** With one row per address, keeping the addresses of some of the rows keeps exactly those rows. */
  lemma {:induction false} KeepSelected(rows: seq<Row>, some: seq<Row>)
    requires Unique(rows) && multiset(some) <= multiset(rows)
    ensures multiset(Keep(rows, Keys(some))) == multiset(some)
  {
    forall r ensures multiset(Keep(rows, Keys(some)))[r] == multiset(some)[r] {
      KeepCount(rows, Keys(some), r);
      UniqueCount(rows, r);
      if r in some {
        assert r.address in Keys(some);
        assert multiset(some)[r] >= 1;
      } else if r.address in Keys(some) {
        var s :| s in some && s.address == r.address;
        assert s in multiset(some);
        assert s in rows;
        SameAddress(rows, r, s);
      }
    }
  }

  lemma {:induction false} SameAddress(rows: seq<Row>, r: Row, s: Row)
    requires Unique(rows) && s in rows && s.address == r.address && r != s
    ensures r !in rows && multiset(rows)[r] == 0
  {
    var rest := rows[1..];
    if rows[0] != s {
      SameAddress(rest, r, s);
    }
    assert r in rest ==> r.address in Keys(rest);
    assert s in rest ==> s.address in Keys(rest);
  }

  lemma {:induction false} KeepCount(rows: seq<Row>, keys: set<nat>, r: Row)
    ensures multiset(Keep(rows, keys))[r] == if r.address in keys then multiset(rows)[r] else 0
  {
    if rows != [] {
      KeepCount(rows[1..], keys, r);
      assert rows == [rows[0]] + rows[1..];
    }
  }

  lemma {:induction false} UniqueCount(rows: seq<Row>, r: Row)
    requires Unique(rows)
    ensures multiset(rows)[r] <= 1
  {
    if rows != [] {
      var rest := rows[1..];
      assert rows == [rows[0]] + rest;
      UniqueCount(rest, r);
      assert r in rest ==> r.address in Keys(rest);
    }
  }

  // ----- forced rows

  function Find(rows: seq<Row>, address: nat): (r: Option<Row>)
    ensures r.Some? ==> r.value in rows && r.value.address == address
    ensures r.None? ==> address !in Keys(rows)
  {
    if rows == [] then None else if rows[0].address == address then Some(rows[0]) else Find(rows[1..], address)
  }

  function Addresses(rows: seq<Row>): seq<nat>
  {
    if rows == [] then [] else [rows[0].address] + Addresses(rows[1..])
  }

  /** Why an address cannot be forced into the batch. */
  function Objection(rows: seq<Row>, paid: set<nat>, held: set<nat>, a: nat): (r: Option<Outcome>)
    ensures r.Some? ==> !r.value.Selected?
  {
    if a !in Keys(rows) then Some(NotListed(a))
    else if a in paid then Some(AlreadyPaid(a))
    else if a in held then Some(OnHold(a))
    else None
  }

  predicate Distinct(xs: seq<nat>)
  {
    xs == [] || (xs[0] !in xs[1..] && Distinct(xs[1..]))
  }

  lemma {:induction false} AddressesHold(rows: seq<Row>)
    ensures forall r :: r in rows ==> r.address in Addresses(rows)
    ensures |Addresses(rows)| == |rows|
  {
    if rows != [] {
      AddressesHold(rows[1..]);
    }
  }

  lemma {:induction false} DistinctCount(some: seq<Row>, r: Row)
    requires Distinct(Addresses(some))
    ensures multiset(some)[r] <= 1
  {
    if some != [] {
      var rest := some[1..];
      assert some == [some[0]] + rest && Addresses(some)[1..] == Addresses(rest);
      DistinctCount(rest, r);
      AddressesHold(rest);
      assert r in rest ==> r.address in Addresses(rest);
      assert r !in rest ==> multiset(rest)[r] == 0;
    }
  }

  /** The rows of the included addresses. */
  function Forced(rows: seq<Row>, includes: seq<nat>): seq<Row>
  {
    if includes == [] then []
    else
      match Find(rows, includes[0])
      case None => Forced(rows, includes[1..])
      case Some(row) => [row] + Forced(rows, includes[1..])
  }

  lemma {:induction false} ForcedAppend(rows: seq<Row>, u: seq<nat>, a: nat)
    requires Find(rows, a).Some?
    ensures Forced(rows, u + [a]) == Forced(rows, u) + [Find(rows, a).value]
  {
    hide Find;
    if u == [] {
      assert u + [a] == [a] && [a][1..] == [];
    } else {
      ForcedAppend(rows, u[1..], a);
      assert (u + [a])[1..] == u[1..] + [a];
    }
  }

  lemma {:induction false} ForcedAddresses(rows: seq<Row>, includes: seq<nat>)
    requires forall i :: 0 <= i < |includes| ==> Find(rows, includes[i]).Some?
    ensures Addresses(Forced(rows, includes)) == includes && forall r :: r in Forced(rows, includes) ==> r in rows
  {
    hide Find;
    if includes != [] {
      ForcedAddresses(rows, includes[1..]);
      var row, rest := Find(rows, includes[0]).value, Forced(rows, includes[1..]);
      assert ([row] + rest)[1..] == rest;
    }
  }

  ghost predicate FirstObjection(rows: seq<Row>, paid: set<nat>, held: set<nat>, includes: seq<nat>, refused: Outcome)
  {
    exists i :: 0 <= i < |includes| && Objection(rows, paid, held, includes[i]) == Some(refused)
                && forall k :: 0 <= k < i ==> Objection(rows, paid, held, includes[k]).None?
  }

  method Force(rows: seq<Row>, paid: set<nat>, held: set<nat>, includes: seq<nat>) returns (refused: Option<Outcome>, forced: seq<Row>)
    ensures refused.None? <==> forall i :: 0 <= i < |includes| ==> Objection(rows, paid, held, includes[i]).None?
    ensures refused.Some? ==> FirstObjection(rows, paid, held, includes, refused.value)
    ensures refused.None? ==> forced == Forced(rows, includes)
  {
    hide Objection, Forced;
    refused, forced := None, [];
    NoneForced(rows);
    var i := 0;
    while i < |includes|
      invariant refused.None? && i <= |includes| && forced == Forced(rows, includes[..i])
      invariant forall k :: 0 <= k < i ==> Objection(rows, paid, held, includes[k]).None?
    {
      refused := Objection(rows, paid, held, includes[i]);
      if refused.Some? {
        return;
      }
      Listed(rows, paid, held, includes[i]);
      ForcedAppend(rows, includes[..i], includes[i]);
      assert includes[..i + 1] == includes[..i] + [includes[i]];
      forced := forced + [Find(rows, includes[i]).value];
      i := i + 1;
    }
    assert includes[..i] == includes;
  }

  lemma NoneForced(rows: seq<Row>)
    ensures Forced(rows, []) == []
  {
  }

  lemma Listed(rows: seq<Row>, paid: set<nat>, held: set<nat>, a: nat)
    requires Objection(rows, paid, held, a).None?
    ensures Find(rows, a).Some? && a !in paid && a !in held
  {
  }

  // ----- the selection

  predicate ByAmount(x: Row, y: Row) { x.amount < y.amount || (x.amount == y.amount && x.address <= y.address) }

  predicate ByAmountDown(x: Row, y: Row) { x.amount > y.amount || (x.amount == y.amount && x.address <= y.address) }

  lemma SortedAscending(s: seq<Row>)
    ensures Ascending(Sorted(s, ByAmount))
  {
    assert TotalOrder(ByAmount);
    SortedOrdered(s, ByAmount);
    assert Ordered(Sorted(s, ByAmount), ByAmount);
  }

  /** Largest-first goes through the amounts downwards, and equal ones by address. */
  lemma SortedDescending(s: seq<Row>)
    ensures multiset(Sorted(s, ByAmountDown)) == multiset(s)
    ensures forall i, j :: 0 <= i < j < |Sorted(s, ByAmountDown)| ==>
              var x, y := Sorted(s, ByAmountDown)[i], Sorted(s, ByAmountDown)[j];
              x.amount > y.amount || (x.amount == y.amount && x.address <= y.address)
  {
    SortedKeeps(s, ByAmountDown);
    assert TotalOrder(ByAmountDown);
    SortedOrdered(s, ByAmountDown);
    assert Ordered(Sorted(s, ByAmountDown), ByAmountDown);
  }

  lemma SortedByAddress(s: seq<Row>)
    ensures multiset(Sorted(s, RandomDraw.ByAddress)) == multiset(s)
    ensures forall i, j :: 0 <= i < j < |Sorted(s, RandomDraw.ByAddress)| ==>
              Sorted(s, RandomDraw.ByAddress)[i].address <= Sorted(s, RandomDraw.ByAddress)[j].address
  {
    SortedKeeps(s, RandomDraw.ByAddress);
    assert TotalOrder(RandomDraw.ByAddress);
    SortedOrdered(s, RandomDraw.ByAddress);
    assert Ordered(Sorted(s, RandomDraw.ByAddress), RandomDraw.ByAddress);
  }

  /** The rows the batch may still choose from. */
  function Eligible(rows: seq<Row>, paid: set<nat>, held: set<nat>, forced: seq<Row>): seq<Row>
  {
    Drop(rows, paid + held + Keys(forced))
  }

  /** A way to fill up the forced rows within the limits. */
  ghost predicate Allowed(candidates: seq<Row>, forced: seq<Row>, budget: Limit, most: Limit, other: seq<Row>)
  {
    multiset(other) <= multiset(candidates) && Within(budget, Total(forced) + Total(other)) && Within(most, |forced| + |other|)
  }

  /** No allowed way to fill up pays more than `n` recipients. */
  ghost predicate NoneHasMore(candidates: seq<Row>, forced: seq<Row>, budget: Limit, most: Limit, n: nat)
  {
    forall other: seq<Row> :: Allowed(candidates, forced, budget, most, other) ==> |other| <= n
  }

  predicate MayDraw(strategy: Strategy, rows: seq<Row>)
  {
    strategy.Random? ==> Divides(strategy.divisor, rows)
  }

  lemma SmallestIsBest(candidates: seq<Row>, order: seq<Row>, forced: seq<Row>, budget: Limit, most: Limit, chosen: seq<Row>)
    requires Ascending(order) && multiset(order) == multiset(candidates) && chosen <= order
    requires |chosen| < |order| ==>
               Full(most, |forced| + |chosen|) || TooMuch(budget, Total(forced) + Total(chosen), order[|chosen|])
    ensures NoneHasMore(candidates, forced, budget, most, |chosen|)
  {
    hide Total, Ascending, Full, TooMuch;
    forall other: seq<Row> | Allowed(candidates, forced, budget, most, other) ensures |other| <= |chosen| {
      SmallestFirstOptimal(order, forced, budget, most, chosen, other);
    }
  }

  /** What each strategy chooses. Smallest-first takes rows from the cheapest on until one does not fit, the two orders take
      each row in its turn that fits, and the random strategy takes what the draws of its hash values select. */
  ghost predicate ChosenBy(strategy: Strategy, candidates: seq<Row>, forced: seq<Row>, budget: Limit, most: Limit, chosen: seq<Row>)
    requires Within(budget, Total(forced)) && Within(most, |forced|) && MayDraw(strategy, candidates)
  {
    var b, m := Minus(budget, Total(forced)), Minus(most, |forced|);
    match strategy
    case SmallestFirst =>
      var order := Sorted(candidates, ByAmount);
      && chosen <= order
      && (|chosen| < |order| ==>
            Full(most, |forced| + |chosen|) || TooMuch(budget, Total(forced) + Total(chosen), order[|chosen|]))
    case LargestFirst => chosen == Greedy(Sorted(candidates, ByAmountDown), b, m)
    case InputOrder => chosen == Greedy(candidates, b, m)
    case Random(bounds, counts, divisor, draw) =>
      exists log :: chosen == Picks(log) && FairDraw(candidates, bounds, counts, b, m, log)
                    && WholeCourse(candidates, bounds, counts, divisor, draw, b, m, log)
  }

  method Choose(candidates: seq<Row>, forced: seq<Row>, budget: Limit, most: Limit, strategy: Strategy) returns (chosen: seq<Row>)
    requires Within(budget, Total(forced)) && Within(most, |forced|) && MayDraw(strategy, candidates)
    ensures Allowed(candidates, forced, budget, most, chosen)
    ensures ChosenBy(strategy, candidates, forced, budget, most, chosen)
    ensures strategy.SmallestFirst? ==> NoneHasMore(candidates, forced, budget, most, |chosen|)
  {
    hide Total, FairDraw, WholeCourse, Ascending, Divides, RestTooMuch, NoneHasMore, Greedy, Sorted;
    match strategy {
      case SmallestFirst =>
        var order := Sorted(candidates, ByAmount);
        SortedKeeps(candidates, ByAmount);
        SortedAscending(candidates);
        chosen := Fill(order, forced, budget, most, true);
        SmallestIsBest(candidates, order, forced, budget, most, chosen);
      case LargestFirst =>
        SortedKeeps(candidates, ByAmountDown);
        chosen := Fill(Sorted(candidates, ByAmountDown), forced, budget, most, false);
      case InputOrder =>
        chosen := Fill(candidates, forced, budget, most, false);
      case Random(bounds, counts, divisor, draw) =>
        var log;
        chosen, log := RandomSelect(candidates, bounds, counts, divisor, draw, Minus(budget, Total(forced)), Minus(most, |forced|));
        DrawStays(candidates, bounds, counts, Minus(budget, Total(forced)), Minus(most, |forced|), log);
    }
  }

  /** The strategy leaves no choice: there is one way to fill up the batch. */
  lemma ChoiceIsUnique(strategy: Strategy, candidates: seq<Row>, forced: seq<Row>, budget: Limit, most: Limit, u: seq<Row>, v: seq<Row>)
    requires Within(budget, Total(forced)) && Within(most, |forced|) && MayDraw(strategy, candidates)
    requires ChosenBy(strategy, candidates, forced, budget, most, u) && Allowed(candidates, forced, budget, most, u)
    requires ChosenBy(strategy, candidates, forced, budget, most, v) && Allowed(candidates, forced, budget, most, v)
    ensures u == v
  {
    hide Total, FairDraw, WholeCourse, Divides, Greedy, Sorted, Picks;
    match strategy {
      case SmallestFirst =>
        OneStop(Sorted(candidates, ByAmount), forced, budget, most, u, v);
        OneStop(Sorted(candidates, ByAmount), forced, budget, most, v, u);
      case LargestFirst =>
      case InputOrder =>
      case Random(bounds, counts, divisor, draw) =>
        var b, m := Minus(budget, Total(forced)), Minus(most, |forced|);
        var x :| u == Picks(x) && FairDraw(candidates, bounds, counts, b, m, x) && WholeCourse(candidates, bounds, counts, divisor, draw, b, m, x);
        var y :| v == Picks(y) && FairDraw(candidates, bounds, counts, b, m, y) && WholeCourse(candidates, bounds, counts, divisor, draw, b, m, y);
        DrawIsUnique(candidates, bounds, counts, divisor, draw, b, m, x, y);
    }
  }

  lemma OneStop(order: seq<Row>, forced: seq<Row>, budget: Limit, most: Limit, u: seq<Row>, v: seq<Row>)
    requires u <= order && v <= order
    requires |u| < |order| ==> Full(most, |forced| + |u|) || TooMuch(budget, Total(forced) + Total(u), order[|u|])
    requires Within(budget, Total(forced) + Total(v)) && Within(most, |forced| + |v|)
    ensures v <= u
  {
    hide Total;
    assert order[..|u|] == u && order[..|v|] == v;
    if |u| < |v| {
      OneMoreCosts(order, |u|, |v|);
    }
  }

  lemma DrawStays(candidates: seq<Row>, b: Bounds, counts: Counts, budget: Limit, slots: Limit, log: seq<Draw>)
    requires FairDraw(candidates, b, counts, budget, slots, log)
    ensures multiset(Picks(log)) <= multiset(candidates) && Within(budget, Total(Picks(log))) && Within(slots, |Picks(log)|)
  {
    hide Drawn, Picks, Total;
    PicksWithin(log);
  }

  lemma {:induction false} PicksWithin(log: seq<Draw>)
    ensures multiset(Picks(log)) <= multiset(Drawn(log))
  {
    if log != [] {
      PicksWithin(log[1..]);
    }
  }

  // ----- every row in one place

  lemma {:induction false} DropCount(rows: seq<Row>, keys: set<nat>, r: Row)
    ensures multiset(Drop(rows, keys))[r] == if r.address in keys then 0 else multiset(rows)[r]
  {
    if rows != [] {
      DropCount(rows[1..], keys, r);
      assert rows == [rows[0]] + rows[1..];
    }
  }

  /** Forced and chosen rows together are rows that were not paid. */
  lemma SelectedLive(rows: seq<Row>, paid: set<nat>, held: set<nat>, forced: seq<Row>, chosen: seq<Row>)
    requires Unique(rows) && Distinct(Addresses(forced)) && (forall r :: r in forced ==> r in rows && r.address !in paid)
    requires multiset(chosen) <= multiset(Eligible(rows, paid, held, forced))
    ensures multiset(forced) + multiset(chosen) <= multiset(Drop(rows, paid))
  {
    hide Drop, Distinct, Unique, Addresses;
    var live := Drop(rows, paid);
    forall r ensures multiset(forced)[r] + multiset(chosen)[r] <= multiset(live)[r] {
      DropCount(rows, paid, r);
      DropCount(rows, paid + held + Keys(forced), r);
      DistinctCount(forced, r);
      if r in forced {
        assert r.address in Keys(forced);
        assert r in multiset(rows);
      } else {
        assert r !in multiset(forced);
      }
    }
  }

  lemma {:induction false} TotalPermutation(u: seq<Row>, v: seq<Row>)
    requires multiset(u) == multiset(v)
    ensures Total(u) == Total(v)
  {
    assert |multiset(u)| == |u| && |multiset(v)| == |v|;
    if u != [] {
      hide Total;
      var i := Without(u, v);
      TotalPermutation(u[1..], v[..i] + v[i + 1..]);
      TotalWithout(v, i);
      TotalWithout(u, 0);
      assert u[..0] + u[1..] == u[1..];
    }
  }

  /** Paid, selected and remaining rows are the list, each row once; so are their totals. */
  lemma Places(rows: seq<Row>, paid: set<nat>, selected: seq<Row>, remaining: seq<Row>)
    requires Unique(rows) && multiset(selected) <= multiset(Drop(rows, paid))
    requires multiset(remaining) == multiset(Drop(Drop(rows, paid), Keys(selected)))
    ensures multiset(rows) == multiset(Keep(rows, paid)) + multiset(selected) + multiset(remaining)
    ensures Total(rows) == Total(Keep(rows, paid)) + Total(selected) + Total(remaining)
  {
    hide Unique, Keep, Drop, Keys, Total;
    var live, done := Drop(rows, paid), Keep(rows, paid);
    KeepAndDrop(rows, paid);
    DropUnique(rows, paid);
    KeepAndDrop(live, Keys(selected));
    KeepSelected(live, selected);
    var all := done + selected + remaining;
    assert multiset(all) == multiset(done) + multiset(selected) + multiset(remaining);
    TotalPermutation(rows, all);
    TotalConcat(done + selected, remaining);
    TotalConcat(done, selected);
  }

  lemma SamePlaces(forced: seq<Row>, chosen: seq<Row>, placed: seq<Row>)
    requires multiset(placed) == multiset(chosen)
    ensures Total(forced + placed) == Total(forced) + Total(chosen) && |placed| == |chosen|
    ensures multiset(forced + placed) == multiset(forced) + multiset(chosen)
    ensures Addresses(forced) <= Addresses(forced + placed)
  {
    TotalConcat(forced, placed);
    TotalPermutation(placed, chosen);
    assert |multiset(placed)| == |placed| && |multiset(chosen)| == |chosen|;
    AddressesConcat(forced, placed);
  }

  lemma {:induction false} AddressesConcat(u: seq<Row>, v: seq<Row>)
    ensures Addresses(u + v) == Addresses(u) + Addresses(v)
  {
    if u == [] {
      assert u + v == v;
    } else {
      AddressesConcat(u[1..], v);
      assert (u + v)[1..] == u[1..] + v;
    }
  }

  lemma NobodyHeld(rows: seq<Row>, paid: set<nat>, held: set<nat>, forced: seq<Row>, chosen: seq<Row>, selected: seq<Row>)
    requires (forall r :: r in forced ==> r.address !in held) && multiset(selected) == multiset(forced) + multiset(chosen)
    requires multiset(chosen) <= multiset(Eligible(rows, paid, held, forced))
    ensures forall r :: r in selected ==> r.address !in held
  {
    hide Drop;
    KeepAndDrop(rows, paid + held + Keys(forced));
    forall r | r in selected ensures r.address !in held {
      assert r in multiset(selected);
      if r !in forced {
        assert r in multiset(chosen);
        assert r in multiset(Eligible(rows, paid, held, forced));
      }
    }
  }

  /** What a selection promises. */
  ghost predicate Proper(rows: seq<Row>, paid: set<nat>, held: set<nat>, forced: seq<Row>, budget: Limit, most: Limit,
                         selected: seq<Row>, remaining: seq<Row>)
  {
    // every row is in exactly one place
    && multiset(rows) == multiset(Keep(rows, paid)) + multiset(selected) + multiset(remaining)
    && Total(rows) == Total(Keep(rows, paid)) + Total(selected) + Total(remaining)
    // within the limits, the forced rows first, and nobody on hold
    && Within(budget, Total(selected)) && Within(most, |selected|)
    && forced <= selected
    && (forall x :: x in selected ==> x.address !in held)
  }

  /** The forced rows, then the rows the strategy chooses, by address. */
  ghost predicate SelectedBy(strategy: Strategy, candidates: seq<Row>, forced: seq<Row>, budget: Limit, most: Limit, selected: seq<Row>)
  {
    && Within(budget, Total(forced)) && Within(most, |forced|) && MayDraw(strategy, candidates)
    && exists chosen :: ChosenBy(strategy, candidates, forced, budget, most, chosen) && Allowed(candidates, forced, budget, most, chosen)
                        && selected == forced + Sorted(chosen, RandomDraw.ByAddress)
  }

  predicate NoObjection(rows: seq<Row>, paid: set<nat>, held: set<nat>, includes: seq<nat>)
  {
    forall i :: 0 <= i < |includes| ==> Objection(rows, paid, held, includes[i]).None?
  }

  method Select(rows: seq<Row>, paid: set<nat>, held: set<nat>, includes: seq<nat>, budget: Limit, most: Limit, strategy: Strategy)
    returns (r: Outcome)
    requires Unique(rows) && Distinct(includes) && MayDraw(strategy, rows)
    ensures var forced := Forced(rows, includes);
            && (r.Selected? <==>
                  NoObjection(rows, paid, held, includes) && Within(budget, Total(forced)) && Within(most, |forced|))
            && (!NoObjection(rows, paid, held, includes) ==> FirstObjection(rows, paid, held, includes, r))
            && (NoObjection(rows, paid, held, includes) && !Within(budget, Total(forced)) ==> r == ForcedOverBudget)
            && (NoObjection(rows, paid, held, includes) && Within(budget, Total(forced)) && !Within(most, |forced|) ==> r == ForcedTooMany)
            && (r.Selected? ==> Addresses(forced) == includes && Proper(rows, paid, held, forced, budget, most, r.selected, r.remaining))
            && (r.Selected? ==> SelectedBy(strategy, Eligible(rows, paid, held, forced), forced, budget, most, r.selected))
            && (r.Selected? ==> r.remaining == Sorted(Drop(Drop(rows, paid), Keys(r.selected)), RandomDraw.ByAddress))
            && (r.Selected? && strategy.SmallestFirst? ==>
                  NoneHasMore(Eligible(rows, paid, held, forced), forced, budget, most, |r.selected| - |forced|))
  {
    hide Total, Objection, Unique, Distinct, Keep, Drop, Addresses, Keys, NoneHasMore, Eligible, Proper, Allowed, MayDraw, Forced, ChosenBy, Sorted;
    var refused, forced := Force(rows, paid, held, includes);
    if refused.Some? {
      return refused.value;
    }
    if budget.Some? && Total(forced) > budget.value {
      return ForcedOverBudget;
    }
    if most.Some? && |forced| > most.value {
      return ForcedTooMany;
    }
    MustBeFree(rows, paid, held, forced, includes);
    var candidates := Eligible(rows, paid, held, forced);
    EligibleDraw(rows, paid, held, forced, strategy);
    var chosen := Choose(candidates, forced, budget, most, strategy);
    var placed := Sorted(chosen, RandomDraw.ByAddress);
    SortedKeeps(chosen, RandomDraw.ByAddress);
    var selected := forced + placed;
    var rest := Drop(Drop(rows, paid), Keys(selected));
    var remaining := Sorted(rest, RandomDraw.ByAddress);
    SortedKeeps(rest, RandomDraw.ByAddress);
    SelectionProper(rows, paid, held, forced, chosen, placed, remaining, budget, most);
    r := Selected(selected, remaining);
  }

  lemma SelectionProper(rows: seq<Row>, paid: set<nat>, held: set<nat>, forced: seq<Row>, chosen: seq<Row>, placed: seq<Row>,
                        remaining: seq<Row>, budget: Limit, most: Limit)
    requires Unique(rows) && Distinct(Addresses(forced))
    requires forall r :: r in forced ==> r in rows && r.address !in paid && r.address !in held
    requires Allowed(Eligible(rows, paid, held, forced), forced, budget, most, chosen) && multiset(placed) == multiset(chosen)
    requires multiset(remaining) == multiset(Drop(Drop(rows, paid), Keys(forced + placed)))
    ensures Proper(rows, paid, held, forced, budget, most, forced + placed, remaining) && |placed| == |chosen|
  {
    hide Total, Unique, Distinct, Keep, Drop, Addresses, Keys, Eligible;
    SamePlaces(forced, chosen, placed);
    SelectedLive(rows, paid, held, forced, chosen);
    NobodyHeld(rows, paid, held, forced, chosen, forced + placed);
    Places(rows, paid, forced + placed, remaining);
  }

  lemma EligibleDraw(rows: seq<Row>, paid: set<nat>, held: set<nat>, forced: seq<Row>, strategy: Strategy)
    requires MayDraw(strategy, rows)
    ensures MayDraw(strategy, Eligible(rows, paid, held, forced))
  {
    KeepAndDrop(rows, paid + held + Keys(forced));
  }

  lemma MustBeFree(rows: seq<Row>, paid: set<nat>, held: set<nat>, forced: seq<Row>, includes: seq<nat>)
    requires forced == Forced(rows, includes) && NoObjection(rows, paid, held, includes)
    ensures Addresses(forced) == includes
    ensures forall r :: r in forced ==> r in rows && r.address !in paid && r.address !in held
  {
    hide Objection, Addresses, Forced, Find;
    forall i | 0 <= i < |includes| ensures Find(rows, includes[i]).Some? {
      Listed(rows, paid, held, includes[i]);
    }
    ForcedAddresses(rows, includes);
    AddressesHold(forced);
    forall r | r in forced ensures r.address !in paid && r.address !in held {
      assert r.address in includes;
      Listed(rows, paid, held, r.address);
    }
  }
}
