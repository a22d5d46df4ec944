/** Choosing who is paid in a batch (airdrop/tools/select_batch.py): the greedy fill, and the partition of the list. */
module Selection {
  import opened Lists
  import opened Options

  datatype Row = Row(address: nat, amount: nat)

  /** A limit that may not be set. */
  type Limit = Option<nat>

  predicate Within(limit: Limit, x: nat) { limit.Some? ==> x <= limit.value }

  function Total(rows: seq<Row>): nat
  {
    if rows == [] then 0 else rows[0].amount + Total(rows[1..])
  }

  lemma {:induction false} TotalConcat(u: seq<Row>, v: seq<Row>)
    ensures Total(u + v) == Total(u) + Total(v)
  {
    if u == [] {
      assert u + v == v;
    } else {
      TotalConcat(u[1..], v);
      assert (u + v)[1..] == u[1..] + v;
    }
  }

  lemma NoTotal()
    ensures Total([]) == 0
  {
  }

  lemma TotalAppend(u: seq<Row>, r: Row)
    ensures Total(u + [r]) == Total(u) + r.amount
  {
    TotalConcat(u, [r]);
    assert [r][1..] == [];
  }

  lemma TotalWithout(s: seq<Row>, i: nat)
    requires i < |s|
    ensures Total(s) == s[i].amount + Total(s[..i] + s[i + 1..])
  {
    var left, right := s[..i], s[i + 1..];
    assert s == left + ([s[i]] + right);
    TotalConcat(left, [s[i]] + right);
    TotalConcat([s[i]], right);
    TotalConcat(left, right);
    assert [s[i]][1..] == [];
  }

  predicate Ascending(rows: seq<Row>)
  {
    forall i, j :: 0 <= i < j < |rows| ==> rows[i].amount <= rows[j].amount
  }

  // ----- the greedy fill

  /** Why a row was passed over: with it the batch would exceed its budget. */
  predicate TooMuch(budget: Limit, spent: nat, r: Row) { budget.Some? && spent + r.amount > budget.value }

  predicate Full(most: Limit, n: nat) { most.Some? && n >= most.value }

  /** Every row of `seen` left out would exceed the budget. */
  ghost predicate RestTooMuch(seen: seq<Row>, chosen: seq<Row>, budget: Limit, spent: nat)
  {
    forall r :: multiset(chosen)[r] < multiset(seen)[r] ==> TooMuch(budget, spent, r)
  }

  ghost predicate PartOf(chosen: seq<Row>, seen: seq<Row>) { multiset(chosen) <= multiset(seen) }

  lemma NothingPassed(budget: Limit, spent: nat)
    ensures RestTooMuch([], [], budget, spent) && PartOf([], [])
  {
  }

  lemma PassOver(seen: seq<Row>, chosen: seq<Row>, budget: Limit, spent: nat, row: Row)
    requires TooMuch(budget, spent, row)
    ensures RestTooMuch(seen, chosen, budget, spent) ==> RestTooMuch(seen + [row], chosen, budget, spent)
    ensures PartOf(chosen, seen) ==> PartOf(chosen, seen + [row])
  {
    assert forall r :: r != row ==> multiset(seen + [row])[r] == multiset(seen)[r];
  }

  lemma TakeOne(seen: seq<Row>, chosen: seq<Row>, budget: Limit, spent: nat, row: Row)
    ensures RestTooMuch(seen, chosen, budget, spent) ==> RestTooMuch(seen + [row], chosen + [row], budget, spent + row.amount)
    ensures PartOf(chosen, seen) ==> PartOf(chosen + [row], seen + [row])
    ensures Total(chosen + [row]) == Total(chosen) + row.amount
  {
    TotalAppend(chosen, row);
    assert multiset(seen + [row]) == multiset(seen) + multiset{row};
    assert multiset(chosen + [row]) == multiset(chosen) + multiset{row};
  }

  lemma PrefixWithin(rows: seq<Row>, i: nat, chosen: seq<Row>)
    requires i <= |rows| && PartOf(chosen, rows[..i])
    ensures multiset(chosen) <= multiset(rows)
  {
    assert rows == rows[..i] + rows[i..];
  }

  function Minus(limit: Limit, x: nat): Limit
    requires Within(limit, x)
  {
    if limit.Some? then Some(limit.value - x) else None
  }

  /** The rows taken in their order, each one that still fits what is left of the limits. */
  function Greedy(rows: seq<Row>, budget: Limit, most: Limit): seq<Row>
  {
    if rows == [] || most == Some(0) then []
    else if TooMuch(budget, 0, rows[0]) then Greedy(rows[1..], budget, most)
    else [rows[0]] + Greedy(rows[1..], Minus(budget, rows[0].amount), Minus(most, 1))
  }

  /** The rows marked. */
  function Marked(rows: seq<Row>, marks: seq<bool>): seq<Row>
    requires |rows| == |marks|
  {
    if rows == [] then [] else (if marks[0] then [rows[0]] else []) + Marked(rows[1..], marks[1..])
  }

  /** Row i is taken exactly when, after the rows taken before it, it exceeds neither limit. */
  ghost predicate InTurn(rows: seq<Row>, marks: seq<bool>, budget: Limit, most: Limit, i: nat)
    requires |rows| == |marks| && i < |rows|
  {
    var before := Marked(rows[..i], marks[..i]);
    marks[i] <==> !Full(most, |before|) && !TooMuch(budget, Total(before), rows[i])
  }

  /** What that takes, row by row. */
  lemma {:induction false} GreedyInTurn(rows: seq<Row>, budget: Limit, most: Limit) returns (marks: seq<bool>)
    ensures |marks| == |rows| && Greedy(rows, budget, most) == Marked(rows, marks)
    ensures forall i :: 0 <= i < |rows| ==> InTurn(rows, marks, budget, most, i)
  {
    marks := [];
    if rows != [] {
      var row, rest := rows[0], rows[1..];
      var took := most != Some(0) && !TooMuch(budget, 0, row);
      var b, m := if took then Minus(budget, row.amount) else budget, if took then Minus(most, 1) else most;
      var more := GreedyInTurn(rest, b, m);
      marks := [took] + more;
      assert marks[1..] == more;
      NoneLeft(rest, budget, most);
      forall i | 0 <= i < |rows| ensures InTurn(rows, marks, budget, most, i) {
        TurnShifts(rows, marks, budget, most, i);
        if i > 0 {
          assert InTurn(rest, more, b, m, i - 1);
        }
      }
    }
  }

  lemma NoneLeft(rows: seq<Row>, budget: Limit, most: Limit)
    ensures most == Some(0) ==> Greedy(rows, budget, most) == []
  {
  }

  lemma TurnShifts(rows: seq<Row>, marks: seq<bool>, budget: Limit, most: Limit, i: nat)
    requires rows != [] && |rows| == |marks| && i < |rows|
    requires marks[0] == (most != Some(0) && !TooMuch(budget, 0, rows[0]))
    ensures var b, m := if marks[0] then Minus(budget, rows[0].amount) else budget, if marks[0] then Minus(most, 1) else most;
            InTurn(rows, marks, budget, most, i) <==> i == 0 || InTurn(rows[1..], marks[1..], b, m, i - 1)
  {
    if i == 0 {
      assert rows[..0] == [] && marks[..0] == [];
    } else {
      var u, v := rows[..i], marks[..i];
      assert u[1..] == rows[1..][..i - 1] && v[1..] == marks[1..][..i - 1];
      var before := Marked(u[1..], v[1..]);
      assert Marked(u, v) == (if marks[0] then [rows[0]] else []) + before;
      assert [rows[0]][1..] == [];
      TotalConcat(if marks[0] then [rows[0]] else [], before);
    }
  }

  /** That rule leaves no choice. */
  lemma {:induction false} TurnsUnique(rows: seq<Row>, u: seq<bool>, v: seq<bool>, budget: Limit, most: Limit, n: nat)
    requires |rows| == |u| == |v| && n <= |rows|
    requires forall i :: 0 <= i < |rows| ==> InTurn(rows, u, budget, most, i) && InTurn(rows, v, budget, most, i)
    ensures u[..n] == v[..n]
  {
    hide Marked, Total;
    if n > 0 {
      TurnsUnique(rows, u, v, budget, most, n - 1);
      assert InTurn(rows, u, budget, most, n - 1) && InTurn(rows, v, budget, most, n - 1);
      assert u[..n] == u[..n - 1] + [u[n - 1]] && v[..n] == v[..n - 1] + [v[n - 1]];
    }
  }

  /** The loop for every strategy but the random one; `stop` is smallest-first, which stops at the first row that does
      not fit. */
  method Fill(candidates: seq<Row>, forced: seq<Row>, budget: Limit, most: Limit, stop: bool) returns (chosen: seq<Row>)
    requires Within(budget, Total(forced)) && Within(most, |forced|)
    ensures FilledUp(candidates, forced, budget, most, stop, chosen)
  {
    hide Total, RestTooMuch, PartOf, Greedy, Filling, FilledUp;
    chosen := [];
    NotFilled(candidates, forced, budget, most, stop);
    var spent: nat := Total(forced);
    var i: nat := 0;
    while i < |candidates|
      invariant i <= |candidates|
      invariant Filling(candidates, forced, budget, most, stop, chosen, spent, i)
    {
      FillStep(candidates, forced, budget, most, stop, chosen, spent, i);
      if most.Some? && |forced| + |chosen| >= most.value {
        return;
      }
      var row := candidates[i];
      if budget.Some? && spent + row.amount > budget.value {
        if stop {
          return;
        }
      } else {
        chosen := chosen + [row];
        spent := spent + row.amount;
      }
      i := i + 1;
    }
    Filled(candidates, forced, budget, most, stop, chosen, spent);
  }

  /** The first i rows were looked at, and `spent` is what the batch costs so far. */
  ghost predicate Filling(candidates: seq<Row>, forced: seq<Row>, budget: Limit, most: Limit, stop: bool, chosen: seq<Row>, spent: nat, i: nat)
    requires Within(budget, Total(forced)) && Within(most, |forced|) && i <= |candidates|
  {
    && spent == Total(forced) + Total(chosen) && Within(budget, spent) && Within(most, |forced| + |chosen|)
    && PartOf(chosen, candidates[..i])
    && (stop ==> chosen == candidates[..i])
    && (!stop ==>
          && RestTooMuch(candidates[..i], chosen, budget, spent)
          && Greedy(candidates, Minus(budget, Total(forced)), Minus(most, |forced|))
             == chosen + Greedy(candidates[i..], Minus(budget, spent), Minus(most, |forced| + |chosen|)))
  }

  /** What the loop promises of what it chose. */
  ghost predicate FilledUp(candidates: seq<Row>, forced: seq<Row>, budget: Limit, most: Limit, stop: bool, chosen: seq<Row>)
    requires Within(budget, Total(forced)) && Within(most, |forced|)
  {
    && multiset(chosen) <= multiset(candidates)
    && Within(budget, Total(forced) + Total(chosen)) && Within(most, |forced| + |chosen|)
    && (stop ==> chosen <= candidates)
    && (stop && |chosen| < |candidates| ==>
          Full(most, |forced| + |chosen|) || TooMuch(budget, Total(forced) + Total(chosen), candidates[|chosen|]))
    && (!stop ==> chosen == Greedy(candidates, Minus(budget, Total(forced)), Minus(most, |forced|)))
    && (!stop && !Full(most, |forced| + |chosen|) ==> RestTooMuch(candidates, chosen, budget, Total(forced) + Total(chosen)))
  }

  lemma NotFilled(candidates: seq<Row>, forced: seq<Row>, budget: Limit, most: Limit, stop: bool)
    requires Within(budget, Total(forced)) && Within(most, |forced|)
    ensures Filling(candidates, forced, budget, most, stop, [], Total(forced), 0)
  {
    hide Total, RestTooMuch, PartOf, Greedy;
    NothingPassed(budget, Total(forced));
    NoTotal();
    assert candidates[..0] == [] && candidates[0..] == candidates;
    assert [] + Greedy(candidates, Minus(budget, Total(forced)), Minus(most, |forced|)) == Greedy(candidates, Minus(budget, Total(forced)), Minus(most, |forced|));
  }

  /** One row: nothing is taken any more, or it is passed over, or it is taken. */
  lemma FillStep(candidates: seq<Row>, forced: seq<Row>, budget: Limit, most: Limit, stop: bool, chosen: seq<Row>, spent: nat, i: nat)
    requires Within(budget, Total(forced)) && Within(most, |forced|) && i < |candidates|
    requires Filling(candidates, forced, budget, most, stop, chosen, spent, i)
    ensures var row := candidates[i];
            if Full(most, |forced| + |chosen|) then FilledUp(candidates, forced, budget, most, stop, chosen)
            else if TooMuch(budget, spent, row) then
              if stop then FilledUp(candidates, forced, budget, most, stop, chosen)
              else Filling(candidates, forced, budget, most, stop, chosen, spent, i + 1)
            else Filling(candidates, forced, budget, most, stop, chosen + [row], spent + row.amount, i + 1)
  {
    hide Total, RestTooMuch, PartOf, Greedy, Filling, FilledUp;
    if Full(most, |forced| + |chosen|) {
      FillFull(candidates, forced, budget, most, stop, chosen, spent, i);
    } else if TooMuch(budget, spent, candidates[i]) {
      FillPass(candidates, forced, budget, most, stop, chosen, spent, i);
    } else {
      FillTake(candidates, forced, budget, most, stop, chosen, spent, i);
    }
  }

  lemma FillFull(candidates: seq<Row>, forced: seq<Row>, budget: Limit, most: Limit, stop: bool, chosen: seq<Row>, spent: nat, i: nat)
    requires Within(budget, Total(forced)) && Within(most, |forced|) && i < |candidates| && Full(most, |forced| + |chosen|)
    requires Filling(candidates, forced, budget, most, stop, chosen, spent, i)
    ensures FilledUp(candidates, forced, budget, most, stop, chosen)
  {
    hide Total, RestTooMuch, PartOf, Greedy;
    PrefixWithin(candidates, i, chosen);
    GreedyStep(candidates, i, budget, spent, most, |forced| + |chosen|);
    assert chosen + [] == chosen;
  }

  lemma FillPass(candidates: seq<Row>, forced: seq<Row>, budget: Limit, most: Limit, stop: bool, chosen: seq<Row>, spent: nat, i: nat)
    requires Within(budget, Total(forced)) && Within(most, |forced|) && i < |candidates|
    requires !Full(most, |forced| + |chosen|) && TooMuch(budget, spent, candidates[i])
    requires Filling(candidates, forced, budget, most, stop, chosen, spent, i)
    ensures if stop then FilledUp(candidates, forced, budget, most, stop, chosen)
            else Filling(candidates, forced, budget, most, stop, chosen, spent, i + 1)
  {
    hide Total, RestTooMuch, PartOf, Greedy;
    PrefixWithin(candidates, i, chosen);
    PrefixNext(candidates, i);
    GreedyStep(candidates, i, budget, spent, most, |forced| + |chosen|);
    PassOver(candidates[..i], chosen, budget, spent, candidates[i]);
  }

  lemma FillTake(candidates: seq<Row>, forced: seq<Row>, budget: Limit, most: Limit, stop: bool, chosen: seq<Row>, spent: nat, i: nat)
    requires Within(budget, Total(forced)) && Within(most, |forced|) && i < |candidates|
    requires !Full(most, |forced| + |chosen|) && !TooMuch(budget, spent, candidates[i])
    requires Filling(candidates, forced, budget, most, stop, chosen, spent, i)
    ensures Filling(candidates, forced, budget, most, stop, chosen + [candidates[i]], spent + candidates[i].amount, i + 1)
  {
    hide Total, RestTooMuch, PartOf, Greedy;
    var row, n := candidates[i], |forced| + |chosen|;
    PrefixNext(candidates, i);
    GreedyStep(candidates, i, budget, spent, most, n);
    TakeOne(candidates[..i], chosen, budget, spent, row);
    Associative(chosen, [row], Greedy(candidates[i + 1..], Minus(budget, spent + row.amount), Minus(most, n + 1)));
  }

  lemma Filled(candidates: seq<Row>, forced: seq<Row>, budget: Limit, most: Limit, stop: bool, chosen: seq<Row>, spent: nat)
    requires Within(budget, Total(forced)) && Within(most, |forced|)
    requires Filling(candidates, forced, budget, most, stop, chosen, spent, |candidates|)
    ensures FilledUp(candidates, forced, budget, most, stop, chosen)
  {
    hide Total, RestTooMuch, PartOf, Greedy;
    PrefixWithin(candidates, |candidates|, chosen);
    NothingTaken(Minus(budget, spent), Minus(most, |forced| + |chosen|));
    assert candidates[..|candidates|] == candidates && candidates[|candidates|..] == [];
  }

  lemma NothingTaken(budget: Limit, most: Limit)
    ensures Greedy([], budget, most) == []
  {
  }

  lemma GreedyStep(rows: seq<Row>, i: nat, budget: Limit, spent: nat, most: Limit, n: nat)
    requires i < |rows| && Within(budget, spent) && Within(most, n)
    ensures Greedy(rows[i..], Minus(budget, spent), Minus(most, n)) ==
            if Full(most, n) then []
            else if TooMuch(budget, spent, rows[i]) then Greedy(rows[i + 1..], Minus(budget, spent), Minus(most, n))
            else [rows[i]] + Greedy(rows[i + 1..], Minus(budget, spent + rows[i].amount), Minus(most, n + 1))
  {
    assert rows[i..][1..] == rows[i + 1..];
  }

  lemma PrefixNext(rows: seq<Row>, i: nat)
    requires i < |rows|
    ensures rows[..i + 1] == rows[..i] + [rows[i]]
  {
  }

  /** Any m rows of an ascending list cost at least as much as its first m. */
  lemma {:induction false} FirstAreCheapest(rows: seq<Row>, other: seq<Row>)
    requires Ascending(rows) && multiset(other) <= multiset(rows)
    ensures |other| <= |rows| && Total(rows[..|other|]) <= Total(other)
    decreases |rows|
  {
    hide Total, Ascending;
    var n, m := |rows|, |other|;
    if n == 0 {
      assert rows == [];
      NothingLeft(other);
      assert rows[..m] == other;
    } else {
      var front, last := rows[..n - 1], rows[n - 1];
      assert rows == front + [last];
      AscendingFront(rows);
      if last in other {
        var i :| 0 <= i < m && other[i] == last;
        var rest := other[..i] + other[i + 1..];
        RemoveBoth(front, last, other, i);
        FirstAreCheapest(front, rest);
        TotalWithout(other, i);
        assert rows[..m] == rows[..m - 1] + [rows[m - 1]] && front[..m - 1] == rows[..m - 1];
        TotalAppend(rows[..m - 1], rows[m - 1]);
      } else {
        SubsetWithout(other, front, last);
        FirstAreCheapest(front, other);
        assert front[..m] == rows[..m];
      }
    }
  }

  lemma AscendingFront(rows: seq<Row>)
    requires Ascending(rows) && rows != []
    ensures Ascending(rows[..|rows| - 1])
    ensures forall i :: 0 <= i < |rows| ==> rows[i].amount <= rows[|rows| - 1].amount
  {
  }

  lemma NothingLeft(other: seq<Row>)
    requires multiset(other) <= multiset([])
    ensures other == []
  {
    assert |multiset(other)| == |other|;
    assert multiset(other) == multiset{};
  }

  lemma RemoveBoth(front: seq<Row>, last: Row, other: seq<Row>, i: nat)
    requires multiset(other) <= multiset(front + [last]) && i < |other| && other[i] == last
    ensures multiset(other[..i] + other[i + 1..]) <= multiset(front)
  {
    var left, right := other[..i], other[i + 1..];
    assert other == left + ([last] + right);
    var more, less := multiset(other), multiset(left + right);
    forall r ensures less[r] <= multiset(front)[r] {
      assert more[r] == less[r] + multiset{last}[r];
      assert more[r] <= multiset(front + [last])[r] == multiset(front)[r] + multiset{last}[r];
    }
  }

  lemma SubsetWithout(other: seq<Row>, front: seq<Row>, last: Row)
    requires multiset(other) <= multiset(front + [last]) && last !in other
    ensures multiset(other) <= multiset(front)
  {
    forall r ensures multiset(other)[r] <= multiset(front)[r] {
      if r == last {
        assert last !in multiset(other);
      }
    }
  }

  lemma {:induction false} TotalPrefix(rows: seq<Row>, i: nat, j: nat)
    requires i <= j <= |rows|
    ensures Total(rows[..i]) <= Total(rows[..j])
  {
    assert rows[..j] == rows[..i] + rows[i..j];
    TotalConcat(rows[..i], rows[i..j]);
  }

  /** Smallest-first is optimal: no choice among the candidates within the same limits has more recipients. */
  lemma SmallestFirstOptimal(candidates: seq<Row>, forced: seq<Row>, budget: Limit, most: Limit, chosen: seq<Row>, other: seq<Row>)
    requires Ascending(candidates) && chosen <= candidates
    requires |chosen| < |candidates| ==>
               Full(most, |forced| + |chosen|) || TooMuch(budget, Total(forced) + Total(chosen), candidates[|chosen|])
    requires multiset(other) <= multiset(candidates)
    requires Within(budget, Total(forced) + Total(other)) && Within(most, |forced| + |other|)
    ensures |other| <= |chosen|
  {
    hide Total, Ascending;
    FirstAreCheapest(candidates, other);
    var k, m := |chosen|, |other|;
    assert chosen == candidates[..k];
    if m > k {
      OneMoreCosts(candidates, k, m);
    }
  }

  lemma OneMoreCosts(rows: seq<Row>, k: nat, m: nat)
    requires k < m <= |rows|
    ensures Total(rows[..k]) + rows[k].amount <= Total(rows[..m])
  {
    TotalAppend(rows[..k], rows[k]);
    assert rows[..k + 1] == rows[..k] + [rows[k]];
    TotalPrefix(rows, k + 1, m);
  }
}
