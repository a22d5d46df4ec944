/** What an accepted vault transaction does on chain: the token's approve and transferFrom, and the vault contract
    whose source is in airdrop/vault/GovernorDelegator.compiler-input.json. */
module VaultExecution {
  import opened Lists
  import opened Bytes
  import opened Options
  import opened MultiSend
  import opened VaultCalls
  import opened VaultBatch
  import opened VaultPlan

  const UNLIMITED: nat := Pow256(32) - 1

  /** Token balances, the Safe's allowances by spender, the vaults' books by (vault, delegator), and the addresses
      where a vault is deployed. */
  datatype Ledger = Ledger(
    balances: map<Address, nat>, allowances: map<Address, nat>,
    credits: map<(Address, Address), nat>, vaults: set<Address>)

  /** `transferFrom(safe, vault, total)` called by the vault; an unlimited allowance is not reduced. */
  function Pull(safe: Address, vault: Address, total: nat, l: Ledger): Option<Ledger>
  {
    var held, allowed := AmountAt(l.balances, safe), AmountAt(l.allowances, vault);
    if held < total || allowed < total then None
    else
      var paid := l.balances[safe := held - total];
      Some(l.(balances := paid[vault := AmountAt(paid, vault) + total],
              allowances := if allowed == UNLIMITED then l.allowances else l.allowances[vault := allowed - total]))
  }

  /** `balanceOf[delegator] += amount` for each row, in checked arithmetic. */
  function Credit(vault: Address, amounts: seq<nat>, delegators: seq<Address>, credits: map<(Address, Address), nat>)
    : Option<map<(Address, Address), nat>>
    requires |amounts| == |delegators|
  {
    if amounts == [] then Some(credits)
    else
      var key := (vault, delegators[0]);
      var next := AmountAt(credits, key) + amounts[0];
      if !Fits(next) then None else Credit(vault, amounts[1..], delegators[1..], credits[key := next])
  }

  function DepositBatch(safe: Address, vault: Address, amounts: seq<nat>, delegators: seq<Address>, l: Ledger): Option<Ledger>
  {
    if |amounts| != |delegators| || 0 in delegators || !Fits(Sum(amounts)) then None
    else
      match Pull(safe, vault, Sum(amounts), l)
      case None => None
      case Some(pulled) =>
        match Credit(vault, amounts, delegators, pulled.credits)
        case None => None
        case Some(credits) => Some(pulled.(credits := credits))
  }

  /** One call of the Safe. CREATE2 fails where there is code already; a call to an address without code succeeds and does
      nothing. */
  function Perform(h: Keccak, s: Setup, safe: Address, a: Action, l: Ledger): Option<Ledger>
    requires Usable(s) && Sound([a])
  {
    match a
    case Deploy(validator, governor) =>
      assert [a][0] == a;
      var vault := VaultOf(h, s, validator, governor).vault;
      if vault in l.vaults || vault == safe then None else Some(l.(vaults := l.vaults + {vault}))
    case Approve(spender, amount) => Some(l.(allowances := l.allowances[spender := amount]))
    case Deposit(vault, amounts, delegators) =>
      if vault !in l.vaults then Some(l) else DepositBatch(safe, vault, amounts, delegators, l)
  }

  /** The whole batch: one revert undoes all of it. */
  function Execute(h: Keccak, s: Setup, safe: Address, actions: seq<Action>, l: Ledger): Option<Ledger>
    requires Usable(s) && Sound(actions)
  {
    if actions == [] then Some(l)
    else
      assert Sound([actions[0]]) by { assert actions[0] == [actions[0]][0]; }
      match Perform(h, s, safe, actions[0], l)
      case None => None
      case Some(next) => Execute(h, s, safe, actions[1..], next)
  }

  // ----- totals of a decoded report

  function Total(rows: seq<Row>): nat
  {
    if rows == [] then 0 else rows[0].amount + Total(rows[1..])
  }

  function TotalTo(rows: seq<Row>, vault: Address): nat
  {
    if rows == [] then 0 else (if rows[0].vault == vault then rows[0].amount else 0) + TotalTo(rows[1..], vault)
  }

  function TotalFor(rows: seq<Row>, vault: Address, delegator: Address): nat
  {
    if rows == [] then 0
    else (if rows[0].vault == vault && rows[0].delegator == delegator then rows[0].amount else 0)
         + TotalFor(rows[1..], vault, delegator)
  }

  lemma {:induction false} TotalsConcat(u: seq<Row>, v: seq<Row>)
    ensures Total(u + v) == Total(u) + Total(v)
    ensures forall a :: TotalTo(u + v, a) == TotalTo(u, a) + TotalTo(v, a)
    ensures forall a, d :: TotalFor(u + v, a, d) == TotalFor(u, a, d) + TotalFor(v, a, d)
  {
    if u == [] {
      assert u + v == v;
    } else {
      TotalsConcat(u[1..], v);
      assert (u + v)[1..] == u[1..] + v;
    }
  }

  lemma {:induction false} BatchTotals(i: nat, vault: Address, amounts: seq<nat>, delegators: seq<Address>)
    requires |amounts| == |delegators|
    ensures var rows := Batch(i, vault, amounts, delegators);
            && Total(rows) == Sum(amounts)
            && (forall a :: TotalTo(rows, a) == if a == vault then Sum(amounts) else 0)
            && (forall a, d :: a != vault ==> TotalFor(rows, a, d) == 0)
            && (forall d :: TotalFor(rows, vault, d) <= Sum(amounts))
            && (0 in delegators <==> exists k :: 0 <= k < |rows| && rows[k].delegator == 0)
  {
    if amounts != [] {
      BatchTotals(i, vault, amounts[1..], delegators[1..]);
      var rows, rest := Batch(i, vault, amounts, delegators), Batch(i, vault, amounts[1..], delegators[1..]);
      assert rows == [rows[0]] + rest && rows[1..] == rest;
      assert forall k :: 1 <= k < |rows| ==> rows[k] == rest[k - 1];
      assert forall k :: 0 <= k < |rest| ==> rows[k + 1] == rest[k];
      assert delegators == [delegators[0]] + delegators[1..];
    }
  }

  // ----- one deposit

  /** With room in the books, crediting never overflows and adds each delegator's amounts. */
  lemma {:induction false} CreditAdds(i: nat, vault: Address, amounts: seq<nat>, delegators: seq<Address>,
                                      credits: map<(Address, Address), nat>)
    requires |amounts| == |delegators|
    requires forall d :: Fits(AmountAt(credits, (vault, d)) + Sum(amounts))
    ensures var r := Credit(vault, amounts, delegators, credits);
            && r.Some?
            && forall a, d :: AmountAt(r.value, (a, d)) == AmountAt(credits, (a, d)) + TotalFor(Batch(i, vault, amounts, delegators), a, d)
  {
    hide Pow256;
    if amounts != [] {
      var key := (vault, delegators[0]);
      var next := credits[key := AmountAt(credits, key) + amounts[0]];
      assert Fits(AmountAt(credits, (vault, delegators[0])) + Sum(amounts));
      forall d ensures Fits(AmountAt(next, (vault, d)) + Sum(amounts[1..])) {
        assert Fits(AmountAt(credits, (vault, d)) + Sum(amounts));
      }
      CreditAdds(i, vault, amounts[1..], delegators[1..], next);
      var rows, rest := Batch(i, vault, amounts, delegators), Batch(i, vault, amounts[1..], delegators[1..]);
      assert rows[0] == Row(i, vault, delegators[0], amounts[0]) && rows[1..] == rest;
      forall a, d ensures AmountAt(Credit(vault, amounts, delegators, credits).value, (a, d)) == AmountAt(credits, (a, d)) + TotalFor(rows, a, d) {
        assert AmountAt(next, (a, d)) == AmountAt(credits, (a, d)) + if a == vault && d == delegators[0] then amounts[0] else 0;
      }
    }
  }

  // ----- whole batches

  /** The Safe's only allowance is the one `pending` names. */
  ghost predicate OnlyAllows(l: Ledger, pending: Pending)
  {
    forall v :: AmountAt(l.allowances, v) == if pending.Unused? && v == pending.spender then pending.amount else 0
  }

  /** The Safe holds less than the whole number range, and no delegator's books can overflow by what it holds. */
  ghost predicate Room(safe: Address, l: Ledger)
  {
    && AmountAt(l.balances, safe) < UNLIMITED
    && forall v, d :: Fits(AmountAt(l.credits, (v, d)) + AmountAt(l.balances, safe))
  }

  /** The allowance that `pending` names is there. */
  predicate Allows(l: Ledger, pending: Pending)
  {
    pending.Unused? ==> AmountAt(l.allowances, pending.spender) == pending.amount
  }

  /** The rows of the deposits that find a vault at their turn. */
  function Standing(h: Keccak, s: Setup, actions: seq<Action>, i: nat, vaults: set<Address>): seq<Row>
    requires Usable(s) && Sound(actions)
  {
    if actions == [] then []
    else
      match actions[0]
      case Deploy(validator, governor) => Standing(h, s, actions[1..], i + 1, vaults + {VaultOf(h, s, validator, governor).vault})
      case Approve(_, _) => Standing(h, s, actions[1..], i + 1, vaults)
      case Deposit(vault, amounts, delegators) =>
        (if vault in vaults then Batch(i, vault, amounts, delegators) else []) + Standing(h, s, actions[1..], i + 1, vaults)
  }

  /** No deposit of a nonzero sum goes to an address without a vault at its turn. */
  predicate NoneBlind(h: Keccak, s: Setup, actions: seq<Action>, vaults: set<Address>)
    requires Usable(s) && Sound(actions)
  {
    actions == []
    || match actions[0]
       case Deploy(validator, governor) => NoneBlind(h, s, actions[1..], vaults + {VaultOf(h, s, validator, governor).vault})
       case Approve(_, _) => NoneBlind(h, s, actions[1..], vaults)
       case Deposit(vault, amounts, _) => (vault in vaults || Sum(amounts) == 0) && NoneBlind(h, s, actions[1..], vaults)
  }

  /** The deposits that find no vault are the difference between what is listed and what is paid. */
  lemma {:induction false} BlindIff(h: Keccak, s: Setup, actions: seq<Action>, i: nat, vaults: set<Address>)
    requires Usable(s) && Sound(actions)
    ensures var all, standing := Rows(actions, i), Standing(h, s, actions, i, vaults);
            && Total(standing) <= Total(all)
            && (NoneBlind(h, s, actions, vaults) <==> Total(standing) == Total(all))
            && (NoneBlind(h, s, actions, vaults) ==>
                  && (forall v :: TotalTo(standing, v) == TotalTo(all, v))
                  && (forall v, d :: TotalFor(standing, v, d) == TotalFor(all, v, d)))
  {
    if actions != [] {
      hide VaultOf, Usable, Sum, Batch, Total, TotalTo, TotalFor, IsAddress;
      var rest := actions[1..];
      match actions[0] {
        case Deploy(validator, governor) =>
          BlindIff(h, s, rest, i + 1, vaults + {VaultOf(h, s, validator, governor).vault});
          assert Rows(actions, i) == Rows(rest, i + 1);
        case Approve(_, _) =>
          BlindIff(h, s, rest, i + 1, vaults);
          assert Rows(actions, i) == Rows(rest, i + 1);
        case Deposit(vault, amounts, delegators) =>
          BlindIff(h, s, rest, i + 1, vaults);
          var here := Batch(i, vault, amounts, delegators);
          BatchTotals(i, vault, amounts, delegators);
          TotalsConcat(here, Rows(rest, i + 1));
          TotalsConcat(here, Standing(h, s, rest, i + 1, vaults));
          if vault !in vaults {
            assert [] + Standing(h, s, rest, i + 1, vaults) == Standing(h, s, rest, i + 1, vaults);
          }
      }
    }
  }

  /** The deployments are at new and different addresses. */
  predicate Fresh(deploys: seq<Deployed>, vaults: set<Address>)
  {
    deploys == [] || (deploys[0].vault !in vaults && Fresh(deploys[1..], vaults + {deploys[0].vault}))
  }

  predicate NoZero(rows: seq<Row>) { forall k :: 0 <= k < |rows| ==> rows[k].delegator != 0 }

  /** From `l` to `m` the Safe paid exactly these rows: their sum left it, each vault and each delegator's books gained
      exactly their own part, and exactly these vaults appeared. */
  ghost predicate Paid(safe: Address, l: Ledger, m: Ledger, rows: seq<Row>, deploys: seq<Deployed>)
  {
    && AmountAt(l.balances, safe) == AmountAt(m.balances, safe) + Total(rows)
    && (forall v :: v != safe ==> AmountAt(m.balances, v) == AmountAt(l.balances, v) + TotalTo(rows, v))
    && (forall v, d :: AmountAt(m.credits, (v, d)) == AmountAt(l.credits, (v, d)) + TotalFor(rows, v, d))
    && m.vaults == l.vaults + set i | 0 <= i < |deploys| :: deploys[i].vault
  }

  lemma PaidTwice(safe: Address, l: Ledger, m: Ledger, n: Ledger, u: seq<Row>, v: seq<Row>, du: seq<Deployed>, dv: seq<Deployed>)
    requires Paid(safe, l, m, u, du) && Paid(safe, m, n, v, dv)
    ensures Paid(safe, l, n, u + v, du + dv)
  {
    hide Total, TotalTo, TotalFor, AmountAt;
    TotalsConcat(u, v);
    var all := du + dv;
    assert forall i :: 0 <= i < |du| ==> all[i] == du[i];
    assert forall i :: 0 <= i < |dv| ==> all[|du| + i] == dv[i];
    forall x ensures x in n.vaults <==> x in l.vaults + set i | 0 <= i < |all| :: all[i].vault {
      if x in n.vaults && x !in l.vaults {
        if x in m.vaults {
          var i :| 0 <= i < |du| && du[i].vault == x;
          assert all[i].vault == x;
        } else {
          var i :| 0 <= i < |dv| && dv[i].vault == x;
          assert all[|du| + i].vault == x;
        }
      }
    }
  }

  lemma DepositPays(safe: Address, vault: Address, amounts: seq<nat>, delegators: seq<Address>, i: nat, l: Ledger)
    requires |amounts| == |delegators| && vault != safe
    requires AmountAt(l.allowances, vault) == Sum(amounts) && Room(safe, l)
    ensures var r := DepositBatch(safe, vault, amounts, delegators, l);
            && (r.Some? <==> Sum(amounts) <= AmountAt(l.balances, safe) && 0 !in delegators)
            && (r.Some? ==>
                  && Paid(safe, l, r.value, Batch(i, vault, amounts, delegators), [])
                  && Room(safe, r.value)
                  && (forall v :: AmountAt(r.value.allowances, v) == if v == vault then 0 else AmountAt(l.allowances, v)))
  {
    hide Pow256, Credit, Total, TotalTo, TotalFor, Sum, Batch;
    var total, held := Sum(amounts), AmountAt(l.balances, safe);
    if total <= held && 0 !in delegators {
      forall d ensures Fits(AmountAt(l.credits, (vault, d)) + total) {
        assert Fits(AmountAt(l.credits, (vault, d)) + held);
      }
      CreditAdds(i, vault, amounts, delegators, l.credits);
      BatchTotals(i, vault, amounts, delegators);
      var m := DepositBatch(safe, vault, amounts, delegators, l).value;
      forall v, d ensures Fits(AmountAt(m.credits, (v, d)) + AmountAt(m.balances, safe)) {
        assert Fits(AmountAt(l.credits, (v, d)) + held);
      }
    }
  }

  lemma DeployPays(safe: Address, l: Ledger, d: Deployed, pending: Pending)
    requires Room(safe, l)
    ensures var m := l.(vaults := l.vaults + {d.vault});
            && Paid(safe, l, m, [], [d]) && Room(safe, m) && AmountAt(m.balances, safe) == AmountAt(l.balances, safe)
            && (Allows(l, pending) ==> Allows(m, pending)) && (OnlyAllows(l, pending) ==> OnlyAllows(m, pending))
  {
    assert [d][0] == d;
  }

  lemma ApprovePays(safe: Address, l: Ledger, spender: Address, amount: nat, i: nat)
    requires Room(safe, l)
    ensures var m := l.(allowances := l.allowances[spender := amount]);
            && Paid(safe, l, m, [], []) && Room(safe, m) && AmountAt(m.balances, safe) == AmountAt(l.balances, safe)
            && Allows(m, Unused(i, spender, amount)) && (OnlyAllows(l, Nothing) ==> OnlyAllows(m, Unused(i, spender, amount)))
  {
    hide Pow256, Fits;
    var m := l.(allowances := l.allowances[spender := amount]);
    if OnlyAllows(l, Nothing) {
      forall v ensures AmountAt(m.allowances, v) == if v == spender then amount else 0 {
        assert AmountAt(l.allowances, v) == 0;
      }
    }
  }

  /** The deposit a pending approval covers uses it up; where nothing is deposited, nothing was approved. */
  lemma CoversAllows(l: Ledger, m: Ledger, pending: Pending, vault: Address, amounts: seq<nat>)
    requires Allows(l, pending) && Covers(pending, vault, amounts)
    ensures AmountAt(l.allowances, vault) == Sum(amounts)
    ensures OnlyAllows(l, pending) && Sum(amounts) == 0 ==> OnlyAllows(l, Nothing)
    ensures OnlyAllows(l, pending) && (forall v :: AmountAt(m.allowances, v) == if v == vault then 0 else AmountAt(l.allowances, v))
            ==> OnlyAllows(m, Nothing)
  {
  }

  lemma NoZeroConcat(u: seq<Row>, v: seq<Row>)
    ensures NoZero(u + v) <==> NoZero(u) && NoZero(v)
  {
    assert forall k :: 0 <= k < |v| ==> (u + v)[|u| + k] == v[k];
    assert forall k :: 0 <= k < |u| ==> (u + v)[k] == u[k];
  }

  lemma NoZeroBatch(i: nat, vault: Address, amounts: seq<nat>, delegators: seq<Address>)
    requires |amounts| == |delegators|
    ensures NoZero(Batch(i, vault, amounts, delegators)) <==> 0 !in delegators
  {
    BatchTotals(i, vault, amounts, delegators);
  }

  lemma PaidKeeps(safe: Address, l: Ledger, m: Ledger, rows: seq<Row>)
    requires Paid(safe, l, m, rows, [])
    ensures m.vaults == l.vaults && AmountAt(l.balances, safe) == AmountAt(m.balances, safe) + Total(rows)
  {
  }

  /** The actions go through exactly when what they deploy is new, and for the deposits that find a vault the Safe holds
      what they pay and no delegator is the zero address; then they pay exactly these deposits. If no other deposit has a
      nonzero sum and there is no allowance but the pending one, none is left. */
  ghost predicate Settles(h: Keccak, s: Setup, safe: Address, actions: seq<Action>, i: nat, pending: Pending, l: Ledger)
    requires Usable(s) && Sound(actions)
  {
    var r, rows, deploys := Execute(h, s, safe, actions, l), Standing(h, s, actions, i, l.vaults), Deploys(h, s, actions);
    && (r.Some? <==> Fresh(deploys, l.vaults + {safe}) && Total(rows) <= AmountAt(l.balances, safe) && NoZero(rows))
    && (r.Some? ==> Paid(safe, l, r.value, rows, deploys))
    && (r.Some? && NoneBlind(h, s, actions, l.vaults) && OnlyAllows(l, pending) ==> OnlyAllows(r.value, Nothing))
  }

  lemma DepositThenRest(h: Keccak, s: Setup, safe: Address, actions: seq<Action>, i: nat, pending: Pending, l: Ledger)
    requires Usable(s) && Sound(actions) && actions != [] && actions[0].Deposit?
    requires actions[0].vault in l.vaults && actions[0].vault != safe && Room(safe, l)
    requires Allows(l, pending) && Covers(pending, actions[0].vault, actions[0].amounts)
    requires var r := DepositBatch(safe, actions[0].vault, actions[0].amounts, actions[0].delegators, l);
             r.Some? ==> Settles(h, s, safe, actions[1..], i + 1, Nothing, r.value)
    ensures Settles(h, s, safe, actions, i, pending, l)
  {
    hide Pow256, Room, DepositBatch, Paid, OnlyAllows, VaultOf, Usable, Sum, Batch, Total, AmountAt, NoZero, TotalTo, TotalFor,
         IsAddress, Setup.Valid, Fresh, Allows, Covers;
    var Deposit(vault, amounts, delegators) := actions[0];
    var rest := actions[1..];
    var here, later := Batch(i, vault, amounts, delegators), Standing(h, s, rest, i + 1, l.vaults);
    assert Standing(h, s, actions, i, l.vaults) == here + later;
    assert [] + Deploys(h, s, rest) == Deploys(h, s, rest);
    assert Deploys(h, s, actions) == Deploys(h, s, rest);
    CoversAllows(l, l, pending, vault, amounts);
    DepositPays(safe, vault, amounts, delegators, i, l);
    BatchTotals(i, vault, amounts, delegators);
    TotalsConcat(here, later);
    NoZeroConcat(here, later);
    NoZeroBatch(i, vault, amounts, delegators);
    var r := DepositBatch(safe, vault, amounts, delegators, l);
    assert Execute(h, s, safe, actions, l) == match r case None => None case Some(m) => Execute(h, s, safe, rest, m);
    if r.Some? {
      CoversAllows(l, r.value, pending, vault, amounts);
      PaidKeeps(safe, l, r.value, here);
      if Execute(h, s, safe, rest, r.value).Some? {
        PaidTwice(safe, l, r.value, Execute(h, s, safe, rest, r.value).value, here, later, [], Deploys(h, s, rest));
      }
    }
  }

  lemma BlindThenRest(h: Keccak, s: Setup, safe: Address, actions: seq<Action>, i: nat, pending: Pending, l: Ledger)
    requires Usable(s) && Sound(actions) && actions != [] && actions[0].Deposit? && actions[0].vault !in l.vaults
    requires Allows(l, pending) && Covers(pending, actions[0].vault, actions[0].amounts)
    requires Settles(h, s, safe, actions[1..], i + 1, Nothing, l)
    ensures Settles(h, s, safe, actions, i, pending, l)
  {
    hide Pow256, Room, DepositBatch, Paid, OnlyAllows, VaultOf, Usable, Sum, Batch, Total, AmountAt, NoZero, IsAddress, Setup.Valid, Fresh,
         Allows, Covers;
    CoversAllows(l, l, pending, actions[0].vault, actions[0].amounts);
    var rows, more := Standing(h, s, actions[1..], i + 1, l.vaults), Deploys(h, s, actions[1..]);
    assert [] + rows == rows && [] + more == more;
    assert Standing(h, s, actions, i, l.vaults) == rows && Deploys(h, s, actions) == more;
  }

  lemma DeployThenRest(h: Keccak, s: Setup, safe: Address, actions: seq<Action>, i: nat, pending: Pending, l: Ledger)
    requires Usable(s) && Sound(actions) && actions != [] && actions[0].Deploy? && Room(safe, l)
    requires var vault := VaultOf(h, s, actions[0].validator, actions[0].governor).vault;
             vault !in l.vaults + {safe} ==> Settles(h, s, safe, actions[1..], i + 1, pending, l.(vaults := l.vaults + {vault}))
    ensures Settles(h, s, safe, actions, i, pending, l)
  {
    hide Pow256, Room, Paid, OnlyAllows, VaultOf, Usable, Batch, Total, AmountAt, NoZero, IsAddress, Setup.Valid;
    var d, rest := VaultOf(h, s, actions[0].validator, actions[0].governor), actions[1..];
    var m := l.(vaults := l.vaults + {d.vault});
    var rows, more := Standing(h, s, rest, i + 1, m.vaults), Deploys(h, s, rest);
    assert [] + rows == rows;
    assert Standing(h, s, actions, i, l.vaults) == rows && Deploys(h, s, actions) == [d] + more;
    assert l.vaults + {safe} + {d.vault} == m.vaults + {safe};
    if d.vault !in l.vaults + {safe} {
      DeployPays(safe, l, d, pending);
      if Execute(h, s, safe, rest, m).Some? {
        PaidTwice(safe, l, m, Execute(h, s, safe, rest, m).value, [], rows, [d], more);
      }
    }
  }

  lemma ApproveThenRest(h: Keccak, s: Setup, safe: Address, actions: seq<Action>, i: nat, l: Ledger)
    requires Usable(s) && Sound(actions) && actions != [] && actions[0].Approve? && Room(safe, l)
    requires Settles(h, s, safe, actions[1..], i + 1, Unused(i, actions[0].spender, actions[0].amount),
                     l.(allowances := l.allowances[actions[0].spender := actions[0].amount]))
    ensures Settles(h, s, safe, actions, i, Nothing, l)
  {
    hide Pow256, Room, Paid, OnlyAllows, VaultOf, Usable, Batch, Total, AmountAt, NoZero, IsAddress, Setup.Valid, Fresh;
    var rest := actions[1..];
    var rows, more := Standing(h, s, rest, i + 1, l.vaults), Deploys(h, s, rest);
    assert [] + rows == rows && [] + more == more;
    assert Standing(h, s, actions, i, l.vaults) == rows && Deploys(h, s, actions) == more;
    var m := l.(allowances := l.allowances[actions[0].spender := actions[0].amount]);
    ApprovePays(safe, l, actions[0].spender, actions[0].amount, i);
    if Execute(h, s, safe, rest, m).Some? {
      PaidTwice(safe, l, m, Execute(h, s, safe, rest, m).value, [], rows, [], more);
    }
  }

  /** Running the actions of an accepted scan, from the allowance it has pending. */
  lemma {:induction false} ActionsPay(h: Keccak, s: Setup, safe: Address, actions: seq<Action>, i: nat, pending: Pending, l: Ledger)
    requires Usable(s) && Sound(actions) && Continues(actions, pending)
    requires Allows(l, pending) && Room(safe, l) && safe !in l.vaults
    ensures Settles(h, s, safe, actions, i, pending, l)
  {
    hide Settles;
    if actions == [] {
      NothingToDo(h, s, safe, i, pending, l);
    } else {
      hide Continues, Room, DepositBatch, Paid, OnlyAllows, VaultOf, Usable, Covers, Sum, Batch, Settles, IsAddress, Allows, AmountAt,
           Moves, DepositsOf, Lead, Total;
      ContinuesStep(actions, pending, i);
      match actions[0] {
        case Deploy(validator, governor) =>
          var d := VaultOf(h, s, validator, governor);
          if d.vault !in l.vaults + {safe} {
            DeployPays(safe, l, d, pending);
            ActionsPay(h, s, safe, actions[1..], i + 1, pending, l.(vaults := l.vaults + {d.vault}));
          }
          DeployThenRest(h, s, safe, actions, i, pending, l);
        case Approve(spender, amount) =>
          ApprovePays(safe, l, spender, amount, i);
          ActionsPay(h, s, safe, actions[1..], i + 1, Unused(i, spender, amount), l.(allowances := l.allowances[spender := amount]));
          ApproveThenRest(h, s, safe, actions, i, l);
        case Deposit(vault, amounts, delegators) =>
          NothingAllowed(l);
          if vault !in l.vaults {
            ActionsPay(h, s, safe, actions[1..], i + 1, Nothing, l);
            BlindThenRest(h, s, safe, actions, i, pending, l);
          } else {
            CoversAllows(l, l, pending, vault, amounts);
            DepositPays(safe, vault, amounts, delegators, i, l);
            var r := DepositBatch(safe, vault, amounts, delegators, l);
            if r.Some? {
              NothingAllowed(r.value);
              PaidKeeps(safe, l, r.value, Batch(i, vault, amounts, delegators));
              ActionsPay(h, s, safe, actions[1..], i + 1, Nothing, r.value);
            }
            DepositThenRest(h, s, safe, actions, i, pending, l);
          }
      }
    }
  }

  lemma NothingToDo(h: Keccak, s: Setup, safe: Address, i: nat, pending: Pending, l: Ledger)
    requires Usable(s) && Continues([], pending)
    ensures Settles(h, s, safe, [], i, pending, l)
  {
    EmptyContinues(pending);
    hide Usable, Pow256;
  }

  lemma NothingAllowed(l: Ledger)
    ensures Allows(l, Nothing)
  {
  }

  /** A transaction decoded without problems, run from zero allowances, goes through exactly when its deployments are new
      and, for the deposits that find a vault, the Safe holds the sum and no delegator is the zero address. When it goes
      through, this is what a signer expects (every allowance zero again, the Safe's loss exactly the decoded sum, every
      vault's and every delegator's gain exactly its own part) if and only if no deposit of a nonzero sum went to an
      address without a vault. */
  lemma AcceptedPays(h: Keccak, s: Setup, safe: Address, tx: SafeTx, l: Ledger)
    requires Usable(s) && DecodeVaultTx(h, s, tx).problems == []
    requires OnlyAllows(l, Nothing) && Room(safe, l) && safe !in l.vaults
    ensures Accepted(s, tx)
    ensures var report, actions := DecodeVaultTx(h, s, tx), Actions(s, CallsOf(s, tx).value);
            && Sound(actions)
            && var r, standing := Execute(h, s, safe, actions, l), Standing(h, s, actions, 1, l.vaults);
            && (r.Some? <==>
                  Fresh(report.deploys, l.vaults + {safe}) && Total(standing) <= AmountAt(l.balances, safe) && NoZero(standing))
            && (r.Some? ==> Paid(safe, l, r.value, standing, report.deploys))
            && (r.Some? ==>
                  (Paid(safe, l, r.value, report.deposits, report.deploys) && OnlyAllows(r.value, Nothing)
                   <==> NoneBlind(h, s, actions, l.vaults)))
  {
    hide Room, OnlyAllows, DecodeVaultTx, Moves, Pairs, DepositsOf, Actions, CallsOf, Readable, Usable, Sound,
         Execute, Fresh, Total, AmountAt, NoZero, Rows, Deploys, Standing, NoneBlind, TotalTo, TotalFor;
    AcceptedIff(h, s, tx);
    var actions := Actions(s, CallsOf(s, tx).value);
    assert Lead(Nothing) + Moves(actions) == Moves(actions);
    NothingAllowed(l);
    ActionsPay(h, s, safe, actions, 1, Nothing, l);
    BlindIff(h, s, actions, 1, l.vaults);
  }

  /** The decoder does not ask whether a vault stands at the address paid. Where none does, a planned fund transaction
      still decodes without problems; its deposit is a call to an address without code, so nothing moves and the approval
      stays open. */
  lemma WithoutVaultTheAllowanceStays(h: Keccak, s: Setup, multisend: Address, safe: Address, x: Item, l: Ledger)
    requires Usable(s) && multisend in s.official && Encodable(s, x) && AllEncodable(s, [x]) && Sendable(FundCalls(s, [x]))
    requires x.vault.address !in l.vaults
    ensures var tx := SafeTxOf(s, multisend, FundCalls(s, [x]));
            && DecodeVaultTx(h, s, tx).problems == [] && CallsOf(s, tx) == Some(FundCalls(s, [x]))
            && Readable(s, FundCalls(s, [x])) && Sound(Actions(s, FundCalls(s, [x])))
            && var r := Execute(h, s, safe, Actions(s, FundCalls(s, [x])), l);
               && r.Some? && r.value.balances == l.balances && r.value.credits == l.credits
               && AmountAt(r.value.allowances, x.vault.address) == Sum(Amounts(x.chunk))
  {
    hide Encodable, Sendable, Usable, SafeTxOf, FundCalls, DecodeVaultTx, Sum, Amounts, Delegators, Readable, Actions, CallsOf;
    FundDecodes(h, s, multisend, [x]);
    FundReads(s, [x]);
    ReadablePlain(s, FundCalls(s, [x]));
    SafeTxCalls(s, multisend, FundCalls(s, [x]));
    FundSound([x]);
    NothingMoves(h, s, safe, x, l);
  }

  lemma NothingMoves(h: Keccak, s: Setup, safe: Address, x: Item, l: Ledger)
    requires Usable(s) && x.vault.address !in l.vaults && Sound(FundActions([x]))
    ensures Execute(h, s, safe, FundActions([x]), l)
         == Some(l.(allowances := l.allowances[x.vault.address := Sum(Amounts(x.chunk))]))
  {
    hide Usable, Sum, Fits, DepositBatch;
    var actions := FundActions([x]);
    var m := l.(allowances := l.allowances[x.vault.address := Sum(Amounts(x.chunk))]);
    assert FundActions([x][1..]) == [];
    assert actions[1..][0] == Deposit(x.vault.address, Amounts(x.chunk), Delegators(x.chunk)) && actions[1..][1..] == [];
    assert Execute(h, s, safe, [], m) == Some(m);
    assert Execute(h, s, safe, actions[1..], m) == Some(m);
  }
}
