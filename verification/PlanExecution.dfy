/** Running a whole plan: the deploy transactions and then the fund transactions (`plan_transactions` in
    airdrop/tools/vault_batch.py), executed one after the other. */
module PlanExecution {
  import opened Lists
  import opened Bytes
  import opened Options
  import opened MultiSend
  import opened VaultCalls
  import opened VaultBatch
  import opened Packing
  import opened VaultPlan
  import opened VaultExecution
  import opened PlanTransactions

  /** What a planned transaction does. */
  function ActionsOf(tx: Planned): seq<Action>
  {
    match tx
    case DeployTx(_, vaults, _) => DeployActions(vaults)
    case FundTx(_, items, _) => FundActions(items)
  }

  /** That is what the chain, and the decoder, read in its call data. */
  lemma ActionsAre(s: Setup, multisend: Address, tx: Planned, perTx: nat, gasTarget: nat)
    requires Usable(s) && Ok(s, tx, perTx, gasTarget)
    ensures Sendable(tx.calls) && CallsOf(s, SafeTxOf(s, multisend, tx.calls)) == Some(tx.calls)
    ensures Readable(s, tx.calls) && Actions(s, tx.calls) == ActionsOf(tx) && Sound(ActionsOf(tx))
  {
    hide Usable, Sendable, SafeTxOf, CallsOf, FundCalls, DeployCalls, AllEncodable, AllDeployable, Actions, FundActions, DeployActions, Readable, Sound;
    match tx
    case DeployTx(_, vaults, _) =>
      DeployReads(s, vaults);
      ReadablePlain(s, tx.calls);
      SafeTxCalls(s, multisend, tx.calls);
      DeploysSound(vaults);
    case FundTx(_, items, _) =>
      FundReads(s, items);
      ReadablePlain(s, tx.calls);
      SafeTxCalls(s, multisend, tx.calls);
      FundSound(items);
  }

  lemma {:induction false} DeploysSound(vaults: seq<Vault>)
    requires AllDeployable(vaults)
    ensures Sound(DeployActions(vaults))
  {
    if vaults != [] {
      DeploysSound(vaults[1..]);
      assert Deployable(vaults[0]);
    }
  }

  ghost predicate AllSound(txs: seq<Planned>) { forall i :: 0 <= i < |txs| ==> Sound(ActionsOf(txs[i])) }

  /** The transactions one after the other; `None` when one of them reverts. */
  ghost function Run(h: Keccak, s: Setup, safe: Address, txs: seq<Planned>, l: Ledger): Option<Ledger>
    requires Usable(s) && AllSound(txs)
  {
    if txs == [] then Some(l)
    else
      match Execute(h, s, safe, ActionsOf(txs[0]), l)
      case None => None
      case Some(m) => Run(h, s, safe, txs[1..], m)
  }

  function PlanActions(txs: seq<Planned>): seq<Action>
  {
    if txs == [] then [] else ActionsOf(txs[0]) + PlanActions(txs[1..])
  }

  lemma {:induction false} ExecuteConcat(h: Keccak, s: Setup, safe: Address, u: seq<Action>, v: seq<Action>, l: Ledger)
    requires Usable(s) && Sound(u) && Sound(v)
    ensures Sound(u + v)
    ensures Execute(h, s, safe, u + v, l) == match Execute(h, s, safe, u, l) case None => None case Some(m) => Execute(h, s, safe, v, m)
  {
    hide Perform, IsAddress, Usable;
    if u == [] {
      assert u + v == v;
    } else {
      assert (u + v)[0] == u[0] && (u + v)[1..] == u[1..] + v;
      assert Sound([u[0]]) by { assert [u[0]][0] == u[0]; }
      match Perform(h, s, safe, u[0], l) {
        case None => ExecuteConcat(h, s, safe, u[1..], v, l);
        case Some(m) => ExecuteConcat(h, s, safe, u[1..], v, m);
      }
    }
  }

  lemma {:induction false} RunIs(h: Keccak, s: Setup, safe: Address, txs: seq<Planned>, l: Ledger)
    requires Usable(s) && AllSound(txs)
    ensures Sound(PlanActions(txs)) && Run(h, s, safe, txs, l) == Execute(h, s, safe, PlanActions(txs), l)
  {
    hide Sound, Usable, ActionsOf, Execute;
    if txs == [] {
      NothingRuns(h, s, safe, l);
    } else {
      var here, rest := ActionsOf(txs[0]), txs[1..];
      match Execute(h, s, safe, here, l) {
        case None => RunIs(h, s, safe, rest, l);
        case Some(m) => RunIs(h, s, safe, rest, m);
      }
      ExecuteConcat(h, s, safe, here, PlanActions(rest), l);
    }
  }

  lemma NothingRuns(h: Keccak, s: Setup, safe: Address, l: Ledger)
    requires Usable(s)
    ensures Sound([]) && Execute(h, s, safe, [], l) == Some(l)
  {
  }

  // ----- a plan is its deployments and then its deposits

  lemma {:induction false} DeployActionsConcat(u: seq<Vault>, v: seq<Vault>)
    ensures DeployActions(u + v) == DeployActions(u) + DeployActions(v)
  {
    if u == [] {
      assert u + v == v;
    } else {
      DeployActionsConcat(u[1..], v);
      assert (u + v)[1..] == u[1..] + v;
      Associative([Deploy(u[0].validator, u[0].governor)], DeployActions(u[1..]), DeployActions(v));
    }
  }

  lemma {:induction false} FundActionsConcat(u: seq<Item>, v: seq<Item>)
    ensures FundActions(u + v) == FundActions(u) + FundActions(v)
  {
    if u == [] {
      assert u + v == v;
    } else {
      hide Sum, VaultPlan.Amounts, Delegators;
      FundActionsConcat(u[1..], v);
      assert (u + v)[1..] == u[1..] + v && (u + v)[0] == u[0];
      Associative(FundActions(u)[..2], FundActions(u[1..]), FundActions(v));
    }
  }

  lemma {:induction false} PlanActionsConcat(u: seq<Planned>, v: seq<Planned>)
    ensures PlanActions(u + v) == PlanActions(u) + PlanActions(v)
  {
    hide ActionsOf;
    if u == [] {
      assert u + v == v;
    } else {
      PlanActionsConcat(u[1..], v);
      assert (u + v)[1..] == u[1..] + v;
      Associative(ActionsOf(u[0]), PlanActions(u[1..]), PlanActions(v));
    }
  }

  lemma {:induction false} DeploysAct(deploys: seq<Planned>)
    requires forall i :: 0 <= i < |deploys| ==> deploys[i].DeployTx?
    ensures PlanActions(deploys) == DeployActions(DeployedBy(deploys))
  {
    if deploys != [] {
      DeploysAct(deploys[1..]);
      DeployActionsConcat(deploys[0].vaults, DeployedBy(deploys[1..]));
    }
  }

  lemma {:induction false} FundsAct(funds: seq<Planned>)
    requires forall i :: 0 <= i < |funds| ==> funds[i].FundTx?
    ensures PlanActions(funds) == FundActions(FundItems(funds))
  {
    if funds != [] {
      hide FundActions;
      FundsAct(funds[1..]);
      FundActionsConcat(funds[0].items, FundItems(funds[1..]));
      NoItems();
    } else {
      NoItems();
    }
  }

  lemma NoItems()
    ensures FundActions([]) == []
  {
  }

  // ----- every deposit finds its vault

  /** The addresses at which `deploys` puts vaults. */
  function Sites(deploys: seq<Deployed>): set<Address> { set d | d in deploys :: d.vault }

  /** Deployments of `vs`, then the deposits of `items`. */
  function Stage(vs: seq<Vault>, items: seq<Item>): seq<Action> { DeployActions(vs) + FundActions(items) }

  /** Each deposit goes where a vault is or will have been deployed. */
  ghost predicate Housed(h: Keccak, s: Setup, vs: seq<Vault>, items: seq<Item>, vaults: set<Address>)
    requires Usable(s) && AllDeployable(vs)
  {
    forall x :: x in items ==> x.vault.address in vaults + Sites(Expected(h, s, vs))
  }

  /** Everything that the execution of a stage depends on. */
  ghost predicate Staged(h: Keccak, s: Setup, vs: seq<Vault>, items: seq<Item>, i: nat, vaults: set<Address>)
    requires Usable(s) && AllDeployable(vs)
  {
    var actions := Stage(vs, items);
    && Sound(actions) && Continues(actions, Nothing) && Deploys(h, s, actions) == Expected(h, s, vs)
    && NoneBlind(h, s, actions, vaults) && Standing(h, s, actions, i, vaults) == Rows(actions, i)
    && Strip(Rows(actions, i)) == ItemPayments(items)
  }

  lemma {:induction false} FundStands(h: Keccak, s: Setup, items: seq<Item>, i: nat, vaults: set<Address>)
    requires Usable(s) && Sound(FundActions(items)) && forall x :: x in items ==> x.vault.address in vaults
    ensures NoneBlind(h, s, FundActions(items), vaults)
    ensures Standing(h, s, FundActions(items), i, vaults) == Rows(FundActions(items), i)
  {
    hide Usable, Batch, Sum, VaultPlan.Amounts, Delegators, VaultOf;
    if items != [] {
      var x, actions := items[0], FundActions(items);
      FundSound(items[1..]);
      FundStands(h, s, items[1..], i + 2, vaults);
      assert actions[1..][1..] == FundActions(items[1..]);
      assert actions[0].Approve? && actions[1].Deposit? && actions[1].vault == x.vault.address;
      assert Rows(actions, i) == [] + Rows(actions[1..], i + 1);
      assert x in items;
    }
  }

  lemma {:induction false} StageStands(h: Keccak, s: Setup, vs: seq<Vault>, items: seq<Item>, i: nat, vaults: set<Address>)
    requires Usable(s) && AllDeployable(vs) && Housed(h, s, vs, items, vaults)
    ensures Staged(h, s, vs, items, i, vaults)
  {
    hide Usable, VaultOf, FundActions, Rows, Standing, NoneBlind, Deploys, Continues, Strip, ItemPayments, Sound;
    if vs == [] {
      assert Stage(vs, items) == FundActions(items);
      assert Expected(h, s, vs) == [];
      FundSound(items);
      FundStands(h, s, items, i, vaults);
      FundRows(h, s, items, i);
      FundContinues(items);
    } else {
      var d := VaultOf(h, s, vs[0].validator, vs[0].governor);
      StillHoused(h, s, vs, items, vaults);
      StageStands(h, s, vs[1..], items, i + 1, vaults + {d.vault});
      StageFirst(h, s, vs, items, i, vaults);
    }
  }

  lemma FundContinues(items: seq<Item>)
    ensures Continues(FundActions(items), Nothing)
  {
    hide FundActions, Moves, Pairs, DepositsOf;
    FundPaired(items);
    assert Lead(Nothing) + Moves(FundActions(items)) == Moves(FundActions(items));
  }

  lemma StillHoused(h: Keccak, s: Setup, vs: seq<Vault>, items: seq<Item>, vaults: set<Address>)
    requires Usable(s) && AllDeployable(vs) && vs != [] && Housed(h, s, vs, items, vaults)
    ensures AllDeployable(vs[1..]) && Housed(h, s, vs[1..], items, vaults + {VaultOf(h, s, vs[0].validator, vs[0].governor).vault})
  {
    hide Usable, VaultOf;
    var d, rest := VaultOf(h, s, vs[0].validator, vs[0].governor), Expected(h, s, vs[1..]);
    assert Expected(h, s, vs) == [d] + rest;
    assert Sites([d] + rest) == {d.vault} + Sites(rest);
  }

  lemma StageParts(vs: seq<Vault>, items: seq<Item>)
    requires AllDeployable(vs) && vs != [] && Sound(Stage(vs[1..], items))
    ensures var actions := Stage(vs, items);
            && actions != [] && actions[0] == Deploy(vs[0].validator, vs[0].governor) && actions[1..] == Stage(vs[1..], items)
            && Sound(actions)
  {
    hide IsAddress, FundActions, Sound;
    var first, rest := [Deploy(vs[0].validator, vs[0].governor)], Stage(vs[1..], items);
    Associative(first, DeployActions(vs[1..]), FundActions(items));
    FirstSound(vs[0]);
    SoundConcat(first, rest);
    assert (first + rest)[1..] == rest;
  }

  lemma FirstSound(v: Vault)
    requires Deployable(v)
    ensures Sound([Deploy(v.validator, v.governor)])
  {
  }

  lemma SoundConcat(u: seq<Action>, v: seq<Action>)
    requires Sound(u) && Sound(v)
    ensures Sound(u + v)
  {
    hide IsAddress;
    assert forall i :: |u| <= i < |u + v| ==> (u + v)[i] == v[i - |u|];
  }

  lemma StageFirst(h: Keccak, s: Setup, vs: seq<Vault>, items: seq<Item>, i: nat, vaults: set<Address>)
    requires Usable(s) && AllDeployable(vs) && vs != []
    requires Staged(h, s, vs[1..], items, i + 1, vaults + {VaultOf(h, s, vs[0].validator, vs[0].governor).vault})
    ensures Staged(h, s, vs, items, i, vaults)
  {
    hide Usable, VaultOf, Stage, Sound;
    var actions, rest := Stage(vs, items), Stage(vs[1..], items);
    StageParts(vs, items);
    ContinuesStep(actions, Nothing, i);
    hide Continues;
    assert [] + Rows(rest, i + 1) == Rows(rest, i + 1);
  }

  // ----- totals of payments

  function Amount(): Payment -> nat { (p: Payment) => p.amount }

  function AmountTo(v: Address): Payment -> nat { (p: Payment) => if p.vault == v then p.amount else 0 }

  function AmountFor(v: Address, d: Address): Payment -> nat
  {
    (p: Payment) => if p.vault == v && p.delegator == d then p.amount else 0
  }

  lemma {:induction false} StripTotals(rows: seq<Row>)
    ensures Total(rows) == SumBy(Amount(), Strip(rows))
    ensures forall v :: TotalTo(rows, v) == SumBy(AmountTo(v), Strip(rows))
    ensures forall v, d :: TotalFor(rows, v, d) == SumBy(AmountFor(v, d), Strip(rows))
    ensures NoZero(rows) <==> forall p :: p in Strip(rows) ==> p.delegator != 0
  {
    if rows != [] {
      StripTotals(rows[1..]);
      var p := Payment(rows[0].vault, rows[0].delegator, rows[0].amount);
      assert Strip(rows) == [p] + Strip(rows[1..]) && Strip(rows)[1..] == Strip(rows[1..]);
      assert rows == [rows[0]] + rows[1..];
      assert forall k :: 1 <= k < |rows| ==> rows[k] == rows[1..][k - 1];
      assert forall k :: 0 <= k < |rows[1..]| ==> rows[1..][k] == rows[k + 1];
    }
  }

  /** From `l` to `m` the Safe has made exactly these payments, and exactly these vaults appeared. */
  ghost predicate Made(safe: Address, l: Ledger, m: Ledger, payments: seq<Payment>, deploys: seq<Deployed>)
  {
    && AmountAt(l.balances, safe) == AmountAt(m.balances, safe) + SumBy(Amount(), payments)
    && (forall v :: v != safe ==> AmountAt(m.balances, v) == AmountAt(l.balances, v) + SumBy(AmountTo(v), payments))
    && (forall v, d :: AmountAt(m.credits, (v, d)) == AmountAt(l.credits, (v, d)) + SumBy(AmountFor(v, d), payments))
    && m.vaults == l.vaults + Sites(deploys)
  }

  lemma PaidIsMade(safe: Address, l: Ledger, m: Ledger, rows: seq<Row>, payments: seq<Payment>, deploys: seq<Deployed>)
    requires Paid(safe, l, m, rows, deploys) && multiset(Strip(rows)) == multiset(payments)
    ensures Made(safe, l, m, payments, deploys)
  {
    hide Total, TotalTo, TotalFor, SumBy, AmountAt, Amount, AmountTo, AmountFor, Strip;
    StripTotals(rows);
    SumByPermutation(Amount(), Strip(rows), payments);
    forall v ensures SumBy(AmountTo(v), Strip(rows)) == SumBy(AmountTo(v), payments) {
      SumByPermutation(AmountTo(v), Strip(rows), payments);
    }
    forall v, d ensures SumBy(AmountFor(v, d), Strip(rows)) == SumBy(AmountFor(v, d), payments) {
      SumByPermutation(AmountFor(v, d), Strip(rows), payments);
    }
    assert (set k | 0 <= k < |deploys| :: deploys[k].vault) == Sites(deploys);
  }

  // ----- the whole plan

  /** A vault that is to receive deposits is planned at the address its deployment gives it, or is there already. */
  ghost predicate Addressed(h: Keccak, s: Setup, vaults: seq<Vault>, l: Ledger)
    requires Usable(s) && AllDeployable(vaults)
  {
    forall v :: v in vaults && v.deposits != [] ==>
      if v.deploy then Deployable(v) && v.address == VaultOf(h, s, v.validator, v.governor).vault else v.address in l.vaults
  }

  lemma {:induction false} TodoSites(h: Keccak, s: Setup, vaults: seq<Vault>, v: Vault)
    requires Usable(s) && AllDeployable(vaults) && AllDeployable(Todo(vaults)) && v in vaults && v.deploy && Deployable(v)
    ensures VaultOf(h, s, v.validator, v.governor).vault in Sites(Expected(h, s, Todo(vaults)))
  {
    hide Usable, VaultOf, Deployable;
    var todo := Todo(vaults);
    TodoIs(vaults, v);
    assert v in multiset(vaults);
    assert v in multiset(todo);
    ExpectedHas(h, s, todo, v);
  }

  lemma {:induction false} ExpectedHas(h: Keccak, s: Setup, vs: seq<Vault>, v: Vault)
    requires Usable(s) && AllDeployable(vs) && v in vs && Deployable(v)
    ensures VaultOf(h, s, v.validator, v.governor) in Expected(h, s, vs)
  {
    hide Usable, VaultOf, Deployable;
    if vs[0] != v {
      ExpectedHas(h, s, vs[1..], v);
    }
  }

  lemma {:induction false} ItemsOf(vaults: seq<Vault>, maxRows: nat, x: Item)
    requires maxRows >= 1 && x in Items(vaults, maxRows)
    ensures x.vault in vaults
  {
    hide Splitting.Chunks;
    var v := vaults[0];
    if x in Numbered(v, Splitting.Chunks(v.deposits, maxRows), 0) {
      NumberedOf(v, Splitting.Chunks(v.deposits, maxRows), 0, x);
    } else {
      ItemsOf(vaults[1..], maxRows, x);
    }
  }

  lemma {:induction false} NumberedOf(v: Vault, chunks: seq<seq<Delegation>>, part: nat, x: Item)
    requires x in Numbered(v, chunks, part)
    ensures x.vault == v
  {
    if x != Item(v, part, chunks[0]) {
      NumberedOf(v, chunks[1..], part + 1, x);
    }
  }

  lemma {:induction false} FundedOf(vaults: seq<Vault>, v: Vault)
    requires v in Funded(vaults)
    ensures v in vaults && v.deposits != []
  {
    if v != vaults[0] || vaults[0].deposits == [] {
      FundedOf(vaults[1..], v);
    }
  }

  lemma PlanIsHoused(h: Keccak, s: Setup, vaults: seq<Vault>, items: seq<Item>, maxRows: nat, l: Ledger)
    requires Usable(s) && AllDeployable(vaults) && AllDeployable(Todo(vaults)) && maxRows >= 1
    requires multiset(items) == multiset(Items(Funded(vaults), maxRows)) && Addressed(h, s, vaults, l)
    ensures Housed(h, s, Todo(vaults), items, l.vaults)
  {
    hide Usable, VaultOf, Deployable, Sites, Items, Funded, Todo, AllDeployable;
    forall x | x in items ensures x.vault.address in l.vaults + Sites(Expected(h, s, Todo(vaults))) {
      assert x in multiset(items);
      ItemsOf(Funded(vaults), maxRows, x);
      FundedOf(vaults, x.vault);
      if x.vault.deploy {
        TodoSites(h, s, vaults, x.vault);
      }
    }
  }

  /** A plan of both phases, run in its order from zero allowances: it goes through exactly when the vaults to deploy are not
      there yet, the Safe holds the sum of all planned deposits and no delegator is the zero address. Then every planned
      deposit was made exactly once, every planned vault stands, nothing else moved, and no allowance is left. */
  lemma PlanPays(h: Keccak, s: Setup, safe: Address, vaults: seq<Vault>, deploys: seq<Planned>, funds: seq<Planned>,
                 perTx: nat, gasTarget: nat, maxRows: nat, l: Ledger)
    requires Usable(s) && AllDeployable(vaults) && AllDeployable(Todo(vaults)) && maxRows >= 1
    requires forall i :: 0 <= i < |deploys| ==> DeployOk(s, deploys[i], perTx)
    requires forall i :: 0 <= i < |funds| ==> FundOk(s, funds[i], gasTarget)
    requires DeployedBy(deploys) == Todo(vaults) && multiset(FundItems(funds)) == multiset(Items(Funded(vaults), maxRows))
    requires OnlyAllows(l, Nothing) && Room(safe, l) && safe !in l.vaults && Addressed(h, s, vaults, l)
    ensures AllSound(deploys + funds)
    ensures var r, all, sites := Run(h, s, safe, deploys + funds, l), AllPayments(vaults), Expected(h, s, Todo(vaults));
            && (r.Some? <==>
                  && Fresh(sites, l.vaults + {safe}) && SumBy(Amount(), all) <= AmountAt(l.balances, safe)
                  && forall p :: p in all ==> p.delegator != 0)
            && (r.Some? ==> Made(safe, l, r.value, all, sites) && OnlyAllows(r.value, Nothing))
  {
    hide Usable, AllDeployable, OnlyAllows, Room, Addressed, DeployOk, FundOk, Sound, Run, Execute, Items, Funded, Todo, DeployedBy,
         FundItems, AllPayments, ItemPayments, Made, Paid, SumBy, Amount, Fresh, Stage, Standing, NoneBlind, Rows, Deploys, Continues, Strip,
         NoZero, Total, AmountAt;
    var items, todo := FundItems(funds), Todo(vaults);
    PlanSound(s, deploys, funds, perTx, gasTarget);
    RunIs(h, s, safe, deploys + funds, l);
    StageIs(s, deploys, funds, perTx, gasTarget);
    PlanIsHoused(h, s, vaults, items, maxRows, l);
    StageStands(h, s, todo, items, 1, l.vaults);
    ActionsPay(h, s, safe, Stage(todo, items), 1, Nothing, l);
    var rows := Rows(Stage(todo, items), 1);
    PlannedPayments(vaults, items, maxRows);
    StripTotals(rows);
    SumByPermutation(Amount(), Strip(rows), AllPayments(vaults));
    SameDelegators(Strip(rows), AllPayments(vaults));
    var r := Run(h, s, safe, deploys + funds, l);
    if r.Some? {
      PaidIsMade(safe, l, r.value, rows, AllPayments(vaults), Expected(h, s, todo));
    }
  }

  lemma SameDelegators(u: seq<Payment>, v: seq<Payment>)
    requires multiset(u) == multiset(v)
    ensures (forall p :: p in u ==> p.delegator != 0) <==> (forall p :: p in v ==> p.delegator != 0)
  {
    assert forall p :: p in u <==> p in multiset(u);
    assert forall p :: p in v <==> p in multiset(v);
  }

  lemma PlannedPayments(vaults: seq<Vault>, items: seq<Item>, maxRows: nat)
    requires maxRows >= 1 && multiset(items) == multiset(Items(Funded(vaults), maxRows))
    ensures multiset(ItemPayments(items)) == multiset(AllPayments(vaults))
  {
    hide Items, Funded, AllPayments, ItemPayments;
    PaymentsPermute(items, Items(Funded(vaults), maxRows));
    ItemsPay(Funded(vaults), maxRows);
    FundedAll(vaults);
  }

  lemma {:induction false} FundedAll(vaults: seq<Vault>)
    ensures AllPayments(Funded(vaults)) == AllPayments(vaults)
  {
    if vaults != [] {
      FundedAll(vaults[1..]);
      var rest := Funded(vaults[1..]);
      assert Funded(vaults) == if vaults[0].deposits != [] then [vaults[0]] + rest else rest;
      assert ([vaults[0]] + rest)[1..] == rest;
    }
  }

  lemma PlanSound(s: Setup, deploys: seq<Planned>, funds: seq<Planned>, perTx: nat, gasTarget: nat)
    requires Usable(s)
    requires forall i :: 0 <= i < |deploys| ==> DeployOk(s, deploys[i], perTx)
    requires forall i :: 0 <= i < |funds| ==> FundOk(s, funds[i], gasTarget)
    ensures AllSound(deploys + funds)
  {
    hide Usable, Sound, AllDeployable, AllEncodable, Sendable, FundCalls, DeployCalls, FundActions, DeployActions, ItemPayments, Ordered;
    forall i | 0 <= i < |deploys + funds| ensures Sound(ActionsOf((deploys + funds)[i])) {
      var tx := (deploys + funds)[i];
      if i < |deploys| {
        assert tx == deploys[i];
        DeploysSound(tx.vaults);
      } else {
        assert tx == funds[i - |deploys|];
        FundSound(tx.items);
      }
    }
  }

  lemma StageIs(s: Setup, deploys: seq<Planned>, funds: seq<Planned>, perTx: nat, gasTarget: nat)
    requires Usable(s)
    requires forall i :: 0 <= i < |deploys| ==> DeployOk(s, deploys[i], perTx)
    requires forall i :: 0 <= i < |funds| ==> FundOk(s, funds[i], gasTarget)
    ensures PlanActions(deploys + funds) == Stage(DeployedBy(deploys), FundItems(funds))
  {
    hide Usable, AllDeployable, AllEncodable, Sendable, FundCalls, DeployCalls, FundActions, DeployActions, ItemPayments, Ordered, DeployedBy,
         FundItems, PlanActions;
    PlanActionsConcat(deploys, funds);
    DeploysAct(deploys);
    FundsAct(funds);
  }
}
