/** The planner itself: packing the plan into Safe transactions (`deploy_txs`, `fund_txs`, `plan_transactions` in
    airdrop/tools/vault_batch.py), proved against the signers' decoder. */
module PlanTransactions {
  import opened Lists
  import opened Bytes
  import opened Options
  import opened MultiSend
  import opened VaultCalls
  import opened VaultBatch
  import opened Splitting
  import opened Packing
  import opened VaultPlan

  const GAS_TX_CAP: nat := 16777216

  datatype Planned =
    | DeployTx(calls: seq<Call>, vaults: seq<Vault>, gas: nat)
    | FundTx(calls: seq<Call>, items: seq<Item>, gas: nat)

  datatype Phase = All | DeployOnly | FundOnly

  // ----- what the input must satisfy

  /** A vault whose deposits can be written down: an address of its own, sums within a word. */
  predicate Fundable(s: Setup, v: Vault)
  {
    && IsAddress(v.address) && v.address != s.factory && v.address != s.token
    && Fits(Sum(Amounts(v.deposits))) && Addresses(Delegators(v.deposits))
  }

  predicate AllFundable(s: Setup, vaults: seq<Vault>) { forall i :: 0 <= i < |vaults| ==> Fundable(s, vaults[i]) }

  lemma {:induction false} AmountsConcat(u: seq<Delegation>, v: seq<Delegation>)
    ensures Amounts(u + v) == Amounts(u) + Amounts(v) && Delegators(u + v) == Delegators(u) + Delegators(v)
  {
    if u == [] {
      assert u + v == v;
    } else {
      AmountsConcat(u[1..], v);
      assert (u + v)[1..] == u[1..] + v;
      Associative([u[0].amount], Amounts(u[1..]), Amounts(v));
      Associative([u[0].delegator], Delegators(u[1..]), Delegators(v));
    }
  }

  lemma {:induction false} PieceBounded(pieces: seq<seq<Delegation>>, i: nat)
    requires i < |pieces| && Addresses(Delegators(Flatten(pieces)))
    ensures Sum(Amounts(pieces[i])) <= Sum(Amounts(Flatten(pieces))) && Addresses(Delegators(pieces[i]))
  {
    hide Amounts, Delegators, Sum, IsAddress;
    var first, rest := pieces[0], Flatten(pieces[1..]);
    AmountsConcat(first, rest);
    SumConcat(Amounts(first), Amounts(rest));
    var all := Delegators(first) + Delegators(rest);
    if i == 0 {
      assert forall k :: 0 <= k < |first| ==> Delegators(first)[k] == all[k];
    } else {
      assert forall k :: 0 <= k < |rest| ==> Delegators(rest)[k] == all[|first| + k];
      PieceBounded(pieces[1..], i - 1);
    }
  }

  lemma {:induction false} EachAtMostSum(xs: seq<nat>, i: nat)
    requires i < |xs|
    ensures xs[i] <= Sum(xs)
  {
    if i > 0 {
      EachAtMostSum(xs[1..], i - 1);
    }
  }

  lemma ChunkEncodable(s: Setup, v: Vault, chunk: seq<Delegation>, part: nat)
    requires Fundable(s, v) && |chunk| < 0x100_0000
    requires Sum(Amounts(chunk)) <= Sum(Amounts(v.deposits)) && Addresses(Delegators(chunk))
    ensures Encodable(s, Item(v, part, chunk))
  {
    hide Pow256, Sum, Amounts, Delegators, Fits, DepositWords, AllFit;
    AddressFits(v.address);
    LessFits(Sum(Amounts(chunk)), Sum(Amounts(v.deposits)));
    DepositWordsFit(Amounts(chunk), Delegators(chunk));
  }

  lemma DepositWordsFit(amounts: seq<nat>, delegators: seq<Address>)
    requires |amounts| == |delegators| < 0x100_0000 && Fits(Sum(amounts)) && Addresses(delegators)
    ensures AllFit(DepositWords(amounts, delegators))
  {
    hide Pow256, Sum, Fits, IsAddress;
    var n := |amounts|;
    var head := [64, 96 + 32 * n, n];
    forall i | 0 <= i < n ensures Fits(amounts[i]) && Fits(delegators[i]) {
      EachAtMostSum(amounts, i);
      LessFits(amounts[i], Sum(amounts));
      AddressFits(delegators[i]);
    }
    MillionsFit(64);
    MillionsFit(96 + 32 * n);
    MillionsFit(n);
    assert AllFit(head) && AllFit([n]) && AllFit(amounts) && AllFit(delegators);
    hide AllFit;
    AllFitConcat(head, amounts);
    AllFitConcat(head + amounts, [n]);
    AllFitConcat(head + amounts + [n], delegators);
  }

  lemma LessFits(a: nat, b: nat)
    requires a <= b && Fits(b)
    ensures Fits(a)
  {
  }

  lemma AllFitConcat(u: seq<nat>, v: seq<nat>)
    requires AllFit(u) && AllFit(v)
    ensures AllFit(u + v)
  {
    hide Fits;
  }

  lemma {:induction false} NumberedEncodable(s: Setup, v: Vault, chunks: seq<seq<Delegation>>, part: nat, maxRows: nat)
    requires Fundable(s, v) && maxRows < 0x100_0000
    requires forall i :: 0 <= i < |chunks| ==>
               |chunks[i]| <= maxRows && Sum(Amounts(chunks[i])) <= Sum(Amounts(v.deposits)) && Addresses(Delegators(chunks[i]))
    ensures AllEncodable(s, Numbered(v, chunks, part))
    ensures forall x :: x in Numbered(v, chunks, part) ==> |x.chunk| <= maxRows
  {
    hide Amounts, Delegators, Sum, Encodable, Addresses, Fundable;
    if chunks != [] {
      ChunkEncodable(s, v, chunks[0], part);
      NumberedEncodable(s, v, chunks[1..], part + 1, maxRows);
    }
  }

  /** Every chunk of the plan can be encoded, and has at most the allowed rows. */
  lemma {:induction false} ItemsEncodable(s: Setup, vaults: seq<Vault>, maxRows: nat)
    requires AllFundable(s, vaults) && 1 <= maxRows < 0x100_0000
    ensures AllEncodable(s, Items(vaults, maxRows))
    ensures forall x :: x in Items(vaults, maxRows) ==> |x.chunk| <= maxRows
  {
    hide Amounts, Delegators, Sum, Encodable, Addresses, Numbered, Chunks;
    if vaults != [] {
      var v := vaults[0];
      var chunks := Chunks(v.deposits, maxRows);
      ChunksCover(v.deposits, maxRows);
      forall i | 0 <= i < |chunks|
        ensures Sum(Amounts(chunks[i])) <= Sum(Amounts(v.deposits)) && Addresses(Delegators(chunks[i]))
      {
        PieceBounded(chunks, i);
      }
      NumberedEncodable(s, v, chunks, 0, maxRows);
      ItemsEncodable(s, vaults[1..], maxRows);
    }
  }

  // ----- fund transactions

  function FundItems(txs: seq<Planned>): seq<Item>
  {
    if txs == [] then [] else (if txs[0].FundTx? then txs[0].items else []) + FundItems(txs[1..])
  }

  lemma {:induction false} FundItemsConcat(u: seq<Planned>, v: seq<Planned>)
    ensures FundItems(u + v) == FundItems(u) + FundItems(v)
  {
    if u == [] {
      assert u + v == v;
    } else {
      FundItemsConcat(u[1..], v);
      assert (u + v)[1..] == u[1..] + v;
      Associative(if u[0].FundTx? then u[0].items else [], FundItems(u[1..]), FundItems(v));
    }
  }

  /** A fund transaction is the calls of its items, by validator and part, with an estimate within the target. */
  ghost predicate FundOk(s: Setup, tx: Planned, gasTarget: nat)
  {
    && tx.FundTx? && AllEncodable(s, tx.items) && tx.calls == FundCalls(s, tx.items) && Sendable(tx.calls)
    && tx.gas == 60_000 + 40_000 * |tx.items| + 26_000 * |ItemPayments(tx.items)| <= gasTarget
    && Ordered(tx.items, ByPlace)
  }

  /** The transactions are the bins of first-fit decreasing. */
  ghost predicate PackedInto(out: seq<Planned>, bins: seq<Bin<Item>>)
  {
    |out| == |bins| && forall i :: 0 <= i < |out| ==> out[i].FundTx? && out[i].items == Sorted(bins[i].members, ByPlace)
  }

  /** No packing of the same chunks under the same target needs fewer than two thirds of these transactions. */
  ghost predicate NearlyBest(vaults: seq<Vault>, maxRows: nat, budget: nat, count: nat)
    requires maxRows >= 1
  {
    forall other: seq<seq<Item>> :: Packs(ItemGas(), budget, other) && multiset(Flatten(other)) == multiset(Items(vaults, maxRows))
      ==> 2 * count <= 3 * |other|
  }

  method FundTxs(s: Setup, vaults: seq<Vault>, gasTarget: nat, maxRows: nat) returns (out: seq<Planned>)
    requires Usable(s) && AllFundable(s, vaults)
    requires maxRows >= 1 && FUND_BASE_GAS + FUND_CALL_GAS + FUND_ROW_GAS * maxRows <= gasTarget <= GAS_TX_CAP - 2000000
    ensures forall i :: 0 <= i < |out| ==> FundOk(s, out[i], gasTarget)
    ensures PackedInto(out, Bins(ItemGas(), Sorted(Items(vaults, maxRows), ByGas), gasTarget - FUND_BASE_GAS))
    ensures multiset(FundItems(out)) == multiset(Items(vaults, maxRows))
    ensures NearlyBest(vaults, maxRows, gasTarget - FUND_BASE_GAS, |out|)
  {
    hide SumBy, Items, Members, Loaded, Tight, HeavyFirst, FundItems, FundCalls, Encodable, AllFundable, Packs, Usable, Sendable, Bins, Sorted;
    var items := Items(vaults, maxRows);
    ItemsEncodable(s, vaults, maxRows);
    SortedKeeps(items, ByGas);
    SortedDecreasing(items);
    var budget := gasTarget - FUND_BASE_GAS;
    var order := Sorted(items, ByGas);
    ItemsLight(items, order, maxRows, budget);
    var bins := FirstFit(ItemGas(), order, budget);
    BestOf(vaults, maxRows, budget, bins);
    out := EmitFunds(s, items, bins, budget);
  }

  /** One transaction for each bin, its items in order of validator and part. */
  method EmitFunds(s: Setup, items: seq<Item>, bins: seq<Bin<Item>>, budget: nat) returns (out: seq<Planned>)
    requires Usable(s) && AllEncodable(s, items) && multiset(Members(bins)) == multiset(items)
    requires Loaded(ItemGas(), bins) && Within(budget, bins) && budget + FUND_BASE_GAS <= GAS_TX_CAP
    ensures PackedInto(out, bins) && forall i :: 0 <= i < |out| ==> FundOk(s, out[i], budget + FUND_BASE_GAS)
    ensures multiset(FundItems(out)) == multiset(Members(bins))
  {
    hide SumBy, Members, Loaded, FundItems, FundCalls, Encodable, AllEncodable, Usable, Sendable, ItemGas, Sorted;
    out := [];
    var n := 0;
    assert FundItems(out) == [] && Members(bins[..0]) == [] by {
      EmptyLists();
    }
    while n < |bins|
      invariant n <= |bins| && PackedInto(out, bins[..n])
      invariant forall i :: 0 <= i < n ==> FundOk(s, out[i], budget + FUND_BASE_GAS)
      invariant multiset(FundItems(out)) == multiset(Members(bins[..n]))
    {
      var members := Sorted(bins[n].members, ByPlace);
      BinReady(s, items, bins, n, budget);
      SortedByPlace(bins[n].members);
      GasOfItems(members);
      var tx := FundTx(FundCalls(s, members), members, FUND_BASE_GAS + bins[n].used);
      NextBin(bins, n, out, tx);
      out := out + [tx];
      n := n + 1;
    }
    assert bins[..n] == bins;
  }

  lemma NextBin(bins: seq<Bin<Item>>, n: nat, out: seq<Planned>, tx: Planned)
    requires n < |bins| && tx.FundTx? && tx.items == Sorted(bins[n].members, ByPlace)
    requires multiset(FundItems(out)) == multiset(Members(bins[..n]))
    ensures multiset(FundItems(out + [tx])) == multiset(Members(bins[..n + 1]))
  {
    FundItemsConcat(out, [tx]);
    OneTx(tx);
    hide FundItems, Members;
    MembersAppend(bins[..n], bins[n]);
    assert bins[..n + 1] == bins[..n] + [bins[n]];
    SortedKeeps(bins[n].members, ByPlace);
  }

  lemma EmptyLists()
    ensures FundItems([]) == [] && Members<Item>([]) == []
  {
  }

  lemma OneTx(tx: Planned)
    requires tx.FundTx?
    ensures FundItems([tx]) == tx.items
  {
    assert [tx][1..] == [];
  }

  lemma ItemsLight(items: seq<Item>, order: seq<Item>, maxRows: nat, budget: nat)
    requires multiset(order) == multiset(items) && FUND_CALL_GAS + FUND_ROW_GAS * maxRows <= budget
    requires forall x :: x in items ==> |x.chunk| <= maxRows
    ensures forall x :: x in order ==> ItemGas()(x) <= budget
  {
    forall x | x in order ensures ItemGas()(x) <= budget {
      assert x in multiset(order);
      assert x in items;
    }
  }

  lemma BestOf(vaults: seq<Vault>, maxRows: nat, budget: nat, bins: seq<Bin<Item>>)
    requires maxRows >= 1 && multiset(Members(bins)) == multiset(Items(vaults, maxRows))
    requires Loaded(ItemGas(), bins) && Tight(ItemGas(), budget, bins) && HeavyFirst(ItemGas(), bins)
    ensures NearlyBest(vaults, maxRows, budget, |bins|)
  {
    hide Items, Members, Loaded, Tight, HeavyFirst, Packs, Flatten;
    forall other: seq<seq<Item>> | Packs(ItemGas(), budget, other) && multiset(Flatten(other)) == multiset(Items(vaults, maxRows))
      ensures 2 * |bins| <= 3 * |other|
    {
      ThreeHalves(ItemGas(), budget, bins, other);
    }
  }

  lemma BinReady(s: Setup, items: seq<Item>, bins: seq<Bin<Item>>, n: nat, budget: nat)
    requires Usable(s) && AllEncodable(s, items) && multiset(Members(bins)) == multiset(items) && n < |bins|
    requires Loaded(ItemGas(), bins) && Within(budget, bins) && budget <= GAS_TX_CAP
    ensures var members := Sorted(bins[n].members, ByPlace);
            && AllEncodable(s, members) && Sendable(FundCalls(s, members)) && SumBy(ItemGas(), members) == bins[n].used
  {
    hide SumBy, Encodable, Members, FundCalls, PackAll, Packable, Pow256, Usable;
    var members := Sorted(bins[n].members, ByPlace);
    SortedKeeps(bins[n].members, ByPlace);
    SumByPermutation(ItemGas(), members, bins[n].members);
    MembersHold(bins, n);
    forall i | 0 <= i < |members| ensures Encodable(s, members[i]) {
      assert members[i] in multiset(members);
      assert members[i] in bins[n].members;
      assert members[i] in multiset(Members(bins));
      assert members[i] in items;
    }
    FundFits(s, members);
    MillionsFit(|PackAll(FundCalls(s, members))|);
    MillionsFit(32);
  }

  // ----- deploy transactions

  function Todo(vaults: seq<Vault>): seq<Vault>
  {
    if vaults == [] then [] else (if vaults[0].deploy then [vaults[0]] else []) + Todo(vaults[1..])
  }

  /** The vaults a signer sees deployed, over a list of transactions. */
  function DeployedBy(txs: seq<Planned>): seq<Vault>
  {
    if txs == [] then [] else (if txs[0].DeployTx? then txs[0].vaults else []) + DeployedBy(txs[1..])
  }

  lemma {:induction false} DeployedByConcat(u: seq<Planned>, v: seq<Planned>)
    ensures DeployedBy(u + v) == DeployedBy(u) + DeployedBy(v)
  {
    if u == [] {
      assert u + v == v;
    } else {
      DeployedByConcat(u[1..], v);
      assert (u + v)[1..] == u[1..] + v;
      Associative(if u[0].DeployTx? then u[0].vaults else [], DeployedBy(u[1..]), DeployedBy(v));
    }
  }

  predicate DeployOk(s: Setup, tx: Planned, perTx: nat)
    requires Usable(s)
  {
    && tx.DeployTx? && AllDeployable(tx.vaults) && tx.calls == DeployCalls(s, tx.vaults) && Sendable(tx.calls)
    && 1 <= |tx.vaults| <= perTx && tx.gas == DEPLOY_BASE_GAS + DEPLOY_GAS * |tx.vaults|
  }

  /** The vaults that are not there yet, each as often as it is planned. */
  lemma {:induction false} TodoIs(vaults: seq<Vault>, v: Vault)
    ensures multiset(Todo(vaults))[v] == if v.deploy then multiset(vaults)[v] else 0
  {
    if vaults != [] {
      TodoIs(vaults[1..], v);
      assert vaults == [vaults[0]] + vaults[1..];
    }
  }

  lemma {:induction false} TodoDeployable(vaults: seq<Vault>)
    requires AllDeployable(vaults)
    ensures AllDeployable(Todo(vaults))
  {
    if vaults != [] {
      TodoDeployable(vaults[1..]);
    }
  }

  lemma {:induction false} PieceDeployable(pieces: seq<seq<Vault>>, i: nat)
    requires i < |pieces| && AllDeployable(Flatten(pieces))
    ensures AllDeployable(pieces[i])
  {
    var all, rest := Flatten(pieces), Flatten(pieces[1..]);
    assert forall k :: 0 <= k < |pieces[0]| ==> pieces[0][k] == all[k];
    assert forall k :: 0 <= k < |rest| ==> rest[k] == all[|pieces[0]| + k];
    if i > 0 {
      PieceDeployable(pieces[1..], i - 1);
    }
  }

  /** The call data of `n` deployments. */
  function BatchSize(s: Setup, n: nat): nat { n * (181 + |s.creation|) }

  lemma GroupSendable(s: Setup, group: seq<Vault>, perTx: nat)
    requires Usable(s) && AllDeployable(group) && 1 <= |group| <= perTx && Fits(BatchSize(s, perTx))
    ensures Sendable(DeployCalls(s, group))
  {
    hide DeployCalls, PackAll, Packable, Pow256, Usable, AllDeployable;
    var size := 181 + |s.creation|;
    assert size <= |group| * size <= perTx * size;
    LessFits(|group| * size, perTx * size);
    LessFits(size, perTx * size);
    DeployFits(s, group);
    MillionsFit(32);
  }

  /** The transactions are the near-equal groups of the vaults to deploy. */
  ghost predicate GroupedInto(out: seq<Planned>, groups: seq<seq<Vault>>)
  {
    |out| == |groups| && forall i :: 0 <= i < |out| ==> out[i].DeployTx? && out[i].vaults == groups[i]
  }

  method DeployTxs(s: Setup, vaults: seq<Vault>, perTx: nat) returns (out: seq<Planned>)
    requires Usable(s) && AllDeployable(vaults) && perTx >= 1 && Fits(BatchSize(s, perTx))
    ensures forall i :: 0 <= i < |out| ==> DeployOk(s, out[i], perTx)
    ensures DeployedBy(out) == Todo(vaults)
    ensures GroupedInto(out, Chunks(Todo(vaults), perTx))
  {
    hide Usable, Chunks, DeployCalls, Sendable, AllDeployable, DeployedBy, Flatten;
    var todo := Todo(vaults);
    TodoDeployable(vaults);
    var groups := Chunks(todo, perTx);
    ChunksCover(todo, perTx);
    out := [];
    var n := 0;
    assert DeployedBy(out) == Flatten(groups[..0]) by {
      NoneDeployed(groups);
    }
    while n < |groups|
      invariant n <= |groups| && GroupedInto(out, groups[..n])
      invariant forall i :: 0 <= i < |out| ==> DeployOk(s, out[i], perTx)
      invariant DeployedBy(out) == Flatten(groups[..n])
    {
      var group := groups[n];
      PieceDeployable(groups, n);
      GroupSendable(s, group, perTx);
      var tx := DeployTx(DeployCalls(s, group), group, DEPLOY_BASE_GAS + DEPLOY_GAS * |group|);
      DeployedByConcat(out, [tx]);
      OneDeploy(tx);
      FlattenAppend(groups[..n], group);
      assert groups[..n + 1] == groups[..n] + [group];
      out := out + [tx];
      n := n + 1;
    }
    assert groups[..n] == groups;
  }

  lemma NoneDeployed(groups: seq<seq<Vault>>)
    ensures DeployedBy([]) == Flatten(groups[..0])
  {
  }

  lemma OneDeploy(tx: Planned)
    requires tx.DeployTx?
    ensures DeployedBy([tx]) == tx.vaults
  {
    assert [tx][1..] == [];
  }

  lemma {:induction false} FlattenAppend<T>(pieces: seq<seq<T>>, last: seq<T>)
    ensures Flatten(pieces + [last]) == Flatten(pieces) + last
  {
    if pieces == [] {
      assert pieces + [last] == [last] && [last][1..] == [];
    } else {
      FlattenAppend(pieces[1..], last);
      assert (pieces + [last])[1..] == pieces[1..] + [last];
      Associative(pieces[0], Flatten(pieces[1..]), last);
    }
  }

  // ----- the whole plan, decoded

  function Funded(vaults: seq<Vault>): seq<Vault>
  {
    if vaults == [] then [] else (if vaults[0].deposits != [] then [vaults[0]] else []) + Funded(vaults[1..])
  }

  lemma {:induction false} FundedPays(s: Setup, vaults: seq<Vault>)
    requires AllFundable(s, vaults)
    ensures AllPayments(Funded(vaults)) == AllPayments(vaults) && AllFundable(s, Funded(vaults))
  {
    if vaults != [] {
      hide Fundable;
      FundedPays(s, vaults[1..]);
      var rest := Funded(vaults[1..]);
      assert Funded(vaults) == if vaults[0].deposits != [] then [vaults[0]] + rest else rest;
      assert ([vaults[0]] + rest)[1..] == rest;
    }
  }

  function Report(h: Keccak, s: Setup, multisend: Address, tx: Planned): VaultBatch.Report
    requires Usable(s) && Sendable(tx.calls)
  {
    DecodeVaultTx(h, s, SafeTxOf(s, multisend, tx.calls))
  }

  predicate AllSendable(txs: seq<Planned>) { forall i :: 0 <= i < |txs| ==> Sendable(txs[i].calls) }

  /** All the deployments, and all the payments, the decoder reads in a list of transactions. */
  function ReadDeploys(h: Keccak, s: Setup, multisend: Address, txs: seq<Planned>): seq<Deployed>
    requires Usable(s) && AllSendable(txs)
  {
    if txs == [] then [] else Report(h, s, multisend, txs[0]).deploys + ReadDeploys(h, s, multisend, txs[1..])
  }

  function ReadPayments(h: Keccak, s: Setup, multisend: Address, txs: seq<Planned>): seq<Payment>
    requires Usable(s) && AllSendable(txs)
  {
    if txs == [] then [] else Strip(Report(h, s, multisend, txs[0]).deposits) + ReadPayments(h, s, multisend, txs[1..])
  }

  ghost predicate Ok(s: Setup, tx: Planned, perTx: nat, gasTarget: nat)
    requires Usable(s)
  {
    if tx.DeployTx? then DeployOk(s, tx, perTx) else FundOk(s, tx, gasTarget)
  }

  lemma {:induction false} ExpectedConcat(h: Keccak, s: Setup, u: seq<Vault>, v: seq<Vault>)
    requires Usable(s) && AllDeployable(u) && AllDeployable(v)
    ensures AllDeployable(u + v) && Expected(h, s, u + v) == Expected(h, s, u) + Expected(h, s, v)
  {
    hide VaultOf, Usable, IsAddress;
    if u == [] {
      assert u + v == v;
    } else {
      ExpectedConcat(h, s, u[1..], v);
      assert (u + v)[1..] == u[1..] + v;
      Associative([VaultOf(h, s, u[0].validator, u[0].governor)], Expected(h, s, u[1..]), Expected(h, s, v));
    }
  }

  /** What the decoder reads in planned transactions is what they were planned from. */
  lemma {:induction false} ReadsBack(h: Keccak, s: Setup, multisend: Address, txs: seq<Planned>, perTx: nat, gasTarget: nat)
    requires Usable(s) && multisend in s.official && (forall i :: 0 <= i < |txs| ==> Ok(s, txs[i], perTx, gasTarget))
    ensures AllSendable(txs) && (forall i :: 0 <= i < |txs| ==> Report(h, s, multisend, txs[i]).problems == [])
    ensures AllDeployable(DeployedBy(txs)) && ReadDeploys(h, s, multisend, txs) == Expected(h, s, DeployedBy(txs))
    ensures ReadPayments(h, s, multisend, txs) == ItemPayments(FundItems(txs))
  {
    hide Usable, Sendable, SafeTxOf, DecodeVaultTx, Strip, FundCalls, DeployCalls, AllDeployable, AllEncodable, Deployable, Report, Encodable;
    if txs == [] {
      assert AllDeployable(DeployedBy(txs)) by {
        NoneDeployable();
      }
    } else {
      var tx, rest := txs[0], txs[1..];
      ReadsBack(h, s, multisend, rest, perTx, gasTarget);
      assert forall i :: 1 <= i < |txs| ==> txs[i] == rest[i - 1];
      assert Ok(s, tx, perTx, gasTarget);
      Unfold(txs);
      hide Ok, Expected, ItemPayments, ReadDeploys, ReadPayments, FundItems, DeployedBy;
      StepBack(h, s, multisend, txs);
      match tx {
        case DeployTx(calls, vaults, _) =>
          DeployTxReads(h, s, multisend, tx, perTx, gasTarget);
          ExpectedConcat(h, s, vaults, DeployedBy(rest));
        case FundTx(calls, items, _) =>
          FundTxReads(h, s, multisend, tx, perTx, gasTarget);
          ItemPaymentsConcat(items, FundItems(rest));
      }
    }
  }

  lemma Unfold(txs: seq<Planned>)
    requires txs != []
    ensures DeployedBy(txs) == if txs[0].DeployTx? then txs[0].vaults + DeployedBy(txs[1..]) else DeployedBy(txs[1..])
    ensures FundItems(txs) == if txs[0].FundTx? then txs[0].items + FundItems(txs[1..]) else FundItems(txs[1..])
  {
  }

  lemma StepBack(h: Keccak, s: Setup, multisend: Address, txs: seq<Planned>)
    requires Usable(s) && txs != [] && AllSendable(txs[1..]) && Sendable(txs[0].calls)
    ensures AllSendable(txs)
    ensures ReadDeploys(h, s, multisend, txs) == Report(h, s, multisend, txs[0]).deploys + ReadDeploys(h, s, multisend, txs[1..])
    ensures ReadPayments(h, s, multisend, txs) == Strip(Report(h, s, multisend, txs[0]).deposits) + ReadPayments(h, s, multisend, txs[1..])
  {
    hide Usable, Sendable, Report, Strip;
    assert forall i :: 1 <= i < |txs| ==> txs[i] == txs[1..][i - 1];
  }

  lemma NoneDeployable()
    ensures AllDeployable(DeployedBy([]))
  {
  }

  lemma DeployTxReads(h: Keccak, s: Setup, multisend: Address, tx: Planned, perTx: nat, gasTarget: nat)
    requires Usable(s) && multisend in s.official && tx.DeployTx? && Ok(s, tx, perTx, gasTarget)
    ensures AllDeployable(tx.vaults) && Sendable(tx.calls)
    ensures var r := Report(h, s, multisend, tx); r.problems == [] && r.deploys == Expected(h, s, tx.vaults) && Strip(r.deposits) == []
  {
    hide Usable, Sendable, SafeTxOf, DecodeVaultTx, DeployCalls, AllDeployable, Expected;
    DeployDecodes(h, s, multisend, tx.vaults);
  }

  lemma FundTxReads(h: Keccak, s: Setup, multisend: Address, tx: Planned, perTx: nat, gasTarget: nat)
    requires Usable(s) && multisend in s.official && tx.FundTx? && Ok(s, tx, perTx, gasTarget)
    ensures Sendable(tx.calls)
    ensures var r := Report(h, s, multisend, tx); r.problems == [] && r.deploys == [] && Strip(r.deposits) == ItemPayments(tx.items)
  {
    hide Usable, Sendable, SafeTxOf, DecodeVaultTx, FundCalls, AllEncodable, SumBy, ItemPayments, Strip;
    FundDecodes(h, s, multisend, tx.items);
  }

  lemma {:induction false} NoFunds(txs: seq<Planned>)
    requires forall i :: 0 <= i < |txs| ==> txs[i].DeployTx?
    ensures FundItems(txs) == []
  {
    if txs != [] {
      NoFunds(txs[1..]);
    }
  }

  lemma {:induction false} NoDeploys(txs: seq<Planned>)
    requires forall i :: 0 <= i < |txs| ==> txs[i].FundTx?
    ensures DeployedBy(txs) == []
  {
    if txs != [] {
      NoDeploys(txs[1..]);
    }
  }

  /** Decoding inverts planning: whatever the plan, decoding all of it finds no problems and returns each planned vault
      and each planned deposit exactly once. */
  method Plan(h: Keccak, s: Setup, multisend: Address, vaults: seq<Vault>, phase: Phase, perTx: nat, gasTarget: nat, maxRows: nat)
    returns (txs: seq<Planned>, ghost deploys: seq<Planned>, ghost funds: seq<Planned>)
    requires Usable(s) && multisend in s.official && AllDeployable(vaults) && AllFundable(s, vaults)
    requires perTx >= 1 && Fits(BatchSize(s, perTx))
    requires maxRows >= 1 && FUND_BASE_GAS + FUND_CALL_GAS + FUND_ROW_GAS * maxRows <= gasTarget <= GAS_TX_CAP - 2000000
    ensures forall i :: 0 <= i < |txs| ==> Ok(s, txs[i], perTx, gasTarget)
    ensures txs == deploys + funds
    ensures (forall i :: 0 <= i < |deploys| ==> DeployOk(s, deploys[i], perTx)) && (forall i :: 0 <= i < |funds| ==> FundOk(s, funds[i], gasTarget))
    ensures DeployedBy(deploys) == if phase.FundOnly? then [] else Todo(vaults)
    ensures multiset(FundItems(funds)) == if phase.DeployOnly? then multiset{} else multiset(Items(Funded(vaults), maxRows))
    ensures AllSendable(txs) && (forall i :: 0 <= i < |txs| ==> Report(h, s, multisend, txs[i]).problems == [])
    ensures AllDeployable(Todo(vaults))
    ensures ReadDeploys(h, s, multisend, txs) == if phase.FundOnly? then [] else Expected(h, s, Todo(vaults))
    ensures multiset(ReadPayments(h, s, multisend, txs)) == if phase.DeployOnly? then multiset{} else multiset(AllPayments(vaults))
  {
    hide Usable, AllDeployable, AllFundable, FundItems, DeployedBy, Sendable, Report, ReadDeploys, ReadPayments, ItemPayments,
         AllPayments, Expected, BatchSize, Items, FundOk, DeployOk;
    TodoDeployable(vaults);
    txs, deploys, funds := [], [], [];
    if !phase.FundOnly? {
      txs := DeployTxs(s, vaults, perTx);
      deploys := txs;
    }
    if !phase.DeployOnly? {
      FundedPays(s, vaults);
      var more := FundTxs(s, Funded(vaults), gasTarget, maxRows);
      funds, txs := more, txs + more;
      PaymentsPermute(FundItems(funds), Items(Funded(vaults), maxRows));
      ItemsPay(Funded(vaults), maxRows);
    }
    assert txs == deploys + funds;
    KindsOf(s, deploys, funds, perTx, gasTarget);
    ReadsBack(h, s, multisend, txs, perTx, gasTarget);
    EmptyPlan(h, s);
  }

  lemma EmptyPlan(h: Keccak, s: Setup)
    requires Usable(s)
    ensures AllDeployable([]) && Expected(h, s, []) == [] && ItemPayments([]) == [] && DeployedBy([]) == [] && FundItems([]) == []
  {
  }

  lemma KindsOf(s: Setup, deploys: seq<Planned>, funds: seq<Planned>, perTx: nat, gasTarget: nat)
    requires Usable(s)
    requires forall i :: 0 <= i < |deploys| ==> DeployOk(s, deploys[i], perTx)
    requires forall i :: 0 <= i < |funds| ==> FundOk(s, funds[i], gasTarget)
    ensures forall i :: 0 <= i < |deploys + funds| ==> Ok(s, (deploys + funds)[i], perTx, gasTarget)
    ensures DeployedBy(deploys + funds) == DeployedBy(deploys) && FundItems(deploys + funds) == FundItems(funds)
    ensures forall i, j :: 0 <= i < j < |deploys + funds| && (deploys + funds)[i].FundTx? ==> (deploys + funds)[j].FundTx?
  {
    hide Usable, Sendable, AllEncodable, AllDeployable, FundCalls, DeployCalls;
    NoFunds(deploys);
    NoDeploys(funds);
    hide FundItems, DeployedBy;
    DeployedByConcat(deploys, funds);
    FundItemsConcat(deploys, funds);
    forall i | 0 <= i < |deploys + funds| ensures Ok(s, (deploys + funds)[i], perTx, gasTarget) {
      var tx := (deploys + funds)[i];
      assert if i < |deploys| then tx == deploys[i] else tx == funds[i - |deploys|];
    }
  }
}
