/** Planning the vault transactions (`deploy_txs`, `fund_txs` and `plan_transactions` in airdrop/tools/vault_batch.py),
    and decoding what was planned. */
module VaultPlan {
  import opened Lists
  import opened Bytes
  import opened Options
  import opened MultiSend
  import opened VaultCalls
  import opened VaultBatch
  import opened Splitting
  import opened Packing

  const FUND_BASE_GAS: nat := 60000
  const FUND_CALL_GAS: nat := 40000
  const FUND_ROW_GAS: nat := 26000
  const DEPLOY_BASE_GAS: nat := 50000
  const DEPLOY_GAS: nat := 540000

  datatype Delegation = Delegation(delegator: Address, amount: nat)

  datatype Vault = Vault(validator: Address, governor: Address, address: Address, deposits: seq<Delegation>, deploy: bool)

  /** One `depositBatch` call: part number `part` of a vault's deposits. */
  datatype Item = Item(vault: Vault, part: nat, chunk: seq<Delegation>)

  datatype Payment = Payment(vault: Address, delegator: Address, amount: nat)

  function ItemGas(): Item -> nat
  {
    (x: Item) => FUND_CALL_GAS + FUND_ROW_GAS * |x.chunk|
  }

  predicate ByPlace(x: Item, y: Item)
  {
    x.vault.validator < y.vault.validator || (x.vault.validator == y.vault.validator && x.part <= y.part)
  }

  predicate ByGas(x: Item, y: Item)
  {
    ItemGas()(x) > ItemGas()(y) || (ItemGas()(x) == ItemGas()(y) && ByPlace(x, y))
  }

  lemma SortedDecreasing(s: seq<Item>)
    ensures Decreasing(ItemGas(), Sorted(s, ByGas))
  {
    assert TotalOrder(ByGas);
    SortedOrdered(s, ByGas);
    assert Ordered(Sorted(s, ByGas), ByGas);
  }

  lemma SortedByPlace(s: seq<Item>)
    ensures Ordered(Sorted(s, ByPlace), ByPlace)
  {
    assert TotalOrder(ByPlace);
    SortedOrdered(s, ByPlace);
  }

  // ----- the items of a plan

  function Numbered(v: Vault, chunks: seq<seq<Delegation>>, part: nat): seq<Item>
  {
    if chunks == [] then [] else [Item(v, part, chunks[0])] + Numbered(v, chunks[1..], part + 1)
  }

  function Items(vaults: seq<Vault>, maxRows: nat): seq<Item>
    requires maxRows >= 1
  {
    if vaults == [] then [] else Numbered(vaults[0], Chunks(vaults[0].deposits, maxRows), 0) + Items(vaults[1..], maxRows)
  }

  function Payments(vault: Address, deposits: seq<Delegation>): seq<Payment>
  {
    if deposits == [] then [] else [Payment(vault, deposits[0].delegator, deposits[0].amount)] + Payments(vault, deposits[1..])
  }

  function ItemPayments(items: seq<Item>): seq<Payment>
  {
    if items == [] then [] else Payments(items[0].vault.address, items[0].chunk) + ItemPayments(items[1..])
  }

  function AllPayments(vaults: seq<Vault>): seq<Payment>
  {
    if vaults == [] then [] else Payments(vaults[0].address, vaults[0].deposits) + AllPayments(vaults[1..])
  }

  lemma {:induction false} PaymentsConcat(vault: Address, u: seq<Delegation>, v: seq<Delegation>)
    ensures Payments(vault, u + v) == Payments(vault, u) + Payments(vault, v)
  {
    if u == [] {
      assert u + v == v;
    } else {
      PaymentsConcat(vault, u[1..], v);
      assert (u + v)[1..] == u[1..] + v;
    }
  }

  /** The estimate of a transaction: so much for each call, and so much for each deposit it makes. */
  lemma {:induction false} GasOfItems(items: seq<Item>)
    ensures SumBy(ItemGas(), items) == 40_000 * |items| + 26_000 * |ItemPayments(items)|
  {
    if items != [] {
      GasOfItems(items[1..]);
      PaymentsCount(items[0].vault.address, items[0].chunk);
    }
  }

  lemma {:induction false} PaymentsCount(vault: Address, chunk: seq<Delegation>)
    ensures |Payments(vault, chunk)| == |chunk|
  {
    if chunk != [] {
      PaymentsCount(vault, chunk[1..]);
    }
  }

  lemma {:induction false} ItemPaymentsConcat(u: seq<Item>, v: seq<Item>)
    ensures ItemPayments(u + v) == ItemPayments(u) + ItemPayments(v)
  {
    if u == [] {
      assert u + v == v;
    } else {
      hide Payments;
      ItemPaymentsConcat(u[1..], v);
      assert (u + v)[1..] == u[1..] + v;
      Associative(Payments(u[0].vault.address, u[0].chunk), ItemPayments(u[1..]), ItemPayments(v));
    }
  }

  lemma {:induction false} NumberedPays(v: Vault, chunks: seq<seq<Delegation>>, part: nat)
    ensures ItemPayments(Numbered(v, chunks, part)) == Payments(v.address, Flatten(chunks))
  {
    if chunks != [] {
      NumberedPays(v, chunks[1..], part + 1);
      PaymentsConcat(v.address, chunks[0], Flatten(chunks[1..]));
      var items := Numbered(v, chunks, part);
      assert items[1..] == Numbered(v, chunks[1..], part + 1);
    }
  }

  /** The chunks pay exactly the planned deposits, in order. */
  lemma {:induction false} ItemsPay(vaults: seq<Vault>, maxRows: nat)
    requires maxRows >= 1
    ensures ItemPayments(Items(vaults, maxRows)) == AllPayments(vaults)
  {
    if vaults != [] {
      hide Payments, Numbered;
      var v := vaults[0];
      var chunks := Chunks(v.deposits, maxRows);
      ItemsPay(vaults[1..], maxRows);
      ChunksCover(v.deposits, maxRows);
      NumberedPays(v, chunks, 0);
      ItemPaymentsConcat(Numbered(v, chunks, 0), Items(vaults[1..], maxRows));
    }
  }

  lemma PaymentsTake(s: seq<Item>, i: nat)
    requires i < |s|
    ensures multiset(ItemPayments(s)) == multiset(Payments(s[i].vault.address, s[i].chunk)) + multiset(ItemPayments(s[..i] + s[i + 1..]))
  {
    hide Payments;
    var left, right := s[..i], s[i + 1..];
    var here := [s[i]] + right;
    assert s == left + here && here[0] == s[i] && here[1..] == right;
    ItemPaymentsConcat(left, here);
    ItemPaymentsConcat(left, right);
    var mine := Payments(s[i].vault.address, s[i].chunk);
    assert ItemPayments(here) == mine + ItemPayments(right);
    hide ItemPayments;
    MiddleOut(ItemPayments(left), mine, ItemPayments(right));
  }

  lemma MiddleOut<T>(a: seq<T>, b: seq<T>, c: seq<T>)
    ensures multiset(a + (b + c)) == multiset(b) + multiset(a + c)
  {
  }

  /** Reordering items reorders payments. */
  lemma {:induction false} PaymentsPermute(u: seq<Item>, v: seq<Item>)
    requires multiset(u) == multiset(v)
    ensures multiset(ItemPayments(u)) == multiset(ItemPayments(v))
  {
    assert |multiset(u)| == |u| && |multiset(v)| == |v|;
    if u != [] {
      hide Payments, ItemPayments;
      var i := Without(u, v);
      PaymentsPermute(u[1..], v[..i] + v[i + 1..]);
      PaymentsTake(v, i);
      PaymentsTake(u, 0);
      assert u[..0] + u[1..] == u[1..];
    }
  }

  // ----- calls

  function Amounts(chunk: seq<Delegation>): (r: seq<nat>)
    ensures |r| == |chunk|
  {
    if chunk == [] then [] else [chunk[0].amount] + Amounts(chunk[1..])
  }

  function Delegators(chunk: seq<Delegation>): (r: seq<Address>)
    ensures |r| == |chunk|
  {
    if chunk == [] then [] else [chunk[0].delegator] + Delegators(chunk[1..])
  }

  /** Everything the call data of an item holds fits where it goes; Python raises OverflowError otherwise. The vault is
      at an address of its own. */
  predicate Encodable(s: Setup, x: Item)
  {
    var amounts, delegators := Amounts(x.chunk), Delegators(x.chunk);
    && IsAddress(x.vault.address) && Fits(x.vault.address) && x.vault.address != s.factory && x.vault.address != s.token
    && Fits(Sum(amounts)) && AllFit(DepositWords(amounts, delegators)) && Addresses(delegators)
  }

  predicate AllEncodable(s: Setup, items: seq<Item>) { forall i :: 0 <= i < |items| ==> Encodable(s, items[i]) }

  function ApproveCall(s: Setup, x: Item): Call
    requires Encodable(s, x)
  {
    Call(0, s.token, 0, PairData(s.approve, x.vault.address, Sum(Amounts(x.chunk))))
  }

  function DepositCall(s: Setup, x: Item): Call
    requires Encodable(s, x)
  {
    Call(0, x.vault.address, 0, DepositData(s, Amounts(x.chunk), Delegators(x.chunk)))
  }

  function FundCalls(s: Setup, items: seq<Item>): (r: seq<Call>)
    requires AllEncodable(s, items)
    ensures |r| == 2 * |items|
  {
    if items == [] then [] else [ApproveCall(s, items[0]), DepositCall(s, items[0])] + FundCalls(s, items[1..])
  }

  function FundActions(items: seq<Item>): (r: seq<Action>)
    ensures |r| == 2 * |items|
  {
    if items == [] then []
    else
      var x := items[0];
      [Approve(x.vault.address, Sum(Amounts(x.chunk))), Deposit(x.vault.address, Amounts(x.chunk), Delegators(x.chunk))]
      + FundActions(items[1..])
  }

  predicate Deployable(v: Vault)
  {
    IsAddress(v.validator) && IsAddress(v.governor) && v.governor != 0 && Fits(v.validator) && Fits(v.governor)
  }

  predicate AllDeployable(vaults: seq<Vault>) { forall i :: 0 <= i < |vaults| ==> Deployable(vaults[i]) }

  function DeployCalls(s: Setup, vaults: seq<Vault>): (r: seq<Call>)
    requires Usable(s) && AllDeployable(vaults)
    ensures |r| == |vaults|
  {
    if vaults == [] then []
    else [Call(0, s.factory, 0, DeployData(s, vaults[0].validator, vaults[0].governor))] + DeployCalls(s, vaults[1..])
  }

  function DeployActions(vaults: seq<Vault>): (r: seq<Action>)
  {
    if vaults == [] then [] else [Deploy(vaults[0].validator, vaults[0].governor)] + DeployActions(vaults[1..])
  }

  /** What a signer expects to see deployed. */
  function Expected(h: Keccak, s: Setup, vaults: seq<Vault>): seq<Deployed>
    requires Usable(s) && AllDeployable(vaults)
  {
    if vaults == [] then [] else [VaultOf(h, s, vaults[0].validator, vaults[0].governor)] + Expected(h, s, vaults[1..])
  }

  /** `safe_tx`: one call alone, several through MultiSend. */
  function SafeTxOf(s: Setup, multisend: Address, calls: seq<Call>): SafeTx
    requires Sendable(calls)
  {
    if |calls| == 1 then SafeTx(calls[0].to, 0, calls[0].data, CALL, 0, 0, 0)
    else SafeTx(multisend, 0, MultiSendData(s.multisend, calls), DELEGATECALL, 0, 0, 0)
  }

  lemma SafeTxCalls(s: Setup, multisend: Address, calls: seq<Call>)
    requires Usable(s) && Sendable(calls) && (forall i :: 0 <= i < |calls| ==> Plain(calls[i]))
    ensures CallsOf(s, SafeTxOf(s, multisend, calls)) == Some(calls)
  {
    hide DecodeMultiSend, MultiSendData, PackAll, Packable, Pow256;
    if |calls| == 1 {
      assert calls == [calls[0]];
    } else {
      MultiSendRoundTrip(s.multisend, calls);
    }
  }

  // ----- reading back a fund transaction

  lemma ItemReads(s: Setup, x: Item)
    requires Usable(s) && Encodable(s, x)
    ensures var a, d := ApproveCall(s, x), DepositCall(s, x);
            && Plain(a) && ActionOf(s, a) == Some(Approve(x.vault.address, Sum(Amounts(x.chunk))))
            && Plain(d) && ActionOf(s, d) == Some(Deposit(x.vault.address, Amounts(x.chunk), Delegators(x.chunk)))
  {
    hide PairData, DepositData, DecodePair, DecodeDeposit, DecodeDeploy, Sum, Amounts, Delegators, Pow256, DepositWords;
    PairIff(s.approve, ApproveCall(s, x).data, x.vault.address, Sum(Amounts(x.chunk)));
    DepositIff(s, DepositCall(s, x).data, Amounts(x.chunk), Delegators(x.chunk));
  }

  lemma {:induction false} FundReads(s: Setup, items: seq<Item>)
    requires Usable(s) && AllEncodable(s, items)
    ensures Readable(s, FundCalls(s, items)) && Actions(s, FundCalls(s, items)) == FundActions(items)
  {
    hide ActionOf, Plain, ApproveCall, DepositCall, Sum, Amounts, Delegators, Encodable, Usable;
    if items != [] {
      var calls := FundCalls(s, items);
      FundReads(s, items[1..]);
      ItemReads(s, items[0]);
      assert calls[1..][1..] == FundCalls(s, items[1..]) && calls[1..][0] == calls[1];
      ReadableStep(s, calls[1..]);
      ReadableStep(s, calls);
      var d := Actions(s, calls[1..]);
      assert d == [ActionOf(s, calls[1]).value] + FundActions(items[1..]);
    }
  }

  lemma {:induction false} FundPaired(items: seq<Item>)
    ensures Moves(FundActions(items)) == Pairs(DepositsOf(FundActions(items))) == FundActions(items)
  {
    if items != [] {
      hide Sum, Amounts, Delegators;
      var all, rest := FundActions(items), FundActions(items[1..]);
      FundPaired(items[1..]);
      var a, d := all[0], all[1];
      assert all[1..][0] == d && all[1..][1..] == rest;
      assert Moves(all[1..]) == [d] + rest && DepositsOf(all[1..]) == [d] + DepositsOf(rest);
      assert Moves(all) == [a] + ([d] + rest) && DepositsOf(all) == [d] + DepositsOf(rest);
      assert ([d] + DepositsOf(rest))[1..] == DepositsOf(rest);
      assert Pairs(DepositsOf(all)) == [a, d] + rest;
    }
  }

  lemma {:induction false} FundSound(items: seq<Item>)
    ensures Sound(FundActions(items))
  {
    if items != [] {
      hide Sum;
      FundSound(items[1..]);
      var all, rest := FundActions(items), FundActions(items[1..]);
      assert forall i :: 2 <= i < |all| ==> all[i] == rest[i - 2];
    }
  }

  function Strip(rows: seq<Row>): seq<Payment>
  {
    if rows == [] then [] else [Payment(rows[0].vault, rows[0].delegator, rows[0].amount)] + Strip(rows[1..])
  }

  lemma {:induction false} StripConcat(u: seq<Row>, v: seq<Row>)
    ensures Strip(u + v) == Strip(u) + Strip(v)
  {
    if u == [] {
      assert u + v == v;
    } else {
      StripConcat(u[1..], v);
      assert (u + v)[1..] == u[1..] + v;
      Associative([Payment(u[0].vault, u[0].delegator, u[0].amount)], Strip(u[1..]), Strip(v));
    }
  }

  lemma {:induction false} StripBatch(i: nat, vault: Address, chunk: seq<Delegation>)
    ensures Strip(Batch(i, vault, Amounts(chunk), Delegators(chunk))) == Payments(vault, chunk)
  {
    if chunk != [] {
      StripBatch(i, vault, chunk[1..]);
      assert Amounts(chunk)[1..] == Amounts(chunk[1..]) && Delegators(chunk)[1..] == Delegators(chunk[1..]);
      var rows := Batch(i, vault, Amounts(chunk), Delegators(chunk));
      assert rows[1..] == Batch(i, vault, Amounts(chunk[1..]), Delegators(chunk[1..]));
    }
  }

  lemma {:induction false} FundRows(h: Keccak, s: Setup, items: seq<Item>, i: nat)
    requires Usable(s) && Sound(FundActions(items))
    ensures Strip(Rows(FundActions(items), i)) == ItemPayments(items)
    ensures Deploys(h, s, FundActions(items)) == []
  {
    if items != [] {
      hide Sum, Amounts, Delegators, Payments, Batch, Usable;
      var x := items[0];
      var all, rest := FundActions(items), FundActions(items[1..]);
      FundSound(items[1..]);
      FundRows(h, s, items[1..], i + 2);
      assert all[1..][0] == all[1] && all[1..][1..] == rest;
      var here := Batch(i + 1, x.vault.address, Amounts(x.chunk), Delegators(x.chunk));
      assert all[1] == Deposit(x.vault.address, Amounts(x.chunk), Delegators(x.chunk));
      assert Rows(all[1..], i + 1) == here + Rows(rest, i + 2);
      assert Rows(all, i) == here + Rows(rest, i + 2);
      StripConcat(here, Rows(rest, i + 2));
      StripBatch(i + 1, x.vault.address, x.chunk);
      assert Deploys(h, s, all[1..]) == Deploys(h, s, rest);
    }
  }

  /** Decoding a planned fund transaction: no problems, nothing deployed, and each payment of its items once, in order. */
  lemma FundDecodes(h: Keccak, s: Setup, multisend: Address, items: seq<Item>)
    requires Usable(s) && multisend in s.official && AllEncodable(s, items) && Sendable(FundCalls(s, items))
    ensures var r := DecodeVaultTx(h, s, SafeTxOf(s, multisend, FundCalls(s, items)));
            r.problems == [] && r.deploys == [] && Strip(r.deposits) == ItemPayments(items)
  {
    var calls := FundCalls(s, items);
    FundReads(s, items);
    FundPaired(items);
    FundSound(items);
    FundRows(h, s, items, 1);
    PlannedDecodes(h, s, multisend, calls);
  }

  /** A transaction of plain readable calls, approvals paired with deposits, decodes to its own actions. */
  lemma PlannedDecodes(h: Keccak, s: Setup, multisend: Address, calls: seq<Call>)
    requires Usable(s) && multisend in s.official && Sendable(calls) && Readable(s, calls)
    requires Moves(Actions(s, calls)) == Pairs(DepositsOf(Actions(s, calls)))
    ensures var r, actions := DecodeVaultTx(h, s, SafeTxOf(s, multisend, calls)), Actions(s, calls);
            r.problems == [] && Sound(actions) && r.deploys == Deploys(h, s, actions) && r.deposits == Rows(actions, 1)
  {
    var tx := SafeTxOf(s, multisend, calls);
    assert tx.operation == CALL || tx.to == multisend;
    assert tx.value == 0 && tx.gasPrice == 0 && tx.gasToken == 0 && tx.refundReceiver == 0;
    ReadablePlain(s, calls);
    SafeTxCalls(s, multisend, calls);
    AcceptedIff(h, s, tx);
    hide SafeTxOf, CallsOf, Actions, Readable, Moves, Pairs, DepositsOf, DecodeVaultTx, Rows, Deploys, Sendable, Usable, Sound;
  }

  lemma ReadablePlain(s: Setup, calls: seq<Call>)
    requires Readable(s, calls)
    ensures forall i :: 0 <= i < |calls| ==> Plain(calls[i])
  {
    hide Plain, ActionOf;
  }

  // ----- reading back a deploy transaction

  lemma {:induction false} DeployReads(s: Setup, vaults: seq<Vault>)
    requires Usable(s) && AllDeployable(vaults)
    ensures Readable(s, DeployCalls(s, vaults)) && Actions(s, DeployCalls(s, vaults)) == DeployActions(vaults)
  {
    if vaults != [] {
      hide ActionOf, Plain, DeployData, Usable;
      var calls, v := DeployCalls(s, vaults), vaults[0];
      DeployReads(s, vaults[1..]);
      DeployRead(s, v);
      assert calls[1..] == DeployCalls(s, vaults[1..]);
      assert calls[0] == Call(0, s.factory, 0, DeployData(s, v.validator, v.governor));
      hide DeployCalls;
      ReadableStep(s, calls);
    }
  }

  lemma DeployRead(s: Setup, v: Vault)
    requires Usable(s) && Deployable(v)
    ensures var c := Call(0, s.factory, 0, DeployData(s, v.validator, v.governor));
            Plain(c) && ActionOf(s, c) == Some(Deploy(v.validator, v.governor))
  {
    hide DeployData, DecodeDeploy, DecodePair, DecodeDeposit, Pow256;
    DeployIff(s, DeployData(s, v.validator, v.governor), v.validator, v.governor);
  }

  lemma {:induction false} DeployOnly(h: Keccak, s: Setup, vaults: seq<Vault>, i: nat)
    requires Usable(s) && AllDeployable(vaults)
    ensures var actions := DeployActions(vaults);
            && Moves(actions) == [] == DepositsOf(actions) && Sound(actions)
            && Deploys(h, s, actions) == Expected(h, s, vaults) && Rows(actions, i) == []
  {
    if vaults != [] {
      hide VaultOf, Usable, IsAddress;
      var actions := DeployActions(vaults);
      DeployOnly(h, s, vaults[1..], i + 1);
      assert actions[1..] == DeployActions(vaults[1..]);
      assert forall k :: 1 <= k < |actions| ==> actions[k] == actions[1..][k - 1];
    }
  }

  lemma NoPairs()
    ensures Pairs([]) == []
  {
  }

  lemma DeployDecodes(h: Keccak, s: Setup, multisend: Address, vaults: seq<Vault>)
    requires Usable(s) && multisend in s.official && AllDeployable(vaults) && Sendable(DeployCalls(s, vaults))
    ensures var r := DecodeVaultTx(h, s, SafeTxOf(s, multisend, DeployCalls(s, vaults)));
            r.problems == [] && r.deploys == Expected(h, s, vaults) && r.deposits == []
  {
    hide Usable, Sendable, DecodeVaultTx, SafeTxOf, Actions, Readable, Moves, DepositsOf, Deploys, Rows, Sound, DeployCalls, DeployActions, Expected, AllDeployable;
    DeployReads(s, vaults);
    DeployOnly(h, s, vaults, 1);
    NoPairs();
    PlannedDecodes(h, s, multisend, DeployCalls(s, vaults));
  }

  // ----- sizes

  lemma MillionsFit(v: nat)
    requires v < 0x1_0000_0000
    ensures Fits(v)
  {
    assert Pow256(4) == 0x1_0000_0000;
    Pow256Monotone(4, 32);
  }

  lemma CallSizes(s: Setup, x: Item)
    requires Usable(s) && Encodable(s, x) && ItemGas()(x) < 0x1_0000_0000
    ensures var a, d := ApproveCall(s, x), DepositCall(s, x);
            && Packable(a) && Packable(d)
            && |PackCall(a)| + |PackCall(d)| == 370 + 64 * |x.chunk|
  {
    hide Words, Pow256;
    var a, d := ApproveCall(s, x), DepositCall(s, x);
    assert |a.data| == 68 && |d.data| == 132 + 64 * |x.chunk|;
    MillionsFit(0);
    MillionsFit(68);
    MillionsFit(|d.data|);
  }

  lemma PackTwo(a: Call, b: Call, rest: seq<Call>)
    requires Packable(a) && Packable(b) && AllPackable(rest)
    ensures AllPackable([a, b] + rest) && |PackAll([a, b] + rest)| == |PackCall(a)| + |PackCall(b)| + |PackAll(rest)|
  {
    hide Packable, PackCall;
    var all := [a, b] + rest;
    assert all[1..][0] == b && all[1..][1..] == rest;
  }

  /** A fund transaction has fewer bytes of call data than its gas estimate. */
  lemma {:induction false} FundFits(s: Setup, items: seq<Item>)
    requires Usable(s) && AllEncodable(s, items) && SumBy(ItemGas(), items) < 0x1_0000_0000
    ensures AllPackable(FundCalls(s, items)) && |PackAll(FundCalls(s, items))| <= SumBy(ItemGas(), items)
  {
    hide Packable, PackCall, Encodable, Usable, ApproveCall, DepositCall;
    if items == [] {
      assert FundCalls(s, items) == [];
    } else {
      FundFits(s, items[1..]);
      CallSizes(s, items[0]);
      PackTwo(ApproveCall(s, items[0]), DepositCall(s, items[0]), FundCalls(s, items[1..]));
    }
  }

  lemma {:induction false} DeployFits(s: Setup, vaults: seq<Vault>)
    requires Usable(s) && AllDeployable(vaults) && Fits(181 + |s.creation|)
    ensures AllPackable(DeployCalls(s, vaults)) && |PackAll(DeployCalls(s, vaults))| == |vaults| * (181 + |s.creation|)
  {
    hide PackCall, Words, Pow256;
    if vaults == [] {
      assert DeployCalls(s, vaults) == [];
    } else {
      var calls := DeployCalls(s, vaults);
      DeployFits(s, vaults[1..]);
      assert calls[1..] == DeployCalls(s, vaults[1..]);
      assert |calls[0].data| == 96 + |s.creation|;
      MillionsFit(0);
      OneMore(|vaults|, 181 + |s.creation|);
    }
  }
}
