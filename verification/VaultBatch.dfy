/** What a signer's decoder accepts as a vault transaction (`decode_vault_tx` in airdrop/tools/vault_batch.py). */
module VaultBatch {
  import opened Lists
  import opened Bytes
  import opened Options
  import opened MultiSend
  import opened VaultCalls

  datatype SafeTx = SafeTx(
    to: Address, value: nat, data: Bytes, operation: nat,
    gasPrice: nat, gasToken: Address, refundReceiver: Address)

  /** What a plain call of the batch does. */
  datatype Action =
    | Deploy(validator: Address, governor: Address)
    | Approve(spender: Address, amount: nat)
    | Deposit(vault: Address, amounts: seq<nat>, delegators: seq<Address>)

  datatype Problem =
    | SendsEther
    | GasRefund
    | UnofficialDelegate
    | MalformedBatch
    | NotBatch
    | NotPlain(call: nat)
    | NotDeploy(call: nat)
    | NotApprove(call: nat)
    | ApproveWhilePending(call: nat)
    | NotDeposit(call: nat)
    | NotApproved(call: nat)
    | ApprovalUnused(call: nat)

  datatype Row = Row(call: nat, vault: Address, delegator: Address, amount: nat)

  datatype Deployed = Deployed(validator: Address, governor: Address, vault: Address)

  datatype Report = Report(deploys: seq<Deployed>, deposits: seq<Row>, problems: seq<Problem>)

  /** An approval no deposit has used yet, and the call that gave it. */
  datatype Pending = Nothing | Unused(call: nat, spender: Address, amount: nat)

  function Batch(i: nat, vault: Address, amounts: seq<nat>, delegators: seq<Address>): seq<Row>
    requires |amounts| == |delegators|
  {
    if amounts == [] then [] else [Row(i, vault, delegators[0], amounts[0])] + Batch(i, vault, amounts[1..], delegators[1..])
  }

  // ----- the decoder

  predicate Usable(s: Setup) { s.Valid() && Fits(s.token) }

  /** The action a call's data encodes; which decoder reads it depends on the address called. */
  function ActionOf(s: Setup, c: Call): (r: Option<Action>)
    ensures r.Some? ==>
      if c.to == s.factory then r.value.Deploy? else if c.to == s.token then r.value.Approve? else r.value.Deposit?
    ensures r.Some? && r.value.Deposit? ==> r.value.vault == c.to && |r.value.amounts| == |r.value.delegators|
    ensures r.Some? && r.value.Deploy? ==> IsAddress(r.value.validator) && IsAddress(r.value.governor) && r.value.governor != 0
  {
    if c.to == s.factory then
      match DecodeDeploy(s, c.data)
      case None => None
      case Some(d) => Some(Deploy(d.0, d.1))
    else if c.to == s.token then
      match DecodePair(s.approve, c.data)
      case None => None
      case Some(a) => Some(Approve(a.0, a.1))
    else
      match DecodeDeposit(s, c.data)
      case None => None
      case Some(b) => Some(Deposit(c.to, b.0, b.1))
  }

  function VaultOf(h: Keccak, s: Setup, validator: Address, governor: Address): Deployed
    requires Usable(s) && IsAddress(validator) && IsAddress(governor)
  {
    AddressFits(validator);
    AddressFits(governor);
    Deployed(validator, governor, VaultAddress(h, s, validator, governor))
  }

  lemma AddressFits(a: Address)
    requires IsAddress(a)
    ensures Fits(a)
  {
    Pow256Monotone(20, 32);
  }

  predicate Plain(c: Call) { c.op == CALL && c.value == 0 }

  /** What one call adds to the report, and the approval left after it. */
  function Step(h: Keccak, s: Setup, c: Call, i: nat, pending: Pending): (Report, Pending)
    requires Usable(s)
  {
    var action := ActionOf(s, c);
    if !Plain(c) then (Issue(NotPlain(i)), pending)
    else if action.None? then
      (Issue(if c.to == s.factory then NotDeploy(i) else if c.to == s.token then NotApprove(i) else NotDeposit(i)), pending)
    else
      match action.value
      case Deploy(validator, governor) => (Report([VaultOf(h, s, validator, governor)], [], []), pending)
      case Approve(spender, amount) =>
        if pending.Unused? then (Issue(ApproveWhilePending(i)), pending)
        else (Report([], [], []), Unused(i, spender, amount))
      case Deposit(vault, amounts, delegators) =>
        (Report([], Batch(i, vault, amounts, delegators),
                if Covers(pending, vault, amounts) then [] else [NotApproved(i)]), Nothing)
  }

  function Issue(p: Problem): Report { Report([], [], [p]) }

  function Join(a: Report, b: Report): Report
  {
    Report(a.deploys + b.deploys, a.deposits + b.deposits, a.problems + b.problems)
  }

  lemma JoinAssociative(a: Report, b: Report, c: Report)
    ensures Join(Join(a, b), c) == Join(a, Join(b, c))
  {
  }

  /** One pass over the calls, from call number `i`, with an approval left over from the calls before. */
  function Scan(h: Keccak, s: Setup, calls: seq<Call>, i: nat, pending: Pending): Report
    requires Usable(s)
  {
    if calls == [] then Report([], [], if pending.Unused? then [ApprovalUnused(pending.call)] else [])
    else
      var (found, next) := Step(h, s, calls[0], i, pending);
      Join(found, Scan(h, s, calls[1..], i + 1, next))
  }

  function Complain(ps: seq<Problem>, r: Report): Report
  {
    Join(Report([], [], ps), r)
  }

  predicate Covers(pending: Pending, vault: Address, amounts: seq<nat>)
  {
    pending.Unused? && pending.spender == vault && pending.amount == Sum(amounts)
  }

  function Envelope(tx: SafeTx): seq<Problem>
  {
    (if tx.value != 0 then [SendsEther] else [])
    + (if tx.gasPrice != 0 || tx.gasToken != 0 || tx.refundReceiver != 0 then [GasRefund] else [])
  }

  function DecodeVaultTx(h: Keccak, s: Setup, tx: SafeTx): Report
    requires Usable(s)
  {
    if tx.operation == CALL then Complain(Envelope(tx), Scan(h, s, [Call(0, tx.to, tx.value, tx.data)], 1, Nothing))
    else
      var found := Envelope(tx) + (if tx.to in s.official then [] else [UnofficialDelegate]);
      match DecodeMultiSend(s.multisend, tx.data)
      case Malformed => Report([], [], found + [MalformedBatch])
      case NotMultiSend => Report([], [], found + [NotBatch])
      case Calls(calls) => Complain(found, Scan(h, s, calls, 1, Nothing))
  }

  /** The loop of `decode_vault_tx`. */
  method ScanCalls(h: Keccak, s: Setup, calls: seq<Call>, found: seq<Problem>) returns (r: Report)
    requires Usable(s)
    ensures r == Complain(found, Scan(h, s, calls, 1, Nothing))
  {
    hide ActionOf, VaultOf, Plain, Covers, Batch, Setup.Valid, Usable, Sum;
    r := Report([], [], found);
    var pending, i := Nothing, 0;
    ghost var whole := Complain(found, Scan(h, s, calls, 1, Nothing));
    assert calls[0..] == calls;
    while i < |calls|
      invariant i <= |calls|
      invariant Join(r, Scan(h, s, calls[i..], i + 1, pending)) == whole
    {
      var c := calls[i];
      ScanNext(h, s, calls, i, pending, r);
      ghost var step := Step(h, s, c, i + 1, pending);
      var more := Report([], [], []);
      var got := ActionOf(s, c);
      if !Plain(c) {
        more := Issue(NotPlain(i + 1));
      } else if c.to == s.factory {
        if got.None? {
          more := Issue(NotDeploy(i + 1));
        } else {
          more := Report([VaultOf(h, s, got.value.validator, got.value.governor)], [], []);
        }
      } else if c.to == s.token {
        if got.None? {
          more := Issue(NotApprove(i + 1));
        } else if pending.Unused? {
          more := Issue(ApproveWhilePending(i + 1));
        } else {
          pending := Unused(i + 1, got.value.spender, got.value.amount);
        }
      } else if got.None? {
        more := Issue(NotDeposit(i + 1));
      } else {
        more := Report([], Batch(i + 1, c.to, got.value.amounts, got.value.delegators),
                       if Covers(pending, c.to, got.value.amounts) then [] else [NotApproved(i + 1)]);
        pending := Nothing;
      }
      assert step == (more, pending);
      hide Step, Join, Scan;
      r := Join(r, more);
      i := i + 1;
    }
    ScanEnd(h, s, calls[i..], i + 1, pending, r);
    if pending.Unused? {
      r := r.(problems := r.problems + [ApprovalUnused(pending.call)]);
    }
  }

  lemma ScanNext(h: Keccak, s: Setup, calls: seq<Call>, i: nat, pending: Pending, r: Report)
    requires Usable(s) && i < |calls|
    ensures var (found, next) := Step(h, s, calls[i], i + 1, pending);
            Join(r, Scan(h, s, calls[i..], i + 1, pending)) == Join(Join(r, found), Scan(h, s, calls[i + 1..], i + 2, next))
  {
    hide Step, Join, Usable;
    assert calls[i..][0] == calls[i] && calls[i..][1..] == calls[i + 1..];
    var (found, next) := Step(h, s, calls[i], i + 1, pending);
    JoinAssociative(r, found, Scan(h, s, calls[i + 1..], i + 2, next));
  }

  lemma ScanEnd(h: Keccak, s: Setup, calls: seq<Call>, i: nat, pending: Pending, r: Report)
    requires Usable(s) && calls == []
    ensures Join(r, Scan(h, s, calls, i, pending))
         == if pending.Unused? then r.(problems := r.problems + [ApprovalUnused(pending.call)]) else r
  {
  }

  method Decode(h: Keccak, s: Setup, tx: SafeTx) returns (r: Report)
    requires Usable(s)
    ensures r == DecodeVaultTx(h, s, tx)
  {
    hide DecodeMultiSend, Scan, Usable, Join, Envelope;
    var problems := CheckEnvelope(tx);
    if tx.operation == CALL {
      r := ScanCalls(h, s, [Call(0, tx.to, tx.value, tx.data)], problems);
      return;
    }
    var found := problems + (if tx.to in s.official then [] else [UnofficialDelegate]);
    match DecodeMultiSend(s.multisend, tx.data) {
      case Malformed => r := Report([], [], found + [MalformedBatch]);
      case NotMultiSend => r := Report([], [], found + [NotBatch]);
      case Calls(calls) => r := ScanCalls(h, s, calls, found);
    }
  }

  method CheckEnvelope(tx: SafeTx) returns (problems: seq<Problem>)
    ensures problems == Envelope(tx)
  {
    problems := [];
    if tx.value != 0 {
      problems := problems + [SendsEther];
    }
    if tx.gasPrice != 0 || tx.gasToken != 0 || tx.refundReceiver != 0 {
      problems := problems + [GasRefund];
    }
  }

  // ----- what is accepted

  /** The calls of a transaction, when it is a plain call or a readable batch. */
  function CallsOf(s: Setup, tx: SafeTx): Option<seq<Call>>
  {
    if tx.operation == CALL then Some([Call(0, tx.to, tx.value, tx.data)])
    else match DecodeMultiSend(s.multisend, tx.data)
      case Calls(calls) => Some(calls)
      case _ => None
  }

  predicate Readable(s: Setup, calls: seq<Call>)
  {
    forall i :: 0 <= i < |calls| ==> Plain(calls[i]) && ActionOf(s, calls[i]).Some?
  }

  function Actions(s: Setup, calls: seq<Call>): seq<Action>
    requires Readable(s, calls)
  {
    if calls == [] then [] else [ActionOf(s, calls[0]).value] + Actions(s, calls[1..])
  }

  predicate Sound(actions: seq<Action>)
  {
    forall i :: 0 <= i < |actions| ==>
      match actions[i]
      case Deploy(validator, governor) => IsAddress(validator) && IsAddress(governor) && governor != 0
      case Approve(_, _) => true
      case Deposit(_, amounts, delegators) => |amounts| == |delegators|
  }

  function Deploys(h: Keccak, s: Setup, actions: seq<Action>): seq<Deployed>
    requires Usable(s) && Sound(actions)
  {
    if actions == [] then []
    else (if actions[0].Deploy? then [VaultOf(h, s, actions[0].validator, actions[0].governor)] else []) + Deploys(h, s, actions[1..])
  }

  function Rows(actions: seq<Action>, i: nat): seq<Row>
    requires Sound(actions)
  {
    if actions == [] then []
    else (if actions[0].Deposit? then Batch(i, actions[0].vault, actions[0].amounts, actions[0].delegators) else [])
         + Rows(actions[1..], i + 1)
  }

  function DepositsOf(actions: seq<Action>): (ds: seq<Action>)
    ensures forall i :: 0 <= i < |ds| ==> ds[i].Deposit?
  {
    if actions == [] then [] else (if actions[0].Deposit? then [actions[0]] else []) + DepositsOf(actions[1..])
  }

  /** The actions that touch the token. */
  function Moves(actions: seq<Action>): seq<Action>
  {
    if actions == [] then [] else (if actions[0].Deploy? then [] else [actions[0]]) + Moves(actions[1..])
  }

  /** Each deposit, right after the approval of exactly its total. */
  function Pairs(deposits: seq<Action>): seq<Action>
    requires forall i :: 0 <= i < |deposits| ==> deposits[i].Deposit?
  {
    if deposits == [] then []
    else [Approve(deposits[0].vault, Sum(deposits[0].amounts)), deposits[0]] + Pairs(deposits[1..])
  }

  function Lead(pending: Pending): seq<Action>
  {
    if pending.Unused? then [Approve(pending.spender, pending.amount)] else []
  }

  predicate Continues(actions: seq<Action>, pending: Pending)
  {
    Lead(pending) + Moves(actions) == Pairs(DepositsOf(actions))
  }

  lemma ContinuesStep(actions: seq<Action>, pending: Pending, i: nat)
    requires actions != []
    ensures Continues(actions, pending)
       <==> match actions[0]
            case Deploy(_, _) => Continues(actions[1..], pending)
            case Approve(spender, amount) => pending.Nothing? && Continues(actions[1..], Unused(i, spender, amount))
            case Deposit(vault, amounts, _) => Covers(pending, vault, amounts) && Continues(actions[1..], Nothing)
  {
    hide Sum;
    var a, rest := actions[0], actions[1..];
    var ds, more, moves := DepositsOf(actions), DepositsOf(rest), Moves(rest);
    match a {
      case Deploy(_, _) =>
        assert Moves(actions) == moves && ds == more;
      case Approve(_, _) =>
        assert Moves(actions) == [a] + moves && ds == more;
        if pending.Unused? {
          assert (Lead(pending) + Moves(actions))[1] == a;
          assert more != [] ==> Pairs(more)[1] == more[0];
        }
      case Deposit(vault, amounts, _) =>
        assert Moves(actions) == [a] + moves && ds == [a] + more && ds[1..] == more;
        var left, right := Lead(pending) + Moves(actions), Pairs(ds);
        var pair := [Approve(vault, Sum(amounts)), a];
        assert right == pair + Pairs(more);
        if pending.Unused? {
          assert left == [Approve(pending.spender, pending.amount), a] + moves;
          Cancel(Approve(pending.spender, pending.amount), pair[0], a, moves, Pairs(more));
        } else {
          assert left[0] == a;
        }
        assert Lead(Nothing) + moves == moves;
    }
  }

  lemma Cancel(x: Action, y: Action, a: Action, u: seq<Action>, v: seq<Action>)
    ensures [x, a] + u == [y, a] + v <==> x == y && u == v
  {
    if [x, a] + u == [y, a] + v {
      assert ([x, a] + u)[0] == x && ([y, a] + v)[0] == y;
      assert ([x, a] + u)[2..] == u && ([y, a] + v)[2..] == v;
    }
  }

  /** The scan finds nothing to object to exactly when every call is a plain canonical one and, deployments apart,
      every approval is of a vault's exact total and is followed by that vault's deposit. */
  lemma {:induction false} ScanCleanIff(h: Keccak, s: Setup, calls: seq<Call>, i: nat, pending: Pending)
    requires Usable(s)
    ensures var r := Scan(h, s, calls, i, pending);
            && (r.problems == [] <==> Readable(s, calls) && Continues(Actions(s, calls), pending))
            && (r.problems == [] ==>
                  && Sound(Actions(s, calls))
                  && r.deploys == Deploys(h, s, Actions(s, calls))
                  && r.deposits == Rows(Actions(s, calls), i))
  {
    hide ActionOf, VaultOf, Plain, Batch, Setup.Valid, Usable, Sum, Continues, Covers;
    if calls == [] {
      EmptyContinues(pending);
    } else {
      var c, rest := calls[0], calls[1..];
      var (found, next) := Step(h, s, c, i, pending);
      ScanCleanIff(h, s, rest, i + 1, next);
      assert Readable(s, calls) <==> Plain(c) && ActionOf(s, c).Some? && Readable(s, rest) by {
        hide *;
        ReadableStep(s, calls);
      }
      if Readable(s, calls) {
        var actions := Actions(s, calls);
        assert actions[0] == ActionOf(s, c).value && actions[1..] == Actions(s, rest);
        ContinuesStep(actions, pending, i);
      }
    }
  }

  lemma EmptyContinues(pending: Pending)
    ensures Continues([], pending) <==> pending.Nothing?
  {
    assert Moves([]) == [] && Pairs(DepositsOf([])) == [];
  }

  lemma ReadableStep(s: Setup, calls: seq<Call>)
    requires calls != []
    ensures Readable(s, calls) <==> Plain(calls[0]) && ActionOf(s, calls[0]).Some? && Readable(s, calls[1..])
  {
    hide Plain, ActionOf;
    if Plain(calls[0]) && ActionOf(s, calls[0]).Some? && Readable(s, calls[1..]) {
      forall i | 0 <= i < |calls| ensures Plain(calls[i]) && ActionOf(s, calls[i]).Some? {
        assert i > 0 ==> calls[i] == calls[1..][i - 1];
      }
    }
    if Readable(s, calls) {
      assert forall i :: 0 <= i < |calls[1..]| ==> calls[1..][i] == calls[i + 1];
    }
  }

  predicate Accepted(s: Setup, tx: SafeTx)
  {
    && tx.value == 0 && tx.gasPrice == 0 && tx.gasToken == 0 && tx.refundReceiver == 0
    && (tx.operation == CALL || tx.to in s.official)
    && CallsOf(s, tx).Some?
    && var calls := CallsOf(s, tx).value;
       Readable(s, calls) && var actions := Actions(s, calls); Moves(actions) == Pairs(DepositsOf(actions))
  }

  /** What "no problems" means for a whole transaction, and what the report then lists. */
  lemma AcceptedIff(h: Keccak, s: Setup, tx: SafeTx)
    requires Usable(s)
    ensures var r := DecodeVaultTx(h, s, tx);
            && (r.problems == [] <==> Accepted(s, tx))
            && (r.problems == [] ==>
                  var actions := Actions(s, CallsOf(s, tx).value);
                  Sound(actions) && r.deploys == Deploys(h, s, actions) && r.deposits == Rows(actions, 1))
  {
    hide DecodeMultiSend, ActionOf, Scan, Usable, Moves, Pairs, DepositsOf, Readable, Actions, Rows, Deploys;
    if CallsOf(s, tx).Some? {
      var calls := CallsOf(s, tx).value;
      ScanCleanIff(h, s, calls, 1, Nothing);
      if Readable(s, calls) {
        assert Lead(Nothing) + Moves(Actions(s, calls)) == Moves(Actions(s, calls));
      }
    }
  }
}
