/** The approval batch of a claims contract (`build` and `preflight` in bridge-claims/tools/approve_claims.py), on tokens
    that refuse to change one nonzero approval into another. */
module Approvals {
  import opened Options

  type Token = nat

  datatype Approval = Approval(token: Token, amount: nat)

  datatype Call = Deposit(amount: nat) | Approve(token: Token, amount: nat)

  /** The Safe: what it lets the claims contract take, its native coin and its wrapped coin. */
  datatype Safe = Safe(allowances: map<Token, nat>, native: nat, held: nat)

  /** What was read before the batch was written; `live` is false for an unsigned draft without chain access. */
  datatype Reads = Reads(live: bool, allowances: map<Token, nat>, held: nat, native: nat, resetTokens: set<Token>)

  datatype Result = Reverted | Done(safe: Safe)

  predicate Distinct(approvals: seq<Approval>)
  {
    approvals == [] || ((forall a :: a in approvals[1..] ==> a.token != approvals[0].token) && Distinct(approvals[1..]))
  }

  // ----- what the calls do

  /** The strictest of the listed tokens: an approval changes to or from zero only. */
  function Perform(c: Call, s: Safe): Result
  {
    match c
    case Deposit(amount) => if amount > s.native then Reverted else Done(s.(native := s.native - amount, held := s.held + amount))
    case Approve(token, amount) =>
      if AmountAt(s.allowances, token) != 0 && amount != 0 then Reverted else Done(s.(allowances := s.allowances[token := amount]))
  }

  function Run(calls: seq<Call>, s: Safe): Result
  {
    if calls == [] then Done(s)
    else
      match Perform(calls[0], s)
      case Reverted => Reverted
      case Done(next) => Run(calls[1..], next)
  }

  lemma {:induction false} RunConcat(u: seq<Call>, v: seq<Call>, s: Safe)
    ensures Run(u + v, s) == match Run(u, s) case Reverted => Reverted case Done(next) => Run(v, next)
  {
    if u == [] {
      assert u + v == v;
    } else {
      assert (u + v)[1..] == u[1..] + v;
      match Perform(u[0], s) {
        case Reverted =>
        case Done(next) => RunConcat(u[1..], v, next);
      }
    }
  }

  // ----- the batch

  /** `min(native_total, max(0, wrapped_need - held))`, or all of it in a draft. */
  function Wrap(r: Reads, nativeTotal: nat, need: nat): nat
  {
    if !r.live then nativeTotal
    else
      var short := if need > r.held then need - r.held else 0;
      if nativeTotal < short then nativeTotal else short
  }

  function WrapCalls(r: Reads, nativeTotal: nat, need: nat, noWrap: bool): seq<Call>
  {
    if nativeTotal == 0 || noWrap || Wrap(r, nativeTotal, need) == 0 then [] else [Deposit(Wrap(r, nativeTotal, need))]
  }

  predicate Resets(r: Reads, a: Approval)
  {
    if r.live then AmountAt(r.allowances, a.token) != 0 else a.token in r.resetTokens
  }

  function ApproveCalls(r: Reads, a: Approval): seq<Call>
  {
    (if Resets(r, a) then [Approve(a.token, 0)] else []) + [Approve(a.token, a.amount)]
  }

  function AllApproveCalls(r: Reads, approvals: seq<Approval>): seq<Call>
  {
    if approvals == [] then [] else ApproveCalls(r, approvals[0]) + AllApproveCalls(r, approvals[1..])
  }

  lemma {:induction false} AllApproveAppend(r: Reads, u: seq<Approval>, a: Approval)
    ensures AllApproveCalls(r, u + [a]) == AllApproveCalls(r, u) + ApproveCalls(r, a)
  {
    if u == [] {
      assert u + [a] == [a] && [a][1..] == [];
    } else {
      AllApproveAppend(r, u[1..], a);
      assert (u + [a])[1..] == u[1..] + [a];
    }
  }

  method Build(r: Reads, approvals: seq<Approval>, nativeTotal: nat, need: nat, noWrap: bool) returns (calls: seq<Call>)
    ensures calls == WrapCalls(r, nativeTotal, need, noWrap) + AllApproveCalls(r, approvals)
  {
    hide ApproveCalls, AllApproveCalls;
    calls := [];
    if nativeTotal != 0 && !noWrap {
      var wrap := nativeTotal;
      if r.live {
        var short := if need - r.held > 0 then need - r.held else 0;
        wrap := if nativeTotal < short then nativeTotal else short;
      }
      if wrap != 0 {
        calls := calls + [Deposit(wrap)];
      }
    }
    ghost var first := calls;
    NoApprovals(r);
    var i := 0;
    while i < |approvals|
      invariant i <= |approvals| && calls == first + AllApproveCalls(r, approvals[..i])
    {
      var a := approvals[i];
      AllApproveAppend(r, approvals[..i], a);
      assert approvals[..i + 1] == approvals[..i] + [a];
      Parts(r, a);
      ghost var before := calls;
      if (r.live && AmountAt(r.allowances, a.token) != 0) || (!r.live && a.token in r.resetTokens) {
        calls := calls + [Approve(a.token, 0)];
      }
      calls := calls + [Approve(a.token, a.amount)];
      assert calls == before + ApproveCalls(r, a);
      i := i + 1;
    }
    assert approvals[..i] == approvals;
  }

  lemma NoApprovals(r: Reads)
    ensures AllApproveCalls(r, []) == []
  {
  }

  lemma Parts(r: Reads, a: Approval)
    ensures ApproveCalls(r, a) == (if Resets(r, a) then [Approve(a.token, 0)] else []) + [Approve(a.token, a.amount)]
  {
  }

  // ----- approvals from zero only

  /** The approval would be changed from nonzero to nonzero: it was not reset first. */
  predicate Clashes(r: Reads, a: Approval, s: Safe)
  {
    !Resets(r, a) && a.amount != 0 && AmountAt(s.allowances, a.token) != 0
  }

  /** The listed approvals, on top of what there was. */
  function Granted(approvals: seq<Approval>, allowances: map<Token, nat>): map<Token, nat>
  {
    if approvals == [] then allowances else Granted(approvals[1..], allowances[approvals[0].token := approvals[0].amount])
  }

  lemma OneApproval(r: Reads, a: Approval, s: Safe)
    ensures Run(ApproveCalls(r, a), s) ==
      if Clashes(r, a, s) then Reverted else Done(s.(allowances := s.allowances[a.token := a.amount]))
  {
    var zero := s.(allowances := s.allowances[a.token := 0]);
    RunOne(Approve(a.token, 0), s);
    RunOne(Approve(a.token, a.amount), s);
    RunOne(Approve(a.token, a.amount), zero);
    RunConcat([Approve(a.token, 0)], [Approve(a.token, a.amount)], s);
    Parts(r, a);
    hide Run, ApproveCalls, Resets;
    if Resets(r, a) {
      assert zero.allowances[a.token := a.amount] == s.allowances[a.token := a.amount];
    } else {
      assert [] + [Approve(a.token, a.amount)] == [Approve(a.token, a.amount)];
    }
  }

  lemma RunOne(c: Call, s: Safe)
    ensures Run([c], s) == Perform(c, s)
  {
    assert [c][1..] == [];
  }

  /** The approvals go through exactly when none of them clashes; then exactly the listed ones stand. */
  lemma {:induction false} ApprovalsIff(r: Reads, approvals: seq<Approval>, s: Safe)
    requires Distinct(approvals)
    ensures Run(AllApproveCalls(r, approvals), s) ==
      if exists a :: a in approvals && Clashes(r, a, s) then Reverted
      else Done(s.(allowances := Granted(approvals, s.allowances)))
  {
    if approvals != [] {
      hide ApproveCalls, Resets;
      var a, rest := approvals[0], approvals[1..];
      OneApproval(r, a, s);
      RunConcat(ApproveCalls(r, a), AllApproveCalls(r, rest), s);
      assert approvals == [a] + rest;
      if !Clashes(r, a, s) {
        var next := s.(allowances := s.allowances[a.token := a.amount]);
        assert forall b :: b in rest ==> (Clashes(r, b, next) <==> Clashes(r, b, s));
        ApprovalsIff(r, rest, next);
      }
    }
  }

  /** Each listed token ends with its listed approval; the others keep theirs. */
  lemma {:induction false} GrantedIs(approvals: seq<Approval>, allowances: map<Token, nat>, t: Token)
    requires Distinct(approvals)
    ensures forall a :: a in approvals && a.token == t ==> AmountAt(Granted(approvals, allowances), t) == a.amount
    ensures (forall a :: a in approvals ==> a.token != t) ==> AmountAt(Granted(approvals, allowances), t) == AmountAt(allowances, t)
  {
    if approvals != [] {
      GrantedIs(approvals[1..], allowances[approvals[0].token := approvals[0].amount], t);
    }
  }

  /** Claims before the batch runs only lower allowances: with live reads the batch then never meets a nonzero approval it
      did not reset, so it goes through. */
  lemma LiveReadsNeverClash(r: Reads, approvals: seq<Approval>, s: Safe)
    requires Distinct(approvals) && r.live && forall t :: AmountAt(s.allowances, t) <= AmountAt(r.allowances, t)
    ensures Run(AllApproveCalls(r, approvals), s) == Done(s.(allowances := Granted(approvals, s.allowances)))
  {
    ApprovalsIff(r, approvals, s);
  }

  // ----- the wrap

  /** The `funded` check of the wrapped token. */
  predicate Funded(r: Reads, need: nat) { r.held + r.native >= need }

  /** What the batch may take from the native coin: nothing with `--no-wrap`. */
  function Wrappable(nativeTotal: nat, noWrap: bool): nat { if noWrap then 0 else nativeTotal }

  /** Between the reads and the batch, claims may have taken wrapped coin, and native coin may have come in. The wrap is
      never more than the Safe has. After it, what is left of the claims is covered exactly when the wrapped coin read and
      the native rows together reach the total; the approval as a whole is, once there were claims, only if the coin still
      held reaches it without any wrap. */
  lemma WrapCoversIff(r: Reads, nativeTotal: nat, need: nat, noWrap: bool, s: Safe)
    requires r.live && Funded(r, need) && s.native >= r.native && s.held <= r.held
    ensures var done := Run(WrapCalls(r, nativeTotal, need, noWrap), s);
            var claimed := r.held - s.held;
            && done.Done? && done.safe.allowances == s.allowances
            && done.safe.native + done.safe.held == s.native + s.held
            && (done.safe.held + claimed >= need <==> r.held + Wrappable(nativeTotal, noWrap) >= need)
            && (done.safe.held >= need <==> s.held >= need || (claimed == 0 && r.held + Wrappable(nativeTotal, noWrap) >= need))
            && (r.held < need <= r.held + Wrappable(nativeTotal, noWrap) ==> done.safe.held + claimed == need)
  {
    var calls := WrapCalls(r, nativeTotal, need, noWrap);
    if calls != [] {
      assert calls[1..] == [];
    }
  }

  /** That is narrower than the check: a Safe can be funded, and the batch still leave the approval uncovered. */
  lemma FundedButShort(need: nat)
    requires need >= 2
    ensures var r := Reads(true, map[], 0, need, {});
            && Funded(r, need)
            && Run(WrapCalls(r, 1, need, false), Safe(map[], need, 0)) == Done(Safe(map[], need - 1, 1))
  {
    var r := Reads(true, map[], 0, need, {});
    assert WrapCalls(r, 1, need, false) == [Deposit(1)];
    assert [Deposit(1)][1..] == [];
  }

  /** The whole batch, after any claims on any of the tokens. */
  lemma BatchRuns(r: Reads, approvals: seq<Approval>, nativeTotal: nat, need: nat, noWrap: bool, s: Safe)
    requires Distinct(approvals) && r.live && Funded(r, need) && s.native >= r.native && s.held <= r.held
    requires forall t :: AmountAt(s.allowances, t) <= AmountAt(r.allowances, t)
    ensures var done := Run(WrapCalls(r, nativeTotal, need, noWrap) + AllApproveCalls(r, approvals), s);
            var claimed := r.held - s.held;
            && done.Done? && done.safe.allowances == Granted(approvals, s.allowances)
            && done.safe.native + done.safe.held == s.native + s.held
            && (done.safe.held + claimed >= need <==> r.held + Wrappable(nativeTotal, noWrap) >= need)
  {
    hide WrapCalls, AllApproveCalls, Granted, Distinct;
    WrapCoversIff(r, nativeTotal, need, noWrap, s);
    RunConcat(WrapCalls(r, nativeTotal, need, noWrap), AllApproveCalls(r, approvals), s);
    LiveReadsNeverClash(r, approvals, Run(WrapCalls(r, nativeTotal, need, noWrap), s).safe);
  }
}
