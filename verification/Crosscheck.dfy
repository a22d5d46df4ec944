/** The cross-check of a queued payment (`cmd_crosscheck` in airdrop/tools/safe_batch.py), and what a pass means for
    every way the Safe can go on. */
module Crosscheck {
  import opened Lists
  import opened Options
  import opened Amounts
  import opened Transfers

  /** A transaction the Safe's service lists. `successful` matters only once executed; `other` says that it is more than
      plain transfers of the token, `unreadable` that its record cannot be trusted. */
  datatype Proposal = Proposal(nonce: nat, hash: nat, executed: bool, successful: bool, transfers: seq<Transfer>, other: bool, unreadable: bool)

  /** A row of the sheet in atto: the amount it shows, and half a unit of its last decimal. */
  datatype SheetRow = SheetRow(address: nat, amount: nat, tolerance: nat)

  predicate Close(amount: nat, row: SheetRow)
  {
    (if amount >= row.amount then amount - row.amount else row.amount - amount) <= row.tolerance
  }

  // ----- reading the sheet

  /** A line of the sheet, its amount as a decimal number. */
  datatype Line = Line(address: nat, shown: Dec)

  /** `sheet_amount`: the amount in atto and its tolerance, or None where it raises. A minus sign before zero is accepted,
      and zeros after the eighteenth decimal are not. */
  function SheetAmount(d: Dec): (r: Option<(nat, nat)>)
    ensures r.Some? <==> (!d.negative || d.coef == 0) && d.exp >= -18
    ensures r.Some? ==> Exactly(d, r.value.0)
  {
    if (d.negative && d.coef > 0) || d.exp < -18 then None
    else Some((d.coef * Pow10(18 + d.exp), Pow10(18 + d.exp) / 2))
  }

  function ReadLine(line: Line): Option<SheetRow>
  {
    match SheetAmount(line.shown)
    case None => None
    case Some((amount, tolerance)) => Some(SheetRow(line.address, amount, tolerance))
  }

  /** The rows are the lines, one by one. */
  predicate Reads(lines: seq<Line>, sheet: seq<SheetRow>)
  {
    |sheet| == |lines| && forall i :: 0 <= i < |lines| ==> ReadLine(lines[i]) == Some(sheet[i])
  }

  /** A sheet without lines, or with a line that cannot be read, is refused. */
  method ReadSheet(lines: seq<Line>) returns (r: Option<seq<SheetRow>>)
    ensures r.None? <==> lines == [] || exists line :: line in lines && ReadLine(line) == None
    ensures r.Some? ==> Reads(lines, r.value)
  {
    var rows := [];
    for i := 0 to |lines|
      invariant Reads(lines[..i], rows)
    {
      match ReadLine(lines[i])
      case None => return None;
      case Some(row) => rows := rows + [row];
    }
    assert lines[..|lines|] == lines;
    r := if rows == [] then None else Some(rows);
  }

  /** An amount that the decimal number can be the rounding of: at most half a unit of its last decimal away. */
  ghost predicate RoundsTo(x: nat, d: Dec)
  {
    && d.exp >= -18
    && var unit := Pow10(18 + d.exp);
       2 * (d.coef * unit) <= 2 * x + unit && 2 * x <= 2 * (d.coef * unit) + unit
  }

  lemma CloseIff(line: Line, x: nat)
    requires ReadLine(line).Some?
    ensures Close(x, ReadLine(line).value) <==> RoundsTo(x, line.shown)
  {
    hide Pow10, Exactly;
    var unit := Pow10(18 + line.shown.exp);
    DivideAndRest(unit, 2);
  }

  function Wallets(sheet: seq<SheetRow>): set<nat> { set r | r in sheet :: r.address }

  function Listed(ps: seq<Proposal>): seq<Transfer>
  {
    if ps == [] then [] else ps[0].transfers + Listed(ps[1..])
  }

  // ----- choosing the transactions to check

  predicate PaysAny(p: Proposal, wallets: set<nat>) { exists t :: t in p.transfers && t.to in wallets }

  /** The transactions named by their hashes or, when none is named, the queued ones that pay a wallet of the sheet. */
  predicate IsTarget(p: Proposal, next: nat, wallets: set<nat>, named: set<nat>)
  {
    if named != {} then p.hash in named else !p.executed && p.nonce >= next && PaysAny(p, wallets)
  }

  function Targets(ps: seq<Proposal>, next: nat, wallets: set<nat>, named: set<nat>): seq<Proposal>
  {
    if ps == [] then []
    else (if IsTarget(ps[0], next, wallets, named) then [ps[0]] else []) + Targets(ps[1..], next, wallets, named)
  }

  lemma {:induction false} TargetsIff(ps: seq<Proposal>, next: nat, wallets: set<nat>, named: set<nat>, p: Proposal)
    ensures p in Targets(ps, next, wallets, named) <==> p in ps && IsTarget(p, next, wallets, named)
  {
    hide IsTarget;
    if ps != [] {
      TargetsIff(ps[1..], next, wallets, named, p);
      assert ps == [ps[0]] + ps[1..];
    }
  }

  predicate OnePerNonce(targets: seq<Proposal>)
  {
    forall i, j :: 0 <= i < j < |targets| ==> targets[i].nonce != targets[j].nonce
  }

  // ----- what each check means

  /** The transfers name no address twice. */
  predicate NoneTwice(ts: seq<Transfer>)
  {
    ts == [] || ((forall t :: t in ts[1..] ==> t.to != ts[0].to) && NoneTwice(ts[1..]))
  }

  predicate NoRowTwice(sheet: seq<SheetRow>)
  {
    sheet == [] || ((forall r :: r in sheet[1..] ==> r.address != sheet[0].address) && NoRowTwice(sheet[1..]))
  }

  predicate Plain(targets: seq<Proposal>, next: nat)
  {
    forall p :: p in targets ==> !p.unreadable && !p.other && (p.executed || p.nonce >= next)
  }

  /** Check 1: the targets pay exactly the sheet. */
  predicate PaysSheet(targets: seq<Proposal>, sheet: seq<SheetRow>, next: nat)
  {
    var ts := Listed(targets);
    && Plain(targets, next) && NoneTwice(ts) && NoRowTwice(sheet)
    && (forall t :: t in ts ==> exists r :: r in sheet && r.address == t.to && Close(t.amount, r))
    && (forall r :: r in sheet ==> exists t :: t in ts && t.to == r.address)
  }

  /** Checks 2 and 3: readable, and pays none of `everyone`. */
  predicate Spares(ps: seq<Proposal>, everyone: set<nat>)
  {
    && (forall p :: p in ps ==> !p.unreadable)
    && (forall t :: t in Listed(ps) ==> t.to !in everyone)
  }

  /** Check 2 counts only what was executed and did not fail, but must be able to read all of it. */
  predicate SparedBefore(executed: seq<Proposal>, everyone: set<nat>)
  {
    && (forall p :: p in executed ==> !p.unreadable)
    && (forall t :: t in Listed(Successful(executed)) ==> t.to !in everyone)
  }

  function Executed(ps: seq<Proposal>, chosen: set<nat>): seq<Proposal>
  {
    if ps == [] then [] else (if ps[0].executed && ps[0].hash !in chosen then [ps[0]] else []) + Executed(ps[1..], chosen)
  }

  function Queued(ps: seq<Proposal>, chosen: set<nat>, next: nat): seq<Proposal>
  {
    if ps == [] then []
    else (if !ps[0].executed && ps[0].nonce >= next && ps[0].hash !in chosen then [ps[0]] else []) + Queued(ps[1..], chosen, next)
  }

  function Successful(ps: seq<Proposal>): seq<Proposal>
  {
    if ps == [] then [] else (if ps[0].successful then [ps[0]] else []) + Successful(ps[1..])
  }

  // ----- the checks as they are computed

  lemma {:induction false} NoneTwiceAppend(u: seq<Transfer>, t: Transfer)
    ensures NoneTwice(u + [t]) <==> NoneTwice(u) && t.to !in Recipients(u)
  {
    if u == [] {
      assert u + [t] == [t] && [t][1..] == [];
    } else {
      var rest := u[1..];
      NoneTwiceAppend(rest, t);
      assert (u + [t])[1..] == rest + [t] && (u + [t])[0] == u[0];
      assert u == [u[0]] + rest;
      assert Recipients(u) == {u[0].to} + Recipients(rest);
      assert forall x :: x in rest + [t] <==> x in rest || x == t;
    }
  }

  lemma {:induction false} NoRowTwiceAppend(u: seq<SheetRow>, r: SheetRow)
    ensures NoRowTwice(u + [r]) <==> NoRowTwice(u) && r.address !in Wallets(u)
  {
    if u == [] {
      assert u + [r] == [r] && [r][1..] == [];
    } else {
      var rest := u[1..];
      NoRowTwiceAppend(rest, r);
      assert (u + [r])[1..] == rest + [r] && (u + [r])[0] == u[0];
      assert u == [u[0]] + rest;
      assert Wallets(u) == {u[0].address} + Wallets(rest);
      assert forall x :: x in rest + [r] <==> x in rest || x == r;
    }
  }

  /** The dictionary `paid`, and whether some address came up again. */
  method CollectPaid(ts: seq<Transfer>) returns (paid: map<nat, nat>, twice: bool)
    ensures twice <==> !NoneTwice(ts)
    ensures paid.Keys == Recipients(ts)
    ensures !twice ==> forall t :: t in ts ==> paid[t.to] == t.amount
  {
    hide NoneTwice;
    paid, twice := map[], false;
    NothingTwice();
    var i := 0;
    while i < |ts|
      invariant i <= |ts| && (twice <==> !NoneTwice(ts[..i])) && paid.Keys == Recipients(ts[..i])
      invariant !twice ==> forall t :: t in ts[..i] ==> paid[t.to] == t.amount
    {
      NoneTwiceAppend(ts[..i], ts[i]);
      assert ts[..i + 1] == ts[..i] + [ts[i]];
      if ts[i].to in paid {
        twice := true;
      } else {
        paid := paid[ts[i].to := ts[i].amount];
      }
      i := i + 1;
    }
    assert ts[..i] == ts;
  }

  lemma NothingTwice()
    ensures NoneTwice([]) && NoRowTwice([])
  {
  }

  /** The dictionary `rows_by_address`. */
  method CollectRows(sheet: seq<SheetRow>) returns (rows: map<nat, SheetRow>, twice: bool)
    ensures twice <==> !NoRowTwice(sheet)
    ensures rows.Keys == Wallets(sheet)
    ensures forall a :: a in rows ==> rows[a] in sheet && rows[a].address == a
    ensures !twice ==> forall r :: r in sheet ==> rows[r.address] == r
  {
    hide NoRowTwice;
    rows, twice := map[], false;
    NothingTwice();
    var i := 0;
    while i < |sheet|
      invariant i <= |sheet| && (twice <==> !NoRowTwice(sheet[..i])) && rows.Keys == Wallets(sheet[..i])
      invariant forall a :: a in rows ==> rows[a] in sheet && rows[a].address == a
      invariant !twice ==> forall r :: r in sheet[..i] ==> rows[r.address] == r
    {
      NoRowTwiceAppend(sheet[..i], sheet[i]);
      assert sheet[..i + 1] == sheet[..i] + [sheet[i]];
      if sheet[i].address in rows {
        twice := true;
      } else {
        rows := rows[sheet[i].address := sheet[i]];
      }
      i := i + 1;
    }
    assert sheet[..i] == sheet;
  }

  method CheckSheet(targets: seq<Proposal>, sheet: seq<SheetRow>, next: nat) returns (ok: bool, everyone: set<nat>)
    ensures ok <==> PaysSheet(targets, sheet, next)
    ensures everyone == Recipients(Listed(targets)) + Wallets(sheet)
  {
    hide NoneTwice, NoRowTwice, Listed, Plain, Close;
    var ts := Listed(targets);
    var paid, paidTwice := CollectPaid(ts);
    var rows, listedTwice := CollectRows(sheet);
    var equal := forall a :: a in paid ==> a in rows && Close(paid[a], rows[a]);
    var unpaid := rows.Keys - paid.Keys;
    ok := Plain(targets, next) && !paidTwice && !listedTwice && equal && unpaid == {};
    everyone := paid.Keys + unpaid;
    if !paidTwice && !listedTwice {
      EqualIff(ts, sheet, paid, rows);
      UnpaidIff(ts, sheet);
    }
  }

  lemma EqualIff(ts: seq<Transfer>, sheet: seq<SheetRow>, paid: map<nat, nat>, rows: map<nat, SheetRow>)
    requires paid.Keys == Recipients(ts) && (forall t :: t in ts ==> paid[t.to] == t.amount)
    requires rows.Keys == Wallets(sheet) && (forall r :: r in sheet ==> rows[r.address] == r)
    ensures (forall a :: a in paid ==> a in rows && Close(paid[a], rows[a]))
       <==> (forall t :: t in ts ==> exists r :: r in sheet && r.address == t.to && Close(t.amount, r))
  {
    hide Close;
    if forall a :: a in paid ==> a in rows && Close(paid[a], rows[a]) {
      forall t | t in ts ensures exists r :: r in sheet && r.address == t.to && Close(t.amount, r) {
        assert t.to in paid;
        var r :| r in sheet && r.address == t.to;
        assert rows[t.to] == r;
      }
    }
    if forall t :: t in ts ==> exists r :: r in sheet && r.address == t.to && Close(t.amount, r) {
      forall a | a in paid ensures a in rows && Close(paid[a], rows[a]) {
        var t :| t in ts && t.to == a;
        var r :| r in sheet && r.address == t.to && Close(t.amount, r);
      }
    }
  }

  lemma UnpaidIff(ts: seq<Transfer>, sheet: seq<SheetRow>)
    ensures Wallets(sheet) - Recipients(ts) == {} <==> (forall r :: r in sheet ==> exists t :: t in ts && t.to == r.address)
  {
    if Wallets(sheet) - Recipients(ts) == {} {
      forall r | r in sheet ensures exists t :: t in ts && t.to == r.address {
        assert r.address in Wallets(sheet);
        assert r.address !in Wallets(sheet) - Recipients(ts);
      }
    }
    if forall r :: r in sheet ==> exists t :: t in ts && t.to == r.address {
      assert Wallets(sheet) <= Recipients(ts);
    }
  }

  method CheckHistory(executed: seq<Proposal>, everyone: set<nat>) returns (ok: bool)
    ensures ok <==> SparedBefore(executed, everyone)
  {
    hide Listed, Successful, Recipients;
    NothingListed();
    var readable, before := true, {};
    var i := 0;
    while i < |executed|
      invariant i <= |executed| && (readable <==> forall p :: p in executed[..i] ==> !p.unreadable)
      invariant Recipients(Listed(Successful(executed))) == before + Recipients(Listed(Successful(executed[i..])))
    {
      SuccessfulFirst(executed[i..]);
      assert executed[i..][1..] == executed[i + 1..] && executed[..i + 1] == executed[..i] + [executed[i]];
      readable := readable && !executed[i].unreadable;
      if executed[i].successful {
        before := before + Recipients(executed[i].transfers);
      }
      i := i + 1;
    }
    assert executed[..i] == executed && executed[i..] == [];
    ok := readable && before * everyone == {};
    OverlapIff(Listed(Successful(executed)), everyone);
  }

  method CheckQueue(queued: seq<Proposal>, everyone: set<nat>) returns (ok: bool)
    ensures ok <==> Spares(queued, everyone)
  {
    hide Listed, Recipients;
    NothingListed();
    var readable, elsewhere := true, {};
    var i := 0;
    while i < |queued|
      invariant i <= |queued| && (readable <==> forall p :: p in queued[..i] ==> !p.unreadable)
      invariant Recipients(Listed(queued)) == elsewhere + Recipients(Listed(queued[i..]))
    {
      ListedFirst(queued[i..]);
      assert queued[i..][1..] == queued[i + 1..] && queued[..i + 1] == queued[..i] + [queued[i]];
      readable := readable && !queued[i].unreadable;
      elsewhere := elsewhere + Recipients(queued[i].transfers);
      i := i + 1;
    }
    assert queued[..i] == queued && queued[i..] == [];
    ok := readable && elsewhere * everyone == {};
    OverlapIff(Listed(queued), everyone);
  }

  lemma NothingListed()
    ensures Recipients(Listed([])) == {} && Recipients(Listed(Successful([]))) == {}
  {
  }

  lemma ListedFirst(ps: seq<Proposal>)
    requires ps != []
    ensures Recipients(Listed(ps)) == Recipients(ps[0].transfers) + Recipients(Listed(ps[1..]))
  {
    assert forall t :: t in Listed(ps) <==> t in ps[0].transfers || t in Listed(ps[1..]);
  }

  lemma SuccessfulFirst(ps: seq<Proposal>)
    requires ps != []
    ensures Recipients(Listed(Successful(ps)))
         == (if ps[0].successful then Recipients(ps[0].transfers) else {}) + Recipients(Listed(Successful(ps[1..])))
  {
    var rest := Successful(ps[1..]);
    if ps[0].successful {
      assert Successful(ps) == [ps[0]] + rest && ([ps[0]] + rest)[1..] == rest;
      ListedFirst([ps[0]] + rest);
    } else {
      assert Successful(ps) == rest;
    }
  }

  lemma OverlapIff(ts: seq<Transfer>, everyone: set<nat>)
    ensures Recipients(ts) * everyone == {} <==> forall t :: t in ts ==> t.to !in everyone
  {
    if Recipients(ts) * everyone == {} {
      forall t | t in ts ensures t.to !in everyone {
        assert t.to in Recipients(ts);
        assert t.to !in Recipients(ts) * everyone;
      }
    }
  }

  datatype Verdict = Unknown | NoTargets | Competing | Checked(sheetOk: bool, historyOk: bool, queueOk: bool)

  function Hashes(ps: seq<Proposal>): set<nat> { set p | p in ps :: p.hash }

  /** Checks 1 to 3 of the chosen transactions. */
  predicate Holds(ps: seq<Proposal>, next: nat, sheet: seq<SheetRow>, targets: seq<Proposal>)
  {
    var everyone := Recipients(Listed(targets)) + Wallets(sheet);
    && PaysSheet(targets, sheet, next)
    && SparedBefore(Executed(ps, Hashes(targets)), everyone)
    && Spares(Queued(ps, Hashes(targets), next), everyone)
  }

  predicate Passes(ps: seq<Proposal>, next: nat, sheet: seq<SheetRow>, named: set<nat>)
  {
    var targets := Targets(ps, next, Wallets(sheet), named);
    && named <= Hashes(targets) && targets != [] && OnePerNonce(targets)
    && Holds(ps, next, sheet, targets)
  }

  method Check(ps: seq<Proposal>, next: nat, sheet: seq<SheetRow>, named: set<nat>) returns (v: Verdict)
    ensures v == Checked(true, true, true) <==> Passes(ps, next, sheet, named)
    ensures v == Unknown <==> exists h :: h in named && forall p :: p in ps ==> p.hash != h
  {
    hide Targets, PaysSheet, SparedBefore, Spares, OnePerNonce, Executed, Queued, Listed, Recipients, Wallets;
    var targets := Targets(ps, next, Wallets(sheet), named);
    MissingIff(ps, next, Wallets(sheet), named);
    var chosen := Hashes(targets);
    hide Hashes;
    if !(named <= chosen) {
      return Unknown;
    }
    if targets == [] {
      return NoTargets;
    }
    if !OnePerNonce(targets) {
      return Competing;
    }
    var one, everyone := CheckSheet(targets, sheet, next);
    var two := CheckHistory(Executed(ps, chosen), everyone);
    var three := CheckQueue(Queued(ps, chosen, next), everyone);
    v := Checked(one, two, three);
  }

  lemma MissingIff(ps: seq<Proposal>, next: nat, wallets: set<nat>, named: set<nat>)
    ensures named <= Hashes(Targets(ps, next, wallets, named)) <==> forall h :: h in named ==> exists p :: p in ps && p.hash == h
  {
    hide Targets;
    var targets := Targets(ps, next, wallets, named);
    forall p ensures p in targets <==> p in ps && IsTarget(p, next, wallets, named) {
      TargetsIff(ps, next, wallets, named, p);
    }
    if named <= Hashes(targets) {
      forall h | h in named ensures exists p :: p in ps && p.hash == h {
        assert h in Hashes(targets);
      }
    }
  }

  // ----- what the Safe really does

  /** What each proposal moves when it is executed and works. */
  type Chain = Proposal -> seq<Transfer>

  /** The chain agrees with a record that can be trusted and is plain transfers only; it may do anything for the others. */
  predicate Faithful(chain: Chain, p: Proposal)
  {
    !p.unreadable && !p.other ==> chain(p) == p.transfers
  }

  ghost predicate AllFaithful(chain: Chain, ps: seq<Proposal>)
  {
    forall p :: p in ps ==> Faithful(chain, p)
  }

  /** One step of the Safe: a proposal is executed, and either works or fails. */
  datatype Step = Step(p: Proposal, works: bool)

  /** A course the Safe can take from here: one known proposal for each nonce, in order. */
  predicate Course(ps: seq<Proposal>, next: nat, run: seq<Step>)
  {
    forall i :: 0 <= i < |run| ==> run[i].p in ps && !run[i].p.executed && run[i].p.nonce == next + i
  }

  /** The targets still queued are executed, and work. */
  predicate Executes(run: seq<Step>, targets: seq<Proposal>)
  {
    forall p :: p in targets && !p.executed ==> Step(p, true) in run
  }

  /** What the Safe has executed so far. */
  function Done(ps: seq<Proposal>): seq<Step>
  {
    if ps == [] then [] else (if ps[0].executed then [Step(ps[0], ps[0].successful)] else []) + Done(ps[1..])
  }

  function Effect(chain: Chain, s: Step): seq<Transfer> { if s.works then chain(s.p) else [] }

  function Payments(chain: Chain, steps: seq<Step>): seq<Transfer>
  {
    if steps == [] then [] else Effect(chain, steps[0]) + Payments(chain, steps[1..])
  }

  predicate DistinctHashes(ps: seq<Proposal>)
  {
    forall i, j :: 0 <= i < j < |ps| ==> ps[i].hash != ps[j].hash
  }

  /** A proposal with other calls pays the address by something the record does not list. */
  ghost predicate Unlisted(chain: Chain, p: Proposal, a: nat)
  {
    p.other && exists t :: t in chain(p) && t.to == a && t !in p.transfers
  }

  ghost predicate PaysAside(chain: Chain, s: Step, a: nat) { s.works && Unlisted(chain, s.p, a) }

  ghost predicate Aside(chain: Chain, steps: seq<Step>, a: nat)
  {
    exists s :: s in steps && PaysAside(chain, s, a)
  }

  /** The address is paid by a target that was executed and failed. */
  predicate InFailed(targets: seq<Proposal>, a: nat)
  {
    exists p :: p in targets && p.executed && !p.successful && exists t :: t in p.transfers && t.to == a
  }

  lemma {:induction false} NoStepPays(chain: Chain, steps: seq<Step>, a: nat)
    requires forall i :: 0 <= i < |steps| ==> To(a, Effect(chain, steps[i])) == []
    ensures To(a, Payments(chain, steps)) == []
  {
    if steps != [] {
      var rest := steps[1..];
      assert forall i :: 0 <= i < |rest| ==> rest[i] == steps[i + 1];
      NoStepPays(chain, rest, a);
      ToConcat(a, Effect(chain, steps[0]), Payments(chain, rest));
    }
  }

  lemma {:induction false} OneStepPays(chain: Chain, steps: seq<Step>, a: nat, k: nat, x: nat)
    requires k < |steps| && To(a, Effect(chain, steps[k])) == [x]
    requires forall i :: 0 <= i < |steps| && i != k ==> To(a, Effect(chain, steps[i])) == []
    ensures To(a, Payments(chain, steps)) == [x]
  {
    hide To, Effect;
    var rest := steps[1..];
    assert forall i :: 0 <= i < |rest| ==> rest[i] == steps[i + 1];
    ToConcat(a, Effect(chain, steps[0]), Payments(chain, rest));
    if k == 0 {
      NoStepPays(chain, rest, a);
    } else {
      OneStepPays(chain, rest, a, k - 1, x);
    }
  }

  lemma {:induction false} SomeStepPays(chain: Chain, steps: seq<Step>, a: nat, k: nat)
    requires k < |steps| && To(a, Effect(chain, steps[k])) != []
    ensures To(a, Payments(chain, steps)) != []
  {
    hide To, Effect;
    ToConcat(a, Effect(chain, steps[0]), Payments(chain, steps[1..]));
    if k > 0 {
      SomeStepPays(chain, steps[1..], a, k - 1);
    }
  }

  lemma {:induction false} TwoStepsPay(chain: Chain, steps: seq<Step>, a: nat, i: nat, k: nat)
    requires i < k < |steps| && To(a, Effect(chain, steps[i])) != [] && To(a, Effect(chain, steps[k])) != []
    ensures |To(a, Payments(chain, steps))| >= 2
  {
    hide To, Effect;
    ToConcat(a, Effect(chain, steps[0]), Payments(chain, steps[1..]));
    if i == 0 {
      SomeStepPays(chain, steps[1..], a, k - 1);
    } else {
      TwoStepsPay(chain, steps[1..], a, i - 1, k - 1);
    }
  }

  // ----- what a pass means

  lemma {:induction false} OneTarget(targets: seq<Proposal>, a: nat) returns (j: nat, x: nat)
    requires NoneTwice(Listed(targets)) && exists t :: t in Listed(targets) && t.to == a
    ensures j < |targets| && To(a, targets[j].transfers) == [x] && Transfer(a, x) in Listed(targets)
    ensures forall i :: 0 <= i < |targets| && i != j ==> To(a, targets[i].transfers) == []
  {
    var here, rest := targets[0].transfers, Listed(targets[1..]);
    NoneTwiceSplit(here, rest);
    ToNone(a, here);
    ToNone(a, rest);
    if exists t :: t in here && t.to == a {
      j := 0;
      x := OnePayment(here, a);
      forall i | 1 <= i < |targets| ensures To(a, targets[i].transfers) == [] {
        LaterTransfers(targets[1..], i - 1);
        ToNone(a, targets[i].transfers);
      }
    } else {
      var k;
      k, x := OneTarget(targets[1..], a);
      j := k + 1;
      assert forall i :: 1 <= i < |targets| ==> targets[i] == targets[1..][i - 1];
    }
  }

  lemma {:induction false} LaterTransfers(ps: seq<Proposal>, i: nat)
    requires i < |ps|
    ensures forall t :: t in ps[i].transfers ==> t in Listed(ps)
  {
    if i > 0 {
      LaterTransfers(ps[1..], i - 1);
    }
  }

  lemma {:induction false} NoneTwiceSplit(u: seq<Transfer>, v: seq<Transfer>)
    requires NoneTwice(u + v)
    ensures NoneTwice(u) && NoneTwice(v) && forall s, t :: s in u && t in v ==> s.to != t.to
  {
    if u == [] {
      assert u + v == v;
    } else {
      assert (u + v)[1..] == u[1..] + v;
      NoneTwiceSplit(u[1..], v);
      assert forall t :: t in v ==> t in u[1..] + v;
      assert forall t :: t in u[1..] ==> t in u[1..] + v;
    }
  }

  lemma {:induction false} OnePayment(ts: seq<Transfer>, a: nat) returns (x: nat)
    requires NoneTwice(ts) && exists t :: t in ts && t.to == a
    ensures To(a, ts) == [x] && Transfer(a, x) in ts
  {
    ToNone(a, ts[1..]);
    if ts[0].to == a {
      x := ts[0].amount;
    } else {
      x := OnePayment(ts[1..], a);
    }
  }

  lemma SameHash(ps: seq<Proposal>, p: Proposal, q: Proposal)
    requires DistinctHashes(ps) && p in ps && q in ps && p.hash == q.hash
    ensures p == q
  {
  }

  lemma {:induction false} SameRow(sheet: seq<SheetRow>, r: SheetRow, s: SheetRow)
    requires NoRowTwice(sheet) && r in sheet && s in sheet && r.address == s.address
    ensures r == s
  {
    if r in sheet[1..] && s in sheet[1..] {
      SameRow(sheet[1..], r, s);
    }
  }

  lemma {:induction false} ExecutedHas(ps: seq<Proposal>, chosen: set<nat>, p: Proposal)
    requires p in ps && p.executed && p.hash !in chosen
    ensures p in Executed(ps, chosen)
  {
    if p != ps[0] {
      ExecutedHas(ps[1..], chosen, p);
    }
  }

  lemma {:induction false} QueuedHas(ps: seq<Proposal>, chosen: set<nat>, next: nat, p: Proposal)
    requires p in ps && !p.executed && p.nonce >= next && p.hash !in chosen
    ensures p in Queued(ps, chosen, next)
  {
    if p != ps[0] {
      QueuedHas(ps[1..], chosen, next, p);
    }
  }

  lemma {:induction false} SuccessfulHas(ps: seq<Proposal>, p: Proposal)
    requires p in ps && p.successful
    ensures p in Successful(ps)
  {
    if p != ps[0] {
      SuccessfulHas(ps[1..], p);
    }
  }

  lemma ListedHas(ps: seq<Proposal>, p: Proposal)
    requires p in ps
    ensures forall t :: t in p.transfers ==> t in Listed(ps)
  {
    hide Listed;
    var i: nat :| i < |ps| && ps[i] == p;
    LaterTransfers(ps, i);
  }

  /** A transaction that is no target has no target's hash. */
  lemma OtherHash(ps: seq<Proposal>, targets: seq<Proposal>, p: Proposal)
    requires DistinctHashes(ps) && (forall q :: q in targets ==> q in ps) && p in ps && p !in targets
    ensures p.hash !in Hashes(targets)
  {
    hide DistinctHashes;
    if p.hash in Hashes(targets) {
      var t :| t in targets && t.hash == p.hash;
      SameHash(ps, p, t);
    }
  }

  /** What checks 2 and 3 say of one transaction that is no target: it can be read, and lists no payment to `a`. */
  lemma ChecksSay(ps: seq<Proposal>, next: nat, sheet: seq<SheetRow>, targets: seq<Proposal>, p: Proposal, a: nat)
    requires DistinctHashes(ps) && Holds(ps, next, sheet, targets) && forall q :: q in targets ==> q in ps
    requires p in ps && p !in targets && (if p.executed then p.successful else p.nonce >= next) && a in Wallets(sheet)
    ensures !p.unreadable && forall t :: t in p.transfers ==> t.to != a
  {
    hide Listed, DistinctHashes, Executed, Queued, Successful, Hashes, PaysSheet, Wallets, Recipients;
    var chosen := Hashes(targets);
    OtherHash(ps, targets, p);
    if p.executed {
      ExecutedHas(ps, chosen, p);
      SuccessfulHas(Executed(ps, chosen), p);
      ListedHas(Successful(Executed(ps, chosen)), p);
    } else {
      QueuedHas(ps, chosen, next, p);
      ListedHas(Queued(ps, chosen, next), p);
    }
  }

  /** A readable transaction that lists nothing for `a` pays it nothing, unless it does so aside. */
  lemma SilentIff(chain: Chain, p: Proposal, a: nat)
    requires Faithful(chain, p) && !p.unreadable && forall t :: t in p.transfers ==> t.to != a
    ensures To(a, chain(p)) == [] <==> !Unlisted(chain, p, a)
  {
    hide To;
    ToNone(a, chain(p));
  }

  /** The target that pays a row, by how much, and that no other does. */
  lemma TargetOf(targets: seq<Proposal>, sheet: seq<SheetRow>, next: nat, row: SheetRow) returns (p: Proposal, x: nat)
    requires PaysSheet(targets, sheet, next) && row in sheet
    ensures p in targets && To(row.address, p.transfers) == [x] && Close(x, row)
    ensures forall q :: q in targets && q != p ==> To(row.address, q.transfers) == []
    ensures forall q :: q in targets ==> !q.other && !q.unreadable && (q.executed || q.nonce >= next)
  {
    assert forall q :: q in targets ==> !q.other && !q.unreadable && (q.executed || q.nonce >= next) by {
      hide Listed, NoneTwice, NoRowTwice, Close;
    }
    hide To, Listed, NoneTwice, NoRowTwice, Close, PaysSheet;
    PaidByOne(targets, sheet, next, row);
    var j;
    j, x := OneTarget(targets, row.address);
    p := targets[j];
    var r := Matching(targets, sheet, next, Transfer(row.address, x));
    SameRow(sheet, r, row);
  }

  lemma PaidByOne(targets: seq<Proposal>, sheet: seq<SheetRow>, next: nat, row: SheetRow)
    requires PaysSheet(targets, sheet, next) && row in sheet
    ensures NoneTwice(Listed(targets)) && NoRowTwice(sheet) && exists t :: t in Listed(targets) && t.to == row.address
  {
    hide Listed, NoneTwice, NoRowTwice, Close;
  }

  lemma Matching(targets: seq<Proposal>, sheet: seq<SheetRow>, next: nat, t: Transfer) returns (r: SheetRow)
    requires PaysSheet(targets, sheet, next) && t in Listed(targets)
    ensures r in sheet && r.address == t.to && Close(t.amount, r)
  {
    hide Listed, NoneTwice, NoRowTwice, Close;
    r :| r in sheet && r.address == t.to && Close(t.amount, r);
  }

  lemma InFailedIff(targets: seq<Proposal>, p: Proposal, a: nat)
    requires p in targets && To(a, p.transfers) != [] && forall q :: q in targets && q != p ==> To(a, q.transfers) == []
    ensures InFailed(targets, a) <==> p.executed && !p.successful
  {
    hide To;
    forall q | q in targets ensures To(a, q.transfers) == [] <==> forall t :: t in q.transfers ==> t.to != a {
      ToNone(a, q.transfers);
    }
  }

  // ----- the steps of the Safe, past and coming

  lemma {:induction false} DoneIff(ps: seq<Proposal>, s: Step)
    ensures s in Done(ps) <==> s.p in ps && s.p.executed && s.works == s.p.successful
  {
    if ps != [] {
      DoneIff(ps[1..], s);
      assert ps == [ps[0]] + ps[1..];
    }
  }

  /** No proposal comes twice. */
  ghost predicate EachOnce(steps: seq<Step>)
  {
    forall i, j :: 0 <= i < j < |steps| ==> steps[i].p != steps[j].p
  }

  lemma {:induction false} DoneOnce(ps: seq<Proposal>)
    requires DistinctHashes(ps)
    ensures EachOnce(Done(ps))
  {
    if ps != [] {
      var rest := Done(ps[1..]);
      DoneOnce(ps[1..]);
      if ps[0].executed {
        forall j | 0 <= j < |rest| ensures rest[j].p != ps[0] {
          DoneIff(ps[1..], rest[j]);
        }
        assert Done(ps) == [Step(ps[0], ps[0].successful)] + rest;
      } else {
        assert Done(ps) == rest;
      }
    }
  }

  lemma StepsOnce(ps: seq<Proposal>, next: nat, run: seq<Step>)
    requires DistinctHashes(ps) && Course(ps, next, run)
    ensures EachOnce(Done(ps) + run)
  {
    hide Done, DistinctHashes;
    DoneOnce(ps);
    var done := Done(ps);
    forall i, j | 0 <= i < j < |done + run| ensures (done + run)[i].p != (done + run)[j].p {
      if i < |done| {
        DoneIff(ps, done[i]);
      }
    }
  }

  lemma StepKnown(ps: seq<Proposal>, next: nat, run: seq<Step>, s: Step)
    requires Course(ps, next, run) && s in Done(ps) + run
    ensures s.p in ps && (if s.p.executed then s.works == s.p.successful else s.p.nonce >= next)
  {
    hide Done;
    DoneIff(ps, s);
  }

  /** Where a target is among them. */
  lemma TargetStep(ps: seq<Proposal>, targets: seq<Proposal>, run: seq<Step>, p: Proposal) returns (k: nat)
    requires p in targets && p in ps && Executes(run, targets)
    ensures k < |Done(ps) + run| && (Done(ps) + run)[k] == Step(p, p.executed ==> p.successful)
  {
    hide Done;
    var s := Step(p, p.executed ==> p.successful);
    DoneIff(ps, s);
    assert s in Done(ps) + run;
    k :| k < |Done(ps) + run| && (Done(ps) + run)[k] == s;
  }

  /** Any other step pays `a` only aside. */
  lemma OtherStep(chain: Chain, ps: seq<Proposal>, next: nat, sheet: seq<SheetRow>, targets: seq<Proposal>, s: Step, a: nat)
    requires AllFaithful(chain, ps) && DistinctHashes(ps) && Holds(ps, next, sheet, targets) && a in Wallets(sheet)
    requires forall q :: q in targets ==> q in ps && !q.other && !q.unreadable
    requires s.p in ps && (if s.p.executed then s.works == s.p.successful else s.p.nonce >= next)
    requires s.p in targets ==> To(a, s.p.transfers) == []
    ensures To(a, Effect(chain, s)) == [] <==> !PaysAside(chain, s, a)
  {
    hide To, Holds, Wallets, DistinctHashes, Unlisted;
    assert Faithful(chain, s.p);
    ToNone(a, []);
    if s.p in targets {
      NotAside(chain, s.p, a);
    } else if s.works {
      ChecksSay(ps, next, sheet, targets, s.p, a);
      SilentIff(chain, s.p, a);
    }
  }

  lemma NotAside(chain: Chain, p: Proposal, a: nat)
    requires !p.other
    ensures !Unlisted(chain, p, a)
  {
  }

  /** One step's own payment and the others', from what each pays. */
  lemma AllSteps(chain: Chain, steps: seq<Step>, a: nat, k: nat)
    requires k < |steps| && !PaysAside(chain, steps[k], a)
    requires forall i :: 0 <= i < |steps| && i != k ==> (To(a, Effect(chain, steps[i])) == [] <==> !PaysAside(chain, steps[i], a))
    ensures To(a, Effect(chain, steps[k])) == [] ==> (To(a, Payments(chain, steps)) == [] <==> !Aside(chain, steps, a))
    ensures |To(a, Effect(chain, steps[k]))| == 1 ==>
              if Aside(chain, steps, a) then |To(a, Payments(chain, steps))| >= 2
              else To(a, Payments(chain, steps)) == To(a, Effect(chain, steps[k]))
  {
    hide To, Effect, Payments, PaysAside;
    if s :| s in steps && PaysAside(chain, s, a) {
      var i: nat :| i < |steps| && steps[i] == s;
      SomeStepPays(chain, steps, a, i);
      if To(a, Effect(chain, steps[k])) != [] {
        TwoStepsPay(chain, steps, a, if i < k then i else k, if i < k then k else i);
      }
    } else {
      assert forall i :: 0 <= i < |steps| ==> steps[i] in steps;
      if To(a, Effect(chain, steps[k])) == [] {
        NoStepPays(chain, steps, a);
      } else if |To(a, Effect(chain, steps[k]))| == 1 {
        OneStepPays(chain, steps, a, k, To(a, Effect(chain, steps[k]))[0]);
      }
    }
  }

  /** One payment to the line's wallet, of an amount that the line shows rounded. */
  ghost predicate PaidOneRounding(line: Line, ts: seq<Transfer>)
  {
    exists x: nat :: To(line.address, ts) == [x] && RoundsTo(x, line.shown)
  }

  /** A course of the Safe in which the checked payment is executed. */
  ghost predicate Goes(chain: Chain, ps: seq<Proposal>, next: nat, targets: seq<Proposal>, run: seq<Step>)
  {
    AllFaithful(chain, ps) && DistinctHashes(ps) && Course(ps, next, run) && Executes(run, targets)
  }

  /** A pass is a promise about everything the Safe has paid and will pay, whatever the chain does where a record is more
      than plain transfers. Take a wallet of the sheet that is not in a named transaction that failed: it is paid exactly
      once, by an amount the sheet's is the rounding of, exactly when no transaction pays it by a call that its record
      does not list. A wallet in a failed one is paid nothing, again unless it is paid aside. */
  lemma PaidOnceIff(chain: Chain, ps: seq<Proposal>, next: nat, lines: seq<Line>, sheet: seq<SheetRow>, named: set<nat>, run: seq<Step>, line: Line)
    requires Reads(lines, sheet) && line in lines && Passes(ps, next, sheet, named)
    requires Goes(chain, ps, next, Targets(ps, next, Wallets(sheet), named), run)
    ensures var steps := Done(ps) + run;
            var failed := InFailed(Targets(ps, next, Wallets(sheet), named), line.address);
            && (failed ==> (To(line.address, Payments(chain, steps)) == [] <==> !Aside(chain, steps, line.address)))
            && (!failed ==> (PaidOneRounding(line, Payments(chain, steps)) <==> !Aside(chain, steps, line.address)))
  {
    hide To, Targets, Payments, Unlisted, Close, AllFaithful, SheetAmount, RoundsTo, Done, InFailed, Aside, DistinctHashes, OnePerNonce;
    var targets := Targets(ps, next, Wallets(sheet), named);
    forall q | q in targets ensures q in ps {
      TargetsIff(ps, next, Wallets(sheet), named, q);
    }
    var row := RowOf(lines, sheet, line);
    var k, x := OneRow(chain, ps, next, sheet, targets, run, row);
    AllSteps(chain, Done(ps) + run, row.address, k);
    CloseIff(line, x);
  }

  lemma OneRow(chain: Chain, ps: seq<Proposal>, next: nat, sheet: seq<SheetRow>, targets: seq<Proposal>, run: seq<Step>, row: SheetRow)
    returns (k: nat, x: nat)
    requires Holds(ps, next, sheet, targets) && row in sheet && Goes(chain, ps, next, targets, run)
    requires forall q :: q in targets ==> q in ps
    ensures var steps, a := Done(ps) + run, row.address;
            && Close(x, row) && k < |steps| && !PaysAside(chain, steps[k], a)
            && To(a, Effect(chain, steps[k])) == (if InFailed(targets, a) then [] else [x])
            && forall i :: 0 <= i < |steps| && i != k ==> (To(a, Effect(chain, steps[i])) == [] <==> !PaysAside(chain, steps[i], a))
  {
    hide To, Close, Done, InFailed, DistinctHashes, PaysAside, Unlisted, Course, Executes;
    var a, steps, p := row.address, Done(ps) + run, *;
    p, x := TargetOf(targets, sheet, next, row);
    hide PaysSheet, SparedBefore, Spares, Listed, Executed, Queued, Hashes;
    k := TargetStep(ps, targets, run, p);
    assert Faithful(chain, p);
    NotAside(chain, p, a);
    NotPaidAside(chain, steps[k], a);
    InFailedIff(targets, p, a);
    ToNone(a, []);
    StepsOnce(ps, next, run);
    forall i | 0 <= i < |steps| && i != k ensures To(a, Effect(chain, steps[i])) == [] <==> !PaysAside(chain, steps[i], a) {
      StepKnown(ps, next, run, steps[i]);
      OtherStep(chain, ps, next, sheet, targets, steps[i], a);
    }
  }

  lemma NotPaidAside(chain: Chain, s: Step, a: nat)
    requires !Unlisted(chain, s.p, a)
    ensures !PaysAside(chain, s, a)
  {
  }

  lemma RowOf(lines: seq<Line>, sheet: seq<SheetRow>, line: Line) returns (row: SheetRow)
    requires Reads(lines, sheet) && line in lines
    ensures row in sheet && ReadLine(line) == Some(row) && row.address == line.address
  {
    var i: nat :| i < |lines| && lines[i] == line;
    row := sheet[i];
  }

  /** In the default mode, where the Safe's transactions are plain transfers, nothing more is needed. */
  lemma PaidOnce(chain: Chain, ps: seq<Proposal>, next: nat, lines: seq<Line>, sheet: seq<SheetRow>, run: seq<Step>, line: Line)
    requires Reads(lines, sheet) && line in lines && Passes(ps, next, sheet, {}) && forall p :: p in ps ==> !p.other
    requires Goes(chain, ps, next, Targets(ps, next, Wallets(sheet), {}), run)
    ensures PaidOneRounding(line, Payments(chain, Done(ps) + run))
  {
    hide To, Targets, Payments, DistinctHashes, Passes, Executes, AllFaithful, SheetAmount, RoundsTo, Reads, Done, PaidOneRounding;
    PaidOnceIff(chain, ps, next, lines, sheet, {}, run, line);
    forall p | p in Targets(ps, next, Wallets(sheet), {}) ensures !p.executed {
      TargetsIff(ps, next, Wallets(sheet), {}, p);
    }
    forall s | s in Done(ps) + run ensures !s.p.other {
      StepKnown(ps, next, run, s);
    }
  }

  /** A pass over a payment that was executed and failed: nobody is paid, and nothing more can be executed. */
  lemma FailedPaymentPasses(row: SheetRow, hash: nat, nonce: nat, chain: Chain) returns (p: Proposal)
    ensures p.hash == hash && p.nonce == nonce && p.executed && !p.successful
    ensures Passes([p], nonce + 1, [row], {hash}) && Payments(chain, Done([p])) == []
  {
    p := Proposal(nonce, hash, true, false, [Transfer(row.address, row.amount)], false, false);
    hide Passes, Wallets;
    OnePasses([], p, row, nonce + 1, {hash});
    assert [] + [p] == [p] && [p][1..] == [];
    assert Done([p]) == [Step(p, false)] + Done([]);
  }

  /** A pass although an executed transaction, by a call that is no plain transfer, has paid the wallet already. */
  lemma PaidAsidePasses(row: SheetRow, hash: nat, nonce: nat) returns (first: Proposal, p: Proposal)
    ensures first.executed && first.successful && first.other && !first.unreadable && !p.executed
    ensures Passes([first, p], nonce + 1, [row], {})
    ensures forall chain: Chain :: chain(first) == [Transfer(row.address, row.amount)] && chain(p) == p.transfers ==>
              To(row.address, Payments(chain, Done([first, p]) + [Step(p, true)])) == [row.amount, row.amount]
  {
    var a, amount := row.address, row.amount;
    first := Proposal(nonce, hash, true, true, [], true, false);
    p := Proposal(nonce + 1, hash + 1, false, true, [Transfer(a, amount)], false, false);
    hide Passes, To, Payments, Done;
    AfterOther(first, p, row, nonce + 1);
    forall chain: Chain | chain(first) == [Transfer(a, amount)] && chain(p) == p.transfers
      ensures To(a, Payments(chain, Done([first, p]) + [Step(p, true)])) == [amount, amount]
    {
      PaidAgain(chain, first, p, a, amount);
    }
  }

  lemma AfterOther(first: Proposal, p: Proposal, row: SheetRow, next: nat)
    requires first.executed && !first.unreadable && first.transfers == [] && first.hash != p.hash
    requires !p.unreadable && !p.other && !p.executed && p.nonce >= next && p.transfers == [Transfer(row.address, row.amount)]
    ensures Passes([first, p], next, [row], {})
  {
    hide Passes, PaysAny, Wallets;
    Pays(p, row);
    OnePasses([first], p, row, next, {});
    assert [first] + [p] == [first, p];
  }

  lemma PaidAgain(chain: Chain, first: Proposal, p: Proposal, a: nat, amount: nat)
    requires first.executed && first.successful && !p.executed && chain(first) == chain(p) == [Transfer(a, amount)]
    ensures To(a, Payments(chain, Done([first, p]) + [Step(p, true)])) == [amount, amount]
  {
    hide To, Payments, Done;
    DoneOfTwo(first, p);
    TwoPayments(chain, Step(first, true), Step(p, true), a, amount);
    assert [Step(first, true)] + [Step(p, true)] == [Step(first, true), Step(p, true)];
  }

  lemma Pays(p: Proposal, row: SheetRow)
    requires p.transfers == [Transfer(row.address, row.amount)]
    ensures PaysAny(p, Wallets([row]))
  {
    assert p.transfers[0] in p.transfers && row in [row];
  }

  lemma DoneOfTwo(first: Proposal, p: Proposal)
    requires first.executed && !p.executed
    ensures Done([first, p]) == [Step(first, first.successful)]
  {
    assert [first, p][1..] == [p] && [p][1..] == [];
    assert Done([p]) == [];
  }

  lemma TwoPayments(chain: Chain, s: Step, t: Step, a: nat, amount: nat)
    requires Effect(chain, s) == Effect(chain, t) == [Transfer(a, amount)]
    ensures To(a, Payments(chain, [s, t])) == [amount, amount]
  {
    var pay := [Transfer(a, amount)];
    assert [s, t][1..] == [t] && [t][1..] == [];
    assert Payments(chain, [t]) == pay;
    ToConcat(a, pay, pay);
    assert pay[1..] == [] && To(a, pay) == [amount];
  }

  /** One payment equal to its row, after at most one executed transaction that lists nothing, passes. */
  lemma OnePasses(before: seq<Proposal>, p: Proposal, row: SheetRow, next: nat, named: set<nat>)
    requires |before| <= 1 && forall q :: q in before ==> q.executed && !q.unreadable && q.transfers == [] && q.hash != p.hash && q.hash !in named
    requires !p.unreadable && !p.other && (p.executed || p.nonce >= next) && p.transfers == [Transfer(row.address, row.amount)]
    requires IsTarget(p, next, Wallets([row]), named) && named <= {p.hash}
    ensures Passes(before + [p], next, [row], named)
  {
    hide Targets, PaysSheet, Listed, Recipients, Wallets, PaysAny, SparedBefore, Spares, Executed, Queued;
    OnlyTarget(before, p, next, Wallets([row]), named);
    SheetOfOne(p, row, next);
    assert Hashes([p]) == {p.hash} by { assert [p][0] in [p]; }
    assert OnePerNonce([p]);
    hide OnePerNonce, Hashes, IsTarget;
    RestSpared(before, p, next, Recipients(Listed([p])) + Wallets([row]));
  }

  lemma RestSpared(before: seq<Proposal>, p: Proposal, next: nat, everyone: set<nat>)
    requires |before| <= 1 && forall q :: q in before ==> q.executed && !q.unreadable && q.transfers == [] && q.hash != p.hash
    ensures SparedBefore(Executed(before + [p], {p.hash}), everyone) && Spares(Queued(before + [p], {p.hash}, next), everyone)
  {
    assert [p][1..] == [] && Executed([p], {p.hash}) == [] && Queued([p], {p.hash}, next) == [];
    if |before| == 1 {
      var q := before[0];
      assert before == [q] && before[1..] == [] && (before + [p])[1..] == [p] && (before + [p])[0] == q;
      assert Executed(before + [p], {p.hash}) == [q] && Queued(before + [p], {p.hash}, next) == [];
      assert Successful([q]) == if q.successful then [q] else [];
      assert [q][1..] == [] && Listed([q]) == [];
    } else {
      assert before + [p] == [p];
    }
  }

  lemma OnlyTarget(before: seq<Proposal>, p: Proposal, next: nat, wallets: set<nat>, named: set<nat>)
    requires |before| <= 1 && IsTarget(p, next, wallets, named) && forall q :: q in before ==> !IsTarget(q, next, wallets, named)
    ensures Targets(before + [p], next, wallets, named) == [p]
  {
    hide IsTarget;
    assert [p][1..] == [] && Targets([p], next, wallets, named) == [p];
    if |before| == 1 {
      assert (before + [p])[1..] == [p] && (before + [p])[0] == before[0];
    } else {
      assert before + [p] == [p];
    }
  }

  lemma SheetOfOne(p: Proposal, row: SheetRow, next: nat)
    requires !p.unreadable && !p.other && (p.executed || p.nonce >= next) && p.transfers == [Transfer(row.address, row.amount)]
    ensures PaysSheet([p], [row], next) && Recipients(Listed([p])) == Wallets([row]) == {row.address}
  {
    var ts := p.transfers;
    assert [p][1..] == [] && Listed([p]) == ts;
    assert ts[1..] == [] && [row][1..] == [] && NoneTwice(ts[1..]);
    assert row in [row] && ts[0] in ts;
  }

  // ----- what does not matter

  /** Without the proposals that were never executed and no longer can be. */
  function Live(ps: seq<Proposal>, next: nat): seq<Proposal>
  {
    if ps == [] then [] else (if !ps[0].executed && ps[0].nonce < next then [] else [ps[0]]) + Live(ps[1..], next)
  }

  lemma {:induction false} LiveParts(ps: seq<Proposal>, next: nat, wallets: set<nat>, chosen: set<nat>)
    ensures Targets(Live(ps, next), next, wallets, {}) == Targets(ps, next, wallets, {})
    ensures Executed(Live(ps, next), chosen) == Executed(ps, chosen) && Queued(Live(ps, next), chosen, next) == Queued(ps, chosen, next)
  {
    hide PaysAny;
    if ps != [] {
      var rest := Live(ps[1..], next);
      LiveParts(ps[1..], next, wallets, chosen);
      if ps[0].executed || ps[0].nonce >= next {
        assert Live(ps, next) == [ps[0]] + rest && ([ps[0]] + rest)[1..] == rest;
      } else {
        assert Live(ps, next) == rest;
      }
    }
  }

  /** A proposal whose nonce was used by another one does not change the verdict. */
  lemma DroppedIgnored(ps: seq<Proposal>, next: nat, sheet: seq<SheetRow>)
    ensures Passes(ps, next, sheet, {}) <==> Passes(Live(ps, next), next, sheet, {})
  {
    hide Targets, Executed, Queued, Live, PaysSheet, SparedBefore, Spares, OnePerNonce, Listed, Wallets, Recipients, Hashes;
    LiveParts(ps, next, Wallets(sheet), Hashes(Targets(ps, next, Wallets(sheet), {})));
  }

  /** The readability that checks 2 and 3 ask for cannot be spared: a transaction whose record cannot be trusted may pay
      any wallet, and no record says otherwise. */
  lemma UntrustedMayPay(ps: seq<Proposal>, steps: seq<Step>, s: Step, a: nat, x: nat) returns (chain: Chain)
    requires s in steps && s.works && s.p.unreadable
    ensures AllFaithful(chain, ps) && Transfer(a, x) in chain(s.p) && To(a, Payments(chain, steps)) != []
  {
    hide Payments;
    chain := (q: Proposal) => if q == s.p then [Transfer(a, x)] else q.transfers;
    var i: nat :| i < |steps| && steps[i] == s;
    SomeStepPays(chain, steps, a, i);
  }
}
