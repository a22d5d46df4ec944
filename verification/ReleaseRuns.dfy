/** Whole runs of a release file: the calls of several escrows of one owner, sent in order by
    `send_calldata` with stops and resumes, while LayerZero and other users act in between. */
module ReleaseRuns {
  import opened Bytes
  import opened Options
  import opened ReleasePacket
  import opened EscrowRelease
  import SendCalldata

  // ----- the file

  function FileCalls(h: Keccak, ps: seq<Plan>): seq<Call>
    requires forall j :: 0 <= j < |ps| ==> ps[j].Encodable()
  {
    if ps == [] then [] else ReleaseCalls(h, ps[0]) + FileCalls(h, ps[1..])
  }

  /** Every escrow was planned from `w0`, all by the same owner, none twice. */
  ghost predicate FilePlans(w0: World, owner: Address, ps: seq<Plan>)
  {
    && (forall j :: 0 <= j < |ps| ==> Planned(w0, ps[j]) && ps[j].owner == owner)
    && (forall i, j :: 0 <= i < j < |ps| ==> ps[i].escrow != ps[j].escrow)
  }

  function Least(a: nat, b: nat): nat { if a < b then a else b }

  /** How many of plan j's calls are among the first m of the file. */
  function CallsDone(ps: seq<Plan>, m: nat, j: nat): nat
    requires j < |ps|
  {
    if j == 0 then Least(m, CallCount(ps[0]))
    else CallsDone(ps[1..], m - Least(m, CallCount(ps[0])), j - 1)
  }

  /** The state of every escrow of the file after its first m calls. */
  ghost predicate FileAt(h: Keccak, w0: World, w: World, ps: seq<Plan>, m: nat)
    requires forall j :: 0 <= j < |ps| ==> Planned(w0, ps[j])
  {
    ps == [] ||
    var k := Least(m, CallCount(ps[0]));
    At(h, w0, w, ps[0], Progress(ps[0], k)) && FileAt(h, w0, w, ps[1..], m - k)
  }

  /** The payments among the first m calls of the file. */
  function PaidBy(ps: seq<Plan>, m: nat): seq<Payment>
  {
    if ps == [] then []
    else
      var k := Least(m, CallCount(ps[0]));
      (if Progress(ps[0], k) > 5 then [Payment(ps[0].escrow, ps[0].safe, ps[0].amount)] else [])
      + PaidBy(ps[1..], m - k)
  }

  // ----- events

  datatype Event = Send(index: nat) | Other(what: Outside)

  /** The world after the events; `None` when a transaction of the file is unknown or reverts. */
  function Run(h: Keccak, w: World, owner: Address, calls: seq<Call>, events: seq<Event>): Option<World>
  {
    if events == [] then Some(w)
    else match Run(h, w, owner, calls, events[..|events| - 1])
      case None => None
      case Some(w1) => After(h, w1, owner, calls, events[|events| - 1])
  }

  function After(h: Keccak, w: World, owner: Address, calls: seq<Call>, e: Event): Option<World>
  {
    match e
    case Send(i) => if i < |calls| then Step(h, w, owner, calls[i]) else None
    case Other(o) => Some(Meanwhile(w, o))
  }

  /** The file's transactions among the events. */
  function Sent(events: seq<Event>): seq<nat>
  {
    if events == [] then []
    else
      var last := events[|events| - 1];
      Sent(events[..|events| - 1]) + if last.Send? then [last.index] else []
  }

  // ----- one event

  lemma OthersKeep(h: Keccak, w0: World, w: World, w': World, a: Address, p: Plan, pc: nat)
    requires Planned(w0, p) && At(h, w0, w, p, pc) && p.escrow != a && a in w'.escrows
    requires w' == w.(escrows := w.escrows[a := w'.escrows[a]], payments := w'.payments)
    ensures At(h, w0, w', p, pc)
  {
    hide Shape, ReceiveState;
  }

  lemma {:induction false} OthersKeepFile(h: Keccak, w0: World, w: World, w': World, a: Address, ps: seq<Plan>, m: nat)
    requires forall j :: 0 <= j < |ps| ==> Planned(w0, ps[j]) && ps[j].escrow != a
    requires FileAt(h, w0, w, ps, m) && a in w'.escrows
    requires w' == w.(escrows := w.escrows[a := w'.escrows[a]], payments := w'.payments)
    ensures FileAt(h, w0, w', ps, m)
  {
    hide At, Planned;
    if ps != [] {
      var k := Least(m, CallCount(ps[0]));
      OthersKeep(h, w0, w, w', a, ps[0], Progress(ps[0], k));
      OthersKeepFile(h, w0, w, w', a, ps[1..], m - k);
    }
  }

  /** Sending call k of one escrow brings it to k + 1 calls, and touches nothing else. */
  lemma SendOne(h: Keccak, w0: World, w: World, p: Plan, k: nat)
    requires Planned(w0, p) && k < CallCount(p) && At(h, w0, w, p, Progress(p, k))
    ensures var r := Step(h, w, p.owner, ReleaseCalls(h, p)[k]);
            && r.Some?
            && At(h, w0, r.value, p, Progress(p, k + 1))
            && p.escrow in r.value.escrows
            && r.value == w.(escrows := w.escrows[p.escrow := r.value.escrows[p.escrow]],
                             payments := w.payments + PaidAt(p, Progress(p, k)))
  {
    CallsAtProgress(h, p, k);
    var pc := Progress(p, k);
    ReleaseStep(h, w0, w, p, pc);
    hide ReleaseCalls, CallAt, Step, Shape, ReceiveState;
    var r := Step(h, w, p.owner, CallAt(h, p, pc));
    if Progress(p, k + 1) != pc + 1 {
      SkipPin(h, w0, r.value, p, pc + 1);
    }
  }

  /** Sending the file's next call moves the file on by one call and makes exactly that call's payment. */
  lemma {:induction false} SendNext(h: Keccak, w0: World, w: World, owner: Address, ps: seq<Plan>, m: nat)
    requires FilePlans(w0, owner, ps) && m < |FileCalls(h, ps)| && FileAt(h, w0, w, ps, m)
    ensures var r := Step(h, w, owner, FileCalls(h, ps)[m]);
            && r.Some?
            && FileAt(h, w0, r.value, ps, m + 1)
            && r.value.payments == w.payments + PaidStep(ps, m)
            && exists j :: 0 <= j < |ps| && ps[j].escrow in r.value.escrows
                 && r.value == w.(escrows := w.escrows[ps[j].escrow := r.value.escrows[ps[j].escrow]],
                                  payments := r.value.payments)
  {
    hide At, ReceiveState, HeaderFits, Step, ReleaseCalls, PaidAt;
    var p, rest, n := ps[0], ps[1..], CallCount(ps[0]);
    if m < n {
      SendOne(h, w0, w, p, m);
      var w' := Step(h, w, owner, FileCalls(h, ps)[m]).value;
      OthersKeepFile(h, w0, w, w', p.escrow, rest, 0);
      assert ps[0].escrow in w'.escrows;
    } else {
      SendNext(h, w0, w, owner, rest, m - n);
      var w' := Step(h, w, owner, FileCalls(h, ps)[m]).value;
      var j :| 0 <= j < |rest| && rest[j].escrow in w'.escrows
               && w' == w.(escrows := w.escrows[rest[j].escrow := w'.escrows[rest[j].escrow]], payments := w'.payments);
      OthersKeep(h, w0, w, w', rest[j].escrow, p, Progress(p, n));
      assert ps[j + 1] == rest[j];
    }
  }

  /** The payment made by call m of the file. */
  function PaidStep(ps: seq<Plan>, m: nat): seq<Payment>
  {
    if ps == [] then []
    else if m < CallCount(ps[0]) then PaidAt(ps[0], Progress(ps[0], m))
    else PaidStep(ps[1..], m - CallCount(ps[0]))
  }

  lemma {:induction false} PaidByStep(ps: seq<Plan>, m: nat)
    ensures PaidBy(ps, m + 1) == PaidBy(ps, m) + PaidStep(ps, m)
  {
    if ps != [] {
      var n := CallCount(ps[0]);
      if m < n {
        PaidByNothing(ps[1..]);
      } else {
        PaidByStep(ps[1..], m - n);
      }
    }
  }

  lemma {:induction false} PaidByNothing(ps: seq<Plan>)
    ensures PaidBy(ps, 0) == []
  {
    if ps != [] {
      PaidByNothing(ps[1..]);
    }
  }

  /** Sending the first call again changes nothing. */
  lemma ResendFirst(h: Keccak, w0: World, w: World, owner: Address, ps: seq<Plan>)
    requires FilePlans(w0, owner, ps) && ps != [] && FileAt(h, w0, w, ps, 1)
    ensures |FileCalls(h, ps)| > 0 && Step(h, w, owner, FileCalls(h, ps)[0]) == Some(w)
  {
    hide FileAt, ReleaseCalls, Step, ReceiveState;
    CallsAtProgress(h, ps[0], 0);
    FirstAt(h, w0, w, ps);
    ResendConfig(h, w0, w, ps[0]);
  }

  lemma ResendConfig(h: Keccak, w0: World, w: World, p: Plan)
    requires Planned(w0, p) && At(h, w0, w, p, 1)
    ensures Step(h, w, p.owner, CallAt(h, p, 0)) == Some(w)
  {
    TargetIsEscrow(h, p, 0);
    var e, key := w.escrows[p.escrow], (p.library, p.eid);
    hide UlnConfig, AddressWord, PacketHeader, PacketPayload, ReleasePayload, Target, Deliver;
    assert e.uln[key := UlnConfig(p.owner)] == e.uln;
    assert w.escrows[p.escrow := e] == w.escrows;
    assert w.payments + [] == w.payments;
  }

  lemma FirstAt(h: Keccak, w0: World, w: World, ps: seq<Plan>)
    requires ps != [] && (forall j :: 0 <= j < |ps| ==> Planned(w0, ps[j])) && FileAt(h, w0, w, ps, 1)
    ensures At(h, w0, w, ps[0], 1)
  {
    hide At, Planned;
  }

  lemma {:induction false} MeanwhileKeepsFile(h: Keccak, w0: World, w: World, ps: seq<Plan>, m: nat, o: Outside)
    requires (forall j :: 0 <= j < |ps| ==> Planned(w0, ps[j])) && FileAt(h, w0, w, ps, m)
    ensures FileAt(h, w0, Meanwhile(w, o), ps, m)
  {
    hide At, Planned, Meanwhile;
    if ps != [] {
      var k := Least(m, CallCount(ps[0]));
      MeanwhileKeeps(h, w0, w, ps[0], Progress(ps[0], k), o);
      MeanwhileKeepsFile(h, w0, w, ps[1..], m - k, o);
    }
  }

  lemma Unstarted(h: Keccak, w0: World, p: Plan)
    requires Planned(w0, p)
    ensures At(h, w0, w0, p, 0)
  {
    hide UlnConfig, AddressWord, PacketHeader, PacketPayload, ReleasePayload;
  }

  lemma {:induction false} StartOfFile(h: Keccak, w0: World, ps: seq<Plan>)
    requires forall j :: 0 <= j < |ps| ==> Planned(w0, ps[j])
    ensures FileAt(h, w0, w0, ps, 0)
  {
    hide ReceiveState, UlnConfig, AddressWord, PacketHeader, PacketPayload, ReleasePayload, HeaderFits;
    if ps != [] {
      StartOfFile(h, w0, ps[1..]);
      Unstarted(h, w0, ps[0]);
    }
  }

  // ----- whole runs

  /** Every run that sends the file in order, the first transaction possibly more than once, with any other
      activity in between: no transaction reverts, every escrow is where the number m of distinct transactions
      puts it, and exactly the payments of those transactions were made. */
  lemma {:induction false} RunSafe(h: Keccak, w0: World, owner: Address, ps: seq<Plan>, events: seq<Event>)
    requires FilePlans(w0, owner, ps)
    requires SendCalldata.Done(Sent(events)).Some? && SendCalldata.Done(Sent(events)).value <= |FileCalls(h, ps)|
    ensures var r := Run(h, w0, owner, FileCalls(h, ps), events);
            var m := SendCalldata.Done(Sent(events)).value;
            && r.Some?
            && FileAt(h, w0, r.value, ps, m)
            && r.value.payments == w0.payments + PaidBy(ps, m)
  {
    hide FileAt, FileCalls, Step, Meanwhile, ReceiveState, HeaderFits, PaidBy, PaidStep;
    if events == [] {
      StartOfFile(h, w0, ps);
      PaidByNothing(ps);
      assert w0.payments + [] == w0.payments;
    } else {
      var before, last := events[..|events| - 1], events[|events| - 1];
      var calls := FileCalls(h, ps);
      assert last.Other? ==> Sent(events) == Sent(before);
      if last.Send? {
        SendCalldata.DoneSnoc(Sent(before), last.index);
      }
      var m := SendCalldata.Done(Sent(before)).value;
      RunSafe(h, w0, owner, ps, before);
      var w := Run(h, w0, owner, calls, before).value;
      match last
      case Other(o) =>
        MeanwhileKeepsFile(h, w0, w, ps, m, o);
        MeanwhilePaysNothing(w, o);
      case Send(i) =>
        if i == m {
          SendNext(h, w0, w, owner, ps, m);
          PaidByStep(ps, m);
          assert w0.payments + PaidBy(ps, m) + PaidStep(ps, m) == w0.payments + (PaidBy(ps, m) + PaidStep(ps, m));
        } else {
          NonemptyFile(h, ps);
          ResendFirst(h, w0, w, owner, ps);
        }
    }
  }

  lemma MeanwhilePaysNothing(w: World, o: Outside)
    ensures Meanwhile(w, o).payments == w.payments
  {
  }

  lemma NonemptyFile(h: Keccak, ps: seq<Plan>)
    requires forall j :: 0 <= j < |ps| ==> ps[j].Encodable()
    ensures ps == [] ==> FileCalls(h, ps) == []
  {
  }

  // ----- what the states mean

  lemma {:induction false} EscrowOfFile(h: Keccak, w0: World, w: World, ps: seq<Plan>, m: nat, j: nat)
    requires (forall i :: 0 <= i < |ps| ==> Planned(w0, ps[i])) && FileAt(h, w0, w, ps, m) && j < |ps|
    ensures CallsDone(ps, m, j) <= CallCount(ps[j])
    ensures At(h, w0, w, ps[j], Progress(ps[j], CallsDone(ps, m, j)))
  {
    hide At, Planned;
    if j > 0 {
      EscrowOfFile(h, w0, w, ps[1..], m - Least(m, CallCount(ps[0])), j - 1);
    }
  }

  /** An escrow is started only when every earlier one of the file is finished: at most one is in between. */
  lemma {:induction false} OneAtATime(ps: seq<Plan>, m: nat, i: nat, j: nat)
    requires i < j < |ps| && CallsDone(ps, m, j) > 0
    ensures CallsDone(ps, m, i) == CallCount(ps[i])
  {
    var k := Least(m, CallCount(ps[0]));
    if i == 0 {
      if k < CallCount(ps[0]) {
        NothingLeft(ps[1..], j - 1);
      }
    } else {
      OneAtATime(ps[1..], m - k, i - 1, j - 1);
    }
  }

  lemma {:induction false} NothingLeft(ps: seq<Plan>, j: nat)
    requires j < |ps|
    ensures CallsDone(ps, 0, j) == 0
  {
    if j > 0 {
      NothingLeft(ps[1..], j - 1);
    }
  }

  lemma {:induction false} AllDone(h: Keccak, ps: seq<Plan>, j: nat)
    requires (forall i :: 0 <= i < |ps| ==> ps[i].Encodable()) && j < |ps|
    ensures CallsDone(ps, |FileCalls(h, ps)|, j) == CallCount(ps[j])
  {
    hide ReleaseCalls;
    if j > 0 {
      AllDone(h, ps[1..], j - 1);
    }
  }

  ghost predicate SameButLocked(w0: World, w: World, p: Plan)
  {
    && p.escrow in w0.escrows && p.escrow in w.escrows
    && w.escrows[p.escrow] == w0.escrows[p.escrow].(locked := w.escrows[p.escrow].locked)
  }

  /** An escrow with no calls done is untouched, apart from what users locked meanwhile. */
  lemma Untouched(h: Keccak, w0: World, w: World, p: Plan)
    requires Planned(w0, p) && At(h, w0, w, p, 0)
    ensures SameButLocked(w0, w, p)
  {
    hide UlnConfig, AddressWord, PacketHeader, PacketPayload, ReleasePayload, ReceiveState;
  }

  /** Reads of a finished escrow: every setting as before, on every chain and library; the path nonce one higher. */
  ghost predicate Restored(e0: Escrow, e: Escrow, p: Plan)
  {
    && e.owner == e0.owner
    && e.stored == e0.stored
    && e.blocked == e0.blocked
    && (forall eid :: Lookup(e.trusted, eid, []) == Lookup(e0.trusted, eid, []))
    && (forall key :: Lookup(e.uln, key, []) == Lookup(e0.uln, key, []))
    && (forall key :: Lookup(e.executor, key, []) == Lookup(e0.executor, key, []))
    && Lookup(e.inbound, (p.eid, p.Path()), 0) == Lookup(e0.inbound, (p.eid, p.Path()), 0) + 1
    && (forall key :: key != (p.eid, p.Path()) ==> Lookup(e.inbound, key, 0) == Lookup(e0.inbound, key, 0))
  }

  ghost predicate EndsRestored(w0: World, w: World, p: Plan)
  {
    p.escrow in w0.escrows && p.escrow in w.escrows && Restored(w0.escrows[p.escrow], w.escrows[p.escrow], p)
  }

  lemma FinishedIsRestored(h: Keccak, w0: World, w: World, p: Plan)
    requires Planned(w0, p) && At(h, w0, w, p, 10)
    ensures EndsRestored(w0, w, p)
  {
    hide UlnConfig, AddressWord, PacketHeader, PacketPayload, ReleasePayload;
  }

  /** And none of what made the release possible is left: the Safe's path is not trusted, and the owner is neither the
      executor nor the verifier the release made it. */
  lemma FinishedIsClosed(w0: World, w: World, p: Plan)
    requires Planned(w0, p) && EndsRestored(w0, w, p)
    ensures var e := w.escrows[p.escrow];
            && Lookup(e.trusted, p.eid, []) != p.Path()
            && Lookup(e.executor, (p.library, p.eid), []) != AddressWord(p.owner)
            && Lookup(e.uln, (p.library, p.eid), []) != UlnConfig(p.owner)
  {
    hide UlnConfig, AddressWord, HeaderFits;
  }

  /** The whole file, sent once through: every escrow of the file pays its planned balance to the Safe exactly
      once, in file order, and ends with every setting as it was read. */
  lemma ReleaseCompletes(h: Keccak, w0: World, owner: Address, ps: seq<Plan>, events: seq<Event>)
    requires FilePlans(w0, owner, ps)
    requires SendCalldata.Done(Sent(events)) == Some(|FileCalls(h, ps)|)
    ensures var r := Run(h, w0, owner, FileCalls(h, ps), events);
            && r.Some?
            && r.value.payments == w0.payments + AllPayments(ps)
            && forall j :: 0 <= j < |ps| ==> EndsRestored(w0, r.value, ps[j])
  {
    hide ReceiveState, HeaderFits, At, FileAt, FileCalls, Restored, PaidBy, Run;
    RunSafe(h, w0, owner, ps, events);
    var w := Run(h, w0, owner, FileCalls(h, ps), events).value;
    AllPaid(h, ps);
    forall j | 0 <= j < |ps| ensures EndsRestored(w0, w, ps[j]) {
      EscrowOfFile(h, w0, w, ps, |FileCalls(h, ps)|, j);
      AllDone(h, ps, j);
      FinishedIsRestored(h, w0, w, ps[j]);
    }
  }

  function AllPayments(ps: seq<Plan>): seq<Payment>
  {
    if ps == [] then [] else [Payment(ps[0].escrow, ps[0].safe, ps[0].amount)] + AllPayments(ps[1..])
  }

  lemma {:induction false} AllPaid(h: Keccak, ps: seq<Plan>)
    requires forall i :: 0 <= i < |ps| ==> ps[i].Encodable()
    ensures PaidBy(ps, |FileCalls(h, ps)|) == AllPayments(ps)
  {
    hide ReleaseCalls;
    if ps != [] {
      AllPaid(h, ps[1..]);
    }
  }

  // ----- conservation

  function PaidFrom(payments: seq<Payment>, a: Address): nat
  {
    if payments == [] then 0
    else
      var last := payments[|payments| - 1];
      PaidFrom(payments[..|payments| - 1], a) + if last.escrow == a then last.amount else 0
  }

  /** What users locked in escrow `a` during the events. */
  function LockedBy(events: seq<Event>, a: Address): nat
  {
    if events == [] then 0
    else
      LockedBy(events[..|events| - 1], a)
      + match events[|events| - 1]
        case Other(Lock(b, n)) => if a == b then n else 0
        case _ => 0
  }

  lemma ActConserves(h: Keccak, w: World, e: Escrow, sender: Address, call: Call)
    ensures match Act(h, w, e, sender, call)
            case None => true
            case Some((e', paid)) =>
              || (paid == [] && e'.locked == e.locked)
              || (|paid| == 1 && paid[0].escrow == Target(call) && e'.locked + paid[0].amount == e.locked)
  {
    hide ReadHeader, MessageParts, LibraryAccepts, EndpointAccepts;
    if call.CommitVerification? && |call.packet| >= 113 {
      var packet := call.packet;
      assert packet == packet[..81] + packet[81..];
      ReadHeaderPrefix(packet[..81], packet[81..]);
    }
  }

  /** Whatever is called, in whatever order: an escrow holds what it held, plus what users locked, minus what it paid. */
  lemma {:induction false} RunConserves(h: Keccak, w0: World, owner: Address, calls: seq<Call>, events: seq<Event>, a: Address)
    requires a in w0.escrows && Run(h, w0, owner, calls, events).Some?
    ensures var w := Run(h, w0, owner, calls, events).value;
            && a in w.escrows
            && w.escrows[a].locked + PaidFrom(w.payments, a)
               == w0.escrows[a].locked + PaidFrom(w0.payments, a) + LockedBy(events, a)
  {
    hide Act;
    if events != [] {
      var before, last := events[..|events| - 1], events[|events| - 1];
      RunConserves(h, w0, owner, calls, before, a);
      var w := Run(h, w0, owner, calls, before).value;
      if last.Send? {
        var call := calls[last.index];
        ActConserves(h, w, w.escrows[Target(call)], owner, call);
        var paid := Act(h, w, w.escrows[Target(call)], owner, call).value.1;
        hide Target;
        if paid == [] {
          assert w.payments + paid == w.payments;
        } else {
          assert paid == [paid[0]];
          assert (w.payments + paid)[..|w.payments|] == w.payments;
        }
      }
    }
  }

  // ----- planning over an unfinished release

  /** The library LayerZero's default points to names the owner for this escrow, or is not ReceiveUln301. */
  ghost predicate DefaultRefuses(w0: World, w: World, p: Plan)
    requires p.escrow in w0.escrows
  {
    w.defaultVersion !in w.libraries ||
    var l, e := w.libraries[w.defaultVersion], w0.escrows[p.escrow];
    || !l.uln301
    || l.address == p.library
    || Lookup(e.executor, (l.address, p.eid), []) == AddressWord(p.owner)
    || Lookup(e.uln, (l.address, p.eid), []) == UlnConfig(p.owner)
  }

  /** When a started and unfinished escrow is refused: always between the pin and the unpin, and outside them
      exactly when LayerZero's default still points to the planned library (or to one that refuses anyway). */
  lemma UnfinishedRefusedIff(h: Keccak, w0: World, w: World, p: Plan, pc: nat)
    requires Planned(w0, p) && At(h, w0, w, p, pc) && 0 < pc < 10
    ensures ReceiveState(w, p.escrow, p.owner, p.safe, p.packetType).Refused?
       <==> !p.Pin() || 3 <= pc < 8 || DefaultRefuses(w0, w, p)
  {
    hide UlnConfig, PacketHeader, PacketPayload, ReleasePayload;
    var e := w.escrows[p.escrow];
    assert Lookup(e.uln, (p.library, p.eid), []) == UlnConfig(p.owner);
  }

  /** As long as LayerZero leaves its default where it was, every unfinished escrow is refused. */
  lemma UnfinishedRefused(h: Keccak, w0: World, w: World, p: Plan, pc: nat)
    requires Planned(w0, p) && At(h, w0, w, p, pc) && 0 < pc < 10 && w.defaultVersion == w0.defaultVersion
    ensures ReceiveState(w, p.escrow, p.owner, p.safe, p.packetType).Refused?
  {
    hide UlnConfig, AddressWord, PacketHeader, PacketPayload, ReleasePayload, Shape;
    UnfinishedRefusedIff(h, w0, w, p, pc);
  }

  /** An escrow between two calls of its release. */
  ghost predicate Unfinished(ps: seq<Plan>, m: nat, j: nat)
    requires j < |ps|
  {
    0 < CallsDone(ps, m, j) < CallCount(ps[j])
  }

  /** With `m` calls done, each escrow is untouched, fully restored, or refused by the planner, and at most one is in the
      last state, as long as LayerZero's default is where it was. */
  ghost predicate PrefixSafe(w0: World, w: World, owner: Address, ps: seq<Plan>, m: nat)
  {
    && (forall j :: 0 <= j < |ps| ==>
          || SameButLocked(w0, w, ps[j])
          || EndsRestored(w0, w, ps[j])
          || (Unfinished(ps, m, j) && (w.defaultVersion == w0.defaultVersion ==>
                ReceiveState(w, ps[j].escrow, owner, ps[j].safe, ps[j].packetType).Refused?)))
    && (forall i, j :: 0 <= i < j < |ps| ==> !(Unfinished(ps, m, i) && Unfinished(ps, m, j)))
  }

  /** So it is wherever the sending stops. */
  lemma EveryPrefixSafe(h: Keccak, w0: World, owner: Address, ps: seq<Plan>, events: seq<Event>)
    requires FilePlans(w0, owner, ps)
    requires SendCalldata.Done(Sent(events)).Some? && SendCalldata.Done(Sent(events)).value <= |FileCalls(h, ps)|
    ensures Run(h, w0, owner, FileCalls(h, ps), events).Some?
    ensures var w := Run(h, w0, owner, FileCalls(h, ps), events).value;
            PrefixSafe(w0, w, owner, ps, SendCalldata.Done(Sent(events)).value)
  {
    hide ReceiveState, HeaderFits, At, FileAt, FileCalls, Restored, PaidBy, Run, CallsDone;
    RunSafe(h, w0, owner, ps, events);
    var w := Run(h, w0, owner, FileCalls(h, ps), events).value;
    var m := SendCalldata.Done(Sent(events)).value;
    forall j | 0 <= j < |ps|
      ensures || SameButLocked(w0, w, ps[j])
              || EndsRestored(w0, w, ps[j])
              || (Unfinished(ps, m, j) && (w.defaultVersion == w0.defaultVersion ==>
                    ReceiveState(w, ps[j].escrow, owner, ps[j].safe, ps[j].packetType).Refused?))
    {
      EscrowOfFile(h, w0, w, ps, m, j);
      var p, k := ps[j], CallsDone(ps, m, j);
      if k == 0 {
        Untouched(h, w0, w, p);
      } else if k == CallCount(p) {
        FinishedIsRestored(h, w0, w, p);
      } else if w.defaultVersion == w0.defaultVersion {
        UnfinishedRefused(h, w0, w, p, Progress(p, k));
      }
    }
    forall i, j | 0 <= i < j < |ps| ensures !(Unfinished(ps, m, i) && Unfinished(ps, m, j)) {
      if CallsDone(ps, m, j) > 0 {
        OneAtATime(ps, m, i, j);
      }
    }
  }

  /** It is not refused in general: LayerZero appends a ReceiveUln301 library and makes it the default after the
      first call, and the unfinished escrow can be planned again. */
  lemma MovedDefaultIsPlannedOver(h: Keccak, w0: World, owner: Address, p: Plan, v: Version, l: Address)
    requires FilePlans(w0, owner, [p]) && p.Pin()
    requires v != 0 && v !in w0.libraries && l != p.library
    requires forall eid :: (l, eid) !in w0.escrows[p.escrow].uln && (l, eid) !in w0.escrows[p.escrow].executor
    ensures var events := [Send(0), Other(AppendLibrary(v, Library(l, true))), Other(MoveDefault(v))];
            var r := Run(h, w0, owner, FileCalls(h, [p]), events);
            r.Some? && ReceiveState(r.value, p.escrow, p.owner, p.safe, p.packetType).Ready?
  {
    hide UlnConfig, PacketHeader, PacketPayload, ReleasePayload, FileCalls, ReceiveState, Shape, Step;
    var events := [Send(0), Other(AppendLibrary(v, Library(l, true))), Other(MoveDefault(v))];
    var calls := FileCalls(h, [p]);
    assert events[..2] == [Send(0), Other(AppendLibrary(v, Library(l, true)))];
    assert events[..2][..1] == [Send(0)];
    StartOfFile(h, w0, [p]);
    OneFile(h, p);
    SendNext(h, w0, w0, owner, [p], 0);
    var w1 := Step(h, w0, owner, calls[0]).value;
    assert Run(h, w0, owner, calls, [Send(0)]) == Some(w1) by { assert [Send(0)][..0] == []; }
    var w2 := Meanwhile(w1, AppendLibrary(v, Library(l, true)));
    var w3 := Meanwhile(w2, MoveDefault(v));
    assert Run(h, w0, owner, calls, events) == Some(w3);
    MeanwhileKeepsFile(h, w0, w1, [p], 1, AppendLibrary(v, Library(l, true)));
    MeanwhileKeepsFile(h, w0, w2, [p], 1, MoveDefault(v));
    FirstAt(h, w0, w3, [p]);
    UnfinishedRefusedIff(h, w0, w3, p, 1);
  }

  lemma OneFile(h: Keccak, p: Plan)
    requires p.Encodable()
    ensures |FileCalls(h, [p])| >= 8
  {
    hide ReleaseCalls;
  }
}
