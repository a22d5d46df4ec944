/** Whole histories of a run directory: any sequence of refreshes, quarantines and recoveries, each failing or killed
    anywhere, with files edited by hand in between (bridge-claims/tools/package.py and quarantine.py). */
module RunHistory {
  import opened FileTree
  import opened Options
  import opened SealedPackage
  import opened RunDirectory

  datatype Event =
    | Refreshed(job: Refresh, replace: bool, f: Faults, outcome: Outcome)
    | Quarantined(moves: seq<Path>, dest: Path, f: Faults, result: RunDirectory.Quarantined)
    | Recovered(f: Faults, recovery: Recovery)
    | Edited(tree: Tree)                   // by hand, while no quarantine is pending

  ghost predicate Step(sha: Sha, s: State, e: Event, s': State)
  {
    match e
    case Refreshed(job, replace, f, outcome) => job.Valid() && RefreshStep(sha, s, job, replace, f, s', outcome)
    case Quarantined(moves, dest, f, result) => Movable(s.tree, moves) && QuarantineStep(s, moves, dest, f, s', result)
    case Recovered(f, recovery) => RecoverStep(s, f, s', recovery)
    case Edited(tree) => !s.record.pending.Quarantining? && s' == s.(tree := tree)
  }

  /** `states[i + 1]` is what event i leaves of `states[i]`. */
  ghost predicate Steps(sha: Sha, states: seq<State>, events: seq<Event>)
  {
    |states| == |events| + 1 && forall i :: 0 <= i < |events| ==> Step(sha, states[i], events[i], states[i + 1])
  }

  ghost predicate History(sha: Sha, states: seq<State>, events: seq<Event>)
  {
    Steps(sha, states, events) && states[0] == NewRun()
  }

  /** A refresh that was not refused and whose entries, all of them, were written to the record. */
  predicate Commits(e: Event)
  {
    e.Refreshed? && !e.outcome.Refused? && HowFar(e.f, |e.job.targets|).written
  }

  /** A refresh or quarantine that took the package at `p` out of the record. */
  predicate Unlists(e: Event, p: Path)
  {
    match e
    case Refreshed(job, _, f, outcome) => !outcome.Refused? && HowFar(f, |job.targets|).began && BelowAny(job.targets, p)
    case Quarantined(moves, _, f, result) => !result.NotAllowed? && f(0).next.Go? && f(1).Took() && BelowAny(moves, p)
    case _ => false
  }

  /** Where a listed entry comes from, one event back. */
  lemma ListedBefore(sha: Sha, s: State, e: Event, s': State, p: Path)
    requires Step(sha, s, e, s') && p in s'.record.packages
    ensures || (Commits(e) && Lists(sha, e.job, p, s'.record.packages[p]))
            || (p in s.record.packages && s.record.packages[p] == s'.record.packages[p] && !Unlists(e, p))
  {
    hide Outside, EachTarget, AsideBy, ClearedBy, Divided, InRun, OnShelf, BelowAny, HowFar, Fails, ClosingWrites, Clears, Movable;
    if e.Refreshed? {
      WrittenIsListed(e.f, |e.job.targets|);
    }
  }

  /** Every listed package was listed by a refresh that committed, and nothing has taken it out since. */
  lemma {:induction false} ListedIsCommitted(sha: Sha, states: seq<State>, events: seq<Event>, p: Path) returns (i: nat)
    requires History(sha, states, events) && p in states[|events|].record.packages
    ensures i < |events| && Commits(events[i]) && Lists(sha, events[i].job, p, states[|events|].record.packages[p])
    ensures forall j :: i < j < |events| ==> !Unlists(events[j], p)
    decreases |events|
  {
    hide Step, HowFar, Unlists, Lists;
    var n := |events|;
    if n == 0 {
      assert false;
    }
    var s, e, s' := states[n - 1], events[n - 1], states[n];
    ListedBefore(sha, s, e, s', p);
    if Commits(e) && Lists(sha, e.job, p, s'.record.packages[p]) {
      i := n - 1;
    } else {
      HistoryPrefix(sha, states, events);
      i := ListedIsCommitted(sha, states[..n], events[..n - 1], p);
      assert events[..n - 1][i] == events[i];
    }
  }

  lemma HistoryPrefix(sha: Sha, states: seq<State>, events: seq<Event>)
    requires History(sha, states, events) && events != []
    ensures History(sha, states[..|events|], events[..|events| - 1])
  {
    hide Step;
    var n := |events|;
    forall i | 0 <= i < n - 1 ensures Step(sha, states[..n][i], events[..n - 1][i], states[..n][i + 1]) {
      assert Step(sha, states[i], events[i], states[i + 1]);
    }
  }

  /** Over any history, a package verifies as current only if a refresh that named it committed as a whole, nothing has
      taken it out of the record since, nothing is pending, and its files are the ones that refresh sealed; or two
      files collide. */
  lemma CurrentIsSealed(sha: Sha, states: seq<State>, events: seq<Event>, p: Path) returns (i: nat)
    requires History(sha, states, events)
    requires var last := states[|events|]; IsCurrent(sha, last.tree, last.record, p)
    ensures i < |events| && Commits(events[i]) && events[i].job.Valid() && p in events[i].job.targets
    ensures forall j :: i < j < |events| ==> !Unlists(events[j], p)
    ensures states[|events|].record.pending.Idle?
    ensures var files, sealed := FilesOf(states[|events|].tree, p), events[i].job.Package(sha, p);
            files == sealed || Collision(sha, files.Values, sealed.Values)
  {
    hide Step, HowFar, Unlists, Passes, FilesOf;
    var last := states[|events|];
    i := ListedIsCommitted(sha, states, events, p);
    EntriesPass(sha, events[i].job);
    PassesUnique(sha, FilesOf(last.tree, p), events[i].job.Package(sha, p), last.record.packages[p]);
  }

  /** The committed refreshes of a state are those of its history, in order. */
  function CommittedBy(events: seq<Event>): seq<Refresh>
  {
    if events == [] then []
    else
      var last := events[|events| - 1];
      CommittedBy(events[..|events| - 1]) + if Commits(last) then [last.job] else []
  }

  lemma {:induction false} CommittedIsHistory(sha: Sha, states: seq<State>, events: seq<Event>)
    requires History(sha, states, events)
    ensures states[|events|].committed == CommittedBy(events)
    decreases |events|
  {
    if events != [] {
      var n := |events|;
      HistoryPrefix(sha, states, events);
      CommittedIsHistory(sha, states[..n], events[..n - 1]);
      OneCommit(sha, states[n - 1], events[n - 1], states[n]);
    }
  }

  lemma OneCommit(sha: Sha, s: State, e: Event, s': State)
    requires Step(sha, s, e, s')
    ensures s'.committed == s.committed + if Commits(e) then [e.job] else []
  {
    hide Leaves, Divided, InRun, OnShelf, Outside, Unlist, HowFar, Movable, Ending;
    assert s.committed + [] == s.committed;
  }

  // ----- the quarantine that cannot be recovered

  /** A quarantine is pending and its journal is gone. */
  predicate Stuck(s: State) { s.record.pending.Quarantining? && s.journal.None? }

  /** That is how a quarantine ends whose record write takes effect and still raises, and only such a one: every other
      state it leaves pending has its journal. */
  lemma StuckIff(sha: Sha, s: State, e: Event, s': State)
    requires Step(sha, s, e, s') && !Stuck(s)
    ensures Stuck(s') <==> e.Quarantined? && !e.result.NotAllowed? && e.f(0).next.Go? && e.f(1) == Fault(true, Raise)
  {
    hide Divided, InRun, OnShelf, Outside, Unlist, HowFar, EachTarget, AsideBy, ClearedBy, Movable, Going, StillOut, OutAtEnd, Ending, Fails, ClosingWrites;
  }

  /** No operation of the tools leads out: refresh and quarantine refuse, recovery has nothing to read. */
  lemma {:induction false} StuckForGood(sha: Sha, states: seq<State>, events: seq<Event>)
    requires Steps(sha, states, events) && Stuck(states[0])
    ensures forall i :: 0 <= i <= |events| ==> states[i] == states[0]
    ensures forall i :: 0 <= i < |events| ==>
              match events[i]
              case Refreshed(_, _, _, outcome) => outcome.Refused?
              case Quarantined(_, _, _, result) => result.NotAllowed?
              case Recovered(_, recovery) => recovery.NoJournal?
              case Edited(_) => false
    decreases |events|
  {
    if events != [] {
      assert Step(sha, states[0], events[0], states[1]);
      StuckStep(sha, states[0], events[0], states[1]);
      hide Step;
      var rest, more := states[1..], events[1..];
      forall i | 0 <= i < |more| ensures Step(sha, rest[i], more[i], rest[i + 1]) {
        assert Step(sha, states[i + 1], events[i + 1], states[i + 2]);
      }
      StuckForGood(sha, rest, more);
      forall i | 1 <= i <= |events| ensures states[i] == states[0] {
        assert rest[i - 1] == states[i];
      }
      forall i | 1 <= i < |events|
        ensures match events[i]
                case Refreshed(_, _, _, outcome) => outcome.Refused?
                case Quarantined(_, _, _, result) => result.NotAllowed?
                case Recovered(_, recovery) => recovery.NoJournal?
                case Edited(_) => false
      {
        assert more[i - 1] == events[i];
      }
    }
  }

  lemma StuckStep(sha: Sha, s: State, e: Event, s': State)
    requires Step(sha, s, e, s') && Stuck(s)
    ensures s' == s
    ensures match e
            case Refreshed(_, _, _, outcome) => outcome.Refused?
            case Quarantined(_, _, _, result) => result.NotAllowed?
            case Recovered(_, recovery) => recovery.NoJournal?
            case Edited(_) => false
  {
    hide Leaves, Divided, InRun, OnShelf, Outside, Unlist, Movable;
  }

  // ----- nothing is lost

  /** The file or folder `node` of path `k` is in the run, among its superseded packages, or in one of its quarantines. */
  ghost predicate Kept(s: State, k: Path, node: Node)
  {
    || (k in s.tree && s.tree[k] == node)
    || (exists x :: x in s.superseded && k in x.1 && x.1[k] == node)
    || (k in s.shelf && s.shelf[k] == node)
    || (exists t :: t in s.archive && k in t && t[k] == node)
  }

  /** A pending quarantine with its journal has every path whole on one side. */
  ghost predicate OnOneSide(s: State)
  {
    s.record.pending.Quarantining? && s.journal.Some? ==> Halfway(s.tree, s.shelf, s.origin, s.journal.value)
  }

  lemma StaysOnOneSide(sha: Sha, s: State, e: Event, s': State)
    requires Step(sha, s, e, s') && OnOneSide(s)
    ensures OnOneSide(s')
  {
    hide Take, Exists, OnShelf, InRun, Outside, Unlist, HowFar, EachTarget, AsideBy, ClearedBy, Clears, OutAtEnd, PairwiseApart, Fails, ClosingWrites,
         Ending, QuarantineEnding;
    if e.Quarantined? && !s.record.pending.Quarantining? {
      StartOfQuarantine(s.tree, e.moves);
      DividedIsHalfway(s'.tree, s'.shelf, s.tree, e.moves, OutAtEnd(e.f, |e.moves|));
    }
  }

  lemma TakeHas(t: Tree, p: Path, k: Path)
    requires Below(p, k)
    ensures (k in t <==> k in Take(t, p)) && (k in t ==> Take(t, p)[k] == t[k])
  {
  }

  lemma OutsideHas(t: Tree, paths: seq<Path>, k: Path)
    requires !BelowAny(paths, k)
    ensures (k in t <==> k in Outside(t, paths)) && (k in t ==> Outside(t, paths)[k] == t[k])
  {
  }

  lemma RefreshKeeps(sha: Sha, job: Refresh, c0: Contents, c1: Contents, f: Faults, k: Path)
    requires job.Valid() && Leaves(sha, job, c0, c1, f) && k in c0.tree
    ensures c0.superseded <= c1.superseded
    ensures (k in c1.tree && c1.tree[k] == c0.tree[k]) || exists x :: x in c1.superseded && k in x.1 && x.1[k] == c0.tree[k]
  {
    assert Outside(c0.tree, job.targets) == Outside(c1.tree, job.targets) && c0.superseded <= c1.superseded;
    hide Leaves, Take, Outside;
    if BelowAny(job.targets, k) {
      var i :| 0 <= i < |job.targets| && Below(job.targets[i], k);
      var p := job.targets[i];
      NoFileLost(sha, job, c0, c1, f, i);
      TakeHas(c0.tree, p, k);
      TakeHas(c1.tree, p, k);
      if (p, Take(c0.tree, p)) in c1.superseded {
        var x := (p, Take(c0.tree, p));
        assert x in c1.superseded && k in x.1;
      }
    } else {
      OutsideHas(c0.tree, job.targets, k);
      OutsideHas(c1.tree, job.targets, k);
    }
  }

  /** What lies below a path that is whole on one side, before and after, is still on one of the two sides. */
  lemma OneSideKeeps(t0: Tree, u0: Tree, t1: Tree, u1: Tree, origin: Tree, p: Path, k: Path)
    requires Below(p, k) && (InRun(t0, u0, origin, p) || OnShelf(t0, u0, origin, p))
    requires InRun(t1, u1, origin, p) || OnShelf(t1, u1, origin, p)
    ensures k in t0 ==> (k in t1 && t1[k] == t0[k]) || (k in u1 && u1[k] == t0[k])
    ensures k in u0 ==> (k in t1 && t1[k] == u0[k]) || (k in u1 && u1[k] == u0[k])
  {
    hide Take;
    TakeHas(t0, p, k);
    TakeHas(u0, p, k);
    TakeHas(t1, p, k);
    TakeHas(u1, p, k);
    TakeHas(origin, p, k);
  }

  lemma QuarantineKeeps(s: State, moves: seq<Path>, dest: Path, f: Faults, s': State, result: Quarantined, k: Path)
    requires QuarantineStep(s, moves, dest, f, s', result) && !s.record.pending.Quarantining? && k in s.tree
    ensures (k in s'.tree && s'.tree[k] == s.tree[k]) || (k in s'.shelf && s'.shelf[k] == s.tree[k])
  {
    hide Take, Outside, OutAtEnd, Clears, QuarantineEnding, Unlist;
    if BelowAny(moves, k) {
      var i :| 0 <= i < |moves| && Below(moves[i], k);
      TakeHas(s.tree, moves[i], k);
      TakeHas(s'.tree, moves[i], k);
      TakeHas(s'.shelf, moves[i], k);
    } else {
      OutsideHas(s.tree, moves, k);
      OutsideHas(s'.tree, moves, k);
    }
  }

  lemma RecoveryKeeps(s: State, f: Faults, s': State, result: Recovery, k: Path)
    requires RecoverStep(s, f, s', result) && s.record.pending.Quarantining? && s.journal.Some?
    requires Halfway(s.tree, s.shelf, s.origin, s.journal.value)
    ensures k in s.tree ==> (k in s'.tree && s'.tree[k] == s.tree[k]) || (k in s'.shelf && s'.shelf[k] == s.tree[k])
    ensures k in s.shelf ==> (k in s'.tree && s'.tree[k] == s.shelf[k]) || (k in s'.shelf && s'.shelf[k] == s.shelf[k])
  {
    hide Take, Outside, Unlist, PairwiseApart, InRun, OnShelf, Exists, Passed;
    var moves := s.journal.value;
    if BelowAny(moves, k) {
      var i :| 0 <= i < |moves| && Below(moves[i], k);
      OneSideKeeps(s.tree, s.shelf, s'.tree, s'.shelf, s.origin, moves[i], k);
    } else {
      OutsideHas(s.tree, moves, k);
      OutsideHas(s'.tree, moves, k);
      OutsideHas(s.shelf, moves, k);
      OutsideHas(s'.shelf, moves, k);
    }
  }

  lemma StepKeeps(sha: Sha, s: State, e: Event, s': State, k: Path, node: Node)
    requires Step(sha, s, e, s') && !e.Edited? && OnOneSide(s) && Kept(s, k, node)
    ensures Kept(s', k, node)
  {
    hide Leaves, QuarantineStep, RecoverStep, Halfway, Movable;
    match e
    case Refreshed(job, replace, f, outcome) =>
      if !outcome.Refused? {
        if k in s.tree && s.tree[k] == node {
          RefreshKeeps(sha, job, s.Held(), s'.Held(), f, k);
        }
        LeavesMore(sha, job, s.Held(), s'.Held(), f);
      }
    case Quarantined(moves, dest, f, result) =>
      QuarantineGrows(s, moves, dest, f, s', result);
      if !s.record.pending.Quarantining? && k in s.tree && s.tree[k] == node {
        QuarantineKeeps(s, moves, dest, f, s', result, k);
      }
    case Recovered(f, recovery) =>
      RecoveryFrame(s, f, s', recovery);
      if s.record.pending.Quarantining? && s.journal.Some? {
        RecoveryKeeps(s, f, s', recovery, k);
      }
  }

  lemma LeavesMore(sha: Sha, job: Refresh, c0: Contents, c1: Contents, f: Faults)
    requires job.Valid() && Leaves(sha, job, c0, c1, f)
    ensures c0.superseded <= c1.superseded
  {
  }

  lemma QuarantineGrows(s: State, moves: seq<Path>, dest: Path, f: Faults, s': State, result: Quarantined)
    requires QuarantineStep(s, moves, dest, f, s', result)
    ensures s'.superseded == s.superseded
    ensures if s.record.pending.Quarantining? then s' == s else s'.archive == s.archive + [s.shelf]
  {
  }

  lemma RecoveryFrame(s: State, f: Faults, s': State, result: Recovery)
    requires RecoverStep(s, f, s', result)
    ensures s'.superseded == s.superseded && s'.archive == s.archive
    ensures (s.record.pending.Quarantining? && s.journal.Some?) || s' == s
  {
  }

  /** Whatever the tools do and wherever they fail or are killed, no file of the run is lost: what was in it at some time
      is still in it later, among its superseded packages, or in one of its quarantines. */
  lemma {:induction false} NothingIsLost(sha: Sha, states: seq<State>, events: seq<Event>, i: nat, j: nat, k: Path)
    requires Steps(sha, states, events) && OnOneSide(states[0]) && i <= j <= |events| && k in states[i].tree
    requires forall n :: i <= n < j ==> !events[n].Edited?
    ensures Kept(states[j], k, states[i].tree[k]) && OnOneSide(states[j])
    decreases j
  {
    hide Step, OnOneSide;
    if i < j {
      NothingIsLost(sha, states, events, i, j - 1, k);
      StepKeeps(sha, states[j - 1], events[j - 1], states[j], k, states[i].tree[k]);
      StaysOnOneSide(sha, states[j - 1], events[j - 1], states[j]);
    } else if j > 0 {
      AlwaysOnOneSide(sha, states, events, j);
    }
  }

  lemma {:induction false} AlwaysOnOneSide(sha: Sha, states: seq<State>, events: seq<Event>, j: nat)
    requires Steps(sha, states, events) && OnOneSide(states[0]) && j <= |events|
    ensures OnOneSide(states[j])
  {
    hide Step, OnOneSide;
    if j > 0 {
      AlwaysOnOneSide(sha, states, events, j - 1);
      StaysOnOneSide(sha, states[j - 1], events[j - 1], states[j]);
    }
  }
}
