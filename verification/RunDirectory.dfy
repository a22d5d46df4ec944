/** A claims run directory: its tree, the record `PACKAGES.json`, and the operations that change them, each of
    which may fail or be killed between any two steps (bridge-claims/tools/package.py and quarantine.py). */
module RunDirectory {
  import opened FileTree
  import opened Options
  import opened SealedPackage

  datatype Pending = Idle | Refreshing(targets: seq<Path>) | Quarantining(dest: Path)

  datatype Record = Record(pending: Pending, packages: map<Path, Entry>)

  /** How a step ends: the code goes on, an exception is raised, or the process is killed. */
  datatype Next = Go | Raise | Stop

  /** What happens to one atomic step: an exception or a kill may come before or after it takes effect. */
  datatype Fault = Fault(effect: bool, next: Next)
  {
    predicate Took() { effect || next.Go? }

    /** A plain rename that raises has had no effect. */
    predicate Moved() { next.Go? || (effect && next.Stop?) }
  }

  /** The fate of every step of an operation, by position. */
  type Faults = nat -> Fault

  // ----- paths of packages

  function Child(p: Path, name: string): Path { p + "/" + name }

  /** The path of `k` relative to `p`. */
  function Relative(p: Path, k: Path): string
    requires p + "/" <= k
  {
    k[|p| + 1..]
  }

  lemma ChildRelative(p: Path)
    ensures forall k :: p + "/" <= k ==> Child(p, Relative(p, k)) == k
    ensures forall name :: p + "/" <= Child(p, name) && Relative(p, Child(p, name)) == name
  {
  }

  /** The files of the package at `p`. */
  function FilesOf(t: Tree, p: Path): Files
  {
    ChildRelative(p);
    map k | k in t && p + "/" <= k && t[k].File? :: Relative(p, k) := t[k].content
  }

  /** A package's files as they lie at `p`. */
  function Place(p: Path, files: Files): Tree
  {
    ChildRelative(p);
    map name | name in files :: Child(p, name) := File(files[name])
  }

  lemma FileIn(t: Tree, p: Path, name: string)
    ensures name in FilesOf(t, p) <==> Child(p, name) in t && t[Child(p, name)].File?
    ensures name in FilesOf(t, p) ==> FilesOf(t, p)[name] == t[Child(p, name)].content
  {
    ChildRelative(p);
    hide Child, Relative;
  }

  lemma PlacedIn(p: Path, files: Files, name: string)
    ensures Below(p, Child(p, name)) && (Child(p, name) in Place(p, files) <==> name in files)
    ensures name in files ==> Place(p, files)[Child(p, name)] == File(files[name])
  {
    ChildRelative(p);
  }

  lemma FilesOfPlace(t: Tree, p: Path, files: Files)
    requires !Exists(t, p)
    ensures FilesOf(t + Place(p, files), p) == files
  {
    var t' := t + Place(p, files);
    var found := FilesOf(t', p);
    forall name ensures (name in found <==> name in files) && (name in files ==> found[name] == files[name]) {
      FileIn(t', p, name);
      PlacedIn(p, files, name);
      hide FilesOf, Place, Child;
      assert Child(p, name) !in t;
    }
  }

  lemma FilesOfTake(t: Tree, u: Tree, p: Path)
    requires Take(t, p) == Take(u, p)
    ensures FilesOf(t, p) == FilesOf(u, p)
  {
    forall k | p + "/" <= k ensures k in t <==> k in u {
      assert k in Take(t, p) <==> k in t;
      assert k in Take(u, p) <==> k in u;
    }
    forall k | k in t && p + "/" <= k ensures t[k] == u[k] {
      assert Take(t, p)[k] == t[k] && Take(u, p)[k] == u[k];
    }
  }

  lemma NothingThere(t: Tree, p: Path)
    requires Take(t, p) == map[]
    ensures FilesOf(t, p) == map[]
  {
    FilesOfTake(t, map[], p);
  }

  predicate BelowAny(ps: seq<Path>, k: Path) { exists i :: 0 <= i < |ps| && Below(ps[i], k) }

  /** `unlist`: every listed package at or below one of `paths` is dropped. */
  function Unlist(packages: map<Path, Entry>, paths: seq<Path>): map<Path, Entry>
  {
    map p | p in packages && !BelowAny(paths, p) :: packages[p]
  }

  /** The tree outside `paths`. */
  function Outside(t: Tree, paths: seq<Path>): Tree
  {
    map k | k in t && !BelowAny(paths, k) :: t[k]
  }

  ghost predicate ApartFromAll(q: Path, paths: seq<Path>)
  {
    forall i :: 0 <= i < |paths| ==> Apart(paths[i], q)
  }

  lemma OutsideTake(t: Tree, u: Tree, paths: seq<Path>, q: Path)
    requires Outside(t, paths) == Outside(u, paths) && ApartFromAll(q, paths)
    ensures Take(t, q) == Take(u, q)
  {
    forall k | Below(q, k) ensures !BelowAny(paths, k) {
      if i :| 0 <= i < |paths| && Below(paths[i], k) {
        BelowBoth(paths[i], q, k);
      }
    }
    forall k | Below(q, k) ensures (k in t <==> k in u) && (k in t ==> t[k] == u[k]) {
      assert k in Outside(t, paths) <==> k in t;
      assert k in Outside(u, paths) <==> k in u;
    }
  }

  lemma OutsideDrop(t: Tree, paths: seq<Path>, i: nat)
    requires i < |paths|
    ensures Outside(Drop(t, paths[i]), paths) == Outside(t, paths)
  {
  }

  lemma OutsidePlace(t: Tree, paths: seq<Path>, i: nat, files: Files)
    requires i < |paths|
    ensures Outside(t + Place(paths[i], files), paths) == Outside(t, paths)
  {
    forall name | name in files ensures BelowAny(paths, Child(paths[i], name)) {
      assert Below(paths[i], Child(paths[i], name));
    }
  }

  lemma TakePlaceOther(t: Tree, p: Path, files: Files, q: Path)
    requires Apart(p, q)
    ensures Take(t + Place(p, files), q) == Take(t, q)
  {
    forall name | name in files ensures !Below(q, Child(p, name)) {
      if Below(q, Child(p, name)) {
        BelowBoth(p, q, Child(p, name));
      }
    }
  }

  // ----- a refresh

  /** What one refresh publishes. */
  datatype Refresh = Refresh(targets: seq<Path>, built: map<Path, Files>, order: map<Path, seq<string>>, generation: string)
  {
    ghost predicate Valid()
    {
      && PlainGeneration(generation)
      && (forall t :: t in targets ==>
            (t in built && t in order && Listing(built[t][GENERATION := generation + "\n"], order[t])))
      && PairwiseApart(targets)
    }

    function Package(sha: Sha, t: Path): Files
      requires Valid() && t in targets
    {
      Sealed(sha, built[t], generation, order[t])
    }

    function EntryOf(sha: Sha, t: Path): Entry
      requires Valid() && t in targets
    {
      Entry(generation, sha(Package(sha, t)[MANIFEST]))
    }

    function Entries(sha: Sha): map<Path, Entry>
      requires Valid()
    {
      map t | t in targets :: EntryOf(sha, t)
    }
  }

  /** `verify` reports the package at `p` current. */
  ghost predicate IsCurrent(sha: Sha, tree: Tree, record: Record, p: Path)
  {
    p in record.packages && record.pending.Idle? && Passes(sha, FilesOf(tree, p), record.packages[p])
  }

  datatype Outcome = Refused | Published | Raised | Killed

  // Steps of a refresh of n targets: 0 first record write, 1 build and seal, then n moves aside, n renames into
  // place, the listing write at 2 + 2n, and in `fail_closed` n moves aside and the closing write at 3 + 3n.

  predicate AllGo(f: Faults, lo: nat, hi: nat) { forall k :: lo <= k < hi ==> f(k).next.Go? }

  predicate NoStop(f: Faults, lo: nat, hi: nat) { forall k :: lo <= k < hi ==> !f(k).next.Stop? }

  /** Some step from `lo` on is reached and raises, before `hi`. */
  predicate RaisedIn(f: Faults, lo: nat, hi: nat) { exists k :: lo <= k < hi && AllGo(f, 0, k) && f(k).next.Raise? }

  /** How far a refresh of n targets gets. */
  function HowFar(f: Faults, n: nat): Reached
  {
    var listed := AllGo(f, 0, 2 + 2 * n);
    Reached(
      f(0).Took(),
      listed,
      listed && (f(2 + 2 * n).Took() || (f(2 + 2 * n).next.Raise? && ClosingWrites(f, n))))
  }

  /** How far a refresh got: `began` its first record write took effect, `listed` every target was in place and
      its entry in the record in memory, `written` a record with these entries was written. */
  datatype Reached = Reached(began: bool, listed: bool, written: bool)

  /** The package that was at target i is moved aside for the new one. */
  predicate Aside(f: Faults, i: nat) { AllGo(f, 0, 2 + i) && f(2 + i).Took() }

  /** The new package is renamed into place at target i. */
  predicate Installed(f: Faults, n: nat, i: nat) { AllGo(f, 0, 2 + n + i) && f(2 + n + i).Took() }

  /** After the first record write something raises, and `fail_closed` runs. */
  predicate Fails(f: Faults, n: nat) { RaisedIn(f, 1, 3 + 2 * n) }

  /** `fail_closed` comes as far as target i, and the move takes effect. */
  predicate Cleared(f: Faults, n: nat, i: nat)
  {
    Fails(f, n) && NoStop(f, 3 + 2 * n, 3 + 2 * n + i) && f(3 + 2 * n + i).Took()
  }

  /** The closing record write of `fail_closed` takes effect, if it is reached. */
  predicate ClosingWrites(f: Faults, n: nat)
  {
    NoStop(f, 3 + 2 * n, 3 + 3 * n) && f(3 + 3 * n).Took()
  }

  /** What is at target i when the packages are in place, or when something went wrong before that. */
  ghost function TargetAt(sha: Sha, job: Refresh, t0: Tree, f: Faults, i: nat): Tree
    requires job.Valid() && i < |job.targets|
  {
    var p := job.targets[i];
    if Installed(f, |job.targets|, i) then Place(p, job.Package(sha, p))
    else if Aside(f, i) then map[]
    else Take(t0, p)
  }

  /** The earlier packages of the first m targets that were moved aside. */
  ghost function AsideBy(targets: seq<Path>, t0: Tree, f: Faults, m: nat): seq<(Path, Tree)>
    requires m <= |targets|
  {
    if m == 0 then []
    else
      var p := targets[m - 1];
      AsideBy(targets, t0, f, m - 1) + if Aside(f, m - 1) && Exists(t0, p) then [(p, Take(t0, p))] else []
  }

  /** What `fail_closed` moved aside from the first m targets. */
  ghost function ClearedBy(sha: Sha, job: Refresh, t0: Tree, f: Faults, m: nat): seq<(Path, Tree)>
    requires job.Valid() && m <= |job.targets|
  {
    if m == 0 then []
    else
      var p, there := job.targets[m - 1], TargetAt(sha, job, t0, f, m - 1);
      ClearedBy(sha, job, t0, f, m - 1) + if Cleared(f, |job.targets|, m - 1) && there != map[] then [(p, there)] else []
  }

  /** The record a refresh leaves: with the new entries once they were written, else without any entry of a target; pending
      until a closing write takes effect. */
  ghost function RecordAfter(sha: Sha, job: Refresh, r0: Record, f: Faults): Record
    requires job.Valid()
  {
    var rest, how := Unlist(r0.packages, job.targets), HowFar(f, |job.targets|);
    if !how.began then r0
    else if how.written then Record(Idle, rest + job.Entries(sha))
    else if Fails(f, |job.targets|) && ClosingWrites(f, |job.targets|) then Record(Idle, rest)
    else Record(Refreshing(job.targets), rest)
  }

  /** The part of a run that a refresh changes. */
  datatype Contents = Contents(tree: Tree, record: Record, superseded: seq<(Path, Tree)>)

  /** What a refresh leaves behind, however it ends: the record, each target and the superseded packages are determined by
      the faults, and the tree outside the targets is untouched. */
  ghost predicate Leaves(sha: Sha, job: Refresh, c0: Contents, c1: Contents, f: Faults)
    requires job.Valid()
  {
    var n := |job.targets|;
    && Outside(c1.tree, job.targets) == Outside(c0.tree, job.targets)
    && (!HowFar(f, n).began ==> c1 == c0)
    && c1.record == RecordAfter(sha, job, c0.record, f)
    && EachTarget(sha, job, c0.tree, c1.tree, f)
    && c1.superseded == c0.superseded + AsideBy(job.targets, c0.tree, f, n) + ClearedBy(sha, job, c0.tree, f, n)
  }

  ghost predicate EachTarget(sha: Sha, job: Refresh, t0: Tree, t1: Tree, f: Faults)
    requires job.Valid()
  {
    forall i :: 0 <= i < |job.targets| ==>
      Take(t1, job.targets[i]) == if Cleared(f, |job.targets|, i) then map[] else TargetAt(sha, job, t0, f, i)
  }

  ghost predicate PairwiseApart(ps: seq<Path>)
  {
    forall i, j :: 0 <= i < j < |ps| ==> Apart(ps[i], ps[j])
  }

  /** A run directory between two operations. */
  datatype State = State(
    tree: Tree, record: Record, superseded: seq<(Path, Tree)>, shelf: Tree, journal: Option<seq<Path>>, archive: seq<Tree>,
    origin: Tree, committed: seq<Refresh>)
  {
    function Held(): Contents { Contents(tree, record, superseded) }
  }

  function NewRun(): State { State(map[], Record(Idle, map[]), [], map[], None, [], map[], []) }

  /** One call of `staged`: refused before anything changes, or leaving what its faults say; it is committed exactly when
      a record with its entries was written. */
  ghost predicate RefreshStep(sha: Sha, s: State, job: Refresh, replace: bool, f: Faults, s': State, outcome: Outcome)
    requires job.Valid()
  {
    && (outcome.Refused? <==>
          (s.record.pending.Quarantining?
           || (!replace && exists i :: 0 <= i < |job.targets| && Exists(s.tree, job.targets[i]))))
    && (outcome.Refused? ==> s' == s)
    && (!outcome.Refused? ==>
          && Leaves(sha, job, s.Held(), s'.Held(), f)
          && s' == s.(tree := s'.tree, record := s'.record, superseded := s'.superseded,
                      committed := if HowFar(f, |job.targets|).written then s.committed + [job] else s.committed)
          && outcome == Ending(f, |job.targets|))
  }

  /** How a refresh of n targets that is not refused ends. */
  function Ending(f: Faults, n: nat): Outcome
  {
    if AllGo(f, 0, 3 + 2 * n) then Published
    else if f(0).next.Raise? || (Fails(f, n) && NoStop(f, 3 + 2 * n, 4 + 3 * n)) then Raised
    else Killed
  }

  // ----- a quarantine

  // Steps of a quarantine of n paths: 0 journal, 1 record, then n moves, n moves back (path i at 2 + n + i), the closing
  // writes of a rollback at 2 + 2n and 3 + 2n, and those of a completed quarantine at 4 + 2n and 5 + 2n.

  /** How many of the n steps from `base` on go, before the first that does not. */
  function Going(f: Faults, base: nat, n: nat): (d: nat)
    ensures d <= n && AllGo(f, base, base + d) && (d < n ==> !f(base + d).next.Go?)
  {
    if n == 0 then 0
    else
      var d := Going(f, base, n - 1);
      if d == n - 1 && f(base + d).next.Go? then n else d
  }

  /** How many of d moved paths are still out when the rollback, which starts with the last one, ends. */
  function StillOut(f: Faults, base: nat, d: nat): (left: nat)
    ensures left <= d && (AllGo(f, base, base + d) ==> left == 0)
  {
    if d == 0 then 0
    else if f(base + d - 1).next.Go? then StillOut(f, base, d - 1)
    else if f(base + d - 1).Moved() then d - 1
    else d
  }

  /** How many of the n paths, from the first on, end in the quarantine. */
  function OutAtEnd(f: Faults, n: nat): nat
  {
    var d := Going(f, 2, n);
    if !AllGo(f, 0, 2) then 0
    else if d == n then n
    else if f(2 + d).next.Raise? then StillOut(f, 2 + n, d)
    else if f(2 + d).Moved() then d + 1
    else d
  }

  /** Everything is moved. */
  predicate MovesAll(f: Faults, n: nat) { AllGo(f, 0, 2 + n) }

  /** The first move that does not go raises, and every path moved before it is put back. */
  predicate RollsBack(f: Faults, n: nat)
  {
    var d := Going(f, 2, n);
    AllGo(f, 0, 2) && d < n && f(2 + d).next.Raise? && AllGo(f, 2 + n, 2 + n + d)
  }

  /** The record write that clears `pending` takes effect. */
  predicate Clears(f: Faults, n: nat)
  {
    || (MovesAll(f, n) && f(4 + 2 * n).next.Go? && f(5 + 2 * n).Took())
    || (RollsBack(f, n) && f(2 + 2 * n).next.Go? && f(3 + 2 * n).Took())
  }

  function QuarantineEnding(f: Faults, n: nat): Quarantined
  {
    if MovesAll(f, n) && AllGo(f, 4 + 2 * n, 6 + 2 * n) then Completed
    else if RollsBack(f, n) && AllGo(f, 2 + 2 * n, 4 + 2 * n) then PutBack
    else Interrupted
  }

  /** Paths that `planned_paths` can return. */
  ghost predicate Movable(tree: Tree, moves: seq<Path>)
  {
    PairwiseApart(moves) && moves != [] && forall i :: 0 <= i < |moves| ==> Exists(tree, moves[i])
  }

  /** The first `out` paths are in the quarantine, the others in the run, all as they were. */
  ghost predicate Divided(tree: Tree, shelf: Tree, origin: Tree, moves: seq<Path>, out: nat)
  {
    forall i :: 0 <= i < |moves| ==> if i < out then OnShelf(tree, shelf, origin, moves[i]) else InRun(tree, shelf, origin, moves[i])
  }

  /** One call of `quarantine` on the planned paths: the whole new state as its faults determine it. When the record write
      that sets `pending` raises, the journal is removed even if the write took effect. */
  ghost predicate QuarantineStep(s: State, moves: seq<Path>, dest: Path, f: Faults, s': State, result: Quarantined)
  {
    var rest, n := Unlist(s.record.packages, moves), |moves|;
    if s.record.pending.Quarantining? then s' == s && result.NotAllowed?
    else
      && s' == s.(tree := s'.tree, shelf := s'.shelf, origin := s.tree, archive := s.archive + [s.shelf],
                  record := if f(0).next.Go? && f(1).Took() then Record(if Clears(f, n) then Idle else Quarantining(dest), rest)
                            else s.record,
                  journal := if f(0).Took() && !f(0).next.Raise? && !(f(0).next.Go? && f(1).next.Raise?) then Some(moves) else None)
      && Outside(s'.tree, moves) == Outside(s.tree, moves) && Outside(s'.shelf, moves) == map[]
      && Divided(s'.tree, s'.shelf, s.tree, moves, OutAtEnd(f, n))
      && result == QuarantineEnding(f, n)
  }

  /** All or none: a quarantine that completes has every path only on the shelf, and one that was put back leaves the tree
      exactly as it was. */
  lemma AllMovedOrNone(s: State, moves: seq<Path>, dest: Path, f: Faults, s': State, result: Quarantined)
    requires QuarantineStep(s, moves, dest, f, s', result)
    ensures result.Completed? ==>
              && s'.record == Record(Idle, Unlist(s.record.packages, moves))
              && forall i :: 0 <= i < |moves| ==> OnShelf(s'.tree, s'.shelf, s.tree, moves[i])
    ensures result.PutBack? ==>
              s'.tree == s.tree && s'.shelf == map[] && s'.record == Record(Idle, Unlist(s.record.packages, moves))
  {
    hide OnShelf, InRun, Outside, Unlist;
    if result.PutBack? {
      BackAsItWas(s'.tree, s'.shelf, s.tree, moves);
    }
  }

  /** Recovery gets past the first k paths: the ones still in the run move. */
  predicate Passed(f: Faults, tree: Tree, moves: seq<Path>, k: nat)
    requires k <= |moves|
  {
    forall j :: 0 <= j < k && Exists(tree, moves[j]) ==> f(j).next.Go?
  }

  /** One call of `recover`: the whole new state as its faults determine it. Step i moves path i, if it is still in the
      run; the closing writes come after the last. */
  ghost predicate RecoverStep(s: State, f: Faults, s': State, result: Recovery)
  {
    if !s.record.pending.Quarantining? then s' == s && result.NothingToRecover?
    else if s.journal.None? then s' == s && result.NoJournal?
    else
      var moves, n := s.journal.value, |s.journal.value|;
      && s' == s.(tree := s'.tree, shelf := s'.shelf,
                  record := if Passed(f, s.tree, moves, n) && f(n).next.Go? && f(n + 1).Took()
                            then Record(Idle, Unlist(s.record.packages, moves)) else s.record)
      && Outside(s'.tree, moves) == Outside(s.tree, moves) && Outside(s'.shelf, moves) == Outside(s.shelf, moves)
      && (forall k :: 0 <= k < n ==>
            if !Exists(s.tree, moves[k]) || (Passed(f, s.tree, moves, k) && f(k).Moved())
            then OnShelf(s'.tree, s'.shelf, s.origin, moves[k]) else InRun(s'.tree, s'.shelf, s.origin, moves[k]))
      && result == if Passed(f, s.tree, moves, n) && AllGo(f, n, n + 2) then Recovered else RecoveryInterrupted
  }

  class RunDir {
    const sha: Sha
    var tree: Tree
    var record: Record
    var superseded: seq<(Path, Tree)>     // packages moved aside, never current
    ghost var committed: seq<Refresh>     // the refreshes whose entries were written, oldest first
    var shelf: Tree                       // the latest quarantine/<time>/, by path relative to the run
    var journal: Option<seq<Path>>        // its QUARANTINE.json, the paths it moves
    var archive: seq<Tree>                // earlier quarantines
    ghost var origin: Tree                // the tree when the latest quarantine started

    ghost function Now(): State
      reads this
    {
      State(tree, record, superseded, shelf, journal, archive, origin, committed)
    }

    /** Every listed entry is the one a committed refresh wrote for that path; a pending quarantine with its journal
        has every path whole on one side. */
    ghost predicate Valid()
      reads this
    {
      && AllCommitted(sha, record.packages, committed)
      && (record.pending.Quarantining? && journal.Some? ==> Halfway(tree, shelf, origin, journal.value))
    }

    constructor (sha: Sha)
      ensures Valid() && this.sha == sha && Now() == NewRun()
    {
      this.sha := sha;
      tree, superseded, committed := map[], [], [];
      shelf, journal, archive, origin := map[], None, [], map[];
      record := Record(Idle, map[]);
    }

    /** `write_record`: an atomic replacement. */
    method WriteRecord(r: Record, fault: Fault)
      modifies `record
      ensures record == if fault.Took() then r else old(record)
    {
      if fault.Took() {
        record := r;
      }
    }

    /** `set_aside`: an atomic rename, nothing when nothing is there. */
    method SetAside(target: Path, fault: Fault)
      modifies `tree, `superseded
      ensures tree == if fault.Took() then Drop(old(tree), target) else old(tree)
      ensures superseded == if fault.Took() && Exists(old(tree), target)
                            then old(superseded) + [(target, Take(old(tree), target))] else old(superseded)
    {
      if fault.Took() && Exists(tree, target) {
        superseded := superseded + [(target, Take(tree, target))];
        tree := Drop(tree, target);
      } else {
        NothingToDrop(tree, target);
      }
    }

    /** `fail_closed`: move whatever is at every target aside, going on when a move fails, and write the record in
        hand with `pending` cleared. Steps of it start at `base`. */
    method FailClosed(targets: seq<Path>, r: Record, f: Faults, base: nat) returns (killed: bool)
      requires PairwiseApart(targets)
      modifies `tree, `superseded, `record
      ensures Outside(tree, targets) == Outside(old(tree), targets)
      ensures forall i :: 0 <= i < |targets| ==>
                (Take(tree, targets[i]) ==
                 if NoStop(f, base, base + i) && f(base + i).Took() then map[] else Take(old(tree), targets[i]))
      ensures superseded == old(superseded) + SetAsides(targets, old(tree), f, base, |targets|)
      ensures record == if NoStop(f, base, base + |targets|) && f(base + |targets|).Took()
                        then r.(pending := Idle) else old(record)
      ensures killed <==> !NoStop(f, base, base + |targets| + 1)
    {
      hide Outside, Take, Drop, Apart, Exists, PairwiseApart, Emptied, NoStop, SetAsides;
      ghost var t0 := tree;
      var i := 0;
      NoneEmptied(targets, t0, f, base);
      while i < |targets|
        invariant 0 <= i <= |targets| && NoStop(f, base, base + i) && record == old(record)
        invariant Emptied(targets, t0, tree, f, base, i)
        invariant superseded == old(superseded) + SetAsides(targets, t0, f, base, i)
      {
        EmptyOne(targets, t0, tree, f, base, i);
        SetAsidesNext(targets, t0, f, base, i);
        SetAside(targets[i], f(base + i));
        if f(base + i).next.Stop? {
          SetAsidesStop(targets, t0, f, base, i, |targets|);
          StopShows(f, base, i, |targets|);
          EmptiedUntilStop(targets, t0, tree, f, base, i + 1);
          return true;
        }
        i := i + 1;
      }
      EmptiedUntilStop(targets, t0, tree, f, base, i);
      NoStopNext(f, base, i);
      WriteRecord(r.(pending := Idle), f(base + i));
      killed := f(base + i).next.Stop?;
    }

    /** Move the earlier packages aside. Steps of it start at 2. */
    method MakeRoom(job: Refresh, f: Faults) returns (next: Next)
      requires job.Valid() && PairwiseApart(job.targets) && AllGo(f, 0, 2)
      modifies `tree, `superseded
      ensures Outside(tree, job.targets) == Outside(old(tree), job.targets)
      ensures forall i :: 0 <= i < |job.targets| ==>
                Take(tree, job.targets[i]) == if Aside(f, i) then map[] else Take(old(tree), job.targets[i])
      ensures superseded == old(superseded) + AsideBy(job.targets, old(tree), f, |job.targets|)
      ensures next.Go? <==> AllGo(f, 0, 2 + |job.targets|)
      ensures next.Raise? <==> RaisedIn(f, 2, 2 + |job.targets|)
    {
      hide Outside, Take, Drop, Apart, Exists, PairwiseApart, Emptied, Refresh.Valid, AllGo, AsideBy, Aside, RaisedIn;
      ghost var t0 := tree;
      next := Go;
      var i, n := 0, |job.targets|;
      NoneEmptied(job.targets, t0, f, 2);
      NoneAside(job.targets, t0, f);
      while i < n
        invariant 0 <= i <= n && AllGo(f, 0, 2 + i) && next.Go?
        invariant Emptied(job.targets, t0, tree, f, 2, i)
        invariant superseded == old(superseded) + AsideBy(job.targets, t0, f, i)
      {
        EmptyOne(job.targets, t0, tree, f, 2, i);
        AsideNext(job.targets, t0, f, i);
        SetAside(job.targets[i], f(2 + i));
        if !f(2 + i).next.Go? {
          StopsAt(f, 2 + i, 2, 2 + n);
          AsideByStop(job.targets, t0, f, i, n);
          EmptiedIsAside(job.targets, t0, tree, f, i + 1);
          return f(2 + i).next;
        }
        i := i + 1;
      }
      EmptiedIsAside(job.targets, t0, tree, f, n);
      NoneRaised(f, 2, 2 + n);
    }

    /** Rename the new packages into place. Steps of it start at 2 + n. */
    method Install(job: Refresh, f: Faults) returns (next: Next)
      requires job.Valid() && AllGo(f, 0, 2 + |job.targets|)
      requires forall i :: 0 <= i < |job.targets| ==> Take(tree, job.targets[i]) == map[]
      modifies `tree
      ensures Outside(tree, job.targets) == Outside(old(tree), job.targets)
      ensures forall i :: 0 <= i < |job.targets| ==>
                Take(tree, job.targets[i]) ==
                if Installed(f, |job.targets|, i) then Place(job.targets[i], job.Package(sha, job.targets[i])) else map[]
      ensures next.Go? <==> AllGo(f, 0, 2 + 2 * |job.targets|)
      ensures next.Raise? <==> RaisedIn(f, 2 + |job.targets|, 2 + 2 * |job.targets|)
    {
      hide Outside, Take, Drop, Place, Apart, PairwiseApart, Refresh.Valid, Refresh.Package;
      next := Go;
      var i, n := 0, |job.targets|;
      while i < n
        invariant 0 <= i <= n && AllGo(f, 0, 2 + n + i) && next.Go?
        invariant Outside(tree, job.targets) == Outside(old(tree), job.targets)
        invariant forall k :: 0 <= k < i ==> Take(tree, job.targets[k]) == Place(job.targets[k], job.Package(sha, job.targets[k]))
        invariant forall k :: i <= k < n ==> Take(tree, job.targets[k]) == map[]
      {
        if f(2 + n + i).Took() {
          InstalledAt(tree, job, sha, i);
          tree := tree + Place(job.targets[i], job.Package(sha, job.targets[i]));
        }
        if !f(2 + n + i).next.Go? {
          return f(2 + n + i).next;
        }
        i := i + 1;
      }
    }

    /** What `staged` does between its first record write and the end, or the exception that `fail_closed` answers: build
        and seal, make room, rename into place, list the targets. `inHand` is the record in memory then. */
    method Enter(job: Refresh, f: Faults) returns (next: Next, inHand: Record)
      requires job.Valid() && AllGo(f, 0, 1)
      modifies `tree, `superseded, `record
      ensures Outside(tree, job.targets) == Outside(old(tree), job.targets)
      ensures forall i :: 0 <= i < |job.targets| ==> Take(tree, job.targets[i]) == TargetAt(sha, job, old(tree), f, i)
      ensures superseded == old(superseded) + AsideBy(job.targets, old(tree), f, |job.targets|)
      ensures inHand == if HowFar(f, |job.targets|).listed then Record(Idle, old(record.packages) + job.Entries(sha)) else old(record)
      ensures record == if AllGo(f, 0, 2 + 2 * |job.targets|) && f(2 + 2 * |job.targets|).Took() then inHand else old(record)
      ensures next.Go? <==> AllGo(f, 0, 3 + 2 * |job.targets|)
      ensures next.Raise? <==> Fails(f, |job.targets|)
    {
      hide Outside, Take, Place, Exists, AsideBy, Refresh.Entries;
      var n := |job.targets|;
      inHand, next := record, f(1).next;                 // build and seal in the staging directories
      if !next.Go? {
        NotBegun(job.targets, tree, f, n);
        return;
      }
      next := MakeRoom(job, f);
      if !next.Go? {
        return;
      }
      next := Install(job, f);
      if !next.Go? {
        return;
      }
      inHand := Record(Idle, record.packages + job.Entries(sha));
      WriteRecord(inHand, f(2 + 2 * n));
      next := f(2 + 2 * n).next;
    }

    /** `staged`: take the targets out of the record, build and seal every package, move the earlier ones aside,
        put the new ones in place, list them. */
    method RunRefresh(job: Refresh, replace: bool, f: Faults) returns (outcome: Outcome)
      requires Valid() && job.Valid()
      modifies `tree, `superseded, `record, `committed
      ensures Valid() && RefreshStep(sha, old(Now()), job, replace, f, Now(), outcome)
    {
      hide Leaves, AllCommitted, HowFar, Exists, Ending;
      if record.pending.Quarantining? {
        return Refused;
      }
      if !replace && exists i :: 0 <= i < |job.targets| && Exists(tree, job.targets[i]) {
        return Refused;
      }
      outcome := Publish(job, f);
    }

    /** `staged` once it is not refused. */
    method Publish(job: Refresh, f: Faults) returns (outcome: Outcome)
      requires Valid() && job.Valid() && PairwiseApart(job.targets) && !record.pending.Quarantining?
      modifies `tree, `superseded, `record, `committed
      ensures Valid() && Leaves(sha, job, old(Now().Held()), Now().Held(), f)
      ensures committed == if HowFar(f, |job.targets|).written then old(committed) + [job] else old(committed)
      ensures outcome == Ending(f, |job.targets|) && !outcome.Refused?
    {
      hide Outside, Unlist, Take, AllCommitted, Refresh.Entries, Exists, AsideBy, ClearedBy, EachTarget, AllGo, NoStop, Fails;
      var n := |job.targets|;
      ghost var c0 := Now().Held();
      var r := Record(Refreshing(job.targets), Unlist(record.packages, job.targets));
      UnlistStaysCommitted(sha, record.packages, committed, job.targets);
      EntriesAreCommitted(sha, job, r.packages, committed);
      WriteRecord(r, f(0));
      if f(0).next.Go? {
        RecordIs(sha, job, c0.record, f);
        outcome := CarryThrough(job, f, c0);
        if HowFar(f, n).written {
          committed := committed + [job];
        }
      } else {
        NothingDone(sha, job, tree, f);
        outcome := if f(0).next.Raise? then Raised else Killed;
      }
    }

    /** `staged` once its first record write is done: everything in place and listed, or `fail_closed`. */
    method CarryThrough(job: Refresh, f: Faults, ghost c0: Contents) returns (outcome: Outcome)
      requires job.Valid() && PairwiseApart(job.targets) && f(0).next.Go?
      requires tree == c0.tree && superseded == c0.superseded
      requires record == Record(Refreshing(job.targets), Unlist(c0.record.packages, job.targets))
      modifies `tree, `superseded, `record
      ensures Leaves(sha, job, c0, Now().Held(), f) && outcome == Ending(f, |job.targets|)
    {
      hide Outside, Unlist, Take, Refresh.Entries, Exists, AsideBy, SetAsides, TargetAt, Place, Leaves, RecordAfter, Refresh.Valid, HowFar, Fails;
      var n := |job.targets|;
      RecordIs(sha, job, c0.record, f);
      var next, inHand := Enter(job, f);
      ghost var t := tree;
      outcome := if next.Go? then Published else Killed;
      if next.Raise? {
        var killed := FailClosed(job.targets, inHand, f, 3 + 2 * n);
        outcome := if killed then Killed else Raised;
      }
      Ended(sha, job, c0, t, Now().Held(), f);
    }

    /** The move loop of `quarantine`; `done` paths were moved when it ended. Step base + i moves path i. */
    method MoveOut(moves: seq<Path>, f: Faults, base: nat) returns (done: nat, next: Next)
      requires PairwiseApart(moves)
      requires forall i :: 0 <= i < |moves| ==> InRun(tree, shelf, origin, moves[i])
      modifies `tree, `shelf
      ensures Outside(tree, moves) == Outside(old(tree), moves) && Outside(shelf, moves) == Outside(old(shelf), moves)
      ensures var d := Going(f, base, |moves|);
              && next == (if d == |moves| then Go else f(base + d).next)
              && done == (if d < |moves| && f(base + d).Moved() then d + 1 else d)
      ensures done <= |moves| && Divided(tree, shelf, origin, moves, done)
    {
      hide Take, Drop, Outside, Apart, PairwiseApart, InRun, OnShelf, Divided;
      done, next := 0, Go;
      NoneOut(tree, shelf, origin, moves);
      while done < |moves|
        invariant done <= |moves| && next.Go? && AllGo(f, base, base + done)
        invariant Outside(tree, moves) == Outside(old(tree), moves) && Outside(shelf, moves) == Outside(old(shelf), moves)
        invariant Divided(tree, shelf, origin, moves, done)
      {
        OneMoreOut(tree, shelf, origin, moves, done);
        next := f(base + done).next;
        if !next.Go? {
          GoingIs(f, base, |moves|, done);
        }
        if f(base + done).Moved() {
          tree, shelf := Drop(tree, moves[done]), shelf + Take(tree, moves[done]);
          done := done + 1;
        }
        if !next.Go? {
          return;
        }
      }
      GoingIs(f, base, |moves|, done);
    }

    /** The rollback loop: put back the first `done` paths, last one first. Step i puts back path i. */
    method PutBackAll(moves: seq<Path>, done: nat, f: Faults, base: nat) returns (next: Next)
      requires PairwiseApart(moves) && done <= |moves| && Divided(tree, shelf, origin, moves, done)
      modifies `tree, `shelf
      ensures Outside(tree, moves) == Outside(old(tree), moves) && Outside(shelf, moves) == Outside(old(shelf), moves)
      ensures Divided(tree, shelf, origin, moves, StillOut(f, base, done))
      ensures next.Go? <==> AllGo(f, base, base + done)
    {
      hide Take, Drop, Outside, Apart, PairwiseApart, InRun, OnShelf, Divided;
      var left := done;
      next := Go;
      while left > 0
        invariant 0 <= left <= done && next.Go? && AllGo(f, base + left, base + done)
        invariant StillOut(f, base, done) == StillOut(f, base, left)
        invariant Outside(tree, moves) == Outside(old(tree), moves) && Outside(shelf, moves) == Outside(old(shelf), moves)
        invariant Divided(tree, shelf, origin, moves, left)
      {
        OneLessOut(tree, shelf, origin, moves, left);
        next := f(base + left - 1).next;
        if f(base + left - 1).Moved() {
          tree, shelf := tree + Take(shelf, moves[left - 1]), Drop(shelf, moves[left - 1]);
          left := left - 1;
        }
        if !next.Go? {
          return;
        }
      }
    }

    /** `finish` and the end of a rollback: write the note and the journal, then clear `pending`. */
    method Close(r: Record, f: Faults, at: nat) returns (next: Next)
      modifies `record
      ensures next.Go? <==> f(at).next.Go? && f(at + 1).next.Go?
      ensures record == if f(at).next.Go? && f(at + 1).Took() then r.(pending := Idle) else old(record)
    {
      next := f(at).next;
      if next.Go? {
        WriteRecord(r.(pending := Idle), f(at + 1));
        next := f(at + 1).next;
      }
    }

    /** `quarantine` of the planned paths. */
    method RunQuarantine(moves: seq<Path>, dest: Path, f: Faults) returns (result: Quarantined)
      requires Valid() && Movable(tree, moves)
      modifies `tree, `record, `shelf, `journal, `archive, `origin
      ensures Valid() && QuarantineStep(old(Now()), moves, dest, f, Now(), result)
    {
      hide Take, Drop, Outside, Apart, Unlist, Exists, AllCommitted, PairwiseApart, InRun, OnShelf, Clears, OutAtEnd, QuarantineEnding,
           Divided, Halfway;
      if record.pending.Quarantining? {
        return NotAllowed;
      }
      StartOfQuarantine(tree, moves);
      NoneOut(tree, map[], tree, moves);
      archive, shelf, origin := archive + [shelf], map[], tree;
      journal := if f(0).Took() then Some(moves) else None;
      if !f(0).next.Go? {
        if f(0).next.Raise? { journal := None; }
        NotStarted(f, |moves|);
        return Interrupted;
      }
      var r := Record(Quarantining(dest), Unlist(record.packages, moves));
      UnlistStaysCommitted(sha, record.packages, committed, moves);
      WriteRecord(r, f(1));
      if !f(1).next.Go? {
        if f(1).next.Raise? { journal := None; }
        NotStarted(f, |moves|);
        DividedIsHalfway(tree, shelf, origin, moves, 0);
        return Interrupted;
      }
      result := CarryOut(moves, f);
      DividedIsHalfway(tree, shelf, origin, moves, OutAtEnd(f, |moves|));
    }

    /** `quarantine` once its record is written: move everything, or put everything back. */
    method CarryOut(moves: seq<Path>, f: Faults) returns (result: Quarantined)
      requires PairwiseApart(moves) && tree == origin && Outside(shelf, moves) == map[] && AllGo(f, 0, 2)
      requires forall i :: 0 <= i < |moves| ==> InRun(tree, shelf, origin, moves[i])
      modifies `tree, `record, `shelf
      ensures Outside(tree, moves) == Outside(origin, moves) && Outside(shelf, moves) == map[]
      ensures Divided(tree, shelf, origin, moves, OutAtEnd(f, |moves|))
      ensures record == if Clears(f, |moves|) then old(record).(pending := Idle) else old(record)
      ensures result == QuarantineEnding(f, |moves|)
    {
      hide Take, Drop, Outside, Apart, PairwiseApart, InRun, OnShelf, StillOut, Divided, Going;
      var n := |moves|;
      QuarantineCases(f, n);
      hide Clears, QuarantineEnding, AllGo, OutAtEnd;
      var done, next := MoveOut(moves, f, 2);
      if next.Go? {
        next := Close(record, f, 4 + 2 * n);
        return if next.Go? then Completed else Interrupted;
      }
      if next.Stop? {
        return Interrupted;
      }
      result := RollBack(moves, done, f);
    }

    /** A move has raised: put back what was moved, and clear `pending` when all of it is back. */
    method RollBack(moves: seq<Path>, done: nat, f: Faults) returns (result: Quarantined)
      requires PairwiseApart(moves) && done <= |moves| && Divided(tree, shelf, origin, moves, done)
      modifies `tree, `record, `shelf
      ensures Outside(tree, moves) == Outside(old(tree), moves) && Outside(shelf, moves) == Outside(old(shelf), moves)
      ensures Divided(tree, shelf, origin, moves, StillOut(f, 2 + |moves|, done))
      ensures var n := |moves|;
              var back := AllGo(f, 2 + n, 2 + n + done);
              && record == (if back && f(2 + 2 * n).next.Go? && f(3 + 2 * n).Took() then old(record).(pending := Idle) else old(record))
              && result == (if back && f(2 + 2 * n).next.Go? && f(3 + 2 * n).next.Go? then PutBack else Interrupted)
    {
      hide Take, Drop, Outside, Apart, PairwiseApart, InRun, OnShelf, StillOut, Divided, AllGo;
      var n := |moves|;
      var next := PutBackAll(moves, done, f, 2 + n);
      if next.Go? {
        next := Close(record, f, 2 + 2 * n);
      }
      result := if next.Go? then PutBack else Interrupted;
    }

    /** `recover`: move what the journal lists and is still in the run. Step i moves path i. */
    method Recover(f: Faults) returns (result: Recovery)
      requires Valid()
      modifies `tree, `record, `shelf
      ensures Valid() && RecoverStep(old(Now()), f, Now(), result)
    {
      hide Take, Drop, Outside, Unlist, AllCommitted, Apart, Exists, InRun, OnShelf, PairwiseApart, Gathered, Halfway;
      if !record.pending.Quarantining? {
        return NothingToRecover;
      }
      if journal.None? {
        return NoJournal;
      }
      var moves := journal.value;
      ghost var t0 := tree;
      Sides(tree, shelf, origin, moves);
      var i := 0;
      while i < |moves|
        invariant 0 <= i <= |moves| && record == old(record) && Passed(f, t0, moves, i)
        invariant Outside(tree, moves) == Outside(t0, moves) && Outside(shelf, moves) == Outside(old(shelf), moves)
        invariant Halfway(tree, shelf, origin, moves) && Gathered(tree, shelf, origin, t0, moves, i)
      {
        var p := moves[i];
        GatherOne(tree, shelf, origin, t0, moves, i);
        if Exists(shelf, p) && !Exists(tree, p) {
          i := i + 1;
          continue;
        }
        // the journal lists nothing that is missing, or on both sides
        assert Exists(tree, p) && !Exists(shelf, p);
        if f(i).Moved() {
          tree, shelf := Drop(tree, p), shelf + Take(tree, p);
        }
        if !f(i).next.Go? {
          GatheredAtEnd(tree, shelf, origin, t0, moves, f, i);
          return RecoveryInterrupted;
        }
        i := i + 1;
      }
      GatheredAtEnd(tree, shelf, origin, t0, moves, f, i);
      UnlistStaysCommitted(sha, record.packages, committed, moves);
      var next := Close(record.(packages := Unlist(record.packages, moves)), f, |moves|);
      result := if next.Go? then Recovered else RecoveryInterrupted;
    }
  }

  /** `NotAllowed`: another quarantine is interrupted. `Interrupted`: stopped or failed before it was done; the
      record tells whether it is still pending. */
  datatype Quarantined = NotAllowed | Completed | PutBack | Interrupted

  datatype Recovery = NothingToRecover | NoJournal | Recovered | RecoveryInterrupted

  lemma StartOfQuarantine(tree: Tree, moves: seq<Path>)
    requires forall i :: 0 <= i < |moves| ==> Exists(tree, moves[i])
    ensures forall i :: 0 <= i < |moves| ==>
              Take(tree, moves[i]) != map[] && InRun(tree, map[], tree, moves[i])
    ensures Outside(map[], moves) == map[]
  {
    forall i | 0 <= i < |moves| ensures Take(tree, moves[i]) != map[] {
      TakeDrop(tree, moves[i]);
    }
  }

  /** Everything back on its place and nothing else touched is the tree as it was. */
  lemma BackAsItWas(tree: Tree, shelf: Tree, origin: Tree, moves: seq<Path>)
    requires Outside(tree, moves) == Outside(origin, moves) && Outside(shelf, moves) == map[]
    requires forall i :: 0 <= i < |moves| ==> InRun(tree, shelf, origin, moves[i])
    ensures tree == origin && shelf == map[]
  {
    forall k ensures (k in tree <==> k in origin) && (k in tree ==> tree[k] == origin[k]) && k !in shelf {
      if i :| 0 <= i < |moves| && Below(moves[i], k) {
        assert k in Take(tree, moves[i]) <==> k in tree;
        assert k in Take(origin, moves[i]) <==> k in origin;
        assert k !in Take(shelf, moves[i]);
      } else {
        assert !BelowAny(moves, k);
        assert k in Outside(tree, moves) <==> k in tree;
        assert k in Outside(origin, moves) <==> k in origin;
        assert k !in Outside(shelf, moves);
      }
    }
  }

  lemma OneSide(tree: Tree, shelf: Tree, origin: Tree, p: Path)
    requires Take(origin, p) != map[] && (InRun(tree, shelf, origin, p) || OnShelf(tree, shelf, origin, p))
    ensures InRun(tree, shelf, origin, p) <==> Exists(tree, p) && !Exists(shelf, p)
    ensures OnShelf(tree, shelf, origin, p) <==> Exists(shelf, p) && !Exists(tree, p)
  {
    hide Take, Exists;
    TakeDrop(tree, p);
    TakeDrop(shelf, p);
  }

  // ----- quarantine

  /** Path `p` is as it was in the run, and not in the quarantine. */
  ghost predicate InRun(tree: Tree, shelf: Tree, origin: Tree, p: Path)
  {
    Take(tree, p) == Take(origin, p) && Take(shelf, p) == map[]
  }

  /** Path `p` is in the quarantine as it was in the run, and no longer in the run. */
  ghost predicate OnShelf(tree: Tree, shelf: Tree, origin: Tree, p: Path)
  {
    Take(tree, p) == map[] && Take(shelf, p) == Take(origin, p)
  }

  /** Every path of the journal existed, and is whole on exactly one side. */
  ghost predicate Halfway(tree: Tree, shelf: Tree, origin: Tree, moves: seq<Path>)
  {
    && PairwiseApart(moves)
    && forall i :: 0 <= i < |moves| ==>
         (Take(origin, moves[i]) != map[]
          && (InRun(tree, shelf, origin, moves[i]) || OnShelf(tree, shelf, origin, moves[i])))
  }

  lemma NoneOut(tree: Tree, shelf: Tree, origin: Tree, moves: seq<Path>)
    requires forall i :: 0 <= i < |moves| ==> InRun(tree, shelf, origin, moves[i])
    ensures Divided(tree, shelf, origin, moves, 0)
  {
    hide InRun;
  }

  lemma OneMoreOut(tree: Tree, shelf: Tree, origin: Tree, moves: seq<Path>, i: nat)
    requires PairwiseApart(moves) && i < |moves| && Divided(tree, shelf, origin, moves, i)
    ensures var t, u := Drop(tree, moves[i]), shelf + Take(tree, moves[i]);
            && Outside(t, moves) == Outside(tree, moves) && Outside(u, moves) == Outside(shelf, moves)
            && Divided(t, u, origin, moves, i + 1)
  {
    hide Take, Drop, Outside, Apart;
    MoveAcross(tree, shelf, moves, i);
  }

  lemma OneLessOut(tree: Tree, shelf: Tree, origin: Tree, moves: seq<Path>, i: nat)
    requires PairwiseApart(moves) && 0 < i <= |moves| && Divided(tree, shelf, origin, moves, i)
    ensures var t, u := tree + Take(shelf, moves[i - 1]), Drop(shelf, moves[i - 1]);
            && Outside(t, moves) == Outside(tree, moves) && Outside(u, moves) == Outside(shelf, moves)
            && Divided(t, u, origin, moves, i - 1)
  {
    hide Take, Drop, Outside, Apart;
    MoveAcross(shelf, tree, moves, i - 1);
  }

  /** Of the journalled paths, the first m and those that were not in the run at first are in the quarantine. */
  ghost predicate Gathered(tree: Tree, shelf: Tree, origin: Tree, t0: Tree, moves: seq<Path>, m: nat)
  {
    forall k :: 0 <= k < |moves| ==>
      if k < m || !Exists(t0, moves[k]) then OnShelf(tree, shelf, origin, moves[k]) else InRun(tree, shelf, origin, moves[k])
  }

  /** Where each journalled path is shows by looking for it in the run. */
  lemma Sides(tree: Tree, shelf: Tree, origin: Tree, moves: seq<Path>)
    requires Halfway(tree, shelf, origin, moves)
    ensures Gathered(tree, shelf, origin, tree, moves, 0)
  {
    hide Exists, Take, OnShelf, InRun;
    forall k | 0 <= k < |moves|
      ensures if !Exists(tree, moves[k]) then OnShelf(tree, shelf, origin, moves[k]) else InRun(tree, shelf, origin, moves[k])
    {
      OneSide(tree, shelf, origin, moves[k]);
    }
  }

  lemma GatherOne(tree: Tree, shelf: Tree, origin: Tree, t0: Tree, moves: seq<Path>, i: nat)
    requires Halfway(tree, shelf, origin, moves) && i < |moves| && Gathered(tree, shelf, origin, t0, moves, i)
    ensures if Exists(shelf, moves[i]) && !Exists(tree, moves[i])
            then !Exists(t0, moves[i]) && Gathered(tree, shelf, origin, t0, moves, i + 1)
            else
              var t, u := Drop(tree, moves[i]), shelf + Take(tree, moves[i]);
              && Exists(tree, moves[i]) && !Exists(shelf, moves[i]) && Exists(t0, moves[i])
              && Outside(t, moves) == Outside(tree, moves) && Outside(u, moves) == Outside(shelf, moves)
              && Halfway(t, u, origin, moves) && Gathered(t, u, origin, t0, moves, i + 1)
  {
    hide Take, Drop, Outside, Apart, Exists, InRun, OnShelf, PairwiseApart;
    OneSide(tree, shelf, origin, moves[i]);
    if InRun(tree, shelf, origin, moves[i]) {
      OneAcross(tree, shelf, origin, moves, i);
    }
  }

  lemma GatheredAtEnd(tree: Tree, shelf: Tree, origin: Tree, t0: Tree, moves: seq<Path>, f: Faults, i: nat)
    requires i <= |moves| && Passed(f, t0, moves, i)
    requires i < |moves| ==> Exists(t0, moves[i]) && !f(i).next.Go?
    requires Gathered(tree, shelf, origin, t0, moves, if i < |moves| && f(i).Moved() then i + 1 else i)
    ensures forall k :: 0 <= k < |moves| ==>
              if !Exists(t0, moves[k]) || (Passed(f, t0, moves, k) && f(k).Moved())
              then OnShelf(tree, shelf, origin, moves[k]) else InRun(tree, shelf, origin, moves[k])
    ensures Passed(f, t0, moves, |moves|) <==> i == |moves|
  {
    hide Exists, InRun, OnShelf;
  }

  /** One more path goes over to the quarantine. */
  lemma OneAcross(tree: Tree, shelf: Tree, origin: Tree, moves: seq<Path>, i: nat)
    requires Halfway(tree, shelf, origin, moves) && i < |moves| && InRun(tree, shelf, origin, moves[i])
    ensures var t, u := Drop(tree, moves[i]), shelf + Take(tree, moves[i]);
            && Outside(t, moves) == Outside(tree, moves) && Outside(u, moves) == Outside(shelf, moves)
            && Halfway(t, u, origin, moves) && OnShelf(t, u, origin, moves[i])
            && forall k :: 0 <= k < |moves| && k != i ==>
                 && (InRun(t, u, origin, moves[k]) <==> InRun(tree, shelf, origin, moves[k]))
                 && (OnShelf(t, u, origin, moves[k]) <==> OnShelf(tree, shelf, origin, moves[k]))
  {
    hide Take, Drop, Outside, Apart;
    MoveAcross(tree, shelf, moves, i);
  }

  /** A rename across moves exactly one path. */
  lemma MoveAcross(from: Tree, to: Tree, moves: seq<Path>, i: nat)
    requires PairwiseApart(moves) && i < |moves| && Take(to, moves[i]) == map[]
    ensures var from', to' := Drop(from, moves[i]), to + Take(from, moves[i]);
            && Take(from', moves[i]) == map[] && Take(to', moves[i]) == Take(from, moves[i])
            && Outside(from', moves) == Outside(from, moves)
            && Outside(to', moves) == Outside(to, moves)
            && forall k :: 0 <= k < |moves| && k != i ==>
                 Take(from', moves[k]) == Take(from, moves[k]) && Take(to', moves[k]) == Take(to, moves[k])
  {
    MovedAside(from, moves, i);
    TakeTwice(from, moves[i]);
    TakeMerge(to, Take(from, moves[i]), moves[i]);
    OutsideMerge(to, from, moves, i);
    forall k | 0 <= k < |moves| && k != i
      ensures Take(to + Take(from, moves[i]), moves[k]) == Take(to, moves[k])
    {
      TakeMerge(to, Take(from, moves[i]), moves[k]);
      TakeOther(from, moves[i], moves[k]);
    }
  }

  lemma TakeTwice(t: Tree, p: Path)
    ensures Take(Take(t, p), p) == Take(t, p)
  {
  }

  lemma OutsideMerge(t: Tree, u: Tree, paths: seq<Path>, i: nat)
    requires i < |paths|
    ensures Outside(t + Take(u, paths[i]), paths) == Outside(t, paths)
  {
  }

  lemma NothingToDrop(t: Tree, p: Path)
    ensures !Exists(t, p) ==> Drop(t, p) == t
  {
  }

  /** The entry is the one `job` writes for its target `p`. */
  ghost predicate Lists(sha: Sha, job: Refresh, p: Path, entry: Entry)
  {
    job.Valid() && p in job.targets && entry == job.EntryOf(sha, p)
  }

  ghost predicate AllCommitted(sha: Sha, packages: map<Path, Entry>, committed: seq<Refresh>)
  {
    forall p :: p in packages ==> exists job :: job in committed && Lists(sha, job, p, packages[p])
  }

  lemma UnlistStaysCommitted(sha: Sha, packages: map<Path, Entry>, committed: seq<Refresh>, paths: seq<Path>)
    requires AllCommitted(sha, packages, committed)
    ensures AllCommitted(sha, Unlist(packages, paths), committed)
  {
    hide Lists;
  }

  lemma EntriesAreCommitted(sha: Sha, job: Refresh, packages: map<Path, Entry>, committed: seq<Refresh>)
    requires job.Valid() && AllCommitted(sha, packages, committed)
    ensures AllCommitted(sha, packages + job.Entries(sha), committed + [job])
  {
    var all := packages + job.Entries(sha);
    forall p | p in all ensures exists j :: j in committed + [job] && Lists(sha, j, p, all[p]) {
      if p in job.Entries(sha) {
        assert Lists(sha, job, p, all[p]) && job in committed + [job];
      } else {
        var j :| j in committed && Lists(sha, j, p, packages[p]);
        assert j in committed + [job];
      }
    }
  }

  lemma UnlistSub(packages: map<Path, Entry>, paths: seq<Path>)
    ensures forall p :: p in Unlist(packages, paths) ==>
              p in packages && packages[p] == Unlist(packages, paths)[p] && p !in paths
  {
    forall p | p in paths ensures BelowAny(paths, p) {
      var i :| 0 <= i < |paths| && paths[i] == p;
      assert Below(paths[i], p);
    }
  }

  lemma EntriesPass(sha: Sha, job: Refresh)
    requires job.Valid()
    ensures job.Entries(sha).Keys == (set t | t in job.targets)
    ensures forall t :: t in job.targets ==> Passes(sha, job.Package(sha, t), job.EntryOf(sha, t))
  {
    hide Passes;
    forall t | t in job.targets ensures Passes(sha, job.Package(sha, t), job.EntryOf(sha, t)) {
      SealPasses(sha, job.built[t], job.generation, job.order[t]);
    }
  }

  lemma SameExists(t: Tree, u: Tree, p: Path)
    requires Take(t, p) == Take(u, p)
    ensures Exists(t, p) <==> Exists(u, p)
  {
    TakeDrop(t, p);
    TakeDrop(u, p);
  }

  /** The first m targets were tried, and those whose step took effect are empty. */
  ghost predicate Emptied(targets: seq<Path>, t0: Tree, t: Tree, f: Faults, base: nat, m: nat)
  {
    && Outside(t, targets) == Outside(t0, targets)
    && forall k :: 0 <= k < |targets| ==> Take(t, targets[k]) == if k < m && f(base + k).Took() then map[] else Take(t0, targets[k])
  }

  lemma NoneEmptied(targets: seq<Path>, t0: Tree, f: Faults, base: nat)
    ensures Emptied(targets, t0, t0, f, base, 0) && NoStop(f, base, base) && SetAsides(targets, t0, f, base, 0) == []
  {
  }

  lemma EmptyOne(targets: seq<Path>, t0: Tree, t: Tree, f: Faults, base: nat, i: nat)
    requires PairwiseApart(targets) && i < |targets| && Emptied(targets, t0, t, f, base, i)
    ensures Take(t, targets[i]) == Take(t0, targets[i]) && (Exists(t, targets[i]) <==> Exists(t0, targets[i]))
    ensures Emptied(targets, t0, if f(base + i).Took() then Drop(t, targets[i]) else t, f, base, i + 1)
  {
    hide Outside, Take, Drop, Apart, Exists;
    MovedAside(t, targets, i);
    SameExists(t, t0, targets[i]);
  }

  /** Past the step at which the process is killed nothing is tried any more. */
  lemma EmptiedUntilStop(targets: seq<Path>, t0: Tree, t: Tree, f: Faults, base: nat, m: nat)
    requires m <= |targets| && Emptied(targets, t0, t, f, base, m)
    requires || (m > 0 && f(base + m - 1).next.Stop? && NoStop(f, base, base + m - 1))
             || (m == |targets| && NoStop(f, base, base + m))
    ensures Outside(t, targets) == Outside(t0, targets)
    ensures forall i :: 0 <= i < |targets| ==>
              (Take(t, targets[i]) == if NoStop(f, base, base + i) && f(base + i).Took() then map[] else Take(t0, targets[i]))
  {
    hide Outside, Take;
    forall i | 0 <= i < |targets|
      ensures Take(t, targets[i]) == if NoStop(f, base, base + i) && f(base + i).Took() then map[] else Take(t0, targets[i])
    {
      if m <= i {
        assert base <= base + m - 1 < base + i;
      }
    }
  }

  lemma EmptiedIsAside(targets: seq<Path>, t0: Tree, t: Tree, f: Faults, m: nat)
    requires m <= |targets| && Emptied(targets, t0, t, f, 2, m)
    requires || (m > 0 && !f(1 + m).next.Go? && AllGo(f, 0, 1 + m))
             || (m == |targets| && AllGo(f, 0, 2 + m))
    ensures Outside(t, targets) == Outside(t0, targets)
    ensures forall i :: 0 <= i < |targets| ==>
              Take(t, targets[i]) == if Aside(f, i) then map[] else Take(t0, targets[i])
  {
    hide Outside, Take;
    if m > 0 && !f(1 + m).next.Go? {
      forall i | m <= i < |targets| ensures !Aside(f, i) {
        assert 0 <= 1 + m < 2 + i;
      }
    }
  }

  /** What `fail_closed`, whose steps start at `base`, moves aside from the first m targets of the tree `t`. */
  ghost function SetAsides(targets: seq<Path>, t: Tree, f: Faults, base: nat, m: nat): seq<(Path, Tree)>
    requires m <= |targets|
  {
    if m == 0 then []
    else
      var i := m - 1;
      SetAsides(targets, t, f, base, i)
      + if NoStop(f, base, base + i) && f(base + i).Took() && Exists(t, targets[i]) then [(targets[i], Take(t, targets[i]))] else []
  }

  lemma NoStopNext(f: Faults, base: nat, i: nat)
    ensures NoStop(f, base, base + i + 1) <==> NoStop(f, base, base + i) && !f(base + i).next.Stop?
  {
  }

  lemma StopShows(f: Faults, base: nat, i: nat, n: nat)
    requires i < n && f(base + i).next.Stop?
    ensures !NoStop(f, base, base + n) && !NoStop(f, base, base + n + 1)
  {
  }

  lemma SetAsidesNext(targets: seq<Path>, t: Tree, f: Faults, base: nat, i: nat)
    requires i < |targets|
    ensures SetAsides(targets, t, f, base, 0) == []
    ensures SetAsides(targets, t, f, base, i + 1) == SetAsides(targets, t, f, base, i)
            + if NoStop(f, base, base + i) && f(base + i).Took() && Exists(t, targets[i]) then [(targets[i], Take(t, targets[i]))] else []
    ensures NoStop(f, base, base + i + 1) <==> NoStop(f, base, base + i) && !f(base + i).next.Stop?
  {
    hide Take, Exists;
    NoStopNext(f, base, i);
  }

  lemma {:induction false} SetAsidesStop(targets: seq<Path>, t: Tree, f: Faults, base: nat, i: nat, m: nat)
    requires i < m <= |targets| && f(base + i).next.Stop?
    ensures SetAsides(targets, t, f, base, m) == SetAsides(targets, t, f, base, i + 1)
  {
    hide Exists, Take;
    if i + 1 < m {
      SetAsidesStop(targets, t, f, base, i, m - 1);
      assert !NoStop(f, base, base + m - 1);
    }
  }

  lemma NoneAside(targets: seq<Path>, t0: Tree, f: Faults)
    ensures AsideBy(targets, t0, f, 0) == []
  {
  }

  lemma AsideNext(targets: seq<Path>, t0: Tree, f: Faults, i: nat)
    requires i < |targets| && AllGo(f, 0, 2 + i)
    ensures AsideBy(targets, t0, f, i + 1)
         == AsideBy(targets, t0, f, i) + if f(2 + i).Took() && Exists(t0, targets[i]) then [(targets[i], Take(t0, targets[i]))] else []
    ensures f(2 + i).next.Go? ==> AllGo(f, 0, 2 + i + 1)
  {
    hide Exists, Take;
  }

  /** The first step that does not go decides what comes of the steps from `lo` to `hi`. */
  lemma StopsAt(f: Faults, k: nat, lo: nat, hi: nat)
    requires AllGo(f, 0, k) && lo <= k < hi && !f(k).next.Go?
    ensures !AllGo(f, 0, hi) && (RaisedIn(f, lo, hi) <==> f(k).next.Raise?)
  {
  }

  lemma NoneRaised(f: Faults, lo: nat, hi: nat)
    requires AllGo(f, 0, hi)
    ensures !RaisedIn(f, lo, hi)
  {
  }

  lemma {:induction false} AsideByStop(targets: seq<Path>, t0: Tree, f: Faults, i: nat, m: nat)
    requires i < m <= |targets| && !f(2 + i).next.Go?
    ensures AsideBy(targets, t0, f, m) == AsideBy(targets, t0, f, i + 1)
  {
    hide Exists, Take;
    if i + 1 < m {
      AsideByStop(targets, t0, f, i, m - 1);
      assert !AllGo(f, 0, 2 + m - 1);
    }
  }

  lemma NoneYet(f: Faults, n: nat, i: nat)
    requires !AllGo(f, 0, 2)
    ensures !Aside(f, i) && !Installed(f, n, i)
  {
  }

  lemma {:induction false} NotBegun(targets: seq<Path>, t0: Tree, f: Faults, m: nat)
    requires m <= |targets| && !AllGo(f, 0, 2)
    ensures AsideBy(targets, t0, f, m) == []
    ensures forall i {:trigger targets[i]} :: 0 <= i < |targets| ==> !Aside(f, i) && !Installed(f, |targets|, i)
  {
    hide Exists, Take, Aside, Installed;
    forall i | 0 <= i < |targets| ensures !Aside(f, i) && !Installed(f, |targets|, i) {
      NoneYet(f, |targets|, i);
    }
    if m > 0 {
      NotBegun(targets, t0, f, m - 1);
    }
  }

  lemma {:induction false} NotCleared(sha: Sha, job: Refresh, t0: Tree, f: Faults, m: nat)
    requires job.Valid() && m <= |job.targets| && !Fails(f, |job.targets|)
    ensures ClearedBy(sha, job, t0, f, m) == []
  {
    hide TargetAt;
    if m > 0 {
      NotCleared(sha, job, t0, f, m - 1);
    }
  }

  lemma {:induction false} ClearedIs(sha: Sha, job: Refresh, t0: Tree, t: Tree, f: Faults, m: nat)
    requires job.Valid() && m <= |job.targets| && Fails(f, |job.targets|)
    requires forall i :: 0 <= i < |job.targets| ==> Take(t, job.targets[i]) == TargetAt(sha, job, t0, f, i)
    ensures ClearedBy(sha, job, t0, f, m) == SetAsides(job.targets, t, f, 3 + 2 * |job.targets|, m)
  {
    hide TargetAt, Take, Exists;
    if m > 0 {
      ClearedIs(sha, job, t0, t, f, m - 1);
      TakeDrop(t, job.targets[m - 1]);
    }
  }

  /** The record as the steps of the refresh write it. */
  lemma RecordIs(sha: Sha, job: Refresh, r0: Record, f: Faults)
    requires job.Valid() && f(0).next.Go?
    ensures var rest, n := Unlist(r0.packages, job.targets), |job.targets|;
            var begun := Record(Refreshing(job.targets), rest);
            var inHand := if HowFar(f, n).listed then Record(Idle, rest + job.Entries(sha)) else begun;
            && RecordAfter(sha, job, r0, f) ==
               (if Fails(f, n) && ClosingWrites(f, n) then inHand.(pending := Idle)
                else if AllGo(f, 0, 2 + 2 * n) && f(2 + 2 * n).Took() then inHand else begun)
            && RecordAfter(sha, job, r0, f).packages == if HowFar(f, n).written then rest + job.Entries(sha) else rest
  {
    hide Unlist, Refresh.Entries;
    if AllGo(f, 0, 2 + 2 * |job.targets|) {
      FailsListed(f, |job.targets|);
    }
  }

  /** Once the targets are listed, only the listing write can still raise. */
  lemma FailsListed(f: Faults, n: nat)
    requires AllGo(f, 0, 2 + 2 * n)
    ensures Fails(f, n) <==> f(2 + 2 * n).next.Raise?
  {
    assert f(2 + 2 * n).next.Raise? ==> RaisedIn(f, 1, 3 + 2 * n);
  }

  lemma NothingDone(sha: Sha, job: Refresh, t0: Tree, f: Faults)
    requires job.Valid() && !f(0).next.Go?
    ensures AsideBy(job.targets, t0, f, |job.targets|) == [] && ClearedBy(sha, job, t0, f, |job.targets|) == []
    ensures EachTarget(sha, job, t0, t0, f)
    ensures !Fails(f, |job.targets|) && !AllGo(f, 0, 3 + 2 * |job.targets|) && !AllGo(f, 0, 2 + 2 * |job.targets|)
  {
    hide Take, Exists, AsideBy, ClearedBy, Place;
    NotBegun(job.targets, t0, f, |job.targets|);
    NotCleared(sha, job, t0, f, |job.targets|);
  }

  /** From the state in which `fail_closed` may begin to what it leaves. */
  lemma Ended(sha: Sha, job: Refresh, c0: Contents, t: Tree, c1: Contents, f: Faults)
    requires job.Valid() && AllGo(f, 0, 1)
    requires forall i :: 0 <= i < |job.targets| ==> Take(t, job.targets[i]) == TargetAt(sha, job, c0.tree, f, i)
    requires Outside(t, job.targets) == Outside(c1.tree, job.targets) == Outside(c0.tree, job.targets)
    requires c1.record == RecordAfter(sha, job, c0.record, f)
    requires var base := 3 + 2 * |job.targets|;
             var moved := c0.superseded + AsideBy(job.targets, c0.tree, f, |job.targets|);
             if Fails(f, |job.targets|) then
               && c1.superseded == moved + SetAsides(job.targets, t, f, base, |job.targets|)
               && forall i :: 0 <= i < |job.targets| ==>
                    (Take(c1.tree, job.targets[i]) ==
                     if NoStop(f, base, base + i) && f(base + i).Took() then map[] else Take(t, job.targets[i]))
             else c1.tree == t && c1.superseded == moved
    ensures Leaves(sha, job, c0, c1, f)
  {
    hide Take, Outside, TargetAt, AsideBy, ClearedBy, SetAsides, RecordAfter;
    if Fails(f, |job.targets|) {
      ClearedIs(sha, job, c0.tree, t, f, |job.targets|);
    } else {
      NotCleared(sha, job, c0.tree, f, |job.targets|);
    }
  }

  lemma {:induction false} GoingIs(f: Faults, base: nat, n: nat, d: nat)
    requires d <= n && AllGo(f, base, base + d) && (d < n ==> !f(base + d).next.Go?)
    ensures Going(f, base, n) == d
  {
    if n > 0 {
      GoingIs(f, base, n - 1, if d == n then n - 1 else d);
    }
  }

  lemma NotStarted(f: Faults, n: nat)
    requires !AllGo(f, 0, 2)
    ensures OutAtEnd(f, n) == 0 && !Clears(f, n) && QuarantineEnding(f, n) == Interrupted
  {
    hide Going, StillOut;
    var k :| 0 <= k < 2 && !f(k).next.Go?;
    assert !MovesAll(f, n);
  }

  /** The ends of a quarantine by where its moves stop. */
  lemma QuarantineCases(f: Faults, n: nat)
    requires AllGo(f, 0, 2)
    ensures var d := Going(f, 2, n);
            var back := d < n && f(2 + d).next.Raise? && AllGo(f, 2 + n, 2 + n + d);
            && (Clears(f, n) <==> if d == n then f(4 + 2 * n).next.Go? && f(5 + 2 * n).Took()
                                  else back && f(2 + 2 * n).next.Go? && f(3 + 2 * n).Took())
            && OutAtEnd(f, n) == (if d == n then n
                                  else if f(2 + d).next.Raise? then StillOut(f, 2 + n, d)
                                  else if f(2 + d).Moved() then d + 1 else d)
            && QuarantineEnding(f, n) == (if d == n && f(4 + 2 * n).next.Go? && f(5 + 2 * n).next.Go? then Completed
                                          else if back && f(2 + 2 * n).next.Go? && f(3 + 2 * n).next.Go? then PutBack
                                          else Interrupted)
  {
    hide Going;
    var d := Going(f, 2, n);
    assert MovesAll(f, n) <==> d == n;
    assert RollsBack(f, n) ==> d < n;
  }

  lemma DividedIsHalfway(tree: Tree, shelf: Tree, origin: Tree, moves: seq<Path>, out: nat)
    requires Divided(tree, shelf, origin, moves, out) && PairwiseApart(moves)
    requires forall i :: 0 <= i < |moves| ==> Take(origin, moves[i]) != map[]
    ensures Halfway(tree, shelf, origin, moves)
  {
    hide Take;
  }

  /** Moving one target aside leaves the rest as it was. */
  lemma MovedAside(t: Tree, paths: seq<Path>, i: nat)
    requires PairwiseApart(paths) && i < |paths|
    ensures var u := Drop(t, paths[i]);
            && Outside(u, paths) == Outside(t, paths)
            && Take(u, paths[i]) == map[]
            && forall k :: 0 <= k < |paths| && k != i ==> Take(u, paths[k]) == Take(t, paths[k])
  {
    OutsideDrop(t, paths, i);
    TakeDrop(t, paths[i]);
    forall k | 0 <= k < |paths| && k != i ensures Take(Drop(t, paths[i]), paths[k]) == Take(t, paths[k]) {
      TakeDropOther(t, paths[i], paths[k]);
    }
  }

  /** Putting one package in place leaves the rest as it was. */
  lemma InstalledAt(t: Tree, job: Refresh, sha: Sha, i: nat)
    requires job.Valid() && i < |job.targets| && Take(t, job.targets[i]) == map[]
    ensures var u := t + Place(job.targets[i], job.Package(sha, job.targets[i]));
            && Outside(u, job.targets) == Outside(t, job.targets)
            && Take(u, job.targets[i]) == Place(job.targets[i], job.Package(sha, job.targets[i]))
            && forall k :: 0 <= k < |job.targets| && k != i ==> Take(u, job.targets[k]) == Take(t, job.targets[k])
  {
    hide Take, Outside, Place;
    var p := job.targets[i];
    var files := job.Package(sha, p);
    TakePlace(t, p, files);
    OutsidePlace(t, job.targets, i, files);
    forall k | 0 <= k < |job.targets| && k != i
      ensures Take(t + Place(p, files), job.targets[k]) == Take(t, job.targets[k])
    {
      TakePlaceOther(t, p, files, job.targets[k]);
    }
  }

  lemma TakePlace(t: Tree, p: Path, files: Files)
    requires Take(t, p) == map[]
    ensures Take(t + Place(p, files), p) == Place(p, files)
  {
    TakeDrop(t, p);
    forall name | name in files ensures Below(p, Child(p, name)) {
    }
  }

  lemma FilesOfPlaced(t: Tree, p: Path, files: Files)
    requires Take(t, p) == Place(p, files)
    ensures FilesOf(t, p) == files
  {
    hide FilesOf, Take, Place;
    FilesOfPlace(map[], p, files);
    NothingBelow(p);
    TakePlace(map[], p, files);
    assert map[] + Place(p, files) == Place(p, files);
    FilesOfTake(t, Place(p, files), p);
  }

  lemma NothingBelow(p: Path)
    ensures !Exists(map[], p) && Take(map[], p) == map[]
  {
  }

  // ----- what this means for `verify`

  /** Where every listed entry was written by a committed refresh, a package verifies only with the files that refresh
      sealed, or two files collide. */
  lemma CurrentIsCommitted(sha: Sha, tree: Tree, record: Record, committed: seq<Refresh>, p: Path) returns (job: Refresh)
    requires AllCommitted(sha, record.packages, committed) && IsCurrent(sha, tree, record, p)
    ensures job in committed && Lists(sha, job, p, record.packages[p])
    ensures var sealed := job.Package(sha, p);
            FilesOf(tree, p) == sealed || Collision(sha, FilesOf(tree, p).Values, sealed.Values)
  {
    hide Passes, FilesOf;
    job :| job in committed && Lists(sha, job, p, record.packages[p]);
    EntriesPass(sha, job);
    PassesUnique(sha, FilesOf(tree, p), job.Package(sha, p), record.packages[p]);
  }

  /** Exactly when a target verifies after a refresh that began, however it ended: every target was in place, a
      record with their entries was written, and this target was not moved aside again. */
  lemma TargetCurrentIff(sha: Sha, job: Refresh, c0: Contents, c1: Contents, f: Faults, i: nat)
    requires job.Valid() && i < |job.targets| && Leaves(sha, job, c0, c1, f)
    requires HowFar(f, |job.targets|).began
    ensures var p := job.targets[i];
            && (IsCurrent(sha, c1.tree, c1.record, p) <==> HowFar(f, |job.targets|).written && !Cleared(f, |job.targets|, i))
            && (IsCurrent(sha, c1.tree, c1.record, p) ==> FilesOf(c1.tree, p) == job.Package(sha, p))
  {
    var p, n := job.targets[i], |job.targets|;
    assert p in job.targets;
    UnlistSub(c0.record.packages, job.targets);
    EntriesPass(sha, job);
    WrittenIsListed(f, n);
    hide Outside, Unlist, FilesOf, Take, Passes, HowFar, Cleared, AsideBy, ClearedBy, Place, Fails;
    if HowFar(f, n).written {
      if Cleared(f, n, i) {
        NothingThere(c1.tree, p);
        NothingPasses(sha, c1.record.packages[p]);
      } else {
        ListedInPlace(sha, job, c0.tree, f, i);
        FilesOfPlaced(c1.tree, p, job.Package(sha, p));
      }
    }
  }

  lemma ListedInPlace(sha: Sha, job: Refresh, t0: Tree, f: Faults, i: nat)
    requires job.Valid() && i < |job.targets| && HowFar(f, |job.targets|).listed
    ensures TargetAt(sha, job, t0, f, i) == Place(job.targets[i], job.Package(sha, job.targets[i]))
  {
    hide Place, Take;
  }

  lemma WrittenIsListed(f: Faults, n: nat)
    ensures HowFar(f, n).written ==> HowFar(f, n).listed
    ensures HowFar(f, n).listed ==> HowFar(f, n).began
  {
  }

  lemma NothingPasses(sha: Sha, entry: Entry)
    ensures !Passes(sha, map[], entry)
  {
  }

  /** A refresh that succeeds leaves every target current; one that fails or is killed before the listing write
      leaves none. */
  lemma AllOrNone(sha: Sha, job: Refresh, c0: Contents, c1: Contents, f: Faults, i: nat)
    requires job.Valid() && i < |job.targets| && Leaves(sha, job, c0, c1, f)
    requires HowFar(f, |job.targets|).began
    ensures AllGo(f, 0, 3 + 2 * |job.targets|) ==> IsCurrent(sha, c1.tree, c1.record, job.targets[i])
    ensures !AllGo(f, 0, 2 + 2 * |job.targets|) ==> !IsCurrent(sha, c1.tree, c1.record, job.targets[i])
  {
    hide Leaves, IsCurrent;
    TargetCurrentIff(sha, job, c0, c1, f, i);
  }

  /** A refresh that fails after it began, and is not interrupted in cleaning up, leaves no package at any of its targets,
      none of them listed, and nothing pending. */
  lemma FailsClosed(sha: Sha, job: Refresh, c0: Contents, c1: Contents, f: Faults)
    requires job.Valid() && Leaves(sha, job, c0, c1, f)
    requires Fails(f, |job.targets|) && !AllGo(f, 0, 2 + 2 * |job.targets|)
    requires AllGo(f, 3 + 2 * |job.targets|, 4 + 3 * |job.targets|)
    ensures c1.record == Record(Idle, Unlist(c0.record.packages, job.targets))
    ensures forall i :: 0 <= i < |job.targets| ==> Take(c1.tree, job.targets[i]) == map[]
  {
    hide Outside, Unlist, Take, AsideBy, ClearedBy, TargetAt;
    FailsAfterBegin(f, |job.targets|);
  }

  lemma FailsAfterBegin(f: Faults, n: nat)
    requires Fails(f, n)
    ensures HowFar(f, n).began
  {
    var k :| 1 <= k < 3 + 2 * n && AllGo(f, 0, k) && f(k).next.Raise?;
    assert f(0).next.Go?;
  }

  /** Nothing verifies while an operation is pending. */
  lemma PendingRefusesAll(sha: Sha, tree: Tree, record: Record, p: Path)
    requires !record.pending.Idle?
    ensures !IsCurrent(sha, tree, record, p)
  {
  }

  /** A package apart from the targets keeps its entry and its files: once nothing is pending, it verifies
      exactly when it passed the check before. */
  lemma OtherUnaffected(sha: Sha, job: Refresh, c0: Contents, c1: Contents, f: Faults, q: Path)
    requires job.Valid() && Leaves(sha, job, c0, c1, f) && ApartFromAll(q, job.targets)
    ensures IsCurrent(sha, c1.tree, c1.record, q)
       <==> c1.record.pending.Idle? && q in c0.record.packages && Passes(sha, FilesOf(c0.tree, q), c0.record.packages[q])
  {
    hide Outside, FilesOf, Passes, EachTarget, AsideBy, ClearedBy, HowFar, Fails, ClosingWrites;
    WrittenIsListed(f, |job.targets|);
    OutsideTake(c0.tree, c1.tree, job.targets, q);
    FilesOfTake(c0.tree, c1.tree, q);
    assert !BelowAny(job.targets, q);
    NotATarget(q, job.targets);
  }

  lemma NotATarget(q: Path, paths: seq<Path>)
    requires ApartFromAll(q, paths)
    ensures q !in paths
  {
    assert forall i :: 0 <= i < |paths| ==> Apart(paths[i], q);
  }

  lemma {:induction false} AsideIsKept(targets: seq<Path>, t0: Tree, f: Faults, m: nat, i: nat)
    requires i < m <= |targets| && Aside(f, i) && Exists(t0, targets[i])
    ensures (targets[i], Take(t0, targets[i])) in AsideBy(targets, t0, f, m)
  {
    hide Take, Exists, Aside;
    if i + 1 < m {
      AsideIsKept(targets, t0, f, m - 1, i);
    }
  }

  lemma {:induction false} ClearedIsKept(sha: Sha, job: Refresh, t0: Tree, f: Faults, m: nat, i: nat)
    requires job.Valid() && i < m <= |job.targets| && Cleared(f, |job.targets|, i) && TargetAt(sha, job, t0, f, i) != map[]
    ensures (job.targets[i], TargetAt(sha, job, t0, f, i)) in ClearedBy(sha, job, t0, f, m)
  {
    hide TargetAt, Cleared;
    if i + 1 < m {
      ClearedIsKept(sha, job, t0, f, m - 1, i);
    }
  }

  /** Replacing packages loses no file: what was at a target, and a new package that was put there, is still there or among
      the superseded packages, where everything from before still is. */
  lemma NoFileLost(sha: Sha, job: Refresh, c0: Contents, c1: Contents, f: Faults, i: nat)
    requires job.Valid() && i < |job.targets| && Leaves(sha, job, c0, c1, f)
    ensures c0.superseded <= c1.superseded
    ensures var p := job.targets[i];
            && (Take(c0.tree, p) == Take(c1.tree, p) || Take(c0.tree, p) == map[] || (p, Take(c0.tree, p)) in c1.superseded)
            && (Installed(f, |job.targets|, i) ==>
                  var placed := Place(p, job.Package(sha, p));
                  Take(c1.tree, p) == placed || placed == map[] || (p, placed) in c1.superseded)
  {
    hide Take, Exists, AsideBy, ClearedBy, Place, Outside, RecordAfter, HowFar, Aside, Cleared, Installed;
    var p, n := job.targets[i], |job.targets|;
    TakeDrop(c0.tree, p);
    InstalledAfterAside(f, n, i);
    if Aside(f, i) && Exists(c0.tree, p) {
      AsideIsKept(job.targets, c0.tree, f, n, i);
    }
    if Cleared(f, n, i) && TargetAt(sha, job, c0.tree, f, i) != map[] {
      ClearedIsKept(sha, job, c0.tree, f, n, i);
    }
  }

  lemma InstalledAfterAside(f: Faults, n: nat, i: nat)
    requires i < n
    ensures Installed(f, n, i) ==> Aside(f, i)
  {
  }

  /** The docstring of `fail_closed` says that what cannot be moved does not verify. It does when the step that
      failed is the listing write: with these faults the refresh of one target raises, and the target verifies. */
  lemma UnmovableTargetVerifies(sha: Sha, job: Refresh, c0: Contents, c1: Contents) returns (f: Faults)
    requires job.Valid() && |job.targets| == 1
    ensures !AllGo(f, 0, 5) && AllGo(f, 0, 4) && f(4) == Fault(false, Raise) && f(5) == Fault(false, Raise)
    ensures Leaves(sha, job, c0, c1, f) ==> IsCurrent(sha, c1.tree, c1.record, job.targets[0])
  {
    f := k => if k == 4 || k == 5 then Fault(false, Raise) else Fault(true, Go);
    hide Leaves, IsCurrent;
    assert f(4).next == Raise;
    if Leaves(sha, job, c0, c1, f) {
      TargetCurrentIff(sha, job, c0, c1, f, 0);
    }
  }
}
