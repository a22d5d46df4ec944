/** bridge-claims/tools/send_calldata.py: sending one calldata file from an account, with a log of confirmed
    transactions, over any number of invocations that stop anywhere. */
module SendCalldata {
  import opened Options

  /** A transaction mined for the account; its position in the account's history is its nonce. */
  datatype Mined = Ours(index: nat, ok: bool) | Foreign

  /** A line of `<file>.sent.json`. */
  datatype Entry = Entry(index: nat, nonce: nat)

  /** How the attempt to send one transaction ends. Only `Confirmed` continues the loop. */
  datatype Fate =
    | NotSent              // the simulation or `cast` failed, or the run was stopped before broadcasting
    | LeftInFlight         // stopped after broadcasting, before it was mined
    | MinedNotLogged       // mined successfully, stopped before the log was saved
    | Reverted             // mined and reverted
    | Confirmed            // mined successfully and logged

  /** Foreign transactions of the same account mined before the attempt, and its fate. */
  datatype Turn = Turn(foreign: nat, fate: Fate)

  /** What an attempt adds to the account's history. */
  function MinedBy(fate: Fate, i: nat): seq<Mined>
  {
    match fate
    case NotSent => []
    case LeftInFlight => []
    case MinedNotLogged => [Ours(i, true)]
    case Reverted => [Ours(i, false)]
    case Confirmed => [Ours(i, true)]
  }

  predicate AllConfirmed(turns: seq<Turn>, n: int)
  {
    n <= |turns| && forall k :: 0 <= k < n ==> turns[k].fate.Confirmed?
  }

  // ----- execution order

  /** Distinct transactions done after executing `i` with `m` done: the next one, or the first one again
      while it is the only one done. */
  function Advance(m: nat, i: nat): Option<nat>
  {
    if i == m then Some(m + 1) else if i == 0 && m == 1 then Some(1) else None
  }

  /** How far a sequence of executions gets; `None` when it is out of order. */
  function Done(executed: seq<nat>): Option<nat>
  {
    if executed == [] then Some(0)
    else match Done(executed[..|executed| - 1])
      case None => None
      case Some(m) => Advance(m, executed[|executed| - 1])
  }

  lemma DoneSnoc(executed: seq<nat>, i: nat)
    ensures Done(executed + [i]) == match Done(executed) case None => None case Some(m) => Advance(m, i)
  {
    assert (executed + [i])[..|executed|] == executed;
  }

  /** An ordered sequence is the first transaction some number of times, then the next ones once each. */
  lemma {:induction false} DoneShape(executed: seq<nat>) returns (repeats: nat)
    requires Done(executed).Some?
    ensures Done(executed).value == 0 ==> executed == []
    ensures var m := Done(executed).value;
            m > 0 ==> repeats >= 1 && |executed| == repeats + m - 1
                      && (forall k :: 0 <= k < repeats ==> executed[k] == 0)
                      && (forall k :: repeats <= k < |executed| ==> executed[k] == k - repeats + 1)
  {
    if executed == [] {
      repeats := 0;
    } else {
      var before := executed[..|executed| - 1];
      repeats := DoneShape(before);
      if executed[|executed| - 1] == 0 {
        repeats := repeats + 1;
        if Done(before).value == 0 { repeats := 1; }
      }
    }
  }

  /** The indices of our successful transactions, in nonce order. */
  function Executed(mined: seq<Mined>): seq<nat>
  {
    if mined == [] then []
    else
      var last := mined[|mined| - 1];
      Executed(mined[..|mined| - 1]) + if last.Ours? && last.ok then [last.index] else []
  }

  lemma ExecutedSnoc(mined: seq<Mined>, t: Mined)
    ensures Executed(mined + [t]) == if t.Ours? && t.ok then Executed(mined) + [t.index] else Executed(mined)
  {
    assert (mined + [t])[..|mined|] == mined;
    assert Executed(mined) + [] == Executed(mined);
  }

  // ----- the sender

  class Session {
    const count: nat               // transactions in the file
    var log: seq<Entry>
    var mined: seq<Mined>
    var inFlight: Option<nat>

    function Progress(): Option<nat>
      reads this
    {
      Done(Executed(mined))
    }

    /** Something of the account was mined after the last logged transaction. */
    predicate Moved()
      reads this
    {
      log != [] && |mined| != log[|log| - 1].nonce + 1
    }

    ghost predicate Valid()
      reads this
    {
      && |log| <= count
      && (forall k :: 0 <= k < |log| ==>
            log[k].index == k && log[k].nonce < |mined| && mined[log[k].nonce] == Ours(k, true))
      && Progress().Some? && Progress().value <= count
      && (log == [] ==> Progress().value <= 1)
      && (log != [] ==> Progress().value == |log| || (Progress().value == |log| + 1 && Moved()))
      && (inFlight.Some? ==> inFlight.value == |log| < count && Progress().value <= if log == [] then 1 else |log|)
    }

    /** A fresh file, for an account with any history. */
    constructor (count: nat, history: nat)
      ensures Valid() && this.count == count && log == [] && Executed(mined) == []
    {
      this.count := count;
      log, inFlight := [], None;
      mined := seq(history, i => Foreign);
      new;
      NoneExecuted(history);
    }

    /** Another wallet action of the same account. */
    method SendForeign()
      requires Valid()
      modifies `mined
      ensures Valid() && mined == old(mined) + [Foreign] && Executed(mined) == old(Executed(mined))
    {
      ExecutedSnoc(mined, Foreign);
      mined := mined + [Foreign];
    }

    /** A transaction left in flight by a stopped run is mined. */
    method MineInFlight(ok: bool)
      requires Valid() && inFlight.Some?
      modifies `mined, `inFlight
      ensures Valid() && inFlight.None? && mined == old(mined) + [Ours(old(inFlight).value, ok)]
    {
      ExecutedSnoc(mined, Ours(inFlight.value, ok));
      DoneSnoc(Executed(mined), inFlight.value);
      mined, inFlight := mined + [Ours(inFlight.value, ok)], None;
    }

    /** One invocation of `main`. The resume checks refuse a run when a transaction is in flight, or when the
        account moved on after the last logged transaction; with an empty log there is no such check. */
    method Invoke(turns: seq<Turn>) returns (refused: bool, finished: bool)
      requires Valid()
      modifies this
      ensures Valid()
      ensures old(mined) <= mined && old(log) <= log
      ensures refused <==> (old(inFlight).Some? || old(Moved()))
      ensures refused ==> mined == old(mined) && log == old(log) && inFlight == old(inFlight)
      ensures finished <==> !refused && |log| == count
      ensures !refused && AllConfirmed(turns, count - |old(log)|) ==> finished
    {
      if inFlight.Some? || Moved() {
        return true, false;
      }
      refused := false;
      var start := |log|;
      var i, running := start, true;
      while i < count && running
        invariant Valid() && old(mined) <= mined && old(log) <= log
        invariant start <= i
        invariant running ==> i == |log| && inFlight.None? && !Moved()
        invariant !running ==> |log| < count
        invariant AllConfirmed(turns, count - start) ==> running
      {
        running := false;
        if i - start < |turns| {
          running := Attempt(i, turns[i - start]);
        }
        i := i + 1;
      }
      finished := |log| == count;
    }

    /** One pass through the send loop. */
    method Attempt(i: nat, turn: Turn) returns (confirmed: bool)
      requires Valid() && i == |log| < count && inFlight.None? && !Moved()
      modifies this
      ensures Valid() && (confirmed <==> turn.fate.Confirmed?) && (confirmed ==> !Moved())
      ensures mined == old(mined) + seq(turn.foreign, k => Foreign) + MinedBy(turn.fate, i)
      ensures log == if confirmed then old(log) + [Entry(i, |mined| - 1)] else old(log)
      ensures inFlight == if turn.fate.LeftInFlight? then Some(i) else None
    {
      hide Done, Executed;
      mined := mined + seq(turn.foreign, k => Foreign);
      ForeignExecutes(old(mined), turn.foreign);
      confirmed := false;
      match turn.fate
      case NotSent =>
      case LeftInFlight =>
        inFlight := Some(i);
      case MinedNotLogged =>
        MineNow(i, true);
      case Reverted =>
        MineNow(i, false);
      case Confirmed =>
        MineNow(i, true);
        log := log + [Entry(i, |mined| - 1)];
        confirmed := true;
    }

    /** The account's next transaction is `i` of the file. */
    method MineNow(i: nat, ok: bool)
      modifies `mined
      ensures mined == old(mined) + [Ours(i, ok)]
      ensures Executed(mined) == if ok then old(Executed(mined)) + [i] else old(Executed(mined))
      ensures ok && old(Progress()).Some? ==> Progress() == Advance(old(Progress()).value, i)
    {
      ExecutedSnoc(mined, Ours(i, ok));
      DoneSnoc(Executed(mined), i);
      mined := mined + [Ours(i, ok)];
    }
  }

  lemma {:induction false} NoneExecuted(n: nat)
    ensures Executed(seq(n, i => Foreign)) == []
  {
    if n > 0 {
      var all := seq(n, i => Foreign);
      assert all[..n - 1] == seq(n - 1, i => Foreign);
      NoneExecuted(n - 1);
    }
  }

  lemma {:induction false} ForeignExecutes(mined: seq<Mined>, n: nat)
    ensures Executed(mined + seq(n, k => Foreign)) == Executed(mined)
  {
    var more := seq(n, k => Foreign);
    if n == 0 {
      assert mined + more == mined;
    } else {
      ForeignExecutes(mined, n - 1);
      assert mined + more == (mined + seq(n - 1, k => Foreign)) + [Foreign];
      ExecutedSnoc(mined + seq(n - 1, k => Foreign), Foreign);
    }
  }
}
