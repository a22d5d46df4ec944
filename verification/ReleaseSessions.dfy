/** Sending a release file with send_calldata.py: the sender's runs, crashes and resumes together with what they do to the
    escrows. */
module ReleaseSessions {
  import opened Bytes
  import opened ReleasePacket
  import opened EscrowRelease
  import opened ReleaseRuns
  import SendCalldata

  /** What can happen to a sending session: a run of the sender, with its faults; a transaction left in flight is mined;
      the account sends something else. */
  datatype Action = Invoke(turns: seq<SendCalldata.Turn>) | Mine(ok: bool) | SendForeign

  /** Any sequence of these. Nothing is ever taken back from the history or the log. */
  method Drive(s: SendCalldata.Session, actions: seq<Action>)
    requires s.Valid()
    modifies s
    ensures s.Valid() && old(s.mined) <= s.mined && old(s.log) <= s.log
  {
    for i := 0 to |actions|
      invariant s.Valid() && old(s.mined) <= s.mined && old(s.log) <= s.log
    {
      match actions[i]
      case Invoke(turns) =>
        var refused, finished := s.Invoke(turns);
      case Mine(ok) =>
        if s.inFlight.Some? {
          s.MineInFlight(ok);
        }
      case SendForeign =>
        s.SendForeign();
    }
  }

  /** Wherever the session stands, whatever happened to the escrows in between: no transaction of the file has reverted,
      exactly the payments of the calls done were made, and every escrow is untouched, restored, or unfinished and
      refused. Once the log is complete, all are restored and all payments made. */
  lemma SessionSafe(h: Keccak, w0: World, owner: Address, ps: seq<Plan>, s: SendCalldata.Session, events: seq<Event>)
    requires FilePlans(w0, owner, ps) && s.Valid() && s.count == |FileCalls(h, ps)|
    requires Sent(events) == SendCalldata.Executed(s.mined)
    ensures var r, m := Run(h, w0, owner, FileCalls(h, ps), events), s.Progress().value;
            && r.Some? && r.value.payments == w0.payments + PaidBy(ps, m)
            && FileAt(h, w0, r.value, ps, m) && PrefixSafe(w0, r.value, owner, ps, m)
            && (|s.log| == s.count ==>
                  && r.value.payments == w0.payments + AllPayments(ps)
                  && forall j :: 0 <= j < |ps| ==> EndsRestored(w0, r.value, ps[j]))
  {
    hide FilePlans, FileCalls, Run, PaidBy, FileAt, PrefixSafe, EndsRestored, AllPayments, Sent, SendCalldata.Executed, SendCalldata.Done;
    RunSafe(h, w0, owner, ps, events);
    EveryPrefixSafe(h, w0, owner, ps, events);
    if |s.log| == s.count {
      ReleaseCompletes(h, w0, owner, ps, events);
    }
  }
}
