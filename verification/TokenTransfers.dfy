/** Direct payments (airdrop/tools/safe_batch.py): the transaction that pays a list (`transfers_tx`), the reader the
    signers rely on (`token_transfers`), and what an accepted transaction pays. */
module TokenTransfers {
  import opened Lists
  import opened Bytes
  import opened Options
  import opened MultiSend
  import opened VaultCalls
  import VaultBatch
  import opened Transfers

  type SafeTx = VaultBatch.SafeTx

  /** Selectors, the token, and the official MultiSendCallOnly contracts. */
  datatype Setting = Setting(transfer: Bytes, multisend: Bytes, token: Address, official: set<Address>)
  {
    predicate Valid() { |transfer| == 4 && |multisend| == 4 && IsAddress(token) }
  }

  datatype Trouble =
    | SendsEther
    | GasRefund
    | NotATransfer
    | UnofficialDelegate
    | MalformedBatch
    | NotBatch
    | NotPlainTransfer(call: nat)

  datatype Reading = Reading(transfers: seq<Transfer>, troubles: seq<Trouble>)

  // ----- reading

  /** The transfer a call makes, when it is a plain transfer of the token. */
  function TransferOf(s: Setting, c: Call): Option<Transfer>
  {
    if c.op != CALL || c.value != 0 || c.to != s.token then None
    else
      match DecodePair(s.transfer, c.data)
      case None => None
      case Some(p) => Some(Transfer(p.0, p.1))
  }

  function ReadCalls(s: Setting, calls: seq<Call>, i: nat): Reading
  {
    if calls == [] then Reading([], [])
    else
      var rest := ReadCalls(s, calls[1..], i + 1);
      match TransferOf(s, calls[0])
      case None => rest.(troubles := [NotPlainTransfer(i)] + rest.troubles)
      case Some(t) => rest.(transfers := [t] + rest.transfers)
  }

  function Envelope(tx: SafeTx): seq<Trouble>
  {
    (if tx.value != 0 then [SendsEther] else [])
    + (if tx.gasPrice != 0 || tx.gasToken != 0 || tx.refundReceiver != 0 then [GasRefund] else [])
  }

  function Read(s: Setting, tx: SafeTx): Reading
  {
    if tx.operation == CALL then
      match DecodePair(s.transfer, tx.data)
      case Some(p) => if tx.to == s.token then Reading([Transfer(p.0, p.1)], Envelope(tx)) else Reading([], Envelope(tx) + [NotATransfer])
      case None => Reading([], Envelope(tx) + [NotATransfer])
    else
      var found := Envelope(tx) + (if tx.to in s.official then [] else [UnofficialDelegate]);
      match DecodeMultiSend(s.multisend, tx.data)
      case Malformed => Reading([], found + [MalformedBatch])
      case NotMultiSend => Reading([], found + [NotBatch])
      case Calls(calls) =>
        var r := ReadCalls(s, calls, 1);
        r.(troubles := found + r.troubles)
  }

  /** The loop of `token_transfers` over the calls of a batch. */
  method ReadBatch(s: Setting, calls: seq<Call>, found: seq<Trouble>) returns (r: Reading)
    ensures r == ReadCalls(s, calls, 1).(troubles := found + ReadCalls(s, calls, 1).troubles)
  {
    hide TransferOf;
    var transfers, troubles := [], found;
    ghost var whole := ReadCalls(s, calls, 1);
    assert calls[0..] == calls;
    var i := 0;
    while i < |calls|
      invariant i <= |calls|
      invariant transfers + ReadCalls(s, calls[i..], i + 1).transfers == whole.transfers
      invariant troubles + ReadCalls(s, calls[i..], i + 1).troubles == found + whole.troubles
    {
      ghost var rest := ReadCalls(s, calls[i + 1..], i + 2);
      assert calls[i..][0] == calls[i] && calls[i..][1..] == calls[i + 1..];
      var t := TransferOf(s, calls[i]);
      if t.None? {
        Associative(troubles, [NotPlainTransfer(i + 1)], rest.troubles);
        troubles := troubles + [NotPlainTransfer(i + 1)];
      } else {
        Associative(transfers, [t.value], rest.transfers);
        transfers := transfers + [t.value];
      }
      i := i + 1;
    }
    r := Reading(transfers, troubles);
  }

  // ----- writing

  predicate Payable(t: Transfer) { IsAddress(t.to) && Fits(t.to) && Fits(t.amount) }

  function TransferCall(s: Setting, t: Transfer): Call
    requires Payable(t)
  {
    Call(0, s.token, 0, PairData(s.transfer, t.to, t.amount))
  }

  predicate AllPayable(ts: seq<Transfer>) { forall i :: 0 <= i < |ts| ==> Payable(ts[i]) }

  function TransferCalls(s: Setting, ts: seq<Transfer>): (calls: seq<Call>)
    requires AllPayable(ts)
    ensures |calls| == |ts|
  {
    if ts == [] then [] else [TransferCall(s, ts[0])] + TransferCalls(s, ts[1..])
  }

  /** `transfers_tx`: one transfer alone, several through MultiSend. */
  function TransfersTx(s: Setting, multisend: Address, ts: seq<Transfer>): SafeTx
    requires AllPayable(ts) && Sendable(TransferCalls(s, ts))
  {
    if |ts| == 1 then VaultBatch.SafeTx(s.token, 0, TransferCall(s, ts[0]).data, CALL, 0, 0, 0)
    else VaultBatch.SafeTx(multisend, 0, MultiSendData(s.multisend, TransferCalls(s, ts)), DELEGATECALL, 0, 0, 0)
  }

  lemma TransferReads(s: Setting, t: Transfer)
    requires s.Valid() && Payable(t)
    ensures DecodePair(s.transfer, TransferCall(s, t).data) == Some((t.to, t.amount))
    ensures TransferOf(s, TransferCall(s, t)) == Some(t)
  {
    hide DecodePair, PairData, Pow256;
    PairIff(s.transfer, TransferCall(s, t).data, t.to, t.amount);
  }

  lemma {:induction false} CallsRead(s: Setting, ts: seq<Transfer>, i: nat)
    requires s.Valid() && AllPayable(ts)
    ensures ReadCalls(s, TransferCalls(s, ts), i) == Reading(ts, [])
  {
    hide TransferOf, TransferCall, Payable;
    if ts != [] {
      CallsRead(s, ts[1..], i + 1);
      TransferReads(s, ts[0]);
      assert TransferCalls(s, ts)[1..] == TransferCalls(s, ts[1..]);
      assert ts == [ts[0]] + ts[1..];
    }
  }

  /** Reading a payment returns exactly the list it was written from, with nothing to object to. */
  lemma PaymentReads(s: Setting, multisend: Address, ts: seq<Transfer>)
    requires s.Valid() && multisend in s.official && AllPayable(ts) && Sendable(TransferCalls(s, ts))
    ensures Read(s, TransfersTx(s, multisend, ts)) == Reading(ts, [])
  {
    hide DecodePair, TransferOf, DecodeMultiSend, MultiSendData, PackAll, Packable, Pow256, TransferCall;
    if |ts| == 1 {
      TransferReads(s, ts[0]);
      assert ts == [Transfer(ts[0].to, ts[0].amount)];
    } else {
      MultiSendRoundTrip(s.multisend, TransferCalls(s, ts));
      CallsRead(s, ts, 1);
    }
  }

  // ----- paying

  /** The Safe calls transfer on the token for each row; one failure undoes all. */
  function Pay(safe: Address, ts: seq<Transfer>, m: map<Address, nat>): Option<map<Address, nat>>
  {
    if ts == [] then Some(m)
    else
      var t, held := ts[0], AmountAt(m, safe);
      if held < t.amount then None
      else
        var less := m[safe := held - t.amount];
        Pay(safe, ts[1..], less[t.to := AmountAt(less, t.to) + t.amount])
  }

  function Total(ts: seq<Transfer>): nat
  {
    if ts == [] then 0 else ts[0].amount + Total(ts[1..])
  }

  /** What leaves the Safe: a transfer to itself does not. */
  function Leaves(safe: Address, ts: seq<Transfer>): nat
  {
    if ts == [] then 0 else (if ts[0].to == safe then 0 else ts[0].amount) + Leaves(safe, ts[1..])
  }

  /** The Safe can make every transfer, after what the ones before it have left. */
  ghost predicate Affords(safe: Address, ts: seq<Transfer>, held: nat)
  {
    forall k :: 0 <= k < |ts| ==> Leaves(safe, ts[..k]) + ts[k].amount <= held
  }

  /** A payment goes through exactly when the Safe can afford each transfer in its turn; then the Safe has lost what
      leaves it and every recipient has gained exactly its own transfers. */
  lemma {:induction false} PayIff(safe: Address, ts: seq<Transfer>, m: map<Address, nat>)
    ensures var r := Pay(safe, ts, m);
            && (r.Some? <==> Affords(safe, ts, AmountAt(m, safe)))
            && (r.Some? ==> AmountAt(r.value, safe) + Leaves(safe, ts) == AmountAt(m, safe))
            && (r.Some? ==> forall a :: a != safe ==> AmountAt(r.value, a) == AmountAt(m, a) + Sum(To(a, ts)))
  {
    if ts != [] {
      var t, held := ts[0], AmountAt(m, safe);
      AffordsStep(safe, ts, held);
      if held >= t.amount {
        var less := m[safe := held - t.amount];
        var next := less[t.to := AmountAt(less, t.to) + t.amount];
        PayIff(safe, ts[1..], next);
        hide Affords;
        forall a | a != safe ensures AmountAt(next, a) + Sum(To(a, ts[1..])) == AmountAt(m, a) + Sum(To(a, ts)) {
          ToStep(a, ts);
        }
      }
    }
  }

  lemma AffordsStep(safe: Address, ts: seq<Transfer>, held: nat)
    requires ts != []
    ensures var out := if ts[0].to == safe then 0 else ts[0].amount;
            Affords(safe, ts, held) <==> ts[0].amount <= held && Affords(safe, ts[1..], held - out)
  {
    var out, rest := if ts[0].to == safe then 0 else ts[0].amount, ts[1..];
    assert ts[..0] == [];
    assert forall k :: 0 <= k < |rest| ==> rest[k] == ts[k + 1];
    forall k | 0 <= k < |rest| ensures Leaves(safe, ts[..k + 1]) == out + Leaves(safe, rest[..k]) {
      assert ts[..k + 1][1..] == rest[..k];
    }
    if Affords(safe, ts, held) {
      assert Leaves(safe, ts[..0]) + ts[0].amount <= held;
      forall k | 0 <= k < |rest| ensures Leaves(safe, rest[..k]) + rest[k].amount <= held - out {
        assert Leaves(safe, ts[..k + 1]) + ts[k + 1].amount <= held;
      }
    }
    if ts[0].amount <= held && Affords(safe, rest, held - out) {
      forall k | 0 <= k < |ts| ensures Leaves(safe, ts[..k]) + ts[k].amount <= held {
        if k > 0 {
          assert Leaves(safe, rest[..k - 1]) + rest[k - 1].amount <= held - out;
        }
      }
    }
  }

  /** Where the Safe is not among the recipients, that is exactly when it holds the total. */
  lemma {:induction false} AffordsIff(safe: Address, ts: seq<Transfer>, held: nat)
    requires forall t :: t in ts ==> t.to != safe
    ensures Leaves(safe, ts) == Total(ts) && (Affords(safe, ts, held) <==> Total(ts) <= held)
  {
    if ts != [] {
      assert ts[0] in ts && forall u :: u in ts[1..] ==> u in ts;
      AffordsStep(safe, ts, held);
      AffordsIff(safe, ts[1..], if ts[0].amount <= held then held - ts[0].amount else 0);
    }
  }

  lemma ToStep(a: nat, ts: seq<Transfer>)
    requires ts != []
    ensures Sum(To(a, ts)) == (if ts[0].to == a then ts[0].amount else 0) + Sum(To(a, ts[1..]))
  {
    var rest := To(a, ts[1..]);
    assert ([ts[0].amount] + rest)[1..] == rest && [] + rest == rest;
  }

  /** A transaction read without troubles is nothing but the transfers listed. */
  predicate OnlyTransfers(s: Setting, tx: SafeTx, ts: seq<Transfer>)
  {
    && tx.value == 0 && tx.gasPrice == 0 && tx.gasToken == 0 && tx.refundReceiver == 0
    && AllPayable(ts)
    && (if tx.operation == CALL then |ts| == 1 && tx.to == s.token && tx.data == TransferCall(s, ts[0]).data
        else tx.to in s.official && DecodeMultiSend(s.multisend, tx.data) == Calls(TransferCalls(s, ts)))
  }

  lemma {:induction false} CleanCalls(s: Setting, calls: seq<Call>, i: nat)
    requires s.Valid()
    ensures var r := ReadCalls(s, calls, i);
            r.troubles == [] ==> AllPayable(r.transfers) && calls == TransferCalls(s, r.transfers)
  {
    if calls != [] {
      CleanCalls(s, calls[1..], i + 1);
      CleanCall(s, calls[0]);
      hide TransferOf, TransferCall, Payable, TransferCalls, AllPayable;
      var r, rest := ReadCalls(s, calls, i), ReadCalls(s, calls[1..], i + 1);
      if r.troubles == [] {
        var t := TransferOf(s, calls[0]).value;
        assert r.transfers == [t] + rest.transfers && rest.troubles == [];
        hide ReadCalls;
        OneMoreCall(s, t, rest.transfers);
        assert calls == [calls[0]] + calls[1..];
      }
    } else {
      NoCalls(s);
    }
  }

  lemma NoCalls(s: Setting)
    ensures AllPayable([]) && TransferCalls(s, []) == []
  {
  }

  lemma OneMoreCall(s: Setting, t: Transfer, ts: seq<Transfer>)
    requires s.Valid() && Payable(t) && AllPayable(ts)
    ensures AllPayable([t] + ts) && TransferCalls(s, [t] + ts) == [TransferCall(s, t)] + TransferCalls(s, ts)
  {
    hide Payable, TransferCall;
    assert ([t] + ts)[1..] == ts;
  }

  lemma CleanCall(s: Setting, c: Call)
    requires s.Valid()
    ensures TransferOf(s, c).Some? ==> Payable(TransferOf(s, c).value) && c == TransferCall(s, TransferOf(s, c).value)
  {
    hide DecodePair, PairData, Pow256;
    if TransferOf(s, c).Some? {
      var t := TransferOf(s, c).value;
      PairIff(s.transfer, c.data, t.to, t.amount);
    }
  }

  /** The reader finds nothing to object to exactly when the transaction is nothing but the transfers it lists. */
  lemma ReadIff(s: Setting, tx: SafeTx, ts: seq<Transfer>)
    requires s.Valid()
    ensures Read(s, tx) == Reading(ts, []) <==> OnlyTransfers(s, tx, ts)
  {
    hide DecodePair, PairData, Pow256, DecodeMultiSend, ReadCalls, TransferCalls;
    if tx.operation == CALL {
      if |ts| == 1 {
        PairIff(s.transfer, tx.data, ts[0].to, ts[0].amount);
        assert ts == [Transfer(ts[0].to, ts[0].amount)];
      }
    } else {
      match DecodeMultiSend(s.multisend, tx.data) {
        case Calls(calls) =>
          CleanCalls(s, calls, 1);
          if AllPayable(ts) {
            CallsRead(s, ts, 1);
          }
        case _ =>
      }
    }
  }
}
