/** Safe's packed call lists (airdrop/tools/safe_batch.py): `pack_call`, `multiSend(bytes)` and its decoder. */
module MultiSend {
  import opened Bytes
  import opened Lists
  import opened Options
  import opened AbiReader

  type Address = nat

  const CALL: nat := 0
  const DELEGATECALL: nat := 1

  datatype Call = Call(op: Byte, to: Address, value: nat, data: Bytes)

  predicate Packable(c: Call)
  {
    c.to < Pow256(20) && Fits(c.value) && Fits(|c.data|)
  }

  /** One entry: operation (1 byte), to (20), value (32), length (32), data. */
  function PackCall(c: Call): (b: Bytes)
    requires Packable(c)
    ensures |b| == 85 + |c.data|
  {
    [c.op] + ToBytes(c.to, 20) + Word(c.value) + Word(|c.data|) + c.data
  }

  function PackAll(calls: seq<Call>): Bytes
    requires forall i :: 0 <= i < |calls| ==> Packable(calls[i])
  {
    if calls == [] then [] else PackCall(calls[0]) + PackAll(calls[1..])
  }

  /** The first entry of a packed list, when it is whole. */
  function FirstCall(packed: Bytes): (r: Option<Call>)
    ensures r.Some? ==> 85 + |r.value.data| <= |packed|
  {
    if |packed| < 85 then None
    else
      var size := FromBytes(packed[53..85]);
      if |packed| < 85 + size then None
      else Some(Call(packed[0], FromBytes(packed[1..21]), FromBytes(packed[21..53]), packed[85..85 + size]))
  }

  /** Every entry of a packed list; `None` when it ends in the middle of one. */
  function Entries(packed: Bytes): Option<seq<Call>>
    decreases |packed|
  {
    if packed == [] then Some([])
    else
      match FirstCall(packed)
      case None => None
      case Some(c) =>
        match Entries(packed[85 + |c.data|..])
        case None => None
        case Some(rest) => Some([c] + rest)
  }

  lemma FirstOfPacked(c: Call, rest: Bytes)
    requires Packable(c)
    ensures FirstCall(PackCall(c) + rest) == Some(c)
    ensures (PackCall(c) + rest)[85 + |c.data|..] == rest
  {
    var to, value, size := ToBytes(c.to, 20), Word(c.value), Word(|c.data|);
    assert PackCall(c) == [c.op] + to + value + size + c.data;
    hide ToBytes, Word, FromBytes, PackCall;
    Fields(c.op, to, value, size, c.data, rest);
  }

  /** What is read back is what was there: no byte of an entry is left unaccounted for. */
  lemma PackOfFirst(packed: Bytes)
    requires FirstCall(packed).Some?
    ensures var c := FirstCall(packed).value;
            Packable(c) && 85 + |c.data| <= |packed| && packed == PackCall(c) + packed[85 + |c.data|..]
  {
    hide ToBytes, FromBytes, Pow256;
    var to, value, size := packed[1..21], packed[21..53], packed[53..85];
    ToFromBytes(to);
    ToFromBytes(value);
    ToFromBytes(size);
    var c := FirstCall(packed).value;
    assert PackCall(c) == [packed[0]] + to + value + size + c.data;
    Cut(packed, |c.data|);
  }

  lemma Cut(packed: Bytes, n: nat)
    requires 85 + n <= |packed|
    ensures packed == ([packed[0]] + packed[1..21] + packed[21..53] + packed[53..85] + packed[85..85 + n]) + packed[85 + n..]
  {
  }

  /** The fields of an entry sit at their offsets. */
  lemma Fields(op: Byte, to: Bytes, value: Bytes, size: Bytes, data: Bytes, rest: Bytes)
    requires |to| == 20 && |value| == 32 && |size| == 32
    ensures var packed := ([op] + to + value + size + data) + rest;
            && packed[0] == op && packed[1..21] == to && packed[21..53] == value && packed[53..85] == size
            && packed[85..85 + |data|] == data && packed[85 + |data|..] == rest
  {
  }

  /** Decoding inverts packing. */
  lemma {:induction false} EntriesOfPacked(calls: seq<Call>)
    requires forall i :: 0 <= i < |calls| ==> Packable(calls[i])
    ensures Entries(PackAll(calls)) == Some(calls)
  {
    hide PackCall, FirstCall, Packable;
    if calls != [] {
      var rest := PackAll(calls[1..]);
      EntriesOfPacked(calls[1..]);
      FirstOfPacked(calls[0], rest);
      assert PackAll(calls) == PackCall(calls[0]) + rest;
      assert calls == [calls[0]] + calls[1..];
    }
  }

  /** Packing inverts decoding: a list is accepted only as the packing of what it decodes to. */
  lemma {:induction false} PackedOfEntries(packed: Bytes)
    requires Entries(packed).Some?
    ensures forall i :: 0 <= i < |Entries(packed).value| ==> Packable(Entries(packed).value[i])
    ensures PackAll(Entries(packed).value) == packed
    decreases |packed|
  {
    hide PackCall, FirstCall, Packable;
    if packed != [] {
      PackOfFirst(packed);
      var c := FirstCall(packed).value;
      var rest := packed[85 + |c.data|..];
      PackedOfEntries(rest);
      var calls := Entries(packed).value;
      assert calls[0] == c && calls[1..] == Entries(rest).value;
    }
  }

  // ----- multiSend(bytes)

  predicate AllPackable(calls: seq<Call>) { forall i :: 0 <= i < |calls| ==> Packable(calls[i]) }

  /** Calls that one transaction can carry. */
  predicate Sendable(calls: seq<Call>) { AllPackable(calls) && Fits(|PackAll(calls)|) && Fits(32) }

  function MultiSendData(selector: Bytes, calls: seq<Call>): Bytes
    requires (forall i :: 0 <= i < |calls| ==> Packable(calls[i])) && Fits(|PackAll(calls)|) && Fits(32)
  {
    var packed := PackAll(calls);
    selector + Word(32) + Word(|packed|) + packed + Zeros(Padding(|packed|))
  }

  /** `decode_multisend`: `NotMultiSend` where it returns None, `Malformed` where it raises. */
  datatype Decoded = NotMultiSend | Malformed | Calls(calls: seq<Call>)

  /** The packed list a `multiSend(bytes)` call carries. */
  function Packed(data: Bytes): Option<Bytes>
    requires |data| >= 36
  {
    var start := 4 + FromBytes(data[4..36]);
    var length := FromBytes(Slice(data, start, start + 32));
    var packed := Slice(data, start + 32, start + 32 + length);
    if |packed| != length then None else Some(packed)
  }

  function DecodeMultiSend(selector: Bytes, data: Bytes): Decoded
  {
    if Slice(data, 0, 4) != selector || |data| < 68 then NotMultiSend
    else
      match Packed(data)
      case None => Malformed
      case Some(packed) =>
        match Entries(packed)
        case None => Malformed
        case Some(calls) => Calls(calls)
  }

  /** The decoding loop. */
  method DecodeEntries(packed: Bytes) returns (r: Option<seq<Call>>)
    ensures r == Entries(packed)
  {
    hide FirstCall;
    var calls: seq<Call> := [];
    var rest := packed;
    assert Entries(packed).Some? ==> [] + Entries(packed).value == Entries(packed).value;
    while rest != []
      invariant Entries(packed) == match Entries(rest) case None => None case Some(more) => Some(calls + more)
      decreases |rest|
    {
      var first := FirstCall(rest);
      if first.None? {
        return None;
      }
      ghost var was := calls;
      calls := calls + [first.value];
      rest := rest[85 + |first.value.data|..];
      assert Entries(rest).Some? ==> was + ([first.value] + Entries(rest).value) == calls + Entries(rest).value;
    }
    assert calls + [] == calls;
    r := Some(calls);
  }

  /** The decoder returns exactly the calls a batch was written from. */
  lemma MultiSendRoundTrip(selector: Bytes, calls: seq<Call>)
    requires |selector| == 4 && (forall i :: 0 <= i < |calls| ==> Packable(calls[i]))
    requires Fits(|PackAll(calls)|) && Fits(32)
    ensures DecodeMultiSend(selector, MultiSendData(selector, calls)) == Calls(calls)
  {
    var packed := PackAll(calls);
    EntriesOfPacked(calls);
    PackedOfData(selector, packed, Word(32), Word(|packed|), Zeros(Padding(|packed|)));
    hide Entries, PackAll, Packed, Packable;
    var data := MultiSendData(selector, calls);
    assert Slice(data, 0, 4) == selector;
  }

  /** The arguments of a call, without its selector. */
  function Arguments(data: Bytes): Bytes { if |data| < 4 then [] else data[4..] }

  /** What is accepted as a batch of calls is exactly what the MultiSend contract runs as these calls: its selector, and an
      ABI byte string that is their packing. */
  lemma MultiSendIff(selector: Bytes, data: Bytes, calls: seq<Call>)
    requires |selector| == 4 && calls != []
    ensures DecodeMultiSend(selector, data) == Calls(calls)
       <==> && |data| >= 68 && data[..4] == selector && AllPackable(calls)
            && ReadBytes(Arguments(data), WordAt(Arguments(data), 0)) == Some(PackAll(calls))
  {
    hide Entries, PackAll, Packable, FromBytes, Packed;
    if |data| >= 68 {
      assert Slice(data, 0, 4) == data[..4];
      PackedIff(data);
      if Packed(data).Some? && Entries(Packed(data).value) == Some(calls) {
        PackedOfEntries(Packed(data).value);
        NothingPacks(Packed(data).value);
      }
      if AllPackable(calls) {
        EntriesOfPacked(calls);
      }
    }
  }

  /** A packed list that is not empty is the byte string the call carries. */
  lemma PackedIff(data: Bytes)
    requires |data| >= 68
    ensures var args := Arguments(data);
            var strict := ReadBytes(args, WordAt(args, 0));
            && (strict.Some? ==> Packed(data) == strict)
            && (Packed(data).Some? && Packed(data).value != [] ==> strict == Packed(data))
  {
    hide FromBytes;
    var args := Arguments(data);
    assert args[0..32] == data[4..36];
    var at := WordAt(args, 0);
    if at + 32 <= |args| {
      assert args[at..at + 32] == data[4 + at..4 + at + 32];
      var n := WordAt(args, at);
      if at + 32 + n <= |args| {
        assert args[at + 32..at + 32 + n] == data[4 + at + 32..4 + at + 32 + n];
      }
    }
  }

  lemma NothingPacks(packed: Bytes)
    ensures packed == [] ==> Entries(packed) == Some([])
  {
  }

  lemma PackedOfData(selector: Bytes, packed: Bytes, offset: Bytes, length: Bytes, padding: Bytes)
    requires |selector| == 4 && |offset| == 32 && |length| == 32
    requires FromBytes(offset) == 32 && FromBytes(length) == |packed|
    ensures Packed(selector + offset + length + packed + padding) == Some(packed)
  {
    hide FromBytes;
    var data := selector + offset + length + packed + padding;
    assert data[4..36] == offset;
    assert data[36..68] == length;
    assert data[68..68 + |packed|] == packed;
  }
}
