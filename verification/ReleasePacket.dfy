/** The bytes of an escrow release (bridge-claims/tools/release_plan.py): ABI encoding, the OFT payload,
    the packet header, the verifier configuration, and the readers that take them apart. */
module ReleasePacket {
  import opened Bytes
  import opened Lists
  import opened Options
  import opened AbiReader

  type Address = b: Bytes | |b| == 20 witness Zeros(20)

  /** `_address_word` */
  function AddressWord(a: Address): (w: Bytes)
    ensures |w| == 32 && w[12..] == a
  {
    Zeros(12) + a
  }

  // ----- abi_encode

  /** An argument: a static word, or a dynamic `bytes`. */
  datatype Arg = Static(word: Bytes) | Dynamic(data: Bytes)

  /** Length of the tail of one dynamic argument: length word, data, padding to a word. */
  function TailSize(n: nat): nat { 32 + n + Padding(n) }

  function Tail(args: seq<Arg>): Bytes
    requires forall i :: 0 <= i < |args| && args[i].Dynamic? ==> Fits(|args[i].data|)
  {
    if args == [] then [] else OwnTail(args[0]) + Tail(args[1..])
  }

  function OwnTail(arg: Arg): (t: Bytes)
    requires arg.Dynamic? ==> Fits(|arg.data|)
    ensures |t| == if arg.Dynamic? then TailSize(|arg.data|) else 0
    ensures arg.Dynamic? ==> FromBytes(t[0..32]) == |arg.data| && t[32..32 + |arg.data|] == arg.data
  {
    match arg
    case Static(_) => []
    case Dynamic(d) =>
      assert (Word(|d|) + d + Zeros(Padding(|d|)))[0..32] == Word(|d|);
      Word(|d|) + d + Zeros(Padding(|d|))
  }

  /** Where the next dynamic argument's tail goes after `arg`. */
  function After(arg: Arg, at: nat): nat { if arg.Dynamic? then at + TailSize(|arg.data|) else at }

  /** Static arguments are words, and every offset written from `at` on fits in a word. */
  predicate Encodable(args: seq<Arg>, at: nat)
  {
    args == [] || (WordOk(args[0], at) && Encodable(args[1..], After(args[0], at)))
  }

  predicate WordOk(arg: Arg, at: nat)
  {
    match arg
    case Static(w) => |w| == 32
    case Dynamic(d) => Fits(at) && Fits(|d|)
  }

  /** The head word of one argument: its value, or the offset of its tail. */
  function HeadWord(arg: Arg, at: nat): (w: Bytes)
    requires WordOk(arg, at)
    ensures |w| == 32
  {
    match arg
    case Static(w) => w
    case Dynamic(_) => Word(at)
  }

  function Head(args: seq<Arg>, at: nat): (b: Bytes)
    requires Encodable(args, at)
    ensures |b| == 32 * |args|
  {
    if args == [] then [] else HeadWord(args[0], at) + Head(args[1..], After(args[0], at))
  }

  lemma {:induction false} EncodableTail(args: seq<Arg>, at: nat)
    requires Encodable(args, at)
    ensures forall i :: 0 <= i < |args| && args[i].Dynamic? ==> Fits(|args[i].data|)
  {
    if args != [] {
      EncodableTail(args[1..], After(args[0], at));
    }
  }

  /** `abi_encode`: offsets count from the start of the encoding, which has one word per argument. */
  function AbiEncode(args: seq<Arg>): Bytes
    requires Encodable(args, 32 * |args|)
  {
    EncodableTail(args, 32 * |args|);
    Head(args, 32 * |args|) + Tail(args)
  }

  /** Bytes of tail before argument `i`. */
  function TailBefore(args: seq<Arg>, i: nat): nat
    requires i <= |args|
  {
    if i == 0 then 0 else After(args[0], 0) + TailBefore(args[1..], i - 1)
  }

  lemma {:induction false} HeadAt(args: seq<Arg>, at: nat, i: nat)
    requires Encodable(args, at) && i < |args|
    ensures WordOk(args[i], at + TailBefore(args, i))
    ensures Head(args, at)[32 * i..32 * i + 32] == HeadWord(args[i], at + TailBefore(args, i))
  {
    hide HeadWord, WordOk, TailSize;
    var first, rest := HeadWord(args[0], at), Head(args[1..], After(args[0], at));
    if i == 0 {
      SliceLeft(first, rest, 0, 32);
    } else {
      HeadAt(args[1..], After(args[0], at), i - 1);
      assert at + TailBefore(args, i) == After(args[0], at) + TailBefore(args[1..], i - 1);
      hide TailBefore, After;
      SliceRight(first, rest, 32 * (i - 1), 32 * (i - 1) + 32);
    }
  }

  lemma {:induction false} TailAt(args: seq<Arg>, i: nat)
    requires forall k :: 0 <= k < |args| && args[k].Dynamic? ==> Fits(|args[k].data|)
    requires i < |args| && args[i].Dynamic?
    ensures Holds(Tail(args), TailBefore(args, i), args[i].data)
  {
    hide Tail, TailBefore, OwnTail, After, TailSize, Holds;
    TailParts(args, i);
    if i == 0 {
      HoldsBefore(OwnTail(args[0]), Tail(args[1..]), 0, args[i].data);
    } else {
      TailAt(args[1..], i - 1);
      HoldsAfter(OwnTail(args[0]), Tail(args[1..]), TailBefore(args[1..], i - 1), args[i].data);
    }
  }

  /** At `at` stand the length of `d` and then `d`. */
  predicate Holds(b: Bytes, at: nat, d: Bytes)
  {
    at + 32 + |d| <= |b| && FromBytes(b[at..at + 32]) == |d| && b[at + 32..at + 32 + |d|] == d
  }

  lemma HoldsBefore(b: Bytes, more: Bytes, at: nat, d: Bytes)
    requires Holds(b, at, d)
    ensures Holds(b + more, at, d)
  {
    hide FromBytes;
    SliceLeft(b, more, at, at + 32);
    SliceLeft(b, more, at + 32, at + 32 + |d|);
  }

  lemma HoldsAfter(before: Bytes, b: Bytes, at: nat, d: Bytes)
    requires Holds(b, at, d)
    ensures Holds(before + b, |before| + at, d)
  {
    hide FromBytes;
    SliceRight(before, b, at, at + 32);
    SliceRight(before, b, at + 32, at + 32 + |d|);
  }

  lemma TailParts(args: seq<Arg>, i: nat)
    requires forall k :: 0 <= k < |args| && args[k].Dynamic? ==> Fits(|args[k].data|)
    requires i < |args| && args[i].Dynamic?
    ensures Tail(args) == OwnTail(args[0]) + Tail(args[1..])
    ensures TailBefore(args, i) == if i == 0 then 0 else |OwnTail(args[0])| + TailBefore(args[1..], i - 1)
    ensures i == 0 ==> Holds(OwnTail(args[0]), 0, args[0].data)
  {
    hide FromBytes;
  }

  /** Read a dynamic argument back the way a contract does: follow its offset, take its length. */
  function ReadDynamic(enc: Bytes, offset: nat): Bytes
  {
    if offset + 32 > |enc| then []
    else
      var n := FromBytes(enc[offset..offset + 32]);
      if offset + 32 + n > |enc| then enc[offset + 32..] else enc[offset + 32..offset + 32 + n]
  }

  /** Every argument can be read back from the encoding. */
  lemma AbiReadBack(args: seq<Arg>, i: nat)
    requires Encodable(args, 32 * |args|) && i < |args|
    ensures var enc := AbiEncode(args);
            && |enc| >= 32 * |args|
            && (args[i].Static? ==> enc[32 * i..32 * i + 32] == args[i].word)
            && (args[i].Dynamic? ==>
                  ReadDynamic(enc, FromBytes(enc[32 * i..32 * i + 32])) == args[i].data)
  {
    hide Head, Tail, TailBefore, FromBytes, Encodable, ReadDynamic;
    var base := 32 * |args|;
    EncodableTail(args, base);
    HeadAt(args, base, i);
    var head, tail := Head(args, base), Tail(args);
    SliceLeft(head, tail, 32 * i, 32 * i + 32);
    if args[i].Dynamic? {
      ReadTail(args, i, head, tail);
    }
  }

  lemma ReadTail(args: seq<Arg>, i: nat, head: Bytes, tail: Bytes)
    requires forall k :: 0 <= k < |args| && args[k].Dynamic? ==> Fits(|args[k].data|)
    requires i < |args| && args[i].Dynamic? && tail == Tail(args)
    ensures ReadDynamic(head + tail, |head| + TailBefore(args, i)) == args[i].data
  {
    hide *;
    TailAt(args, i);
    ReadAt(head, tail, TailBefore(args, i), args[i].data);
  }

  lemma ReadAt(head: Bytes, tail: Bytes, at: nat, data: Bytes)
    requires Holds(tail, at, data)
    ensures ReadDynamic(head + tail, |head| + at) == data
  {
    hide FromBytes;
    SliceRight(head, tail, at, at + 32);
    SliceRight(head, tail, at + 32, at + 32 + |data|);
  }

  // ----- the OFT payload

  /** `release_payload`: with a packet type (0) for Harmony's fork, without one for the legacy escrow. */
  function PayloadArgs(safe: Address, amount: nat, packetType: bool): seq<Arg>
    requires Fits(amount) && Fits(0)
  {
    if packetType then [Static(Word(0)), Dynamic(safe), Dynamic(safe), Static(Word(amount))]
    else [Dynamic(safe), Static(Word(amount))]
  }

  lemma PayloadEncodable(safe: Address, amount: nat, packetType: bool)
    requires Fits(amount)
    ensures Fits(0)
    ensures var args := PayloadArgs(safe, amount, packetType); Encodable(args, 32 * |args|)
  {
    SmallFits();
    hide Pow256, Word;
    var args := PayloadArgs(safe, amount, packetType);
    var at := 32 * |args|;
    if packetType {
      assert args[1..] == [Dynamic(safe), Dynamic(safe), Static(Word(amount))];
      assert args[1..][1..] == [Dynamic(safe), Static(Word(amount))];
      assert args[1..][1..][1..] == [Static(Word(amount))];
      assert Encodable(args[1..][1..][1..], at + 128);
      assert Encodable(args[1..][1..], at + 64);
      assert Encodable(args[1..], at);
    } else {
      assert args[1..] == [Static(Word(amount))];
      assert Encodable(args[1..], at + 64);
    }
  }

  function ReleasePayload(safe: Address, amount: nat, packetType: bool): Bytes
    requires Fits(amount)
  {
    PayloadEncodable(safe, amount, packetType);
    AbiEncode(PayloadArgs(safe, amount, packetType))
  }

  /** What an escrow decodes from a payload, its form told by the first word. */
  function MessageParts(m: Bytes): (Bytes, nat)
  {
    if |m| < 128 then ([], 0)
    else
      var first := FromBytes(m[0..32]);
      if first == 0 then (ReadDynamic(m, FromBytes(m[64..96])), FromBytes(m[96..128]))
      else (ReadDynamic(m, first), FromBytes(m[32..64]))
  }

  /** `describe_message`: the recipient is the 20 bytes after the length word, whatever that says. */
  function DescribeMessage(m: Bytes): (Bytes, nat)
  {
    var first := FromBytes(Slice(m, 0, 32));
    var packetType := first == 0;
    var at := if packetType then FromBytes(Slice(m, 64, 96)) else first;
    (Slice(m, at + 32, at + 52), FromBytes(if packetType then Slice(m, 96, 128) else Slice(m, 32, 64)))
  }

  /** For a recipient of 20 bytes the description says what the escrow decodes. */
  lemma DescribedAsDecoded(m: Bytes)
    requires |MessageParts(m).0| == 20
    ensures DescribeMessage(m) == MessageParts(m)
  {
    hide FromBytes, ReadDynamic;
    assert |m| >= 128;
    assert Slice(m, 0, 32) == m[0..32] && Slice(m, 64, 96) == m[64..96];
    assert Slice(m, 96, 128) == m[96..128] && Slice(m, 32, 64) == m[32..64];
    var first := FromBytes(m[0..32]);
    SameTwenty(m, if first == 0 then FromBytes(m[64..96]) else first);
  }

  lemma SameTwenty(m: Bytes, at: nat)
    requires |ReadDynamic(m, at)| == 20
    ensures Slice(m, at + 32, at + 52) == ReadDynamic(m, at)
  {
    hide FromBytes;
  }

  /** Both payload forms name the Safe and the exact amount, to the escrow and to the signer who reads the description. */
  lemma PayloadReadsBack(safe: Address, amount: nat, packetType: bool)
    requires Fits(amount)
    ensures MessageParts(ReleasePayload(safe, amount, packetType)) == (safe, amount)
    ensures DescribeMessage(ReleasePayload(safe, amount, packetType)) == (safe, amount)
  {
    PayloadDecodes(safe, amount, packetType);
    hide MessageParts, DescribeMessage;
    DescribedAsDecoded(ReleasePayload(safe, amount, packetType));
  }

  lemma PayloadDecodes(safe: Address, amount: nat, packetType: bool)
    requires Fits(amount)
    ensures MessageParts(ReleasePayload(safe, amount, packetType)) == (safe, amount)
  {
    PayloadEncodable(safe, amount, packetType);
    var args := PayloadArgs(safe, amount, packetType);
    var m := ReleasePayload(safe, amount, packetType);
    AbiReadBack(args, 0);
    AbiReadBack(args, 1);
    if packetType {
      AbiReadBack(args, 2);
      AbiReadBack(args, 3);
    } else {
      FirstIsDynamic(args);
      hide AbiEncode, ReadDynamic, Head, Tail, Encodable;
      assert FromBytes(m[0..32]) == 64;
    }
  }

  lemma HeadOfDynamic(data: Bytes, at: nat)
    requires WordOk(Dynamic(data), at)
    ensures FromBytes(HeadWord(Dynamic(data), at)) == at
  {
  }

  lemma FirstIsDynamic(args: seq<Arg>)
    requires |args| > 0 && args[0].Dynamic? && Encodable(args, 32 * |args|)
    ensures |AbiEncode(args)| >= 32 * |args| + TailSize(|args[0].data|)
    ensures FromBytes(AbiEncode(args)[0..32]) == 32 * |args|
  {
    var base := 32 * |args|;
    HeadAt(args, base, 0);
    HeadOfDynamic(args[0].data, base);
    EncodableTail(args, base);
    hide FromBytes, OwnTail, Head, HeadWord, Encodable;
    SliceLeft(Head(args, base), Tail(args), 0, 32);
  }

  // ----- the packet

  datatype HeaderFields = HeaderFields(nonce: nat, src: nat, sender: Address, dst: nat, receiver: Address)

  predicate HeaderFits(f: HeaderFields)
  {
    f.nonce < Pow256(8) && f.src < Pow256(4) && f.dst < Pow256(4)
  }

  const PACKET_VERSION: Byte := 1

  /** `packet_header`: version, nonce, source, sender, destination, receiver; 81 bytes. */
  function PacketHeader(f: HeaderFields): (b: Bytes)
    requires HeaderFits(f)
    ensures |b| == 81
  {
    [PACKET_VERSION] + ToBytes(f.nonce, 8) + ToBytes(f.src, 4) + AddressWord(f.sender) + ToBytes(f.dst, 4) + AddressWord(f.receiver)
  }

  lemma HeaderVersion(f: HeaderFields)
    requires HeaderFits(f)
    ensures PacketHeader(f)[0] == 1
  {
    hide ToBytes, AddressWord, Pow256;
  }

  /** `describe_header`, the fields at their offsets. */
  function ReadHeader(b: Bytes): HeaderFields
    requires |b| >= 81
  {
    HeaderFields(FromBytes(b[1..9]), FromBytes(b[9..13]), b[25..45], FromBytes(b[45..49]), b[61..81])
  }

  lemma HeaderReadsBack(f: HeaderFields)
    requires HeaderFits(f)
    ensures ReadHeader(PacketHeader(f)) == f
  {
    var b := PacketHeader(f);
    var n, s, d := ToBytes(f.nonce, 8), ToBytes(f.src, 4), ToBytes(f.dst, 4);
    hide ToBytes, FromBytes, PacketHeader;
    assert b == [1] + n + s + Zeros(12) + f.sender + d + Zeros(12) + f.receiver;
    assert b[1..9] == n && b[9..13] == s && b[45..49] == d;
    assert b[25..45] == f.sender;
    assert b[61..81] == f.receiver;
  }

  /** `packet`: header, guid, message. The payload hash covers guid and message. */
  function PacketPayload(h: Keccak, header: Bytes, message: Bytes): Bytes
    requires |header| >= 1
  {
    h(header[1..]) + message
  }

  // ----- the verifier configuration

  const CONFIRMATIONS: nat := 1
  const NIL_DVN_COUNT: nat := 255

  lemma AddressFits(a: Address)
    ensures FromBytes(a) < Pow256(20) && Fits(FromBytes(a)) && ToBytes(FromBytes(a), 20) == a
  {
    ToFromBytes(a);
    Pow256Monotone(20, 32);
  }

  function UlnWords(dvn: Address): (words: seq<nat>)
    ensures AllFit(words)
  {
    AddressFits(dvn);
    UlnFits(FromBytes(dvn));
    [32, CONFIRMATIONS, 1, NIL_DVN_COUNT, 0, 192, 256, 1, FromBytes(dvn), 0]
  }

  lemma UlnFits(dvn: nat)
    requires Fits(dvn)
    ensures AllFit([32, CONFIRMATIONS, 1, NIL_DVN_COUNT, 0, 192, 256, 1, dvn, 0])
  {
    SmallFits();
    hide Fits;
  }

  /** `uln_config`: `dvn` is the only required verifier, and there are no optional ones. */
  function UlnConfig(dvn: Address): (b: Bytes)
    ensures |b| == 320
  {
    Words(UlnWords(dvn))
  }

  /** LayerZero's `UlnConfig` struct. */
  datatype Uln = Uln(confirmations: nat, required: nat, optional: nat, threshold: nat, requiredDvns: seq<nat>, optionalDvns: seq<nat>)

  /** What the library decodes from a configuration: the struct at its offset, and its two arrays at theirs. */
  function ReadUln(b: Bytes): Option<Uln>
  {
    var at := WordAt(b, 0);
    match (ReadArray(b, at + WordAt(b, at + 128)), ReadArray(b, at + WordAt(b, at + 160)))
    case (Some(required), Some(optional)) =>
      Some(Uln(WordAt(b, at), WordAt(b, at + 32), WordAt(b, at + 64), WordAt(b, at + 96), required, optional))
    case _ => None
  }

  /** The one verifier that decides alone: no field is left to LayerZero's default (a zero count), and the optional ones are
      switched off (the largest uint8). */
  function SoleVerifier(u: Uln): Option<Address>
  {
    if u.confirmations > 0 && u.required == 1 == |u.requiredDvns| && u.requiredDvns[0] < Pow256(20)
       && u.optional == 255 && u.threshold == 0 && u.optionalDvns == []
    then Some(ToBytes(u.requiredDvns[0], 20)) else None
  }

  /** The library reads what `uln_config` wrote: `dvn` alone decides. */
  lemma UlnReadsBack(dvn: Address)
    ensures ReadUln(UlnConfig(dvn)) == Some(Uln(CONFIRMATIONS, 1, NIL_DVN_COUNT, 0, [FromBytes(dvn)], []))
    ensures SoleVerifier(ReadUln(UlnConfig(dvn)).value) == Some(dvn)
  {
    var vs := UlnWords(dvn);
    AddressFits(dvn);
    hide Words, WordAt, ReadArray, FromBytes, ToBytes, Pow256, Fits;
    WordsAt(vs, 0);
    WordsAt(vs, 1);
    WordsAt(vs, 2);
    WordsAt(vs, 3);
    WordsAt(vs, 4);
    WordsAt(vs, 5);
    WordsAt(vs, 6);
    ArrayIs(vs, 7);
    ArrayIs(vs, 9);
    assert vs[8..9] == [FromBytes(dvn)] && vs[10..10] == [];
  }

  /** The address a word holds. */
  function WordAddress(word: Bytes): Option<Address>
  {
    if |word| == 32 && word[..12] == Zeros(12) then Some(word[12..]) else None
  }

  lemma AddressReadsBack(a: Address)
    ensures WordAddress(AddressWord(a)) == Some(a)
  {
  }

  /** The guid is the hash of nonce, source, sender, destination and receiver. */
  lemma GuidIs(h: Keccak, f: HeaderFields, message: Bytes)
    requires HeaderFits(f)
    ensures var p := PacketPayload(h, PacketHeader(f), message);
            && p[..32] == h(ToBytes(f.nonce, 8) + ToBytes(f.src, 4) + AddressWord(f.sender) + ToBytes(f.dst, 4) + AddressWord(f.receiver))
            && p[32..] == message
  {
    var n, s, d := ToBytes(f.nonce, 8), ToBytes(f.src, 4), ToBytes(f.dst, 4);
    hide ToBytes, FromBytes, AddressWord, Pow256;
    assert PacketHeader(f)[1..] == n + s + AddressWord(f.sender) + d + AddressWord(f.receiver);
  }
}
