/** The escrow release protocol: an escrow with its endpoint and receive-library settings as a step machine,
    the planner's reads (`receive_state`) and the calls it writes (`release_calls`). The step rules state
    what LayerZero's endpoint, ReceiveUln301 and the OFT escrows are assumed to do. */
module EscrowRelease {
  import opened Bytes
  import opened Options
  import opened ReleasePacket

  type Eid = nat
  type Version = nat

  const CONFIG_TYPE_EXECUTOR: nat := 1
  const CONFIG_TYPE_ULN: nat := 2

  datatype Library = Library(address: Address, uln301: bool)

  /** One escrow: its own storage, and what the endpoint and the libraries store for it. */
  datatype Escrow = Escrow(
    owner: Address,
    locked: nat,
    trusted: map<Eid, Bytes>,                          // trustedRemoteLookup
    stored: Version,                                   // receive version; 0 follows the default
    uln: map<(Address, Eid), Bytes>,                   // verifier config, per library and source
    executor: map<(Address, Eid), Bytes>,              // executor, per library and source
    inbound: map<(Eid, Bytes), nat>,                   // inbound nonce, per path
    blocked: set<(Eid, Bytes)>,                        // paths with a stored payload
    attested: map<Attestation, nat>)                   // the confirmations a verifier reported

  datatype Attestation = Attestation(library: Address, verifier: Address, header: Bytes, payloadHash: Bytes)

  datatype Payment = Payment(escrow: Address, to: Bytes, amount: nat)

  datatype World = World(
    eid: Eid,                            // LayerZero id of this chain
    defaultVersion: Version,             // LayerZero's default receive version
    libraries: map<Version, Library>,    // append-only
    escrows: map<Address, Escrow>,
    payments: seq<Payment>)

  function EffectiveVersion(w: World, e: Escrow): Version
  {
    if e.stored != 0 then e.stored else w.defaultVersion
  }

  // ----- calls

  datatype Call =
    | SetConfig(escrow: Address, version: Version, eid: Eid, kind: nat, config: Bytes)
    | SetReceiveVersion(escrow: Address, version: Version)
    | SetTrustedRemote(escrow: Address, eid: Eid, path: Bytes)
    | Verify(library: Address, header: Bytes, payloadHash: Bytes, confirmations: nat)
    | CommitVerification(library: Address, packet: Bytes)

  /** The escrow a call acts on. */
  function Target(call: Call): Address
  {
    match call
    case SetConfig(a, _, _, _, _) => a
    case SetReceiveVersion(a, _) => a
    case SetTrustedRemote(a, _, _) => a
    case Verify(_, header, _, _) => if |header| >= 81 then ReadHeader(header).receiver else Zeros(20)
    case CommitVerification(_, packet) => if |packet| >= 81 then ReadHeader(packet).receiver else Zeros(20)
  }

  /** What a call by `sender` does to its escrow: `None` when it reverts, else the new state and the payment made. */
  function Act(h: Keccak, w: World, e: Escrow, sender: Address, call: Call): Option<(Escrow, seq<Payment>)>
  {
    match call
    case SetConfig(_, version, eid, kind, config) =>
      if sender != e.owner || version !in w.libraries then None
      else
        var key := (w.libraries[version].address, eid);
        if kind == CONFIG_TYPE_ULN then Some((e.(uln := e.uln[key := config]), []))
        else if kind == CONFIG_TYPE_EXECUTOR then Some((e.(executor := e.executor[key := config]), []))
        else None
    case SetReceiveVersion(_, version) =>
      if sender != e.owner || (version != 0 && version !in w.libraries) then None
      else Some((e.(stored := version), []))
    case SetTrustedRemote(_, eid, path) =>
      if sender != e.owner then None else Some((e.(trusted := e.trusted[eid := path]), []))
    case Verify(library, header, payloadHash, confirmations) =>
      Some((e.(attested := e.attested[Attestation(library, sender, header, payloadHash) := confirmations]), []))
    case CommitVerification(library, packet) => Deliver(h, w, e, sender, library, packet)
  }

  /** `commitVerification`: the library checks executor, verifier and attestation, the endpoint checks the
      library in effect and the nonce, and the escrow credits a message from its trusted remote. A message the
      escrow refuses stays stored and blocks the path. */
  function Deliver(h: Keccak, w: World, e: Escrow, sender: Address, library: Address, packet: Bytes)
    : Option<(Escrow, seq<Payment>)>
  {
    if |packet| < 113 then None
    else
      var header, payload := packet[..81], packet[81..];
      var f, (to, amount) := ReadHeader(header), MessageParts(payload[32..]);
      if !LibraryAccepts(e, sender, library, f.src, header, h(payload)) || f.dst != w.eid then None
      else if !EndpointAccepts(w, e, library, f) then None
      else Some(Receive(e, f, to, amount))
  }

  /** The library's rule: delivered by the executor, attested with enough confirmations by the one verifier that the
      configuration leaves to decide. */
  predicate LibraryAccepts(e: Escrow, sender: Address, library: Address, src: Eid, header: Bytes, payloadHash: Bytes)
    requires |header| == 81
  {
    && WordAddress(Lookup(e.executor, (library, src), [])) == Some(sender)
    && header[0] == 1
    && match ReadUln(Lookup(e.uln, (library, src), []))
       case None => false
       case Some(u) =>
         SoleVerifier(u).Some?
         && var a := Attestation(library, SoleVerifier(u).value, header, payloadHash);
            a in e.attested && e.attested[a] >= u.confirmations
  }

  /** The endpoint's rule: called by the receive library in effect, with the path's next nonce. */
  predicate EndpointAccepts(w: World, e: Escrow, library: Address, f: HeaderFields)
  {
    var version, path := EffectiveVersion(w, e), f.sender + f.receiver;
    && version in w.libraries
    && w.libraries[version] == Library(library, true)
    && f.nonce == Lookup(e.inbound, (f.src, path), 0) + 1
    && (f.src, path) !in e.blocked
  }

  /** The escrow's rule: credit a message from the trusted remote; otherwise it stays stored. */
  function Receive(e: Escrow, f: HeaderFields, to: Bytes, amount: nat): (Escrow, seq<Payment>)
  {
    var path := f.sender + f.receiver;
    var e' := e.(inbound := e.inbound[(f.src, path) := f.nonce]);
    if Lookup(e.trusted, f.src, []) != path || amount > e.locked then
      (e'.(blocked := e.blocked + {(f.src, path)}), [])
    else
      (e'.(locked := e.locked - amount), [Payment(f.receiver, to, amount)])
  }

  /** One transaction by `sender`. */
  function Step(h: Keccak, w: World, sender: Address, call: Call): Option<World>
  {
    var a := Target(call);
    if a !in w.escrows then None
    else match Act(h, w, w.escrows[a], sender, call)
      case None => None
      case Some((e, paid)) => Some(w.(escrows := w.escrows[a := e], payments := w.payments + paid))
  }

  /** What others do meanwhile: LayerZero moves its default or appends a library, and users lock more. */
  datatype Outside =
    | MoveDefault(version: Version)
    | AppendLibrary(version: Version, library: Library)
    | Lock(escrow: Address, amount: nat)

  function Meanwhile(w: World, o: Outside): World
  {
    match o
    case MoveDefault(v) => if v in w.libraries && v != 0 then w.(defaultVersion := v) else w
    case AppendLibrary(v, l) => if v in w.libraries || v == 0 then w else w.(libraries := w.libraries[v := l])
    case Lock(a, n) =>
      if a !in w.escrows then w
      else w.(escrows := w.escrows[a := w.escrows[a].(locked := w.escrows[a].locked + n)])
  }

  // ----- the plan

  /** One planned escrow: what `receive_state` read, with the locked balance. */
  datatype Plan = Plan(
    escrow: Address, owner: Address, safe: Address, eid: Eid,
    stored: Version, version: Version, library: Address, nonce: nat,
    trusted: Bytes, uln: Bytes, executor: Bytes,
    amount: nat, packetType: bool)
  {
    function Path(): Bytes { safe + escrow }

    predicate Pin() { stored != version }

    predicate Encodable() {
      Fits(amount) && HeaderFits(HeaderFields(nonce, eid, safe, eid, escrow))
    }

    function Header(): (b: Bytes)
      requires Encodable()
      ensures |b| == 81
    {
      PacketHeader(HeaderFields(nonce, eid, safe, eid, escrow))
    }

    function Payload(h: Keccak): Bytes
      requires Encodable()
    {
      PacketPayload(h, Header(), ReleasePayload(safe, amount, packetType))
    }
  }

  datatype Refusal = UnknownEscrow | NotReceiveUln301 | PayloadStored | ReleaseStarted

  datatype Read = Refused(why: Refusal) | Ready(plan: Plan)

  /** `receive_state`, and the locked balance read with it. */
  function ReceiveState(w: World, escrow: Address, owner: Address, safe: Address, packetType: bool): Read
  {
    if escrow !in w.escrows then Refused(UnknownEscrow)
    else
      var e := w.escrows[escrow];
      var version := EffectiveVersion(w, e);
      if version !in w.libraries || !w.libraries[version].uln301 then Refused(NotReceiveUln301)
      else
        var library, path := w.libraries[version].address, safe + escrow;
        if (w.eid, path) in e.blocked then Refused(PayloadStored)
        else
          var trusted := Lookup(e.trusted, w.eid, []);
          var uln := Lookup(e.uln, (library, w.eid), []);
          var executor := Lookup(e.executor, (library, w.eid), []);
          if trusted == path || executor == AddressWord(owner) || uln == UlnConfig(owner) then Refused(ReleaseStarted)
          else Ready(Plan(escrow, owner, safe, w.eid, e.stored, version, library,
                          Lookup(e.inbound, (w.eid, path), 0) + 1, trusted, uln, executor, e.locked, packetType))
  }

  /** `release_calls`: the verifier config is set first and written back last. */
  function ReleaseCalls(h: Keccak, p: Plan): (calls: seq<Call>)
    requires p.Encodable()
    ensures |calls| == CallCount(p)
  {
    var a, v, header, payload := p.escrow, p.version, p.Header(), p.Payload(h);
    [SetConfig(a, v, p.eid, CONFIG_TYPE_ULN, UlnConfig(p.owner)),
     SetConfig(a, v, p.eid, CONFIG_TYPE_EXECUTOR, AddressWord(p.owner))]
    + (if p.Pin() then [SetReceiveVersion(a, v)] else [])
    + [SetTrustedRemote(a, p.eid, p.Path()),
       Verify(p.library, header, h(payload), CONFIRMATIONS),
       CommitVerification(p.library, header + payload),
       SetTrustedRemote(a, p.eid, p.trusted)]
    + (if p.Pin() then [SetReceiveVersion(a, p.stored)] else [])
    + [SetConfig(a, v, p.eid, CONFIG_TYPE_EXECUTOR, p.executor),
       SetConfig(a, v, p.eid, CONFIG_TYPE_ULN, p.uln)]
  }

  function CallCount(p: Plan): nat { if p.Pin() then 10 else 8 }

  // ----- progress of one escrow

  /** Progress on the ten-call scale after `k` calls: an escrow already pinned skips the pin and the unpin. */
  function Progress(p: Plan, k: nat): nat
    requires k <= CallCount(p)
  {
    if p.Pin() then k else if k < 2 then k else if k < 6 then k + 1 else k + 2
  }

  /** The escrow after progress `pc` from `e`, when it holds `locked`. */
  function Shape(h: Keccak, e: Escrow, p: Plan, pc: nat, locked: nat): (r: Escrow)
    requires p.Encodable()
    ensures r.locked == locked
  {
    var key, path := (p.library, p.eid), p.Path();
    Escrow(
      e.owner,
      locked,
      if pc < 4 then e.trusted else if pc < 7 then e.trusted[p.eid := path] else e.trusted[p.eid := p.trusted],
      if 3 <= pc < 8 then p.version else e.stored,
      if pc < 1 then e.uln else if pc < 10 then e.uln[key := UlnConfig(p.owner)] else e.uln[key := p.uln],
      if pc < 2 then e.executor else if pc < 9 then e.executor[key := AddressWord(p.owner)] else e.executor[key := p.executor],
      if pc < 6 then e.inbound else e.inbound[(p.eid, path) := p.nonce],
      e.blocked,
      if pc < 5 then e.attested
      else e.attested[Attestation(p.library, p.owner, p.Header(), h(p.Payload(h))) := CONFIRMATIONS])
  }

  /** The plan `p` was read from world `w`. */
  ghost predicate Planned(w: World, p: Plan)
  {
    && 0 !in w.libraries
    && p.Encodable()
    && p.amount > 0
    && p.escrow in w.escrows
    && w.escrows[p.escrow].owner == p.owner
    && ReceiveState(w, p.escrow, p.owner, p.safe, p.packetType) == Ready(p)
  }

  /** `w` extends `w0`: same chain, and every library of `w0` is still there. */
  ghost predicate Extends(w0: World, w: World)
  {
    && w.eid == w0.eid
    && forall v :: v in w0.libraries ==> v in w.libraries && w.libraries[v] == w0.libraries[v]
  }

  /** The escrow of `p` is at progress `pc`, and until it is delivered it holds at least the amount planned. */
  ghost predicate At(h: Keccak, w0: World, w: World, p: Plan, pc: nat)
    requires Planned(w0, p)
  {
    && Extends(w0, w)
    && p.escrow in w.escrows
    && w.escrows[p.escrow] == Shape(h, w0.escrows[p.escrow], p, pc, w.escrows[p.escrow].locked)
    && (pc < 6 ==> w.escrows[p.escrow].locked >= p.amount)
  }

  // ----- one call

  /** The call made at progress `pc` of the ten-call scale. */
  function CallAt(h: Keccak, p: Plan, pc: nat): Call
    requires p.Encodable() && pc < 10
  {
    var a, v, header, payload := p.escrow, p.version, p.Header(), p.Payload(h);
    if pc == 0 then SetConfig(a, v, p.eid, CONFIG_TYPE_ULN, UlnConfig(p.owner))
    else if pc == 1 then SetConfig(a, v, p.eid, CONFIG_TYPE_EXECUTOR, AddressWord(p.owner))
    else if pc == 2 then SetReceiveVersion(a, v)
    else if pc == 3 then SetTrustedRemote(a, p.eid, p.Path())
    else if pc == 4 then Verify(p.library, header, h(payload), CONFIRMATIONS)
    else if pc == 5 then CommitVerification(p.library, header + payload)
    else if pc == 6 then SetTrustedRemote(a, p.eid, p.trusted)
    else if pc == 7 then SetReceiveVersion(a, p.stored)
    else if pc == 8 then SetConfig(a, v, p.eid, CONFIG_TYPE_EXECUTOR, p.executor)
    else SetConfig(a, v, p.eid, CONFIG_TYPE_ULN, p.uln)
  }

  /** Call `k` of the list is the one made at its progress. */
  lemma CallsAtProgress(h: Keccak, p: Plan, k: nat)
    requires p.Encodable() && k < CallCount(p)
    ensures ReleaseCalls(h, p)[k] == CallAt(h, p, Progress(p, k))
  {
    hide UlnConfig, AddressWord, PacketHeader, PacketPayload, ReleasePayload, HeaderFits, Fits;
    var c := seq(10, i requires 0 <= i < 10 => CallAt(h, p, i));
    var calls := ReleaseCalls(h, p);
    if p.Pin() {
      assert calls == [c[0], c[1]] + [c[2]] + [c[3], c[4], c[5], c[6]] + [c[7]] + [c[8], c[9]];
    } else {
      assert calls == [c[0], c[1]] + [] + [c[3], c[4], c[5], c[6]] + [] + [c[8], c[9]];
    }
  }

  /** The payments made by the call at progress `pc`. */
  function PaidAt(p: Plan, pc: nat): seq<Payment>
  {
    if pc == 5 then [Payment(p.escrow, p.safe, p.amount)] else []
  }

  lemma HeaderTarget(p: Plan)
    requires p.Encodable()
    ensures ReadHeader(p.Header()) == HeaderFields(p.nonce, p.eid, p.safe, p.eid, p.escrow)
  {
    HeaderReadsBack(HeaderFields(p.nonce, p.eid, p.safe, p.eid, p.escrow));
  }

  lemma ReadHeaderPrefix(header: Bytes, rest: Bytes)
    requires |header| == 81
    ensures ReadHeader(header + rest) == ReadHeader(header)
    ensures (header + rest)[..81] == header && (header + rest)[81..] == rest
  {
    hide FromBytes;
    SliceLeft(header, rest, 1, 9);
    SliceLeft(header, rest, 9, 13);
    SliceLeft(header, rest, 25, 45);
    SliceLeft(header, rest, 45, 49);
    SliceLeft(header, rest, 61, 81);
  }

  lemma TargetIsEscrow(h: Keccak, p: Plan, pc: nat)
    requires p.Encodable() && pc < 10
    ensures Target(CallAt(h, p, pc)) == p.escrow
  {
    hide ReadHeader, UlnConfig, AddressWord, PacketPayload;
    HeaderTarget(p);
    ReadHeaderPrefix(p.Header(), p.Payload(h));
  }

  /** Every setting call succeeds and moves the escrow one step on. */
  lemma ActSetting(h: Keccak, w0: World, w: World, p: Plan, pc: nat)
    requires Planned(w0, p) && At(h, w0, w, p, pc) && pc < 10 && pc != 5
    ensures var e := w.escrows[p.escrow];
            Act(h, w, e, p.owner, CallAt(h, p, pc)) == Some((Shape(h, w0.escrows[p.escrow], p, pc + 1, e.locked), []))
  {
    hide UlnConfig, AddressWord, Deliver, PacketHeader, PacketPayload, ReleasePayload;
    var e, key := w0.escrows[p.escrow], (p.library, p.eid);
    assert e.trusted[p.eid := p.Path()][p.eid := p.trusted] == e.trusted[p.eid := p.trusted];
    assert e.executor[key := AddressWord(p.owner)][key := p.executor] == e.executor[key := p.executor];
    assert e.uln[key := UlnConfig(p.owner)][key := p.uln] == e.uln[key := p.uln];
  }

  /** What a delivery needs of the escrow: the owner is its sole verifier and its executor, has attested the
      packet, and the path is trusted, next in line and not blocked. */
  ghost predicate Deliverable(h: Keccak, w: World, e: Escrow, p: Plan)
    requires p.Encodable()
  {
    && LibraryAccepts(e, p.owner, p.library, p.eid, p.Header(), h(p.Payload(h)))
    && EndpointAccepts(w, e, p.library, HeaderFields(p.nonce, p.eid, p.safe, p.eid, p.escrow))
    && w.eid == p.eid
    && Lookup(e.trusted, p.eid, []) == p.Path()
    && p.amount <= e.locked
  }

  lemma DeliverParsed(h: Keccak, w: World, e: Escrow, sender: Address, library: Address, header: Bytes, payload: Bytes)
    requires |header| == 81 && |payload| >= 32
    requires LibraryAccepts(e, sender, library, ReadHeader(header).src, header, h(payload))
    requires ReadHeader(header).dst == w.eid && EndpointAccepts(w, e, library, ReadHeader(header))
    ensures var (to, amount) := MessageParts(payload[32..]);
            Deliver(h, w, e, sender, library, header + payload) == Some(Receive(e, ReadHeader(header), to, amount))
  {
    hide ReadHeader, MessageParts, LibraryAccepts, EndpointAccepts, Receive;
    var packet := header + payload;
    assert packet[..81] == header && packet[81..] == payload;
  }

  lemma DeliverPays(h: Keccak, w: World, e: Escrow, p: Plan)
    requires p.Encodable() && Deliverable(h, w, e, p)
    ensures Deliver(h, w, e, p.owner, p.library, p.Header() + p.Payload(h))
         == Some((e.(inbound := e.inbound[(p.eid, p.Path()) := p.nonce], locked := e.locked - p.amount),
                  [Payment(p.escrow, p.safe, p.amount)]))
  {
    hide Deliver, ReadHeader, MessageParts, ReleasePayload, PacketHeader, LibraryAccepts, EndpointAccepts;
    HeaderTarget(p);
    PayloadReadsBack(p.safe, p.amount, p.packetType);
    assert p.Payload(h)[32..] == ReleasePayload(p.safe, p.amount, p.packetType);
    DeliverParsed(h, w, e, p.owner, p.library, p.Header(), p.Payload(h));
  }

  /** With the release's own settings the library takes the owner's word. */
  lemma OwnerIsAccepted(h: Keccak, e: Escrow, p: Plan)
    requires p.Encodable() && Lookup(e.uln, (p.library, p.eid), []) == UlnConfig(p.owner)
    requires Lookup(e.executor, (p.library, p.eid), []) == AddressWord(p.owner)
    requires var a := Attestation(p.library, p.owner, p.Header(), h(p.Payload(h)));
             a in e.attested && e.attested[a] == CONFIRMATIONS
    ensures LibraryAccepts(e, p.owner, p.library, p.eid, p.Header(), h(p.Payload(h)))
  {
    UlnReadsBack(p.owner);
    AddressReadsBack(p.owner);
    HeaderVersion(HeaderFields(p.nonce, p.eid, p.safe, p.eid, p.escrow));
    hide UlnConfig, AddressWord, PacketHeader, PacketPayload, ReleasePayload, ReadUln, WordAddress, SoleVerifier;
  }

  /** The delivery succeeds whatever LayerZero's default is by then, and pays the planned amount to the Safe. */
  lemma ActDelivery(h: Keccak, w0: World, w: World, p: Plan)
    requires Planned(w0, p) && At(h, w0, w, p, 5)
    ensures var e := w.escrows[p.escrow];
            && e.locked >= p.amount
            && Act(h, w, e, p.owner, CallAt(h, p, 5))
               == Some((Shape(h, w0.escrows[p.escrow], p, 6, e.locked - p.amount), [Payment(p.escrow, p.safe, p.amount)]))
  {
    hide UlnConfig, AddressWord, PacketHeader, PacketPayload, ReleasePayload, Deliver, LibraryAccepts;
    OwnerIsAccepted(h, w.escrows[p.escrow], p);
    DeliverPays(h, w, w.escrows[p.escrow], p);
  }

  /** One call of the release, at any progress, in any world that extends the planned one. */
  lemma ReleaseStep(h: Keccak, w0: World, w: World, p: Plan, pc: nat)
    requires Planned(w0, p) && At(h, w0, w, p, pc) && pc < 10
    ensures var r := Step(h, w, p.owner, CallAt(h, p, pc));
            && r.Some?
            && At(h, w0, r.value, p, pc + 1)
            && r.value == w.(escrows := w.escrows[p.escrow := r.value.escrows[p.escrow]],
                             payments := w.payments + PaidAt(p, pc))
  {
    hide Act, CallAt, Target, Shape, ReceiveState;
    TargetIsEscrow(h, p, pc);
    if pc == 5 {
      ActDelivery(h, w0, w, p);
    } else {
      ActSetting(h, w0, w, p, pc);
    }
  }

  /** Progress that only skips an absent pin or unpin does not change the escrow. */
  lemma SkipPin(h: Keccak, w0: World, w: World, p: Plan, pc: nat)
    requires Planned(w0, p) && At(h, w0, w, p, pc) && !p.Pin() && (pc == 2 || pc == 7)
    ensures At(h, w0, w, p, pc + 1)
  {
    hide UlnConfig, AddressWord;
  }

  /** What others do never moves the escrow along or back. */
  lemma MeanwhileKeeps(h: Keccak, w0: World, w: World, p: Plan, pc: nat, o: Outside)
    requires Planned(w0, p) && At(h, w0, w, p, pc)
    ensures At(h, w0, Meanwhile(w, o), p, pc)
  {
    hide UlnConfig, AddressWord, PacketHeader, PacketPayload, ReleasePayload;
  }
}
