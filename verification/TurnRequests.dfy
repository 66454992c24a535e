/** What a server reads off the requests the core builds, field by field and through its own decoder. */
module TurnRequests {
  import opened Bytes
  import opened Stun
  import opened TurnState
  import opened TurnInvariant
  import opened TurnFits

  // ---------------------------------------------------------------- reading

  function PeerIn(m: Message): Option<SocketAddr>
    requires Parse(m.raw) == Ok(m)
  {
    match AttributeValue(m, 0x0012)
    case None => None
    case Some(value) => DecodeXorAddress(value, m.transaction)
  }

  /** The family an Allocate asks for, by the number that XOR addresses carry. */
  function FamilyIn(m: Message): Option<Byte>
    requires Parse(m.raw) == Ok(m)
  {
    match AttributeValue(m, 0x0017)
    case None => None
    case Some(value) => if |value| == 4 then Some(value[0]) else None
  }

  /** Addresses of that family are of the peer's kind, and no others are. */
  ghost predicate FamilyOfPeer(family: Byte, peer: SocketAddr) {
    forall value, transaction | |value| >= 4 && DecodeXorAddress(value, transaction).Some? ::
      value[1] == family <==> DecodeXorAddress(value, transaction).value.V4? == peer.V4?
  }

  /** The request says what was meant: UDP (17) and 600 seconds, or none, or the peer, or the peer and its channel. */
  ghost predicate Asks(m: Message, cfg: Config, operation: Operation)
    requires Parse(m.raw) == Ok(m)
  {
    match operation
    case Allocate =>
      && AttributeValue(m, 0x0019) == Some([17, 0, 0, 0]) && AttributeU32(m, 0x000d) == Some(600)
      && FamilyIn(m).Some? && FamilyOfPeer(FamilyIn(m).value, cfg.peer)
    case Refresh => AttributeU32(m, 0x000d) == Some(600)
    case Deallocate => AttributeU32(m, 0x000d) == Some(0)
    case Permission => PeerIn(m) == Some(cfg.peer)
    case Channel =>
      PeerIn(m) == Some(cfg.peer) && AttributeValue(m, 0x000c) == Some(Be16(CHANNEL_NUMBER) + [0, 0])
  }

  /** It is signed with the client's key, and names the client, realm and nonce. */
  ghost predicate SignedBy(m: Message, c: Core, cfg: Config)
    requires Parse(m.raw) == Ok(m)
  {
    && AttributeValue(m, 0x0006) == Some(cfg.username)
    && AttributeValue(m, 0x0014) == c.realm && AttributeValue(m, 0x0015) == c.nonce
    && c.key.Some? && VerifyIntegrity(m, c.key, cfg.prim)
  }

  /** The number of the request on the wire, in the request class. */
  function KindOf(operation: Operation): U16 {
    match operation
    case Allocate => 0x0003
    case Refresh => 0x0004
    case Deallocate => 0x0004
    case Permission => 0x0008
    case Channel => 0x0009
  }

  ghost predicate ServerReads(packet: seq<Byte>, c: Core, cfg: Config, operation: Operation, transaction: Transaction,
                              signed: bool)
  {
    var m := Message(packet, KindOf(operation), transaction);
    && Parse(packet) == Ok(m) && FingerprintValid(m, cfg.prim) == Some(true)
    && Asks(m, cfg, operation)
    && (signed ==> SignedBy(m, c, cfg))
  }

  // ---------------------------------------------------------------- what was written is read

  lemma FieldReads(m: Message, fs: seq<Field>, k: nat)
    requires Parse(m.raw) == Ok(m) && AttributesFrom(m.raw, HEADER_SIZE) == Located(fs, HEADER_SIZE)
    requires k < |fs| && Canonical(fs[k].kind) == fs[k].kind && Lacks(fs[..k], fs[k].kind)
    ensures AttributeValue(m, fs[k].kind) == Some(fs[k].value)
    ensures |fs[k].value| == 4 ==> AttributeU32(m, fs[k].kind) == Some(Word32(fs[k].value))
  {
    hide Parse, AttributesFrom, Located, First, FieldBytes, Word32, Canonical;
    FirstLocated(fs, k, HEADER_SIZE);
  }

  lemma FamilyNumbers(peer: SocketAddr)
    ensures FamilyOfPeer(if peer.V4? then 1 else 2, peer)
  {
  }

  /** A message whose fields begin with those of the request asks for it. */
  lemma FieldsAsk(m: Message, cfg: Config, operation: Operation, rest: seq<Field>)
    requires Parse(m.raw) == Ok(m)
    requires var fs := RequestFields(cfg, operation, m.transaction);
             AttributesFrom(m.raw, HEADER_SIZE) == Located(fs + rest, HEADER_SIZE)
    ensures Asks(m, cfg, operation)
  {
    hide Parse, AttributesFrom, Located, AttributeValue, AttributeU32, DecodeXorAddress, EncodeXorAddress, Word32,
         Be32, FamilyOfPeer, Be16;
    var fs := RequestFields(cfg, operation, m.transaction);
    var all := fs + rest;
    assert all[0] == fs[0] && all[..0] == [];
    FieldReads(m, all, 0);
    XorAddressRoundTrip(cfg.peer, m.transaction);
    match operation {
      case Allocate =>
        assert all[1] == fs[1] && all[2] == fs[2] && all[..1] == [fs[0]] && all[..2] == [fs[0], fs[1]];
        FieldReads(m, all, 1);
        FieldReads(m, all, 2);
        FamilyNumbers(cfg.peer);
      case Channel =>
        assert all[1] == fs[1] && all[..1] == [fs[0]];
        FieldReads(m, all, 1);
        ChannelBytes();
      case _ =>
    }
  }

  lemma ChannelBytes()
    ensures Be16(CHANNEL_NUMBER) + [0, 0] == [0x40, 0, 0, 0]
  {
    Be16Is(CHANNEL_NUMBER);
  }

  lemma RequestKindsOnly(cfg: Config, operation: Operation, transaction: Transaction)
    ensures var fs := RequestFields(cfg, operation, transaction);
            Lacks(fs, 0x0006) && Lacks(fs, 0x0014) && Lacks(fs, 0x0015)
    ensures operation.Method() == KindOf(operation)
  {
  }

  /** One whose fields go on with those of the credentials names them. */
  lemma FieldsName(m: Message, c: Core, cfg: Config, fs: seq<Field>, rest: seq<Field>)
    requires Parse(m.raw) == Ok(m) && c.AuthComplete()
    requires Lacks(fs, 0x0006) && Lacks(fs, 0x0014) && Lacks(fs, 0x0015)
    requires AttributesFrom(m.raw, HEADER_SIZE) == Located(fs + AuthFields(c, cfg) + rest, HEADER_SIZE)
    ensures AttributeValue(m, 0x0006) == Some(cfg.username)
    ensures AttributeValue(m, 0x0014) == c.realm && AttributeValue(m, 0x0015) == c.nonce
  {
    hide Parse, AttributesFrom, Located, AttributeValue, AttributeU32, Word32;
    var auth := AuthFields(c, cfg);
    var all, n := fs + auth + rest, |fs|;
    assert all[n] == auth[0] && all[n + 1] == auth[1] && all[n + 2] == auth[2];
    assert all[..n] == fs && all[..n + 1] == fs + [auth[0]] && all[..n + 2] == fs + [auth[0], auth[1]];
    FieldReads(m, all, n);
    FieldReads(m, all, n + 1);
    FieldReads(m, all, n + 2);
  }

  /** Every request that is built reads so, whatever the credentials. */
  lemma RequestReads(c: Core, cfg: Config, operation: Operation, transaction: Transaction, signed: bool)
    requires cfg.Valid() && AuthSized(c) && (signed ==> c.AuthComplete())
    requires c.BuildRequest(cfg, operation, transaction, signed).Some?
    ensures var packet := c.BuildRequest(cfg, operation, transaction, signed).value;
            ServerReads(packet, c, cfg, operation, transaction, signed)
  {
    hide Parse, AttributesFrom, Located, RequestFields, FieldBytes, FingerprintValid, FingerprintField,
         IntegrityField, VerifyIntegrity, Asks, Finished, FinishedAuthenticated, Draft, AuthFields, Lacks,
         AttributeValue;
    var fs, k := RequestFields(cfg, operation, transaction), operation.Method();
    RequestFieldsOk(cfg, operation, transaction);
    RequestKindsOnly(cfg, operation, transaction);
    var packet := c.BuildRequest(cfg, operation, transaction, signed).value;
    var m := Message(packet, k, transaction);
    if signed {
      var all := fs + AuthFields(c, cfg);
      AuthFieldsOk(c, cfg);
      LacksBoth(fs, AuthFields(c, cfg));
      SignedIs(c, cfg, operation, transaction);
      AuthenticatedSize(k, transaction, all, c.key.value, cfg.prim);
      AuthenticatedMessageVerifies(k, transaction, all, c.key.value, cfg.prim);
      var integrity := IntegrityField(k, transaction, all, c.key.value, cfg.prim);
      var seal := FingerprintField(k, transaction, all + [integrity], cfg.prim);
      assert all + [integrity] + [seal] == fs + (AuthFields(c, cfg) + [integrity, seal]);
      assert all + [integrity] + [seal] == fs + AuthFields(c, cfg) + [integrity, seal];
      FieldsAsk(m, cfg, operation, AuthFields(c, cfg) + [integrity, seal]);
      FieldsName(m, c, cfg, fs, [integrity, seal]);
    } else {
      FinishedSize(k, transaction, fs, cfg.prim);
      BuiltMessageDecodes(k, transaction, fs, cfg.prim);
      FieldsAsk(m, cfg, operation, [FingerprintField(k, transaction, fs, cfg.prim)]);
    }
  }

  lemma SignedIs(c: Core, cfg: Config, operation: Operation, transaction: Transaction)
    requires c.AuthComplete()
    ensures var all := RequestFields(cfg, operation, transaction) + AuthFields(c, cfg);
            c.BuildRequest(cfg, operation, transaction, true)
            == FinishedAuthenticated(Draft(operation.Method(), transaction, all), c.key.value, cfg.prim)
  {
    hide FinishedAuthenticated, Draft, RequestFields, Tlv;
  }

  lemma LacksBoth(a: seq<Field>, b: seq<Field>)
    requires AllValid(a) && AllValid(b)
    requires Lacks(a, ATTR_FINGERPRINT) && Lacks(b, ATTR_FINGERPRINT)
    requires Lacks(a, ATTR_MESSAGE_INTEGRITY) && Lacks(b, ATTR_MESSAGE_INTEGRITY)
    ensures AllValid(a + b) && Lacks(a + b, ATTR_FINGERPRINT) && Lacks(a + b, ATTR_MESSAGE_INTEGRITY)
  {
    hide Field.Valid;
  }

  // ---------------------------------------------------------------- sending

  /** The control queue with a packet put in: the last sixteen. */
  function LastSixteen(queue: seq<seq<Byte>>): (r: seq<seq<Byte>>)
    ensures |r| <= 16
  {
    if |queue| > 16 then queue[|queue| - 16..] else queue
  }

  lemma LastTwice(a: seq<seq<Byte>>, b: seq<seq<Byte>>)
    ensures LastSixteen(LastSixteen(a) + b) == LastSixteen(a + b)
  {
  }

  lemma QueuedIs(c: Core, packet: seq<Byte>)
    requires |c.controls| <= 16
    ensures var r := c.QueuePacket(packet);
            r.controls == LastSixteen(c.controls + [packet]) && r.pending == c.pending && SameBut(c, r)
  {
    hide Core.PushEvent;
    PushEventFrame(c.(controls := if |c.controls| > 0 then c.controls[1..] else []), ControlOverflow);
  }

  /** A request at its first send: given up or sent again after 200 ms on datagrams, given up after 12 s on a stream. */
  predicate FirstSend(p: Pending, cfg: Config, operation: Operation, signed: bool, retries: nat, draw: Draw) {
    && p.operation == operation && p.transaction == draw.transaction && p.authenticated == signed
    && p.nonceRetries == retries && p.transmissions == 1 && p.rto == 200_000_000 && p.sentAt == draw.at
    && p.nextAttempt == draw.at + (if cfg.transport == Datagram then 200_000_000 else 12_000_000_000)
  }

  /** Starting a request that is not under way and fits records it, queues it, and changes nothing else. */
  lemma StartSends(c: Core, cfg: Config, operation: Operation, signed: bool, retries: nat, draw: Draw)
    requires cfg.Valid() && AuthSized(c) && |c.controls| <= 16 && !c.Has(operation)
    requires (signed ==> c.AuthComplete()) && Fits(c, cfg, operation, signed)
    ensures var r := c.StartOperation(cfg, operation, signed, retries, draw);
            && r.ok && SameBut(c, r.core) && |r.core.pending| == |c.pending| + 1
            && var p := r.core.pending[|c.pending|];
            && r.core.pending == c.pending + [p] && FirstSend(p, cfg, operation, signed, retries, draw)
            && ServerReads(p.packet, c, cfg, operation, draw.transaction, signed)
            && r.core.controls == LastSixteen(c.controls + [p.packet])
  {
    hide Core.QueuePacket, Core.BuildRequest, FindOperation, Fits, ServerReads, LastSixteen;
    BuiltExactly(c, cfg, operation, draw.transaction, signed);
    RequestReads(c, cfg, operation, draw.transaction, signed);
    var packet := c.BuildRequest(cfg, operation, draw.transaction, signed).value;
    QueuedIs(c, packet);
  }
}
