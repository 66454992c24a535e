/**
 Runs, call by call and byte by byte, on which a client shows what one would not expect: a timer that outlives
 the allocation, and a poll that fails.
 */
module TurnWitness {
  import opened Bytes
  import opened Stun
  import opened TurnState
  import opened TurnInvariant
  import opened TurnFits
  import opened TurnRuns
  import opened TurnRetries
  import opened TurnTimers
  import opened TurnLost

  // ---------------------------------------------------------------- what the server answers

  function Signed(kind: U16, transaction: Transaction, fs: seq<Field>, key: Key, prim: Primitives): seq<Byte> {
    var built := FinishedAuthenticated(Draft(kind, transaction, fs), key, prim);
    if built.Some? then built.value else []
  }

  function GrantFields(transaction: Transaction, relay: SocketAddr, lifetime: U32): seq<Field> {
    [Tlv(ATTR_LIFETIME, Be32(lifetime)), Tlv(ATTR_XOR_RELAYED_ADDRESS, EncodeXorAddress(relay, transaction))]
  }

  /** The success of an Allocate. */
  function Grant(prim: Primitives, key: Key, transaction: Transaction, relay: SocketAddr, lifetime: U32): seq<Byte> {
    Signed(0x0103, transaction, GrantFields(transaction, relay, lifetime), key, prim)
  }

  /** The success of a Refresh of lifetime zero. */
  function Returned(prim: Primitives, key: Key, transaction: Transaction): seq<Byte> {
    Signed(0x0104, transaction, [Tlv(ATTR_LIFETIME, Be32(0))], key, prim)
  }

  /** A signed message is accepted, and its lifetime, written first, is read. */
  ghost predicate Accepted(raw: seq<Byte>, kind: U16, transaction: Transaction, lifetime: U32, key: Key,
                           prim: Primitives)
  {
    var m := Message(raw, kind, transaction);
    && Parse(raw) == Ok(m)
    && FingerprintValid(m, prim) == Some(true)
    && VerifyIntegrity(m, Some(key), prim)
    && AttributeU32(m, ATTR_LIFETIME) == Some(lifetime)
  }

  lemma AnswerKinds()
    ensures ClassOf(0x0103) == Success && MethodOf(0x0103) == 3 && ClassOf(0x0104) == Success && MethodOf(0x0104) == 4
  {
  }

  lemma SignedReads(kind: U16, transaction: Transaction, fs: seq<Field>, lifetime: U32, key: Key, prim: Primitives)
    returns (rest: seq<Field>)
    requires 0 < kind < 0x4000 && AllValid(fs) && Lacks(fs, ATTR_FINGERPRINT) && Lacks(fs, ATTR_MESSAGE_INTEGRITY)
    requires fs != [] && fs[0] == Tlv(ATTR_LIFETIME, Be32(lifetime)) && |FieldBytes(fs)| + 32 < 0x1_0000
    ensures var raw := Signed(kind, transaction, fs, key, prim);
            && Accepted(raw, kind, transaction, lifetime, key, prim)
            && AttributesFrom(raw, HEADER_SIZE) == Located(fs + rest, HEADER_SIZE)
  {
    hide Parse, FinishedAuthenticated, Draft, FieldBytes, Located, AttributesFrom, FingerprintValid,
         FingerprintField, IntegrityField, VerifyIntegrity, AttributeU32;
    AuthenticatedMessageVerifies(kind, transaction, fs, key, prim);
    var raw := Signed(kind, transaction, fs, key, prim);
    var integrity := IntegrityField(kind, transaction, fs, key, prim);
    rest := [integrity] + [FingerprintField(kind, transaction, fs + [integrity], prim)];
    var sealed := fs + [integrity] + [FingerprintField(kind, transaction, fs + [integrity], prim)];
    assert sealed == fs + rest;
    assert sealed == [fs[0]] + sealed[1..];
    LifetimeOfWire(Message(raw, kind, transaction), lifetime, sealed[1..]);
  }

  lemma GrantFieldsOk(transaction: Transaction, relay: SocketAddr, lifetime: U32)
    ensures var fs := GrantFields(transaction, relay, lifetime);
            && AllValid(fs) && Lacks(fs, ATTR_FINGERPRINT) && Lacks(fs, ATTR_MESSAGE_INTEGRITY)
            && |FieldBytes(fs)| <= 32
  {
    hide FieldBytes, Field.Encode, Be32;
    var address := EncodeXorAddress(relay, transaction);
    PadFour(4);
    PadFour(|address|);
    TlvSize(ATTR_LIFETIME, Be32(lifetime));
    TlvSize(ATTR_XOR_RELAYED_ADDRESS, address);
    TwoSizes(Tlv(ATTR_LIFETIME, Be32(lifetime)), Tlv(ATTR_XOR_RELAYED_ADDRESS, address));
  }

  lemma GrantReads(prim: Primitives, key: Key, transaction: Transaction, relay: SocketAddr, lifetime: U32)
    ensures var raw := Grant(prim, key, transaction, relay, lifetime);
            && Accepted(raw, 0x0103, transaction, lifetime, key, prim)
            && AttributeValue(Message(raw, 0x0103, transaction), ATTR_XOR_RELAYED_ADDRESS)
               == Some(EncodeXorAddress(relay, transaction))
  {
    hide Parse, Signed, FieldBytes, Located, AttributesFrom, FingerprintValid, VerifyIntegrity, AttributeU32, First,
         EncodeXorAddress;
    var fs := GrantFields(transaction, relay, lifetime);
    GrantFieldsOk(transaction, relay, lifetime);
    var rest := SignedReads(0x0103, transaction, fs, lifetime, key, prim);
    assert (fs + rest)[..1] == [fs[0]];
    FirstLocated(fs + rest, 1, HEADER_SIZE);
  }

  lemma ReturnedReads(prim: Primitives, key: Key, transaction: Transaction)
    ensures Accepted(Returned(prim, key, transaction), 0x0104, transaction, 0, key, prim)
  {
    hide Parse, Signed, FieldBytes, FingerprintValid, VerifyIntegrity, AttributeU32, Be32, Field.Encode;
    var f := Tlv(ATTR_LIFETIME, Be32(0));
    PadFour(4);
    TlvSize(ATTR_LIFETIME, Be32(0));
    OneSize(f);
    var rest := SignedReads(0x0104, transaction, [f], 0, key, prim);
  }

  // ---------------------------------------------------------------- the allocation is granted

  /** What a grant makes of a client whose Allocate is off the table. */
  predicate Holds(r: Core, c: Core, cfg: Config, lifetime: U32, now: nat) {
    && r.realm == c.realm && r.nonce == c.nonce && r.key == c.key
    && r.shuttingDown == c.shuttingDown && r.destroyed == c.destroyed
    && r.allocationExpiresAt == Some(now + Seconds(lifetime))
    && r.maintenanceRefresh == Some(now + cfg.profile.maintenanceRefresh)
    && r.keepalive == Some(now + cfg.profile.keepaliveInterval)
  }

  lemma GrantTakes(c: Core, cfg: Config, m: Message, relay: SocketAddr, lifetime: U32, now: nat, draw: Draw)
    requires Parse(m.raw) == Ok(m) && AttributeU32(m, ATTR_LIFETIME) == Some(lifetime) && lifetime != 0
    requires AttributeValue(m, ATTR_XOR_RELAYED_ADDRESS) == Some(EncodeXorAddress(relay, m.transaction))
    requires relay.V4? == cfg.peer.V4? && relay.port != 0 && c.pending == []
    requires c.AuthComplete() && Fits(c, cfg, Deallocate, true)
    ensures var r := c.AllocateSucceeded(cfg, m, now, draw);
            && r.ok && Holds(r.core, c, cfg, lifetime, now)
            && r.core.state == (if c.shuttingDown then Deallocating else Ready)
            && (if c.shuttingDown then WaitsFor(r.core, Deallocate, draw.transaction) else r.core.pending == [])
  {
    hide Parse, AttributeU32, AttributeValue, EncodeXorAddress, DecodeXorAddress, Core.PushEvent, Core.SetState,
         Core.Complete, Core.StartOperation, AllocationRefreshDeadline, Fits, Seconds;
    XorAddressRoundTrip(relay, m.transaction);
    var a := c.Granted(cfg, Some(lifetime), now)
      .(relay := Some(relay),
        maintenanceRefresh := Some(now + cfg.profile.maintenanceRefresh),
        keepalive := Some(now + cfg.profile.keepaliveInterval));
    PushEventFrame(a, RelayAddress(relay));
    var b := a.PushEvent(RelayAddress(relay));
    SetStateFrame(b, if c.shuttingDown then Deallocating else Ready);
    if c.shuttingDown {
      SameFits(c, b.SetState(Deallocating), cfg, Deallocate);
      StartsAlone(b.SetState(Deallocating), cfg, Deallocate, draw);
    } else {
      CompleteFrame(b.SetState(Ready), Allocate, 0, 0);
    }
  }

  /** The one request under way is that operation, signed, with that transaction. */
  predicate WaitsFor(c: Core, operation: Operation, transaction: Transaction) {
    && Sole(c, operation) && c.pending[0].transaction == transaction && c.pending[0].authenticated
  }

  lemma StartsAlone(c: Core, cfg: Config, operation: Operation, draw: Draw)
    requires c.pending == [] && c.AuthComplete() && Fits(c, cfg, operation, true)
    ensures var r := c.StartOperation(cfg, operation, true, 0, draw);
            r.ok && SameBut(c, r.core) && WaitsFor(r.core, operation, draw.transaction)
  {
    hide Core.BuildRequest, Core.PushEvent, Fits;
    NonePending(operation);
    BuiltExactly(c, cfg, operation, draw.transaction, true);
    PushEventFrame(c.(controls := if |c.controls| > 0 then c.controls[1..] else []), ControlOverflow);
  }

  lemma TakenAlone(c: Core)
    requires |c.pending| == 1
    ensures var r := c.Taken(0); SameBut(c, r) && r.pending == []
  {
    hide WithoutTransaction;
  }

  lemma Succeeds(c: Core, cfg: Config, m: Message, p: Pending, now: nat, draw: Draw)
    requires Parse(m.raw) == Ok(m) && ClassOf(m.kind) == Success && p.authenticated
    requires c.CompleteSuccess(cfg, p.operation, m, now, draw).ok
    ensures c.Response(cfg, m, p, now, draw).0 == c.CompleteSuccess(cfg, p.operation, m, now, draw).core
  {
    hide Parse, ClassOf, Core.CompleteSuccess, Core.CompleteFailure, Core.ErrorResponse;
  }

  /** An inbound grant takes the client to READY, or to DEALLOCATING if it is being shut down. */
  lemma GrantArrives(c: Core, cfg: Config, key: Key, transaction: Transaction, relay: SocketAddr, lifetime: U32,
                     now: nat, draw: Draw)
    requires WaitsFor(c, Allocate, transaction) && c.AuthComplete() && c.key == Some(key)
    requires Fits(c, cfg, Deallocate, true) && lifetime != 0 && relay.V4? == cfg.peer.V4? && relay.port != 0
    ensures var r := Step(cfg, c, CallInput(Grant(cfg.prim, key, transaction, relay, lifetime), now, draw));
            && Holds(r, c, cfg, lifetime, now)
            && r.state == (if c.shuttingDown then Deallocating else Ready)
            && (if c.shuttingDown then WaitsFor(r, Deallocate, draw.transaction) else r.pending == [])
  {
    hide Parse, ClassOf, MethodOf, FingerprintValid, VerifyIntegrity, AttributeU32, AttributeValue, Grant, Fits,
         Core.InputStun, Core.Taken, Core.Response, Core.AllocateSucceeded, EncodeXorAddress, Seconds;
    var raw := Grant(cfg.prim, key, transaction, relay, lifetime);
    var m := Message(raw, 0x0103, transaction);
    AnswerKinds();
    GrantReads(cfg.prim, key, transaction, relay, lifetime);
    TakenAlone(c);
    var t := c.Taken(0);
    SameFits(c, t, cfg, Deallocate);
    Delivered(c, cfg, raw, m, now, draw);
    GrantTakes(t, cfg, m, relay, lifetime, now, draw);
    Succeeds(t, cfg, m, c.pending[0], now, draw);
  }

  /** The answer to the Deallocate takes the client to DEALLOCATED with its other timers as they were. */
  lemma ReturnArrives(c: Core, cfg: Config, key: Key, transaction: Transaction, now: nat, draw: Draw)
    requires WaitsFor(c, Deallocate, transaction) && c.key == Some(key)
    ensures var r := Step(cfg, c, CallInput(Returned(cfg.prim, key, transaction), now, draw));
            && r.state == Deallocated && r.destroyed == c.destroyed
            && r.keepalive == c.keepalive && r.maintenanceRefresh == c.maintenanceRefresh
  {
    hide Parse, ClassOf, MethodOf, FingerprintValid, VerifyIntegrity, AttributeU32, Returned, Core.InputStun,
         Core.Taken, Core.Response, Core.Complete, Core.SetState;
    var raw := Returned(cfg.prim, key, transaction);
    var m := Message(raw, 0x0104, transaction);
    AnswerKinds();
    ReturnedReads(cfg.prim, key, transaction);
    TakenAlone(c);
    var t := c.Taken(0);
    Delivered(c, cfg, raw, m, now, draw);
    CompleteFrame(t.Forgotten(), Deallocate, 0, 0);
    SetStateFrame(t.Forgotten().Complete(Deallocate, 0, 0), Deallocated);
    Succeeds(t, cfg, m, c.pending[0], now, draw);
  }

  // ---------------------------------------------------------------- the runs

  /** What the Allocate carries, a Deallocate can carry too. */
  lemma ReturnFits(c: Core, cfg: Config, second: Draw, realm: seq<Byte>, nonce: seq<Byte>)
    requires Reallocates(c, cfg, second, realm, nonce) && Answers(cfg, realm, nonce)
    ensures c.AuthComplete() && Fits(c, cfg, Deallocate, true)
  {
    hide Pad4;
  }

  /**
   Challenged, shut down, then granted, then given back: DEALLOCATED with the keepalive of the allocation still
   set, so that from that moment on every poll reports 1 ms.
   */
  lemma LateReturnPolls(cfg: Config, first: Draw, asked: nat, second: Draw, realm: seq<Byte>, nonce: seq<Byte>,
                        third: Draw, relay: SocketAddr, lifetime: U32, now: nat, fourth: Draw, later: nat, at: nat)
    returns (calls: seq<Call>)
    requires cfg.Valid() && cfg.profile.maxNonceRetries > 0 && Answers(cfg, realm, nonce)
    requires lifetime != 0 && relay.V4? == cfg.peer.V4? && relay.port != 0
    requires at >= now + cfg.profile.keepaliveInterval
    ensures var c := Run(cfg, Initial(), calls);
            && |calls| == 5 && c.state == Deallocated && !c.destroyed
            && c.keepalive == Some(now + cfg.profile.keepaliveInterval)
            && c.Poll(cfg, at, first, first, first).1 == Wait(Some(MILLISECOND))
  {
    hide Step, Run, Challenge, Grant, Returned, Challenged, Core.Poll, Fits, Seconds, AllQuiet;
    ChallengeAnswered(cfg, first, asked, second, realm, nonce);
    var c := Challenged(cfg, first, asked, second, realm, nonce);
    ReturnFits(c, cfg, second, realm, nonce);
    ShutdownWaits(c, cfg, third);
    var s := Step(cfg, c, CallShutdown(third));
    SameFits(c, s, cfg, Deallocate);
    GrantArrives(s, cfg, c.key.value, second.transaction, relay, lifetime, now, fourth);
    var grant := CallInput(Grant(cfg.prim, c.key.value, second.transaction, relay, lifetime), now, fourth);
    var g := Step(cfg, s, grant);
    ReturnArrives(g, cfg, c.key.value, fourth.transaction, later, fourth);
    var returned := CallInput(Returned(cfg.prim, c.key.value, fourth.transaction), later, fourth);
    var challenge := CallInput(Challenge(cfg.prim, first.transaction, realm, nonce), asked, second);
    calls := [CallStartAllocation(first), challenge] + [CallShutdown(third), grant] + [returned];
    RunTwo(cfg, Initial(), CallStartAllocation(first), challenge);
    ChallengedIs(cfg, first, asked, second, realm, nonce);
    RunTwo(cfg, c, CallShutdown(third), grant);
    RunOne(cfg, g, returned);
    RunOn(cfg, Initial(), [CallStartAllocation(first), challenge], [CallShutdown(third), grant]);
    RunOn(cfg, Initial(), [CallStartAllocation(first), challenge] + [CallShutdown(third), grant], [returned]);
    var d := Run(cfg, Initial(), calls);
    RunNothing(cfg, d);
    IdlePollsExactly(cfg, calls, d, [], at, first, first, first);
  }

  lemma ShutdownWaits(c: Core, cfg: Config, draw: Draw)
    requires c.state == Allocating && c.Open()
    ensures var r := Step(cfg, c, CallShutdown(draw));
            && r.shuttingDown && !r.destroyed && r.pending == c.pending
            && r.realm == c.realm && r.nonce == c.nonce && r.key == c.key
  {
  }

  lemma ChallengedIs(cfg: Config, first: Draw, asked: nat, second: Draw, realm: seq<Byte>, nonce: seq<Byte>)
    ensures var challenge := CallInput(Challenge(cfg.prim, first.transaction, realm, nonce), asked, second);
            Challenged(cfg, first, asked, second, realm, nonce)
            == Step(cfg, Step(cfg, Initial(), CallStartAllocation(first)), challenge)
  {
    hide Step, Challenge;
  }

  lemma RunOne(cfg: Config, c: Core, call: Call)
    ensures Run(cfg, c, [call]) == Step(cfg, c, call)
  {
    hide Step;
    assert Run(cfg, c, [call]) == Run(cfg, Step(cfg, c, call), [call][1..]);
  }

  lemma RunNothing(cfg: Config, c: Core)
    ensures Run(cfg, c, []) == c && AllQuiet(c, [])
  {
  }

  lemma {:induction false} RunOn(cfg: Config, c: Core, first: seq<Call>, then_: seq<Call>)
    ensures Run(cfg, c, first + then_) == Run(cfg, Run(cfg, c, first), then_)
    decreases |first|
  {
    hide Step;
    if first == [] {
      assert first + then_ == then_;
    } else {
      assert (first + then_)[0] == first[0] && (first + then_)[1..] == first[1..] + then_;
      RunOn(cfg, Step(cfg, c, first[0]), first[1..], then_);
    }
  }

  /**
   Challenged and granted, the client is READY. The poll that first maintains the allocation fails exactly if the
   peer is at an IPv6 address and the credentials leave no room for it in the ChannelBind, which is eight bytes
   longer than the Allocate.
   */
  lemma MaintenanceFailsExactly(cfg: Config, first: Draw, asked: nat, second: Draw, realm: seq<Byte>, nonce: seq<Byte>,
                                relay: SocketAddr, lifetime: U32, now: nat, third: Draw)
    returns (calls: seq<Call>)
    requires cfg.Valid() && cfg.profile.maxNonceRetries > 0 && Answers(cfg, realm, nonce)
    requires lifetime != 0 && relay.V4? == cfg.peer.V4? && relay.port != 0
    requires cfg.profile.maintenanceRefresh < Seconds(lifetime)
    ensures var c := Run(cfg, Initial(), calls);
            && |calls| == 3 && c.state == Ready
            && (c.Poll(cfg, now + cfg.profile.maintenanceRefresh, first, first, first).1 == Failed
                <==> cfg.peer.V6? && CredentialSize(cfg, realm, nonce) >= 65460)
  {
    hide Step, Run, Challenge, Grant, Challenged, Core.Poll, PollBlocked, Fits, CredentialSize, Seconds;
    ChallengeAnswered(cfg, first, asked, second, realm, nonce);
    var c := Challenged(cfg, first, asked, second, realm, nonce);
    ReturnFits(c, cfg, second, realm, nonce);
    GrantArrives(c, cfg, c.key.value, second.transaction, relay, lifetime, now, third);
    var grant := CallInput(Grant(cfg.prim, c.key.value, second.transaction, relay, lifetime), now, third);
    var challenge := CallInput(Challenge(cfg.prim, first.transaction, realm, nonce), asked, second);
    calls := [CallStartAllocation(first), challenge] + [grant];
    RunTwo(cfg, Initial(), CallStartAllocation(first), challenge);
    ChallengedIs(cfg, first, asked, second, realm, nonce);
    RunOne(cfg, c, grant);
    RunOn(cfg, Initial(), [CallStartAllocation(first), challenge], [grant]);
    var d := Run(cfg, Initial(), calls);
    ReachableInv(cfg, calls);
    PollFailsExactly(d, cfg, now + cfg.profile.maintenanceRefresh, first, first, first);
    BlockedExactly(d, cfg, realm, nonce, now + cfg.profile.maintenanceRefresh);
  }

  lemma BlockedExactly(c: Core, cfg: Config, realm: seq<Byte>, nonce: seq<Byte>, now: nat)
    requires c.state == Ready && c.Open() && c.pending == [] && c.AuthComplete()
    requires c.realm == Some(realm) && c.nonce == Some(nonce) && Answers(cfg, realm, nonce)
    requires Due(c.maintenanceRefresh, now) && !Due(c.allocationExpiresAt, now)
    ensures PollBlocked(c, cfg, now) <==> cfg.peer.V6? && CredentialSize(cfg, realm, nonce) >= 65460
  {
    hide Pad4;
    assert c.Expired(cfg, now) == c;
    NonePending(Channel);
  }

  /** So there is a run, for every client with an IPv6 peer, on which a poll fails. */
  lemma PollFails(cfg: Config, first: Draw, second: Draw, third: Draw, relay: SocketAddr) returns (calls: seq<Call>)
    requires cfg.Valid() && cfg.profile.maxNonceRetries > 0 && cfg.peer.V6? && relay.V6? && relay.port != 0
    requires cfg.profile.maintenanceRefresh < Seconds(600)
    ensures var c := Run(cfg, Initial(), calls);
            && |calls| == 3 && c.state == Ready
            && c.Poll(cfg, cfg.profile.maintenanceRefresh, first, first, first).1 == Failed
  {
    hide Run, Core.Poll, Zeros, Seconds;
    var size := 65456 - Pad4(|cfg.username|);
    PadFour(size);
    Pad4Is(1);
    calls := MaintenanceFailsExactly(cfg, first, 0, second, [0], Zeros(size), relay, 600, 0, third);
  }
}
