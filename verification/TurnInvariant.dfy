/** The invariant every entry point of the TURN core keeps, whatever bytes arrive. */
module TurnInvariant {
  import opened Bytes
  import opened Stun
  import opened TurnState

  predicate StateFor(operation: Operation, state: State) {
    match operation
    case Allocate => state == Allocating
    case Deallocate => state == Deallocating
    case _ => state == Ready
  }

  /** A packet that may be queued once shutdown has begun: an Allocate or a zero-lifetime Refresh. */
  predicate TeardownPacket(packet: seq<Byte>) {
    RequestKind(packet) == Some(Allocate) || RequestKind(packet) == Some(Deallocate)
  }

  predicate PendingOk(p: Pending, state: State, authComplete: bool, cfg: Config) {
    && StateFor(p.operation, state)
    && (p.operation != Allocate ==> p.authenticated)
    && (p.authenticated ==> authComplete)
    && p.nonceRetries <= cfg.profile.maxNonceRetries
    && 1 <= p.transmissions <= MAX_TRANSMISSIONS
    && p.rto == Rto(p.transmissions)
    && (if cfg.transport == Datagram then p.nextAttempt >= p.sentAt + Elapsed(p.transmissions)
        else p.nextAttempt >= p.sentAt + STREAM_TRANSACTION_TIMEOUT && p.transmissions == 1)
    && RequestKind(p.packet) == Some(p.operation)
    && |p.packet| >= HEADER_SIZE && p.packet[8..20] == p.transaction
  }

  /** Every request suits the state, and no operation has two requests under way. */
  predicate TableOk(pending: seq<Pending>, state: State, authComplete: bool, cfg: Config) {
    && (forall i {:trigger PendingOk(pending[i], state, authComplete, cfg)} | 0 <= i < |pending| ::
          PendingOk(pending[i], state, authComplete, cfg))
    && (forall i, j | 0 <= i < j < |pending| :: pending[i].operation != pending[j].operation)
  }

  predicate QueueOk(controls: seq<seq<Byte>>, shuttingDown: bool) {
    && |controls| <= CONTROL_CAPACITY
    && (shuttingDown ==> forall i | 0 <= i < |controls| :: TeardownPacket(controls[i]))
  }

  predicate AuthSized(c: Core) {
    && (c.realm.Some? ==> |c.realm.value| < 0x1_0000)
    && (c.nonce.Some? ==> |c.nonce.value| < 0x1_0000)
  }

  /** What the other fields owe each other. */
  predicate FieldsOk(c: Core) {
    && |c.events| <= EVENT_CAPACITY
    && AuthSized(c)
    && (c.state == Ready ==>
          c.relay.Some? && c.allocationExpiresAt.Some? && c.keepalive.Some? && c.AuthComplete() && c.Open())
    && (c.channel.Some? ==> c.channel.value == CHANNEL_NUMBER && (c.state == Ready || c.destroyed))
    && (c.state == Deallocating ==> c.shuttingDown)
    && (c.destroyed ==> c.state == Destroying && c.pending == [] && c.controls == [])
    && (c.state == Destroying && c.allocationExpiresAt.Some? && !c.destroyed ==> c.AuthComplete())
  }

  predicate Inv(c: Core, cfg: Config) {
    && TableOk(c.pending, c.state, c.AuthComplete(), cfg)
    && FieldsOk(c)
    && QueueOk(c.controls, c.shuttingDown)
  }

  lemma InitialInv(cfg: Config)
    ensures Inv(Initial(), cfg)
  {
  }

  // ---------------------------------------------------------------- requests on the wire

  function AuthFields(c: Core, cfg: Config): seq<Field>
    requires c.AuthComplete()
  {
    [Tlv(ATTR_USERNAME, cfg.username), Tlv(ATTR_REALM, c.realm.value), Tlv(ATTR_NONCE, c.nonce.value)]
  }

  lemma RequestFieldsOk(cfg: Config, operation: Operation, transaction: Transaction)
    ensures var fs := RequestFields(cfg, operation, transaction);
            AllValid(fs) && Lacks(fs, ATTR_FINGERPRINT) && Lacks(fs, ATTR_MESSAGE_INTEGRITY)
    ensures operation == Refresh || operation == Deallocate ==>
              RequestFields(cfg, operation, transaction) ==
              [Tlv(ATTR_LIFETIME, Be32(if operation == Refresh then REQUESTED_ALLOCATION_LIFETIME_SECS else 0))]
  {
  }

  lemma AuthFieldsOk(c: Core, cfg: Config)
    requires c.AuthComplete() && AuthSized(c) && cfg.Valid()
    ensures var fs := AuthFields(c, cfg);
            AllValid(fs) && Lacks(fs, ATTR_FINGERPRINT) && Lacks(fs, ATTR_MESSAGE_INTEGRITY)
  {
  }

  lemma MethodKinds(operation: Operation)
    ensures ClassOf(operation.Method()) == Request && MethodOf(operation.Method()) == operation.Method()
  {
  }

  lemma LifetimeOfWire(m: Message, lifetime: U32, rest: seq<Field>)
    requires Parse(m.raw) == Ok(m)
    requires AttributesFrom(m.raw, HEADER_SIZE) == Located([Tlv(ATTR_LIFETIME, Be32(lifetime))] + rest, HEADER_SIZE)
    ensures AttributeU32(m, ATTR_LIFETIME) == Some(lifetime)
  {
    hide Parse, AttributesFrom, Located, First, FieldBytes, Word32;
    var fs := [Tlv(ATTR_LIFETIME, Be32(lifetime))] + rest;
    assert fs[..0] == [];
    FirstLocated(fs, 0, HEADER_SIZE);
  }

  /** A datagram made of these fields is read as the request that was meant. */
  lemma KindOfWire(raw: seq<Byte>, operation: Operation, transaction: Transaction, cfg: Config, fs: seq<Field>,
                   rest: seq<Field>)
    requires fs == RequestFields(cfg, operation, transaction)
    requires Parse(raw) == Ok(Message(raw, operation.Method(), transaction))
    requires AttributesFrom(raw, HEADER_SIZE) == Located(fs + rest, HEADER_SIZE)
    ensures RequestKind(raw) == Some(operation)
    ensures |raw| >= HEADER_SIZE && raw[8..20] == transaction
  {
    hide AttributesFrom, WalkDefect, Located, RequestFields, AttributeU32, ClassOf, MethodOf;
    MethodKinds(operation);
    if operation == Refresh || operation == Deallocate {
      RequestFieldsOk(cfg, operation, transaction);
      var lifetime := if operation == Refresh then REQUESTED_ALLOCATION_LIFETIME_SECS else 0;
      LifetimeOfWire(Message(raw, operation.Method(), transaction), lifetime, rest);
    }
  }

  lemma RequestBuilt(c: Core, cfg: Config, operation: Operation, transaction: Transaction, authenticated: bool)
    requires cfg.Valid() && AuthSized(c) && (authenticated ==> c.AuthComplete())
    requires c.BuildRequest(cfg, operation, transaction, authenticated).Some?
    ensures var packet := c.BuildRequest(cfg, operation, transaction, authenticated).value;
            && RequestKind(packet) == Some(operation)
            && |packet| >= HEADER_SIZE && packet[8..20] == transaction
  {
    hide AttributesFrom, WalkDefect, Parse, Located, RequestFields, FieldBytes, RequestKind;
    var fs, k := RequestFields(cfg, operation, transaction), operation.Method();
    RequestFieldsOk(cfg, operation, transaction);
    if authenticated {
      AuthFieldsOk(c, cfg);
      var all := fs + AuthFields(c, cfg);
      AuthenticatedMessageVerifies(k, transaction, all, c.key.value, cfg.prim);
      var f := IntegrityField(k, transaction, all, c.key.value, cfg.prim);
      var g := FingerprintField(k, transaction, all + [f], cfg.prim);
      assert all + [f] + [g] == fs + (AuthFields(c, cfg) + [f, g]);
      var raw := FinishedAuthenticated(Draft(k, transaction, all), c.key.value, cfg.prim).value;
      KindOfWire(raw, operation, transaction, cfg, fs, AuthFields(c, cfg) + [f, g]);
    } else {
      BuiltMessageDecodes(k, transaction, fs, cfg.prim);
      var g := FingerprintField(k, transaction, fs, cfg.prim);
      KindOfWire(Finished(Draft(k, transaction, fs), cfg.prim).value, operation, transaction, cfg, fs, [g]);
    }
  }

  // ---------------------------------------------------------------- tables and queues

  lemma TableAppend(pending: seq<Pending>, state: State, auth: bool, cfg: Config, p: Pending)
    requires TableOk(pending, state, auth, cfg) && PendingOk(p, state, auth, cfg)
    requires FindOperation(pending, p.operation).None?
    ensures TableOk(pending + [p], state, auth, cfg)
  {
    hide PendingOk;
  }

  lemma TableWithout(pending: seq<Pending>, state: State, auth: bool, cfg: Config, i: nat)
    requires TableOk(pending, state, auth, cfg) && i < |pending|
    ensures TableOk(Without(pending, i), state, auth, cfg)
    ensures FindOperation(Without(pending, i), pending[i].operation).None?
  {
    hide PendingOk, FindOperation;
    var r := Without(pending, i);
    assert forall k | 0 <= k < |r| :: r[k] == pending[if k < i then k else k + 1];
  }

  lemma TableUpdate(pending: seq<Pending>, state: State, auth: bool, cfg: Config, i: nat, p: Pending)
    requires TableOk(pending, state, auth, cfg) && i < |pending|
    requires PendingOk(p, state, auth, cfg) && p.operation == pending[i].operation
    ensures TableOk(pending[i := p], state, auth, cfg)
  {
    hide PendingOk;
  }

  lemma TableWeaken(pending: seq<Pending>, state: State, auth: bool, cfg: Config)
    requires TableOk(pending, state, auth, cfg)
    ensures TableOk(pending, state, true, cfg)
  {
    hide RequestKind, Rto;
    forall i | 0 <= i < |pending|
      ensures PendingOk(pending[i], state, true, cfg)
    {
      assert PendingOk(pending[i], state, auth, cfg);
    }
  }

  lemma QueueFiltered(controls: seq<seq<Byte>>, shuttingDown: bool, transaction: Transaction)
    requires QueueOk(controls, shuttingDown)
    ensures QueueOk(WithoutTransaction(controls, transaction), shuttingDown)
  {
    hide TeardownPacket, WithoutTransaction;
    var r := WithoutTransaction(controls, transaction);
    forall i | 0 <= i < |r| && shuttingDown
      ensures TeardownPacket(r[i])
    {
      assert r[i] in controls;
    }
  }

  // ---------------------------------------------------------------- internal steps

  /** `r` differs from `c` at most in its queues and pending table. */
  predicate SameBut(c: Core, r: Core) {
    r.(controls := c.controls, pending := c.pending, events := c.events) == c
  }

  lemma PushEventFrame(c: Core, event: Event)
    ensures var r := c.PushEvent(event);
            r.(events := c.events) == c && (|c.events| <= EVENT_CAPACITY ==> |r.events| <= EVENT_CAPACITY)
  {
  }

  lemma SetStateFrame(c: Core, state: State)
    ensures var r := c.SetState(state);
            && r.(events := c.events, state := c.state) == c && r.state == state
            && (|c.events| <= EVENT_CAPACITY ==> |r.events| <= EVENT_CAPACITY)
  {
    hide Core.PushEvent;
    PushEventFrame(c.(state := state), StateChanged(state, c.state));
  }

  lemma CompleteFrame(c: Core, operation: Operation, status: int, code: int)
    ensures var r := c.Complete(operation, status, code);
            r.(events := c.events) == c && (|c.events| <= EVENT_CAPACITY ==> |r.events| <= EVENT_CAPACITY)
  {
    hide Core.PushEvent;
    PushEventFrame(c, RequestComplete(operation.Method(), status, code, c.state,
                                      if c.channel.Some? then c.channel.value else 0, c.relay));
  }

  lemma PushEventInv(c: Core, cfg: Config, event: Event)
    requires Inv(c, cfg)
    ensures Inv(c.PushEvent(event), cfg) && c.PushEvent(event).(events := c.events) == c
  {
    hide TableOk, QueueOk, Core.PushEvent;
    PushEventFrame(c, event);
  }

  lemma QueueBound(controls: seq<seq<Byte>>, shuttingDown: bool)
    requires QueueOk(controls, shuttingDown)
    ensures |controls| <= CONTROL_CAPACITY
  {
  }

  lemma QueueAppended(controls: seq<seq<Byte>>, shuttingDown: bool, packet: seq<Byte>)
    requires QueueOk(controls, shuttingDown) && (shuttingDown ==> TeardownPacket(packet))
    ensures |controls| == CONTROL_CAPACITY ==> QueueOk(controls[1..] + [packet], shuttingDown)
    ensures |controls| < CONTROL_CAPACITY ==> QueueOk(controls + [packet], shuttingDown)
  {
    hide TeardownPacket;
  }

  lemma QueuePacketInv(c: Core, cfg: Config, packet: seq<Byte>)
    requires Inv(c, cfg) && !c.destroyed && (c.shuttingDown ==> TeardownPacket(packet))
    ensures Inv(c.QueuePacket(packet), cfg)
    ensures SameBut(c, c.QueuePacket(packet)) && c.QueuePacket(packet).pending == c.pending
  {
    hide TableOk, TeardownPacket, QueueOk, Core.PushEvent;
    QueueAppended(c.controls, c.shuttingDown, packet);
    assert |c.controls| <= CONTROL_CAPACITY by { QueueBound(c.controls, c.shuttingDown); }
    PushEventFrame(c.(controls := c.controls[if c.controls == [] then 0 else 1..]), ControlOverflow);
  }

  /** A request may be started when it suits the state. */
  predicate Startable(c: Core, operation: Operation, authenticated: bool) {
    StateFor(operation, c.state) && !c.destroyed && (operation != Allocate ==> authenticated)
  }

  lemma StartOperationInv(c: Core, cfg: Config, operation: Operation, authenticated: bool, retries: nat, draw: Draw)
    requires Inv(c, cfg) && cfg.Valid() && Startable(c, operation, authenticated)
    requires retries <= cfg.profile.maxNonceRetries
    ensures var r := c.StartOperation(cfg, operation, authenticated, retries, draw);
            Inv(r.core, cfg) && SameBut(c, r.core)
  {
    hide TableOk, RequestKind, Core.BuildRequest, FindOperation, QueueOk, Core.QueuePacket;
    var current := FindOperation(c.pending, operation);
    if current.Some? {
      if operation == Channel {
        QueuePacketInv(c, cfg, current.value.packet);
      }
    } else if authenticated ==> c.AuthComplete() {
      var built := c.BuildRequest(cfg, operation, draw.transaction, authenticated);
      if built.Some? {
        RequestBuilt(c, cfg, operation, draw.transaction, authenticated);
        QueuePacketInv(c, cfg, built.value);
        var r := c.StartOperation(cfg, operation, authenticated, retries, draw);
        TableAppend(c.pending, c.state, c.AuthComplete(), cfg, r.core.pending[|c.pending|]);
      }
    }
  }

  lemma QueuedLast(c: Core, packet: seq<Byte>)
    ensures var r := c.QueuePacket(packet); r.controls != [] && r.controls[|r.controls| - 1] == packet
  {
    hide Core.PushEvent;
  }

  /** A request that was not under way goes to the end of the table and of the queue, or nothing changes. */
  lemma StartedFresh(c: Core, cfg: Config, operation: Operation, authenticated: bool, retries: nat, draw: Draw)
    requires FindOperation(c.pending, operation).None?
    ensures var r := c.StartOperation(cfg, operation, authenticated, retries, draw);
            if r.ok then
              && |r.core.pending| == |c.pending| + 1 && r.core.pending[..|c.pending|] == c.pending
              && var p := r.core.pending[|c.pending|];
              && p.operation == operation && p.nonceRetries == retries && p.transmissions == 1
              && r.core.controls != [] && r.core.controls[|r.core.controls| - 1] == p.packet
            else r.core == c
  {
    hide Core.QueuePacket, Core.BuildRequest;
    if authenticated ==> c.AuthComplete() {
      var built := c.BuildRequest(cfg, operation, draw.transaction, authenticated);
      if built.Some? { QueuedLast(c, built.value); }
    }
  }

  lemma EmptyOk(cfg: Config, state: State, auth: bool, shuttingDown: bool)
    ensures TableOk([], state, auth, cfg) && QueueOk([], shuttingDown)
  {
  }

  lemma DestroyAllocationInv(c: Core, cfg: Config, operation: Operation, status: int, code: int)
    requires Inv(c, cfg) && !c.destroyed
    ensures var r := c.DestroyAllocation(operation, status, code);
            && Inv(r, cfg) && r.pending == [] && r.controls == [] && r.channel == None
            && r.state == (if operation == Deallocate then Deallocated else Destroying)
            && r.shuttingDown == c.shuttingDown && !r.destroyed && r.keepalive == None
  {
    hide TableOk, QueueOk, Core.Complete, Core.SetState;
    CompleteFrame(c, operation, status, code);
    var a := c.Complete(operation, status, code).(pending := []).Unbound().Forgotten();
    var next := if operation == Deallocate then Deallocated else Destroying;
    SetStateFrame(a, next);
    EmptyOk(cfg, next, c.AuthComplete(), c.shuttingDown);
  }

  lemma RebindExhaustedInv(c: Core, cfg: Config)
    requires FieldsOk(c) && !c.destroyed && c.AuthComplete()
    ensures var r := c.DestroyAfterRebindExhausted();
            Inv(r, cfg) && r.pending == [] && r.controls == [] && r.state == Destroying
            && r.shuttingDown == c.shuttingDown && !r.destroyed && r.keepalive == None
  {
    hide TableOk, QueueOk, Core.PushEvent, Core.SetState;
    var a := c.(pending := []).Unbound();
    PushEventFrame(a, RebindExhausted);
    SetStateFrame(a.PushEvent(RebindExhausted), Destroying);
    EmptyOk(cfg, Destroying, true, c.shuttingDown);
  }

  /** How far a core has come; READY lies strictly before every way of ending. */
  function Phase(state: State): nat {
    match state
    case Null => 0
    case Allocating => 1
    case Ready => 2
    case _ => 3
  }

  /** No step turns back, internal steps leave the teardown flags alone, and a new keepalive is due by `limit`. */
  predicate Advances(c: Core, r: Core, limit: nat) {
    && Phase(c.state) <= Phase(r.state) && r.shuttingDown == c.shuttingDown && r.destroyed == c.destroyed
    && (r.keepalive.Some? ==> r.keepalive == c.keepalive || r.keepalive.value <= limit)
  }

  function KeepaliveLimit(cfg: Config, now: nat): nat { now + cfg.profile.keepaliveInterval }

  lemma CompleteFailureInv(c: Core, cfg: Config, operation: Operation, status: int, code: int, now: nat)
    requires Inv(c, cfg) && !c.destroyed
    ensures var r := c.CompleteFailure(operation, status, code, now);
            && Inv(r, cfg) && Advances(c, r, KeepaliveLimit(cfg, now))
            && (r.pending == c.pending || r.pending == [])
            && (operation == Allocate ==> r.state == Destroying) && (operation == Deallocate ==> r.state == Deallocated)
  {
    hide TableOk, QueueOk, Core.Complete, Core.DestroyAllocation, Core.DestroyAfterRebindExhausted, RetryDelay;
    CompleteFrame(c, operation, status, code);
    DestroyAllocationInv(c, cfg, operation, status, code);
    var retry := c.Complete(operation, status, code).ScheduleRetry(operation, now);
    if c.state == Ready {
      assert FieldsOk(retry.core);
      RebindExhaustedInv(retry.core, cfg);
    }
  }

  lemma NonePending(operation: Operation)
    ensures FindOperation([], operation).None?
  {
  }

  lemma OnlyOne(pending: seq<Pending>, state: State, auth: bool, cfg: Config, operation: Operation)
    requires TableOk(pending, state, auth, cfg) && FindOperation(pending, operation).None?
    requires (state == Allocating && operation == Allocate) || (state == Deallocating && operation == Deallocate)
    ensures pending == []
  {
    hide RequestKind, Rto;
    if pending != [] && PendingOk(pending[0], state, auth, cfg) {
      assert false;
    }
  }

  /** A response to a request that is off the table arrives while the state still suits it. */
  predicate Answerable(c: Core, operation: Operation) {
    StateFor(operation, c.state) && !c.destroyed && FindOperation(c.pending, operation).None?
  }

  lemma AllocateSucceededInv(c: Core, cfg: Config, m: Message, now: nat, draw: Draw)
    requires Inv(c, cfg) && cfg.Valid() && Answerable(c, Allocate) && c.AuthComplete() && Parse(m.raw) == Ok(m)
    ensures var r := c.AllocateSucceeded(cfg, m, now, draw);
            && Inv(r.core, cfg) && Advances(c, r.core, KeepaliveLimit(cfg, now))
            && (r.ok ==> r.core.state == if c.shuttingDown then Deallocating else Ready)
            && (r.core.pending == c.pending
                || (c.shuttingDown && |r.core.pending| == 1 && r.core.pending[0].operation == Deallocate))
  {
    hide TableOk, QueueOk, Core.PushEvent, Core.Complete, Core.SetState, Core.StartOperation, Parse, AttributeValue,
         AttributeU32, DecodeXorAddress, AllocationRefreshDeadline, FindOperation;
    OnlyOne(c.pending, c.state, c.AuthComplete(), cfg, Allocate);
    var value := AttributeValue(m, ATTR_XOR_RELAYED_ADDRESS);
    if value.Some? {
      var address, lifetime := DecodeXorAddress(value.value, m.transaction), AttributeU32(m, ATTR_LIFETIME);
      if address.Some? {
        var a := c.Granted(cfg, lifetime, now)
          .(relay := Some(address.value),
            maintenanceRefresh := Some(now + cfg.profile.maintenanceRefresh),
            keepalive := Some(now + cfg.profile.keepaliveInterval));
        PushEventFrame(a, RelayAddress(address.value));
        var b := a.PushEvent(RelayAddress(address.value));
        var next := if c.shuttingDown then Deallocating else Ready;
        SetStateFrame(b, next);
        EmptyOk(cfg, next, true, c.shuttingDown);
        if c.shuttingDown {
          StartOperationInv(b.SetState(Deallocating), cfg, Deallocate, true, 0, draw);
          NonePending(Deallocate);
          StartedFresh(b.SetState(Deallocating), cfg, Deallocate, true, 0, draw);
        } else {
          CompleteFrame(b.SetState(Ready), Allocate, 0, 0);
        }
      }
    }
  }

  lemma CompleteSuccessInv(c: Core, cfg: Config, operation: Operation, m: Message, now: nat, draw: Draw)
    requires Inv(c, cfg) && cfg.Valid() && Answerable(c, operation) && c.AuthComplete() && Parse(m.raw) == Ok(m)
    ensures var r := c.CompleteSuccess(cfg, operation, m, now, draw);
            && Inv(r.core, cfg) && Advances(c, r.core, KeepaliveLimit(cfg, now))
            && (r.ok && operation == Allocate ==> r.core.state in {Ready, Deallocating})
            && (r.ok && operation == Deallocate ==> r.core.state == Deallocated)
            && (r.core.pending == c.pending
                || (operation == Allocate && |r.core.pending| == 1 && r.core.pending[0].operation == Deallocate))
  {
    hide TableOk, QueueOk, Core.PushEvent, Core.Complete, Core.SetState, Core.AllocateSucceeded, Parse, AttributeU32,
         AllocationRefreshDeadline, FindOperation;
    match operation {
      case Allocate => AllocateSucceededInv(c, cfg, m, now, draw);
      case Refresh => CompleteFrame(c.Granted(cfg, AttributeU32(m, ATTR_LIFETIME), now), Refresh, 0, 0);
      case Deallocate =>
        OnlyOne(c.pending, c.state, c.AuthComplete(), cfg, Deallocate);
        EmptyOk(cfg, Deallocated, c.AuthComplete(), c.shuttingDown);
        var a := c.Forgotten();
        CompleteFrame(a, Deallocate, 0, 0);
        SetStateFrame(a.Complete(Deallocate, 0, 0), Deallocated);
      case Permission => CompleteFrame(c.(permissionFailures := 0), Permission, 0, 0);
      case Channel =>
        var a := c.(channel := Some(CHANNEL_NUMBER), channelFailures := 0);
        PushEventFrame(a, ChannelBound(CHANNEL_NUMBER, cfg.peer));
        CompleteFrame(a.PushEvent(ChannelBound(CHANNEL_NUMBER, cfg.peer)), Channel, 0, 0);
    }
  }

  lemma AuthRetryInv(c: Core, cfg: Config, m: Message, p: Pending, code: nat, draw: Draw)
    requires Inv(c, cfg) && cfg.Valid() && Answerable(c, p.operation) && Parse(m.raw) == Ok(m)
    ensures var r := c.AuthRetry(cfg, m, p, code, draw).core; Inv(r, cfg) && Advances(c, r, 0) && r.state == c.state
  {
    hide TableOk, QueueOk, Core.StartOperation, Parse, AttributeValue, FindOperation;
    var realm := if AttributeValue(m, ATTR_REALM).Some? then AttributeValue(m, ATTR_REALM)
                 else if code == 438 then c.realm else None;
    var nonce := AttributeValue(m, ATTR_NONCE);
    if p.nonceRetries < cfg.profile.maxNonceRetries && realm.Some? && nonce.Some? {
      TableWeaken(c.pending, c.state, c.AuthComplete(), cfg);
      StartOperationInv(c.SetAuth(cfg, realm.value, nonce.value), cfg, p.operation, true, p.nonceRetries + 1, draw);
    }
  }

  lemma ErrorResponseInv(c: Core, cfg: Config, m: Message, p: Pending, now: nat, draw: Draw)
    requires Inv(c, cfg) && cfg.Valid() && Answerable(c, p.operation) && Parse(m.raw) == Ok(m)
    ensures var r := c.ErrorResponse(cfg, m, p, now, draw); Inv(r, cfg) && Advances(c, r, KeepaliveLimit(cfg, now))
  {
    hide Inv, Core.PushEvent, Core.CompleteFailure, Core.DestroyAllocation, Core.AuthRetry, Parse, ErrorCode,
         FindOperation, RequiresAllocationRecreate;
    var code := if ErrorCode(m).Some? then ErrorCode(m).value else 0;
    var status := if code == 0 then RESULT_PROTOCOL else 0;
    var event := ResponseError(p.operation.Method(), status, code, c.state);
    AuthRetryInv(c, cfg, m, p, code, draw);
    var retry := c.AuthRetry(cfg, m, p, code, draw).core;
    PushEventInv(c, cfg, event);
    PushEventInv(retry, cfg, event);
    CompleteFailureInv(c.PushEvent(event), cfg, p.operation, RESULT_PROTOCOL, code, now);
    DestroyAllocationInv(c.PushEvent(event), cfg, p.operation, RESULT_PROTOCOL, code);
    CompleteFailureInv(retry.PushEvent(event), cfg, p.operation, RESULT_PROTOCOL, code, now);
  }

  lemma ResponseInv(c: Core, cfg: Config, m: Message, p: Pending, now: nat, draw: Draw)
    requires Inv(c, cfg) && cfg.Valid() && Answerable(c, p.operation) && Parse(m.raw) == Ok(m)
    requires p.authenticated ==> c.AuthComplete()
    requires ClassOf(m.kind) == Success || ClassOf(m.kind) == Error
    ensures var r := c.Response(cfg, m, p, now, draw).0; Inv(r, cfg) && Advances(c, r, KeepaliveLimit(cfg, now))
  {
    hide TableOk, QueueOk, Core.CompleteFailure, Core.CompleteSuccess, Core.ErrorResponse, Parse, ClassOf,
         FindOperation;
    if ClassOf(m.kind) == Error {
      ErrorResponseInv(c, cfg, m, p, now, draw);
    } else if !p.authenticated {
      CompleteFailureInv(c, cfg, p.operation, RESULT_AUTHENTICATION, 0, now);
    } else {
      CompleteSuccessInv(c, cfg, p.operation, m, now, draw);
      var done := c.CompleteSuccess(cfg, p.operation, m, now, draw);
      CompleteFailureInv(done.core, cfg, p.operation, RESULT_PROTOCOL, 0, now);
    }
  }

  lemma TakenInv(c: Core, cfg: Config, i: nat)
    requires Inv(c, cfg) && i < |c.pending|
    ensures Inv(c.Taken(i), cfg) && Answerable(c.Taken(i), c.pending[i].operation) && SameBut(c, c.Taken(i))
    ensures PendingOk(c.pending[i], c.state, c.AuthComplete(), cfg) && |c.Taken(i).pending| == |c.pending| - 1
  {
    hide RequestKind, QueueOk, Rto, WithoutTransaction, FindOperation;
    assert PendingOk(c.pending[i], c.state, c.AuthComplete(), cfg);
    TableWithout(c.pending, c.state, c.AuthComplete(), cfg, i);
    QueueFiltered(c.controls, c.shuttingDown, c.pending[i].transaction);
  }

  lemma InputStunInv(c: Core, cfg: Config, packet: seq<Byte>, now: nat, draw: Draw)
    requires Inv(c, cfg) && cfg.Valid()
    ensures var r := c.InputStun(cfg, packet, now, draw).0; Inv(r, cfg) && Advances(c, r, KeepaliveLimit(cfg, now))
  {
    hide TableOk, QueueOk, Core.PushEvent, Core.Response, Core.Taken, Parse, ClassOf, MethodOf, Position,
         FindOperation, FingerprintValid, VerifyIntegrity, RequiresIntegrity, FingerprintedAllocationMismatch,
         ErrorCode, RequestKind, Rto;
    if Parse(packet).Ok? {
      var m := Parse(packet).value;
      var found := Position(c.pending, m.transaction, MethodOf(m.kind));
      if ClassOf(m.kind) in {Success, Error} && found.Some? {
        TakenInv(c, cfg, found.value);
        ResponseInv(c.Taken(found.value), cfg, m, c.pending[found.value], now, draw);
        if ErrorCode(m).Some? {
          PushEventInv(c, cfg, ResponseError(MethodOf(m.kind), RESULT_AUTHENTICATION, ErrorCode(m).value, c.state));
        }
      }
    }
  }

  lemma RetransmittedInv(c: Core, cfg: Config, i: nat, now: nat)
    requires Inv(c, cfg) && i < |c.pending| && c.pending[i].transmissions < MAX_TRANSMISSIONS
    requires now >= c.pending[i].nextAttempt && cfg.transport == Datagram
    ensures Inv(c.Retransmitted(i, now), cfg) && SameBut(c, c.Retransmitted(i, now))
    ensures |c.Retransmitted(i, now).pending| == |c.pending|
  {
    hide RequestKind, QueueOk, Core.QueuePacket;
    var p := c.pending[i];
    assert PendingOk(p, c.state, c.AuthComplete(), cfg);
    QueuePacketInv(c, cfg, p.packet);
    TableUpdate(c.pending, c.state, c.AuthComplete(), cfg, i, c.Retransmitted(i, now).pending[i]);
  }

  lemma {:induction false} ExpireInv(c: Core, cfg: Config, i: nat, now: nat)
    requires Inv(c, cfg)
    ensures var r := c.ExpireFrom(cfg, i, now); Inv(r, cfg) && Advances(c, r, KeepaliveLimit(cfg, now))
    decreases |c.pending| - i
  {
    hide TableOk, QueueOk, Core.CompleteFailure, Core.Taken, Core.Retransmitted, FindOperation, RequestKind, Rto;
    if i < |c.pending| {
      if now < c.pending[i].nextAttempt {
        ExpireInv(c, cfg, i + 1, now);
      } else if c.pending[i].transmissions >= MAX_TRANSMISSIONS || cfg.transport == Stream {
        TakenInv(c, cfg, i);
        CompleteFailureInv(c.Taken(i), cfg, c.pending[i].operation, RESULT_TIMEOUT, 0, now);
        ExpireInv(c.Taken(i).CompleteFailure(c.pending[i].operation, RESULT_TIMEOUT, 0, now), cfg, i, now);
      } else {
        RetransmittedInv(c, cfg, i, now);
        ExpireInv(c.Retransmitted(i, now), cfg, i + 1, now);
      }
    }
  }

  lemma KeepaliveTickInv(c: Core, cfg: Config, now: nat, controlStarted: bool)
    requires Inv(c, cfg) && c.state == Ready
    ensures var r := c.KeepaliveTick(cfg, now, controlStarted);
            && Inv(r, cfg) && SameBut(c, r.(keepalive := c.keepalive))
            && r.keepalive == (if Due(c.keepalive, now) then Some(now + cfg.profile.keepaliveInterval) else c.keepalive)
            && StaysReady(c, r, cfg, now)
  {
    hide TableOk, QueueOk, Core.QueuePacket, TeardownPacket;
    if c.channel.Some? {
      QueuePacketInv(c.(keepalive := Some(now + cfg.profile.keepaliveInterval)), cfg,
                     Be16(c.channel.value) + Be16(1) + [0xff, 0, 0, 0]);
    }
  }

  /** Maintenance keeps a READY core READY, with the same expiry and a keepalive still set. */
  predicate StaysReady(c: Core, r: Core, cfg: Config, now: nat) {
    r.state == Ready && r.allocationExpiresAt == c.allocationExpiresAt && Advances(c, r, KeepaliveLimit(cfg, now))
  }

  /** `r` is `c` with other retry timers. */
  predicate Retimed(c: Core, r: Core) {
    r == c.(allocationRefresh := r.allocationRefresh, maintenanceRefresh := r.maintenanceRefresh,
            permissionRetry := r.permissionRetry, channelRetry := r.channelRetry)
  }

  lemma RetimedInv(c: Core, r: Core, cfg: Config)
    requires Inv(c, cfg) && Retimed(c, r)
    ensures Inv(r, cfg)
  {
    hide TableOk, QueueOk;
  }

  /** Moving the timers and starting the request keeps everything else. */
  lemma MaintainedInv(c: Core, cfg: Config, now: nat, wanted: bool, operation: Operation, draw: Draw)
    requires Inv(c, cfg) && cfg.Valid() && c.state == Ready && operation in {Refresh, Permission, Channel}
    ensures var r := c.Maintained(cfg, wanted, operation, draw).core;
            Inv(r, cfg) && StaysReady(c, r, cfg, now) && SameCredentials(c, r)
  {
    hide Inv, Core.StartOperation;
    var t := if !wanted then c
             else match operation
                  case Refresh => c.(allocationRefresh := None)
                  case Permission => c.(permissionRetry := None)
                  case _ => c.(channelRetry := None);
    RetimedInv(c, t, cfg);
    OpenWhenReady(c, cfg);
    StartOperationInv(t, cfg, operation, true, 0, draw);
  }

  lemma OpenWhenReady(c: Core, cfg: Config)
    requires Inv(c, cfg) && c.state == Ready
    ensures !c.destroyed && !c.shuttingDown && c.AuthComplete()
  {
  }

  predicate SameCredentials(c: Core, r: Core) {
    r.realm == c.realm && r.nonce == c.nonce && r.key == c.key
  }

  lemma RescheduledInv(c: Core, cfg: Config, due: bool, now: nat)
    requires Inv(c, cfg) && c.state == Ready
    ensures var r := c.Rescheduled(cfg, due, now);
            Inv(r, cfg) && StaysReady(c, r, cfg, now) && SameCredentials(c, r) && r.pending == c.pending
            && r.allocationRefresh == c.allocationRefresh
  {
    hide Inv;
    RetimedInv(c, c.Rescheduled(cfg, due, now), cfg);
  }

  lemma StaysReadyTrans(a: Core, b: Core, c: Core, cfg: Config, now: nat)
    requires StaysReady(a, b, cfg, now) && StaysReady(b, c, cfg, now)
    ensures StaysReady(a, c, cfg, now)
  {
  }

  lemma MaintenanceInv(c: Core, cfg: Config, now: nat, refresh: Draw, permission: Draw, bind: Draw)
    requires Inv(c, cfg) && cfg.Valid() && c.state == Ready
    ensures var r := c.Maintenance(cfg, now, refresh, permission, bind).core; Inv(r, cfg) && StaysReady(c, r, cfg, now)
  {
    hide Inv, Core.Maintained, Core.Rescheduled, Core.KeepaliveTick, Core.Has, StaysReady, Due;
    var due := Due(c.maintenanceRefresh, now);
    var refreshing := Due(c.allocationRefresh, now) && !c.Has(Refresh);
    MaintainedReady(c, cfg, now, refreshing, Refresh, refresh);
    var a := c.Maintained(cfg, refreshing, Refresh, refresh).core;
    RescheduledReady(a, cfg, due, now);
    var a0 := a.Rescheduled(cfg, due, now);
    var permitting := (due || Due(c.permissionRetry, now)) && !a0.Has(Permission);
    MaintainedReady(a0, cfg, now, permitting, Permission, permission);
    var b := a0.Maintained(cfg, permitting, Permission, permission).core;
    StaysReadyTrans(c, a, a0, cfg, now);
    StaysReadyTrans(c, a0, b, cfg, now);
    var binding := (due || Due(c.channelRetry, now)) && !b.Has(Channel);
    MaintainedReady(b, cfg, now, binding, Channel, bind);
    var d := b.Maintained(cfg, binding, Channel, bind).core;
    StaysReadyTrans(c, b, d, cfg, now);
    KeepaliveTickInv(d, cfg, now, refreshing || permitting || binding);
    StaysReadyTrans(c, d, d.KeepaliveTick(cfg, now, refreshing || permitting || binding), cfg, now);
  }

  lemma MaintainedReady(c: Core, cfg: Config, now: nat, wanted: bool, operation: Operation, draw: Draw)
    requires Inv(c, cfg) && cfg.Valid() && c.state == Ready && operation in {Refresh, Permission, Channel}
    ensures var r := c.Maintained(cfg, wanted, operation, draw).core;
            Inv(r, cfg) && StaysReady(c, r, cfg, now) && r.state == Ready
  {
    hide Inv, Core.Maintained;
    MaintainedInv(c, cfg, now, wanted, operation, draw);
  }

  lemma RescheduledReady(c: Core, cfg: Config, due: bool, now: nat)
    requires Inv(c, cfg) && c.state == Ready
    ensures var r := c.Rescheduled(cfg, due, now); Inv(r, cfg) && StaysReady(c, r, cfg, now) && r.state == Ready
  {
    hide Inv, Core.Rescheduled;
    RescheduledInv(c, cfg, due, now);
  }

  lemma PollInv(c: Core, cfg: Config, now: nat, refresh: Draw, permission: Draw, bind: Draw)
    requires Inv(c, cfg) && cfg.Valid()
    ensures var r := c.Poll(cfg, now, refresh, permission, bind).0;
            Inv(r, cfg) && Advances(c, r, KeepaliveLimit(cfg, now))
  {
    hide TableOk, QueueOk, Core.ExpireFrom, Core.DestroyAllocation, Core.Maintenance, Core.NextDeadline;
    if !c.destroyed {
      ExpireInv(c, cfg, 0, now);
      var a := c.ExpireFrom(cfg, 0, now);
      DestroyAllocationInv(a, cfg, Refresh, RESULT_TIMEOUT, 0);
      if a.state == Ready { MaintenanceInv(a, cfg, now, refresh, permission, bind); }
    }
  }

  lemma StartAllocationInv(c: Core, cfg: Config, draw: Draw)
    requires Inv(c, cfg) && cfg.Valid()
    ensures var r := c.StartAllocation(cfg, draw).core; Inv(r, cfg) && Advances(c, r, 0)
  {
    hide RequestKind, Rto, QueueOk, Core.SetState, Core.StartOperation;
    if c.Open() && c.state == Null {
      if c.pending != [] && PendingOk(c.pending[0], c.state, c.AuthComplete(), cfg) { assert false; }
      SetStateFrame(c, Allocating);
      StartOperationInv(c.SetState(Allocating), cfg, Allocate, false, 0, draw);
    }
  }

  lemma StartWhenReadyInv(c: Core, cfg: Config, operation: Operation, draw: Draw)
    requires Inv(c, cfg) && cfg.Valid() && operation in {Channel, Permission}
    ensures var r := c.StartWhenReady(cfg, operation, draw).core; Inv(r, cfg) && Advances(c, r, 0)
  {
    hide TableOk, QueueOk, Core.StartOperation;
    if c.Open() && c.state == Ready {
      StartOperationInv(c, cfg, operation, true, 0, draw);
    }
  }

  /** Shutdown empties the queue and, unless an Allocate is under way, the table. */
  lemma GracefulShutdownInv(c: Core, cfg: Config, draw: Draw)
    requires Inv(c, cfg) && cfg.Valid()
    ensures var r := c.GracefulShutdown(cfg, draw).core;
            Inv(r, cfg) && Phase(c.state) <= Phase(r.state) && r.destroyed == c.destroyed
            && (r.shuttingDown || c.destroyed)
  {
    hide RequestKind, Rto, Core.SetState, Core.StartOperation;
    if c.Open() {
      var a := c.(shuttingDown := true).Unbound();
      if c.state == Ready || (c.state == Destroying && c.allocationExpiresAt.Some?) {
        SetStateFrame(a.(pending := []), Deallocating);
        StartOperationInv(a.(pending := []).SetState(Deallocating), cfg, Deallocate, true, 0, draw);
      }
    }
  }

  lemma ForceDestroyInv(c: Core, cfg: Config, status: int)
    requires Inv(c, cfg)
    ensures var r := c.ForceDestroy(status);
            && Inv(r, cfg) && Phase(c.state) <= Phase(r.state) && r.shuttingDown == c.shuttingDown && r.destroyed
  {
    hide RequestKind, Rto, Core.SetState, Core.PushEvent;
    if !c.destroyed {
      var a := c.(destroyed := true, controls := [], pending := []);
      SetStateFrame(a, Destroying);
      PushEventFrame(a.SetState(Destroying), ForcedDestroy(status));
    }
  }
}
