/**
 With inbound packets no longer than a stream lets through, every state that waits for something has the
 request or the timer that will end the wait, and no call fails for want of space.
 */
module TurnAlive {
  import opened Bytes
  import opened Stun
  import opened TurnState
  import opened TurnInvariant
  import opened TurnFits

  /** Each waiting state has its request, and READY its refresh, scheduled or under way; `op` is not asked for. */
  predicate AliveBut(c: Core, op: Option<Operation>) {
    && (c.state == Allocating ==> op == Some(Allocate) || c.Has(Allocate))
    && (c.state == Ready ==> op == Some(Refresh) || c.allocationRefresh.Some? || c.Has(Refresh))
    && (c.state == Deallocating ==> op == Some(Deallocate) || c.Has(Deallocate))
  }

  predicate Alive(c: Core) { AliveBut(c, None) }

  predicate FitInv(c: Core, cfg: Config) { Inv(c, cfg) && SmallAuth(c) && Alive(c) }

  // ---------------------------------------------------------------- the table

  /** `r` has an entry for every operation that `c` has one for, except perhaps `op`. */
  predicate KeepsEntries(c: Core, r: Core, op: Option<Operation>) {
    forall o: Operation :: c.Has(o) && op != Some(o) ==> r.Has(o)
  }

  lemma TakenKeeps(c: Core, i: nat)
    requires i < |c.pending|
    ensures KeepsEntries(c, c.Taken(i), Some(c.pending[i].operation))
  {
    hide FindOperation, WithoutTransaction;
    var rest := Without(c.pending, i);
    forall o: Operation | c.Has(o) && o != c.pending[i].operation
      ensures c.Taken(i).Has(o)
    {
      var p := FindOperation(c.pending, o).value;
      var k :| 0 <= k < |c.pending| && c.pending[k] == p;
      assert rest[if k < i then k else k - 1] == p;
      assert p in rest;
    }
  }

  lemma RetransmittedKeeps(c: Core, i: nat, now: nat)
    requires i < |c.pending|
    ensures KeepsEntries(c, c.Retransmitted(i, now), None)
  {
    hide FindOperation, Core.QueuePacket;
    var r := c.Retransmitted(i, now);
    forall o: Operation | c.Has(o)
      ensures r.Has(o)
    {
      var p := FindOperation(c.pending, o).value;
      var k :| 0 <= k < |c.pending| && c.pending[k] == p;
      assert r.pending[k] in r.pending && r.pending[k].operation == o;
    }
  }

  lemma KeptAlive(c: Core, r: Core, op: Option<Operation>)
    requires KeepsEntries(c, r, op) && Alive(c) && r.state == c.state && r.allocationRefresh == c.allocationRefresh
    ensures AliveBut(r, op)
  {
    hide FindOperation;
  }

  // ---------------------------------------------------------------- endings

  lemma FailureAlive(c: Core, cfg: Config, operation: Operation, status: int, code: int, now: nat)
    requires Inv(c, cfg) && !c.destroyed && AliveBut(c, Some(operation)) && StateFor(operation, c.state)
    ensures var r := c.CompleteFailure(operation, status, code, now);
            Alive(r) && r.realm == c.realm && r.nonce == c.nonce
  {
    hide Inv, Alive, AliveBut, Core.Complete, Core.ScheduleRetry, Core.DestroyAllocation,
         Core.DestroyAfterRebindExhausted;
    DestroyAlive(c, cfg, operation, status, code);
    RetryAlive(c, operation, status, code, now);
    RebindAlive(c.Complete(operation, status, code).ScheduleRetry(operation, now).core);
  }

  lemma RetryAlive(c: Core, operation: Operation, status: int, code: int, now: nat)
    requires AliveBut(c, Some(operation))
    ensures var r := c.Complete(operation, status, code).ScheduleRetry(operation, now);
            && (r.ok && c.state == Ready && operation in {Refresh, Permission, Channel} ==> Alive(r.core))
            && r.core.realm == c.realm && r.core.nonce == c.nonce
  {
    hide Core.Complete, RetryDelay, FindOperation;
    CompleteFrame(c, operation, status, code);
  }

  lemma RebindAlive(c: Core)
    ensures var r := c.DestroyAfterRebindExhausted(); Alive(r) && r.realm == c.realm && r.nonce == c.nonce
  {
    hide Core.SetState, Core.PushEvent, FindOperation;
    var e := c.(pending := []).Unbound();
    PushEventFrame(e, RebindExhausted);
    SetStateFrame(e.PushEvent(RebindExhausted), Destroying);
  }

  lemma DestroyAlive(c: Core, cfg: Config, operation: Operation, status: int, code: int)
    requires Inv(c, cfg) && !c.destroyed
    ensures var r := c.DestroyAllocation(operation, status, code);
            Alive(r) && r.realm == c.realm && r.nonce == c.nonce
  {
    hide TableOk, QueueOk, Core.Complete, Core.SetState, FindOperation;
    CompleteFrame(c, operation, status, code);
    var d := c.Complete(operation, status, code);
    SetStateFrame(d.(pending := []).Unbound().Forgotten(), if operation == Deallocate then Deallocated else Destroying);
  }

  /** The event pushed on the way changes nothing here. */
  lemma EventAlive(c: Core, event: Event, op: Option<Operation>)
    ensures var r := c.PushEvent(event);
            && AliveBut(r, op) == AliveBut(c, op) && r.state == c.state && r.destroyed == c.destroyed
            && r.realm == c.realm && r.nonce == c.nonce && r.pending == c.pending
  {
    hide Core.PushEvent, FindOperation;
    PushEventFrame(c, event);
  }

  // ---------------------------------------------------------------- responses

  lemma AuthRetryAlive(c: Core, cfg: Config, m: Message, p: Pending, code: nat, draw: Draw)
    requires Inv(c, cfg) && cfg.Valid() && Answerable(c, p.operation) && Parse(m.raw) == Ok(m)
    requires SmallAuth(c) && |m.raw| <= INBOUND && AliveBut(c, Some(p.operation))
    ensures var r := c.AuthRetry(cfg, m, p, code, draw);
            && SmallAuth(r.core) && r.core.state == c.state
            && AliveBut(r.core, if r.ok then None else Some(p.operation))
  {
    hide TableOk, QueueOk, Core.StartOperation, Parse, AttributeValue, FindOperation;
    AuthRetryInv(c, cfg, m, p, code, draw);
    var realm := if AttributeValue(m, ATTR_REALM).Some? then AttributeValue(m, ATTR_REALM)
                 else if code == 438 then c.realm else None;
    var nonce := AttributeValue(m, ATTR_NONCE);
    if p.nonceRetries < cfg.profile.maxNonceRetries && realm.Some? && nonce.Some? {
      RetryStarts(c.SetAuth(cfg, realm.value, nonce.value), cfg, p, draw);
    }
  }

  lemma RetryStarts(c: Core, cfg: Config, p: Pending, draw: Draw)
    requires AliveBut(c, Some(p.operation)) && FindOperation(c.pending, p.operation).None?
    ensures var r := c.StartOperation(cfg, p.operation, true, p.nonceRetries + 1, draw);
            && r.core.realm == c.realm && r.core.nonce == c.nonce
            && AliveBut(r.core, if r.ok then None else Some(p.operation))
  {
    hide Core.QueuePacket, Core.BuildRequest, FindOperation;
    StartFinds(c, cfg, p.operation, true, p.nonceRetries + 1, draw, Allocate);
    StartFinds(c, cfg, p.operation, true, p.nonceRetries + 1, draw, Refresh);
    StartFinds(c, cfg, p.operation, true, p.nonceRetries + 1, draw, Deallocate);
    StartFrame(c, cfg, p.operation, true, p.nonceRetries + 1, draw);
  }

  lemma StartFrame(c: Core, cfg: Config, operation: Operation, authenticated: bool, retries: nat, draw: Draw)
    ensures SameBut(c, c.StartOperation(cfg, operation, authenticated, retries, draw).core)
  {
    hide Core.QueuePacket, Core.BuildRequest, FindOperation;
    var current := FindOperation(c.pending, operation);
    if current.Some? {
      QueueFrame(c, current.value.packet);
    } else if authenticated ==> c.AuthComplete() {
      var built := c.BuildRequest(cfg, operation, draw.transaction, authenticated);
      if built.Some? { QueueFrame(c, built.value); }
    }
  }

  lemma QueueFrame(c: Core, packet: seq<Byte>)
    ensures SameBut(c, c.QueuePacket(packet)) && c.QueuePacket(packet).pending == c.pending
  {
  }

  lemma ErrorResponseAlive(c: Core, cfg: Config, m: Message, p: Pending, now: nat, draw: Draw)
    requires Inv(c, cfg) && cfg.Valid() && Answerable(c, p.operation) && Parse(m.raw) == Ok(m)
    requires SmallAuth(c) && |m.raw| <= INBOUND && AliveBut(c, Some(p.operation))
    ensures var r := c.ErrorResponse(cfg, m, p, now, draw); Alive(r) && SmallAuth(r)
  {
    hide Inv, Core.PushEvent, Core.CompleteFailure, Core.DestroyAllocation, Core.AuthRetry, Parse, ErrorCode,
         FindOperation, RequiresAllocationRecreate;
    var code := if ErrorCode(m).Some? then ErrorCode(m).value else 0;
    var event := ResponseError(p.operation.Method(), if code == 0 then RESULT_PROTOCOL else 0, code, c.state);
    PushEventInv(c, cfg, event);
    EventAlive(c, event, Some(p.operation));
    if code == 0 {
      FailureAlive(c.PushEvent(event), cfg, p.operation, RESULT_PROTOCOL, 0, now);
    } else if RequiresAllocationRecreate(p.operation, code) {
      DestroyAlive(c.PushEvent(event), cfg, p.operation, RESULT_PROTOCOL, code);
    } else {
      AuthRetryInv(c, cfg, m, p, code, draw);
      AuthRetryAlive(c, cfg, m, p, code, draw);
      var retry := c.AuthRetry(cfg, m, p, code, draw);
      if !retry.ok {
        PushEventInv(retry.core, cfg, event);
        EventAlive(retry.core, event, Some(p.operation));
        FailureAlive(retry.core.PushEvent(event), cfg, p.operation, RESULT_PROTOCOL, code, now);
      }
    }
  }

  /** A late Allocate finds room for its Deallocate. */
  lemma ReturnStarts(c: Core, cfg: Config, draw: Draw)
    requires cfg.Valid() && SmallAuth(c) && c.AuthComplete() && c.state == Deallocating
    ensures var r := c.StartOperation(cfg, Deallocate, true, 0, draw);
            r.ok && Alive(r.core) && SmallAuth(r.core) && r.core.state == Deallocating
  {
    hide Core.StartOperation, FindOperation, Fits;
    SmallFits(c, cfg, Deallocate, true);
    StartsExactly(c, cfg, Deallocate, true, 0, draw);
    StartFinds(c, cfg, Deallocate, true, 0, draw, Deallocate);
    StartFrame(c, cfg, Deallocate, true, 0, draw);
  }

  lemma AllocateAlive(c: Core, cfg: Config, m: Message, now: nat, draw: Draw)
    requires cfg.Valid() && c.AuthComplete() && Parse(m.raw) == Ok(m) && c.state == Allocating
    requires SmallAuth(c) && AliveBut(c, Some(Allocate))
    ensures var r := c.AllocateSucceeded(cfg, m, now, draw);
            SmallAuth(r.core) && (if r.ok then Alive(r.core) else r.core == c)
  {
    hide Core.PushEvent, Core.Complete, Core.SetState, Core.StartOperation, Parse, AttributeValue, AttributeU32,
         DecodeXorAddress, AllocationRefreshDeadline, FindOperation;
    var value := AttributeValue(m, ATTR_XOR_RELAYED_ADDRESS);
    if value.Some? && DecodeXorAddress(value.value, m.transaction).Some? {
      var relay := DecodeXorAddress(value.value, m.transaction).value;
      var a := c.Granted(cfg, AttributeU32(m, ATTR_LIFETIME), now)
        .(relay := Some(relay),
          maintenanceRefresh := Some(now + cfg.profile.maintenanceRefresh),
          keepalive := Some(now + cfg.profile.keepaliveInterval));
      PushEventFrame(a, RelayAddress(relay));
      var b := a.PushEvent(RelayAddress(relay));
      SetStateFrame(b, if c.shuttingDown then Deallocating else Ready);
      if c.shuttingDown {
        ReturnStarts(b.SetState(Deallocating), cfg, draw);
      } else {
        CompleteFrame(b.SetState(Ready), Allocate, 0, 0);
      }
    }
  }

  lemma SuccessAlive(c: Core, cfg: Config, operation: Operation, m: Message, now: nat, draw: Draw)
    requires cfg.Valid() && c.AuthComplete() && Parse(m.raw) == Ok(m) && StateFor(operation, c.state)
    requires SmallAuth(c) && AliveBut(c, Some(operation))
    ensures var r := c.CompleteSuccess(cfg, operation, m, now, draw);
            SmallAuth(r.core) && (if r.ok then Alive(r.core) else r.core == c)
  {
    hide Core.PushEvent, Core.Complete, Core.SetState, Core.AllocateSucceeded, Parse, AttributeU32,
         AllocationRefreshDeadline, FindOperation;
    match operation {
      case Allocate => AllocateAlive(c, cfg, m, now, draw);
      case Refresh => CompleteFrame(c.Granted(cfg, AttributeU32(m, ATTR_LIFETIME), now), Refresh, 0, 0);
      case Deallocate =>
        var a := c.Forgotten();
        CompleteFrame(a, Deallocate, 0, 0);
        SetStateFrame(a.Complete(Deallocate, 0, 0), Deallocated);
      case Permission => CompleteFrame(c.(permissionFailures := 0), Permission, 0, 0);
      case Channel =>
        var a := c.(channel := Some(CHANNEL_NUMBER), channelFailures := 0);
        PushEventFrame(a, ChannelBound(CHANNEL_NUMBER, cfg.peer));
        CompleteFrame(a.PushEvent(ChannelBound(CHANNEL_NUMBER, cfg.peer)), Channel, 0, 0);
    }
  }

  lemma ResponseAlive(c: Core, cfg: Config, m: Message, p: Pending, now: nat, draw: Draw)
    requires Inv(c, cfg) && cfg.Valid() && Answerable(c, p.operation) && Parse(m.raw) == Ok(m)
    requires (p.authenticated ==> c.AuthComplete()) && ClassOf(m.kind) in {Success, Error}
    requires SmallAuth(c) && |m.raw| <= INBOUND && AliveBut(c, Some(p.operation))
    ensures var r := c.Response(cfg, m, p, now, draw).0; Alive(r) && SmallAuth(r)
  {
    hide Inv, Core.CompleteFailure, Core.CompleteSuccess, Core.ErrorResponse, Parse, ClassOf, FindOperation;
    if ClassOf(m.kind) == Error {
      ErrorResponseAlive(c, cfg, m, p, now, draw);
    } else if !p.authenticated {
      FailureAlive(c, cfg, p.operation, RESULT_AUTHENTICATION, 0, now);
    } else {
      SuccessAlive(c, cfg, p.operation, m, now, draw);
      FailureAlive(c, cfg, p.operation, RESULT_PROTOCOL, 0, now);
    }
  }

  lemma InputAlive(c: Core, cfg: Config, packet: seq<Byte>, now: nat, draw: Draw)
    requires FitInv(c, cfg) && cfg.Valid() && |packet| <= INBOUND
    ensures FitInv(c.InputStun(cfg, packet, now, draw).0, cfg)
  {
    hide TableOk, QueueOk, Core.PushEvent, Core.Response, Core.Taken, Parse, ClassOf, MethodOf, Position,
         FindOperation, FingerprintValid, VerifyIntegrity, RequiresIntegrity, FingerprintedAllocationMismatch,
         ErrorCode, RequestKind, Rto;
    InputStunInv(c, cfg, packet, now, draw);
    if Parse(packet).Ok? {
      var m := Parse(packet).value;
      var found := Position(c.pending, m.transaction, MethodOf(m.kind));
      if ClassOf(m.kind) in {Success, Error} && found.Some? {
        var p := c.pending[found.value];
        TakenInv(c, cfg, found.value);
        TakenKeeps(c, found.value);
        KeptAlive(c, c.Taken(found.value), Some(p.operation));
        ResponseAlive(c.Taken(found.value), cfg, m, p, now, draw);
        if ErrorCode(m).Some? {
          EventAlive(c, ResponseError(MethodOf(m.kind), RESULT_AUTHENTICATION, ErrorCode(m).value, c.state), None);
        }
      }
    }
  }

  // ---------------------------------------------------------------- polls

  lemma {:induction false} ExpireAlive(c: Core, cfg: Config, i: nat, now: nat)
    requires FitInv(c, cfg)
    ensures FitInv(c.ExpireFrom(cfg, i, now), cfg)
    decreases |c.pending| - i
  {
    hide TableOk, QueueOk, Core.CompleteFailure, Core.Taken, Core.Retransmitted, FindOperation, RequestKind, Rto;
    if i < |c.pending| {
      var p := c.pending[i];
      if now < p.nextAttempt {
        ExpireAlive(c, cfg, i + 1, now);
      } else if p.transmissions >= MAX_TRANSMISSIONS || cfg.transport == Stream {
        TakenInv(c, cfg, i);
        TakenKeeps(c, i);
        KeptAlive(c, c.Taken(i), Some(p.operation));
        CompleteFailureInv(c.Taken(i), cfg, p.operation, RESULT_TIMEOUT, 0, now);
        FailureAlive(c.Taken(i), cfg, p.operation, RESULT_TIMEOUT, 0, now);
        ExpireAlive(c.Taken(i).CompleteFailure(p.operation, RESULT_TIMEOUT, 0, now), cfg, i, now);
      } else {
        RetransmittedInv(c, cfg, i, now);
        RetransmittedKeeps(c, i, now);
        KeptAlive(c, c.Retransmitted(i, now), None);
        ExpireAlive(c.Retransmitted(i, now), cfg, i + 1, now);
      }
    }
  }

  lemma TickKeeps(c: Core, cfg: Config, now: nat, controlStarted: bool)
    ensures var r := c.KeepaliveTick(cfg, now, controlStarted);
            && r.pending == c.pending && r.allocationRefresh == c.allocationRefresh && r.state == c.state
            && r.realm == c.realm && r.nonce == c.nonce
  {
  }

  /** One maintenance request starts, and only the Refresh gives up a timer that matters. */
  lemma MaintainedAlive(c: Core, cfg: Config, now: nat, wanted: bool, operation: Operation, draw: Draw)
    requires FitInv(c, cfg) && cfg.Valid() && c.state == Ready && operation in {Refresh, Permission, Channel}
    requires wanted ==> !c.Has(operation)
    ensures var r := c.Maintained(cfg, wanted, operation, draw); r.ok && FitInv(r.core, cfg) && r.core.state == Ready
  {
    hide Inv, Core.Maintained, FindOperation, Fits;
    OpenWhenReady(c, cfg);
    MaintainedInv(c, cfg, now, wanted, operation, draw);
    SmallFits(c, cfg, operation, true);
    MaintainedExactly(c, cfg, wanted, operation, draw);
    MaintainedFinds(c, cfg, wanted, operation, draw, Refresh);
    if operation != Refresh || !wanted { MaintainedTimer(c, cfg, wanted, operation, draw); }
  }

  lemma MaintainedTimer(c: Core, cfg: Config, wanted: bool, operation: Operation, draw: Draw)
    requires operation in {Permission, Channel} || !wanted
    ensures c.Maintained(cfg, wanted, operation, draw).core.allocationRefresh == c.allocationRefresh
  {
    hide Core.StartOperation;
    var t := if operation == Permission then c.(permissionRetry := None) else c.(channelRetry := None);
    StartFrame(t, cfg, operation, true, 0, draw);
  }

  lemma RescheduledAlive(c: Core, cfg: Config, due: bool, now: nat)
    requires FitInv(c, cfg) && c.state == Ready
    ensures FitInv(c.Rescheduled(cfg, due, now), cfg) && c.Rescheduled(cfg, due, now).state == Ready
  {
    hide Inv, Core.Rescheduled, FindOperation;
    RescheduledInv(c, cfg, due, now);
  }

  lemma MaintenanceAlive(c: Core, cfg: Config, now: nat, refresh: Draw, permission: Draw, bind: Draw)
    requires FitInv(c, cfg) && cfg.Valid() && c.state == Ready
    ensures var r := c.Maintenance(cfg, now, refresh, permission, bind); r.ok && FitInv(r.core, cfg)
  {
    hide FitInv, Core.Maintained, Core.Rescheduled, Core.KeepaliveTick, Core.Has, Due;
    var due := Due(c.maintenanceRefresh, now);
    var refreshing := Due(c.allocationRefresh, now) && !c.Has(Refresh);
    MaintainedAlive(c, cfg, now, refreshing, Refresh, refresh);
    var a := c.Maintained(cfg, refreshing, Refresh, refresh).core;
    RescheduledAlive(a, cfg, due, now);
    var a0 := a.Rescheduled(cfg, due, now);
    var permitting := (due || Due(c.permissionRetry, now)) && !a0.Has(Permission);
    MaintainedAlive(a0, cfg, now, permitting, Permission, permission);
    var b := a0.Maintained(cfg, permitting, Permission, permission).core;
    var binding := (due || Due(c.channelRetry, now)) && !b.Has(Channel);
    MaintainedAlive(b, cfg, now, binding, Channel, bind);
    TickAlive(b.Maintained(cfg, binding, Channel, bind).core, cfg, now, refreshing || permitting || binding);
  }

  lemma TickAlive(c: Core, cfg: Config, now: nat, controlStarted: bool)
    requires FitInv(c, cfg) && c.state == Ready
    ensures FitInv(c.KeepaliveTick(cfg, now, controlStarted), cfg)
  {
    hide Inv, Core.KeepaliveTick, FindOperation;
    KeepaliveTickInv(c, cfg, now, controlStarted);
    TickKeeps(c, cfg, now, controlStarted);
  }

  /** A poll never fails and leaves no state waiting for nothing. */
  lemma PollAlive(c: Core, cfg: Config, now: nat, refresh: Draw, permission: Draw, bind: Draw)
    requires FitInv(c, cfg) && cfg.Valid()
    ensures var (r, result) := c.Poll(cfg, now, refresh, permission, bind); FitInv(r, cfg) && result != Failed
  {
    hide TableOk, QueueOk, Core.ExpireFrom, Core.DestroyAllocation, Core.Maintenance, Core.NextDeadline, FindOperation;
    if !c.destroyed {
      ExpireAlive(c, cfg, 0, now);
      ExpireInv(c, cfg, 0, now);
      var a := c.ExpireFrom(cfg, 0, now);
      DestroyAllocationInv(a, cfg, Refresh, RESULT_TIMEOUT, 0);
      DestroyAlive(a, cfg, Refresh, RESULT_TIMEOUT, 0);
      if a.state == Ready { MaintenanceAlive(a, cfg, now, refresh, permission, bind); }
    }
  }

  // ---------------------------------------------------------------- the other entry points

  /** An allocation starts exactly if none was asked for before. */
  lemma StartAllocationAlive(c: Core, cfg: Config, draw: Draw)
    requires FitInv(c, cfg) && cfg.Valid()
    ensures var r := c.StartAllocation(cfg, draw);
            FitInv(r.core, cfg) && (r.ok <==> c.Open() && c.state == Null)
  {
    hide TableOk, QueueOk, Core.SetState, Core.StartOperation, FindOperation, Fits;
    StartAllocationInv(c, cfg, draw);
    if c.Open() && c.state == Null {
      SetStateFrame(c, Allocating);
      var a := c.SetState(Allocating);
      SmallFits(a, cfg, Allocate, false);
      StartsExactly(a, cfg, Allocate, false, 0, draw);
      StartFinds(a, cfg, Allocate, false, 0, draw, Allocate);
      StartFrame(a, cfg, Allocate, false, 0, draw);
    }
  }

  /** A channel or permission request starts exactly if the core is READY and open. */
  lemma StartWhenReadyAlive(c: Core, cfg: Config, operation: Operation, draw: Draw)
    requires FitInv(c, cfg) && cfg.Valid() && operation in {Channel, Permission}
    ensures var r := c.StartWhenReady(cfg, operation, draw);
            FitInv(r.core, cfg) && (r.ok <==> c.Open() && c.state == Ready)
  {
    hide TableOk, QueueOk, Core.StartOperation, FindOperation, Fits;
    StartWhenReadyInv(c, cfg, operation, draw);
    if c.Open() && c.state == Ready {
      SmallFits(c, cfg, operation, true);
      StartsExactly(c, cfg, operation, true, 0, draw);
      StartFinds(c, cfg, operation, true, 0, draw, Refresh);
      StartFrame(c, cfg, operation, true, 0, draw);
    }
  }

  /** There is an allocation to give back: the core is READY, or gave the channel up while the lifetime ran on. */
  predicate HoldsAllocation(c: Core) {
    c.Open() && (c.state == Ready || (c.state == Destroying && c.allocationExpiresAt.Some?))
  }

  /** Shutdown never fails, and if there is an allocation to give back it leaves a Deallocate under way. */
  lemma ShutdownAlive(c: Core, cfg: Config, draw: Draw)
    requires FitInv(c, cfg) && cfg.Valid()
    ensures var r := c.GracefulShutdown(cfg, draw);
            && r.ok && FitInv(r.core, cfg)
            && (HoldsAllocation(c) ==> r.core.state == Deallocating && r.core.Has(Deallocate))
  {
    hide TableOk, QueueOk, Core.SetState, Core.StartOperation, FindOperation;
    GracefulShutdownInv(c, cfg, draw);
    if c.Open() {
      var a := c.(shuttingDown := true).Unbound().(pending := []);
      SetStateFrame(a, Deallocating);
      if HoldsAllocation(c) {
        ReturnStarts(a.SetState(Deallocating), cfg, draw);
      }
    }
  }

  lemma DestroyedAlive(c: Core, cfg: Config, status: int)
    requires FitInv(c, cfg)
    ensures FitInv(c.ForceDestroy(status), cfg)
  {
    hide TableOk, QueueOk, Core.SetState, Core.PushEvent, FindOperation;
    ForceDestroyInv(c, cfg, status);
    var a := c.(destroyed := true, controls := [], pending := []);
    SetStateFrame(a, Destroying);
    PushEventFrame(a.SetState(Destroying), ForcedDestroy(status));
  }
}
