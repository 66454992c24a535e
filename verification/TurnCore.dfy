/**
 The TURN client control core as the object it is: one guarded state its methods update step by step. Each
 method is proved to take the step its function in `TurnState` describes; each entry point also keeps the
 object valid and says what its caller may rely on.
 */
module TurnCore {
  import opened Bytes
  import opened Stun
  import opened TurnState
  import opened TurnInvariant
  import opened TurnFits
  import opened TurnAlive
  import opened TurnRuns
  import opened TurnRequests
  import opened TurnCalls
  import TurnProgress

  method FindPending(pending: seq<Pending>, operation: Operation) returns (r: Option<Pending>)
    ensures r == FindOperation(pending, operation)
  {
    for i := 0 to |pending|
      invariant FindOperation(pending, operation) == FindOperation(pending[i..], operation)
    {
      assert pending[i..][1..] == pending[i + 1..];
      if pending[i].operation == operation { return Some(pending[i]); }
    }
    return None;
  }

  method FindPosition(pending: seq<Pending>, transaction: Transaction, request: U16) returns (r: Option<nat>)
    ensures r == Position(pending, transaction, request)
  {
    for i := 0 to |pending|
      invariant Position(pending, transaction, request) ==
                match Position(pending[i..], transaction, request)
                case None => None
                case Some(k) => Some(i + k)
    {
      assert pending[i..][1..] == pending[i + 1..];
      if pending[i].transaction == transaction && pending[i].operation.Method() == request { return Some(i); }
    }
    return None;
  }

  method Retain(controls: seq<seq<Byte>>, transaction: Transaction) returns (r: seq<seq<Byte>>)
    ensures r == WithoutTransaction(controls, transaction)
  {
    r := [];
    for i := 0 to |controls|
      invariant WithoutTransaction(controls, transaction) == r + WithoutTransaction(controls[i..], transaction)
    {
      ghost var before := r;
      assert controls[i..][1..] == controls[i + 1..];
      if !(|controls[i]| >= 20 && controls[i][8..20] == transaction) { r := r + [controls[i]]; }
    }
    assert controls[|controls|..] == [];
  }

  method EarliestOf(pending: seq<Pending>) returns (r: Option<nat>)
    ensures r == EarliestAttempt(pending)
  {
    r := None;
    for i := |pending| downto 0
      invariant r == EarliestAttempt(pending[i..])
    {
      assert pending[i..][1..] == pending[i + 1..];
      r := Earlier(Some(pending[i].nextAttempt), r);
    }
    assert pending[0..] == pending;
  }

  class NativeCore {
    const cfg: Config
    var inner: Core

    ghost predicate Valid()
      reads this
    {
      cfg.Valid() && Inv(inner, cfg)
    }

    constructor (cfg: Config)
      requires cfg.Valid()
      ensures Valid() && this.cfg == cfg && inner == Initial()
    {
      this.cfg := cfg;
      inner := Initial();
      new;
      InitialInv(cfg);
    }

    /** Refuses a zero port and an empty or overlong user name or password, and nothing else. */
    static method Create(cfg: Config) returns (r: Result<NativeCore, int>)
      ensures r.Ok? <==> cfg.Valid()
      ensures r.Err? ==> r.error == RESULT_INVALID_ARGUMENT
      ensures r.Ok? ==> fresh(r.value) && r.value.Valid() && r.value.cfg == cfg && r.value.inner == Initial()
    {
      hide Inv;
      if cfg.server.port == 0 || cfg.peer.port == 0 { return Err(RESULT_INVALID_ARGUMENT); }
      if |cfg.username| == 0 || |cfg.username| > 512 || |cfg.password| == 0 || |cfg.password| > 512 {
        return Err(RESULT_INVALID_ARGUMENT);
      }
      var core := new NativeCore(cfg);
      return Ok(core);
    }

    // ------------------------------------------------------------ entry points

    /** Once only, and then the one request under way is an Allocate. */
    method StartAllocation(draw: Draw) returns (ok: bool)
      requires Valid()
      modifies this
      ensures Valid() && Outcome(inner, ok) == old(inner).StartAllocation(cfg, draw)
      ensures ok <==> old(inner).Open() && old(inner.state) == Null && Fits(old(inner), cfg, Allocate, false)
      ensures ok ==> inner.state == Allocating && Sole(inner, Allocate)
    {
      hide Inv, Core.SetState, Core.StartOperation, FindOperation;
      StartAllocationInv(inner, cfg, draw);
      StartedAllocation(inner, cfg, draw);
      if inner.destroyed || inner.shuttingDown || inner.state != Null { return false; }
      SetState(Allocating);
      ok := StartOperation(Allocate, false, 0, draw);
    }

    method StartChannel(draw: Draw) returns (ok: bool)
      requires Valid()
      modifies this
      ensures Valid() && Outcome(inner, ok) == old(inner).StartWhenReady(cfg, Channel, draw)
      ensures !ok ==> inner == old(inner)
      ensures ok ==> inner.state == Ready && inner.Has(Channel)
      ensures forall o: Operation :: old(inner).Has(o) ==>
                FindOperation(inner.pending, o) == FindOperation(old(inner.pending), o)
    {
      hide Inv, Core.StartOperation, FindOperation;
      StartWhenReadyInv(inner, cfg, Channel, draw);
      StartedWhenReady(inner, cfg, Channel, draw);
      if inner.destroyed || inner.shuttingDown || inner.state != Ready { return false; }
      ok := StartOperation(Channel, true, 0, draw);
    }

    method StartPermission(draw: Draw) returns (ok: bool)
      requires Valid()
      modifies this
      ensures Valid() && Outcome(inner, ok) == old(inner).StartWhenReady(cfg, Permission, draw)
      ensures !ok ==> inner == old(inner)
      ensures ok ==> inner.state == Ready && inner.Has(Permission)
      ensures forall o: Operation :: old(inner).Has(o) ==>
                FindOperation(inner.pending, o) == FindOperation(old(inner.pending), o)
    {
      hide Inv, Core.StartOperation, FindOperation;
      StartWhenReadyInv(inner, cfg, Permission, draw);
      StartedWhenReady(inner, cfg, Permission, draw);
      if inner.destroyed || inner.shuttingDown || inner.state != Ready { return false; }
      ok := StartOperation(Permission, true, 0, draw);
    }

    /** Whatever arrives, the core stays valid and never turns back; what is not a response changes nothing. */
    method InputStun(packet: seq<Byte>, now: nat, draw: Draw) returns (status: int)
      requires Valid()
      modifies this
      ensures Valid() && (inner, status) == old(inner).InputStun(cfg, packet, now, draw)
      ensures Phase(old(inner.state)) <= Phase(inner.state)
      ensures status == RESULT_INVALID_ARGUMENT || status == RESULT_NOT_CONTROL ==> inner == old(inner)
    {
      hide Inv, Phase, Core.PushEvent, Core.Response, FingerprintValid, VerifyIntegrity, RequiresIntegrity,
           FingerprintedAllocationMismatch, ErrorCode, ClassOf, MethodOf, WithoutTransaction;
      InputPromises(inner, cfg, packet, now, draw);
      var decoded := Decode(packet);
      if decoded.Err? { return RESULT_INVALID_ARGUMENT; }
      var m := decoded.value;
      if ClassOf(m.kind) != Success && ClassOf(m.kind) != Error { return RESULT_NOT_CONTROL; }
      if FingerprintValid(m, cfg.prim) == Some(false) { return RESULT_INVALID_ARGUMENT; }
      var found := FindPosition(inner.pending, m.transaction, MethodOf(m.kind));
      if found.None? { return RESULT_NOT_CONTROL; }
      var index := found.value;
      var p := inner.pending[index];
      if p.authenticated && RequiresIntegrity(m) && !VerifyIntegrity(m, inner.key, cfg.prim)
         && !FingerprintedAllocationMismatch(m, cfg.prim)
      {
        if ClassOf(m.kind) == Error && ErrorCode(m).Some? {
          PushEvent(ResponseError(MethodOf(m.kind), RESULT_AUTHENTICATION, ErrorCode(m).value, inner.state));
        }
        return RESULT_AUTHENTICATION;
      }
      Take(index);
      status := Respond(m, p, now, draw);
    }

    /** Fails exactly if a due maintenance request does not fit; leaves READY only an allocation that still lives. */
    method Poll(now: nat, refresh: Draw, permission: Draw, bind: Draw) returns (result: PollResult)
      requires Valid()
      modifies this
      ensures Valid() && (inner, result) == old(inner).Poll(cfg, now, refresh, permission, bind)
      ensures Phase(old(inner.state)) <= Phase(inner.state)
      ensures result == Closed <==> old(inner.destroyed)
      ensures result == Failed <==> PollBlocked(old(inner), cfg, now)
      ensures inner.state == Ready ==> BeforeExpiry(inner, now)
      ensures result.Wait? ==> WaitsRightly(inner, now, result.delay)
    {
      hide Inv, Phase, PollBlocked, BeforeExpiry, WaitsRightly, Core.ExpireFrom, Core.DestroyAllocation,
           Core.Maintenance, Core.NextDeadline;
      PollPromises(inner, cfg, now, refresh, permission, bind);
      if inner.destroyed { return Closed; }
      ExpireTransactions(now);
      if !inner.shuttingDown && inner.state == Ready && inner.allocationExpiresAt.Some?
         && now >= inner.allocationExpiresAt.value
      {
        DestroyAllocation(Refresh, RESULT_TIMEOUT, 0);
      }
      if !inner.shuttingDown && inner.state == Ready {
        var ok := Maintain(now, refresh, permission, bind);
        if !ok { return Failed; }
      }
      var deadline := NextDeadline();
      if deadline.None? { return Wait(None); }
      return Wait(Some(Max(deadline.value - now, MILLISECOND)));
    }

    /** Takes the oldest packet; one that does not fit the caller's buffer is reported and gone. */
    method PullControl() returns (r: Result<Option<seq<Byte>>, int>)
      requires Valid()
      modifies this
      ensures Valid()
      ensures r == old(inner).PulledControl()
      ensures inner == old(inner).(controls := if old(inner.controls) == [] then [] else old(inner.controls)[1..])
    {
      PulledInv(cfg, inner);
      hide Inv;
      if inner.controls == [] { return Ok(None); }
      var packet := inner.controls[0];
      inner := inner.(controls := inner.controls[1..]);
      if |packet| > CONTROL_BUFFER { return Err(RESULT_BUFFER_TOO_SMALL); }
      return Ok(Some(packet));
    }

    method PullEvent() returns (event: Option<Event>)
      requires Valid()
      modifies this
      ensures Valid()
      ensures event == (if old(inner.events) == [] then None else Some(old(inner.events)[0]))
      ensures inner == old(inner).(events := if old(inner.events) == [] then [] else old(inner.events)[1..])
    {
      PulledInv(cfg, inner);
      hide Inv;
      if inner.events == [] { return None; }
      event := Some(inner.events[0]);
      inner := inner.(events := inner.events[1..]);
    }

    /** From here on the core is not READY and queues teardown packets only. */
    method GracefulShutdown(draw: Draw) returns (ok: bool)
      requires Valid()
      modifies this
      ensures Valid() && Outcome(inner, ok) == old(inner).GracefulShutdown(cfg, draw)
      ensures Silenced(inner)
      ensures ok && old(inner.state) == Ready ==> inner.state == Deallocating && Sole(inner, Deallocate)
    {
      ShutdownSilent(inner, cfg, draw);
      hide Inv, Silenced, Sole, Core.SetState, Core.StartOperation;
      if inner.destroyed || inner.shuttingDown { return true; }
      inner := inner.(shuttingDown := true);
      inner := inner.(controls := []);
      inner := inner.(channel := None);
      inner := inner.(maintenanceRefresh := None, permissionRetry := None, channelRetry := None, keepalive := None);
      if inner.state == Ready || (inner.state == Destroying && inner.allocationExpiresAt.Some?) {
        inner := inner.(pending := []);
        SetState(Deallocating);
        ok := StartOperation(Deallocate, true, 0, draw);
        return;
      } else if inner.state != Allocating {
        inner := inner.(pending := []);
      }
      return true;
    }

    /** Nothing under way and nothing queued, whatever went before. */
    method ForceDestroy(status: int)
      requires Valid()
      modifies this
      ensures Valid() && inner == old(inner).ForceDestroy(status)
      ensures inner.destroyed && inner.state == Destroying && inner.pending == [] && inner.controls == []
    {
      DestroyedSilent(inner, cfg, status);
      hide Inv, Core.SetState, Core.PushEvent;
      if inner.destroyed { return; }
      inner := inner.(destroyed := true, controls := [], pending := []);
      SetState(Destroying);
      PushEvent(ForcedDestroy(status));
    }

    // ------------------------------------------------------------ internal steps

    method PushEvent(event: Event)
      modifies this
      ensures inner == old(inner).PushEvent(event)
    {
      if |inner.events| == EVENT_CAPACITY {
        inner := inner.(events := inner.events[1..]);
        inner := inner.(events := inner.events + [EventOverflow]);
        return;
      }
      inner := inner.(events := inner.events + [event]);
    }

    method SetState(next: State)
      modifies this
      ensures inner == old(inner).SetState(next)
    {
      hide Core.PushEvent;
      if inner.state == next { return; }
      var previous := inner.state;
      inner := inner.(state := next);
      PushEvent(StateChanged(next, previous));
    }

    method QueuePacket(packet: seq<Byte>)
      modifies this
      ensures inner == old(inner).QueuePacket(packet)
      ensures |old(inner.controls)| <= CONTROL_CAPACITY ==> 0 < |inner.controls| <= CONTROL_CAPACITY
    {
      hide Core.PushEvent;
      if |inner.controls| == CONTROL_CAPACITY {
        inner := inner.(controls := inner.controls[1..]);
        PushEventFrame(inner, ControlOverflow);
        PushEvent(ControlOverflow);
      }
      inner := inner.(controls := inner.controls + [packet]);
    }

    method QueueKeepalive()
      modifies this
      ensures inner == old(inner).QueueKeepalive()
    {
      hide Core.QueuePacket;
      if inner.channel.None? { return; }
      QueuePacket(Be16(inner.channel.value) + Be16(1) + [0xff, 0, 0, 0]);
    }

    method BuildRequest(operation: Operation, transaction: Transaction, authenticated: bool)
      returns (r: Option<seq<Byte>>)
      requires authenticated ==> inner.AuthComplete()
      ensures r == inner.BuildRequest(cfg, operation, transaction, authenticated)
      ensures cfg.Valid() && AuthSized(inner) && r.Some? ==>
                ServerReads(r.value, inner, cfg, operation, transaction, authenticated)
    {
      hide Header, Finished, FinishedAuthenticated, Tlv, Be32, EncodeXorAddress, FieldBytes, Draft, ServerReads;
      var builder := new MessageBuilder.WithTransaction(operation.Method(), transaction);
      DraftEmpty(operation.Method(), transaction);
      ghost var fields := RequestFields(cfg, operation, transaction);
      match operation {
        case Allocate =>
          builder.AddAttribute(ATTR_REQUESTED_TRANSPORT, [17, 0, 0, 0]);
          builder.AddAttribute(ATTR_REQUESTED_ADDRESS_FAMILY, [if cfg.peer.V4? then 1 else 2, 0, 0, 0]);
          builder.AddAttribute(ATTR_LIFETIME, Be32(REQUESTED_ALLOCATION_LIFETIME_SECS));
          DraftThree(operation.Method(), transaction, [], fields[0], fields[1], fields[2]);
          assert [] + [fields[0], fields[1], fields[2]] == fields;
        case Refresh =>
          builder.AddAttribute(ATTR_LIFETIME, Be32(REQUESTED_ALLOCATION_LIFETIME_SECS));
          DraftOne(operation.Method(), transaction, [], fields[0]);
          assert [] + [fields[0]] == fields;
        case Deallocate =>
          builder.AddAttribute(ATTR_LIFETIME, Be32(0));
          DraftOne(operation.Method(), transaction, [], fields[0]);
          assert [] + [fields[0]] == fields;
        case Permission =>
          builder.XorAddress(ATTR_XOR_PEER_ADDRESS, cfg.peer);
          DraftOne(operation.Method(), transaction, [], fields[0]);
          assert [] + [fields[0]] == fields;
        case Channel =>
          builder.AddAttribute(ATTR_CHANNEL_NUMBER, [0x40, 0, 0, 0]);
          builder.XorAddress(ATTR_XOR_PEER_ADDRESS, cfg.peer);
          DraftOne(operation.Method(), transaction, [], fields[0]);
          DraftOne(operation.Method(), transaction, [] + [fields[0]], fields[1]);
          assert [] + [fields[0]] + [fields[1]] == fields;
      }
      if authenticated {
        builder.AddAttribute(ATTR_USERNAME, cfg.username);
        builder.AddAttribute(ATTR_REALM, inner.realm.value);
        builder.AddAttribute(ATTR_NONCE, inner.nonce.value);
        DraftThree(operation.Method(), transaction, fields, Tlv(ATTR_USERNAME, cfg.username),
                   Tlv(ATTR_REALM, inner.realm.value), Tlv(ATTR_NONCE, inner.nonce.value));
        r := builder.FinishAuthenticated(inner.key.value, cfg.prim);
      } else {
        r := builder.Finish(cfg.prim);
      }
      if cfg.Valid() && AuthSized(inner) && r.Some? {
        RequestReads(inner, cfg, operation, transaction, authenticated);
      }
    }

    /** At most one request per operation is under way; a second start succeeds and starts nothing. */
    method StartOperation(operation: Operation, authenticated: bool, nonceRetries: nat, draw: Draw) returns (ok: bool)
      modifies this
      ensures Outcome(inner, ok) == old(inner).StartOperation(cfg, operation, authenticated, nonceRetries, draw)
      ensures ok <==> old(inner).Has(operation)
                      || ((authenticated ==> old(inner).AuthComplete())
                          && Fits(old(inner), cfg, operation, authenticated))
    {
      hide Core.QueuePacket, Core.BuildRequest, Fits;
      if authenticated ==> inner.AuthComplete() {
        StartsExactly(inner, cfg, operation, authenticated, nonceRetries, draw);
      }
      var current := FindPending(inner.pending, operation);
      if current.Some? {
        if operation == Channel { QueuePacket(current.value.packet); }
        return true;
      }
      if authenticated && (inner.realm.None? || inner.nonce.None? || inner.key.None?) { return false; }
      var packet := BuildRequest(operation, draw.transaction, authenticated);
      if packet.None? { return false; }
      QueuedKeeps(inner, packet.value);
      QueuePacket(packet.value);
      var timeout := if cfg.transport == Datagram then INITIAL_RTO else STREAM_TRANSACTION_TIMEOUT;
      var p := Pending(operation, draw.transaction, packet.value, draw.at, draw.at + timeout, INITIAL_RTO, 1,
                       nonceRetries, authenticated);
      inner := inner.(pending := inner.pending + [p]);
      return true;
    }

    method Complete(operation: Operation, status: int, stunCode: int)
      modifies this
      ensures inner == old(inner).Complete(operation, status, stunCode)
    {
      hide Core.PushEvent;
      PushEvent(RequestComplete(operation.Method(), status, stunCode, inner.state,
                                if inner.channel.Some? then inner.channel.value else 0, inner.relay));
    }

    method DestroyAllocation(operation: Operation, status: int, stunCode: int)
      modifies this
      ensures inner == old(inner).DestroyAllocation(operation, status, stunCode)
      ensures inner.pending == [] && inner.controls == [] && inner.channel == None && inner.keepalive == None
      ensures inner.relay == None && inner.allocationExpiresAt == None && inner.state in {Deallocated, Destroying}
    {
      hide Core.Complete, Core.SetState;
      DestroyedFields(inner, operation, status, stunCode);
      Complete(operation, status, stunCode);
      inner := inner.(pending := []);
      inner := inner.(controls := []);
      inner := inner.(channel := None);
      inner := inner.(maintenanceRefresh := None, permissionRetry := None, channelRetry := None, keepalive := None);
      inner := inner.(relay := None, allocationRefresh := None, allocationExpiresAt := None);
      SetState(if operation == Deallocate then Deallocated else Destroying);
    }

    method DestroyAfterRebindExhausted()
      modifies this
      ensures inner == old(inner).DestroyAfterRebindExhausted()
    {
      hide Core.PushEvent, Core.SetState;
      inner := inner.(pending := []);
      inner := inner.(controls := []);
      inner := inner.(channel := None);
      inner := inner.(maintenanceRefresh := None, permissionRetry := None, channelRetry := None, keepalive := None);
      PushEvent(RebindExhausted);
      SetState(Destroying);
    }

    method ScheduleRetry(operation: Operation, now: nat) returns (again: bool)
      modifies this
      ensures Outcome(inner, again) == old(inner).ScheduleRetry(operation, now)
      ensures again <==> operation != Channel || old(inner.channelFailures) < 3
    {
      hide RetryDelay;
      var failures := 0;
      match operation {
        case Refresh =>
          inner := inner.(refreshFailures := Min(inner.refreshFailures + 1, 255));
          failures := inner.refreshFailures;
        case Permission =>
          inner := inner.(permissionFailures := Min(inner.permissionFailures + 1, 255));
          failures := inner.permissionFailures;
        case Channel =>
          inner := inner.(channelFailures := Min(inner.channelFailures + 1, 255));
          failures := inner.channelFailures;
        case Allocate => return true;
        case Deallocate => return true;
      }
      if operation == Channel && failures >= MAX_CHANNEL_MAINTENANCE_FAILURES { return false; }
      var delay := RetryDelay(failures);
      match operation {
        case Refresh => inner := inner.(allocationRefresh := Some(now + delay));
        case Permission => inner := inner.(permissionRetry := Some(now + delay));
        case Channel => inner := inner.(channelRetry := Some(now + delay));
        case Allocate =>
        case Deallocate =>
      }
      return true;
    }

    method CompleteFailure(operation: Operation, status: int, stunCode: int, now: nat)
      modifies this
      ensures inner == old(inner).CompleteFailure(operation, status, stunCode, now)
      ensures Phase(old(inner.state)) <= Phase(inner.state)
      ensures inner.pending == old(inner.pending) || (inner.pending == [] && inner.state != Ready)
    {
      TurnProgress.FailureRetains(inner, operation, status, stunCode, now);
      hide Core.Complete, Core.ScheduleRetry, Core.DestroyAllocation, Core.DestroyAfterRebindExhausted;
      if (operation == Refresh || operation == Permission || operation == Channel) && inner.state == Ready
         && inner.allocationExpiresAt.Some? && now < inner.allocationExpiresAt.value
      {
        Complete(operation, status, stunCode);
        var again := ScheduleRetry(operation, now);
        if again { return; }
        DestroyAfterRebindExhausted();
        return;
      }
      DestroyAllocation(operation, status, stunCode);
    }

    method Take(index: nat)
      requires index < |inner.pending|
      modifies this
      ensures inner == old(inner).Taken(index)
    {
      var transaction := inner.pending[index].transaction;
      inner := inner.(pending := inner.pending[..index] + inner.pending[index + 1..]);
      var kept := Retain(inner.controls, transaction);
      inner := inner.(controls := kept);
    }

    method AllocateSucceeded(m: Message, now: nat, draw: Draw) returns (ok: bool)
      requires Parse(m.raw) == Ok(m)
      modifies this
      ensures Outcome(inner, ok) == old(inner).AllocateSucceeded(cfg, m, now, draw)
    {
      hide Core.Complete, Core.SetState, Core.PushEvent, Core.StartOperation, AllocationRefreshDeadline, Parse, Find,
           DecodeXorAddress, AttributeU32;
      var attribute := FindAttribute(m, ATTR_XOR_RELAYED_ADDRESS);
      if attribute.None? { return false; }
      var address := DecodeXorAddress(attribute.value.value, m.transaction);
      if address.None? { return false; }
      var relayed := address.value;
      if relayed.V4? != cfg.peer.V4? || relayed.port == 0 { return false; }
      var lifetime := AttributeU32(m, ATTR_LIFETIME);
      if GrantedLifetime(lifetime) == 0 { return false; }
      var deadline := AllocationRefreshDeadline(now, lifetime, cfg.profile.allocationRefresh);
      inner := inner.(allocationRefresh := Some(deadline), refreshFailures := 0,
                      allocationExpiresAt := Some(now + Seconds(GrantedLifetime(lifetime))));
      inner := inner.(relay := Some(relayed),
                      maintenanceRefresh := Some(now + cfg.profile.maintenanceRefresh),
                      keepalive := Some(now + cfg.profile.keepaliveInterval));
      PushEventFrame(inner, RelayAddress(relayed));
      PushEvent(RelayAddress(relayed));
      if inner.shuttingDown {
        SetState(Deallocating);
        ok := StartOperation(Deallocate, true, 0, draw);
        return;
      }
      SetState(Ready);
      Complete(Allocate, 0, 0);
      return true;
    }

    method CompleteSuccess(operation: Operation, m: Message, now: nat, draw: Draw) returns (ok: bool)
      requires Parse(m.raw) == Ok(m)
      modifies this
      ensures Outcome(inner, ok) == old(inner).CompleteSuccess(cfg, operation, m, now, draw)
      ensures StateFor(operation, old(inner.state)) ==> Phase(old(inner.state)) <= Phase(inner.state)
      ensures operation != Allocate ==> inner.pending == old(inner.pending) && (!ok ==> inner == old(inner))
    {
      hide Phase, Core.Complete, Core.SetState, Core.PushEvent, Core.AllocateSucceeded, AllocationRefreshDeadline,
           Parse, AttributeU32;
      SuccessPromises(inner, cfg, operation, m, now, draw);
      match operation {
        case Allocate =>
          ok := AllocateSucceeded(m, now, draw);
        case Refresh =>
          var lifetime := AttributeU32(m, ATTR_LIFETIME);
          if GrantedLifetime(lifetime) == 0 { return false; }
          var deadline := AllocationRefreshDeadline(now, lifetime, cfg.profile.allocationRefresh);
          inner := inner.(allocationRefresh := Some(deadline), refreshFailures := 0,
                          allocationExpiresAt := Some(now + Seconds(GrantedLifetime(lifetime))));
          Complete(Refresh, 0, 0);
          return true;
        case Deallocate =>
          var lifetime := AttributeU32(m, ATTR_LIFETIME);
          if lifetime.Some? && lifetime.value != 0 { return false; }
          inner := inner.(relay := None, allocationRefresh := None, allocationExpiresAt := None);
          Complete(Deallocate, 0, 0);
          SetState(Deallocated);
          return true;
        case Permission =>
          inner := inner.(permissionFailures := 0);
          Complete(Permission, 0, 0);
          return true;
        case Channel =>
          inner := inner.(channel := Some(CHANNEL_NUMBER));
          inner := inner.(channelFailures := 0);
          PushEvent(ChannelBound(CHANNEL_NUMBER, cfg.peer));
          Complete(Channel, 0, 0);
          return true;
      }
    }

    method RespondToError(m: Message, p: Pending, now: nat, draw: Draw)
      requires Parse(m.raw) == Ok(m)
      modifies this
      ensures inner == old(inner).ErrorResponse(cfg, m, p, now, draw)
    {
      hide Core.CompleteFailure, Core.DestroyAllocation, Core.PushEvent, Core.StartOperation, Core.AuthComplete,
           Fits, Parse, ErrorCode, RequiresAllocationRecreate, AttributeValue;
      var request := p.operation.Method();
      var code := if ErrorCode(m).Some? then ErrorCode(m).value else 0;
      var before := inner.state;
      if code == 0 {
        PushEvent(ResponseError(request, RESULT_PROTOCOL, 0, before));
        CompleteFailure(p.operation, RESULT_PROTOCOL, 0, now);
        return;
      }
      if RequiresAllocationRecreate(p.operation, code) {
        PushEvent(ResponseError(request, 0, code, before));
        DestroyAllocation(p.operation, RESULT_PROTOCOL, code);
        return;
      }
      var answered := AttributeValue(m, ATTR_REALM);
      if answered.None? && code == 438 { answered := inner.realm; }
      var fresh_ := AttributeValue(m, ATTR_NONCE);
      if (code == 401 || code == 438) && p.nonceRetries < cfg.profile.maxNonceRetries && answered.Some? && fresh_.Some?
      {
        inner := inner.(key := Some(cfg.prim.md5(cfg.username + [58] + answered.value + [58] + cfg.password)));
        inner := inner.(realm := answered);
        inner := inner.(nonce := fresh_);
        var ok := StartOperation(p.operation, true, p.nonceRetries + 1, draw);
        if ok { return; }
      }
      PushEvent(ResponseError(request, 0, code, before));
      CompleteFailure(p.operation, RESULT_PROTOCOL, code, now);
    }

    method Respond(m: Message, p: Pending, now: nat, draw: Draw) returns (status: int)
      requires Parse(m.raw) == Ok(m)
      modifies this
      ensures (inner, status) == old(inner).Response(cfg, m, p, now, draw)
    {
      hide Core.CompleteFailure, Core.CompleteSuccess, Core.ErrorResponse, Parse, ClassOf;
      if ClassOf(m.kind) == Success && !p.authenticated {
        CompleteFailure(p.operation, RESULT_AUTHENTICATION, 0, now);
        return RESULT_AUTHENTICATION;
      }
      if ClassOf(m.kind) == Error {
        RespondToError(m, p, now, draw);
        return 0;
      }
      var ok := CompleteSuccess(p.operation, m, now, draw);
      if !ok {
        CompleteFailure(p.operation, RESULT_PROTOCOL, 0, now);
        return RESULT_PROTOCOL;
      }
      return 0;
    }

    method ExpireTransactions(now: nat)
      modifies this
      ensures inner == old(inner).ExpireFrom(cfg, 0, now)
    {
      hide Core.CompleteFailure, Core.Taken, Core.Retransmitted, Core.QueuePacket;
      var index := 0;
      while index < |inner.pending|
        invariant old(inner).ExpireFrom(cfg, 0, now) == inner.ExpireFrom(cfg, index, now)
        decreases |inner.pending| - index
      {
        ghost var before := inner;
        if now < inner.pending[index].nextAttempt {
          index := index + 1;
          continue;
        }
        if inner.pending[index].transmissions >= MAX_TRANSMISSIONS || cfg.transport == Stream {
          var p := inner.pending[index];
          TakenShrinks(before, index);
          Take(index);
          CompleteFailure(p.operation, RESULT_TIMEOUT, 0, now);
          continue;
        }
        var p := inner.pending[index];
        QueuedKeeps(inner, p.packet);
        QueuePacket(p.packet);
        var rto := Min(2 * p.rto, MAX_RTO);
        inner := inner.(pending := inner.pending[index :=
          p.(transmissions := p.transmissions + 1, rto := rto, nextAttempt := now + rto)]);
        SentAgain(before, index, now);
        index := index + 1;
      }
    }

    /** One maintenance request: its timer is given up and the request started. */
    method StartMaintenance(operation: Operation, draw: Draw) returns (ok: bool)
      requires operation in {Refresh, Permission, Channel}
      modifies this
      ensures Outcome(inner, ok) == old(inner).Maintained(cfg, true, operation, draw)
    {
      hide Core.StartOperation, Core.AuthComplete, Fits;
      if operation == Refresh {
        inner := inner.(allocationRefresh := None);
      } else if operation == Permission {
        inner := inner.(permissionRetry := None);
      } else {
        inner := inner.(channelRetry := None);
      }
      ok := StartOperation(operation, true, 0, draw);
    }

    method Maintain(now: nat, refresh: Draw, permission: Draw, bind: Draw) returns (ok: bool)
      modifies this
      ensures Outcome(inner, ok) == old(inner).Maintenance(cfg, now, refresh, permission, bind)
      ensures forall o: Operation :: TurnProgress.Kept(old(inner), inner, o)
    {
      hide Core.Maintained, Core.KeepaliveTick, FindOperation, Due, TurnProgress.Kept;
      MaintenanceKeepsAll(inner, cfg, now, refresh, permission, bind);
      var maintenanceDue := Due(inner.maintenanceRefresh, now);
      var permissionRetryDue := Due(inner.permissionRetry, now);
      var channelRetryDue := Due(inner.channelRetry, now);
      var underWay := FindPending(inner.pending, Refresh);
      var refreshing := Due(inner.allocationRefresh, now) && underWay.None?;
      Unwanted(inner, cfg, Refresh, refresh);
      if refreshing {
        ok := StartMaintenance(Refresh, refresh);
        if !ok { return; }
      }
      if maintenanceDue { inner := inner.(maintenanceRefresh := Some(now + cfg.profile.maintenanceRefresh)); }
      underWay := FindPending(inner.pending, Permission);
      var permitting := (maintenanceDue || permissionRetryDue) && underWay.None?;
      Unwanted(inner, cfg, Permission, permission);
      if permitting {
        ok := StartMaintenance(Permission, permission);
        if !ok { return; }
      }
      underWay := FindPending(inner.pending, Channel);
      var binding := (maintenanceDue || channelRetryDue) && underWay.None?;
      Unwanted(inner, cfg, Channel, bind);
      if binding {
        ok := StartMaintenance(Channel, bind);
        if !ok { return; }
      }
      TickKeepalive(now, refreshing || permitting || binding);
      return true;
    }

    /** A due keepalive is sent only if no request went out. */
    method TickKeepalive(now: nat, controlStarted: bool)
      modifies this
      ensures inner == old(inner).KeepaliveTick(cfg, now, controlStarted)
    {
      hide Core.QueueKeepalive;
      if Due(inner.keepalive, now) {
        inner := inner.(keepalive := Some(now + cfg.profile.keepaliveInterval));
        if !controlStarted { QueueKeepalive(); }
      }
    }

    method NextDeadline() returns (deadline: Option<nat>)
      ensures deadline == inner.NextDeadline()
      ensures deadline.Some? ==> SomeDeadline(inner, deadline.value)
      ensures forall t: nat :: SomeDeadline(inner, t) ==> deadline.Some? && deadline.value <= t
    {
      DeadlineIsLeast(inner);
      var attempt := EarliestOf(inner.pending);
      var retry := Earlier(inner.permissionRetry, Earlier(inner.channelRetry, inner.keepalive));
      deadline := Earlier(attempt, Earlier(inner.allocationRefresh, Earlier(inner.maintenanceRefresh, retry)));
    }
  }

  // ---------------------------------------------------------------- what the proofs above need

  lemma MaintenanceKeepsAll(c: Core, cfg: Config, now: nat, refresh: Draw, permission: Draw, bind: Draw)
    ensures var r := c.Maintenance(cfg, now, refresh, permission, bind).core;
            forall o: Operation :: TurnProgress.Kept(c, r, o)
  {
    hide Core.Maintenance, TurnProgress.Kept;
    forall o: Operation
      ensures TurnProgress.Kept(c, c.Maintenance(cfg, now, refresh, permission, bind).core, o)
    {
      TurnProgress.MaintenanceKeeps(c, cfg, now, refresh, permission, bind, o);
    }
  }

  lemma SuccessPromises(c: Core, cfg: Config, operation: Operation, m: Message, now: nat, draw: Draw)
    requires Parse(m.raw) == Ok(m)
    ensures var r := c.CompleteSuccess(cfg, operation, m, now, draw);
            && (StateFor(operation, c.state) ==> Phase(c.state) <= Phase(r.core.state))
            && (operation != Allocate ==> r.core.pending == c.pending && (!r.ok ==> r.core == c))
  {
    hide Core.PushEvent, Core.Complete, Core.SetState, Core.AllocateSucceeded, Parse, AttributeU32,
         AllocationRefreshDeadline;
    match operation {
      case Allocate => AllocatePhase(c, cfg, m, now, draw);
      case Refresh => CompleteFrame(c.Granted(cfg, AttributeU32(m, ATTR_LIFETIME), now), Refresh, 0, 0);
      case Deallocate =>
        var a := c.Forgotten();
        CompleteFrame(a, Deallocate, 0, 0);
        SetStateFrame(a.Complete(Deallocate, 0, 0), Deallocated);
      case Permission => CompleteFrame(c.(permissionFailures := 0), Permission, 0, 0);
      case Channel =>
        var a := c.(channel := Some(CHANNEL_NUMBER), channelFailures := 0);
        PushEventFrame(a, ChannelBound(CHANNEL_NUMBER, cfg.peer));
        CompleteFrame(a.PushEvent(ChannelBound(CHANNEL_NUMBER, cfg.peer)), Channel, 0, 0);
    }
  }

  lemma AllocatePhase(c: Core, cfg: Config, m: Message, now: nat, draw: Draw)
    requires Parse(m.raw) == Ok(m)
    ensures Phase(c.AllocateSucceeded(cfg, m, now, draw).core.state) >= Min(Phase(c.state), Phase(Ready))
  {
    hide Core.PushEvent, Core.Complete, Core.SetState, Core.StartOperation, Parse, AttributeValue, AttributeU32,
         DecodeXorAddress, AllocationRefreshDeadline;
    var value := AttributeValue(m, ATTR_XOR_RELAYED_ADDRESS);
    if value.Some? && DecodeXorAddress(value.value, m.transaction).Some? {
      var relay := DecodeXorAddress(value.value, m.transaction).value;
      var a := c.Granted(cfg, AttributeU32(m, ATTR_LIFETIME), now)
        .(relay := Some(relay),
          maintenanceRefresh := Some(now + cfg.profile.maintenanceRefresh),
          keepalive := Some(now + cfg.profile.keepaliveInterval));
      var b := a.PushEvent(RelayAddress(relay));
      SetStateFrame(b, if c.shuttingDown then Deallocating else Ready);
      if c.shuttingDown {
        StartFrame(b.SetState(Deallocating), cfg, Deallocate, true, 0, draw);
      } else {
        CompleteFrame(b.SetState(Ready), Allocate, 0, 0);
      }
    }
  }

  lemma DraftEmpty(kind: U16, transaction: Transaction)
    ensures Draft(kind, transaction, []) == Header(kind, 0, transaction)
  {
  }

  lemma DraftOne(kind: U16, transaction: Transaction, fs: seq<Field>, f: Field)
    ensures Draft(kind, transaction, fs + [f]) == Draft(kind, transaction, fs) + f.Encode()
  {
    hide Header, FieldBytes;
    FieldBytesAppend(fs, f);
    Assoc(Header(kind, 0, transaction), FieldBytes(fs), f.Encode());
  }

  lemma DraftThree(kind: U16, transaction: Transaction, fs: seq<Field>, f: Field, g: Field, h: Field)
    ensures Draft(kind, transaction, fs + [f, g, h]) ==
            Draft(kind, transaction, fs) + f.Encode() + g.Encode() + h.Encode()
  {
    hide Draft;
    DraftOne(kind, transaction, fs, f);
    DraftOne(kind, transaction, fs + [f], g);
    DraftOne(kind, transaction, fs + [f] + [g], h);
    assert fs + [f] + [g] + [h] == fs + [f, g, h];
  }

  lemma QueuedKeeps(c: Core, packet: seq<Byte>)
    ensures var r := c.QueuePacket(packet); r.(controls := c.controls, events := c.events) == c
  {
  }

  lemma TakenShrinks(c: Core, i: nat)
    requires i < |c.pending|
    ensures |c.Taken(i).pending| == |c.pending| - 1
  {
  }

  lemma SentAgain(c: Core, i: nat, now: nat)
    requires i < |c.pending|
    ensures var p, rto := c.pending[i], Min(2 * c.pending[i].rto, MAX_RTO);
            var q := p.(transmissions := p.transmissions + 1, rto := rto, nextAttempt := now + rto);
            && c.Retransmitted(i, now) == c.QueuePacket(p.packet).(pending := c.pending[i := q])
            && |c.Retransmitted(i, now).pending| == |c.pending|
  {
    hide Core.QueuePacket;
  }

  lemma Unwanted(c: Core, cfg: Config, operation: Operation, draw: Draw)
    ensures c.Maintained(cfg, false, operation, draw) == Outcome(c, true)
  {
  }

  lemma DestroyedFields(c: Core, operation: Operation, status: int, code: int)
    ensures var r := c.DestroyAllocation(operation, status, code);
            && r.pending == [] && r.controls == [] && r.channel == None && r.keepalive == None
            && r.relay == None && r.allocationExpiresAt == None && r.state in {Deallocated, Destroying}
  {
    hide Core.Complete, Core.SetState;
    SetStateFrame(c.Complete(operation, status, code).(pending := []).Unbound().Forgotten(),
                  if operation == Deallocate then Deallocated else Destroying);
  }

  lemma StartedAllocation(c: Core, cfg: Config, draw: Draw)
    requires Inv(c, cfg) && cfg.Valid()
    ensures var r := c.StartAllocation(cfg, draw);
            && (r.ok <==> c.Open() && c.state == Null && Fits(c, cfg, Allocate, false))
            && (r.ok ==> r.core.state == Allocating && Sole(r.core, Allocate))
  {
    hide QueueOk, Core.SetState, Core.StartOperation, FindOperation, Fits, RequestKind, Rto, Elapsed;
    if c.Open() && c.state == Null {
      if c.pending != [] && PendingOk(c.pending[0], c.state, c.AuthComplete(), cfg) { assert false; }
      NonePending(Allocate);
      SetStateFrame(c, Allocating);
      var a := c.SetState(Allocating);
      StartsExactly(a, cfg, Allocate, false, 0, draw);
      UnauthenticatedFits(c, a, cfg);
      StartedFresh(a, cfg, Allocate, false, 0, draw);
      StartOperationInv(a, cfg, Allocate, false, 0, draw);
    }
  }

  lemma UnauthenticatedFits(c: Core, r: Core, cfg: Config)
    ensures Fits(c, cfg, Allocate, false) == Fits(r, cfg, Allocate, false)
  {
  }

  lemma StartedWhenReady(c: Core, cfg: Config, operation: Operation, draw: Draw)
    requires Inv(c, cfg) && cfg.Valid() && operation in {Channel, Permission}
    ensures var r := c.StartWhenReady(cfg, operation, draw);
            && (!r.ok ==> r.core == c) && (r.ok ==> r.core.state == Ready && r.core.Has(operation))
            && forall o: Operation :: c.Has(o) ==> FindOperation(r.core.pending, o) == FindOperation(c.pending, o)
  {
    hide Inv, Core.StartOperation, FindOperation;
    StartWhenReadyInv(c, cfg, operation, draw);
    StartFrame(c, cfg, operation, true, 0, draw);
    RefusedUnchanged(c, cfg, operation, draw);
    forall o: Operation
      ensures var r := c.StartOperation(cfg, operation, true, 0, draw).core;
              c.Has(o) ==> FindOperation(r.pending, o) == FindOperation(c.pending, o)
    {
      StartFinds(c, cfg, operation, true, 0, draw, o);
    }
    StartFinds(c, cfg, operation, true, 0, draw, operation);
  }

  lemma RefusedUnchanged(c: Core, cfg: Config, operation: Operation, draw: Draw)
    ensures var r := c.StartOperation(cfg, operation, true, 0, draw); !r.ok ==> r.core == c
  {
    hide Core.QueuePacket, Core.BuildRequest, FindOperation;
  }

  lemma InputPromises(c: Core, cfg: Config, packet: seq<Byte>, now: nat, draw: Draw)
    requires Inv(c, cfg) && cfg.Valid()
    ensures var (r, status) := c.InputStun(cfg, packet, now, draw);
            && Inv(r, cfg) && Phase(c.state) <= Phase(r.state)
            && (status == RESULT_INVALID_ARGUMENT || status == RESULT_NOT_CONTROL ==> r == c)
  {
    hide Inv, Phase, Core.InputStun;
    InputStunInv(c, cfg, packet, now, draw);
    StrayUnchanged(c, cfg, packet, now, draw);
  }

  lemma StrayUnchanged(c: Core, cfg: Config, packet: seq<Byte>, now: nat, draw: Draw)
    ensures var (r, status) := c.InputStun(cfg, packet, now, draw);
            status == RESULT_INVALID_ARGUMENT || status == RESULT_NOT_CONTROL ==> r == c
  {
    hide Parse, ClassOf, MethodOf, Position, FingerprintValid, VerifyIntegrity, RequiresIntegrity,
         FingerprintedAllocationMismatch, ErrorCode, Core.PushEvent, Core.Taken, Core.CompleteFailure,
         Core.CompleteSuccess, Core.ErrorResponse;
  }

  lemma PollPromises(c: Core, cfg: Config, now: nat, refresh: Draw, permission: Draw, bind: Draw)
    requires Inv(c, cfg) && cfg.Valid()
    ensures var (r, result) := c.Poll(cfg, now, refresh, permission, bind);
            && Inv(r, cfg) && Phase(c.state) <= Phase(r.state)
            && (result == Closed <==> c.destroyed) && (result == Failed <==> PollBlocked(c, cfg, now))
            && (r.state == Ready ==> BeforeExpiry(r, now))
            && (result.Wait? ==> WaitsRightly(r, now, result.delay))
  {
    hide Inv, Phase, PollBlocked, BeforeExpiry, WaitsRightly, Core.Poll;
    PollWaits(c, cfg, now, refresh, permission, bind);
    PollInv(c, cfg, now, refresh, permission, bind);
    PollFailsExactly(c, cfg, now, refresh, permission, bind);
    PollLeavesLive(c, cfg, now, refresh, permission, bind);
  }

  lemma PollLeavesLive(c: Core, cfg: Config, now: nat, refresh: Draw, permission: Draw, bind: Draw)
    requires Inv(c, cfg) && cfg.Valid()
    ensures var (r, result) := c.Poll(cfg, now, refresh, permission, bind);
            (result == Closed <==> c.destroyed) && (r.state == Ready ==> BeforeExpiry(r, now))
  {
    hide TableOk, QueueOk, Core.ExpireFrom, Core.DestroyAllocation, Core.Maintenance, Core.NextDeadline;
    if !c.destroyed {
      ExpireInv(c, cfg, 0, now);
      var a := c.ExpireFrom(cfg, 0, now);
      DestroyAllocationInv(a, cfg, Refresh, RESULT_TIMEOUT, 0);
      if a.state == Ready && !Due(a.allocationExpiresAt, now) {
        MaintenanceInv(a, cfg, now, refresh, permission, bind);
      }
    }
  }

  lemma ShutdownSilent(c: Core, cfg: Config, draw: Draw)
    requires Inv(c, cfg) && cfg.Valid()
    ensures var r := c.GracefulShutdown(cfg, draw);
            && Inv(r.core, cfg) && Silenced(r.core)
            && (r.ok && c.state == Ready ==> r.core.state == Deallocating && Sole(r.core, Deallocate))
  {
    hide TableOk, TeardownPacket, Core.SetState, Core.StartOperation, FindOperation;
    GracefulShutdownInv(c, cfg, draw);
    if c.state == Ready {
      var a := c.(shuttingDown := true).Unbound().(pending := []);
      SetStateFrame(a, Deallocating);
      NonePending(Deallocate);
      StartFinds(a.SetState(Deallocating), cfg, Deallocate, true, 0, draw, Deallocate);
      StartedFresh(a.SetState(Deallocating), cfg, Deallocate, true, 0, draw);
      StartFrame(a.SetState(Deallocating), cfg, Deallocate, true, 0, draw);
    }
  }

  lemma DestroyedSilent(c: Core, cfg: Config, status: int)
    requires Inv(c, cfg)
    ensures var r := c.ForceDestroy(status);
            Inv(r, cfg) && r.destroyed && r.state == Destroying && r.pending == [] && r.controls == []
  {
    hide TableOk, QueueOk, Core.ForceDestroy;
    ForceDestroyInv(c, cfg, status);
  }
}
