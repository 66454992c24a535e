/** Which timers outlive READY, and what they make of the polls that follow. */
module TurnTimers {
  import opened Bytes
  import opened Stun
  import opened TurnState
  import opened TurnInvariant
  import opened TurnAlive
  import opened TurnRuns
  import opened TurnRetries
  import opened TurnProgress

  /** The timers that only the maintenance of a READY core ever moves on. */
  function Leftover(c: Core): Option<nat> {
    Earlier(c.allocationRefresh,
            Earlier(c.maintenanceRefresh, Earlier(c.permissionRetry, Earlier(c.channelRetry, c.keepalive))))
  }

  predicate NoRetries(c: Core) { c.permissionRetry == None && c.channelRetry == None }

  predicate NoUpkeep(c: Core) { NoRetries(c) && c.maintenanceRefresh == None && c.keepalive == None }

  /** What may be set outside READY. Only a late Allocate leaves the upkeep of its allocation set. */
  predicate TimersOk(c: Core) {
    match c.state
    case Null => NoUpkeep(c) && c.allocationRefresh == None
    case Allocating => NoUpkeep(c) && c.allocationRefresh == None
    case Ready => true
    case Deallocating => NoRetries(c) && (c.keepalive.Some? <==> c.maintenanceRefresh.Some?)
    case Deallocated =>
      NoRetries(c) && c.allocationRefresh == None && (c.keepalive.Some? <==> c.maintenanceRefresh.Some?)
    case Destroying =>
      c.destroyed || (NoUpkeep(c) && (c.allocationRefresh.Some? ==> c.allocationExpiresAt.Some?))
  }

  /** Past READY no keepalive is scheduled that was not before. */
  predicate NoneNew(c: Core, r: Core) {
    Phase(c.state) > Phase(Ready) && c.keepalive == None ==> Phase(r.state) > Phase(Ready) && r.keepalive == None
  }

  predicate Timed(c: Core, r: Core) { TimersOk(r) && NoneNew(c, r) }

  // ---------------------------------------------------------------- one step

  lemma SameTimers(c: Core, r: Core)
    requires SameBut(c, r) && TimersOk(c)
    ensures Timed(c, r)
  {
  }

  lemma TimedTrans(a: Core, b: Core, c: Core)
    requires Timed(a, b) && Timed(b, c)
    ensures Timed(a, c)
  {
    hide TimersOk, Phase;
  }

  lemma DestroyTimers(c: Core, operation: Operation, status: int, code: int)
    ensures var r := c.DestroyAllocation(operation, status, code); Timed(c, r) && Leftover(r) == None
  {
    hide Core.Complete, Core.SetState;
    SetStateFrame(c.Complete(operation, status, code).(pending := []).Unbound().Forgotten(),
                  if operation == Deallocate then Deallocated else Destroying);
  }

  lemma RebindTimers(c: Core)
    requires c.allocationExpiresAt.Some? && c.state == Ready
    ensures var r := c.DestroyAfterRebindExhausted();
            Timed(c, r) && r.state == Destroying && Leftover(r) == c.allocationRefresh
  {
    hide Core.SetState, Core.PushEvent;
    var e := c.(pending := []).Unbound();
    PushEventFrame(e, RebindExhausted);
    SetStateFrame(e.PushEvent(RebindExhausted), Destroying);
  }

  lemma RetryTimers(c: Core, operation: Operation, status: int, code: int, now: nat)
    requires c.state == Ready && c.allocationExpiresAt.Some?
    ensures var r := c.Complete(operation, status, code).ScheduleRetry(operation, now).core;
            r.state == Ready && r.allocationExpiresAt.Some? && Timed(c, r)
  {
    hide Core.Complete, RetryDelay;
    CompleteFrame(c, operation, status, code);
  }

  lemma FailureTimers(c: Core, operation: Operation, status: int, code: int, now: nat)
    ensures Timed(c, c.CompleteFailure(operation, status, code, now))
  {
    hide Timed, Core.Complete, Core.ScheduleRetry, Core.DestroyAllocation, Core.DestroyAfterRebindExhausted;
    DestroyTimers(c, operation, status, code);
    if c.state == Ready && c.allocationExpiresAt.Some? {
      RetryTimers(c, operation, status, code, now);
      var r := c.Complete(operation, status, code).ScheduleRetry(operation, now).core;
      RebindTimers(r);
      TimedTrans(c, r, r.DestroyAfterRebindExhausted());
    }
  }

  lemma AllocateTimers(c: Core, cfg: Config, m: Message, now: nat, draw: Draw)
    requires Parse(m.raw) == Ok(m) && c.state == Allocating && TimersOk(c)
    ensures Timed(c, c.AllocateSucceeded(cfg, m, now, draw).core)
  {
    hide Core.PushEvent, Core.Complete, Core.SetState, Core.StartOperation, Parse, AttributeValue, AttributeU32,
         DecodeXorAddress, AllocationRefreshDeadline;
    var value := AttributeValue(m, ATTR_XOR_RELAYED_ADDRESS);
    if value.Some? && DecodeXorAddress(value.value, m.transaction).Some? {
      var relay := DecodeXorAddress(value.value, m.transaction).value;
      var a := c.Granted(cfg, AttributeU32(m, ATTR_LIFETIME), now)
        .(relay := Some(relay),
          maintenanceRefresh := Some(now + cfg.profile.maintenanceRefresh),
          keepalive := Some(now + cfg.profile.keepaliveInterval));
      PushEventFrame(a, RelayAddress(relay));
      var b := a.PushEvent(RelayAddress(relay));
      SetStateFrame(b, if c.shuttingDown then Deallocating else Ready);
      if c.shuttingDown {
        StartFrame(b.SetState(Deallocating), cfg, Deallocate, true, 0, draw);
      } else {
        CompleteFrame(b.SetState(Ready), Allocate, 0, 0);
      }
    }
  }

  lemma SuccessTimers(c: Core, cfg: Config, operation: Operation, m: Message, now: nat, draw: Draw)
    requires Parse(m.raw) == Ok(m) && StateFor(operation, c.state) && TimersOk(c)
    ensures var r := c.CompleteSuccess(cfg, operation, m, now, draw);
            && Timed(c, r.core)
            && (r.ok && operation == Deallocate ==> r.core.state == Deallocated && r.core.keepalive == c.keepalive)
  {
    hide Core.PushEvent, Core.Complete, Core.SetState, Core.AllocateSucceeded, Parse, AttributeU32,
         AllocationRefreshDeadline;
    match operation {
      case Allocate => AllocateTimers(c, cfg, m, now, draw);
      case Refresh => CompleteFrame(c.Granted(cfg, AttributeU32(m, ATTR_LIFETIME), now), Refresh, 0, 0);
      case Deallocate =>
        var a := c.Forgotten();
        CompleteFrame(a, Deallocate, 0, 0);
        SetStateFrame(a.Complete(Deallocate, 0, 0), Deallocated);
      case Permission => CompleteFrame(c.(permissionFailures := 0), Permission, 0, 0);
      case Channel =>
        var a := c.(channel := Some(CHANNEL_NUMBER), channelFailures := 0);
        PushEventFrame(a, ChannelBound(CHANNEL_NUMBER, cfg.peer));
        CompleteFrame(a.PushEvent(ChannelBound(CHANNEL_NUMBER, cfg.peer)), Channel, 0, 0);
    }
  }

  lemma AuthRetryTimers(c: Core, cfg: Config, m: Message, p: Pending, code: nat, draw: Draw)
    requires Parse(m.raw) == Ok(m) && TimersOk(c)
    ensures Timed(c, c.AuthRetry(cfg, m, p, code, draw).core)
  {
    hide Core.StartOperation, Parse, AttributeValue;
    var realm := if AttributeValue(m, ATTR_REALM).Some? then AttributeValue(m, ATTR_REALM)
                 else if code == 438 then c.realm else None;
    var nonce := AttributeValue(m, ATTR_NONCE);
    if realm.Some? && nonce.Some? {
      StartFrame(c.SetAuth(cfg, realm.value, nonce.value), cfg, p.operation, true, p.nonceRetries + 1, draw);
    }
  }

  lemma EventTimers(c: Core, event: Event)
    requires TimersOk(c)
    ensures Timed(c, c.PushEvent(event))
  {
    hide Core.PushEvent;
    PushEventFrame(c, event);
  }

  lemma ErrorTimers(c: Core, cfg: Config, m: Message, p: Pending, now: nat, draw: Draw)
    requires Parse(m.raw) == Ok(m) && TimersOk(c)
    ensures Timed(c, c.ErrorResponse(cfg, m, p, now, draw))
  {
    hide TimersOk, NoneNew, Core.PushEvent, Core.CompleteFailure, Core.DestroyAllocation, Core.AuthRetry, Parse,
         ErrorCode, RequiresAllocationRecreate;
    var code := if ErrorCode(m).Some? then ErrorCode(m).value else 0;
    var event := ResponseError(p.operation.Method(), if code == 0 then RESULT_PROTOCOL else 0, code, c.state);
    EventTimers(c, event);
    var e := c.PushEvent(event);
    FailureTimers(e, p.operation, RESULT_PROTOCOL, 0, now);
    TimedTrans(c, e, e.CompleteFailure(p.operation, RESULT_PROTOCOL, 0, now));
    DestroyTimers(e, p.operation, RESULT_PROTOCOL, code);
    TimedTrans(c, e, e.DestroyAllocation(p.operation, RESULT_PROTOCOL, code));
    AuthRetryTimers(c, cfg, m, p, code, draw);
    var retry := c.AuthRetry(cfg, m, p, code, draw).core;
    EventTimers(retry, event);
    var f := retry.PushEvent(event);
    TimedTrans(c, retry, f);
    FailureTimers(f, p.operation, RESULT_PROTOCOL, code, now);
    TimedTrans(c, f, f.CompleteFailure(p.operation, RESULT_PROTOCOL, code, now));
  }

  lemma ResponseTimers(c: Core, cfg: Config, m: Message, p: Pending, now: nat, draw: Draw)
    requires Parse(m.raw) == Ok(m) && StateFor(p.operation, c.state) && TimersOk(c)
    ensures Timed(c, c.Response(cfg, m, p, now, draw).0)
  {
    hide TimersOk, NoneNew, Core.CompleteFailure, Core.CompleteSuccess, Core.ErrorResponse, Parse, ClassOf;
    ErrorTimers(c, cfg, m, p, now, draw);
    FailureTimers(c, p.operation, RESULT_AUTHENTICATION, 0, now);
    SuccessTimers(c, cfg, p.operation, m, now, draw);
    var done := c.CompleteSuccess(cfg, p.operation, m, now, draw).core;
    FailureTimers(done, p.operation, RESULT_PROTOCOL, 0, now);
    TimedTrans(c, done, done.CompleteFailure(p.operation, RESULT_PROTOCOL, 0, now));
  }

  lemma InputTimers(c: Core, cfg: Config, packet: seq<Byte>, now: nat, draw: Draw)
    requires Inv(c, cfg) && TimersOk(c)
    ensures Timed(c, c.InputStun(cfg, packet, now, draw).0)
  {
    hide Inv, TimersOk, Core.PushEvent, Core.Response, Core.Taken, Parse, ClassOf, MethodOf, Position,
         FingerprintValid, VerifyIntegrity, RequiresIntegrity, FingerprintedAllocationMismatch, ErrorCode;
    if Parse(packet).Ok? {
      var m := Parse(packet).value;
      var found := Position(c.pending, m.transaction, MethodOf(m.kind));
      if found.Some? {
        var p := c.pending[found.value];
        var taken := c.Taken(found.value);
        TakenInv(c, cfg, found.value);
        SameTimers(c, taken);
        ResponseTimers(taken, cfg, m, p, now, draw);
        TimedTrans(c, taken, taken.Response(cfg, m, p, now, draw).0);
        if ErrorCode(m).Some? {
          EventTimers(c, ResponseError(MethodOf(m.kind), RESULT_AUTHENTICATION, ErrorCode(m).value, c.state));
        }
      }
    }
  }

  lemma {:induction false} ExpireTimers(c: Core, cfg: Config, i: nat, now: nat)
    requires Inv(c, cfg) && TimersOk(c)
    ensures Timed(c, c.ExpireFrom(cfg, i, now))
    decreases |c.pending| - i
  {
    hide Inv, TimersOk, Core.CompleteFailure, Core.Taken, Core.Retransmitted;
    if i < |c.pending| {
      var p := c.pending[i];
      if now < p.nextAttempt {
        ExpireTimers(c, cfg, i + 1, now);
      } else if p.transmissions >= MAX_TRANSMISSIONS || cfg.transport == Stream {
        TakenInv(c, cfg, i);
        var taken := c.Taken(i);
        SameTimers(c, taken);
        CompleteFailureInv(taken, cfg, p.operation, RESULT_TIMEOUT, 0, now);
        FailureTimers(taken, p.operation, RESULT_TIMEOUT, 0, now);
        var failed := taken.CompleteFailure(p.operation, RESULT_TIMEOUT, 0, now);
        TimedTrans(c, taken, failed);
        ExpireTimers(failed, cfg, i, now);
        TimedTrans(c, failed, failed.ExpireFrom(cfg, i, now));
      } else {
        RetransmittedInv(c, cfg, i, now);
        var sent := c.Retransmitted(i, now);
        SameTimers(c, sent);
        ExpireTimers(sent, cfg, i + 1, now);
        TimedTrans(c, sent, sent.ExpireFrom(cfg, i + 1, now));
      }
    }
  }

  lemma PollTimers(c: Core, cfg: Config, now: nat, refresh: Draw, permission: Draw, bind: Draw)
    requires Inv(c, cfg) && cfg.Valid() && TimersOk(c)
    ensures Timed(c, c.Poll(cfg, now, refresh, permission, bind).0)
  {
    hide TableOk, QueueOk, TimersOk, Core.ExpireFrom, Core.DestroyAllocation, Core.Maintenance, Core.NextDeadline;
    ExpireTimers(c, cfg, 0, now);
    var a := c.ExpireFrom(cfg, 0, now);
    DestroyTimers(a, Refresh, RESULT_TIMEOUT, 0);
    TimedTrans(c, a, a.DestroyAllocation(Refresh, RESULT_TIMEOUT, 0));
    if !c.destroyed {
      ExpireInv(c, cfg, 0, now);
      if a.state == Ready {
        DestroyAllocationInv(a, cfg, Refresh, RESULT_TIMEOUT, 0);
        MaintenanceInv(a, cfg, now, refresh, permission, bind);
        ReadyTimers(a, a.Maintenance(cfg, now, refresh, permission, bind).core);
        TimedTrans(c, a, a.Maintenance(cfg, now, refresh, permission, bind).core);
      }
    }
  }

  lemma ReadyTimers(c: Core, r: Core)
    requires c.state == Ready && r.state == Ready
    ensures Timed(c, r)
  {
  }

  lemma StartTimers(c: Core, cfg: Config, draw: Draw)
    requires TimersOk(c)
    ensures Timed(c, c.StartAllocation(cfg, draw).core)
    ensures Timed(c, c.StartWhenReady(cfg, Channel, draw).core)
    ensures Timed(c, c.StartWhenReady(cfg, Permission, draw).core)
  {
    hide Core.SetState, Core.StartOperation;
    SetStateFrame(c, Allocating);
    StartFrame(c.SetState(Allocating), cfg, Allocate, false, 0, draw);
    StartFrame(c, cfg, Channel, true, 0, draw);
    StartFrame(c, cfg, Permission, true, 0, draw);
  }

  lemma ShutdownTimers(c: Core, cfg: Config, draw: Draw)
    requires TimersOk(c)
    ensures var r := c.GracefulShutdown(cfg, draw).core;
            Timed(c, r) && (c.Open() && c.state != Allocating ==> r.keepalive == None)
  {
    hide Core.SetState, Core.StartOperation;
    var a := c.(shuttingDown := true).Unbound().(pending := []);
    SetStateFrame(a, Deallocating);
    StartFrame(a.SetState(Deallocating), cfg, Deallocate, true, 0, draw);
  }

  lemma DestroyedTimers(c: Core, status: int)
    requires TimersOk(c)
    ensures Timed(c, c.ForceDestroy(status))
  {
    hide Core.SetState, Core.PushEvent;
    var a := c.(destroyed := true, controls := [], pending := []);
    SetStateFrame(a, Destroying);
    PushEventFrame(a.SetState(Destroying), ForcedDestroy(status));
  }

  lemma StepTimers(cfg: Config, c: Core, call: Call)
    requires Inv(c, cfg) && cfg.Valid() && TimersOk(c)
    ensures Timed(c, Step(cfg, c, call))
  {
    hide Inv, Timed, TimersOk, Core.StartAllocation, Core.StartWhenReady, Core.InputStun, Core.Poll,
         Core.ForceDestroy, Core.GracefulShutdown;
    match call {
      case CallStartAllocation(draw) => StartTimers(c, cfg, draw);
      case CallStartChannel(draw) => StartTimers(c, cfg, draw);
      case CallStartPermission(draw) => StartTimers(c, cfg, draw);
      case CallInput(packet, now, draw) => InputTimers(c, cfg, packet, now, draw);
      case CallPoll(now, refresh, permission, bind) => PollTimers(c, cfg, now, refresh, permission, bind);
      case CallPullControl => SameTimers(c, Step(cfg, c, call));
      case CallPullEvent => SameTimers(c, Step(cfg, c, call));
      case CallShutdown(draw) => ShutdownTimers(c, cfg, draw);
      case CallDestroy(status) => DestroyedTimers(c, status);
    }
  }

  // ---------------------------------------------------------------- whole runs

  lemma {:induction false} RunTimers(cfg: Config, c: Core, calls: seq<Call>)
    requires Inv(c, cfg) && cfg.Valid() && TimersOk(c)
    ensures Timed(c, Run(cfg, c, calls))
    decreases |calls|
  {
    hide Inv, TimersOk, Step, Phase;
    if calls != [] {
      var s := Step(cfg, c, calls[0]);
      StepInv(cfg, c, calls[0]);
      StepTimers(cfg, c, calls[0]);
      RunTimers(cfg, s, calls[1..]);
      TimedTrans(c, s, Run(cfg, s, calls[1..]));
    }
  }

  /** Which timers may be set, in every reachable state. */
  lemma ReachableTimers(cfg: Config, calls: seq<Call>)
    requires cfg.Valid()
    ensures TimersOk(Run(cfg, Initial(), calls))
  {
    hide Inv, Run, Step;
    InitialInv(cfg);
    RunTimers(cfg, Initial(), calls);
  }

  /** Shutdown that need not wait for an Allocate leaves no keepalive, none comes back, and DEALLOCATED is quiet. */
  lemma ShutdownClears(cfg: Config, before: seq<Call>, c: Core, draw: Draw, after: seq<Call>)
    requires cfg.Valid() && c == Run(cfg, Initial(), before) && c.Open() && c.state != Null && c.state != Allocating
    ensures var r := Run(cfg, c.GracefulShutdown(cfg, draw).core, after);
            r.keepalive == None && (r.state == Deallocated ==> Leftover(r) == None)
  {
    hide TableOk, QueueOk, Run, Core.GracefulShutdown;
    ReachableInv(cfg, before);
    ReachableTimers(cfg, before);
    GracefulShutdownInv(c, cfg, draw);
    ShutdownTimers(c, cfg, draw);
    var s := c.GracefulShutdown(cfg, draw).core;
    RunTimers(cfg, s, after);
  }

  /** Nothing is under way and READY is past: DEALLOCATED, or DESTROYING without having been destroyed. */
  predicate Idle(c: Core) {
    c.state in {Deallocated, Destroying} && !c.destroyed
  }

  /** A call that neither starts a teardown nor destroys the core. */
  predicate Quiet(c: Core, call: Call) {
    !call.CallDestroy? && (call.CallShutdown? ==> c.shuttingDown)
  }

  predicate AllQuiet(c: Core, calls: seq<Call>) {
    forall i | 0 <= i < |calls| :: Quiet(c, calls[i])
  }

  /** `r` differs from `c` at most in what has been queued or pulled. */
  lemma IdleStays(cfg: Config, c: Core, call: Call)
    requires Inv(c, cfg) && cfg.Valid() && Idle(c) && Quiet(c, call)
    ensures var r := Step(cfg, c, call); SameBut(c, r) && r.pending == c.pending == []
  {
    hide TableOk, QueueOk, Core.SetState, Core.StartOperation, Core.PushEvent, Core.Response, Core.NextDeadline;
    SettledIsIdle(cfg, c);
  }

  lemma {:induction false} IdleRuns(cfg: Config, c: Core, calls: seq<Call>)
    requires Inv(c, cfg) && cfg.Valid() && Idle(c) && AllQuiet(c, calls)
    ensures var r := Run(cfg, c, calls); SameBut(c, r) && r.pending == c.pending == []
    decreases |calls|
  {
    hide Inv, Step;
    SettledIsIdle(cfg, c);
    if calls != [] {
      StepInv(cfg, c, calls[0]);
      IdleStays(cfg, c, calls[0]);
      var s := Step(cfg, c, calls[0]);
      forall i | 0 <= i < |calls[1..]| ensures Quiet(s, calls[1..][i]) {
        assert Quiet(c, calls[i + 1]);
      }
      IdleRuns(cfg, s, calls[1..]);
    }
  }

  /** The wait a poll reports when only `deadline` is left. */
  function WaitFor(deadline: Option<nat>, now: nat): PollResult {
    match deadline
    case None => Wait(None)
    case Some(t) => Wait(Some(Max(t - now, MILLISECOND)))
  }

  lemma IdlePoll(cfg: Config, c: Core, now: nat, refresh: Draw, permission: Draw, bind: Draw)
    requires Idle(c) && c.pending == []
    ensures c.Poll(cfg, now, refresh, permission, bind) == (c, WaitFor(Leftover(c), now))
  {
    hide Core.Maintenance, Core.DestroyAllocation;
  }

  /**
   Outside READY with nothing under way, no poll moves a timer on, however often it is called. So a poll
   reports 1 ms exactly if a timer left over is at most that far away or past, and from then on every poll
   does. The timers left over are, in DEALLOCATED, those of an allocation granted after shutdown began, and in
   DESTROYING the refresh of an allocation given up with its channel.
   */
  lemma IdlePollsExactly(cfg: Config, before: seq<Call>, c: Core, calls: seq<Call>, now: nat, refresh: Draw,
                         permission: Draw, bind: Draw)
    requires cfg.Valid() && c == Run(cfg, Initial(), before) && Idle(c) && AllQuiet(c, calls)
    ensures var d := Run(cfg, c, calls);
            var (r, result) := d.Poll(cfg, now, refresh, permission, bind);
            && r == d && result == WaitFor(Leftover(c), now)
            && (result == Wait(Some(MILLISECOND)) <==> Leftover(c).Some? && Leftover(c).value <= now + MILLISECOND)
    ensures c.state == Deallocated ==> Leftover(c) == Earlier(c.maintenanceRefresh, c.keepalive)
    ensures c.state == Destroying ==> Leftover(c) == c.allocationRefresh
  {
    hide Inv, Run, Core.Poll, AllQuiet;
    ReachableInv(cfg, before);
    ReachableTimers(cfg, before);
    IdleRuns(cfg, c, calls);
    IdlePoll(cfg, Run(cfg, c, calls), now, refresh, permission, bind);
  }

  /** While one request is waited for: a poll that finds it neither about to be due nor out of tries. */
  predicate Waits(cfg: Config, c: Core, now: nat) {
    && c.state in {Allocating, Deallocating} && |c.pending| == 1
    && !TimesOut(cfg, c.pending[0], now) && !(now < c.pending[0].nextAttempt <= now + MILLISECOND)
  }

  lemma ResentLater(c: Core, cfg: Config, now: nat)
    requires Inv(c, cfg) && |c.pending| == 1
    ensures Resent(c.pending[0], now).nextAttempt > now + MILLISECOND
  {
    hide RequestKind, Elapsed, QueueOk, FieldsOk;
    assert PendingOk(c.pending[0], c.state, c.AuthComplete(), cfg);
    RtoAtLeast(c.pending[0].transmissions);
  }

  lemma NothingEarlier(t: nat)
    ensures Earlier(Some(t), None) == Some(t)
  {
  }

  lemma SoleDeadline(c: Core)
    requires |c.pending| == 1
    ensures c.NextDeadline() == Earlier(Some(c.pending[0].nextAttempt), Leftover(c))
  {
    hide Earlier;
    assert EarliestAttempt(c.pending) == Earlier(Some(c.pending[0].nextAttempt), EarliestAttempt([])) by {
      assert c.pending[1..] == [];
    }
    NothingEarlier(c.pending[0].nextAttempt);
  }

  /** Then too a poll reports 1 ms exactly if a timer left over is at most 1 ms away or past; in ALLOCATING none is. */
  lemma WaitingPollsExactly(cfg: Config, before: seq<Call>, c: Core, now: nat, refresh: Draw, permission: Draw,
                            bind: Draw)
    requires cfg.Valid() && c == Run(cfg, Initial(), before) && Waits(cfg, c, now)
    ensures var result := c.Poll(cfg, now, refresh, permission, bind).1;
            result == Wait(Some(MILLISECOND)) <==> Leftover(c).Some? && Leftover(c).value <= now + MILLISECOND
    ensures c.state == Allocating ==> Leftover(c) == None
  {
    hide TableOk, QueueOk, Run, Resent, Core.ExpireFrom, Core.Retransmitted, Core.DestroyAllocation,
         Core.Maintenance, Core.NextDeadline;
    ReachableInv(cfg, before);
    ReachableTimers(cfg, before);
    SoleSweep(c, cfg, now);
    ResentLater(c, cfg, now);
    if now >= c.pending[0].nextAttempt { RetransmittedInv(c, cfg, 0, now); }
    SoleDeadline(c.ExpireFrom(cfg, 0, now));
  }

  /** An allocation granted after shutdown began and then given back leaves its keepalive set in DEALLOCATED. */
  lemma LateReturnLeaves(c: Core, cfg: Config, granted: Message, now: nat, draw: Draw, returned: Message,
                         later: nat, other: Draw)
    requires Inv(c, cfg) && cfg.Valid() && Answerable(c, Allocate) && c.AuthComplete() && c.shuttingDown && TimersOk(c)
    requires Parse(granted.raw) == Ok(granted) && Parse(returned.raw) == Ok(returned)
    ensures var g := c.AllocateSucceeded(cfg, granted, now, draw);
            var r := g.core.CompleteSuccess(cfg, Deallocate, returned, later, other);
            g.ok && r.ok ==>
              && r.core.state == Deallocated
              && r.core.keepalive == Some(now + cfg.profile.keepaliveInterval)
              && r.core.maintenanceRefresh.Some?
  {
    hide Inv, Parse, Core.AllocateSucceeded, Core.CompleteSuccess;
    AllocateTimers(c, cfg, granted, now, draw);
    LateKeepalive(c, cfg, granted, now, draw);
    var g := c.AllocateSucceeded(cfg, granted, now, draw);
    if g.ok { SuccessTimers(g.core, cfg, Deallocate, returned, later, other); }
  }

  lemma LateKeepalive(c: Core, cfg: Config, m: Message, now: nat, draw: Draw)
    requires Parse(m.raw) == Ok(m) && c.shuttingDown
    ensures var r := c.AllocateSucceeded(cfg, m, now, draw);
            r.ok ==> r.core.state == Deallocating && r.core.keepalive == Some(now + cfg.profile.keepaliveInterval)
  {
    hide Core.PushEvent, Core.SetState, Core.StartOperation, Parse, AttributeValue, AttributeU32, DecodeXorAddress,
         AllocationRefreshDeadline;
    var value := AttributeValue(m, ATTR_XOR_RELAYED_ADDRESS);
    if value.Some? && DecodeXorAddress(value.value, m.transaction).Some? {
      var relay := DecodeXorAddress(value.value, m.transaction).value;
      var a := c.Granted(cfg, AttributeU32(m, ATTR_LIFETIME), now)
        .(relay := Some(relay),
          maintenanceRefresh := Some(now + cfg.profile.maintenanceRefresh),
          keepalive := Some(now + cfg.profile.keepaliveInterval));
      PushEventFrame(a, RelayAddress(relay));
      var b := a.PushEvent(RelayAddress(relay));
      SetStateFrame(b, Deallocating);
      StartFrame(b.SetState(Deallocating), cfg, Deallocate, true, 0, draw);
    }
  }
}
