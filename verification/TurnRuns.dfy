/** What holds over whole runs of the TURN core: any calls, in any order, with any inbound bytes. */
module TurnRuns {
  import opened Bytes
  import opened Stun
  import opened TurnState
  import opened TurnInvariant
  import opened TurnFits
  import opened TurnAlive

  datatype Call =
    | CallStartAllocation(draw: Draw)
    | CallStartChannel(draw: Draw)
    | CallStartPermission(draw: Draw)
    | CallInput(packet: seq<Byte>, now: nat, draw: Draw)
    | CallPoll(now: nat, refresh: Draw, permission: Draw, bind: Draw)
    | CallPullControl
    | CallPullEvent
    | CallShutdown(draw: Draw)
    | CallDestroy(status: int)

  function Step(cfg: Config, c: Core, call: Call): Core {
    match call
    case CallStartAllocation(draw) => c.StartAllocation(cfg, draw).core
    case CallStartChannel(draw) => c.StartWhenReady(cfg, Channel, draw).core
    case CallStartPermission(draw) => c.StartWhenReady(cfg, Permission, draw).core
    case CallInput(packet, now, draw) => c.InputStun(cfg, packet, now, draw).0
    case CallPoll(now, refresh, permission, bind) => c.Poll(cfg, now, refresh, permission, bind).0
    case CallPullControl => c.(controls := if c.controls == [] then [] else c.controls[1..])
    case CallPullEvent => c.(events := if c.events == [] then [] else c.events[1..])
    case CallShutdown(draw) => c.GracefulShutdown(cfg, draw).core
    case CallDestroy(status) => c.ForceDestroy(status)
  }

  function Run(cfg: Config, c: Core, calls: seq<Call>): Core
    decreases |calls|
  {
    if calls == [] then c else Run(cfg, Step(cfg, c, calls[0]), calls[1..])
  }

  lemma PulledInv(cfg: Config, c: Core)
    requires Inv(c, cfg)
    ensures Inv(Step(cfg, c, CallPullControl), cfg) && Inv(Step(cfg, c, CallPullEvent), cfg)
  {
    hide TableOk, TeardownPacket;
  }

  /** One call keeps the invariant, never turns back, and never undoes a teardown. */
  lemma StepInv(cfg: Config, c: Core, call: Call)
    requires Inv(c, cfg) && cfg.Valid()
    ensures var r := Step(cfg, c, call);
            && Inv(r, cfg) && Phase(c.state) <= Phase(r.state)
            && (c.shuttingDown ==> r.shuttingDown) && (c.destroyed ==> r.destroyed)
  {
    hide Inv, Core.StartAllocation, Core.StartWhenReady, Core.InputStun, Core.Poll, Core.ForceDestroy;
    match call {
      case CallStartAllocation(draw) => StartAllocationInv(c, cfg, draw);
      case CallStartChannel(draw) => StartWhenReadyInv(c, cfg, Channel, draw);
      case CallStartPermission(draw) => StartWhenReadyInv(c, cfg, Permission, draw);
      case CallInput(packet, now, draw) => InputStunInv(c, cfg, packet, now, draw);
      case CallPoll(now, refresh, permission, bind) => PollInv(c, cfg, now, refresh, permission, bind);
      case CallPullControl => PulledInv(cfg, c);
      case CallPullEvent => PulledInv(cfg, c);
      case CallShutdown(draw) => GracefulShutdownInv(c, cfg, draw);
      case CallDestroy(status) => ForceDestroyInv(c, cfg, status);
    }
  }

  lemma {:induction false} RunInv(cfg: Config, c: Core, calls: seq<Call>)
    requires Inv(c, cfg) && cfg.Valid()
    ensures var r := Run(cfg, c, calls);
            && Inv(r, cfg) && Phase(c.state) <= Phase(r.state)
            && (c.shuttingDown ==> r.shuttingDown) && (c.destroyed ==> r.destroyed)
    decreases |calls|
  {
    hide Inv, Step, Phase;
    if calls != [] {
      StepInv(cfg, c, calls[0]);
      RunInv(cfg, Step(cfg, c, calls[0]), calls[1..]);
    }
  }

  /** Every reachable state satisfies the invariant. */
  lemma ReachableInv(cfg: Config, calls: seq<Call>)
    requires cfg.Valid()
    ensures Inv(Run(cfg, Initial(), calls), cfg)
  {
    hide Run;
    InitialInv(cfg);
    RunInv(cfg, Initial(), calls);
  }

  /** READY is one unbroken stretch of a run: once left it is never entered again. */
  lemma ReadyEnteredOnce(cfg: Config, before: seq<Call>, c: Core, between: seq<Call>, d: Core, after: seq<Call>)
    requires cfg.Valid() && c == Run(cfg, Initial(), before) && d == Run(cfg, c, between)
    requires c.state == Ready && Run(cfg, d, after).state == Ready
    ensures d.state == Ready
  {
    hide Inv, Step, Run;
    ReachableInv(cfg, before);
    RunInv(cfg, c, between);
    RunInv(cfg, d, after);
  }

  // ---------------------------------------------------------------- teardown

  /** What a core may still be and send once shutdown has begun. */
  predicate Silenced(r: Core) {
    && r.state != Ready
    && (r.destroyed || r.shuttingDown)
    && forall i | 0 <= i < |r.controls| :: TeardownPacket(r.controls[i])
  }

  /** After shutdown has begun, on every continuation, only Allocate and zero-lifetime Refresh requests are queued. */
  lemma ShutdownSilences(cfg: Config, before: seq<Call>, c: Core, draw: Draw, after: seq<Call>)
    requires cfg.Valid() && c == Run(cfg, Initial(), before)
    ensures Silenced(Run(cfg, c.GracefulShutdown(cfg, draw).core, after))
  {
    hide Run, TableOk, TeardownPacket, Core.GracefulShutdown;
    ReachableInv(cfg, before);
    GracefulShutdownInv(c, cfg, draw);
    RunInv(cfg, c.GracefulShutdown(cfg, draw).core, after);
  }

  /** An Allocate that succeeds after shutdown began is given straight back with a zero-lifetime Refresh. */
  lemma LateAllocateIsReturned(c: Core, cfg: Config, m: Message, now: nat, draw: Draw)
    requires Inv(c, cfg) && cfg.Valid() && Answerable(c, Allocate) && c.AuthComplete() && Parse(m.raw) == Ok(m)
    requires c.shuttingDown
    ensures var r := c.AllocateSucceeded(cfg, m, now, draw);
            r.ok ==>
              && r.core.state == Deallocating
              && |r.core.pending| == 1 && r.core.pending[0].operation == Deallocate
              && r.core.controls != []
              && RequestKind(r.core.controls[|r.core.controls| - 1]) == Some(Deallocate)
  {
    hide QueueOk, Core.PushEvent, Core.SetState, Core.StartOperation, Parse, RequestKind, Rto, Elapsed,
         AttributeValue, AttributeU32, DecodeXorAddress, AllocationRefreshDeadline;
    OnlyOne(c.pending, c.state, c.AuthComplete(), cfg, Allocate);
    var value := AttributeValue(m, ATTR_XOR_RELAYED_ADDRESS);
    if value.Some? {
      var address, lifetime := DecodeXorAddress(value.value, m.transaction), AttributeU32(m, ATTR_LIFETIME);
      if address.Some? {
        var a := c.Granted(cfg, lifetime, now)
          .(relay := Some(address.value),
            maintenanceRefresh := Some(now + cfg.profile.maintenanceRefresh),
            keepalive := Some(now + cfg.profile.keepaliveInterval));
        PushEventFrame(a, RelayAddress(address.value));
        var b := a.PushEvent(RelayAddress(address.value));
        SetStateFrame(b, Deallocating);
        StartOperationInv(b.SetState(Deallocating), cfg, Deallocate, true, 0, draw);
        StartedFresh(b.SetState(Deallocating), cfg, Deallocate, true, 0, draw);
        var r := b.SetState(Deallocating).StartOperation(cfg, Deallocate, true, 0, draw);
        if r.ok { assert PendingOk(r.core.pending[0], r.core.state, r.core.AuthComplete(), cfg); }
      }
    }
  }

  /** After `force_destroy`, on every continuation, nothing is pending and nothing is queued. */
  lemma DestroyedStaysSilent(cfg: Config, before: seq<Call>, c: Core, status: int, after: seq<Call>)
    requires cfg.Valid() && c == Run(cfg, Initial(), before)
    ensures var r := Run(cfg, c.ForceDestroy(status), after);
            r.destroyed && r.state == Destroying && r.pending == [] && r.controls == []
  {
    hide Run, TableOk, QueueOk, Core.ForceDestroy;
    ReachableInv(cfg, before);
    ForceDestroyInv(c, cfg, status);
    RunInv(cfg, c.ForceDestroy(status), after);
  }

  // ---------------------------------------------------------------- timers

  function Clock(call: Call): Option<nat> {
    match call
    case CallInput(_, now, _) => Some(now)
    case CallPoll(now, _, _, _) => Some(now)
    case _ => None
  }

  /** The clock never runs backwards from `t`. */
  predicate Clocked(calls: seq<Call>, t: nat)
    decreases |calls|
  {
    calls != [] ==>
      match Clock(calls[0])
      case Some(now) => t <= now && Clocked(calls[1..], now)
      case None => Clocked(calls[1..], t)
  }

  predicate KeepaliveBy(c: Core, cfg: Config, t: nat) {
    c.keepalive.Some? ==> c.keepalive.value <= KeepaliveLimit(cfg, t)
  }

  lemma StepKeepalive(cfg: Config, c: Core, call: Call, t: nat)
    requires Inv(c, cfg) && cfg.Valid() && KeepaliveBy(c, cfg, t)
    requires Clock(call).Some? ==> t <= Clock(call).value
    ensures KeepaliveBy(Step(cfg, c, call), cfg, if Clock(call).Some? then Clock(call).value else t)
  {
    hide Inv, Core.StartAllocation, Core.StartWhenReady, Core.InputStun, Core.Poll;
    match call {
      case CallStartAllocation(draw) => StartAllocationInv(c, cfg, draw);
      case CallStartChannel(draw) => StartWhenReadyInv(c, cfg, Channel, draw);
      case CallStartPermission(draw) => StartWhenReadyInv(c, cfg, Permission, draw);
      case CallInput(packet, now, draw) => InputStunInv(c, cfg, packet, now, draw);
      case CallPoll(now, refresh, permission, bind) => PollInv(c, cfg, now, refresh, permission, bind);
      case CallPullControl =>
      case CallPullEvent =>
      case CallShutdown(draw) => ShutdownKeepalive(cfg, c, draw);
      case CallDestroy(status) => DestroyKeepalive(c, status);
    }
  }

  lemma ShutdownKeepalive(cfg: Config, c: Core, draw: Draw)
    requires Inv(c, cfg) && cfg.Valid()
    ensures var r := c.GracefulShutdown(cfg, draw).core; r.keepalive == None || r.keepalive == c.keepalive
  {
    hide RequestKind, Rto, Elapsed, Core.SetState, Core.StartOperation;
    var a := c.(shuttingDown := true).Unbound().(pending := []);
    SetStateFrame(a, Deallocating);
    if c.Open() && (c.state == Ready || (c.state == Destroying && c.allocationExpiresAt.Some?)) {
      StartOperationInv(a.SetState(Deallocating), cfg, Deallocate, true, 0, draw);
    }
  }

  lemma DestroyKeepalive(c: Core, status: int)
    ensures c.ForceDestroy(status).keepalive == c.keepalive
  {
    hide Core.SetState, Core.PushEvent;
    var a := c.(destroyed := true, controls := [], pending := []);
    SetStateFrame(a, Destroying);
    PushEventFrame(a.SetState(Destroying), ForcedDestroy(status));
  }

  /** The last clock reading of a run, or `t` if it had none. */
  function LastClock(calls: seq<Call>, t: nat): nat
    decreases |calls|
  {
    if calls == [] then t
    else LastClock(calls[1..], if Clock(calls[0]).Some? then Clock(calls[0]).value else t)
  }

  lemma {:induction false} RunKeepalive(cfg: Config, c: Core, calls: seq<Call>, t: nat)
    requires Inv(c, cfg) && cfg.Valid() && KeepaliveBy(c, cfg, t) && Clocked(calls, t)
    ensures KeepaliveBy(Run(cfg, c, calls), cfg, LastClock(calls, t))
    decreases |calls|
  {
    hide Inv, Step, KeepaliveBy, Clock;
    if calls != [] {
      StepInv(cfg, c, calls[0]);
      StepKeepalive(cfg, c, calls[0], t);
      RunKeepalive(cfg, Step(cfg, c, calls[0]), calls[1..], if Clock(calls[0]).Some? then Clock(calls[0]).value else t);
    }
  }

  /** A poll that leaves the core READY came before expiry and asks for the next within the keepalive interval. */
  predicate PollOnTime(cfg: Config, now: nat, r: Core, result: PollResult) {
    r.state == Ready ==>
      && BeforeExpiry(r, now)
      && result.Wait? && result.delay.Some? && MILLISECOND <= result.delay.value <= cfg.profile.keepaliveInterval
  }

  predicate BeforeExpiry(r: Core, now: nat) {
    r.allocationExpiresAt.Some? && now < r.allocationExpiresAt.value
  }

  lemma DeadlineByKeepalive(c: Core)
    requires c.keepalive.Some?
    ensures c.NextDeadline().Some? && c.NextDeadline().value <= c.keepalive.value
  {
    hide EarliestAttempt, Earlier;
  }

  lemma PollReady(cfg: Config, c: Core, now: nat, refresh: Draw, permission: Draw, bind: Draw)
    requires Inv(c, cfg) && cfg.Valid() && KeepaliveBy(c, cfg, now) && cfg.profile.keepaliveInterval >= MILLISECOND
    ensures var (r, result) := c.Poll(cfg, now, refresh, permission, bind);
            if result == Failed then r.state == Ready && BeforeExpiry(r, now) else PollOnTime(cfg, now, r, result)
  {
    hide TableOk, QueueOk, Core.ExpireFrom, Core.DestroyAllocation, Core.Maintenance, Core.NextDeadline;
    PollInv(c, cfg, now, refresh, permission, bind);
    var r := c.Poll(cfg, now, refresh, permission, bind).0;
    if !c.destroyed {
      ExpireInv(c, cfg, 0, now);
      var a := c.ExpireFrom(cfg, 0, now);
      DestroyAllocationInv(a, cfg, Refresh, RESULT_TIMEOUT, 0);
      if a.state == Ready && !Due(a.allocationExpiresAt, now) {
        MaintenanceInv(a, cfg, now, refresh, permission, bind);
        DeadlineByKeepalive(r);
      }
    }
  }

  /**
   Every run with a forward clock, any profile, any inbound bytes: a poll fails exactly if a due maintenance
   request does not fit, and then still before expiry; every other poll is on time.
   */
  lemma PollsOnTimeExactly(cfg: Config, calls: seq<Call>, now: nat, refresh: Draw, permission: Draw, bind: Draw)
    requires cfg.Valid() && cfg.profile.keepaliveInterval >= MILLISECOND
    requires Clocked(calls, 0) && LastClock(calls, 0) <= now
    ensures var c := Run(cfg, Initial(), calls);
            var (r, result) := c.Poll(cfg, now, refresh, permission, bind);
            if PollBlocked(c, cfg, now) then result == Failed && r.state == Ready && BeforeExpiry(r, now)
            else result != Failed && PollOnTime(cfg, now, r, result)
  {
    hide Inv, Step, Run, Core.Poll, PollOnTime, PollBlocked;
    InitialInv(cfg);
    ReachableInv(cfg, calls);
    RunKeepalive(cfg, Initial(), calls, 0);
    PollFailsExactly(Run(cfg, Initial(), calls), cfg, now, refresh, permission, bind);
    PollReady(cfg, Run(cfg, Initial(), calls), now, refresh, permission, bind);
  }

  // ---------------------------------------------------------------- inbound packets a stream lets through

  predicate Small(call: Call) {
    call.CallInput? ==> |call.packet| <= INBOUND
  }

  predicate AllSmall(calls: seq<Call>) {
    forall i | 0 <= i < |calls| :: Small(calls[i])
  }

  lemma PulledFits(cfg: Config, c: Core)
    requires FitInv(c, cfg)
    ensures FitInv(Step(cfg, c, CallPullControl), cfg) && FitInv(Step(cfg, c, CallPullEvent), cfg)
  {
    hide Inv, FindOperation;
    PulledInv(cfg, c);
  }

  lemma StepFits(cfg: Config, c: Core, call: Call)
    requires FitInv(c, cfg) && cfg.Valid() && Small(call)
    ensures FitInv(Step(cfg, c, call), cfg)
  {
    hide FitInv, Core.StartAllocation, Core.StartWhenReady, Core.InputStun, Core.Poll, Core.ForceDestroy,
         Core.GracefulShutdown;
    match call {
      case CallStartAllocation(draw) => StartAllocationAlive(c, cfg, draw);
      case CallStartChannel(draw) => StartWhenReadyAlive(c, cfg, Channel, draw);
      case CallStartPermission(draw) => StartWhenReadyAlive(c, cfg, Permission, draw);
      case CallInput(packet, now, draw) => InputAlive(c, cfg, packet, now, draw);
      case CallPoll(now, refresh, permission, bind) => PollAlive(c, cfg, now, refresh, permission, bind);
      case CallPullControl => PulledFits(cfg, c);
      case CallPullEvent => PulledFits(cfg, c);
      case CallShutdown(draw) => ShutdownAlive(c, cfg, draw);
      case CallDestroy(status) => DestroyedAlive(c, cfg, status);
    }
  }

  lemma {:induction false} RunFits(cfg: Config, c: Core, calls: seq<Call>)
    requires FitInv(c, cfg) && cfg.Valid() && AllSmall(calls)
    ensures FitInv(Run(cfg, c, calls), cfg)
    decreases |calls|
  {
    hide FitInv, Step, Small;
    if calls != [] {
      StepFits(cfg, c, calls[0]);
      RunFits(cfg, Step(cfg, c, calls[0]), calls[1..]);
    }
  }

  lemma InitialFits(cfg: Config)
    ensures FitInv(Initial(), cfg)
  {
    InitialInv(cfg);
  }

  /**
   In every state such a run reaches nothing is left waiting: ALLOCATING and DEALLOCATING have their one
   request under way, and READY has its refresh scheduled or under way.
   */
  lemma ReachableAlive(cfg: Config, calls: seq<Call>)
    requires cfg.Valid() && AllSmall(calls)
    ensures var c := Run(cfg, Initial(), calls);
            && FitInv(c, cfg)
            && (c.state == Ready ==> c.allocationRefresh.Some? || c.Has(Refresh))
            && (c.state == Allocating ==> Sole(c, Allocate))
            && (c.state == Deallocating ==> Sole(c, Deallocate))
  {
    hide Run, AllSmall, FindOperation, PendingOk, QueueOk;
    InitialFits(cfg);
    RunFits(cfg, Initial(), calls);
    var c := Run(cfg, Initial(), calls);
    if c.state == Allocating { HasIsSole(c, cfg, Allocate); }
    if c.state == Deallocating { HasIsSole(c, cfg, Deallocate); }
  }

  /** The one request under way in `c` is for `operation`. */
  predicate Sole(c: Core, operation: Operation) {
    |c.pending| == 1 && c.pending[0].operation == operation
  }

  lemma HasIsSole(c: Core, cfg: Config, operation: Operation)
    requires Inv(c, cfg) && c.Has(operation) && operation in {Allocate, Deallocate}
    ensures Sole(c, operation)
  {
    hide QueueOk, RequestKind, Rto, Elapsed, FindOperation;
    var p := FindOperation(c.pending, operation).value;
    var k :| 0 <= k < |c.pending| && c.pending[k] == p;
    assert PendingOk(c.pending[k], c.state, c.AuthComplete(), cfg);
    var j := if k == 0 then |c.pending| - 1 else 0;
    if j != k && PendingOk(c.pending[j], c.state, c.AuthComplete(), cfg) {
      assert false;
    }
  }

  /** No call of such a run fails for want of space: only the guards on the state decide. */
  lemma NothingFails(cfg: Config, calls: seq<Call>, draw: Draw, now: nat, refresh: Draw, permission: Draw, bind: Draw)
    requires cfg.Valid() && AllSmall(calls)
    ensures var c := Run(cfg, Initial(), calls);
            && (c.StartAllocation(cfg, draw).ok <==> c.Open() && c.state == Null)
            && (c.StartWhenReady(cfg, Channel, draw).ok <==> c.Open() && c.state == Ready)
            && (c.StartWhenReady(cfg, Permission, draw).ok <==> c.Open() && c.state == Ready)
            && c.Poll(cfg, now, refresh, permission, bind).1 != Failed
            && c.GracefulShutdown(cfg, draw).ok
  {
    hide FitInv, Run, AllSmall, Core.StartAllocation, Core.StartWhenReady, Core.Poll, Core.GracefulShutdown;
    InitialFits(cfg);
    RunFits(cfg, Initial(), calls);
    var c := Run(cfg, Initial(), calls);
    StartAllocationAlive(c, cfg, draw);
    StartWhenReadyAlive(c, cfg, Channel, draw);
    StartWhenReadyAlive(c, cfg, Permission, draw);
    PollAlive(c, cfg, now, refresh, permission, bind);
    ShutdownAlive(c, cfg, draw);
  }

  /** Polling on time, over every such run with a forward clock and any profile. */
  lemma PollsOnTime(cfg: Config, calls: seq<Call>, now: nat, refresh: Draw, permission: Draw, bind: Draw)
    requires cfg.Valid() && cfg.profile.keepaliveInterval >= MILLISECOND
    requires Clocked(calls, 0) && LastClock(calls, 0) <= now && AllSmall(calls)
    ensures var (r, result) := Run(cfg, Initial(), calls).Poll(cfg, now, refresh, permission, bind);
            result != Failed && PollOnTime(cfg, now, r, result)
  {
    hide FitInv, Step, Run, Core.Poll, PollOnTime, PollBlocked, AllSmall;
    InitialFits(cfg);
    RunFits(cfg, Initial(), calls);
    PollAlive(Run(cfg, Initial(), calls), cfg, now, refresh, permission, bind);
    PollsOnTimeExactly(cfg, calls, now, refresh, permission, bind);
  }

  /** With the default profile a READY core asks to be polled again after between 1 ms and 10 s. */
  lemma DefaultProfileDelay(cfg: Config, calls: seq<Call>, now: nat, refresh: Draw, permission: Draw, bind: Draw)
    requires cfg.Valid() && cfg.profile == PJNATH_COMPAT
    requires Clocked(calls, 0) && LastClock(calls, 0) <= now && AllSmall(calls)
    ensures var (r, result) := Run(cfg, Initial(), calls).Poll(cfg, now, refresh, permission, bind);
            r.state == Ready ==>
              result.Wait? && result.delay.Some? && 1_000_000 <= result.delay.value <= 10_000_000_000
  {
    hide Run, Core.Poll, AllSmall, Clocked, LastClock;
    PollsOnTime(cfg, calls, now, refresh, permission, bind);
  }

  // ---------------------------------------------------------------- refreshing in time

  /** The next refresh is due by half the granted lifetime, and before expiry. */
  predicate RefreshInTime(r: Core, lifetime: U32, now: nat) {
    && r.allocationExpiresAt == Some(now + Seconds(lifetime))
    && r.allocationRefresh.Some?
    && now < r.allocationRefresh.value <= now + Seconds(lifetime) / 2
    && r.allocationRefresh.value < now + Seconds(lifetime)
  }

  /** The refresh deadline lies within the lifetime whatever interval is configured. */
  lemma DeadlineInTime(now: nat, lifetime: Option<U32>, interval: nat)
    requires GrantedLifetime(lifetime) != 0
    ensures var d, l := AllocationRefreshDeadline(now, lifetime, interval), Seconds(GrantedLifetime(lifetime));
            now < d <= now + l / 2 && d < now + l
  {
  }

  /** Every successful Refresh schedules the next one in time. */
  lemma RefreshBeforeExpiry(c: Core, cfg: Config, m: Message, now: nat, draw: Draw)
    requires Parse(m.raw) == Ok(m)
    ensures var r := c.CompleteSuccess(cfg, Refresh, m, now, draw);
            r.ok ==> RefreshInTime(r.core, GrantedLifetime(AttributeU32(m, ATTR_LIFETIME)), now)
  {
    hide Core.Complete, Parse, AttributeU32, AllocationRefreshDeadline, Seconds;
    if GrantedLifetime(AttributeU32(m, ATTR_LIFETIME)) != 0 {
      DeadlineInTime(now, AttributeU32(m, ATTR_LIFETIME), cfg.profile.allocationRefresh);
    }
    CompleteFrame(c.Granted(cfg, AttributeU32(m, ATTR_LIFETIME), now), Refresh, 0, 0);
  }

  /** So does every successful Allocate, whether it leads to READY or straight to DEALLOCATING. */
  lemma AllocateRefreshesBeforeExpiry(c: Core, cfg: Config, m: Message, now: nat, draw: Draw)
    requires Inv(c, cfg) && cfg.Valid() && Answerable(c, Allocate) && c.AuthComplete() && Parse(m.raw) == Ok(m)
    ensures var r := c.CompleteSuccess(cfg, Allocate, m, now, draw);
            r.ok ==> RefreshInTime(r.core, GrantedLifetime(AttributeU32(m, ATTR_LIFETIME)), now)
  {
    hide QueueOk, Core.PushEvent, Core.Complete, Core.SetState, Core.StartOperation, Parse, RequestKind, Rto,
         Elapsed, AttributeValue, AttributeU32, DecodeXorAddress, AllocationRefreshDeadline, Seconds;
    OnlyOne(c.pending, c.state, c.AuthComplete(), cfg, Allocate);
    if GrantedLifetime(AttributeU32(m, ATTR_LIFETIME)) != 0 {
      DeadlineInTime(now, AttributeU32(m, ATTR_LIFETIME), cfg.profile.allocationRefresh);
    }
    var value := AttributeValue(m, ATTR_XOR_RELAYED_ADDRESS);
    if value.Some? && DecodeXorAddress(value.value, m.transaction).Some? {
      var relay := DecodeXorAddress(value.value, m.transaction).value;
      var a := c.Granted(cfg, AttributeU32(m, ATTR_LIFETIME), now)
        .(relay := Some(relay),
          maintenanceRefresh := Some(now + cfg.profile.maintenanceRefresh),
          keepalive := Some(now + cfg.profile.keepaliveInterval));
      PushEventFrame(a, RelayAddress(relay));
      var b := a.PushEvent(RelayAddress(relay));
      SetStateFrame(b, if c.shuttingDown then Deallocating else Ready);
      if c.shuttingDown {
        StartOperationInv(b.SetState(Deallocating), cfg, Deallocate, true, 0, draw);
      } else {
        CompleteFrame(b.SetState(Ready), Allocate, 0, 0);
      }
    }
  }
}
