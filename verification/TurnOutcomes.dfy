/**
 How a request ends, said outright: every field it changes, every timer it sets, and every event it reports, with
 the numbers of the protocol written out.
 */
module TurnOutcomes {
  import opened Bytes
  import opened Stun
  import opened TurnState
  import opened TurnInvariant
  import opened TurnFits
  import opened TurnRequests

  // ---------------------------------------------------------------- events

  /** The event queue with one event reported: at 64 the oldest goes, and a mark of the loss comes instead. */
  function Logged(queue: seq<Event>, event: Event): seq<Event> {
    if |queue| == 64 then queue[1..] + [EventOverflow] else queue + [event]
  }

  function Logs(queue: seq<Event>, events: seq<Event>): seq<Event>
    decreases |events|
  {
    if events == [] then queue else Logs(Logged(queue, events[0]), events[1..])
  }

  lemma {:induction false} LogsOn(queue: seq<Event>, first: seq<Event>, then_: seq<Event>)
    ensures Logs(queue, first + then_) == Logs(Logs(queue, first), then_)
    decreases |first|
  {
    hide Logged;
    if first == [] {
      assert first + then_ == then_;
    } else {
      assert (first + then_)[0] == first[0] && (first + then_)[1..] == first[1..] + then_;
      LogsOn(Logged(queue, first[0]), first[1..], then_);
    }
  }

  lemma LogsOne(queue: seq<Event>, event: Event)
    ensures Logs(queue, [event]) == Logged(queue, event)
  {
    assert [event][1..] == [];
  }

  lemma Pushed(c: Core, event: Event)
    ensures c.PushEvent(event) == c.(events := Logged(c.events, event))
  {
  }

  /** A change of state is reported with the state left; staying in a state is not. */
  function Changed(from: State, to: State): seq<Event> { if from == to then [] else [StateChanged(to, from)] }

  lemma StateSet(c: Core, to: State)
    ensures c.SetState(to) == c.(state := to, events := Logs(c.events, Changed(c.state, to)))
  {
    hide Core.PushEvent, Logged;
    Pushed(c.(state := to), StateChanged(to, c.state));
    LogsOne(c.events, StateChanged(to, c.state));
  }

  /** The report of a request's end: its number, how it ended, and what state, channel and relay it found. */
  function Report(c: Core, operation: Operation, status: int, code: int): Event {
    RequestComplete(KindOf(operation), status, code, c.state, if c.channel.Some? then c.channel.value else 0, c.relay)
  }

  lemma Reported(c: Core, operation: Operation, status: int, code: int)
    ensures c.Complete(operation, status, code) == c.(events := Logged(c.events, Report(c, operation, status, code)))
  {
    hide Core.PushEvent, Logged;
    Pushed(c, Report(c, operation, status, code));
    KindIs(operation);
  }

  lemma KindIs(operation: Operation)
    ensures operation.Method() == KindOf(operation)
  {
  }

  // ---------------------------------------------------------------- the end of an allocation

  /** Nothing queued, nothing under way, no channel, and none of the timers that keep an allocation up. */
  function Bare(c: Core): Core {
    c.(controls := [], pending := [], channel := None, maintenanceRefresh := None, permissionRetry := None,
       channelRetry := None, keepalive := None)
  }

  /** Where a request leaves the core when it takes the allocation with it. */
  function FinalState(operation: Operation): State { if operation == Deallocate then Deallocated else Destroying }

  /** The allocation is gone, and so are its address and its times. */
  function Gone(c: Core, operation: Operation, status: int, code: int): Core {
    Bare(c).(relay := None, allocationRefresh := None, allocationExpiresAt := None, state := FinalState(operation),
             events := Logs(c.events, [Report(c, operation, status, code)] + Changed(c.state, FinalState(operation))))
  }

  lemma DestroysExactly(c: Core, operation: Operation, status: int, code: int)
    ensures c.DestroyAllocation(operation, status, code) == Gone(c, operation, status, code)
  {
    hide Core.Complete, Core.SetState, Logs, Report;
    Reported(c, operation, status, code);
    var d := c.Complete(operation, status, code).(pending := []).Unbound().Forgotten();
    StateSet(d, FinalState(operation));
    LogsOne(c.events, Report(c, operation, status, code));
    LogsOn(c.events, [Report(c, operation, status, code)], Changed(c.state, FinalState(operation)));
  }

  /** Seconds until a request that failed so many times before is tried again. */
  function Backoff(failures: nat): nat {
    match failures
    case 0 => 1
    case 1 => 2
    case 2 => 4
    case 3 => 8
    case 4 => 16
    case _ => 30
  }

  lemma BackoffIs(failures: nat)
    ensures RetryDelay(Min(failures + 1, 255)) == Backoff(failures) * 1_000_000_000
  {
    assert Pow2(1) == 2 && Pow2(2) == 4 && Pow2(3) == 8 && Pow2(4) == 16 && Pow2(5) == 32;
    var k := Min(Max(Min(failures + 1, 255) - 1, 0), 5);
    assert k == 0 || k == 1 || k == 2 || k == 3 || k == 4 || k == 5;
  }

  /** The allocation outlives the failure of one of the requests that keep it up. */
  predicate LivesOn(c: Core, operation: Operation, now: nat) {
    && (operation == Refresh || operation == Permission || operation == Channel)
    && c.state == Ready && c.allocationExpiresAt.Some? && now < c.allocationExpiresAt.value
  }

  /** The request is counted as failed and scheduled again, and nothing else changes. */
  function TriedAgain(c: Core, operation: Operation, status: int, code: int, now: nat): Core {
    var d := c.(events := Logs(c.events, [Report(c, operation, status, code)]));
    match operation
    case Refresh =>
      d.(refreshFailures := Min(c.refreshFailures + 1, 255),
         allocationRefresh := Some(now + Backoff(c.refreshFailures) * 1_000_000_000))
    case Permission =>
      d.(permissionFailures := Min(c.permissionFailures + 1, 255),
         permissionRetry := Some(now + Backoff(c.permissionFailures) * 1_000_000_000))
    case _ =>
      d.(channelFailures := Min(c.channelFailures + 1, 255),
         channelRetry := Some(now + Backoff(c.channelFailures) * 1_000_000_000))
  }

  /** The channel cannot be bound: the core gives up, but keeps relay and expiry so that shutdown can return them. */
  function GivenUp(c: Core, status: int, code: int): Core {
    Bare(c).(channelFailures := Min(c.channelFailures + 1, 255), state := Destroying,
             events := Logs(c.events, [Report(c, Channel, status, code), RebindExhausted]
                                      + Changed(c.state, Destroying)))
  }

  lemma RebindExactly(c: Core)
    ensures c.DestroyAfterRebindExhausted()
            == Bare(c).(state := Destroying, events := Logs(c.events, [RebindExhausted] + Changed(c.state, Destroying)))
  {
    hide Core.PushEvent, Core.SetState, Logs;
    var e := c.(pending := []).Unbound();
    Pushed(e, RebindExhausted);
    StateSet(e.PushEvent(RebindExhausted), Destroying);
    LogsOne(c.events, RebindExhausted);
    LogsOn(c.events, [RebindExhausted], Changed(c.state, Destroying));
  }

  /** A failure, told apart: tried again, given up at the fourth bind in a row, or the end of the allocation. */
  function FailedTo(c: Core, operation: Operation, status: int, code: int, now: nat): Core {
    if !LivesOn(c, operation, now) then Gone(c, operation, status, code)
    else if operation == Channel && c.channelFailures >= 3 then GivenUp(c, status, code)
    else TriedAgain(c, operation, status, code, now)
  }

  lemma FailsExactly(c: Core, operation: Operation, status: int, code: int, now: nat)
    ensures c.CompleteFailure(operation, status, code, now) == FailedTo(c, operation, status, code, now)
  {
    hide Core.Complete, Core.DestroyAllocation, Core.DestroyAfterRebindExhausted, Logs, Report, RetryDelay, Backoff,
         Gone;
    DestroysExactly(c, operation, status, code);
    if LivesOn(c, operation, now) {
      Reported(c, operation, status, code);
      LogsOne(c.events, Report(c, operation, status, code));
      BackoffIs(c.refreshFailures);
      BackoffIs(c.permissionFailures);
      BackoffIs(c.channelFailures);
      if operation == Channel && c.channelFailures >= 3 {
        var d := c.Complete(Channel, status, code).(channelFailures := Min(c.channelFailures + 1, 255));
        RebindExactly(d);
        LogsOn(c.events, [Report(c, Channel, status, code)], [RebindExhausted] + Changed(c.state, Destroying));
        assert [Report(c, Channel, status, code)] + ([RebindExhausted] + Changed(c.state, Destroying))
               == [Report(c, Channel, status, code), RebindExhausted] + Changed(c.state, Destroying);
      }
    }
  }

  // ---------------------------------------------------------------- success

  /** The times a granted lifetime sets, in nanoseconds: the end, and when to refresh. */
  function Timed(c: Core, cfg: Config, lifetime: U32, now: nat): Core {
    var whole := lifetime as nat * 1_000_000_000;
    var half := lifetime as nat * 500_000_000;
    var wait := if cfg.profile.allocationRefresh < half then cfg.profile.allocationRefresh else half;
    c.(allocationExpiresAt := Some(now + whole), refreshFailures := 0,
       allocationRefresh := Some(now + if wait < 500_000_000 then 500_000_000 else wait))
  }

  lemma GrantsExactly(c: Core, cfg: Config, lifetime: Option<U32>, now: nat)
    ensures c.Granted(cfg, lifetime, now) == Timed(c, cfg, if lifetime.Some? then lifetime.value else 600, now)
  {
  }

  /** With the default profile a refresh comes after 300 seconds or half the lifetime, whichever is sooner. */
  lemma DefaultRefresh(c: Core, cfg: Config, lifetime: U32, now: nat)
    requires cfg.profile == PJNATH_COMPAT && lifetime != 0
    ensures Timed(c, cfg, lifetime, now).allocationRefresh
            == Some(now + if lifetime < 600 then lifetime as nat * 500_000_000 else 300_000_000_000)
  {
  }

  /** What the success of a request other than an Allocate makes of the core; None if the answer contradicts it. */
  function Succeeded(c: Core, cfg: Config, operation: Operation, lifetime: Option<U32>, now: nat): Option<Core> {
    match operation
    case Refresh =>
      if lifetime == Some(0) then None
      else
        var d := Timed(c, cfg, if lifetime.Some? then lifetime.value else 600, now);
        Some(d.(events := Logs(c.events, [Report(d, Refresh, 0, 0)])))
    case Deallocate =>
      if lifetime.Some? && lifetime.value != 0 then None
      else
        var d := c.(relay := None, allocationRefresh := None, allocationExpiresAt := None);
        Some(d.(state := Deallocated,
                events := Logs(c.events, [Report(d, Deallocate, 0, 0)] + Changed(c.state, Deallocated))))
    case Permission => Some(c.(permissionFailures := 0, events := Logs(c.events, [Report(c, Permission, 0, 0)])))
    case _ =>
      var d := c.(channel := Some(0x4000), channelFailures := 0);
      Some(d.(events := Logs(c.events, [ChannelBound(0x4000, cfg.peer), Report(d, Channel, 0, 0)])))
  }

  lemma SucceedsExactly(c: Core, cfg: Config, operation: Operation, m: Message, now: nat, draw: Draw)
    requires Parse(m.raw) == Ok(m) && operation != Allocate
    ensures var s := Succeeded(c, cfg, operation, AttributeU32(m, 0x000d), now);
            c.CompleteSuccess(cfg, operation, m, now, draw)
            == if s.Some? then Outcome(s.value, true) else Outcome(c, false)
  {
    hide Core.PushEvent, Core.Complete, Core.SetState, Core.Granted, Parse, AttributeU32, Logs, Report, Timed;
    var lifetime := AttributeU32(m, 0x000d);
    GrantsExactly(c, cfg, lifetime, now);
    match operation {
      case Refresh =>
        var d := c.Granted(cfg, lifetime, now);
        Reported(d, Refresh, 0, 0);
        LogsOne(c.events, Report(d, Refresh, 0, 0));
        TimedFrame(c, cfg, if lifetime.Some? then lifetime.value else 600, now);
      case Deallocate =>
        var d := c.Forgotten();
        Reported(d, Deallocate, 0, 0);
        StateSet(d.Complete(Deallocate, 0, 0), Deallocated);
        LogsOne(c.events, Report(d, Deallocate, 0, 0));
        LogsOn(c.events, [Report(d, Deallocate, 0, 0)], Changed(c.state, Deallocated));
      case Permission =>
        var d := c.(permissionFailures := 0);
        Reported(d, Permission, 0, 0);
        LogsOne(c.events, Report(d, Permission, 0, 0));
        SameReport(c, d, Permission);
      case Channel =>
        var d := c.(channel := Some(CHANNEL_NUMBER), channelFailures := 0);
        var bound := ChannelBound(CHANNEL_NUMBER, cfg.peer);
        Pushed(d, bound);
        Reported(d.PushEvent(bound), Channel, 0, 0);
        LogsOne(c.events, bound);
        LogsOne(Logs(c.events, [bound]), Report(d, Channel, 0, 0));
        LogsOn(c.events, [bound], [Report(d, Channel, 0, 0)]);
        SameReport(d, d.PushEvent(bound), Channel);
        assert [bound] + [Report(d, Channel, 0, 0)] == [bound, Report(d, Channel, 0, 0)];
    }
  }

  lemma TimedFrame(c: Core, cfg: Config, lifetime: U32, now: nat)
    ensures Timed(c, cfg, lifetime, now).events == c.events
  {
  }

  lemma SameReport(c: Core, d: Core, operation: Operation)
    requires d.state == c.state && d.channel == c.channel && d.relay == c.relay
    ensures Report(d, operation, 0, 0) == Report(c, operation, 0, 0)
  {
  }

  /** An address the client can use: of its peer's kind, with a port. */
  predicate Usable(address: Option<SocketAddr>, cfg: Config) {
    address.Some? && address.value.V4? == cfg.peer.V4? && address.value.port != 0
  }

  /** The allocation is there: its address, its times, the next maintenance and keepalive. */
  function Allocated(c: Core, cfg: Config, address: SocketAddr, lifetime: U32, now: nat): Core {
    Timed(c, cfg, lifetime, now).(
      relay := Some(address),
      maintenanceRefresh := Some(now + cfg.profile.maintenanceRefresh),
      keepalive := Some(now + cfg.profile.keepaliveInterval))
  }

  /**
   The success of an Allocate is taken exactly if it names a usable relay and a lifetime; the core is then READY,
   or, if shutdown has begun, gives the allocation back at once. Otherwise nothing changes.
   */
  lemma AllocatesExactly(c: Core, cfg: Config, m: Message, address: Option<SocketAddr>, now: nat, draw: Draw)
    requires Parse(m.raw) == Ok(m)
    requires address == match AttributeValue(m, 0x0016)
                        case None => None
                        case Some(v) => DecodeXorAddress(v, m.transaction)
    ensures var r := c.AllocateSucceeded(cfg, m, now, draw);
            var lifetime := AttributeU32(m, 0x000d);
            if !Usable(address, cfg) || lifetime == Some(0) then r == Outcome(c, false)
            else
              var a := Allocated(c, cfg, address.value, if lifetime.Some? then lifetime.value else 600, now);
              var events := Logs(c.events, [RelayAddress(address.value)]);
              if c.shuttingDown then
                r == a.(state := Deallocating, events := Logs(events, Changed(c.state, Deallocating)))
                       .StartOperation(cfg, Deallocate, true, 0, draw)
              else
                var report := Report(a.(state := Ready), Allocate, 0, 0);
                r == Outcome(a.(state := Ready, events := Logs(events, Changed(c.state, Ready) + [report])), true)
  {
    hide Core.PushEvent, Core.Complete, Core.SetState, Core.StartOperation, Core.Granted, Parse, AttributeU32,
         AttributeValue, DecodeXorAddress, Logs, Report, Timed;
    var lifetime := AttributeU32(m, 0x000d);
    var n := if lifetime.Some? then lifetime.value else 600;
    GrantsExactly(c, cfg, lifetime, now);
    TimedFrame(c, cfg, n, now);
    if Usable(address, cfg) && lifetime != Some(0) {
      var a := Allocated(c, cfg, address.value, n, now);
      TimedKeeps(c, cfg, n, now);
      Pushed(a, RelayAddress(address.value));
      LogsOne(c.events, RelayAddress(address.value));
      var b := a.PushEvent(RelayAddress(address.value));
      if c.shuttingDown {
        StateSet(b, Deallocating);
      } else {
        StateSet(b, Ready);
        var d := b.SetState(Ready);
        Reported(d, Allocate, 0, 0);
        SameReport(a.(state := Ready), d, Allocate);
        var report := Report(a.(state := Ready), Allocate, 0, 0);
        LogsOne(d.events, report);
        LogsOn(b.events, Changed(c.state, Ready), [report]);
      }
    }
  }

  lemma TimedKeeps(c: Core, cfg: Config, lifetime: U32, now: nat)
    ensures var d := Timed(c, cfg, lifetime, now);
            d.state == c.state && d.channel == c.channel && d.shuttingDown == c.shuttingDown && d.events == c.events
  {
  }
}
