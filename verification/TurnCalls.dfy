/** What the calls of the client do, said outright: each field, packet and event. */
module TurnCalls {
  import opened Bytes
  import opened Stun
  import opened TurnState
  import opened TurnInvariant
  import opened TurnFits
  import opened TurnAlive
  import opened TurnRuns
  import opened TurnRetries
  import opened TurnProgress
  import opened TurnRequests
  import opened TurnOutcomes

  // ---------------------------------------------------------------- queueing

  /** A packet put into a queue of sixteen, with a report if the oldest had to go. */
  function Queued(c: Core, packet: seq<Byte>): Core {
    c.(controls := LastSixteen(c.controls + [packet]),
       events := if |c.controls| == 16 then Logged(c.events, ControlOverflow) else c.events)
  }

  lemma QueuesExactly(c: Core, packet: seq<Byte>)
    requires |c.controls| <= 16
    ensures c.QueuePacket(packet) == Queued(c, packet)
  {
    hide Core.PushEvent, Logged;
    Pushed(c.(controls := if |c.controls| > 0 then c.controls[1..] else []), ControlOverflow);
  }

  /** A new request recorded and queued. */
  function StartedTo(c: Core, p: Pending): Core {
    Queued(c, p.packet).(pending := c.pending + [p])
  }

  /** One request more is under way, at its first send, queued last, and read by a server as what it is. */
  ghost predicate Launched(c: Core, r: Outcome, cfg: Config, operation: Operation, signed: bool, retries: nat,
                           draw: Draw)
  {
    && r.ok && |r.core.pending| == |c.pending| + 1
    && var p := r.core.pending[|c.pending|];
    && r.core == StartedTo(c, p) && FirstSend(p, cfg, operation, signed, retries, draw)
    && ServerReads(p.packet, c, cfg, operation, draw.transaction, signed)
  }

  /** A request under way is not started again, though that of a channel goes out once more; a new one is if it fits. */
  lemma StartsExactlyTo(c: Core, cfg: Config, operation: Operation, signed: bool, retries: nat, draw: Draw)
    requires cfg.Valid() && AuthSized(c) && |c.controls| <= 16
    requires signed ==> c.AuthComplete()
    ensures var r := c.StartOperation(cfg, operation, signed, retries, draw);
            if c.Has(operation) then
              r == Outcome(if operation == Channel then Queued(c, Entry(c, Channel).value.packet) else c, true)
            else if !Fits(c, cfg, operation, signed) then r == Outcome(c, false)
            else Launched(c, r, cfg, operation, signed, retries, draw)
  {
    hide Core.QueuePacket, Core.BuildRequest, FindOperation, Fits, ServerReads, Queued;
    if c.Has(operation) {
      QueuesExactly(c, Entry(c, operation).value.packet);
    } else {
      BuiltExactly(c, cfg, operation, draw.transaction, signed);
      if Fits(c, cfg, operation, signed) {
        RequestReads(c, cfg, operation, draw.transaction, signed);
        QueuesExactly(c, c.BuildRequest(cfg, operation, draw.transaction, signed).value);
        QueuedPending(c, c.BuildRequest(cfg, operation, draw.transaction, signed).value);
      }
    }
  }

  lemma QueuedPending(c: Core, packet: seq<Byte>)
    ensures Queued(c, packet).pending == c.pending
  {
  }

  // ---------------------------------------------------------------- the calls

  /** Nothing is under way before the first call or after the end. */
  lemma IdleTable(c: Core, cfg: Config)
    requires Inv(c, cfg) && c.state in {Null, Deallocated, Destroying}
    ensures c.pending == []
  {
    hide FieldsOk, QueueOk, RequestKind, Rto, Elapsed;
    if c.pending != [] && PendingOk(c.pending[0], c.state, c.AuthComplete(), cfg) { assert false; }
  }

  /**
   `start_allocation` of a core that never started: ALLOCATING, reported, with one unsigned Allocate under way and
   queued. Any other core refuses and is as it was.
   */
  lemma AllocationStarts(c: Core, cfg: Config, draw: Draw)
    requires Inv(c, cfg) && cfg.Valid()
    ensures var r := c.StartAllocation(cfg, draw);
            if c.destroyed || c.shuttingDown || c.state != Null then r == Outcome(c, false)
            else
              var s := c.(state := Allocating, events := Logs(c.events, [StateChanged(Allocating, Null)]));
              && c.pending == []
              && if !Fits(c, cfg, Allocate, false) then r == Outcome(s, false)
                 else Launched(s, r, cfg, Allocate, false, 0, draw)
  {
    hide TableOk, Core.SetState, Core.StartOperation, Fits, Launched, Logs, TeardownPacket;
    if c.Open() && c.state == Null {
      IdleTable(c, cfg);
      NonePending(Allocate);
      StateSet(c, Allocating);
      var s := c.SetState(Allocating);
      UnsignedFits(c, s, cfg);
      StartsExactlyTo(s, cfg, Allocate, false, 0, draw);
    }
  }

  lemma UnsignedFits(c: Core, r: Core, cfg: Config)
    ensures Fits(c, cfg, Allocate, false) == Fits(r, cfg, Allocate, false)
  {
  }

  /** `start_channel` and `start_permission` are refused outside READY, and start one request otherwise. */
  lemma ReadyStarts(c: Core, cfg: Config, operation: Operation, draw: Draw)
    requires Inv(c, cfg) && cfg.Valid() && operation in {Channel, Permission}
    ensures var r := c.StartWhenReady(cfg, operation, draw);
            if c.state != Ready then r == Outcome(c, false)
            else if c.Has(operation) then
              r == Outcome(if operation == Channel then Queued(c, Entry(c, Channel).value.packet) else c, true)
            else
              && c.AuthComplete()
              && if !Fits(c, cfg, operation, true) then r == Outcome(c, false)
                 else Launched(c, r, cfg, operation, true, 0, draw)
  {
    hide TableOk, Core.StartOperation, Fits, Launched, Queued, TeardownPacket, FindOperation;
    if c.state == Ready { StartsExactlyTo(c, cfg, operation, true, 0, draw); }
  }

  /**
   `graceful_shutdown`: with an allocation to return, one signed Refresh of lifetime zero under way and nothing else
   queued; with an Allocate under way, that one left alone, the queue emptied; otherwise nothing left under way. All
   upkeep stops.
   */
  lemma ShutdownExactly(c: Core, cfg: Config, draw: Draw)
    requires Inv(c, cfg) && cfg.Valid()
    ensures var r := c.GracefulShutdown(cfg, draw);
            if c.destroyed || c.shuttingDown then r == Outcome(c, true)
            else if HoldsAllocation(c) then
              var s := Bare(c).(shuttingDown := true, state := Deallocating,
                                events := Logs(c.events, [StateChanged(Deallocating, c.state)]));
              && c.AuthComplete() && s.pending == [] && s.controls == []
              && if !Fits(c, cfg, Deallocate, true) then r == Outcome(s, false)
                 else Launched(s, r, cfg, Deallocate, true, 0, draw)
            else
              var left := if c.state == Allocating then c.pending else [];
              r == Outcome(Bare(c).(shuttingDown := true, pending := left), true)
  {
    hide TableOk, QueueOk, Core.SetState, Core.StartOperation, Fits, Launched, Logs;
    if c.Open() && HoldsAllocation(c) {
      var a := c.(shuttingDown := true).Unbound().(pending := []);
      StateSet(a, Deallocating);
      var s := a.SetState(Deallocating);
      NonePending(Deallocate);
      SameFits(c, s, cfg, Deallocate);
      StartsExactlyTo(s, cfg, Deallocate, true, 0, draw);
    }
  }

  /** `force_destroy`: nothing under way or queued, and the caller's status reported; a second call does nothing. */
  lemma DestroyExactly(c: Core, status: int)
    ensures c.ForceDestroy(status) ==
            if c.destroyed then c
            else c.(destroyed := true, controls := [], pending := [], state := Destroying,
                    events := Logs(c.events, Changed(c.state, Destroying) + [ForcedDestroy(status)]))
  {
    hide Core.SetState, Core.PushEvent, Logs, Logged;
    var a := c.(destroyed := true, controls := [], pending := []);
    StateSet(a, Destroying);
    var b := a.SetState(Destroying);
    Pushed(b, ForcedDestroy(status));
    LogsOne(b.events, ForcedDestroy(status));
    LogsOn(c.events, Changed(c.state, Destroying), [ForcedDestroy(status)]);
  }

  // ---------------------------------------------------------------- time

  /** A lone request out of tries fails with a timeout. */
  lemma TimeoutExactly(c: Core, cfg: Config, now: nat)
    requires Inv(c, cfg) && |c.pending| == 1 && TimesOut(cfg, c.pending[0], now)
    ensures var p := c.pending[0];
            var t := c.(pending := [], controls := WithoutTransaction(c.controls, p.transaction));
            c.ExpireFrom(cfg, 0, now) == FailedTo(t, p.operation, -6, 0, now)
  {
    hide Inv, Core.CompleteFailure, WithoutTransaction, FailedTo;
    var p := c.pending[0];
    var t := c.Taken(0);
    assert t == c.(pending := [], controls := WithoutTransaction(c.controls, p.transaction));
    FailsExactly(t, p.operation, -6, 0, now);
    var d := t.CompleteFailure(p.operation, RESULT_TIMEOUT, 0, now);
    assert d.pending == [] && d.ExpireFrom(cfg, 0, now) == d;
  }

  /** An allocation whose lifetime has run out while READY is given up, reported as a Refresh that timed out. */
  lemma ExpiryExactly(c: Core, cfg: Config, now: nat)
    requires Inv(c, cfg)
    ensures var a := c.ExpireFrom(cfg, 0, now);
            c.Expired(cfg, now) ==
            if a.state == Ready && a.allocationExpiresAt.Some? && now >= a.allocationExpiresAt.value
            then Gone(a, Refresh, -6, 0) else a
  {
    hide TableOk, QueueOk, Core.ExpireFrom, Core.DestroyAllocation, Gone;
    ExpireInv(c, cfg, 0, now);
    DestroysExactly(c.ExpireFrom(cfg, 0, now), Refresh, -6, 0);
  }

  // ---------------------------------------------------------------- deadlines

  /** Something is to happen at `t`: a request to be sent again or given up, or a timer. */
  predicate SomeDeadline(c: Core, t: nat) {
    || (exists i | 0 <= i < |c.pending| :: c.pending[i].nextAttempt == t)
    || c.allocationRefresh == Some(t) || c.maintenanceRefresh == Some(t)
    || c.permissionRetry == Some(t) || c.channelRetry == Some(t) || c.keepalive == Some(t)
  }

  lemma {:induction false} EarliestIsLeast(pending: seq<Pending>)
    ensures var e := EarliestAttempt(pending);
            && (e.Some? ==> exists i | 0 <= i < |pending| :: pending[i].nextAttempt == e.value)
            && forall i | 0 <= i < |pending| :: e.Some? && e.value <= pending[i].nextAttempt
    decreases |pending|
  {
    if pending != [] {
      var rest := pending[1..];
      EarliestIsLeast(rest);
      forall i | 0 <= i < |pending|
        ensures var e := EarliestAttempt(pending); e.Some? && e.value <= pending[i].nextAttempt
      {
        if i > 0 { assert pending[i] == rest[i - 1]; }
      }
      var e := EarliestAttempt(pending);
      if e != Some(pending[0].nextAttempt) {
        var i :| 0 <= i < |rest| && rest[i].nextAttempt == e.value;
        assert pending[i + 1].nextAttempt == e.value;
      }
    }
  }

  lemma DeadlineIsLeast(c: Core)
    ensures var d := c.NextDeadline();
            && (d.Some? ==> SomeDeadline(c, d.value))
            && forall t: nat :: SomeDeadline(c, t) ==> d.Some? && d.value <= t
  {
    hide EarliestAttempt;
    EarliestIsLeast(c.pending);
  }

  /** The time a caller is asked to wait: until the first thing that is to happen, but never less than 1 ms. */
  ghost predicate WaitsRightly(r: Core, now: nat, delay: Option<nat>) {
    match delay
    case None => forall t: nat :: !SomeDeadline(r, t)
    case Some(d) => exists t: nat :: SomeDeadline(r, t) && (forall u: nat | SomeDeadline(r, u) :: t <= u)
                                     && d == if t < now + 1_000_000 then 1_000_000 else t - now
  }

  /** Every poll that does not fail says how long to wait, by what is under way and scheduled after it. */
  lemma PollWaits(c: Core, cfg: Config, now: nat, refresh: Draw, permission: Draw, bind: Draw)
    ensures var (r, result) := c.Poll(cfg, now, refresh, permission, bind);
            && (result == Closed <==> c.destroyed) && (result == Closed ==> r == c)
            && (result.Wait? ==> WaitsRightly(r, now, result.delay))
  {
    hide Core.Expired, Core.Maintenance, Core.NextDeadline, SomeDeadline;
    var (r, result) := c.Poll(cfg, now, refresh, permission, bind);
    DeadlineIsLeast(r);
  }
}
