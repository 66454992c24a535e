/** Every request of the TURN core comes to an end: one call at a time, and over whole runs. */
module TurnProgress {
  import opened Bytes
  import opened Stun
  import opened TurnState
  import opened TurnInvariant
  import opened TurnFits
  import opened TurnAlive
  import opened TurnRuns
  import opened TurnRetries

  function Entry(c: Core, op: Operation): Option<Pending> { FindOperation(c.pending, op) }

  /** `q`, if there is one, is no farther from its end than `p`. */
  predicate NoFarther(cfg: Config, p: Pending, q: Option<Pending>, strictly: bool) {
    q.Some? ==> Measure(cfg, q.value) <= Measure(cfg, p) && (strictly ==> Measure(cfg, q.value) < Measure(cfg, p))
  }

  predicate Fresh(q: Option<Pending>) {
    q.Some? && q.value.nonceRetries == 0 && q.value.transmissions == 1
  }

  /** The one entry of an operation is the one that is found. */
  lemma FindUnique(c: Core, cfg: Config, p: Pending)
    requires Inv(c, cfg) && p in c.pending
    ensures Entry(c, p.operation) == Some(p)
  {
    hide PendingOk, FieldsOk, QueueOk, FindOperation;
    var i :| 0 <= i < |c.pending| && c.pending[i] == p;
    var q := FindOperation(c.pending, p.operation).value;
    var j :| 0 <= j < |c.pending| && c.pending[j] == q;
    assert i == j;
  }

  // ---------------------------------------------------------------- a poll

  /** A sweep leaves the entry alone, sends it once more, or drops it. */
  lemma SweepFinds(c: Core, cfg: Config, now: nat, op: Operation)
    requires Inv(c, cfg) && Entry(c.ExpireFrom(cfg, 0, now), op).Some?
    ensures c.Has(op) && Swept(cfg, Entry(c, op).value, Entry(c.ExpireFrom(cfg, 0, now), op).value, now, true)
  {
    hide Inv, Core.ExpireFrom, FindOperation, TimesOut;
    SweepKeepsOrResends(c, cfg, 0, now);
    var q := Entry(c.ExpireFrom(cfg, 0, now), op).value;
    assert Source(cfg, c.pending, q, 0, now);
    var j :| 0 <= j < |c.pending| && Swept(cfg, c.pending[j], q, now, j >= 0);
    FindUnique(c, cfg, c.pending[j]);
  }

  lemma {:induction false} RtoAtLeast(k: nat)
    requires k >= 1
    ensures Rto(k) >= INITIAL_RTO
  {
    if k > 1 { RtoAtLeast(k - 1); }
  }

  /** The entry is still there, or nothing is and the allocation is gone. */
  predicate Retained(r: Core, op: Operation) {
    r.Has(op) || (r.pending == [] && r.state != Ready)
  }

  lemma TakenRetains(c: Core, cfg: Config, i: nat, p: Pending)
    requires Inv(c, cfg) && i < |c.pending| && p in c.pending && p != c.pending[i]
    ensures var r := c.Taken(i);
            Inv(r, cfg) && !r.destroyed && |r.pending| < |c.pending| && p in r.pending
  {
    hide Inv, WithoutTransaction;
    TakenInv(c, cfg, i);
    var k :| 0 <= k < |c.pending| && c.pending[k] == p;
    assert Without(c.pending, i)[if k < i then k else k - 1] == p;
  }

  lemma ResentInTime(c: Core, cfg: Config, i: nat, now: nat)
    requires Inv(c, cfg) && i < |c.pending|
    ensures !TimesOut(cfg, Resent(c.pending[i], now), now)
  {
    hide RequestKind, Elapsed, QueueOk, FieldsOk;
    assert PendingOk(c.pending[i], c.state, c.AuthComplete(), cfg);
    RtoAtLeast(c.pending[i].transmissions);
  }

  /** A sweep drops an entry only if it times out, or another's timeout ends the allocation. */
  lemma {:induction false} SweepRetains(c: Core, cfg: Config, i: nat, now: nat, p: Pending)
    requires Inv(c, cfg) && p in c.pending && !TimesOut(cfg, p, now)
    ensures Retained(c.ExpireFrom(cfg, i, now), p.operation)
    decreases |c.pending| - i
  {
    hide Inv, Core.CompleteFailure, Core.Retransmitted, Core.Taken, FindOperation, Swept, Resent;
    if i >= |c.pending| {
      FindUnique(c, cfg, p);
    } else if now < c.pending[i].nextAttempt {
      SweepRetains(c, cfg, i + 1, now, p);
    } else if TimesOut(cfg, c.pending[i], now) {
      TakenRetains(c, cfg, i, p);
      CompleteFailureInv(c.Taken(i), cfg, c.pending[i].operation, RESULT_TIMEOUT, 0, now);
      FailureRetains(c.Taken(i), c.pending[i].operation, RESULT_TIMEOUT, 0, now);
      var d := c.Taken(i).CompleteFailure(c.pending[i].operation, RESULT_TIMEOUT, 0, now);
      if d.pending != [] { SweepRetains(d, cfg, i, now, p); }
    } else {
      RetransmittedInv(c, cfg, i, now);
      var d := c.Retransmitted(i, now);
      RetransmittedTable(c, i, now);
      ResentInTime(c, cfg, i, now);
      ResentOperation(c.pending[i], now);
      var k :| 0 <= k < |c.pending| && c.pending[k] == p;
      assert d.pending[k] in d.pending;
      SweepRetains(d, cfg, i + 1, now, d.pending[k]);
    }
  }

  lemma ResentOperation(p: Pending, now: nat)
    ensures Resent(p, now).operation == p.operation
  {
  }

  lemma FailureRetains(c: Core, op: Operation, status: int, code: int, now: nat)
    ensures var r := c.CompleteFailure(op, status, code, now);
            && Phase(c.state) <= Phase(r.state)
            && (r.pending == c.pending || (r.pending == [] && r.state != Ready))
  {
    hide Core.Complete, Core.ScheduleRetry, Core.DestroyAllocation, Core.DestroyAfterRebindExhausted;
    DestroyedTable(c, op, status, code);
    RetriedTable(c, op, status, code, now);
    ReboundTable(c.Complete(op, status, code).ScheduleRetry(op, now).core);
  }

  lemma RetriedTable(c: Core, op: Operation, status: int, code: int, now: nat)
    ensures var r := c.Complete(op, status, code).ScheduleRetry(op, now).core;
            r.pending == c.pending && r.state == c.state
  {
    hide Core.Complete, RetryDelay;
    CompleteFrame(c, op, status, code);
  }

  lemma ReboundTable(c: Core)
    ensures var r := c.DestroyAfterRebindExhausted(); r.pending == [] && r.state == Destroying
  {
    hide Core.PushEvent, Core.SetState;
    var f := c.(pending := []).Unbound();
    PushEventFrame(f, RebindExhausted);
    SetStateFrame(f.PushEvent(RebindExhausted), Destroying);
  }

  /** Maintenance touches no request under way, and what it starts is fresh. */
  predicate Kept(c: Core, r: Core, op: Operation) {
    if c.Has(op) then Entry(r, op) == Entry(c, op) else !r.Has(op) || Fresh(Entry(r, op))
  }

  lemma MaintainedKeeps(c: Core, cfg: Config, wanted: bool, operation: Operation, draw: Draw, op: Operation)
    requires operation in {Refresh, Permission, Channel}
    ensures Kept(c, c.Maintained(cfg, wanted, operation, draw).core, op)
  {
    hide Core.Maintained, FindOperation;
    MaintainedFinds(c, cfg, wanted, operation, draw, op);
  }

  lemma TickKeepsEntry(c: Core, cfg: Config, now: nat, started: bool, op: Operation)
    ensures Kept(c, c.KeepaliveTick(cfg, now, started), op)
  {
    hide FindOperation, Core.QueuePacket;
    var a := c.(keepalive := Some(now + cfg.profile.keepaliveInterval));
    if a.channel.Some? { QueueKeepsTable(a, Be16(a.channel.value) + Be16(1) + [0xff, 0, 0, 0]); }
  }

  lemma MaintenanceKeeps(c: Core, cfg: Config, now: nat, refresh: Draw, permission: Draw, bind: Draw, op: Operation)
    ensures Kept(c, c.Maintenance(cfg, now, refresh, permission, bind).core, op)
  {
    hide Core.Maintained, Core.Rescheduled, Core.KeepaliveTick, Due, Kept, Core.Has;
    var due := Due(c.maintenanceRefresh, now);
    var refreshing := Due(c.allocationRefresh, now) && !c.Has(Refresh);
    MaintainedKeeps(c, cfg, refreshing, Refresh, refresh, op);
    var a := c.Maintained(cfg, refreshing, Refresh, refresh).core;
    RescheduledKeeps(a, cfg, due, now, op);
    var a0 := a.Rescheduled(cfg, due, now);
    KeptTrans(c, a, a0, op);
    var permitting := (due || Due(c.permissionRetry, now)) && !a0.Has(Permission);
    MaintainedKeeps(a0, cfg, permitting, Permission, permission, op);
    var b := a0.Maintained(cfg, permitting, Permission, permission).core;
    KeptTrans(c, a0, b, op);
    var binding := (due || Due(c.channelRetry, now)) && !b.Has(Channel);
    MaintainedKeeps(b, cfg, binding, Channel, bind, op);
    var d := b.Maintained(cfg, binding, Channel, bind).core;
    KeptTrans(c, b, d, op);
    TickKeepsEntry(d, cfg, now, refreshing || permitting || binding, op);
    KeptTrans(c, d, d.KeepaliveTick(cfg, now, refreshing || permitting || binding), op);
  }

  lemma RescheduledKeeps(c: Core, cfg: Config, due: bool, now: nat, op: Operation)
    ensures Kept(c, c.Rescheduled(cfg, due, now), op)
  {
    hide FindOperation;
  }

  lemma KeptTrans(a: Core, b: Core, c: Core, op: Operation)
    requires Kept(a, b, op) && Kept(b, c, op)
    ensures Kept(a, c, op)
  {
    hide FindOperation;
  }

  predicate DueNow(p: Pending, call: Call) {
    call.CallPoll? && call.now >= p.nextAttempt
  }

  /** Timed out, and asked for again in the same poll. */
  predicate Restarted(cfg: Config, p: Pending, q: Option<Pending>, call: Call) {
    call.CallPoll? && TimesOut(cfg, p, call.now) && Fresh(q)
  }

  predicate Nearer(cfg: Config, p: Pending, q: Option<Pending>, call: Call) {
    NoFarther(cfg, p, q, DueNow(p, call)) || Restarted(cfg, p, q, call)
  }

  lemma SweptNearer(c: Core, cfg: Config, now: nat, op: Operation)
    requires Inv(c, cfg) && c.Has(op)
    ensures var p, a := Entry(c, op).value, c.ExpireFrom(cfg, 0, now);
            NoFarther(cfg, p, Entry(a, op), now >= p.nextAttempt) && (TimesOut(cfg, p, now) || Retained(a, op))
  {
    hide Inv, Core.ExpireFrom, FindOperation, TimesOut;
    var p := Entry(c, op).value;
    if c.ExpireFrom(cfg, 0, now).Has(op) { SweepFinds(c, cfg, now, op); }
    if !TimesOut(cfg, p, now) { SweepRetains(c, cfg, 0, now, p); }
  }

  lemma PollNearer(cfg: Config, c: Core, call: Call, op: Operation)
    requires Inv(c, cfg) && cfg.Valid() && c.Has(op) && call.CallPoll?
    ensures Nearer(cfg, Entry(c, op).value, Entry(Step(cfg, c, call), op), call)
  {
    hide TableOk, QueueOk, Core.ExpireFrom, Core.Maintenance, Core.SetState, Core.PushEvent, Core.NextDeadline,
         FindOperation, TimesOut, Measure;
    SweptNearer(c, cfg, call.now, op);
    var a := c.ExpireFrom(cfg, 0, call.now);
    DestroyedTable(a, Refresh, RESULT_TIMEOUT, 0);
    MaintenanceKeeps(c.Expired(cfg, call.now), cfg, call.now, call.refresh, call.permission, call.bind, op);
  }

  lemma DestroyedTable(c: Core, operation: Operation, status: int, code: int)
    ensures var r := c.DestroyAllocation(operation, status, code);
            r.pending == [] && Phase(r.state) > Phase(Ready) && forall o: Operation :: Entry(r, o) == None
  {
    hide Core.PushEvent, Core.SetState;
    CompleteFrame(c, operation, status, code);
    SetStateFrame(c.Complete(operation, status, code).(pending := []).Unbound().Forgotten(),
                  if operation == Deallocate then Deallocated else Destroying);
  }

  // ---------------------------------------------------------------- an answer, and the other calls

  lemma AnswerNearer(c: Core, cfg: Config, m: Message, i: nat, now: nat, draw: Draw, op: Operation)
    requires Inv(c, cfg) && cfg.Valid() && c.Has(op) && i < |c.pending| && Parse(m.raw) == Ok(m)
    requires ClassOf(m.kind) in {Success, Error}
    ensures NoFarther(cfg, Entry(c, op).value, Entry(c.Taken(i).Response(cfg, m, c.pending[i], now, draw).0, op), false)
  {
    hide FieldsOk, QueueOk, Core.Response, Parse, ClassOf, FindOperation, WithoutTransaction, RequestKind, Rto, Elapsed;
    var p := c.pending[i];
    TakenInv(c, cfg, i);
    ResponseLeaves(c.Taken(i), cfg, m, p, now, draw);
    var r := c.Taken(i).Response(cfg, m, p, now, draw).0;
    if r.Has(op) {
      var q := Entry(r, op).value;
      assert LeftBy(p, c.Taken(i).pending, q);
      FindUnique(c, cfg, p);
      assert PendingOk(p, c.state, c.AuthComplete(), cfg);
      if q in c.Taken(i).pending {
        FindUnique(c, cfg, q);
      } else {
        DeallocateAlone(c, cfg, p, Entry(c, op).value);
      }
    }
  }

  /** An Allocate and a Deallocate are never under way together. */
  lemma DeallocateAlone(c: Core, cfg: Config, p: Pending, q: Pending)
    requires Inv(c, cfg) && p in c.pending && q in c.pending
    ensures p.operation == Allocate ==> q.operation != Deallocate
  {
    hide FieldsOk, QueueOk, RequestKind, Rto, Elapsed;
    assert PendingOk(p, c.state, c.AuthComplete(), cfg) && PendingOk(q, c.state, c.AuthComplete(), cfg);
  }

  lemma InputNearer(cfg: Config, c: Core, packet: seq<Byte>, now: nat, draw: Draw, op: Operation)
    requires Inv(c, cfg) && cfg.Valid() && c.Has(op)
    ensures NoFarther(cfg, Entry(c, op).value, Entry(c.InputStun(cfg, packet, now, draw).0, op), false)
  {
    hide Inv, Core.PushEvent, Core.Response, Core.Taken, Parse, ClassOf, MethodOf, Position, FindOperation,
         FingerprintValid, VerifyIntegrity, RequiresIntegrity, FingerprintedAllocationMismatch, ErrorCode, Measure;
    if Parse(packet).Ok? {
      var m := Parse(packet).value;
      var found := Position(c.pending, m.transaction, MethodOf(m.kind));
      if ClassOf(m.kind) in {Success, Error} && found.Some? {
        AnswerNearer(c, cfg, m, found.value, now, draw, op);
        if ErrorCode(m).Some? {
          PushEventFrame(c, ResponseError(MethodOf(m.kind), RESULT_AUTHENTICATION, ErrorCode(m).value, c.state));
        }
      }
    }
  }

  lemma ShutdownNearer(cfg: Config, c: Core, draw: Draw, op: Operation)
    requires Inv(c, cfg) && c.Has(op)
    ensures var r := c.GracefulShutdown(cfg, draw).core; Entry(r, op) == Entry(c, op) || Entry(r, op) == None
  {
    hide QueueOk, RequestKind, Rto, Elapsed, Core.SetState, Core.StartOperation, FindOperation;
    assert PendingOk(Entry(c, op).value, c.state, c.AuthComplete(), cfg);
    if c.Open() && c.state == Ready {
      var a := c.(shuttingDown := true).Unbound().(pending := []);
      SetStateFrame(a, Deallocating);
      NonePending(op);
      StartFinds(a.SetState(Deallocating), cfg, Deallocate, true, 0, draw, op);
    }
    NonePending(op);
  }

  lemma StartNearer(cfg: Config, c: Core, draw: Draw, op: Operation)
    requires Inv(c, cfg) && c.Has(op)
    ensures Entry(c.StartAllocation(cfg, draw).core, op) == Entry(c, op)
    ensures Entry(c.StartWhenReady(cfg, Channel, draw).core, op) == Entry(c, op)
    ensures Entry(c.StartWhenReady(cfg, Permission, draw).core, op) == Entry(c, op)
  {
    hide FieldsOk, QueueOk, RequestKind, Rto, Elapsed, Core.SetState, Core.StartOperation, FindOperation;
    assert PendingOk(Entry(c, op).value, c.state, c.AuthComplete(), cfg);
    StartFinds(c, cfg, Channel, true, 0, draw, op);
    StartFinds(c, cfg, Permission, true, 0, draw, op);
  }

  lemma DestroyNearer(cfg: Config, c: Core, status: int, op: Operation)
    requires Inv(c, cfg)
    ensures Entry(c.ForceDestroy(status), op) == None
  {
    hide TableOk, QueueOk, Core.ForceDestroy;
    ForceDestroyInv(c, cfg, status);
  }

  /**
   Whatever is called, for any operation: the request under way leaves the table or is no farther from its
   end, strictly nearer after a poll that found it due; the one exception is a request that timed out and was
   asked for again in the same poll.
   */
  lemma StepNearer(cfg: Config, c: Core, call: Call, op: Operation)
    requires Inv(c, cfg) && cfg.Valid() && c.Has(op)
    ensures Nearer(cfg, Entry(c, op).value, Entry(Step(cfg, c, call), op), call)
  {
    hide Inv, Core.StartAllocation, Core.StartWhenReady, Core.InputStun, Core.Poll, Core.ForceDestroy,
         Core.GracefulShutdown, FindOperation, Measure;
    match call {
      case CallInput(packet, now, draw) => InputNearer(cfg, c, packet, now, draw, op);
      case CallPoll(_, _, _, _) => PollNearer(cfg, c, call, op);
      case CallStartAllocation(draw) => StartNearer(cfg, c, draw, op);
      case CallStartChannel(draw) => StartNearer(cfg, c, draw, op);
      case CallStartPermission(draw) => StartNearer(cfg, c, draw, op);
      case CallPullControl =>
      case CallPullEvent =>
      case CallShutdown(draw) => ShutdownNearer(cfg, c, draw, op);
      case CallDestroy(status) =>
        DestroyNearer(cfg, c, status, op);
    }
  }

  // ---------------------------------------------------------------- whole runs

  /** The request for `op` is over after this call: it left the table, or it timed out and was started afresh. */
  predicate Ended(cfg: Config, c: Core, call: Call, op: Operation)
    requires c.Has(op)
  {
    !Step(cfg, c, call).Has(op) || (call.CallPoll? && TimesOut(cfg, Entry(c, op).value, call.now))
  }

  /** The request for `op` that is under way in `c` is over at some point of the run. */
  predicate Ends(cfg: Config, c: Core, calls: seq<Call>, op: Operation)
    requires c.Has(op)
    decreases |calls|
  {
    calls != [] && (Ended(cfg, c, calls[0], op) || Ends(cfg, Step(cfg, c, calls[0]), calls[1..], op))
  }

  /** How many polls of the run found that request due. */
  function DueBeforeEnd(cfg: Config, c: Core, calls: seq<Call>, op: Operation): nat
    requires c.Has(op)
    decreases |calls|
  {
    if calls == [] then 0
    else (if DueNow(Entry(c, op).value, calls[0]) then 1 else 0)
         + if Ended(cfg, c, calls[0], op) then 0 else DueBeforeEnd(cfg, Step(cfg, c, calls[0]), calls[1..], op)
  }

  /** A poll that finds the request for `op` due, or finds none. */
  predicate ServesFor(c: Core, call: Call, op: Operation) {
    call.CallPoll? && (c.Has(op) ==> DueNow(Entry(c, op).value, call))
  }

  /** How many polls of the run did. */
  function ServedFor(cfg: Config, c: Core, calls: seq<Call>, op: Operation): nat
    decreases |calls|
  {
    if calls == [] then 0
    else (if ServesFor(c, calls[0], op) then 1 else 0) + ServedFor(cfg, Step(cfg, c, calls[0]), calls[1..], op)
  }

  lemma MeasureBounds(c: Core, cfg: Config, op: Operation)
    requires Inv(c, cfg) && c.Has(op)
    ensures 1 <= Measure(cfg, Entry(c, op).value) <= AllPolls(cfg)
  {
    hide FieldsOk, QueueOk, RequestKind, Rto, Elapsed, FindOperation;
    assert PendingOk(Entry(c, op).value, c.state, c.AuthComplete(), cfg);
  }

  /**
   Every request ends, or fewer polls came when it was due than its measure. Nor does it ever see more due
   polls than that.
   */
  lemma {:induction false} RequestResolves(cfg: Config, c: Core, calls: seq<Call>, op: Operation)
    requires Inv(c, cfg) && cfg.Valid() && c.Has(op)
    ensures var r := Run(cfg, c, calls);
            || Ends(cfg, c, calls, op)
            || (r.Has(op)
                && ServedFor(cfg, c, calls, op) + Measure(cfg, Entry(r, op).value) <= Measure(cfg, Entry(c, op).value))
    ensures DueBeforeEnd(cfg, c, calls, op) <= Measure(cfg, Entry(c, op).value)
    decreases |calls|
  {
    hide Inv, Step, FindOperation, Measure, AllPolls;
    MeasureBounds(c, cfg, op);
    if calls != [] {
      StepInv(cfg, c, calls[0]);
      StepNearer(cfg, c, calls[0], op);
      if !Ended(cfg, c, calls[0], op) {
        RequestResolves(cfg, Step(cfg, c, calls[0]), calls[1..], op);
      }
    }
  }

  /** So from every reachable state `AllPolls` polls, each when it is due, see a request to its end. */
  lemma RequestResolvesInTime(cfg: Config, before: seq<Call>, c: Core, calls: seq<Call>, op: Operation)
    requires cfg.Valid() && c == Run(cfg, Initial(), before) && c.Has(op)
    ensures ServedFor(cfg, c, calls, op) >= AllPolls(cfg) ==> Ends(cfg, c, calls, op)
    ensures DueBeforeEnd(cfg, c, calls, op) <= AllPolls(cfg)
  {
    hide Inv, Run, ServedFor, DueBeforeEnd, FindOperation, Measure, AllPolls, Ends;
    ReachableInv(cfg, before);
    RunInv(cfg, c, calls);
    RequestResolves(cfg, c, calls, op);
    MeasureBounds(c, cfg, op);
    if Run(cfg, c, calls).Has(op) { MeasureBounds(Run(cfg, c, calls), cfg, op); }
  }

  /** The Allocate is over: the core is READY, or past it. */
  predicate PastAllocating(c: Core) { c.state != Null && c.state != Allocating }

  lemma SoleServes(cfg: Config, c: Core, call: Call, op: Operation)
    requires Inv(c, cfg) && Sole(c, op)
    ensures ServesFor(c, call, op) == DuePoll(c, call)
  {
    hide Inv, FindOperation;
    FindUnique(c, cfg, c.pending[0]);
  }

  /** A pending Allocate leads on, or fewer polls came when it was due than its measure. */
  lemma {:induction false} AllocateResolves(cfg: Config, c: Core, calls: seq<Call>)
    requires Inv(c, cfg) && cfg.Valid() && (Sole(c, Allocate) || PastAllocating(c))
    ensures var r := Run(cfg, c, calls);
            || PastAllocating(r)
            || (Sole(c, Allocate) && Sole(r, Allocate) && r.state == Allocating
                && ServedFor(cfg, c, calls, Allocate) + Measure(cfg, r.pending[0]) <= Measure(cfg, c.pending[0]))
    decreases |calls|
  {
    hide Step, RequestKind, QueueOk, Rto, Elapsed, Measure, ServesFor, DuePoll;
    if Sole(c, Allocate) { assert PendingOk(c.pending[0], c.state, c.AuthComplete(), cfg); }
    if calls != [] {
      var s := Step(cfg, c, calls[0]);
      StepInv(cfg, c, calls[0]);
      if !PastAllocating(c) {
        StepResolves(cfg, c, calls[0], Allocate);
        SoleServes(cfg, c, calls[0], Allocate);
      }
      if Sole(s, Allocate) { assert PendingOk(s.pending[0], s.state, s.AuthComplete(), cfg); }
      AllocateResolves(cfg, s, calls[1..]);
    }
  }

  /** From every ALLOCATING state a run reaches, that many polls, each when the Allocate is due, lead on. */
  lemma AllocatingEnds(cfg: Config, before: seq<Call>, c: Core, after: seq<Call>)
    requires cfg.Valid() && AllSmall(before) && c == Run(cfg, Initial(), before)
    requires c.state == Allocating && ServedFor(cfg, c, after, Allocate) >= AllPolls(cfg)
    ensures PastAllocating(Run(cfg, c, after))
  {
    hide Inv, Run, Step, AllSmall, ServedFor, Measure, AllPolls;
    ReachableAlive(cfg, before);
    AllocateResolves(cfg, c, after);
    RunInv(cfg, c, after);
    SoleMeasure(c, cfg, Allocate);
    if Sole(Run(cfg, c, after), Allocate) { SoleMeasure(Run(cfg, c, after), cfg, Allocate); }
  }

  /** Shutdown gives back what there is: as many polls lead to DEALLOCATED, unless the core is destroyed. */
  lemma ShutdownReturns(cfg: Config, before: seq<Call>, c: Core, draw: Draw, after: seq<Call>)
    requires cfg.Valid() && AllSmall(before) && c == Run(cfg, Initial(), before) && HoldsAllocation(c)
    ensures var s := c.GracefulShutdown(cfg, draw).core; var r := Run(cfg, s, after);
            && (Served(cfg, s, after) >= AllPolls(cfg) ==> r.state == Deallocated || r.destroyed)
            && DuePolls(cfg, s, after) <= AllPolls(cfg)
  {
    hide Inv, Run, Step, AllSmall, DuePolls, Served, AllPolls, FindOperation, Core.GracefulShutdown;
    ReachableAlive(cfg, before);
    ShutdownAlive(c, cfg, draw);
    HasIsSole(c.GracefulShutdown(cfg, draw).core, cfg, Deallocate);
    DeallocateResolvesInTime(cfg, c.GracefulShutdown(cfg, draw).core, after);
  }

  /**
   Such polls can always be made, as many as one likes: from any state, with nothing else called and the clock
   running forward, a poll at the time the request under way is due, or at any time if there is none.
   */
  lemma {:induction false} PollsServe(cfg: Config, c: Core, t: nat, draw: Draw, op: Operation, n: nat)
    returns (calls: seq<Call>)
    ensures |calls| == n && AllSmall(calls) && Clocked(calls, t) && forall i | 0 <= i < n :: calls[i].CallPoll?
    ensures Served(cfg, c, calls) == n && ServedFor(cfg, c, calls, op) == n
    decreases n
  {
    hide Step, FindOperation;
    calls := [];
    if n > 0 {
      var due := if c.pending == [] then t else Max(t, c.pending[0].nextAttempt);
      var now := if c.Has(op) then Max(due, Entry(c, op).value.nextAttempt) else due;
      var call := CallPoll(now, draw, draw, draw);
      var rest := PollsServe(cfg, Step(cfg, c, call), now, draw, op, n - 1);
      calls := [call] + rest;
      assert calls[0] == call && calls[1..] == rest;
    }
  }

  // ---------------------------------------------------------------- shutdown from any state

  /** Teardown is over: nothing is under way, and nothing will be. */
  predicate Settled(c: Core) {
    c.state in {Null, Deallocated, Destroying} && (c.shuttingDown || c.destroyed)
  }

  lemma SettledIsIdle(cfg: Config, c: Core)
    requires Inv(c, cfg) && c.state in {Null, Deallocated, Destroying}
    ensures c.pending == []
  {
    hide FieldsOk, QueueOk, RequestKind, Rto, Elapsed;
    if c.pending != [] && PendingOk(c.pending[0], c.state, c.AuthComplete(), cfg) { assert false; }
  }

  lemma DestroyedIsSettled(cfg: Config, c: Core)
    requires Inv(c, cfg)
    ensures c.destroyed ==> Settled(c)
  {
    hide TableOk, QueueOk;
  }

  lemma SettledStays(cfg: Config, c: Core, call: Call)
    requires Inv(c, cfg) && cfg.Valid() && Settled(c)
    ensures Settled(Step(cfg, c, call))
  {
    hide TableOk, QueueOk, Core.SetState, Core.StartOperation, Core.PushEvent, Core.Response, Core.NextDeadline;
    SettledIsIdle(cfg, c);
    if call.CallDestroy? { ForceDestroyInv(c, cfg, call.status); }
  }

  /** How many due polls a teardown can still see; an Allocate that times out leaves no Deallocate to come. */
  function TeardownLeft(cfg: Config, c: Core): int {
    if Sole(c, Allocate) then Measure(cfg, c.pending[0]) - 1 + AllPolls(cfg)
    else if Sole(c, Deallocate) then Measure(cfg, c.pending[0])
    else 0
  }

  /** The most a whole teardown can see: 49 with the default profile. */
  function TeardownPolls(cfg: Config): nat { 12 * cfg.profile.maxNonceRetries + 13 }

  /** A core that is being shut down is settled, or waits for its one Allocate or Deallocate. */
  predicate TearsDown(c: Core) {
    && (c.shuttingDown || c.destroyed)
    && (Settled(c) || (c.state == Allocating && Sole(c, Allocate)) || (c.state == Deallocating && Sole(c, Deallocate)))
  }

  lemma TearsDownAlive(cfg: Config, c: Core)
    requires FitInv(c, cfg) && (c.shuttingDown || c.destroyed)
    ensures TearsDown(c)
  {
    hide TableOk, QueueOk, FindOperation;
    if c.state == Allocating { HasIsSole(c, cfg, Allocate); }
    if c.state == Deallocating { HasIsSole(c, cfg, Deallocate); }
  }

  lemma TeardownBounds(cfg: Config, c: Core)
    requires Inv(c, cfg) && TearsDown(c)
    ensures 0 <= TeardownLeft(cfg, c) <= TeardownPolls(cfg)
    ensures c.state == Deallocating ==> TeardownLeft(cfg, c) <= AllPolls(cfg)
    ensures TeardownLeft(cfg, c) == 0 <==> Settled(c)
  {
    hide Inv, Measure;
    if Settled(c) {
      SettledIsIdle(cfg, c);
    } else if c.state == Allocating {
      SoleMeasure(c, cfg, Allocate);
    } else {
      SoleMeasure(c, cfg, Deallocate);
    }
  }

  /** Every call leaves a teardown no longer to go, and a due poll at least one poll less. */
  lemma TeardownNearer(cfg: Config, c: Core, call: Call)
    requires FitInv(c, cfg) && cfg.Valid() && Small(call) && TearsDown(c)
    ensures var r := Step(cfg, c, call);
            && FitInv(r, cfg) && TearsDown(r)
            && TeardownLeft(cfg, r) + (if DuePoll(c, call) then 1 else 0) <= TeardownLeft(cfg, c)
  {
    hide Inv, SmallAuth, Alive, Step, Small, Measure, TeardownPolls;
    StepInv(cfg, c, call);
    StepFits(cfg, c, call);
    var r := Step(cfg, c, call);
    TearsDownAlive(cfg, r);
    TeardownBounds(cfg, c);
    TeardownBounds(cfg, r);
    if Settled(c) {
      SettledStays(cfg, c, call);
      SettledIsIdle(cfg, c);
    } else if c.state == Allocating {
      SoleMeasure(c, cfg, Allocate);
      StepResolves(cfg, c, call, Allocate);
      if call.CallPoll? { PollResolves(c, cfg, call, Allocate); }
    } else {
      SoleMeasure(c, cfg, Deallocate);
      StepResolves(cfg, c, call, Deallocate);
      DestroyedIsSettled(cfg, r);
    }
  }

  /** A teardown is over, or fewer polls came when it waited for one than it had to go; and it never sees more. */
  lemma {:induction false} TeardownResolves(cfg: Config, c: Core, calls: seq<Call>)
    requires FitInv(c, cfg) && cfg.Valid() && AllSmall(calls) && TearsDown(c)
    ensures var r := Run(cfg, c, calls);
            && FitInv(r, cfg) && TearsDown(r)
            && TeardownLeft(cfg, r) + DuePolls(cfg, c, calls) <= TeardownLeft(cfg, c)
            && (Settled(r) || TeardownLeft(cfg, r) + Served(cfg, c, calls) <= TeardownLeft(cfg, c))
    decreases |calls|
  {
    hide FitInv, TearsDown, Step, Small, TeardownLeft, DuePoll, Settled;
    if calls != [] {
      var s := Step(cfg, c, calls[0]);
      TeardownNearer(cfg, c, calls[0]);
      TeardownResolves(cfg, s, calls[1..]);
      if Settled(c) {
        SettledFor(cfg, c, calls[0]);
        SettledRuns(cfg, s, calls[1..]);
      } else {
        UnsettledWaits(cfg, c);
      }
    }
  }

  lemma SettledFor(cfg: Config, c: Core, call: Call)
    requires FitInv(c, cfg) && cfg.Valid() && Settled(c)
    ensures Inv(Step(cfg, c, call), cfg) && Settled(Step(cfg, c, call))
  {
    hide Inv, Settled, Step, SmallAuth, Alive;
    StepInv(cfg, c, call);
    SettledStays(cfg, c, call);
  }

  lemma UnsettledWaits(cfg: Config, c: Core)
    requires TearsDown(c) && !Settled(c)
    ensures c.pending != []
  {
  }

  /** Settled is for good. */
  lemma {:induction false} SettledRuns(cfg: Config, c: Core, calls: seq<Call>)
    requires Inv(c, cfg) && cfg.Valid() && Settled(c)
    ensures Settled(Run(cfg, c, calls))
    decreases |calls|
  {
    hide Inv, Settled, Step;
    if calls != [] {
      StepInv(cfg, c, calls[0]);
      SettledStays(cfg, c, calls[0]);
      SettledRuns(cfg, Step(cfg, c, calls[0]), calls[1..]);
    }
  }

  /**
   Shutdown completes from every reachable state: `TeardownPolls` polls, each when the request under way is due
   or none is, see an Allocate under way and the Deallocate that may follow it to their end, and then nothing is
   under way any more. No run brings more due polls than that.
   */
  lemma ShutdownCompletes(cfg: Config, before: seq<Call>, c: Core, draw: Draw, after: seq<Call>)
    requires cfg.Valid() && AllSmall(before) && AllSmall(after) && c == Run(cfg, Initial(), before)
    ensures var s := c.GracefulShutdown(cfg, draw).core; var r := Run(cfg, s, after);
            && (Served(cfg, s, after) >= TeardownPolls(cfg) ==> Settled(r) && r.pending == [])
            && DuePolls(cfg, s, after) <= TeardownPolls(cfg)
  {
    hide Run, Step, AllSmall, DuePolls, Served, TableOk, QueueOk, SmallAuth, Alive, TeardownLeft, TeardownPolls,
         Core.GracefulShutdown;
    ReachableAlive(cfg, before);
    ShutdownAlive(c, cfg, draw);
    GracefulShutdownInv(c, cfg, draw);
    var s := c.GracefulShutdown(cfg, draw).core;
    TearsDownAlive(cfg, s);
    TeardownBounds(cfg, s);
    TeardownResolves(cfg, s, after);
    var r := Run(cfg, s, after);
    TeardownBounds(cfg, r);
    if Settled(r) { SettledIsIdle(cfg, r); }
  }

  /** So a caller that does nothing but poll when the next deadline of a request has come completes it. */
  lemma PollingCompletes(cfg: Config, before: seq<Call>, c: Core, draw: Draw, t: nat) returns (after: seq<Call>)
    requires cfg.Valid() && AllSmall(before) && c == Run(cfg, Initial(), before)
    ensures |after| == TeardownPolls(cfg) && Clocked(after, t) && forall i | 0 <= i < |after| :: after[i].CallPoll?
    ensures var r := Run(cfg, c.GracefulShutdown(cfg, draw).core, after); Settled(r) && r.pending == []
  {
    hide Run, Step, AllSmall, Clocked, Served, ServedFor, DuePolls, TeardownPolls, Settled, Core.GracefulShutdown;
    after := PollsServe(cfg, c.GracefulShutdown(cfg, draw).core, t, draw, Deallocate, TeardownPolls(cfg));
    ShutdownCompletes(cfg, before, c, draw, after);
  }
}
