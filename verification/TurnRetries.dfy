/** Retransmission, nonce retries, and why every request comes to an end. */
module TurnRetries {
  import opened Bytes
  import opened Stun
  import opened TurnState
  import opened TurnInvariant
  import opened TurnRuns

  // ---------------------------------------------------------------- the ladder

  /** The timeout after the k-th send doubles from 200 ms up to 1600 ms. */
  lemma {:induction false} RtoClosedForm(k: nat)
    requires k >= 1
    ensures Rto(k) == Min(INITIAL_RTO * Pow2(k - 1), MAX_RTO)
  {
    if k > 1 { RtoClosedForm(k - 1); }
  }

  lemma LadderTotal()
    ensures Elapsed(MAX_TRANSMISSIONS) == 7_800 * MILLISECOND
  {
    assert Rto(2) == 400 * MILLISECOND;
    assert Rto(3) == 800 * MILLISECOND;
    assert Rto(4) == MAX_RTO;
    assert Rto(5) == Rto(6) == Rto(7) == MAX_RTO;
    assert Elapsed(2) == 600 * MILLISECOND;
    assert Elapsed(4) == 3_000 * MILLISECOND;
    assert Elapsed(6) == 6_200 * MILLISECOND;
  }

  /** Failed maintenance backs off from 1 s, doubling up to 30 s and staying there. */
  lemma RetryLadder(failures: nat)
    ensures SECOND <= RetryDelay(failures) <= RetryDelay(failures + 1) <= 30 * SECOND
    ensures 1 <= failures <= 4 ==> RetryDelay(failures + 1) == 2 * RetryDelay(failures)
    ensures failures >= 6 ==> RetryDelay(failures) == 30 * SECOND
  {
    assert Pow2(1) == 2 && Pow2(2) == 4 && Pow2(3) == 8 && Pow2(4) == 16 && Pow2(5) == 32;
    var k := Min(Max(failures - 1, 0), 5);
    assert k == 0 || k == 1 || k == 2 || k == 3 || k == 4 || k == 5;
  }

  predicate RetryScheduled(r: Core, operation: Operation, now: nat) {
    match operation
    case Refresh => r.allocationRefresh.Some? && r.allocationRefresh.value <= now + 30 * SECOND
    case Permission => r.permissionRetry.Some? && r.permissionRetry.value <= now + 30 * SECOND
    case Channel => r.channelRetry.Some? && r.channelRetry.value <= now + 30 * SECOND
    case _ => false
  }

  predicate Maintains(operation: Operation) {
    operation == Refresh || operation == Permission || operation == Channel
  }

  /**
   A maintenance request that fails while the allocation lives leaves the core READY, the relay and expiry
   untouched, and the request scheduled again; only a channel bind that fails for the fourth time in a row
   gives the allocation up, and then its expiry is kept so that shutdown can still return it.
   */
  lemma FailedMaintenanceRetries(c: Core, operation: Operation, status: int, code: int, now: nat)
    requires c.state == Ready && c.allocationExpiresAt.Some? && now < c.allocationExpiresAt.value
    requires Maintains(operation)
    ensures var r := c.CompleteFailure(operation, status, code, now);
            && r.relay == c.relay && r.allocationExpiresAt == c.allocationExpiresAt
            && (r.state == Ready <==> operation != Channel || c.channelFailures < 3)
            && (r.state == Ready ==> RetryScheduled(r, operation, now) && r.pending == c.pending)
            && (r.state != Ready ==> r.state == Destroying && r.pending == [] && r.controls == [] && r.channel == None)
  {
    hide Core.PushEvent, Core.SetState, RetryDelay;
    CompleteFrame(c, operation, status, code);
    var d := c.Complete(operation, status, code);
    RetryLadder(Min(d.refreshFailures + 1, 255));
    RetryLadder(Min(d.permissionFailures + 1, 255));
    RetryLadder(Min(d.channelFailures + 1, 255));
    if operation == Channel && c.channelFailures >= 3 {
      var e := d.ScheduleRetry(Channel, now).core.(pending := []).Unbound();
      PushEventFrame(e, RebindExhausted);
      SetStateFrame(e.PushEvent(RebindExhausted), Destroying);
    }
  }

  predicate TimesOut(cfg: Config, p: Pending, now: nat) {
    now >= p.nextAttempt && (p.transmissions >= MAX_TRANSMISSIONS || cfg.transport == Stream)
  }

  /**
   In every reachable state each request is within its retry limits, and one that times out has gone
   unanswered for at least 7.8 s (12 s on a stream, where it is sent once).
   */
  lemma RequestsWithinLimits(cfg: Config, calls: seq<Call>, i: nat)
    requires cfg.Valid() && i < |Run(cfg, Initial(), calls).pending|
    ensures var p := Run(cfg, Initial(), calls).pending[i];
            && p.nonceRetries <= cfg.profile.maxNonceRetries
            && 1 <= p.transmissions <= (if cfg.transport == Datagram then MAX_TRANSMISSIONS else 1)
            && (forall now: nat :: TimesOut(cfg, p, now) ==>
                  now >= p.sentAt + (if cfg.transport == Datagram then 7_800 * MILLISECOND else 12 * SECOND))
  {
    hide Run, RequestKind;
    ReachableInv(cfg, calls);
    LadderTotal();
    assert PendingOk(Run(cfg, Initial(), calls).pending[i], Run(cfg, Initial(), calls).state,
                     Run(cfg, Initial(), calls).AuthComplete(), cfg);
  }

  // ---------------------------------------------------------------- one poll

  function Resent(p: Pending, now: nat): Pending {
    var rto := Min(2 * p.rto, MAX_RTO);
    p.(transmissions := p.transmissions + 1, rto := rto, nextAttempt := now + rto)
  }

  /** What a timer sweep that starts at index i makes of the j-th entry, if it keeps it. */
  predicate Swept(cfg: Config, p: Pending, q: Pending, now: nat, visited: bool) {
    if !visited || now < p.nextAttempt then q == p
    else !TimesOut(cfg, p, now) && q == Resent(p, now)
  }

  ghost predicate Source(cfg: Config, pending: seq<Pending>, q: Pending, i: nat, now: nat) {
    exists j | 0 <= j < |pending| :: Swept(cfg, pending[j], q, now, j >= i)
  }

  ghost predicate SweptFrom(cfg: Config, pending: seq<Pending>, result: seq<Pending>, i: nat, now: nat) {
    forall k | 0 <= k < |result| :: Source(cfg, pending, result[k], i, now)
  }

  /** Every entry left by a sweep was not due, or is one of the due entries sent once more. */
  lemma {:induction false} SweepKeepsOrResends(c: Core, cfg: Config, i: nat, now: nat)
    requires Inv(c, cfg)
    ensures SweptFrom(cfg, c.pending, c.ExpireFrom(cfg, i, now).pending, i, now)
    decreases |c.pending| - i
  {
    hide Inv, Core.CompleteFailure, Core.Retransmitted, Core.Taken, FindOperation, RequestKind, Rto, Elapsed, SweptFrom;
    if i >= |c.pending| {
      SweepOver(cfg, c.pending, i, now);
    } else if now < c.pending[i].nextAttempt {
      SweepKeepsOrResends(c, cfg, i + 1, now);
      SweepNotDue(cfg, c.pending, c.ExpireFrom(cfg, i + 1, now).pending, i, now);
    } else if TimesOut(cfg, c.pending[i], now) {
      TakenInv(c, cfg, i);
      CompleteFailureInv(c.Taken(i), cfg, c.pending[i].operation, RESULT_TIMEOUT, 0, now);
      var d := c.Taken(i).CompleteFailure(c.pending[i].operation, RESULT_TIMEOUT, 0, now);
      SweepKeepsOrResends(d, cfg, i, now);
      SweepTimedOut(cfg, c, d.pending, d.ExpireFrom(cfg, i, now).pending, i, now);
    } else {
      RetransmittedInv(c, cfg, i, now);
      var d := c.Retransmitted(i, now);
      SweepKeepsOrResends(d, cfg, i + 1, now);
      RetransmittedTable(c, i, now);
      SweepResent(cfg, c.pending, d.ExpireFrom(cfg, i + 1, now).pending, i, now);
    }
  }

  lemma RetransmittedTable(c: Core, i: nat, now: nat)
    requires i < |c.pending|
    ensures c.Retransmitted(i, now).pending == c.pending[i := Resent(c.pending[i], now)]
  {
    hide Core.QueuePacket;
  }

  lemma SweepOver(cfg: Config, pending: seq<Pending>, i: nat, now: nat)
    requires i >= |pending|
    ensures SweptFrom(cfg, pending, pending, i, now)
  {
    forall k | 0 <= k < |pending| ensures Source(cfg, pending, pending[k], i, now) {
      assert Swept(cfg, pending[k], pending[k], now, k >= i);
    }
  }

  lemma SweepNotDue(cfg: Config, pending: seq<Pending>, result: seq<Pending>, i: nat, now: nat)
    requires i < |pending| && now < pending[i].nextAttempt && SweptFrom(cfg, pending, result, i + 1, now)
    ensures SweptFrom(cfg, pending, result, i, now)
  {
    forall k | 0 <= k < |result| ensures Source(cfg, pending, result[k], i, now) {
      assert Source(cfg, pending, result[k], i + 1, now);
      var j :| 0 <= j < |pending| && Swept(cfg, pending[j], result[k], now, j >= i + 1);
      assert Swept(cfg, pending[j], result[k], now, j >= i);
    }
  }

  lemma SweepTimedOut(cfg: Config, c: Core, left: seq<Pending>, result: seq<Pending>, i: nat, now: nat)
    requires i < |c.pending| && (left == [] || left == c.Taken(i).pending) && SweptFrom(cfg, left, result, i, now)
    ensures SweptFrom(cfg, c.pending, result, i, now)
  {
    hide Swept;
    forall k | 0 <= k < |result| ensures Source(cfg, c.pending, result[k], i, now) {
      assert Source(cfg, left, result[k], i, now);
      var j :| 0 <= j < |left| && Swept(cfg, left[j], result[k], now, j >= i);
      var j' := if j < i then j else j + 1;
      assert Swept(cfg, c.pending[j'], result[k], now, j' >= i);
    }
  }

  lemma SweepResent(cfg: Config, pending: seq<Pending>, result: seq<Pending>, i: nat, now: nat)
    requires i < |pending| && now >= pending[i].nextAttempt && !TimesOut(cfg, pending[i], now)
    requires SweptFrom(cfg, pending[i := Resent(pending[i], now)], result, i + 1, now)
    ensures SweptFrom(cfg, pending, result, i, now)
  {
    var d := pending[i := Resent(pending[i], now)];
    forall k | 0 <= k < |result| ensures Source(cfg, pending, result[k], i, now) {
      assert Source(cfg, d, result[k], i + 1, now);
      var j :| 0 <= j < |d| && Swept(cfg, d[j], result[k], now, j >= i + 1);
      assert Swept(cfg, pending[j], result[k], now, j >= i);
    }
  }

  // ---------------------------------------------------------------- one response

  /** What a response to `p` may leave: other requests, the same one retried, or the Deallocate of a late Allocate. */
  predicate LeftBy(p: Pending, others: seq<Pending>, q: Pending) {
    || q in others
    || (q.operation == p.operation && q.nonceRetries == p.nonceRetries + 1 && q.transmissions == 1)
    || (p.operation == Allocate && q.operation == Deallocate)
  }

  ghost predicate LeavesOnly(c: Core, p: Pending, r: Core) {
    forall k | 0 <= k < |r.pending| :: LeftBy(p, c.pending, r.pending[k])
  }

  lemma AuthRetryLeaves(c: Core, cfg: Config, m: Message, p: Pending, code: nat, draw: Draw)
    requires FindOperation(c.pending, p.operation).None? && Parse(m.raw) == Ok(m)
    ensures LeavesOnly(c, p, c.AuthRetry(cfg, m, p, code, draw).core)
  {
    hide Core.StartOperation, Parse, AttributeValue, FindOperation;
    var realm := if AttributeValue(m, ATTR_REALM).Some? then AttributeValue(m, ATTR_REALM)
                 else if code == 438 then c.realm else None;
    var nonce := AttributeValue(m, ATTR_NONCE);
    if realm.Some? && nonce.Some? {
      var a := c.SetAuth(cfg, realm.value, nonce.value);
      StartedFresh(a, cfg, p.operation, true, p.nonceRetries + 1, draw);
      var r := a.StartOperation(cfg, p.operation, true, p.nonceRetries + 1, draw);
      assert forall k | 0 <= k < |r.core.pending| && k < |c.pending| :: r.core.pending[k] == c.pending[k];
    }
  }

  /**
   Any response, to any request: what is left pending are the other requests and at most the same request
   with one nonce retry fewer to go.
   */
  lemma ResponseLeaves(c: Core, cfg: Config, m: Message, p: Pending, now: nat, draw: Draw)
    requires Inv(c, cfg) && cfg.Valid() && Answerable(c, p.operation) && Parse(m.raw) == Ok(m)
    requires (p.authenticated ==> c.AuthComplete()) && ClassOf(m.kind) in {Success, Error}
    ensures LeavesOnly(c, p, c.Response(cfg, m, p, now, draw).0)
  {
    hide Inv, Core.CompleteFailure, Core.CompleteSuccess, Core.DestroyAllocation, Core.PushEvent, Core.AuthRetry,
         Parse, ClassOf, ErrorCode, FindOperation, RequiresAllocationRecreate;
    if ClassOf(m.kind) == Error {
      var code := if ErrorCode(m).Some? then ErrorCode(m).value else 0;
      var event := ResponseError(p.operation.Method(), if code == 0 then RESULT_PROTOCOL else 0, code, c.state);
      AuthRetryInv(c, cfg, m, p, code, draw);
      AuthRetryLeaves(c, cfg, m, p, code, draw);
      var retry := c.AuthRetry(cfg, m, p, code, draw).core;
      PushEventInv(c, cfg, event);
      PushEventInv(retry, cfg, event);
      CompleteFailureInv(c.PushEvent(event), cfg, p.operation, RESULT_PROTOCOL, code, now);
      DestroyAllocationInv(c.PushEvent(event), cfg, p.operation, RESULT_PROTOCOL, code);
      CompleteFailureInv(retry.PushEvent(event), cfg, p.operation, RESULT_PROTOCOL, code, now);
    } else if !p.authenticated {
      CompleteFailureInv(c, cfg, p.operation, RESULT_AUTHENTICATION, 0, now);
    } else {
      CompleteSuccessInv(c, cfg, p.operation, m, now, draw);
      CompleteFailureInv(c.CompleteSuccess(cfg, p.operation, m, now, draw).core, cfg, p.operation, RESULT_PROTOCOL, 0,
                         now);
    }
  }

  // ---------------------------------------------------------------- coming to an end

  /**
   How many due polls a request can still see: those that send it again, in this transaction and in each that
   a nonce retry may start, and the one that times it out.
   */
  function Measure(cfg: Config, p: Pending): (n: int)
    ensures p.nonceRetries <= cfg.profile.maxNonceRetries && p.transmissions <= MAX_TRANSMISSIONS ==> n >= 1
  {
    6 * (cfg.profile.maxNonceRetries - p.nonceRetries) + 8 - p.transmissions
  }

  /** `q` is an entry that was not due, or a due one strictly nearer its end. */
  ghost predicate NearerSource(cfg: Config, pending: seq<Pending>, q: Pending, now: nat) {
    exists j | 0 <= j < |pending| ::
      && pending[j].operation == q.operation
      && (if now < pending[j].nextAttempt then q == pending[j] else Measure(cfg, q) < Measure(cfg, pending[j]))
  }

  /** That holds of every request left by a timer sweep. */
  lemma SweepNearer(c: Core, cfg: Config, now: nat)
    requires Inv(c, cfg)
    ensures var r := c.ExpireFrom(cfg, 0, now).pending;
            forall k | 0 <= k < |r| :: NearerSource(cfg, c.pending, r[k], now)
  {
    hide Inv, Core.ExpireFrom, TimesOut;
    SweepKeepsOrResends(c, cfg, 0, now);
    var r := c.ExpireFrom(cfg, 0, now).pending;
    forall k | 0 <= k < |r|
      ensures NearerSource(cfg, c.pending, r[k], now)
    {
      assert Source(cfg, c.pending, r[k], 0, now);
      var j :| 0 <= j < |c.pending| && Swept(cfg, c.pending[j], r[k], now, j >= 0);
      assert c.pending[j].operation == r[k].operation;
    }
  }

  /** After any response the request it answered is gone, or goes on, one retry used up, no farther from its end. */
  lemma ResponseNearer(c: Core, cfg: Config, m: Message, p: Pending, now: nat, draw: Draw, k: nat)
    requires Inv(c, cfg) && cfg.Valid() && Answerable(c, p.operation) && Parse(m.raw) == Ok(m)
    requires (p.authenticated ==> c.AuthComplete()) && ClassOf(m.kind) in {Success, Error}
    requires p.transmissions <= MAX_TRANSMISSIONS && k < |c.Response(cfg, m, p, now, draw).0.pending|
    ensures var q := c.Response(cfg, m, p, now, draw).0.pending[k];
            q.operation == p.operation ==>
              q.nonceRetries == p.nonceRetries + 1 && q.transmissions == 1 && Measure(cfg, q) <= Measure(cfg, p)
  {
    hide Inv, Core.Response, Parse, ClassOf;
    ResponseLeaves(c, cfg, m, p, now, draw);
    var q := c.Response(cfg, m, p, now, draw).0.pending[k];
    assert LeftBy(p, c.pending, q);
  }

  predicate Resolved(r: Core, operation: Operation) {
    if operation == Allocate then r.state in {Ready, Deallocating, Destroying}
    else r.state == Deallocated || r.destroyed
  }

  /** The request goes on in the same state, no farther from its end. */
  predicate GoesOn(cfg: Config, c: Core, r: Core, operation: Operation, strictly: bool) {
    && r.state == c.state && Sole(c, operation) && Sole(r, operation)
    && Measure(cfg, r.pending[0]) <= Measure(cfg, c.pending[0])
    && (strictly ==> Measure(cfg, r.pending[0]) < Measure(cfg, c.pending[0]))
  }

  lemma RetryNearer(cfg: Config, p: Pending, q: Pending)
    requires q.nonceRetries == p.nonceRetries + 1 && q.transmissions == 1 && p.transmissions <= MAX_TRANSMISSIONS
    ensures Measure(cfg, q) <= Measure(cfg, p)
  {
  }

  lemma AuthRetryGoesOn(c: Core, cfg: Config, m: Message, p: Pending, code: nat, draw: Draw)
    requires Inv(c, cfg) && cfg.Valid() && Answerable(c, p.operation) && Parse(m.raw) == Ok(m) && c.pending == []
    ensures var r := c.AuthRetry(cfg, m, p, code, draw);
            r.ok ==> r.core.state == c.state && Sole(r.core, p.operation)
                     && r.core.pending[0].nonceRetries == p.nonceRetries + 1 && r.core.pending[0].transmissions == 1
  {
    hide Inv, Core.StartOperation, Parse, AttributeValue;
    AuthRetryInv(c, cfg, m, p, code, draw);
    var realm := if AttributeValue(m, ATTR_REALM).Some? then AttributeValue(m, ATTR_REALM)
                 else if code == 438 then c.realm else None;
    var nonce := AttributeValue(m, ATTR_NONCE);
    if realm.Some? && nonce.Some? {
      StartedFresh(c.SetAuth(cfg, realm.value, nonce.value), cfg, p.operation, true, p.nonceRetries + 1, draw);
    }
  }

  lemma ErrorResolves(c: Core, cfg: Config, m: Message, p: Pending, now: nat, draw: Draw)
    requires Inv(c, cfg) && cfg.Valid() && Answerable(c, p.operation) && Parse(m.raw) == Ok(m) && c.pending == []
    requires p.operation in {Allocate, Deallocate}
    ensures var r := c.ErrorResponse(cfg, m, p, now, draw);
            || Resolved(r, p.operation)
            || (r.state == c.state && Sole(r, p.operation)
                && r.pending[0].nonceRetries == p.nonceRetries + 1 && r.pending[0].transmissions == 1)
  {
    hide Inv, Core.PushEvent, Core.CompleteFailure, Core.DestroyAllocation, Core.AuthRetry, Parse, ErrorCode,
         FindOperation, RequiresAllocationRecreate;
    var code := if ErrorCode(m).Some? then ErrorCode(m).value else 0;
    var event := ResponseError(p.operation.Method(), if code == 0 then RESULT_PROTOCOL else 0, code, c.state);
    AuthRetryInv(c, cfg, m, p, code, draw);
    AuthRetryGoesOn(c, cfg, m, p, code, draw);
    var retry := c.AuthRetry(cfg, m, p, code, draw).core;
    PushEventInv(c, cfg, event);
    PushEventInv(retry, cfg, event);
    CompleteFailureInv(c.PushEvent(event), cfg, p.operation, RESULT_PROTOCOL, code, now);
    DestroyAllocationInv(c.PushEvent(event), cfg, p.operation, RESULT_PROTOCOL, code);
    CompleteFailureInv(retry.PushEvent(event), cfg, p.operation, RESULT_PROTOCOL, code, now);
  }

  lemma ResponseResolves(c: Core, cfg: Config, m: Message, p: Pending, now: nat, draw: Draw)
    requires Inv(c, cfg) && cfg.Valid() && Answerable(c, p.operation) && Parse(m.raw) == Ok(m) && c.pending == []
    requires p.operation in {Allocate, Deallocate} && ClassOf(m.kind) in {Success, Error}
    requires p.authenticated ==> c.AuthComplete()
    ensures var r := c.Response(cfg, m, p, now, draw).0;
            || Resolved(r, p.operation)
            || (r.state == c.state && Sole(r, p.operation)
                && r.pending[0].nonceRetries == p.nonceRetries + 1 && r.pending[0].transmissions == 1)
  {
    hide Inv, Core.CompleteFailure, Core.CompleteSuccess, Core.ErrorResponse, Parse, ClassOf, FindOperation;
    if ClassOf(m.kind) == Error {
      ErrorResolves(c, cfg, m, p, now, draw);
    } else if !p.authenticated {
      CompleteFailureInv(c, cfg, p.operation, RESULT_AUTHENTICATION, 0, now);
    } else {
      CompleteSuccessInv(c, cfg, p.operation, m, now, draw);
      CompleteFailureInv(c.CompleteSuccess(cfg, p.operation, m, now, draw).core, cfg, p.operation, RESULT_PROTOCOL, 0,
                         now);
    }
  }

  lemma InputResolves(c: Core, cfg: Config, packet: seq<Byte>, now: nat, draw: Draw, operation: Operation)
    requires Inv(c, cfg) && cfg.Valid() && operation in {Allocate, Deallocate} && Sole(c, operation)
    ensures var r := c.InputStun(cfg, packet, now, draw).0;
            Resolved(r, operation) || GoesOn(cfg, c, r, operation, false)
  {
    hide TableOk, QueueOk, Core.PushEvent, Core.Response, Parse, ClassOf, MethodOf, Position, FindOperation,
         WithoutTransaction, FingerprintValid, VerifyIntegrity, RequiresIntegrity, FingerprintedAllocationMismatch,
         ErrorCode, RequestKind, Rto, Elapsed;
    if Parse(packet).Ok? {
      var m := Parse(packet).value;
      var found := Position(c.pending, m.transaction, MethodOf(m.kind));
      if ClassOf(m.kind) in {Success, Error} && found.Some? {
        var p := c.pending[0];
        TakenInv(c, cfg, 0);
        ResponseResolves(c.Taken(0), cfg, m, p, now, draw);
        var r := c.Taken(0).Response(cfg, m, p, now, draw).0;
        if !Resolved(r, operation) { RetryNearer(cfg, p, r.pending[0]); }
        if ErrorCode(m).Some? {
          PushEventInv(c, cfg, ResponseError(MethodOf(m.kind), RESULT_AUTHENTICATION, ErrorCode(m).value, c.state));
        }
      }
    }
  }

  predicate DuePoll(c: Core, call: Call) {
    call.CallPoll? && c.pending != [] && call.now >= c.pending[0].nextAttempt
  }

  lemma SoleSweep(c: Core, cfg: Config, now: nat)
    requires Inv(c, cfg) && |c.pending| == 1
    ensures var r, p := c.ExpireFrom(cfg, 0, now), c.pending[0];
            && (now < p.nextAttempt ==> r == c)
            && (TimesOut(cfg, p, now) && p.operation in {Allocate, Deallocate} ==>
                  r.state == if p.operation == Allocate then Destroying else Deallocated)
            && (now >= p.nextAttempt && !TimesOut(cfg, p, now) ==>
                  r == c.Retransmitted(0, now) && r.pending == [Resent(p, now)] && r.state == c.state)
  {
    hide TableOk, QueueOk, Core.CompleteFailure, Core.Taken, Core.QueuePacket, FindOperation, RequestKind, Rto, Elapsed;
    var p := c.pending[0];
    if TimesOut(cfg, p, now) {
      TakenInv(c, cfg, 0);
      CompleteFailureInv(c.Taken(0), cfg, p.operation, RESULT_TIMEOUT, 0, now);
      var d := c.Taken(0).CompleteFailure(p.operation, RESULT_TIMEOUT, 0, now);
      assert d.pending == [] && d.ExpireFrom(cfg, 0, now) == d;
    } else if now >= p.nextAttempt {
      RetransmittedInv(c, cfg, 0, now);
      var d := c.Retransmitted(0, now);
      assert |d.pending| == 1 && d.ExpireFrom(cfg, 1, now) == d;
    } else {
      assert c.ExpireFrom(cfg, 1, now) == c;
    }
  }

  lemma PollResolves(c: Core, cfg: Config, call: Call, operation: Operation)
    requires Inv(c, cfg) && cfg.Valid() && operation in {Allocate, Deallocate} && Sole(c, operation) && call.CallPoll?
    ensures var r := Step(cfg, c, call);
            && (Resolved(r, operation) || GoesOn(cfg, c, r, operation, DuePoll(c, call)))
            && (operation == Allocate ==> r.state == Allocating || r.state == Destroying)
  {
    hide QueueOk, Core.ExpireFrom, Core.Retransmitted, Core.Maintenance, Core.DestroyAllocation, Core.NextDeadline,
         FindOperation, RequestKind, Rto, Elapsed;
    assert PendingOk(c.pending[0], c.state, c.AuthComplete(), cfg);
    SoleSweep(c, cfg, call.now);
    ExpireInv(c, cfg, 0, call.now);
  }

  /** Whatever is called, a lone Allocate or Deallocate goes on or is resolved; a due poll brings it nearer. */
  lemma StepResolves(cfg: Config, c: Core, call: Call, operation: Operation)
    requires Inv(c, cfg) && cfg.Valid() && operation in {Allocate, Deallocate} && Sole(c, operation)
    ensures var r := Step(cfg, c, call);
            Resolved(r, operation) || GoesOn(cfg, c, r, operation, DuePoll(c, call))
  {
    hide Core.SetState, Core.StartOperation, Core.PushEvent, Core.InputStun, Core.Poll, RequestKind, QueueOk, Rto,
         Elapsed, Measure;
    assert PendingOk(c.pending[0], c.state, c.AuthComplete(), cfg);
    match call {
      case CallInput(packet, now, draw) => InputResolves(c, cfg, packet, now, draw, operation);
      case CallPoll(_, _, _, _) => PollResolves(c, cfg, call, operation);
      case CallDestroy(status) => ForceDestroyInv(c, cfg, status);
      case _ =>
    }
  }

  /** How many polls of a run came when the request under way was due. */
  function DuePolls(cfg: Config, c: Core, calls: seq<Call>): nat
    decreases |calls|
  {
    if calls == [] then 0
    else (if DuePoll(c, calls[0]) then 1 else 0) + DuePolls(cfg, Step(cfg, c, calls[0]), calls[1..])
  }

  /** A state in which the operation is over stays that way. */
  lemma ResolvedStays(cfg: Config, c: Core, call: Call)
    requires Inv(c, cfg) && cfg.Valid() && c.state == Deallocated
    ensures var r := Step(cfg, c, call); r.state == Deallocated || r.destroyed
  {
    hide Core.SetState, Core.StartOperation, Core.PushEvent, Core.Response, RequestKind, QueueOk, Rto, Elapsed,
         Core.NextDeadline;
    if c.pending != [] && PendingOk(c.pending[0], c.state, c.AuthComplete(), cfg) { assert false; }
    if call.CallDestroy? { ForceDestroyInv(c, cfg, call.status); }
  }

  /** A poll that finds the request under way due, or finds none. */
  predicate Serves(c: Core, call: Call) {
    call.CallPoll? && (c.pending == [] || DuePoll(c, call))
  }

  /** How many polls of a run did. */
  function Served(cfg: Config, c: Core, calls: seq<Call>): nat
    decreases |calls|
  {
    if calls == [] then 0
    else (if Serves(c, calls[0]) then 1 else 0) + Served(cfg, Step(cfg, c, calls[0]), calls[1..])
  }

  lemma OverIsIdle(cfg: Config, c: Core)
    requires Inv(c, cfg) && (c.state == Deallocated || c.destroyed)
    ensures c.pending == []
  {
    hide QueueOk, RequestKind, Rto, Elapsed;
    if c.pending != [] && PendingOk(c.pending[0], c.state, c.AuthComplete(), cfg) { assert false; }
  }

  /**
   A pending Deallocate always comes to DEALLOCATED unless the core is destroyed: it can outlive a run only
   if fewer polls came when it was due than its measure. Nor does it ever see more due polls than that.
   */
  lemma {:induction false} DeallocateResolves(cfg: Config, c: Core, calls: seq<Call>)
    requires Inv(c, cfg) && cfg.Valid()
    requires Sole(c, Deallocate) || c.state == Deallocated || c.destroyed
    ensures var r := Run(cfg, c, calls);
            || r.state == Deallocated || r.destroyed
            || (Sole(c, Deallocate) && Sole(r, Deallocate) && r.state == Deallocating
                && Served(cfg, c, calls) + Measure(cfg, r.pending[0]) <= Measure(cfg, c.pending[0]))
    ensures DuePolls(cfg, c, calls) <= if Sole(c, Deallocate) then Measure(cfg, c.pending[0]) else 0
    decreases |calls|
  {
    hide Step, RequestKind, QueueOk, Rto, Elapsed, Measure;
    if Sole(c, Deallocate) { assert PendingOk(c.pending[0], c.state, c.AuthComplete(), cfg); }
    if calls != [] {
      var s := Step(cfg, c, calls[0]);
      StepInv(cfg, c, calls[0]);
      if Sole(c, Deallocate) {
        StepResolves(cfg, c, calls[0], Deallocate);
      } else {
        OverIsIdle(cfg, c);
        if c.state == Deallocated { ResolvedStays(cfg, c, calls[0]); }
      }
      if Sole(s, Deallocate) { assert PendingOk(s.pending[0], s.state, s.AuthComplete(), cfg); }
      DeallocateResolves(cfg, s, calls[1..]);
    }
  }

  /** The most due polls a request can see: 25 with the default profile. */
  function AllPolls(cfg: Config): nat { 6 * cfg.profile.maxNonceRetries + 7 }

  lemma SoleMeasure(c: Core, cfg: Config, op: Operation)
    requires Inv(c, cfg) && Sole(c, op)
    ensures 1 <= Measure(cfg, c.pending[0]) <= AllPolls(cfg)
  {
    hide FieldsOk, QueueOk, RequestKind, Rto, Elapsed;
    assert PendingOk(c.pending[0], c.state, c.AuthComplete(), cfg);
  }

  /** So that many polls, each when it is due, always see it to its end, and no run brings it more. */
  lemma DeallocateResolvesInTime(cfg: Config, c: Core, calls: seq<Call>)
    requires Inv(c, cfg) && cfg.Valid() && Sole(c, Deallocate)
    ensures var r := Run(cfg, c, calls);
            Served(cfg, c, calls) >= AllPolls(cfg) ==> r.state == Deallocated || r.destroyed
    ensures DuePolls(cfg, c, calls) <= AllPolls(cfg)
  {
    hide Inv, Run, Step, DuePolls, Served, Measure, AllPolls;
    DeallocateResolves(cfg, c, calls);
    RunInv(cfg, c, calls);
    SoleMeasure(c, cfg, Deallocate);
    var r := Run(cfg, c, calls);
    if Sole(r, Deallocate) { SoleMeasure(r, cfg, Deallocate); }
  }
}
