/** What a poll puts into the control queue: requests sent again, requests started, and keepalives. */
module TurnSends {
  import opened Bytes
  import opened Stun
  import opened TurnState
  import opened TurnInvariant
  import opened TurnFits
  import opened TurnAlive
  import opened TurnRuns
  import opened TurnRetries
  import opened TurnProgress
  import opened TurnRequests

  // ---------------------------------------------------------------- what maintenance sends

  /** The packet of the request for `op` that is under way in `r` and was not in `a`. */
  function Started(a: Core, r: Core, op: Operation): seq<seq<Byte>> {
    if r.Has(op) && !a.Has(op) then [Entry(r, op).value.packet] else []
  }

  function AllStarted(a: Core, r: Core): seq<seq<Byte>> {
    Started(a, r, Refresh) + Started(a, r, Permission) + Started(a, r, Channel)
  }

  /** The keepalive on the wire. */
  function Beat(): seq<Byte> { [0x40, 0, 0, 1, 0xff, 0, 0, 0] }

  /** The request for `op` was started exactly if it was due and not under way, signed with the credentials of `a`. */
  ghost predicate StartedWell(a: Core, r: Core, cfg: Config, op: Operation, now: nat, draw: Draw) {
    && (r.Has(op) && !a.Has(op) <==> DueFor(a, op, now) && !a.Has(op))
    && (r.Has(op) && !a.Has(op) ==>
          && FirstSend(Entry(r, op).value, cfg, op, true, 0, draw)
          && ServerReads(Entry(r, op).value.packet, a, cfg, op, draw.transaction, true))
  }

  /** One stage of maintenance: what it queues, and what it leaves alone. */
  ghost predicate Stage(a: Core, r: Core, cfg: Config, op: Operation, wanted: bool, draw: Draw, s: Core, ok: bool) {
    && Inv(s, cfg) && s.state == Ready && SameCredentials(a, s)
    && s.maintenanceRefresh == r.maintenanceRefresh && s.keepalive == r.keepalive && s.channel == r.channel
    && (op != Refresh || !wanted ==> s.allocationRefresh == r.allocationRefresh)
    && (op != Permission || !wanted ==> s.permissionRetry == r.permissionRetry)
    && (op != Channel || !wanted ==> s.channelRetry == r.channelRetry)
    && (wanted ==> Unscheduled(s, op))
    && (forall o: Operation | o != op :: Entry(s, o) == Entry(r, o))
    && (if wanted && ok then
          && s.Has(op) && FirstSend(Entry(s, op).value, cfg, op, true, 0, draw)
          && ServerReads(Entry(s, op).value.packet, a, cfg, op, draw.transaction, true)
          && s.controls == LastSixteen(r.controls + [Entry(s, op).value.packet])
        else Entry(s, op) == Entry(r, op) && s.controls == r.controls)
  }

  /** Its own timer has been given up. */
  predicate Unscheduled(c: Core, op: Operation) {
    match op
    case Refresh => c.allocationRefresh == None
    case Permission => c.permissionRetry == None
    case Channel => c.channelRetry == None
    case _ => true
  }

  function Without(c: Core, op: Operation): Core {
    match op
    case Refresh => c.(allocationRefresh := None)
    case Permission => c.(permissionRetry := None)
    case Channel => c.(channelRetry := None)
    case _ => c
  }

  lemma ReadsAlike(packet: seq<Byte>, a: Core, r: Core, cfg: Config, op: Operation, transaction: Transaction)
    requires SameCredentials(a, r) && ServerReads(packet, r, cfg, op, transaction, true)
    ensures ServerReads(packet, a, cfg, op, transaction, true)
  {
    hide Parse, FingerprintValid, Asks, AttributeValue, VerifyIntegrity;
  }

  lemma StageSends(a: Core, r: Core, cfg: Config, now: nat, op: Operation, wanted: bool, draw: Draw)
    requires Inv(r, cfg) && cfg.Valid() && r.state == Ready && SameCredentials(a, r)
    requires op in {Refresh, Permission, Channel} && (wanted ==> !r.Has(op))
    ensures var s := r.Maintained(cfg, wanted, op, draw); Stage(a, r, cfg, op, wanted, draw, s.core, s.ok)
  {
    hide TableOk, QueueOk, Core.StartOperation, FindOperation, Fits, ServerReads, LastSixteen, Core.Maintained;
    MaintainedInv(r, cfg, now, wanted, op, draw);
    MaintainedIs(r, cfg, wanted, op, draw);
    if wanted {
      var t := Without(r, op);
      OpenWhenReady(r, cfg);
      QueueBound(r.controls, r.shuttingDown);
      StartsExactly(t, cfg, op, true, 0, draw);
      StartFrame(t, cfg, op, true, 0, draw);
      if Fits(t, cfg, op, true) {
        StartSends(t, cfg, op, true, 0, draw);
        var s := t.StartOperation(cfg, op, true, 0, draw).core;
        ReadsAlike(s.pending[|t.pending|].packet, a, t, cfg, op, draw.transaction);
        AppendedEntries(t, s, op);
      } else {
        StartedFresh(t, cfg, op, true, 0, draw);
      }
    }
  }

  lemma MaintainedIs(c: Core, cfg: Config, wanted: bool, op: Operation, draw: Draw)
    requires op in {Refresh, Permission, Channel}
    ensures c.Maintained(cfg, wanted, op, draw)
            == if wanted then Without(c, op).StartOperation(cfg, op, true, 0, draw) else Outcome(c, true)
  {
    hide Core.StartOperation;
  }

  lemma AppendedEntries(t: Core, s: Core, op: Operation)
    requires |s.pending| == |t.pending| + 1 && s.pending == t.pending + [s.pending[|t.pending|]]
    requires s.pending[|t.pending|].operation == op && !t.Has(op)
    ensures Entry(s, op) == Some(s.pending[|t.pending|])
    ensures forall o: Operation | o != op :: Entry(s, o) == Entry(t, o)
  {
    hide FindOperation;
    forall o: Operation
      ensures Entry(s, o) == if t.Has(o) then Entry(t, o) else if o == op then Some(s.pending[|t.pending|]) else None
    {
      FindAppended(t.pending, s.pending[|t.pending|], o);
    }
  }

  // ---------------------------------------------------------------- the whole of it

  lemma TickSends(c: Core, cfg: Config, now: nat, started: bool)
    requires Inv(c, cfg)
    ensures var r := c.KeepaliveTick(cfg, now, started);
            && r.controls == (if Due(c.keepalive, now) && c.channel.Some? && !started
                              then LastSixteen(c.controls + [Beat()]) else c.controls)
            && r.keepalive == (if Due(c.keepalive, now) then Some(now + cfg.profile.keepaliveInterval) else c.keepalive)
            && r.pending == c.pending && SameBut(c, r.(keepalive := c.keepalive))
  {
    hide TableOk, LastSixteen, Core.QueuePacket, TeardownPacket;
    var t := c.(keepalive := Some(now + cfg.profile.keepaliveInterval));
    if c.channel.Some? {
      BeatBytes();
      QueuedIs(t, Beat());
    }
  }

  lemma BeatBytes()
    ensures Be16(CHANNEL_NUMBER) + Be16(1) + [0xff, 0, 0, 0] == Beat()
  {
    Be16Is(CHANNEL_NUMBER);
    Be16Is(1);
  }

  /** Every timer of `r` but the keepalive, from those of `a`: given up if its request was started, else as it was. */
  predicate TimersMoved(a: Core, r: Core, cfg: Config, now: nat) {
    && r.maintenanceRefresh == (if Due(a.maintenanceRefresh, now) then Some(now + cfg.profile.maintenanceRefresh)
                                else a.maintenanceRefresh)
    && r.keepalive == (if Due(a.keepalive, now) then Some(now + cfg.profile.keepaliveInterval) else a.keepalive)
    && r.allocationRefresh == (if DueFor(a, Refresh, now) && !a.Has(Refresh) then None else a.allocationRefresh)
    && r.permissionRetry == (if DueFor(a, Permission, now) && !a.Has(Permission) then None else a.permissionRetry)
    && r.channelRetry == (if DueFor(a, Channel, now) && !a.Has(Channel) then None else a.channelRetry)
  }

  /** What maintenance of the READY core `a` leaves in `r`. */
  ghost predicate Maintains(a: Core, r: Core, cfg: Config, now: nat, refresh: Draw, permission: Draw, bind: Draw) {
    && StartedWell(a, r, cfg, Refresh, now, refresh)
    && StartedWell(a, r, cfg, Permission, now, permission)
    && StartedWell(a, r, cfg, Channel, now, bind)
    && TimersMoved(a, r, cfg, now)
    && var beats := Due(a.keepalive, now) && a.channel.Some? && AllStarted(a, r) == [];
    && r.controls == LastSixteen(a.controls + AllStarted(a, r) + if beats then [Beat()] else [])
  }

  /** What a stage queued is what it started. */
  lemma StageQueue(a: Core, r: Core, cfg: Config, op: Operation, wanted: bool, draw: Draw, s: Core)
    requires Inv(r, cfg) && Stage(a, r, cfg, op, wanted, draw, s, true) && (wanted ==> !r.Has(op))
    ensures s.controls == LastSixteen(r.controls + Started(r, s, op))
    ensures s.Has(op) && !r.Has(op) <==> wanted
    ensures Started(r, s, op) == [] <==> !wanted
  {
    hide TableOk, TeardownPacket, FindOperation, ServerReads, FirstSend;
    if !wanted { assert r.controls + Started(r, s, op) == r.controls; }
  }

  lemma MaintenanceSends(a: Core, cfg: Config, now: nat, refresh: Draw, permission: Draw, bind: Draw)
    requires Inv(a, cfg) && cfg.Valid() && a.state == Ready && a.Maintenance(cfg, now, refresh, permission, bind).ok
    ensures Maintains(a, a.Maintenance(cfg, now, refresh, permission, bind).core, cfg, now, refresh, permission, bind)
  {
    hide Inv, Core.Maintained, Core.Rescheduled, Core.KeepaliveTick, Due, Core.Has, Stage, Maintains, SameCredentials;
    var due := Due(a.maintenanceRefresh, now);
    var refreshing := Due(a.allocationRefresh, now) && !a.Has(Refresh);
    Itself(a);
    StageSends(a, a, cfg, now, Refresh, refreshing, refresh);
    var s1 := a.Maintained(cfg, refreshing, Refresh, refresh).core;
    StageLeaves(a, a, cfg, Refresh, refreshing, refresh, s1);
    RescheduledSame(a, s1, cfg, due, now);
    var a0 := s1.Rescheduled(cfg, due, now);
    var permitting := (due || Due(a.permissionRetry, now)) && !a0.Has(Permission);
    StageSends(a, a0, cfg, now, Permission, permitting, permission);
    var s2 := a0.Maintained(cfg, permitting, Permission, permission).core;
    StageLeaves(a, a0, cfg, Permission, permitting, permission, s2);
    var binding := (due || Due(a.channelRetry, now)) && !s2.Has(Channel);
    StageSends(a, s2, cfg, now, Channel, binding, bind);
    var s3 := s2.Maintained(cfg, binding, Channel, bind).core;
    StageLeaves(a, s2, cfg, Channel, binding, bind, s3);
    TickSends(s3, cfg, now, refreshing || permitting || binding);
    var d := s3.KeepaliveTick(cfg, now, refreshing || permitting || binding);
    StagesAdd(a, s1, due, a0, s2, s3, d, cfg, now, refreshing, permitting, binding, refresh, permission, bind);
  }

  lemma StageLeaves(a: Core, r: Core, cfg: Config, op: Operation, wanted: bool, draw: Draw, s: Core)
    requires Stage(a, r, cfg, op, wanted, draw, s, true)
    ensures Inv(s, cfg) && s.state == Ready && SameCredentials(a, s)
  {
    hide Inv, SameCredentials, FindOperation, ServerReads, FirstSend, LastSixteen;
  }

  /** Three stages and the keepalive, one after the other. */
  lemma StagesAdd(a: Core, s1: Core, due: bool, a0: Core, s2: Core, s3: Core, d: Core, cfg: Config, now: nat,
                  refreshing: bool, permitting: bool, binding: bool, refresh: Draw, permission: Draw, bind: Draw)
    requires Inv(a, cfg) && Inv(a0, cfg) && Inv(s2, cfg) && Inv(s3, cfg)
    requires due == Due(a.maintenanceRefresh, now) && a0 == s1.Rescheduled(cfg, due, now)
    requires refreshing == (Due(a.allocationRefresh, now) && !a.Has(Refresh))
    requires permitting == ((due || Due(a.permissionRetry, now)) && !a0.Has(Permission))
    requires binding == ((due || Due(a.channelRetry, now)) && !s2.Has(Channel))
    requires Stage(a, a, cfg, Refresh, refreshing, refresh, s1, true)
    requires Stage(a, a0, cfg, Permission, permitting, permission, s2, true)
    requires Stage(a, s2, cfg, Channel, binding, bind, s3, true)
    requires d.controls == (if Due(s3.keepalive, now) && s3.channel.Some? && !(refreshing || permitting || binding)
                            then LastSixteen(s3.controls + [Beat()]) else s3.controls)
    requires d.keepalive == (if Due(s3.keepalive, now) then Some(now + cfg.profile.keepaliveInterval) else s3.keepalive)
    requires d.pending == s3.pending && SameBut(s3, d.(keepalive := s3.keepalive))
    ensures Maintains(a, d, cfg, now, refresh, permission, bind)
  {
    hide Inv, Entry, Core.Has, ServerReads, FirstSend, LastSixteen, Due, Stage, SameBut, TimersMoved, StartedWell,
         Started, Core.Rescheduled;
    StageEntries(a, a, cfg, Refresh, refreshing, refresh, s1);
    StageEntries(a, a0, cfg, Permission, permitting, permission, s2);
    StageEntries(a, s2, cfg, Channel, binding, bind, s3);
    EntriesThrough(a, s1, due, a0, s2, s3, d, cfg, now);
    WantedAlike(a, a0, Permission);
    WantedAlike(a, s2, Channel);
    StartedFrom(a, a, s1, d, cfg, Refresh, now, refresh, refreshing);
    StartedFrom(a, a0, s2, d, cfg, Permission, now, permission, permitting);
    StartedFrom(a, s2, s3, d, cfg, Channel, now, bind, binding);
    StageQueue(a, a, cfg, Refresh, refreshing, refresh, s1);
    StageQueue(a, a0, cfg, Permission, permitting, permission, s2);
    StageQueue(a, s2, cfg, Channel, binding, bind, s3);
    StagesTime(a, s1, due, a0, s2, s3, d, cfg, now, refreshing, permitting, binding, refresh, permission, bind);
    var beats := Due(a.keepalive, now) && a.channel.Some? && !(refreshing || permitting || binding);
    QueueTail(a.controls, Started(a, s1, Refresh), Started(a0, s2, Permission), Started(s2, s3, Channel),
              s1.controls, s2.controls, s3.controls, if beats then [Beat()] else []);
  }

  lemma WantedAlike(a: Core, r: Core, op: Operation)
    requires Entry(r, op) == Entry(a, op)
    ensures r.Has(op) == a.Has(op)
  {
  }

  lemma StartedFrom(a: Core, r: Core, s: Core, d: Core, cfg: Config, op: Operation, now: nat, draw: Draw, wanted: bool)
    requires Entry(r, op) == Entry(a, op) && Entry(d, op) == Entry(s, op)
    requires wanted == (DueFor(a, op, now) && !a.Has(op))
    requires wanted ==> s.Has(op) && FirstSend(Entry(s, op).value, cfg, op, true, 0, draw)
                        && ServerReads(Entry(s, op).value.packet, a, cfg, op, draw.transaction, true)
    requires !wanted ==> Entry(s, op) == Entry(r, op)
    ensures StartedWell(a, d, cfg, op, now, draw) && Started(a, d, op) == Started(r, s, op)
  {
    hide FindOperation, ServerReads, FirstSend, DueFor;
  }

  lemma EntriesThrough(a: Core, s1: Core, due: bool, a0: Core, s2: Core, s3: Core, d: Core, cfg: Config, now: nat)
    requires a0 == s1.Rescheduled(cfg, due, now) && d.pending == s3.pending
    requires forall o: Operation | o != Refresh :: Entry(s1, o) == Entry(a, o)
    requires forall o: Operation | o != Permission :: Entry(s2, o) == Entry(a0, o)
    requires forall o: Operation | o != Channel :: Entry(s3, o) == Entry(s2, o)
    ensures Entry(a0, Permission) == Entry(a, Permission) && Entry(s2, Channel) == Entry(a, Channel)
    ensures Entry(d, Refresh) == Entry(s1, Refresh) && Entry(d, Permission) == Entry(s2, Permission)
    ensures Entry(d, Channel) == Entry(s3, Channel) && a0.controls == s1.controls
  {
    hide FindOperation;
    assert Entry(s3, Refresh) == Entry(s2, Refresh) == Entry(a0, Refresh);
  }

  lemma StageEntries(a: Core, r: Core, cfg: Config, op: Operation, wanted: bool, draw: Draw, s: Core)
    requires Stage(a, r, cfg, op, wanted, draw, s, true)
    ensures forall o: Operation | o != op :: Entry(s, o) == Entry(r, o)
    ensures wanted ==> s.Has(op) && FirstSend(Entry(s, op).value, cfg, op, true, 0, draw)
                       && ServerReads(Entry(s, op).value.packet, a, cfg, op, draw.transaction, true)
    ensures !wanted ==> Entry(s, op) == Entry(r, op)
  {
    hide Inv, SameCredentials, FindOperation, ServerReads, FirstSend, LastSixteen;
  }

  lemma StagesTime(a: Core, s1: Core, due: bool, a0: Core, s2: Core, s3: Core, d: Core, cfg: Config, now: nat,
                   refreshing: bool, permitting: bool, binding: bool, refresh: Draw, permission: Draw, bind: Draw)
    requires due == Due(a.maintenanceRefresh, now) && a0 == s1.Rescheduled(cfg, due, now)
    requires Stage(a, a, cfg, Refresh, refreshing, refresh, s1, true)
    requires Stage(a, a0, cfg, Permission, permitting, permission, s2, true)
    requires Stage(a, s2, cfg, Channel, binding, bind, s3, true)
    requires refreshing == (DueFor(a, Refresh, now) && !a.Has(Refresh))
    requires permitting == (DueFor(a, Permission, now) && !a.Has(Permission))
    requires binding == (DueFor(a, Channel, now) && !a.Has(Channel))
    requires d.keepalive == (if Due(s3.keepalive, now) then Some(now + cfg.profile.keepaliveInterval) else s3.keepalive)
    requires SameBut(s3, d.(keepalive := s3.keepalive))
    ensures s3.keepalive == a.keepalive && s3.channel == a.channel && TimersMoved(a, d, cfg, now)
  {
    hide Inv, SameCredentials, Entry, ServerReads, FirstSend, LastSixteen, Due, DueFor, Core.Has;
  }

  lemma QueueTail(q: seq<seq<Byte>>, x: seq<seq<Byte>>, y: seq<seq<Byte>>, z: seq<seq<Byte>>,
                  q1: seq<seq<Byte>>, q2: seq<seq<Byte>>, q3: seq<seq<Byte>>, beat: seq<seq<Byte>>)
    requires q1 == LastSixteen(q + x) && q2 == LastSixteen(q1 + y) && q3 == LastSixteen(q2 + z)
    ensures LastSixteen(q3 + beat) == LastSixteen(q + (x + y + z) + beat)
    ensures LastSixteen(q3 + []) == q3
  {
    hide LastSixteen;
    LastTwice(q + x, y);
    LastTwice(q + x + y, z);
    LastTwice(q + x + y + z, beat);
    assert q + x + y + z + beat == q + (x + y + z) + beat;
    LastTwice(q2 + z, []);
    assert q2 + z + [] == q2 + z && q3 + [] == q3;
  }

  /**
   A poll of any reachable core that the sweep leaves READY, unless it fails: the requests started are those
   due and not under way, each signed with the credentials at hand; the queue grows by their packets, and by the
   keepalive exactly if it is due, a channel is bound and no request was started. Only the last sixteen are kept.
   */
  lemma PollSends(cfg: Config, before: seq<Call>, c: Core, now: nat, refresh: Draw, permission: Draw, bind: Draw)
    requires cfg.Valid() && c == Run(cfg, Initial(), before)
    requires c.Expired(cfg, now).state == Ready && !PollBlocked(c, cfg, now)
    ensures var r := c.Poll(cfg, now, refresh, permission, bind).0;
            Maintains(c.Expired(cfg, now), r, cfg, now, refresh, permission, bind)
  {
    hide Run, TableOk, QueueOk, Core.ExpireFrom, Core.DestroyAllocation, Core.Maintenance, Core.NextDeadline,
         PollBlocked, Maintains;
    ReachableInv(cfg, before);
    PollFailsExactly(c, cfg, now, refresh, permission, bind);
    ExpireInv(c, cfg, 0, now);
    if !c.destroyed {
      DestroyAllocationInv(c.ExpireFrom(cfg, 0, now), cfg, Refresh, RESULT_TIMEOUT, 0);
      MaintenanceSends(c.Expired(cfg, now), cfg, now, refresh, permission, bind);
    }
  }

  // ---------------------------------------------------------------- what the sweep sends again

  /** The packet is among the last `n` of the queue. */
  predicate Recent(queue: seq<seq<Byte>>, packet: seq<Byte>, n: nat) {
    exists i | 0 <= i < |queue| && |queue| <= i + n :: queue[i] == packet
  }

  lemma RecentQueued(queue: seq<seq<Byte>>, packet: seq<Byte>, other: seq<Byte>, n: nat)
    requires Recent(queue, packet, n) && n < 16
    ensures Recent(LastSixteen(queue + [other]), packet, n + 1)
  {
    var i :| 0 <= i < |queue| && |queue| <= i + n && queue[i] == packet;
    var all := queue + [other];
    var drop := |all| - |LastSixteen(all)|;
    assert all[i] == packet && LastSixteen(all)[i - drop] == packet;
  }

  lemma {:induction false} RecentKept(queue: seq<seq<Byte>>, packet: seq<Byte>, transaction: Transaction, n: nat)
    requires Recent(queue, packet, n) && |packet| >= 20 && packet[8..20] != transaction
    ensures Recent(WithoutTransaction(queue, transaction), packet, n)
    decreases |queue|
  {
    var i :| 0 <= i < |queue| && |queue| <= i + n && queue[i] == packet;
    var rest := WithoutTransaction(queue[1..], transaction);
    if i == 0 {
      assert WithoutTransaction(queue, transaction)[0] == packet;
    } else {
      assert queue[1..][i - 1] == packet;
      RecentKept(queue[1..], packet, transaction, n);
      var j :| 0 <= j < |rest| && |rest| <= j + n && rest[j] == packet;
      var all := WithoutTransaction(queue, transaction);
      assert all[j + |all| - |rest|] == packet;
    }
  }

  /** The allocation was given up: nothing is queued and nothing is under way. */
  predicate Emptied(c: Core) { c.controls == [] && c.pending == [] && c.state != Ready }

  lemma FailureQueue(c: Core, op: Operation, status: int, code: int, now: nat)
    ensures var r := c.CompleteFailure(op, status, code, now);
            (r.controls == c.controls && r.pending == c.pending) || Emptied(r)
  {
    hide Core.PushEvent, Core.SetState, RetryDelay;
    CompleteFrame(c, op, status, code);
    var d := c.Complete(op, status, code);
    SetStateFrame(d.(pending := []).Unbound().Forgotten(), if op == Deallocate then Deallocated else Destroying);
    var e := d.ScheduleRetry(op, now).core.(pending := []).Unbound();
    PushEventFrame(e, RebindExhausted);
    SetStateFrame(e.PushEvent(RebindExhausted), Destroying);
  }

  lemma EmptiedSweep(c: Core, cfg: Config, i: nat, now: nat)
    requires Emptied(c)
    ensures c.ExpireFrom(cfg, i, now) == c
  {
  }

  /** No two requests under way share their transaction id. */
  predicate Apart(pending: seq<Pending>) {
    forall i, j | 0 <= i < j < |pending| :: pending[i].transaction != pending[j].transaction
  }

  /** The packet belongs to none of the requests from the i-th on. */
  predicate Foreign(pending: seq<Pending>, i: nat, packet: seq<Byte>) {
    |packet| >= 20 && forall j | i <= j < |pending| :: pending[j].transaction != packet[8..20]
  }

  lemma RetransmittedQueue(c: Core, i: nat, now: nat)
    requires i < |c.pending| && |c.controls| <= 16
    ensures var r := c.Retransmitted(i, now);
            && r.controls == LastSixteen(c.controls + [c.pending[i].packet])
            && r.pending == c.pending[i := Resent(c.pending[i], now)]
  {
    hide Core.QueuePacket, LastSixteen;
    QueuedIs(c, c.pending[i].packet);
  }

  lemma {:induction false} StaysRecent(c: Core, cfg: Config, i: nat, now: nat, packet: seq<Byte>, n: nat)
    requires Inv(c, cfg) && Recent(c.controls, packet, n) && i <= |c.pending| && n + |c.pending| - i <= 16
    requires Foreign(c.pending, i, packet)
    ensures var r := c.ExpireFrom(cfg, i, now); Recent(r.controls, packet, 16) || Emptied(r)
    decreases |c.pending| - i
  {
    hide Inv, Core.CompleteFailure, Core.Retransmitted, Core.Taken, Recent, LastSixteen, Emptied, Resent;
    if i >= |c.pending| {
      RecentMore(c.controls, packet, n);
    } else if now < c.pending[i].nextAttempt {
      RecentMore(c.controls, packet, n);
      StaysRecent(c, cfg, i + 1, now, packet, n);
    } else if TimesOut(cfg, c.pending[i], now) {
      TakenInv(c, cfg, i);
      TakenLeaves(c, i, packet, n);
      var t, op := c.Taken(i), c.pending[i].operation;
      OpenWhilePending(c, cfg, i);
      CompleteFailureInv(t, cfg, op, RESULT_TIMEOUT, 0, now);
      FailureQueue(t, op, RESULT_TIMEOUT, 0, now);
      var d := t.CompleteFailure(op, RESULT_TIMEOUT, 0, now);
      if Emptied(d) { EmptiedSweep(d, cfg, i, now); } else { StaysRecent(d, cfg, i, now, packet, n); }
    } else {
      RetransmittedInv(c, cfg, i, now);
      QueueBoundOf(c, cfg);
      RetransmittedQueue(c, i, now);
      RecentQueued(c.controls, packet, c.pending[i].packet, n);
      StaysRecent(c.Retransmitted(i, now), cfg, i + 1, now, packet, n + 1);
    }
  }

  lemma RecentMore(queue: seq<seq<Byte>>, packet: seq<Byte>, n: nat)
    requires Recent(queue, packet, n) && n <= 16
    ensures Recent(queue, packet, 16)
  {
    var i :| 0 <= i < |queue| && |queue| <= i + n && queue[i] == packet;
    assert |queue| <= i + 16;
  }

  lemma OpenWhilePending(c: Core, cfg: Config, i: nat)
    requires Inv(c, cfg) && i < |c.pending|
    ensures !c.destroyed && !c.Taken(i).destroyed
  {
    hide TableOk, QueueOk, WithoutTransaction;
  }

  lemma QueueBoundOf(c: Core, cfg: Config)
    requires Inv(c, cfg)
    ensures |c.controls| <= 16
  {
    hide TableOk, FieldsOk, TeardownPacket;
  }

  lemma TakenLeaves(c: Core, i: nat, packet: seq<Byte>, n: nat)
    requires i < |c.pending| && Recent(c.controls, packet, n) && Foreign(c.pending, i, packet)
    ensures Recent(c.Taken(i).controls, packet, n) && Foreign(c.Taken(i).pending, i, packet)
  {
    hide Recent, WithoutTransaction;
    RecentKept(c.controls, packet, c.pending[i].transaction, n);
  }

  lemma {:induction false} FewRequests(pending: seq<Pending>, ops: set<Operation>)
    requires forall i, j | 0 <= i < j < |pending| :: pending[i].operation != pending[j].operation
    requires forall i | 0 <= i < |pending| :: pending[i].operation in ops
    ensures |pending| <= |ops|
    decreases |pending|
  {
    if pending != [] { FewRequests(pending[1..], ops - {pending[0].operation}); }
  }

  lemma AtMostFive(c: Core, cfg: Config)
    requires Inv(c, cfg)
    ensures |c.pending| <= 5
  {
    hide FieldsOk, QueueOk, PendingOk;
    var all := {Allocate, Refresh, Deallocate, Permission, Channel};
    forall o: Operation
      ensures o in all
    {
      match o {
        case Allocate => case Refresh => case Deallocate => case Permission => case Channel =>
      }
    }
    FewRequests(c.pending, all);
  }

  /**
   Every request that is due and not out of tries is queued again by the sweep, and stays in the queue, unless the
   sweep gives the allocation up; the one proviso is that no other request under way has its transaction id.
   */
  lemma {:induction false} SweepSends(c: Core, cfg: Config, i: nat, now: nat, k: nat)
    requires Inv(c, cfg) && i <= k < |c.pending| && Apart(c.pending)
    requires now >= c.pending[k].nextAttempt && !TimesOut(cfg, c.pending[k], now)
    ensures var r := c.ExpireFrom(cfg, i, now); Recent(r.controls, c.pending[k].packet, 16) || Emptied(r)
    decreases |c.pending| - i
  {
    hide Inv, Core.CompleteFailure, Core.Retransmitted, Core.Taken, Recent, LastSixteen, Emptied, Resent;
    if now < c.pending[i].nextAttempt {
      SweepSends(c, cfg, i + 1, now, k);
    } else if TimesOut(cfg, c.pending[i], now) {
      TakenInv(c, cfg, i);
      var t, op := c.Taken(i), c.pending[i].operation;
      OpenWhilePending(c, cfg, i);
      TakenApart(c, i, k);
      CompleteFailureInv(t, cfg, op, RESULT_TIMEOUT, 0, now);
      FailureQueue(t, op, RESULT_TIMEOUT, 0, now);
      var d := t.CompleteFailure(op, RESULT_TIMEOUT, 0, now);
      if Emptied(d) { EmptiedSweep(d, cfg, i, now); } else { SweepSends(d, cfg, i, now, k - 1); }
    } else {
      RetransmittedInv(c, cfg, i, now);
      QueueBoundOf(c, cfg);
      RetransmittedQueue(c, i, now);
      ResentOperation(c.pending[i], now);
      var d := c.Retransmitted(i, now);
      if i == k {
        SentAndForeign(c, cfg, i, now);
        StaysRecent(d, cfg, i + 1, now, c.pending[k].packet, 1);
      } else {
        ResentApart(c, i, now);
        SweepSends(d, cfg, i + 1, now, k);
      }
    }
  }

  lemma TakenApart(c: Core, i: nat, k: nat)
    requires i < k < |c.pending| && Apart(c.pending)
    ensures var t := c.Taken(i).pending; Apart(t) && k - 1 < |t| && t[k - 1] == c.pending[k]
  {
    hide WithoutTransaction;
  }

  lemma ResentApart(c: Core, i: nat, now: nat)
    requires i < |c.pending| && Apart(c.pending)
    ensures Apart(c.pending[i := Resent(c.pending[i], now)])
  {
  }

  lemma SentAndForeign(c: Core, cfg: Config, i: nat, now: nat)
    requires Inv(c, cfg) && i < |c.pending| && Apart(c.pending) && |c.controls| <= 16
    ensures var packet := c.pending[i].packet;
            && Recent(LastSixteen(c.controls + [packet]), packet, 1)
            && Foreign(c.pending[i := Resent(c.pending[i], now)], i + 1, packet) && |c.pending| <= 5
  {
    hide FieldsOk, QueueOk, RequestKind, Rto, Elapsed;
    AtMostFive(c, cfg);
    var all := c.controls + [c.pending[i].packet];
    var last := LastSixteen(all);
    assert last[|last| - 1] == c.pending[i].packet;
    assert PendingOk(c.pending[i], c.state, c.AuthComplete(), cfg);
  }

  /** Nothing else is queued: what is there afterwards was there before, or was due. */
  ghost predicate WasDue(cfg: Config, pending: seq<Pending>, i: nat, now: nat, packet: seq<Byte>) {
    exists j | i <= j < |pending| ::
      pending[j].packet == packet && now >= pending[j].nextAttempt && !TimesOut(cfg, pending[j], now)
  }

  lemma {:induction false} SweepSendsOnly(c: Core, cfg: Config, i: nat, now: nat, packet: seq<Byte>)
    requires Inv(c, cfg) && packet in c.ExpireFrom(cfg, i, now).controls
    ensures packet in c.controls || WasDue(cfg, c.pending, i, now, packet)
    decreases |c.pending| - i
  {
    hide Inv, Core.CompleteFailure, Core.Retransmitted, Core.Taken, LastSixteen, Emptied, Resent, WasDue, TimesOut;
    if i < |c.pending| {
      if now < c.pending[i].nextAttempt {
        SweepSendsOnly(c, cfg, i + 1, now, packet);
        DueLater(cfg, c.pending, c.pending, i, now, packet);
      } else if TimedOutIs(cfg, c.pending[i], now) {
        TakenInv(c, cfg, i);
        var t, op := c.Taken(i), c.pending[i].operation;
        OpenWhilePending(c, cfg, i);
        CompleteFailureInv(t, cfg, op, RESULT_TIMEOUT, 0, now);
        FailureQueue(t, op, RESULT_TIMEOUT, 0, now);
        var d := t.CompleteFailure(op, RESULT_TIMEOUT, 0, now);
        SweepSendsOnly(d, cfg, i, now, packet);
        TakenDue(c, cfg, d, i, now, packet);
      } else {
        RetransmittedInv(c, cfg, i, now);
        QueueBoundOf(c, cfg);
        RetransmittedQueue(c, i, now);
        var d := c.Retransmitted(i, now);
        SweepSendsOnly(d, cfg, i + 1, now, packet);
        LastFrom(c.controls, c.pending[i].packet, packet);
        if packet == c.pending[i].packet { DueHere(cfg, c.pending, i, now); }
        DueLater(cfg, c.pending, d.pending, i, now, packet);
      }
    }
  }

  predicate TimedOutIs(cfg: Config, p: Pending, now: nat)
    ensures TimedOutIs(cfg, p, now) == (p.transmissions >= MAX_TRANSMISSIONS || cfg.transport == Stream)
    ensures now >= p.nextAttempt ==> TimedOutIs(cfg, p, now) == TimesOut(cfg, p, now)
  {
    p.transmissions >= MAX_TRANSMISSIONS || cfg.transport == Stream
  }

  lemma LastFrom(queue: seq<seq<Byte>>, sent: seq<Byte>, packet: seq<Byte>)
    ensures packet in LastSixteen(queue + [sent]) ==> packet in queue || packet == sent
  {
  }

  lemma DueHere(cfg: Config, pending: seq<Pending>, i: nat, now: nat)
    requires i < |pending| && now >= pending[i].nextAttempt && !TimesOut(cfg, pending[i], now)
    ensures WasDue(cfg, pending, i, now, pending[i].packet)
  {
  }

  lemma DueLater(cfg: Config, pending: seq<Pending>, other: seq<Pending>, i: nat, now: nat, packet: seq<Byte>)
    requires |pending| == |other| && forall j | i < j < |pending| :: other[j] == pending[j]
    ensures WasDue(cfg, other, i + 1, now, packet) ==> WasDue(cfg, pending, i, now, packet)
  {
    hide TimesOut;
  }

  lemma TakenDue(c: Core, cfg: Config, d: Core, i: nat, now: nat, packet: seq<Byte>)
    requires i < |c.pending| && ((d.controls == c.Taken(i).controls && d.pending == c.Taken(i).pending) || Emptied(d))
    ensures packet in d.controls ==> packet in c.controls
    ensures WasDue(cfg, d.pending, i, now, packet) ==> WasDue(cfg, c.pending, i, now, packet)
  {
    hide TimesOut;
    if WasDue(cfg, d.pending, i, now, packet) {
      var j :| i <= j < |d.pending| && d.pending[j].packet == packet && now >= d.pending[j].nextAttempt
               && !TimesOut(cfg, d.pending[j], now);
      assert d.pending[j] == c.pending[j + 1];
    }
  }
}
