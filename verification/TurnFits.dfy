/** How long requests are, when they can be built, and so when a start or a poll fails. */
module TurnFits {
  import opened Bytes
  import opened Stun
  import opened TurnState
  import opened TurnInvariant

  // ---------------------------------------------------------------- sizes

  /** The attributes of a request before any authentication, in bytes. */
  function FieldsSize(cfg: Config, operation: Operation): nat {
    var address := if cfg.peer.V4? then 12 else 24;
    match operation
    case Allocate => 24
    case Refresh => 8
    case Deallocate => 8
    case Permission => address
    case Channel => 8 + address
  }

  /** USERNAME, REALM and NONCE. */
  function AuthSize(c: Core, cfg: Config): nat
    requires c.AuthComplete()
  {
    12 + Pad4(|cfg.username|) + Pad4(|c.realm.value|) + Pad4(|c.nonce.value|)
  }

  /** All that follows the header of a request: attributes, integrity and fingerprint. */
  function BodySize(c: Core, cfg: Config, operation: Operation, authenticated: bool): nat
    requires authenticated ==> c.AuthComplete()
  {
    FieldsSize(cfg, operation) + (if authenticated then AuthSize(c, cfg) + 24 else 0) + 8
  }

  /** The message length field can hold the request. */
  predicate Fits(c: Core, cfg: Config, operation: Operation, authenticated: bool)
    requires authenticated ==> c.AuthComplete()
  {
    BodySize(c, cfg, operation, authenticated) < 0x1_0000
  }

  lemma TlvSize(kind: U16, value: seq<Byte>)
    ensures |Tlv(kind, value).Encode()| == 4 + Pad4(|value|)
  {
  }

  lemma PadFour(n: nat)
    requires n % 4 == 0
    ensures Pad4(n) == n
  {
    OnlyMultiple(n, n, Pad4(n));
  }

  lemma OneSize(f: Field)
    ensures |FieldBytes([f])| == |f.Encode()|
  {
    assert [f][1..] == [];
  }

  lemma TwoSizes(f: Field, g: Field)
    ensures |FieldBytes([f, g])| == |f.Encode()| + |g.Encode()|
  {
    hide Field.Encode, FieldBytes;
    assert [f] + [g] == [f, g];
    FieldBytesSplit([f], [g]);
    OneSize(f);
    OneSize(g);
  }

  lemma ThreeSizes(f: Field, g: Field, h: Field)
    ensures |FieldBytes([f, g, h])| == |f.Encode()| + |g.Encode()| + |h.Encode()|
  {
    hide Field.Encode, FieldBytes;
    assert [f, g] + [h] == [f, g, h];
    FieldBytesSplit([f, g], [h]);
    TwoSizes(f, g);
    OneSize(h);
  }

  lemma RequestFieldsSize(cfg: Config, operation: Operation, transaction: Transaction)
    ensures |FieldBytes(RequestFields(cfg, operation, transaction))| == FieldsSize(cfg, operation)
  {
    hide Field.Encode, FieldBytes, Tlv, Pad4, Be32, EncodeXorAddress;
    var lifetime := if operation == Deallocate then 0 else REQUESTED_ALLOCATION_LIFETIME_SECS;
    var address := EncodeXorAddress(cfg.peer, transaction);
    PadFour(4);
    PadFour(|address|);
    TlvSize(ATTR_LIFETIME, Be32(lifetime));
    TlvSize(ATTR_XOR_PEER_ADDRESS, address);
    match operation {
      case Allocate =>
        var family: seq<Byte> := [if cfg.peer.V4? then 1 else 2, 0, 0, 0];
        TlvSize(ATTR_REQUESTED_TRANSPORT, [17, 0, 0, 0]);
        TlvSize(ATTR_REQUESTED_ADDRESS_FAMILY, family);
        ThreeSizes(Tlv(ATTR_REQUESTED_TRANSPORT, [17, 0, 0, 0]), Tlv(ATTR_REQUESTED_ADDRESS_FAMILY, family),
                   Tlv(ATTR_LIFETIME, Be32(lifetime)));
      case Refresh => OneSize(Tlv(ATTR_LIFETIME, Be32(lifetime)));
      case Deallocate => OneSize(Tlv(ATTR_LIFETIME, Be32(lifetime)));
      case Permission => OneSize(Tlv(ATTR_XOR_PEER_ADDRESS, address));
      case Channel =>
        TlvSize(ATTR_CHANNEL_NUMBER, [0x40, 0, 0, 0]);
        TwoSizes(Tlv(ATTR_CHANNEL_NUMBER, [0x40, 0, 0, 0]), Tlv(ATTR_XOR_PEER_ADDRESS, address));
    }
  }

  lemma AuthFieldsSize(c: Core, cfg: Config, fs: seq<Field>)
    requires c.AuthComplete()
    ensures |FieldBytes(fs + AuthFields(c, cfg))| == |FieldBytes(fs)| + AuthSize(c, cfg)
  {
    hide Field.Encode, FieldBytes, Tlv, Pad4;
    FieldBytesSplit(fs, AuthFields(c, cfg));
    TlvSize(ATTR_USERNAME, cfg.username);
    TlvSize(ATTR_REALM, c.realm.value);
    TlvSize(ATTR_NONCE, c.nonce.value);
    ThreeSizes(Tlv(ATTR_USERNAME, cfg.username), Tlv(ATTR_REALM, c.realm.value), Tlv(ATTR_NONCE, c.nonce.value));
  }

  lemma FinishedSize(kind: U16, transaction: Transaction, fs: seq<Field>, prim: Primitives)
    ensures var built := Finished(Draft(kind, transaction, fs), prim);
            && (built.Some? <==> |FieldBytes(fs)| + 8 < 0x1_0000)
            && (built.Some? ==> |built.value| == HEADER_SIZE + |FieldBytes(fs)| + 8)
  {
    hide Header, FieldBytes;
    if |FieldBytes(fs)| + 8 < 0x1_0000 { FinishedIs(kind, transaction, 0, fs, prim); }
  }

  lemma AuthenticatedSize(kind: U16, transaction: Transaction, fs: seq<Field>, key: Key, prim: Primitives)
    ensures var built := FinishedAuthenticated(Draft(kind, transaction, fs), key, prim);
            && (built.Some? <==> |FieldBytes(fs)| + 32 < 0x1_0000)
            && (built.Some? ==> |built.value| == HEADER_SIZE + |FieldBytes(fs)| + 32)
  {
    hide Header, FieldBytes;
    if |FieldBytes(fs)| + 32 < 0x1_0000 { AuthenticatedIs(kind, transaction, fs, key, prim); }
  }

  /** A request is built exactly if it fits the length field, and this is how long it then is. */
  lemma BuiltExactly(c: Core, cfg: Config, operation: Operation, transaction: Transaction, authenticated: bool)
    requires authenticated ==> c.AuthComplete()
    ensures var built := c.BuildRequest(cfg, operation, transaction, authenticated);
            && (built.Some? <==> Fits(c, cfg, operation, authenticated))
            && (built.Some? ==> |built.value| == HEADER_SIZE + BodySize(c, cfg, operation, authenticated))
  {
    hide Finished, FinishedAuthenticated, Draft, FieldBytes, RequestFields, FieldsSize, AuthSize, Tlv;
    var fs, k := RequestFields(cfg, operation, transaction), operation.Method();
    RequestFieldsSize(cfg, operation, transaction);
    if authenticated {
      AuthFieldsSize(c, cfg, fs);
      AuthenticatedSize(k, transaction, fs + AuthFields(c, cfg), c.key.value, cfg.prim);
    } else {
      FinishedSize(k, transaction, fs, cfg.prim);
    }
  }

  /** A queued request is lost when it is pulled exactly if its attributes leave no room in the 1024-byte buffer. */
  lemma LostWhenPulledExactly(c: Core, cfg: Config, operation: Operation, transaction: Transaction, authenticated: bool)
    requires (authenticated ==> c.AuthComplete()) && Fits(c, cfg, operation, authenticated)
    ensures var packet := c.BuildRequest(cfg, operation, transaction, authenticated);
            packet.Some? && (|packet.value| > CONTROL_BUFFER <==> BodySize(c, cfg, operation, authenticated) > 1004)
  {
    hide Core.BuildRequest, BodySize;
    BuiltExactly(c, cfg, operation, transaction, authenticated);
  }

  // ---------------------------------------------------------------- small inbound packets

  /** The longest control message a stream lets through. */
  const INBOUND: nat := 4096

  predicate SmallAuth(c: Core) {
    (c.realm.Some? ==> |c.realm.value| <= INBOUND) && (c.nonce.Some? ==> |c.nonce.value| <= INBOUND)
  }

  lemma SmallFits(c: Core, cfg: Config, operation: Operation, authenticated: bool)
    requires cfg.Valid() && SmallAuth(c) && (authenticated ==> c.AuthComplete())
    ensures Fits(c, cfg, operation, authenticated)
  {
    hide Pad4;
  }

  // ---------------------------------------------------------------- which requests are under way

  lemma {:induction false} FindAppended(pending: seq<Pending>, p: Pending, operation: Operation)
    ensures FindOperation(pending + [p], operation) ==
            if FindOperation(pending, operation).Some? then FindOperation(pending, operation)
            else if p.operation == operation then Some(p) else None
    decreases |pending|
  {
    if pending == [] {
      assert pending + [p] == [p] && [p][1..] == [];
    } else {
      assert (pending + [p])[0] == pending[0] && (pending + [p])[1..] == pending[1..] + [p];
      FindAppended(pending[1..], p, operation);
    }
  }

  /** What one start does to the entry of any operation. */
  lemma StartFinds(c: Core, cfg: Config, operation: Operation, authenticated: bool, retries: nat, draw: Draw,
                   other: Operation)
    ensures var r := c.StartOperation(cfg, operation, authenticated, retries, draw);
            var q := FindOperation(r.core.pending, other);
            if c.Has(other) || other != operation || !r.ok then q == FindOperation(c.pending, other)
            else q.Some? && q.value.nonceRetries == retries && q.value.transmissions == 1
  {
    hide Core.QueuePacket, Core.BuildRequest, FindOperation;
    var r := c.StartOperation(cfg, operation, authenticated, retries, draw);
    if c.Has(operation) {
      if operation == Channel { QueueKeepsTable(c, FindOperation(c.pending, operation).value.packet); }
    } else {
      StartedFresh(c, cfg, operation, authenticated, retries, draw);
      if r.ok {
        var p := r.core.pending[|c.pending|];
        assert r.core.pending == c.pending + [p];
        FindAppended(c.pending, p, other);
      }
    }
  }

  lemma QueueKeepsTable(c: Core, packet: seq<Byte>)
    ensures c.QueuePacket(packet).pending == c.pending
  {
  }

  /** A start succeeds exactly if the request is under way or fits. */
  lemma StartsExactly(c: Core, cfg: Config, operation: Operation, authenticated: bool, retries: nat, draw: Draw)
    requires authenticated ==> c.AuthComplete()
    ensures c.StartOperation(cfg, operation, authenticated, retries, draw).ok
            <==> c.Has(operation) || Fits(c, cfg, operation, authenticated)
  {
    hide Core.QueuePacket, Core.BuildRequest, FindOperation, Fits;
    BuiltExactly(c, cfg, operation, draw.transaction, authenticated);
  }

  // ---------------------------------------------------------------- when a poll fails

  predicate DueFor(c: Core, operation: Operation, now: nat) {
    match operation
    case Refresh => Due(c.allocationRefresh, now)
    case Permission => Due(c.maintenanceRefresh, now) || Due(c.permissionRetry, now)
    case Channel => Due(c.maintenanceRefresh, now) || Due(c.channelRetry, now)
    case _ => false
  }

  /** A maintenance request is due and not under way, but does not fit; all read off the state before the poll. */
  predicate Blocked(c: Core, cfg: Config, operation: Operation, now: nat)
    requires c.AuthComplete()
  {
    DueFor(c, operation, now) && !c.Has(operation) && !Fits(c, cfg, operation, true)
  }

  lemma SameFits(c: Core, r: Core, cfg: Config, operation: Operation)
    requires c.AuthComplete() && SameCredentials(c, r)
    ensures Fits(r, cfg, operation, true) == Fits(c, cfg, operation, true)
  {
  }

  /** A maintenance request touches no entry but its own. */
  lemma MaintainedFinds(c: Core, cfg: Config, wanted: bool, operation: Operation, draw: Draw, other: Operation)
    requires operation in {Refresh, Permission, Channel}
    ensures var r := c.Maintained(cfg, wanted, operation, draw);
            var q := FindOperation(r.core.pending, other);
            if c.Has(other) || other != operation || !r.ok || !wanted then q == FindOperation(c.pending, other)
            else q.Some? && q.value.nonceRetries == 0 && q.value.transmissions == 1
  {
    hide Core.StartOperation, FindOperation;
    var t := match operation
             case Refresh => c.(allocationRefresh := None)
             case Permission => c.(permissionRetry := None)
             case _ => c.(channelRetry := None);
    StartFinds(t, cfg, operation, true, 0, draw, other);
  }

  /** It starts exactly if it fits, once it is wanted and not under way. */
  lemma MaintainedExactly(c: Core, cfg: Config, wanted: bool, operation: Operation, draw: Draw)
    requires c.AuthComplete() && operation in {Refresh, Permission, Channel}
    ensures c.Maintained(cfg, wanted, operation, draw).ok
            <==> !wanted || c.Has(operation) || Fits(c, cfg, operation, true)
  {
    hide Core.StartOperation, FindOperation, Fits;
    var t := match operation
             case Refresh => c.(allocationRefresh := None)
             case Permission => c.(permissionRetry := None)
             case _ => c.(channelRetry := None);
    StartsExactly(t, cfg, operation, true, 0, draw);
    SameFits(c, t, cfg, operation);
  }

  /** `r`, part of the way through maintenance, is still READY with the credentials of `c`. */
  predicate Underway(c: Core, r: Core, cfg: Config) {
    Inv(r, cfg) && r.state == Ready && SameCredentials(c, r)
  }

  /** One stage of maintenance: whether it succeeds, and that a later stage is judged by the state before it. */
  lemma StageExactly(c: Core, r: Core, cfg: Config, now: nat, operation: Operation, draw: Draw, other: Operation)
    requires Underway(c, r, cfg) && cfg.Valid() && operation in {Refresh, Permission, Channel}
    requires c.AuthComplete() && c.Has(operation) == r.Has(operation)
    ensures var s := r.Maintained(cfg, DueFor(c, operation, now) && !r.Has(operation), operation, draw);
            && (s.ok <==> !Blocked(c, cfg, operation, now))
            && Underway(c, s.core, cfg)
            && (other != operation ==> s.core.Has(other) == r.Has(other))
  {
    hide Inv, Core.Maintained, FindOperation, Fits, DueFor;
    var wanted := DueFor(c, operation, now) && !r.Has(operation);
    MaintainedInv(r, cfg, now, wanted, operation, draw);
    MaintainedExactly(r, cfg, wanted, operation, draw);
    MaintainedFinds(r, cfg, wanted, operation, draw, other);
    SameFits(c, r, cfg, operation);
  }

  /** The stages of maintenance, each starting where the one before it ended. */
  lemma MaintenanceStages(c: Core, cfg: Config, now: nat, refresh: Draw, permission: Draw, bind: Draw)
    ensures var a := c.Maintained(cfg, DueFor(c, Refresh, now) && !c.Has(Refresh), Refresh, refresh);
            var r := a.core.Rescheduled(cfg, Due(c.maintenanceRefresh, now), now);
            var b := r.Maintained(cfg, DueFor(c, Permission, now) && !r.Has(Permission), Permission, permission);
            var d := b.core.Maintained(cfg, DueFor(c, Channel, now) && !b.core.Has(Channel), Channel, bind);
            c.Maintenance(cfg, now, refresh, permission, bind).ok <==> a.ok && b.ok && d.ok
  {
    hide Core.Maintained, Core.Rescheduled, Core.KeepaliveTick, Core.Has, Due;
  }

  lemma MaintenanceExactly(c: Core, cfg: Config, now: nat, refresh: Draw, permission: Draw, bind: Draw)
    requires Inv(c, cfg) && cfg.Valid() && c.state == Ready
    ensures c.AuthComplete()
    ensures c.Maintenance(cfg, now, refresh, permission, bind).ok
            <==> !Blocked(c, cfg, Refresh, now) && !Blocked(c, cfg, Permission, now) && !Blocked(c, cfg, Channel, now)
  {
    hide Inv, Core.Maintenance, Core.Maintained, Core.Rescheduled, Core.Has, Core.AuthComplete, Due, DueFor, Blocked,
         Fits, SameCredentials;
    OpenWhenReady(c, cfg);
    Itself(c);
    MaintenanceStages(c, cfg, now, refresh, permission, bind);
    StageExactly(c, c, cfg, now, Refresh, refresh, Permission);
    StageExactly(c, c, cfg, now, Refresh, refresh, Channel);
    var a := c.Maintained(cfg, DueFor(c, Refresh, now) && !c.Has(Refresh), Refresh, refresh).core;
    RescheduledSame(c, a, cfg, Due(c.maintenanceRefresh, now), now);
    var r := a.Rescheduled(cfg, Due(c.maintenanceRefresh, now), now);
    StageExactly(c, r, cfg, now, Permission, permission, Channel);
    var b := r.Maintained(cfg, DueFor(c, Permission, now) && !r.Has(Permission), Permission, permission).core;
    StageExactly(c, b, cfg, now, Channel, bind, Refresh);
  }

  lemma Itself(c: Core)
    ensures SameCredentials(c, c)
  {
  }

  lemma RescheduledSame(c: Core, a: Core, cfg: Config, due: bool, now: nat)
    requires Underway(c, a, cfg)
    ensures var r := a.Rescheduled(cfg, due, now); Underway(c, r, cfg) && forall o: Operation :: r.Has(o) == a.Has(o)
  {
    hide Inv, Core.Rescheduled, FindOperation;
    RescheduledInv(a, cfg, due, now);
  }

  /** The timers swept, the core is READY and a maintenance request is due that does not fit. */
  predicate PollBlocked(c: Core, cfg: Config, now: nat) {
    var a := c.Expired(cfg, now);
    && !c.destroyed && !a.shuttingDown && a.state == Ready && a.AuthComplete()
    && (Blocked(a, cfg, Refresh, now) || Blocked(a, cfg, Permission, now) || Blocked(a, cfg, Channel, now))
  }

  /** A poll fails exactly if it is blocked so. */
  lemma PollFailsExactly(c: Core, cfg: Config, now: nat, refresh: Draw, permission: Draw, bind: Draw)
    requires Inv(c, cfg) && cfg.Valid()
    ensures c.Poll(cfg, now, refresh, permission, bind).1 == Failed <==> PollBlocked(c, cfg, now)
  {
    hide TableOk, QueueOk, Core.ExpireFrom, Core.DestroyAllocation, Core.Maintenance, Core.NextDeadline, Blocked;
    if !c.destroyed {
      ExpireInv(c, cfg, 0, now);
      DestroyAllocationInv(c.ExpireFrom(cfg, 0, now), cfg, Refresh, RESULT_TIMEOUT, 0);
      var a := c.Expired(cfg, now);
      if a.state == Ready { MaintenanceExactly(a, cfg, now, refresh, permission, bind); }
    }
  }
}
