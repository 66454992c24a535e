/**
 The TURN client control core as a transition system on values: every entry point
 of the core is a function from a state, and the inputs of that call, to the next state.

 Clock readings and random transaction ids are inputs. A request takes its own
 reading of the clock when it is sent, so each call carries a `Draw` per request.
 */
module TurnState {
  import opened Bytes
  import opened Stun

  const MILLISECOND: nat := 1_000_000
  const SECOND: nat := 1_000_000_000

  function Seconds(n: nat): nat { n * 1_000_000_000 }

  const CONTROL_CAPACITY: nat := 16
  const CONTROL_BUFFER: nat := 1024
  const EVENT_CAPACITY: nat := 64
  const INITIAL_RTO: nat := 200 * MILLISECOND
  const MAX_RTO: nat := 1600 * MILLISECOND
  const MAX_TRANSMISSIONS: nat := 7
  const STREAM_TRANSACTION_TIMEOUT: nat := 12 * SECOND
  const REQUESTED_ALLOCATION_LIFETIME_SECS: U32 := 600
  const MAINTENANCE_RETRY_MAX: nat := 30 * SECOND
  const MAX_CHANNEL_MAINTENANCE_FAILURES: nat := 4
  const CHANNEL_NUMBER: U16 := 0x4000

  const RESULT_BUFFER_TOO_SMALL: int := -2
  const RESULT_INVALID_ARGUMENT: int := -3
  const RESULT_NOT_CONTROL: int := -5
  const RESULT_TIMEOUT: int := -6
  const RESULT_AUTHENTICATION: int := -7
  const RESULT_PROTOCOL: int := -8

  const ATTR_USERNAME: U16 := 0x0006
  const ATTR_ERROR_CODE: U16 := 0x0009
  const ATTR_CHANNEL_NUMBER: U16 := 0x000c
  const ATTR_LIFETIME: U16 := 0x000d
  const ATTR_XOR_PEER_ADDRESS: U16 := 0x0012
  const ATTR_REALM: U16 := 0x0014
  const ATTR_NONCE: U16 := 0x0015
  const ATTR_XOR_RELAYED_ADDRESS: U16 := 0x0016
  const ATTR_REQUESTED_ADDRESS_FAMILY: U16 := 0x0017
  const ATTR_REQUESTED_TRANSPORT: U16 := 0x0019

  datatype Transport = Datagram | Stream

  datatype Profile = Profile(
    allocationRefresh: nat, maintenanceRefresh: nat, keepaliveInterval: nat, maxNonceRetries: nat)

  const PJNATH_COMPAT: Profile := Profile(300 * SECOND, 175 * SECOND, 10 * SECOND, 3)

  /** What stays fixed over the life of a core; the limits are those its constructor enforces. */
  datatype Config = Config(
    server: SocketAddr, peer: SocketAddr, username: seq<Byte>, password: seq<Byte>,
    profile: Profile, transport: Transport, prim: Primitives)
  {
    predicate Valid() {
      server.port != 0 && peer.port != 0 && 0 < |username| <= 512 && 0 < |password| <= 512
    }
  }

  datatype Operation = Allocate | Refresh | Deallocate | Permission | Channel {
    function Method(): U16 {
      match this
      case Allocate => 3
      case Refresh => 4
      case Deallocate => 4
      case Permission => 8
      case Channel => 9
    }
  }

  datatype State = Null | Allocating | Ready | Deallocating | Deallocated | Destroying

  /** `sentAt`, the time of the first transmission, is history: no step reads it. */
  datatype Pending = Pending(
    operation: Operation, transaction: Transaction, packet: seq<Byte>, sentAt: nat, nextAttempt: nat,
    rto: nat, transmissions: nat, nonceRetries: nat, authenticated: bool)

  datatype Event =
    | StateChanged(state: State, previous: State)
    | RequestComplete(request: U16, status: int, stunCode: int, state: State, channel: U16, address: Option<SocketAddr>)
    | ChannelBound(channel: U16, peer: SocketAddr)
    | RelayAddress(relay: SocketAddr)
    | ControlOverflow
    | EventOverflow
    | ForcedDestroy(status: int)
    | ResponseError(request: U16, status: int, stunCode: int, state: State)
    | RebindExhausted

  /** The random id and the clock reading a new request consumes. */
  datatype Draw = Draw(transaction: Transaction, at: nat)

  /** A state, and whether the step that produced it succeeded. */
  datatype Outcome = Outcome(core: Core, ok: bool)

  datatype PollResult = Closed | Failed | Wait(delay: Option<nat>)

  // ---------------------------------------------------------------- pure helpers

  predicate Due(deadline: Option<nat>, now: nat) {
    deadline.Some? && now >= deadline.value
  }

  /** Retransmission timeout in force after the k-th transmission. */
  function Rto(k: nat): nat
    requires k >= 1
  {
    if k == 1 then INITIAL_RTO else Min(2 * Rto(k - 1), MAX_RTO)
  }

  /** Time the first k transmissions take to run out. */
  function Elapsed(k: nat): nat {
    if k == 0 then 0 else Elapsed(k - 1) + Rto(k)
  }

  function ErrorCode(m: Message): (code: Option<nat>)
    requires Parse(m.raw) == Ok(m)
    ensures code.Some? ==> code.value <= 699
  {
    match Find(m, ATTR_ERROR_CODE)
    case None => None
    case Some(a) =>
      if |a.value| < 4 || a.value[2] > 6 || a.value[3] > 99 then None
      else Some(a.value[2] as nat * 100 + a.value[3] as nat)
  }

  predicate RequiresIntegrity(m: Message)
    requires Parse(m.raw) == Ok(m)
  {
    match ClassOf(m.kind)
    case Success => true
    case Error => ErrorCode(m) !in {Some(400), Some(401), Some(420), Some(438)}
    case _ => false
  }

  predicate FingerprintedAllocationMismatch(m: Message, prim: Primitives)
    requires Parse(m.raw) == Ok(m)
  {
    ClassOf(m.kind) == Error && ErrorCode(m) == Some(437) && FingerprintValid(m, prim) == Some(true)
  }

  predicate RequiresAllocationRecreate(operation: Operation, code: nat) {
    code == 437 || (operation == Channel && code == 400)
  }

  function AttributeU32(m: Message, kind: U16): Option<U32>
    requires Parse(m.raw) == Ok(m)
  {
    match Find(m, kind)
    case None => None
    case Some(a) => if |a.value| == 4 then Some(Word32(a.value)) else None
  }

  function AttributeValue(m: Message, kind: U16): (value: Option<seq<Byte>>)
    requires Parse(m.raw) == Ok(m)
    ensures value.Some? ==> |value.value| < 0x1_0000 && |value.value| <= |m.raw|
  {
    AttributesSized(m.raw, HEADER_SIZE);
    match Find(m, kind)
    case None => None
    case Some(a) => Some(a.value)
  }

  function GrantedLifetime(lifetime: Option<U32>): U32 {
    if lifetime.Some? then lifetime.value else REQUESTED_ALLOCATION_LIFETIME_SECS
  }

  function AllocationRefreshDeadline(now: nat, lifetime: Option<U32>, interval: nat): nat {
    now + Max(Min(interval, Seconds(GrantedLifetime(lifetime)) / 2), 500 * MILLISECOND)
  }

  function RetryDelay(failures: nat): nat {
    Min(Seconds(Pow2(Min(Max(failures - 1, 0), 5))), MAINTENANCE_RETRY_MAX)
  }

  function RequestFields(cfg: Config, operation: Operation, transaction: Transaction): seq<Field> {
    match operation
    case Allocate => [
      Tlv(ATTR_REQUESTED_TRANSPORT, [17, 0, 0, 0]),
      Tlv(ATTR_REQUESTED_ADDRESS_FAMILY, [if cfg.peer.V4? then 1 else 2, 0, 0, 0]),
      Tlv(ATTR_LIFETIME, Be32(REQUESTED_ALLOCATION_LIFETIME_SECS))]
    case Refresh => [Tlv(ATTR_LIFETIME, Be32(REQUESTED_ALLOCATION_LIFETIME_SECS))]
    case Deallocate => [Tlv(ATTR_LIFETIME, Be32(0))]
    case Permission => [Tlv(ATTR_XOR_PEER_ADDRESS, EncodeXorAddress(cfg.peer, transaction))]
    case Channel => [
      Tlv(ATTR_CHANNEL_NUMBER, [0x40, 0, 0, 0]),
      Tlv(ATTR_XOR_PEER_ADDRESS, EncodeXorAddress(cfg.peer, transaction))]
  }

  /** What a server reads off a queued packet: which request it is, if it is one at all. */
  function RequestKind(packet: seq<Byte>): Option<Operation> {
    match Parse(packet)
    case Err(_) => None
    case Ok(m) =>
      if ClassOf(m.kind) != Request then None
      else match MethodOf(m.kind)
           case 3 => Some(Allocate)
           case 4 =>
             (match AttributeU32(m, ATTR_LIFETIME)
              case Some(lifetime) => if lifetime == 0 then Some(Deallocate) else Some(Refresh)
              case None => None)
           case 8 => Some(Permission)
           case 9 => Some(Channel)
           case _ => None
  }

  /** The queue without the packets of a finished transaction. */
  function WithoutTransaction(controls: seq<seq<Byte>>, transaction: Transaction): (r: seq<seq<Byte>>)
    ensures |r| <= |controls|
    ensures forall c :: c in r ==> c in controls
  {
    if controls == [] then []
    else
      var rest := WithoutTransaction(controls[1..], transaction);
      if |controls[0]| >= 20 && controls[0][8..20] == transaction then rest else [controls[0]] + rest
  }

  function FindOperation(pending: seq<Pending>, operation: Operation): (r: Option<Pending>)
    ensures r.Some? ==> r.value in pending && r.value.operation == operation
    ensures r.None? ==> forall p :: p in pending ==> p.operation != operation
  {
    if pending == [] then None
    else if pending[0].operation == operation then Some(pending[0])
    else FindOperation(pending[1..], operation)
  }

  /** The first pending request a response to `transaction` of that method can answer. */
  function Position(pending: seq<Pending>, transaction: Transaction, request: U16): (r: Option<nat>)
    ensures r.Some? ==> r.value < |pending|
                        && pending[r.value].transaction == transaction
                        && pending[r.value].operation.Method() == request
  {
    if pending == [] then None
    else if pending[0].transaction == transaction && pending[0].operation.Method() == request then Some(0)
    else match Position(pending[1..], transaction, request)
         case None => None
         case Some(i) => Some(i + 1)
  }

  function Without(pending: seq<Pending>, i: nat): seq<Pending>
    requires i < |pending|
  {
    pending[..i] + pending[i + 1..]
  }

  function Earlier(a: Option<nat>, b: Option<nat>): (r: Option<nat>)
    ensures a.Some? ==> r.Some? && r.value <= a.value
    ensures b.Some? ==> r.Some? && r.value <= b.value
  {
    if a.None? then b else if b.None? then a else Some(Min(a.value, b.value))
  }

  function EarliestAttempt(pending: seq<Pending>): Option<nat> {
    if pending == [] then None
    else Earlier(Some(pending[0].nextAttempt), EarliestAttempt(pending[1..]))
  }

  // ---------------------------------------------------------------- the state

  datatype Core = Core(
    realm: Option<seq<Byte>>,
    nonce: Option<seq<Byte>>,
    key: Option<Key>,
    state: State,
    relay: Option<SocketAddr>,
    channel: Option<U16>,
    controls: seq<seq<Byte>>,
    events: seq<Event>,
    pending: seq<Pending>,
    allocationRefresh: Option<nat>,
    allocationExpiresAt: Option<nat>,
    maintenanceRefresh: Option<nat>,
    permissionRetry: Option<nat>,
    channelRetry: Option<nat>,
    refreshFailures: nat,
    permissionFailures: nat,
    channelFailures: nat,
    keepalive: Option<nat>,
    shuttingDown: bool,
    destroyed: bool)
  {
    predicate AuthComplete() { realm.Some? && nonce.Some? && key.Some? }

    predicate Has(operation: Operation) { FindOperation(pending, operation).Some? }

    function PushEvent(event: Event): Core {
      if |events| == EVENT_CAPACITY then this.(events := events[1..] + [EventOverflow])
      else this.(events := events + [event])
    }

    function SetState(next: State): Core {
      if state == next then this else this.(state := next).PushEvent(StateChanged(next, state))
    }

    function SetAuth(cfg: Config, realm_: seq<Byte>, nonce_: seq<Byte>): Core {
      this.(key := Some(cfg.prim.md5(cfg.username + [58] + realm_ + [58] + cfg.password)),
            realm := Some(realm_), nonce := Some(nonce_))
    }

    function QueuePacket(packet: seq<Byte>): Core {
      var c := if |controls| == CONTROL_CAPACITY then this.(controls := controls[1..]).PushEvent(ControlOverflow)
               else this;
      c.(controls := c.controls + [packet])
    }

    function QueueKeepalive(): Core {
      if channel.None? then this else QueuePacket(Be16(channel.value) + Be16(1) + [0xff, 0, 0, 0])
    }

    function BuildRequest(cfg: Config, operation: Operation, transaction: Transaction, authenticated: bool)
      : Option<seq<Byte>>
      requires authenticated ==> AuthComplete()
    {
      var fields := RequestFields(cfg, operation, transaction);
      if authenticated then
        var all := fields + [Tlv(ATTR_USERNAME, cfg.username), Tlv(ATTR_REALM, realm.value),
                             Tlv(ATTR_NONCE, nonce.value)];
        FinishedAuthenticated(Draft(operation.Method(), transaction, all), key.value, cfg.prim)
      else Finished(Draft(operation.Method(), transaction, fields), cfg.prim)
    }

    function StartOperation(cfg: Config, operation: Operation, authenticated: bool, nonceRetries: nat, draw: Draw)
      : Outcome
    {
      var current := FindOperation(pending, operation);
      if current.Some? then
        Outcome(if operation == Channel then QueuePacket(current.value.packet) else this, true)
      else if authenticated && !AuthComplete() then Outcome(this, false)
      else match BuildRequest(cfg, operation, draw.transaction, authenticated)
           case None => Outcome(this, false)
           case Some(packet) =>
             var timeout := if cfg.transport == Datagram then INITIAL_RTO else STREAM_TRANSACTION_TIMEOUT;
             var p := Pending(operation, draw.transaction, packet, draw.at, draw.at + timeout, INITIAL_RTO, 1,
                              nonceRetries, authenticated);
             Outcome(QueuePacket(packet).(pending := pending + [p]), true)
    }

    function Complete(operation: Operation, status: int, stunCode: int): Core {
      PushEvent(RequestComplete(operation.Method(), status, stunCode, state,
                                if channel.Some? then channel.value else 0, relay))
    }

    /** Channel and maintenance timers gone, queue empty. */
    function Unbound(): Core {
      this.(controls := [], channel := None, maintenanceRefresh := None,
            permissionRetry := None, channelRetry := None, keepalive := None)
    }

    function Forgotten(): Core {
      this.(relay := None, allocationRefresh := None, allocationExpiresAt := None)
    }

    function DestroyAllocation(operation: Operation, status: int, stunCode: int): Core {
      Complete(operation, status, stunCode).(pending := []).Unbound().Forgotten()
        .SetState(if operation == Deallocate then Deallocated else Destroying)
    }

    function DestroyAfterRebindExhausted(): Core {
      this.(pending := []).Unbound().PushEvent(RebindExhausted).SetState(Destroying)
    }

    /** Counts a failed maintenance request and schedules the next try; false when out of tries. */
    function ScheduleRetry(operation: Operation, now: nat): Outcome {
      match operation
      case Refresh =>
        var n := Min(refreshFailures + 1, 255);
        Outcome(this.(refreshFailures := n, allocationRefresh := Some(now + RetryDelay(n))), true)
      case Permission =>
        var n := Min(permissionFailures + 1, 255);
        Outcome(this.(permissionFailures := n, permissionRetry := Some(now + RetryDelay(n))), true)
      case Channel =>
        var n := Min(channelFailures + 1, 255);
        if n >= MAX_CHANNEL_MAINTENANCE_FAILURES then Outcome(this.(channelFailures := n), false)
        else Outcome(this.(channelFailures := n, channelRetry := Some(now + RetryDelay(n))), true)
      case _ => Outcome(this, true)
    }

    function CompleteFailure(operation: Operation, status: int, stunCode: int, now: nat): (r: Core)
      ensures |r.pending| <= |pending|
    {
      if operation in {Refresh, Permission, Channel} && state == Ready
         && allocationExpiresAt.Some? && now < allocationExpiresAt.value
      then
        var retry := Complete(operation, status, stunCode).ScheduleRetry(operation, now);
        if retry.ok then retry.core else retry.core.DestroyAfterRebindExhausted()
      else DestroyAllocation(operation, status, stunCode)
    }

    /** The timers a granted lifetime sets. */
    function Granted(cfg: Config, lifetime: Option<U32>, now: nat): Core {
      this.(allocationRefresh := Some(AllocationRefreshDeadline(now, lifetime, cfg.profile.allocationRefresh)),
            allocationExpiresAt := Some(now + Seconds(GrantedLifetime(lifetime))),
            refreshFailures := 0)
    }

    function AllocateSucceeded(cfg: Config, m: Message, now: nat, draw: Draw): Outcome
      requires Parse(m.raw) == Ok(m)
    {
      var value := AttributeValue(m, ATTR_XOR_RELAYED_ADDRESS);
      if value.None? then Outcome(this, false)
      else
        var address := DecodeXorAddress(value.value, m.transaction);
        var lifetime := AttributeU32(m, ATTR_LIFETIME);
        if address.None? || address.value.V4? != cfg.peer.V4? || address.value.port == 0 then Outcome(this, false)
        else if GrantedLifetime(lifetime) == 0 then Outcome(this, false)
        else
          var c := Granted(cfg, lifetime, now)
            .(relay := Some(address.value),
              maintenanceRefresh := Some(now + cfg.profile.maintenanceRefresh),
              keepalive := Some(now + cfg.profile.keepaliveInterval))
            .PushEvent(RelayAddress(address.value));
          if shuttingDown then c.SetState(Deallocating).StartOperation(cfg, Deallocate, true, 0, draw)
          else Outcome(c.SetState(Ready).Complete(Allocate, 0, 0), true)
    }

    function CompleteSuccess(cfg: Config, operation: Operation, m: Message, now: nat, draw: Draw): Outcome
      requires Parse(m.raw) == Ok(m)
    {
      match operation
      case Allocate => AllocateSucceeded(cfg, m, now, draw)
      case Refresh =>
        var lifetime := AttributeU32(m, ATTR_LIFETIME);
        if GrantedLifetime(lifetime) == 0 then Outcome(this, false)
        else Outcome(Granted(cfg, lifetime, now).Complete(Refresh, 0, 0), true)
      case Deallocate =>
        var lifetime := AttributeU32(m, ATTR_LIFETIME);
        if lifetime.Some? && lifetime.value != 0 then Outcome(this, false)
        else
          Outcome(Forgotten().Complete(Deallocate, 0, 0).SetState(Deallocated), true)
      case Permission => Outcome(this.(permissionFailures := 0).Complete(Permission, 0, 0), true)
      case Channel =>
        Outcome(this.(channel := Some(CHANNEL_NUMBER), channelFailures := 0)
                  .PushEvent(ChannelBound(CHANNEL_NUMBER, cfg.peer)).Complete(Channel, 0, 0), true)
    }

    // -------------------------------------------------------------- inbound messages

    /** Answers a fresh realm or nonce with the same request under a new transaction, while tries are left. */
    function AuthRetry(cfg: Config, m: Message, p: Pending, code: nat, draw: Draw): Outcome
      requires Parse(m.raw) == Ok(m)
    {
      var realm_ := if AttributeValue(m, ATTR_REALM).Some? then AttributeValue(m, ATTR_REALM)
                    else if code == 438 then realm else None;
      var nonce_ := AttributeValue(m, ATTR_NONCE);
      if code in {401, 438} && p.nonceRetries < cfg.profile.maxNonceRetries && realm_.Some? && nonce_.Some?
      then SetAuth(cfg, realm_.value, nonce_.value).StartOperation(cfg, p.operation, true, p.nonceRetries + 1, draw)
      else Outcome(this, false)
    }

    /** An error response to `p`, which is already off the pending table. */
    function ErrorResponse(cfg: Config, m: Message, p: Pending, now: nat, draw: Draw): Core
      requires Parse(m.raw) == Ok(m)
    {
      var request := p.operation.Method();
      var code := if ErrorCode(m).Some? then ErrorCode(m).value else 0;
      if code == 0 then
        PushEvent(ResponseError(request, RESULT_PROTOCOL, 0, state))
          .CompleteFailure(p.operation, RESULT_PROTOCOL, 0, now)
      else if RequiresAllocationRecreate(p.operation, code) then
        PushEvent(ResponseError(request, 0, code, state)).DestroyAllocation(p.operation, RESULT_PROTOCOL, code)
      else
        var retry := AuthRetry(cfg, m, p, code, draw);
        if retry.ok then retry.core
        else retry.core.PushEvent(ResponseError(request, 0, code, state))
               .CompleteFailure(p.operation, RESULT_PROTOCOL, code, now)
    }

    /** A response to `p`, which is already off the pending table, with the status returned. */
    function Response(cfg: Config, m: Message, p: Pending, now: nat, draw: Draw): (Core, int)
      requires Parse(m.raw) == Ok(m)
    {
      if ClassOf(m.kind) == Success && !p.authenticated then
        (CompleteFailure(p.operation, RESULT_AUTHENTICATION, 0, now), RESULT_AUTHENTICATION)
      else if ClassOf(m.kind) == Error then (ErrorResponse(cfg, m, p, now, draw), 0)
      else
        var done := CompleteSuccess(cfg, p.operation, m, now, draw);
        if done.ok then (done.core, 0)
        else (done.core.CompleteFailure(p.operation, RESULT_PROTOCOL, 0, now), RESULT_PROTOCOL)
    }

    /** Takes the i-th request off the pending table and its packets off the queue. */
    function Taken(i: nat): Core
      requires i < |pending|
    {
      this.(pending := Without(pending, i), controls := WithoutTransaction(controls, pending[i].transaction))
    }

    function InputStun(cfg: Config, packet: seq<Byte>, now: nat, draw: Draw): (Core, int) {
      match Parse(packet)
      case Err(_) => (this, RESULT_INVALID_ARGUMENT)
      case Ok(m) =>
        if ClassOf(m.kind) !in {Success, Error} then (this, RESULT_NOT_CONTROL)
        else if FingerprintValid(m, cfg.prim) == Some(false) then (this, RESULT_INVALID_ARGUMENT)
        else match Position(pending, m.transaction, MethodOf(m.kind))
             case None => (this, RESULT_NOT_CONTROL)
             case Some(i) =>
               if pending[i].authenticated && RequiresIntegrity(m) && !VerifyIntegrity(m, key, cfg.prim)
                  && !FingerprintedAllocationMismatch(m, cfg.prim)
               then
                 (if ClassOf(m.kind) == Error && ErrorCode(m).Some?
                  then PushEvent(ResponseError(MethodOf(m.kind), RESULT_AUTHENTICATION, ErrorCode(m).value, state))
                  else this,
                  RESULT_AUTHENTICATION)
               else Taken(i).Response(cfg, m, pending[i], now, draw)
    }

    // -------------------------------------------------------------- timers

    /** Request i after one more transmission at `now`. */
    function Retransmitted(i: nat, now: nat): Core
      requires i < |pending|
    {
      var p := pending[i];
      var rto := Min(2 * p.rto, MAX_RTO);
      QueuePacket(p.packet).(
        pending := pending[i := p.(transmissions := p.transmissions + 1, rto := rto, nextAttempt := now + rto)])
    }

    function ExpireFrom(cfg: Config, i: nat, now: nat): Core
      decreases |pending| - i
    {
      if i >= |pending| then this
      else if now < pending[i].nextAttempt then ExpireFrom(cfg, i + 1, now)
      else if pending[i].transmissions >= MAX_TRANSMISSIONS || cfg.transport == Stream then
        Taken(i).CompleteFailure(pending[i].operation, RESULT_TIMEOUT, 0, now).ExpireFrom(cfg, i, now)
      else Retransmitted(i, now).ExpireFrom(cfg, i + 1, now)
    }

    function KeepaliveTick(cfg: Config, now: nat, controlStarted: bool): Core {
      if !Due(keepalive, now) then this
      else
        var c := this.(keepalive := Some(now + cfg.profile.keepaliveInterval));
        if controlStarted then c else c.QueueKeepalive()
    }

    /** One maintenance request: its own timer is given up and the request started, if it is wanted. */
    function Maintained(cfg: Config, wanted: bool, operation: Operation, draw: Draw): Outcome {
      if !wanted then Outcome(this, true)
      else
        var c := match operation
                 case Refresh => this.(allocationRefresh := None)
                 case Permission => this.(permissionRetry := None)
                 case Channel => this.(channelRetry := None)
                 case _ => this;
        c.StartOperation(cfg, operation, true, 0, draw)
    }

    function Rescheduled(cfg: Config, due: bool, now: nat): Core {
      if due then this.(maintenanceRefresh := Some(now + cfg.profile.maintenanceRefresh)) else this
    }

    /** The maintenance part of a poll, in a READY state; false when a request could not be built. */
    function Maintenance(cfg: Config, now: nat, refresh: Draw, permission: Draw, bind: Draw): Outcome {
      var due := Due(maintenanceRefresh, now);
      var refreshing := Due(allocationRefresh, now) && !Has(Refresh);
      var a := Maintained(cfg, refreshing, Refresh, refresh);
      if !a.ok then a
      else
        var a0 := a.core.Rescheduled(cfg, due, now);
        var permitting := (due || Due(permissionRetry, now)) && !a0.Has(Permission);
        var b := a0.Maintained(cfg, permitting, Permission, permission);
        if !b.ok then b
        else
          var binding := (due || Due(channelRetry, now)) && !b.core.Has(Channel);
          var c := b.core.Maintained(cfg, binding, Channel, bind);
          if !c.ok then c
          else Outcome(c.core.KeepaliveTick(cfg, now, refreshing || permitting || binding), true)
    }

    function NextDeadline(): Option<nat> {
      Earlier(EarliestAttempt(pending),
              Earlier(allocationRefresh,
                      Earlier(maintenanceRefresh, Earlier(permissionRetry, Earlier(channelRetry, keepalive)))))
    }

    /** The table after retransmissions and timeouts, and after an expired allocation is dropped. */
    function Expired(cfg: Config, now: nat): Core {
      var c := ExpireFrom(cfg, 0, now);
      if !c.shuttingDown && c.state == Ready && Due(c.allocationExpiresAt, now)
      then c.DestroyAllocation(Refresh, RESULT_TIMEOUT, 0)
      else c
    }

    function Poll(cfg: Config, now: nat, refresh: Draw, permission: Draw, bind: Draw): (Core, PollResult) {
      if destroyed then (this, Closed)
      else
        var c := Expired(cfg, now);
        var d := if !c.shuttingDown && c.state == Ready then c.Maintenance(cfg, now, refresh, permission, bind)
                 else Outcome(c, true);
        (d.core,
         if !d.ok then Failed
         else match d.core.NextDeadline()
              case None => Wait(None)
              case Some(deadline) => Wait(Some(Max(deadline - now, MILLISECOND))))
    }

    // -------------------------------------------------------------- entry points

    /** What `pull_control` returns; it takes the oldest packet off the queue in any case. */
    function PulledControl(): Result<Option<seq<Byte>>, int> {
      if controls == [] then Ok(None)
      else if |controls[0]| > CONTROL_BUFFER then Err(RESULT_BUFFER_TOO_SMALL)
      else Ok(Some(controls[0]))
    }

    predicate Open() { !destroyed && !shuttingDown }

    function StartAllocation(cfg: Config, draw: Draw): Outcome {
      if !Open() || state != Null then Outcome(this, false)
      else SetState(Allocating).StartOperation(cfg, Allocate, false, 0, draw)
    }

    /** `start_channel` and `start_permission`. */
    function StartWhenReady(cfg: Config, operation: Operation, draw: Draw): Outcome {
      if !Open() || state != Ready then Outcome(this, false)
      else StartOperation(cfg, operation, true, 0, draw)
    }

    function GracefulShutdown(cfg: Config, draw: Draw): Outcome {
      if destroyed || shuttingDown then Outcome(this, true)
      else
        var c := this.(shuttingDown := true).Unbound();
        if state == Ready || (state == Destroying && allocationExpiresAt.Some?) then
          c.(pending := []).SetState(Deallocating).StartOperation(cfg, Deallocate, true, 0, draw)
        else Outcome(if state != Allocating then c.(pending := []) else c, true)
    }

    function ForceDestroy(status: int): Core {
      if destroyed then this
      else this.(destroyed := true, controls := [], pending := []).SetState(Destroying).PushEvent(ForcedDestroy(status))
    }
  }

  function Initial(): Core {
    Core(None, None, None, Null, None, None, [], [], [], None, None, None, None, None, 0, 0, 0, None, false, false)
  }
}
