/** Slot accounting of the downlink scheduler, and the scheduler itself as it is written. */
module DownlinkSlots {
  import opened Bytes
  import opened Downlink
  import opened DownlinkRuns

  // ---------------------------------------------------------------- slots are conserved

  /** How many slots of each lane and class are in a caller's hands. */
  type Ledger = seq<Profile>

  function Put(p: Profile, c: Class, n: nat): (r: Profile)
    ensures r.Of(c) == n && forall d: Class :: d != c ==> r.Of(d) == p.Of(d)
  {
    match c
    case Latency => p.(latency := n)
    case Priority => p.(priority := n)
    case Bulk => p.(bulk := n)
  }

  function Total(s: State, out: Ledger, key: nat, c: Class): nat
    requires key < |s.lanes| && key < |out|
  {
    s.lanes[key].Of(c).Total() + out[key].Of(c)
  }

  /** Free, pending and checked-out slots of a lane add up to what its profile grants. */
  predicate Conserved(s: State, out: Ledger) {
    && |s.lanes| == |out| == LANES
    && (forall key, c: Class :: 0 <= key < LANES ==>
          Total(s, out, key, c) == ProfileFor(s.lanes[key].paths).Of(c))
  }

  function Default(): State {
    var none := Slots([], []);
    var empty := Ring([], 0);
    State(seq(LANES, _ => Lane(0, none, none, none)), empty, empty, empty)
  }

  function NothingOut(): Ledger { seq(LANES, _ => Profile(0, 0, 0)) }

  lemma {:induction false} NoLanesNoKeys(lanes: seq<Lane>, n: nat)
    requires n <= |lanes| && forall k :: 0 <= k < |lanes| ==> lanes[k].paths == 0
    ensures Plain(lanes, n) == [] && Weighted(lanes, n) == []
  {
    if n > 0 { NoLanesNoKeys(lanes, n - 1); }
  }

  lemma DefaultValid()
    ensures Valid(Default()) && Conserved(Default(), NothingOut())
  {
    NoLanesNoKeys(Default().lanes, LANES);
  }

  predicate Reconfigures(s: State, op: Op) {
    op.Configure? && op.key < |s.lanes| && s.lanes[op.key].paths != Min(op.paths, MAX_PATHS)
  }

  /** A caller gives back only what it took, and resizes a lane only with all its slots at home. */
  predicate Disciplined(s: State, out: Ledger, op: Op)
    requires |s.lanes| == |out|
  {
    && (op.Requeue? || op.Recycle? ==> op.key < |out| ==> out[op.key].Of(op.class_) > 0)
    && (Reconfigures(s, op) ==> out[op.key] == Profile(0, 0, 0))
  }

  function Charged(s: State, out: Ledger, op: Op): (r: Ledger)
    requires Valid(s) && |out| == LANES
    ensures |r| == LANES
  {
    match op
    case Dequeue(c) =>
      (match Front(s, c)
       case None => out
       case Some(f) => out[f.0 := Put(out[f.0], c, out[f.0].Of(c) + 1)])
    case Requeue(key, c, _) =>
      if key < LANES && out[key].Of(c) > 0 then out[key := Put(out[key], c, out[key].Of(c) - 1)] else out
    case Recycle(key, c, _) =>
      if key < LANES && out[key].Of(c) > 0 then out[key := Put(out[key], c, out[key].Of(c) - 1)] else out
    case _ => out
  }

  lemma SetTotal(s: State, out: Ledger, key: nat, c: Class, slots: Slots, n: nat, k: nat, d: Class)
    requires |s.lanes| == |out| == LANES && key < LANES && k < LANES
    ensures Total(SetSlots(s, key, c, slots), out[key := Put(out[key], c, n)], k, d)
            == if k == key && d == c then slots.Total() + n else Total(s, out, k, d)
    ensures SetSlots(s, key, c, slots).lanes[k].paths == s.lanes[k].paths
  {
  }

  lemma SameCharge(out: Ledger, key: nat, c: Class)
    requires key < |out|
    ensures out[key := Put(out[key], c, out[key].Of(c))] == out
  {
    assert Put(out[key], c, out[key].Of(c)) == out[key];
  }

  lemma DequeueTotal(s: State, out: Ledger, c: Class, key: nat, d: Class)
    requires Valid(s) && |out| == LANES && key < LANES && |Dequeued(s, c).lanes| == LANES
    ensures Total(Dequeued(s, c), Charged(s, out, Dequeue(c)), key, d) == Total(s, out, key, d)
    ensures Dequeued(s, c).lanes[key].paths == s.lanes[key].paths
  {
    hide Keys, Front, Dequeued, SetSlots;
    DequeuedAt(s, c);
    if Front(s, c).Some? {
      var f := Front(s, c).value.0;
      var slots := s.lanes[f].Of(c);
      SetTotal(s, out, f, c, Slots(slots.free, slots.pending[1..]), out[f].Of(c) + 1, key, d);
      assert Dequeued(s, c).lanes == SetSlots(s, f, c, Slots(slots.free, slots.pending[1..])).lanes by {
        SetsLane(s, f, c, Slots(slots.free, slots.pending[1..]));
      }
    }
  }

  lemma SetsLane(s: State, key: nat, c: Class, slots: Slots)
    requires key < |s.lanes|
    ensures SetSlots(s, key, c, slots).lanes == s.lanes[key := s.lanes[key].With(c, slots)]
  {
  }

  lemma StepTotal(s: State, out: Ledger, op: Op, key: nat, c: Class)
    requires Valid(s) && Conserved(s, out) && Disciplined(s, out, op) && key < LANES && !op.Configure?
    requires |Apply(s, op).lanes| == LANES
    ensures Total(Apply(s, op), Charged(s, out, op), key, c) == Total(s, out, key, c)
    ensures Apply(s, op).lanes[key].paths == s.lanes[key].paths
  {
    hide Keys, Front, Dequeued, ProfileFor, SetSlots, Put;
    match op
    case Dequeue(d) => DequeueTotal(s, out, d, key, c);
    case Enqueue(k, d, packet) =>
      if Accepts(s, k, d, packet) {
        SameCharge(out, k, d);
        SetTotal(s, out, k, d, Offered(s.lanes[k].Of(d), packet).value, out[k].Of(d), key, c);
      }
    case Requeue(k, d, b) =>
      if k < LANES {
        SetTotal(s, out, k, d, Slots(s.lanes[k].Of(d).free, [b] + s.lanes[k].Of(d).pending), out[k].Of(d) - 1, key, c);
      }
    case Recycle(k, d, b) =>
      if k < LANES {
        SetTotal(s, out, k, d, Slots(s.lanes[k].Of(d).free + [b], s.lanes[k].Of(d).pending), out[k].Of(d) - 1, key, c);
      }
    case Clear(k) =>
  }

  /** Reconfiguring a lane grants its new profile on top of whatever slots are still out. */
  lemma ReconfiguredTotal(s: State, out: Ledger, op: Op, key: nat, c: Class)
    requires Valid(s) && Conserved(s, out) && Reconfigures(s, op) && key < LANES
    ensures var t := Apply(s, op);
            && |t.lanes| == LANES
            && Total(t, out, key, c) ==
                 ProfileFor(t.lanes[key].paths).Of(c) + (if key == op.key then out[key].Of(c) else 0)
  {
    hide Keys, ProfileFor;
  }

  /** Resizing a lane keeps the account exact if and only if none of its slots are out. */
  lemma ReconfigureExactly(s: State, out: Ledger, op: Op)
    requires Valid(s) && Conserved(s, out) && Reconfigures(s, op)
    ensures Conserved(Apply(s, op), out) <==> out[op.key] == Profile(0, 0, 0)
  {
    hide Apply, ProfileFor;
    var t := Apply(s, op);
    forall key, c: Class | 0 <= key < LANES
      ensures |t.lanes| == LANES
      ensures Total(t, out, key, c) ==
                ProfileFor(t.lanes[key].paths).Of(c) + (if key == op.key then out[key].Of(c) else 0)
    {
      ReconfiguredTotal(s, out, op, key, c);
    }
    var zero := out[op.key];
    assert zero == Profile(0, 0, 0) <==> zero.Of(Latency) == zero.Of(Priority) == zero.Of(Bulk) == 0;
    assert Conserved(t, out) ==> forall c: Class :: Total(t, out, op.key, c) == ProfileFor(t.lanes[op.key].paths).Of(c);
  }

  lemma StepConserved(s: State, out: Ledger, op: Op)
    requires Valid(s) && Conserved(s, out) && Disciplined(s, out, op)
    ensures Conserved(Apply(s, op), Charged(s, out, op))
  {
    hide Apply, ProfileFor, Charged, Total;
    if Reconfigures(s, op) {
      ChargesNothing(s, out, op);
      ReconfigureExactly(s, out, op);
    } else if op.Configure? {
      ChargesNothing(s, out, op);
      ConfigureNothing(s, op);
    } else {
      ApplyValid(s, op);
      forall key, c: Class | 0 <= key < LANES
        ensures Total(Apply(s, op), Charged(s, out, op), key, c) == ProfileFor(Apply(s, op).lanes[key].paths).Of(c)
      {
        StepTotal(s, out, op, key, c);
      }
    }
  }

  lemma ChargesNothing(s: State, out: Ledger, op: Op)
    requires Valid(s) && |out| == LANES && op.Configure?
    ensures Charged(s, out, op) == out
  {
  }

  lemma ConfigureNothing(s: State, op: Op)
    requires Valid(s) && op.Configure? && !Reconfigures(s, op)
    ensures Apply(s, op) == s
  {
  }

  predicate DisciplinedRun(s: State, out: Ledger, ops: seq<Op>)
    requires Valid(s) && |out| == LANES
    decreases |ops|
  {
    ops == [] ||
    (ApplyValid(s, ops[0]);
     Disciplined(s, out, ops[0]) && DisciplinedRun(Apply(s, ops[0]), Charged(s, out, ops[0]), ops[1..]))
  }

  function RunLedger(s: State, out: Ledger, ops: seq<Op>): (r: Ledger)
    requires Valid(s) && |out| == LANES
    ensures |r| == LANES
    decreases |ops|
  {
    if ops == [] then out
    else ApplyValid(s, ops[0]); RunLedger(Apply(s, ops[0]), Charged(s, out, ops[0]), ops[1..])
  }

  /** No run of disciplined calls creates or loses a slot. */
  lemma {:induction false} RunConserves(s: State, out: Ledger, ops: seq<Op>)
    requires Valid(s) && Conserved(s, out) && DisciplinedRun(s, out, ops)
    ensures Conserved(Run(s, ops), RunLedger(s, out, ops))
    decreases |ops|
  {
    if ops != [] {
      hide Apply, Charged, Conserved, Disciplined, Valid;
      ApplyValid(s, ops[0]);
      LedgerLength(s, out);
      StepConserved(s, out, ops[0]);
      RunConserves(Apply(s, ops[0]), Charged(s, out, ops[0]), ops[1..]);
    }
  }

  lemma LedgerLength(s: State, out: Ledger)
    requires Conserved(s, out)
    ensures |s.lanes| == |out| == LANES
  {
  }

  lemma {:induction false} RunFirst(s: State, out: Ledger, op: Op, rest: seq<Op>)
    requires Valid(s) && |out| == LANES
    ensures Valid(Apply(s, op))
    ensures Run(s, [op] + rest) == Run(Apply(s, op), rest)
    ensures RunLedger(s, out, [op] + rest) == RunLedger(Apply(s, op), Charged(s, out, op), rest)
  {
    hide Valid, Apply, Charged;
    ApplyValid(s, op);
    assert ([op] + rest)[1..] == rest;
  }

  lemma FrontActive(s: State, c: Class)
    requires Valid(s) && Front(s, c).Some?
    ensures s.lanes[Front(s, c).value.0].paths > 0
  {
    var key := Front(s, c).value.0;
    InTurned(s.Of(c), key);
    InRing(s.lanes, c, key);
  }

  predicate OnlyLaneZero(s: State) {
    |s.lanes| == LANES && s.lanes[0].paths == 1 && forall k :: 0 < k < LANES ==> s.lanes[k].paths == 0
  }

  lemma FirstLane(s: State)
    requires Valid(s) && forall k :: 0 <= k < LANES ==> s.lanes[k].paths == 0
    ensures OnlyLaneZero(Apply(s, Configure(0, 1)))
    ensures s.lanes[0].bulk.pending == [] ==> Apply(s, Configure(0, 1)).lanes[0].bulk.pending == []
  {
    hide Keys;
  }

  lemma FirstPacket(s: State)
    requires Valid(s) && OnlyLaneZero(s) && Accepts(s, 0, Bulk, [0])
    ensures var t := Apply(s, Enqueue(0, Bulk, [0])); OnlyLaneZero(t) && Ready(t.lanes, Bulk, 0)
  {
  }

  lemma PacketOut(s: State, out: Ledger)
    requires Valid(s) && OnlyLaneZero(s) && Ready(s.lanes, Bulk, 0) && |out| == LANES
    ensures Charged(s, out, Dequeue(Bulk))[0].bulk == out[0].bulk + 1
    ensures Apply(s, Dequeue(Bulk)).lanes[0].paths == 1
  {
    hide Front, Dequeued, Keys;
    NothingExactly(s, Bulk);
    FrontActive(s, Bulk);
    DequeuedShape(s, Bulk);
  }

  /** Resizing a lane while a packet of it is out leaves one slot too many. */
  lemma ResizedWhileOut()
    ensures Valid(Default())
    ensures var ops := [Configure(0, 1)] + ([Enqueue(0, Bulk, [0])] + ([Dequeue(Bulk)] + ([Configure(0, 2)] + [])));
            !Conserved(Run(Default(), ops), RunLedger(Default(), NothingOut(), ops))
  {
    hide Valid, Apply, Charged, Run, RunLedger, Total, Accepts, Ready;
    var s, out := Default(), NothingOut();
    DefaultValid();
    RunFirst(s, out, Configure(0, 1), [Enqueue(0, Bulk, [0])] + ([Dequeue(Bulk)] + ([Configure(0, 2)] + [])));
    FirstLane(s);
    StepConserved(s, out, Configure(0, 1));
    ChargesNothing(s, out, Configure(0, 1));
    var t := Apply(s, Configure(0, 1));
    RunFirst(t, out, Enqueue(0, Bulk, [0]), [Dequeue(Bulk)] + ([Configure(0, 2)] + []));
    NonePending(t, out);
    FirstPacket(t);
    StepConserved(t, out, Enqueue(0, Bulk, [0]));
    EnqueueCharges(t, out);
    var u := Apply(t, Enqueue(0, Bulk, [0]));
    RunFirst(u, out, Dequeue(Bulk), [Configure(0, 2)] + []);
    PacketOut(u, out);
    StepConserved(u, out, Dequeue(Bulk));
    var v, taken := Apply(u, Dequeue(Bulk)), Charged(u, out, Dequeue(Bulk));
    RunFirst(v, taken, Configure(0, 2), []);
    ReconfigureExactly(v, taken, Configure(0, 2));
    ChargesNothing(v, taken, Configure(0, 2));
    RunEnd(Apply(v, Configure(0, 2)), taken);
  }

  lemma RunEnd(s: State, out: Ledger)
    requires Valid(s) && |out| == LANES
    ensures Run(s, []) == s && RunLedger(s, out, []) == out
  {
  }

  lemma EnqueueCharges(s: State, out: Ledger)
    requires Valid(s) && |out| == LANES
    ensures Charged(s, out, Enqueue(0, Bulk, [0])) == out
  {
  }

  /** A lane with all its slots free takes a packet. */
  lemma NonePending(s: State, out: Ledger)
    requires Valid(s) && Conserved(s, out) && OnlyLaneZero(s)
    requires s.lanes[0].bulk.pending == [] && out[0] == Profile(0, 0, 0)
    ensures Accepts(s, 0, Bulk, [0])
  {
    AcceptsExactly(s, out, 0, Bulk, [0]);
  }

  /** With the account in order, a lane takes a packet exactly while its profile is not used up. */
  lemma AcceptsExactly(s: State, out: Ledger, key: nat, c: Class, packet: seq<Byte>)
    requires Valid(s) && Conserved(s, out)
    ensures Accepts(s, key, c, packet) <==>
            && key < LANES
            && |packet| <= PACKET_CAPACITY
            && |Pending(s, key, c)| + out[key].Of(c) < ProfileFor(s.lanes[key].paths).Of(c)
  {
    if key < LANES {
      assert Total(s, out, key, c) == ProfileFor(s.lanes[key].paths).Of(c);
    }
  }

  // ---------------------------------------------------------------- the scheduler

  class DownlinkQueue {
    var lanes: seq<Lane>
    var latency: Ring
    var priority: Ring
    var bulk: Ring

    function Model(): State
      reads this
    {
      State(lanes, latency, priority, bulk)
    }

    constructor ()
      ensures Model() == Default() && Valid(Model())
    {
      var none := Slots([], []);
      lanes := seq(LANES, _ => Lane(0, none, none, none));
      latency, priority, bulk := Ring([], 0), Ring([], 0), Ring([], 0);
      new;
      assert lanes == Default().lanes;
      DefaultValid();
    }

    method ConfigureLane(lane: Lane, paths: nat) returns (r: Lane)
      ensures r == Configured(lane, paths)
    {
      var n := Min(paths, PRIORITY_MAX_SLOTS / PRIORITY_SLOTS_PER_PATH);
      var profile := ProfileFor(n);
      var a := Resize(lane.latency, profile.latency);
      var b := Resize(lane.priority, profile.priority);
      var c := Resize(lane.bulk, profile.bulk);
      r := Lane(n, a, b, c);
    }

    method Configure(key: nat, paths: nat)
      requires Valid(Model())
      modifies this
      ensures Valid(Model()) && Model() == Apply(old(Model()), Op.Configure(key, paths))
    {
      ApplyValid(Model(), Op.Configure(key, paths));
      if key >= |lanes| {
        return;
      }
      if lanes[key].paths == Min(paths, PRIORITY_MAX_SLOTS / PRIORITY_SLOTS_PER_PATH) {
        return;
      }
      var lane := ConfigureLane(lanes[key], paths);
      lanes := lanes[key := lane];
      RebuildRings();
    }

    method RebuildRings()
      modifies this`latency, this`priority, this`bulk
      ensures Model() == Rebuilt(old(Model()))
    {
      var plain, weighted := [], [];
      for key := 0 to |lanes|
        invariant plain == Plain(lanes, key) && weighted == Weighted(lanes, key)
      {
        if lanes[key].paths != 0 {
          plain := plain + [key];
          weighted := weighted + Copies<nat>(key, lanes[key].paths);
        }
      }
      latency := Ring(plain, latency.cursor % Max(|plain|, 1));
      priority := Ring(plain, priority.cursor % Max(|plain|, 1));
      bulk := Ring(weighted, bulk.cursor % Max(|weighted|, 1));
    }

    method SetLane(key: nat, class_: Class, slots: Slots)
      requires key < |lanes|
      modifies this`lanes
      ensures Model() == SetSlots(old(Model()), key, class_, slots)
    {
      lanes := lanes[key := lanes[key].With(class_, slots)];
    }

    method Enqueue(key: nat, class_: Class, packet: seq<Byte>) returns (accepted: bool)
      requires Valid(Model())
      modifies this
      ensures accepted == Accepts(old(Model()), key, class_, packet)
      ensures Valid(Model()) && Model() == Apply(old(Model()), Op.Enqueue(key, class_, packet))
    {
      ApplyValid(Model(), Op.Enqueue(key, class_, packet));
      if key >= |lanes| || lanes[key].paths == 0 {
        return false;
      }
      var slots := lanes[key].Of(class_);
      if slots.free == [] {
        return false;
      }
      if |packet| > PACKET_CAPACITY {
        return false;
      }
      SetLane(key, class_, Slots(slots.free[..|slots.free| - 1], slots.pending + [packet]));
      return true;
    }

    /** The lane whose turn it is; the cursor moves on and wraps at the end of the ring. */
    method NextKey(class_: Class) returns (r: Option<nat>)
      requires Model().Of(class_).Valid()
      modifies this`latency, this`priority, this`bulk
      ensures var ring := old(Model()).Of(class_);
              if ring.keys == [] then r == None && Model() == old(Model())
              else r == Some(ring.Turned()[0]) && Model() == old(Model()).With(class_, ring.Advanced(1))
    {
      var ring := Model().Of(class_);
      if ring.cursor >= |ring.keys| {
        return None;
      }
      var cursor := ring.cursor + 1;
      if cursor == |ring.keys| {
        cursor := 0;
      }
      match class_ {
        case Latency => latency := Ring(ring.keys, cursor);
        case Priority => priority := Ring(ring.keys, cursor);
        case Bulk => bulk := Ring(ring.keys, cursor);
      }
      return Some(ring.keys[ring.cursor]);
    }

    method Dequeue(class_: Class) returns (r: Option<(nat, Buffer)>)
      requires Valid(Model())
      modifies this
      ensures r == Front(old(Model()), class_)
      ensures Valid(Model()) && Model() == Apply(old(Model()), Op.Dequeue(class_))
    {
      hide Keys, FirstReady, Front, Dequeued, Apply, Valid, Ring.Turned, Ring.Advanced;
      ghost var start := Model();
      ApplyValid(start, Op.Dequeue(class_));
      RingValid(start, class_);
      ghost var ring := start.Of(class_);
      var attempts := |Model().Of(class_).keys|;
      for i := 0 to attempts
        invariant attempts == |ring.keys|
        invariant Model() == start.With(class_, ring.Advanced(i))
        invariant forall j :: 0 <= j < i ==> !Ready(start.lanes, class_, ring.Turned()[j])
      {
        TurnedAdvanced(ring, i);
        Advances(start, class_, i);
        LineInRange(start, class_, i);
        var key := NextKey(class_);
        var slots := lanes[key.value].Of(class_);
        if slots.pending != [] {
          Found(start, class_, i);
          SetLane(key.value, class_, slots.(pending := slots.pending[1..]));
          return Some((key.value, slots.pending[0]));
        }
      }
      NotFound(start, class_);
      return None;
    }

    method RequeueFront(key: nat, class_: Class, packet: Buffer)
      requires Valid(Model())
      modifies this
      ensures Valid(Model()) && Model() == Apply(old(Model()), Requeue(key, class_, packet))
    {
      ApplyValid(Model(), Requeue(key, class_, packet));
      if key < |lanes| {
        var slots := lanes[key].Of(class_);
        SetLane(key, class_, Slots(slots.free, [packet] + slots.pending));
      }
    }

    method Recycle(key: nat, class_: Class, packet: Buffer)
      requires Valid(Model())
      modifies this
      ensures Valid(Model()) && Model() == Apply(old(Model()), Op.Recycle(key, class_, packet))
    {
      ApplyValid(Model(), Op.Recycle(key, class_, packet));
      if key < |lanes| {
        var slots := lanes[key].Of(class_);
        SetLane(key, class_, Slots(slots.free + [packet], slots.pending));
      }
    }

    method Clear(key: nat)
      requires Valid(Model())
      modifies this
      ensures Valid(Model()) && Model() == Apply(old(Model()), Op.Clear(key))
    {
      ApplyValid(Model(), Op.Clear(key));
      if key < |lanes| {
        var a := ClearPending(lanes[key].latency);
        var b := ClearPending(lanes[key].priority);
        var c := ClearPending(lanes[key].bulk);
        lanes := lanes[key := lanes[key].(latency := a, priority := b, bulk := c)];
      }
    }
  }

  lemma Advances(s: State, c: Class, i: nat)
    requires Valid(s) && i < |s.Of(c).keys|
    ensures var ring := s.Of(c);
            && ring.Advanced(i).Valid() && ring.Advanced(i).Advanced(1) == ring.Advanced(i + 1)
            && s.With(c, ring.Advanced(i)).With(c, ring.Advanced(i + 1)) == s.With(c, ring.Advanced(i + 1))
  {
  }

  lemma RingValid(s: State, c: Class)
    requires Valid(s)
    ensures s.Of(c).Valid() && s.With(c, s.Of(c).Advanced(0)) == s
  {
  }

  lemma Found(s: State, c: Class, i: nat)
    requires Valid(s) && i < |s.Of(c).keys| && Ready(s.lanes, c, s.Of(c).Turned()[i])
    requires forall j :: 0 <= j < i ==> !Ready(s.lanes, c, s.Of(c).Turned()[j])
    ensures var key := s.Of(c).Turned()[i]; var slots := s.lanes[key].Of(c);
            && Front(s, c) == Some((key, slots.pending[0]))
            && Apply(s, Op.Dequeue(c)) ==
                 SetSlots(s.With(c, s.Of(c).Advanced(i + 1)), key, c, slots.(pending := slots.pending[1..]))
  {
    FirstReadyIs(s.lanes, c, s.Of(c).Turned(), i);
  }

  lemma NotFound(s: State, c: Class)
    requires Valid(s) && forall j :: 0 <= j < |s.Of(c).keys| ==> !Ready(s.lanes, c, s.Of(c).Turned()[j])
    ensures Front(s, c) == None
    ensures Apply(s, Op.Dequeue(c)) == s == s.With(c, s.Of(c).Advanced(|s.Of(c).keys|))
  {
    FirstReadyIs(s.lanes, c, s.Of(c).Turned(), |s.Of(c).keys|);
  }

  lemma LineInRange(s: State, c: Class, i: nat)
    requires Valid(s) && i < |s.Of(c).Turned()|
    ensures s.Of(c).Turned()[i] < |s.lanes|
  {
    InTurned(s.Of(c), s.Of(c).Turned()[i]);
    InRing(s.lanes, c, s.Of(c).Turned()[i]);
  }
}
