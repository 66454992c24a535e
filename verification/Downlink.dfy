/**
 The server's downlink scheduler: one lane of preallocated packet slots per client, and one ring of
 lane numbers per packet class, the bulk ring weighted by the paths a client has active.
 */
module Downlink {
  import opened Bytes

  const LANES: nat := 256
  const PACKET_CAPACITY: nat := 1600
  const LATENCY_SLOTS: nat := 16
  const PRIORITY_MIN_SLOTS: nat := 32
  const PRIORITY_MAX_SLOTS: nat := 252
  const PRIORITY_SLOTS_PER_PATH: nat := 2
  const BULK_MIN_SLOTS: nat := 72
  const BULK_MAX_SLOTS: nat := 1008
  const BULK_SLOTS_PER_PATH: nat := 8
  const MAX_PATHS: nat := 126

  datatype Class = Latency | Priority | Bulk

  datatype Profile = Profile(latency: nat, priority: nat, bulk: nat) {
    function Of(class_: Class): nat {
      match class_
      case Latency => latency
      case Priority => priority
      case Bulk => bulk
    }
  }

  function Clamp(n: nat, low: nat, high: nat): nat
    requires low <= high
  {
    if n < low then low else if n > high then high else n
  }

  function ProfileFor(paths: nat): Profile {
    var n := Min(paths, PRIORITY_MAX_SLOTS / PRIORITY_SLOTS_PER_PATH);
    if n == 0 then Profile(0, 0, 0)
    else Profile(LATENCY_SLOTS,
                 Clamp(n * PRIORITY_SLOTS_PER_PATH, PRIORITY_MIN_SLOTS, PRIORITY_MAX_SLOTS),
                 Clamp(n * BULK_SLOTS_PER_PATH, BULK_MIN_SLOTS, BULK_MAX_SLOTS))
  }

  /** The upper limits are those of 126 paths; more paths never mean fewer slots. */
  lemma ProfileGrows(paths: nat, more: nat)
    requires paths <= more
    ensures forall c: Class :: ProfileFor(paths).Of(c) <= ProfileFor(more).Of(c) <= ProfileFor(MAX_PATHS).Of(c)
    ensures paths > 0 ==> ProfileFor(paths) == Profile(16, Max(32, 2 * Min(paths, 126)), Max(72, 8 * Min(paths, 126)))
  {
  }

  // ---------------------------------------------------------------- slots of one lane and class

  type Buffer = s: seq<Byte> | |s| <= PACKET_CAPACITY

  datatype Slots = Slots(free: seq<Buffer>, pending: seq<Buffer>) {
    function Total(): nat { |free| + |pending| }
  }

  function Fresh(n: nat): (r: seq<Buffer>)
    ensures |r| == n
  {
    seq(n, _ => [])
  }

  /** Resizing keeps the oldest pending packets and makes up the rest with free slots. */
  function Resized(s: Slots, capacity: nat): (r: Slots)
    ensures r.Total() == capacity
    ensures r.pending == s.pending[..Min(|s.pending|, capacity)]
    ensures r.free <= s.free || s.free <= r.free
  {
    var kept := Min(|s.pending|, capacity);
    var spare := capacity - kept;
    Slots(if spare <= |s.free| then s.free[..spare] else s.free + Fresh(spare - |s.free|), s.pending[..kept])
  }

  method Resize(s: Slots, capacity: nat) returns (r: Slots)
    ensures r == Resized(s, capacity)
  {
    r := s;
    while |r.free| + |r.pending| < capacity
      invariant r.pending == s.pending
      invariant |s.free| <= |r.free| && r.free == s.free + Fresh(|r.free| - |s.free|)
      invariant |r.free| > |s.free| ==> r.Total() <= capacity
    {
      r := r.(free := r.free + [[]]);
    }
    ghost var grown := r;
    while |r.free| + |r.pending| > capacity
      invariant r.pending <= s.pending && r.free <= grown.free
      invariant r.Total() >= capacity || r == grown
      invariant r.pending == s.pending || r.free == []
      decreases r.Total()
    {
      if r.free == [] {
        r := r.(pending := r.pending[..|r.pending| - 1]);
      } else {
        r := r.(free := r.free[..|r.free| - 1]);
      }
    }
    if capacity == 0 {
      r := Slots([], []);
    }
  }

  function Offered(s: Slots, packet: seq<Byte>): (r: Option<Slots>)
    ensures r.Some? <==> s.free != [] && |packet| <= PACKET_CAPACITY
    ensures r.Some? ==> r.value.pending == s.pending + [packet] && r.value.Total() == s.Total()
  {
    if s.free == [] || |packet| > PACKET_CAPACITY then None
    else Some(Slots(s.free[..|s.free| - 1], s.pending + [packet]))
  }

  method ClearPending(s: Slots) returns (r: Slots)
    ensures r == Slots(s.free + s.pending, [])
  {
    r := s;
    while r.pending != []
      invariant r.free + r.pending == s.free + s.pending
      decreases |r.pending|
    {
      r := Slots(r.free + [r.pending[0]], r.pending[1..]);
    }
  }

  // ---------------------------------------------------------------- lanes and rings

  datatype Lane = Lane(paths: nat, latency: Slots, priority: Slots, bulk: Slots) {
    function Of(class_: Class): Slots {
      match class_
      case Latency => latency
      case Priority => priority
      case Bulk => bulk
    }

    function With(class_: Class, s: Slots): (r: Lane)
      ensures r.Of(class_) == s && r.paths == paths
      ensures forall c: Class :: c != class_ ==> r.Of(c) == Of(c)
    {
      match class_
      case Latency => this.(latency := s)
      case Priority => this.(priority := s)
      case Bulk => this.(bulk := s)
    }
  }

  function Configured(lane: Lane, paths: nat): (r: Lane)
    ensures r.paths == Min(paths, MAX_PATHS)
    ensures forall c: Class :: r.Of(c) == Resized(lane.Of(c), ProfileFor(r.paths).Of(c))
  {
    var n := Min(paths, PRIORITY_MAX_SLOTS / PRIORITY_SLOTS_PER_PATH);
    var p := ProfileFor(n);
    Lane(n, Resized(lane.latency, p.latency), Resized(lane.priority, p.priority), Resized(lane.bulk, p.bulk))
  }

  function Cleared(lane: Lane): Lane {
    lane.(latency := Slots(lane.latency.free + lane.latency.pending, []),
          priority := Slots(lane.priority.free + lane.priority.pending, []),
          bulk := Slots(lane.bulk.free + lane.bulk.pending, []))
  }

  datatype Ring = Ring(keys: seq<nat>, cursor: nat) {
    predicate Valid() { cursor < Max(|keys|, 1) }

    /** The keys in the order in which they come up next. */
    function Turned(): (r: seq<nat>)
      requires Valid()
      ensures |r| == |keys|
    {
      keys[cursor..] + keys[..cursor]
    }

    function Advanced(k: nat): (r: Ring)
      requires Valid() && k <= |keys|
      ensures r.Valid() && r.keys == keys
    {
      if k == 0 then this
      else if cursor + k < |keys| then this.(cursor := cursor + k)
      else this.(cursor := cursor + k - |keys|)
    }
  }

  datatype State = State(lanes: seq<Lane>, latency: Ring, priority: Ring, bulk: Ring) {
    function Of(class_: Class): Ring {
      match class_
      case Latency => latency
      case Priority => priority
      case Bulk => bulk
    }

    function With(class_: Class, ring: Ring): (r: State)
      ensures r.Of(class_) == ring && r.lanes == lanes
      ensures forall c: Class :: c != class_ ==> r.Of(c) == Of(c)
    {
      match class_
      case Latency => this.(latency := ring)
      case Priority => this.(priority := ring)
      case Bulk => this.(bulk := ring)
    }
  }

  /** The lanes below `n` that are active, in order. */
  function Plain(lanes: seq<Lane>, n: nat): seq<nat>
    requires n <= |lanes|
  {
    if n == 0 then []
    else if lanes[n - 1].paths == 0 then Plain(lanes, n - 1)
    else Plain(lanes, n - 1) + [n - 1]
  }

  /** The same with every lane repeated once per active path. */
  function Weighted(lanes: seq<Lane>, n: nat): seq<nat>
    requires n <= |lanes|
  {
    if n == 0 then [] else Weighted(lanes, n - 1) + Copies<nat>(n - 1, lanes[n - 1].paths)
  }

  function Keys(lanes: seq<Lane>, class_: Class): seq<nat> {
    if class_.Bulk? then Weighted(lanes, |lanes|) else Plain(lanes, |lanes|)
  }

  function Rewound(ring: Ring, keys: seq<nat>): (r: Ring)
    ensures r.Valid() && r.keys == keys
  {
    Ring(keys, ring.cursor % Max(|keys|, 1))
  }

  function Rebuilt(s: State): State {
    State(s.lanes, Rewound(s.latency, Keys(s.lanes, Latency)), Rewound(s.priority, Keys(s.lanes, Priority)),
          Rewound(s.bulk, Keys(s.lanes, Bulk)))
  }

  /** What every operation keeps: the rings are those of the lanes and the cursors point into them. */
  predicate Valid(s: State) {
    && |s.lanes| == LANES
    && (forall k :: 0 <= k < LANES ==> s.lanes[k].paths <= MAX_PATHS)
    && (forall c: Class :: s.Of(c).keys == Keys(s.lanes, c) && s.Of(c).Valid())
  }

  // ---------------------------------------------------------------- operations

  predicate Ready(lanes: seq<Lane>, class_: Class, key: nat) {
    key < |lanes| && lanes[key].Of(class_).pending != []
  }

  /** The first position whose lane has something pending, or the length. */
  function FirstReady(lanes: seq<Lane>, class_: Class, line: seq<nat>): (k: nat)
    ensures k <= |line|
    ensures forall i :: 0 <= i < k ==> !Ready(lanes, class_, line[i])
    ensures k < |line| ==> Ready(lanes, class_, line[k])
  {
    if line == [] || Ready(lanes, class_, line[0]) then 0
    else 1 + FirstReady(lanes, class_, line[1..])
  }

  lemma FirstReadyIs(lanes: seq<Lane>, class_: Class, line: seq<nat>, k: nat)
    requires k <= |line|
    requires forall i :: 0 <= i < k ==> !Ready(lanes, class_, line[i])
    requires k < |line| ==> Ready(lanes, class_, line[k])
    ensures FirstReady(lanes, class_, line) == k
  {
  }

  function SetSlots(s: State, key: nat, class_: Class, slots: Slots): State
    requires key < |s.lanes|
  {
    s.(lanes := s.lanes[key := s.lanes[key].With(class_, slots)])
  }

  datatype Op =
    | Configure(key: nat, paths: nat)
    | Enqueue(key: nat, class_: Class, packet: seq<Byte>)
    | Dequeue(class_: Class)
    | Requeue(key: nat, class_: Class, buffer: Buffer)
    | Recycle(key: nat, class_: Class, buffer: Buffer)
    | Clear(key: nat)

  /** What a dequeue of this class returns. */
  function Front(s: State, class_: Class): (r: Option<(nat, Buffer)>)
    requires Valid(s)
    ensures r.Some? ==> Ready(s.lanes, class_, r.value.0)
                        && r.value.1 == s.lanes[r.value.0].Of(class_).pending[0]
  {
    var line := s.Of(class_).Turned();
    var k := FirstReady(s.lanes, class_, line);
    if k == |line| then None else Some((line[k], s.lanes[line[k]].Of(class_).pending[0]))
  }

  function Dequeued(s: State, class_: Class): State
    requires Valid(s)
  {
    var ring := s.Of(class_);
    var line := ring.Turned();
    var k := FirstReady(s.lanes, class_, line);
    if k == |line| then s
    else
      var slots := s.lanes[line[k]].Of(class_);
      SetSlots(s, line[k], class_, slots.(pending := slots.pending[1..])).With(class_, ring.Advanced(k + 1))
  }

  predicate Accepts(s: State, key: nat, class_: Class, packet: seq<Byte>) {
    key < |s.lanes| && s.lanes[key].paths != 0 && Offered(s.lanes[key].Of(class_), packet).Some?
  }

  function Apply(s: State, op: Op): State
    requires Valid(s)
  {
    match op
    case Configure(key, paths) =>
      if key >= |s.lanes| || s.lanes[key].paths == Min(paths, MAX_PATHS) then s
      else Rebuilt(s.(lanes := s.lanes[key := Configured(s.lanes[key], paths)]))
    case Enqueue(key, c, packet) =>
      if Accepts(s, key, c, packet) then SetSlots(s, key, c, Offered(s.lanes[key].Of(c), packet).value) else s
    case Dequeue(c) => Dequeued(s, c)
    case Requeue(key, c, buffer) =>
      if key >= |s.lanes| then s
      else SetSlots(s, key, c, Slots(s.lanes[key].Of(c).free, [buffer] + s.lanes[key].Of(c).pending))
    case Recycle(key, c, buffer) =>
      if key >= |s.lanes| then s
      else SetSlots(s, key, c, Slots(s.lanes[key].Of(c).free + [buffer], s.lanes[key].Of(c).pending))
    case Clear(key) =>
      if key >= |s.lanes| then s else s.(lanes := s.lanes[key := Cleared(s.lanes[key])])
  }

  // ---------------------------------------------------------------- every operation keeps the rings

  predicate SamePaths(a: seq<Lane>, b: seq<Lane>) {
    |a| == |b| && forall k :: 0 <= k < |a| ==> a[k].paths == b[k].paths
  }

  lemma {:induction false} SameRings(a: seq<Lane>, b: seq<Lane>, n: nat)
    requires SamePaths(a, b) && n <= |a|
    ensures Plain(a, n) == Plain(b, n) && Weighted(a, n) == Weighted(b, n)
  {
    if n > 0 { SameRings(a, b, n - 1); }
  }

  lemma KeysSame(a: seq<Lane>, b: seq<Lane>)
    requires SamePaths(a, b)
    ensures forall c: Class :: Keys(a, c) == Keys(b, c)
  {
    SameRings(a, b, |a|);
  }

  lemma RebuiltValid(s: State)
    requires |s.lanes| == LANES && forall k :: 0 <= k < LANES ==> s.lanes[k].paths <= MAX_PATHS
    ensures Valid(Rebuilt(s))
  {
  }

  lemma KeepsValid(s: State, t: State)
    requires Valid(s) && SamePaths(s.lanes, t.lanes)
    requires forall c: Class :: t.Of(c).keys == s.Of(c).keys && t.Of(c).Valid()
    ensures Valid(t)
  {
    KeysSame(s.lanes, t.lanes);
  }

  lemma DequeuedShape(s: State, class_: Class)
    requires Valid(s)
    ensures SamePaths(s.lanes, Dequeued(s, class_).lanes)
    ensures forall c: Class :: Dequeued(s, class_).Of(c).keys == s.Of(c).keys && Dequeued(s, class_).Of(c).Valid()
    ensures forall c: Class :: c != class_ ==> Dequeued(s, class_).Of(c) == s.Of(c)
  {
    hide Keys;
  }

  /** Every operation leaves rings that match the lanes. */
  lemma ApplyValid(s: State, op: Op)
    requires Valid(s)
    ensures Valid(Apply(s, op))
  {
    hide Keys, Dequeued, Rebuilt;
    match op
    case Configure(key, paths) =>
      if key < |s.lanes| {
        RebuiltValid(s.(lanes := s.lanes[key := Configured(s.lanes[key], paths)]));
      }
    case Dequeue(c) =>
      DequeuedShape(s, c);
      KeepsValid(s, Dequeued(s, c));
    case _ => KeepsValid(s, Apply(s, op));
  }
}
