/**
 The lock-free packet pool shared by client and server. Every atomic access to the queue or to a
 counter is one step, so a thread can be interrupted between the two halves of `try_acquire` and
 of `release`; any number of threads interleave in any order.
 */
module PacketPool {
  import opened Bytes

  datatype Buffer = Buffer(id: nat, length: nat)

  /** Where a thread stands that holds a buffer it has not yet handed on. */
  datatype Phase =
    | Popped      // taken from the queue, `retained` not yet lowered
    | Dropping    // a handle of full length was dropped, no retention slot reserved yet
    | Reserved    // `retained` raised, the buffer not yet pushed
    | Spilled     // the push failed, `retained` not yet lowered
    | Discarding  // the buffer is to be freed, `allocated` not yet lowered

  datatype Transit = Transit(phase: Phase, buffer: Buffer)

  /**
   `size` is the length of a fresh buffer. `live` gives the storage length behind each handle,
   `wanting` the threads that found the queue empty, `transit` the threads in the middle of an
   operation with a buffer in hand, and `made` the next unused buffer identity.
   */
  datatype Pool = Pool(
    capacity: nat,
    limit: nat,
    size: nat,
    queue: seq<Buffer>,
    allocations: int,
    retained: int,
    live: map<nat, nat>,
    wanting: set<nat>,
    transit: map<nat, Transit>,
    made: nat)

  /** The client keeps up to 2048 idle buffers of 2304 bytes, the server up to 256 of 1600 bytes. */
  function New(buffers: nat, retainedMax: nat, size: nat): Pool {
    var capacity := Max(buffers, 1);
    Pool(capacity, Min(capacity, retainedMax), size, [], 0, 0, map[], {}, map[], 0)
  }

  // ---------------------------------------------------------------- atomic steps

  datatype Step =
    | Pop(thread: nat)
    | Settle(thread: nat)
    | Allocate(thread: nat)
    | Resize(id: nat, length: nat)
    | Drop(thread: nat, id: nat)
    | Reserve(thread: nat)
    | Push(thread: nat)
    | Unreserve(thread: nat)
    | Discard(thread: nat)

  predicate Idle(p: Pool, t: nat) {
    t !in p.wanting && t !in p.transit
  }

  predicate InPhase(p: Pool, t: nat, phase: Phase) {
    t in p.transit && p.transit[t].phase == phase
  }

  predicate Enabled(p: Pool, s: Step) {
    match s
    case Pop(t) => Idle(p, t)
    case Settle(t) => InPhase(p, t, Popped)
    case Allocate(t) => t in p.wanting
    case Resize(id, _) => id in p.live
    case Drop(t, id) => Idle(p, t) && id in p.live
    case Reserve(t) => InPhase(p, t, Dropping)
    case Push(t) => InPhase(p, t, Reserved)
    case Unreserve(t) => InPhase(p, t, Spilled)
    case Discard(t) => InPhase(p, t, Discarding)
  }

  function Moved(p: Pool, t: nat, phase: Phase): Pool
    requires t in p.transit
  {
    p.(transit := p.transit[t := Transit(phase, p.transit[t].buffer)])
  }

  function Next(p: Pool, s: Step): Pool
    requires Enabled(p, s)
  {
    match s
    case Pop(t) =>
      if p.queue == [] then p.(wanting := p.wanting + {t})
      else p.(queue := p.queue[1..], transit := p.transit[t := Transit(Popped, p.queue[0])])
    case Settle(t) =>
      var b := p.transit[t].buffer;
      p.(retained := p.retained - 1, transit := p.transit - {t}, live := p.live[b.id := b.length])
    case Allocate(t) =>
      if p.allocations < p.capacity then
        p.(allocations := p.allocations + 1, wanting := p.wanting - {t},
           live := p.live[p.made := p.size], made := p.made + 1)
      else p.(wanting := p.wanting - {t})
    case Resize(id, length) => p.(live := p.live[id := length])
    case Drop(t, id) =>
      var phase := if p.live[id] != p.size then Discarding else Dropping;
      p.(live := p.live - {id}, transit := p.transit[t := Transit(phase, Buffer(id, p.live[id]))])
    case Reserve(t) =>
      if p.retained < p.limit then Moved(p.(retained := p.retained + 1), t, Reserved)
      else Moved(p, t, Discarding)
    case Push(t) =>
      if |p.queue| < p.capacity then
        p.(queue := p.queue + [p.transit[t].buffer], transit := p.transit - {t})
      else Moved(p, t, Spilled)
    case Unreserve(t) => Moved(p.(retained := p.retained - 1), t, Discarding)
    case Discard(t) => p.(allocations := p.allocations - 1, transit := p.transit - {t})
  }

  predicate Runs(p: Pool, trace: seq<Step>, q: Pool)
    decreases |trace|
  {
    if trace == [] then p == q
    else Enabled(p, trace[0]) && Runs(Next(p, trace[0]), trace[1..], q)
  }

  // ---------------------------------------------------------------- the invariant

  function At(transit: map<nat, Transit>, phase: Phase): set<nat> {
    set t | t in transit && transit[t].phase == phase
  }

  /** The two counters account for every buffer and for every thread between its two steps. */
  predicate Counted(p: Pool) {
    && p.retained == |p.queue| + Retaining(p.transit)
    && p.allocations == |p.live| + |p.queue| + |p.transit|
  }

  /** The threads whose buffer `retained` counts although it is not in the queue. */
  function Retaining(transit: map<nat, Transit>): nat {
    |At(transit, Popped)| + |At(transit, Reserved)| + |At(transit, Spilled)|
  }

  predicate Bounded(p: Pool) {
    && p.limit <= p.capacity
    && p.retained <= p.limit
    && p.allocations <= p.capacity
    && At(p.transit, Spilled) == {}
  }

  datatype Place = InQueue(index: nat) | InHandle | InThread(thread: nat)

  predicate Holds(p: Pool, place: Place, id: nat) {
    match place
    case InQueue(i) => i < |p.queue| && p.queue[i].id == id
    case InHandle => id in p.live
    case InThread(t) => t in p.transit && p.transit[t].buffer.id == id
  }

  /** A buffer is in one place only, and new identities are unused. */
  ghost predicate Owned(p: Pool) {
    && (forall a, b, id: nat {:trigger Holds(p, a, id), Holds(p, b, id)} ::
          Holds(p, a, id) && Holds(p, b, id) ==> a == b)
    && (forall a, id: nat {:trigger Holds(p, a, id)} :: Holds(p, a, id) ==> id < p.made)
  }

  predicate KeepsLength(p: Pool, t: nat)
    requires t in p.transit
  {
    p.transit[t].phase != Discarding ==> p.transit[t].buffer.length == p.size
  }

  /** Only buffers of the original length are ever kept for reuse. */
  predicate FullLength(p: Pool) {
    && (forall i :: 0 <= i < |p.queue| ==> p.queue[i].length == p.size)
    && (forall t :: t in p.transit ==> KeepsLength(p, t))
  }

  predicate Apart(p: Pool) {
    forall t :: t in p.wanting ==> t !in p.transit
  }

  ghost predicate Inv(p: Pool) {
    Counted(p) && Bounded(p) && Owned(p) && FullLength(p) && Apart(p)
  }

  // ---------------------------------------------------------------- counting threads

  lemma AtSet(transit: map<nat, Transit>, t: nat, x: Transit, phase: Phase)
    ensures At(transit[t := x], phase) ==
            if x.phase == phase then At(transit, phase) + {t} else At(transit, phase) - {t}
    ensures t in At(transit, phase) <==> t in transit && transit[t].phase == phase
  {
  }

  lemma AtRemoved(transit: map<nat, Transit>, t: nat, phase: Phase)
    ensures At(transit - {t}, phase) == At(transit, phase) - {t}
  {
  }

  lemma PutCounts<V>(m: map<nat, V>, k: nat, v: V)
    ensures |m[k := v]| == |m| + One(k !in m)
  {
    assert m[k := v].Keys == m.Keys + {k};
    assert |m[k := v].Keys| == |m.Keys| + One(k !in m.Keys);
  }

  lemma DropCounts<V>(m: map<nat, V>, k: nat)
    requires k in m
    ensures |m - {k}| == |m| - 1
  {
    assert (m - {k}).Keys == m.Keys - {k};
    assert |(m - {k}).Keys| == |m.Keys| - 1;
  }

  /** Putting thread `t` into a phase raises that phase's count and lowers that of its old phase. */
  lemma SetCounts(transit: map<nat, Transit>, t: nat, x: Transit, phase: Phase)
    ensures |At(transit[t := x], phase)| == |At(transit, phase)|
              + One(x.phase == phase) - One(t in transit && transit[t].phase == phase)
  {
    hide At;
    AtSet(transit, t, x, phase);
  }

  lemma RemoveCounts(transit: map<nat, Transit>, t: nat, phase: Phase)
    requires t in transit
    ensures |At(transit - {t}, phase)| == |At(transit, phase)| - One(transit[t].phase == phase)
  {
    AtRemoved(transit, t, phase);
  }

  lemma ThreadOf(s: Step, p: Pool)
    requires Enabled(p, s)
    ensures !s.Resize? ==>
              var q := Next(p, s);
              || q.transit == p.transit
              || (s.thread in p.transit && q.transit == p.transit - {s.thread})
              || (s.thread in q.transit && q.transit == p.transit[s.thread := q.transit[s.thread]])
  {
  }

  lemma CountsAfter(p: Pool, s: Step, phase: Phase)
    requires Enabled(p, s) && !s.Resize?
    ensures var q := Next(p, s); var t := s.thread;
            |At(q.transit, phase)| == |At(p.transit, phase)|
              + One(InPhase(q, t, phase)) - One(InPhase(p, t, phase))
  {
    hide At, Next, Enabled;
    var q, t := Next(p, s), s.thread;
    ThreadOf(s, p);
    if q.transit != p.transit {
      if t in q.transit {
        SetCounts(p.transit, t, q.transit[t], phase);
      } else {
        RemoveCounts(p.transit, t, phase);
      }
    }
  }

  lemma TransitCounts(p: Pool, s: Step)
    requires Enabled(p, s) && !s.Resize?
    ensures var q := Next(p, s); var t := s.thread;
            |q.transit| == |p.transit| + One(t in q.transit) - One(t in p.transit)
  {
    hide Next, Enabled;
    var q, t := Next(p, s), s.thread;
    ThreadOf(s, p);
    if q.transit != p.transit {
      if t in q.transit {
        PutCounts(p.transit, t, q.transit[t]);
      } else {
        DropCounts(p.transit, t);
      }
    }
  }

  /** How many handles a step adds. */
  function Handles(p: Pool, s: Step): int {
    match s
    case Settle(_) => 1
    case Allocate(_) => One(p.allocations < p.capacity)
    case Drop(_, _) => -1
    case _ => 0
  }

  /** What each step makes of the handles in use. */
  lemma LiveAfter(p: Pool, s: Step)
    requires Enabled(p, s)
    ensures Next(p, s).live ==
            match s
            case Settle(t) => p.live[p.transit[t].buffer.id := p.transit[t].buffer.length]
            case Allocate(_) => if p.allocations < p.capacity then p.live[p.made := p.size] else p.live
            case Drop(_, id) => p.live - {id}
            case Resize(id, length) => p.live[id := length]
            case _ => p.live
  {
  }

  lemma LiveCounts(p: Pool, s: Step)
    requires Enabled(p, s) && Owned(p)
    ensures |Next(p, s).live| == |p.live| + Handles(p, s)
  {
    hide Owned, Next;
    LiveAfter(p, s);
    match s
    case Settle(t) =>
      var b := p.transit[t].buffer;
      SettledIsNew(p, t);
      PutCounts(p.live, b.id, b.length);
    case Allocate(t) =>
      MadeIsNew(p);
      PutCounts(p.live, p.made, p.size);
    case Drop(t, id) => DropCounts(p.live, id);
    case Resize(id, length) => PutCounts(p.live, id, length);
    case _ =>
  }

  // ---------------------------------------------------------------- preservation

  predicate Retains(p: Pool, t: nat) {
    t in p.transit && (p.transit[t].phase.Popped? || p.transit[t].phase.Reserved? || p.transit[t].phase.Spilled?)
  }

  lemma RetainingAfter(p: Pool, s: Step)
    requires Enabled(p, s) && !s.Resize?
    ensures var q := Next(p, s); var t := s.thread;
            Retaining(q.transit) == Retaining(p.transit) + One(Retains(q, t)) - One(Retains(p, t))
  {
    hide Enabled, Next, At;
    CountsAfter(p, s, Popped);
    CountsAfter(p, s, Reserved);
    CountsAfter(p, s, Spilled);
  }

  lemma RetainedShift(p: Pool, s: Step)
    requires Enabled(p, s) && !s.Resize? && Apart(p)
    ensures var q := Next(p, s); var t := s.thread;
            q.retained - |q.queue| == p.retained - |p.queue| + One(Retains(q, t)) - One(Retains(p, t))
  {
  }

  lemma StepRetained(p: Pool, s: Step)
    requires Counted(p) && Enabled(p, s) && Apart(p)
    ensures var q := Next(p, s); q.retained == |q.queue| + Retaining(q.transit)
  {
    hide Retaining, Retains;
    if !s.Resize? {
      hide Next, Enabled;
      RetainingAfter(p, s);
      RetainedShift(p, s);
    }
  }

  lemma StepAllocated(p: Pool, s: Step)
    requires Counted(p) && Owned(p) && Enabled(p, s) && Apart(p)
    ensures var q := Next(p, s); q.allocations == |q.live| + |q.queue| + |q.transit|
  {
    hide Retaining, Owned;
    LiveCounts(p, s);
    if !s.Resize? { TransitCounts(p, s); }
  }

  lemma SettledIsNew(p: Pool, t: nat)
    requires Owned(p) && t in p.transit
    ensures p.transit[t].buffer.id !in p.live
  {
    var id := p.transit[t].buffer.id;
    assert Holds(p, InThread(t), id);
    if id in p.live { assert Holds(p, InHandle, id); }
  }

  lemma MadeIsNew(p: Pool)
    requires Owned(p)
    ensures p.made !in p.live
  {
    if p.made in p.live { assert Holds(p, InHandle, p.made); }
  }

  lemma NoneSpilled(p: Pool, s: Step)
    requires Counted(p) && Bounded(p) && Enabled(p, s)
    ensures At(Next(p, s).transit, Spilled) == {}
  {
    var q := Next(p, s);
    if s.Push? { PushSucceeds(p, s.thread); }
    forall t
      ensures t !in At(q.transit, Spilled)
    {
      assert t !in At(p.transit, Spilled);
    }
  }

  lemma StepBounded(p: Pool, s: Step)
    requires Counted(p) && Bounded(p) && Enabled(p, s)
    ensures Bounded(Next(p, s))
  {
    hide At, Retaining;
    NoneSpilled(p, s);
  }

  /** A thread that has reserved a retention slot always finds room in the queue. */
  lemma PushSucceeds(p: Pool, t: nat)
    requires Counted(p) && Bounded(p) && InPhase(p, t, Reserved)
    ensures |p.queue| < p.capacity
  {
    assert t in At(p.transit, Reserved);
  }

  /** The place a step moves a buffer from, given where the buffer is afterwards. */
  function Before(p: Pool, s: Step, place: Place, id: nat): Place
    requires Enabled(p, s)
  {
    match s
    case Pop(t) =>
      if p.queue == [] then place
      else if place.InQueue? then InQueue(place.index + 1)
      else if place == InThread(t) then InQueue(0)
      else place
    case Settle(t) =>
      if place.InHandle? && id == p.transit[t].buffer.id then InThread(t) else place
    case Drop(t, _) => if place == InThread(t) then InHandle else place
    case Push(t) => if place == InQueue(|p.queue|) then InThread(t) else place
    case _ => place
  }

  /** No step creates a second place for a buffer, and only `Allocate` brings in a new one. */
  lemma Traced(p: Pool, s: Step, place: Place, id: nat)
    requires Enabled(p, s) && Apart(p) && Holds(Next(p, s), place, id)
    ensures (s.Allocate? && id == p.made < Next(p, s).made) || Holds(p, Before(p, s, place, id), id)
  {
  }

  lemma BeforeInjective(p: Pool, s: Step, a: Place, b: Place, id: nat)
    requires Enabled(p, s) && Apart(p) && Owned(p)
    requires Holds(Next(p, s), a, id) && Holds(Next(p, s), b, id)
    requires Before(p, s, a, id) == Before(p, s, b, id)
    ensures a == b
  {
    hide Owned;
    if s.Settle? { SettledIsNew(p, s.thread); }
  }

  lemma StepOwned(p: Pool, s: Step)
    requires Inv(p) && Enabled(p, s)
    ensures Owned(Next(p, s))
  {
    hide Counted, Bounded, FullLength, Holds, Enabled, Next, Before;
    var q := Next(p, s);
    forall a, id: nat | Holds(q, a, id)
      ensures id < q.made
    {
      Traced(p, s, a, id);
      MadeGrows(p, s);
    }
    forall a, b, id: nat | Holds(q, a, id) && Holds(q, b, id)
      ensures a == b
    {
      OnePlace(p, s, a, b, id);
    }
  }

  lemma MadeGrows(p: Pool, s: Step)
    requires Enabled(p, s)
    ensures p.made <= Next(p, s).made
  {
  }

  lemma OnePlace(p: Pool, s: Step, a: Place, b: Place, id: nat)
    requires Owned(p) && Apart(p) && Enabled(p, s)
    requires Holds(Next(p, s), a, id) && Holds(Next(p, s), b, id)
    ensures a == b
  {
    hide Holds, Enabled, Next, Before;
    Traced(p, s, a, id);
    Traced(p, s, b, id);
    if s.Allocate? && id == p.made {
      NewHasOnePlace(p, s, a);
      NewHasOnePlace(p, s, b);
    } else {
      BeforeInjective(p, s, a, b, id);
    }
  }

  lemma NewHasOnePlace(p: Pool, s: Step, a: Place)
    requires Owned(p) && Enabled(p, s) && s.Allocate? && Holds(Next(p, s), a, p.made)
    ensures a == InHandle
  {
    if a != InHandle { assert Holds(p, a, p.made); }
  }

  lemma StepFullLength(p: Pool, s: Step)
    requires Inv(p) && Enabled(p, s)
    ensures FullLength(Next(p, s)) && Apart(Next(p, s))
  {
    hide Owned, Counted, Bounded;
    var q := Next(p, s);
    forall t | t in q.transit
      ensures KeepsLength(q, t)
    {
      if t in p.transit { assert KeepsLength(p, t); }
    }
  }

  /** Every atomic step of every thread keeps the invariant. */
  lemma StepInv(p: Pool, s: Step)
    requires Inv(p) && Enabled(p, s)
    ensures Inv(Next(p, s))
  {
    hide Retaining, Bounded, FullLength, Owned, Apart, Next, Enabled;
    StepRetained(p, s);
    StepAllocated(p, s);
    StepBounded(p, s);
    StepOwned(p, s);
    StepFullLength(p, s);
  }

  lemma {:induction false} RunInv(p: Pool, trace: seq<Step>, q: Pool)
    requires Inv(p) && Runs(p, trace, q)
    ensures Inv(q)
    decreases |trace|
  {
    hide Inv, Next, Enabled;
    if trace != [] {
      StepInv(p, trace[0]);
      RunInv(Next(p, trace[0]), trace[1..], q);
    }
  }

  lemma ReachableInv(buffers: nat, retainedMax: nat, size: nat, trace: seq<Step>, q: Pool)
    requires Runs(New(buffers, retainedMax, size), trace, q)
    ensures Inv(q)
  {
    var p := New(buffers, retainedMax, size);
    assert Inv(p);
    RunInv(p, trace, q);
  }

  // ---------------------------------------------------------------- consequences on every run

  /** No decrement takes a counter below zero, and no counter ever is. */
  lemma NoUnderflow(p: Pool, s: Step)
    requires Counted(p) && Enabled(p, s)
    ensures p.retained >= 0 && p.allocations >= 0
    ensures s.Settle? || s.Unreserve? ==> p.retained >= 1
    ensures s.Discard? ==> p.allocations >= 1
  {
    if s.Settle? {
      assert s.thread in At(p.transit, Popped);
    } else if s.Unreserve? {
      assert s.thread in At(p.transit, Spilled);
    } else if s.Discard? {
      assert s.thread in p.transit.Keys;
      assert |p.transit.Keys| >= 1;
    }
  }

  /** The branch that handles a failed push is never taken. */
  lemma PushNeverFails(buffers: nat, retainedMax: nat, size: nat, trace: seq<Step>, q: Pool, t: nat)
    requires Runs(New(buffers, retainedMax, size), trace, q)
    ensures !InPhase(q, t, Spilled)
    ensures InPhase(q, t, Reserved) ==> |q.queue| < q.capacity
  {
    ReachableInv(buffers, retainedMax, size, trace, q);
    assert t !in At(q.transit, Spilled);
    if InPhase(q, t, Reserved) { PushSucceeds(q, t); }
  }

  /** A handle given out by the queue is nobody else's and has its full length. */
  lemma AcquiredIsExclusive(p: Pool, t: nat, place: Place)
    requires Inv(p) && InPhase(p, t, Popped)
    ensures var b := p.transit[t].buffer;
            b.length == p.size && (Holds(p, place, b.id) ==> place == InThread(t))
  {
    assert KeepsLength(p, t);
    assert Holds(p, InThread(t), p.transit[t].buffer.id);
  }

  /** What `available` computes, with its saturating subtraction. */
  function Available(p: Pool): nat {
    (if p.allocations < p.capacity then p.capacity - p.allocations else 0) + |p.queue|
  }

  /** Buffers that are neither behind a handle nor in the hands of a thread are available. */
  lemma AvailableExactly(p: Pool)
    requires Inv(p)
    ensures Available(p) == p.capacity - |p.live| - |p.transit|
  {
  }

  /** With every handle dropped and every thread done, the whole capacity is available again. */
  lemma QuiescentRecovers(buffers: nat, retainedMax: nat, size: nat, trace: seq<Step>, q: Pool)
    requires Runs(New(buffers, retainedMax, size), trace, q)
    requires q.live == map[] && q.transit == map[]
    ensures Available(q) == q.capacity == Max(buffers, 1)
    ensures q.retained == q.allocations == |q.queue| <= retainedMax
  {
    ReachableInv(buffers, retainedMax, size, trace, q);
    RunKeepsShape(New(buffers, retainedMax, size), trace, q);
    assert forall phase :: At(q.transit, phase) == {};
  }

  lemma {:induction false} RunKeepsShape(p: Pool, trace: seq<Step>, q: Pool)
    requires Runs(p, trace, q)
    ensures q.capacity == p.capacity && q.limit == p.limit
    decreases |trace|
  {
    if trace != [] { RunKeepsShape(Next(p, trace[0]), trace[1..], q); }
  }

  // ---------------------------------------------------------------- whole operations

  /** `try_acquire` by one thread with nobody interfering. */
  function Acquire(p: Pool, t: nat): Pool
    requires Idle(p, t)
  {
    var q := Next(p, Pop(t));
    if p.queue == [] then Next(q, Allocate(t)) else Next(q, Settle(t))
  }

  /** Dropping a handle with nobody interfering. */
  function Release(p: Pool, t: nat, id: nat): Pool
    requires Idle(p, t) && id in p.live
  {
    var q := Next(p, Drop(t, id));
    var r := if p.live[id] == p.size then Next(q, Reserve(t)) else q;
    if r.transit[t].phase == Discarding then Next(r, Discard(t))
    else
      var w := Next(r, Push(t));
      if t !in w.transit then w else Next(Next(w, Unreserve(t)), Discard(t))
  }

  /** Undisturbed, `try_acquire` hands out one more buffer exactly when fewer than the capacity are out. */
  lemma AcquireExactly(p: Pool, t: nat)
    requires Inv(p) && Idle(p, t) && p.transit == map[]
    ensures var q := Acquire(p, t);
            && Inv(q)
            && Idle(q, t) && q.transit == map[]
            && |q.live| == (if |p.live| < p.capacity then |p.live| + 1 else |p.live|)
            && (|p.live| == p.capacity ==> q.live == p.live)
  {
    hide Owned, FullLength, Retaining;
    var q := Next(p, Pop(t));
    StepInv(p, Pop(t));
    var s := if p.queue == [] then Allocate(t) else Settle(t);
    LiveCounts(q, s);
    StepInv(q, s);
    assert Acquire(p, t).transit == map[];
  }

  lemma {:induction false} ReleaseInv(p: Pool, t: nat, id: nat)
    requires Inv(p) && Idle(p, t) && id in p.live
    ensures Inv(Release(p, t, id))
  {
    hide Inv;
    var q := Next(p, Drop(t, id));
    StepInv(p, Drop(t, id));
    if p.live[id] == p.size { StepInv(q, Reserve(t)); }
    var r := if p.live[id] == p.size then Next(q, Reserve(t)) else q;
    if r.transit[t].phase == Discarding {
      StepInv(r, Discard(t));
    } else {
      StepInv(r, Push(t));
      ReservedPushes(r, t);
    }
  }

  lemma ReservedPushes(p: Pool, t: nat)
    requires Inv(p) && InPhase(p, t, Reserved)
    ensures t !in Next(p, Push(t)).transit
  {
    PushSucceeds(p, t);
  }

  /** What a release does undisturbed: the buffer is kept for reuse, or freed. */
  function Returned(p: Pool, id: nat): Pool
    requires id in p.live
  {
    if p.live[id] == p.size && p.retained < p.limit then
      p.(live := p.live - {id}, retained := p.retained + 1, queue := p.queue + [Buffer(id, p.size)])
    else p.(live := p.live - {id}, allocations := p.allocations - 1)
  }

  lemma ReleaseReturns(p: Pool, t: nat, id: nat)
    requires Inv(p) && Idle(p, t) && id in p.live
    ensures Release(p, t, id) == Returned(p, id)
  {
    hide Inv;
    var q := Next(p, Drop(t, id));
    assert q.transit - {t} == p.transit;
    if p.live[id] == p.size {
      var r := Next(q, Reserve(t));
      assert r.transit - {t} == p.transit;
      if p.retained < p.limit {
        StepInv(p, Drop(t, id));
        StepInv(q, Reserve(t));
        ReservedPushes(r, t);
      }
    }
  }

  /** Undisturbed, a release gives back exactly one buffer's worth of availability. */
  lemma ReleaseExactly(p: Pool, t: nat, id: nat)
    requires Inv(p) && Idle(p, t) && id in p.live
    ensures var q := Release(p, t, id);
            && Inv(q)
            && Available(q) == Available(p) + 1
            && q.live == p.live - {id} && q.transit == p.transit
            && (id in (set b | b in q.queue :: b.id)) == (p.live[id] == p.size && p.retained < p.limit)
  {
    hide Release, Inv;
    ReleaseInv(p, t, id);
    ReleaseReturns(p, t, id);
    assert Inv(p);
    OneMoreAvailable(p, id);
    InvOwned(p);
    NotQueued(p, id);
    if p.live[id] == p.size && p.retained < p.limit {
      assert Returned(p, id).queue[|p.queue|].id == id;
    }
  }

  lemma InvOwned(p: Pool)
    requires Inv(p)
    ensures Owned(p)
  {
  }

  lemma OneMoreAvailable(p: Pool, id: nat)
    requires Inv(p) && id in p.live
    ensures Available(Returned(p, id)) == Available(p) + 1
  {
    hide Owned, FullLength, Retaining;
    assert id in p.live.Keys;
    assert |p.live.Keys| >= 1;
  }

  lemma NotQueued(p: Pool, id: nat)
    requires Owned(p) && id in p.live
    ensures forall b :: b in p.queue ==> b.id != id
  {
    assert Holds(p, InHandle, id);
    forall b | b in p.queue
      ensures b.id != id
    {
      var i :| 0 <= i < |p.queue| && p.queue[i] == b;
      if b.id == id { assert Holds(p, InQueue(i), id); }
    }
  }

  /**
   Under interleaving `try_acquire` can still fail while a buffer lies in the queue: the pop came
   before the buffer was pushed and the capacity check after.
   */
  lemma FailsWithBufferQueued(retainedMax: nat, size: nat)
    requires retainedMax > 0
    ensures exists trace, q :: Runs(New(1, retainedMax, size), trace, q) && 1 in q.wanting
              && q.queue != [] && q.live == map[] && Next(q, Allocate(1)).live == map[]
  {
    hide Runs;
    var p0 := New(1, retainedMax, size);
    var p1 := p0.(wanting := {0});
    var p2 := p0.(allocations := 1, live := map[0 := size], made := 1);
    var p3 := p2.(wanting := {1});
    var p4 := p3.(live := map[], transit := map[0 := Transit(Dropping, Buffer(0, size))]);
    var p5 := p4.(retained := 1, transit := map[0 := Transit(Reserved, Buffer(0, size))]);
    var p6 := p5.(queue := [Buffer(0, size)], transit := map[]);
    RunsNone(p0);
    RunsThen(p0, [], p0, Pop(0), p1);
    assert [] + [Pop(0)] == [Pop(0)];
    RunsThen(p0, [Pop(0)], p1, Allocate(0), p2);
    RunsThen(p0, [Pop(0)] + [Allocate(0)], p2, Pop(1), p3);
    RunsThen(p0, [Pop(0)] + [Allocate(0)] + [Pop(1)], p3, Drop(0, 0), p4);
    RunsThen(p0, [Pop(0)] + [Allocate(0)] + [Pop(1)] + [Drop(0, 0)], p4, Reserve(0), p5);
    RunsThen(p0, [Pop(0)] + [Allocate(0)] + [Pop(1)] + [Drop(0, 0)] + [Reserve(0)], p5, Push(0), p6);
  }

  lemma RunsNone(p: Pool)
    ensures Runs(p, [], p)
  {
  }

  lemma {:induction false} RunsThen(p: Pool, trace: seq<Step>, q: Pool, s: Step, r: Pool)
    requires Runs(p, trace, q) && Enabled(q, s) && Next(q, s) == r
    ensures Runs(p, trace + [s], r)
    decreases |trace|
  {
    if trace == [] {
      assert Runs(r, (trace + [s])[1..], r);
    } else {
      RunsThen(Next(p, trace[0]), trace[1..], q, s, r);
      assert (trace + [s])[1..] == trace[1..] + [s];
    }
  }

  /** The capacity check fails exactly when every buffer is live, queued or in a thread's hands. */
  lemma AllocateFailsExactly(p: Pool, t: nat)
    requires Inv(p) && t in p.wanting
    ensures Next(p, Allocate(t)).live == p.live <==> |p.live| + |p.queue| + |p.transit| == p.capacity
  {
    hide Owned, FullLength, Retaining;
    LiveCounts(p, Allocate(t));
  }
}
