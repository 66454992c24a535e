/** What the downlink scheduler guarantees over whole runs of its operations. */
module DownlinkRuns {
  import opened Bytes
  import opened Downlink

  function Run(s: State, ops: seq<Op>): (r: State)
    requires Valid(s)
    ensures Valid(r)
    decreases |ops|
  {
    if ops == [] then s else ApplyValid(s, ops[0]); Run(Apply(s, ops[0]), ops[1..])
  }

  /** The lanes that the dequeues of one class serve, in order. */
  function Served(s: State, ops: seq<Op>, c: Class): seq<nat>
    requires Valid(s)
    decreases |ops|
  {
    if ops == [] then []
    else
      ApplyValid(s, ops[0]);
      var rest := Served(Apply(s, ops[0]), ops[1..], c);
      if ops[0] == Dequeue(c) && Front(s, c).Some? then [Front(s, c).value.0] + rest else rest
  }

  function Dequeues(ops: seq<Op>, c: Class): nat
    decreases |ops|
  {
    if ops == [] then 0 else (if ops[0] == Dequeue(c) then 1 else 0) + Dequeues(ops[1..], c)
  }

  // ---------------------------------------------------------------- what is in a ring

  lemma JoinCounts(a: seq<nat>, b: seq<nat>, key: nat)
    ensures multiset(a + b)[key] == multiset(a)[key] + multiset(b)[key]
  {
  }

  lemma {:induction false} WeightedCounts(lanes: seq<Lane>, n: nat, key: nat)
    requires n <= |lanes|
    ensures multiset(Weighted(lanes, n))[key] == if key < n then lanes[key].paths else 0
    decreases n
  {
    hide Copies;
    if n > 0 {
      WeightedCounts(lanes, n - 1, key);
      CopiesCount(n - 1, lanes[n - 1].paths, key);
      JoinCounts(Weighted(lanes, n - 1), Copies<nat>(n - 1, lanes[n - 1].paths), key);
    }
  }

  lemma {:induction false} PlainMembers(lanes: seq<Lane>, n: nat, key: nat)
    requires n <= |lanes|
    ensures key in Plain(lanes, n) <==> key < n && lanes[key].paths > 0
    decreases n
  {
    if n > 0 { PlainMembers(lanes, n - 1, key); }
  }

  lemma {:induction false} CopiesCount(k: nat, n: nat, key: nat)
    ensures multiset(Copies<nat>(k, n))[key] == if key == k then n else 0
  {
    if n > 0 {
      CopiesCount(k, n - 1, key);
      JoinCounts([k], Copies<nat>(k, n - 1), key);
      assert Copies<nat>(k, n) == [k] + Copies<nat>(k, n - 1);
    }
  }

  /** A ring holds exactly the active lanes. */
  lemma InRing(lanes: seq<Lane>, c: Class, key: nat)
    ensures key in Keys(lanes, c) <==> key < |lanes| && lanes[key].paths > 0
  {
    WeightedCounts(lanes, |lanes|, key);
    PlainMembers(lanes, |lanes|, key);
    assert key in Weighted(lanes, |lanes|) <==> multiset(Weighted(lanes, |lanes|))[key] > 0;
  }

  lemma InTurned(ring: Ring, key: nat)
    requires ring.Valid()
    ensures key in ring.Turned() <==> key in ring.keys
    ensures multiset(ring.Turned()) == multiset(ring.keys)
  {
    assert ring.keys == ring.keys[..ring.cursor] + ring.keys[ring.cursor..];
    assert key in ring.Turned() <==> multiset(ring.Turned())[key] > 0;
    assert key in ring.keys <==> multiset(ring.keys)[key] > 0;
  }

  /** A dequeue comes back with nothing exactly when every active lane is empty for its class. */
  lemma NothingExactly(s: State, c: Class)
    requires Valid(s)
    ensures Front(s, c).None? <==>
            forall key :: 0 <= key < LANES && s.lanes[key].paths > 0 ==> s.lanes[key].Of(c).pending == []
  {
    var line := s.Of(c).Turned();
    var k := FirstReady(s.lanes, c, line);
    if k == |line| {
      forall key | 0 <= key < LANES && s.lanes[key].paths > 0
        ensures s.lanes[key].Of(c).pending == []
      {
        InRing(s.lanes, c, key);
        InTurned(s.Of(c), key);
        var i :| 0 <= i < |line| && line[i] == key;
        assert !Ready(s.lanes, c, line[i]);
      }
    } else {
      InTurned(s.Of(c), line[k]);
      InRing(s.lanes, c, line[k]);
    }
  }

  // ---------------------------------------------------------------- going round a ring

  lemma TurnedAdvanced(ring: Ring, k: nat)
    requires ring.Valid() && k <= |ring.keys|
    ensures ring.Advanced(k).Turned() == ring.Turned()[k..] + ring.Turned()[..k]
  {
  }

  /** The next `m` keys of a ring. */
  function Walk(ring: Ring, m: nat): (r: seq<nat>)
    requires ring.Valid() && ring.keys != []
    ensures |r| == m
    decreases m
  {
    if m == 0 then [] else [ring.keys[ring.cursor]] + Walk(ring.Advanced(1), m - 1)
  }

  lemma {:induction false} WalkIsTurned(ring: Ring, m: nat)
    requires ring.Valid() && ring.keys != [] && m <= |ring.keys|
    ensures Walk(ring, m) == ring.Turned()[..m]
    decreases m
  {
    if m > 0 {
      WalkIsTurned(ring.Advanced(1), m - 1);
      TurnedAdvanced(ring, 1);
    }
  }

  // ---------------------------------------------------------------- weighted fairness

  ghost predicate Backlogged(s: State, c: Class) {
    forall key :: 0 <= key < |s.lanes| && s.lanes[key].paths > 0 ==> Ready(s.lanes, c, key)
  }

  /** No lane is reconfigured and every active lane has a packet waiting whenever one is taken. */
  ghost predicate Busy(s: State, ops: seq<Op>, c: Class)
    requires Valid(s)
    decreases |ops|
  {
    ops == [] ||
    (ApplyValid(s, ops[0]);
     && !ops[0].Configure?
     && (ops[0] == Dequeue(c) ==> Backlogged(s, c))
     && Busy(Apply(s, ops[0]), ops[1..], c))
  }

  lemma OtherOpsKeepRing(s: State, op: Op, c: Class)
    requires Valid(s) && !op.Configure? && op != Dequeue(c)
    ensures Apply(s, op).Of(c) == s.Of(c)
  {
    if op.Dequeue? { DequeuedShape(s, op.class_); }
  }

  lemma BacklogServesNext(s: State, c: Class)
    requires Valid(s) && Backlogged(s, c) && s.Of(c).keys != []
    ensures Front(s, c).Some? && Front(s, c).value.0 == s.Of(c).keys[s.Of(c).cursor]
    ensures Dequeued(s, c).Of(c) == s.Of(c).Advanced(1)
  {
    var line := s.Of(c).Turned();
    InTurned(s.Of(c), line[0]);
    InRing(s.lanes, c, line[0]);
    FirstReadyIs(s.lanes, c, line, 0);
  }

  lemma {:induction false} ServedIsWalk(s: State, ops: seq<Op>, c: Class)
    requires Valid(s) && Busy(s, ops, c) && s.Of(c).keys != []
    ensures Served(s, ops, c) == Walk(s.Of(c), Dequeues(ops, c))
    decreases |ops|
  {
    if ops != [] {
      hide Valid, Backlogged, Apply, Front;
      ApplyValid(s, ops[0]);
      if ops[0] == Dequeue(c) {
        AppliesDequeue(s, c);
        BacklogServesNext(s, c);
      } else {
        OtherOpsKeepRing(s, ops[0], c);
      }
      ServedIsWalk(Apply(s, ops[0]), ops[1..], c);
    }
  }

  lemma AppliesDequeue(s: State, c: Class)
    requires Valid(s)
    ensures Apply(s, Dequeue(c)) == Dequeued(s, c)
  {
  }

  /**
   While every active lane stays backlogged, any stretch of as many bulk dequeues as the ring is
   long serves each lane once per active path, wherever the cursor stood at its start.
   */
  lemma WeightedFair(s: State, ops: seq<Op>, key: nat)
    requires Valid(s) && Busy(s, ops, Bulk) && Dequeues(ops, Bulk) == |s.bulk.keys| > 0
    requires key < LANES
    ensures multiset(Served(s, ops, Bulk))[key] == s.lanes[key].paths
  {
    ServedIsWalk(s, ops, Bulk);
    WalkIsTurned(s.bulk, |s.bulk.keys|);
    assert s.bulk.Turned()[..|s.bulk.keys|] == s.bulk.Turned();
    InTurned(s.bulk, key);
    assert s.Of(Bulk).keys == Keys(s.lanes, Bulk);
    WeightedCounts(s.lanes, LANES, key);
  }

  // ---------------------------------------------------------------- no starvation

  function FirstIndex(line: seq<nat>, key: nat): (k: nat)
    ensures k <= |line|
    ensures forall i :: 0 <= i < k ==> line[i] != key
    ensures k < |line| ==> line[k] == key
  {
    if line == [] || line[0] == key then 0 else 1 + FirstIndex(line[1..], key)
  }

  lemma FirstIndexIs(line: seq<nat>, key: nat, k: nat)
    requires k < |line| && line[k] == key && forall i :: 0 <= i < k ==> line[i] != key
    ensures FirstIndex(line, key) == k
  {
  }

  lemma TurnsNearer(line: seq<nat>, key: nat, k: nat)
    requires k < FirstIndex(line, key) < |line|
    ensures FirstIndex(line[k + 1..] + line[..k + 1], key) == FirstIndex(line, key) - k - 1
  {
    hide FirstIndex;
    FirstIndexIs(line[k + 1..] + line[..k + 1], key, FirstIndex(line, key) - k - 1);
  }

  /** The lane has a packet waiting at every dequeue of the class until one serves it. */
  ghost predicate Waits(s: State, ops: seq<Op>, c: Class, key: nat)
    requires Valid(s)
    decreases |ops|
  {
    ops == [] ||
    (ApplyValid(s, ops[0]);
     && !ops[0].Configure?
     && (ops[0] == Dequeue(c) ==> Ready(s.lanes, c, key))
     && ((ops[0] == Dequeue(c) && Front(s, c).Some? && Front(s, c).value.0 == key)
         || Waits(Apply(s, ops[0]), ops[1..], c, key)))
  }

  /** A dequeue that serves another lane brings a waiting lane nearer to its turn. */
  lemma ComesNearer(s: State, c: Class, key: nat)
    requires Valid(s) && Ready(s.lanes, c, key) && key in s.Of(c).keys
    ensures Front(s, c).Some?
    ensures Front(s, c).value.0 != key ==>
              FirstIndex(Dequeued(s, c).Of(c).Turned(), key) < FirstIndex(s.Of(c).Turned(), key)
  {
    hide Keys, FirstReady, FirstIndex, Ring.Turned;
    var ring, line := s.Of(c), s.Of(c).Turned();
    var k, d := FirstReady(s.lanes, c, line), FirstIndex(line, key);
    InTurned(ring, key);
    assert d < |line|;
    assert k <= d;
    if line[k] != key {
      TurnedAdvanced(ring, k + 1);
      TurnsNearer(line, key, k);
    }
  }

  lemma {:induction false} ServedBeforeLong(s: State, ops: seq<Op>, c: Class, key: nat)
    requires Valid(s) && key in s.Of(c).keys && Waits(s, ops, c, key)
    requires Dequeues(ops, c) > FirstIndex(s.Of(c).Turned(), key)
    ensures key in Served(s, ops, c)
    decreases |ops|
  {
    hide Valid, Apply, Front, FirstIndex, Ring.Turned;
    ApplyValid(s, ops[0]);
    if ops[0] == Dequeue(c) {
      AppliesDequeue(s, c);
      ComesNearer(s, c, key);
      if Front(s, c).value.0 != key {
        DequeuedShape(s, c);
        ServedBeforeLong(Apply(s, ops[0]), ops[1..], c, key);
      }
    } else {
      OtherOpsKeepRing(s, ops[0], c);
      ServedBeforeLong(Apply(s, ops[0]), ops[1..], c, key);
    }
  }

  /** A lane that keeps a packet waiting is served within as many dequeues as the ring is long. */
  lemma ServedWithinOneTurn(s: State, ops: seq<Op>, c: Class, key: nat)
    requires Valid(s) && key < LANES && s.lanes[key].paths > 0 && Waits(s, ops, c, key)
    requires Dequeues(ops, c) >= |s.Of(c).keys|
    ensures key in Served(s, ops, c)
  {
    InRing(s.lanes, c, key);
    InTurned(s.Of(c), key);
    assert FirstIndex(s.Of(c).Turned(), key) < |s.Of(c).keys|;
    ServedBeforeLong(s, ops, c, key);
  }

  // ---------------------------------------------------------------- order within a lane

  /** Requeueing what a dequeue returned puts the lanes back as they were. */
  lemma RequeueUndoes(s: State, c: Class)
    requires Valid(s) && Front(s, c).Some?
    ensures Valid(Dequeued(s, c))
    ensures var f := Front(s, c).value; Apply(Dequeued(s, c), Requeue(f.0, c, f.1)).lanes == s.lanes
  {
    ApplyValid(s, Dequeue(c));
    var f := Front(s, c).value;
    var t := Dequeued(s, c);
    DequeuedAt(s, c);
    assert [f.1] + t.lanes[f.0].Of(c).pending == s.lanes[f.0].Of(c).pending;
    var slots := Slots(t.lanes[f.0].Of(c).free, [f.1] + t.lanes[f.0].Of(c).pending);
    assert slots == s.lanes[f.0].Of(c);
    assert t.lanes[f.0].With(c, slots) == s.lanes[f.0];
    assert t.lanes[f.0 := s.lanes[f.0]] == s.lanes;
  }

  lemma DequeuedAt(s: State, c: Class)
    requires Valid(s)
    ensures var t := Dequeued(s, c);
            match Front(s, c)
            case None => t == s
            case Some(f) =>
              && f.0 < |s.lanes|
              && t.lanes == s.lanes[f.0 := s.lanes[f.0].With(
                   c, Slots(s.lanes[f.0].Of(c).free, s.lanes[f.0].Of(c).pending[1..]))]
  {
  }

  /** What one operation adds to a lane's queue for a class. */
  function Taken(s: State, op: Op, key: nat, c: Class): seq<seq<Byte>> {
    if op.Enqueue? && op.key == key && op.class_ == c && Accepts(s, key, c, op.packet) then [op.packet] else []
  }

  /** The packets a lane took in for a class. */
  function Accepted(s: State, ops: seq<Op>, key: nat, c: Class): seq<seq<Byte>>
    requires Valid(s)
    decreases |ops|
  {
    if ops == [] then []
    else
      ApplyValid(s, ops[0]);
      Taken(s, ops[0], key, c) + Accepted(Apply(s, ops[0]), ops[1..], key, c)
  }

  /** The packets the lane has given out, less those put back. */
  function Handed(s: State, op: Op, key: nat, c: Class, log: seq<seq<Byte>>): seq<seq<Byte>>
    requires Valid(s)
  {
    if op == Dequeue(c) && Front(s, c).Some? && Front(s, c).value.0 == key then log + [Front(s, c).value.1]
    else if op.Requeue? && op.key == key && op.class_ == c && log != [] then log[..|log| - 1]
    else log
  }

  function Log(s: State, ops: seq<Op>, key: nat, c: Class, log: seq<seq<Byte>>): seq<seq<Byte>>
    requires Valid(s)
    decreases |ops|
  {
    if ops == [] then log
    else
      ApplyValid(s, ops[0]);
      Log(Apply(s, ops[0]), ops[1..], key, c, Handed(s, ops[0], key, c, log))
  }

  /** The lane is neither resized nor cleared, and only the packet it gave out last is put back. */
  predicate Orderly(op: Op, key: nat, c: Class, log: seq<seq<Byte>>) {
    && (op.Configure? || op.Clear? ==> op.key != key)
    && (op.Requeue? && op.key == key && op.class_ == c ==> log != [] && log[|log| - 1] == op.buffer)
  }

  predicate OrderlyRun(s: State, ops: seq<Op>, key: nat, c: Class, log: seq<seq<Byte>>)
    requires Valid(s)
    decreases |ops|
  {
    ops == [] ||
    (ApplyValid(s, ops[0]);
     Orderly(ops[0], key, c, log) && OrderlyRun(Apply(s, ops[0]), ops[1..], key, c, Handed(s, ops[0], key, c, log)))
  }

  function Pending(s: State, key: nat, c: Class): seq<Buffer>
    requires key < |s.lanes|
  {
    s.lanes[key].Of(c).pending
  }

  /** One operation: what was given out and is pending grows only at the end, by what was taken in. */
  lemma InOrderStep(s: State, op: Op, key: nat, c: Class, log: seq<seq<Byte>>)
    requires Valid(s) && key < LANES && Orderly(op, key, c, log) && |Apply(s, op).lanes| == LANES
    ensures Handed(s, op, key, c, log) + Pending(Apply(s, op), key, c)
            == log + Pending(s, key, c) + Taken(s, op, key, c)
  {
    hide Valid, Keys, Front, Dequeued, Rebuilt, Apply, Pending, Handed, Taken, Orderly;
    if op.Dequeue? {
      InOrderDequeue(s, op.class_, key, c, log);
    } else {
      InOrderOther(s, op, key, c, log);
    }
  }

  lemma InOrderDequeue(s: State, class_: Class, key: nat, c: Class, log: seq<seq<Byte>>)
    requires Valid(s) && key < LANES && |Apply(s, Dequeue(class_)).lanes| == LANES
    ensures var op := Dequeue(class_);
            Handed(s, op, key, c, log) + Pending(Apply(s, op), key, c)
            == log + Pending(s, key, c) + Taken(s, op, key, c)
  {
    hide Keys, Front, Dequeued, Rebuilt;
    DequeuedAt(s, class_);
  }

  lemma InOrderOther(s: State, op: Op, key: nat, c: Class, log: seq<seq<Byte>>)
    requires Valid(s) && key < LANES && Orderly(op, key, c, log) && |Apply(s, op).lanes| == LANES && !op.Dequeue?
    ensures Handed(s, op, key, c, log) + Pending(Apply(s, op), key, c)
            == log + Pending(s, key, c) + Taken(s, op, key, c)
  {
    hide Keys, Front, Dequeued, Rebuilt;
    if op.Configure? {
      assert Pending(Apply(s, op), key, c) == Pending(s, key, c) by { ConfigureElsewhere(s, op, key); }
    }
  }

  lemma ConfigureElsewhere(s: State, op: Op, key: nat)
    requires Valid(s) && op.Configure? && op.key != key && key < LANES
    ensures |Apply(s, op).lanes| == LANES && Apply(s, op).lanes[key] == s.lanes[key]
  {
  }

  /** A lane delivers the packets of a class in the order in which it took them in. */
  lemma {:induction false} InOrder(s: State, ops: seq<Op>, key: nat, c: Class, log: seq<seq<Byte>>)
    requires Valid(s) && key < LANES && OrderlyRun(s, ops, key, c, log)
    ensures log + Pending(s, key, c) + Accepted(s, ops, key, c)
            == Log(s, ops, key, c, log) + Pending(Run(s, ops), key, c)
    decreases |ops|
  {
    if ops == [] {
      assert log + Pending(s, key, c) + [] == log + Pending(s, key, c);
    } else {
      hide Apply, Handed, Orderly, Taken, Valid, Pending;
      ApplyValid(s, ops[0]);
      ValidLanes(s);
      ValidLanes(Apply(s, ops[0]));
      ValidLanes(Run(s, ops));
      var t, rest, taken := Apply(s, ops[0]), ops[1..], Taken(s, ops[0], key, c);
      var handed := Handed(s, ops[0], key, c, log);
      InOrderStep(s, ops[0], key, c, log);
      InOrder(t, rest, key, c, handed);
      Regroup(log + Pending(s, key, c), taken, Accepted(t, rest, key, c));
    }
  }

  /**
   Clearing a lane leaves nothing pending in any class and loses no slot. Whatever the lane gives out afterwards
   it took in afterwards, in that order: nothing from before comes back.
   */
  lemma ClearedStartsOver(s: State, key: nat, ops: seq<Op>, c: Class)
    requires Valid(s) && key < LANES
    ensures Valid(Apply(s, Clear(key)))
    ensures var t := Apply(s, Clear(key));
            && Pending(t, key, c) == [] && t.lanes[key].Of(c).Total() == s.lanes[key].Of(c).Total()
            && t.lanes[key].paths == s.lanes[key].paths
            && (OrderlyRun(t, ops, key, c, []) ==> Log(t, ops, key, c, []) <= Accepted(t, ops, key, c))
  {
    ApplyValid(s, Clear(key));
    var t := Apply(s, Clear(key));
    hide Valid, OrderlyRun, Log, Accepted, Run;
    if OrderlyRun(t, ops, key, c, []) {
      InOrder(t, ops, key, c, []);
      ValidLanes(Run(t, ops));
      assert [] + Pending(t, key, c) + Accepted(t, ops, key, c) == Accepted(t, ops, key, c);
    }
  }

  // ---------------------------------------------------------------- reconfiguring

  predicate Unconfigured(ops: seq<Op>, key: nat) {
    forall i :: 0 <= i < |ops| && ops[i].Configure? ==> ops[i].key != key
  }

  lemma StaysInactive(s: State, op: Op, key: nat, c: Class)
    requires Valid(s) && key < LANES && s.lanes[key].paths == 0 && (op.Configure? ==> op.key != key)
    ensures |Apply(s, op).lanes| == LANES && Apply(s, op).lanes[key].paths == 0 && Taken(s, op, key, c) == []
    ensures Front(s, c).Some? ==> Front(s, c).value.0 != key
  {
    hide Keys;
    ApplyValid(s, op);
    InRing(s.lanes, c, key);
    InTurned(s.Of(c), key);
    match op
    case Dequeue(class_) => DequeuedShape(s, class_);
    case _ =>
  }

  /** A lane configured to have no paths takes no packet and is not served, until it is configured again. */
  lemma {:induction false} InactiveLaneRests(s: State, ops: seq<Op>, key: nat, c: Class)
    requires Valid(s) && key < LANES && s.lanes[key].paths == 0 && Unconfigured(ops, key)
    ensures Accepted(s, ops, key, c) == [] && key !in Served(s, ops, c)
    decreases |ops|
  {
    if ops != [] {
      hide Valid, Apply, Front, Taken;
      ApplyValid(s, ops[0]);
      StaysInactive(s, ops[0], key, c);
      InactiveLaneRests(Apply(s, ops[0]), ops[1..], key, c);
    }
  }

  /** The part of a ring that the lanes below `n` make up. */
  function Below(lanes: seq<Lane>, c: Class, n: nat): seq<nat>
    requires n <= |lanes|
  {
    if c.Bulk? then Weighted(lanes, n) else Plain(lanes, n)
  }

  lemma {:induction false} BelowIsPrefix(lanes: seq<Lane>, c: Class, n: nat, m: nat)
    requires n <= m <= |lanes|
    ensures Below(lanes, c, n) <= Below(lanes, c, m)
    ensures forall i :: |Below(lanes, c, n)| <= i < |Below(lanes, c, m)| ==> Below(lanes, c, m)[i] >= n
    decreases m
  {
    if n < m { BelowIsPrefix(lanes, c, n, m - 1); }
  }

  lemma {:induction false} BelowSame(a: seq<Lane>, b: seq<Lane>, c: Class, n: nat)
    requires n <= |a| == |b| && forall k :: 0 <= k < n ==> a[k].paths == b[k].paths
    ensures Below(a, c, n) == Below(b, c, n)
    decreases n
  {
    if n > 0 { BelowSame(a, b, c, n - 1); }
  }

  lemma ConfigureRings(s: State, key: nat, paths: nat, c: Class)
    requires Valid(s) && key < LANES
    ensures var t := Apply(s, Configure(key, paths));
            t == s || (&& t.Of(c) == Rewound(s.Of(c), Keys(t.lanes, c)) && |t.lanes| == LANES
                       && forall k :: 0 <= k < key ==> t.lanes[k] == s.lanes[k])
  {
    hide Configured, Keys, Rewound;
  }

  lemma RewoundKeeps(ring: Ring, keys: seq<nat>, below: seq<nat>, key: nat)
    requires ring.Valid() && below <= ring.keys && below <= keys
    requires forall i :: |below| <= i < |ring.keys| ==> ring.keys[i] >= key
    requires forall i :: 0 <= i < ring.cursor <= |ring.keys| ==> ring.keys[i] < key
    ensures ring.cursor <= |ring.keys| && ring.cursor <= |keys| && keys[..ring.cursor] == ring.keys[..ring.cursor]
    ensures Rewound(ring, keys).cursor == if ring.cursor < |keys| then ring.cursor else 0
  {
    assert |below| < |ring.keys| ==> ring.keys[|below|] >= key;
    assert ring.cursor <= |below|;
    assert keys[..ring.cursor] == below[..ring.cursor] == ring.keys[..ring.cursor];
    Wrapped(ring.cursor, |keys|);
  }

  lemma Wrapped(cursor: nat, n: nat)
    requires cursor <= n
    ensures cursor % Max(n, 1) == if cursor < n then cursor else 0
  {
  }

  /** Configuring a lane whose turn is still to come leaves the lanes served before it served: the turn goes on. */
  lemma TurnGoesOn(s: State, key: nat, paths: nat, c: Class)
    requires Valid(s) && key < LANES
    requires forall i :: 0 <= i < s.Of(c).cursor <= |s.Of(c).keys| ==> s.Of(c).keys[i] < key
    ensures var before, after := s.Of(c), Apply(s, Configure(key, paths)).Of(c);
            && before.cursor <= |before.keys| && before.cursor <= |after.keys|
            && after.keys[..before.cursor] == before.keys[..before.cursor]
            && after.cursor == if before.cursor < |after.keys| then before.cursor else 0
  {
    hide Apply, Rewound, Plain, Weighted;
    var t := Apply(s, Configure(key, paths));
    ConfigureRings(s, key, paths, c);
    if t != s {
      BelowIsPrefix(s.lanes, c, key, LANES);
      BelowIsPrefix(t.lanes, c, key, LANES);
      BelowSame(s.lanes, t.lanes, c, key);
      RewoundKeeps(s.Of(c), Keys(t.lanes, c), Below(s.lanes, c, key), key);
    }
  }

  lemma Regroup<T>(a: seq<T>, b: seq<T>, c: seq<T>)
    ensures a + (b + c) == (a + b) + c
  {
  }

  lemma ValidLanes(s: State)
    requires Valid(s)
    ensures |s.lanes| == LANES
  {
  }
}
