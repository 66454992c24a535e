/**
 The cache of TURN credentials shared by a group of workers. Workers lease the current credential;
 a lease is stamped with a generation so that late news about an old credential does no harm.
 */
module CredentialCache {
  import opened Bytes

  const WORKERS_PER_CREDENTIAL: nat := 18
  const MAX_WORD: nat := WORD - 1

  datatype Credentials = Credentials(username: string, password: string, servers: seq<string>)

  datatype Cached = Cached(value: Credentials, generation: nat, attempts: nat, mismatches: nat)

  datatype Lease = Lease(value: Credentials, generation: nat)

  datatype Rotation = Rotated(delay: nat) | QuotaReplaced

  datatype Mismatch = RetryCurrent | MismatchRotated | MismatchReplaced

  function Saturating(n: nat): nat { Min(n + 1, MAX_WORD) }

  /** Milliseconds to wait after the n-th quota rejection in a row. */
  function QuotaDelay(attempt: nat): nat {
    match attempt
    case 0 => 100
    case 1 => 300
    case 2 => 500
    case 3 => 800
    case _ => 1500
  }

  lemma DelayGrows(a: nat, b: nat)
    requires a <= b
    ensures 100 <= QuotaDelay(a) <= QuotaDelay(b) <= 1500
  {
  }

  // ---------------------------------------------------------------- what each call does

  datatype Cache = Cache(current: Option<Cached>, blocked: Option<Credentials>, next: nat, retries: nat) {
    /** Whether the lease is of the credential that is current now. */
    predicate Matches(l: Lease) {
      current.Some? && current.value.generation == l.generation && current.value.value == l.value
    }

    predicate Grants() { current.Some? && current.value.attempts < WORKERS_PER_CREDENTIAL }

    function Reserve(): Cache {
      if Grants() then this.(current := Some(current.value.(attempts := current.value.attempts + 1)))
      else this.(current := None)
    }

    function Granted(): Option<Lease> {
      if Grants() then Some(Lease(current.value.value, current.value.generation)) else None
    }

    predicate Takes(v: Credentials) { blocked != Some(v) }

    function Store(v: Credentials): Cache {
      if !Takes(v) then this
      else
        var generation := Max(Saturating(next), 1);
        this.(blocked := None, next := generation, current := Some(Cached(v, generation, 0, 0)))
    }

    function RecordAllocation(l: Lease): Cache {
      if Matches(l) then this.(current := Some(current.value.(mismatches := 0)), retries := 0) else this
    }

    function Release(l: Lease): Cache {
      if Matches(l) then this.(current := Some(current.value.(attempts := Max(current.value.attempts - 1, 0))))
      else this
    }

    function Invalidate(l: Lease): Cache {
      if Matches(l) then this.(current := None) else this
    }

    function RotateAfterQuota(l: Lease): Cache {
      if Matches(l) then this.(current := None, blocked := Some(current.value.value), retries := Saturating(retries))
      else this
    }

    function NextQuotaDelay(): Cache { this.(retries := Saturating(retries)) }

    function RetryAfterMismatch(l: Lease): Cache {
      if !Matches(l) then this
      else if current.value.mismatches == 0 then this.(current := Some(current.value.(mismatches := 1)))
      else this.(current := None)
    }
  }

  /** News about a credential that is no longer current changes nothing. */
  lemma StaleChangesNothing(c: Cache, l: Lease)
    requires !c.Matches(l)
    ensures c.RecordAllocation(l) == c.Release(l) == c.Invalidate(l) == c.RotateAfterQuota(l)
            == c.RetryAfterMismatch(l) == c
  {
  }

  // ---------------------------------------------------------------- runs

  /** The cache with every lease ever granted, in order, and which of them are not yet released. */
  datatype World = World(cache: Cache, leases: seq<Lease>, open_: set<nat>)

  datatype Op =
    | Reserve
    | Store(value: Credentials)
    | Record(lease: nat)
    | Release(lease: nat)
    | Invalidate(lease: nat)
    | Rotate(lease: nat)
    | Delay
    | Mismatched(lease: nat)

  /** Workers speak only of leases they were granted, and release each at most once. */
  predicate Enabled(w: World, op: Op) {
    match op
    case Release(i) => i in w.open_ && i < |w.leases|
    case Record(i) => i < |w.leases|
    case Invalidate(i) => i < |w.leases|
    case Rotate(i) => i < |w.leases|
    case Mismatched(i) => i < |w.leases|
    case _ => true
  }

  function Next(w: World, op: Op): World
    requires Enabled(w, op)
  {
    match op
    case Reserve =>
      (match w.cache.Granted()
       case None => w.(cache := w.cache.Reserve())
       case Some(l) => World(w.cache.Reserve(), w.leases + [l], w.open_ + {|w.leases|}))
    case Store(v) => w.(cache := w.cache.Store(v))
    case Record(i) => w.(cache := w.cache.RecordAllocation(w.leases[i]))
    case Release(i) => w.(cache := w.cache.Release(w.leases[i]), open_ := w.open_ - {i})
    case Invalidate(i) => w.(cache := w.cache.Invalidate(w.leases[i]))
    case Rotate(i) => w.(cache := w.cache.RotateAfterQuota(w.leases[i]))
    case Delay => w.(cache := w.cache.NextQuotaDelay())
    case Mismatched(i) => w.(cache := w.cache.RetryAfterMismatch(w.leases[i]))
  }

  predicate Runs(w: World, ops: seq<Op>, v: World)
    decreases |ops|
  {
    if ops == [] then w == v else Enabled(w, ops[0]) && Runs(Next(w, ops[0]), ops[1..], v)
  }

  function Empty(): World { World(Cache(None, None, 0, 0), [], {}) }

  /** The unreleased leases of one generation. */
  function OpenOf(w: World, generation: nat): set<nat> {
    set i | i in w.open_ && i < |w.leases| && w.leases[i].generation == generation
  }

  predicate CacheOk(c: Cache) {
    && (c.current.Some? ==> c.current.value.generation == c.next && c.current.value.attempts <= WORKERS_PER_CREDENTIAL)
    && (c.blocked.Some? ==> c.current.None?)
    && c.next <= MAX_WORD
  }

  /** The last generation of all is given to every credential once the counter is saturated. */
  predicate Distinct(generation: nat) { generation < MAX_WORD }

  /** Leases of one generation short of the last are leases of one credential. */
  predicate LeasesOk(w: World) {
    && (forall i :: 0 <= i < |w.leases| ==> w.leases[i].generation <= w.cache.next)
    && (forall i, j | 0 <= i < |w.leases| && 0 <= j < |w.leases| && Distinct(w.leases[i].generation) ::
          w.leases[i].generation == w.leases[j].generation ==> w.leases[i].value == w.leases[j].value)
    && (w.cache.current.Some? && Distinct(w.cache.current.value.generation) ==> forall i | 0 <= i < |w.leases| ::
          w.leases[i].generation == w.cache.current.value.generation ==>
            w.leases[i].value == w.cache.current.value.value)
  }

  ghost predicate CountsOk(w: World) {
    && (forall i :: i in w.open_ ==> i < |w.leases|)
    && (forall g: nat | Distinct(g) :: |OpenOf(w, g)| <= WORKERS_PER_CREDENTIAL)
    && (w.cache.current.Some? && Distinct(w.cache.current.value.generation) ==>
          w.cache.current.value.attempts == |OpenOf(w, w.cache.current.value.generation)|)
  }

  ghost predicate Inv(w: World) { CacheOk(w.cache) && LeasesOk(w) && CountsOk(w) }

  lemma StepCache(w: World, op: Op)
    requires CacheOk(w.cache) && Enabled(w, op)
    ensures CacheOk(Next(w, op).cache)
  {
  }

  lemma StepLeases(w: World, op: Op)
    requires CacheOk(w.cache) && LeasesOk(w) && Enabled(w, op)
    ensures LeasesOk(Next(w, op))
  {
    hide CacheOk, LeasesOk, Enabled, Next;
    if op.Reserve? {
      ReserveLeases(w);
    } else if op.Store? {
      StoreLeases(w, op.value);
    } else {
      SameLeases(w, op);
    }
  }

  lemma ReserveLeases(w: World)
    requires CacheOk(w.cache) && LeasesOk(w)
    ensures LeasesOk(Next(w, Reserve))
  {
  }

  lemma StoreLeases(w: World, v: Credentials)
    requires CacheOk(w.cache) && LeasesOk(w)
    ensures LeasesOk(Next(w, Store(v)))
  {
  }

  lemma SameLeases(w: World, op: Op)
    requires LeasesOk(w) && Enabled(w, op) && !op.Reserve? && !op.Store?
    ensures LeasesOk(Next(w, op))
  {
  }

  lemma Matching(w: World, i: nat)
    requires LeasesOk(w) && i < |w.leases| && Distinct(w.leases[i].generation)
    ensures w.cache.Matches(w.leases[i]) <==>
            w.cache.current.Some? && w.leases[i].generation == w.cache.current.value.generation
  {
  }

  lemma OpenAfterReserve(w: World, g: nat)
    requires (forall i :: i in w.open_ ==> i < |w.leases|) && w.cache.Grants()
    ensures OpenOf(Next(w, Reserve), g) ==
            if g == w.cache.current.value.generation then OpenOf(w, g) + {|w.leases|} else OpenOf(w, g)
  {
  }

  lemma OpenAfterRelease(w: World, i: nat, g: nat)
    requires Enabled(w, Release(i))
    ensures OpenOf(Next(w, Release(i)), g) == OpenOf(w, g) - {i}
    ensures i in OpenOf(w, g) <==> w.leases[i].generation == g
  {
  }

  lemma OpenOtherwise(w: World, op: Op, g: nat)
    requires Enabled(w, op) && !op.Release? && (op.Reserve? ==> !w.cache.Grants())
    ensures OpenOf(Next(w, op), g) == OpenOf(w, g)
  {
  }

  lemma StepCounts(w: World, op: Op)
    requires Inv(w) && Enabled(w, op)
    ensures CountsOk(Next(w, op))
  {
    hide OpenOf;
    var v := Next(w, op);
    if op.Release? {
      forall g: nat
        ensures OpenOf(v, g) == OpenOf(w, g) - {op.lease}
        ensures op.lease in OpenOf(w, g) <==> w.leases[op.lease].generation == g
      {
        OpenAfterRelease(w, op.lease, g);
      }
      if Distinct(w.leases[op.lease].generation) { Matching(w, op.lease); }
    } else if op.Reserve? && w.cache.Grants() {
      forall g: nat
        ensures OpenOf(v, g) ==
                if g == w.cache.current.value.generation then OpenOf(w, g) + {|w.leases|} else OpenOf(w, g)
      {
        OpenAfterReserve(w, g);
      }
      NotOpenYet(w, w.cache.current.value.generation);
    } else {
      forall g: nat
        ensures OpenOf(v, g) == OpenOf(w, g)
      {
        OpenOtherwise(w, op, g);
      }
      if op.Store? { NoneOpen(w, w.cache.next + 1); }
    }
  }

  lemma NotOpenYet(w: World, g: nat)
    ensures |w.leases| !in OpenOf(w, g)
  {
  }

  lemma NoneOpen(w: World, g: nat)
    requires LeasesOk(w) && g > w.cache.next
    ensures OpenOf(w, g) == {}
  {
  }

  /** Every call keeps the cache's account of its leases. */
  lemma StepInv(w: World, op: Op)
    requires Inv(w) && Enabled(w, op)
    ensures Inv(Next(w, op))
  {
    hide CacheOk, LeasesOk, CountsOk;
    StepCache(w, op);
    StepLeases(w, op);
    StepCounts(w, op);
  }

  lemma {:induction false} RunInv(w: World, ops: seq<Op>, v: World)
    requires Inv(w) && Runs(w, ops, v)
    ensures Inv(v)
    decreases |ops|
  {
    hide Inv, Next, Enabled;
    if ops != [] {
      StepInv(w, ops[0]);
      RunInv(Next(w, ops[0]), ops[1..], v);
    }
  }

  /**
   In every run no generation short of the last ever has more than eighteen leases out, and in a run of fewer
   than 2^64 calls none at all has.
   */
  lemma LeasesAreBounded(ops: seq<Op>, w: World, g: nat)
    requires Runs(Empty(), ops, w) && (Distinct(g) || |ops| < WORD)
    ensures |OpenOf(w, g)| <= WORKERS_PER_CREDENTIAL
  {
    hide Runs;
    EmptyInv();
    RunInv(Empty(), ops, w);
    RunCosts(Empty(), ops, w);
    if !Distinct(g) { NotReached(ops, w, g); }
  }

  /** In every run two leases of one generation are leases of one credential, if it is not the last generation. */
  lemma GenerationIsOneCredential(ops: seq<Op>, w: World, i: nat, j: nat)
    requires Runs(Empty(), ops, w) && i < |w.leases| && j < |w.leases|
    requires Distinct(w.leases[i].generation) || |ops| < WORD
    ensures w.leases[i].generation == w.leases[j].generation ==> w.leases[i].value == w.leases[j].value
  {
    hide Runs;
    EmptyInv();
    RunInv(Empty(), ops, w);
    RunCosts(Empty(), ops, w);
  }

  /** A lease of the last generation takes 2^64 - 1 credentials and one more call. */
  lemma NotReached(ops: seq<Op>, w: World, g: nat)
    requires LeasesOk(w) && w.cache.next + |w.leases| <= |ops| < WORD && !Distinct(g)
    ensures OpenOf(w, g) == {}
  {
  }

  lemma {:induction false} RunCosts(w: World, ops: seq<Op>, v: World)
    requires Runs(w, ops, v)
    ensures v.cache.next + |v.leases| <= w.cache.next + |w.leases| + |ops|
    decreases |ops|
  {
    hide Next, Enabled;
    if ops != [] {
      StepCosts(w, ops[0]);
      RunCosts(Next(w, ops[0]), ops[1..], v);
    }
  }

  lemma StepCosts(w: World, op: Op)
    requires Enabled(w, op)
    ensures Next(w, op).cache.next + |Next(w, op).leases| <= w.cache.next + |w.leases| + 1
  {
  }

  lemma EmptyInv()
    ensures Inv(Empty())
  {
    forall g: nat
      ensures OpenOf(Empty(), g) == {}
    {
    }
  }

  /**
   A credential that is taken in gets a generation above that of a lease granted before, exactly if that is
   not the last generation.
   */
  lemma GenerationsIncrease(ops: seq<Op>, w: World, v: Credentials, i: nat)
    requires Runs(Empty(), ops, w) && w.cache.Takes(v) && i < |w.leases|
    ensures var c := w.cache.Store(v);
            c.Granted() == Some(Lease(v, c.next))
            && (w.leases[i].generation < c.next <==> Distinct(w.leases[i].generation))
  {
    hide Runs;
    EmptyInv();
    RunInv(Empty(), ops, w);
  }

  // ---------------------------------------------------------------- the last generation

  function Below(n: nat): (r: set<nat>)
    ensures |r| == n && forall i: nat :: i in r <==> i < n
  {
    if n == 0 then {} else Below(n - 1) + {n - 1}
  }

  /** The world after `n` credentials have been stored and `k` leases of the last granted. */
  function Leased(v: Credentials, n: nat, k: nat): World {
    var g := Min(n, MAX_WORD);
    World(Cache(if n == 0 then None else Some(Cached(v, g, k, 0)), None, g, 0),
          Copies(Lease(v, g), k), Below(k))
  }

  function Stores(v: Credentials, n: nat): seq<Op> { Copies(Store(v), n) }

  function Reserves(k: nat): seq<Op> { Copies(Reserve, k) }

  lemma {:induction false} RunsOn(w: World, first: seq<Op>, v: World, then_: seq<Op>, u: World)
    requires Runs(w, first, v) && Runs(v, then_, u)
    ensures Runs(w, first + then_, u)
    decreases |first|
  {
    hide Next, Enabled;
    if first == [] {
      assert first + then_ == then_;
    } else {
      assert (first + then_)[0] == first[0] && (first + then_)[1..] == first[1..] + then_;
      RunsOn(Next(w, first[0]), first[1..], v, then_, u);
    }
  }

  lemma RunsStep(w: World, op: Op, v: World)
    requires Enabled(w, op) && Next(w, op) == v
    ensures Runs(w, [op], v)
  {
    hide Next, Enabled;
    assert [op][1..] == [];
  }

  lemma StoreAgain(v: Credentials, n: nat)
    ensures Next(Leased(v, n, 0), Store(v)) == Leased(v, n + 1, 0)
  {
  }

  lemma {:induction false} StoresRun(v: Credentials, n: nat)
    ensures Runs(Empty(), Stores(v, n), Leased(v, n, 0))
  {
    hide Next;
    if n == 0 {
      assert Leased(v, 0, 0) == Empty();
    } else {
      StoresRun(v, n - 1);
      StoreAgain(v, n - 1);
      RunsStep(Leased(v, n - 1, 0), Store(v), Leased(v, n, 0));
      RunsOn(Empty(), Stores(v, n - 1), Leased(v, n - 1, 0), [Store(v)], Leased(v, n, 0));
      assert Stores(v, n - 1) + [Store(v)] == Stores(v, n);
    }
  }

  lemma ReserveAgain(v: Credentials, n: nat, k: nat)
    requires n > 0 && k < WORKERS_PER_CREDENTIAL
    ensures Next(Leased(v, n, k), Reserve) == Leased(v, n, k + 1)
  {
    var g := Min(n, MAX_WORD);
    assert Copies(Lease(v, g), k) + [Lease(v, g)] == Copies(Lease(v, g), k + 1);
    assert Below(k) + {k} == Below(k + 1);
  }

  lemma {:induction false} ReservesRun(v: Credentials, n: nat, k: nat)
    requires n > 0 && k <= WORKERS_PER_CREDENTIAL
    ensures Runs(Leased(v, n, 0), Reserves(k), Leased(v, n, k))
  {
    hide Next, Leased;
    if k > 0 {
      ReservesRun(v, n, k - 1);
      ReserveAgain(v, n, k - 1);
      RunsStep(Leased(v, n, k - 1), Reserve, Leased(v, n, k));
      RunsOn(Leased(v, n, 0), Reserves(k - 1), Leased(v, n, k - 1), [Reserve], Leased(v, n, k));
      assert Reserves(k - 1) + [Reserve] == Reserves(k);
    }
  }

  /**
   The last generation is shared: with the counter saturated, a second credential takes the generation of the
   first, and a nineteenth lease of it goes out.
   */
  lemma LastIsShared(v: Credentials, other: Credentials, n: nat) returns (ops: seq<Op>, w: World)
    requires n >= MAX_WORD && v != other
    ensures Runs(Empty(), ops, w) && |w.leases| == 19
    ensures w.leases[0].generation == w.leases[18].generation == MAX_WORD && w.leases[0].value != w.leases[18].value
    ensures |OpenOf(w, MAX_WORD)| == 19
  {
    hide Runs, Below;
    var full := Leased(v, n, 18);
    var stored := Next(full, Store(other));
    w := Next(stored, Reserve);
    ops := Stores(v, n) + Reserves(18) + [Store(other)] + [Reserve];
    StoresRun(v, n);
    ReservesRun(v, n, 18);
    RunsOn(Empty(), Stores(v, n), Leased(v, n, 0), Reserves(18), full);
    RunsStep(full, Store(other), stored);
    RunsOn(Empty(), Stores(v, n) + Reserves(18), full, [Store(other)], stored);
    RunsStep(stored, Reserve, w);
    RunsOn(Empty(), Stores(v, n) + Reserves(18) + [Store(other)], stored, [Reserve], w);
    AllOpen(w);
  }

  lemma AllOpen(w: World)
    requires |w.leases| == 19 && (forall i | 0 <= i < 19 :: w.leases[i].generation == MAX_WORD)
    requires w.open_ == Below(18) + {18}
    ensures |OpenOf(w, MAX_WORD)| == 19
  {
    hide Below;
    assert OpenOf(w, MAX_WORD) == Below(18) + {18};
  }

  // ---------------------------------------------------------------- credentials given up

  /** No store of the run succeeds. */
  predicate StoresNothing(w: World, ops: seq<Op>)
    decreases |ops|
  {
    ops == [] || !Enabled(w, ops[0]) ||
    ((ops[0].Store? ==> !w.cache.Takes(ops[0].value)) && StoresNothing(Next(w, ops[0]), ops[1..]))
  }

  lemma EmptyStep(w: World, op: Op)
    requires w.cache.current.None? && Enabled(w, op) && (op.Store? ==> !w.cache.Takes(op.value))
    ensures var v := Next(w, op);
            v.cache.blocked == w.cache.blocked && v.cache.current.None? && v.leases == w.leases
  {
  }

  /** Without a credential nothing is leased until a store succeeds. */
  lemma {:induction false} EmptyRun(w: World, ops: seq<Op>, v: World)
    requires w.cache.current.None? && Runs(w, ops, v) && StoresNothing(w, ops)
    ensures v.cache.blocked == w.cache.blocked && v.cache.current.None? && v.leases == w.leases
    decreases |ops|
  {
    hide Next, Enabled;
    if ops != [] {
      EmptyStep(w, ops[0]);
      EmptyRun(Next(w, ops[0]), ops[1..], v);
    }
  }

  /** Nothing can be leased now, and nothing was leased since `w`. */
  predicate NothingLeased(w: World, v: World) { v.leases == w.leases && v.cache.Granted() == None }

  /**
   What is stored next, the same credential included, is taken in unless it was rejected, and leased under a
   generation above that of every lease before, short of the last.
   */
  predicate LeasedAnew(w: World, v: World, x: Credentials) {
    var c := v.cache.Store(x);
    v.cache.Takes(x) ==>
      && c.Granted() == Some(Lease(x, c.next))
      && forall i | 0 <= i < |w.leases| && Distinct(w.leases[i].generation) :: w.leases[i].generation < c.next
  }

  lemma StoredAnew(w: World, v: World, x: Credentials)
    requires Inv(w) && v.leases == w.leases && w.cache.next <= v.cache.next
    ensures LeasedAnew(w, v, x)
  {
  }

  lemma {:induction false} NextGrows(w: World, ops: seq<Op>, v: World)
    requires CacheOk(w.cache) && Runs(w, ops, v)
    ensures w.cache.next <= v.cache.next
    decreases |ops|
  {
    if ops != [] {
      StepCache(w, ops[0]);
      NextGrows(Next(w, ops[0]), ops[1..], v);
    }
  }

  lemma GivenUp(w: World, op: Op, ops: seq<Op>, v: World, x: Credentials)
    requires Inv(w) && Enabled(w, op) && !op.Store? && !op.Reserve? && Next(w, op).cache.current.None?
    requires Runs(Next(w, op), ops, v) && StoresNothing(Next(w, op), ops)
    ensures NothingLeased(w, v) && LeasedAnew(w, v, x) && v.cache.blocked == Next(w, op).cache.blocked
  {
    hide Runs, StoresNothing;
    EmptyRun(Next(w, op), ops, v);
    StepInv(w, op);
    NextGrows(Next(w, op), ops, v);
    StoredAnew(w, v, x);
  }

  /**
   Once the current credential is rejected for quota, no lease of any credential is granted until a
   different one is stored: fetching the same one again, however often, changes nothing.
   */
  lemma RejectedIsNotLeased(w: World, i: nat, ops: seq<Op>, v: World, x: Credentials)
    requires Enabled(w, Rotate(i)) && w.cache.Matches(w.leases[i])
    requires Runs(Next(w, Rotate(i)), ops, v) && StoresNothing(Next(w, Rotate(i)), ops)
    ensures NothingLeased(w, v) && (v.cache.Takes(x) <==> x != w.leases[i].value)
    ensures Inv(w) ==> LeasedAnew(w, v, x)
  {
    hide Runs, StoresNothing;
    EmptyRun(Next(w, Rotate(i)), ops, v);
    if Inv(w) { GivenUp(w, Rotate(i), ops, v, x); }
  }

  /** A credential found invalid is dropped: nothing is leased until a store, and any store then succeeds. */
  lemma InvalidIsNotLeased(w: World, i: nat, ops: seq<Op>, v: World, x: Credentials)
    requires Inv(w) && Enabled(w, Invalidate(i)) && w.cache.Matches(w.leases[i])
    requires Runs(Next(w, Invalidate(i)), ops, v) && StoresNothing(Next(w, Invalidate(i)), ops)
    ensures NothingLeased(w, v) && LeasedAnew(w, v, x) && v.cache.Takes(x)
  {
    hide Runs, StoresNothing;
    GivenUp(w, Invalidate(i), ops, v, x);
  }

  /** So does the nineteenth worker that asks, who gets nothing. */
  lemma ExhaustedIsNotLeased(w: World, ops: seq<Op>, v: World, x: Credentials)
    requires Inv(w) && w.cache.current.Some? && w.cache.current.value.attempts >= WORKERS_PER_CREDENTIAL
    requires Runs(Next(w, Reserve), ops, v) && StoresNothing(Next(w, Reserve), ops)
    ensures NothingLeased(w, v) && LeasedAnew(w, v, x) && v.cache.Takes(x)
  {
    hide Runs, StoresNothing;
    EmptyRun(Next(w, Reserve), ops, v);
    StepInv(w, Reserve);
    NextGrows(Next(w, Reserve), ops, v);
    StoredAnew(w, v, x);
  }

  // ---------------------------------------------------------------- mismatches

  /** If that generation is still the current one, so many mismatches are held against it. */
  predicate Held(w: World, generation: nat, mismatches: nat) {
    && generation <= w.cache.next
    && (w.cache.current.Some? && w.cache.current.value.generation == generation ==>
          w.cache.current.value.mismatches == mismatches)
  }

  /** The run neither reports a success of any lease (if `success`) nor a mismatch of any (otherwise). */
  predicate Without(ops: seq<Op>, success: bool) {
    forall op | op in ops :: if success then !op.Record? else !op.Mismatched?
  }

  lemma HeldStep(w: World, op: Op, g: nat, success: bool)
    requires CacheOk(w.cache) && Enabled(w, op) && Distinct(g) && (if success then !op.Record? else !op.Mismatched?)
    requires Held(w, g, if success then 1 else 0)
    ensures Held(Next(w, op), g, if success then 1 else 0)
  {
  }

  lemma {:induction false} HeldRun(w: World, ops: seq<Op>, v: World, g: nat, success: bool)
    requires CacheOk(w.cache) && Runs(w, ops, v) && Distinct(g) && Without(ops, success)
    requires Held(w, g, if success then 1 else 0)
    ensures Held(v, g, if success then 1 else 0)
    decreases |ops|
  {
    hide CacheOk, Next, Enabled, Held;
    if ops != [] {
      StepCache(w, ops[0]);
      HeldStep(w, ops[0], g, success);
      assert forall op | op in ops[1..] :: op in ops;
      HeldRun(Next(w, ops[0]), ops[1..], v, g, success);
    }
  }

  /**
   The first mismatch of a credential is forgiven: it stays current and is leased as before. The second in a
   row, whoever reports it and whatever else happens between, drops it, and nothing is leased until a store.
   */
  lemma SecondMismatchDrops(w: World, i: nat, ops: seq<Op>, v: World, j: nat, later: seq<Op>, u: World, x: Credentials)
    requires Inv(w) && Enabled(w, Mismatched(i)) && w.cache.Matches(w.leases[i])
    requires w.cache.current.value.mismatches == 0
    requires Distinct(w.leases[i].generation) && Runs(Next(w, Mismatched(i)), ops, v) && Without(ops, true)
    requires Enabled(v, Mismatched(j)) && v.cache.Matches(v.leases[j])
    requires v.leases[j].generation == w.leases[i].generation
    requires Runs(Next(v, Mismatched(j)), later, u) && StoresNothing(Next(v, Mismatched(j)), later)
    ensures Next(w, Mismatched(i)).cache.Granted() == w.cache.Granted()
    ensures Next(w, Mismatched(i)).cache.Matches(w.leases[i])
    ensures NothingLeased(v, u) && LeasedAnew(v, u, x) && u.cache.Takes(x)
  {
    hide Runs, StoresNothing, Without, LeasesOk, CountsOk;
    StepInv(w, Mismatched(i));
    HeldRun(Next(w, Mismatched(i)), ops, v, w.leases[i].generation, true);
    RunInv(Next(w, Mismatched(i)), ops, v);
    GivenUp(v, Mismatched(j), later, u, x);
  }

  /** A recorded success forgives it: the next mismatch is the first again. */
  lemma SuccessForgives(w: World, i: nat, ops: seq<Op>, v: World, j: nat)
    requires Inv(w) && Enabled(w, Record(i)) && w.cache.Matches(w.leases[i])
    requires Distinct(w.leases[i].generation) && Runs(Next(w, Record(i)), ops, v) && Without(ops, false)
    requires Enabled(v, Mismatched(j)) && v.cache.Matches(v.leases[j])
    requires v.leases[j].generation == w.leases[i].generation
    ensures var u := Next(v, Mismatched(j)).cache; u.Matches(v.leases[j]) && u.Granted() == v.cache.Granted()
  {
    hide Runs, Without, LeasesOk, CountsOk;
    StepInv(w, Record(i));
    HeldRun(Next(w, Record(i)), ops, v, w.leases[i].generation, false);
  }

  // ---------------------------------------------------------------- the delay ladder

  /** No success of the current credential is recorded along the way. */
  predicate Unrewarded(w: World, ops: seq<Op>)
    decreases |ops|
  {
    ops == [] || !Enabled(w, ops[0]) ||
    ((ops[0].Record? ==> !w.cache.Matches(w.leases[ops[0].lease])) && Unrewarded(Next(w, ops[0]), ops[1..]))
  }

  /** How often a worker is sent to wait: the current credential is rejected for quota, or a delay asked for. */
  function Rejections(w: World, ops: seq<Op>): nat
    decreases |ops|
  {
    if ops == [] || !Enabled(w, ops[0]) then 0
    else One(ops[0].Delay? || (ops[0].Rotate? && w.cache.Matches(w.leases[ops[0].lease])))
         + Rejections(Next(w, ops[0]), ops[1..])
  }

  lemma RetriesStep(w: World, op: Op)
    requires Enabled(w, op) && (op.Record? ==> !w.cache.Matches(w.leases[op.lease]))
    requires w.cache.retries <= MAX_WORD
    ensures var more := One(op.Delay? || (op.Rotate? && w.cache.Matches(w.leases[op.lease])));
            Next(w, op).cache.retries == Min(w.cache.retries + more, MAX_WORD)
  {
  }

  lemma {:induction false} RetriesRun(w: World, ops: seq<Op>, v: World)
    requires Runs(w, ops, v) && Unrewarded(w, ops) && w.cache.retries <= MAX_WORD
    ensures v.cache.retries == Min(w.cache.retries + Rejections(w, ops), MAX_WORD)
    decreases |ops|
  {
    if ops != [] {
      RetriesStep(w, ops[0]);
      hide Next, Enabled;
      RetriesRun(Next(w, ops[0]), ops[1..], v);
    }
  }

  /**
   From the start, and from every recorded success on, the n-th rejection is told to wait 100, 300, 500, 800 and from
   the fifth on 1500 milliseconds, whatever happens between.
   */
  lemma LadderClimbs(w: World, ops: seq<Op>, v: World)
    requires w.cache.retries == 0 && Runs(w, ops, v) && Unrewarded(w, ops)
    ensures QuotaDelay(v.cache.retries) == [100, 300, 500, 800, 1500][Min(Rejections(w, ops), 4)]
    ensures forall j: nat | j < |v.leases| && v.cache.Matches(v.leases[j]) :: Next(v, Record(j)).cache.retries == 0
  {
    hide Runs, Unrewarded, Rejections;
    RetriesRun(w, ops, v);
  }

  // ---------------------------------------------------------------- the cache

  class TurnCredentialCache {
    var current: Option<Cached>
    var quotaBlocked: Option<Credentials>
    var nextGeneration: nat
    var quotaRetries: nat

    function Model(): Cache
      reads this
    {
      Cache(current, quotaBlocked, nextGeneration, quotaRetries)
    }

    constructor ()
      ensures Model() == Empty().cache
    {
      current, quotaBlocked, nextGeneration, quotaRetries := None, None, 0, 0;
    }

    method Reserve() returns (r: Option<Lease>)
      modifies this
      ensures r == old(Model()).Granted() && Model() == old(Model()).Reserve()
    {
      if current.Some? && current.value.attempts >= WORKERS_PER_CREDENTIAL {
        current := None;
      }
      if current.None? {
        return None;
      }
      current := Some(current.value.(attempts := Saturating(current.value.attempts)));
      return Some(Lease(current.value.value, current.value.generation));
    }

    method Store(credentials: Credentials) returns (stored: bool)
      modifies this
      ensures stored == old(Model()).Takes(credentials) && Model() == old(Model()).Store(credentials)
    {
      if quotaBlocked.Some? && quotaBlocked.value == credentials {
        return false;
      }
      quotaBlocked := None;
      nextGeneration := Max(Saturating(nextGeneration), 1);
      current := Some(Cached(credentials, nextGeneration, 0, 0));
      return true;
    }

    method RecordAllocation(lease: Lease)
      modifies this
      ensures Model() == old(Model()).RecordAllocation(lease)
    {
      if current.Some? && current.value.generation == lease.generation && current.value.value == lease.value {
        current := Some(current.value.(mismatches := 0));
        quotaRetries := 0;
      }
    }

    method Release(lease: Lease)
      modifies this
      ensures Model() == old(Model()).Release(lease)
    {
      if current.Some? && current.value.generation == lease.generation && current.value.value == lease.value {
        current := Some(current.value.(attempts := Max(current.value.attempts - 1, 0)));
      }
    }

    method Invalidate(lease: Lease) returns (r: bool)
      modifies this
      ensures r == old(Model()).Matches(lease) && Model() == old(Model()).Invalidate(lease)
    {
      if current.Some? && current.value.generation == lease.generation && current.value.value == lease.value {
        current := None;
        return true;
      }
      return false;
    }

    method RotateAfterQuota(lease: Lease) returns (r: Rotation)
      modifies this
      ensures Model() == old(Model()).RotateAfterQuota(lease)
      ensures r == if old(Model()).Matches(lease) then Rotated(QuotaDelay(old(quotaRetries))) else QuotaReplaced
    {
      if current.None? {
        return QuotaReplaced;
      }
      if current.value.generation != lease.generation || current.value.value != lease.value {
        return QuotaReplaced;
      }
      var rejected := current.value.value;
      current := None;
      quotaBlocked := Some(rejected);
      r := Rotated(QuotaDelay(quotaRetries));
      quotaRetries := Saturating(quotaRetries);
    }

    method NextQuotaDelay() returns (delay: nat)
      modifies this
      ensures delay == QuotaDelay(old(quotaRetries)) && Model() == old(Model()).NextQuotaDelay()
    {
      delay := QuotaDelay(quotaRetries);
      quotaRetries := Saturating(quotaRetries);
    }

    method RetryAfterMismatch(lease: Lease) returns (r: Mismatch)
      modifies this
      ensures Model() == old(Model()).RetryAfterMismatch(lease)
      ensures r == if !old(Model()).Matches(lease) then MismatchReplaced
                   else if old(current).value.mismatches == 0 then RetryCurrent
                   else MismatchRotated
    {
      if current.None? {
        return MismatchReplaced;
      }
      if current.value.generation != lease.generation || current.value.value != lease.value {
        return MismatchReplaced;
      }
      if current.value.mismatches == 0 {
        current := Some(current.value.(mismatches := 1));
        return RetryCurrent;
      }
      current := None;
      return MismatchRotated;
    }
  }
}
