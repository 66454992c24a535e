/**
 The log writer: producers on any number of threads put lines into two bounded queues, evicting the
 oldest when a queue is full, and one writer thread drains them, coalescing equal diagnostics and
 letting only so many protocol lines pass a waiting diagnostic. Every atomic access is a step.
 */
module LogWriter {
  import opened Bytes

  const PROTOCOL_BURST: nat := 32
  const COALESCE_BATCH: nat := 64
  const ATTEMPTS: nat := 4

  type Line = string

  datatype Kind = Protocol | Diagnostic

  /** `accepted`, `retired` and `taken` only record history: lines counted in, lines the writer counted
      out, and the lines the writer popped. */
  datatype Lane = Lane(
    capacity: nat, queue: seq<Line>, outstanding: int, dropped: nat,
    accepted: nat, retired: nat, taken: seq<Line>)

  datatype Stage =
    | Trying      // about to push
    | Full        // the push failed
    | Victim      // holds the oldest line, `outstanding` not yet lowered for it
    | Counting    // lowered, `dropped` not yet raised
    | GivingUp    // out of attempts, `outstanding` not yet lowered for its own line
    | Ending      // lowered, `dropped` not yet raised

  datatype Producer = Producer(kind: Kind, stage: Stage, line: Line, left: nat)

  datatype Writer =
    | Top
    | AtDiagnostics
    | Gathering(line: Line, repetitions: nat)
    | Repeated(line: Line, repetitions: nat)
    | Gathered(line: Line, repetitions: nat)
    | DiagnosticWritten
    | AtTail
    | ProtocolTaken(line: Line, nextBurst: nat)
    | ProtocolWritten(nextBurst: nat)

  datatype Entry = Entry(line: Line, repetitions: nat)

  datatype Log = Log(
    protocol: Lane, diagnostic: Lane,
    producers: map<nat, Producer>,
    writer: Writer, burst: nat, held: Option<Line>,
    out: seq<Line>, err: seq<Entry>) {
    function Of(kind: Kind): Lane { if kind.Protocol? then protocol else diagnostic }

    function With(kind: Kind, lane: Lane): Log {
      if kind.Protocol? then this.(protocol := lane) else this.(diagnostic := lane)
    }
  }

  function New(protocolCapacity: nat, diagnosticCapacity: nat): Log {
    Log(Lane(Max(protocolCapacity, 1), [], 0, 0, 0, 0, []), Lane(Max(diagnosticCapacity, 1), [], 0, 0, 0, 0, []),
        map[], Top, 0, None, [], [])
  }

  // ---------------------------------------------------------------- producers

  datatype Produce =
    | Announce(thread: nat, kind: Kind, line: Line)
    | TryPush(thread: nat)
    | Evict(thread: nat)
    | Lower(thread: nat)
    | Count(thread: nat)
    | GiveUp(thread: nat)
    | End(thread: nat)

  predicate InStage(l: Log, t: nat, stage: Stage) {
    t in l.producers && l.producers[t].stage == stage
  }

  predicate CanProduce(l: Log, s: Produce) {
    match s
    case Announce(t, _, _) => t !in l.producers
    case TryPush(t) => InStage(l, t, Trying)
    case Evict(t) => InStage(l, t, Full)
    case Lower(t) => InStage(l, t, Victim)
    case Count(t) => InStage(l, t, Counting)
    case GiveUp(t) => InStage(l, t, GivingUp)
    case End(t) => InStage(l, t, Ending)
  }

  /** One attempt is used up. */
  function Again(p: Producer): Producer {
    if p.left <= 1 then p.(stage := GivingUp, left := 0) else p.(stage := Trying, left := p.left - 1)
  }

  function Put(l: Log, t: nat, p: Producer): Log { l.(producers := l.producers[t := p]) }

  function Produced(l: Log, s: Produce): Log
    requires CanProduce(l, s)
  {
    match s
    case Announce(t, kind, line) =>
      var lane := l.Of(kind);
      Put(l.With(kind, lane.(outstanding := lane.outstanding + 1, accepted := lane.accepted + 1)), t,
          Producer(kind, Trying, line, ATTEMPTS))
    case TryPush(t) =>
      var p := l.producers[t];
      var lane := l.Of(p.kind);
      if |lane.queue| < lane.capacity then
        l.With(p.kind, lane.(queue := lane.queue + [p.line])).(producers := l.producers - {t})
      else Put(l, t, p.(stage := Full))
    case Evict(t) =>
      var p := l.producers[t];
      var lane := l.Of(p.kind);
      if lane.queue == [] then Put(l, t, Again(p))
      else Put(l.With(p.kind, lane.(queue := lane.queue[1..])), t, p.(stage := Victim))
    case Lower(t) =>
      var p := l.producers[t];
      var lane := l.Of(p.kind);
      Put(l.With(p.kind, lane.(outstanding := lane.outstanding - 1)), t, p.(stage := Counting))
    case Count(t) =>
      var p := l.producers[t];
      var lane := l.Of(p.kind);
      Put(l.With(p.kind, lane.(dropped := lane.dropped + 1)), t, Again(p))
    case GiveUp(t) =>
      var p := l.producers[t];
      var lane := l.Of(p.kind);
      Put(l.With(p.kind, lane.(outstanding := lane.outstanding - 1)), t, p.(stage := Ending))
    case End(t) =>
      var p := l.producers[t];
      var lane := l.Of(p.kind);
      l.With(p.kind, lane.(dropped := lane.dropped + 1)).(producers := l.producers - {t})
  }

  // ---------------------------------------------------------------- the writer

  /** Taking the oldest line of a lane. */
  function Taken(lane: Lane): Lane
    requires lane.queue != []
  {
    lane.(queue := lane.queue[1..], taken := lane.taken + [lane.queue[0]])
  }

  function Retired(lane: Lane): Lane {
    lane.(outstanding := lane.outstanding - 1, retired := lane.retired + 1)
  }

  /** The writer's next step; it is determined by what it finds in the queues. */
  function Write(l: Log): Log {
    match l.writer
    case Top =>
      if l.burst < PROTOCOL_BURST && l.protocol.queue != [] then
        l.(protocol := Taken(l.protocol), writer := ProtocolTaken(l.protocol.queue[0], l.burst + 1))
      else l.(writer := AtDiagnostics)
    case AtDiagnostics =>
      if l.held.Some? then l.(held := None, writer := Gathering(l.held.value, 1))
      else if l.diagnostic.queue != [] then
        l.(diagnostic := Taken(l.diagnostic), writer := Gathering(l.diagnostic.queue[0], 1))
      else l.(writer := AtTail)
    case Gathering(line, n) =>
      if n >= COALESCE_BATCH || l.diagnostic.queue == [] then l.(writer := Gathered(line, n))
      else if l.diagnostic.queue[0] == line then l.(diagnostic := Taken(l.diagnostic), writer := Repeated(line, n + 1))
      else l.(diagnostic := Taken(l.diagnostic), held := Some(l.diagnostic.queue[0]), writer := Gathered(line, n))
    case Repeated(line, n) => l.(diagnostic := Retired(l.diagnostic), writer := Gathering(line, n))
    case Gathered(line, n) => l.(err := l.err + [Entry(line, n)], writer := DiagnosticWritten)
    case DiagnosticWritten => l.(diagnostic := Retired(l.diagnostic), burst := 0, writer := Top)
    case AtTail =>
      if l.protocol.queue != [] then l.(protocol := Taken(l.protocol), writer := ProtocolTaken(l.protocol.queue[0], 1))
      else l.(writer := Top)
    case ProtocolTaken(line, next) => l.(out := l.out + [line], writer := ProtocolWritten(next))
    case ProtocolWritten(next) => l.(protocol := Retired(l.protocol), burst := next, writer := Top)
  }

  datatype Step = Producing(step: Produce) | Writing

  predicate Enabled(l: Log, s: Step) { s.Producing? ==> CanProduce(l, s.step) }

  function Next(l: Log, s: Step): Log
    requires Enabled(l, s)
  {
    match s
    case Producing(p) => Produced(l, p)
    case Writing => Write(l)
  }

  predicate Runs(l: Log, trace: seq<Step>, m: Log)
    decreases |trace|
  {
    if trace == [] then l == m else Enabled(l, trace[0]) && Runs(Next(l, trace[0]), trace[1..], m)
  }

  // ---------------------------------------------------------------- counting producers

  datatype Tally = Holding | Victims | Uncounted

  predicate Counted(p: Producer, kind: Kind, tally: Tally) {
    p.kind == kind &&
    match tally
    case Holding => p.stage != Ending
    case Victims => p.stage == Victim
    case Uncounted => p.stage == Counting || p.stage == Ending
  }

  function At(producers: map<nat, Producer>, kind: Kind, tally: Tally): set<nat> {
    set t | t in producers && Counted(producers[t], kind, tally)
  }

  predicate CountedAt(producers: map<nat, Producer>, t: nat, kind: Kind, tally: Tally) {
    t in producers && Counted(producers[t], kind, tally)
  }

  lemma AtPut(producers: map<nat, Producer>, t: nat, p: Producer, kind: Kind, tally: Tally)
    ensures |At(producers[t := p], kind, tally)| ==
            |At(producers, kind, tally)| + One(Counted(p, kind, tally)) - One(CountedAt(producers, t, kind, tally))
  {
    hide Counted;
    assert At(producers[t := p], kind, tally) ==
           if Counted(p, kind, tally) then At(producers, kind, tally) + {t} else At(producers, kind, tally) - {t};
    assert t in At(producers, kind, tally) <==> CountedAt(producers, t, kind, tally);
  }

  lemma AtRemoved(producers: map<nat, Producer>, t: nat, kind: Kind, tally: Tally)
    ensures |At(producers - {t}, kind, tally)|
            == |At(producers, kind, tally)| - One(CountedAt(producers, t, kind, tally))
  {
    hide Counted;
    assert At(producers - {t}, kind, tally) == At(producers, kind, tally) - {t};
    assert t in At(producers, kind, tally) <==> CountedAt(producers, t, kind, tally);
  }

  lemma ProducersAfter(l: Log, s: Produce)
    requires CanProduce(l, s)
    ensures var m := Produced(l, s);
            || (s.thread in l.producers && m.producers == l.producers - {s.thread})
            || (s.thread in m.producers && m.producers == l.producers[s.thread := m.producers[s.thread]])
  {
  }

  lemma TallyAfter(l: Log, s: Produce, kind: Kind, tally: Tally)
    requires CanProduce(l, s)
    ensures var m := Produced(l, s);
            |At(m.producers, kind, tally)| == |At(l.producers, kind, tally)|
              + One(CountedAt(m.producers, s.thread, kind, tally)) - One(CountedAt(l.producers, s.thread, kind, tally))
  {
    hide At, Counted, CanProduce, Produced;
    var m := Produced(l, s);
    ProducersAfter(l, s);
    if s.thread in m.producers {
      AtPut(l.producers, s.thread, m.producers[s.thread], kind, tally);
    } else {
      AtRemoved(l.producers, s.thread, kind, tally);
    }
  }

  // ---------------------------------------------------------------- the invariant

  /** Lines the writer has popped and not yet counted out. */
  function InHand(l: Log, kind: Kind): nat {
    match kind
    case Protocol => if l.writer.ProtocolTaken? || l.writer.ProtocolWritten? then 1 else 0
    case Diagnostic =>
      (if l.held.Some? then 1 else 0) +
      (match l.writer
       case Gathering(_, _) => 1
       case Repeated(_, _) => 2
       case Gathered(_, _) => 1
       case DiagnosticWritten => 1
       case _ => 0)
  }

  /** `outstanding` counts the lines in the queue and in everybody's hands. */
  predicate Balanced(l: Log, kind: Kind) {
    var lane := l.Of(kind);
    lane.outstanding == |lane.queue| + |At(l.producers, kind, Holding)| + |At(l.producers, kind, Victims)|
                        + InHand(l, kind)
  }

  /** Every accepted line is outstanding, counted out, dropped, or about to be counted as dropped. */
  predicate Accounted(l: Log, kind: Kind) {
    var lane := l.Of(kind);
    && lane.accepted == lane.retired + lane.dropped + lane.outstanding + |At(l.producers, kind, Uncounted)|
    && |lane.taken| == lane.retired + InHand(l, kind)
  }

  function Expand(entries: seq<Entry>): seq<Line> {
    if entries == [] then []
    else Expand(entries[..|entries| - 1]) + Copies(entries[|entries| - 1].line, entries[|entries| - 1].repetitions)
  }

  /** The diagnostic the writer is gathering, as often as it has come up. */
  function BeingGathered(w: Writer): seq<Line> {
    match w
    case Gathering(line, n) => Copies(line, n)
    case Repeated(line, n) => Copies(line, n)
    case Gathered(line, n) => Copies(line, n)
    case _ => []
  }

  function HeldOver(l: Log): seq<Line> { if l.held.Some? then [l.held.value] else [] }

  /** The diagnostics popped and not written: those being gathered, then the one held over. */
  function Unwritten(l: Log): seq<Line> { BeingGathered(l.writer) + HeldOver(l) }

  /** What has been written and what is on its way is what was popped. */
  predicate Ordered(l: Log) {
    && l.diagnostic.taken == Expand(l.err) + Unwritten(l)
    && l.protocol.taken == l.out + (if l.writer.ProtocolTaken? then [l.writer.line] else [])
    && ((l.writer.Gathering? || l.writer.Repeated?) ==> l.held.None?)
    && (l.writer.AtTail? ==> l.held.None?)
  }

  predicate Bursts(l: Log) {
    && l.burst <= PROTOCOL_BURST
    && (l.writer.ProtocolTaken? || l.writer.ProtocolWritten? ==> 1 <= l.writer.nextBurst <= PROTOCOL_BURST)
  }

  ghost predicate Inv(l: Log) {
    && (forall kind: Kind :: Balanced(l, kind) && Accounted(l, kind))
    && Ordered(l) && Bursts(l)
  }

  // ---------------------------------------------------------------- producers keep it

  lemma ProducerShift(l: Log, s: Produce, kind: Kind)
    requires CanProduce(l, s)
    ensures var m := Produced(l, s); var a, b := l.Of(kind), m.Of(kind); var t := s.thread;
            && (b.outstanding - |b.queue|) - (a.outstanding - |a.queue|) ==
                 One(CountedAt(m.producers, t, kind, Holding)) - One(CountedAt(l.producers, t, kind, Holding))
                 + One(CountedAt(m.producers, t, kind, Victims)) - One(CountedAt(l.producers, t, kind, Victims))
            && (b.accepted - b.dropped - b.outstanding) - (a.accepted - a.dropped - a.outstanding) ==
                 One(CountedAt(m.producers, t, kind, Uncounted)) - One(CountedAt(l.producers, t, kind, Uncounted))
  {
  }

  lemma ProducerFrame(l: Log, s: Produce)
    requires CanProduce(l, s)
    ensures var m := Produced(l, s);
            && m.writer == l.writer && m.burst == l.burst && m.held == l.held && m.out == l.out && m.err == l.err
            && forall kind: Kind :: m.Of(kind).retired == l.Of(kind).retired && m.Of(kind).taken == l.Of(kind).taken
                                    && m.Of(kind).capacity == l.Of(kind).capacity
  {
  }

  lemma ProducerKeeps(l: Log, s: Produce, kind: Kind)
    requires CanProduce(l, s) && Balanced(l, kind) && Accounted(l, kind)
    ensures Balanced(Produced(l, s), kind) && Accounted(Produced(l, s), kind)
  {
    hide CanProduce, Produced, At, CountedAt, Log.Of;
    TallyAfter(l, s, kind, Holding);
    TallyAfter(l, s, kind, Victims);
    TallyAfter(l, s, kind, Uncounted);
    ProducerShift(l, s, kind);
    ProducerFrame(l, s);
  }

  // ---------------------------------------------------------------- the writer keeps it

  lemma WriterShift(l: Log, kind: Kind)
    requires (l.writer.Gathering? || l.writer.AtTail? ==> l.held.None?)
    ensures var m := Write(l); var a, b := l.Of(kind), m.Of(kind);
            && m.producers == l.producers
            && b.accepted == a.accepted && b.dropped == a.dropped
            && b.retired + b.outstanding == a.retired + a.outstanding
            && b.outstanding - |b.queue| - InHand(m, kind) == a.outstanding - |a.queue| - InHand(l, kind)
            && |b.taken| - b.retired - InHand(m, kind) == |a.taken| - a.retired - InHand(l, kind)
  {
    hide Write, InHand;
    WriterCounts(l, kind);
    WriterHand(l, kind);
  }

  lemma WriterCounts(l: Log, kind: Kind)
    ensures var m := Write(l); var a, b := l.Of(kind), m.Of(kind);
            && m.producers == l.producers
            && b.accepted == a.accepted && b.dropped == a.dropped
            && b.retired + b.outstanding == a.retired + a.outstanding
  {
  }

  lemma WriterHand(l: Log, kind: Kind)
    requires (l.writer.Gathering? || l.writer.AtTail? ==> l.held.None?)
    ensures var m := Write(l); var a, b := l.Of(kind), m.Of(kind);
            && b.outstanding - |b.queue| - InHand(m, kind) == a.outstanding - |a.queue| - InHand(l, kind)
            && |b.taken| - b.retired - InHand(m, kind) == |a.taken| - a.retired - InHand(l, kind)
  {
  }

  lemma WriterKeeps(l: Log, kind: Kind)
    requires Balanced(l, kind) && Accounted(l, kind) && Ordered(l)
    ensures Balanced(Write(l), kind) && Accounted(Write(l), kind)
  {
    hide At, Expand, Unwritten, Write, InHand;
    WriterShift(l, kind);
  }

  lemma ExpandAppend(entries: seq<Entry>, e: Entry)
    ensures Expand(entries + [e]) == Expand(entries) + Copies(e.line, e.repetitions)
  {
    assert (entries + [e])[..|entries|] == entries;
  }

  lemma RepeatAgain(line: Line, n: nat)
    ensures Copies(line, n + 1) == Copies(line, n) + [line]
    ensures Copies(line, 1) == [line]
  {
  }

  /** Short of writing, the writer adds what it pops at the end of what is on its way. */
  lemma UnwrittenGrows(l: Log)
    requires !l.writer.Gathered? && ((l.writer.Gathering? || l.writer.Repeated?) ==> l.held.None?)
    ensures var m := Write(l);
            && m.err == l.err
            && (|| (m.diagnostic.taken == l.diagnostic.taken && Unwritten(m) == Unwritten(l))
                || (&& l.diagnostic.queue != []
                    && m.diagnostic.taken == l.diagnostic.taken + [l.diagnostic.queue[0]]
                    && Unwritten(m) == Unwritten(l) + [l.diagnostic.queue[0]]))
  {
    hide Copies;
    match l.writer
    case AtDiagnostics =>
      if l.held.Some? { RepeatAgain(l.held.value, 0); }
      else if l.diagnostic.queue != [] { RepeatAgain(l.diagnostic.queue[0], 0); }
    case Gathering(line, n) => RepeatAgain(line, n);
    case _ =>
  }

  lemma WritesGathered(l: Log)
    requires l.writer.Gathered?
    ensures var m := Write(l); var e := Entry(l.writer.line, l.writer.repetitions);
            && m.err == l.err + [e] && m.diagnostic.taken == l.diagnostic.taken
            && Unwritten(l) == Copies(e.line, e.repetitions) + Unwritten(m)
  {
    hide Copies;
  }

  lemma DiagnosticsInOrder(l: Log)
    requires Ordered(l)
    ensures var m := Write(l); m.diagnostic.taken == Expand(m.err) + Unwritten(m)
  {
    hide Expand, Copies, Write, Unwritten;
    var m := Write(l);
    if l.writer.Gathered? {
      WritesGathered(l);
      ExpandAppend(l.err, Entry(l.writer.line, l.writer.repetitions));
      var r := Copies(l.writer.line, l.writer.repetitions);
      assert Expand(l.err) + (r + Unwritten(m)) == (Expand(l.err) + r) + Unwritten(m);
    } else {
      UnwrittenGrows(l);
      if m.diagnostic.taken != l.diagnostic.taken {
        var x := l.diagnostic.queue[0];
        assert (Expand(l.err) + Unwritten(l)) + [x] == Expand(l.err) + (Unwritten(l) + [x]);
      }
    }
  }

  lemma WriterOrdered(l: Log)
    requires Ordered(l)
    ensures Ordered(Write(l))
  {
    hide Expand, Unwritten;
    DiagnosticsInOrder(l);
    if l.writer.ProtocolTaken? {
      assert l.out + [l.writer.line] + [] == l.out + [l.writer.line];
    } else if Write(l).writer.ProtocolTaken? {
      assert l.out + [] == l.out;
    }
  }

  lemma WriterBursts(l: Log)
    requires Bursts(l)
    ensures Bursts(Write(l))
  {
  }

  // ---------------------------------------------------------------- every run

  lemma StepInv(l: Log, s: Step)
    requires Inv(l) && Enabled(l, s)
    ensures Inv(Next(l, s))
  {
    hide Balanced, Accounted, Ordered, Bursts, CanProduce, Produced, Write;
    match s
    case Producing(p) =>
      forall kind: Kind
        ensures Balanced(Next(l, s), kind) && Accounted(Next(l, s), kind)
      {
        ProducerKeeps(l, p, kind);
      }
      ProducerOrder(l, p);
    case Writing =>
      forall kind: Kind
        ensures Balanced(Next(l, s), kind) && Accounted(Next(l, s), kind)
      {
        WriterKeeps(l, kind);
      }
      WriterOrdered(l);
      WriterBursts(l);
  }

  lemma ProducerOrder(l: Log, s: Produce)
    requires CanProduce(l, s) && Ordered(l) && Bursts(l)
    ensures Ordered(Produced(l, s)) && Bursts(Produced(l, s))
  {
    hide CanProduce, Produced, Expand;
    ProducerFrame(l, s);
    assert Produced(l, s).Of(Diagnostic).taken == l.diagnostic.taken;
    assert Produced(l, s).Of(Protocol).taken == l.protocol.taken;
  }

  lemma {:induction false} RunInv(l: Log, trace: seq<Step>, m: Log)
    requires Inv(l) && Runs(l, trace, m)
    ensures Inv(m)
    decreases |trace|
  {
    hide Inv, Next, Enabled;
    if trace != [] {
      StepInv(l, trace[0]);
      RunInv(Next(l, trace[0]), trace[1..], m);
    }
  }

  lemma NewInv(p: nat, d: nat)
    ensures Inv(New(p, d))
  {
    var l := New(p, d);
    forall kind: Kind, tally: Tally
      ensures At(l.producers, kind, tally) == {}
    {
    }
  }

  lemma ReachableInv(p: nat, d: nat, trace: seq<Step>, l: Log)
    requires Runs(New(p, d), trace, l)
    ensures Inv(l)
  {
    hide Inv;
    NewInv(p, d);
    RunInv(New(p, d), trace, l);
  }

  /** What has gone to a sink, with repetitions written out. */
  function Written(l: Log, kind: Kind): seq<Line> {
    if kind.Protocol? then l.out else Expand(l.err)
  }

  /** The lines of a kind that are on their way through the writer, popped but not written. */
  function Passing(l: Log, kind: Kind): nat {
    match kind
    case Protocol => if l.writer.ProtocolTaken? then 1 else 0
    case Diagnostic => |BeingGathered(l.writer)| + |HeldOver(l)|
  }

  /**
   Accepted lines are written, dropped or outstanding: exactly so whenever the writer is between
   lines with nothing held over and no producer is about to raise the drop counter.
   */
  lemma AcceptedIsAccounted(p: nat, d: nat, trace: seq<Step>, l: Log, kind: Kind)
    requires Runs(New(p, d), trace, l)
    ensures l.Of(kind).outstanding >= 0
    ensures l.Of(kind).accepted == l.Of(kind).retired + l.Of(kind).dropped + l.Of(kind).outstanding
                                   + |At(l.producers, kind, Uncounted)|
    ensures |Written(l, kind)| + Passing(l, kind) == l.Of(kind).retired + InHand(l, kind)
    ensures l.writer.Top? && l.held.None? && At(l.producers, kind, Uncounted) == {} ==>
              l.Of(kind).accepted == |Written(l, kind)| + l.Of(kind).dropped + l.Of(kind).outstanding
  {
    hide Runs, At, Expand;
    ReachableInv(p, d, trace, l);
    assert Balanced(l, kind) && Accounted(l, kind);
  }

  /** With no producer at work and the writer at rest, what is outstanding is what is queued. */
  lemma OutstandingAtRest(p: nat, d: nat, trace: seq<Step>, l: Log, kind: Kind)
    requires Runs(New(p, d), trace, l) && l.producers == map[] && l.writer.Top? && l.held.None?
    ensures l.Of(kind).outstanding == |l.Of(kind).queue|
  {
    ReachableInv(p, d, trace, l);
    assert Balanced(l, kind);
    assert At(l.producers, kind, Holding) == {} == At(l.producers, kind, Victims);
  }

  /** The lines given to a sink, repetitions written out, are the lines popped, in order. */
  lemma WrittenInOrder(p: nat, d: nat, trace: seq<Step>, l: Log)
    requires Runs(New(p, d), trace, l)
    ensures Expand(l.err) <= l.diagnostic.taken && l.out <= l.protocol.taken
    ensures l.writer.Top? && l.held.None? ==> Expand(l.err) == l.diagnostic.taken && l.out == l.protocol.taken
  {
    hide Runs;
    ReachableInv(p, d, trace, l);
    assert Expand(l.err) + [] == Expand(l.err);
  }

  // ---------------------------------------------------------------- waiting diagnostics

  predicate Waiting(l: Log) { l.held.Some? || l.diagnostic.queue != [] }

  /** A diagnostic is waiting throughout, and none is written. */
  predicate Unserved(l: Log, trace: seq<Step>)
    requires Runs(l, trace, Final(l, trace))
    decreases |trace|
  {
    && Waiting(l)
    && (trace != [] ==>
          && !(trace[0].Writing? && l.writer.Gathered?)
          && Unserved(Next(l, trace[0]), trace[1..]))
  }

  function Final(l: Log, trace: seq<Step>): Log
    decreases |trace|
  {
    if trace == [] || !Enabled(l, trace[0]) then l else Final(Next(l, trace[0]), trace[1..])
  }

  /** How many protocol lines the writer writes along the way. */
  function ProtocolLines(l: Log, trace: seq<Step>): nat
    requires Runs(l, trace, Final(l, trace))
    decreases |trace|
  {
    if trace == [] then 0
    else One(trace[0].Writing? && l.writer.ProtocolTaken?) + ProtocolLines(Next(l, trace[0]), trace[1..])
  }

  /** How many more protocol lines the writer can write before it turns to the diagnostics. */
  function Room(l: Log): int {
    match l.writer
    case Top => PROTOCOL_BURST - l.burst
    case ProtocolTaken(_, next) => PROTOCOL_BURST - next + 1
    case ProtocolWritten(next) => PROTOCOL_BURST - next
    case AtTail => PROTOCOL_BURST
    case DiagnosticWritten => PROTOCOL_BURST
    case _ => 0
  }

  lemma RoomShrinks(l: Log, s: Step)
    requires Enabled(l, s) && Waiting(l) && Bursts(l) && !(s.Writing? && l.writer.Gathered?)
    ensures Room(Next(l, s)) + One(s.Writing? && l.writer.ProtocolTaken?) <= Room(l)
    ensures Bursts(Next(l, s)) && 0 <= Room(l) <= PROTOCOL_BURST
  {
  }

  /**
   While a diagnostic keeps waiting, at most 32 protocol lines are written before one diagnostic is,
   however the producers interleave.
   */
  lemma {:induction false} BurstIsBounded(l: Log, trace: seq<Step>)
    requires Bursts(l) && Runs(l, trace, Final(l, trace)) && Unserved(l, trace)
    ensures ProtocolLines(l, trace) <= Room(l) <= PROTOCOL_BURST
    decreases |trace|
  {
    if trace != [] {
      hide Next, Enabled;
      RoomShrinks(l, trace[0]);
      BurstIsBounded(Next(l, trace[0]), trace[1..]);
    }
  }

  // ---------------------------------------------------------------- a producer's attempts

  function Tries(trace: seq<Step>, t: nat): nat
    decreases |trace|
  {
    if trace == [] then 0 else One(trace[0] == Producing(TryPush(t))) + Tries(trace[1..], t)
  }

  /** Thread `t` neither gets its line in nor returns along the way. */
  predicate Stays(l: Log, t: nat, trace: seq<Step>)
    requires Runs(l, trace, Final(l, trace))
    decreases |trace|
  {
    t in l.producers && (trace != [] ==> Stays(Next(l, trace[0]), t, trace[1..]))
  }

  /** The pushes a producer may still try. */
  function Owed(p: Producer): nat {
    match p.stage
    case Trying => p.left
    case GivingUp => 0
    case Ending => 0
    case _ => if p.left == 0 then 0 else p.left - 1
  }

  predicate HasTries(p: Producer) { p.stage.GivingUp? || p.stage.Ending? || 1 <= p.left }

  lemma TriesStep(l: Log, s: Step, t: nat)
    requires Enabled(l, s) && t in l.producers && HasTries(l.producers[t]) && t in Next(l, s).producers
    ensures var p := Next(l, s).producers[t];
            HasTries(p) && Owed(l.producers[t]) == Owed(p) + One(s == Producing(TryPush(t)))
  {
    hide Write, Produced, CanProduce, Owed, HasTries;
    if s.Writing? {
      WriterCounts(l, Protocol);
    } else if s.step.thread == t {
      TriesOwn(l, s.step);
    } else {
      ProducersAfter(l, s.step);
    }
  }

  lemma TriesOwn(l: Log, s: Produce)
    requires CanProduce(l, s) && s.thread in l.producers && HasTries(l.producers[s.thread])
    requires s.thread in Produced(l, s).producers
    ensures var p := Produced(l, s).producers[s.thread];
            HasTries(p) && Owed(l.producers[s.thread]) == Owed(p) + One(s.TryPush?)
  {
  }

  lemma {:induction false} TriesAlong(l: Log, t: nat, trace: seq<Step>)
    requires Runs(l, trace, Final(l, trace)) && Stays(l, t, trace) && HasTries(l.producers[t])
    ensures var m := Final(l, trace);
            t in m.producers && Tries(trace, t) + Owed(m.producers[t]) == Owed(l.producers[t])
    decreases |trace|
  {
    if trace != [] {
      hide Next, Enabled, Owed, HasTries;
      TriesStep(l, trace[0], t);
      TriesAlong(Next(l, trace[0]), t, trace[1..]);
    }
  }

  /** A line is given up for lost only after exactly four failed pushes, however the threads interleave. */
  lemma GivesUpAfterFour(l: Log, t: nat, kind: Kind, line: Line, trace: seq<Step>)
    requires CanProduce(l, Announce(t, kind, line))
    requires var a := Produced(l, Announce(t, kind, line));
             Runs(a, trace, Final(a, trace)) && Stays(a, t, trace) && InStage(Final(a, trace), t, GivingUp)
    ensures Tries(trace, t) == 4
  {
    TriesAlong(Produced(l, Announce(t, kind, line)), t, trace);
  }

  // ---------------------------------------------------------------- undisturbed calls

  /** A producer that is not interrupted. */
  function Logging(l: Log, t: nat, kind: Kind, line: Line): seq<Step> {
    var first := [Producing(Announce(t, kind, line)), Producing(TryPush(t))];
    if |l.Of(kind).queue| < l.Of(kind).capacity then first
    else first + [Producing(Evict(t)), Producing(Lower(t)), Producing(Count(t)), Producing(TryPush(t))]
  }

  /** Its line goes in at the end; on a full queue the oldest makes way and is counted as dropped. */
  lemma LogsExactly(l: Log, t: nat, kind: Kind, line: Line)
    requires t !in l.producers && 0 < l.Of(kind).capacity && |l.Of(kind).queue| <= l.Of(kind).capacity
    ensures var lane := l.Of(kind);
            Runs(l, Logging(l, t, kind, line),
                 l.With(kind, if |lane.queue| < lane.capacity then
                                lane.(queue := lane.queue + [line], outstanding := lane.outstanding + 1,
                                      accepted := lane.accepted + 1)
                              else
                                lane.(queue := lane.queue[1..] + [line], dropped := lane.dropped + 1,
                                      accepted := lane.accepted + 1)))
  {
    hide Runs, Produced, CanProduce;
    if |l.Of(kind).queue| < l.Of(kind).capacity {
      PushesIn(l, t, kind, line);
      RunsTwo(l, Announce(t, kind, line), TryPush(t));
    } else {
      EvictsOne(l, t, kind, line);
      var a := Produced(Produced(l, Announce(t, kind, line)), TryPush(t));
      var b := Produced(Produced(a, Evict(t)), Lower(t));
      RunsTwo(l, Announce(t, kind, line), TryPush(t));
      RunsTwo(a, Evict(t), Lower(t));
      RunsTwo(b, Count(t), TryPush(t));
      var first := [Producing(Announce(t, kind, line)), Producing(TryPush(t))];
      RunsOn(a, [Producing(Evict(t)), Producing(Lower(t))], b, [Producing(Count(t)), Producing(TryPush(t))],
             Produced(Produced(b, Count(t)), TryPush(t)));
      RunsOn(l, first, a,
             [Producing(Evict(t)), Producing(Lower(t))] + [Producing(Count(t)), Producing(TryPush(t))],
             Produced(Produced(b, Count(t)), TryPush(t)));
      assert Logging(l, t, kind, line) ==
             first + ([Producing(Evict(t)), Producing(Lower(t))] + [Producing(Count(t)), Producing(TryPush(t))]);
    }
  }

  lemma RunsTwo(l: Log, s: Produce, s': Produce)
    requires CanProduce(l, s) && CanProduce(Produced(l, s), s')
    ensures Runs(l, [Producing(s), Producing(s')], Produced(Produced(l, s), s'))
  {
    hide CanProduce, Produced;
    assert [Producing(s), Producing(s')][1..] == [Producing(s')];
    assert Runs(Produced(l, s), [Producing(s')], Produced(Produced(l, s), s'));
  }

  lemma {:induction false} RunsOn(l: Log, first: seq<Step>, m: Log, second: seq<Step>, n: Log)
    requires Runs(l, first, m) && Runs(m, second, n)
    ensures Runs(l, first + second, n)
    decreases |first|
  {
    hide Next, Enabled;
    if first == [] {
      assert first + second == second;
    } else {
      RunsOn(Next(l, first[0]), first[1..], m, second, n);
      assert (first + second)[1..] == first[1..] + second;
    }
  }

  /** A lane with room takes the line. */
  lemma PushesIn(l: Log, t: nat, kind: Kind, line: Line)
    requires t !in l.producers && |l.Of(kind).queue| < l.Of(kind).capacity
    ensures CanProduce(l, Announce(t, kind, line)) && CanProduce(Produced(l, Announce(t, kind, line)), TryPush(t))
    ensures var lane := l.Of(kind);
            Produced(Produced(l, Announce(t, kind, line)), TryPush(t))
            == l.With(kind, lane.(queue := lane.queue + [line], outstanding := lane.outstanding + 1,
                                  accepted := lane.accepted + 1))
  {
    assert Produced(l, Announce(t, kind, line)).producers - {t} == l.producers;
  }

  /** The producer on its way through a full lane: announced and refused. */
  function Refused(l: Log, t: nat, kind: Kind, line: Line): Log {
    var lane := l.Of(kind);
    Put(l.With(kind, lane.(outstanding := lane.outstanding + 1, accepted := lane.accepted + 1)), t,
        Producer(kind, Full, line, ATTEMPTS))
  }

  lemma IsRefused(l: Log, t: nat, kind: Kind, line: Line)
    requires t !in l.producers && |l.Of(kind).queue| == l.Of(kind).capacity
    ensures CanProduce(l, Announce(t, kind, line)) && CanProduce(Produced(l, Announce(t, kind, line)), TryPush(t))
    ensures Produced(Produced(l, Announce(t, kind, line)), TryPush(t)) == Refused(l, t, kind, line)
  {
  }

  lemma MakesRoom(l: Log, t: nat)
    requires InStage(l, t, Full) && l.Of(l.producers[t].kind).queue != []
    ensures var p := l.producers[t]; var lane := l.Of(p.kind);
            && CanProduce(l, Evict(t)) && CanProduce(Produced(l, Evict(t)), Lower(t))
            && Produced(Produced(l, Evict(t)), Lower(t)) ==
               Put(l.With(p.kind, lane.(queue := lane.queue[1..], outstanding := lane.outstanding - 1)), t,
                   p.(stage := Counting))
  {
  }

  lemma CountsAndPushes(l: Log, t: nat)
    requires InStage(l, t, Counting) && 2 <= l.producers[t].left
    requires var lane := l.Of(l.producers[t].kind); |lane.queue| < lane.capacity
    ensures var p := l.producers[t]; var lane := l.Of(p.kind);
            && CanProduce(l, Count(t)) && CanProduce(Produced(l, Count(t)), TryPush(t))
            && Produced(Produced(l, Count(t)), TryPush(t)) ==
               l.With(p.kind, lane.(queue := lane.queue + [p.line], dropped := lane.dropped + 1))
                .(producers := l.producers - {t})
  {
    assert l.producers[t := Again(l.producers[t])] - {t} == l.producers - {t};
  }

  /** A full lane makes way: the oldest line goes, and is counted as dropped. */
  lemma EvictsOne(l: Log, t: nat, kind: Kind, line: Line)
    requires t !in l.producers && 0 < l.Of(kind).capacity == |l.Of(kind).queue|
    ensures CanProduce(l, Announce(t, kind, line)) && CanProduce(Produced(l, Announce(t, kind, line)), TryPush(t))
    ensures var a := Produced(Produced(l, Announce(t, kind, line)), TryPush(t)); var lane := l.Of(kind);
            && CanProduce(a, Evict(t)) && CanProduce(Produced(a, Evict(t)), Lower(t))
            && var b := Produced(Produced(a, Evict(t)), Lower(t));
            && CanProduce(b, Count(t)) && CanProduce(Produced(b, Count(t)), TryPush(t))
            && Produced(Produced(b, Count(t)), TryPush(t)) ==
               l.With(kind, lane.(queue := lane.queue[1..] + [line], dropped := lane.dropped + 1,
                                  accepted := lane.accepted + 1))
  {
    hide Produced, CanProduce;
    IsRefused(l, t, kind, line);
    var a := Refused(l, t, kind, line);
    MakesRoom(a, t);
    var b := Produced(Produced(a, Evict(t)), Lower(t));
    CountsAndPushes(b, t);
    assert b.producers - {t} == l.producers;
  }

  /** The writer left to itself for `n` steps. */
  function Writes(l: Log, n: nat): Log
    decreases n
  {
    if n == 0 then l else Writes(Write(l), n - 1)
  }

  /** The writer is between lines and nothing waits. */
  predicate Idle(l: Log) { l.writer.Top? && l.protocol.queue == [] && l.diagnostic.queue == [] && l.held.None? }

  /** The lines that wait, and are not yet in the writer's hands. */
  function Pending(l: Log): nat { |l.protocol.queue| + |l.diagnostic.queue| + One(l.held.Some?) }

  /** Falls with every step of the writer until it is idle. */
  function Rank(l: Log): nat {
    10 * Pending(l) +
    (match l.writer
     case Top => 5
     case AtDiagnostics => 4
     case AtTail => if l.protocol.queue == [] && (l.diagnostic.queue != [] || l.held.Some?) then 6 else 3
     case Gathering(_, _) => 8
     case Repeated(_, _) => 9
     case Gathered(_, _) => 7
     case DiagnosticWritten => 6
     case ProtocolTaken(_, _) => 7
     case ProtocolWritten(_) => 6)
  }

  lemma RankFalls(l: Log)
    requires !Idle(l) && !Idle(Write(l)) && (l.writer.Gathering? ==> l.held.None?)
    ensures Rank(Write(l)) < Rank(l)
  {
  }

  lemma {:induction false} DrainsFrom(l: Log) returns (n: nat)
    requires Ordered(l)
    ensures Idle(Writes(l, n)) && Ordered(Writes(l, n))
    ensures Writes(l, n).diagnostic.taken == l.diagnostic.taken + l.diagnostic.queue
    ensures Writes(l, n).protocol.taken == l.protocol.taken + l.protocol.queue
    decreases Rank(l)
  {
    hide Ordered, Rank, Write;
    if Idle(l) {
      n := 0;
      assert l.diagnostic.taken + [] == l.diagnostic.taken && l.protocol.taken + [] == l.protocol.taken;
    } else {
      WriterOrdered(l);
      GathersBare(l);
      WriteTakes(l);
      if Idle(Write(l)) {
        n := 1;
        assert Writes(l, 1) == Writes(Write(l), 0);
      } else {
        RankFalls(l);
        var k := DrainsFrom(Write(l));
        n := k + 1;
      }
    }
  }

  lemma GathersBare(l: Log)
    requires Ordered(l)
    ensures l.writer.Gathering? ==> l.held.None?
  {
  }

  /** What the writer has taken and what it has still to take make up the same lines. */
  lemma WriteTakes(l: Log)
    ensures var m := Write(l);
            && m.diagnostic.taken + m.diagnostic.queue == l.diagnostic.taken + l.diagnostic.queue
            && m.protocol.taken + m.protocol.queue == l.protocol.taken + l.protocol.queue
  {
    TakenKeeps(l.diagnostic);
    TakenKeeps(l.protocol);
  }

  lemma TakenKeeps(lane: Lane)
    ensures lane.queue != [] ==> Taken(lane).taken + Taken(lane).queue == lane.taken + lane.queue
  {
    if lane.queue != [] { assert lane.queue == [lane.queue[0]] + lane.queue[1..]; }
  }

  /** Left to itself the writer comes to rest, every line that was on its way written, in order. */
  lemma Drains(p: nat, d: nat, trace: seq<Step>, l: Log) returns (n: nat)
    requires Runs(New(p, d), trace, l)
    ensures var m := Writes(l, n);
            && Idle(m) && m.out == l.out + Passed(l) + l.protocol.queue
            && Expand(m.err) == Expand(l.err) + Unwritten(l) + l.diagnostic.queue
  {
    hide Runs, Idle, Expand, Writes, Unwritten;
    ReachableInv(p, d, trace, l);
    n := DrainsFrom(l);
    IdleWritten(Writes(l, n));
  }

  /** The protocol line that was popped and is not written. */
  function Passed(l: Log): seq<Line> { if l.writer.ProtocolTaken? then [l.writer.line] else [] }

  lemma IdleWritten(l: Log)
    requires Ordered(l) && Idle(l)
    ensures l.out == l.protocol.taken && Expand(l.err) == l.diagnostic.taken
  {
    assert Unwritten(l) == [];
  }

  // ---------------------------------------------------------------- bursts and repetitions

  /** From the top of its loop the writer writes the waiting protocol lines first, up to the burst. */
  lemma {:induction false} BurstIsUsed(l: Log, k: nat)
    requires l.writer.Top? && k <= |l.protocol.queue| && l.burst + k <= 32
    ensures var m := Writes(l, 3 * k);
            && m.writer.Top? && m.out == l.out + l.protocol.queue[..k] && m.burst == l.burst + k
            && m.protocol.queue == l.protocol.queue[k..] && m.diagnostic == l.diagnostic && m.err == l.err
    decreases k
  {
    if k > 0 {
      var m := Write(Write(Write(l)));
      ThreeWrites(l, 3 * (k - 1));
      assert m.out == l.out + [l.protocol.queue[0]] && m.protocol.queue == l.protocol.queue[1..];
      BurstIsUsed(m, k - 1);
      assert l.protocol.queue[..k] == [l.protocol.queue[0]] + l.protocol.queue[1..][..k - 1];
    }
  }

  lemma ThreeWrites(l: Log, n: nat)
    ensures Writes(l, n + 3) == Writes(Write(Write(Write(l))), n)
  {
    hide Write;
    assert Writes(l, n + 3) == Writes(Write(l), n + 2) == Writes(Write(Write(l)), n + 1);
  }

  lemma TwoWrites(l: Log)
    ensures Writes(l, 2) == Write(Write(l)) && Writes(l, 5) == Writes(Writes(l, 2), 3)
  {
    hide Write;
    assert Writes(l, 2) == Writes(Write(l), 1) == Writes(Write(Write(l)), 0);
    assert Writes(l, 5) == Writes(Write(l), 4) == Writes(Write(Write(l)), 3);
  }

  /** The burst used up or no protocol line waiting, it takes the diagnostic held over, or else the oldest queued. */
  lemma TurnsToDiagnostics(l: Log)
    requires l.writer.Top? && (l.burst >= 32 || l.protocol.queue == [])
    ensures var m := Writes(l, 2);
            && (l.held.Some? ==> m == l.(held := None, writer := Gathering(l.held.value, 1)))
            && (l.held.None? && l.diagnostic.queue != [] ==>
                  && m.writer == Gathering(l.diagnostic.queue[0], 1)
                  && m.diagnostic.queue == l.diagnostic.queue[1..])
            && (!Waiting(l) ==> m == l.(writer := AtTail))
  {
    hide Writes;
    TwoWrites(l);
  }

  /** With no diagnostic there either, it writes one protocol line after all, and the burst starts with it. */
  lemma TurnsBackToProtocol(l: Log)
    requires l.writer.Top? && !Waiting(l) && l.burst >= 32 && l.protocol.queue != []
    ensures var n := Writes(l, 5);
            && n.writer.Top? && n.out == l.out + [l.protocol.queue[0]] && n.burst == 1
            && n.protocol.queue == l.protocol.queue[1..]
  {
    TurnsToDiagnostics(l);
    hide Writes;
    TwoWrites(l);
    TailLine(l.(writer := AtTail));
  }

  lemma TailLine(l: Log)
    requires l.writer.AtTail? && l.protocol.queue != []
    ensures var n := Writes(l, 3);
            && n.writer.Top? && n.out == l.out + [l.protocol.queue[0]] && n.burst == 1
            && n.protocol.queue == l.protocol.queue[1..]
  {
    ThreeWrites(l, 0);
  }

  /** The steps it takes to write a diagnostic that comes up `k` more times. */
  function GatheringSteps(n: nat, k: nat): nat
    requires n <= 64
  {
    2 * Min(k, 64 - n) + 3
  }

  /**
   A diagnostic and its repetitions right behind it become one entry that counts them, up to 64, and
   the burst starts anew; the first different diagnostic is held over.
   */
  lemma {:induction false} Coalesces(l: Log, k: nat, rest: seq<Line>)
    requires l.writer.Gathering? && 1 <= l.writer.repetitions <= 64 && l.held.None?
    requires l.diagnostic.queue == Copies(l.writer.line, k) + rest && (rest != [] ==> rest[0] != l.writer.line)
    ensures var n := l.writer.repetitions; var m := Writes(l, GatheringSteps(n, k));
            && m.writer.Top? && m.burst == 0 && m.err == l.err + [Entry(l.writer.line, Min(n + k, 64))]
            && (n + k < 64 && rest != [] ==> m.held == Some(rest[0]) && m.diagnostic.queue == rest[1..])
            && (n + k < 64 && rest == [] ==> m.held.None? && m.diagnostic.queue == [])
            && (n + k >= 64 ==>
                  m.held.None? && m.diagnostic.queue == Copies(l.writer.line, n + k - 64) + rest)
    decreases k
  {
    var n := l.writer.repetitions;
    if k == 0 || n == 64 {
      GatheredIsWritten(l);
      assert k == 0 ==> l.diagnostic.queue == rest;
    } else {
      OneMore(l, k, rest);
      var m := Write(Write(l));
      hide Write;
      Coalesces(m, k - 1, rest);
      var steps := GatheringSteps(n + 1, k - 1);
      assert Writes(l, steps + 2) == Writes(Write(l), steps + 1) == Writes(m, steps);
    }
  }

  /** One more repetition is taken and counted. */
  lemma OneMore(l: Log, k: nat, rest: seq<Line>)
    requires l.writer.Gathering? && l.writer.repetitions < 64 && k > 0
    requires l.diagnostic.queue == Copies(l.writer.line, k) + rest
    ensures var m := Write(Write(l));
            && m.writer == Gathering(l.writer.line, l.writer.repetitions + 1) && m.held == l.held && m.err == l.err
            && m.diagnostic.queue == Copies(l.writer.line, k - 1) + rest
  {
    assert Copies(l.writer.line, k) == [l.writer.line] + Copies(l.writer.line, k - 1);
    assert l.diagnostic.queue[1..] == Copies(l.writer.line, k - 1) + rest;
  }

  /** A diagnostic with no further repetition at hand is written, and what was popped behind it held over. */
  lemma GatheredIsWritten(l: Log)
    requires l.writer.Gathering? && l.held.None?
    requires l.writer.repetitions >= 64 || l.diagnostic.queue == [] || l.diagnostic.queue[0] != l.writer.line
    ensures var m := Writes(l, 3);
            && m.writer.Top? && m.burst == 0 && m.err == l.err + [Entry(l.writer.line, l.writer.repetitions)]
            && (if l.writer.repetitions < 64 && l.diagnostic.queue != [] then
                  m.held == Some(l.diagnostic.queue[0]) && m.diagnostic.queue == l.diagnostic.queue[1..]
                else m.held.None? && m.diagnostic.queue == l.diagnostic.queue)
  {
    ThreeWrites(l, 0);
  }
}
