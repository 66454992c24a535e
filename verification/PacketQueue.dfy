/**
 The epoch-tagged packet queue between any number of senders and one receiver. A sender reads the
 state word and pushes in two separate steps; `resume`, `suspend`, `purge` and `try_recv` of the
 receiver interleave with them step by step.
 */
module PacketQueue {
  import opened Bytes

  /** The state word keeps the epoch in its upper 63 bits; a larger epoch loses its top bit. */
  const EPOCHS: nat := 0x8000_0000_0000_0000

  /**
   What a sender read of the state word. `at` is how often the queue had been resumed by then and `seen`
   how often the word had been written; both only record history.
   */
  datatype Reading = Reading(tag: nat, at: nat, seen: nat)

  /** A queued packet with what its sender read. `stamp` counts pushes and only records history. */
  datatype Item = Item(packet: nat, read: Reading, stamp: nat)

  datatype Sender =
    | Begun(packet: nat, force: bool)
    | Ready(packet: nat, force: bool, read: Reading)

  datatype Receiver =
    | Resting
    | Holding(item: Item)
    | ResumeLoaded(epoch: nat)
    | ResumePurging(epoch: nat)
    | ResumeDrained(epoch: nat)
    | SuspendLoaded(epoch: nat)
    | SuspendPurging
    | ClosePurging
    | Closed

  datatype Fate = Rejected | Evicted | Purged | Stale | Delivered

  /** `writes`, `resumes`, `pushes`, `submitted`, `fates` and `delivered` only record history. */
  datatype Channel = Channel(
    capacity: nat,
    items: seq<Item>,
    epoch: nat,
    active: bool,
    open: bool,
    senders: map<nat, Sender>,
    receiver: Receiver,
    writes: nat,
    resumes: nat,
    pushes: nat,
    submitted: set<nat>,
    fates: map<nat, Fate>,
    delivered: seq<Item>)

  function New(capacity: nat, active: bool): Channel {
    Channel(Max(capacity, 1), [], 0, active, true, map[], Resting, 0, 0, 0, {}, map[], [])
  }

  function Truncated(epoch: nat): nat {
    if epoch == EPOCHS then 0 else epoch
  }

  // ---------------------------------------------------------------- atomic steps

  datatype Step =
    | Begin(thread: nat, packet: nat, force: bool)
    | Load(thread: nat)
    | Push(thread: nat)
    | Pop
    | Check
    | ResumeLoad
    | ResumeMark
    | PurgePop
    | PurgeEnd
    | ResumeOpen
    | SuspendLoad
    | SuspendMark
    | Close

  predicate Purging(r: Receiver) {
    r.ResumePurging? || r.SuspendPurging? || r.ClosePurging?
  }

  predicate Enabled(c: Channel, s: Step) {
    match s
    case Begin(t, packet, _) => t !in c.senders && packet !in c.submitted
    case Load(t) => t in c.senders && c.senders[t].Begun?
    case Push(t) => t in c.senders && c.senders[t].Ready?
    case Pop => c.receiver.Resting? && c.items != []
    case Check => c.receiver.Holding?
    case ResumeLoad => c.receiver.Resting?
    case ResumeMark => c.receiver.ResumeLoaded?
    case PurgePop => Purging(c.receiver) && c.items != []
    case PurgeEnd => Purging(c.receiver) && c.items == []
    case ResumeOpen => c.receiver.ResumeDrained?
    case SuspendLoad => c.receiver.Resting?
    case SuspendMark => c.receiver.SuspendLoaded?
    case Close => c.receiver.Resting?
  }

  function Settled(c: Channel, packet: nat, fate: Fate): Channel {
    c.(fates := c.fates[packet := fate])
  }

  function Refused(c: Channel, t: nat): Channel
    requires t in c.senders
  {
    Settled(c, c.senders[t].packet, Rejected).(senders := c.senders - {t})
  }

  function NextSend(c: Channel, s: Step): Channel
    requires Enabled(c, s) && Sends(s)
  {
    match s
    case Begin(t, packet, force) =>
      var d := c.(submitted := c.submitted + {packet});
      if c.open then d.(senders := c.senders[t := Begun(packet, force)]) else Settled(d, packet, Rejected)
    case Load(t) =>
      var b := c.senders[t];
      if c.active then c.(senders := c.senders[t := Ready(b.packet, b.force, Reading(c.epoch, c.resumes, c.writes))])
      else Refused(c, t)
    case Push(t) =>
      var b := c.senders[t];
      var item := Item(b.packet, b.read, c.pushes);
      if |c.items| < c.capacity then
        c.(items := c.items + [item], pushes := c.pushes + 1, senders := c.senders - {t})
      else if b.force && c.items != [] then
        Settled(c, c.items[0].packet, Evicted)
        .(items := c.items[1..] + [item], pushes := c.pushes + 1, senders := c.senders - {t})
      else Refused(c, t)
  }

  function NextReceive(c: Channel, s: Step): Channel
    requires Enabled(c, s) && !Sends(s)
  {
    match s
    case Pop => c.(items := c.items[1..], receiver := Holding(c.items[0]))
    case Check =>
      var item := c.receiver.item;
      if c.active && item.read.tag == c.epoch then
        Settled(c, item.packet, Delivered).(receiver := Resting, delivered := c.delivered + [item])
      else Settled(c, item.packet, Stale).(receiver := Resting)
    case ResumeLoad => c.(receiver := ResumeLoaded(c.epoch))
    case ResumeMark =>
      var epoch := Truncated(c.receiver.epoch + 1);
      c.(epoch := epoch, active := false, writes := c.writes + 1, resumes := c.resumes + 1,
         receiver := ResumePurging(epoch))
    case PurgePop => Settled(c, c.items[0].packet, Purged).(items := c.items[1..])
    case PurgeEnd =>
      c.(receiver := match c.receiver
                     case ResumePurging(epoch) => ResumeDrained(epoch)
                     case SuspendPurging => Resting
                     case _ => Closed)
    case ResumeOpen =>
      c.(epoch := c.receiver.epoch, active := true, writes := c.writes + 1, receiver := Resting)
    case SuspendLoad => c.(receiver := SuspendLoaded(c.epoch))
    case SuspendMark =>
      c.(epoch := c.receiver.epoch, active := false, writes := c.writes + 1, receiver := SuspendPurging)
    case Close => c.(open := false, receiver := ClosePurging)
  }

  predicate Sends(s: Step) {
    s.Begin? || s.Load? || s.Push?
  }

  function Next(c: Channel, s: Step): Channel
    requires Enabled(c, s)
  {
    if Sends(s) then NextSend(c, s) else NextReceive(c, s)
  }

  predicate Runs(c: Channel, trace: seq<Step>, d: Channel)
    decreases |trace|
  {
    if trace == [] then c == d
    else Enabled(c, trace[0]) && Runs(Next(c, trace[0]), trace[1..], d)
  }

  // ---------------------------------------------------------------- epochs

  /** The epoch in the state word after so many resumes. */
  function Word(resumes: nat): nat { resumes % EPOCHS }

  lemma NextWord(resumes: nat)
    ensures Truncated(Word(resumes) + 1) == Word(resumes + 1)
  {
  }

  /** Two counts of resumes look alike exactly if they are a multiple of 2^63 apart. */
  lemma SameWord(a: nat, b: nat)
    requires a <= b
    ensures Word(a) == Word(b) <==> (b - a) % EPOCHS == 0
    ensures Word(a) == Word(b) && b < a + EPOCHS ==> a == b
  {
  }

  /** A reading of the state word, against the word as it is now. */
  predicate TagOk(c: Channel, read: Reading) {
    && read.tag == Word(read.at) && read.at <= c.resumes && read.seen <= c.writes
    && (read.at < c.resumes ==> read.seen < c.writes)
    && (c.active && read.at == c.resumes ==> read.seen == c.writes)
    && (c.receiver.ResumePurging? || c.receiver.ResumeDrained? ==> read.at < c.resumes)
  }

  predicate WordOk(c: Channel) {
    && c.epoch == Word(c.resumes)
    && (c.receiver.ResumeLoaded? || c.receiver.SuspendLoaded? ==> c.receiver.epoch == c.epoch)
    && (c.receiver.ResumePurging? || c.receiver.ResumeDrained? ==> c.receiver.epoch == c.epoch)
    && (c.receiver.ResumePurging? || c.receiver.ResumeDrained? ==> !c.active)
  }

  predicate TagsOk(c: Channel) {
    && (forall i :: 0 <= i < |c.items| ==> TagOk(c, c.items[i].read))
    && (forall t :: t in c.senders && c.senders[t].Ready? ==> TagOk(c, c.senders[t].read))
    && (c.receiver.Holding? ==> TagOk(c, c.receiver.item.read))
  }

  lemma StepWord(c: Channel, s: Step)
    requires WordOk(c) && Enabled(c, s)
    ensures WordOk(Next(c, s))
  {
    hide Word, Truncated;
    NextWord(c.resumes);
  }

  lemma StepTag(c: Channel, s: Step, read: Reading)
    requires WordOk(c) && TagOk(c, read) && Enabled(c, s)
    ensures TagOk(Next(c, s), read)
  {
    hide Word, Truncated;
  }

  lemma LoadedTag(c: Channel, t: nat)
    requires WordOk(c) && Enabled(c, Load(t)) && c.active
    ensures TagOk(Next(c, Load(t)), Reading(c.epoch, c.resumes, c.writes))
  {
    hide Word;
  }

  lemma StepTags(c: Channel, s: Step)
    requires WordOk(c) && TagsOk(c) && Enabled(c, s)
    ensures TagsOk(Next(c, s))
  {
    hide TagOk, WordOk;
    var d := Next(c, s);
    forall i | 0 <= i < |d.items|
      ensures TagOk(d, d.items[i].read)
    {
      ItemTag(c, s, i);
    }
    forall t | t in d.senders && d.senders[t].Ready?
      ensures TagOk(d, d.senders[t].read)
    {
      SenderTag(c, s, t);
    }
    if d.receiver.Holding? {
      ReceiverTag(c, s);
    }
  }

  lemma ItemTag(c: Channel, s: Step, i: nat)
    requires WordOk(c) && TagsOk(c) && Enabled(c, s) && i < |Next(c, s).items|
    ensures TagOk(Next(c, s), Next(c, s).items[i].read)
  {
    hide TagOk, WordOk;
    var item := Next(c, s).items[i];
    if s.Push? && i == |Next(c, s).items| - 1 && item.stamp == c.pushes && item !in c.items {
      assert TagOk(c, c.senders[s.thread].read);
    } else {
      assert item in c.items;
    }
    StepTag(c, s, item.read);
  }

  lemma SenderTag(c: Channel, s: Step, t: nat)
    requires WordOk(c) && TagsOk(c) && Enabled(c, s)
    requires t in Next(c, s).senders && Next(c, s).senders[t].Ready?
    ensures TagOk(Next(c, s), Next(c, s).senders[t].read)
  {
    hide TagOk, WordOk;
    if s == Load(t) {
      LoadedTag(c, t);
    } else {
      assert TagOk(c, c.senders[t].read);
      StepTag(c, s, c.senders[t].read);
    }
  }

  lemma ReceiverTag(c: Channel, s: Step)
    requires WordOk(c) && TagsOk(c) && Enabled(c, s)
    requires Next(c, s).receiver.Holding?
    ensures TagOk(Next(c, s), Next(c, s).receiver.item.read)
  {
    hide TagOk, WordOk;
    var item := Next(c, s).receiver.item;
    if s.Pop? { assert item == c.items[0]; }
    StepTag(c, s, item.read);
  }

  // ---------------------------------------------------------------- one fate for every packet

  datatype Place = WithSender(thread: nat) | InQueue(index: nat) | WithReceiver | AtRest

  predicate Holds(c: Channel, place: Place, packet: nat) {
    match place
    case WithSender(t) => t in c.senders && c.senders[t].packet == packet
    case InQueue(i) => i < |c.items| && c.items[i].packet == packet
    case WithReceiver => c.receiver.Holding? && c.receiver.item.packet == packet
    case AtRest => packet in c.fates
  }

  ghost predicate Held(c: Channel, packet: nat) {
    exists place :: Holds(c, place, packet)
  }

  /** A packet is in one place at most, and somewhere exactly when it was submitted. */
  ghost predicate Owned(c: Channel) {
    && (forall a, b, packet: nat {:trigger Holds(c, a, packet), Holds(c, b, packet)} ::
          Holds(c, a, packet) && Holds(c, b, packet) ==> a == b)
    && (forall packet: nat :: Held(c, packet) <==> packet in c.submitted)
  }

  /** The place a packet came from, given where a step has left it. */
  function Before(c: Channel, s: Step, place: Place, packet: nat): Place
    requires Enabled(c, s)
  {
    match s
    case Load(t) => if place.AtRest? && !c.active && packet == c.senders[t].packet then WithSender(t) else place
    case Push(t) =>
      var b := c.senders[t];
      if |c.items| < c.capacity then
        if place == InQueue(|c.items|) then WithSender(t) else place
      else if b.force && c.items != [] then
        if place == InQueue(|c.items| - 1) then WithSender(t)
        else if place.InQueue? then InQueue(place.index + 1)
        else if place.AtRest? && packet == c.items[0].packet then InQueue(0)
        else place
      else if place.AtRest? && packet == b.packet then WithSender(t)
      else place
    case Pop =>
      if place.InQueue? then InQueue(place.index + 1)
      else if place.WithReceiver? then InQueue(0)
      else place
    case Check => if place.AtRest? && packet == c.receiver.item.packet then WithReceiver else place
    case PurgePop =>
      if place.InQueue? then InQueue(place.index + 1)
      else if place.AtRest? && packet == c.items[0].packet then InQueue(0)
      else place
    case _ => place
  }

  /** The place a step moves a packet to. */
  function After(c: Channel, s: Step, place: Place): Place
    requires Enabled(c, s)
  {
    match s
    case Load(t) => if place == WithSender(t) && !c.active then AtRest else place
    case Push(t) =>
      var b := c.senders[t];
      if |c.items| < c.capacity then
        if place == WithSender(t) then InQueue(|c.items|) else place
      else if b.force && c.items != [] then
        if place == WithSender(t) then InQueue(|c.items| - 1)
        else if place == InQueue(0) then AtRest
        else if place.InQueue? then InQueue(place.index - 1)
        else place
      else if place == WithSender(t) then AtRest
      else place
    case Pop =>
      if place == InQueue(0) then WithReceiver
      else if place.InQueue? then InQueue(place.index - 1)
      else place
    case Check => if place.WithReceiver? then AtRest else place
    case PurgePop =>
      if place == InQueue(0) then AtRest
      else if place.InQueue? then InQueue(place.index - 1)
      else place
    case _ => place
  }

  lemma Traced(c: Channel, s: Step, place: Place, packet: nat)
    requires Enabled(c, s) && Holds(Next(c, s), place, packet)
    ensures (s.Begin? && packet == s.packet) || Holds(c, Before(c, s, place, packet), packet)
  {
    hide NextSend, NextReceive, Enabled, Holds, Before;
    if Sends(s) { SendTraced(c, s, place, packet); } else { ReceiveTraced(c, s, place, packet); }
  }

  lemma SendTraced(c: Channel, s: Step, place: Place, packet: nat)
    requires Enabled(c, s) && Sends(s) && Holds(NextSend(c, s), place, packet)
    ensures (s.Begin? && packet == s.packet) || Holds(c, Before(c, s, place, packet), packet)
  {
  }

  lemma ReceiveTraced(c: Channel, s: Step, place: Place, packet: nat)
    requires Enabled(c, s) && !Sends(s) && Holds(NextReceive(c, s), place, packet)
    ensures Holds(c, Before(c, s, place, packet), packet)
  {
  }

  lemma Moves(c: Channel, s: Step, place: Place, packet: nat)
    requires Enabled(c, s) && Holds(c, place, packet)
    ensures Holds(Next(c, s), After(c, s, place), packet)
  {
    hide NextSend, NextReceive, Enabled, Holds, After;
    if Sends(s) { SendMoves(c, s, place, packet); } else { ReceiveMoves(c, s, place, packet); }
  }

  lemma SendMoves(c: Channel, s: Step, place: Place, packet: nat)
    requires Enabled(c, s) && Sends(s) && Holds(c, place, packet)
    ensures Holds(NextSend(c, s), After(c, s, place), packet)
  {
  }

  lemma ReceiveMoves(c: Channel, s: Step, place: Place, packet: nat)
    requires Enabled(c, s) && !Sends(s) && Holds(c, place, packet)
    ensures Holds(NextReceive(c, s), After(c, s, place), packet)
  {
  }

  lemma AfterBefore(c: Channel, s: Step, place: Place, packet: nat)
    requires Enabled(c, s) && Holds(Next(c, s), place, packet)
    ensures After(c, s, Before(c, s, place, packet)) == place
  {
  }

  lemma BegunHasOnePlace(c: Channel, s: Step, place: Place)
    requires Owned(c) && Enabled(c, s) && s.Begin? && Holds(Next(c, s), place, s.packet)
    ensures place == if c.open then WithSender(s.thread) else AtRest
  {
    assert !Held(c, s.packet);
    assert !Holds(c, place, s.packet);
  }

  lemma OnePlace(c: Channel, s: Step, a: Place, b: Place, packet: nat)
    requires Owned(c) && Enabled(c, s) && Holds(Next(c, s), a, packet) && Holds(Next(c, s), b, packet)
    ensures a == b
  {
    hide Holds, Next, Before, After, Enabled;
    Traced(c, s, a, packet);
    Traced(c, s, b, packet);
    if s.Begin? && packet == s.packet {
      BegunHasOnePlace(c, s, a);
      BegunHasOnePlace(c, s, b);
    } else {
      AfterBefore(c, s, a, packet);
      AfterBefore(c, s, b, packet);
    }
  }

  lemma SubmittedAfter(c: Channel, s: Step)
    requires Enabled(c, s)
    ensures Next(c, s).submitted == if s.Begin? then c.submitted + {s.packet} else c.submitted
    ensures s.Begin? ==> Holds(Next(c, s), if c.open then WithSender(s.thread) else AtRest, s.packet)
  {
  }

  lemma HeldExactly(c: Channel, s: Step, packet: nat)
    requires Owned(c) && Enabled(c, s)
    ensures Held(Next(c, s), packet) <==> packet in Next(c, s).submitted
  {
    hide Holds, Next, Before, After, Enabled;
    SubmittedAfter(c, s);
    if Held(Next(c, s), packet) {
      var place :| Holds(Next(c, s), place, packet);
      Traced(c, s, place, packet);
    }
    if Held(c, packet) {
      var place :| Holds(c, place, packet);
      Moves(c, s, place, packet);
    }
  }

  lemma StepOwned(c: Channel, s: Step)
    requires Owned(c) && Enabled(c, s)
    ensures Owned(Next(c, s))
  {
    hide Holds, Held, Next, Enabled;
    var d := Next(c, s);
    forall a, b, packet: nat | Holds(d, a, packet) && Holds(d, b, packet)
      ensures a == b
    {
      OnePlace(c, s, a, b, packet);
    }
    forall packet: nat
      ensures Held(d, packet) <==> packet in d.submitted
    {
      HeldExactly(c, s, packet);
    }
  }

  // ---------------------------------------------------------------- capacity and order

  /** Delivered packets, then the one in the receiver's hands, then the queue. */
  function Line(c: Channel): seq<Item> {
    c.delivered + (if c.receiver.Holding? then [c.receiver.item] else []) + c.items
  }

  predicate Increasing(line: seq<Item>, bound: nat) {
    && (forall i, j :: 0 <= i < j < |line| ==> line[i].stamp < line[j].stamp)
    && (forall i :: 0 <= i < |line| ==> line[i].stamp < bound)
  }

  predicate Fits(c: Channel) {
    0 < c.capacity && |c.items| <= c.capacity
  }

  lemma Appended(line: seq<Item>, bound: nat, item: Item)
    requires Increasing(line, bound) && item.stamp == bound
    ensures Increasing(line + [item], bound + 1)
  {
  }

  lemma Without(line: seq<Item>, bound: nat, k: nat)
    requires Increasing(line, bound) && k < |line|
    ensures Increasing(line[..k] + line[k + 1..], bound)
  {
  }

  lemma PushLine(c: Channel, t: nat)
    requires Fits(c) && Increasing(Line(c), c.pushes) && Enabled(c, Push(t))
    ensures var d := NextSend(c, Push(t)); Increasing(Line(d), d.pushes)
  {
    hide Increasing;
    var d := NextSend(c, Push(t));
    if d.pushes == c.pushes {
      assert Line(d) == Line(c);
    } else {
      var item := d.items[|d.items| - 1];
      if |c.items| < c.capacity {
        assert Line(d) == Line(c) + [item];
        Appended(Line(c), c.pushes, item);
      } else {
        var at := |Line(c)| - |c.items|;
        var rest := Line(c)[..at] + Line(c)[at + 1..];
        Without(Line(c), c.pushes, at);
        assert Line(d) == rest + [item];
        Appended(rest, c.pushes, item);
      }
    }
  }

  /** The receiver leaves the line as it is or takes one packet out of it. */
  lemma LineAfter(c: Channel, s: Step)
    requires Enabled(c, s) && !Sends(s)
    ensures var d, k, line := NextReceive(c, s), |c.delivered|, Line(c);
            d.pushes == c.pushes &&
            (Line(d) == line || (k < |line| && Line(d) == line[..k] + line[k + 1..]))
  {
    var d, k := NextReceive(c, s), |c.delivered|;
    if s.PurgePop? {
      assert Line(d) == Line(c)[..k] + Line(c)[k + 1..];
    } else if s.Check? {
      CheckLine(c);
    } else {
      assert Line(d) == Line(c);
    }
  }

  lemma CheckLine(c: Channel)
    requires Enabled(c, Check)
    ensures var d, k, line := NextReceive(c, Check), |c.delivered|, Line(c);
            k < |line| && (Line(d) == line || Line(d) == line[..k] + line[k + 1..])
  {
    hide Settled;
    var d, item := NextReceive(c, Check), c.receiver.item;
    CheckFields(c);
    Middle(c.delivered, item, c.items);
    assert d.delivered == c.delivered ==> Line(d) == c.delivered + c.items by {
      assert c.delivered + [] == c.delivered;
    }
    assert d.delivered != c.delivered ==> Line(d) == c.delivered + [item] + c.items by {
      assert c.delivered + [item] + [] == c.delivered + [item];
    }
  }

  lemma CheckFields(c: Channel)
    requires Enabled(c, Check)
    ensures var d := NextReceive(c, Check);
            && d.receiver.Resting? && d.items == c.items
            && (d.delivered == c.delivered || d.delivered == c.delivered + [c.receiver.item])
  {
  }

  lemma Middle<T>(a: seq<T>, x: T, b: seq<T>)
    ensures var s := a + [x] + b; s[..|a|] + s[|a| + 1..] == a + b
  {
  }

  lemma ReceiveLine(c: Channel, s: Step)
    requires Increasing(Line(c), c.pushes) && Enabled(c, s) && !Sends(s)
    ensures var d := NextReceive(c, s); Increasing(Line(d), d.pushes)
  {
    hide Increasing, NextReceive, Enabled, Line;
    LineAfter(c, s);
    if |c.delivered| < |Line(c)| { Without(Line(c), c.pushes, |c.delivered|); }
  }

  lemma StepLine(c: Channel, s: Step)
    requires Fits(c) && Increasing(Line(c), c.pushes) && Enabled(c, s)
    ensures Increasing(Line(Next(c, s)), Next(c, s).pushes)
  {
    hide Increasing, NextReceive;
    if s.Push? {
      PushLine(c, s.thread);
    } else if !Sends(s) {
      ReceiveLine(c, s);
    }
  }

  lemma StepFits(c: Channel, s: Step)
    requires Fits(c) && Enabled(c, s)
    ensures Fits(Next(c, s))
  {
  }

  // ---------------------------------------------------------------- every run

  ghost predicate Inv(c: Channel) {
    Fits(c) && Increasing(Line(c), c.pushes) && Owned(c) && WordOk(c) && TagsOk(c)
  }

  lemma ResumesGrow(c: Channel, s: Step)
    requires Enabled(c, s)
    ensures c.resumes <= Next(c, s).resumes && c.writes <= Next(c, s).writes
  {
  }

  /** Every atomic step of the senders and of the receiver keeps the invariant. */
  lemma StepInv(c: Channel, s: Step)
    requires Inv(c) && Enabled(c, s)
    ensures Inv(Next(c, s))
  {
    hide Fits, Increasing, Line, Owned, WordOk, TagsOk, Next, Enabled;
    StepFits(c, s);
    StepLine(c, s);
    StepOwned(c, s);
    StepWord(c, s);
    StepTags(c, s);
  }

  lemma {:induction false} RunInv(c: Channel, trace: seq<Step>, d: Channel)
    requires Inv(c) && Runs(c, trace, d)
    ensures Inv(d) && c.resumes <= d.resumes
    decreases |trace|
  {
    hide Inv, Next, Enabled;
    if trace != [] {
      StepInv(c, trace[0]);
      ResumesGrow(c, trace[0]);
      RunInv(Next(c, trace[0]), trace[1..], d);
    }
  }

  lemma NewInv(capacity: nat, active: bool)
    ensures Inv(New(capacity, active))
  {
    var c := New(capacity, active);
    forall packet: nat
      ensures !Held(c, packet)
    {
      forall place
        ensures !Holds(c, place, packet)
      {
      }
    }
  }

  lemma ReachableInv(capacity: nat, active: bool, trace: seq<Step>, c: Channel)
    requires Runs(New(capacity, active), trace, c)
    ensures Inv(c)
  {
    hide Inv, Runs;
    NewInv(capacity, active);
    RunInv(New(capacity, active), trace, c);
  }

  /**
   The receiver returns the packet it holds exactly if the queue is active and a multiple of 2^63 resumes
   has come since its sender read the state word. If that is none, the word has not been written in between:
   no `resume` or `suspend`. And it is none exactly if fewer than 2^63 came.
   */
  lemma DeliveredExactly(capacity: nat, active: bool, trace: seq<Step>, c: Channel)
    requires Runs(New(capacity, active), trace, c) && c.receiver.Holding?
    ensures var read := c.receiver.item.read; var delivers := Next(c, Check).delivered != c.delivered;
            && read.at <= c.resumes
            && (delivers <==> c.active && (c.resumes - read.at) % EPOCHS == 0)
            && (delivers ==> (read.seen == c.writes <==> c.resumes < read.at + EPOCHS))
  {
    hide Word, Runs, Owned, Fits, Increasing, Line;
    ReachableInv(capacity, active, trace, c);
    SameWord(c.receiver.item.read.at, c.resumes);
  }

  /** At all times a submitted packet is in exactly one place, and its fate is never revised. */
  lemma OneFate(capacity: nat, active: bool, trace: seq<Step>, c: Channel, s: Step, packet: nat)
    requires Runs(New(capacity, active), trace, c) && Enabled(c, s)
    ensures packet in c.submitted ==> exists place :: Holds(c, place, packet) && forall other ::
              Holds(c, other, packet) ==> other == place
    ensures packet in c.fates ==> packet in Next(c, s).fates && Next(c, s).fates[packet] == c.fates[packet]
    ensures |c.items| <= c.capacity
  {
    ReachableInv(capacity, active, trace, c);
    if packet in c.submitted {
      assert Held(c, packet);
      var place :| Holds(c, place, packet);
      assert forall other :: Holds(c, other, packet) ==> other == place;
    }
    if packet in c.fates { FateFinal(c, s, packet); }
  }

  lemma FateFinal(c: Channel, s: Step, packet: nat)
    requires Owned(c) && Enabled(c, s) && packet in c.fates
    ensures packet in Next(c, s).fates && Next(c, s).fates[packet] == c.fates[packet]
  {
    assert Holds(c, AtRest, packet);
    match s
    case Begin(_, other, _) => assert Held(c, packet);
    case Load(t) => assert packet == c.senders[t].packet ==> Holds(c, WithSender(t), packet);
    case Push(t) =>
      assert packet == c.senders[t].packet ==> Holds(c, WithSender(t), packet);
      assert c.items != [] && packet == c.items[0].packet ==> Holds(c, InQueue(0), packet);
    case Check => assert packet == c.receiver.item.packet ==> Holds(c, WithReceiver, packet);
    case PurgePop => assert packet == c.items[0].packet ==> Holds(c, InQueue(0), packet);
    case _ =>
  }

  /** Packets come out in the order in which they were pushed. */
  lemma DeliveredInOrder(capacity: nat, active: bool, trace: seq<Step>, c: Channel)
    requires Runs(New(capacity, active), trace, c)
    ensures forall i, j :: 0 <= i < j < |c.delivered| ==> c.delivered[i].stamp < c.delivered[j].stamp
  {
    ReachableInv(capacity, active, trace, c);
    forall i, j | 0 <= i < j < |c.delivered|
      ensures c.delivered[i].stamp < c.delivered[j].stamp
    {
      assert Line(c)[i] == c.delivered[i] && Line(c)[j] == c.delivered[j];
    }
  }

  // ---------------------------------------------------------------- nothing survives a resume

  /** The word has been written since, and will not look as it did before the queue is resumed `limit` times. */
  predicate Outdated(c: Channel, read: Reading, limit: nat) {
    (read.at < c.resumes || !c.active) && limit <= read.at + EPOCHS
  }

  /** The packet carries a tag that is outdated up to the limit, or has met another fate. */
  predicate Lost(c: Channel, place: Place, packet: nat, limit: nat)
    requires Holds(c, place, packet)
  {
    match place
    case WithSender(t) => c.senders[t].Ready? && Outdated(c, c.senders[t].read, limit)
    case InQueue(i) => Outdated(c, c.items[i].read, limit)
    case WithReceiver => Outdated(c, c.receiver.item.read, limit)
    case AtRest => c.fates[packet] != Delivered
  }

  predicate Tagged(c: Channel, place: Place) {
    match place
    case WithSender(t) => t in c.senders && c.senders[t].Ready?
    case InQueue(i) => i < |c.items|
    case WithReceiver => c.receiver.Holding?
    case AtRest => false
  }

  function TagOf(c: Channel, place: Place): Reading
    requires Tagged(c, place)
  {
    match place
    case WithSender(t) => c.senders[t].read
    case InQueue(i) => c.items[i].read
    case WithReceiver => c.receiver.item.read
  }

  lemma StaysOutdated(c: Channel, s: Step, read: Reading, limit: nat)
    requires WordOk(c) && TagOk(c, read) && Enabled(c, s)
    requires Outdated(c, read, limit)
    ensures Outdated(Next(c, s), read, limit)
  {
    hide Word, Truncated;
  }

  lemma TagKept(c: Channel, s: Step, place: Place)
    requires Enabled(c, s) && Tagged(c, place) && After(c, s, place) != AtRest
    ensures Tagged(Next(c, s), After(c, s, place)) && TagOf(Next(c, s), After(c, s, place)) == TagOf(c, place)
  {
    hide NextSend, NextReceive, Enabled, After, Tagged, TagOf;
    if Sends(s) { SendTagKept(c, s, place); } else { ReceiveTagKept(c, s, place); }
  }

  lemma SendTagKept(c: Channel, s: Step, place: Place)
    requires Enabled(c, s) && Sends(s) && Tagged(c, place) && After(c, s, place) != AtRest
    ensures Tagged(NextSend(c, s), After(c, s, place))
    ensures TagOf(NextSend(c, s), After(c, s, place)) == TagOf(c, place)
  {
    hide NextSend, Enabled, After, Tagged, TagOf;
    if s.Push? { PushTagKept(c, s, place); } else { EarlyTagKept(c, s, place); }
  }

  lemma PushTagKept(c: Channel, s: Step, place: Place)
    requires Enabled(c, s) && s.Push? && Tagged(c, place) && After(c, s, place) != AtRest
    ensures Tagged(NextSend(c, s), After(c, s, place))
    ensures TagOf(NextSend(c, s), After(c, s, place)) == TagOf(c, place)
  {
  }

  lemma EarlyTagKept(c: Channel, s: Step, place: Place)
    requires Enabled(c, s) && (s.Begin? || s.Load?) && Tagged(c, place) && After(c, s, place) != AtRest
    ensures Tagged(NextSend(c, s), After(c, s, place))
    ensures TagOf(NextSend(c, s), After(c, s, place)) == TagOf(c, place)
  {
  }

  lemma ReceiveTagKept(c: Channel, s: Step, place: Place)
    requires Enabled(c, s) && !Sends(s) && Tagged(c, place) && After(c, s, place) != AtRest
    ensures Tagged(NextReceive(c, s), After(c, s, place))
    ensures TagOf(NextReceive(c, s), After(c, s, place)) == TagOf(c, place)
  {
  }

  lemma TagOfOk(c: Channel, place: Place)
    requires TagsOk(c) && Tagged(c, place)
    ensures TagOk(c, TagOf(c, place))
  {
    hide TagOk;
  }

  lemma NewFate(c: Channel, s: Step, place: Place, packet: nat, limit: nat)
    requires WordOk(c) && TagsOk(c) && Enabled(c, s) && c.resumes < limit
    requires Holds(c, place, packet) && Lost(c, place, packet, limit)
    requires place != AtRest && After(c, s, place) == AtRest
    ensures packet in Next(c, s).fates && Next(c, s).fates[packet] != Delivered
  {
    hide Word, Truncated;
    if s.Check? {
      assert TagOk(c, c.receiver.item.read);
      SameWord(c.receiver.item.read.at, c.resumes);
    }
  }

  lemma StaysLost(c: Channel, s: Step, place: Place, packet: nat, limit: nat)
    requires Inv(c) && Enabled(c, s) && c.resumes < limit
    requires Holds(c, place, packet) && Lost(c, place, packet, limit)
    ensures Holds(Next(c, s), After(c, s, place), packet) && Lost(Next(c, s), After(c, s, place), packet, limit)
  {
    hide Owned, Fits, Increasing, Line, WordOk, TagsOk, TagOk, Outdated, Next, Enabled, After;
    Moves(c, s, place, packet);
    if place == AtRest {
      RestStays(c, s);
      FateFinal(c, s, packet);
    } else if After(c, s, place) == AtRest {
      NewFate(c, s, place, packet, limit);
    } else {
      TagOfOk(c, place);
      TagKept(c, s, place);
      StaysOutdated(c, s, TagOf(c, place), limit);
    }
  }

  lemma RestStays(c: Channel, s: Step)
    requires Enabled(c, s)
    ensures After(c, s, AtRest) == AtRest
  {
  }

  lemma {:induction false} NeverDelivered(c: Channel, trace: seq<Step>, d: Channel, place: Place, packet: nat,
                                          limit: nat)
    requires Inv(c) && Runs(c, trace, d) && d.resumes < limit
    requires Holds(c, place, packet) && Lost(c, place, packet, limit)
    ensures packet in d.fates ==> d.fates[packet] != Delivered
    decreases |trace|
  {
    hide Inv, Next, Enabled, After;
    if trace == [] {
      if packet in d.fates {
        InvOwned(c);
        assert Holds(c, AtRest, packet);
      }
    } else {
      var e := Next(c, trace[0]);
      StepInv(c, trace[0]);
      ResumesGrow(c, trace[0]);
      RunInv(e, trace[1..], d);
      StaysLost(c, trace[0], place, packet, limit);
      NeverDelivered(e, trace[1..], d, After(c, trace[0], place), packet, limit);
    }
  }

  lemma InvOwned(c: Channel)
    requires Inv(c)
    ensures Owned(c)
  {
  }

  lemma OutdatedByMark(c: Channel, s: Step, place: Place, packet: nat, limit: nat)
    requires TagsOk(c) && Enabled(c, s) && (s.ResumeMark? || s.SuspendMark?)
    requires Holds(c, place, packet) && Tagged(c, place) && limit <= TagOf(c, place).at + EPOCHS
    ensures Holds(Next(c, s), place, packet) && Lost(Next(c, s), place, packet, limit)
  {
    hide Word, Truncated;
    TagOfOk(c, place);
  }

  /**
   A packet whose sender had read the state word before a `resume` or `suspend` wrote it is not
   delivered afterwards, wherever the packet was at that moment and whatever happens next, until the queue
   has been resumed 2^63 times since the sender read the word.
   */
  lemma NothingSurvives(capacity: nat, active: bool, trace: seq<Step>, c: Channel, s: Step,
                        later: seq<Step>, d: Channel, place: Place, packet: nat)
    requires Runs(New(capacity, active), trace, c)
    requires (s.ResumeMark? || s.SuspendMark?) && Enabled(c, s)
    requires Holds(c, place, packet) && Tagged(c, place)
    requires Runs(Next(c, s), later, d) && d.resumes < TagOf(c, place).at + EPOCHS
    ensures packet in d.fates ==> d.fates[packet] != Delivered
  {
    hide Fits, Increasing, Line, Owned, WordOk, TagsOk, Next, Enabled, Runs, Holds, Tagged, TagOf;
    ReachableInv(capacity, active, trace, c);
    StepInv(c, s);
    var limit := TagOf(c, place).at + EPOCHS;
    OutdatedByMark(c, s, place, packet, limit);
    NeverDelivered(Next(c, s), later, d, place, packet, limit);
  }

  // ---------------------------------------------------------------- what survives

  /** One `resume` of an empty queue. */
  function Cycle(): seq<Step> { [ResumeLoad, ResumeMark, PurgeEnd, ResumeOpen] }

  function Cycles(n: nat): seq<Step> {
    if n == 0 then [] else Cycles(n - 1) + Cycle()
  }

  /** The queue after `n` of them. */
  function Resumed(c: Channel, n: nat): Channel {
    c.(epoch := Word(c.resumes + n), writes := c.writes + 2 * n, resumes := c.resumes + n)
  }

  predicate Ripe(c: Channel) {
    c.epoch == Word(c.resumes) && c.active && c.receiver.Resting? && c.items == []
  }

  lemma {:induction false} RunsOn(c: Channel, first: seq<Step>, d: Channel, then_: seq<Step>, e: Channel)
    requires Runs(c, first, d) && Runs(d, then_, e)
    ensures Runs(c, first + then_, e)
    decreases |first|
  {
    hide Next, Enabled;
    if first == [] {
      assert first + then_ == then_;
    } else {
      assert (first + then_)[0] == first[0] && (first + then_)[1..] == first[1..] + then_;
      RunsOn(Next(c, first[0]), first[1..], d, then_, e);
    }
  }

  lemma RunsStep(c: Channel, s: Step, d: Channel)
    requires Enabled(c, s) && Next(c, s) == d
    ensures Runs(c, [s], d)
  {
    hide Next, Enabled;
    assert [s][1..] == [];
  }

  lemma CycleRuns(c: Channel)
    requires Ripe(c)
    ensures Runs(c, Cycle(), Resumed(c, 1)) && Ripe(Resumed(c, 1))
  {
    hide Word, Truncated, Runs;
    NextWord(c.resumes);
    var c1 := Next(c, ResumeLoad);
    var c2 := Next(c1, ResumeMark);
    var c3 := Next(c2, PurgeEnd);
    RunsStep(c, ResumeLoad, c1);
    RunsStep(c1, ResumeMark, c2);
    RunsStep(c2, PurgeEnd, c3);
    RunsStep(c3, ResumeOpen, Resumed(c, 1));
    RunsOn(c, [ResumeLoad], c1, [ResumeMark], c2);
    RunsOn(c2, [PurgeEnd], c3, [ResumeOpen], Resumed(c, 1));
    RunsOn(c, [ResumeLoad] + [ResumeMark], c2, [PurgeEnd] + [ResumeOpen], Resumed(c, 1));
    assert [ResumeLoad] + [ResumeMark] + ([PurgeEnd] + [ResumeOpen]) == Cycle();
  }

  lemma RunsNowhere(c: Channel)
    requires Ripe(c)
    ensures Runs(c, [], c) && Resumed(c, 0) == c
  {
    hide Word;
  }

  lemma ResumedAgain(c: Channel, n: nat)
    ensures Resumed(Resumed(c, n), 1) == Resumed(c, n + 1)
  {
    hide Word;
  }

  lemma {:induction false} CyclesRun(c: Channel, n: nat)
    requires Ripe(c)
    ensures Runs(c, Cycles(n), Resumed(c, n)) && Ripe(Resumed(c, n))
  {
    hide Word, Cycle, Runs, Resumed, Ripe;
    if n == 0 {
      RunsNowhere(c);
    } else {
      CyclesRun(c, n - 1);
      CycleRuns(Resumed(c, n - 1));
      ResumedAgain(c, n - 1);
      RunsOn(c, Cycles(n - 1), Resumed(c, n - 1), Cycle(), Resumed(c, n));
    }
  }

  /** A sender that has read the word of a fresh queue and not yet pushed. */
  function Read(packet: nat): Channel {
    New(1, true).(submitted := {packet}, senders := map[0 := Ready(packet, false, Reading(0, 0, 0))])
  }

  lemma ReadRuns(packet: nat)
    ensures Runs(New(1, true), [Begin(0, packet, false), Load(0)], Read(packet))
  {
    var c := Next(New(1, true), Begin(0, packet, false));
    assert Next(c, Load(0)) == Read(packet);
    RunsStep(New(1, true), Begin(0, packet, false), c);
    RunsStep(c, Load(0), Read(packet));
    RunsOn(New(1, true), [Begin(0, packet, false)], c, [Load(0)], Read(packet));
    assert [Begin(0, packet, false)] + [Load(0)] == [Begin(0, packet, false), Load(0)];
  }

  lemma PushRuns(packet: nat, n: nat, c: Channel) returns (d: Channel)
    requires c == Resumed(Read(packet), n)
    ensures Runs(c, [Push(0), Pop, Check], d) && d.resumes == c.resumes && packet in d.fates
    ensures d.fates[packet] == if c.epoch == 0 then Delivered else Stale
  {
    hide Word;
    var c1 := Next(c, Push(0));
    assert c1.items == [Item(packet, Reading(0, 0, 0), 0)];
    var c2 := Next(c1, Pop);
    d := Next(c2, Check);
    RunsStep(c, Push(0), c1);
    RunsStep(c1, Pop, c2);
    RunsStep(c2, Check, d);
    RunsOn(c, [Push(0)], c1, [Pop], c2);
    RunsOn(c, [Push(0)] + [Pop], c2, [Check], d);
    assert [Push(0)] + [Pop] + [Check] == [Push(0), Pop, Check];
  }

  /**
   The limit is sharp: a packet whose sender read the word, and pushes after `n` resumes have gone by, is
   delivered if and only if `n` is a multiple of 2^63.
   */
  lemma SurvivesExactly(packet: nat, n: nat) returns (d: Channel)
    ensures Runs(New(1, true), [Begin(0, packet, false), Load(0)] + Cycles(n) + [Push(0), Pop, Check], d)
    ensures d.resumes == n && packet in d.fates && (d.fates[packet] == Delivered <==> n % EPOCHS == 0)
  {
    hide Runs, Cycles, Ripe;
    var c := Read(packet);
    ReadRuns(packet);
    FreshIsRipe(packet);
    CyclesRun(c, n);
    d := PushRuns(packet, n, Resumed(c, n));
    RunsOn(New(1, true), [Begin(0, packet, false), Load(0)], c, Cycles(n), Resumed(c, n));
    RunsOn(New(1, true), [Begin(0, packet, false), Load(0)] + Cycles(n), Resumed(c, n), [Push(0), Pop, Check], d);
  }

  lemma FreshIsRipe(packet: nat)
    ensures Ripe(Read(packet))
  {
  }

  // ---------------------------------------------------------------- undisturbed calls

  /** A sender that is not interrupted. */
  function Send(t: nat, packet: nat, force: bool): seq<Step> { [Begin(t, packet, force), Load(t), Push(t)] }

  /** What it leaves: the packet at the end, the oldest evicted if the queue was full and it may; or a refusal. */
  function Sent(c: Channel, packet: nat, force: bool): Channel
    requires Fits(c)
  {
    var item := Item(packet, Reading(c.epoch, c.resumes, c.writes), c.pushes);
    var d := c.(submitted := c.submitted + {packet});
    if !c.open || !c.active || (|c.items| == c.capacity && !force) then d.(fates := c.fates[packet := Rejected])
    else if |c.items| < c.capacity then d.(items := c.items + [item], pushes := c.pushes + 1)
    else d.(items := c.items[1..] + [item], pushes := c.pushes + 1, fates := c.fates[c.items[0].packet := Evicted])
  }

  /** Those steps of a send that come to pass: a closed queue refuses at the first, an inactive one at the second. */
  function SendSteps(c: Channel, t: nat, packet: nat, force: bool): seq<Step> {
    if !c.open then Send(t, packet, force)[..1] else if !c.active then Send(t, packet, force)[..2]
    else Send(t, packet, force)
  }

  lemma SendsExactly(c: Channel, t: nat, packet: nat, force: bool)
    requires Fits(c) && t !in c.senders && packet !in c.submitted
    ensures Runs(c, SendSteps(c, t, packet, force), Sent(c, packet, force))
  {
    hide Runs;
    var d := Sent(c, packet, force);
    var c1 := Next(c, Begin(t, packet, force));
    RunsStep(c, Begin(t, packet, force), c1);
    if !c.open {
      assert Send(t, packet, force)[..1] == [Begin(t, packet, force)];
    } else {
      var c2 := Next(c1, Load(t));
      RunsStep(c1, Load(t), c2);
      RunsOn(c, [Begin(t, packet, force)], c1, [Load(t)], c2);
      assert [Begin(t, packet, force)] + [Load(t)] == Send(t, packet, force)[..2];
      SenderGone(c.senders, t, Begun(packet, force));
      if c.active {
        SenderGone(c.senders, t, Ready(packet, force, Reading(c.epoch, c.resumes, c.writes)));
        TwoPuts(c.senders, t, Begun(packet, force), Ready(packet, force, Reading(c.epoch, c.resumes, c.writes)));
        RunsStep(c2, Push(t), d);
        RunsOn(c, [Begin(t, packet, force)] + [Load(t)], c2, [Push(t)], d);
        assert [Begin(t, packet, force)] + [Load(t)] + [Push(t)] == Send(t, packet, force);
      }
    }
  }

  lemma SenderGone(senders: map<nat, Sender>, t: nat, s: Sender)
    requires t !in senders
    ensures senders[t := s] - {t} == senders
  {
  }

  lemma TwoPuts(senders: map<nat, Sender>, t: nat, a: Sender, b: Sender)
    ensures senders[t := a][t := b] == senders[t := b]
  {
  }

  /** A receiver that is not interrupted takes the oldest packet, and returns it exactly if its tag is current. */
  lemma ReceivesExactly(c: Channel)
    requires c.receiver.Resting? && c.items != []
    ensures var item := c.items[0]; var d := c.(items := c.items[1..]);
            var current := c.active && item.read.tag == c.epoch;
            Runs(c, [Pop, Check],
                 if current then d.(fates := c.fates[item.packet := Delivered], delivered := c.delivered + [item])
                 else d.(fates := c.fates[item.packet := Stale]))
  {
    hide Runs;
    var c1 := Next(c, Pop);
    var d := Next(c1, Check);
    RunsStep(c, Pop, c1);
    RunsStep(c1, Check, d);
    RunsOn(c, [Pop], c1, [Check], d);
    assert [Pop] + [Check] == [Pop, Check];
    assert d.receiver == c.receiver;
  }

  /** Every queued packet purged, oldest first. */
  function PurgedFates(fates: map<nat, Fate>, items: seq<Item>): map<nat, Fate>
    decreases |items|
  {
    if items == [] then fates else PurgedFates(fates[items[0].packet := Purged], items[1..])
  }

  function Purges(n: nat): seq<Step> { if n == 0 then [PurgeEnd] else [PurgePop] + Purges(n - 1) }

  /** Where the receiver stands once the purge is over. */
  function Drained(r: Receiver): Receiver {
    match r
    case ResumePurging(epoch) => ResumeDrained(epoch)
    case SuspendPurging => Resting
    case _ => Closed
  }

  function Drain(c: Channel): Channel {
    c.(items := [], fates := PurgedFates(c.fates, c.items), receiver := Drained(c.receiver))
  }

  lemma {:induction false} PurgesAll(c: Channel)
    requires Purging(c.receiver)
    ensures Runs(c, Purges(|c.items|), Drain(c))
    decreases |c.items|
  {
    hide Runs;
    if c.items == [] {
      RunsStep(c, PurgeEnd, Drain(c));
    } else {
      var d := Next(c, PurgePop);
      PurgesAll(d);
      RunsStep(c, PurgePop, d);
      RunsOn(c, [PurgePop], d, Purges(|d.items|), Drain(d));
    }
  }

  lemma TwoSteps(c: Channel, s: Step, d: Channel, s': Step, e: Channel)
    requires Enabled(c, s) && Next(c, s) == d && Enabled(d, s') && Next(d, s') == e
    ensures Runs(c, [s, s'], e)
  {
    hide Runs, Next, Enabled;
    RunsStep(c, s, d);
    RunsStep(d, s', e);
    RunsOn(c, [s], d, [s'], e);
    assert [s] + [s'] == [s, s'];
  }

  /** A resume that has announced the next epoch and is about to purge. */
  function ResumeMarked(c: Channel): Channel {
    var epoch := Word(c.resumes + 1);
    c.(epoch := epoch, active := false, writes := c.writes + 1, resumes := c.resumes + 1,
       receiver := ResumePurging(epoch))
  }

  lemma ResumeMarks(c: Channel)
    requires WordOk(c) && c.receiver.Resting?
    ensures Runs(c, [ResumeLoad, ResumeMark], ResumeMarked(c))
  {
    hide Runs, Word, Truncated;
    NextWord(c.resumes);
    var d := Next(c, ResumeLoad);
    assert Next(d, ResumeMark) == ResumeMarked(c);
    TwoSteps(c, ResumeLoad, d, ResumeMark, ResumeMarked(c));
  }

  lemma ResumeOpens(c: Channel)
    requires c.receiver.ResumeDrained?
    ensures Runs(c, [ResumeOpen],
                 c.(epoch := c.receiver.epoch, active := true, writes := c.writes + 1, receiver := Resting))
  {
    hide Runs;
    RunsStep(c, ResumeOpen, Next(c, ResumeOpen));
  }

  /** A `resume` that is not interrupted: nothing queued, the next epoch, and packets are taken again. */
  lemma ResumesExactly(c: Channel)
    requires WordOk(c) && c.receiver.Resting?
    ensures Runs(c, [ResumeLoad, ResumeMark] + Purges(|c.items|) + [ResumeOpen],
                 Resumed(c, 1).(items := [], fates := PurgedFates(c.fates, c.items), active := true))
  {
    hide Runs, Word, Truncated, Purges, PurgedFates, WordOk;
    ResumeMarks(c);
    var d := ResumeMarked(c);
    PurgesAll(d);
    RunsOn(c, [ResumeLoad, ResumeMark], d, Purges(|c.items|), Drain(d));
    ResumeOpens(Drain(d));
    var e := Resumed(c, 1).(items := [], fates := PurgedFates(c.fates, c.items), active := true);
    RunsOn(c, [ResumeLoad, ResumeMark] + Purges(|c.items|), Drain(d), [ResumeOpen], e);
  }

  lemma SuspendMarks(c: Channel)
    requires c.receiver.Resting?
    ensures Runs(c, [SuspendLoad, SuspendMark],
                 c.(active := false, writes := c.writes + 1, receiver := SuspendPurging))
  {
    hide Runs;
    var d := Next(c, SuspendLoad);
    TwoSteps(c, SuspendLoad, d, SuspendMark, Next(d, SuspendMark));
  }

  /** A `suspend` that is not interrupted: nothing queued, the same epoch, and packets are refused. */
  lemma SuspendsExactly(c: Channel)
    requires c.receiver.Resting?
    ensures Runs(c, [SuspendLoad, SuspendMark] + Purges(|c.items|),
                 c.(items := [], fates := PurgedFates(c.fates, c.items), active := false, writes := c.writes + 1))
  {
    hide Runs, Purges, PurgedFates;
    SuspendMarks(c);
    var d := c.(active := false, writes := c.writes + 1, receiver := SuspendPurging);
    PurgesAll(d);
    RunsOn(c, [SuspendLoad, SuspendMark], d, Purges(|c.items|), Drain(d));
    assert Drain(d).receiver == c.receiver;
  }

  /** Closing: nothing queued, and nothing is taken or given out again. */
  lemma ClosesExactly(c: Channel)
    requires c.receiver.Resting?
    ensures Runs(c, [Close] + Purges(|c.items|),
                 c.(items := [], fates := PurgedFates(c.fates, c.items), open := false, receiver := Closed))
  {
    hide Runs, Purges, PurgedFates;
    var d := Next(c, Close);
    RunsStep(c, Close, d);
    PurgesAll(d);
    RunsOn(c, [Close], d, Purges(|c.items|), Drain(d));
  }
}
