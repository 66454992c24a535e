/**
 The packet queue as its own code: a state word with the epoch above the active bit, and a bounded
 queue of tagged packets. Used by one thread at a time it is a bounded drop-oldest deque.
 */
module PacketChannel {
  import opened Bytes

  datatype Queued<T> = Queued(packet: T, epoch: nat)

  predicate Active(state: U64) { state % 2 == 1 }

  function Epoch(state: U64): nat { state / 2 }

  predicate Current<T>(q: Queued<T>, state: U64) {
    Active(state) && q.epoch == Epoch(state)
  }

  function Packets<T>(queue: seq<Queued<T>>): (r: seq<T>)
    ensures |r| == |queue|
  {
    seq(|queue|, i requires 0 <= i < |queue| => queue[i].packet)
  }

  /** What the channel is meant to be. */
  datatype Deque<T> = Deque(capacity: nat, accepting: bool, contents: seq<T>) {
    predicate Refuses(force: bool) {
      !accepting || (!force && |contents| == capacity)
    }

    function Send(packet: T, force: bool): (r: Deque<T>)
    {
      if Refuses(force) then this
      else if |contents| == capacity && contents != [] then this.(contents := contents[1..] + [packet])
      else this.(contents := contents + [packet])
    }
  }

  /** How many packets at the front `try_recv` throws away. */
  function Skipped<T>(queue: seq<Queued<T>>, state: U64): (k: nat)
    ensures k <= |queue|
    ensures forall i :: 0 <= i < k ==> !Current(queue[i], state)
    ensures k < |queue| ==> Current(queue[k], state)
  {
    if queue == [] || Current(queue[0], state) then 0 else 1 + Skipped(queue[1..], state)
  }

  class Channel<T> {
    const capacity: nat
    var queue: seq<Queued<T>>
    var state: U64
    var receiverOpen: bool

    /** What holds between calls when no two calls overlap. */
    ghost predicate Valid()
      reads this
    {
      && 0 < capacity
      && |queue| <= capacity
      && (forall i :: 0 <= i < |queue| ==> Current(queue[i], state))
    }

    ghost function Model(): Deque<T>
      reads this
    {
      Deque(capacity, receiverOpen && Active(state), Packets(queue))
    }

    constructor (size: nat, active: bool)
      ensures Valid() && Model() == Deque(Max(size, 1), active, [])
      ensures Epoch(state) == 0
    {
      capacity := Max(size, 1);
      queue := [];
      state := if active then 1 else 0;
      receiverOpen := true;
    }

    method SendInner(packet: T, force: bool) returns (refused: Option<T>)
      requires Valid()
      modifies this
      ensures Valid()
      ensures refused == if old(Model()).Refuses(force) then Some(packet) else None
      ensures Model() == old(Model()).Send(packet, force)
      ensures state == old(state) && receiverOpen == old(receiverOpen)
    {
      if !receiverOpen {
        return Some(packet);
      }
      if !Active(state) {
        return Some(packet);
      }
      var queued := Queued(packet, Epoch(state));
      if |queue| < capacity {
        queue := queue + [queued];
      } else if force {
        queue := queue[1..] + [queued];
      } else {
        return Some(packet);
      }
      return None;
    }

    /** Returns the first packet of the current epoch and drops everything in front of it. */
    method TryRecvInner() returns (r: Option<T>)
      modifies this
      ensures var k := Skipped(old(queue), state);
              && r == (if k < |old(queue)| then Some(old(queue)[k].packet) else None)
              && queue == (if k < |old(queue)| then old(queue)[k + 1..] else [])
      ensures state == old(state) && receiverOpen == old(receiverOpen)
      ensures old(Valid()) ==> Valid()
      ensures old(Valid()) ==> r == (if old(Model()).contents == [] then None else Some(old(Model()).contents[0]))
      ensures old(Valid()) && r.Some? ==> Model() == old(Model()).(contents := old(Model()).contents[1..])
      ensures old(Valid()) && r.None? ==> Model() == old(Model())
    {
      ghost var all := queue;
      ghost var dropped := 0;
      while queue != []
        invariant dropped <= |all| && queue == all[dropped..]
        invariant forall i :: 0 <= i < dropped ==> !Current(all[i], state)
        invariant state == old(state) && receiverOpen == old(receiverOpen)
        decreases |queue|
      {
        var queued := queue[0];
        queue := queue[1..];
        if Current(queued, state) {
          SkippedIs(all, state, dropped);
          return Some(queued.packet);
        }
        dropped := dropped + 1;
      }
      SkippedIs(all, state, dropped);
      return None;
    }

    method Purge()
      modifies this`queue
      ensures queue == []
    {
      while queue != []
        decreases |queue|
      {
        queue := queue[1..];
      }
    }

    /** Starts a new epoch: whatever was queued is gone and sending is possible again. */
    method Resume()
      requires Valid()
      modifies this
      ensures Valid()
      ensures Model() == Deque(capacity, receiverOpen, []) && receiverOpen == old(receiverOpen)
      ensures Epoch(state) == (if Epoch(old(state)) + 1 < WORD / 2 then Epoch(old(state)) + 1 else 0)
    {
      var epoch := Min(Epoch(state) + 1, WORD - 1);
      state := (epoch * 2) % WORD;
      Purge();
      state := (epoch * 2) % WORD + 1;
    }

    method Suspend()
      requires Valid()
      modifies this
      ensures Valid()
      ensures Model() == Deque(capacity, false, []) && receiverOpen == old(receiverOpen)
      ensures Epoch(state) == Epoch(old(state))
    {
      state := state - state % 2;
      Purge();
    }

    /** The receiver is dropped. */
    method Close()
      requires Valid()
      modifies this
      ensures Valid()
      ensures Model() == Deque(capacity, false, []) && state == old(state)
    {
      receiverOpen := false;
      Purge();
    }
  }

  lemma SkippedIs<T>(queue: seq<Queued<T>>, state: U64, k: nat)
    requires k <= |queue|
    requires forall i :: 0 <= i < k ==> !Current(queue[i], state)
    requires k < |queue| ==> Current(queue[k], state)
    ensures Skipped(queue, state) == k
  {
  }
}
