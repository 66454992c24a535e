/** A packet buffer: a fixed storage with headroom and a range of it that is the packet. */
module Packet {
  import opened Bytes

  const HEADROOM: nat := 64
  const CAPACITY: nat := 2304

  datatype RangeError = ReadTooLong | NoHeadroom | TailTooLong | TrimTooLong | TruncateTooLong | BadRange

  function Spliced(s: seq<Byte>, at: nat, bytes: seq<Byte>): (r: seq<Byte>)
    requires at + |bytes| <= |s|
    ensures |r| == |s|
  {
    s[..at] + bytes + s[at + |bytes|..]
  }

  lemma Splices(a: seq<Byte>, x: seq<Byte>, b: seq<Byte>, y: seq<Byte>)
    requires |x| == |y|
    ensures Spliced(a + x + b, |a|, y) == a + y + b
  {
    var s := a + x + b;
    assert s[..|a|] == a && s[|a| + |y|..] == b;
  }

  lemma SplicesFront(x: seq<Byte>, b: seq<Byte>, y: seq<Byte>)
    requires |x| == |y|
    ensures Spliced(x + b, 0, y) == y + b
  {
    Splices([], x, b, y);
    assert [] + x + b == x + b && [] + y + b == y + b;
  }

  lemma SplicesBack(a: seq<Byte>, x: seq<Byte>, y: seq<Byte>)
    requires |x| == |y|
    ensures Spliced(a + x, |a|, y) == a + y
  {
    Splices(a, x, [], y);
    assert a + x + [] == a + x && a + y + [] == a + y;
  }

  class PacketBuf {
    const storage: array<Byte>
    var start: nat
    var end: nat

    ghost predicate Valid()
      reads this
    {
      storage.Length == CAPACITY && start <= end <= CAPACITY
    }

    ghost function Contents(): (s: seq<Byte>)
      requires Valid()
      reads this, storage
    {
      storage[start..end]
    }

    /** A buffer fresh from the pool is empty, at the end of its headroom. */
    constructor ()
      ensures Valid() && start == end == HEADROOM && fresh(storage)
    {
      storage := new Byte[CAPACITY];
      start, end := HEADROOM, HEADROOM;
    }

    method SetReadLen(len: nat) returns (r: Result<(), RangeError>)
      requires Valid()
      modifies this
      ensures Valid()
      ensures r == if len > CAPACITY - HEADROOM then Err(ReadTooLong) else Ok(())
      ensures if r.Ok? then start == HEADROOM && end == HEADROOM + len else unchanged(this)
    {
      if len > CAPACITY - HEADROOM {
        return Err(ReadTooLong);
      }
      start, end := HEADROOM, HEADROOM + len;
      return Ok(());
    }

    /** Makes room in front; the caller fills the new bytes. */
    method Prepend(len: nat) returns (r: Result<(), RangeError>)
      requires Valid()
      modifies this
      ensures Valid() && end == old(end)
      ensures r == if len > old(start) then Err(NoHeadroom) else Ok(())
      ensures if r.Ok? then start == old(start) - len && Contents()[len..] == old(Contents()) else unchanged(this)
    {
      if len > start {
        return Err(NoHeadroom);
      }
      start := start - len;
      return Ok(());
    }

    /** Makes room at the end; the caller fills the new bytes. */
    method ExtendTail(len: nat) returns (r: Result<(), RangeError>)
      requires Valid()
      modifies this
      ensures Valid() && start == old(start)
      ensures r == if old(end) + len > CAPACITY then Err(TailTooLong) else Ok(())
      ensures if r.Ok? then end == old(end) + len && Contents()[..old(end) - start] == old(Contents())
              else unchanged(this)
    {
      if end + len > CAPACITY {
        return Err(TailTooLong);
      }
      end := end + len;
      return Ok(());
    }

    method TrimFront(len: nat) returns (r: Result<(), RangeError>)
      requires Valid()
      modifies this
      ensures Valid() && end == old(end)
      ensures r == if len > |old(Contents())| then Err(TrimTooLong) else Ok(())
      ensures if r.Ok? then start == old(start) + len && Contents() == old(Contents())[len..] else unchanged(this)
    {
      if len > end - start {
        return Err(TrimTooLong);
      }
      start := start + len;
      return Ok(());
    }

    method Truncate(len: nat) returns (r: Result<(), RangeError>)
      requires Valid()
      modifies this
      ensures Valid() && start == old(start)
      ensures r == if len > |old(Contents())| then Err(TruncateTooLong) else Ok(())
      ensures if r.Ok? then end == start + len && Contents() == old(Contents())[..len] else unchanged(this)
    {
      if len > end - start {
        return Err(TruncateTooLong);
      }
      end := start + len;
      return Ok(());
    }

    method SetRange(from: nat, to: nat) returns (r: Result<(), RangeError>)
      requires Valid()
      modifies this
      ensures Valid()
      ensures r == if from > to || to > CAPACITY then Err(BadRange) else Ok(())
      ensures if r.Ok? then start == from && end == to else unchanged(this)
      ensures old(start) <= from <= to <= old(end) ==>
                Contents() == old(Contents())[from - old(start)..to - old(start)]
    {
      if from > to || to > CAPACITY {
        return Err(BadRange);
      }
      start, end := from, to;
      return Ok(());
    }

    /** Overwrites part of the packet. */
    method Fill(offset: nat, bytes: seq<Byte>)
      requires Valid() && offset + |bytes| <= end - start
      modifies storage
      ensures Contents() == Spliced(old(Contents()), offset, bytes)
    {
      forall i | 0 <= i < |bytes| {
        storage[start + offset + i] := bytes[i];
      }
    }

    /** Prepends and fills in one go. */
    method PrependBytes(bytes: seq<Byte>) returns (r: Result<(), RangeError>)
      requires Valid()
      modifies this, storage
      ensures Valid() && end == old(end)
      ensures r == if |bytes| > old(start) then Err(NoHeadroom) else Ok(())
      ensures if r.Ok? then start == old(start) - |bytes| && Contents() == bytes + old(Contents())
              else unchanged(this) && unchanged(storage)
    {
      hide Spliced;
      ghost var packet := Contents();
      r := Prepend(|bytes|);
      if r.Ok? {
        ghost var room := Contents()[..|bytes|];
        SplicesFront(room, packet, bytes);
        assert Contents() == room + packet;
        Fill(0, bytes);
      }
    }

    /** Extends the tail and fills it in one go. */
    method AppendBytes(bytes: seq<Byte>) returns (r: Result<(), RangeError>)
      requires Valid()
      modifies this, storage
      ensures Valid() && start == old(start)
      ensures r == if old(end) + |bytes| > CAPACITY then Err(TailTooLong) else Ok(())
      ensures if r.Ok? then end == old(end) + |bytes| && Contents() == old(Contents()) + bytes
              else unchanged(this) && unchanged(storage)
    {
      hide Spliced;
      ghost var packet := Contents();
      r := ExtendTail(|bytes|);
      if r.Ok? {
        ghost var room := Contents()[|packet|..];
        SplicesBack(packet, room, bytes);
        assert Contents() == packet + room;
        Fill(end - start - |bytes|, bytes);
      }
    }

    method Read() returns (s: seq<Byte>)
      requires Valid()
      ensures s == Contents()
    {
      s := storage[start..end];
    }
  }
}
