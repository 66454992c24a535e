/**
 The replay window: a ring of 16384 bits in 256 words that must decide like an unbounded
 record of every counter ever accepted, and the extension of 16-bit RTP sequence numbers.
 */
module ReplayWindow {
  import opened Bytes

  const SPAN: nat := 16384
  const CYCLE: nat := 0x1_0000
  const HALF: nat := 0x8000

  // ---------------------------------------------------------------- the reference

  /** Every counter accepted so far, and the highest of them. */
  datatype Record = Record(highest: Option<U64>, accepted: set<U64>) {
    ghost predicate Valid() {
      match highest
      case None => accepted == {}
      case Some(h) => h in accepted && forall c :: c in accepted ==> c <= h
    }

    /** A counter is fresh if it was never accepted and is less than `SPAN` behind the highest. */
    predicate Fresh(c: U64) {
      c !in accepted && (highest.None? || highest.value < c + SPAN)
    }

    function Accept(c: U64): (r: Record)
      ensures Valid() ==> r.Valid()
      ensures accepted <= r.accepted
    {
      if !Fresh(c) then this
      else Record(Some(if highest.None? then c else Max(highest.value, c)), accepted + {c})
    }
  }

  function Empty(): Record { Record(None, {}) }

  function Run(r: Record, counters: seq<U64>): Record
    decreases |counters|
  {
    if counters == [] then r else Run(r.Accept(counters[0]), counters[1..])
  }

  lemma {:induction false} RunKeeps(r: Record, counters: seq<U64>)
    requires r.Valid()
    ensures Run(r, counters).Valid() && r.accepted <= Run(r, counters).accepted
    decreases |counters|
  {
    if counters != [] { RunKeeps(r.Accept(counters[0]), counters[1..]); }
  }

  /** No counter is accepted twice, however many other counters arrive in between. */
  lemma AcceptedOnce(before: seq<U64>, c: U64, between: seq<U64>)
    ensures var r := Run(Empty(), before); !Run(r.Accept(c), between).Fresh(c) || !r.Fresh(c)
  {
    var r := Run(Empty(), before);
    RunKeeps(Empty(), before);
    RunKeeps(r.Accept(c), between);
  }

  /** All of them differ and lie within one window. */
  predicate Close(counters: seq<U64>) {
    && (forall i, j | 0 <= i < j < |counters| :: counters[i] != counters[j])
    && (forall i, j | 0 <= i < |counters| && 0 <= j < |counters| :: counters[i] as int < counters[j] as int + 16384)
  }

  /** Counters that differ and lie within one window are all accepted, in whatever order they come. */
  lemma {:induction false} ReorderingIsAccepted(counters: seq<U64>)
    requires Close(counters)
    ensures var r := Run(Empty(), counters);
            && (forall c: U64 :: c in r.accepted <==> c in counters)
            && (r.highest.Some? <==> counters != []) && (r.highest.Some? ==> r.highest.value in counters)
    decreases |counters|
  {
    if counters != [] {
      var n := |counters| - 1;
      var first, last := counters[..n], counters[n];
      ReorderingIsAccepted(first);
      RunSnoc(Empty(), first, last);
      assert first + [last] == counters;
      assert last !in first;
    }
  }

  lemma {:induction false} RunSnoc(r: Record, counters: seq<U64>, c: U64)
    ensures Run(r, counters + [c]) == Run(r, counters).Accept(c)
    decreases |counters|
  {
    if counters == [] {
      assert counters + [c] == [c] && [c][1..] == [];
      assert Run(r.Accept(c), []) == r.Accept(c);
    } else {
      assert (counters + [c])[0] == counters[0] && (counters + [c])[1..] == counters[1..] + [c];
      RunSnoc(r.Accept(counters[0]), counters[1..], c);
    }
  }

  /** A counter 16384 or more behind one that was accepted is refused, on every run. */
  lemma LateIsRefused(before: seq<U64>, c: U64, seen: U64)
    requires var r := Run(Empty(), before); seen in r.accepted && c + 16384 <= seen
    ensures !Run(Empty(), before).Fresh(c)
  {
    RunKeeps(Empty(), before);
  }

  /** One ahead of all that was accepted, by however much, is accepted. */
  lemma AheadIsAccepted(before: seq<U64>, c: U64)
    requires var r := Run(Empty(), before); forall a: U64 | a in r.accepted :: a < c
    ensures Run(Empty(), before).Fresh(c) && Run(Empty(), before).Accept(c).highest == Some(c)
  {
    RunKeeps(Empty(), before);
  }

  // ---------------------------------------------------------------- bits in words

  function Mask(b: nat): bv64
    requires b < 64
  {
    1 << (b as bv6)
  }

  lemma PositionExact(b: nat)
    requires b < 64
    ensures (b as bv6) as nat == b
  {
  }

  lemma ShiftsDiffer(a: bv6, b: bv6)
    requires a != b
    ensures ((1 as bv64) << a) & ((1 as bv64) << b) == 0
  {
  }

  lemma ShiftNonzero(a: bv6)
    ensures Meets((1 as bv64) << a, (1 as bv64) << a)
  {
  }

  lemma MaskNonzero(b: nat)
    requires b < 64
    ensures Meets(Mask(b), Mask(b))
  {
    ShiftNonzero(b as bv6);
  }

  lemma MasksDiffer(a: nat, b: nat)
    requires a < 64 && b < 64 && a != b
    ensures !Meets(Mask(a), Mask(b))
  {
    PositionExact(a);
    PositionExact(b);
    ShiftsDiffer(a as bv6, b as bv6);
  }

  function WithMask(w: bv64, m: bv64): bv64 { w | m }

  function WithoutMask(w: bv64, m: bv64): bv64 { w & !m }

  function And(w: bv64, m: bv64): bv64 { w & m }

  predicate Meets(w: bv64, m: bv64) { And(w, m) != 0 }

  lemma WithSame(w: bv64, m: bv64)
    ensures And(WithMask(w, m), m) == m && And(m, m) == m
  {
  }

  lemma WithoutSame(w: bv64, m: bv64)
    ensures And(WithoutMask(w, m), m) == 0
  {
  }

  lemma WithOther(w: bv64, m: bv64, n: bv64)
    requires And(m, n) == 0
    ensures And(WithMask(w, m), n) == And(w, n)
  {
  }

  lemma WithoutOther(w: bv64, m: bv64, n: bv64)
    requires And(m, n) == 0
    ensures And(WithoutMask(w, m), n) == And(w, n)
  {
  }

  predicate WordBit(w: bv64, b: nat)
    requires b < 64
  {
    Meets(w, Mask(b))
  }

  lemma WordBitSet(w: bv64, b: nat, other: nat)
    requires b < 64 && other < 64
    ensures WordBit(WithMask(w, Mask(b)), other) == (other == b || WordBit(w, other))
    ensures WordBit(WithoutMask(w, Mask(b)), other) == (other != b && WordBit(w, other))
  {
    hide Mask, And, WithMask, WithoutMask;
    MaskNonzero(b);
    if other == b {
      WithSame(w, Mask(b));
      WithoutSame(w, Mask(b));
    } else {
      MasksDiffer(b, other);
      WithOther(w, Mask(b), Mask(other));
      WithoutOther(w, Mask(b), Mask(other));
    }
  }

  predicate BitAt(words: seq<bv64>, slot: nat)
    requires |words| == 256 && slot < SPAN
  {
    WordBit(words[slot / 64], slot % 64)
  }

  lemma SlotParts(a: nat, b: nat)
    requires a < SPAN && b < SPAN && a != b
    ensures a / 64 < 256 && (a / 64 == b / 64 ==> a % 64 != b % 64)
  {
  }

  function Slot(c: nat): (s: nat)
    ensures s < SPAN
  {
    c % SPAN
  }

  /** Counters less than one span apart have different slots. */
  lemma SlotsDiffer(a: nat, b: nat)
    requires a < b < a + SPAN
    ensures Slot(a) != Slot(b)
  {
    assert b - a == (b / SPAN - a / SPAN) * SPAN + (Slot(b) - Slot(a));
  }

  // ---------------------------------------------------------------- the window

  class Window {
    var highest: Option<U64>
    const seen: array<bv64>
    ghost var record: Record

    /** Inside the span below the highest counter, the bits are the record. */
    ghost predicate Valid()
      reads this, seen
    {
      && seen.Length == 256
      && record.Valid() && record.highest == highest
      && (highest.None? ==> forall i | 0 <= i < 256 :: seen[i] == 0)
      && (highest.Some? ==> Mirrors(seen[..], record.accepted, highest.value - SPAN + 1, highest.value))
    }

    constructor ()
      ensures Valid() && record == Empty() && fresh(seen)
    {
      highest := None;
      seen := new bv64[256](_ => 0);
      record := Empty();
    }

    method Accept(counter: U64) returns (ok: bool)
      requires Valid()
      modifies this, seen
      ensures Valid()
      ensures ok == old(record).Fresh(counter)
      ensures record == old(record).Accept(counter)
    {
      hide BitAt, Slot, Mirrors, Clear, Put;
      ghost var accepted := record.accepted;
      if highest.None? {
        NothingYet(seen[..], counter);
        Admit(counter, counter);
        return true;
      }
      var top := highest.value;
      if counter > top {
        var shift := counter - top;
        if shift >= SPAN {
          forall i | 0 <= i < 256 { seen[i] := 0; }
          AllClear(seen[..], accepted, top, counter);
        } else {
          NothingCleared(seen[..], top);
          for i := 1 to shift + 1
            modifies seen
            invariant Mirrors(seen[..], accepted, top - SPAN + i, top)
            invariant Clear(seen[..], top + 1, top + i - 1)
          {
            ghost var before := seen[..];
            ClearBit(top + i);
            ClearStep(before, seen[..], accepted, top, i);
          }
          Cleared(seen[..], accepted, top, counter);
        }
        MirrorsLess(seen[..], accepted, counter - SPAN + 1, counter - 1, counter, counter);
        Admit(counter, counter);
        return true;
      }
      var age := top - counter;
      if age >= SPAN { return false; }
      var already := TestBit(counter);
      MirrorsAt(seen[..], accepted, top - SPAN + 1, top, counter);
      if already { return false; }
      MirrorsLess(seen[..], accepted, top - SPAN + 1, top, top, counter);
      Admit(counter, top);
      return true;
    }

    /** Records a fresh counter, `top` being the highest counter after it. */
    method Admit(counter: U64, top: U64)
      requires seen.Length == 256 && record.Valid() && record.highest == highest && record.Fresh(counter)
      requires top == if highest.None? then counter else Max(highest.value, counter)
      requires top < counter + SPAN && MirrorsBut(seen[..], record.accepted, top - SPAN + 1, top, counter)
      modifies this, seen
      ensures Valid() && record == old(record).Accept(counter)
    {
      hide BitAt, Slot, Mirrors, MirrorsBut, Put;
      ghost var before := seen[..];
      highest := Some(top);
      SetBit(counter);
      SetStep(before, seen[..], record.accepted, top, counter);
      record := record.Accept(counter);
    }

    method SetBit(counter: U64)
      requires seen.Length == 256
      modifies seen
      ensures Put(old(seen[..]), seen[..], Slot(counter), true)
    {
      hide BitAt, Mask, WithMask, WithoutMask;
      var idx := Slot(counter);
      ghost var words := seen[..];
      seen[idx / 64] := WithMask(seen[idx / 64], Mask(idx % 64));
      forall s | 0 <= s < SPAN
        ensures BitAt(seen[..], s) == (s == idx || BitAt(words, s))
      {
        BitSet(words, idx, s);
      }
    }

    method ClearBit(counter: U64)
      requires seen.Length == 256
      modifies seen
      ensures Put(old(seen[..]), seen[..], Slot(counter), false)
    {
      hide BitAt, Mask, WithMask, WithoutMask;
      var idx := Slot(counter);
      ghost var words := seen[..];
      seen[idx / 64] := WithoutMask(seen[idx / 64], Mask(idx % 64));
      forall s | 0 <= s < SPAN
        ensures BitAt(seen[..], s) == (s != idx && BitAt(words, s))
      {
        BitSet(words, idx, s);
      }
    }

    method TestBit(counter: U64) returns (b: bool)
      requires seen.Length == 256
      ensures b == BitAt(seen[..], Slot(counter))
    {
      hide Mask, Meets;
      var idx := Slot(counter);
      b := Meets(seen[idx / 64], Mask(idx % 64));
    }

    method AcceptRtp(sequence: U16) returns (ok: bool)
      requires Valid()
      modifies this, seen
      ensures Valid()
      ensures ok == old(record).Fresh(Extended(old(record), sequence))
      ensures record == old(record).Accept(Extended(old(record), sequence))
    {
      if highest.None? {
        ok := Accept(sequence);
        return;
      }
      ok := Accept(Extend(highest.value, sequence));
    }
  }

  /** `words` and `after` differ at most in one slot, which now holds `v`. */
  ghost predicate Put(words: seq<bv64>, after: seq<bv64>, slot: nat, v: bool) {
    && |words| == |after| == 256 && slot < SPAN
    && forall s | 0 <= s < SPAN :: BitAt(after, s) == if s == slot then v else BitAt(words, s)
  }

  /** For every counter from `low` to `high`, its bit tells whether it was accepted. */
  ghost predicate Mirrors(words: seq<bv64>, accepted: set<U64>, low: int, high: int) {
    |words| == 256 && forall c: nat | low <= c <= high :: BitAt(words, Slot(c)) == (c in accepted)
  }

  ghost predicate MirrorsBut(words: seq<bv64>, accepted: set<U64>, low: int, high: int, but: nat) {
    |words| == 256 && forall c: nat | low <= c <= high && c != but :: BitAt(words, Slot(c)) == (c in accepted)
  }

  ghost predicate Clear(words: seq<bv64>, low: int, high: int) {
    |words| == 256 && forall c: nat | low <= c <= high :: !BitAt(words, Slot(c))
  }

  lemma BitSet(words: seq<bv64>, idx: nat, s: nat)
    requires |words| == 256 && idx < SPAN && s < SPAN
    ensures idx / 64 < 256
    ensures BitAt(words[idx / 64 := WithMask(words[idx / 64], Mask(idx % 64))], s) == (s == idx || BitAt(words, s))
    ensures BitAt(words[idx / 64 := WithoutMask(words[idx / 64], Mask(idx % 64))], s) == (s != idx && BitAt(words, s))
  {
    hide Mask, WordBit, WithMask, WithoutMask;
    if s / 64 == idx / 64 {
      WordBitSet(words[idx / 64], idx % 64, s % 64);
    }
    if s != idx { SlotParts(s, idx); }
  }

  lemma MirrorsAt(words: seq<bv64>, accepted: set<U64>, low: int, high: int, c: nat)
    requires Mirrors(words, accepted, low, high) && low <= c <= high
    ensures BitAt(words, Slot(c)) == (c in accepted)
  {
    hide BitAt, Slot;
  }

  lemma MirrorsLess(words: seq<bv64>, accepted: set<U64>, low: int, high: int, top: int, but: nat)
    requires Mirrors(words, accepted, low, high) && top <= high + 1 && (top > high ==> but == top)
    ensures MirrorsBut(words, accepted, low, top, but)
  {
    hide BitAt, Slot;
  }

  lemma NothingYet(words: seq<bv64>, counter: nat)
    requires |words| == 256 && forall i | 0 <= i < 256 :: words[i] == 0
    ensures MirrorsBut(words, {}, counter - SPAN + 1, counter, counter)
  {
    forall c: nat ensures !BitAt(words, Slot(c)) { ZeroWord(words, Slot(c)); }
  }

  lemma ZeroWord(words: seq<bv64>, slot: nat)
    requires |words| == 256 && slot < SPAN && forall i | 0 <= i < 256 :: words[i] == 0
    ensures !BitAt(words, slot)
  {
  }

  lemma AllClear(words: seq<bv64>, accepted: set<U64>, top: nat, counter: nat)
    requires |words| == 256 && forall i | 0 <= i < 256 :: words[i] == 0
    requires counter >= top + SPAN && forall c :: c in accepted ==> c <= top
    ensures Mirrors(words, accepted, counter - SPAN + 1, counter - 1)
  {
    forall c: nat ensures !BitAt(words, Slot(c)) { ZeroWord(words, Slot(c)); }
  }

  lemma NothingCleared(words: seq<bv64>, top: nat)
    requires |words| == 256
    ensures Clear(words, top + 1, top)
  {
  }

  /** Clearing the next slot leaves one counter fewer below, and one cleared counter more above. */
  lemma ClearStep(words: seq<bv64>, after: seq<bv64>, accepted: set<U64>, top: nat, i: nat)
    requires 1 <= i < SPAN && Put(words, after, Slot(top + i), false)
    requires Mirrors(words, accepted, top - SPAN + i, top) && Clear(words, top + 1, top + i - 1)
    ensures Mirrors(after, accepted, top - SPAN + i + 1, top) && Clear(after, top + 1, top + i)
  {
    hide BitAt, Slot;
    forall c: nat | top - SPAN + i + 1 <= c < top + i ensures Slot(c) != Slot(top + i) { SlotsDiffer(c, top + i); }
  }

  lemma Cleared(words: seq<bv64>, accepted: set<U64>, top: nat, counter: nat)
    requires Mirrors(words, accepted, counter - SPAN + 1, top) && Clear(words, top + 1, counter)
    requires forall c :: c in accepted ==> c <= top
    ensures Mirrors(words, accepted, counter - SPAN + 1, counter - 1)
  {
    hide BitAt, Slot;
  }

  lemma SetStep(words: seq<bv64>, after: seq<bv64>, accepted: set<U64>, top: U64, counter: U64)
    requires counter <= top < counter + SPAN && Put(words, after, Slot(counter), true)
    requires MirrorsBut(words, accepted, top - SPAN + 1, top, counter)
    ensures Mirrors(after, accepted + {counter}, top - SPAN + 1, top)
  {
    hide BitAt, Slot;
    forall c: nat | top - SPAN + 1 <= c <= top && c != counter ensures Slot(c) != Slot(counter) {
      if c < counter { SlotsDiffer(c, counter); } else { SlotsDiffer(counter, c); }
    }
  }

  // ---------------------------------------------------------------- sequence numbers

  function SaturatingAdd(a: U64, b: U64): U64 { Min(a + b, WORD - 1) }

  /** The counter a 16-bit sequence number is taken for, next to the highest one. */
  function Extend(top: U64, sequence: U16): U64 {
    var base := top - top % CYCLE;
    var e: U64 := base + sequence;
    if SaturatingAdd(e, HALF) < top then SaturatingAdd(e, CYCLE)
    else if e > SaturatingAdd(top, HALF) && e >= CYCLE then e - CYCLE
    else e
  }

  function Extended(r: Record, sequence: U16): U64 {
    if r.highest.None? then sequence else Extend(r.highest.value, sequence)
  }

  /** `Extend` by the cycle q and the position t of the highest counter. */
  function ExtendAt(q: nat, t: nat, low: nat): int {
    var e := q * CYCLE + low;
    if low + HALF < t then e + CYCLE
    else if low > t + HALF && q > 0 then e - CYCLE
    else e
  }

  lemma ExtendByParts(top: U64, low: U16)
    ensures var q, t := top / CYCLE, top % CYCLE;
            ExtendAt(q, t, low) < WORD ==> Extend(top, low) == ExtendAt(q, t, low)
    ensures Extend(top, low) != ExtendAt(top / CYCLE, top % CYCLE, low) ==>
              Extend(top, low) == WORD - 1 && low < CYCLE - 1
  {
    assert top == top / CYCLE * CYCLE + top % CYCLE;
  }

  /**
   Exactly when a counter is recovered from its low 16 bits: in the cycle of the highest counter when at most
   half a cycle away (no forward limit in cycle 0), in a neighbouring cycle when strictly less than that.
   */
  lemma ExtendExact(top: U64, c: U64)
    ensures Extend(top, c % CYCLE) == c <==>
              var q, k := top / CYCLE, c / CYCLE;
              || (k == q && top <= c + HALF && (c <= top + HALF || q == 0))
              || (k == q + 1 && c < top + HALF)
              || (k + 1 == q && top < c + HALF)
  {
    hide Extend;
    var q, t, k, low := top / CYCLE, top % CYCLE, c / CYCLE, c % CYCLE;
    assert top == q * CYCLE + t && c == k * CYCLE + low;
    ExtendByParts(top, low);
  }

  /** A counter 40000 behind the highest is taken for one 25536 ahead of it. */
  lemma NotRecovered()
    ensures Extend(0x2_0000, (0x2_0000 - 40000) % CYCLE) == 0x2_0000 + 25536
  {
  }

  /** So half a cycle less one, either way, always suffices. */
  lemma ExtendNear(top: U64, c: U64)
    requires c < top + HALF && top < c + HALF
    ensures Extend(top, c % CYCLE) == c
  {
    hide Extend;
    ExtendExact(top, c);
    NearCycles(top, c);
  }

  lemma NearCycles(top: nat, c: nat)
    requires c < top + HALF && top < c + HALF
    ensures -1 <= c / CYCLE - top / CYCLE <= 1
  {
  }

  function RunRtp(r: Record, sequences: seq<U16>): Record
    decreases |sequences|
  {
    if sequences == [] then r else RunRtp(r.Accept(Extended(r, sequences[0])), sequences[1..])
  }

  /** Each true index is at most 32767 from the highest so far, and none precedes the cycle that starts at `offset`. */
  predicate Near(r: Record, indices: seq<nat>, offset: nat)
    decreases |indices|
  {
    indices != [] ==>
      && offset <= indices[0] < offset + WORD
      && (match r.highest
          case None => indices[0] - offset < CYCLE
          case Some(top) => indices[0] - offset < top + HALF && top < indices[0] - offset + HALF)
      && Near(r.Accept(indices[0] - offset), indices[1..], offset)
  }

  function LowHalves(indices: seq<nat>): seq<U16> {
    seq(|indices|, i requires 0 <= i < |indices| => indices[i] % CYCLE)
  }

  function Shifted(indices: seq<nat>, offset: nat): seq<U64>
    requires forall i | 0 <= i < |indices| :: offset <= indices[i] < offset + WORD
  {
    seq(|indices|, i requires 0 <= i < |indices| => indices[i] - offset)
  }

  lemma {:induction false} NearAbove(r: Record, indices: seq<nat>, offset: nat)
    requires Near(r, indices, offset)
    ensures forall i | 0 <= i < |indices| :: offset <= indices[i] < offset + WORD
    decreases |indices|
  {
    if indices != [] {
      NearAbove(r.Accept(indices[0] - offset), indices[1..], offset);
      assert forall i | 1 <= i < |indices| :: indices[i] == indices[1..][i - 1];
    }
  }

  lemma LowHalfShift(x: nat, offset: nat)
    requires offset <= x && offset % CYCLE == 0
    ensures x % CYCLE == (x - offset) % CYCLE
  {
    var q := offset / CYCLE;
    assert offset == q * CYCLE;
  }

  /** Across any number of wraps, deciding on the low 16 bits is deciding on the true index less a constant. */
  lemma {:induction false} RtpDecidesOnTrueIndex(r: Record, indices: seq<nat>, offset: nat)
    requires Near(r, indices, offset) && offset % CYCLE == 0
    ensures forall i | 0 <= i < |indices| :: offset <= indices[i] < offset + WORD
    ensures RunRtp(r, LowHalves(indices)) == Run(r, Shifted(indices, offset))
    decreases |indices|
  {
    hide Extend, Record.Accept;
    NearAbove(r, indices, offset);
    if indices != [] {
      var x := indices[0] - offset;
      LowHalfShift(indices[0], offset);
      if r.highest.Some? { ExtendNear(r.highest.value, x); }
      RtpDecidesOnTrueIndex(r.Accept(x), indices[1..], offset);
      assert LowHalves(indices)[1..] == LowHalves(indices[1..]);
      assert Shifted(indices, offset)[1..] == Shifted(indices[1..], offset);
    }
  }
}
