/**
 TURN over a byte stream: control messages and ChannelData frames are cut out of whatever pieces
 the transport delivers, and ChannelData is written in place in front of a payload.
 */
module TurnStream {
  import opened Bytes
  import opened Packet
  import Stun

  const MAX_CONTROL: nat := 4096
  const MAX_DATA: nat := CAPACITY - HEADROOM
  const READ_BUFFER: nat := MAX_CONTROL

  datatype StreamError =
    | Unaligned | ControlTooLong | BadCookie | Reserved | DataTooLong
    | HardLimit | Closed | Overrun

  datatype Kind = ControlFrame(size: nat) | DataFrame(size: nat, padding: nat) {
    function Bytes(): nat {
      match this
      case ControlFrame(n) => n
      case DataFrame(n, p) => n + p
    }
  }

  /** What is missing from `n` to the next multiple of four. */
  function Padding(n: nat): (p: nat)
    ensures p < 4 && (n + p) % 4 == 0
  {
    Stun.Pad4(n) - n
  }

  lemma PaddingIs(n: nat)
    ensures Padding(n) == (4 - n % 4) % 4
  {
  }

  function FrameStart(bytes: seq<Byte>): (r: Result<Option<Kind>, StreamError>)
    ensures r.Ok? && r.value.Some? ==> 4 <= r.value.value.Bytes() <= MAX_CONTROL
    ensures r.Ok? && r.value.None? ==> |bytes| < 8
    ensures r != Err(HardLimit) && r != Err(Overrun)
  {
    if |bytes| < 4 then Ok(None)
    else
      var declared := Word16(bytes[2], bytes[3]);
      if bytes[0] < 0x40 then
        if declared % 4 != 0 then Err(Unaligned)
        else if 20 + declared > MAX_CONTROL then Err(ControlTooLong)
        else if |bytes| < 8 then Ok(None)
        else if bytes[4..8] != Stun.MAGIC_COOKIE then Err(BadCookie)
        else Ok(Some(ControlFrame(20 + declared)))
      else if bytes[0] >= 0x80 then Err(Reserved)
      else if 4 + declared + Padding(declared) > MAX_DATA then Err(DataTooLong)
      else Ok(Some(DataFrame(4 + declared, Padding(declared))))
  }

  datatype Frame = Control(wire: seq<Byte>) | Data(wire: seq<Byte>)

  datatype Decoded = NeedMore | Found(frame: Frame, rest: seq<Byte>) | Failed(error: StreamError)

  /** Cuts the frame that starts the bytes off, once it is there in full. */
  function Cut(bytes: seq<Byte>, kind: Kind): (r: Decoded)
    requires 4 <= kind.Bytes() <= MAX_CONTROL
    ensures r.Found? ==> r.frame.wire + r.rest == bytes && r.frame.wire != []
    ensures r.NeedMore? ==> |bytes| < MAX_CONTROL
    ensures !r.Failed?
  {
    var n := kind.Bytes();
    if |bytes| < n then NeedMore
    else Found(if kind.ControlFrame? then Control(bytes[..n]) else Data(bytes[..n]), bytes[n..])
  }

  /** What the decoder makes of the bytes it has. */
  function Decode(bytes: seq<Byte>): (r: Decoded)
    ensures r.Found? ==> r.frame.wire + r.rest == bytes && r.frame.wire != []
    ensures r.NeedMore? ==> |bytes| < MAX_CONTROL
    ensures r != Failed(HardLimit) && r != Failed(Overrun)
  {
    match FrameStart(bytes)
    case Err(e) => Failed(e)
    case Ok(None) => NeedMore
    case Ok(Some(kind)) => Cut(bytes, kind)
  }

  lemma StartIsStable(bytes: seq<Byte>, more: seq<Byte>)
    requires FrameStart(bytes) != Ok(None)
    ensures FrameStart(bytes + more) == FrameStart(bytes)
  {
    if |bytes| >= 8 { assert (bytes + more)[4..8] == bytes[4..8]; }
  }

  /** A verdict on the first bytes is the verdict on any longer input. */
  lemma VerdictIsStable(bytes: seq<Byte>, more: seq<Byte>)
    requires !Decode(bytes).NeedMore?
    ensures Decode(bytes + more) == match Decode(bytes)
                                    case Found(f, rest) => Found(f, rest + more)
                                    case v => v
  {
    hide FrameStart;
    StartIsStable(bytes, more);
    match FrameStart(bytes)
    case Ok(Some(kind)) =>
      assert (bytes + more)[..kind.Bytes()] == bytes[..kind.Bytes()];
      assert (bytes + more)[kind.Bytes()..] == bytes[kind.Bytes()..] + more;
    case _ =>
  }

  /**
   What a frame is. A STUN message starts with two zero bits, its length and the cookie, and has at most 4096 bytes;
   ChannelData starts with the bits 01, and is filled up to a multiple of four, 2240 bytes at most.
   */
  predicate IsFrame(f: Frame) {
    match f
    case Control(w) =>
      && 20 <= |w| <= 4096 && w[0] < 0x40 && |w| % 4 == 0
      && Word16(w[2], w[3]) == |w| - 20 && w[4..8] == [0x21, 0x12, 0xa4, 0x42]
    case Data(w) =>
      && 4 <= |w| <= 2240 && 0x40 <= w[0] < 0x80 && |w| % 4 == 0
      && |w| - 8 < Word16(w[2], w[3]) <= |w| - 4
  }

  /** A frame is cut off exactly if the bytes start with one. */
  lemma FramesExactly(bytes: seq<Byte>, f: Frame, rest: seq<Byte>)
    ensures Decode(bytes) == Found(f, rest) <==> IsFrame(f) && bytes == f.wire + rest
  {
    hide Decode, IsFrame;
    if Decode(bytes) == Found(f, rest) { FoundIsFrame(bytes); }
    if IsFrame(f) && bytes == f.wire + rest { FrameIsFound(f, rest); }
  }

  lemma FoundIsFrame(bytes: seq<Byte>)
    requires Decode(bytes).Found?
    ensures IsFrame(Decode(bytes).frame)
  {
    hide Padding, Word16;
    var declared := Word16(bytes[2], bytes[3]);
    PaddingFits(declared);
    var n := FrameStart(bytes).value.value.Bytes();
    var wire := bytes[..n];
    assert wire[0] == bytes[0] && wire[2] == bytes[2] && wire[3] == bytes[3];
    if bytes[0] < 0x40 {
      assert n == 20 + declared;
      assert wire[4..8] == bytes[4..8];
    } else {
      assert n == 4 + declared + Padding(declared);
    }
  }

  lemma FrameIsFound(f: Frame, rest: seq<Byte>)
    requires IsFrame(f)
    ensures Decode(f.wire + rest) == Found(f, rest)
  {
    hide Padding, Word16;
    var bytes := f.wire + rest;
    assert bytes[0] == f.wire[0] && bytes[2] == f.wire[2] && bytes[3] == f.wire[3];
    assert bytes[..|f.wire|] == f.wire && bytes[|f.wire|..] == rest;
    if f.Control? {
      assert bytes[4..8] == f.wire[4..8];
    } else {
      PaddingOnly(Word16(bytes[2], bytes[3]), |f.wire| - 4);
    }
  }

  lemma PaddingFits(n: nat)
    ensures Padding(n) < 4 && (n + Padding(n)) % 4 == 0
  {
  }

  lemma PaddingOnly(n: nat, total: nat)
    requires n <= total < n + 4 && total % 4 == 0
    ensures n + Padding(n) == total
  {
    PaddingIs(n);
  }

  /** Bytes that no frame can start with: what the reader says of them, as soon as it can tell. */
  lemma RefusedExactly(bytes: seq<Byte>)
    ensures Decode(bytes).Failed? <==>
            |bytes| >= 4
            && (|| bytes[0] >= 0x80
                || (bytes[0] >= 0x40 && 4 + Word16(bytes[2], bytes[3]) > 2240)
                || (bytes[0] < 0x40 && (Word16(bytes[2], bytes[3]) % 4 != 0 || Word16(bytes[2], bytes[3]) > 4076
                                        || (|bytes| >= 8 && bytes[4..8] != [0x21, 0x12, 0xa4, 0x42]))))
  {
    hide Padding;
    if |bytes| >= 4 {
      PaddingFits(Word16(bytes[2], bytes[3]));
      PaddingIs(Word16(bytes[2], bytes[3]));
    }
  }

  // ---------------------------------------------------------------- whole streams

  datatype Outcome = Outcome(frames: seq<Frame>, error: StreamError, rest: seq<Byte>)

  /** The frames of a stream that then ends, the error that stops the reader, and what is left. */
  function Frames(stream: seq<Byte>): Outcome
    decreases |stream|
  {
    match Decode(stream)
    case NeedMore => Outcome([], Closed, stream)
    case Failed(e) => Outcome([], e, stream)
    case Found(f, rest) =>
      assert |rest| < |stream| by { assert |f.wire + rest| == |f.wire| + |rest|; }
      var o := Frames(rest);
      o.(frames := [f] + o.frames)
  }

  function Wires(frames: seq<Frame>): seq<Byte> {
    if frames == [] then [] else frames[0].wire + Wires(frames[1..])
  }

  /** The frames and the leftover tile the stream. */
  lemma {:induction false} FramesTile(stream: seq<Byte>)
    ensures Wires(Frames(stream).frames) + Frames(stream).rest == stream
    decreases |stream|
  {
    hide Decode;
    match Decode(stream)
    case Found(f, rest) =>
      assert |f.wire + rest| == |f.wire| + |rest|;
      FramesTile(rest);
      var o := Frames(rest);
      assert ([f] + o.frames)[1..] == o.frames;
      assert f.wire + (Wires(o.frames) + o.rest) == (f.wire + Wires(o.frames)) + o.rest;
    case _ =>
  }

  function Flatten(pieces: seq<seq<Byte>>): seq<Byte> {
    if pieces == [] then [] else pieces[0] + Flatten(pieces[1..])
  }

  // ---------------------------------------------------------------- the reader

  datatype Received = ControlMessage(bytes: seq<Byte>) | Packet(packet: PacketBuf) | PacketDropped

  /** What one frame becomes, given whether the pool has a buffer for it. */
  ghost predicate Becomes(f: Frame, available: bool, r: Received)
    reads if r.Packet? then {r.packet, r.packet.storage} else {}
  {
    match f
    case Control(wire) => r == ControlMessage(wire)
    case Data(wire) =>
      if available then r.Packet? && r.packet.Valid() && r.packet.Contents() == wire else r == PacketDropped
  }

  method CopyChannelData(wire: seq<Byte>, available: bool) returns (r: Result<Received, StreamError>)
    requires |wire| <= MAX_DATA
    ensures r.Ok? && Becomes(Data(wire), available, r.value)
    ensures r.value.Packet? ==> fresh(r.value.packet) && fresh(r.value.packet.storage)
  {
    if !available {
      return Ok(PacketDropped);
    }
    var packet := new PacketBuf();
    var set_ := packet.SetReadLen(|wire|);
    if set_.Err? {
      return Err(Overrun);
    }
    packet.Fill(0, wire);
    return Ok(Packet(packet));
  }

  /** `input` holds the pieces the transport will still deliver; a read takes one of them. */
  class TurnStreamReader {
    var buffer: seq<Byte>
    var input: seq<seq<Byte>>

    ghost predicate Valid()
      reads this
    {
      forall i :: 0 <= i < |input| ==> input[i] != []
    }

    ghost function Stream(): seq<Byte>
      reads this
    {
      buffer + Flatten(input)
    }

    constructor (pieces: seq<seq<Byte>>)
      requires forall i :: 0 <= i < |pieces| ==> pieces[i] != []
      ensures Valid() && Stream() == Flatten(pieces)
    {
      buffer, input := [], pieces;
    }

    method DecodeFrame(available: bool) returns (r: Result<Option<Received>, StreamError>)
      requires Valid()
      modifies this
      ensures Valid() && input == old(input)
      ensures match Decode(old(buffer))
              case NeedMore => r == Ok(None) && buffer == old(buffer)
              case Failed(e) => r == Err(e) && buffer == old(buffer)
              case Found(f, rest) =>
                && r.Ok? && r.value.Some? && Becomes(f, available, r.value.value) && buffer == rest
      ensures r.Ok? && r.value.Some? && r.value.value.Packet? ==>
                fresh(r.value.value.packet) && fresh(r.value.value.packet.storage)
    {
      var bytes := buffer;
      var start := FrameStart(bytes);
      if start.Err? {
        return Err(start.error);
      }
      if start.value.None? {
        return Ok(None);
      }
      match start.value.value {
        case ControlFrame(size) =>
          if |bytes| < size {
            return Ok(None);
          }
          buffer := bytes[size..];
          return Ok(Some(ControlMessage(bytes[..size])));
        case DataFrame(size, padding) =>
          if |bytes| < size + padding {
            return Ok(None);
          }
          buffer := bytes[size + padding..];
          var frame := CopyChannelData(bytes[..size + padding], available);
          if frame.Err? {
            assert false;
          }
          return Ok(Some(frame.value));
      }
    }

    /**
     Reads until a frame is complete. The result depends on the bytes still to come and not on the
     pieces they come in. `patience` reads are waited for before the caller gives up, which loses
     nothing.
     */
    method ReadFrame(available: bool, patience: nat) returns (r: Option<Result<Received, StreamError>>)
      requires Valid()
      modifies this
      ensures Valid() && r != Some(Err(HardLimit)) && r != Some(Err(Overrun))
      ensures r.None? ==> Stream() == old(Stream()) && |input| + patience == |old(input)| && input != []
      ensures r.Some? ==>
                match Decode(old(Stream()))
                case NeedMore => r.value == Err(Closed) && Stream() == old(Stream())
                case Failed(e) => r.value == Err(e) && Stream() == old(Stream())
                case Found(f, rest) => r.value.Ok? && Becomes(f, available, r.value.value) && Stream() == rest
      ensures r.Some? && r.value.Ok? && r.value.value.Packet? ==>
                fresh(r.value.value.packet) && fresh(r.value.value.packet.storage)
    {
      var waited := 0;
      while true
        invariant Valid() && Stream() == old(Stream())
        invariant |old(input)| == |input| + waited && waited <= patience
        decreases |input|
      {
        if !Decode(buffer).NeedMore? { VerdictIsStable(buffer, Flatten(input)); }
        var frame := DecodeFrame(available);
        if frame.Err? {
          return Some(Err(frame.error));
        }
        if frame.value.Some? {
          return Some(Ok(frame.value.value));
        }
        if |buffer| >= READ_BUFFER {
          return Some(Err(HardLimit));
        }
        if input == [] {
          assert buffer + Flatten(input) == buffer;
          return Some(Err(Closed));
        }
        if waited == patience {
          return None;
        }
        assert buffer + Flatten(input) == (buffer + input[0]) + Flatten(input[1..]);
        buffer, input := buffer + input[0], input[1..];
        waited := waited + 1;
      }
    }
  }

  // ---------------------------------------------------------------- reading to the end

  datatype Delivery = Message(bytes: seq<Byte>) | Payload(bytes: seq<Byte>) | Lost

  function Delivered(f: Frame, available: bool): Delivery {
    match f
    case Control(wire) => Message(wire)
    case Data(wire) => if available then Payload(wire) else Lost
  }

  /** What the frames become when the pool's answers, frame by frame, are `available`. */
  function Deliveries(frames: seq<Frame>, available: nat -> bool): (r: seq<Delivery>)
    ensures |r| == |frames|
  {
    seq(|frames|, i requires 0 <= i < |frames| => Delivered(frames[i], available(i)))
  }

  lemma {:induction false} FramesStep(stream: seq<Byte>)
    requires Decode(stream).Found?
    ensures var v := Decode(stream); var o := Frames(v.rest);
            Frames(stream) == o.(frames := [v.frame] + o.frames)
  {
  }

  /** `all` is what is left of the stream with the frames already seen put in front. */
  ghost predicate Follows(all: Outcome, seen: seq<Frame>, stream: seq<Byte>) {
    var o := Frames(stream);
    all == o.(frames := seen + o.frames)
  }

  lemma FollowsNext(all: Outcome, seen: seq<Frame>, stream: seq<Byte>)
    requires Follows(all, seen, stream) && Decode(stream).Found?
    ensures Follows(all, seen + [Decode(stream).frame], Decode(stream).rest)
    ensures |Decode(stream).rest| < |stream|
  {
    hide Decode, Frames;
    var v := Decode(stream);
    FramesStep(stream);
    var o := Frames(v.rest);
    assert seen + ([v.frame] + o.frames) == (seen + [v.frame]) + o.frames;
    assert |v.frame.wire + v.rest| == |v.frame.wire| + |v.rest|;
  }

  lemma FollowsEnd(all: Outcome, seen: seq<Frame>, stream: seq<Byte>)
    requires Follows(all, seen, stream) && !Decode(stream).Found?
    ensures all == Outcome(seen, if Decode(stream).NeedMore? then Closed else Decode(stream).error, stream)
  {
    FramesEnd(stream);
    assert seen + [] == seen;
  }

  lemma DeliveredNext(seen: seq<Frame>, f: Frame, available: nat -> bool)
    ensures Deliveries(seen + [f], available) == Deliveries(seen, available) + [Delivered(f, available(|seen|))]
  {
  }

  /** One read, with the packet's bytes taken out of its buffer. */
  method ReadOne(reader: TurnStreamReader, available: bool, patience: nat)
    returns (r: Option<Result<Delivery, StreamError>>)
    requires reader.Valid()
    modifies reader
    ensures reader.Valid()
    ensures r.None? ==> reader.Stream() == old(reader.Stream()) && |reader.input| + patience == |old(reader.input)|
    ensures r.Some? ==>
              var v := Decode(old(reader.Stream()));
              if v.Found? then r.value == Ok(Delivered(v.frame, available)) && reader.Stream() == v.rest
              else && r.value == Err(if v.NeedMore? then Closed else v.error)
                   && reader.Stream() == old(reader.Stream())
  {
    hide Decode;
    var frame := reader.ReadFrame(available, patience);
    if frame.None? {
      return None;
    }
    if frame.value.Err? {
      return Some(Err(frame.value.error));
    }
    match frame.value.value {
      case ControlMessage(bytes) => return Some(Ok(Message(bytes)));
      case Packet(packet) =>
        var bytes := packet.Read();
        return Some(Ok(Payload(bytes)));
      case PacketDropped => return Some(Ok(Lost));
    }
  }

  /**
   The driver's loop: frames are read until the first error, giving up `patience` reads at a time.
   The deliveries and the error are those of the stream, whatever pieces it arrives in.
   */
  method ReadAll(reader: TurnStreamReader, available: nat -> bool, patience: nat)
    returns (deliveries: seq<Delivery>, error: StreamError)
    requires reader.Valid() && patience > 0
    modifies reader
    ensures deliveries == Deliveries(Frames(old(reader.Stream())).frames, available)
    ensures error == Frames(old(reader.Stream())).error
    ensures reader.Stream() == Frames(old(reader.Stream())).rest
  {
    hide Decode, Frames, Deliveries, Follows, TurnStreamReader.Stream;
    ghost var all := Frames(reader.Stream());
    ghost var seen: seq<Frame> := [];
    deliveries := [];
    FollowsStart(reader.Stream(), available);
    while true
      invariant reader.Valid()
      invariant deliveries == Deliveries(seen, available)
      invariant Follows(all, seen, reader.Stream())
      decreases |reader.Stream()|, |reader.input|
    {
      ghost var stream := reader.Stream();
      var r := ReadOne(reader, available(|deliveries|), patience);
      if r.Some? {
        if r.value.Err? {
          FollowsEnd(all, seen, stream);
          return deliveries, r.value.error;
        }
        FollowsNext(all, seen, stream);
        DeliveredNext(seen, Decode(stream).frame, available);
        seen := seen + [Decode(stream).frame];
        deliveries := deliveries + [r.value.value];
      }
    }
  }

  lemma FollowsStart(stream: seq<Byte>, available: nat -> bool)
    ensures Follows(Frames(stream), [], stream) && Deliveries([], available) == []
  {
    assert [] + Frames(stream).frames == Frames(stream).frames;
  }

  lemma {:induction false} FramesEnd(stream: seq<Byte>)
    ensures Decode(stream).NeedMore? ==> Frames(stream) == Outcome([], Closed, stream)
    ensures Decode(stream).Failed? ==> Frames(stream) == Outcome([], Decode(stream).error, stream)
  {
  }

  // ---------------------------------------------------------------- ChannelData

  predicate ChannelNumber(channel: U16) { 0x4000 <= channel <= 0x7fff }

  function ChannelData(channel: U16, payload: seq<Byte>): (wire: seq<Byte>)
    requires |payload| < 0x1_0000
    ensures |wire| == 4 + |payload| + Padding(|payload|)
  {
    Be16(channel) + Be16(|payload|) + payload + Zeros(Padding(|payload|))
  }

  datatype ChannelError = BadChannel | PayloadTooLong | NoRoom

  function ChannelPadding(channel: U16, start: nat, end: nat): (r: Result<nat, ChannelError>)
    requires start <= end <= CAPACITY
    ensures r.Ok? <==> ChannelNumber(channel) && start >= 4 && end + Padding(end - start) <= CAPACITY
    ensures r.Ok? ==> r.value == Padding(end - start)
  {
    if !ChannelNumber(channel) then Err(BadChannel)
    else if end - start > 0xffff then Err(PayloadTooLong)
    else if start < 4 || end + Padding(end - start) > CAPACITY then Err(NoRoom)
    else Ok(Padding(end - start))
  }

  /** Frames the packet in place, or leaves it exactly as it was. */
  method EncodeChannelData(packet: PacketBuf, channel: U16) returns (r: Result<(), ChannelError>)
    requires packet.Valid()
    modifies packet, packet.storage
    ensures packet.Valid()
    ensures var p := ChannelPadding(channel, old(packet.start), old(packet.end));
            r == if p.Ok? then Ok(()) else Err(p.error)
    ensures r.Ok? ==>
              |old(packet.Contents())| < 0x1_0000 && packet.Contents() == ChannelData(channel, old(packet.Contents()))
    ensures r.Err? ==> unchanged(packet) && unchanged(packet.storage)
  {
    hide Be16, Zeros, ChannelData;
    var padding := ChannelPadding(channel, packet.start, packet.end);
    if padding.Err? {
      return Err(padding.error);
    }
    var length := packet.end - packet.start;
    ghost var payload := packet.Contents();
    var extended := packet.AppendBytes(Zeros(padding.value));
    var prepended := packet.PrependBytes(Be16(channel) + Be16(length));
    Assembled(channel, payload);
    return Ok(());
  }

  lemma Assembled(channel: U16, payload: seq<Byte>)
    requires |payload| < 0x1_0000
    ensures (Be16(channel) + Be16(|payload|)) + (payload + Zeros(Padding(|payload|))) == ChannelData(channel, payload)
  {
  }

  function ChannelDataHeader(wire: seq<Byte>): (r: Option<(U16, nat)>)
    ensures r.Some? ==> 4 + r.value.1 <= |wire| <= 7 + r.value.1
  {
    if |wire| < 4 || !(0x40 <= wire[0] < 0x80) then None
    else
      var channel := Word16(wire[0], wire[1]);
      if !ChannelNumber(channel) then None
      else
        var length := Word16(wire[2], wire[3]);
        if length > |wire| - 4 then None
        else if |wire| - 4 - length > 3 then None
        else Some((channel, length))
  }

  lemma HeaderBytes(channel: U16, length: U16, rest: seq<Byte>)
    ensures var w := Be16(channel) + Be16(length) + rest;
            && Word16(w[0], w[1]) == channel && Word16(w[2], w[3]) == length
            && (ChannelNumber(channel) <==> 0x40 <= w[0] < 0x80)
  {
    hide Word16;
    var w := Be16(channel) + Be16(length) + rest;
    assert w[0..2] == Be16(channel) && w[2..4] == Be16(length);
    assert w[0] == Be16(channel)[0] && w[1] == Be16(channel)[1];
    FirstOctet(w[0], w[1]);
  }

  lemma FirstOctet(hi: Byte, lo: Byte)
    ensures ChannelNumber(Word16(hi, lo)) <==> 0x40 <= hi < 0x80
  {
  }

  /** A datagram is taken as ChannelData exactly if it is a header, its payload and up to three more bytes. */
  lemma HeaderExactly(wire: seq<Byte>, channel: U16, length: U16)
    ensures ChannelDataHeader(wire) == Some((channel, length)) <==>
            && ChannelNumber(channel)
            && 4 + length <= |wire| <= 7 + length
            && wire[..4] == Be16(channel) + Be16(length)
  {
    if |wire| >= 4 {
      HeaderBytes(channel, length, wire[4..]);
      assert wire == wire[..4] + wire[4..];
      Be16Inverse(wire[0], wire[1]);
      Be16Inverse(wire[2], wire[3]);
      assert wire[..4] == [wire[0], wire[1]] + [wire[2], wire[3]];
      FirstOctet(wire[0], wire[1]);
    }
  }

  /** What `EncodeChannelData` writes reads back as the same channel and payload. */
  lemma ChannelDataReadsBack(channel: U16, payload: seq<Byte>)
    requires ChannelNumber(channel) && |payload| < 0x1_0000
    ensures var wire := ChannelData(channel, payload);
            && ChannelDataHeader(wire) == Some((channel, |payload|))
            && wire[4..4 + |payload|] == payload
  {
    hide Be16;
    var wire := ChannelData(channel, payload);
    assert wire[..4] == Be16(channel) + Be16(|payload|);
    HeaderExactly(wire, channel, |payload|);
  }

  /** Framed ChannelData in front of a stream is its first frame exactly if it fits a packet. */
  lemma StreamTakesChannelData(channel: U16, payload: seq<Byte>, rest: seq<Byte>)
    requires ChannelNumber(channel) && |payload| < 0x1_0000
    ensures var wire := ChannelData(channel, payload);
            Decode(wire + rest) == if |wire| <= MAX_DATA then Found(Data(wire), rest) else Failed(DataTooLong)
  {
    hide Be16, Word16, Padding;
    var wire := ChannelData(channel, payload);
    var body := payload + Zeros(Padding(|payload|));
    HeaderBytes(channel, |payload|, body + rest);
    assert wire + rest == Be16(channel) + Be16(|payload|) + (body + rest);
    assert (wire + rest)[..|wire|] == wire && (wire + rest)[|wire|..] == rest;
  }

  /** The longest packet a worker reads is framed by the encoder and then refused by the decoder. */
  lemma FramedButRefused(rest: seq<Byte>)
    ensures var payload := Zeros(MAX_DATA);
            && ChannelPadding(0x4000, HEADROOM, HEADROOM + |payload|) == Ok(0)
            && Decode(ChannelData(0x4000, payload) + rest) == Failed(DataTooLong)
  {
    hide Decode, ChannelData, Zeros;
    PaddingIs(MAX_DATA);
    StreamTakesChannelData(0x4000, Zeros(MAX_DATA), rest);
  }

  /** A STUN message in front of a stream is its first frame exactly if it fits the read buffer. */
  lemma StreamTakesMessage(raw: seq<Byte>, rest: seq<Byte>)
    requires Stun.Parse(raw).Ok?
    ensures Decode(raw + rest) == if |raw| <= MAX_CONTROL then Found(Control(raw), rest) else Failed(ControlTooLong)
  {
    hide Stun.WalkDefect;
    var all := raw + rest;
    assert all[4..8] == raw[4..8];
    assert all[..|raw|] == raw && all[|raw|..] == rest;
  }

  datatype Unit = Channel(channel: U16, payload: seq<Byte>) | Stun_(raw: seq<Byte>) {
    predicate Fits() {
      match this
      case Channel(c, p) => ChannelNumber(c) && 4 + |p| + Padding(|p|) <= MAX_DATA
      case Stun_(raw) => Stun.Parse(raw).Ok? && |raw| <= MAX_CONTROL
    }

    function Framed(): Frame
      requires Fits()
    {
      match this
      case Channel(c, p) => Data(ChannelData(c, p))
      case Stun_(raw) => Control(raw)
    }
  }

  predicate AllFit(units: seq<Unit>) { forall i :: 0 <= i < |units| ==> units[i].Fits() }

  function FramedAll(units: seq<Unit>): seq<Frame>
    requires AllFit(units)
  {
    if units == [] then [] else [units[0].Framed()] + FramedAll(units[1..])
  }

  lemma UnitDecodes(u: Unit, rest: seq<Byte>)
    requires u.Fits()
    ensures Decode(u.Framed().wire + rest) == Found(u.Framed(), rest)
  {
    match u
    case Channel(c, p) => StreamTakesChannelData(c, p, rest);
    case Stun_(raw) => StreamTakesMessage(raw, rest);
  }

  /** Any mixture of ChannelData and STUN messages written one after the other is read back as it was. */
  lemma {:induction false} StreamRoundTrip(units: seq<Unit>)
    requires AllFit(units)
    ensures Frames(Wires(FramedAll(units))) == Outcome(FramedAll(units), Closed, [])
  {
    if units != [] {
      hide Decode, Unit.Fits, Unit.Framed;
      var f, rest := units[0].Framed(), FramedAll(units[1..]);
      assert ([f] + rest)[1..] == rest;
      UnitDecodes(units[0], Wires(rest));
      FramesStep(f.wire + Wires(rest));
      StreamRoundTrip(units[1..]);
    }
  }
}
