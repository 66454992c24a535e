/**
 RTP-shaped wrapping of packets in place: an RTP header with two extensions in front, and behind
 the encrypted payload an authentication tag and padding. The ciphers are arbitrary functions of
 which only decryption after encryption is known.
 */
module Obfs {
  import opened Bytes
  import opened Packet
  import Stun

  datatype Mode = Audio | Video

  const HEADER: nat := 24
  const SRTP_TAG: nat := 10
  const AEAD_TAG: nat := 16

  type Digest = Stun.Digest

  /**
   `keystream(iv, i)` is the i-th byte of the counter-mode key stream, `seal` and `open` the
   authenticated cipher with a separate tag, `debris` what a failed `open` leaves behind.
   */
  datatype Cipher = Cipher(
    keystream: (seq<Byte>, nat) -> Byte,
    hmac: seq<Byte> -> Digest,
    seal: (seq<Byte>, seq<Byte>, seq<Byte>) -> (seq<Byte>, seq<Byte>),
    open: (seq<Byte>, seq<Byte>, seq<Byte>, seq<Byte>) -> Option<seq<Byte>>,
    debris: (seq<Byte>, seq<Byte>, seq<Byte>, seq<Byte>) -> seq<Byte>)

  ghost predicate Lawful(c: Cipher) {
    && (forall n, a, p :: |c.seal(n, a, p).0| == |p| && |c.seal(n, a, p).1| == AEAD_TAG)
    && (forall n, a, p :: c.open(n, a, c.seal(n, a, p).0, c.seal(n, a, p).1) == Some(p))
    && (forall n, a, x, t :: c.open(n, a, x, t).Some? ==> |c.open(n, a, x, t).value| == |x|)
    && (forall n, a, x, t :: |c.debris(n, a, x, t)| == |x|)
  }

  function Masked(c: Cipher, iv: seq<Byte>, data: seq<Byte>): (r: seq<Byte>)
    ensures |r| == |data|
  {
    seq(|data|, i requires 0 <= i < |data| => Xor(data[i], c.keystream(iv, i)))
  }

  lemma MaskedTwice(c: Cipher, iv: seq<Byte>, data: seq<Byte>)
    ensures Masked(c, iv, Masked(c, iv, data)) == data
  {
    hide Xor;
    forall i | 0 <= i < |data|
      ensures Masked(c, iv, Masked(c, iv, data))[i] == data[i]
    {
      XorTwice(data[i], c.keystream(iv, i));
    }
  }

  datatype Config = Config(paddingMax: nat, ssrc: U32, payloadType: Byte, mode: Mode)

  function NewConfig(mode: Mode, ssrc: U32): Config {
    match mode
    case Audio => Config(24, ssrc, 111, Audio)
    case Video => Config(60, ssrc, 96, Video)
  }

  function Nonce(ssrc: U32, sequence: U16, timestamp: U32): (n: seq<Byte>)
    ensures |n| == 12
  {
    Be32(ssrc) + Be16(sequence) + [0, 0] + Be32(timestamp)
  }

  function SrtpIv(ssrc: U32, sequence: U16, timestamp: U32): (n: seq<Byte>)
    ensures |n| == 16
  {
    Nonce(ssrc, sequence, timestamp) + [0, 0, 0, 0]
  }

  // ---------------------------------------------------------------- what is sent

  /** The fields of one RTP header. `sendTime` has 24 bits. */
  datatype Rtp = Rtp(payloadType: Byte, marker: bool, sequence: U16, timestamp: U32, ssrc: U32,
                     sendTime: U32, transport: U16)

  function Header(h: Rtp): (b: seq<Byte>)
    requires h.payloadType < 0x80
    ensures |b| == HEADER
  {
    [0xb0, if h.marker then h.payloadType + 0x80 else h.payloadType]
    + Be16(h.sequence) + Be32(h.timestamp) + Be32(h.ssrc)
    + [0xbe, 0xde] + Be16(2)
    + [0x32] + Be32(h.sendTime)[1..] + [0x51] + Be16(h.transport) + [0]
  }

  function Trailer(padding: seq<Byte>): (b: seq<Byte>)
    requires |padding| < 0xff
    ensures |b| == |padding| + 1
  {
    padding + [(|padding| + 1) as Byte]
  }

  function VideoBody(c: Cipher, h: Rtp, payload: seq<Byte>, padding: seq<Byte>): seq<Byte>
    requires |padding| < 0xff
  {
    Masked(c, SrtpIv(h.ssrc, h.sequence, h.timestamp), payload) + Trailer(padding)
  }

  function Tag(c: Cipher, signed: seq<Byte>): (t: seq<Byte>)
    ensures |t| == SRTP_TAG
  {
    c.hmac(signed)[..SRTP_TAG]
  }

  function AudioBody(c: Cipher, h: Rtp, payload: seq<Byte>, padding: seq<Byte>): seq<Byte>
    requires |padding| < 0xff && h.payloadType < 0x80
  {
    var sealed := c.seal(Nonce(h.ssrc, h.sequence, h.timestamp), Header(h), payload);
    sealed.0 + sealed.1 + Trailer(padding)
  }

  function Wire(c: Cipher, mode: Mode, h: Rtp, payload: seq<Byte>, padding: seq<Byte>): seq<Byte>
    requires |padding| < 0xff && h.payloadType < 0x80
  {
    match mode
    case Audio => Header(h) + AudioBody(c, h, payload, padding)
    case Video =>
      var signed := Header(h) + VideoBody(c, h, payload, padding);
      signed + Tag(c, signed)
  }

  // ---------------------------------------------------------------- what is received

  datatype UnwrapError =
    | NotRtp | BadType | ShortExtension | ShortHeader | MissingTag | BadTag | BadPadding
    | NotAudio | NoPayload | BadSeal

  datatype Fields = Fields(payloadType: Byte, sequence: U16, timestamp: U32, ssrc: U32, size: nat, padded: bool)

  predicate Bit(b: Byte, weight: Byte)
    requires weight != 0
  {
    b / weight % 2 == 1
  }

  function Parse(wire: seq<Byte>): (r: Result<Fields, UnwrapError>)
    ensures r.Ok? ==> 12 <= r.value.size <= |wire| && 13 <= |wire|
  {
    if |wire| < 13 || !(0x80 <= wire[0] < 0xc0) then Err(NotRtp)
    else
      var kind := wire[1] % 0x80;
      if kind != 111 && kind != 96 && kind != 6 then Err(BadType)
      else if Bit(wire[0], 0x10) && |wire| < 16 then Err(ShortExtension)
      else
        var size := 12 + if Bit(wire[0], 0x10) then 4 + 4 * Word16(wire[14], wire[15]) else 0;
        if |wire| < size then Err(ShortHeader)
        else Ok(Fields(kind, Word16(wire[2], wire[3]), Word32(wire[4..8]), Word32(wire[8..12]), size,
                       Bit(wire[0], 0x20)))
  }

  /** Where the payload ends once the padding in front of `end` is taken off. */
  function Unpadded(wire: seq<Byte>, f: Fields, end: nat): (r: Result<nat, UnwrapError>)
    requires f.size <= end <= |wire| && 0 < end
    ensures r.Ok? ==> f.size <= r.value <= end
  {
    if !f.padded then Ok(end)
    else
      var padding := wire[end - 1] as nat;
      if padding == 0 || padding > end - f.size then Err(BadPadding) else Ok(end - padding)
  }

  /** The payload lies between `from` and `to` and decrypts to `payload`. */
  datatype Opened = Opened(sequence: U16, from: nat, to: nat, payload: seq<Byte>)

  function UnwrapVideo(c: Cipher, wire: seq<Byte>, f: Fields): (r: Result<Opened, UnwrapError>)
    requires 12 <= f.size <= |wire|
    ensures r.Ok? ==> f.size == r.value.from <= r.value.to <= |wire| && |r.value.payload| == r.value.to - r.value.from
  {
    if |wire| < f.size + SRTP_TAG then Err(MissingTag)
    else
      var tagAt := |wire| - SRTP_TAG;
      if Tag(c, wire[..tagAt]) != wire[tagAt..] then Err(BadTag)
      else match Unpadded(wire, f, tagAt)
           case Err(e) => Err(e)
           case Ok(end) =>
             Ok(Opened(f.sequence, f.size, end, Masked(c, SrtpIv(f.ssrc, f.sequence, f.timestamp), wire[f.size..end])))
  }

  /** Where the sealed payload and its tag end. */
  function SealedEnd(wire: seq<Byte>, f: Fields): (r: Result<nat, UnwrapError>)
    requires 12 <= f.size <= |wire|
    ensures r.Ok? ==> f.size + AEAD_TAG < r.value <= |wire|
  {
    if f.payloadType != 111 then Err(NotAudio)
    else match Unpadded(wire, f, |wire|)
         case Err(e) => Err(e)
         case Ok(end) => if end <= f.size + AEAD_TAG then Err(NoPayload) else Ok(end)
  }

  function UnwrapAudio(c: Cipher, wire: seq<Byte>, f: Fields): Result<Opened, UnwrapError>
    requires 12 <= f.size <= |wire|
  {
    match SealedEnd(wire, f)
    case Err(e) => Err(e)
    case Ok(end) =>
      var tagAt := end - AEAD_TAG;
      match c.open(Nonce(f.ssrc, f.sequence, f.timestamp), wire[..f.size], wire[f.size..tagAt], wire[tagAt..end])
      case None => Err(BadSeal)
      case Some(payload) => Ok(Opened(f.sequence, f.size, tagAt, payload))
  }

  function Unwrapped(c: Cipher, wire: seq<Byte>, mode: Mode): Result<Opened, UnwrapError> {
    match Parse(wire)
    case Err(e) => Err(e)
    case Ok(f) => if mode.Video? then UnwrapVideo(c, wire, f) else UnwrapAudio(c, wire, f)
  }

  predicate IsRtpPacket(wire: seq<Byte>) {
    && |wire| >= 13
    && 0x80 <= wire[0] < 0xc0
    && (wire[1] % 0x80 == 111 || wire[1] % 0x80 == 96 || wire[1] % 0x80 == 6)
  }

  // ---------------------------------------------------------------- the round trip

  predicate Supported(payloadType: Byte) { payloadType == 111 || payloadType == 96 || payloadType == 6 }

  function FieldsOf(h: Rtp): Fields {
    Fields(h.payloadType, h.sequence, h.timestamp, h.ssrc, HEADER, true)
  }

  lemma HeaderSlices(h: Rtp, rest: seq<Byte>)
    requires h.payloadType < 0x80
    ensures var w := Header(h) + rest;
            && w[0] == 0xb0 && w[1] == (if h.marker then h.payloadType + 0x80 else h.payloadType)
            && w[2..4] == Be16(h.sequence) && w[4..8] == Be32(h.timestamp) && w[8..12] == Be32(h.ssrc)
            && w[14..16] == Be16(2)
  {
    hide Be16, Be32;
  }

  lemma HeaderParses(h: Rtp, rest: seq<Byte>)
    requires Supported(h.payloadType)
    ensures Parse(Header(h) + rest) == Ok(FieldsOf(h)) && IsRtpPacket(Header(h) + rest)
  {
    hide Be16, Be32, Word32, Header;
    var w := Header(h) + rest;
    HeaderSlices(h, rest);
    assert Word16(w[2..4][0], w[2..4][1]) == h.sequence;
    assert Word16(w[14..16][0], w[14..16][1]) == 2;
    assert Word32(w[4..8]) == h.timestamp && Word32(w[8..12]) == h.ssrc;
  }

  // ---------------------------------------------------------------- the extension block

  /** One extension as a reader sees it: its number, and its bytes as a big-endian number. */
  datatype Element = Element(id: nat, value: nat)

  function BigEndian(bytes: seq<Byte>): nat {
    if bytes == [] then 0 else 0x100 * BigEndian(bytes[..|bytes| - 1]) + bytes[|bytes| - 1] as nat
  }

  /** The elements of a block with one-byte element headers (section 4.2 of RFC 8285); zero bytes are padding. */
  function Elements(block: seq<Byte>): Option<seq<Element>> {
    if block == [] then Some([])
    else if block[0] == 0 then Elements(block[1..])
    else
      var size := block[0] as nat % 16 + 1;
      if |block| < 1 + size then None
      else match Elements(block[1 + size..])
           case None => None
           case Some(rest) => Some([Element(block[0] as nat / 16, BigEndian(block[1..1 + size]))] + rest)
  }

  /** What a reader of RTP header extensions (section 5.3.1 of RFC 3550) gets out of a packet without CSRCs. */
  function Extensions(wire: seq<Byte>): Option<seq<Element>> {
    if |wire| < 16 || !Bit(wire[0], 0x10) || wire[0] % 0x10 != 0 || wire[12..14] != [0xbe, 0xde] then None
    else
      var size := 4 * Word16(wire[14], wire[15]);
      if |wire| < 16 + size then None else Elements(wire[16..16 + size])
  }

  lemma ThreeBytes(a: Byte, b: Byte, c: Byte)
    ensures BigEndian([a, b, c]) == a as nat * 0x1_0000 + b as nat * 0x100 + c as nat
  {
    TwoBytes(a, b);
    assert [a, b, c][..2] == [a, b];
  }

  lemma TwoBytes(a: Byte, b: Byte)
    ensures BigEndian([a, b]) == a as nat * 0x100 + b as nat
  {
    assert [a, b][..1] == [a] && [a][..0] == [];
    assert BigEndian([a]) == a as nat;
  }

  lemma LowThree(n: U32)
    requires n < 0x100_0000
    ensures BigEndian(Be32(n)[1..]) == n
  {
    hide Be32;
    var b := Be32(n);
    assert Word32(b) == n;
    ThreeBytes(b[1], b[2], b[3]);
    assert b[1..] == [b[1], b[2], b[3]];
  }

  lemma ElementFirst(block: seq<Byte>, id: nat, size: nat)
    requires 0 < size <= 16 && 1 + size <= |block|
    requires block[0] != 0 && block[0] as nat == 16 * id + size - 1
    ensures Elements(block) == match Elements(block[1 + size..])
                               case None => None
                               case Some(rest) => Some([Element(id, BigEndian(block[1..1 + size]))] + rest)
  {
    hide BigEndian;
    assert block[0] as nat % 16 == size - 1 && block[0] as nat / 16 == id;
  }

  lemma OnlyPadding()
    ensures Elements([0]) == Some([])
  {
    assert [0 as Byte][1..] == [];
    assert Elements([]) == Some([]);
  }

  lemma BlockReads(sendTime: U32, transport: U16)
    requires sendTime < 0x100_0000
    ensures Elements([0x32] + Be32(sendTime)[1..] + [0x51] + Be16(transport) + [0])
            == Some([Element(3, sendTime), Element(5, transport)])
  {
    hide Be16, Be32, BigEndian, Elements;
    var t, n := Be32(sendTime)[1..], Be16(transport);
    var last := [0x51] + n + [0];
    var block := [0x32] + t + last;
    assert |t| == 3 && |n| == 2;
    assert block == [0x32] + t + [0x51] + n + [0];
    LowThree(sendTime);
    TwoBytes(n[0], n[1]);
    assert n == [n[0], n[1]];
    assert last[1..3] == n && last[3..] == [0];
    OnlyPadding();
    ElementFirst(last, 5, 2);
    assert Word16(n[0], n[1]) == transport && BigEndian(n) == transport;
    assert [Element(5, transport)] + [] == [Element(5, transport)];
    assert block[1..4] == t && block[4..] == last;
    ElementFirst(block, 3, 3);
    assert [Element(3, sendTime)] + [Element(5, transport)] == [Element(3, sendTime), Element(5, transport)];
  }

  /** The header in front of every packet carries send time and transport number where a reader finds them. */
  lemma ExtensionsRead(h: Rtp, rest: seq<Byte>)
    requires h.payloadType < 0x80 && h.sendTime < 0x100_0000
    ensures Extensions(Header(h) + rest) == Some([Element(3, h.sendTime), Element(5, h.transport)])
  {
    hide Be16, Be32, Elements;
    var w := Header(h) + rest;
    assert w[14..16] == Be16(2) && Word16(w[14..16][0], w[14..16][1]) == 2;
    assert w[12..14] == [0xbe, 0xde];
    assert w[16..24] == [0x32] + Be32(h.sendTime)[1..] + [0x51] + Be16(h.transport) + [0];
    BlockReads(h.sendTime, h.transport);
  }

  // ---------------------------------------------------------------- the payload

  lemma TrailerUnpads(h: Rtp, front: seq<Byte>, padding: seq<Byte>, after: seq<Byte>)
    requires |padding| < 0xff && |front| >= HEADER
    ensures Unpadded(front + Trailer(padding) + after, FieldsOf(h), |front| + |padding| + 1) == Ok(|front|)
  {
  }

  lemma VideoRoundTrip(c: Cipher, h: Rtp, payload: seq<Byte>, padding: seq<Byte>)
    requires |padding| < 0xff && Supported(h.payloadType)
    ensures UnwrapVideo(c, Wire(c, Video, h, payload, padding), FieldsOf(h))
            == Ok(Opened(h.sequence, HEADER, HEADER + |payload|, payload))
  {
    hide Header, Masked, Tag, SrtpIv, Trailer, Unpadded;
    var iv := SrtpIv(h.ssrc, h.sequence, h.timestamp);
    var cover := Masked(c, iv, payload);
    var signed := Header(h) + VideoBody(c, h, payload, padding);
    var wire := Wire(c, Video, h, payload, padding);
    var tagAt := |signed|;
    assert wire[..tagAt] == signed && wire[tagAt..] == Tag(c, signed);
    var front := Header(h) + cover;
    assert wire == front + Trailer(padding) + Tag(c, signed);
    TrailerUnpads(h, front, padding, Tag(c, signed));
    assert wire[HEADER..|front|] == cover;
    MaskedTwice(c, iv, payload);
  }

  lemma AudioRoundTrip(c: Cipher, h: Rtp, payload: seq<Byte>, padding: seq<Byte>)
    requires Lawful(c) && |padding| < 0xff && h.payloadType == 111 && payload != []
    ensures UnwrapAudio(c, Wire(c, Audio, h, payload, padding), FieldsOf(h))
            == Ok(Opened(h.sequence, HEADER, HEADER + |payload|, payload))
  {
    hide Header, Nonce, Trailer, Unpadded;
    var nonce := Nonce(h.ssrc, h.sequence, h.timestamp);
    var sealed := c.seal(nonce, Header(h), payload);
    var front := Header(h) + sealed.0 + sealed.1;
    var wire := Wire(c, Audio, h, payload, padding);
    assert wire == front + Trailer(padding) + [];
    TrailerUnpads(h, front, padding, []);
    assert |wire| == |front| + |padding| + 1;
    var tagAt := |front| - AEAD_TAG;
    assert wire[..HEADER] == Header(h);
    assert wire[HEADER..tagAt] == sealed.0;
    assert wire[tagAt..|front|] == sealed.1;
  }

  /** Unwrapping what was wrapped gives back the payload and its sequence number, in either mode. */
  lemma RoundTrip(c: Cipher, mode: Mode, h: Rtp, payload: seq<Byte>, padding: seq<Byte>)
    requires Lawful(c) && |padding| < 0xff && payload != []
    requires Supported(h.payloadType) && (mode.Audio? ==> h.payloadType == 111)
    ensures var wire := Wire(c, mode, h, payload, padding);
            && Unwrapped(c, wire, mode) == Ok(Opened(h.sequence, HEADER, HEADER + |payload|, payload))
            && IsRtpPacket(wire)
  {
    hide Header, Parse, IsRtpPacket, UnwrapVideo, UnwrapAudio, Tag, VideoBody, AudioBody, Lawful;
    match mode
    case Audio =>
      HeaderParses(h, AudioBody(c, h, payload, padding));
      AudioRoundTrip(c, h, payload, padding);
    case Video =>
      var body := VideoBody(c, h, payload, padding);
      var signed := Header(h) + body;
      assert signed + Tag(c, signed) == Header(h) + (body + Tag(c, signed));
      HeaderParses(h, body + Tag(c, signed));
      VideoRoundTrip(c, h, payload, padding);
  }

  /** What any reader of RTP gets out of the packet. */
  predicate ReadsAs(wire: seq<Byte>, h: Rtp) {
    && Parse(wire) == Ok(FieldsOf(h)) && IsRtpPacket(wire)
    && (wire[1] >= 0x80 <==> h.marker)
    && Extensions(wire) == Some([Element(3, h.sendTime), Element(5, h.transport)])
  }

  lemma WireIsHeaderFirst(c: Cipher, mode: Mode, h: Rtp, payload: seq<Byte>, padding: seq<Byte>)
    returns (rest: seq<Byte>)
    requires |padding| < 0xff && h.payloadType < 0x80
    ensures Wire(c, mode, h, payload, padding) == Header(h) + rest
  {
    hide Header, VideoBody, AudioBody, Tag;
    match mode
    case Audio => rest := AudioBody(c, h, payload, padding);
    case Video =>
      var body := VideoBody(c, h, payload, padding);
      rest := body + Tag(c, Header(h) + body);
      assert Header(h) + body + Tag(c, Header(h) + body) == Header(h) + rest;
  }

  lemma WireReads(c: Cipher, mode: Mode, h: Rtp, payload: seq<Byte>, padding: seq<Byte>)
    requires |padding| < 0xff && Supported(h.payloadType) && h.sendTime < 0x100_0000
    ensures ReadsAs(Wire(c, mode, h, payload, padding), h)
  {
    hide Header, Wire, Parse, Extensions;
    var rest := WireIsHeaderFirst(c, mode, h, payload, padding);
    HeaderParses(h, rest);
    ExtensionsRead(h, rest);
    HeaderSlices(h, rest);
  }

  /** A wrapped packet is longer by the header, one to as many bytes of padding as its kind may have, and the tag. */
  lemma WireSize(c: Cipher, config: Config, h: Rtp, payload: seq<Byte>, d: Draws)
    requires Lawful(c) && h.payloadType < 0x80 && config == NewConfig(config.mode, config.ssrc) && Drawn(config, d)
    ensures var more := |Wire(c, config.mode, h, payload, d.padding)| - |payload|;
            if config.mode.Video? then 35 <= more <= 94 else 41 <= more <= 64
  {
    hide Header, Masked, Tag, Nonce, SrtpIv;
  }

  // ---------------------------------------------------------------- what is accepted

  /** The packet starts with an RTP header of version 2: twelve bytes, and an extension if the first one says so. */
  ghost predicate RtpHeader(wire: seq<Byte>, f: Fields) {
    && 12 <= f.size <= |wire|
    && 0x80 <= wire[0] < 0xc0 && (f.padded <==> wire[0] / 0x20 % 2 == 1)
    && Supported(f.payloadType) && (wire[1] == f.payloadType || wire[1] == f.payloadType + 0x80)
    && wire[2..12] == Be16(f.sequence) + Be32(f.timestamp) + Be32(f.ssrc)
    && (if wire[0] / 0x10 % 2 == 1
        then f.size >= 16 && (f.size - 16) % 4 == 0 && wire[14..16] == Be16Of((f.size - 16) / 4)
        else f.size == 12)
  }

  /** Two bytes, big end first, if they hold the number. */
  function Be16Of(n: nat): seq<Byte> { if n < 0x1_0000 then Be16(n) else [] }

  lemma TypeByte(b: Byte, kind: Byte)
    ensures b % 0x80 == kind && Supported(kind) <==> Supported(kind) && (b == kind || b == kind + 0x80)
  {
  }

  /** A packet is taken for RTP exactly if it starts with such a header and has more than twelve bytes. */
  lemma ParsesExactly(wire: seq<Byte>, f: Fields)
    ensures Parse(wire) == Ok(f) <==> 13 <= |wire| && RtpHeader(wire, f)
  {
    hide Be16, Be32, Word16, Word32, Be16Of, Supported;
    if |wire| >= 13 {
      FixedBytes(wire, f);
      TypeByte(wire[1], f.payloadType);
      SupportedIs(wire[1] % 0x80);
      if |wire| >= 16 { ExtensionWords(wire, f); }
    }
  }

  lemma SupportedIs(kind: Byte)
    ensures Supported(kind) <==> kind == 111 || kind == 96 || kind == 6
  {
  }

  lemma FixedBytes(wire: seq<Byte>, f: Fields)
    requires |wire| >= 12
    ensures wire[2..12] == Be16(f.sequence) + Be32(f.timestamp) + Be32(f.ssrc) <==>
            Word16(wire[2], wire[3]) == f.sequence && Word32(wire[4..8]) == f.timestamp && Word32(wire[8..12]) == f.ssrc
  {
    hide Be16, Be32, Word16, Word32;
    var fixed := Be16(f.sequence) + Be32(f.timestamp) + Be32(f.ssrc);
    Be16Inverse(wire[2], wire[3]);
    Be32Inverse(wire[4..8]);
    Be32Inverse(wire[8..12]);
    assert wire[2..12] == wire[2..4] + wire[4..8] + wire[8..12] && wire[2..4] == [wire[2], wire[3]];
    assert fixed[0..2] == Be16(f.sequence) && fixed[2..6] == Be32(f.timestamp) && fixed[6..10] == Be32(f.ssrc);
    if wire[2..12] == fixed {
      assert wire[2..4] == fixed[0..2] && wire[4..8] == fixed[2..6] && wire[8..12] == fixed[6..10];
    }
  }

  lemma ExtensionWords(wire: seq<Byte>, f: Fields)
    requires |wire| >= 16
    ensures f.size >= 16 ==>
              (f.size == 16 + 4 * Word16(wire[14], wire[15]) <==>
               (f.size - 16) % 4 == 0 && wire[14..16] == Be16Of((f.size - 16) / 4))
  {
    hide Be16, Word16;
    Be16Inverse(wire[14], wire[15]);
    assert wire[14..16] == [wire[14], wire[15]];
  }

  lemma Be32Inverse(b: seq<Byte>)
    requires |b| == 4
    ensures Be32(Word32(b)) == b
  {
    hide Be16, Word16;
    Be16Inverse(b[0], b[1]);
    Be16Inverse(b[2], b[3]);
  }

  /** Padding as RTP has it: its last byte counts it. */
  predicate PaddedBy(f: Fields, padding: seq<Byte>) {
    if f.padded then padding != [] && padding[|padding| - 1] as nat == |padding| else padding == []
  }

  lemma UnpaddedExactly(wire: seq<Byte>, f: Fields, end: nat, to: nat)
    requires f.size <= end <= |wire| && 0 < end
    ensures Unpadded(wire, f, end) == Ok(to) <==> f.size <= to <= end && PaddedBy(f, wire[to..end])
  {
  }

  /** A video packet is a header, the masked payload, padding and the tag of all that. */
  ghost predicate VideoPacket(c: Cipher, wire: seq<Byte>, f: Fields, body: seq<Byte>, padding: seq<Byte>)
    requires f.size <= |wire|
  {
    var signed := wire[..f.size] + body + padding;
    wire == signed + Tag(c, signed) && PaddedBy(f, padding)
  }

  /** Exactly such packets are accepted, and unmasked. */
  lemma VideoAcceptsExactly(c: Cipher, wire: seq<Byte>, f: Fields, o: Opened)
    requires 12 <= f.size <= |wire|
    ensures UnwrapVideo(c, wire, f) == Ok(o) <==>
            && o.sequence == f.sequence && o.from == f.size <= o.to && o.to + SRTP_TAG <= |wire|
            && VideoPacket(c, wire, f, wire[f.size..o.to], wire[o.to..|wire| - SRTP_TAG])
            && o.payload == Masked(c, SrtpIv(f.ssrc, f.sequence, f.timestamp), wire[f.size..o.to])
  {
    hide Masked, Tag, SrtpIv, Unpadded, PaddedBy;
    if |wire| >= f.size + SRTP_TAG {
      var end := |wire| - SRTP_TAG;
      UnpaddedExactly(wire, f, end, o.to);
      assert wire == wire[..end] + wire[end..];
      if f.size <= o.to <= end {
        assert wire[..f.size] + wire[f.size..o.to] + wire[o.to..end] == wire[..end];
      }
    }
  }

  /** An audio packet is a header of that type, the sealed payload, its tag and padding. */
  ghost predicate AudioPacket(wire: seq<Byte>, f: Fields, sealed: seq<Byte>, tag: seq<Byte>, padding: seq<Byte>)
    requires f.size <= |wire|
  {
    && f.payloadType == 111 && sealed != [] && |tag| == AEAD_TAG && PaddedBy(f, padding)
    && wire == wire[..f.size] + sealed + tag + padding
  }

  /** Exactly such packets are accepted whose seal opens under their header and number, to what it opens to. */
  lemma AudioAcceptsExactly(c: Cipher, wire: seq<Byte>, f: Fields, o: Opened)
    requires 12 <= f.size <= |wire|
    ensures UnwrapAudio(c, wire, f) == Ok(o) <==>
            && o.sequence == f.sequence && o.from == f.size <= o.to && o.to + AEAD_TAG <= |wire|
            && var sealed, tag := wire[f.size..o.to], wire[o.to..o.to + AEAD_TAG];
            && AudioPacket(wire, f, sealed, tag, wire[o.to + AEAD_TAG..])
            && c.open(Nonce(f.ssrc, f.sequence, f.timestamp), wire[..f.size], sealed, tag) == Some(o.payload)
  {
    hide Nonce, Unpadded, PaddedBy;
    UnpaddedExactly(wire, f, |wire|, o.to + AEAD_TAG);
    assert wire[..|wire|] == wire;
    if f.size <= o.to && o.to + AEAD_TAG <= |wire| {
      var tagged := o.to + AEAD_TAG;
      assert wire[..f.size] + wire[f.size..o.to] + wire[o.to..tagged] + wire[tagged..] == wire;
      assert wire[tagged..|wire|] == wire[tagged..];
    }
  }

  // ---------------------------------------------------------------- sender state

  /** Time since the state was made, in whole seconds and nanoseconds. */
  datatype Elapsed = Elapsed(seconds: nat, nanos: nat)

  function ClockRate(payloadType: Byte): nat { if payloadType == 96 then 90000 else 48000 }

  /** Elapsed time in ticks of a clock, cut down to 32 bits. */
  function Ticks(t: Elapsed, rate: nat): U32 {
    (t.seconds * rate + t.nanos * rate / 1_000_000_000) % WORD % 0x1_0000_0000
  }

  function SequenceAt(initial: U16, count: nat): U16 { (initial + count) % 0x1_0000 }

  /** What one call of `Wrap` draws from the clock and the random source. */
  datatype Draws = Draws(elapsed: Elapsed, padding: seq<Byte>, marker: bool)

  datatype Sender = Sender(count: U64, timestamp: U32, sendTime: U32, sequence: U16, transport: U16)

  function Advanced(s: Sender): Sender {
    s.(count := (s.count + 1) % WORD, transport := (s.transport + 1) % 0x1_0000)
  }

  function RtpFor(s: Sender, config: Config, d: Draws): Rtp {
    Rtp(config.payloadType,
        config.payloadType == 96 && d.marker,
        SequenceAt(s.sequence, s.count),
        (s.timestamp + Ticks(d.elapsed, ClockRate(config.payloadType))) % 0x1_0000_0000,
        config.ssrc,
        (s.sendTime + Ticks(d.elapsed, 262144)) % 0x100_0000,
        s.transport)
  }

  predicate Drawn(config: Config, d: Draws) {
    |d.padding| < Max(config.paddingMax, 1)
  }

  function Tail(config: Config, d: Draws): nat {
    |d.padding| + 1 + if config.mode.Video? then SRTP_TAG else AEAD_TAG
  }

  function After(s: Sender, wraps: nat): (r: Sender)
    ensures r.sequence == s.sequence
  {
    if wraps == 0 then s else Advanced(After(s, wraps - 1))
  }

  lemma {:induction false} CountAfter(s: Sender, wraps: nat)
    ensures After(s, wraps).count == (s.count + wraps) % WORD
  {
    if wraps > 0 {
      CountAfter(s, wraps - 1);
      ModAdd(s.count + wraps - 1);
    }
  }

  lemma {:induction false} TransportAfter(s: Sender, wraps: nat)
    ensures After(s, wraps).transport == (s.transport + wraps) % 0x1_0000
  {
    if wraps > 0 {
      TransportAfter(s, wraps - 1);
      ModAdd16(s.transport + wraps - 1, 1);
    }
  }

  lemma ModAdd(a: nat)
    ensures (a % WORD + 1) % WORD == (a + 1) % WORD
  {
  }

  /** The counter's wrap-around does not show in the 16-bit sequence number. */
  lemma SequenceAfter(s: Sender, wraps: nat)
    ensures SequenceAt(s.sequence, After(s, wraps).count) == (s.sequence + s.count + wraps) % 0x1_0000
  {
    CountAfter(s, wraps);
    var n := s.count + wraps;
    assert n % WORD == n - n / WORD * WORD;
    assert WORD == 0x1_0000 * 0x1_0000_0000_0000;
    var k := n / WORD * 0x1_0000_0000_0000;
    assert s.sequence + n == s.sequence + n % WORD + k * 0x1_0000;
    ModShift(s.sequence + n % WORD, k);
  }

  lemma ModShift(a: nat, k: nat)
    ensures (a + k * 0x1_0000) % 0x1_0000 == a % 0x1_0000
  {
  }

  lemma ModDiffer(a: nat, k: nat)
    requires 0 < k < 0x1_0000
    ensures a % 0x1_0000 != (a + k) % 0x1_0000
  {
  }

  lemma NonceInjective(ssrc: U32, s1: U16, t1: U32, s2: U16, t2: U32)
    requires Nonce(ssrc, s1, t1) == Nonce(ssrc, s2, t2)
    ensures s1 == s2 && t1 == t2
  {
    hide Nonce, Be16, Be32;
    NonceSlices(ssrc, s1, t1);
    NonceSlices(ssrc, s2, t2);
  }

  lemma NonceSlices(ssrc: U32, sequence: U16, timestamp: U32)
    ensures var n := Nonce(ssrc, sequence, timestamp); n[4..6] == Be16(sequence) && n[8..12] == Be32(timestamp)
  {
    hide Be16, Be32;
    SlicesOf(Be32(ssrc), Be16(sequence), Be32(timestamp));
  }

  lemma SlicesOf(a: seq<Byte>, b: seq<Byte>, c: seq<Byte>)
    requires |a| == 4 && |b| == 2 && |c| == 4
    ensures var n := a + b + [0, 0] + c; n[4..6] == b && n[8..12] == c
  {
  }

  /** Two wraps fewer than 65536 apart never share a nonce, whatever the clock says. */
  lemma NoncesDiffer(s: Sender, i: nat, j: nat, config: Config, d: Draws, e: Draws)
    requires i < j < i + 0x1_0000
    ensures var a, b := RtpFor(After(s, i), config, d), RtpFor(After(s, j), config, e);
            Nonce(a.ssrc, a.sequence, a.timestamp) != Nonce(b.ssrc, b.sequence, b.timestamp)
  {
    hide Nonce, Ticks;
    var a, b := RtpFor(After(s, i), config, d), RtpFor(After(s, j), config, e);
    SequenceAfter(s, i);
    SequenceAfter(s, j);
    ModDiffer(s.sequence + s.count + i, j - i);
    if Nonce(a.ssrc, a.sequence, a.timestamp) == Nonce(b.ssrc, b.sequence, b.timestamp) {
      NonceInjective(a.ssrc, a.sequence, a.timestamp, b.sequence, b.timestamp);
    }
  }

  lemma {:induction false} BigEndianInjective(a: seq<Byte>, b: seq<Byte>)
    requires |a| == |b| && BigEndian(a) == BigEndian(b)
    ensures a == b
    decreases |a|
  {
    if a != [] {
      var n := |a| - 1;
      BigEndianInjective(a[..n], b[..n]);
      assert a == a[..n] + [a[n]] && b == b[..n] + [b[n]];
    }
  }

  lemma ZeroWord(a: seq<Byte>)
    ensures BigEndian(a + [0, 0, 0, 0]) == 0x1_0000_0000 * BigEndian(a)
  {
    var z := a + [0, 0, 0, 0];
    var n := |a|;
    assert z[..n + 3][..n + 2] == z[..n + 2] && z[..n + 2][..n + 1] == z[..n + 1] && z[..n + 1][..n] == a;
    assert BigEndian(z) == 0x100 * BigEndian(z[..n + 3]);
    assert BigEndian(z[..n + 3]) == 0x100 * BigEndian(z[..n + 2]);
    assert BigEndian(z[..n + 2]) == 0x100 * BigEndian(z[..n + 1]);
    assert BigEndian(z[..n + 1]) == 0x100 * BigEndian(a);
  }

  lemma {:induction false} BigEndianBound(a: seq<Byte>)
    ensures BigEndian(a) < Pow2(8 * |a|)
    decreases |a|
  {
    if a != [] {
      BigEndianBound(a[..|a| - 1]);
      EightMore(8 * (|a| - 1));
    }
  }

  lemma EightMore(n: nat)
    ensures Pow2(n + 8) == 0x100 * Pow2(n)
  {
    assert Pow2(n + 8) == 4 * Pow2(n + 6);
    assert Pow2(n + 6) == 4 * Pow2(n + 4);
    assert Pow2(n + 4) == 4 * Pow2(n + 2);
  }

  /**
   The key stream of a packet counts up from its vector, one 16-byte block at a time, modulo 2^128. The blocks of two
   packets fewer than 65536 wraps apart are all different, and none wraps, up to 2^32 blocks each.
   */
  lemma BlocksDiffer(s: Sender, i: nat, j: nat, config: Config, d: Draws, e: Draws, x: nat, y: nat)
    requires i < j < i + 0x1_0000 && x < 0x1_0000_0000 && y < 0x1_0000_0000
    ensures var a, b := RtpFor(After(s, i), config, d), RtpFor(After(s, j), config, e);
            var first, second := BigEndian(SrtpIv(a.ssrc, a.sequence, a.timestamp)),
                                 BigEndian(SrtpIv(b.ssrc, b.sequence, b.timestamp));
            first + x != second + y && first + x < Pow2(128) && second + y < Pow2(128)
  {
    hide Nonce, RtpFor, BigEndian, Pow2;
    var a, b := RtpFor(After(s, i), config, d), RtpFor(After(s, j), config, e);
    NoncesDiffer(s, i, j, config, d, e);
    var m, n := Nonce(a.ssrc, a.sequence, a.timestamp), Nonce(b.ssrc, b.sequence, b.timestamp);
    if BigEndian(m) == BigEndian(n) { BigEndianInjective(m, n); }
    ZeroWord(m);
    ZeroWord(n);
    BigEndianBound(m);
    BigEndianBound(n);
    EightMore(96);
    EightMore(104);
    EightMore(112);
    EightMore(120);
  }

  // ---------------------------------------------------------------- clocks

  lemma ModModWord(y: nat)
    ensures y % WORD % 0x1_0000_0000 == y % 0x1_0000_0000
  {
    var q := y / WORD;
    assert y == q * WORD + y % WORD;
    assert y == q * 0x1_0000_0000 * 0x1_0000_0000 + y % WORD;
    SameMod32(y % WORD, q * 0x1_0000_0000);
  }

  lemma SameMod32(a: nat, k: nat)
    ensures (a + k * 0x1_0000_0000) % 0x1_0000_0000 == a % 0x1_0000_0000
  {
  }

  lemma AddMod32(a: nat, k: nat)
    ensures (a % 0x1_0000_0000 + k) % 0x1_0000_0000 == (a + k) % 0x1_0000_0000
  {
  }

  lemma AddMod24(a: nat, k: nat)
    ensures (a % 0x1_0000_0000 + k) % 0x100_0000 == (a + k) % 0x100_0000
    ensures (a % 0x100_0000 + k) % 0x100_0000 == (a + k) % 0x100_0000
  {
    SameMod24(a % 0x1_0000_0000 + k, a / 0x1_0000_0000 * 0x100);
    SameMod24(a % 0x100_0000 + k, a / 0x100_0000);
  }

  lemma SameMod24(a: nat, k: nat)
    ensures (a + k * 0x100_0000) % 0x100_0000 == a % 0x100_0000
  {
  }

  /** `n` seconds are `n` times the rate in ticks. */
  lemma TicksLater(t: Elapsed, rate: nat, n: nat)
    ensures Ticks(Elapsed(t.seconds + n, t.nanos), rate) == (Ticks(t, rate) + n * rate) % 0x1_0000_0000
  {
    var y := t.seconds * rate + t.nanos * rate / 1_000_000_000;
    assert (t.seconds + n) * rate == t.seconds * rate + n * rate;
    ModModWord(y);
    ModModWord(y + n * rate);
    AddMod32(y, n * rate);
  }

  /**
   What successive wraps carry. Every wrap counts its packet in the transport number, whatever the clock says.
   Wraps whose clock readings are whole seconds apart differ by that many seconds of the payload's clock, 48 kHz
   for audio and 90 kHz for video, and in send time by as many times 2^18.
   */
  lemma WrapsProgress(s: Sender, wraps: nat, config: Config, d: Draws, e: Draws, n: nat)
    requires e.elapsed == Elapsed(d.elapsed.seconds + n, d.elapsed.nanos)
    ensures var a, b := RtpFor(s, config, d), RtpFor(After(s, wraps), config, e);
            && b.sequence == (a.sequence + wraps) % 0x1_0000
            && b.transport == (a.transport + wraps) % 0x1_0000
            && b.ssrc == a.ssrc && b.payloadType == a.payloadType
            && (a.payloadType == 111 ==> b.timestamp == (a.timestamp + n * 48000) % 0x1_0000_0000)
            && (a.payloadType == 96 ==> b.timestamp == (a.timestamp + n * 90000) % 0x1_0000_0000)
            && b.sendTime == (a.sendTime + n * 262144) % 0x100_0000
  {
    hide Ticks, SequenceAt, After;
    CountersProgress(s, wraps);
    ClocksAfter(s, wraps);
    var rate := ClockRate(config.payloadType);
    TicksLater(d.elapsed, rate, n);
    TicksLater(d.elapsed, 262144, n);
    TimestampLater(s.timestamp, Ticks(d.elapsed, rate), n * rate);
    SendTimeLater(s.sendTime, Ticks(d.elapsed, 262144), n * 262144);
  }

  lemma CountersProgress(s: Sender, wraps: nat)
    ensures var t := After(s, wraps);
            && SequenceAt(t.sequence, t.count) == (SequenceAt(s.sequence, s.count) + wraps) % 0x1_0000
            && t.transport == (s.transport + wraps) % 0x1_0000
  {
    SequenceAfter(s, wraps);
    TransportAfter(s, wraps);
    ModAdd16(s.sequence + s.count, wraps);
  }

  lemma ModAdd16(a: nat, k: nat)
    ensures (a % 0x1_0000 + k) % 0x1_0000 == (a + k) % 0x1_0000
  {
  }

  lemma {:induction false} ClocksAfter(s: Sender, wraps: nat)
    ensures After(s, wraps).timestamp == s.timestamp && After(s, wraps).sendTime == s.sendTime
  {
    if wraps > 0 { ClocksAfter(s, wraps - 1); }
  }

  lemma TimestampLater(t: nat, ticks: nat, k: nat)
    ensures (t + (ticks + k) % 0x1_0000_0000) % 0x1_0000_0000 == ((t + ticks) % 0x1_0000_0000 + k) % 0x1_0000_0000
  {
    AddMod32(ticks + k, t);
    AddMod32(t + ticks, k);
  }

  lemma SendTimeLater(t: nat, ticks: nat, k: nat)
    ensures (t + (ticks + k) % 0x1_0000_0000) % 0x100_0000 == ((t + ticks) % 0x100_0000 + k) % 0x100_0000
  {
    AddMod24(ticks + k, t);
    AddMod24(t + ticks, k);
  }

  // ---------------------------------------------------------------- in place

  datatype WrapError = EmptyPayload | NoRoom

  class ObfsState {
    var sender: Sender

    constructor (initial: Sender)
      ensures sender == initial.(count := 0)
    {
      sender := initial.(count := 0);
    }

    method Next() returns (count: U64, transport: U16)
      modifies this
      ensures count == old(sender).count && transport == old(sender).transport
      ensures sender == Advanced(old(sender))
    {
      count, transport := sender.count, sender.transport;
      sender := sender.(count := (count + 1) % WORD, transport := (transport + 1) % 0x1_0000);
    }
  }

  /**
   Wraps the packet in place, or leaves it exactly as it was. The counters advance unless the
   payload is empty, even when the packet has no room.
   */
  method Wrap(c: Cipher, packet: PacketBuf, config: Config, state: ObfsState, d: Draws)
    returns (r: Result<(), WrapError>)
    requires packet.Valid() && Lawful(c)
    requires config == NewConfig(config.mode, config.ssrc) && Drawn(config, d)
    modifies packet, packet.storage, state
    ensures packet.Valid()
    ensures r == (if old(packet.start) == old(packet.end) then Err(EmptyPayload)
                  else if old(packet.start) < HEADER || old(packet.end) + Tail(config, d) > CAPACITY then Err(NoRoom)
                  else Ok(()))
    ensures r.Err? ==> unchanged(packet) && unchanged(packet.storage)
    ensures state.sender == if r == Err(EmptyPayload) then old(state.sender) else Advanced(old(state.sender))
    ensures r.Ok? ==> packet.start == old(packet.start) - HEADER
    ensures r.Ok? ==> packet.Contents() ==
                        Wire(c, config.mode, RtpFor(old(state.sender), config, d), old(packet.Contents()), d.padding)
    ensures r.Ok? ==> ReadsAs(packet.Contents(), RtpFor(old(state.sender), config, d))
  {
    hide Header, Lawful, RtpFor, Wire, ReadsAs;
    if packet.start == packet.end {
      return Err(EmptyPayload);
    }
    ghost var payload := packet.Contents();
    var before := state.sender;
    var count, transport := state.Next();
    var h := RtpFor(before, config, d);
    RtpType(before, config, d);
    if packet.start < HEADER || packet.end + Tail(config, d) > CAPACITY {
      return Err(NoRoom);
    }
    var plain := packet.Read();
    var prepended := packet.PrependBytes(Header(h));
    if config.mode.Video? {
      SealVideo(c, packet, h, plain, d.padding);
    } else {
      SealAudio(c, packet, h, plain, d.padding);
    }
    WireReads(c, config.mode, h, payload, d.padding);
    return Ok(());
  }

  method SealVideo(c: Cipher, packet: PacketBuf, h: Rtp, plain: seq<Byte>, padding: seq<Byte>)
    requires packet.Valid() && |padding| < 0xff && h.payloadType < 0x80
    requires packet.Contents() == Header(h) + plain && packet.end + |padding| + 1 + SRTP_TAG <= CAPACITY
    modifies packet, packet.storage
    ensures packet.Valid() && packet.start == old(packet.start)
    ensures packet.Contents() == Wire(c, Video, h, plain, padding)
  {
    hide Header, Trailer, Tag, Masked, SrtpIv, Spliced;
    var cover := Masked(c, SrtpIv(h.ssrc, h.sequence, h.timestamp), plain);
    Splices(Header(h), plain, [], cover);
    assert Header(h) + plain + [] == Header(h) + plain;
    packet.Fill(HEADER, cover);
    assert packet.Contents() == Header(h) + cover + [] == Header(h) + cover;
    var padded := packet.AppendBytes(Trailer(padding));
    assert packet.Contents() == Header(h) + VideoBody(c, h, plain, padding);
    var signed := packet.Read();
    var tagged := packet.AppendBytes(Tag(c, signed));
  }

  method SealAudio(c: Cipher, packet: PacketBuf, h: Rtp, plain: seq<Byte>, padding: seq<Byte>)
    requires packet.Valid() && Lawful(c) && |padding| < 0xff && h.payloadType < 0x80
    requires packet.Contents() == Header(h) + plain && packet.end + |padding| + 1 + AEAD_TAG <= CAPACITY
    modifies packet, packet.storage
    ensures packet.Valid() && packet.start == old(packet.start)
    ensures packet.Contents() == Wire(c, Audio, h, plain, padding)
  {
    hide Header, Lawful, Trailer, Nonce, Spliced;
    var nonce := Nonce(h.ssrc, h.sequence, h.timestamp);
    var sealed := c.seal(nonce, Header(h), plain);
    SealSizes(c, nonce, Header(h), plain);
    Splices(Header(h), plain, [], sealed.0);
    assert Header(h) + plain + [] == Header(h) + plain;
    packet.Fill(HEADER, sealed.0);
    assert packet.Contents() == Header(h) + sealed.0 + [] == Header(h) + sealed.0;
    var tagged := packet.AppendBytes(sealed.1);
    var padded := packet.AppendBytes(Trailer(padding));
    assert packet.Contents() == Header(h) + AudioBody(c, h, plain, padding);
  }

  lemma RtpType(s: Sender, config: Config, d: Draws)
    ensures RtpFor(s, config, d).payloadType == config.payloadType && RtpFor(s, config, d).sendTime < 0x100_0000
  {
  }

  lemma SealSizes(c: Cipher, nonce: seq<Byte>, aad: seq<Byte>, plain: seq<Byte>)
    requires Lawful(c)
    ensures |c.seal(nonce, aad, plain).0| == |plain| && |c.seal(nonce, aad, plain).1| == AEAD_TAG
  {
  }

  lemma OpenSizes(c: Cipher, nonce: seq<Byte>, aad: seq<Byte>, x: seq<Byte>, tag: seq<Byte>)
    requires Lawful(c)
    ensures c.open(nonce, aad, x, tag).Some? ==> |c.open(nonce, aad, x, tag).value| == |x|
    ensures |c.debris(nonce, aad, x, tag)| == |x|
  {
  }

  /** Decrypts the part of the packet between two offsets and makes it the packet. */
  method Narrow(packet: PacketBuf, from: nat, to: nat, plain: seq<Byte>)
    requires packet.Valid() && from <= to <= packet.end - packet.start && |plain| == to - from
    modifies packet, packet.storage
    ensures packet.Valid() && packet.Contents() == plain
    ensures packet.start == old(packet.start) + from && packet.end == old(packet.start) + to
  {
    packet.Fill(from, plain);
    var set_ := packet.SetRange(packet.start + from, packet.start + to);
  }

  method OpenVideo(c: Cipher, packet: PacketBuf, f: Fields) returns (r: Result<U16, UnwrapError>)
    requires packet.Valid() && 12 <= f.size <= packet.end - packet.start
    modifies packet, packet.storage
    ensures packet.Valid()
    ensures var u := UnwrapVideo(c, old(packet.Contents()), f);
            if u.Err? then r == Err(u.error) && packet.start == old(packet.start) && packet.end == old(packet.end)
            else && r == Ok(u.value.sequence) && packet.Contents() == u.value.payload
                 && packet.start == old(packet.start) + u.value.from && packet.end == old(packet.start) + u.value.to
    ensures r.Err? ==> packet.Contents() == old(packet.Contents())
  {
    hide Masked, Tag, SrtpIv, Spliced;
    var wire := packet.Read();
    if |wire| < f.size + SRTP_TAG {
      return Err(MissingTag);
    }
    var tagAt := |wire| - SRTP_TAG;
    if Tag(c, wire[..tagAt]) != wire[tagAt..] {
      return Err(BadTag);
    }
    var end := Unpadded(wire, f, tagAt);
    if end.Err? {
      return Err(end.error);
    }
    Narrow(packet, f.size, end.value, Masked(c, SrtpIv(f.ssrc, f.sequence, f.timestamp), wire[f.size..end.value]));
    return Ok(f.sequence);
  }

  method OpenAudio(c: Cipher, packet: PacketBuf, f: Fields) returns (r: Result<U16, UnwrapError>)
    requires packet.Valid() && Lawful(c) && 12 <= f.size <= packet.end - packet.start
    modifies packet, packet.storage
    ensures packet.Valid()
    ensures var u := UnwrapAudio(c, old(packet.Contents()), f);
            if u.Err? then r == Err(u.error) && packet.start == old(packet.start) && packet.end == old(packet.end)
            else && r == Ok(u.value.sequence) && packet.Contents() == u.value.payload
                 && packet.start == old(packet.start) + u.value.from && packet.end == old(packet.start) + u.value.to
    ensures r.Err? && r.error != BadSeal ==> packet.Contents() == old(packet.Contents())
  {
    hide Lawful, Nonce, Spliced;
    var wire := packet.Read();
    if f.payloadType != 111 {
      return Err(NotAudio);
    }
    var end := Unpadded(wire, f, |wire|);
    if end.Err? {
      return Err(end.error);
    }
    if end.value <= f.size + AEAD_TAG {
      return Err(NoPayload);
    }
    var tagAt := end.value - AEAD_TAG;
    var nonce := Nonce(f.ssrc, f.sequence, f.timestamp);
    var aad, sealed, tag := wire[..f.size], wire[f.size..tagAt], wire[tagAt..end.value];
    OpenSizes(c, nonce, aad, sealed, tag);
    var result := c.open(nonce, aad, sealed, tag);
    if result.None? {
      packet.Fill(f.size, c.debris(nonce, aad, sealed, tag));
      return Err(BadSeal);
    }
    Narrow(packet, f.size, tagAt, result.value);
    return Ok(f.sequence);
  }

  /**
   Unwraps any bytes in place: every access stays inside the packet, and the verdict is that of
   `Unwrapped`. A rejected packet keeps its range, and its bytes unless the seal did not open.
   */
  method Unwrap(c: Cipher, packet: PacketBuf, mode: Mode) returns (r: Result<U16, UnwrapError>)
    requires packet.Valid() && Lawful(c)
    modifies packet, packet.storage
    ensures packet.Valid()
    ensures var u := Unwrapped(c, old(packet.Contents()), mode);
            if u.Err? then r == Err(u.error) && packet.start == old(packet.start) && packet.end == old(packet.end)
            else && r == Ok(u.value.sequence) && packet.Contents() == u.value.payload
                 && packet.start == old(packet.start) + u.value.from && packet.end == old(packet.start) + u.value.to
    ensures r.Err? && r.error != BadSeal ==> packet.Contents() == old(packet.Contents())
  {
    hide Lawful, Parse, UnwrapVideo, UnwrapAudio;
    var wire := packet.Read();
    var parsed := Parse(wire);
    if parsed.Err? {
      return Err(parsed.error);
    }
    if mode.Video? {
      r := OpenVideo(c, packet, parsed.value);
    } else {
      r := OpenAudio(c, packet, parsed.value);
    }
  }

  /** A packet that could be wrapped comes back from unwrapping as it was, at the place it was. */
  method WrapUnwrap(c: Cipher, packet: PacketBuf, config: Config, state: ObfsState, d: Draws)
    returns (wrapped: Result<(), WrapError>, sequence: Result<U16, UnwrapError>)
    requires packet.Valid() && Lawful(c)
    requires config == NewConfig(config.mode, config.ssrc) && Drawn(config, d)
    modifies packet, packet.storage, state
    ensures packet.Valid()
    ensures wrapped.Ok? ==>
              && sequence == Ok(SequenceAt(old(state.sender).sequence, old(state.sender).count))
              && packet.Contents() == old(packet.Contents())
              && packet.start == old(packet.start) && packet.end == old(packet.end)
  {
    hide Wire, Unwrapped, Lawful, Ticks;
    ghost var payload := packet.Contents();
    ghost var h := RtpFor(state.sender, config, d);
    wrapped := Wrap(c, packet, config, state, d);
    if wrapped.Err? {
      return wrapped, Err(NotRtp);
    }
    RoundTrip(c, config.mode, h, payload, d.padding);
    sequence := Unwrap(c, packet, config.mode);
  }
}
