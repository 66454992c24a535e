/**
 The STUN wire format: message builder, decoder, attribute iteration, FINGERPRINT
 and MESSAGE-INTEGRITY checks, and XOR address codec.

 CRC-32, HMAC-SHA1 and MD5 enter as arbitrary functions (`Primitives`), so every
 result holds whatever those algorithms compute.
 */
module Stun {
  import opened Bytes

  const HEADER_SIZE: nat := 20
  const MAGIC_COOKIE: seq<Byte> := [0x21, 0x12, 0xa4, 0x42]
  const ATTR_MESSAGE_INTEGRITY: U16 := 0x0008
  const ATTR_FINGERPRINT: U16 := 0x8028

  type Transaction = s: seq<Byte> | |s| == 12 witness seq(12, _ => 0)
  type Key = s: seq<Byte> | |s| == 16 witness seq(16, _ => 0)
  type Digest = s: seq<Byte> | |s| == 20 witness seq(20, _ => 0)

  /** `fingerprint` stands for the CRC-32 of its argument xor 0x5354554e. */
  datatype Primitives = Primitives(
    fingerprint: seq<Byte> -> U32,
    hmac: (Key, seq<Byte>) -> Digest,
    md5: seq<Byte> -> Key)

  datatype Class = Request | Indication | Success | Error

  datatype DecodeError =
    | HeaderTruncated | LeadingBits | TypeZero | CookieMismatch | LengthUnaligned
    | LengthMismatch | AttributeTruncated | ValueTruncated

  datatype Attribute = Attribute(kind: U16, value: seq<Byte>, headerStart: nat)

  datatype Message = Message(raw: seq<Byte>, kind: U16, transaction: Transaction)

  // ---------------------------------------------------------------- the decoder

  /** `n` rounded up to a multiple of four. */
  function Pad4(n: nat): (p: nat)
    ensures p % 4 == 0 && n <= p < n + 4
  {
    assert (n + 3) / 4 * 4 % 4 == 0 && n <= (n + 3) / 4 * 4 < n + 4;
    var p: nat :| p % 4 == 0 && n <= p < n + 4;
    p
  }

  lemma Pad4Is(n: nat)
    ensures Pad4(n) == (n + 3) / 4 * 4
  {
  }

  function ValueLength(raw: seq<Byte>, pos: nat): nat
    requires pos + 4 <= |raw|
  {
    Word16(raw[pos + 2], raw[pos + 3])
  }

  /** Where the attribute after the one at `pos` starts. */
  function Next(raw: seq<Byte>, pos: nat): (next: nat)
    requires pos + 4 <= |raw|
    ensures next >= pos + 4 + ValueLength(raw, pos)
  {
    pos + 4 + Pad4(ValueLength(raw, pos))
  }

  /** The first defect met when walking the attributes from `pos` to the end. */
  function WalkDefect(raw: seq<Byte>, pos: nat): (d: Option<DecodeError>)
    requires pos <= |raw|
    decreases |raw| - pos
  {
    if pos == |raw| then None
    else if |raw| - pos < 4 then Some(AttributeTruncated)
    else if Next(raw, pos) > |raw| then Some(ValueTruncated)
    else WalkDefect(raw, Next(raw, pos))
  }

  predicate Walks(raw: seq<Byte>, pos: nat) {
    pos <= |raw| && WalkDefect(raw, pos) == None
  }

  function Parse(raw: seq<Byte>): (r: Result<Message, DecodeError>)
    ensures r.Ok? ==> r.value.raw == raw && |raw| >= 20 && Walks(raw, HEADER_SIZE)
  {
    if |raw| < HEADER_SIZE then Err(HeaderTruncated)
    else
      var kind := Word16(raw[0], raw[1]);
      if kind >= 0x4000 then Err(LeadingBits)
      else if kind == 0 then Err(TypeZero)
      else if raw[4..8] != MAGIC_COOKIE then Err(CookieMismatch)
      else
        var declared := Word16(raw[2], raw[3]);
        if declared % 4 != 0 then Err(LengthUnaligned)
        else if |raw| != HEADER_SIZE + declared then Err(LengthMismatch)
        else match WalkDefect(raw, HEADER_SIZE)
             case Some(defect) => Err(defect)
             case None => Ok(Message(raw, kind, raw[8..20]))
  }

  method Decode(raw: seq<Byte>) returns (r: Result<Message, DecodeError>)
    ensures r == Parse(raw)
  {
    if |raw| < HEADER_SIZE { return Err(HeaderTruncated); }
    var kind: U16 := Word16(raw[0], raw[1]);
    if kind >= 0x4000 { return Err(LeadingBits); }
    if kind == 0 { return Err(TypeZero); }
    if raw[4..8] != MAGIC_COOKIE { return Err(CookieMismatch); }
    var declared: U16 := Word16(raw[2], raw[3]);
    if declared % 4 != 0 { return Err(LengthUnaligned); }
    var end := HEADER_SIZE + declared;
    if |raw| != end { return Err(LengthMismatch); }
    var position := HEADER_SIZE;
    while position < end
      invariant HEADER_SIZE <= position <= end
      invariant WalkDefect(raw, HEADER_SIZE) == WalkDefect(raw, position)
    {
      if end - position < 4 { return Err(AttributeTruncated); }
      var length := Word16(raw[position + 2], raw[position + 3]);
      var valueStart := position + 4;
      var next := valueStart + Pad4(length);
      if next > end || valueStart + length > end { return Err(ValueTruncated); }
      position := next;
    }
    return Ok(Message(raw, kind, raw[8..20]));
  }

  /** The class bits are bits 4 and 8 of the type. */
  function ClassOf(kind: U16): Class {
    match (kind / 0x10 % 2, kind / 0x100 % 2)
    case (0, 0) => Request
    case (1, 0) => Indication
    case (0, _) => Success
    case (_, _) => Error
  }

  /** The method is the type with its two class bits squeezed out. */
  function MethodOf(kind: U16): U16 {
    kind % 0x10 + kind / 0x20 % 8 * 0x10 + kind / 0x200 % 0x20 * 0x80
  }

  /** 0x8020 is the pre-standard spelling of XOR-MAPPED-ADDRESS. */
  function Canonical(kind: U16): U16 {
    if kind == 0x8020 then 0x0020 else kind
  }

  /** The cursor of an attribute iteration; each call reads one attribute. */
  class Attributes {
    const raw: seq<Byte>
    var position: nat

    ghost predicate Valid() reads this { Walks(raw, position) }

    constructor (m: Message)
      requires Parse(m.raw) == Ok(m)
      ensures Valid() && raw == m.raw && position == HEADER_SIZE
    {
      raw := m.raw;
      position := HEADER_SIZE;
    }

    method NextAttribute() returns (r: Option<Attribute>)
      requires Valid()
      modifies this
      ensures Valid()
      ensures old(AttributesFrom(raw, position)) ==
              (if r.Some? then [r.value] else []) + AttributesFrom(raw, position)
      ensures r.None? <==> old(AttributesFrom(raw, position)) == []
    {
      hide Word16, Pad4, Canonical;
      if position >= |raw| { return None; }
      var headerStart := position;
      var kind: U16 := Word16(raw[headerStart], raw[headerStart + 1]);
      var length := Word16(raw[headerStart + 2], raw[headerStart + 3]);
      var valueStart := headerStart + 4;
      var valueEnd := valueStart + length;
      position := valueStart + Pad4(length);
      return Some(Attribute(Canonical(kind), raw[valueStart..valueEnd], headerStart));
    }
  }

  function AttributesFrom(raw: seq<Byte>, pos: nat): (attributes: seq<Attribute>)
    requires Walks(raw, pos)
    decreases |raw| - pos
  {
    if pos == |raw| then []
    else
      [Attribute(Canonical(Word16(raw[pos], raw[pos + 1])),
                 raw[pos + 4..pos + 4 + ValueLength(raw, pos)], pos)]
      + AttributesFrom(raw, Next(raw, pos))
  }

  lemma {:induction false} AttributesSized(raw: seq<Byte>, pos: nat)
    requires Walks(raw, pos)
    ensures forall a :: a in AttributesFrom(raw, pos) ==> |a.value| < 0x1_0000 && |a.value| <= |raw|
    decreases |raw| - pos
  {
    hide Pad4, Word16, Canonical;
    if pos < |raw| { AttributesSized(raw, Next(raw, pos)); }
  }

  function First(attributes: seq<Attribute>, target: U16): (r: Option<Attribute>)
    ensures r.Some? ==> r.value in attributes && r.value.kind == target
  {
    if attributes == [] then None
    else if attributes[0].kind == target then Some(attributes[0])
    else First(attributes[1..], target)
  }

  function Find(m: Message, target: U16): Option<Attribute>
    requires Parse(m.raw) == Ok(m)
  {
    First(AttributesFrom(m.raw, HEADER_SIZE), target)
  }

  method FindAttribute(m: Message, target: U16) returns (r: Option<Attribute>)
    requires Parse(m.raw) == Ok(m)
    ensures r == Find(m, target)
  {
    hide Parse, Walks, WalkDefect, AttributesFrom;
    var cursor := new Attributes(m);
    while true
      invariant cursor.Valid() && cursor.raw == m.raw
      invariant fresh(cursor)
      invariant Find(m, target) == First(AttributesFrom(m.raw, cursor.position), target)
      decreases |AttributesFrom(m.raw, cursor.position)|
    {
      ghost var before := AttributesFrom(m.raw, cursor.position);
      r := cursor.NextAttribute();
      if r.None? { return; }
      assert before[0] == r.value && before[1..] == AttributesFrom(m.raw, cursor.position);
      if r.value.kind == target { return; }
    }
  }

  function FingerprintValid(m: Message, prim: Primitives): Option<bool>
    requires Parse(m.raw) == Ok(m)
  {
    match Find(m, ATTR_FINGERPRINT)
    case None => None
    case Some(a) =>
      if |a.value| != 4 || a.headerStart + 8 != |m.raw| then Some(false)
      else Some(Word32(a.value) == prim.fingerprint(m.raw[..a.headerStart]))
  }

  /** `bytes` with the message length field overwritten. */
  function WithLength(bytes: seq<Byte>, length: U16): (b: seq<Byte>)
    requires |bytes| >= 4
    ensures |b| == |bytes|
  {
    bytes[..2] + Be16(length) + bytes[4..]
  }

  predicate VerifyIntegrity(m: Message, key: Option<Key>, prim: Primitives)
    requires Parse(m.raw) == Ok(m)
  {
    match (key, Find(m, ATTR_MESSAGE_INTEGRITY))
    case (Some(k), Some(a)) =>
      && |a.value| == 20
      && HEADER_SIZE <= a.headerStart <= |m.raw|
      && a.headerStart + 24 - HEADER_SIZE < 0x1_0000
      && prim.hmac(k, WithLength(m.raw[..a.headerStart], a.headerStart + 24 - HEADER_SIZE)) == a.value
    case _ => false
  }

  // ---------------------------------------------------------------- the grammar

  /** One attribute as laid out on the wire, padding octets included. */
  datatype Field = Field(kind: U16, value: seq<Byte>, pad: seq<Byte>) {
    predicate Valid() {
      |value| < 0x1_0000 && |pad| == Pad4(|value|) - |value|
    }

    function Size(): (n: nat)
      ensures Valid() ==> n % 4 == 0
    {
      4 + |value| + |pad|
    }

    function Encode(): (b: seq<Byte>)
      ensures |b| == Size()
    {
      Be16(kind) + Be16(Low16(|value|)) + value + pad
    }
  }

  function Tlv(kind: U16, value: seq<Byte>): (f: Field)
    ensures |value| < 0x1_0000 ==> f.Valid()
  {
    Field(kind, value, Zeros(Pad4(|value|) - |value|))
  }

  predicate AllValid(fs: seq<Field>) { forall i | 0 <= i < |fs| :: fs[i].Valid() }

  function FieldBytes(fs: seq<Field>): seq<Byte> {
    if fs == [] then [] else fs[0].Encode() + FieldBytes(fs[1..])
  }

  function Header(kind: U16, length: U16, transaction: Transaction): (h: seq<Byte>)
    ensures |h| == HEADER_SIZE
  {
    Be16(kind) + Be16(length) + MAGIC_COOKIE + transaction
  }

  /** The attributes a reader sees in `fs` laid out from offset `at`. */
  function Located(fs: seq<Field>, at: nat): (r: seq<Attribute>)
    ensures |r| == |fs|
  {
    if fs == [] then []
    else [Attribute(Canonical(fs[0].kind), fs[0].value, at)]
         + Located(fs[1..], at + fs[0].Size())
  }

  lemma {:induction false} FieldBytesSplit(fs: seq<Field>, rest: seq<Field>)
    ensures FieldBytes(fs + rest) == FieldBytes(fs) + FieldBytes(rest)
  {
    if fs == [] {
      assert fs + rest == rest;
    } else {
      assert (fs + rest)[1..] == fs[1..] + rest;
      FieldBytesSplit(fs[1..], rest);
    }
  }

  lemma FieldBytesAppend(fs: seq<Field>, f: Field)
    ensures FieldBytes(fs + [f]) == FieldBytes(fs) + f.Encode()
  {
    FieldBytesSplit(fs, [f]);
    assert FieldBytes([f]) == f.Encode() + FieldBytes([]);
  }

  lemma {:induction false} FieldBytesAligned(fs: seq<Field>)
    requires AllValid(fs)
    ensures |FieldBytes(fs)| % 4 == 0
  {
    hide Be16, Pad4, Field.Encode;
    if fs != [] { FieldBytesAligned(fs[1..]); }
  }

  lemma Assoc(a: seq<Byte>, b: seq<Byte>, c: seq<Byte>)
    ensures a + (b + c) == a + b + c
  {
  }

  lemma FieldReadsBack(prefix: seq<Byte>, f: Field, rest: seq<Byte>)
    requires f.Valid()
    ensures var raw, p := prefix + f.Encode() + rest, |prefix|;
            && Word16(raw[p], raw[p + 1]) == f.kind
            && Next(raw, p) == p + f.Size()
            && raw[p + 4..p + 4 + ValueLength(raw, p)] == f.value
  {
    var raw, p := prefix + f.Encode() + rest, |prefix|;
    assert raw[p..p + 2] == Be16(f.kind);
    assert raw[p + 2..p + 4] == Be16(|f.value|);
    assert raw[p + 4..p + 4 + |f.value|] == f.value;
  }

  lemma NothingLeft(raw: seq<Byte>)
    ensures Walks(raw, |raw|) && AttributesFrom(raw, |raw|) == []
  {
  }

  lemma AttributeStep(raw: seq<Byte>, pos: nat, f: Field)
    requires pos + 4 <= |raw| && Next(raw, pos) == pos + f.Size()
    requires Word16(raw[pos], raw[pos + 1]) == f.kind
    requires pos + 4 + ValueLength(raw, pos) <= |raw| && raw[pos + 4..pos + 4 + ValueLength(raw, pos)] == f.value
    requires Walks(raw, pos + f.Size())
    ensures Walks(raw, pos)
    ensures AttributesFrom(raw, pos) ==
            [Attribute(Canonical(f.kind), f.value, pos)] + AttributesFrom(raw, pos + f.Size())
  {
  }

  /** Reading back any list of fields: the walk succeeds and yields exactly those attributes. */
  lemma {:induction false} FieldsReadBack(prefix: seq<Byte>, fs: seq<Field>)
    requires AllValid(fs)
    ensures Walks(prefix + FieldBytes(fs), |prefix|)
    ensures AttributesFrom(prefix + FieldBytes(fs), |prefix|) == Located(fs, |prefix|)
    decreases |fs|
  {
    hide Be16, Pad4, Word16, Next, Field.Encode, Canonical, Walks, AttributesFrom;
    var raw := prefix + FieldBytes(fs);
    if fs == [] {
      assert raw == prefix;
      NothingLeft(raw);
    } else {
      var f := fs[0];
      FieldsReadBack(prefix + f.Encode(), fs[1..]);
      FieldReadsBack(prefix, f, FieldBytes(fs[1..]));
      Assoc(prefix, f.Encode(), FieldBytes(fs[1..]));
      AttributeStep(raw, |prefix|, f);
    }
  }

  function FieldsOf(raw: seq<Byte>, pos: nat): (fs: seq<Field>)
    requires Walks(raw, pos)
    ensures AllValid(fs)
    decreases |raw| - pos
  {
    if pos == |raw| then []
    else
      var n := ValueLength(raw, pos);
      [Field(Word16(raw[pos], raw[pos + 1]), raw[pos + 4..pos + 4 + n], raw[pos + 4 + n..Next(raw, pos)])]
      + FieldsOf(raw, Next(raw, pos))
  }

  lemma FieldOfSound(raw: seq<Byte>, pos: nat, n: nat, end: nat, f: Field)
    requires pos + 4 + n <= end <= |raw| && n == ValueLength(raw, pos)
    requires f == Field(Word16(raw[pos], raw[pos + 1]), raw[pos + 4..pos + 4 + n], raw[pos + 4 + n..end])
    ensures f.Encode() == raw[pos..end]
  {
  }

  lemma {:induction false} FieldsOfSound(raw: seq<Byte>, pos: nat)
    requires Walks(raw, pos)
    ensures FieldBytes(FieldsOf(raw, pos)) == raw[pos..]
    decreases |raw| - pos
  {
    hide Be16, Pad4, Word16, Next, Field.Encode;
    if pos < |raw| {
      var fs, next := FieldsOf(raw, pos), Next(raw, pos);
      FieldsOfSound(raw, next);
      assert fs[1..] == FieldsOf(raw, next);
      FieldOfSound(raw, pos, ValueLength(raw, pos), Next(raw, pos), fs[0]);
      assert raw[pos..] == raw[pos..next] + raw[next..];
    }
  }

  ghost predicate InGrammar(raw: seq<Byte>, kind: U16, transaction: Transaction, fs: seq<Field>) {
    && 0 < kind < 0x4000
    && AllValid(fs)
    && |FieldBytes(fs)| < 0x1_0000
    && raw == Header(kind, |FieldBytes(fs)|, transaction) + FieldBytes(fs)
  }

  lemma HeaderReadsBack(kind: U16, length: U16, transaction: Transaction, body: seq<Byte>)
    ensures var raw := Header(kind, length, transaction) + body;
            && Word16(raw[0], raw[1]) == kind
            && Word16(raw[2], raw[3]) == length
            && raw[4..8] == MAGIC_COOKIE
            && raw[8..20] == transaction
  {
    hide Word16;
    var raw := Header(kind, length, transaction) + body;
    assert raw[0..2] == Be16(kind) && raw[2..4] == Be16(length);
  }

  lemma GrammarParses(raw: seq<Byte>, kind: U16, transaction: Transaction, fs: seq<Field>)
    requires InGrammar(raw, kind, transaction, fs)
    ensures Parse(raw) == Ok(Message(raw, kind, transaction))
    ensures AttributesFrom(raw, HEADER_SIZE) == Located(fs, HEADER_SIZE)
  {
    hide Header, FieldBytes, WalkDefect, AttributesFrom, Located, Be16, Word16, AllValid;
    FieldsReadBack(Header(kind, |FieldBytes(fs)|, transaction), fs);
    FieldBytesAligned(fs);
    HeaderReadsBack(kind, |FieldBytes(fs)|, transaction, FieldBytes(fs));
  }

  lemma HeaderOf(raw: seq<Byte>)
    requires Parse(raw).Ok?
    ensures Header(Word16(raw[0], raw[1]), Word16(raw[2], raw[3]), raw[8..20]) == raw[..HEADER_SIZE]
  {
    hide Word16, WalkDefect;
    Be16Inverse(raw[0], raw[1]);
    Be16Inverse(raw[2], raw[3]);
    assert raw[..HEADER_SIZE] == [raw[0], raw[1]] + [raw[2], raw[3]] + raw[4..8] + raw[8..20];
  }

  /** The decoder accepts exactly the datagrams of the STUN grammar, padding octets free. */
  lemma DecodesExactlyTheGrammar(raw: seq<Byte>)
    ensures Parse(raw).Ok? <==>
            exists kind: U16, transaction: Transaction, fs :: InGrammar(raw, kind, transaction, fs)
  {
    hide Header, FieldBytes, WalkDefect, AttributesFrom, Located, Be16, FieldsOf;
    if Parse(raw).Ok? {
      var m, fs := Parse(raw).value, FieldsOf(raw, HEADER_SIZE);
      FieldsOfSound(raw, HEADER_SIZE);
      HeaderOf(raw);
      assert raw == raw[..HEADER_SIZE] + raw[HEADER_SIZE..];
      assert InGrammar(raw, m.kind, m.transaction, fs);
    }
    if kind: U16, transaction: Transaction, fs :| InGrammar(raw, kind, transaction, fs) {
      GrammarParses(raw, kind, transaction, fs);
    }
  }

  // ---------------------------------------------------------------- the builder

  function Finished(bytes: seq<Byte>, prim: Primitives): (r: Option<seq<Byte>>)
    requires |bytes| >= HEADER_SIZE
  {
    if |bytes| - HEADER_SIZE + 8 >= 0x1_0000 then None
    else
      var b := WithLength(bytes, |bytes| - HEADER_SIZE + 8);
      Some(b + Tlv(ATTR_FINGERPRINT, Be32(prim.fingerprint(b))).Encode())
  }

  function FinishedAuthenticated(bytes: seq<Byte>, key: Key, prim: Primitives): (r: Option<seq<Byte>>)
    requires |bytes| >= HEADER_SIZE
  {
    if |bytes| - HEADER_SIZE + 24 >= 0x1_0000 then None
    else
      var b := WithLength(bytes, |bytes| - HEADER_SIZE + 24);
      Finished(b + Tlv(ATTR_MESSAGE_INTEGRITY, prim.hmac(key, b)).Encode(), prim)
  }

  lemma OnlyMultiple(low: nat, x: nat, high: nat)
    requires high % 4 == 0 && low <= x <= high < low + 4
    ensures x % 4 == 0 <==> x == high
  {
  }

  lemma PadShift(base: nat, n: nat)
    requires base % 4 == 0
    ensures Pad4(base + n) == base + Pad4(n)
  {
    hide Pad4;
    assert (base + Pad4(n)) % 4 == 0;
    if Pad4(base + n) <= base + Pad4(n) {
      OnlyMultiple(base + n, Pad4(base + n), base + Pad4(n));
    } else {
      OnlyMultiple(base + n, base + Pad4(n), Pad4(base + n));
    }
  }

  method PadToFour(bytes: seq<Byte>) returns (r: seq<Byte>)
    ensures r == bytes + Zeros(Pad4(|bytes|) - |bytes|)
  {
    hide Pad4;
    r := bytes;
    while |r| % 4 != 0
      invariant |bytes| <= |r| <= Pad4(|bytes|)
      invariant r == bytes + Zeros(|r| - |bytes|)
      decreases Pad4(|bytes|) - |r|
    {
      OnlyMultiple(|bytes|, |r|, Pad4(|bytes|));
      r := r + [0];
    }
    OnlyMultiple(|bytes|, |r|, Pad4(|bytes|));
  }

  class MessageBuilder {
    var bytes: seq<Byte>
    const transaction: Transaction

    ghost predicate Valid() reads this { |bytes| >= HEADER_SIZE && |bytes| % 4 == 0 }

    constructor WithTransaction(kind: U16, transaction: Transaction)
      ensures Valid() && this.transaction == transaction
      ensures bytes == Header(kind, 0, transaction)
    {
      this.transaction := transaction;
      bytes := Be16(kind) + Be16(0) + MAGIC_COOKIE + transaction;
    }

    method AddAttribute(kind: U16, value: seq<Byte>)
      requires Valid()
      modifies this
      ensures Valid() && bytes == old(bytes) + Tlv(kind, value).Encode()
    {
      hide Be16, Low16, Pad4;
      bytes := bytes + Be16(kind) + Be16(Low16(|value|)) + value;
      PadShift(|old(bytes)| + 4, |value|);
      bytes := PadToFour(bytes);
    }

    method XorAddress(kind: U16, address: SocketAddr)
      requires Valid()
      modifies this
      ensures Valid() && bytes == old(bytes) + Tlv(kind, EncodeXorAddress(address, transaction)).Encode()
    {
      AddAttribute(kind, EncodeXorAddress(address, transaction));
    }

    method Finish(prim: Primitives) returns (r: Option<seq<Byte>>)
      requires Valid()
      modifies this
      ensures r == Finished(old(bytes), prim)
    {
      if |bytes| - HEADER_SIZE + 8 >= 0x1_0000 { return None; }
      bytes := WithLength(bytes, |bytes| - HEADER_SIZE + 8);
      AddAttribute(ATTR_FINGERPRINT, Be32(prim.fingerprint(bytes)));
      return Some(bytes);
    }

    method FinishAuthenticated(key: Key, prim: Primitives) returns (r: Option<seq<Byte>>)
      requires Valid()
      modifies this
      ensures r == FinishedAuthenticated(old(bytes), key, prim)
    {
      if |bytes| - HEADER_SIZE + 24 >= 0x1_0000 { return None; }
      bytes := WithLength(bytes, |bytes| - HEADER_SIZE + 24);
      AddAttribute(ATTR_MESSAGE_INTEGRITY, prim.hmac(key, bytes));
      r := Finish(prim);
    }
  }

  function Draft(kind: U16, transaction: Transaction, fs: seq<Field>): (b: seq<Byte>)
    ensures |b| >= HEADER_SIZE
  {
    Header(kind, 0, transaction) + FieldBytes(fs)
  }

  predicate Lacks(fs: seq<Field>, kind: U16) {
    forall i | 0 <= i < |fs| :: Canonical(fs[i].kind) != kind
  }

  lemma FirstStep(a: Attribute, tail: seq<Attribute>, target: U16)
    ensures First([a] + tail, target) == if a.kind == target then Some(a) else First(tail, target)
  {
    assert ([a] + tail)[1..] == tail;
  }

  lemma {:induction false} FirstLocated(fs: seq<Field>, k: nat, at: nat)
    requires k < |fs| && Lacks(fs[..k], Canonical(fs[k].kind))
    ensures First(Located(fs, at), Canonical(fs[k].kind)) ==
            Some(Attribute(Canonical(fs[k].kind), fs[k].value, at + |FieldBytes(fs[..k])|))
  {
    hide Be16, Pad4, Field.Encode, Field.Size, Canonical, First;
    var rest, next := fs[1..], at + fs[0].Size();
    FirstStep(Attribute(Canonical(fs[0].kind), fs[0].value, at), Located(rest, next), Canonical(fs[k].kind));
    if k > 0 {
      assert fs[..k][0] == fs[0] && fs[..k][1..] == rest[..k - 1];
      FirstLocated(rest, k - 1, next);
    }
  }

  lemma LengthPatched(kind: U16, old_: U16, new_: U16, transaction: Transaction, body: seq<Byte>)
    ensures WithLength(Header(kind, old_, transaction) + body, new_) == Header(kind, new_, transaction) + body
  {
    var bytes := Header(kind, old_, transaction) + body;
    assert bytes[..2] == Be16(kind);
    assert bytes[4..] == MAGIC_COOKIE + transaction + body;
  }

  /** The datagram that carries exactly the fields `fs`. */
  function Wire(kind: U16, transaction: Transaction, fs: seq<Field>): seq<Byte>
    requires |FieldBytes(fs)| < 0x1_0000
  {
    Header(kind, |FieldBytes(fs)|, transaction) + FieldBytes(fs)
  }

  function FingerprintField(kind: U16, transaction: Transaction, fs: seq<Field>, prim: Primitives): (f: Field)
    requires |FieldBytes(fs)| + 8 < 0x1_0000
    ensures f.Valid() && f.kind == ATTR_FINGERPRINT && f.Size() == 8
  {
    Tlv(ATTR_FINGERPRINT, Be32(prim.fingerprint(Header(kind, |FieldBytes(fs)| + 8, transaction) + FieldBytes(fs))))
  }

  function IntegrityField(kind: U16, transaction: Transaction, fs: seq<Field>, key: Key, prim: Primitives): (f: Field)
    requires |FieldBytes(fs)| + 24 < 0x1_0000
    ensures f.Valid() && f.kind == ATTR_MESSAGE_INTEGRITY && f.Size() == 24
  {
    Tlv(ATTR_MESSAGE_INTEGRITY, prim.hmac(key, Header(kind, |FieldBytes(fs)| + 24, transaction) + FieldBytes(fs)))
  }

  /** What `Finished` emits: the fields so far, then the fingerprint. */
  lemma FinishedIs(kind: U16, transaction: Transaction, length: U16, fs: seq<Field>, prim: Primitives)
    requires |FieldBytes(fs)| + 8 < 0x1_0000
    ensures var sealed := fs + [FingerprintField(kind, transaction, fs, prim)];
            && |FieldBytes(sealed)| == |FieldBytes(fs)| + 8
            && Finished(Header(kind, length, transaction) + FieldBytes(fs), prim)
               == Some(Wire(kind, transaction, sealed))
  {
    LengthPatched(kind, length, |FieldBytes(fs)| + 8, transaction, FieldBytes(fs));
    var f := FingerprintField(kind, transaction, fs, prim);
    FieldBytesAppend(fs, f);
    Assoc(Header(kind, |FieldBytes(fs)| + 8, transaction), FieldBytes(fs), f.Encode());
  }

  /** `raw` decodes to this type and transaction, iterates exactly `fs`, and its fingerprint is valid. */
  ghost predicate ReadsBack(raw: seq<Byte>, kind: U16, transaction: Transaction, fs: seq<Field>, prim: Primitives) {
    && Parse(raw) == Ok(Message(raw, kind, transaction))
    && AttributesFrom(raw, HEADER_SIZE) == Located(fs, HEADER_SIZE)
    && FingerprintValid(Parse(raw).value, prim) == Some(true)
  }

  lemma TakeTwo(a: seq<Byte>, b: seq<Byte>, c: seq<Byte>)
    ensures (a + (b + c))[..|a| + |b|] == a + b
  {
  }

  lemma FingerprintHolds(kind: U16, transaction: Transaction, fs: seq<Field>, prim: Primitives)
    requires 0 < kind < 0x4000 && AllValid(fs) && Lacks(fs, ATTR_FINGERPRINT)
    requires |FieldBytes(fs)| + 8 < 0x1_0000
    ensures var sealed := fs + [FingerprintField(kind, transaction, fs, prim)];
            && |FieldBytes(sealed)| < 0x1_0000
            && var raw := Wire(kind, transaction, sealed);
            && ReadsBack(raw, kind, transaction, sealed, prim)
  {
    var f := FingerprintField(kind, transaction, fs, prim);
    var sealed := fs + [f];
    FieldBytesAppend(fs, f);
    var raw := Wire(kind, transaction, sealed);
    GrammarParses(raw, kind, transaction, sealed);
    assert sealed[..|fs|] == fs;
    FirstLocated(sealed, |fs|, HEADER_SIZE);
    TakeTwo(Header(kind, |FieldBytes(sealed)|, transaction), FieldBytes(fs), f.Encode());
  }

  /** Every message the builder finishes decodes back to its own type, transaction and attributes. */
  lemma BuiltMessageDecodes(kind: U16, transaction: Transaction, fs: seq<Field>, prim: Primitives)
    requires 0 < kind < 0x4000 && AllValid(fs) && Lacks(fs, ATTR_FINGERPRINT)
    requires |FieldBytes(fs)| + 8 < 0x1_0000
    ensures var built := Finished(Draft(kind, transaction, fs), prim);
            var sealed := fs + [FingerprintField(kind, transaction, fs, prim)];
            && built.Some?
            && ReadsBack(built.value, kind, transaction, sealed, prim)
  {
    FinishedIs(kind, transaction, 0, fs, prim);
    FingerprintHolds(kind, transaction, fs, prim);
  }

  lemma AuthenticatedIs(kind: U16, transaction: Transaction, fs: seq<Field>, key: Key, prim: Primitives)
    requires |FieldBytes(fs)| + 32 < 0x1_0000
    ensures var signed := fs + [IntegrityField(kind, transaction, fs, key, prim)];
            && |FieldBytes(signed)| == |FieldBytes(fs)| + 24
            && var sealed := signed + [FingerprintField(kind, transaction, signed, prim)];
            && |FieldBytes(sealed)| == |FieldBytes(fs)| + 32
            && FinishedAuthenticated(Draft(kind, transaction, fs), key, prim)
               == Some(Wire(kind, transaction, sealed))
  {
    var n := |FieldBytes(fs)| + 24;
    var f := IntegrityField(kind, transaction, fs, key, prim);
    LengthPatched(kind, 0, n, transaction, FieldBytes(fs));
    FieldBytesAppend(fs, f);
    Assoc(Header(kind, n, transaction), FieldBytes(fs), f.Encode());
    FinishedIs(kind, transaction, n, fs + [f], prim);
  }

  lemma IntegrityByDefinition(m: Message, key: Key, prim: Primitives, at: nat, tag: Digest)
    requires Parse(m.raw) == Ok(m) && HEADER_SIZE <= at <= |m.raw| && at + 4 < 0x1_0000
    requires Find(m, ATTR_MESSAGE_INTEGRITY) == Some(Attribute(ATTR_MESSAGE_INTEGRITY, tag, at))
    requires prim.hmac(key, WithLength(m.raw[..at], at + 4)) == tag
    ensures VerifyIntegrity(m, Some(key), prim)
  {
  }

  /** The octets `VerifyIntegrity` recomputes are those the builder signed. */
  lemma SignedPrefix(kind: U16, transaction: Transaction, all: seq<Field>, k: nat)
    requires k <= |all| && |FieldBytes(all)| < 0x1_0000 && |FieldBytes(all[..k])| + 24 < 0x1_0000
    ensures var n, raw := |FieldBytes(all[..k])|, Wire(kind, transaction, all);
            && HEADER_SIZE + n <= |raw|
            && WithLength(raw[..HEADER_SIZE + n], n + 24)
               == Header(kind, n + 24, transaction) + FieldBytes(all[..k])
  {
    var fs := all[..k];
    FieldBytesSplit(fs, all[k..]);
    assert fs + all[k..] == all;
    TakeTwo(Header(kind, |FieldBytes(all)|, transaction), FieldBytes(fs), FieldBytes(all[k..]));
    LengthPatched(kind, |FieldBytes(all)|, |FieldBytes(fs)| + 24, transaction, FieldBytes(fs));
  }

  lemma IntegrityHolds(kind: U16, transaction: Transaction, all: seq<Field>, k: nat, key: Key, prim: Primitives)
    requires 0 < kind < 0x4000 && AllValid(all) && |FieldBytes(all)| < 0x1_0000
    requires k < |all| && Lacks(all[..k], ATTR_MESSAGE_INTEGRITY) && |FieldBytes(all[..k])| + 24 < 0x1_0000
    requires all[k] == IntegrityField(kind, transaction, all[..k], key, prim)
    ensures var raw := Wire(kind, transaction, all);
            Parse(raw) == Ok(Message(raw, kind, transaction)) && VerifyIntegrity(Parse(raw).value, Some(key), prim)
  {
    hide Parse, WalkDefect, Walks, AttributesFrom, FieldBytes, Located, First, Be16, Pad4, Header, WithLength,
         VerifyIntegrity;
    var raw, fs := Wire(kind, transaction, all), all[..k];
    GrammarParses(raw, kind, transaction, all);
    FirstLocated(all, k, HEADER_SIZE);
    SignedPrefix(kind, transaction, all, k);
    IntegrityByDefinition(Parse(raw).value, key, prim, 20 + |FieldBytes(fs)|, all[k].value);
  }

  /** The authenticated form also passes `VerifyIntegrity` under the key it was built with. */
  lemma AuthenticatedMessageVerifies(kind: U16, transaction: Transaction, fs: seq<Field>, key: Key, prim: Primitives)
    requires 0 < kind < 0x4000 && AllValid(fs)
    requires Lacks(fs, ATTR_FINGERPRINT) && Lacks(fs, ATTR_MESSAGE_INTEGRITY)
    requires |FieldBytes(fs)| + 32 < 0x1_0000
    ensures var built := FinishedAuthenticated(Draft(kind, transaction, fs), key, prim);
            var signed := fs + [IntegrityField(kind, transaction, fs, key, prim)];
            && built.Some?
            && |FieldBytes(signed)| + 8 < 0x1_0000
            && var sealed := signed + [FingerprintField(kind, transaction, signed, prim)];
            && ReadsBack(built.value, kind, transaction, sealed, prim)
            && VerifyIntegrity(Parse(built.value).value, Some(key), prim)
  {
    hide Parse, AttributesFrom, FieldBytes, Located, FinishedAuthenticated, Wire, Draft, VerifyIntegrity,
         FingerprintValid;
    var signed := fs + [IntegrityField(kind, transaction, fs, key, prim)];
    AuthenticatedIs(kind, transaction, fs, key, prim);
    FingerprintHolds(kind, transaction, signed, prim);
    var sealed := signed + [FingerprintField(kind, transaction, signed, prim)];
    assert sealed[..|fs|] == fs;
    IntegrityHolds(kind, transaction, sealed, |fs|, key, prim);
  }

  // ---------------------------------------------------------------- addresses

  type Ipv4 = s: seq<Byte> | |s| == 4 witness [0, 0, 0, 0]
  type Ipv6 = s: seq<Byte> | |s| == 16 witness seq(16, _ => 0)

  datatype SocketAddr = V4(ip4: Ipv4, port: U16) | V6(ip6: Ipv6, port: U16)

  /** Exclusive or of big-endian integers is exclusive or octet by octet. */
  function EncodeXorAddress(address: SocketAddr, transaction: Transaction): (value: seq<Byte>)
    ensures |value| == if address.V4? then 8 else 20
  {
    [0, if address.V4? then 1 else 2]
    + XorAll(Be16(address.port), MAGIC_COOKIE)
    + match address
      case V4(ip, _) => XorAll(ip, MAGIC_COOKIE)
      case V6(ip, _) => XorAll(ip, MAGIC_COOKIE + transaction)
  }

  function DecodeXorAddress(value: seq<Byte>, transaction: Transaction): (r: Option<SocketAddr>) {
    if |value| < 4 || value[0] != 0 then None
    else
      var p := XorAll(value[2..4], MAGIC_COOKIE);
      var port := Word16(p[0], p[1]);
      if value[1] == 1 && |value| == 8 then Some(V4(XorAll(value[4..], MAGIC_COOKIE), port))
      else if value[1] == 2 && |value| == 20 then Some(V6(XorAll(value[4..], MAGIC_COOKIE + transaction), port))
      else None
  }

  lemma XorAddressRoundTrip(address: SocketAddr, transaction: Transaction)
    ensures DecodeXorAddress(EncodeXorAddress(address, transaction), transaction) == Some(address)
  {
    var value := EncodeXorAddress(address, transaction);
    XorAllTwice(Be16(address.port), MAGIC_COOKIE);
    assert value[2..4] == XorAll(Be16(address.port), MAGIC_COOKIE);
    match address {
      case V4(ip, _) =>
        XorAllTwice(ip, MAGIC_COOKIE);
        assert value[4..] == XorAll(ip, MAGIC_COOKIE);
      case V6(ip, _) =>
        XorAllTwice(ip, MAGIC_COOKIE + transaction);
        assert value[4..] == XorAll(ip, MAGIC_COOKIE + transaction);
    }
  }
}
