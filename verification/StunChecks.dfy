/** Which messages pass the checks on their own contents: MESSAGE-INTEGRITY and FINGERPRINT, field by field. */
module StunChecks {
  import opened Bytes
  import opened Stun

  /** The first field of that type is the k-th. */
  predicate FirstIs(fs: seq<Field>, kind: U16, k: nat) {
    k < |fs| && Canonical(fs[k].kind) == kind && Lacks(fs[..k], kind)
  }

  lemma {:induction false} FirstOrNone(fs: seq<Field>, kind: U16)
    ensures Lacks(fs, kind) || exists k: nat :: FirstIs(fs, kind, k)
    decreases |fs|
  {
    hide Canonical;
    if fs != [] {
      var n := |fs| - 1;
      FirstOrNone(fs[..n], kind);
      if Lacks(fs[..n], kind) {
        if Canonical(fs[n].kind) == kind { assert FirstIs(fs, kind, n); }
      } else {
        var k: nat :| FirstIs(fs[..n], kind, k);
        assert fs[..n][..k] == fs[..k];
        assert FirstIs(fs, kind, k);
      }
    }
  }

  lemma {:induction false} NoneLocated(fs: seq<Field>, kind: U16, at: nat)
    requires Lacks(fs, kind)
    ensures First(Located(fs, at), kind).None?
    decreases |fs|
  {
    hide Canonical, Field.Size;
    if fs != [] {
      FirstStep(Attribute(Canonical(fs[0].kind), fs[0].value, at), Located(fs[1..], at + fs[0].Size()), kind);
      NoneLocated(fs[1..], kind, at + fs[0].Size());
    }
  }

  /** A message of these fields, as `Wire` lays them out. */
  predicate Sendable(kind: U16, fs: seq<Field>) {
    0 < kind < 0x4000 && AllValid(fs) && |FieldBytes(fs)| < 0x1_0000
  }

  lemma FirstFound(kind: U16, transaction: Transaction, fs: seq<Field>, target: U16, k: nat)
    requires Sendable(kind, fs) && FirstIs(fs, target, k)
    ensures var raw := Wire(kind, transaction, fs); var m := Message(raw, kind, transaction);
            && Parse(raw) == Ok(m)
            && Find(m, target) == Some(Attribute(target, fs[k].value, HEADER_SIZE + |FieldBytes(fs[..k])|))
  {
    hide Parse, WalkDefect, Walks, AttributesFrom, FieldBytes, Located, First, Header, Canonical;
    GrammarParses(Wire(kind, transaction, fs), kind, transaction, fs);
    FirstLocated(fs, k, HEADER_SIZE);
  }

  lemma NoneFound(kind: U16, transaction: Transaction, fs: seq<Field>, target: U16)
    requires Sendable(kind, fs) && Lacks(fs, target)
    ensures var raw := Wire(kind, transaction, fs); var m := Message(raw, kind, transaction);
            Parse(raw) == Ok(m) && Find(m, target) == None
  {
    hide Parse, WalkDefect, Walks, AttributesFrom, FieldBytes, Located, First, Header, Canonical;
    GrammarParses(Wire(kind, transaction, fs), kind, transaction, fs);
    NoneLocated(fs, target, HEADER_SIZE);
  }

  /** The first MESSAGE-INTEGRITY is the k-th field: the HMAC of the header, its length up to there, and all before. */
  predicate SignedAt(kind: U16, transaction: Transaction, fs: seq<Field>, k: nat, key: Key, prim: Primitives) {
    && FirstIs(fs, 0x0008, k)
    && |FieldBytes(fs[..k])| + 24 < 0x1_0000
    && fs[k].value == prim.hmac(key, Header(kind, |FieldBytes(fs[..k])| + 24, transaction) + FieldBytes(fs[..k]))
  }

  lemma SignedHere(kind: U16, transaction: Transaction, fs: seq<Field>, k: nat, key: Key, prim: Primitives)
    requires Sendable(kind, fs) && FirstIs(fs, 0x0008, k)
    ensures var raw := Wire(kind, transaction, fs); var m := Message(raw, kind, transaction);
            && Parse(raw) == Ok(m)
            && (VerifyIntegrity(m, Some(key), prim) <==> SignedAt(kind, transaction, fs, k, key, prim))
  {
    hide Parse, WalkDefect, Walks, AttributesFrom, FieldBytes, Located, First, Be16, Header, WithLength, Find, Lacks,
         Canonical;
    FirstFound(kind, transaction, fs, 0x0008, k);
    PrefixFits(kind, transaction, fs, k);
    if |FieldBytes(fs[..k])| + 24 < 0x1_0000 { SignedPrefix(kind, transaction, fs, k); }
  }

  lemma PrefixFits(kind: U16, transaction: Transaction, fs: seq<Field>, k: nat)
    requires Sendable(kind, fs) && k <= |fs|
    ensures HEADER_SIZE + |FieldBytes(fs[..k])| <= |Wire(kind, transaction, fs)|
  {
    hide FieldBytes, Header;
    FieldBytesSplit(fs[..k], fs[k..]);
    assert fs[..k] + fs[k..] == fs;
  }

  /** Integrity holds exactly if a key is known and such a field is there. */
  lemma IntegrityExactly(kind: U16, transaction: Transaction, fs: seq<Field>, key: Option<Key>, prim: Primitives)
    requires Sendable(kind, fs)
    ensures var raw := Wire(kind, transaction, fs); var m := Message(raw, kind, transaction);
            && Parse(raw) == Ok(m)
            && (VerifyIntegrity(m, key, prim)
                <==> key.Some? && exists k: nat :: SignedAt(kind, transaction, fs, k, key.value, prim))
  {
    hide Parse, WalkDefect, AttributesFrom, FieldBytes, Located, Header, Wire, FirstIs, Lacks;
    FirstOrNone(fs, 0x0008);
    var known: Key := if key.Some? then key.value else Zeros(16);
    if Lacks(fs, 0x0008) {
      NoneFound(kind, transaction, fs, 0x0008);
      forall k: nat
        ensures !SignedAt(kind, transaction, fs, k, known, prim)
      {
        NotLacking(fs, 0x0008, k);
      }
    } else {
      var k: nat :| FirstIs(fs, 0x0008, k);
      SignedHere(kind, transaction, fs, k, known, prim);
      forall j: nat | FirstIs(fs, 0x0008, j) ensures j == k { OneFirst(fs, 0x0008, j, k); }
    }
  }

  lemma NotLacking(fs: seq<Field>, kind: U16, k: nat)
    requires Lacks(fs, kind)
    ensures !FirstIs(fs, kind, k)
  {
  }

  lemma OneFirst(fs: seq<Field>, kind: U16, j: nat, k: nat)
    requires FirstIs(fs, kind, j) && FirstIs(fs, kind, k)
    ensures j == k
  {
  }

  /** A fingerprint is valid exactly if it is the last field and the checksum of header and fields before it. */
  lemma FingerprintExactly(kind: U16, transaction: Transaction, fs: seq<Field>, k: nat, prim: Primitives)
    requires Sendable(kind, fs)
    ensures var raw := Wire(kind, transaction, fs); var m := Message(raw, kind, transaction);
            && Parse(raw) == Ok(m)
            && (FingerprintValid(m, prim) == None <==> Lacks(fs, 0x8028))
            && (FirstIs(fs, 0x8028, k) ==>
                  FingerprintValid(m, prim) == Some(
                    k == |fs| - 1
                    && fs[k].value == Be32(prim.fingerprint(
                                        Header(kind, |FieldBytes(fs)|, transaction) + FieldBytes(fs[..k])))))
  {
    hide Parse, WalkDefect, AttributesFrom, FieldBytes, Located, Header, FirstIs, Lacks, Find, Be32, Word32;
    FirstOrNone(fs, 0x8028);
    if Lacks(fs, 0x8028) {
      NoneFound(kind, transaction, fs, 0x8028);
      NotLacking(fs, 0x8028, k);
    } else {
      var j: nat :| FirstIs(fs, 0x8028, j);
      FirstFound(kind, transaction, fs, 0x8028, j);
      if FirstIs(fs, 0x8028, k) {
        OneFirst(fs, 0x8028, j, k);
        FingerprintHere(kind, transaction, fs, k, prim);
      }
    }
  }

  lemma FingerprintHere(kind: U16, transaction: Transaction, fs: seq<Field>, k: nat, prim: Primitives)
    requires Sendable(kind, fs) && FirstIs(fs, 0x8028, k)
    ensures var raw := Wire(kind, transaction, fs); var m := Message(raw, kind, transaction);
            && Parse(raw) == Ok(m)
            && FingerprintValid(m, prim) == Some(
                 k == |fs| - 1
                 && fs[k].value == Be32(prim.fingerprint(
                                     Header(kind, |FieldBytes(fs)|, transaction) + FieldBytes(fs[..k]))))
  {
    hide Parse, WalkDefect, AttributesFrom, FieldBytes, Located, Header, Lacks, Canonical, Find, Be32, Word32;
    FirstFound(kind, transaction, fs, 0x8028, k);
    var raw, n := Wire(kind, transaction, fs), |FieldBytes(fs[..k])|;
    FieldsAround(fs, k);
    TakeTwo(Header(kind, |FieldBytes(fs)|, transaction), FieldBytes(fs[..k]), FieldBytes(fs[k..]));
    if |fs[k].value| == 4 { BackAndForth(fs[k].value, prim.fingerprint(raw[..HEADER_SIZE + n])); }
  }

  lemma BackAndForth(value: seq<Byte>, n: U32)
    requires |value| == 4
    ensures Word32(value) == n <==> value == Be32(n)
  {
    hide Be16, Word16;
    Be16Inverse(value[0], value[1]);
    Be16Inverse(value[2], value[3]);
  }

  /** The fields before the k-th, the k-th of four bytes, and nothing after it exactly if it ends the message. */
  lemma FieldsAround(fs: seq<Field>, k: nat)
    requires AllValid(fs) && k < |fs|
    ensures FieldBytes(fs) == FieldBytes(fs[..k]) + FieldBytes(fs[k..])
    ensures |fs[k].value| == 4 ==> (|FieldBytes(fs[k..])| == 8 <==> k == |fs| - 1)
  {
    hide Field.Encode, Pad4;
    FieldBytesSplit(fs[..k], fs[k..]);
    assert fs[..k] + fs[k..] == fs;
    assert fs[k..][0] == fs[k] && fs[k..][1..] == fs[k + 1..];
    if |fs[k].value| == 4 { PadOfFour(); }
    if k + 1 < |fs| { assert FieldBytes(fs[k + 1..]) == fs[k + 1].Encode() + FieldBytes(fs[k + 1..][1..]); }
  }

  lemma PadOfFour()
    ensures Pad4(4) == 4
  {
    Pad4Is(4);
  }
}
