/**
 What every inbound message does to the core. A message is its fields: any datagram the decoder takes is `Wire`
 of some (see `Stun.DecodesExactlyTheGrammar`), and nothing here is said through the decoder's own functions.
 */
module TurnAnswers {
  import opened Bytes
  import opened Stun
  import opened StunChecks
  import opened TurnState
  import opened TurnInvariant
  import opened TurnFits
  import opened TurnAlive
  import opened TurnRuns
  import opened TurnRetries
  import opened TurnProgress
  import opened TurnRequests
  import opened TurnOutcomes

  // ---------------------------------------------------------------- what a message says

  /** The value of the first field of that type. */
  function FieldOf(fs: seq<Field>, kind: U16): Option<seq<Byte>> {
    if fs == [] then None
    else if Canonical(fs[0].kind) == kind then Some(fs[0].value)
    else FieldOf(fs[1..], kind)
  }

  /** The error code: hundreds in the third byte, the rest in the fourth. */
  function CodeIn(fs: seq<Field>): Option<nat> {
    match FieldOf(fs, 0x0009)
    case None => None
    case Some(v) => if |v| < 4 || v[2] > 6 || v[3] > 99 then None else Some(100 * v[2] as nat + v[3] as nat)
  }

  /** The lifetime, if it is a number of four bytes. */
  function LifetimeIn(fs: seq<Field>): Option<U32> {
    match FieldOf(fs, 0x000d)
    case None => None
    case Some(v) => if |v| == 4 then Some(Word32(v)) else None
  }

  /** Signed with the key, if one is known. */
  ghost predicate Signed(kind: U16, transaction: Transaction, fs: seq<Field>, key: Option<Key>, prim: Primitives) {
    key.Some? && exists k: nat :: SignedAt(kind, transaction, fs, k, key.value, prim)
  }

  /** The last field is the checksum of all before it, and no other field is one. */
  ghost predicate Stamped(kind: U16, transaction: Transaction, fs: seq<Field>, prim: Primitives)
    requires |FieldBytes(fs)| < 0x1_0000
  {
    var n := |fs| - 1;
    && fs != [] && FirstIs(fs, 0x8028, n)
    && fs[n].value == Be32(prim.fingerprint(Header(kind, |FieldBytes(fs)|, transaction) + FieldBytes(fs[..n])))
  }

  /** The number of the answer to a request: success, or error. */
  function AnswerKind(operation: Operation, success: bool): U16 {
    KindOf(operation) + if success then 0x0100 else 0x0110
  }

  // ---------------------------------------------------------------- the decoder reads the fields

  lemma {:induction false} FieldOfFirst(fs: seq<Field>, kind: U16)
    ensures Lacks(fs, kind) ==> FieldOf(fs, kind) == None
    ensures forall k: nat | FirstIs(fs, kind, k) :: FieldOf(fs, kind) == Some(fs[k].value)
    decreases |fs|
  {
    hide Canonical;
    if fs != [] {
      FieldOfFirst(fs[1..], kind);
      forall k: nat | FirstIs(fs, kind, k)
        ensures FieldOf(fs, kind) == Some(fs[k].value)
      {
        if k > 0 {
          assert fs[..k][0] == fs[0] && fs[1..][..k - 1] == fs[..k][1..];
          assert FirstIs(fs[1..], kind, k - 1);
        }
      }
    }
  }

  lemma ValueIs(kind: U16, transaction: Transaction, fs: seq<Field>, target: U16)
    requires Sendable(kind, fs)
    ensures var raw := Wire(kind, transaction, fs); var m := Message(raw, kind, transaction);
            && Parse(raw) == Ok(m)
            && (match Find(m, target) case None => FieldOf(fs, target) == None
                                      case Some(a) => FieldOf(fs, target) == Some(a.value))
  {
    hide Parse, Wire, Find, FieldOf, FirstIs, Lacks;
    FirstOrNone(fs, target);
    FieldOfFirst(fs, target);
    if Lacks(fs, target) {
      NoneFound(kind, transaction, fs, target);
    } else {
      var k: nat :| FirstIs(fs, target, k);
      FirstFound(kind, transaction, fs, target, k);
    }
  }

  /** What the core's own readers make of the message. */
  lemma Readings(kind: U16, transaction: Transaction, fs: seq<Field>, key: Option<Key>, prim: Primitives)
    requires Sendable(kind, fs)
    ensures var raw := Wire(kind, transaction, fs); var m := Message(raw, kind, transaction);
            && Parse(raw) == Ok(m)
            && ErrorCode(m) == CodeIn(fs) && AttributeU32(m, 0x000d) == LifetimeIn(fs)
            && AttributeValue(m, 0x0014) == FieldOf(fs, 0x0014) && AttributeValue(m, 0x0015) == FieldOf(fs, 0x0015)
            && AttributeValue(m, 0x0016) == FieldOf(fs, 0x0016)
            && (VerifyIntegrity(m, key, prim) <==> Signed(kind, transaction, fs, key, prim))
            && (FingerprintValid(m, prim) == None <==> Lacks(fs, 0x8028))
            && (FingerprintValid(m, prim) == Some(true) <==> Stamped(kind, transaction, fs, prim))
  {
    hide Parse, Wire, Find, FieldOf, VerifyIntegrity, FingerprintValid, Lacks, FirstIs, Word32, Header, FieldBytes,
         Be32;
    ValueIs(kind, transaction, fs, 0x0009);
    ValueIs(kind, transaction, fs, 0x000d);
    ValueIs(kind, transaction, fs, 0x0014);
    ValueIs(kind, transaction, fs, 0x0015);
    ValueIs(kind, transaction, fs, 0x0016);
    IntegrityExactly(kind, transaction, fs, key, prim);
    StampedExactly(kind, transaction, fs, prim);
  }

  lemma StampedExactly(kind: U16, transaction: Transaction, fs: seq<Field>, prim: Primitives)
    requires Sendable(kind, fs)
    ensures var raw := Wire(kind, transaction, fs); var m := Message(raw, kind, transaction);
            && Parse(raw) == Ok(m)
            && (FingerprintValid(m, prim) == None <==> Lacks(fs, 0x8028))
            && (FingerprintValid(m, prim) == Some(true) <==> Stamped(kind, transaction, fs, prim))
  {
    hide Parse, Wire, FingerprintValid, Lacks, FirstIs, Header, FieldBytes, Be32;
    FirstOrNone(fs, 0x8028);
    FingerprintExactly(kind, transaction, fs, 0, prim);
    if Lacks(fs, 0x8028) {
      if fs != [] { NotLacking(fs, 0x8028, |fs| - 1); }
    } else {
      var k: nat :| FirstIs(fs, 0x8028, k);
      FingerprintExactly(kind, transaction, fs, k, prim);
      FirstWithin(fs, 0x8028, k);
      if FirstIs(fs, 0x8028, |fs| - 1) { OneFirst(fs, 0x8028, k, |fs| - 1); }
    }
  }

  lemma FirstWithin(fs: seq<Field>, kind: U16, k: nat)
    requires FirstIs(fs, kind, k)
    ensures k < |fs|
  {
  }

  lemma AnswerKinds(operation: Operation, success: bool)
    ensures var kind := AnswerKind(operation, success);
            && 0 < kind < 0x4000 && ClassOf(kind) == (if success then Success else Error)
            && MethodOf(kind) == operation.Method()
  {
  }

  // ---------------------------------------------------------------- which request is answered

  lemma {:induction false} PositionFirst(pending: seq<Pending>, transaction: Transaction, request: U16, i: nat)
    requires i < |pending| && pending[i].transaction == transaction && pending[i].operation.Method() == request
    ensures Position(pending, transaction, request).Some? && Position(pending, transaction, request).value <= i
    decreases i
  {
    if i > 0 { PositionFirst(pending[1..], transaction, request, i - 1); }
  }

  /** No two requests under way have the same transaction id and number. */
  lemma EntryPosition(c: Core, cfg: Config, i: nat)
    requires Inv(c, cfg) && i < |c.pending|
    ensures Position(c.pending, c.pending[i].transaction, c.pending[i].operation.Method()) == Some(i)
  {
    hide FieldsOk, QueueOk, RequestKind, Rto, Elapsed, Position;
    var p := c.pending[i];
    PositionFirst(c.pending, p.transaction, p.operation.Method(), i);
    var k := Position(c.pending, p.transaction, p.operation.Method()).value;
    assert PendingOk(c.pending[i], c.state, c.AuthComplete(), cfg);
    assert PendingOk(c.pending[k], c.state, c.AuthComplete(), cfg);
    assert c.pending[k].operation == p.operation;
  }

  /** The core without the i-th request and its packets. */
  function Left(c: Core, i: nat): Core
    requires i < |c.pending|
  {
    c.(pending := c.pending[..i] + c.pending[i + 1..],
       controls := WithoutTransaction(c.controls, c.pending[i].transaction))
  }

  /** The queue keeps, in order, exactly the packets of other transactions. */
  lemma {:induction false} QueueWithout(a: seq<seq<Byte>>, b: seq<seq<Byte>>, transaction: Transaction)
    ensures WithoutTransaction(a + b, transaction)
            == WithoutTransaction(a, transaction) + WithoutTransaction(b, transaction)
    ensures |a| == 1 ==>
              WithoutTransaction(a, transaction) == if |a[0]| >= 20 && a[0][8..20] == transaction then [] else a
    decreases |a|
  {
    if a == [] {
      assert a + b == b;
    } else {
      assert (a + b)[0] == a[0] && (a + b)[1..] == a[1..] + b;
      QueueWithout(a[1..], b, transaction);
      assert WithoutTransaction(a[1..], transaction) + WithoutTransaction(b, transaction)
             == WithoutTransaction(a[1..] + b, transaction);
      if |a| == 1 { assert a[1..] == [] && [a[0]] + [] == a; }
    }
  }

  // ---------------------------------------------------------------- which answers are heard

  /** Errors that may come without a signature: the server may not know the client's key yet, or any more. */
  predicate MayBeUnsigned(success: bool, code: Option<nat>) {
    !success && (code == Some(400) || code == Some(401) || code == Some(420) || code == Some(438))
  }

  /** The answer carries no checksum or the right one. */
  ghost predicate Intact(kind: U16, transaction: Transaction, fs: seq<Field>, prim: Primitives)
    requires |FieldBytes(fs)| < 0x1_0000
  {
    Lacks(fs, 0x8028) || Stamped(kind, transaction, fs, prim)
  }

  /** The answer to a signed request must be signed, but for those errors and for a checksummed 437. */
  ghost predicate Heard(c: Core, cfg: Config, p: Pending, success: bool, fs: seq<Field>)
    requires |FieldBytes(fs)| < 0x1_0000
  {
    var kind := AnswerKind(p.operation, success);
    || !p.authenticated || MayBeUnsigned(success, CodeIn(fs)) || Signed(kind, p.transaction, fs, c.key, cfg.prim)
    || (!success && CodeIn(fs) == Some(437) && Stamped(kind, p.transaction, fs, cfg.prim))
  }

  /** The bytes of the answer. */
  function Answer(p: Pending, success: bool, fs: seq<Field>): seq<Byte>
    requires |FieldBytes(fs)| < 0x1_0000
  {
    Wire(AnswerKind(p.operation, success), p.transaction, fs)
  }

  function AnswerMessage(p: Pending, success: bool, fs: seq<Field>): Message
    requires |FieldBytes(fs)| < 0x1_0000
  {
    Message(Answer(p, success, fs), AnswerKind(p.operation, success), p.transaction)
  }

  lemma Hears(c: Core, cfg: Config, i: nat, success: bool, fs: seq<Field>, now: nat, draw: Draw)
    requires Inv(c, cfg) && i < |c.pending| && Sendable(AnswerKind(c.pending[i].operation, success), fs)
    ensures var p := c.pending[i]; var code := CodeIn(fs);
            var m := AnswerMessage(p, success, fs);
            && Parse(m.raw) == Ok(m)
            && c.InputStun(cfg, m.raw, now, draw) ==
               if !Intact(m.kind, p.transaction, fs, cfg.prim) then (c, -3)
               else if !Heard(c, cfg, p, success, fs) then
                 (if !success && code.Some?
                  then c.(events := Logged(c.events, ResponseError(KindOf(p.operation), -7, code.value, c.state)))
                  else c, -7)
               else Left(c, i).Response(cfg, m, p, now, draw)
  {
    hide Inv, Parse, Wire, FieldBytes, ClassOf, MethodOf, Position, ErrorCode, CodeIn, FingerprintValid,
         VerifyIntegrity, Signed, Stamped, Lacks, RequiresIntegrity, Core.InputStun, Core.Response, AnswerKind,
         MayBeUnsigned, Logged, Left;
    var p := c.pending[i];
    var m := AnswerMessage(p, success, fs);
    AnswerKinds(p.operation, success);
    KindIs(p.operation);
    Readings(m.kind, p.transaction, fs, c.key, cfg.prim);
    EntryPosition(c, cfg, i);
    SignatureRule(m, success);
    InputUnfolds(c, cfg, m, i, success, now, draw);
    OneOfThree(FingerprintValid(m, cfg.prim));
    assert FingerprintValid(m, cfg.prim) == Some(false) <==> !Intact(m.kind, p.transaction, fs, cfg.prim);
  }

  lemma OneOfThree(b: Option<bool>)
    ensures b == None || b == Some(false) || b == Some(true)
  {
    if b.Some? && b.value { assert b == Some(true); }
  }

  /** Answers are the messages with that bit set. */
  lemma AnswerBit(kind: U16)
    ensures ClassOf(kind) in {Success, Error} <==> kind / 0x100 % 2 == 1
  {
  }

  lemma SignatureRule(m: Message, success: bool)
    requires Parse(m.raw) == Ok(m) && ClassOf(m.kind) == (if success then Success else Error)
    ensures RequiresIntegrity(m) <==> !MayBeUnsigned(success, ErrorCode(m))
  {
    hide Parse, ClassOf, ErrorCode;
  }

  lemma InputUnfolds(c: Core, cfg: Config, m: Message, i: nat, success: bool, now: nat, draw: Draw)
    requires Parse(m.raw) == Ok(m) && ClassOf(m.kind) == (if success then Success else Error) && i < |c.pending|
    requires Position(c.pending, m.transaction, MethodOf(m.kind)) == Some(i)
    requires MethodOf(m.kind) == KindOf(c.pending[i].operation)
    ensures c.InputStun(cfg, m.raw, now, draw) ==
            if FingerprintValid(m, cfg.prim) == Some(false) then (c, -3)
            else if c.pending[i].authenticated && RequiresIntegrity(m) && !VerifyIntegrity(m, c.key, cfg.prim)
                    && !(!success && ErrorCode(m) == Some(437) && FingerprintValid(m, cfg.prim) == Some(true)) then
              (if !success && ErrorCode(m).Some?
               then c.(events := Logged(c.events,
                                        ResponseError(KindOf(c.pending[i].operation), -7, ErrorCode(m).value, c.state)))
               else c, -7)
            else Left(c, i).Response(cfg, m, c.pending[i], now, draw)
  {
    hide Parse, ClassOf, MethodOf, Position, ErrorCode, FingerprintValid, VerifyIntegrity, RequiresIntegrity,
         Core.PushEvent, Core.Response, WithoutTransaction, Logged;
    if ErrorCode(m).Some? {
      Pushed(c, ResponseError(KindOf(c.pending[i].operation), -7, ErrorCode(m).value, c.state));
    }
  }

  /**
   An answer to a signed request that is not signed with the client's key, be it a success or an error other than
   400, 401, 420 and 438 (or a 437 with its checksum), changes nothing but the reported events.
   */
  lemma ForgedIsIgnored(c: Core, cfg: Config, i: nat, success: bool, fs: seq<Field>, now: nat, draw: Draw)
    requires Inv(c, cfg) && i < |c.pending| && Sendable(AnswerKind(c.pending[i].operation, success), fs)
    requires c.pending[i].authenticated
    requires !Signed(AnswerKind(c.pending[i].operation, success), c.pending[i].transaction, fs, c.key, cfg.prim)
    requires success || CodeIn(fs) !in {Some(400), Some(401), Some(420), Some(438), Some(437)}
             || (CodeIn(fs) == Some(437) && Lacks(fs, 0x8028))
    ensures var (r, status) := c.InputStun(cfg, Answer(c.pending[i], success, fs), now, draw);
            && r.(events := c.events) == c
            && status == if Intact(AnswerKind(c.pending[i].operation, success), c.pending[i].transaction, fs, cfg.prim)
                         then RESULT_AUTHENTICATION else RESULT_INVALID_ARGUMENT
  {
    hide Inv, Parse, Wire, FieldBytes, CodeIn, Signed, Lacks, Core.InputStun, Core.Response, AnswerKind, Logged, Left;
    Hears(c, cfg, i, success, fs, now, draw);
    if fs != [] { NotLackingIf(fs, 0x8028, |fs| - 1); }
  }

  lemma NotLackingIf(fs: seq<Field>, kind: U16, k: nat)
    ensures Lacks(fs, kind) ==> !FirstIs(fs, kind, k)
  {
  }

  // ---------------------------------------------------------------- errors

  /** The credentials with a realm and nonce from the server; the key is the hash of user name, realm and password. */
  function Told(c: Core, cfg: Config, realm: seq<Byte>, nonce: seq<Byte>): Core {
    c.(realm := Some(realm), nonce := Some(nonce),
       key := Some(cfg.prim.md5(cfg.username + [58] + realm + [58] + cfg.password)))
  }

  /** The realm an error tells the client to use: a 438 may leave it as it is. */
  function RealmFor(c: Core, fs: seq<Field>): Option<seq<Byte>> {
    if FieldOf(fs, 0x0014).Some? then FieldOf(fs, 0x0014) else if CodeIn(fs) == Some(438) then c.realm else None
  }

  /** The error asks for the request to be sent again with other credentials, and it may be. */
  predicate Challenges(c: Core, cfg: Config, p: Pending, fs: seq<Field>) {
    && (CodeIn(fs) == Some(401) || CodeIn(fs) == Some(438))
    && p.nonceRetries < cfg.profile.maxNonceRetries && RealmFor(c, fs).Some? && FieldOf(fs, 0x0015).Some?
  }

  lemma AuthRetryIs(c: Core, cfg: Config, p: Pending, fs: seq<Field>, draw: Draw)
    requires Sendable(AnswerKind(p.operation, false), fs)
    ensures var m := AnswerMessage(p, false, fs); var code := if CodeIn(fs).Some? then CodeIn(fs).value else 0;
            && Parse(m.raw) == Ok(m)
            && c.AuthRetry(cfg, m, p, code, draw) ==
               if Challenges(c, cfg, p, fs) then
                 Told(c, cfg, RealmFor(c, fs).value, FieldOf(fs, 0x0015).value)
                   .StartOperation(cfg, p.operation, true, p.nonceRetries + 1, draw)
               else Outcome(c, false)
  {
    hide Parse, Wire, FieldBytes, FieldOf, CodeIn, AttributeValue, Core.StartOperation, AnswerKind;
    Readings(AnswerKind(p.operation, false), p.transaction, fs, None, cfg.prim);
  }

  /** The request with a report of the error behind it. */
  function ErrorReported(c: Core, p: Pending, status: int, code: nat, state: State): Core {
    c.(events := Logged(c.events, ResponseError(KindOf(p.operation), status, code, state)))
  }

  /** What an error that is heard makes of the core. */
  function ErrorTo(c: Core, cfg: Config, p: Pending, fs: seq<Field>, now: nat, draw: Draw): Core {
    var code := if CodeIn(fs).Some? then CodeIn(fs).value else 0;
    if code == 0 then FailedTo(ErrorReported(c, p, -8, 0, c.state), p.operation, -8, 0, now)
    else if code == 437 || (p.operation == Channel && code == 400) then
      Gone(ErrorReported(c, p, 0, code, c.state), p.operation, -8, code)
    else if !Challenges(c, cfg, p, fs) then FailedTo(ErrorReported(c, p, 0, code, c.state), p.operation, -8, code, now)
    else
      var told := Told(c, cfg, RealmFor(c, fs).value, FieldOf(fs, 0x0015).value);
      var again := told.StartOperation(cfg, p.operation, true, p.nonceRetries + 1, draw);
      if again.ok then again.core
      else FailedTo(ErrorReported(again.core, p, 0, code, c.state), p.operation, -8, code, now)
  }

  lemma ErrorIs(c: Core, cfg: Config, p: Pending, fs: seq<Field>, now: nat, draw: Draw)
    requires Sendable(AnswerKind(p.operation, false), fs)
    ensures var m := AnswerMessage(p, false, fs);
            && Parse(m.raw) == Ok(m)
            && c.Response(cfg, m, p, now, draw) == (ErrorTo(c, cfg, p, fs, now, draw), 0)
  {
    hide Parse, Wire, FieldBytes, FieldOf, CodeIn, ClassOf, ErrorCode, Core.StartOperation, Core.AuthRetry,
         Core.PushEvent, Core.CompleteFailure, Core.DestroyAllocation, Core.CompleteSuccess, AnswerKind, FailedTo,
         Gone, Logged, Challenges, Told, RealmFor;
    AnswerKinds(p.operation, false);
    KindIs(p.operation);
    Readings(AnswerKind(p.operation, false), p.transaction, fs, None, cfg.prim);
    AuthRetryIs(c, cfg, p, fs, draw);
    var code := if CodeIn(fs).Some? then CodeIn(fs).value else 0;
    var event := ResponseError(KindOf(p.operation), if code == 0 then -8 else 0, code, c.state);
    Pushed(c, event);
    FailsExactly(c.PushEvent(event), p.operation, -8, code, now);
    DestroysExactly(c.PushEvent(event), p.operation, -8, code);
    var again := c.AuthRetry(cfg, AnswerMessage(p, false, fs), p, code, draw).core;
    Pushed(again, event);
    FailsExactly(again.PushEvent(event), p.operation, -8, code, now);
  }

  /** Every error to a request under way that is heard does just that, and is handled without complaint. */
  lemma ErrorsExactly(c: Core, cfg: Config, i: nat, fs: seq<Field>, now: nat, draw: Draw)
    requires Inv(c, cfg) && i < |c.pending| && Sendable(AnswerKind(c.pending[i].operation, false), fs)
    requires Intact(AnswerKind(c.pending[i].operation, false), c.pending[i].transaction, fs, cfg.prim)
    requires Heard(c, cfg, c.pending[i], false, fs)
    ensures c.InputStun(cfg, Answer(c.pending[i], false, fs), now, draw)
            == (ErrorTo(Left(c, i), cfg, c.pending[i], fs, now, draw), 0)
  {
    hide Inv, Parse, Wire, FieldBytes, CodeIn, Lacks, Core.InputStun, Core.Response, AnswerKind, Left, ErrorTo,
         Heard, Intact;
    Hears(c, cfg, i, false, fs, now, draw);
    ErrorIs(Left(c, i), cfg, c.pending[i], fs, now, draw);
  }

  /** The request goes on under a new transaction, signed with what the server said. */
  ghost predicate SentAgain(c: Core, r: Core, cfg: Config, i: nat, realm: seq<Byte>, nonce: seq<Byte>, draw: Draw)
    requires i < |c.pending|
  {
    var p := c.pending[i]; var rest := c.pending[..i] + c.pending[i + 1..];
    && |r.pending| == |c.pending|
    && var q := r.pending[|rest|];
    && r.pending == rest + [q] && FirstSend(q, cfg, p.operation, true, p.nonceRetries + 1, draw)
    && ServerReads(q.packet, Told(c, cfg, realm, nonce), cfg, p.operation, draw.transaction, true)
    && r.controls == LastSixteen(WithoutTransaction(c.controls, p.transaction) + [q.packet])
    && r == Told(c, cfg, realm, nonce).(pending := r.pending, controls := r.controls, events := r.events)
  }

  /**
   A 401 with realm and nonce, or a 438 with a nonce, signed or not: while retries are left and the new credentials
   fit, the request it answers is under way again, with one retry more used, signed under the new key, and nothing
   else has changed.
   */
  lemma ChallengeIsAnswered(c: Core, cfg: Config, i: nat, fs: seq<Field>, now: nat, draw: Draw)
    requires Inv(c, cfg) && cfg.Valid() && i < |c.pending|
    requires Sendable(AnswerKind(c.pending[i].operation, false), fs)
    requires Intact(AnswerKind(c.pending[i].operation, false), c.pending[i].transaction, fs, cfg.prim)
    requires Challenges(c, cfg, c.pending[i], fs)
    requires Fits(Told(c, cfg, RealmFor(c, fs).value, FieldOf(fs, 0x0015).value), cfg, c.pending[i].operation, true)
    ensures var (r, status) := c.InputStun(cfg, Answer(c.pending[i], false, fs), now, draw);
            status == 0 && SentAgain(c, r, cfg, i, RealmFor(c, fs).value, FieldOf(fs, 0x0015).value, draw)
  {
    hide TableOk, QueueOk, Parse, Wire, FieldBytes, FieldOf, CodeIn, Lacks, Core.InputStun, Core.StartOperation,
         AnswerKind, Stamped, Signed, Fits, ServerReads, FirstSend, LastSixteen, WithoutTransaction, FindOperation,
         FailedTo, Gone;
    ErrorsExactly(c, cfg, i, fs, now, draw);
    TakenInv(c, cfg, i);
    var p, realm, nonce := c.pending[i], RealmFor(c, fs).value, FieldOf(fs, 0x0015).value;
    var told := Told(Left(c, i), cfg, realm, nonce);
    FieldSized(c, cfg, i, fs);
    QueueBound(Left(c, i).controls, c.shuttingDown);
    SameFits(Told(c, cfg, realm, nonce), told, cfg, p.operation);
    StartSends(told, cfg, p.operation, true, p.nonceRetries + 1, draw);
    var r := told.StartOperation(cfg, p.operation, true, p.nonceRetries + 1, draw).core;
    var packet := r.pending[|told.pending|].packet;
    ReadsTheSame(packet, Told(c, cfg, realm, nonce), told, cfg, p.operation, draw.transaction);
  }

  lemma ReadsTheSame(packet: seq<Byte>, a: Core, r: Core, cfg: Config, op: Operation, transaction: Transaction)
    requires SameCredentials(a, r) && ServerReads(packet, r, cfg, op, transaction, true)
    ensures ServerReads(packet, a, cfg, op, transaction, true)
  {
    hide Parse, FingerprintValid, Asks, AttributeValue, VerifyIntegrity;
  }

  /** What a message says fits its own length field. */
  lemma FieldSized(c: Core, cfg: Config, i: nat, fs: seq<Field>)
    requires Inv(c, cfg) && i < |c.pending| && Sendable(AnswerKind(c.pending[i].operation, false), fs)
    ensures RealmFor(c, fs).Some? ==> |RealmFor(c, fs).value| < 0x1_0000
    ensures FieldOf(fs, 0x0015).Some? ==> |FieldOf(fs, 0x0015).value| < 0x1_0000
  {
    hide TableOk, QueueOk, Parse, Wire, FieldBytes, FieldOf, CodeIn;
    Readings(AnswerKind(c.pending[i].operation, false), c.pending[i].transaction, fs, None, cfg.prim);
  }

  // ---------------------------------------------------------------- success

  /** The relay an Allocate was given. */
  function RelayIn(fs: seq<Field>, transaction: Transaction): Option<SocketAddr> {
    match FieldOf(fs, 0x0016)
    case None => None
    case Some(v) => DecodeXorAddress(v, transaction)
  }

  /** What the success of an Allocate makes of the core, and whether it is one. */
  function AllocatedTo(c: Core, cfg: Config, p: Pending, fs: seq<Field>, now: nat, draw: Draw): Outcome {
    var address, lifetime := RelayIn(fs, p.transaction), LifetimeIn(fs);
    if !Usable(address, cfg) || lifetime == Some(0) then Outcome(c, false)
    else
      var a := Allocated(c, cfg, address.value, if lifetime.Some? then lifetime.value else 600, now);
      var events := Logs(c.events, [RelayAddress(address.value)]);
      if c.shuttingDown then
        a.(state := Deallocating, events := Logs(events, Changed(c.state, Deallocating)))
          .StartOperation(cfg, Deallocate, true, 0, draw)
      else
        var report := Report(a.(state := Ready), Allocate, 0, 0);
        Outcome(a.(state := Ready, events := Logs(events, Changed(c.state, Ready) + [report])), true)
  }

  /** What a success that is heard makes of the core, and what the caller is told. */
  function SuccessTo(c: Core, cfg: Config, p: Pending, fs: seq<Field>, now: nat, draw: Draw): (Core, int) {
    if !p.authenticated then (FailedTo(c, p.operation, -7, 0, now), -7)
    else if p.operation == Allocate then
      var r := AllocatedTo(c, cfg, p, fs, now, draw);
      if r.ok then (r.core, 0) else (FailedTo(r.core, Allocate, -8, 0, now), -8)
    else match Succeeded(c, cfg, p.operation, LifetimeIn(fs), now)
         case Some(r) => (r, 0)
         case None => (FailedTo(c, p.operation, -8, 0, now), -8)
  }

  lemma SuccessIs(c: Core, cfg: Config, p: Pending, fs: seq<Field>, now: nat, draw: Draw)
    requires Sendable(AnswerKind(p.operation, true), fs)
    ensures var m := AnswerMessage(p, true, fs);
            Parse(m.raw) == Ok(m) && c.Response(cfg, m, p, now, draw) == SuccessTo(c, cfg, p, fs, now, draw)
  {
    hide Parse, Wire, FieldBytes, FieldOf, LifetimeIn, ClassOf, AttributeU32, AttributeValue, Core.StartOperation,
         Core.PushEvent, Core.CompleteFailure, Core.AllocateSucceeded, Core.ErrorResponse, AnswerKind, FailedTo,
         Logs, DecodeXorAddress, Timed, Report, Succeeded;
    AnswerKinds(p.operation, true);
    Readings(AnswerKind(p.operation, true), p.transaction, fs, None, cfg.prim);
    var m := AnswerMessage(p, true, fs);
    FailsExactly(c, p.operation, -7, 0, now);
    if p.operation == Allocate {
      AllocatesExactly(c, cfg, m, RelayIn(fs, p.transaction), now, draw);
      FailsExactly(c.AllocateSucceeded(cfg, m, now, draw).core, Allocate, -8, 0, now);
    } else {
      SucceedsExactly(c, cfg, p.operation, m, now, draw);
      FailsExactly(c, p.operation, -8, 0, now);
    }
  }

  /** Every success for a request under way that is heard does just that. */
  lemma SuccessesExactly(c: Core, cfg: Config, i: nat, fs: seq<Field>, now: nat, draw: Draw)
    requires Inv(c, cfg) && i < |c.pending| && Sendable(AnswerKind(c.pending[i].operation, true), fs)
    requires Intact(AnswerKind(c.pending[i].operation, true), c.pending[i].transaction, fs, cfg.prim)
    requires Heard(c, cfg, c.pending[i], true, fs)
    ensures c.InputStun(cfg, Answer(c.pending[i], true, fs), now, draw)
            == SuccessTo(Left(c, i), cfg, c.pending[i], fs, now, draw)
  {
    hide Inv, Parse, Wire, FieldBytes, Lacks, Core.InputStun, Core.Response, AnswerKind, Left, SuccessTo, Heard, Intact;
    Hears(c, cfg, i, true, fs, now, draw);
    SuccessIs(Left(c, i), cfg, c.pending[i], fs, now, draw);
  }

  // ---------------------------------------------------------------- everything else

  /** The message is an answer to one of the requests under way. */
  predicate Solicited(c: Core, kind: U16, transaction: Transaction) {
    exists i | 0 <= i < |c.pending| ::
      && c.pending[i].transaction == transaction
      && (kind == AnswerKind(c.pending[i].operation, true) || kind == AnswerKind(c.pending[i].operation, false))
  }

  lemma {:induction false} PositionNone(pending: seq<Pending>, transaction: Transaction, request: U16)
    requires forall i | 0 <= i < |pending| ::
               pending[i].transaction != transaction || pending[i].operation.Method() != request
    ensures Position(pending, transaction, request) == None
  {
    if pending != [] { PositionNone(pending[1..], transaction, request); }
  }

  lemma KindSplits(kind: U16, operation: Operation)
    requires kind < 0x4000
    ensures ClassOf(kind) in {Success, Error} && MethodOf(kind) == operation.Method() ==>
              kind == AnswerKind(operation, true) || kind == AnswerKind(operation, false)
  {
  }

  /** Whatever is not an answer to a request under way changes nothing, and neither does what is no message at all. */
  lemma StraysAreRefused(c: Core, cfg: Config, kind: U16, transaction: Transaction, fs: seq<Field>, now: nat,
                         draw: Draw)
    requires Sendable(kind, fs) && !Solicited(c, kind, transaction)
    ensures var (r, status) := c.InputStun(cfg, Wire(kind, transaction, fs), now, draw);
            && r == c
            && status == if kind / 0x100 % 2 == 1 && !Intact(kind, transaction, fs, cfg.prim) then -3 else -5
  {
    hide Parse, Wire, FieldBytes, ClassOf, MethodOf, Position, FingerprintValid, VerifyIntegrity, RequiresIntegrity,
         Lacks, Stamped, Core.PushEvent, Core.Response, Core.Taken, AnswerKind, ErrorCode;
    Readings(kind, transaction, fs, c.key, cfg.prim);
    var m := Message(Wire(kind, transaction, fs), kind, transaction);
    OneOfThree(FingerprintValid(m, cfg.prim));
    AnswerBit(kind);
    if ClassOf(kind) in {Success, Error} {
      forall i | 0 <= i < |c.pending|
        ensures c.pending[i].transaction != transaction || c.pending[i].operation.Method() != MethodOf(kind)
      {
        KindSplits(kind, c.pending[i].operation);
      }
      PositionNone(c.pending, transaction, MethodOf(kind));
    }
  }

  lemma GarbageIsRefused(c: Core, cfg: Config, packet: seq<Byte>, now: nat, draw: Draw)
    requires Parse(packet).Err?
    ensures c.InputStun(cfg, packet, now, draw) == (c, -3)
  {
  }
}
