/** What a 401 does to a first Allocate, and when the answer is lost for want of room in the caller's buffer. */
module TurnLost {
  import opened Bytes
  import opened Stun
  import opened TurnState
  import opened TurnInvariant
  import opened TurnFits
  import opened TurnRuns
  import opened TurnRequests

  // ---------------------------------------------------------------- the challenge

  function ChallengeFields(realm: seq<Byte>, nonce: seq<Byte>): seq<Field> {
    [Tlv(ATTR_ERROR_CODE, [0, 0, 4, 1]), Tlv(ATTR_REALM, realm), Tlv(ATTR_NONCE, nonce)]
  }

  /** The server's 401 to an Allocate, with the realm and nonce to use. */
  function Challenge(prim: Primitives, transaction: Transaction, realm: seq<Byte>, nonce: seq<Byte>): seq<Byte> {
    var built := Finished(Draft(0x0113, transaction, ChallengeFields(realm, nonce)), prim);
    if built.Some? then built.value else []
  }

  /** The bytes that user name, realm and nonce take in a request. */
  function CredentialSize(cfg: Config, realm: seq<Byte>, nonce: seq<Byte>): nat {
    Pad4(|cfg.username|) + Pad4(|realm|) + Pad4(|nonce|)
  }

  /** The Allocate can be built with these credentials. */
  predicate Answers(cfg: Config, realm: seq<Byte>, nonce: seq<Byte>) {
    68 + CredentialSize(cfg, realm, nonce) < 0x1_0000
  }

  lemma ChallengeKind()
    ensures ClassOf(0x0113) == Error && MethodOf(0x0113) == 3
  {
  }

  lemma ChallengeFieldsOk(realm: seq<Byte>, nonce: seq<Byte>)
    requires 24 + Pad4(|realm|) + Pad4(|nonce|) < 0x1_0000
    ensures var fs := ChallengeFields(realm, nonce);
            AllValid(fs) && Lacks(fs, ATTR_FINGERPRINT) && |FieldBytes(fs)| == 16 + Pad4(|realm|) + Pad4(|nonce|)
  {
    hide FieldBytes, Field.Encode;
    PadFour(4);
    TlvSize(ATTR_ERROR_CODE, [0, 0, 4, 1]);
    TlvSize(ATTR_REALM, realm);
    TlvSize(ATTR_NONCE, nonce);
    ThreeSizes(Tlv(ATTR_ERROR_CODE, [0, 0, 4, 1]), Tlv(ATTR_REALM, realm), Tlv(ATTR_NONCE, nonce));
  }

  /** The challenge is read as what was written. */
  ghost predicate ReadAs(raw: seq<Byte>, transaction: Transaction, realm: seq<Byte>, nonce: seq<Byte>, prim: Primitives)
  {
    var m := Message(raw, 0x0113, transaction);
    && Parse(raw) == Ok(m)
    && FingerprintValid(m, prim) == Some(true)
    && ErrorCode(m) == Some(401)
    && AttributeValue(m, ATTR_REALM) == Some(realm)
    && AttributeValue(m, ATTR_NONCE) == Some(nonce)
  }

  lemma ChallengeReads(prim: Primitives, transaction: Transaction, realm: seq<Byte>, nonce: seq<Byte>)
    requires 24 + Pad4(|realm|) + Pad4(|nonce|) < 0x1_0000
    ensures var raw := Challenge(prim, transaction, realm, nonce);
            && |raw| == 44 + Pad4(|realm|) + Pad4(|nonce|)
            && ReadAs(raw, transaction, realm, nonce, prim)
  {
    hide Parse, Finished, Draft, FieldBytes, Located, First, AttributesFrom, FingerprintValid, FingerprintField;
    var fs := ChallengeFields(realm, nonce);
    ChallengeFieldsOk(realm, nonce);
    BuiltMessageDecodes(0x0113, transaction, fs, prim);
    FinishedSize(0x0113, transaction, fs, prim);
    var sealed := fs + [FingerprintField(0x0113, transaction, fs, prim)];
    assert sealed[..0] == [] && sealed[..1] == [fs[0]] && sealed[..2] == [fs[0], fs[1]];
    FirstLocated(sealed, 0, HEADER_SIZE);
    FirstLocated(sealed, 1, HEADER_SIZE);
    FirstLocated(sealed, 2, HEADER_SIZE);
  }

  // ---------------------------------------------------------------- the run

  /** One Allocate is under way and its packet is all that is queued. */
  predicate OnlyAllocate(c: Core, p: Pending) {
    c.pending == [p] && c.controls == [p.packet] && p.operation == Allocate
  }

  lemma FirstAllocate(cfg: Config, draw: Draw)
    requires cfg.Valid()
    ensures var r := Initial().StartAllocation(cfg, draw);
            && r.ok && r.core.state == Allocating && r.core.realm == None && r.core.Open()
            && |r.core.pending| == 1
            && var p := r.core.pending[0];
            && OnlyAllocate(r.core, p) && p.transaction == draw.transaction && p.nonceRetries == 0 && !p.authenticated
            && |p.packet| >= HEADER_SIZE && p.packet[8..20] == p.transaction
  {
    hide Core.BuildRequest, Core.PushEvent, Fits;
    var a := Initial().SetState(Allocating);
    SetStateFrame(Initial(), Allocating);
    SmallFits(a, cfg, Allocate, false);
    BuiltExactly(a, cfg, Allocate, draw.transaction, false);
    RequestBuilt(a, cfg, Allocate, draw.transaction, false);
  }

  /** The request goes out again with the credentials of the challenge. */
  lemma Retried(c: Core, cfg: Config, m: Message, p: Pending, draw: Draw, realm: seq<Byte>, nonce: seq<Byte>)
    requires cfg.Valid() && cfg.profile.maxNonceRetries > 0 && Answers(cfg, realm, nonce)
    requires c.pending == [] && c.controls == [] && p.operation == Allocate && p.nonceRetries == 0
    requires Parse(m.raw) == Ok(m)
    requires AttributeValue(m, ATTR_REALM) == Some(realm) && AttributeValue(m, ATTR_NONCE) == Some(nonce)
    ensures var r := c.AuthRetry(cfg, m, p, 401, draw);
            && r.ok && |r.core.pending| == 1 && OnlyAllocate(r.core, r.core.pending[0])
            && |r.core.controls[0]| == 88 + CredentialSize(cfg, realm, nonce)
            && r.core.pending[0].transaction == draw.transaction && r.core.pending[0].authenticated
            && ServerReads(r.core.controls[0], c.SetAuth(cfg, realm, nonce), cfg, Allocate, draw.transaction, true)
            && r.core == c.SetAuth(cfg, realm, nonce).(pending := r.core.pending, controls := r.core.controls)
  {
    hide Parse, AttributeValue, Core.BuildRequest, Core.PushEvent, ServerReads;
    var a := c.SetAuth(cfg, realm, nonce);
    RequestReadsIf(a, cfg, draw.transaction);
    BuiltExactly(a, cfg, Allocate, draw.transaction, true);
  }

  lemma RequestReadsIf(c: Core, cfg: Config, transaction: Transaction)
    requires cfg.Valid() && AuthSized(c) && c.AuthComplete() && Fits(c, cfg, Allocate, true)
    ensures var packet := c.BuildRequest(cfg, Allocate, transaction, true);
            packet.Some? && ServerReads(packet.value, c, cfg, Allocate, transaction, true)
  {
    hide Core.BuildRequest, ServerReads, Fits;
    BuiltExactly(c, cfg, Allocate, transaction, true);
    RequestReads(c, cfg, Allocate, transaction, true);
  }

  lemma Answered(c: Core, cfg: Config, m: Message, p: Pending, now: nat, draw: Draw)
    requires Parse(m.raw) == Ok(m) && ClassOf(m.kind) == Error && ErrorCode(m) == Some(401) && p.operation == Allocate
    requires c.AuthRetry(cfg, m, p, 401, draw).ok
    ensures c.Response(cfg, m, p, now, draw).0 == c.AuthRetry(cfg, m, p, 401, draw).core
  {
    hide Parse, ClassOf, ErrorCode, Core.AuthRetry, Core.PushEvent, Core.CompleteFailure, Core.DestroyAllocation;
  }

  lemma Delivered(c: Core, cfg: Config, packet: seq<Byte>, m: Message, now: nat, draw: Draw)
    requires Parse(packet) == Ok(m) && ClassOf(m.kind) in {Success, Error}
    requires FingerprintValid(m, cfg.prim) == Some(true)
    requires |c.pending| == 1 && (c.pending[0].authenticated ==> VerifyIntegrity(m, c.key, cfg.prim))
    requires c.pending[0].transaction == m.transaction && c.pending[0].operation.Method() == MethodOf(m.kind)
    ensures c.InputStun(cfg, packet, now, draw) == c.Taken(0).Response(cfg, m, c.pending[0], now, draw)
  {
    hide Parse, ClassOf, MethodOf, FingerprintValid, RequiresIntegrity, VerifyIntegrity,
         FingerprintedAllocationMismatch, Core.Taken, Core.Response;
  }

  lemma TakenOnly(c: Core, p: Pending)
    requires OnlyAllocate(c, p) && |p.packet| >= HEADER_SIZE && p.packet[8..20] == p.transaction
    ensures c.Taken(0) == c.(pending := [], controls := [])
  {
    assert c.controls[1..] == [];
  }

  function Challenged(cfg: Config, first: Draw, now: nat, second: Draw, realm: seq<Byte>, nonce: seq<Byte>): Core {
    Step(cfg, Step(cfg, Initial(), CallStartAllocation(first)),
         CallInput(Challenge(cfg.prim, first.transaction, realm, nonce), now, second))
  }

  /**
   The client knows the credentials, the key being the hash of user name, realm and password, and has sent its
   Allocate again: a server that knows the key reads it as signed.
   */
  ghost predicate Reallocates(c: Core, cfg: Config, second: Draw, realm: seq<Byte>, nonce: seq<Byte>) {
    && c.state == Allocating && c.Open() && |c.pending| == 1 && OnlyAllocate(c, c.pending[0])
    && c.pending[0].transaction == second.transaction && c.pending[0].authenticated
    && c.realm == Some(realm) && c.nonce == Some(nonce)
    && c.key == Some(cfg.prim.md5(cfg.username + [58] + realm + [58] + cfg.password))
    && ServerReads(c.controls[0], c, cfg, Allocate, second.transaction, true)
    && |c.controls[0]| == 88 + CredentialSize(cfg, realm, nonce)
  }

  lemma SameReading(packet: seq<Byte>, a: Core, r: Core, cfg: Config, transaction: Transaction)
    requires SameCredentials(a, r) && ServerReads(packet, r, cfg, Allocate, transaction, true)
    ensures ServerReads(packet, a, cfg, Allocate, transaction, true)
  {
    hide Parse, FingerprintValid, Asks, AttributeValue, VerifyIntegrity;
  }

  /** Whoever starts to allocate and is challenged does. */
  lemma ChallengeAnswered(cfg: Config, first: Draw, now: nat, second: Draw, realm: seq<Byte>, nonce: seq<Byte>)
    requires cfg.Valid() && cfg.profile.maxNonceRetries > 0 && Answers(cfg, realm, nonce)
    ensures Reallocates(Challenged(cfg, first, now, second, realm, nonce), cfg, second, realm, nonce)
  {
    hide Parse, ClassOf, MethodOf, Core.StartAllocation, Core.InputStun, Core.Response, Core.AuthRetry, Core.Taken,
         ErrorCode, AttributeValue, FingerprintValid, Challenge, Pad4, ServerReads;
    var challenge := Challenge(cfg.prim, first.transaction, realm, nonce);
    var m := Message(challenge, 0x0113, first.transaction);
    ChallengeKind();
    ChallengeReads(cfg.prim, first.transaction, realm, nonce);
    FirstAllocate(cfg, first);
    var c := Initial().StartAllocation(cfg, first).core;
    var p := c.pending[0];
    TakenOnly(c, p);
    Retried(c.Taken(0), cfg, m, p, second, realm, nonce);
    var r := c.Taken(0).AuthRetry(cfg, m, p, 401, second).core;
    SameReading(r.controls[0], r, c.Taken(0).SetAuth(cfg, realm, nonce), cfg, second.transaction);
    Answered(c.Taken(0), cfg, m, p, now, second);
    Delivered(c, cfg, challenge, m, now, second);
  }

  /**
   A client that starts to allocate and is challenged: its answer is queued, and whether pulling that answer
   loses it is exactly a matter of the sizes of user name, realm and nonce. It stays under way either way.
   */
  lemma ChallengeLostExactly(cfg: Config, first: Draw, now: nat, second: Draw, realm: seq<Byte>, nonce: seq<Byte>)
    requires cfg.Valid() && cfg.profile.maxNonceRetries > 0 && Answers(cfg, realm, nonce)
    ensures var r := Challenged(cfg, first, now, second, realm, nonce);
            && |r.pending| == 1 && OnlyAllocate(r, r.pending[0])
            && (r.PulledControl() == Err(RESULT_BUFFER_TOO_SMALL) <==> CredentialSize(cfg, realm, nonce) > 936)
  {
    hide Challenged, CredentialSize;
    ChallengeAnswered(cfg, first, now, second, realm, nonce);
  }

  lemma RunTwo(cfg: Config, c: Core, x: Call, y: Call)
    ensures Run(cfg, c, [x, y]) == Step(cfg, Step(cfg, c, x), y)
  {
    hide Step;
    assert [x, y][1..] == [y];
    assert Run(cfg, Step(cfg, c, x), [y]) == Run(cfg, Step(cfg, Step(cfg, c, x), y), [y][1..]);
  }

  /** So a nonce of 1000 bytes loses the request of every client. */
  lemma RequestLost(cfg: Config, first: Draw, now: nat, second: Draw)
    requires cfg.Valid() && cfg.profile.maxNonceRetries > 0
    ensures var challenge := Challenge(cfg.prim, first.transaction, [0], Zeros(1000));
            var r := Run(cfg, Initial(), [CallStartAllocation(first), CallInput(challenge, now, second)]);
            r.Has(Allocate) && r.PulledControl() == Err(RESULT_BUFFER_TOO_SMALL)
  {
    hide Step, Run, Challenge, Zeros, Core.PulledControl;
    Pad4Is(1);
    Pad4Is(1000);
    var challenge := Challenge(cfg.prim, first.transaction, [0], Zeros(1000));
    ChallengeLostExactly(cfg, first, now, second, [0], Zeros(1000));
    RunTwo(cfg, Initial(), CallStartAllocation(first), CallInput(challenge, now, second));
  }
}
