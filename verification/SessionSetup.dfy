/** SESSION_SETUP as the dispatcher drives it: the two-round exchange, and the SMB 3.1.1 preauth integrity hash
    that NEGOTIATE feeds and each exchange forks (MS-SMB2 sections 3.3.5.4 and 3.3.5.5). The hash, the key
    derivations and the MAC are arbitrary functions; what the client proves is an input. */
module SessionSetup {
  import opened Bytes
  import opened NtStatus
  import opened Header
  import opened Signing
  import opened Stitching
  import opened Responses
  import Spnego

  type Digest = s: bytes | |s| == 64 witness Zeros(64)

  datatype Crypto = Crypto(hash: bytes -> Digest, key30: Key -> Key, key311: (Key, Digest) -> Key, mac: MacFn)

  // ---- the running hash ----

  /** The hash chain over a sequence of messages. */
  function Absorb(d: Digest, msgs: seq<bytes>, k: Crypto): Digest {
    if msgs == [] then d
    else k.hash(Absorb(d, msgs[..|msgs| - 1], k) + msgs[|msgs| - 1])
  }

  lemma AbsorbOne(d: Digest, msgs: seq<bytes>, m: bytes, k: Crypto)
    ensures Absorb(d, msgs + [m], k) == Absorb(Absorb(d, msgs, k), [m], k) == k.hash(Absorb(d, msgs, k) + m)
  {
    assert (msgs + [m])[..|msgs|] == msgs;
    assert [m][..0] == [];
    assert Absorb(Absorb(d, msgs, k), [], k) == Absorb(d, msgs, k);
  }

  /** `PreauthIntegrity`: updated in place, cloned when an exchange forks it. */
  class PreauthIntegrity {
    var hash: Digest

    constructor (start: Digest)
      ensures hash == start
    {
      hash := start;
    }

    method Update(frame: bytes, k: Crypto)
      modifies this
      ensures hash == Absorb(old(hash), [frame], k)
    {
      AbsorbOne(hash, [], frame, k);
      assert [] + [frame] == [frame];
      hash := k.hash(hash + frame);
    }

    /** A copy: later updates do not reach it. */
    function Snapshot(): Digest
      reads this
    {
      hash
    }
  }

  // ---- the connection's half that authentication uses ----

  datatype Dialect = Smb202 | Smb210 | Smb300 | Smb302 | Smb311

  datatype Session = Session(anonymous: bool, baseKey: Key, signingKey: Key, snapshot: Option<Digest>)

  /** `forks` is `session_preauth`; `pending` remembers whether the client opened with raw NTLMSSP. */
  datatype Auth = Auth(
    dialect: Option<Dialect>, algo: Algo, preauth: Digest, forks: map<u64, Digest>, pending: map<u64, bool>,
    sessions: map<u64, Session>, nextSession: nat)

  const UNCONNECTED := Auth(None, HmacSha256, Zeros(64), map[], map[], map[], 1)

  /** What the world contributes to one message: whether NTLM accepts the first token and the challenge it
      makes, what the second token proves, whether some share is public, what NEGOTIATE comes to, and what the
      handler of any other command answers. */
  datatype World = World(
    accepted: bool, challenge: Challenge, proof: Proof, anonymousAllowed: bool, negotiated: Negotiated,
    other: HandlerResponse)

  type Challenge = s: bytes | |s| < 0x1_0000 witness []

  datatype Proof = Disproved | Proved(anonymous: bool, baseKey: Key)

  datatype Negotiated = Declined(status: u32) | Agreed(dialect: Dialect, body: bytes)

  function SignerOf(c: Auth, k: Crypto): Signer {
    Signer(map sid | sid in c.sessions :: SessionKey(c.sessions[sid].anonymous, c.sessions[sid].signingKey), c.algo,
        k.mac)
  }

  // ---- reading the request ----

  const NTLMSSP_MAGIC: bytes := [0x4E, 0x54, 0x4C, 0x4D, 0x53, 0x53, 0x50, 0x00]

  /** The security buffer of a SESSION_SETUP body; the request's own buffer offset is not consulted. */
  function SecurityBuffer(body: bytes): Option<bytes> {
    if |body| < 24 || 24 + Get16(body, 14) > |body| then None else Some(body[24..24 + Get16(body, 14)])
  }

  /** Which round a token belongs to. */
  datatype Round = Unreadable(status: u32) | First(raw: bool) | Second

  function RoundOf(blob: bytes): Round {
    if blob == [] then Unreadable(STATUS_INVALID_PARAMETER)
    else if |blob| >= 8 && blob[..8] == NTLMSSP_MAGIC then
      if |blob| >= 12 && Get32(blob, 8) == 1 then First(true) else Second
    else if blob[0] == 0x60 then
      match Spnego.DecodeInit(blob)
      case Err(_) => Unreadable(STATUS_LOGON_FAILURE)
      case Ok(init) => if Spnego.OID_NTLMSSP in init.mechs then First(false) else Unreadable(STATUS_NOT_SUPPORTED)
    else
      match Spnego.DecodeResp(blob)
      case Err(_) => Unreadable(STATUS_LOGON_FAILURE)
      case Ok(_) => Second
  }

  function BodyRound(body: bytes): Round {
    match SecurityBuffer(body)
    case None => Unreadable(STATUS_INVALID_PARAMETER)
    case Some(blob) => RoundOf(blob)
  }

  // ---- the handler ----

  const ERROR_BODY: bytes := [9, 0, 0, 0, 0, 0, 0, 0, 0]

  /** A handler's answer, and the session whose preauth snapshot is to be taken. */
  datatype Answer = Answer(response: HandlerResponse, snapshotFor: Option<u64>)

  function Failure(status: u32): Answer {
    Answer(HandlerResponse(ERROR_BODY, status, None, None, false), None)
  }

  const GUEST: nat := 1

  function SetupBody(blob: bytes, flags: nat): bytes {
    Put16(9) + Put16(flags) + Put16(72) + Put16(|blob|) + blob
  }

  function ChallengeBlob(raw: bool, challenge: Challenge): bytes {
    if raw then challenge
    else Spnego.EncodeResp(Spnego.AcceptIncomplete, Some(Spnego.OID_NTLMSSP), Some(challenge), None)
  }

  function CompletedBlob(raw: bool): bytes {
    if raw then [] else Spnego.EncodeResp(Spnego.AcceptCompleted, None, None, None)
  }

  function FirstRound(c: Auth, raw: bool, w: World): (Auth, Answer) {
    var id: u64 := c.nextSession % U64;
    var c1 := c.(nextSession := c.nextSession + 1);
    if !w.accepted then (c1, Failure(STATUS_LOGON_FAILURE))
    else (c1.(pending := c1.pending[id := raw]),
          Answer(HandlerResponse(SetupBody(ChallengeBlob(raw, w.challenge), 0), STATUS_MORE_PROCESSING_REQUIRED,
                                 None, Some(id), true), None))
  }

  function SecondRound(c: Auth, sid: u64, w: World, k: Crypto): (Auth, Answer) {
    if sid == 0 then (c, Failure(STATUS_INVALID_PARAMETER))
    else if sid !in c.pending then (c, Failure(STATUS_USER_SESSION_DELETED))
    else
      var raw, c1 := c.pending[sid], c.(pending := c.pending - {sid});
      if w.proof.Disproved? || (w.proof.anonymous && !w.anonymousAllowed) then (c1, Failure(STATUS_LOGON_FAILURE))
      else if c.dialect.None? then (c1, Failure(STATUS_INVALID_PARAMETER))
      else
        var key := if c.dialect == Some(Smb311) then Zeros(16) else k.key30(w.proof.baseKey);
        (c1.(sessions := c1.sessions[sid := Session(w.proof.anonymous, w.proof.baseKey, key, None)]),
         Answer(HandlerResponse(SetupBody(CompletedBlob(raw), if w.proof.anonymous then GUEST else 0), STATUS_SUCCESS,
                                None, Some(sid), w.proof.anonymous),
                if c.dialect == Some(Smb311) then Some(sid) else None))
  }

  /** `session_setup::handle`. */
  function HandleSetup(c: Auth, sid: u64, body: bytes, w: World, k: Crypto): (Auth, Answer) {
    match BodyRound(body)
    case Unreadable(status) => (c, Failure(status))
    case First(raw) => FirstRound(c, raw, w)
    case Second => SecondRound(c, sid, w, k)
  }

  // ---- the dispatcher around it ----

  /** `verify_request_signature`; sessions never demand signing, so only signed requests are checked. */
  function SignatureRefusal(c: Auth, h: Smb2Header, frame: bytes, k: Crypto): Option<u32> {
    if h.command == Negotiate || h.sessionId == 0 || !HasBit(h.flags, FLAG_SIGNED) then None
    else if h.sessionId !in c.sessions then Some(STATUS_USER_SESSION_DELETED)
    else
      var s := c.sessions[h.sessionId];
      if s.anonymous || Authentic(frame, s.signingKey, c.algo, k.mac) then None else Some(STATUS_ACCESS_DENIED)
  }

  function HandleNegotiate(c: Auth, w: World): (Auth, HandlerResponse) {
    match w.negotiated
    case Declined(status) => (c, HandlerResponse(ERROR_BODY, status, None, None, false))
    case Agreed(dialect, body) =>
      (c.(dialect := Some(dialect), algo := if dialect.Smb202? || dialect.Smb210? then HmacSha256 else AesCmac),
       HandlerResponse(body, STATUS_SUCCESS, None, None, true))
  }

  /** The hash an exchange continues from: its own fork, or a copy of the connection's. */
  function ForkOf(c: Auth, sid: u64): Digest {
    if sid != 0 && sid in c.forks then c.forks[sid] else c.preauth
  }

  function TakeFork(forks: map<u64, Digest>, sid: u64): map<u64, Digest> {
    if sid == 0 then forks else forks - {sid}
  }

  function TakeSnapshot(c: Auth, sid: Option<u64>, d: Digest, k: Crypto): Auth {
    if sid.None? || sid.value !in c.sessions then c
    else
      var s := c.sessions[sid.value];
      c.(sessions := c.sessions[sid.value := s.(snapshot := Some(d), signingKey := k.key311(s.baseKey, d))])
  }

  /** SESSION_SETUP under 3.1.1, around its handler. */
  function Setup311(c: Auth, h: Smb2Header, frame: bytes, body: bytes, w: World, k: Crypto): (Auth, bytes) {
    var d := Absorb(ForkOf(c, h.sessionId), [frame], k);
    var (c1, a) := HandleSetup(c.(forks := TakeFork(c.forks, h.sessionId)), h.sessionId, body, w, k);
    var c2 := TakeSnapshot(c1, a.snapshotFor, d, k);
    var out := BuildResponse(h, a.response, SignerOf(c2, k));
    if |out| >= HEADER_LEN && Get32(out, STATUS_AT) == STATUS_MORE_PROCESSING_REQUIRED
    then (c2.(forks := c2.forks[Get64(out, SESSION_AT) := Absorb(d, [out], k)]), out)
    else (c2.(forks := c2.forks - {h.sessionId}), out)
  }

  /** The state after a command other than NEGOTIATE and SESSION_SETUP: only LOGOFF touches it. */
  function AfterOther(c: Auth, h: Smb2Header): Auth {
    if h.command == Logoff then c.(sessions := c.sessions - {h.sessionId}) else c
  }

  /** What is answered: LOGOFF without a session is refused by its handler. */
  function OtherAnswer(h: Smb2Header, w: World): HandlerResponse {
    if h.command == Logoff && h.sessionId == 0 then Failure(STATUS_USER_SESSION_DELETED).response else w.other
  }

  /** `dispatch_one`. Sessions that configuration calls close are `Closed` events below. */
  function DispatchOne(c: Auth, frame: bytes, w: World, k: Crypto): (Auth, Option<bytes>) {
    match Parse(frame)
    case Err(_) => (c, None)
    case Ok((h, body)) =>
      var refusal := SignatureRefusal(c, h, frame, k);
      if refusal.Some? then (c, Some(BuildResponse(h, Failure(refusal.value).response, SignerOf(c, k))))
      else if h.command == Negotiate then
        var (c1, a) := HandleNegotiate(c.(preauth := Absorb(c.preauth, [frame], k)), w);
        var out := BuildResponse(h, a, SignerOf(c1, k));
        (c1.(preauth := Absorb(c1.preauth, [out], k)), Some(out))
      else if h.command == SessionSetup then
        if c.dialect == Some(Smb311) then
          var (c1, out) := Setup311(c, h, frame, body, w, k);
          (c1, Some(out))
        else
          var (c1, a) := HandleSetup(c, h.sessionId, body, w, k);
          (c1, Some(BuildResponse(h, a.response, SignerOf(c1, k))))
      else if h.command == Cancel then (c, None)
      else
        var c1 := if h.sessionId == 0 then c else AfterOther(c, h);
        (c1, Some(BuildResponse(h, OtherAnswer(h, w), SignerOf(c1, k))))
  }

  // ---- runs ----

  datatype Event = Frame(frame: bytes, world: World) | Closed(sids: set<u64>)

  function Step(c: Auth, e: Event, k: Crypto): Auth {
    match e
    case Frame(frame, w) => DispatchOne(c, frame, w, k).0
    case Closed(sids) => c.(sessions := c.sessions - sids)
  }

  function Run(c: Auth, es: seq<Event>, k: Crypto): Auth {
    if es == [] then c else Step(Run(c, es[..|es| - 1], k), es[|es| - 1], k)
  }

  /** A frame that is a request of the given command and passes the signature check. */
  predicate Takes(c: Auth, e: Event, command: Command, k: Crypto) {
    && e.Frame? && Parse(e.frame).Ok? && Parse(e.frame).value.0.command == command
    && SignatureRefusal(c, Parse(e.frame).value.0, e.frame, k).None?
  }

  function Reply(c: Auth, e: Event, k: Crypto): Option<bytes> {
    if e.Frame? then DispatchOne(c, e.frame, e.world, k).1 else None
  }

  /** The NEGOTIATE requests and responses of a run, in order. */
  function Negotiations(c: Auth, es: seq<Event>, k: Crypto): seq<bytes> {
    if es == [] then []
    else
      var before := es[..|es| - 1];
      var c1, e := Run(c, before, k), es[|es| - 1];
      Negotiations(c, before, k)
      + if Takes(c1, e, Negotiate, k) && Reply(c1, e, k).Some? then [e.frame, Reply(c1, e, k).value] else []
  }

  /** A 3.1.1 SESSION_SETUP that carries the given session id. */
  predicate Touches(c: Auth, e: Event, sid: u64, k: Crypto) {
    c.dialect == Some(Smb311) && Takes(c, e, SessionSetup, k) && Parse(e.frame).value.0.sessionId == sid
  }

  /** A first round that is answered with a challenge, forking the connection's hash: its header names no
      exchange under way (a zero id never does). */
  predicate Opens(c: Auth, e: Event, k: Crypto) {
    && c.dialect == Some(Smb311) && Takes(c, e, SessionSetup, k)
    && BodyRound(Parse(e.frame).value.1).First? && e.world.accepted
    && Parse(e.frame).value.0.sessionId !in c.forks
  }

  /** A second round that turns a pending exchange into a session. */
  predicate Completes(c: Auth, e: Event, sid: u64, k: Crypto) {
    && Touches(c, e, sid, k) && BodyRound(Parse(e.frame).value.1).Second? && sid != 0 && sid in c.pending
    && e.world.proof.Proved? && (e.world.proof.anonymous ==> e.world.anonymousAllowed)
  }

  // ---- tidiness: ids in use lie below the counter ----

  ghost predicate Tidy(c: Auth) {
    && 1 <= c.nextSession
    && (c.nextSession <= U64 ==>
          && c.pending.Keys !! c.sessions.Keys
          && forall sid :: sid in c.pending || sid in c.sessions || sid in c.forks ==> 1 <= sid < c.nextSession)
  }

  lemma ResponseReads(h: Smb2Header, a: HandlerResponse, g: Signer)
    ensures var out := BuildResponse(h, a, g);
            |out| >= HEADER_LEN && Get32(out, STATUS_AT) == a.status && Get64(out, SESSION_AT) == AnswerSession(h, a)
  {
    hide BuildResponse, AnswerFlags, AnswerSession, AnswerTree, ShouldSign, FromLe, HasBit, IsResponse,
        NeedsSignature, Authentic;
    ResponseIsWellFormed(h, a, g);
  }

  /** What every outcome of the handler keeps, and what a challenge means. */
  ghost predicate SetupKeeps(c: Auth, z: Auth, a: Answer) {
    && Tidy(z) && z.forks == c.forks && z.preauth == c.preauth && z.dialect == c.dialect
    && c.nextSession <= z.nextSession <= c.nextSession + 1
    && (a.response.status == STATUS_MORE_PROCESSING_REQUIRED ==>
          a.response.overrideSession == Some(c.nextSession % U64) && z.nextSession == c.nextSession + 1)
  }

  lemma FirstRoundTidy(c: Auth, raw: bool, w: World)
    requires Tidy(c)
    ensures SetupKeeps(c, FirstRound(c, raw, w).0, FirstRound(c, raw, w).1)
  {
    hide SetupBody, ChallengeBlob;
  }

  lemma SecondRoundTidy(c: Auth, sid: u64, w: World, k: Crypto)
    requires Tidy(c)
    ensures SetupKeeps(c, SecondRound(c, sid, w, k).0, SecondRound(c, sid, w, k).1)
  {
    hide SetupBody, CompletedBlob;
  }

  lemma SetupTidy(c: Auth, sid: u64, body: bytes, w: World, k: Crypto)
    requires Tidy(c)
    ensures SetupKeeps(c, HandleSetup(c, sid, body, w, k).0, HandleSetup(c, sid, body, w, k).1)
  {
    hide FirstRound, SecondRound, BodyRound, Tidy;
    UnreadableStatus(body);
    match BodyRound(body)
    case Unreadable(_) =>
    case First(raw) => FirstRoundTidy(c, raw, w);
    case Second => SecondRoundTidy(c, sid, w, k);
  }

  lemma UnreadableStatus(body: bytes)
    ensures BodyRound(body).Unreadable? ==>
      BodyRound(body).status != STATUS_MORE_PROCESSING_REQUIRED && BodyRound(body).status != STATUS_SUCCESS
  {
    hide Spnego.DecodeInit, Spnego.DecodeResp, SecurityBuffer;
  }

  /** A handler leaves settled sessions alone: only a pending exchange becomes a session. */
  lemma SetupSettles(c: Auth, sid: u64, body: bytes, w: World, k: Crypto, s: u64)
    requires s in c.sessions && s !in c.pending
    ensures var (z, a) := HandleSetup(c, sid, body, w, k);
            s in z.sessions && z.sessions[s] == c.sessions[s] && a.snapshotFor != Some(s)
  {
    hide SetupBody, ChallengeBlob, CompletedBlob, BodyRound;
  }

  /** Everything a 3.1.1 SESSION_SETUP does to the forks: the one its header names is used up, the one its
      challenge opens is set, the others stay. */
  lemma Setup311Forks(c: Auth, h: Smb2Header, frame: bytes, body: bytes, w: World, k: Crypto)
    requires Tidy(c)
    ensures var (z, out) := Setup311(c, h, frame, body, w, k);
            var id: u64 := c.nextSession % U64;
            && Tidy(z) && z.preauth == c.preauth && z.dialect == c.dialect
            && c.nextSession <= z.nextSession <= c.nextSession + 1
            && (z.forks == c.forks - {h.sessionId}
                || (z.forks == TakeFork(c.forks, h.sessionId)
                               [id := Absorb(Absorb(ForkOf(c, h.sessionId), [frame], k), [out], k)]
                    && z.nextSession == c.nextSession + 1))
  {
    hide BuildResponse, SignerOf, HandleSetup, Absorb, FromLe;
    var c0 := c.(forks := TakeFork(c.forks, h.sessionId));
    var (c1, a) := HandleSetup(c0, h.sessionId, body, w, k);
    SetupTidy(c0, h.sessionId, body, w, k);
    var c2 := TakeSnapshot(c1, a.snapshotFor, Absorb(ForkOf(c, h.sessionId), [frame], k), k);
    ResponseReads(h, a.response, SignerOf(c2, k));
    assert c2.sessions.Keys == c1.sessions.Keys;
    assert TakeFork(c.forks, h.sessionId) - {h.sessionId} == c.forks - {h.sessionId};
  }

  lemma StepTidy(c: Auth, e: Event, k: Crypto)
    requires Tidy(c)
    ensures var z := Step(c, e, k); Tidy(z) && c.nextSession <= z.nextSession <= c.nextSession + 1
  {
    hide BuildResponse, SignerOf, Setup311, HandleSetup, Absorb, SignatureRefusal, Parse;
    if e.Frame? && Parse(e.frame).Ok? {
      var (h, body) := Parse(e.frame).value;
      SetupTidy(c, h.sessionId, body, e.world, k);
      Setup311Forks(c, h, e.frame, body, e.world, k);
    }
  }

  /** Only a 3.1.1 SESSION_SETUP naming an exchange reaches its fork, and it uses the fork up. */
  lemma StepForks(c: Auth, e: Event, k: Crypto, s: u64)
    requires Tidy(c) && s < c.nextSession && Step(c, e, k).nextSession <= U64
    ensures var z := Step(c, e, k);
            if Touches(c, e, s, k) then s !in z.forks
            else (s in z.forks <==> s in c.forks) && (s in c.forks ==> z.forks[s] == c.forks[s])
  {
    hide BuildResponse, SignerOf, Setup311, HandleSetup, Absorb, SignatureRefusal, Parse;
    if e.Frame? && Parse(e.frame).Ok? {
      var (h, body) := Parse(e.frame).value;
      SetupTidy(c, h.sessionId, body, e.world, k);
      Setup311Forks(c, h, e.frame, body, e.world, k);
    }
  }

  lemma Setup311Sessions(c: Auth, h: Smb2Header, frame: bytes, body: bytes, w: World, k: Crypto, s: u64)
    requires s in c.sessions && s !in c.pending
    ensures var (z, out) := Setup311(c, h, frame, body, w, k); s in z.sessions && z.sessions[s] == c.sessions[s]
  {
    hide BuildResponse, SignerOf, HandleSetup, Absorb, FromLe;
    SetupSettles(c.(forks := TakeFork(c.forks, h.sessionId)), h.sessionId, body, w, k, s);
  }

  lemma SetupPending(c: Auth, sid: u64, body: bytes, w: World, k: Crypto, s: u64)
    requires s !in c.pending && s < c.nextSession && HandleSetup(c, sid, body, w, k).0.nextSession <= U64
    ensures var z := HandleSetup(c, sid, body, w, k).0; s !in z.pending && (s in z.sessions ==> s in c.sessions)
  {
    hide SetupBody, ChallengeBlob, CompletedBlob, BodyRound;
  }

  /** From `c` to `z` the exchange `s` stays over, and its session, while it lasts, is the same. */
  ghost predicate StaysSettled(c: Auth, z: Auth, s: u64) {
    s !in z.pending && (s in z.sessions ==> s in c.sessions && z.sessions[s] == c.sessions[s])
  }

  lemma PlainSetupSettles(c: Auth, sid: u64, body: bytes, w: World, k: Crypto, s: u64)
    requires s !in c.pending && s < c.nextSession && HandleSetup(c, sid, body, w, k).0.nextSession <= U64
    ensures StaysSettled(c, HandleSetup(c, sid, body, w, k).0, s)
  {
    hide HandleSetup;
    SetupPending(c, sid, body, w, k, s);
    if s in c.sessions {
      SetupSettles(c, sid, body, w, k, s);
    }
  }

  lemma Setup311Settles(c: Auth, h: Smb2Header, frame: bytes, body: bytes, w: World, k: Crypto, s: u64)
    requires Tidy(c) && s !in c.pending && s < c.nextSession && Setup311(c, h, frame, body, w, k).0.nextSession <= U64
    ensures StaysSettled(c, Setup311(c, h, frame, body, w, k).0, s)
  {
    hide BuildResponse, SignerOf, HandleSetup, Absorb, FromLe;
    var c0 := c.(forks := TakeFork(c.forks, h.sessionId));
    PlainSetupSettles(c0, h.sessionId, body, w, k, s);
    if s in c.sessions {
      Setup311Sessions(c, h, frame, body, w, k, s);
    }
  }

  /** Once an exchange is over its session, while it lasts, never changes; gone, it never comes back. */
  lemma StepSessions(c: Auth, e: Event, k: Crypto, s: u64)
    requires Tidy(c) && s !in c.pending && s < c.nextSession && Step(c, e, k).nextSession <= U64
    ensures StaysSettled(c, Step(c, e, k), s)
  {
    hide BuildResponse, SignerOf, HandleSetup, Setup311, Absorb, SignatureRefusal, Parse, Tidy;
    if Takes(c, e, SessionSetup, k) {
      var (h, body) := Parse(e.frame).value;
      if c.dialect == Some(Smb311) {
        Setup311Settles(c, h, e.frame, body, e.world, k, s);
      } else {
        PlainSetupSettles(c, h.sessionId, body, e.world, k, s);
      }
    }
  }

  // ---- over runs ----

  lemma {:induction false} RunTidy(c: Auth, es: seq<Event>, k: Crypto)
    requires Tidy(c)
    ensures Tidy(Run(c, es, k)) && c.nextSession <= Run(c, es, k).nextSession
    decreases |es|
  {
    hide Step, Tidy;
    if es != [] {
      RunTidy(c, es[..|es| - 1], k);
      StepTidy(Run(c, es[..|es| - 1], k), es[|es| - 1], k);
    }
  }

  /** The connection's hash absorbs exactly its NEGOTIATE messages, whatever sessions are being set up. */
  lemma {:induction false} ConnectionHashIsNegotiations(c: Auth, es: seq<Event>, k: Crypto)
    requires Tidy(c)
    ensures Run(c, es, k).preauth == Absorb(c.preauth, Negotiations(c, es, k), k)
    decreases |es|
  {
    hide Step, Parse, SignatureRefusal, DispatchOne, Absorb, Tidy;
    if es != [] {
      var before, e := es[..|es| - 1], es[|es| - 1];
      ConnectionHashIsNegotiations(c, before, k);
      RunTidy(c, before, k);
      var c1, n := Run(c, before, k), Negotiations(c, before, k);
      StepHash(c1, e, k);
      if Takes(c1, e, Negotiate, k) && Reply(c1, e, k).Some? {
        AbsorbTwo(c.preauth, n, e.frame, Reply(c1, e, k).value, k);
      } else {
        assert n + [] == n;
      }
    } else {
      AbsorbNone(c.preauth, k);
    }
  }

  lemma AbsorbTwo(d: Digest, msgs: seq<bytes>, a: bytes, b: bytes, k: Crypto)
    ensures Absorb(d, msgs + [a, b], k) == Absorb(Absorb(Absorb(d, msgs, k), [a], k), [b], k)
  {
    hide Absorb;
    assert msgs + [a, b] == (msgs + [a]) + [b];
    AbsorbOne(d, msgs + [a], b, k);
    AbsorbOne(d, msgs, a, k);
  }

  lemma StepHash(c: Auth, e: Event, k: Crypto)
    requires Tidy(c)
    ensures Step(c, e, k).preauth ==
      if Takes(c, e, Negotiate, k) && Reply(c, e, k).Some?
      then Absorb(Absorb(c.preauth, [e.frame], k), [Reply(c, e, k).value], k)
      else c.preauth
  {
    hide BuildResponse, SignerOf, Setup311, HandleSetup, Absorb, SignatureRefusal, Parse;
    if e.Frame? && Parse(e.frame).Ok? {
      var (h, body) := Parse(e.frame).value;
      SetupTidy(c, h.sessionId, body, e.world, k);
      Setup311Forks(c, h, e.frame, body, e.world, k);
    }
  }

  /** How often the exchange `s` is reached over a run. */
  predicate Untouched(c: Auth, es: seq<Event>, s: u64, k: Crypto) {
    es == [] ||
    (Untouched(c, es[..|es| - 1], s, k) && !Touches(Run(c, es[..|es| - 1], k), es[|es| - 1], s, k))
  }

  /** An exchange's fork survives a run, unchanged, exactly when no SESSION_SETUP names it. */
  lemma {:induction false} ForkSurvivesIff(c: Auth, es: seq<Event>, s: u64, k: Crypto)
    requires Tidy(c) && s in c.forks && s < c.nextSession && Run(c, es, k).nextSession <= U64
    ensures s in Run(c, es, k).forks <==> Untouched(c, es, s, k)
    ensures s in Run(c, es, k).forks ==> Run(c, es, k).forks[s] == c.forks[s]
    decreases |es|
  {
    hide Step, Touches, Tidy;
    if es != [] {
      var before, e := es[..|es| - 1], es[|es| - 1];
      RunTidy(c, before, k);
      StepTidy(Run(c, before, k), e, k);
      ForkSurvivesIff(c, before, s, k);
      StepForks(Run(c, before, k), e, k, s);
    }
  }

  lemma {:induction false} SessionIsSettled(c: Auth, es: seq<Event>, s: u64, k: Crypto)
    requires Tidy(c) && s !in c.pending && s < c.nextSession && Run(c, es, k).nextSession <= U64
    ensures var z := Run(c, es, k);
            s !in z.pending && (s in z.sessions ==> s in c.sessions && z.sessions[s] == c.sessions[s])
    decreases |es|
  {
    hide Step, Tidy;
    if es != [] {
      var before, e := es[..|es| - 1], es[|es| - 1];
      RunTidy(c, before, k);
      StepTidy(Run(c, before, k), e, k);
      SessionIsSettled(c, before, s, k);
      StepSessions(Run(c, before, k), e, k, s);
    }
  }

  // ---- one exchange, from its opening to the end ----

  /** The opening round forks the connection's hash and absorbs the request and its answer. */
  lemma OpeningForks(c: Auth, e: Event, k: Crypto)
    requires Tidy(c) && Opens(c, e, k) && c.nextSession < U64
    ensures var z := Step(c, e, k); var id: u64 := c.nextSession;
            && Reply(c, e, k).Some? && z.nextSession == c.nextSession + 1 && id in z.forks
            && z.forks[id] == Absorb(c.preauth, [e.frame, Reply(c, e, k).value], k)
  {
    hide BuildResponse, SignerOf, Absorb, SignatureRefusal, Parse, FromLe, SetupBody, ChallengeBlob, CompletedBlob,
        BodyRound;
    var (h, body) := Parse(e.frame).value;
    var c0 := c.(forks := TakeFork(c.forks, h.sessionId));
    var (c1, a) := HandleSetup(c0, h.sessionId, body, e.world, k);
    assert a.response.status == STATUS_MORE_PROCESSING_REQUIRED;
    ResponseReads(h, a.response, SignerOf(c1, k));
    AbsorbTwo(c.preauth, [], e.frame, Reply(c, e, k).value, k);
    AbsorbNone(c.preauth, k);
    assert [] + [e.frame, Reply(c, e, k).value] == [e.frame, Reply(c, e, k).value];
  }

  lemma AbsorbNone(d: Digest, k: Crypto)
    ensures Absorb(d, [], k) == d
  {
  }

  /** The completing round takes the snapshot after absorbing its own request, and derives the key from it. */
  lemma CompletionKeys(c: Auth, e: Event, s: u64, k: Crypto)
    requires Completes(c, e, s, k) && s in c.forks
    ensures var z := Step(c, e, k); var d := Absorb(c.forks[s], [e.frame], k); var p := e.world.proof;
            && s !in z.pending && s in z.sessions
            && z.sessions[s] == Session(p.anonymous, p.baseKey, k.key311(p.baseKey, d), Some(d))
  {
    hide BuildResponse, SignerOf, Absorb, SignatureRefusal, Parse, FromLe, SetupBody, ChallengeBlob, CompletedBlob,
        BodyRound;
  }

  /** Preauth integrity and non-interference. However requests, other exchanges and teardowns interleave: a
      session whose opening named no exchange under way, and which nothing but its own completion names in
      between, holds for as long as it lasts the hash chain over the NEGOTIATE messages before its opening, its
      first request, its challenge and its second request, and the signing key derived from that. */
  lemma SnapshotIsOwnTranscript(
    before: seq<Event>, opening: Event, between: seq<Event>, completion: Event, after: seq<Event>, k: Crypto)
    requires var c1 := Run(UNCONNECTED, before, k); var c2 := Step(c1, opening, k);
             var c3 := Run(c2, between, k); var c4 := Step(c3, completion, k);
             && Opens(c1, opening, k) && c1.nextSession < U64
             && Untouched(c2, between, c1.nextSession, k) && Completes(c3, completion, c1.nextSession, k)
             && Run(c4, after, k).nextSession <= U64
    ensures var c1 := Run(UNCONNECTED, before, k);
            var c3 := Run(Step(c1, opening, k), between, k);
            var z := Run(Step(c3, completion, k), after, k);
            && Reply(c1, opening, k).Some?
            && var transcript := Negotiations(UNCONNECTED, before, k)
                                 + [opening.frame, Reply(c1, opening, k).value, completion.frame];
               var d := Absorb(Zeros(64), transcript, k);
               var p := completion.world.proof;
               c1.nextSession in z.sessions ==>
                 z.sessions[c1.nextSession] == Session(p.anonymous, p.baseKey, k.key311(p.baseKey, d), Some(d))
  {
    hide Step, Parse, SignatureRefusal, BodyRound, DispatchOne, Absorb, Tidy, Negotiations, Run, Untouched;
    var c1 := Run(UNCONNECTED, before, k);
    var c2 := Step(c1, opening, k);
    var c3 := Run(c2, between, k);
    var c4 := Step(c3, completion, k);
    var s: u64 := c1.nextSession;
    StartsTidy();
    RunTidy(UNCONNECTED, before, k);
    ConnectionHashIsNegotiations(UNCONNECTED, before, k);
    StepTidy(c1, opening, k);
    OpeningForks(c1, opening, k);
    RunTidy(c2, between, k);
    StepTidy(c3, completion, k);
    RunTidy(c4, after, k);
    ForkSurvivesIff(c2, between, s, k);
    CompletionKeys(c3, completion, s, k);
    SessionIsSettled(c4, after, s, k);
    Transcript(Negotiations(UNCONNECTED, before, k), opening.frame, Reply(c1, opening, k).value, completion.frame, k);
  }

  lemma Transcript(n: seq<bytes>, a: bytes, b: bytes, c: bytes, k: Crypto)
    ensures Absorb(Absorb(Absorb(Zeros(64), n, k), [a, b], k), [c], k) == Absorb(Zeros(64), n + [a, b, c], k)
  {
    hide Absorb;
    var d := Absorb(Zeros(64), n, k);
    AbsorbTwo(Zeros(64), n, a, b, k);
    AbsorbTwo(d, [], a, b, k);
    AbsorbNone(d, k);
    assert [] + [a, b] == [a, b];
    assert n + [a, b, c] == n + [a, b] + [c];
    AbsorbOne(Zeros(64), n + [a, b], c, k);
  }

  lemma StartsTidy()
    ensures Tidy(UNCONNECTED) && UNCONNECTED.preauth == Zeros(64)
  {
  }

  /** The condition on the opening is needed: a first round whose header names another exchange takes that
      exchange's hash over, for itself and from the other. */
  lemma ForeignOpeningTakesOver(c: Auth, e: Event, s: u64, k: Crypto)
    requires Tidy(c) && c.nextSession < U64 && s in c.forks && Touches(c, e, s, k)
    requires BodyRound(Parse(e.frame).value.1).First? && e.world.accepted
    ensures var z := Step(c, e, k); var id: u64 := c.nextSession;
            && s !in z.forks && id in z.forks && Reply(c, e, k).Some?
            && z.forks[id] == Absorb(c.forks[s], [e.frame, Reply(c, e, k).value], k)
  {
    hide BuildResponse, SignerOf, Absorb, SignatureRefusal, Parse, FromLe, SetupBody, ChallengeBlob, CompletedBlob,
        BodyRound;
    var (h, body) := Parse(e.frame).value;
    var c0 := c.(forks := TakeFork(c.forks, h.sessionId));
    var (c1, a) := HandleSetup(c0, h.sessionId, body, e.world, k);
    ResponseReads(h, a.response, SignerOf(c1, k));
    AbsorbTwo(c.forks[s], [], e.frame, Reply(c, e, k).value, k);
    AbsorbNone(c.forks[s], k);
    assert [] + [e.frame, Reply(c, e, k).value] == [e.frame, Reply(c, e, k).value];
  }

  /** The response that completes a user's exchange is signed, and authentic under the derived key. */
  lemma CompletionIsSigned(c: Auth, e: Event, s: u64, k: Crypto)
    requires Completes(c, e, s, k) && s in c.forks && !e.world.proof.anonymous
    requires k.key311(e.world.proof.baseKey, Absorb(c.forks[s], [e.frame], k)) != Zeros(16)
    ensures Reply(c, e, k).Some?
    ensures Authentic(Reply(c, e, k).value, k.key311(e.world.proof.baseKey, Absorb(c.forks[s], [e.frame], k)),
        c.algo, k.mac)
  {
    hide BuildResponse, Absorb, SignatureRefusal, Parse, FromLe, CompletedBlob, BodyRound, AnswerFlags, Authentic,
        NeedsSignature, HasBit;
    var (h, body) := Parse(e.frame).value;
    var c0 := c.(forks := TakeFork(c.forks, s));
    var (c1, a) := SecondRound(c0, s, e.world, k);
    var c2 := TakeSnapshot(c1, a.snapshotFor, Absorb(c.forks[s], [e.frame], k), k);
    NotGuest(CompletedBlob(c.pending[s]));
    assert ShouldSign(h, a.response, SignerOf(c2, k));
    ResponseIsWellFormed(h, a.response, SignerOf(c2, k));
  }

  lemma NotGuest(blob: bytes)
    ensures |SetupBody(blob, 0)| >= 4 && !HasBit(SetupBody(blob, 0)[2], 1)
  {
  }

  // ---- forged requests ----

  /** A request flagged as signed, other than NEGOTIATE, that names a session. */
  predicate ClaimsSignature(frame: bytes) {
    && Parse(frame).Ok? && Parse(frame).value.0.command != Negotiate && Parse(frame).value.0.sessionId != 0
    && HasBit(Parse(frame).value.0.flags, FLAG_SIGNED)
  }

  /** ... whose bytes 48 to 64 are not the MAC, under that session's key, of the frame with those bytes zero. */
  predicate Forged(c: Auth, frame: bytes, k: Crypto) {
    && ClaimsSignature(frame) && |frame| >= 64
    && var sid := Parse(frame).value.0.sessionId;
       && sid in c.sessions && !c.sessions[sid].anonymous
       && frame[48..64] != k.mac(c.algo, c.sessions[sid].signingKey, frame[..48] + Zeros(16) + frame[64..])
  }

  /** ... or whose session there is none of. */
  predicate Orphaned(c: Auth, frame: bytes) {
    ClaimsSignature(frame) && Parse(frame).value.0.sessionId !in c.sessions
  }

  /** A forged request changes nothing and is answered with ACCESS_DENIED; one for an unknown session changes
      nothing and is answered with USER_SESSION_DELETED. */
  lemma ForgedIsRefused(c: Auth, frame: bytes, w: World, k: Crypto)
    requires Forged(c, frame, k) || Orphaned(c, frame)
    ensures var (z, out) := DispatchOne(c, frame, w, k);
            && z == c && out.Some? && |out.value| >= 64
            && Get32(out.value, 8) == if Forged(c, frame, k) then 0xC000_0022 else 0xC000_015C
  {
    hide Parse, BuildResponse, SignerOf, HasBit, FromLe;
    var h := Parse(frame).value.0;
    var status := if Forged(c, frame, k) then STATUS_ACCESS_DENIED else STATUS_USER_SESSION_DELETED;
    ResponseReads(h, Failure(status).response, SignerOf(c, k));
  }

  /** Every other request is carried out, signed or not: LOGOFF closes the session it names, and what any other
      handler answers is sent. */
  lemma OthersAreServed(c: Auth, frame: bytes, w: World, k: Crypto)
    requires Parse(frame).Ok? && |frame| >= 64 && !Forged(c, frame, k) && !Orphaned(c, frame)
    requires Parse(frame).value.0.command !in {Negotiate, SessionSetup, Cancel}
    ensures var h := Parse(frame).value.0; var (z, out) := DispatchOne(c, frame, w, k);
            && z == (if h.command == Logoff && h.sessionId != 0 then c.(sessions := c.sessions - {h.sessionId}) else c)
            && (h.command != Logoff || h.sessionId != 0 ==> out == Some(BuildResponse(h, w.other, SignerOf(z, k))))
            && (h.command == Logoff && h.sessionId == 0 ==> out.Some? && |out.value| >= 64
                                                            && Get32(out.value, 8) == 0xC000_015C)
  {
    hide Parse, BuildResponse, SignerOf, HasBit, FromLe;
    var h := Parse(frame).value.0;
    ResponseReads(h, Failure(STATUS_USER_SESSION_DELETED).response, SignerOf(c, k));
  }

  predicate Ignored(c: Auth, e: Event, k: Crypto) {
    e.Frame? && (Forged(c, e.frame, k) || Orphaned(c, e.frame))
  }

  /** A run without its forged and orphaned requests. */
  function Genuine(c: Auth, es: seq<Event>, k: Crypto): seq<Event> {
    if es == [] then []
    else
      var before, e := es[..|es| - 1], es[|es| - 1];
      Genuine(c, before, k) + if Ignored(Run(c, before, k), e, k) then [] else [e]
  }

  /** Deleting them from a run leaves the same final state. */
  lemma {:induction false} ForgeriesLeaveNoTrace(c: Auth, es: seq<Event>, k: Crypto)
    ensures Run(c, Genuine(c, es, k), k) == Run(c, es, k)
    decreases |es|
  {
    hide Step, Ignored;
    if es != [] {
      var before, e := es[..|es| - 1], es[|es| - 1];
      ForgeriesLeaveNoTrace(c, before, k);
      var kept := Genuine(c, before, k);
      if Ignored(Run(c, before, k), e, k) {
        IgnoredStays(Run(c, before, k), e, k);
        assert Genuine(c, es, k) == kept + [] == kept;
      } else {
        assert (kept + [e])[..|kept|] == kept;
      }
    }
  }

  lemma IgnoredStays(c: Auth, e: Event, k: Crypto)
    requires Ignored(c, e, k)
    ensures Step(c, e, k) == c
  {
    hide DispatchOne, Forged, Orphaned;
    ForgedIsRefused(c, e.frame, e.world, k);
  }

  // ---- keys of the older dialects, and what NEGOTIATE settles ----

  /** Under an older dialect a completed exchange has the key derived from its base key alone. */
  lemma OlderDialectKeys(c: Auth, sid: u64, w: World, k: Crypto)
    requires sid != 0 && sid in c.pending && c.dialect.Some? && c.dialect != Some(Smb311)
    requires w.proof.Proved? && (w.proof.anonymous ==> w.anonymousAllowed)
    ensures var (z, a) := SecondRound(c, sid, w, k);
            && sid in z.sessions && sid !in z.pending && a.snapshotFor == None
            && z.sessions[sid] == Session(w.proof.anonymous, w.proof.baseKey, k.key30(w.proof.baseKey), None)
  {
    hide SetupBody, CompletedBlob;
  }

  /** NEGOTIATE settles the dialect, and with it the MAC: HMAC-SHA256 for 2.0.2 and 2.1, AES-CMAC after. */
  lemma NegotiateSettles(c: Auth, w: World)
    ensures var z := HandleNegotiate(c, w).0;
            match w.negotiated
            case Declined(_) => z == c
            case Agreed(d, _) =>
              && z.dialect == Some(d) && (z.algo == HmacSha256 <==> d == Smb202 || d == Smb210)
              && z.sessions == c.sessions && z.pending == c.pending && z.preauth == c.preauth
  {
  }

  // ---- which round a token opens ----

  /** An init token that lists NTLMSSP opens a first round, one that does not is refused; an encoded response
      token is a second round. */
  lemma TokensAreTold(mechs: seq<bytes>, token: Option<bytes>)
    requires Spnego.InitAddressable(mechs, token) && |Spnego.GssInner(mechs, token)| < U32
    ensures RoundOf(Spnego.InitToken(mechs, token))
         == if Spnego.OID_NTLMSSP in mechs then First(false) else Unreadable(STATUS_NOT_SUPPORTED)
  {
    hide Spnego.DecodeInit, Spnego.DecodeResp, Spnego.GssInner;
    Spnego.InitRoundTripIff(mechs, token);
    Spnego.InitTokenStarts(mechs, token);
  }

  lemma ReplyTokensAreTold(state: Spnego.NegState, mech: Option<bytes>, token: Option<bytes>, mic: Option<bytes>)
    requires Spnego.Addressable(mech, token, mic) && |Spnego.RespInner(state, mech, token, mic)| < U32
    ensures RoundOf(Spnego.EncodeResp(state, mech, token, mic)) == Second
  {
    hide Spnego.DecodeInit, Spnego.DecodeResp, Spnego.RespInner;
    Spnego.RespRoundTripIff(state, mech, token, mic);
    Spnego.RespTokenStarts(state, mech, token, mic);
  }

  // ---- what the client reads in the two answers ----

  lemma SetupBodyLayout(blob: bytes, flags: byte)
    ensures var s := SetupBody(blob, flags);
            && |s| == 8 + |blob| && s[0..2] == Put16(9) && s[2..4] == [flags, 0] && s[4..6] == Put16(72)
            && s[6..8] == Put16(|blob|) && s[8..] == blob
  {
    hide Put16;
    LittleEndian(flags);
  }

  /** An accepted opening is answered unsigned, under a fresh session id, with the challenge in the form the client
      chose: raw, or as an incomplete token that reads back to it. */
  lemma OpeningIsAnswered(c: Auth, raw: bool, w: World)
    requires w.accepted
    ensures var (z, a) := FirstRound(c, raw, w); var id: u64 := c.nextSession % U64; var s := a.response.body;
            && z == c.(nextSession := c.nextSession + 1, pending := c.pending[id := raw])
            && a.response.status == 0xC000_0016 && a.response.overrideSession == Some(id) && a.response.skipSigning
            && a.response.overrideTree == None && a.snapshotFor == None
            && |s| >= 8 && s[2..4] == [0, 0]
            && if raw then s[8..] == w.challenge
               else Spnego.DecodeResp(s[8..]) == Ok(Spnego.NegTokenResp(
                      Some(Spnego.AcceptIncomplete), Some(Spnego.OID_NTLMSSP), Some(w.challenge), None))
  {
    hide SetupBody, Spnego.DecodeResp, Spnego.EncodeResp, Spnego.RespInner;
    SetupBodyLayout(ChallengeBlob(raw, w.challenge), 0);
    Spnego.RespSize(Spnego.AcceptIncomplete, Some(Spnego.OID_NTLMSSP), Some(w.challenge), None);
    Spnego.RespRoundTripIff(Spnego.AcceptIncomplete, Some(Spnego.OID_NTLMSSP), Some(w.challenge), None);
  }

  /** A completed exchange is answered in the form it was opened in, marked as a guest's and left unsigned exactly if
      it is anonymous. */
  lemma CompletionIsAnswered(c: Auth, sid: u64, w: World, k: Crypto)
    requires sid != 0 && sid in c.pending && c.dialect.Some?
    requires w.proof.Proved? && (w.proof.anonymous ==> w.anonymousAllowed)
    ensures var a := SecondRound(c, sid, w, k).1; var s := a.response.body;
            && a.response.status == 0 && a.response.overrideSession == Some(sid) && a.response.overrideTree == None
            && (a.response.skipSigning <==> w.proof.anonymous)
            && |s| >= 8 && s[2..4] == (if w.proof.anonymous then [1, 0] else [0, 0])
            && if c.pending[sid] then s[8..] == []
               else Spnego.DecodeResp(s[8..])
                    == Ok(Spnego.NegTokenResp(Some(Spnego.AcceptCompleted), None, None, None))
  {
    hide SetupBody, Spnego.DecodeResp, Spnego.EncodeResp, Spnego.RespInner;
    SetupBodyLayout(CompletedBlob(c.pending[sid]), if w.proof.anonymous then GUEST else 0);
    Spnego.RespSize(Spnego.AcceptCompleted, None, None, None);
    Spnego.RespRoundTripIff(Spnego.AcceptCompleted, None, None, None);
  }

  // ---- an exchange, to show that the premises above can all be met ----

  function Plain(command: Command, sid: u64): Smb2Header {
    Smb2Header(0, 0, command, 0, 0, 0, 0, Sync(0, 0), sid, Zeros(16))
  }

  /** A SESSION_SETUP body carrying a raw NTLMSSP message of the given type and nothing more. */
  function RawToken(kind: nat): bytes {
    Zeros(14) + Put16(12) + Zeros(8) + (NTLMSSP_MAGIC + Put32(kind))
  }

  lemma RawTokenRound(kind: nat)
    requires kind < U32
    ensures BodyRound(RawToken(kind)) == if kind == 1 then First(true) else Second
  {
    hide Put16, Put32, Get16, Get32, Spnego.DecodeInit, Spnego.DecodeResp;
    var body, blob := RawToken(kind), NTLMSSP_MAGIC + Put32(kind);
    assert body[14..16] == Put16(12) && body[24..36] == blob;
    assert blob[..8] == NTLMSSP_MAGIC && blob[8..12] == Put32(kind);
    GetPut16(body, 14, 12);
    GetPut32(blob, 8, kind);
  }

  lemma PlainParses(command: Command, sid: u64, body: bytes)
    ensures Parse(Encode(Plain(command, sid)) + body) == Ok((Plain(command, sid), body))
  {
    hide Parse, Encode;
    ParseEncodeIff(Plain(command, sid), body);
  }

  /** A NEGOTIATE, an opening with a zero session id and its completion meet every premise of
      `SnapshotIsOwnTranscript`, with nothing in between or after. */
  lemma AnExchangeExists(k: Crypto) returns (before: seq<Event>, opening: Event, completion: Event)
    ensures opening.Frame? && opening.world.accepted && opening.world.challenge == []
    ensures var c1 := Run(UNCONNECTED, before, k);
            c1.nextSession == 1 && c1.dialect == Some(Smb311) && c1.forks == map[]
    ensures var c1 := Run(UNCONNECTED, before, k); var c2 := Step(c1, opening, k);
            && Opens(c1, opening, k) && c1.nextSession < U64
            && Untouched(c2, [], c1.nextSession, k) && Completes(Run(c2, [], k), completion, c1.nextSession, k)
            && Run(Step(Run(c2, [], k), completion, k), [], k).nextSession <= U64
            && c2.dialect == Some(Smb311) && 1 in c2.pending && c2.sessions == map[]
  {
    hide Parse, Encode, BuildResponse, SignerOf, Absorb, BodyRound, Tidy, SetupBody, ChallengeBlob, CompletedBlob,
        HasBit;
    var w := World(true, [], Proved(true, Zeros(16)), true, Agreed(Smb311, []), Failure(STATUS_NOT_SUPPORTED).response);
    var negotiate := Frame(Encode(Plain(Negotiate, 0)), w);
    before := [negotiate];
    opening := Frame(Encode(Plain(SessionSetup, 0)) + RawToken(1), w);
    completion := Frame(Encode(Plain(SessionSetup, 1)) + RawToken(3), w);
    Nil(Encode(Plain(Negotiate, 0)));
    PlainParses(Negotiate, 0, []);
    PlainParses(SessionSetup, 0, RawToken(1));
    PlainParses(SessionSetup, 1, RawToken(3));
    RawTokenRound(1);
    RawTokenRound(3);
    NoFlags();
    var c1 := Run(UNCONNECTED, before, k);
    RunOne(UNCONNECTED, negotiate, k);
    var c2 := Step(c1, opening, k);
    StartsTidy();
    RunTidy(UNCONNECTED, before, k);
    StepTidy(c1, opening, k);
    StepTidy(c2, completion, k);
    assert 1 in c2.pending;
  }

  /** A real run in which a second opening names the first exchange: the hash of that one is gone, and the new
      one continues from it. */
  lemma TakeoverHappens(k: Crypto) returns (before: seq<Event>, first: Event, second: Event)
    ensures var c1 := Run(UNCONNECTED, before, k); var c2 := Step(c1, first, k); var z := Step(c2, second, k);
            && Opens(c1, first, k) && c1.nextSession == 1
            && Reply(c1, first, k).Some? && Reply(c2, second, k).Some?
            && 1 in c2.forks && Touches(c2, second, 1, k) && 1 in z.pending && 1 !in z.forks && 2 in z.forks
            && z.forks[2] == Absorb(c1.preauth, [first.frame, Reply(c1, first, k).value,
                                                 second.frame, Reply(c2, second, k).value], k)
  {
    hide Parse, Encode, BuildResponse, SignerOf, Absorb, BodyRound, Tidy, SetupBody, ChallengeBlob, CompletedBlob,
        HasBit;
    var completion;
    before, first, completion := AnExchangeExists(k);
    second := Frame(Encode(Plain(SessionSetup, 1)) + RawToken(1), first.world);
    var c1 := Run(UNCONNECTED, before, k);
    var c2 := Step(c1, first, k);
    StartsTidy();
    RunTidy(UNCONNECTED, before, k);
    StepTidy(c1, first, k);
    OpeningForks(c1, first, k);
    PlainParses(SessionSetup, 1, RawToken(1));
    RawTokenRound(1);
    NoFlags();
    ForeignOpeningTakesOver(c2, second, 1, k);
    FourParts(c1.preauth, first.frame, Reply(c1, first, k).value, second.frame, Reply(c2, second, k).value, k);
  }

  lemma FourParts(d: Digest, a: bytes, b: bytes, x: bytes, y: bytes, k: Crypto)
    ensures Absorb(Absorb(d, [a, b], k), [x, y], k) == Absorb(d, [a, b, x, y], k)
  {
    hide Absorb;
    AbsorbTwo(Absorb(d, [a, b], k), [], x, y, k);
    AbsorbNone(Absorb(d, [a, b], k), k);
    AbsorbTwo(d, [a, b], x, y, k);
    assert [] + [x, y] == [x, y] && [a, b] + [x, y] == [a, b, x, y];
  }

  lemma RunOne(c: Auth, e: Event, k: Crypto)
    ensures Run(c, [e], k) == Step(c, e, k)
  {
    hide Step;
    assert [e][..0] == [] && Run(c, [], k) == c;
  }

  lemma NoFlags()
    ensures !HasBit(0, FLAG_SIGNED)
  {
  }

  // ---- the same, in place ----

  class Connection {
    var dialect: Option<Dialect>
    var algo: Algo
    const preauth: PreauthIntegrity
    var forks: map<u64, Digest>
    var pending: map<u64, bool>
    var sessions: map<u64, Session>
    var nextSession: nat

    constructor ()
      ensures fresh(preauth) && View() == UNCONNECTED
    {
      dialect, algo, forks, pending, sessions, nextSession := None, HmacSha256, map[], map[], map[], 1;
      preauth := new PreauthIntegrity(Zeros(64));
    }

    function View(): Auth
      reads this, preauth
    {
      Auth(dialect, algo, preauth.hash, forks, pending, sessions, nextSession)
    }

    /** `take_session_preauth`: the exchange's own hash, taken out, or a clone of the connection's. */
    method TakeSessionPreauth(sid: u64) returns (p: PreauthIntegrity)
      modifies this`forks
      ensures fresh(p) && p.hash == ForkOf(old(View()), sid)
      ensures View() == old(View()).(forks := TakeFork(old(forks), sid))
    {
      if sid != 0 && sid in forks {
        p := new PreauthIntegrity(forks[sid]);
        forks := forks - {sid};
      } else {
        assert forks - {sid} == forks || sid == 0;
        p := new PreauthIntegrity(preauth.Snapshot());
      }
    }

    /** `session_setup::handle`. */
    method Setup(sid: u64, body: bytes, w: World, k: Crypto) returns (a: Answer)
      modifies this`pending, this`sessions, this`nextSession
      ensures (View(), a) == HandleSetup(old(View()), sid, body, w, k)
    {
      hide BodyRound, SetupBody;
      var round := ReadRound(body);
      if round.Unreadable? {
        return Failure(round.status);
      }
      if round.First? {
        var id: u64 := nextSession % U64;
        nextSession := nextSession + 1;
        if !w.accepted {
          return Failure(STATUS_LOGON_FAILURE);
        }
        var blob := w.challenge;
        if !round.raw {
          blob := Spnego.EncodeRespToken(Spnego.AcceptIncomplete, Some(Spnego.OID_NTLMSSP), Some(w.challenge), None);
        }
        pending := pending[id := round.raw];
        return Answer(HandlerResponse(SetupBody(blob, 0), STATUS_MORE_PROCESSING_REQUIRED, None, Some(id), true), None);
      }
      if sid == 0 {
        return Failure(STATUS_INVALID_PARAMETER);
      }
      if sid !in pending {
        return Failure(STATUS_USER_SESSION_DELETED);
      }
      var raw := pending[sid];
      pending := pending - {sid};
      if w.proof.Disproved? || (w.proof.anonymous && !w.anonymousAllowed) {
        return Failure(STATUS_LOGON_FAILURE);
      }
      if dialect.None? {
        return Failure(STATUS_INVALID_PARAMETER);
      }
      var key := if dialect == Some(Smb311) then Zeros(16) else k.key30(w.proof.baseKey);
      sessions := sessions[sid := Session(w.proof.anonymous, w.proof.baseKey, key, None)];
      var blob := [];
      if !raw {
        blob := Spnego.EncodeRespToken(Spnego.AcceptCompleted, None, None, None);
      }
      return Answer(HandlerResponse(SetupBody(blob, if w.proof.anonymous then GUEST else 0), STATUS_SUCCESS, None,
                                    Some(sid), w.proof.anonymous),
                    if dialect == Some(Smb311) then Some(sid) else None);
    }

    method ReadRound(body: bytes) returns (round: Round)
      ensures round == BodyRound(body)
    {
      hide Get16, Get32;
      var buffer := SecurityBuffer(body);
      if buffer.None? || buffer.value == [] {
        return Unreadable(STATUS_INVALID_PARAMETER);
      }
      var blob := buffer.value;
      if |blob| >= 8 && blob[..8] == NTLMSSP_MAGIC {
        return if |blob| >= 12 && Get32(blob, 8) == 1 then First(true) else Second;
      }
      if blob[0] == 0x60 {
        var init := Spnego.DecodeInitToken(blob);
        return if init.Err? then Unreadable(STATUS_LOGON_FAILURE)
               else if Spnego.OID_NTLMSSP in init.value.mechs then First(false)
               else Unreadable(STATUS_NOT_SUPPORTED);
      }
      var resp := Spnego.DecodeRespToken(blob);
      return if resp.Err? then Unreadable(STATUS_LOGON_FAILURE) else Second;
    }

    method Refusal(h: Smb2Header, frame: bytes, k: Crypto) returns (status: Option<u32>)
      ensures status == SignatureRefusal(View(), h, frame, k)
    {
      if h.command == Negotiate || h.sessionId == 0 || !HasBit(h.flags, FLAG_SIGNED) {
        return None;
      }
      if h.sessionId !in sessions {
        return Some(STATUS_USER_SESSION_DELETED);
      }
      var s := sessions[h.sessionId];
      if s.anonymous {
        return None;
      }
      var ok := Verify(frame, s.signingKey, algo, k.mac);
      return if ok then None else Some(STATUS_ACCESS_DENIED);
    }

    method DispatchNegotiate(h: Smb2Header, frame: bytes, w: World, k: Crypto) returns (out: bytes)
      modifies this`dialect, this`algo, preauth
      ensures var (c1, a) := HandleNegotiate(old(View()).(preauth := Absorb(old(preauth.hash), [frame], k)), w);
              && out == BuildResponse(h, a, SignerOf(c1, k))
              && View() == c1.(preauth := Absorb(c1.preauth, [out], k))
    {
      hide BuildResponse, SignerOf, Absorb;
      preauth.Update(frame, k);
      var (c1, a) := HandleNegotiate(View(), w);
      dialect, algo := c1.dialect, c1.algo;
      out := BuildResponse(h, a, SignerOf(View(), k));
      preauth.Update(out, k);
    }

    /** The handler, and the snapshot it asks for. */
    method SetupAndSnapshot(sid: u64, body: bytes, d: Digest, w: World, k: Crypto) returns (a: HandlerResponse)
      modifies this`pending, this`sessions, this`nextSession
      ensures var (c1, answer) := HandleSetup(old(View()), sid, body, w, k);
              a == answer.response && View() == TakeSnapshot(c1, answer.snapshotFor, d, k)
    {
      hide HandleSetup;
      var answer := Setup(sid, body, w, k);
      a := answer.response;
      if answer.snapshotFor.Some? && answer.snapshotFor.value in sessions {
        var s := sessions[answer.snapshotFor.value];
        sessions := sessions[answer.snapshotFor.value := s.(snapshot := Some(d), signingKey := k.key311(s.baseKey, d))];
      }
    }

    /** SESSION_SETUP under 3.1.1: take the hash, absorb the request, handle it, and keep or discard the fork. */
    method DispatchSetup311(h: Smb2Header, frame: bytes, body: bytes, w: World, k: Crypto) returns (out: bytes)
      modifies this`forks, this`pending, this`sessions, this`nextSession
      ensures (View(), out) == Setup311(old(View()), h, frame, body, w, k)
    {
      hide BuildResponse, SignerOf, HandleSetup, Absorb, ForkOf, TakeFork, TakeSnapshot, FromLe;
      var p := TakeSessionPreauth(h.sessionId);
      p.Update(frame, k);
      var a := SetupAndSnapshot(h.sessionId, body, p.Snapshot(), w, k);
      out := BuildResponse(h, a, SignerOf(View(), k));
      if |out| >= HEADER_LEN && Get32(out, STATUS_AT) == STATUS_MORE_PROCESSING_REQUIRED {
        p.Update(out, k);
        forks := forks[Get64(out, SESSION_AT) := p.Snapshot()];
      } else {
        forks := forks - {h.sessionId};
      }
    }

    /** `dispatch_one`. */
    method Dispatch(frame: bytes, w: World, k: Crypto) returns (out: Option<bytes>)
      modifies this, preauth
      ensures (View(), out) == DispatchOne(old(View()), frame, w, k)
    {
      hide Parse, SignatureRefusal, BuildResponse, SignerOf, HandleSetup, HandleNegotiate, Setup311, Absorb;
      var parsed := Parse(frame);
      if parsed.Err? {
        return None;
      }
      var (h, body) := parsed.value;
      var refusal := Refusal(h, frame, k);
      if refusal.Some? {
        return Some(BuildResponse(h, Failure(refusal.value).response, SignerOf(View(), k)));
      }
      if h.command == Negotiate {
        var bytes_ := DispatchNegotiate(h, frame, w, k);
        return Some(bytes_);
      }
      if h.command == Cancel {
        return None;
      }
      if h.command != SessionSetup {
        if h.command == Logoff && h.sessionId != 0 {
          sessions := sessions - {h.sessionId};
        }
        return Some(BuildResponse(h, OtherAnswer(h, w), SignerOf(View(), k)));
      }
      if dialect == Some(Smb311) {
        var bytes_ := DispatchSetup311(h, frame, body, w, k);
        return Some(bytes_);
      }
      var a := Setup(h.sessionId, body, w, k);
      return Some(BuildResponse(h, a.response, SignerOf(View(), k)));
    }
  }
}
