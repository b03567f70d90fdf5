/** The two views of SESSION_SETUP agree: the exchange with its keys and hashes (`SessionSetup`) and the
    bookkeeping of ids, sessions and identities (`Servers`) take the same branches to the same outcome. */
module SetupAgreement {
  import opened Bytes
  import opened NtStatus
  import opened Sharing
  import Tallies
  import Sessions
  import Servers
  import SessionSetup

  /** Both describe one connection. */
  ghost predicate Agrees(c: SessionSetup.Auth, d: Sessions.Conn) {
    && d.negotiated == c.dialect.Some? && d.nextSession == c.nextSession
    && d.pending == c.pending.Keys && d.sessions.Keys == c.sessions.Keys
    && forall sid :: sid in c.sessions ==> d.sessions[sid].identity.Anonymous? == c.sessions[sid].anonymous
  }

  /** The same second token, seen from both sides. */
  predicate SameProof(proof: SessionSetup.Proof, claim: Sessions.Claim, users: set<string>) {
    var who := Sessions.Prove(claim, users);
    if proof.Disproved? then who.None? else who.Some? && who.value.Anonymous? == proof.anonymous
  }

  predicate SameAnswer(a: SessionSetup.Answer, r: Sessions.Reply) {
    match r
    case Refused(status) => a.response.status == status && a.response.overrideSession == None
    case SessionPending(sid) =>
      a.response.status == STATUS_MORE_PROCESSING_REQUIRED && a.response.overrideSession == Some(sid)
    case SessionOpened(sid) => a.response.status == STATUS_SUCCESS && a.response.overrideSession == Some(sid)
    case _ => false
  }

  /** The bookkeeping request a security token amounts to; an unreadable one amounts to none. */
  function RequestOf(round: SessionSetup.Round, sid: u64, accepted: bool,
      claim: Sessions.Claim): Option<Servers.Request> {
    match round
    case Unreadable(_) => None
    case First(_) => Some(Servers.SetupOpening(accepted))
    case Second => Some(Servers.SetupReply(sid, claim))
  }

  lemma FirstAgrees(c: SessionSetup.Auth, d: Sessions.Conn, l: Sessions.Ledger, raw: bool, w: SessionSetup.World)
    requires Agrees(c, d)
    ensures var (c1, a) := SessionSetup.FirstRound(c, raw, w); var m := Sessions.OpenSetup(d, l, w.accepted);
            Agrees(c1, m.conn) && SameAnswer(a, m.reply)
  {
    hide SessionSetup.SetupBody, SessionSetup.ChallengeBlob;
  }

  lemma SecondAgrees(c: SessionSetup.Auth, d: Sessions.Conn, l: Sessions.Ledger, users: set<string>, sid: u64,
                     w: SessionSetup.World, claim: Sessions.Claim, k: SessionSetup.Crypto)
    requires Agrees(c, d) && SameProof(w.proof, claim, users)
    ensures var (c1, a) := SessionSetup.SecondRound(c, sid, w, k);
            var m := Sessions.FinishSetup(d, l, sid, claim, users, w.anonymousAllowed);
            Agrees(c1, m.conn) && SameAnswer(a, m.reply)
  {
    hide SessionSetup.SetupBody, SessionSetup.CompletedBlob, Tallies.Worth, Sessions.Prove;
  }

  lemma SetupAgrees(c: SessionSetup.Auth, d: Sessions.Conn, l: Sessions.Ledger, p: Servers.Policy,
                    sid: u64, body: bytes,
                    w: SessionSetup.World, claim: Sessions.Claim, k: SessionSetup.Crypto)
    requires Agrees(c, d) && SameProof(w.proof, claim, p.users)
    requires w.anonymousAllowed == Servers.AnonymousAllowed(p)
    ensures var (c1, a) := SessionSetup.HandleSetup(c, sid, body, w, k);
            var r := RequestOf(SessionSetup.BodyRound(body), sid, w.accepted, claim);
            if r.None? then c1 == c && a.response.status !in {STATUS_SUCCESS, STATUS_MORE_PROCESSING_REQUIRED}
            else var m := Servers.Serve(p, d, l, r.value); Agrees(c1, m.conn) && SameAnswer(a, m.reply)
  {
    hide SessionSetup.BodyRound, SessionSetup.FirstRound, SessionSetup.SecondRound, Sessions.OpenSetup,
         Sessions.FinishSetup, Servers.AnonymousAllowed, Agrees, SameProof, SameAnswer;
    SessionSetup.UnreadableStatus(body);
    match SessionSetup.BodyRound(body)
    case Unreadable(_) =>
    case First(raw) => FirstAgrees(c, d, l, raw, w);
    case Second => SecondAgrees(c, d, l, p.users, sid, w, claim, k);
  }
}
