/** One connection and the server around it, run together: the authentication dispatcher of `SessionSetup` and
    the tables of `Servers` are two views of the same connection over every run. */
module JointRuns {
  import opened Bytes
  import opened Sharing
  import opened Header
  import opened Signing
  import opened SetupAgreement
  import Tallies
  import Sessions
  import Servers
  import Numbering
  import Setup = SessionSetup

  /** What comes with a frame: what the second token claims and the key it would yield, the rest of the
      world's inputs, and, for a tree or file command, the request its handler makes of it. */
  datatype Inputs = Inputs(world: Setup.World, claim: Sessions.Claim, baseKey: Key, table: Option<Servers.Request>)

  /** A frame on the connection, or a step of the server elsewhere: other connections, configuration calls. */
  datatype Happening = Received(frame: bytes, inputs: Inputs) | Elsewhere(op: Servers.Op)

  datatype Joint = Joint(server: Servers.Server, auth: Setup.Auth)

  // ---- one happening, seen from both sides ----

  function ProofOf(claim: Sessions.Claim, users: set<string>, baseKey: Key): Setup.Proof {
    match Sessions.Prove(claim, users)
    case None => Setup.Disproved
    case Some(who) => if who.Anonymous? then Setup.Proved(true, Zeros(16)) else Setup.Proved(false, baseKey)
  }

  /** The claim is judged by the user table, an anonymous one by the shares, as they are now. */
  function WorldIn(p: Servers.Policy, i: Inputs): Setup.World {
    i.world.(proof := ProofOf(i.claim, p.users, i.baseKey), anonymousAllowed := Servers.AnonymousAllowed(p))
  }

  predicate RequestFor(command: Command, r: Servers.Request) {
    match command
    case TreeConnect => r.TreeConnect?
    case TreeDisconnect => r.TreeDisconnect?
    case Create => r.Create?
    case Close => r.Close?
    case _ => false
  }

  /** The server's step that a frame comes to, if it gets to a handler that touches the tables. */
  function OpOf(cid: nat, c: Setup.Auth, frame: bytes, i: Inputs, k: Setup.Crypto): Option<Servers.Op> {
    match Parse(frame)
    case Err(_) => None
    case Ok((h, body)) =>
      if Setup.SignatureRefusal(c, h, frame, k).Some? then None
      else match h.command
        case Negotiate => if i.world.negotiated.Agreed? then Some(Servers.Message(cid, Servers.Negotiate)) else None
        case SessionSetup =>
          var r := RequestOf(Setup.BodyRound(body), h.sessionId, i.world.accepted, i.claim);
          if r.None? then None else Some(Servers.Message(cid, r.value))
        case Logoff => Some(Servers.Message(cid, Servers.LogOff(h.sessionId)))
        case _ =>
          if i.table.Some? && RequestFor(h.command, i.table.value) then Some(Servers.Message(cid, i.table.value))
          else None
  }

  predicate OnConnection(op: Servers.Op, cid: nat) {
    (op.Message? && op.cid == cid) || op == Servers.Hangup(cid)
  }

  ghost function ServerOp(cid: nat, j: Joint, h: Happening, k: Setup.Crypto): Option<Servers.Op> {
    match h
    case Received(frame, i) => OpOf(cid, j.auth, frame, i, k)
    case Elsewhere(op) => if OnConnection(op, cid) then None else Some(op)
  }

  ghost function ServerAfter(cid: nat, j: Joint, h: Happening, k: Setup.Crypto): Servers.Server {
    match ServerOp(cid, j, h, k)
    case None => j.server
    case Some(op) => Servers.Step(j.server, op)
  }

  function SessionIds(s: Servers.Server, cid: nat): set<u64> {
    if cid in s.conns then s.conns[cid].sessions.Keys else {}
  }

  /** The connection's event: its own frame, or the sessions that a step elsewhere closed on it. */
  ghost function EventOf(cid: nat, j: Joint, h: Happening, k: Setup.Crypto): Setup.Event {
    match h
    case Received(frame, i) => Setup.Frame(frame, WorldIn(j.server.policy, i))
    case Elsewhere(_) => Setup.Closed(SessionIds(j.server, cid) - SessionIds(ServerAfter(cid, j, h, k), cid))
  }

  ghost function Step(cid: nat, j: Joint, h: Happening, k: Setup.Crypto): Joint {
    Joint(ServerAfter(cid, j, h, k), Setup.Step(j.auth, EventOf(cid, j, h, k), k))
  }

  ghost predicate Same(cid: nat, j: Joint) {
    cid < j.server.nextConn && cid in j.server.conns && Agrees(j.auth, j.server.conns[cid])
  }

  // ---- each happening keeps the two views together ----

  lemma ProofsAgree(claim: Sessions.Claim, users: set<string>, baseKey: Key)
    ensures SameProof(ProofOf(claim, users, baseKey), claim, users)
  {
    hide Sessions.Prove;
  }

  /** Keys, hashes and forks play no part in the agreement. */
  lemma AgreesOnTables(c: Setup.Auth, x: Setup.Auth, d: Sessions.Conn)
    requires Agrees(c, d)
    requires x.dialect == c.dialect && x.nextSession == c.nextSession && x.pending == c.pending
    requires x.sessions.Keys == c.sessions.Keys
    requires forall sid :: sid in c.sessions ==> x.sessions[sid].anonymous == c.sessions[sid].anonymous
    ensures Agrees(x, d)
  {
  }

  lemma SnapshotAgrees(c: Setup.Auth, d: Sessions.Conn, sid: Option<u64>, digest: Setup.Digest, k: Setup.Crypto)
    requires Agrees(c, d)
    ensures Agrees(Setup.TakeSnapshot(c, sid, digest, k), d)
  {
  }

  /** A SESSION_SETUP as the dispatcher runs it, whatever the dialect. */
  lemma DispatchedSetupAgrees(c: Setup.Auth, d: Sessions.Conn, l: Sessions.Ledger, p: Servers.Policy, h: Smb2Header,
                              frame: bytes, body: bytes, i: Inputs, k: Setup.Crypto)
    requires Agrees(c, d)
    ensures var w := WorldIn(p, i);
            var c1 := if c.dialect == Some(Setup.Smb311) then Setup.Setup311(c, h, frame, body, w, k).0
                      else Setup.HandleSetup(c, h.sessionId, body, w, k).0;
            var r := RequestOf(Setup.BodyRound(body), h.sessionId, i.world.accepted, i.claim);
            Agrees(c1, if r.None? then d else Servers.Serve(p, d, l, r.value).conn)
  {
    hide Setup.HandleSetup, Setup.TakeSnapshot, Setup.Absorb, Setup.BodyRound, Servers.Serve, Servers.AnonymousAllowed,
         SameProof, ProofOf, Agrees, RequestOf, FromLe;
    var w := WorldIn(p, i);
    ProofsAgree(i.claim, p.users, i.baseKey);
    if c.dialect == Some(Setup.Smb311) {
      var c0 := c.(forks := Setup.TakeFork(c.forks, h.sessionId));
      AgreesOnTables(c, c0, d);
      SetupAgrees(c0, d, l, p, h.sessionId, body, w, i.claim, k);
      var (c1, a) := Setup.HandleSetup(c0, h.sessionId, body, w, k);
      var r := RequestOf(Setup.BodyRound(body), h.sessionId, i.world.accepted, i.claim);
      var e := if r.None? then d else Servers.Serve(p, d, l, r.value).conn;
      var digest := Setup.Absorb(Setup.ForkOf(c, h.sessionId), [frame], k);
      SnapshotAgrees(c1, e, a.snapshotFor, digest, k);
      AgreesOnTables(Setup.TakeSnapshot(c1, a.snapshotFor, digest, k), Setup.Setup311(c, h, frame, body, w, k).0, e);
    } else {
      SetupAgrees(c, d, l, p, h.sessionId, body, w, i.claim, k);
    }
  }

  /** Tree and file requests leave ids, pending exchanges and identities alone. */
  lemma TableRequestAgrees(c: Setup.Auth, d: Sessions.Conn, l: Sessions.Ledger, p: Servers.Policy, command: Command,
                           r: Servers.Request)
    requires Agrees(c, d) && RequestFor(command, r)
    ensures Agrees(c, Servers.Serve(p, d, l, r).conn)
  {
    hide Servers.Lookup, Authorize, Sessions.CreateRefusal, Tallies.Worth;
  }

  lemma LogoffAgrees(c: Setup.Auth, d: Sessions.Conn, l: Sessions.Ledger, h: Smb2Header)
    requires Agrees(c, d) && h.command == Logoff
    ensures Agrees(if h.sessionId == 0 then c else Setup.AfterOther(c, h), Sessions.Logoff(d, l, h.sessionId).conn)
  {
    hide Tallies.Worth;
  }

  lemma NegotiateAgrees(c: Setup.Auth, d: Sessions.Conn, w: Setup.World, before: Setup.Digest, after: Setup.Digest)
    requires Agrees(c, d)
    ensures var c1 := Setup.HandleNegotiate(c.(preauth := before), w).0;
            Agrees(c1.(preauth := after), if w.negotiated.Agreed? then d.(negotiated := true) else d)
  {
  }

  lemma FrameAgrees(cid: nat, j: Joint, frame: bytes, i: Inputs, k: Setup.Crypto)
    requires Same(cid, j)
    ensures Same(cid, Step(cid, j, Received(frame, i), k))
  {
    hide Parse, Setup.SignatureRefusal, Setup.HandleSetup, Setup.Setup311, Setup.HandleNegotiate, Setup.Absorb,
         Setup.BodyRound, Setup.AfterOther, Servers.Serve, Agrees, RequestOf, RequestFor, WorldIn;
    var s, c := j.server, j.auth;
    var d := s.conns[cid];
    if Parse(frame).Err? {
      return;
    }
    var (h, body) := Parse(frame).value;
    var w := WorldIn(s.policy, i);
    WorldKeeps(s.policy, i);
    if Setup.SignatureRefusal(c, h, frame, k).Some? {
    } else if h.command == Negotiate {
      var before := Setup.Absorb(c.preauth, [frame], k);
      NegotiateAgrees(c, d, w, before, Setup.Step(c, Setup.Frame(frame, w), k).preauth);
      NegotiateServes(s.policy, d, s.ledger);
    } else if h.command == SessionSetup {
      DispatchedSetupAgrees(c, d, s.ledger, s.policy, h, frame, body, i, k);
    } else if h.command == Logoff {
      LogoffAgrees(c, d, s.ledger, h);
      LogoffServes(s.policy, d, s.ledger, h.sessionId);
    } else {
      OthersKeep(c, h);
      if i.table.Some? && RequestFor(h.command, i.table.value) {
        TableRequestAgrees(c, d, s.ledger, s.policy, h.command, i.table.value);
      }
    }
  }

  lemma WorldKeeps(p: Servers.Policy, i: Inputs)
    ensures WorldIn(p, i).negotiated == i.world.negotiated && WorldIn(p, i).accepted == i.world.accepted
  {
  }

  lemma OthersKeep(c: Setup.Auth, h: Smb2Header)
    requires h.command != Logoff
    ensures Setup.AfterOther(c, h) == c
  {
  }

  lemma NegotiateServes(p: Servers.Policy, d: Sessions.Conn, l: Sessions.Ledger)
    ensures Servers.Serve(p, d, l, Servers.Negotiate).conn == d.(negotiated := true)
  {
  }

  lemma LogoffServes(p: Servers.Policy, d: Sessions.Conn, l: Sessions.Ledger, sid: u64)
    ensures Servers.Serve(p, d, l, Servers.LogOff(sid)) == Sessions.Logoff(d, l, sid)
  {
  }

  /** A teardown closes on both sides the same sessions. */
  lemma TeardownAgrees(c: Setup.Auth, d: Sessions.Conn, td: Option<Servers.Teardown>)
    requires Agrees(c, d)
    ensures var e := Servers.AfterTeardown(d, td);
            Agrees(c.(sessions := c.sessions - (d.sessions.Keys - e.sessions.Keys)), e)
  {
    hide Sessions.Selects;
  }

  lemma ElsewhereAgrees(cid: nat, j: Joint, op: Servers.Op, k: Setup.Crypto)
    requires Same(cid, j)
    ensures Same(cid, Step(cid, j, Elsewhere(op), k))
  {
    hide Servers.Serve, Servers.Configure, Servers.AfterTeardown, Agrees;
    var s, z := j.server, ServerAfter(cid, j, Elsewhere(op), k);
    var td: Option<Servers.Teardown> := None;
    if op.Config? {
      td := ConfigTeardown(s, op.op);
    }
    assert z.conns[cid] == Servers.AfterTeardown(s.conns[cid], td) by { NoTeardown(s.conns[cid]); }
    TeardownAgrees(j.auth, s.conns[cid], td);
  }

  lemma NoTeardown(d: Sessions.Conn)
    ensures Servers.AfterTeardown(d, None) == d
  {
  }

  lemma ConfigTeardown(s: Servers.Server, op: Servers.ConfigOp) returns (td: Option<Servers.Teardown>)
    ensures var z := Servers.Configure(s, op).0;
            && z.nextConn == s.nextConn && z.conns.Keys == s.conns.Keys
            && forall n :: n in s.conns ==> z.conns[n] == Servers.AfterTeardown(s.conns[n], td)
  {
    td := Numbering.ConfigTables(s, op);
  }

  lemma StepKeepsSame(cid: nat, j: Joint, h: Happening, k: Setup.Crypto)
    requires Same(cid, j)
    ensures Same(cid, Step(cid, j, h, k))
  {
    hide Step, Same;
    match h
    case Received(frame, i) => FrameAgrees(cid, j, frame, i, k);
    case Elsewhere(op) => ElsewhereAgrees(cid, j, op, k);
  }

  // ---- over runs ----

  ghost function Run(cid: nat, j: Joint, hs: seq<Happening>, k: Setup.Crypto): Joint {
    if hs == [] then j else Step(cid, Run(cid, j, hs[..|hs| - 1], k), hs[|hs| - 1], k)
  }

  /** The server's own run within a joint one, and the connection's. */
  ghost function ServerOps(cid: nat, j: Joint, hs: seq<Happening>, k: Setup.Crypto): seq<Servers.Op> {
    if hs == [] then []
    else
      var op := ServerOp(cid, Run(cid, j, hs[..|hs| - 1], k), hs[|hs| - 1], k);
      ServerOps(cid, j, hs[..|hs| - 1], k) + if op.Some? then [op.value] else []
  }

  ghost function Events(cid: nat, j: Joint, hs: seq<Happening>, k: Setup.Crypto): seq<Setup.Event> {
    if hs == [] then []
    else Events(cid, j, hs[..|hs| - 1], k) + [EventOf(cid, Run(cid, j, hs[..|hs| - 1], k), hs[|hs| - 1], k)]
  }

  lemma ServerSnoc(s: Servers.Server, ops: seq<Servers.Op>, op: Servers.Op)
    ensures Servers.Run(s, ops + [op]) == Servers.Step(Servers.Run(s, ops), op)
  {
    hide Servers.Step;
    assert (ops + [op])[..|ops|] == ops;
  }

  lemma EventSnoc(c: Setup.Auth, es: seq<Setup.Event>, e: Setup.Event, k: Setup.Crypto)
    ensures Setup.Run(c, es + [e], k) == Setup.Step(Setup.Run(c, es, k), e, k)
  {
    hide Setup.Step;
    assert (es + [e])[..|es|] == es;
  }

  /** Each side of a joint run is a run of its own model, and the two stay views of one connection. */
  lemma {:induction false} SidesRun(cid: nat, j: Joint, hs: seq<Happening>, k: Setup.Crypto)
    requires Same(cid, j)
    ensures var z := Run(cid, j, hs, k);
            && z.server == Servers.Run(j.server, ServerOps(cid, j, hs, k))
            && z.auth == Setup.Run(j.auth, Events(cid, j, hs, k), k)
            && Same(cid, z)
    decreases |hs|
  {
    hide Servers.Run, Servers.Step, Setup.Run, Setup.Step, Same, ServerOp, EventOf;
    if hs == [] {
      NoSteps(j, k);
    } else {
      var before, h := hs[..|hs| - 1], hs[|hs| - 1];
      SidesRun(cid, j, before, k);
      var y := Run(cid, j, before, k);
      StepKeepsSame(cid, y, h, k);
      EventSnoc(j.auth, Events(cid, j, before, k), EventOf(cid, y, h, k), k);
      var ops, op := ServerOps(cid, j, before, k), ServerOp(cid, y, h, k);
      if op.Some? {
        ServerSnoc(j.server, ops, op.value);
      } else {
        assert ops + [] == ops;
      }
    }
  }

  lemma NoSteps(j: Joint, k: Setup.Crypto)
    ensures Servers.Run(j.server, []) == j.server && Setup.Run(j.auth, [], k) == j.auth
  {
  }

  /** A connection accepted by a server that has been running. */
  ghost function Accepted(s: Servers.Server): Joint {
    Joint(Servers.Step(s, Servers.Accept), Setup.UNCONNECTED)
  }

  lemma AcceptedIsSame(s: Servers.Server)
    ensures Same(s.nextConn, Accepted(s))
  {
  }

  /** From a built server, through any run before the connection is accepted and any joint run after: the tables
      are those of a run of the server and secure, the keys those of a run of the connection, both describe
      one connection, and every session that authenticates a user belongs to one who is in the table now. */
  lemma KeysBelongToKnownUsers(
    users: set<string>, decls: seq<ShareDecl>, before: seq<Servers.Op>, hs: seq<Happening>, k: Setup.Crypto)
    requires Servers.Buildable(users, decls)
    ensures var s := Servers.Run(Servers.Initial(users, decls), before);
            var cid, j := s.nextConn, Accepted(s);
            var z := Run(cid, j, hs, k);
            && z.server == Servers.Run(Servers.Initial(users, decls),
                                       before + [Servers.Accept] + ServerOps(cid, j, hs, k))
            && z.auth == Setup.Run(Setup.UNCONNECTED, Events(cid, j, hs, k), k)
            && Servers.Secure(z.server) && Same(cid, z)
            && forall sid :: sid in z.auth.sessions && !z.auth.sessions[sid].anonymous ==>
                 var who := z.server.conns[cid].sessions[sid].identity; who.User? && who.name in z.server.policy.users
  {
    hide Servers.Run, Run, ServerOps, Events, Servers.Buildable, Servers.PolicyOk, Setup.Run, Servers.TreeOk;
    var s0 := Servers.Initial(users, decls);
    var s := Servers.Run(s0, before);
    var cid, j := s.nextConn, Accepted(s);
    AcceptedIsSame(s);
    SidesRun(cid, j, hs, k);
    ServerSnoc(s0, before, Servers.Accept);
    RunAppend(s0, before + [Servers.Accept], ServerOps(cid, j, hs, k));
    Servers.RevocationIsSafe(users, decls, before + [Servers.Accept] + ServerOps(cid, j, hs, k));
    var z := Run(cid, j, hs, k);
    forall sid | sid in z.auth.sessions && !z.auth.sessions[sid].anonymous
      ensures z.server.conns[cid].sessions[sid].identity.User?
      ensures z.server.conns[cid].sessions[sid].identity.name in z.server.policy.users
    {
      assert Servers.SessionOk(z.server.policy, z.server.conns[cid].sessions[sid]);
    }
  }

  lemma {:induction false} RunAppend(s: Servers.Server, a: seq<Servers.Op>, b: seq<Servers.Op>)
    ensures Servers.Run(s, a + b) == Servers.Run(Servers.Run(s, a), b)
    decreases |b|
  {
    hide Servers.Step;
    if b == [] {
      assert a + b == a;
    } else {
      RunAppend(s, a, b[..|b| - 1]);
      assert (a + b)[..|a + b| - 1] == a + b[..|b| - 1];
    }
  }
}
