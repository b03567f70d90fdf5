/** The whole server as a value: users, shares and their access lists, and every connection; the steps are
    request handlers and configuration calls, each atomic. Invariants over all runs. */
module Servers {
  import opened Bytes
  import opened NtStatus
  import opened Sharing
  import opened Tallies
  import opened Sessions

  datatype Policy = Policy(users: set<string>, byName: map<string, Share>, acls: map<nat, Acl>, nextShare: nat)

  datatype Server = Server(policy: Policy, conns: map<nat, Conn>, nextConn: nat, ledger: Ledger)

  const NO_LEDGER := Ledger(0, multiset{}, multiset{})

  // ---- looking shares up ----

  function AclOf(p: Policy, share: Share): Acl {
    if share.id in p.acls then p.acls[share.id] else Acl(AuthenticatedOnly, map[])
  }

  function Find(p: Policy, name: string): Option<Share> {
    if Lower(name) in p.byName then Some(p.byName[Lower(name)]) else None
  }

  /** What TREE_CONNECT finds under a name: `IPC$` is always the synthetic share. */
  function Lookup(p: Policy, name: string): Option<(Share, Acl)> {
    if Lower(name) == Lower(IPC) then Some((IPC_SHARE, IPC_ACL))
    else match Find(p, name)
      case None => None
      case Some(share) => Some((share, AclOf(p, share)))
  }

  predicate AnonymousAllowed(p: Policy) {
    exists k :: k in p.byName && AclOf(p, p.byName[k]).mode.IsPublic()
  }

  // ---- teardown on every connection ----

  datatype Teardown = Trees(sel: Selector) | SessionsOf(user: string)

  function Part(c: Conn, td: Teardown, selected: bool): Conn {
    match td
    case Trees(sel) => c.(sessions := TreesWhere(c.sessions, sel, selected))
    case SessionsOf(user) => c.(sessions := SessionsWhere(c.sessions, user, selected))
  }

  function PartAll(conns: map<nat, Conn>, td: Teardown, selected: bool): (r: map<nat, Conn>)
    ensures r.Keys == conns.Keys
  {
    map k | k in conns :: Part(conns[k], td, selected)
  }

  ghost function ServerHandles(conns: map<nat, Conn>): Handles { Tally(conns, ConnHandles) }

  ghost function Everywhere(s: Server, td: Teardown): Server {
    s.(conns := PartAll(s.conns, td, false), ledger := Closing(s.ledger, ServerHandles(PartAll(s.conns, td, true))))
  }

  // ---- configuration calls ----

  datatype ConfigOp =
    | AddUser(name: string) | RemoveUser(name: string)
    | AddShare(decl: ShareDecl) | RemoveShare(name: string)
    | Grant(share: string, user: string, access: Access) | Revoke(share: string, user: string)
    | SetMode(share: string, mode: Mode)

  function Register(p: Policy, d: ShareDecl): Policy {
    p.(byName := p.byName[Lower(d.name) := Share(p.nextShare, d.name, false, d.readOnly)],
       acls := p.acls[p.nextShare := d.acl], nextShare := p.nextShare + 1)
  }

  function Ids(byName: map<string, Share>): set<nat> {
    set k | k in byName :: byName[k].id
  }

  function WithoutUser(acl: Acl, user: string): Acl {
    acl.(users := acl.users - {user})
  }

  function Forgetting(acls: map<nat, Acl>, ids: set<nat>, user: string): map<nat, Acl> {
    map id | id in acls :: if id in ids then WithoutUser(acls[id], user) else acls[id]
  }

  lemma ForgettingNone(acls: map<nat, Acl>, user: string)
    ensures Forgetting(acls, {}, user) == acls
  {
  }

  /** Every registered share's list forgets the user. */
  function ForgetUser(p: Policy, user: string): map<nat, Acl> {
    Forgetting(p.acls, Ids(p.byName), user)
  }

  function SetAcl(p: Policy, share: Share, acl: Acl): Policy {
    p.(acls := p.acls[share.id := acl])
  }

  /** A step with the error it reports, if any; a failed call changes nothing. */
  ghost function Configure(s: Server, op: ConfigOp): (Server, Option<ConfigError>) {
    var p := s.policy;
    match op
    case AddUser(name) =>
      if ValidateUserName(name).Some? then (s, ValidateUserName(name))
      else (s.(policy := p.(users := p.users + {name})), None)
    case RemoveUser(name) =>
      if ValidateUserName(name).Some? then (s, ValidateUserName(name))
      else if name !in p.users then (s, Some(UnknownUser))
      else
        var q := p.(users := p.users - {name}, acls := ForgetUser(p, name));
        (Everywhere(s.(policy := q), SessionsOf(name)), None)
    case AddShare(d) =>
      if ValidateShareName(d.name).Some? then (s, ValidateShareName(d.name))
      else if d.acl.mode.IsPublic() && d.acl.users != map[] then (s, Some(PublicMixedWithUsers))
      else if !(d.acl.users.Keys <= p.users) then (s, Some(UnknownUser))
      else if Lower(d.name) in p.byName then (s, Some(DuplicateShare))
      else (s.(policy := Register(p, d)), None)
    case RemoveShare(name) =>
      if ValidateShareName(name).Some? then (s, ValidateShareName(name))
      else if Lower(name) !in p.byName then (s, Some(UnknownShare))
      else (Everywhere(s.(policy := p.(byName := p.byName - {Lower(name)})), Trees(OfShare(name))), None)
    case Grant(name, user, access) =>
      if ValidateUserName(user).Some? then (s, ValidateUserName(user))
      else if ValidateShareName(name).Some? then (s, ValidateShareName(name))
      else if user !in p.users then (s, Some(UnknownUser))
      else if Find(p, name).None? then (s, Some(UnknownShare))
      else
        var share := Find(p, name).value;
        var acl := AclOf(p, share);
        if acl.mode.IsPublic() then (s, Some(PublicMixedWithUsers))
        else (s.(policy := SetAcl(p, share, acl.(users := acl.users[user := access]))), None)
    case Revoke(name, user) =>
      if ValidateUserName(user).Some? then (s, ValidateUserName(user))
      else if ValidateShareName(name).Some? then (s, ValidateShareName(name))
      else if Find(p, name).None? then (s, Some(UnknownShare))
      else
        var share := Find(p, name).value;
        var q := SetAcl(p, share, WithoutUser(AclOf(p, share), user));
        (Everywhere(s.(policy := q), Trees(OfUserShare(user, name))), None)
    case SetMode(name, mode) =>
      if ValidateShareName(name).Some? then (s, ValidateShareName(name))
      else if Find(p, name).None? then (s, Some(UnknownShare))
      else
        var share := Find(p, name).value;
        var acl := AclOf(p, share);
        if mode.IsPublic() && acl.users != map[] then (s, Some(PublicMixedWithUsers))
        else if acl.mode == mode then (s, None)
        else (Everywhere(s.(policy := SetAcl(p, share, acl.(mode := mode))), Trees(OfShare(name))), None)
  }

  // ---- requests ----

  datatype Request =
    | Negotiate
    | SetupOpening(accepted: bool)
    | SetupReply(sid: u64, claim: Claim)
    | TreeConnect(sid: u64, share: Option<string>)
    | TreeDisconnect(sid: u64, tid: Option<u32>)
    | LogOff(sid: u64)
    | Create(sid: u64, tid: Option<u32>, req: OpenRequest, answer: Answer)
    | Close(sid: u64, tid: Option<u32>, fid: FileId)

  ghost function Serve(p: Policy, c: Conn, l: Ledger, r: Request): Moved {
    match r
    case Negotiate => Moved(c.(negotiated := true), l, Done)
    case SetupOpening(accepted) => OpenSetup(c, l, accepted)
    case SetupReply(sid, claim) => FinishSetup(c, l, sid, claim, p.users, AnonymousAllowed(p))
    case TreeConnect(sid, share) =>
      if share.None? then Moved(c, l, Refused(STATUS_BAD_NETWORK_NAME))
      else ConnectTree(c, l, sid, Lookup(p, share.value))
    case TreeDisconnect(sid, tid) => DisconnectTree(c, l, sid, tid)
    case LogOff(sid) => Logoff(c, l, sid)
    case Create(sid, tid, req, answer) => CreateFile(c, l, sid, tid, req, answer)
    case Close(sid, tid, fid) => CloseFile(c, l, sid, tid, fid)
  }

  /** One step of the server. A connection that goes away takes its handles with it, unclosed. */
  datatype Op = Accept | Hangup(cid: nat) | Config(op: ConfigOp) | Message(cid: nat, request: Request)

  ghost function Step(s: Server, op: Op): Server {
    match op
    case Accept => s.(conns := s.conns[s.nextConn := FRESH_CONN], nextConn := s.nextConn + 1)
    case Hangup(cid) =>
      s.(conns := s.conns - {cid}, ledger := Dropping(s.ledger, Worth(s.conns, ConnHandles, cid)))
    case Config(op) => Configure(s, op).0
    case Message(cid, request) =>
      if cid !in s.conns then s
      else
        var m := Serve(s.policy, s.conns[cid], s.ledger, request);
        s.(conns := s.conns[cid := m.conn], ledger := m.ledger)
  }

  ghost function Run(s: Server, ops: seq<Op>): Server {
    if ops == [] then s else Step(Run(s, ops[..|ops| - 1]), ops[|ops| - 1])
  }

  // ---- the builder ----

  function RegisterAll(p: Policy, decls: seq<ShareDecl>): Policy {
    if decls == [] then p else Register(RegisterAll(p, decls[..|decls| - 1]), decls[|decls| - 1])
  }

  function Initial(users: set<string>, decls: seq<ShareDecl>): Server {
    Server(RegisterAll(Policy(users, map[], map[], 0), decls), map[], 0, NO_LEDGER)
  }

  /** Declarations `build` accepts. Unlike `add_share`, it does not refuse the name `IPC$`. */
  predicate Buildable(users: set<string>, decls: seq<ShareDecl>) {
    && (forall u :: u in users ==> ValidateUserName(u) == None)
    && (forall i, j :: 0 <= i < j < |decls| ==> Lower(decls[i].name) != Lower(decls[j].name))
    && (forall i :: 0 <= i < |decls| ==> AclWithin(decls[i].acl, users))
  }

  // ---- the invariants ----

  ghost predicate PolicyOk(p: Policy) {
    && (forall k :: k in p.byName ==>
          && k == Lower(p.byName[k].name) && !p.byName[k].isIpc && p.byName[k].id < p.nextShare
          && p.byName[k].id in p.acls && AclWithin(p.acls[p.byName[k].id], p.users))
    && (forall k, j :: k in p.byName && j in p.byName && p.byName[k].id == p.byName[j].id ==> k == j)
  }

  /** The tree points at the binding registered under its name now, which is not the reserved one, and its
      user may still use that. */
  ghost predicate StillAllowed(p: Policy, who: Identity, share: Share) {
    && Lower(share.name) != Lower(IPC)
    && Lower(share.name) in p.byName && p.byName[Lower(share.name)] == share
    && Authorize(AclOf(p, share), who).Some?
  }

  /** Only a writable tree of a writable share has opens that write or may create. */
  ghost predicate AccessContained(t: Tree) {
    && (t.share.readOnly ==> t.granted.Read?)
    && forall fid :: fid in t.opens ==>
         && t.opens[fid].handle.Some?
         && (t.opens[fid].mutating || t.opens[fid].granted.ReadWrite? ==> t.granted.ReadWrite?)
  }

  /** What the share's mode is now decides what its trees may do: a public share's grant all its backend allows,
      a public read-only one's and those of `IPC$` grant reading. */
  predicate LevelFits(p: Policy, t: Tree) {
    if t.share == IPC_SHARE then t.granted == Read
    else match AclOf(p, t.share).mode
      case Public => t.granted == if t.share.readOnly then Read else ReadWrite
      case PublicReadOnly => t.granted == Read
      case AuthenticatedOnly => true
  }

  ghost predicate TreeOk(p: Policy, who: Identity, t: Tree) {
    (t.share == IPC_SHARE || StillAllowed(p, who, t.share)) && AccessContained(t) && LevelFits(p, t)
  }

  ghost predicate SessionOk(p: Policy, s: Session) {
    && (s.identity.User? ==> s.identity.name in p.users)
    && forall tid :: tid in s.trees ==> TreeOk(p, s.identity, s.trees[tid])
  }

  ghost predicate ConnOk(p: Policy, c: Conn) {
    forall sid :: sid in c.sessions ==> SessionOk(p, c.sessions[sid])
  }

  ghost predicate Secure(s: Server) {
    PolicyOk(s.policy) && forall k :: k in s.conns ==> ConnOk(s.policy, s.conns[k])
  }

  // ---- requests keep them ----

  lemma LookupAllowed(p: Policy, name: string, who: Identity)
    requires PolicyOk(p) && Lookup(p, name).Some? && Authorize(Lookup(p, name).value.1, who).Some?
    ensures var (share, acl) := Lookup(p, name).value;
            if share == IPC_SHARE then acl == IPC_ACL else StillAllowed(p, who, share) && acl == AclOf(p, share)
  {
    hide Lower;
  }

  /** TREE_CONNECT opens a tree exactly for those entitled to the share, and grants writing exactly where the
      backend is writable and either the share is public or the closed share's list gives the user that. */
  lemma ConnectGrants(c: Conn, l: Ledger, sid: u64, share: Share, acl: Acl)
    requires sid != 0 && sid in c.sessions
    ensures var who := c.sessions[sid].identity; var r := ConnectTree(c, l, sid, Some((share, acl))).reply;
            var listed := who.User? && who.name in acl.users;
            && (r.TreeOpened? <==> acl.mode == Public || acl.mode == PublicReadOnly || listed)
            && (!r.TreeOpened? ==> r == Refused(STATUS_ACCESS_DENIED))
            && (r.TreeOpened? ==>
                  (r.granted == ReadWrite <==>
                    && !share.readOnly
                    && (acl.mode == Public || (acl.mode == AuthenticatedOnly && acl.users[who.name] == ReadWrite))))
  {
    hide Tally;
  }

  lemma ConnectKeeps(p: Policy, c: Conn, l: Ledger, sid: u64, name: string)
    requires PolicyOk(p) && ConnOk(p, c)
    ensures ConnOk(p, ConnectTree(c, l, sid, Lookup(p, name)).conn)
  {
    hide Lookup, PolicyOk, StillAllowed, Authorize, Lower, PutTree;
    var found := Lookup(p, name);
    if sid in c.sessions && found.Some? {
      var s := c.sessions[sid];
      if sid != 0 && Authorize(found.value.1, s.identity).Some? {
        LookupAllowed(p, name, s.identity);
        ConnectGrants(c, l, sid, found.value.0, found.value.1);
      }
      PutTreeAdds(s.(nextTree := s.nextTree + 1), l);
    }
  }

  lemma PutTreeAdds(s: Session, l: Ledger)
    ensures forall tid, t :: PutTree(s, l, tid, t).0 == s.(trees := s.trees[tid := t])
  {
  }

  lemma CreateKeeps(p: Policy, c: Conn, l: Ledger, sid: u64, tid: Option<u32>, req: OpenRequest, answer: Answer)
    requires ConnOk(p, c)
    ensures ConnOk(p, CreateFile(c, l, sid, tid, req, answer).conn)
  {
    hide StillAllowed;
    if TreeRefusal(c, sid, tid).None? && answer.Opened? {
      var s := c.sessions[sid];
      var t := s.trees[tid.value];
      if CreateRefusal(req, t.granted).None? {
        assert TreeOk(p, s.identity, t);
        var m := CreateFile(c, l, sid, tid, req, answer);
        assert TreeOk(p, s.identity, m.conn.sessions[sid].trees[tid.value]);
        assert SessionOk(p, m.conn.sessions[sid]);
      }
    }
  }

  lemma RequestKeeps(p: Policy, c: Conn, l: Ledger, r: Request)
    requires PolicyOk(p) && ConnOk(p, c)
    ensures ConnOk(p, Serve(p, c, l, r).conn)
  {
    hide PolicyOk, StillAllowed, CreateFile, ConnectTree, Lookup, AnonymousAllowed;
    match r
    case TreeConnect(sid, share) =>
      if share.Some? {
        ConnectKeeps(p, c, l, sid, share.value);
      }
    case Create(sid, tid, req, answer) => CreateKeeps(p, c, l, sid, tid, req, answer);
    case Close(sid, tid, fid) =>
      if TreeRefusal(c, sid, tid).None? {
        assert TreeOk(p, c.sessions[sid].identity, c.sessions[sid].trees[tid.value]);
      }
    case TreeDisconnect(sid, tid) =>
      if TreeRefusal(c, sid, tid).None? {
        assert SessionOk(p, c.sessions[sid]);
      }
    case _ =>
  }

  // ---- configuration calls keep them ----

  /** Whoever is not torn down may stay: what was allowed before the policy change is allowed after it. */
  ghost predicate Spares(p: Policy, q: Policy, td: Option<Teardown>) {
    && (forall u :: u in p.users && td != Some(SessionsOf(u)) ==> u in q.users)
    && forall who, share ::
         && StillAllowed(p, who, share)
         && (who.User? ==> td != Some(SessionsOf(who.name)))
         && !(td.Some? && td.value.Trees? && Lower(share.name) == Lower(td.value.sel.share)
              && (td.value.sel.OfUserShare? ==> who == User(td.value.sel.user)))
         ==> StillAllowed(q, who, share) && AclOf(q, share).mode == AclOf(p, share).mode
  }

  function AfterTeardown(c: Conn, td: Option<Teardown>): Conn {
    if td.None? then c else Part(c, td.value, false)
  }

  lemma TeardownKeeps(p: Policy, q: Policy, td: Option<Teardown>, c: Conn)
    requires ConnOk(p, c) && Spares(p, q, td)
    ensures ConnOk(q, AfterTeardown(c, td))
  {
    hide StillAllowed, Lower, AccessContained, AclOf;
    var d := AfterTeardown(c, td);
    forall sid | sid in d.sessions
      ensures SessionOk(q, d.sessions[sid])
    {
      var s, t := c.sessions[sid], d.sessions[sid];
      assert SessionOk(p, s);
      forall tid | tid in t.trees
        ensures TreeOk(q, t.identity, t.trees[tid])
      {
        assert TreeOk(p, s.identity, s.trees[tid]);
      }
    }
  }

  lemma RegisterKeeps(p: Policy, d: ShareDecl)
    requires PolicyOk(p) && AclWithin(d.acl, p.users) && Lower(d.name) !in p.byName
    ensures PolicyOk(Register(p, d)) && Spares(p, Register(p, d), None)
  {
    hide Lower, Authorize;
  }

  lemma SetAclKeeps(p: Policy, name: string, share: Share, acl: Acl, td: Option<Teardown>)
    requires PolicyOk(p) && AclWithin(acl, p.users) && Find(p, name) == Some(share)
    requires forall who :: Authorize(AclOf(p, share), who).Some? ==>
               || Authorize(acl, who).Some? || td == Some(Trees(OfShare(name)))
               || (who.User? && td == Some(Trees(OfUserShare(who.name, name))))
    requires td.Some? ==> td.value.Trees?
    requires acl.mode == AclOf(p, share).mode || td == Some(Trees(OfShare(name)))
    ensures PolicyOk(SetAcl(p, share, acl)) && Spares(p, SetAcl(p, share, acl), td)
  {
    hide Lower, Authorize, AclWithin;
    var q := SetAcl(p, share, acl);
    forall who, sh | StillAllowed(p, who, sh) && Authorize(AclOf(q, sh), who).None?
      ensures sh == share
    {
    }
  }

  lemma ForgetUserKeeps(p: Policy, user: string)
    requires PolicyOk(p)
    ensures var q := p.(users := p.users - {user}, acls := ForgetUser(p, user));
            PolicyOk(q) && Spares(p, q, Some(SessionsOf(user)))
  {
    hide Lower;
  }

  lemma UnregisterKeeps(p: Policy, name: string)
    requires PolicyOk(p)
    ensures var q := p.(byName := p.byName - {Lower(name)});
            PolicyOk(q) && Spares(p, q, Some(Trees(OfShare(name))))
  {
    hide Lower, Authorize, AclWithin;
  }

  lemma AddUserKeeps(p: Policy, name: string)
    requires PolicyOk(p)
    ensures PolicyOk(p.(users := p.users + {name})) && Spares(p, p.(users := p.users + {name}), None)
  {
    hide Lower, Authorize;
  }

  lemma GrantKeeps(p: Policy, name: string, user: string, access: Access)
    requires PolicyOk(p) && user in p.users && Find(p, name).Some? && !AclOf(p, Find(p, name).value).mode.IsPublic()
    ensures var share := Find(p, name).value;
            var q := SetAcl(p, share, AclOf(p, share).(users := AclOf(p, share).users[user := access]));
            PolicyOk(q) && Spares(p, q, None)
  {
    hide Spares, SetAcl;
    var share := Find(p, name).value;
    SetAclKeeps(p, name, share, AclOf(p, share).(users := AclOf(p, share).users[user := access]), None);
  }

  lemma RevokeKeeps(p: Policy, name: string, user: string)
    requires PolicyOk(p) && Find(p, name).Some?
    ensures var share := Find(p, name).value;
            var q := SetAcl(p, share, WithoutUser(AclOf(p, share), user));
            PolicyOk(q) && Spares(p, q, Some(Trees(OfUserShare(user, name))))
  {
    hide Spares, SetAcl;
    var share := Find(p, name).value;
    SetAclKeeps(p, name, share, WithoutUser(AclOf(p, share), user), Some(Trees(OfUserShare(user, name))));
  }

  lemma SetModeKeeps(p: Policy, name: string, mode: Mode)
    requires PolicyOk(p) && Find(p, name).Some?
    requires mode.IsPublic() ==> AclOf(p, Find(p, name).value).users == map[]
    ensures var share := Find(p, name).value; var acl := AclOf(p, share);
            var q := SetAcl(p, share, acl.(mode := mode));
            && PolicyOk(q) && Spares(p, q, Some(Trees(OfShare(name))))
            && Spares(p, p, None) && (q == p ==> acl.mode == mode)
  {
    hide SetAcl;
    var share := Find(p, name).value;
    SetAclKeeps(p, name, share, AclOf(p, share).(mode := mode), Some(Trees(OfShare(name))));
    AclSet(p, share, AclOf(p, share).(mode := mode));
  }

  lemma AclSet(p: Policy, share: Share, acl: Acl)
    ensures AclOf(SetAcl(p, share, acl), share) == acl
  {
  }

  /** What a successful call comes to: a new policy, and a teardown on every connection or none. */
  ghost function Effect(s: Server, op: ConfigOp): (Policy, Option<Teardown>) {
    var q := Configure(s, op).0.policy;
    match op
    case AddUser(_) | AddShare(_) | Grant(_, _, _) => (q, None)
    case RemoveUser(name) => (q, Some(SessionsOf(name)))
    case RemoveShare(name) => (q, Some(Trees(OfShare(name))))
    case Revoke(name, user) => (q, Some(Trees(OfUserShare(user, name))))
    case SetMode(name, mode) => (q, if q == s.policy then None else Some(Trees(OfShare(name))))
  }

  lemma EffectKeeps(s: Server, op: ConfigOp)
    requires PolicyOk(s.policy) && Configure(s, op).1.None?
    ensures PolicyOk(Effect(s, op).0) && Spares(s.policy, Effect(s, op).0, Effect(s, op).1)
  {
    hide PolicyOk, Spares, Register, ForgetUser, SetAcl, Authorize, PartAll, Lower;
    var p := s.policy;
    match op
    case AddUser(name) => AddUserKeeps(p, name);
    case RemoveUser(name) => ForgetUserKeeps(p, name);
    case AddShare(d) => RegisterKeeps(p, d);
    case RemoveShare(name) => UnregisterKeeps(p, name);
    case Grant(name, user, access) => GrantKeeps(p, name, user, access);
    case Revoke(name, user) => RevokeKeeps(p, name, user);
    case SetMode(name, mode) =>
      SetModeKeeps(p, name, mode);
  }

  lemma EffectIsTheStep(s: Server, op: ConfigOp)
    requires Configure(s, op).1.None?
    ensures var (q, td) := Effect(s, op); var s1 := Configure(s, op).0;
            && s1.policy == q && s1.nextConn == s.nextConn && s1.conns.Keys == s.conns.Keys
            && (forall k :: k in s.conns ==> s1.conns[k] == AfterTeardown(s.conns[k], td))
            && (if td.None? then s1.conns == s.conns && s1.ledger == s.ledger
                else && s1.conns == PartAll(s.conns, td.value, false)
                     && s1.ledger == Closing(s.ledger, ServerHandles(PartAll(s.conns, td.value, true))))
  {
    hide Register, ForgetUser, SetAcl, AclOf, Lower, Part, ServerHandles, Closing;
    if op.SetMode? && Find(s.policy, op.share).Some? {
      AclSet(s.policy, Find(s.policy, op.share).value, AclOf(s.policy, Find(s.policy,
          op.share).value).(mode := op.mode));
    }
  }

  lemma FailedCallChangesNothing(s: Server, op: ConfigOp)
    requires Configure(s, op).1.Some?
    ensures Configure(s, op).0 == s
  {
    hide Register, ForgetUser, SetAcl, AclOf, Lower, PartAll;
  }

  lemma ConfigKeeps(s: Server, op: ConfigOp)
    requires Secure(s)
    ensures Secure(Configure(s, op).0)
  {
    hide PolicyOk, ConnOk, Configure, Effect, Spares, AfterTeardown;
    if Configure(s, op).1.Some? {
      FailedCallChangesNothing(s, op);
    } else {
      var (q, td) := Effect(s, op);
      EffectKeeps(s, op);
      EffectIsTheStep(s, op);
      forall k | k in s.conns
        ensures ConnOk(q, AfterTeardown(s.conns[k], td))
      {
        TeardownKeeps(s.policy, q, td, s.conns[k]);
      }
    }
  }

  // ---- over whole runs ----

  lemma StepKeeps(s: Server, op: Op)
    requires Secure(s)
    ensures Secure(Step(s, op))
  {
    hide PolicyOk, Configure, Serve, SessionOk;
    match op
    case Config(c) => ConfigKeeps(s, c);
    case Message(cid, request) =>
      if cid in s.conns {
        RequestKeeps(s.policy, s.conns[cid], s.ledger, request);
      }
    case _ =>
  }

  lemma {:induction false} RunKeeps(s: Server, ops: seq<Op>)
    requires Secure(s)
    ensures Secure(Run(s, ops))
  {
    hide Step, Secure;
    if ops != [] {
      RunKeeps(s, ops[..|ops| - 1]);
      StepKeeps(Run(s, ops[..|ops| - 1]), ops[|ops| - 1]);
    }
  }

  predicate Declared(key: string, decls: seq<ShareDecl>) {
    exists i :: 0 <= i < |decls| && key == Lower(decls[i].name)
  }

  lemma {:induction false} BuilderPolicy(users: set<string>, decls: seq<ShareDecl>)
    requires Buildable(users, decls)
    ensures var p := Initial(users, decls).policy;
            && PolicyOk(p) && p.users == users
            && forall k :: k in p.byName <==> Declared(k, decls)
    decreases |decls|
  {
    hide Lower, PolicyOk, Spares, AclWithin;
    if decls == [] {
      assert PolicyOk(Policy(users, map[], map[], 0)) by { EmptyPolicy(users); }
    } else {
      var n := |decls| - 1;
      BuilderPolicy(users, decls[..n]);
      var p := Initial(users, decls[..n]).policy;
      assert !Declared(Lower(decls[n].name), decls[..n]);
      RegisterKeeps(p, decls[n]);
      forall k
        ensures Declared(k, decls) <==> Declared(k, decls[..n]) || k == Lower(decls[n].name)
      {
        DeclaredSnoc(k, decls);
      }
    }
  }

  lemma DeclaredSnoc(key: string, decls: seq<ShareDecl>)
    requires decls != []
    ensures var n := |decls| - 1; Declared(key, decls) <==> Declared(key, decls[..n]) || key == Lower(decls[n].name)
  {
    hide Lower;
    var n := |decls| - 1;
    if i :| 0 <= i < n && key == Lower(decls[i].name) {
      assert key == Lower(decls[..n][i].name);
    }
  }

  lemma EmptyPolicy(users: set<string>)
    ensures PolicyOk(Policy(users, map[], map[], 0))
  {
  }

  /** Revocation safety. From a built server, after any interleaving of requests and configuration calls:
      every live tree but those of `IPC$` points at the binding registered under its name at this moment and
      its user is authorised by that binding's list as it is now, every session's user is in the user table,
      and no read-only tree holds an open made for writing. */
  lemma RevocationIsSafe(users: set<string>, decls: seq<ShareDecl>, ops: seq<Op>)
    requires Buildable(users, decls)
    ensures Secure(Run(Initial(users, decls), ops))
  {
    hide Run, PolicyOk, Buildable;
    BuilderPolicy(users, decls);
    RunKeeps(Initial(users, decls), ops);
  }

  // ---- what a removal means for all that follows ----

  lemma {:induction false} UsersOnlyByAddUser(s: Server, ops: seq<Op>, user: string)
    requires user !in s.policy.users && Config(AddUser(user)) !in ops
    ensures user !in Run(s, ops).policy.users
  {
    hide Lower, PartAll, ForgetUser, AclOf, Serve;
    if ops != [] {
      UsersOnlyByAddUser(s, ops[..|ops| - 1], user);
      assert ops[|ops| - 1] in ops;
    }
  }

  /** Once `remove_user` has succeeded, and until the same name is added again, whatever happens: no session
      anywhere is that user's and no registered share's list names it. */
  lemma RemovedUserStaysOut(s: Server, user: string, ops: seq<Op>)
    requires Secure(s) && Configure(s, RemoveUser(user)).1.None? && Config(AddUser(user)) !in ops
    ensures var z := Run(Configure(s, RemoveUser(user)).0, ops);
            && (forall k, sid :: k in z.conns && sid in z.conns[k].sessions ==>
                  z.conns[k].sessions[sid].identity != User(user))
            && (forall k :: k in z.policy.byName ==> user !in AclOf(z.policy, z.policy.byName[k]).users)
  {
    hide Run, PartAll, ForgetUser, Lower, StillAllowed, AccessContained;
    var s1 := Configure(s, RemoveUser(user)).0;
    ConfigKeeps(s, RemoveUser(user));
    RunKeeps(s1, ops);
    UsersOnlyByAddUser(s1, ops, user);
    var z := Run(s1, ops);
    forall k, sid | k in z.conns && sid in z.conns[k].sessions
      ensures z.conns[k].sessions[sid].identity != User(user)
    {
      assert SessionOk(z.policy, z.conns[k].sessions[sid]);
    }
  }

  predicate AddsShare(op: Op, name: string) {
    op.Config? && op.op.AddShare? && Lower(op.op.decl.name) == Lower(name)
  }

  lemma {:induction false} SharesOnlyByAddShare(s: Server, ops: seq<Op>, name: string)
    requires Lower(name) !in s.policy.byName && forall i :: 0 <= i < |ops| ==> !AddsShare(ops[i], name)
    ensures Lower(name) !in Run(s, ops).policy.byName
  {
    hide Lower, PartAll, ForgetUser, AclOf, Serve;
    if ops != [] {
      SharesOnlyByAddShare(s, ops[..|ops| - 1], name);
      assert !AddsShare(ops[|ops| - 1], name);
    }
  }

  /** Likewise `remove_share`: until a share of that name is added again, no tree of that name is live. */
  lemma RemovedShareStaysOut(s: Server, name: string, ops: seq<Op>)
    requires Secure(s) && Configure(s, RemoveShare(name)).1.None?
    requires forall i :: 0 <= i < |ops| ==> !AddsShare(ops[i], name)
    ensures var z := Run(Configure(s, RemoveShare(name)).0, ops);
            forall k, sid, tid :: k in z.conns && HasTree(z.conns[k], sid, tid) ==>
              Lower(z.conns[k].sessions[sid].trees[tid].share.name) != Lower(name)
  {
    hide Run, PartAll, Lower, AccessContained, AddsShare, ForgetUser, Register, SetAcl, PolicyOk;
    var s1 := Configure(s, RemoveShare(name)).0;
    ConfigKeeps(s, RemoveShare(name));
    RunKeeps(s1, ops);
    SharesOnlyByAddShare(s1, ops, name);
    var z := Run(s1, ops);
    forall k, sid, tid | k in z.conns && HasTree(z.conns[k], sid, tid)
      ensures Lower(z.conns[k].sessions[sid].trees[tid].share.name) != Lower(name)
    {
      var sess := z.conns[k].sessions[sid];
      assert SessionOk(z.policy, sess) && TreeOk(z.policy, sess.identity, sess.trees[tid]);
    }
  }

  // ---- what the invariants mean for access ----

  /** In a secure state a live tree of a closed share belongs to a known user on its list: an anonymous
      session holds trees of public shares and of `IPC$` only. */
  lemma TreesAreEntitled(s: Server, k: nat, sid: u64, tid: u32)
    requires Secure(s) && k in s.conns && HasTree(s.conns[k], sid, tid)
    ensures var sess := s.conns[k].sessions[sid]; var share := sess.trees[tid].share; var acl := AclOf(s.policy, share);
            || share == IPC_SHARE || acl.mode.IsPublic()
            || (sess.identity.User? && sess.identity.name in acl.users && sess.identity.name in s.policy.users)
  {
    hide PolicyOk, Lower;
    assert SessionOk(s.policy, s.conns[k].sessions[sid]);
    assert TreeOk(s.policy, s.conns[k].sessions[sid].identity, s.conns[k].sessions[sid].trees[tid]);
  }

  // ---- the reserved name ----

  lemma {:induction false} ReservedNameIsUntouched(s: Server, ops: seq<Op>)
    ensures Lower(IPC) in Run(s, ops).policy.byName <==> Lower(IPC) in s.policy.byName
  {
    hide Lower, PartAll, ForgetUser, AclOf, Serve;
    if ops != [] {
      ReservedNameIsUntouched(s, ops[..|ops| - 1]);
    }
  }

  /** The builder registers a share under the reserved name if one is declared so; no configuration call adds
      or removes one; and no tree ever points at it. */
  lemma ReservedShareIsUnreachable(users: set<string>, decls: seq<ShareDecl>, ops: seq<Op>)
    requires Buildable(users, decls)
    ensures var z := Run(Initial(users, decls), ops);
            && (Lower(IPC) in z.policy.byName <==> Declared(Lower(IPC), decls))
            && forall k, sid, tid :: k in z.conns && HasTree(z.conns[k], sid, tid) ==>
                 var share := z.conns[k].sessions[sid].trees[tid].share;
                 share == IPC_SHARE || Lower(share.name) != Lower(IPC)
  {
    hide Run, PolicyOk, Buildable, Lower, AccessContained;
    BuilderPolicy(users, decls);
    ReservedNameIsUntouched(Initial(users, decls), ops);
    RevocationIsSafe(users, decls, ops);
    var z := Run(Initial(users, decls), ops);
    forall k, sid, tid | k in z.conns && HasTree(z.conns[k], sid, tid)
      ensures var share := z.conns[k].sessions[sid].trees[tid].share;
              share == IPC_SHARE || Lower(share.name) != Lower(IPC)
    {
      var sess := z.conns[k].sessions[sid];
      assert SessionOk(z.policy, sess) && TreeOk(z.policy, sess.identity, sess.trees[tid]);
    }
  }
}
