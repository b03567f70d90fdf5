/** What configuration calls do, by share name: the access lists as a map from names, exactly which sessions and
    trees go, the errors, and what a revocation and a mode mean for the runs that follow. */
module ConfigEffects {
  import opened Bytes
  import opened Sharing
  import opened Sessions
  import opened Servers
  import NtStatus

  /** The list registered under a name now, ignoring case. */
  function ListOf(p: Policy, name: string): Option<Acl> {
    match Find(p, name)
    case None => None
    case Some(share) => Some(AclOf(p, share))
  }

  predicate SameName(a: string, b: string) {
    Lower(a) == Lower(b)
  }

  /** What a successful call makes of the list under a name. */
  function ListAfter(op: ConfigOp, name: string, list: Option<Acl>): Option<Acl> {
    match op
    case AddUser(_) => list
    case RemoveUser(user) => if list.None? then None else Some(list.value.(users := list.value.users - {user}))
    case AddShare(d) => if SameName(d.name, name) then Some(d.acl) else list
    case RemoveShare(n) => if SameName(n, name) then None else list
    case Grant(n, user, access) =>
      if SameName(n, name) && list.Some? then Some(list.value.(users := list.value.users[user := access])) else list
    case Revoke(n, user) =>
      if SameName(n, name) && list.Some? then Some(list.value.(users := list.value.users - {user})) else list
    case SetMode(n, mode) =>
      if SameName(n, name) && list.Some? then Some(list.value.(mode := mode)) else list
  }

  function UsersAfter(op: ConfigOp, users: set<string>): set<string> {
    match op
    case AddUser(user) => users + {user}
    case RemoveUser(user) => users - {user}
    case _ => users
  }

  lemma SetAclLists(p: Policy, name: string, share: Share, acl: Acl, n: string)
    requires PolicyOk(p) && Find(p, name) == Some(share)
    ensures ListOf(SetAcl(p, share, acl), n) == if SameName(name, n) then Some(acl) else ListOf(p, n)
  {
    hide Lower, AclWithin;
  }

  lemma ForgetLists(p: Policy, user: string, n: string)
    requires PolicyOk(p)
    ensures ListOf(p.(users := p.users - {user}, acls := ForgetUser(p, user)), n)
         == ListAfter(RemoveUser(user), n, ListOf(p, n))
  {
    hide Lower, AclWithin;
  }

  lemma RegisterLists(p: Policy, d: ShareDecl, n: string)
    requires PolicyOk(p) && Lower(d.name) !in p.byName
    ensures ListOf(Register(p, d), n) == if SameName(d.name, n) then Some(d.acl) else ListOf(p, n)
    ensures Register(p, d).users == p.users
  {
    hide Lower, AclWithin;
  }

  /** Seen by name, a successful call changes the user table and the lists exactly as it says, whatever bindings
      lie behind the names. */
  lemma CallsActByName(s: Server, op: ConfigOp, name: string)
    requires PolicyOk(s.policy) && Configure(s, op).1.None?
    ensures var z := Configure(s, op).0.policy;
            && z.users == UsersAfter(op, s.policy.users)
            && ListOf(z, name) == ListAfter(op, name, ListOf(s.policy, name))
  {
    hide PolicyOk, Lower, ValidateUserName, ValidateShareName, AclOf, SetAcl, Register, ForgetUser, PartAll, ListOf;
    var p := s.policy;
    match op
    case AddUser(user) => SameLists(p, p.(users := p.users + {user}), name);
    case RemoveUser(user) => ForgetLists(p, user, name);
    case AddShare(d) => RegisterLists(p, d, name);
    case RemoveShare(n) => UnregisterLists(p, n, name);
    case Grant(n, user, access) =>
      var acl := AclOf(p, Find(p, n).value);
      SetAclLists(p, n, Find(p, n).value, acl.(users := acl.users[user := access]), name);
      Listed(p, n, name);
      SetAclUsers(p, Find(p, n).value, acl.(users := acl.users[user := access]));
    case Revoke(n, user) =>
      var acl := AclOf(p, Find(p, n).value);
      SetAclLists(p, n, Find(p, n).value, WithoutUser(acl, user), name);
      Listed(p, n, name);
      SetAclUsers(p, Find(p, n).value, WithoutUser(acl, user));
    case SetMode(n, mode) =>
      var acl := AclOf(p, Find(p, n).value);
      SetAclLists(p, n, Find(p, n).value, acl.(mode := mode), name);
      Listed(p, n, name);
      SetAclUsers(p, Find(p, n).value, acl.(mode := mode));
  }

  lemma SameLists(p: Policy, q: Policy, n: string)
    requires p.byName == q.byName && p.acls == q.acls
    ensures ListOf(p, n) == ListOf(q, n)
  {
  }

  lemma SetAclUsers(p: Policy, share: Share, acl: Acl)
    ensures SetAcl(p, share, acl).users == p.users
  {
  }

  lemma Listed(p: Policy, name: string, n: string)
    requires Find(p, name).Some?
    ensures SameName(name, n) ==> ListOf(p, n) == Some(AclOf(p, Find(p, name).value))
  {
    hide Lower, AclOf;
  }

  lemma UnregisterLists(p: Policy, name: string, n: string)
    ensures ListOf(p.(byName := p.byName - {Lower(name)}), n) == if SameName(name, n) then None else ListOf(p, n)
  {
    hide Lower;
  }

  lemma ReservedNames()
    ensures Lower("anonymous") == "anonymous" && Lower(IPC) == "ipc$"
  {
    assert Lower("anonymous") == "anonymous";
    assert Lower(IPC) == "ipc$";
  }

  /** The user a call is about, and the share, as it names them. */
  function UserOf(op: ConfigOp): Option<string> {
    match op
    case AddUser(user) => Some(user)
    case RemoveUser(user) => Some(user)
    case Grant(_, user, _) => Some(user)
    case Revoke(_, user) => Some(user)
    case _ => None
  }

  function ShareOf(op: ConfigOp): Option<string> {
    match op
    case AddShare(d) => Some(d.name)
    case RemoveShare(n) => Some(n)
    case Grant(n, _, _) => Some(n)
    case Revoke(n, _) => Some(n)
    case SetMode(n, _) => Some(n)
    case _ => None
  }

  /** The list a call would leave, where that is not its whole effect. */
  function Proposed(op: ConfigOp, list: Option<Acl>): Option<Acl> {
    match op
    case AddShare(d) => Some(d.acl)
    case Grant(_, user, access) =>
      if list.None? then None else Some(list.value.(users := list.value.users[user := access]))
    case SetMode(_, mode) => if list.None? then None else Some(list.value.(mode := mode))
    case _ => None
  }

  /** One order of errors for every call: the user's name, the share's name, a list for a new share that cannot be,
      a user there is none of, a share there is none of or one too many, a list for a present share that cannot be. */
  function FirstError(p: Policy, op: ConfigOp): Option<ConfigError> {
    var user, share := UserOf(op), ShareOf(op);
    var list := if share.Some? then ListOf(p, share.value) else None;
    var next := Proposed(op, list);
    var mixed := next.Some? && next.value.mode != AuthenticatedOnly && next.value.users != map[];
    if user == Some("") then Some(EmptyUserName)
    else if user.Some? && Lower(user.value) == "anonymous" then Some(ReservedUserName)
    else if share.Some? && Lower(share.value) == "ipc$" then Some(ReservedShareName)
    else if op.AddShare? && mixed then Some(PublicMixedWithUsers)
    else if op.AddShare? && exists u :: u in op.decl.acl.users && u !in p.users then Some(UnknownUser)
    else if (op.RemoveUser? || op.Grant?) && user.value !in p.users then Some(UnknownUser)
    else if op.AddShare? && list.Some? then Some(DuplicateShare)
    else if share.Some? && !op.AddShare? && list.None? then Some(UnknownShare)
    else if mixed then Some(PublicMixedWithUsers)
    else None
  }

  /** Every call reports that error, and none exactly when there is none to report. */
  lemma ReportsFirstError(s: Server, op: ConfigOp)
    ensures Configure(s, op).1 == FirstError(s.policy, op)
  {
    hide Lower, AclOf, Register, ForgetUser, PartAll;
    ReservedNames();
    if op.Grant? && ListOf(s.policy, op.share).Some? {
      var users := ListOf(s.policy, op.share).value.users;
      assert op.user in users[op.user := op.access];
    }
  }

  // ---- exactly what is torn down ----

  /** The sessions a successful call closes. */
  predicate ClosesSession(op: ConfigOp, who: Identity) {
    op.RemoveUser? && who == User(op.name)
  }

  /** The trees it closes in the sessions that stay. */
  predicate ClosesTree(p: Policy, op: ConfigOp, who: Identity, t: Tree) {
    match op
    case RemoveShare(n) => SameName(n, t.share.name)
    case Revoke(n, user) => SameName(n, t.share.name) && who == User(user)
    case SetMode(n, mode) =>
      SameName(n, t.share.name) && ListOf(p, n).Some? && ListOf(p, n).value.mode != mode
    case _ => false
  }

  /** A successful call closes exactly those, on every connection, and leaves all other sessions and trees as they
      are, opens and all. */
  lemma TeardownIsExact(s: Server, op: ConfigOp, k: nat, sid: u64, tid: u32)
    requires Configure(s, op).1.None? && k in s.conns && HasTree(s.conns[k], sid, tid)
    ensures var z := Configure(s, op).0; var sess := s.conns[k].sessions[sid]; var t := sess.trees[tid];
            && k in z.conns
            && (sid in z.conns[k].sessions <==> !ClosesSession(op, sess.identity))
            && (HasTree(z.conns[k], sid, tid) <==>
                  !ClosesSession(op, sess.identity) && !ClosesTree(s.policy, op, sess.identity, t))
            && (HasTree(z.conns[k], sid, tid) ==>
                  z.conns[k].sessions[sid].identity == sess.identity && z.conns[k].sessions[sid].trees[tid] == t)
  {
    hide Lower, ValidateUserName, ValidateShareName, AclOf, Register, ForgetUser, Configure;
    EffectIsTheStep(s, op);
    TeardownOf(s, op);
  }

  /** The teardown of each call, written out. */
  lemma TeardownOf(s: Server, op: ConfigOp)
    requires Configure(s, op).1.None?
    ensures Effect(s, op).1 ==
      match op
      case AddUser(_) | AddShare(_) | Grant(_, _, _) => None
      case RemoveUser(user) => Some(SessionsOf(user))
      case RemoveShare(n) => Some(Trees(OfShare(n)))
      case Revoke(n, user) => Some(Trees(OfUserShare(user, n)))
      case SetMode(n, mode) =>
        if ListOf(s.policy, n).Some? && ListOf(s.policy, n).value.mode != mode then Some(Trees(OfShare(n))) else None
  {
    hide Lower, ValidateUserName, ValidateShareName, Register, ForgetUser, PartAll;
    if op.SetMode? && Find(s.policy, op.share).Some? {
      var share := Find(s.policy, op.share).value;
      AclSet(s.policy, share, AclOf(s.policy, share).(mode := op.mode));
    }
  }

  // ---- revocation over runs ----

  /** A step that may put a user on the list under a name. */
  predicate MayList(op: Op, name: string, user: string) {
    op.Config?
    && ((op.op.Grant? && SameName(op.op.share, name) && op.op.user == user)
        || (op.op.AddShare? && SameName(op.op.decl.name, name) && user in op.op.decl.acl.users))
  }

  ghost predicate Unlisted(p: Policy, name: string, user: string) {
    ListOf(p, name).Some? ==> user !in ListOf(p, name).value.users
  }

  lemma StepKeepsUnlisted(s: Server, op: Op, name: string, user: string)
    requires PolicyOk(s.policy) && Unlisted(s.policy, name, user) && !MayList(op, name, user)
    ensures Unlisted(Step(s, op).policy, name, user)
  {
    hide PolicyOk, Configure, Serve, ListOf, Lower;
    if op.Config? {
      if Configure(s, op.op).1.Some? {
        FailedCallChangesNothing(s, op.op);
      } else {
        CallsActByName(s, op.op, name);
      }
    }
  }

  lemma {:induction false} RunKeepsUnlisted(s: Server, ops: seq<Op>, name: string, user: string)
    requires Secure(s) && Unlisted(s.policy, name, user)
    requires forall i :: 0 <= i < |ops| ==> !MayList(ops[i], name, user)
    ensures Unlisted(Run(s, ops).policy, name, user)
  {
    hide Secure, Unlisted, Step, MayList;
    if ops != [] {
      var before, op := ops[..|ops| - 1], ops[|ops| - 1];
      RunKeepsUnlisted(s, before, name, user);
      RunKeeps(s, before);
      SecurePolicy(Run(s, before));
      StepKeepsUnlisted(Run(s, before), op, name, user);
    }
  }

  lemma SecurePolicy(s: Server)
    requires Secure(s)
    ensures PolicyOk(s.policy)
  {
  }

  /** Once `revoke_share_user` has succeeded, and until the user is granted that share again or a share of that
      name is added with the user on its list, whatever happens: the list under that name does not hold the
      user, and while the share is closed no live tree of it, on any connection, is that user's. */
  lemma RevokedUserStaysOff(s: Server, name: string, user: string, ops: seq<Op>)
    requires Secure(s) && Configure(s, Revoke(name, user)).1.None?
    requires forall i :: 0 <= i < |ops| ==> !MayList(ops[i], name, user)
    ensures var z := Run(Configure(s, Revoke(name, user)).0, ops); var list := ListOf(z.policy, name);
            && (list.Some? ==> user !in list.value.users)
            && (list.Some? && list.value.mode == AuthenticatedOnly ==>
                  forall k, sid, tid :: k in z.conns && HasTree(z.conns[k], sid, tid)
                                        && SameName(z.conns[k].sessions[sid].trees[tid].share.name, name)
                                        && z.conns[k].sessions[sid].trees[tid].share != IPC_SHARE ==>
                    z.conns[k].sessions[sid].identity != User(user))
  {
    hide Run, Configure, Lower, AccessContained, LevelFits, PolicyOk, MayList;
    var s1 := Configure(s, Revoke(name, user)).0;
    CallsActByName(s, Revoke(name, user), name);
    ConfigKeeps(s, Revoke(name, user));
    RunKeepsUnlisted(s1, ops, name, user);
    RunKeeps(s1, ops);
    var z := Run(s1, ops);
    forall k, sid, tid | k in z.conns && HasTree(z.conns[k], sid, tid)
                         && SameName(z.conns[k].sessions[sid].trees[tid].share.name, name)
                         && z.conns[k].sessions[sid].trees[tid].share != IPC_SHARE
                         && ListOf(z.policy, name).Some? && ListOf(z.policy, name).value.mode == AuthenticatedOnly
      ensures z.conns[k].sessions[sid].identity != User(user)
    {
      var sess := z.conns[k].sessions[sid];
      assert SessionOk(z.policy, sess) && TreeOk(z.policy, sess.identity, sess.trees[tid]);
    }
  }

  /** ... and a TREE_CONNECT of that user to the closed share is refused. */
  lemma RevokedUserIsRefused(p: Policy, c: Conn, l: Ledger, sid: u64, name: string, user: string)
    requires sid != 0 && sid in c.sessions && c.sessions[sid].identity == User(user)
    requires !SameName(name, IPC) && ListOf(p, name).Some?
    requires ListOf(p, name).value.mode == AuthenticatedOnly && user !in ListOf(p, name).value.users
    ensures Serve(p, c, l, TreeConnect(sid, Some(name))) == Moved(c, l, Refused(NtStatus.STATUS_ACCESS_DENIED))
  {
    hide Lower;
  }

  // ---- levels over runs ----

  /** Over every run a live tree of a share that is public read-only now, or of `IPC$`, grants reading, and no
      open under it writes or may create; one of a public share grants all its backend allows. */
  lemma TreesHaveTheModesLevel(users: set<string>, decls: seq<ShareDecl>, ops: seq<Op>, k: nat, sid: u64, tid: u32)
    requires Buildable(users, decls)
    requires var z := Run(Initial(users, decls), ops); k in z.conns && HasTree(z.conns[k], sid, tid)
    ensures var z := Run(Initial(users, decls), ops); var t := z.conns[k].sessions[sid].trees[tid];
            var mode := if t.share == IPC_SHARE then PublicReadOnly else AclOf(z.policy, t.share).mode;
            && (mode == PublicReadOnly ==>
                  && t.granted == Read
                  && forall fid :: fid in t.opens ==> !t.opens[fid].mutating && t.opens[fid].granted == Read)
            && (mode == Public ==> (t.granted == ReadWrite <==> !t.share.readOnly))
  {
    hide Run, PolicyOk, Buildable, Lower, StillAllowed;
    RevocationIsSafe(users, decls, ops);
    var z := Run(Initial(users, decls), ops);
    var sess := z.conns[k].sessions[sid];
    assert SessionOk(z.policy, sess) && TreeOk(z.policy, sess.identity, sess.trees[tid]);
  }
}
