/** The server's shared state updated in place: configuration calls with their loops over shares and
    connections, requests routed to their connection, and the builder. Each method is one step of `Servers`. */
module Configuration {
  import opened Bytes
  import opened NtStatus
  import opened Sharing
  import opened Tallies
  import opened Sessions
  import opened Servers
  import opened Connections

  ghost function ViewsOf(conns: map<nat, Connection>): map<nat, Conn>
    reads conns.Values
  {
    map k | k in conns :: conns[k].View()
  }

  // ---- the teardown loop's bookkeeping ----

  ghost function TornDown(m: map<nat, Conn>, td: Teardown, done: set<nat>): map<nat, Conn> {
    map k | k in m :: if k in done then Part(m[k], td, false) else m[k]
  }

  lemma TornDownEnds(m: map<nat, Conn>, td: Teardown)
    ensures TornDown(m, td, {}) == m && TornDown(m, td, m.Keys) == PartAll(m, td, false)
    ensures forall k :: k in m ==> PartAll(m, td, true)[k] == Part(m[k], td, true)
  {
    hide Part;
  }

  lemma TornDownOne(m: map<nat, Conn>, td: Teardown, done: set<nat>, k: nat)
    requires k in m && k !in done
    ensures k in TornDown(m, td, done) && TornDown(m, td, done)[k] == m[k]
    ensures TornDown(m, td, done)[k := Part(m[k], td, false)] == TornDown(m, td, done + {k})
  {
    hide Part;
  }

  lemma Start(all: set<nat>)
    ensures Remaining(all, {}, all)
  {
  }

  lemma Finished(done: set<nat>, all: set<nat>)
    requires Remaining({}, done, all)
    ensures done == all
  {
  }

  lemma ForgettingOne(acls: map<nat, Acl>, ids: set<nat>, user: string, id: nat)
    requires id !in ids
    ensures var m := Forgetting(acls, ids, user);
            Forgetting(acls, ids + {id}, user) == if id in m then m[id := WithoutUser(m[id], user)] else m
  {
  }

  class ServerState {
    var users: set<string>
    var byName: map<string, Share>
    var acls: map<nat, Acl>
    var nextShare: nat
    var conns: map<nat, Connection>
    var nextConn: nat
    const backend: Backend

    constructor (users: set<string>)
      ensures Valid() && fresh(backend) && conns == map[]
      ensures View() == Server(Policy(users, map[], map[], 0), map[], 0, NO_LEDGER)
    {
      this.users, byName, acls, nextShare, conns, nextConn := users, map[], map[], 0, map[], 0;
      backend := new Backend();
    }

    /** Each connection is registered under its own id. */
    ghost predicate Valid()
      reads this, conns.Values
    {
      forall k :: k in conns ==> k < nextConn && conns[k].id == k
    }

    ghost function View(): Server
      reads this, conns.Values, backend
    {
      Server(Policy(users, byName, acls, nextShare), ViewsOf(conns), nextConn, backend.View())
    }

    /** The connections in `done` are torn down, those in `todo` are not, and the handles torn down so far
        are closed. */
    ghost predicate Midway(was: map<nat, Conn>, l: Ledger, td: Teardown, todo: set<nat>, done: set<nat>)
      reads this, conns.Values, backend
    {
      && Valid() && was.Keys == conns.Keys && Remaining(todo, done, conns.Keys)
      && ViewsOf(conns) == TornDown(was, td, done)
      && ClosedSoFar(backend.View(), l, Tally(PartAll(was, td, true) - done, ConnHandles),
          ServerHandles(PartAll(was, td, true)))
    }

    lemma MidwayEnds(was: map<nat, Conn>, l: Ledger, td: Teardown, done: set<nat>)
      requires Valid()
      ensures was == ViewsOf(conns) && l == backend.View() ==> Midway(was, l, td, conns.Keys, {})
      ensures Midway(was, l, td, {}, done) ==>
        ViewsOf(conns) == PartAll(was, td, false) && backend.View() == Closing(l, ServerHandles(PartAll(was, td, true)))
    {
      hide Tally, ConnHandles, Part, PartAll, TornDown, Remaining, ClosedSoFar, Closing;
      var gone := PartAll(was, td, true);
      ClosedEnds(l, ServerHandles(gone));
      TornDownEnds(was, td);
      Untouched(was, gone);
      if Midway(was, l, td, {}, done) {
        AllDone(done, gone);
        TallyNone(gone - done, ConnHandles);
      }
    }

    /** `for conn in live() { conn.close_… }`. */
    method TearDown(td: Teardown)
      requires Valid()
      modifies conns.Values`sessions, backend`closed
      ensures Valid() && View() == Everywhere(old(View()), td)
    {
      hide Midway, PartAll, ServerHandles, ViewsOf;
      ghost var was, l := ViewsOf(conns), backend.View();
      var todo := conns.Keys;
      ghost var done: set<nat> := {};
      MidwayEnds(was, l, td, done);
      while todo != {}
        invariant Valid() && todo <= conns.Keys
        invariant Midway(was, l, td, todo, done)
        decreases |todo|
      {
        var k :| k in todo;
        TearDownNext(was, l, td, todo, done, k, conns[k]);
        todo, done := todo - {k}, done + {k};
      }
      MidwayEnds(was, l, td, done);
    }

    method TearDownNext(ghost was: map<nat, Conn>, ghost l: Ledger, td: Teardown, ghost todo: set<nat>,
                        ghost done: set<nat>, k: nat, conn: Connection)
      requires Midway(was, l, td, todo, done) && k in todo && k in conns && conns[k] == conn
      modifies conn`sessions, backend`closed
      ensures Valid() && Midway(was, l, td, todo - {k}, done + {k})
    {
      hide Tally, ConnHandles, Part, Remaining, PartAll, ViewsOf, TornDown, Valid, ClosedSoFar, Closing;
      ghost var gone := PartAll(was, td, true);
      TornDownEnds(was, td);
      Another(todo, done, gone.Keys, k);
      OneMore(was, gone, done, ConnHandles, k);
      TornDownOne(was, td, done, k);
      ClosedMore(backend.View(), l, Tally(gone - done, ConnHandles), ServerHandles(gone), ConnHandles(gone[k]),
                 Tally(gone - (done + {k}), ConnHandles));
      TearDownOn(k, conn, td);
    }

    method TearDownOn(k: nat, conn: Connection, td: Teardown)
      requires Valid() && k in conns && conns[k] == conn
      modifies conn`sessions, backend`closed
      ensures Valid()
      ensures var c := old(ViewsOf(conns)[k]);
              && ViewsOf(conns) == old(ViewsOf(conns))[k := Part(c, td, false)]
              && backend.View() == Closing(old(backend.View()), ConnHandles(Part(c, td, true)))
    {
      ghost var was := ViewsOf(conns);
      match td {
        case Trees(sel) => conn.CloseMatchingTrees(sel, backend);
        case SessionsOf(user) => conn.CloseSessionsForUser(user, backend);
      }
      assert ViewsOf(conns) == was[k := conn.View()];
    }

    // ---- configuration calls ----

    method AddUser(name: string) returns (err: Option<ConfigError>)
      requires Valid()
      modifies this`users
      ensures Valid() && (View(), err) == Configure(old(View()), ConfigOp.AddUser(name))
    {
      err := ValidateUserName(name);
      if err.None? {
        users := users + {name};
      }
    }

    method RemoveUser(name: string) returns (err: Option<ConfigError>)
      requires Valid()
      modifies this`users, this`acls, conns.Values`sessions, backend`closed
      ensures Valid() && (View(), err) == Configure(old(View()), ConfigOp.RemoveUser(name))
    {
      hide Everywhere;
      err := ValidateUserName(name);
      if err.Some? {
        return;
      }
      if name !in users {
        return Some(UnknownUser);
      }
      users := users - {name};
      ForgetEverywhere(name);
      TearDown(SessionsOf(name));
    }

    /** `for share in shares.all() { share.acl.write().users.remove(name) }`. */
    method ForgetEverywhere(name: string)
      modifies this`acls
      ensures acls == Forgetting(old(acls), Ids(byName), name)
    {
      hide Ids, Forgetting, Remaining;
      var todo := Ids(byName);
      ghost var all, done: set<nat>, was := Ids(byName), {}, acls;
      ForgettingNone(was, name);
      assert Remaining(todo, done, all) by { Start(all); }
      while todo != {}
        invariant Remaining(todo, done, all)
        invariant acls == Forgetting(was, done, name)
        decreases |todo|
      {
        var id :| id in todo;
        Another(todo, done, all, id);
        ForgettingOne(was, done, name, id);
        if id in acls {
          acls := acls[id := WithoutUser(acls[id], name)];
        }
        todo, done := todo - {id}, done + {id};
      }
      assert done == all by { Finished(done, all); }
    }

    method AddShare(d: ShareDecl) returns (err: Option<ConfigError>)
      requires Valid()
      modifies this`byName, this`acls, this`nextShare
      ensures Valid() && (View(), err) == Configure(old(View()), ConfigOp.AddShare(d))
    {
      err := ValidateShareName(d.name);
      if err.Some? {
        return;
      }
      if d.acl.mode.IsPublic() && d.acl.users != map[] {
        return Some(PublicMixedWithUsers);
      }
      var known := AllKnown(d.acl.users.Keys);
      if !known {
        return Some(UnknownUser);
      }
      if Lower(d.name) in byName {
        return Some(DuplicateShare);
      }
      Insert(d);
    }

    method AllKnown(names: set<string>) returns (known: bool)
      ensures known == (names <= users)
    {
      var todo := names;
      while todo != {}
        invariant todo <= names && names - todo <= users
        decreases |todo|
      {
        var u :| u in todo;
        if u !in users {
          return false;
        }
        todo := todo - {u};
      }
      return true;
    }

    method Insert(d: ShareDecl)
      modifies this`byName, this`acls, this`nextShare
      ensures Policy(users, byName, acls, nextShare) == Register(old(Policy(users, byName, acls, nextShare)), d)
    {
      byName := byName[Lower(d.name) := Share(nextShare, d.name, false, d.readOnly)];
      acls := acls[nextShare := d.acl];
      nextShare := nextShare + 1;
    }

    method RemoveShare(name: string) returns (err: Option<ConfigError>)
      requires Valid()
      modifies this`byName, conns.Values`sessions, backend`closed
      ensures Valid() && (View(), err) == Configure(old(View()), ConfigOp.RemoveShare(name))
    {
      hide Everywhere;
      err := ValidateShareName(name);
      if err.Some? {
        return;
      }
      if Lower(name) !in byName {
        return Some(UnknownShare);
      }
      byName := byName - {Lower(name)};
      TearDown(Trees(OfShare(name)));
    }

    function FindShare(name: string): Option<Share>
      reads this
    {
      if Lower(name) in byName then Some(byName[Lower(name)]) else None
    }

    function AclHere(share: Share): Acl
      reads this
    {
      if share.id in acls then acls[share.id] else Acl(AuthenticatedOnly, map[])
    }

    method GrantShareUser(name: string, user: string, access: Access) returns (err: Option<ConfigError>)
      requires Valid()
      modifies this`acls
      ensures Valid() && (View(), err) == Configure(old(View()), Grant(name, user, access))
    {
      err := ValidateUserName(user);
      if err.Some? {
        return;
      }
      err := ValidateShareName(name);
      if err.Some? {
        return;
      }
      if user !in users {
        return Some(UnknownUser);
      }
      var found := FindShare(name);
      if found.None? {
        return Some(UnknownShare);
      }
      var acl := AclHere(found.value);
      if acl.mode.IsPublic() {
        return Some(PublicMixedWithUsers);
      }
      acls := acls[found.value.id := acl.(users := acl.users[user := access])];
    }

    method RevokeShareUser(name: string, user: string) returns (err: Option<ConfigError>)
      requires Valid()
      modifies this`acls, conns.Values`sessions, backend`closed
      ensures Valid() && (View(), err) == Configure(old(View()), Revoke(name, user))
    {
      hide Everywhere;
      err := ValidateUserName(user);
      if err.Some? {
        return;
      }
      err := ValidateShareName(name);
      if err.Some? {
        return;
      }
      var found := FindShare(name);
      if found.None? {
        return Some(UnknownShare);
      }
      acls := acls[found.value.id := WithoutUser(AclHere(found.value), user)];
      TearDown(Trees(OfUserShare(user, name)));
    }

    method SetShareMode(name: string, mode: Mode) returns (err: Option<ConfigError>)
      requires Valid()
      modifies this`acls, conns.Values`sessions, backend`closed
      ensures Valid() && (View(), err) == Configure(old(View()), SetMode(name, mode))
    {
      hide Everywhere;
      err := ValidateShareName(name);
      if err.Some? {
        return;
      }
      var found := FindShare(name);
      if found.None? {
        return Some(UnknownShare);
      }
      var acl := AclHere(found.value);
      if mode.IsPublic() && acl.users != map[] {
        return Some(PublicMixedWithUsers);
      }
      if acl.mode == mode {
        return None;
      }
      acls := acls[found.value.id := acl.(mode := mode)];
      TearDown(Trees(OfShare(name)));
    }

    // ---- connections and their requests ----

    method AcceptConnection() returns (conn: Connection)
      requires Valid()
      modifies this`conns, this`nextConn
      ensures Valid() && fresh(conn) && View() == Step(old(View()), Accept)
    {
      conn := new Connection(nextConn);
      conns := conns[nextConn := conn];
      nextConn := nextConn + 1;
    }

    method HangUp(cid: nat)
      requires Valid()
      modifies this`conns, backend`dropped
      ensures Valid() && View() == Step(old(View()), Hangup(cid))
    {
      hide Tally, ConnHandles;
      backend.dropped := backend.dropped + Worth(ViewsOf(conns), ConnHandles, cid);
      conns := conns - {cid};
    }

    /** `anonymous_allowed`. */
    method AnyPublicShare() returns (found: bool)
      ensures found == AnonymousAllowed(Policy(users, byName, acls, nextShare))
    {
      var todo := byName.Keys;
      while todo != {}
        invariant todo <= byName.Keys
        invariant forall k :: k in byName && k !in todo ==> !AclHere(byName[k]).mode.IsPublic()
        decreases |todo|
      {
        var k :| k in todo;
        if AclHere(byName[k]).mode.IsPublic() {
          assert AclOf(Policy(users, byName, acls, nextShare), byName[k]).mode.IsPublic();
          return true;
        }
        todo := todo - {k};
      }
      assert forall k :: k in byName ==> !AclHere(byName[k]).mode.IsPublic();
      return false;
    }

    method LookUp(name: string) returns (found: Option<(Share, Acl)>)
      ensures found == Lookup(Policy(users, byName, acls, nextShare), name)
    {
      if Lower(name) == Lower(IPC) {
        return Some((IPC_SHARE, IPC_ACL));
      }
      var share := FindShare(name);
      found := if share.None? then None else Some((share.value, AclHere(share.value)));
    }

    /** A request on a connection, through its handler. */
    method Handle(conn: Connection, r: Request) returns (reply: Reply)
      modifies conn, backend
      ensures Moved(conn.View(), backend.View(), reply)
           == Serve(Policy(users, byName, acls, nextShare), old(conn.View()), old(backend.View()), r)
    {
      hide OpenSetup, FinishSetup, ConnectTree, CreateFile, CloseFile, Sessions.Logoff, DisconnectTree,
          AnonymousAllowed;
      match r
      case Negotiate =>
        conn.Negotiate();
        reply := Done;
      case SetupOpening(accepted) => reply := conn.OpenSetup(accepted, backend);
      case SetupReply(sid, claim) =>
        var anonymous := AnyPublicShare();
        reply := conn.FinishSetup(sid, claim, users, anonymous, backend);
      case TreeConnect(sid, share) =>
        if share.None? {
          return Refused(STATUS_BAD_NETWORK_NAME);
        }
        var found := LookUp(share.value);
        reply := conn.ConnectTree(sid, found, backend);
      case TreeDisconnect(sid, tid) => reply := conn.DisconnectTree(sid, tid, backend);
      case LogOff(sid) => reply := conn.Logoff(sid, backend);
      case Create(sid, tid, req, answer) => reply := conn.CreateFile(sid, tid, req, answer, backend);
      case Close(sid, tid, fid) => reply := conn.CloseFile(sid, tid, fid, backend);
    }

    method HandleOn(cid: nat, r: Request) returns (reply: Reply)
      requires Valid() && cid in conns
      modifies conns[cid], backend
      ensures Valid() && View() == Step(old(View()), Message(cid, r))
      ensures reply == Serve(old(View()).policy, old(conns[cid].View()), old(backend.View()), r).reply
    {
      hide Serve;
      ghost var was := ViewsOf(conns);
      reply := Handle(conns[cid], r);
      assert ViewsOf(conns) == was[cid := conns[cid].View()];
    }
  }
}
