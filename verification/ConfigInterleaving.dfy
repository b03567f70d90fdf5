/** Configuration calls at the granularity of their locks: any number of concurrent calls, each step one
    critical section on the user table, the share table or one access list. `add_share` and `grant_share_user`
    keep a read guard on the user table from their check to their insertion, which holds off its writers. */
module ConfigInterleaving {
  import opened Bytes
  import opened Sharing
  import opened Sessions
  import opened Servers

  /** How far a call has come. Its teardown of connections comes after all of these. */
  datatype Call =
    | Starting(op: ConfigOp)
    | Inserting(decl: ShareDecl)
    | Granting(name: string, user: string, access: Access)
    | GrantingOn(share: Share, user: string, access: Access)
    | Listing(user: string)
    | Stripping(user: string, todo: set<nat>)
    | Revoking(share: Share, user: string)
    | Switching(share: Share, mode: Mode)
    | Returned(err: Option<ConfigError>)

  datatype System = System(policy: Policy, calls: map<nat, Call>)

  /** A call begins, or takes its next step; `pick` is the share a removal visits next, in whatever order. */
  datatype Action = Begin(t: nat, op: ConfigOp) | Go(t: nat, pick: nat)

  predicate HoldsGuard(c: Call) {
    c.Inserting? || c.Granting? || c.GrantingOn?
  }

  predicate Guarded(s: System) {
    exists t :: t in s.calls && HoldsGuard(s.calls[t])
  }

  function Start(p: Policy, op: ConfigOp, blocked: bool): (Policy, Call) {
    match op
    case AddUser(name) =>
      if ValidateUserName(name).Some? then (p, Returned(ValidateUserName(name)))
      else if blocked then (p, Starting(op))
      else (p.(users := p.users + {name}), Returned(None))
    case RemoveUser(name) =>
      if ValidateUserName(name).Some? then (p, Returned(ValidateUserName(name)))
      else if blocked then (p, Starting(op))
      else if name !in p.users then (p, Returned(Some(UnknownUser)))
      else (p.(users := p.users - {name}), Listing(name))
    case AddShare(d) =>
      if ValidateShareName(d.name).Some? then (p, Returned(ValidateShareName(d.name)))
      else if d.acl.mode.IsPublic() && d.acl.users != map[] then (p, Returned(Some(PublicMixedWithUsers)))
      else if !(d.acl.users.Keys <= p.users) then (p, Returned(Some(UnknownUser)))
      else (p, Inserting(d))
    case RemoveShare(name) =>
      if ValidateShareName(name).Some? then (p, Returned(ValidateShareName(name)))
      else if Lower(name) !in p.byName then (p, Returned(Some(UnknownShare)))
      else (p.(byName := p.byName - {Lower(name)}), Returned(None))
    case Grant(name, user, access) =>
      if ValidateUserName(user).Some? then (p, Returned(ValidateUserName(user)))
      else if ValidateShareName(name).Some? then (p, Returned(ValidateShareName(name)))
      else if user !in p.users then (p, Returned(Some(UnknownUser)))
      else (p, Granting(name, user, access))
    case Revoke(name, user) =>
      if ValidateUserName(user).Some? then (p, Returned(ValidateUserName(user)))
      else if ValidateShareName(name).Some? then (p, Returned(ValidateShareName(name)))
      else if Find(p, name).None? then (p, Returned(Some(UnknownShare)))
      else (p, Revoking(Find(p, name).value, user))
    case SetMode(name, mode) =>
      if ValidateShareName(name).Some? then (p, Returned(ValidateShareName(name)))
      else if Find(p, name).None? then (p, Returned(Some(UnknownShare)))
      else (p, Switching(Find(p, name).value, mode))
  }

  /** One critical section of a call. A removal asked to visit a share it need not waits. */
  function Advance(p: Policy, c: Call, blocked: bool, pick: nat): (Policy, Call) {
    match c
    case Starting(op) => Start(p, op, blocked)
    case Inserting(d) =>
      if Lower(d.name) in p.byName then (p, Returned(Some(DuplicateShare))) else (Register(p, d), Returned(None))
    case Granting(name, user, access) =>
      if Find(p, name).None? then (p, Returned(Some(UnknownShare)))
      else (p, GrantingOn(Find(p, name).value, user, access))
    case GrantingOn(share, user, access) =>
      var acl := AclOf(p, share);
      if acl.mode.IsPublic() then (p, Returned(Some(PublicMixedWithUsers)))
      else (SetAcl(p, share, acl.(users := acl.users[user := access])), Returned(None))
    case Listing(user) => (p, Stripping(user, Ids(p.byName)))
    case Stripping(user, todo) =>
      if todo == {} then (p, Returned(None))
      else if pick !in todo then (p, c)
      else (p.(acls := Forgetting(p.acls, {pick}, user)), Stripping(user, todo - {pick}))
    case Revoking(share, user) => (SetAcl(p, share, WithoutUser(AclOf(p, share), user)), Returned(None))
    case Switching(share, mode) =>
      var acl := AclOf(p, share);
      if mode.IsPublic() && acl.users != map[] then (p, Returned(Some(PublicMixedWithUsers)))
      else if acl.mode == mode then (p, Returned(None))
      else (SetAcl(p, share, acl.(mode := mode)), Returned(None))
    case Returned(_) => (p, c)
  }

  function Act(s: System, a: Action): System {
    match a
    case Begin(t, op) => if t in s.calls then s else s.(calls := s.calls[t := Starting(op)])
    case Go(t, pick) =>
      if t !in s.calls then s
      else
        var (p, c) := Advance(s.policy, s.calls[t], Guarded(s), pick);
        System(p, s.calls[t := c])
  }

  function RunAll(s: System, actions: seq<Action>): System
    decreases |actions|
  {
    if actions == [] then s else RunAll(Act(s, actions[0]), actions[1..])
  }

  // ---- the invariant ----

  /** A removal of `user` that has yet to visit share `id`. */
  predicate Coming(c: Call, user: string, id: nat) {
    (c.Listing? && c.user == user) || (c.Stripping? && c.user == user && id in c.todo)
  }

  ghost predicate Covered(s: System) {
    forall k, u :: k in s.policy.byName && u in AclOf(s.policy, s.policy.byName[k]).users ==>
      u in s.policy.users || exists t :: t in s.calls && Coming(s.calls[t], u, s.policy.byName[k].id)
  }

  /** What a call that holds the guard has checked still holds. */
  predicate StillValid(p: Policy, c: Call) {
    && (c.Inserting? ==> AclWithin(c.decl.acl, p.users))
    && (c.Granting? || c.GrantingOn? ==> c.user in p.users)
  }

  ghost predicate PublicListsEmpty(p: Policy) {
    forall id :: id in p.acls && p.acls[id].mode.IsPublic() ==> p.acls[id].users == map[]
  }

  ghost predicate Inv(s: System) {
    && Covered(s) && PublicListsEmpty(s.policy)
    && forall t :: t in s.calls ==> StillValid(s.policy, s.calls[t])
  }

  lemma StartKeeps(s: System, t: nat)
    requires Inv(s) && t in s.calls && s.calls[t].Starting?
    ensures Inv(Act(s, Go(t, 0)))
  {
    hide Lower, ValidateUserName, ValidateShareName;
    var op := s.calls[t].op;
    var z := Act(s, Go(t, 0));
    forall k, u | k in z.policy.byName && u in AclOf(z.policy, z.policy.byName[k]).users
      ensures u in z.policy.users || exists i :: i in z.calls && Coming(z.calls[i], u, z.policy.byName[k].id)
    {
      var id := z.policy.byName[k].id;
      if u in s.policy.users {
        assert u in z.policy.users || Coming(z.calls[t], u, id);
      } else {
        var i :| i in s.calls && Coming(s.calls[i], u, id);
        assert i != t && Coming(z.calls[i], u, id);
      }
    }
  }

  /** A step that only changes one access list, to one whose users are accounted for. */
  lemma ListChangeKeeps(s: System, z: System, id: nat, t: nat)
    requires Inv(s) && t in s.calls && t in z.calls && z.calls == s.calls[t := z.calls[t]]
    requires z.policy.users == s.policy.users && z.policy.byName == s.policy.byName
    requires forall j :: j != id && j in z.policy.acls ==> j in s.policy.acls && z.policy.acls[j] == s.policy.acls[j]
    requires id in z.policy.acls ==>
      && (z.policy.acls[id].mode.IsPublic() ==> z.policy.acls[id].users == map[])
      && forall u :: u in z.policy.acls[id].users ==>
           u in s.policy.users || (id in s.policy.acls && u in s.policy.acls[id].users && !Coming(s.calls[t], u, id))
    requires forall u, j :: j != id && Coming(s.calls[t], u, j) ==> Coming(z.calls[t], u, j)
    requires StillValid(z.policy, z.calls[t])
    ensures Inv(z)
  {
    forall k, u | k in z.policy.byName && u in AclOf(z.policy, z.policy.byName[k]).users && u !in z.policy.users
      ensures exists i :: i in z.calls && Coming(z.calls[i], u, z.policy.byName[k].id)
    {
      var i :| i in s.calls && Coming(s.calls[i], u, s.policy.byName[k].id);
      assert Coming(z.calls[i], u, z.policy.byName[k].id);
    }
  }

  lemma InsertKeeps(s: System, t: nat)
    requires Inv(s) && t in s.calls && s.calls[t].Inserting?
    ensures Inv(Act(s, Go(t, 0)))
  {
    hide Lower;
    var z := Act(s, Go(t, 0));
    forall k, u | k in z.policy.byName && u in AclOf(z.policy, z.policy.byName[k]).users && u !in z.policy.users
      ensures exists i :: i in z.calls && Coming(z.calls[i], u, z.policy.byName[k].id)
    {
      var i :| i in s.calls && Coming(s.calls[i], u, s.policy.byName[k].id);
      assert Coming(z.calls[i], u, z.policy.byName[k].id);
    }
  }

  lemma ListStepKeeps(s: System, t: nat, pick: nat)
    requires Inv(s) && t in s.calls
    requires s.calls[t].GrantingOn? || s.calls[t].Revoking? || s.calls[t].Switching? || s.calls[t].Stripping?
    ensures Inv(Act(s, Go(t, pick)))
  {
    hide Covered;
    var z, c := Act(s, Go(t, pick)), s.calls[t];
    ListChangeKeeps(s, z, if c.Stripping? then pick else c.share.id, t);
  }

  lemma TableStepKeeps(s: System, t: nat, pick: nat)
    requires Inv(s) && t in s.calls
    requires s.calls[t].Granting? || s.calls[t].Listing? || s.calls[t].Returned?
    ensures Inv(Act(s, Go(t, pick)))
  {
    hide Lower;
    var z := Act(s, Go(t, pick));
    forall k, u | k in z.policy.byName && u in AclOf(z.policy, z.policy.byName[k]).users && u !in z.policy.users
      ensures exists i :: i in z.calls && Coming(z.calls[i], u, z.policy.byName[k].id)
    {
      var i :| i in s.calls && Coming(s.calls[i], u, s.policy.byName[k].id);
      assert Coming(z.calls[i], u, z.policy.byName[k].id);
    }
  }

  lemma ActKeeps(s: System, a: Action)
    requires Inv(s)
    ensures Inv(Act(s, a))
  {
    match a
    case Begin(t, op) =>
      if t !in s.calls {
        var z := Act(s, a);
        forall k, u | k in z.policy.byName && u in AclOf(z.policy, z.policy.byName[k]).users && u !in z.policy.users
          ensures exists i :: i in z.calls && Coming(z.calls[i], u, z.policy.byName[k].id)
        {
          var i :| i in s.calls && Coming(s.calls[i], u, s.policy.byName[k].id);
          assert Coming(z.calls[i], u, z.policy.byName[k].id);
        }
      }
    case Go(t, pick) =>
      if t in s.calls {
        match s.calls[t]
        case Starting(_) => StartKeeps(s, t);
        case Inserting(_) => InsertKeeps(s, t);
        case Granting(_, _, _) | Listing(_) | Returned(_) => TableStepKeeps(s, t, pick);
        case _ => ListStepKeeps(s, t, pick);
      }
  }

  lemma {:induction false} RunKeeps(s: System, actions: seq<Action>)
    requires Inv(s)
    ensures Inv(RunAll(s, actions))
    decreases |actions|
  {
    hide Inv, Act;
    if actions != [] {
      ActKeeps(s, actions[0]);
      RunKeeps(Act(s, actions[0]), actions[1..]);
    }
  }

  // ---- what it gives ----

  /** From a built server, however any number of calls interleave: every user on a registered share's list is
      in the user table or about to be struck off that list by a removal in flight; no public list names
      anyone; so when no removal is in flight the lists are within the table. */
  lemma ListsStayWithinTable(users: set<string>, decls: seq<ShareDecl>, actions: seq<Action>)
    requires Buildable(users, decls)
    ensures var z := RunAll(System(Initial(users, decls).policy, map[]), actions);
            && Covered(z) && PublicListsEmpty(z.policy)
            && ((forall t :: t in z.calls ==> !z.calls[t].Listing? && !z.calls[t].Stripping?) ==>
                  forall k :: k in z.policy.byName ==> AclOf(z.policy, z.policy.byName[k]).users.Keys <= z.policy.users)
  {
    hide Buildable, RunAll, AclOf;
    var s := System(Initial(users, decls).policy, map[]);
    InitialInv(users, decls);
    RunKeeps(s, actions);
  }

  lemma {:induction false} DeclaredPublicListsEmpty(p: Policy, decls: seq<ShareDecl>)
    requires PublicListsEmpty(p)
    requires forall i :: 0 <= i < |decls| ==> AclWithin(decls[i].acl, p.users)
    ensures PublicListsEmpty(RegisterAll(p, decls)) && RegisterAll(p, decls).users == p.users
    decreases |decls|
  {
    hide Lower;
    if decls != [] {
      DeclaredPublicListsEmpty(p, decls[..|decls| - 1]);
    }
  }

  lemma InitialInv(users: set<string>, decls: seq<ShareDecl>)
    requires Buildable(users, decls)
    ensures Inv(System(Initial(users, decls).policy, map[]))
  {
    hide Lower, ValidateUserName;
    BuilderPolicy(users, decls);
    DeclaredPublicListsEmpty(Policy(users, map[], map[], 0), decls);
  }

  // ---- after a removal ----

  /** No call that would add the user is under way. */
  ghost predicate NobodyAdds(s: System, user: string) {
    forall i :: i in s.calls ==> s.calls[i] != Starting(AddUser(user))
  }

  predicate AddsNobody(actions: seq<Action>, user: string) {
    forall i :: 0 <= i < |actions| ==> !(actions[i].Begin? && actions[i].op == AddUser(user))
  }

  /** Call `t` has taken the user out of the table, and only lists it has yet to visit still name them. */
  ghost predicate Removing(s: System, t: nat, user: string) {
    && user !in s.policy.users && NobodyAdds(s, user) && t in s.calls
    && (s.calls[t].Listing? || s.calls[t].Stripping? || s.calls[t].Returned?)
    && forall k :: k in s.policy.byName && user in AclOf(s.policy, s.policy.byName[k]).users ==>
         Coming(s.calls[t], user, s.policy.byName[k].id)
  }

  lemma RemovalBegins(s: System, t: nat, user: string, pick: nat)
    requires t in s.calls && s.calls[t] == Starting(RemoveUser(user)) && NobodyAdds(s, user)
    requires Act(s, Go(t, pick)).calls[t].Listing?
    ensures Removing(Act(s, Go(t, pick)), t, user)
  {
    hide Lower, ValidateUserName;
  }

  /** From `p` to `q` nobody puts the user on a list: where one names them, it did before. */
  ghost predicate PutsOnNoList(p: Policy, q: Policy, user: string) {
    && user !in q.users
    && forall k :: k in q.byName && user in AclOf(q, q.byName[k]).users ==>
         k in p.byName && q.byName[k] == p.byName[k] && user in AclOf(p, p.byName[k]).users
  }

  lemma StartPutsNobody(p: Policy, op: ConfigOp, blocked: bool, user: string)
    requires user !in p.users && op != AddUser(user)
    ensures PutsOnNoList(p, Start(p, op, blocked).0, user) && Start(p, op, blocked).1 != Starting(AddUser(user))
  {
    hide Lower, ValidateUserName, ValidateShareName;
  }

  /** A call that is not adding the user, and whose checks still hold, can put them on no list. */
  lemma StepPutsNobody(p: Policy, c: Call, blocked: bool, pick: nat, user: string)
    requires user !in p.users && c != Starting(AddUser(user)) && StillValid(p, c)
    ensures var (q, d) := Advance(p, c, blocked, pick); PutsOnNoList(p, q, user) && d != Starting(AddUser(user))
  {
    hide Lower, Start, PutsOnNoList;
    if c.Starting? {
      StartPutsNobody(p, c.op, blocked, user);
    } else if c.Inserting? {
      InsertPutsNobody(p, c.decl, user);
    } else {
      ListStepPutsNobody(p, c, blocked, pick, user);
    }
  }

  lemma InsertPutsNobody(p: Policy, d: ShareDecl, user: string)
    requires user !in p.users && AclWithin(d.acl, p.users)
    ensures PutsOnNoList(p, p, user) && PutsOnNoList(p, Register(p, d), user)
  {
    hide Lower;
  }

  lemma ListStepPutsNobody(p: Policy, c: Call, blocked: bool, pick: nat, user: string)
    requires user !in p.users && !c.Starting? && !c.Inserting? && StillValid(p, c)
    ensures var (q, d) := Advance(p, c, blocked, pick); PutsOnNoList(p, q, user) && !d.Starting?
  {
    hide Lower;
  }

  /** The step of another call leaves the removal where it was. */
  lemma OthersPutNobody(s: System, t: nat, user: string, i: nat, pick: nat)
    requires Inv(s) && Removing(s, t, user) && i in s.calls && i != t
    ensures Removing(Act(s, Go(i, pick)), t, user)
  {
    hide Advance, Covered, PublicListsEmpty, StillValid, Guarded, AclOf;
    StepPutsNobody(s.policy, s.calls[i], Guarded(s), pick, user);
  }

  lemma OwnStepStrikes(s: System, t: nat, user: string, pick: nat)
    requires Inv(s) && Removing(s, t, user)
    ensures Removing(Act(s, Go(t, pick)), t, user)
  {
    hide Lower, Covered, PublicListsEmpty;
    var z := Act(s, Go(t, pick));
    forall k | k in z.policy.byName && user in AclOf(z.policy, z.policy.byName[k]).users
      ensures Coming(z.calls[t], user, z.policy.byName[k].id)
    {
      assert user in AclOf(s.policy, s.policy.byName[k]).users;
    }
  }

  lemma {:induction false} RemovalRuns(s: System, t: nat, user: string, actions: seq<Action>)
    requires Inv(s) && Removing(s, t, user) && AddsNobody(actions, user)
    ensures Removing(RunAll(s, actions), t, user)
    decreases |actions|
  {
    hide Inv, Removing, Act;
    if actions != [] {
      RemovalActs(s, t, user, actions[0]);
      ActKeeps(s, actions[0]);
      RemovalRuns(Act(s, actions[0]), t, user, actions[1..]);
    }
  }

  lemma RemovalActs(s: System, t: nat, user: string, a: Action)
    requires Inv(s) && Removing(s, t, user) && !(a.Begin? && a.op == AddUser(user))
    ensures Removing(Act(s, a), t, user)
  {
    hide Inv, Advance;
    match a
    case Begin(_, _) =>
    case Go(i, pick) =>
      if i == t {
        OwnStepStrikes(s, t, user, pick);
      } else if i in s.calls {
        OthersPutNobody(s, t, user, i, pick);
      }
  }

  /** Once a `remove_user` call that found its user has returned, no registered list names them, however its
      steps and any number of other calls interleave before and after, until a call to add them is begun. */
  lemma RemovedStaysUnlisted(s: System, t: nat, user: string, pick: nat, actions: seq<Action>)
    requires Inv(s) && t in s.calls && s.calls[t] == Starting(RemoveUser(user)) && NobodyAdds(s, user)
    requires Act(s, Go(t, pick)).calls[t].Listing? && AddsNobody(actions, user)
    ensures var z := RunAll(Act(s, Go(t, pick)), actions);
            && t in z.calls && user !in z.policy.users
            && (z.calls[t].Returned? ==>
                  forall k :: k in z.policy.byName ==> user !in AclOf(z.policy, z.policy.byName[k]).users)
  {
    hide RunAll, Act, Inv, AclOf;
    RemovalBegins(s, t, user, pick);
    ActKeeps(s, Go(t, pick));
    RemovalRuns(Act(s, Go(t, pick)), t, user, actions);
  }

  // ---- after a revocation ----

  /** Bindings are registered under their own names, each id once and below the counter. */
  ghost predicate Keyed(p: Policy) {
    && (forall k :: k in p.byName ==> k == Lower(p.byName[k].name) && p.byName[k].id < p.nextShare)
    && (forall k, j :: k in p.byName && j in p.byName && p.byName[k].id == p.byName[j].id ==> k == j)
  }

  /** A binding a call has looked up: issued, and registered under its own name if at all. */
  ghost predicate Known(p: Policy, share: Share) {
    share.id < p.nextShare && forall k :: k in p.byName && p.byName[k].id == share.id ==> p.byName[k] == share
  }

  predicate LookedUp(c: Call) {
    c.GrantingOn? || c.Revoking? || c.Switching?
  }

  ghost predicate Registry(s: System) {
    Keyed(s.policy) && forall i :: i in s.calls && LookedUp(s.calls[i]) ==> Known(s.policy, s.calls[i].share)
  }

  lemma FoundIsKnown(p: Policy, name: string)
    requires Keyed(p) && Find(p, name).Some?
    ensures Known(p, Find(p, name).value) && Lower(Find(p, name).value.name) == Lower(name)
  {
    hide Lower;
  }

  /** From `p` to `q` bindings only go, or come under a new id. */
  ghost predicate Grows(p: Policy, q: Policy) {
    && Keyed(q) && p.nextShare <= q.nextShare
    && forall k :: k in q.byName ==> (k in p.byName && q.byName[k] == p.byName[k]) || q.byName[k].id == p.nextShare
  }

  lemma SameTableGrows(p: Policy, q: Policy)
    requires Keyed(p) && q.byName == p.byName && q.nextShare == p.nextShare
    ensures Grows(p, q)
  {
    hide Lower;
  }

  lemma RegisterGrows(p: Policy, d: ShareDecl)
    requires Keyed(p)
    ensures Grows(p, Register(p, d))
  {
    hide Lower;
  }

  lemma StartGrows(p: Policy, op: ConfigOp, blocked: bool)
    requires Keyed(p)
    ensures var (q, d) := Start(p, op, blocked); Grows(p, q) && (LookedUp(d) ==> Known(q, d.share))
  {
    hide Lower, ValidateUserName, ValidateShareName, Known, Grows;
    var (q, d) := Start(p, op, blocked);
    if op.RemoveShare? {
      UnregisterGrows(p, op.name);
    } else {
      assert q.byName == p.byName && q.nextShare == p.nextShare;
    }
    if q.byName == p.byName && q.nextShare == p.nextShare {
      SameTableGrows(p, q);
    }
    if LookedUp(d) {
      FoundIsKnown(p, op.share);
    }
  }

  lemma UnregisterGrows(p: Policy, name: string)
    requires Keyed(p)
    ensures Grows(p, p.(byName := p.byName - {Lower(name)}))
  {
    hide Lower;
  }

  lemma AdvanceKeepsKeyed(p: Policy, c: Call, blocked: bool, pick: nat)
    requires Keyed(p)
    ensures var (q, d) := Advance(p, c, blocked, pick); Grows(p, q) && (LookedUp(d) ==> Known(q, d.share))
  {
    hide Lower, Start, AclOf, Forgetting, Ids, Known, Grows;
    var (q, d) := Advance(p, c, blocked, pick);
    if c.Starting? {
      StartGrows(p, c.op, blocked);
    } else if c.Inserting? {
      RegisterGrows(p, c.decl);
      SameTableGrows(p, p);
    } else {
      SameTableGrows(p, q);
      if c.Granting? && Find(p, c.name).Some? {
        FoundIsKnown(p, c.name);
      }
    }
  }

  lemma StaysKnown(p: Policy, q: Policy, share: Share)
    requires Known(p, share) && Grows(p, q)
    ensures Known(q, share)
  {
  }

  lemma ActKeepsRegistry(s: System, a: Action)
    requires Registry(s)
    ensures Registry(Act(s, a))
  {
    hide Advance, Guarded, Known;
    if a.Go? && a.t in s.calls {
      AdvanceKeepsKeyed(s.policy, s.calls[a.t], Guarded(s), a.pick);
      var z := Act(s, a);
      forall i | i in z.calls && LookedUp(z.calls[i])
        ensures Known(z.policy, z.calls[i].share)
      {
        if i != a.t {
          StaysKnown(s.policy, z.policy, s.calls[i].share);
        }
      }
    }
  }

  lemma {:induction false} RunKeepsRegistry(s: System, actions: seq<Action>)
    requires Registry(s)
    ensures Registry(RunAll(s, actions))
    decreases |actions|
  {
    hide Registry, Act;
    if actions != [] {
      ActKeepsRegistry(s, actions[0]);
      RunKeepsRegistry(Act(s, actions[0]), actions[1..]);
    }
  }

  /** From a built server bindings stay registered under their own names, whatever interleaves. */
  lemma RegistryHolds(users: set<string>, decls: seq<ShareDecl>, actions: seq<Action>)
    requires Buildable(users, decls)
    ensures Registry(RunAll(System(Initial(users, decls).policy, map[]), actions))
  {
    hide RunAll, Lower, Buildable;
    BuilderPolicy(users, decls);
    RunKeepsRegistry(System(Initial(users, decls).policy, map[]), actions);
  }

  /** A call under way that would grant the user this share. */
  predicate WouldGrant(c: Call, share: Share, user: string) {
    || (c.Starting? && c.op.Grant? && Lower(c.op.share) == Lower(share.name) && c.op.user == user)
    || (c.Granting? && Lower(c.name) == Lower(share.name) && c.user == user)
    || (c.GrantingOn? && c.share.id == share.id && c.user == user)
  }

  predicate GrantsNone(actions: seq<Action>, share: Share, user: string) {
    forall i :: 0 <= i < |actions| && actions[i].Begin? ==> !WouldGrant(Starting(actions[i].op), share, user)
  }

  /** The user is off the binding's list, and nobody is putting them back. */
  ghost predicate OffList(s: System, share: Share, user: string) {
    && user !in AclOf(s.policy, share).users && share.id < s.policy.nextShare
    && forall i :: i in s.calls ==> !WouldGrant(s.calls[i], share, user)
  }

  lemma AdvanceKeepsOff(p: Policy, c: Call, blocked: bool, pick: nat, share: Share, user: string)
    requires Keyed(p) && Known(p, share) && user !in AclOf(p, share).users && !WouldGrant(c, share, user)
    ensures var (q, d) := Advance(p, c, blocked, pick);
            user !in AclOf(q, share).users && !WouldGrant(d, share, user) && share.id < q.nextShare
  {
    hide Lower, ValidateUserName, ValidateShareName, Ids;
  }

  lemma {:induction false} RunKeepsOff(s: System, share: Share, user: string, actions: seq<Action>)
    requires Registry(s) && Known(s.policy, share) && OffList(s, share, user) && GrantsNone(actions, share, user)
    ensures OffList(RunAll(s, actions), share, user) && Known(RunAll(s, actions).policy, share)
    decreases |actions|
  {
    hide Registry, Act, OffList, Known, WouldGrant;
    if actions != [] {
      ActKeepsOff(s, share, user, actions[0]);
      ActKeepsRegistry(s, actions[0]);
      RunKeepsOff(Act(s, actions[0]), share, user, actions[1..]);
    }
  }

  lemma ActKeepsOff(s: System, share: Share, user: string, a: Action)
    requires Registry(s) && Known(s.policy, share) && OffList(s, share, user)
    requires a.Begin? ==> !WouldGrant(Starting(a.op), share, user)
    ensures OffList(Act(s, a), share, user) && Known(Act(s, a).policy, share)
  {
    hide Advance, Guarded, WouldGrant, AclOf, Keyed;
    if a.Go? && a.t in s.calls {
      AdvanceKeepsKeyed(s.policy, s.calls[a.t], Guarded(s), a.pick);
      StaysKnown(s.policy, Act(s, a).policy, share);
      AdvanceKeepsOff(s.policy, s.calls[a.t], Guarded(s), a.pick, share, user);
    }
  }

  /** Once a `revoke_share_user` call has returned, the user is not on the list of the binding it found, however
      any number of other calls interleave, until a call to grant them that share is under way. */
  lemma RevokedStaysUnlisted(s: System, t: nat, pick: nat, actions: seq<Action>)
    requires Registry(s) && t in s.calls && s.calls[t].Revoking?
    requires forall i :: i in s.calls ==> !WouldGrant(s.calls[i], s.calls[t].share, s.calls[t].user)
    requires GrantsNone(actions, s.calls[t].share, s.calls[t].user)
    ensures var share, user := s.calls[t].share, s.calls[t].user;
            var z := RunAll(Act(s, Go(t, pick)), actions);
            && Act(s, Go(t, pick)).calls[t] == Returned(None)
            && user !in AclOf(z.policy, share).users
            && forall k :: k in z.policy.byName && z.policy.byName[k].id == share.id ==>
                 user !in AclOf(z.policy, z.policy.byName[k]).users
  {
    hide RunAll, Registry, WouldGrant, Guarded;
    var share, user := s.calls[t].share, s.calls[t].user;
    RevokingKnown(s, t);
    var s1 := Act(s, Go(t, pick));
    ActKeepsRegistry(s, Go(t, pick));
    assert !WouldGrant(Returned(None), share, user) by { ReturnedGrantsNone(share, user); }
    RunKeepsOff(s1, share, user, actions);
  }

  lemma ReturnedGrantsNone(share: Share, user: string)
    ensures !WouldGrant(Returned(None), share, user)
  {
  }

  lemma RevokingKnown(s: System, t: nat)
    requires Registry(s) && t in s.calls && s.calls[t].Revoking?
    ensures Known(s.policy, s.calls[t].share)
  {
  }

  // ---- a call on its own is the atomic call ----

  function Rank(c: Call): nat {
    match c
    case Starting(_) => 3
    case Granting(_, _, _) => 2
    case Returned(_) | Stripping(_, _) => 0
    case _ => 1
  }

  /** Where a call that is not held up ends: the policy it leaves and what it returns. */
  function Finish(p: Policy, c: Call): (Policy, Option<ConfigError>)
    decreases Rank(c)
  {
    match c
    case Returned(err) => (p, err)
    case Stripping(user, todo) => (p.(acls := Forgetting(p.acls, todo, user)), None)
    case _ =>
      RankFalls(p, c);
      var (q, d) := Advance(p, c, false, 0);
      Finish(q, d)
  }

  lemma RankFalls(p: Policy, c: Call)
    requires !c.Returned? && !c.Stripping?
    ensures Rank(Advance(p, c, false, 0).1) < Rank(c)
  {
    hide Lower, ValidateUserName, ValidateShareName;
  }

  lemma ForgettingTwice(acls: map<nat, Acl>, a: set<nat>, b: set<nat>, user: string)
    ensures Forgetting(Forgetting(acls, a, user), b, user) == Forgetting(acls, a + b, user)
  {
    assert forall id :: id in acls ==> acls[id].users - {user} - {user} == acls[id].users - {user};
  }

  /** A step moves a call towards its end, whichever share a removal visits. */
  lemma AdvanceKeepsEnd(p: Policy, c: Call, pick: nat)
    ensures var (q, d) := Advance(p, c, false, pick); Finish(q, d) == Finish(p, c) && !d.Starting?
  {
    hide Lower, ValidateUserName, ValidateShareName, Forgetting, Register, SetAcl, AclOf, Ids;
    match c
    case Stripping(user, todo) =>
      ForgettingNone(p.acls, user);
      if pick in todo {
        ForgettingTwice(p.acls, {pick}, todo - {pick}, user);
        assert {pick} + (todo - {pick}) == todo;
      }
    case Returned(_) =>
    case _ =>
      PickIsIdle(p, c, pick);
  }

  lemma PickIsIdle(p: Policy, c: Call, pick: nat)
    requires !c.Stripping?
    ensures Advance(p, c, false, pick) == Advance(p, c, false, 0) && !Advance(p, c, false, 0).1.Starting?
  {
    hide Lower, ValidateUserName, ValidateShareName, Forgetting, Register, SetAcl, AclOf, Ids;
  }

  /** Only call `t` moves. */
  predicate Solo(actions: seq<Action>, t: nat) {
    forall i :: 0 <= i < |actions| ==> actions[i].Go? && actions[i].t == t
  }

  lemma {:induction false} SoloKeepsEnd(s: System, t: nat, actions: seq<Action>)
    requires t in s.calls && (s.calls[t].Starting? ==> !Guarded(s)) && Solo(actions, t)
    ensures var z := RunAll(s, actions);
            && t in z.calls && z.calls == s.calls[t := z.calls[t]]
            && Finish(z.policy, z.calls[t]) == Finish(s.policy, s.calls[t])
    decreases |actions|
  {
    hide Advance, Guarded, Finish;
    if actions == [] {
      assert s.calls[t := s.calls[t]] == s.calls;
    } else {
      var s1 := Act(s, actions[0]);
      GoIs(s, t, actions[0].pick);
      AdvanceKeepsEnd(s.policy, s.calls[t], actions[0].pick);
      SoloKeepsEnd(s1, t, actions[1..]);
      var z := RunAll(s, actions);
      assert s1.calls[t := z.calls[t]] == s.calls[t := z.calls[t]];
    }
  }

  lemma GoIs(s: System, t: nat, pick: nat)
    requires t in s.calls && (s.calls[t].Starting? ==> !Guarded(s))
    ensures var (p, c) := Advance(s.policy, s.calls[t], false, pick);
            Act(s, Go(t, pick)) == System(p, s.calls[t := c])
  {
    hide Start, Guarded;
  }

  lemma FinishIsConfigure(op: ConfigOp, server: Server)
    ensures Finish(server.policy, Starting(op)) == (Configure(server, op).0.policy, Configure(server, op).1)
  {
    hide Lower, ValidateUserName, ValidateShareName, Register, PartAll, Forgetting, AclOf, Ids, SetAcl;
    var p := server.policy;
    var (p1, c1) := Start(p, op, false);
    AdvanceKeepsEnd(p, Starting(op), 0);
    var (p2, c2) := Advance(p1, c1, false, 0);
    AdvanceKeepsEnd(p1, c1, 0);
    AdvanceKeepsEnd(p2, c2, 0);
    match op
    case RemoveUser(_) =>
    case AddShare(_) =>
    case Grant(_, _, _) =>
    case Revoke(_, _) =>
    case SetMode(_, _) =>
    case _ =>
  }

  lemma StartingHoldsNothing(s: System, t: nat, op: ConfigOp)
    requires t !in s.calls && !Guarded(s)
    ensures !Guarded(System(s.policy, s.calls[t := Starting(op)]))
  {
  }

  /** Begun while no other call holds the guard and left to run alone until it returns, a call has exactly the
      effect on users, shares and lists, and the result, of the atomic step `Configure`, in whatever order a
      removal visits the shares. */
  lemma AloneIsAtomic(s: System, t: nat, op: ConfigOp, server: Server, actions: seq<Action>)
    requires t !in s.calls && !Guarded(s) && server.policy == s.policy && Solo(actions, t)
    requires var z := RunAll(Act(s, Begin(t, op)), actions); t in z.calls && z.calls[t].Returned?
    ensures var (z, err) := Configure(server, op);
            RunAll(Act(s, Begin(t, op)), actions) == System(z.policy, s.calls[t := Returned(err)])
  {
    hide Guarded, Configure, RunAll, Advance, Start;
    var s0 := System(s.policy, s.calls[t := Starting(op)]);
    StartingHoldsNothing(s, t, op);
    SoloKeepsEnd(s0, t, actions);
    FinishIsConfigure(op, server);
    var z := RunAll(s0, actions);
    assert s0.calls[t := z.calls[t]] == s.calls[t := z.calls[t]];
  }

  /** ... and left alone it can always return. */
  lemma {:induction false} AloneReturns(s: System, t: nat) returns (actions: seq<Action>)
    requires t in s.calls && (s.calls[t].Starting? ==> !Guarded(s))
    ensures Solo(actions, t) && t in RunAll(s, actions).calls && RunAll(s, actions).calls[t].Returned?
    decreases if t in s.calls then Rank(s.calls[t]) else 0,
              if t in s.calls && s.calls[t].Stripping? then |s.calls[t].todo| + 1 else 0
  {
    hide Advance, Guarded, Rank;
    var c := s.calls[t];
    if c.Returned? {
      return [];
    }
    var pick := NextPick(s.policy, c);
    GoIs(s, t, pick);
    AdvanceKeepsEnd(s.policy, c, pick);
    var rest := AloneReturns(Act(s, Go(t, pick)), t);
    actions := [Go(t, pick)] + rest;
    assert actions[1..] == rest;
  }

  /** Some next step brings a call nearer to its return. */
  lemma NextPick(p: Policy, c: Call) returns (pick: nat)
    requires !c.Returned?
    ensures var d := Advance(p, c, false, pick).1;
            || Rank(d) < Rank(c)
            || (Rank(d) == Rank(c) && c.Stripping? && (if d.Stripping? then |d.todo| < |c.todo| else true))
  {
    hide Lower, ValidateUserName, ValidateShareName, Forgetting, Register, SetAcl, AclOf, Ids;
    if c.Stripping? && c.todo != {} {
      pick :| pick in c.todo;
    } else {
      pick := 0;
      if !c.Stripping? {
        RankFalls(p, c);
      }
    }
  }
}
