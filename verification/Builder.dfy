/** `SmbServerBuilder::build`: validation, then the initial server state. */
module Builder {
  import opened Bytes
  import opened Sharing
  import opened Servers
  import opened Configuration

  function UserError(order: seq<string>): Option<ConfigError> {
    if order == [] then None
    else if ValidateUserName(order[0]).Some? then ValidateUserName(order[0])
    else UserError(order[1..])
  }

  function UserSet(order: seq<string>): set<string> {
    set u | u in order
  }

  function NamesBefore(decls: seq<ShareDecl>, n: nat): set<string>
    requires n <= |decls|
  {
    set j | 0 <= j < n :: Lower(decls[j].name)
  }

  function DeclError(decls: seq<ShareDecl>, i: nat, users: set<string>): Option<ConfigError>
    requires i < |decls|
  {
    var d := decls[i];
    if Lower(d.name) in NamesBefore(decls, i) then Some(DuplicateShare)
    else if d.acl.mode.IsPublic() && d.acl.users != map[] then Some(PublicMixedWithUsers)
    else if !(d.acl.users.Keys <= users) then Some(UnknownUser)
    else None
  }

  function SharesError(decls: seq<ShareDecl>, i: nat, users: set<string>): Option<ConfigError>
    requires i <= |decls|
    decreases |decls| - i
  {
    if i == |decls| then None
    else if DeclError(decls, i, users).Some? then DeclError(decls, i, users)
    else SharesError(decls, i + 1, users)
  }

  /** The first error in the order `build` looks for them. */
  function BuildError(order: seq<string>, decls: seq<ShareDecl>, listening: bool): Option<ConfigError> {
    var users := UserSet(order);
    if UserError(order).Some? then UserError(order)
    else if SharesError(decls, 0, users).Some? then SharesError(decls, 0, users)
    else if !listening then Some(MissingListenAddress)
    else None
  }

  lemma {:induction false} UsersAccepted(order: seq<string>)
    ensures UserError(order) == None <==> forall u :: u in order ==> ValidateUserName(u) == None
  {
    hide ValidateUserName;
    if order != [] {
      UsersAccepted(order[1..]);
      assert order == [order[0]] + order[1..];
    }
  }

  lemma {:induction false} SharesAccepted(decls: seq<ShareDecl>, i: nat, users: set<string>)
    requires i <= |decls|
    ensures SharesError(decls, i, users) == None
            <==> forall k :: i <= k < |decls| ==> DeclError(decls, k, users) == None
    decreases |decls| - i
  {
    hide DeclError;
    if i < |decls| {
      SharesAccepted(decls, i + 1, users);
    }
  }

  lemma DeclAccepted(decls: seq<ShareDecl>, i: nat, users: set<string>)
    requires i < |decls|
    ensures DeclError(decls, i, users) == None <==>
      AclWithin(decls[i].acl, users) && forall j :: 0 <= j < i ==> Lower(decls[j].name) != Lower(decls[i].name)
  {
    hide Lower;
  }

  /** A configuration is accepted exactly when the initial server it describes is sound. */
  lemma BuildsIffBuildable(order: seq<string>, decls: seq<ShareDecl>, listening: bool)
    ensures BuildError(order, decls, listening) == None <==> listening && Buildable(UserSet(order), decls)
  {
    hide ValidateUserName, DeclError, AclWithin, Lower;
    var users := UserSet(order);
    UsersAccepted(order);
    SharesAccepted(decls, 0, users);
    forall i | 0 <= i < |decls|
      ensures DeclError(decls, i, users) == None <==>
        AclWithin(decls[i].acl, users) && forall j :: 0 <= j < i ==> Lower(decls[j].name) != Lower(decls[i].name)
    {
      DeclAccepted(decls, i, users);
    }
  }

  method CheckUsers(order: seq<string>) returns (err: Option<ConfigError>)
    ensures err == UserError(order)
  {
    hide ValidateUserName;
    for i := 0 to |order|
      invariant UserError(order) == UserError(order[i..])
    {
      var e := ValidateUserName(order[i]);
      if e.Some? {
        return e;
      }
      assert order[i..][1..] == order[i + 1..];
    }
    return None;
  }

  method CheckShares(decls: seq<ShareDecl>, users: set<string>) returns (err: Option<ConfigError>)
    ensures err == SharesError(decls, 0, users)
  {
    hide Lower;
    var seen: set<string> := {};
    for i := 0 to |decls|
      invariant seen == NamesBefore(decls, i)
      invariant SharesError(decls, 0, users) == SharesError(decls, i, users)
    {
      var d := decls[i];
      if Lower(d.name) in seen {
        return Some(DuplicateShare);
      }
      seen := seen + {Lower(d.name)};
      if d.acl.mode.IsPublic() && d.acl.users != map[] {
        return Some(PublicMixedWithUsers);
      }
      if !(d.acl.users.Keys <= users) {
        return Some(UnknownUser);
      }
      assert NamesBefore(decls, i + 1) == NamesBefore(decls, i) + {Lower(d.name)};
    }
    return None;
  }

  /** A refused configuration reports its first error; an accepted one starts at `Initial`, where the
      invariants of `Servers` hold. */
  method Build(order: seq<string>, decls: seq<ShareDecl>, listening: bool)
    returns (err: Option<ConfigError>, server: ServerState)
    ensures err == BuildError(order, decls, listening)
    ensures fresh(server) && server.Valid()
    ensures err.None? ==> server.View() == Initial(UserSet(order), decls) && Secure(server.View())
  {
    hide UserError, SharesError, Buildable, PolicyOk, Register;
    var users := UserSet(order);
    server := new ServerState(users);
    err := CheckUsers(order);
    if err.Some? {
      return;
    }
    err := CheckShares(decls, users);
    if err.Some? {
      return;
    }
    if !listening {
      return Some(MissingListenAddress), server;
    }
    var p0 := Policy(users, map[], map[], 0);
    for i := 0 to |decls|
      invariant fresh(server) && server.conns == map[]
      invariant server.View() == Server(RegisterAll(p0, decls[..i]), map[], 0, NO_LEDGER)
    {
      assert decls[..i + 1][..i] == decls[..i];
      server.Insert(decls[i]);
    }
    assert decls[..|decls|] == decls;
    BuildsIffBuildable(order, decls, listening);
    BuilderPolicy(users, decls);
  }
}
