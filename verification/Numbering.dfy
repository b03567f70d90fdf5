/** Id bookkeeping over every run: live ids lie below their counters, pending exchanges and sessions are
    disjoint, and while the counters have not wrapped no session, tree or file id is issued twice; and exactly
    which runs lose a handle. */
module Numbering {
  import opened Bytes
  import opened Sharing
  import opened Tallies
  import opened Sessions
  import opened Servers
  import opened Ownership

  ghost predicate OpensNumbered(t: Tree) {
    && 1 <= t.nextVolatile
    && (t.nextVolatile <= U64 ==> forall fid :: fid in t.opens ==>
          fid.persistent == fid.volatile_ && 1 <= fid.volatile_ < t.nextVolatile)
  }

  ghost predicate TreesNumbered(s: Session) {
    && 1 <= s.nextTree
    && (s.nextTree <= U32 ==> forall tid :: tid in s.trees ==> 1 <= tid < s.nextTree)
    && forall tid :: tid in s.trees ==> OpensNumbered(s.trees[tid])
  }

  ghost predicate Numbered(c: Conn) {
    && 1 <= c.nextSession
    && (c.nextSession <= U64 ==>
          && c.pending !! c.sessions.Keys
          && forall sid :: sid in c.pending || sid in c.sessions ==> 1 <= sid < c.nextSession)
    && forall sid :: sid in c.sessions ==> TreesNumbered(c.sessions[sid])
  }

  /** No counter has handed out every value of its width. */
  ghost predicate Unwrapped(c: Conn) {
    && c.nextSession <= U64
    && forall sid :: sid in c.sessions ==>
         && c.sessions[sid].nextTree <= U32
         && forall tid :: tid in c.sessions[sid].trees ==> c.sessions[sid].trees[tid].nextVolatile <= U64
  }

  lemma ConnectNumbers(c: Conn, l: Ledger, sid: u64, found: Option<(Share, Acl)>)
    requires Numbered(c)
    ensures Numbered(ConnectTree(c, l, sid, found).conn)
  {
    hide Authorize;
    var m := ConnectTree(c, l, sid, found);
    if m.reply.TreeOpened? {
      assert TreesNumbered(c.sessions[sid]);
      assert TreesNumbered(m.conn.sessions[sid]);
    }
  }

  lemma CreateNumbers(c: Conn, l: Ledger, sid: u64, tid: Option<u32>, req: OpenRequest, answer: Answer)
    requires Numbered(c)
    ensures Numbered(CreateFile(c, l, sid, tid, req, answer).conn)
  {
    hide CreateRefusal;
    var m := CreateFile(c, l, sid, tid, req, answer);
    if m.reply.FileOpened? {
      assert TreesNumbered(c.sessions[sid]) && OpensNumbered(c.sessions[sid].trees[tid.value]);
      assert OpensNumbered(m.conn.sessions[sid].trees[tid.value]);
      assert TreesNumbered(m.conn.sessions[sid]);
    }
  }

  lemma CloseNumbers(c: Conn, l: Ledger, sid: u64, tid: Option<u32>, fid: FileId)
    requires Numbered(c)
    ensures Numbered(CloseFile(c, l, sid, tid, fid).conn)
  {
    var m := CloseFile(c, l, sid, tid, fid);
    if m.reply.Done? {
      assert TreesNumbered(c.sessions[sid]) && OpensNumbered(c.sessions[sid].trees[tid.value]);
      assert OpensNumbered(m.conn.sessions[sid].trees[tid.value]);
      assert TreesNumbered(m.conn.sessions[sid]);
    }
  }

  lemma RequestNumbers(p: Policy, c: Conn, l: Ledger, r: Request)
    requires Numbered(c)
    ensures Numbered(Serve(p, c, l, r).conn)
  {
    hide ConnectTree, CreateFile, CloseFile, Lookup, AnonymousAllowed;
    match r
    case TreeConnect(sid, share) =>
      if share.Some? {
        ConnectNumbers(c, l, sid, Lookup(p, share.value));
      }
    case Create(sid, tid, req, answer) => CreateNumbers(c, l, sid, tid, req, answer);
    case Close(sid, tid, fid) => CloseNumbers(c, l, sid, tid, fid);
    case TreeDisconnect(sid, tid) =>
      if TreeRefusal(c, sid, tid).None? {
        assert TreesNumbered(c.sessions[sid]);
      }
    case _ =>
  }

  /** What a request puts into a table it puts under a key not in use. */
  predicate PutsUnderFreeKey(c: Conn, r: Request, reply: Reply) {
    && (reply.SessionPending? ==> reply.sid !in c.pending && reply.sid !in c.sessions)
    && (reply.SessionOpened? ==> reply.sid !in c.sessions)
    && (reply.TreeOpened? ==> r.TreeConnect? && r.sid in c.sessions && reply.tid !in c.sessions[r.sid].trees)
    && (reply.FileOpened? ==> r.Create? && r.tid.Some? && HasTree(c, r.sid, r.tid.value)
                              && reply.fid !in c.sessions[r.sid].trees[r.tid.value].opens)
  }

  lemma ConnectLosesNothing(c: Conn, l: Ledger, sid: u64, found: Option<(Share, Acl)>)
    requires Numbered(c) && Unwrapped(ConnectTree(c, l, sid, found).conn)
    ensures var m := ConnectTree(c, l, sid, found);
            && m.ledger.dropped == l.dropped && (m.reply.Refused? || m.reply.TreeOpened?)
            && (m.reply.TreeOpened? ==> sid in c.sessions && m.reply.tid !in c.sessions[sid].trees)
  {
    hide Authorize, Tally, OpensNumbered;
    var m := ConnectTree(c, l, sid, found);
    Nothing(l.dropped);
    if m.reply.TreeOpened? {
      assert m.conn.sessions[sid].nextTree == c.sessions[sid].nextTree + 1;
      assert TreesNumbered(c.sessions[sid]);
    }
  }

  lemma CreateLosesNothing(c: Conn, l: Ledger, sid: u64, tid: Option<u32>, req: OpenRequest, answer: Answer)
    requires Numbered(c) && Unwrapped(CreateFile(c, l, sid, tid, req, answer).conn)
    ensures var m := CreateFile(c, l, sid, tid, req, answer);
            && m.ledger.dropped == l.dropped && (m.reply.Refused? || m.reply.FileOpened?)
            && (m.reply.FileOpened? ==> tid.Some? && HasTree(c, sid, tid.value)
                                        && m.reply.fid !in c.sessions[sid].trees[tid.value].opens)
  {
    hide CreateRefusal, Tally;
    var m := CreateFile(c, l, sid, tid, req, answer);
    Nothing(l.dropped);
    if m.reply.FileOpened? {
      assert TreesNumbered(c.sessions[sid]) && OpensNumbered(c.sessions[sid].trees[tid.value]);
      assert m.conn.sessions[sid].trees[tid.value].nextVolatile == c.sessions[sid].trees[tid.value].nextVolatile + 1;
    }
  }

  /** With its counters not wrapped, a connection's requests overwrite no session, tree or open, and so lose
      no handle. */
  lemma RequestLosesNothing(p: Policy, c: Conn, l: Ledger, r: Request)
    requires Numbered(c) && Unwrapped(Serve(p, c, l, r).conn)
    ensures Serve(p, c, l, r).ledger.dropped == l.dropped
    ensures PutsUnderFreeKey(c, r, Serve(p, c, l, r).reply)
  {
    hide Lookup, AnonymousAllowed, ConnectTree, CreateFile, TreesNumbered, Tally;
    Nothing(l.dropped);
    match r
    case TreeConnect(sid, share) =>
      if share.Some? {
        ConnectLosesNothing(c, l, sid, Lookup(p, share.value));
      }
    case Create(sid, tid, req, answer) => CreateLosesNothing(c, l, sid, tid, req, answer);
    case _ =>
  }

  // ---- over runs ----

  ghost predicate AllNumbered(s: Server) {
    forall k :: k in s.conns ==> k < s.nextConn && Numbered(s.conns[k])
  }

  ghost predicate AllUnwrapped(s: Server) {
    forall k :: k in s.conns ==> Unwrapped(s.conns[k])
  }

  lemma PartNumbers(c: Conn, td: Teardown)
    requires Numbered(c)
    ensures Numbered(Part(c, td, false))
  {
    hide Selects;
    var d := Part(c, td, false);
    forall sid | sid in d.sessions
      ensures TreesNumbered(d.sessions[sid])
    {
      assert TreesNumbered(c.sessions[sid]);
    }
  }

  lemma ConfigTables(s: Server, op: ConfigOp) returns (td: Option<Teardown>)
    ensures var z := Configure(s, op).0;
            && z.nextConn == s.nextConn && z.conns.Keys == s.conns.Keys
            && forall k :: k in s.conns ==> z.conns[k] == AfterTeardown(s.conns[k], td)
  {
    hide Configure, Effect, Part;
    if Configure(s, op).1.Some? {
      FailedCallChangesNothing(s, op);
      td := None;
    } else {
      EffectIsTheStep(s, op);
      td := Effect(s, op).1;
    }
  }

  lemma StepNumbers(s: Server, op: Op)
    requires AllNumbered(s)
    ensures AllNumbered(Step(s, op))
  {
    hide Serve, Configure, Numbered, Part;
    var z := Step(s, op);
    match op
    case Accept => FreshIsNumbered();
    case Config(c) =>
      var td := ConfigTables(s, c);
      forall k | k in s.conns
        ensures Numbered(z.conns[k])
      {
        if td.Some? {
          PartNumbers(s.conns[k], td.value);
        }
      }
    case Message(cid, r) =>
      if cid in s.conns {
        RequestNumbers(s.policy, s.conns[cid], s.ledger, r);
      }
    case _ =>
  }

  lemma FreshIsNumbered()
    ensures Numbered(FRESH_CONN)
  {
  }

  lemma {:induction false} RunNumbers(s: Server, ops: seq<Op>)
    requires AllNumbered(s)
    ensures AllNumbered(Run(s, ops))
  {
    hide Step, AllNumbered;
    if ops != [] {
      RunNumbers(s, ops[..|ops| - 1]);
      StepNumbers(Run(s, ops[..|ops| - 1]), ops[|ops| - 1]);
    }
  }

  /** Over every run: ids in use lie below their counters, and no id is both pending and a session. */
  lemma IdsAreOrderly(users: set<string>, decls: seq<ShareDecl>, ops: seq<Op>)
    ensures AllNumbered(Run(Initial(users, decls), ops))
  {
    RunNumbers(Initial(users, decls), ops);
  }

  // ---- exactly which runs lose a handle ----

  /** What the insertion behind a reply overwrote, with everything it owned. */
  ghost function Overwritten(c: Conn, r: Request, reply: Reply): Handles {
    if reply.SessionOpened? then Worth(c.sessions, SessionHandles, reply.sid)
    else if reply.TreeOpened? && r.TreeConnect? && r.sid in c.sessions then
      Worth(c.sessions[r.sid].trees, TreeHandles, reply.tid)
    else if reply.FileOpened? && r.Create? && r.tid.Some? && HasTree(c, r.sid, r.tid.value) then
      Worth(c.sessions[r.sid].trees[r.tid.value].opens, OpenHandles, reply.fid)
    else multiset{}
  }

  lemma ServeDrops(p: Policy, c: Conn, l: Ledger, r: Request)
    ensures var m := Serve(p, c, l, r); m.ledger.dropped == l.dropped + Overwritten(c, r, m.reply)
  {
    hide Lookup, AnonymousAllowed, Authorize, CreateRefusal, Tally, SessionHandles, TreeHandles, OpenHandles;
    Nothing(l.dropped);
  }

  /** No connection that goes away in this step owns a handle. */
  ghost predicate IdleHangup(s: Server, op: Op) {
    op.Hangup? && op.cid in s.conns ==> ConnHandles(s.conns[op.cid]) == multiset{}
  }

  /** No session, tree or open that this step overwrites owns a handle. */
  ghost predicate OverwritesIdle(s: Server, op: Op) {
    op.Message? && op.cid in s.conns ==>
      var c := s.conns[op.cid];
      Overwritten(c, op.request, Serve(s.policy, c, s.ledger, op.request).reply) == multiset{}
  }

  /** Every step of the run keeps hold of the handles it finds. */
  ghost predicate LosesOnlyIdle(s: Server, ops: seq<Op>) {
    ops == [] ||
    var before, op := ops[..|ops| - 1], ops[|ops| - 1];
    LosesOnlyIdle(s, before) && IdleHangup(Run(s, before), op) && OverwritesIdle(Run(s, before), op)
  }

  lemma ConfigDropsNothing(s: Server, op: ConfigOp)
    ensures Configure(s, op).0.ledger.dropped == s.ledger.dropped
  {
    hide Configure, Effect;
    if Configure(s, op).1.Some? {
      FailedCallChangesNothing(s, op);
    } else {
      EffectIsTheStep(s, op);
    }
  }

  lemma StepDrops(s: Server, op: Op)
    ensures Step(s, op).ledger.dropped == multiset{}
            <==> s.ledger.dropped == multiset{} && IdleHangup(s, op) && OverwritesIdle(s, op)
  {
    hide Serve, Configure, ConnHandles, Overwritten;
    match op
    case Hangup(cid) => EmptySum(s.ledger.dropped, Worth(s.conns, ConnHandles, cid));
    case Config(c) => ConfigDropsNothing(s, c);
    case Message(cid, r) =>
      if cid in s.conns {
        var c := s.conns[cid];
        ServeDrops(s.policy, c, s.ledger, r);
        EmptySum(s.ledger.dropped, Overwritten(c, r, Serve(s.policy, c, s.ledger, r).reply));
      }
    case _ =>
  }

  lemma EmptySum(a: Handles, b: Handles)
    ensures a + b == multiset{} <==> a == multiset{} && b == multiset{}
  {
    if a + b == multiset{} {
      forall h
        ensures a[h] == 0 && b[h] == 0
      {
        assert (a + b)[h] == 0;
      }
    }
  }

  /** Exactly when a run loses handles: when a connection goes away, or a table entry is overwritten, while it
      owns one. */
  lemma {:induction false} LosesNothingIff(s: Server, ops: seq<Op>)
    requires s.ledger.dropped == multiset{}
    ensures Run(s, ops).ledger.dropped == multiset{} <==> LosesOnlyIdle(s, ops)
  {
    hide Step, IdleHangup, OverwritesIdle;
    if ops != [] {
      var before := ops[..|ops| - 1];
      LosesNothingIff(s, before);
      StepDrops(Run(s, before), ops[|ops| - 1]);
    }
  }

  ghost predicate Accounts(z: Server, h: nat) {
    ServerHandles(z.conns)[h] + z.ledger.closed[h] + z.ledger.dropped[h] == if h < z.ledger.issued then 1 else 0
  }

  /** Every handle ever opened is owned by exactly one open or was closed exactly once. */
  ghost predicate OwnedOrClosed(s: Server) {
    forall h: nat :: ServerHandles(s.conns)[h] + s.ledger.closed[h] == if h < s.ledger.issued then 1 else 0
  }

  /** After any run every handle is owned by exactly one open or was closed exactly once, if and only if no
      connection that went away and no table entry that was overwritten owned a handle. */
  lemma OwnedOrClosedOnce(users: set<string>, decls: seq<ShareDecl>, ops: seq<Op>)
    ensures OwnedOrClosed(Run(Initial(users, decls), ops)) <==> LosesOnlyIdle(Initial(users, decls), ops)
  {
    hide Run, LosesOnlyIdle, ServerHandles;
    var z := Run(Initial(users, decls), ops);
    LosesNothingIff(Initial(users, decls), ops);
    forall h: nat
      ensures Accounts(z, h)
    {
      OwnershipIsLinear(users, decls, ops, h);
    }
    if OwnedOrClosed(z) {
      forall h: nat
        ensures z.ledger.dropped[h] == 0
      {
        assert Accounts(z, h);
      }
      assert z.ledger.dropped == multiset{};
    } else {
      var h: nat :| ServerHandles(z.conns)[h] + z.ledger.closed[h] != if h < z.ledger.issued then 1 else 0;
      assert Accounts(z, h);
    }
  }

  // ---- ... in particular while no counter wraps ----

  ghost predicate NeverWraps(s: Server, ops: seq<Op>) {
    ops == [] || (NeverWraps(s, ops[..|ops| - 1]) && AllUnwrapped(Run(s, ops)))
  }

  ghost predicate HangsUpIdle(s: Server, ops: seq<Op>) {
    ops == [] || (HangsUpIdle(s, ops[..|ops| - 1]) && IdleHangup(Run(s, ops[..|ops| - 1]), ops[|ops| - 1]))
  }

  lemma FreeKeyOverwritesNothing(c: Conn, r: Request, reply: Reply)
    requires PutsUnderFreeKey(c, r, reply)
    ensures Overwritten(c, r, reply) == multiset{}
  {
    hide Tally;
  }

  lemma UnwrappedOverwritesNothing(s: Server, op: Op)
    requires AllNumbered(s) && AllUnwrapped(Step(s, op))
    ensures OverwritesIdle(s, op)
  {
    hide Serve, Numbered, Unwrapped, PutsUnderFreeKey, Overwritten;
    if op.Message? && op.cid in s.conns {
      var c := s.conns[op.cid];
      var m := Serve(s.policy, c, s.ledger, op.request);
      assert Step(s, op).conns[op.cid] == m.conn;
      RequestLosesNothing(s.policy, c, s.ledger, op.request);
      FreeKeyOverwritesNothing(c, op.request, m.reply);
    }
  }

  lemma {:induction false} UnwrappedLosesOnlyIdle(s: Server, ops: seq<Op>)
    requires AllNumbered(s) && NeverWraps(s, ops)
    ensures LosesOnlyIdle(s, ops) <==> HangsUpIdle(s, ops)
  {
    hide Step, AllNumbered, AllUnwrapped, IdleHangup, OverwritesIdle;
    if ops != [] {
      var before := ops[..|ops| - 1];
      UnwrappedLosesOnlyIdle(s, before);
      RunNumbers(s, before);
      UnwrappedOverwritesNothing(Run(s, before), ops[|ops| - 1]);
    }
  }

  /** While no counter wraps the hangups alone decide. */
  lemma OwnedOrClosedOnceUnwrapped(users: set<string>, decls: seq<ShareDecl>, ops: seq<Op>)
    requires NeverWraps(Initial(users, decls), ops)
    ensures OwnedOrClosed(Run(Initial(users, decls), ops)) <==> HangsUpIdle(Initial(users, decls), ops)
  {
    hide Run, LosesOnlyIdle, HangsUpIdle, NeverWraps, OwnedOrClosed;
    OwnedOrClosedOnce(users, decls, ops);
    UnwrappedLosesOnlyIdle(Initial(users, decls), ops);
  }

  // ---- ids are issued once ----

  lemma RequestCounts(p: Policy, c: Conn, l: Ledger, r: Request)
    ensures var m := Serve(p, c, l, r);
            && c.nextSession <= m.conn.nextSession <= c.nextSession + 1
            && (m.reply.SessionPending? ==>
                  m.conn.nextSession == c.nextSession + 1 && m.reply.sid == c.nextSession % U64)
  {
    hide Lookup, AnonymousAllowed, Authorize, CreateRefusal, Worth;
  }

  lemma StepCounts(s: Server, op: Op, cid: nat)
    requires cid < s.nextConn
    ensures var z := Step(s, op);
            && cid < z.nextConn
            && (cid in z.conns ==> cid in s.conns && s.conns[cid].nextSession <= z.conns[cid].nextSession)
  {
    hide Serve, Configure;
    match op
    case Config(c) => var _ := ConfigTables(s, c);
    case Message(k, r) =>
      if k in s.conns {
        RequestCounts(s.policy, s.conns[k], s.ledger, r);
      }
    case _ =>
  }

  /** A connection id is never reused, and its session counter never goes back. */
  lemma {:induction false} RunCounts(s: Server, ops: seq<Op>, cid: nat)
    requires cid < s.nextConn
    ensures var z := Run(s, ops);
            && cid < z.nextConn
            && (cid in z.conns ==> cid in s.conns && s.conns[cid].nextSession <= z.conns[cid].nextSession)
  {
    hide Step;
    if ops != [] {
      RunCounts(s, ops[..|ops| - 1], cid);
      StepCounts(Run(s, ops[..|ops| - 1]), ops[|ops| - 1], cid);
    }
  }

  /** What a request on a connection is answered. */
  ghost function Answered(s: Server, cid: nat, r: Request): Reply
    requires cid in s.conns
  {
    Serve(s.policy, s.conns[cid], s.ledger, r).reply
  }

  /** Two session ids issued on one connection differ, whatever happens in between, until its counter wraps. */
  lemma SessionIdsNeverReissued(s: Server, cid: nat, first: Request, ops: seq<Op>, later: Request)
    requires AllNumbered(s) && cid in s.conns && Answered(s, cid, first).SessionPending?
    requires var z := Run(Step(s, Message(cid, first)), ops);
             && cid in z.conns && Answered(z, cid, later).SessionPending? && z.conns[cid].nextSession < U64
    ensures Answered(s, cid, first).sid < Answered(Run(Step(s, Message(cid, first)), ops), cid, later).sid
  {
    hide Serve, Run;
    var s1 := Step(s, Message(cid, first));
    var z := Run(s1, ops);
    RequestCounts(s.policy, s.conns[cid], s.ledger, first);
    RunCounts(s1, ops, cid);
    RequestCounts(z.policy, z.conns[cid], z.ledger, later);
  }

  /** An id whose exchange is over: issued, and no longer pending. */
  ghost predicate Spent(s: Server, cid: nat, sid: u64) {
    && cid < s.nextConn
    && (cid in s.conns ==> sid < s.conns[cid].nextSession && sid !in s.conns[cid].pending)
  }

  lemma RequestKeepsSpent(p: Policy, c: Conn, l: Ledger, r: Request, sid: u64)
    requires sid < c.nextSession && sid !in c.pending && Serve(p, c, l, r).conn.nextSession <= U64
    ensures sid < Serve(p, c, l, r).conn.nextSession && sid !in Serve(p, c, l, r).conn.pending
    ensures Serve(p, c, l, r).reply != SessionOpened(sid)
  {
    hide Lookup, AnonymousAllowed, Authorize, CreateRefusal, Worth;
  }

  lemma {:induction false} RunKeepsSpent(s: Server, ops: seq<Op>, cid: nat, sid: u64)
    requires Spent(s, cid, sid)
    requires cid in Run(s, ops).conns ==> Run(s, ops).conns[cid].nextSession <= U64
    ensures Spent(Run(s, ops), cid, sid)
  {
    hide Serve, Configure;
    if ops != [] {
      var op, y := ops[|ops| - 1], Run(s, ops[..|ops| - 1]);
      RunCounts(s, ops[..|ops| - 1], cid);
      StepCounts(y, op, cid);
      if cid in Run(s, ops).conns {
        RunKeepsSpent(s, ops[..|ops| - 1], cid, sid);
        match op
        case Config(c) => var _ := ConfigTables(y, c);
        case Message(k, r) =>
          if k == cid {
            RequestKeepsSpent(y.policy, y.conns[cid], y.ledger, r, sid);
          }
        case _ =>
      }
    }
  }

  /** A pending exchange completes into a session at most once. */
  lemma CompletesOnce(s: Server, cid: nat, sid: u64, first: Request, ops: seq<Op>, later: Request)
    requires AllNumbered(s) && cid in s.conns && Answered(s, cid, first) == SessionOpened(sid)
    requires var z := Run(Step(s, Message(cid, first)), ops); cid in z.conns && z.conns[cid].nextSession < U64
    ensures Answered(Run(Step(s, Message(cid, first)), ops), cid, later) != SessionOpened(sid)
  {
    hide Run;
    var s1 := Step(s, Message(cid, first));
    var z := Run(s1, ops);
    RunCounts(s1, ops, cid);
    CompletionSpends(s.policy, s.conns[cid], s.ledger, first, sid);
    RunKeepsSpent(s1, ops, cid, sid);
    RequestCounts(z.policy, z.conns[cid], z.ledger, later);
    RequestKeepsSpent(z.policy, z.conns[cid], z.ledger, later, sid);
  }

  lemma CompletionSpends(p: Policy, c: Conn, l: Ledger, r: Request, sid: u64)
    requires Numbered(c) && c.nextSession <= U64 && Serve(p, c, l, r).reply == SessionOpened(sid)
    ensures sid < Serve(p, c, l, r).conn.nextSession && sid !in Serve(p, c, l, r).conn.pending
  {
    hide Lookup, AnonymousAllowed, Authorize, CreateRefusal, Worth, TreesNumbered;
  }

  // ---- tree and file ids are issued once ----

  /** What became of a session, and of a tree in it, from `c` to `d`: gone for good, or its counter has not
      gone back. */
  ghost predicate Grew(c: Conn, d: Conn, sid: u64, tid: u32) {
    sid in d.sessions ==>
      && sid in c.sessions
      && var s, t := c.sessions[sid], d.sessions[sid];
         && s.nextTree <= t.nextTree
         && (tid < s.nextTree && t.nextTree <= U32 && tid in t.trees ==>
               tid in s.trees && s.trees[tid].nextVolatile <= t.trees[tid].nextVolatile)
  }

  lemma RequestGrows(p: Policy, c: Conn, l: Ledger, r: Request, sid: u64, tid: u32)
    requires sid !in c.pending
    ensures Grew(c, Serve(p, c, l, r).conn, sid, tid)
  {
    hide Lookup, AnonymousAllowed, Authorize, CreateRefusal, Worth;
  }

  lemma PartGrows(c: Conn, td: Option<Teardown>, sid: u64, tid: u32)
    ensures Grew(c, AfterTeardown(c, td), sid, tid)
  {
    hide Selects;
  }

  lemma StepGrows(s: Server, op: Op, cid: nat, sid: u64, tid: u32)
    requires Spent(s, cid, sid)
    ensures var z := Step(s, op); cid in z.conns ==> cid in s.conns && Grew(s.conns[cid], z.conns[cid], sid, tid)
  {
    hide Serve, Configure;
    match op
    case Config(c) =>
      var td := ConfigTables(s, c);
      if cid in s.conns {
        PartGrows(s.conns[cid], td, sid, tid);
      }
    case Message(k, r) =>
      if k == cid && k in s.conns {
        RequestGrows(s.policy, s.conns[k], s.ledger, r, sid, tid);
      }
    case _ =>
  }

  lemma {:induction false} RunGrows(s: Server, ops: seq<Op>, cid: nat, sid: u64, tid: u32)
    requires Spent(s, cid, sid)
    requires cid in Run(s, ops).conns ==> Run(s, ops).conns[cid].nextSession <= U64
    ensures var z := Run(s, ops); cid in z.conns ==> cid in s.conns && Grew(s.conns[cid], z.conns[cid], sid, tid)
  {
    hide Step, Spent;
    if ops != [] {
      var before, op := ops[..|ops| - 1], ops[|ops| - 1];
      var y := Run(s, before);
      assert cid < s.nextConn by { SpentId(s, cid, sid); }
      RunCounts(s, before, cid);
      StepCounts(y, op, cid);
      if cid in Run(s, ops).conns {
        RunKeepsSpent(s, before, cid, sid);
        RunGrows(s, before, cid, sid, tid);
        StepGrows(y, op, cid, sid, tid);
      }
    }
  }

  lemma SpentId(s: Server, cid: nat, sid: u64)
    requires Spent(s, cid, sid)
    ensures cid < s.nextConn
  {
  }

  /** A live session's exchange is over. */
  lemma LiveIsSpent(s: Server, cid: nat, sid: u64)
    requires AllNumbered(s) && cid in s.conns && sid in s.conns[cid].sessions && s.conns[cid].nextSession <= U64
    ensures Spent(s, cid, sid)
  {
    hide TreesNumbered;
  }

  /** The tree ids a request is answered with come off the session's counter. */
  lemma TreeAnswer(p: Policy, c: Conn, l: Ledger, sid: u64, share: Option<string>)
    requires Serve(p, c, l, TreeConnect(sid, share)).reply.TreeOpened?
    ensures var m := Serve(p, c, l, TreeConnect(sid, share));
            && sid in c.sessions && sid in m.conn.sessions && m.conn.nextSession == c.nextSession
            && m.conn.sessions[sid].nextTree == c.sessions[sid].nextTree + 1
            && m.reply.tid == c.sessions[sid].nextTree % U32
  {
    hide Lookup, Authorize, Worth;
  }

  /** Two tree ids issued in one session differ, whatever happens in between, until its counter wraps. */
  lemma TreeIdsNeverReissued(
    s: Server, cid: nat, sid: u64, first: Option<string>, ops: seq<Op>, later: Option<string>)
    requires AllNumbered(s) && cid in s.conns && Answered(s, cid, TreeConnect(sid, first)).TreeOpened?
    requires var z := Run(Step(s, Message(cid, TreeConnect(sid, first))), ops);
             && cid in z.conns && Answered(z, cid, TreeConnect(sid, later)).TreeOpened?
             && z.conns[cid].nextSession <= U64 && sid in z.conns[cid].sessions
             && z.conns[cid].sessions[sid].nextTree < U32
    ensures Answered(s, cid, TreeConnect(sid, first)).tid
          < Answered(Run(Step(s, Message(cid, TreeConnect(sid, first))), ops), cid, TreeConnect(sid, later)).tid
  {
    hide Serve, Run, Numbered;
    var op := Message(cid, TreeConnect(sid, first));
    var s1 := Step(s, op);
    var z := Run(s1, ops);
    StepNumbers(s, op);
    RunCounts(s1, ops, cid);
    TreeAnswer(s.policy, s.conns[cid], s.ledger, sid, first);
    LiveIsSpent(s1, cid, sid);
    RunGrows(s1, ops, cid, sid, 0);
    TreeAnswer(z.policy, z.conns[cid], z.ledger, sid, later);
  }

  /** Likewise the file ids, which come off the tree's counter. */
  lemma FileAnswer(p: Policy, c: Conn, l: Ledger, sid: u64, tid: u32, req: OpenRequest, answer: Answer)
    requires Serve(p, c, l, Create(sid, Some(tid), req, answer)).reply.FileOpened?
    ensures var m := Serve(p, c, l, Create(sid, Some(tid), req, answer));
            && HasTree(c, sid, tid) && HasTree(m.conn, sid, tid) && m.conn.nextSession == c.nextSession
            && m.conn.sessions[sid].nextTree == c.sessions[sid].nextTree
            && m.conn.sessions[sid].trees[tid].nextVolatile == c.sessions[sid].trees[tid].nextVolatile + 1
            && m.reply.fid.volatile_ == c.sessions[sid].trees[tid].nextVolatile % U64
  {
    hide CreateRefusal, Worth;
  }

  /** Two file ids issued in one tree differ, whatever happens in between, until a counter wraps. */
  lemma FileIdsNeverReissued(
    s: Server, cid: nat, sid: u64, tid: u32, req1: OpenRequest, answer1: Answer, ops: seq<Op>,
    req2: OpenRequest, answer2: Answer)
    requires AllNumbered(s) && cid in s.conns && Answered(s, cid, Create(sid, Some(tid), req1, answer1)).FileOpened?
    requires var z := Run(Step(s, Message(cid, Create(sid, Some(tid), req1, answer1))), ops);
             && cid in z.conns && Answered(z, cid, Create(sid, Some(tid), req2, answer2)).FileOpened?
             && Unwrapped(z.conns[cid]) && HasTree(z.conns[cid], sid, tid)
             && z.conns[cid].sessions[sid].trees[tid].nextVolatile < U64
    ensures Answered(s, cid, Create(sid, Some(tid), req1, answer1)).fid.volatile_
          < Answered(Run(Step(s, Message(cid, Create(sid, Some(tid), req1, answer1))), ops), cid,
                     Create(sid, Some(tid), req2, answer2)).fid.volatile_
  {
    hide Serve, Run;
    var op := Message(cid, Create(sid, Some(tid), req1, answer1));
    var s1 := Step(s, op);
    var z := Run(s1, ops);
    StepNumbers(s, op);
    RunCounts(s1, ops, cid);
    FileAnswer(s.policy, s.conns[cid], s.ledger, sid, tid, req1, answer1);
    LiveIsSpent(s1, cid, sid);
    RunGrows(s1, ops, cid, sid, tid);
    assert TreesNumbered(s1.conns[cid].sessions[sid]);
    FileAnswer(z.policy, z.conns[cid], z.ledger, sid, tid, req2, answer2);
  }
}
