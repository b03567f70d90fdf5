/** Handle ownership is linear: over every run, each backend handle ever given out is owned by exactly one
    open, was closed exactly once, or went with its connection. */
module Ownership {
  import opened Bytes
  import opened Sharing
  import opened Tallies
  import opened Sessions
  import opened Servers

  /** From owning `before` to owning `after`, the books stay balanced. */
  ghost predicate Keeps(before: Handles, l: Ledger, after: Handles, m: Ledger) {
    && l.issued <= m.issued
    && after + m.closed + m.dropped + FirstHandles(l.issued) == before + l.closed + l.dropped + FirstHandles(m.issued)
  }

  lemma OneMoreHandle(n: nat)
    ensures FirstHandles(n + 1) == FirstHandles(n) + multiset{n}
  {
  }

  lemma Cancel(x: Handles, s: Handles, c: Handles, t: Handles, a: Handles, b: Handles)
    requires x + s == c + t && t + a == s + b
    ensures x + a == c + b
  {
    forall h
      ensures (x + a)[h] == (c + b)[h]
    {
      assert (x + s)[h] == (c + t)[h] && (t + a)[h] == (s + b)[h];
    }
  }

  /** What leaves the owned side goes to the closed or the dropped one; what is new is issued. */
  lemma Books(x: Handles, w: Handles, c: Handles, o: Handles, closed: Handles, dropped: Handles, f: Handles)
    requires x + w == c + o
    ensures x + closed + (dropped + w) + f == c + closed + dropped + (f + o)
    ensures x + (closed + w) + dropped + f == c + closed + dropped + (f + o)
  {
    forall h
      ensures (x + closed + (dropped + w) + f)[h] == (c + closed + dropped + (f + o))[h]
      ensures (x + (closed + w) + dropped + f)[h] == (c + closed + dropped + (f + o))[h]
    {
      assert (x + w)[h] == (c + o)[h];
    }
  }

  lemma Settled(before: Handles, l: Ledger, after: Handles, w: Handles)
    requires after + w == before
    ensures Keeps(before, l, after, Dropping(l, w)) && Keeps(before, l, after, Closing(l, w))
  {
    hide FirstHandles;
    Books(after, w, before, multiset{}, l.closed, l.dropped, FirstHandles(l.issued));
  }

  lemma Still(hs: Handles, l: Ledger)
    ensures Keeps(hs, l, hs, l)
  {
  }

  // ---- one connection ----

  lemma SessionPut(c: Conn, sid: u64, s: Session)
    ensures ConnHandles(WithSession(c, sid, s)) + Worth(c.sessions, SessionHandles, sid)
         == ConnHandles(c) + SessionHandles(s)
  {
    TallyPut(c.sessions, SessionHandles, sid, s);
  }

  lemma TreePut(s: Session, tid: u32, t: Tree, next: nat)
    ensures SessionHandles(s.(nextTree := next, trees := s.trees[tid := t])) + Worth(s.trees, TreeHandles, tid)
         == SessionHandles(s) + TreeHandles(t)
  {
    TallyPut(s.trees, TreeHandles, tid, t);
  }

  /** Replacing one tree's opens changes the connection's handles by exactly that tree's. */
  lemma TreeReplaced(c: Conn, sid: u64, tid: u32, t: Tree)
    requires HasTree(c, sid, tid)
    ensures ConnHandles(WithTree(c, sid, tid, t)) + TreeHandles(c.sessions[sid].trees[tid])
         == ConnHandles(c) + TreeHandles(t)
  {
    hide Tally, TreeHandles, SessionHandles, ConnHandles;
    var s := c.sessions[sid];
    TreePut(s, tid, t, s.nextTree);
    var s1 := s.(trees := s.trees[tid := t]);
    assert s1 == s.(nextTree := s.nextTree, trees := s.trees[tid := t]);
    SessionPut(c, sid, s1);
    Cancel(ConnHandles(WithTree(c, sid, tid, t)), SessionHandles(s), ConnHandles(c), SessionHandles(s1),
           TreeHandles(s.trees[tid]), TreeHandles(t));
  }

  lemma TreeRemoved(c: Conn, sid: u64, tid: u32)
    requires HasTree(c, sid, tid)
    ensures ConnHandles(WithoutTree(c, sid, tid)) + TreeHandles(c.sessions[sid].trees[tid]) == ConnHandles(c)
  {
    hide Tally, TreeHandles, ConnHandles;
    var s := c.sessions[sid];
    TallyRemove(s.trees, TreeHandles, tid);
    var s1 := s.(trees := s.trees - {tid});
    SessionPut(c, sid, s1);
    Cancel(ConnHandles(WithoutTree(c, sid, tid)), SessionHandles(s), ConnHandles(c), SessionHandles(s1),
           TreeHandles(s.trees[tid]), multiset{});
  }

  lemma NewTreeOwnsNothing(share: Share, granted: Access)
    ensures TreeHandles(Tree(share, granted, 1, map[])) == multiset{}
  {
  }

  lemma NewSessionOwnsNothing(who: Identity)
    ensures SessionHandles(Session(who, 1, map[])) == multiset{}
  {
  }

  lemma FinishBalances(c: Conn, l: Ledger, sid: u64, claim: Claim, users: set<string>, anonymous: bool)
    ensures var m := FinishSetup(c, l, sid, claim, users, anonymous);
            Keeps(ConnHandles(c), l, ConnHandles(m.conn), m.ledger)
  {
    hide Tally, SessionHandles, FirstHandles, Keeps;
    var who := Prove(claim, users);
    if who.Some? {
      var s := Session(who.value, 1, map[]);
      NewSessionOwnsNothing(who.value);
      SessionPut(c, sid, s);
      Settled(ConnHandles(c), l, ConnHandles(WithSession(c, sid, s)), Worth(c.sessions, SessionHandles, sid));
    }
    Still(ConnHandles(c), l);
  }

  lemma ConnectBalances(c: Conn, l: Ledger, sid: u64, found: Option<(Share, Acl)>)
    ensures var m := ConnectTree(c, l, sid, found); Keeps(ConnHandles(c), l, ConnHandles(m.conn), m.ledger)
  {
    hide Tally, SessionHandles, TreeHandles, FirstHandles, ConnHandles, Authorize, Keeps;
    var m := ConnectTree(c, l, sid, found);
    if m.reply.TreeOpened? {
      var s := c.sessions[sid];
      var share := found.value.0;
      NewTreeOwnsNothing(share, m.reply.granted);
      var t, s1 := Tree(share, m.reply.granted, 1, map[]), m.conn.sessions[sid];
      TreePut(s, m.reply.tid, t, s.nextTree + 1);
      SessionPut(c, sid, s1);
      var lost := Worth(s.trees, TreeHandles, m.reply.tid);
      Cancel(ConnHandles(m.conn), SessionHandles(s), ConnHandles(c), SessionHandles(s1), lost, multiset{});
      Settled(ConnHandles(c), l, ConnHandles(m.conn), lost);
    } else {
      Still(ConnHandles(c), l);
    }
  }

  /** CREATE: an open handle is registered, one that cannot be statted is closed, and a refused request opens
      none; only what a wrapped id overwrites is lost. */
  lemma CreateBalances(c: Conn, l: Ledger, sid: u64, tid: Option<u32>, req: OpenRequest, answer: Answer)
    ensures var m := CreateFile(c, l, sid, tid, req, answer);
            && Keeps(ConnHandles(c), l, ConnHandles(m.conn), m.ledger)
            && (if m.reply.FileOpened? then
                  && HasTree(c, sid, tid.value) && m.ledger.issued == l.issued + 1 && m.ledger.closed == l.closed
                  && var lost := Worth(c.sessions[sid].trees[tid.value].opens, OpenHandles, m.reply.fid);
                     && m.ledger.dropped == l.dropped + lost
                     && ConnHandles(m.conn) + lost == ConnHandles(c) + multiset{l.issued}
                else
                  && m.conn == c && m.ledger.dropped == l.dropped
                  && m.ledger.closed == l.closed + (FirstHandles(m.ledger.issued) - FirstHandles(l.issued)))
  {
    hide Tally, SessionHandles, FirstHandles, ConnHandles, CreateRefusal;
    var m := CreateFile(c, l, sid, tid, req, answer);
    var minted, f := multiset{l.issued}, FirstHandles(l.issued);
    OneMoreHandle(l.issued);
    Books(ConnHandles(c), minted, ConnHandles(c), minted, l.closed, l.dropped, f);
    if m.reply.FileOpened? {
      var t, fid := c.sessions[sid].trees[tid.value], m.reply.fid;
      var t1 := m.conn.sessions[sid].trees[tid.value];
      TallyPut(t.opens, OpenHandles, fid, t1.opens[fid]);
      TreeReplaced(c, sid, tid.value, t1);
      var lost := Worth(t.opens, OpenHandles, fid);
      Cancel(ConnHandles(m.conn), TreeHandles(t), ConnHandles(c), TreeHandles(t1), lost, minted);
      Books(ConnHandles(m.conn), lost, ConnHandles(c), minted, l.closed, l.dropped, f);
    }
  }

  /** From `c` to `d` exactly the handles `hs` stop being owned, and they are closed. */
  ghost predicate Closes(c: Conn, l: Ledger, d: Conn, m: Ledger, hs: Handles) {
    ConnHandles(d) + hs == ConnHandles(c) && m == Closing(l, hs)
  }

  /** CLOSE closes the removed open's handle and no other. */
  lemma CloseBalances(c: Conn, l: Ledger, sid: u64, tid: Option<u32>, fid: FileId)
    ensures var m := CloseFile(c, l, sid, tid, fid);
            && Keeps(ConnHandles(c), l, ConnHandles(m.conn), m.ledger)
            && (m.reply.Done? ==>
                  && HasTree(c, sid, tid.value) && fid in c.sessions[sid].trees[tid.value].opens
                  && HasTree(m.conn, sid, tid.value) && fid !in m.conn.sessions[sid].trees[tid.value].opens
                  && Closes(c, l, m.conn, m.ledger, OpenHandles(c.sessions[sid].trees[tid.value].opens[fid])))
            && (!m.reply.Done? ==> m.conn == c && m.ledger == l)
  {
    hide Tally, SessionHandles, FirstHandles, ConnHandles, OpenHandles;
    var m := CloseFile(c, l, sid, tid, fid);
    if m.reply.Done? {
      var t := c.sessions[sid].trees[tid.value];
      TallyRemove(t.opens, OpenHandles, fid);
      var t1 := t.(opens := t.opens - {fid});
      TreeReplaced(c, sid, tid.value, t1);
      Cancel(ConnHandles(m.conn), TreeHandles(t), ConnHandles(c), TreeHandles(t1), OpenHandles(t.opens[fid]),
          multiset{});
      Settled(ConnHandles(c), l, ConnHandles(m.conn), OpenHandles(t.opens[fid]));
    }
  }

  /** LOGOFF closes what the removed session's trees own, TREE_DISCONNECT what the removed tree owns, and
      nothing else. */
  lemma TeardownBalances(c: Conn, l: Ledger, sid: u64, tid: Option<u32>)
    ensures var m := Logoff(c, l, sid);
            && Keeps(ConnHandles(c), l, ConnHandles(m.conn), m.ledger)
            && (m.reply.Done? ==>
                  && sid !in m.conn.sessions
                  && Closes(c, l, m.conn, m.ledger, Worth(c.sessions, SessionHandles, sid)))
            && (!m.reply.Done? ==> m.conn == c && m.ledger == l)
    ensures var m := DisconnectTree(c, l, sid, tid);
            && Keeps(ConnHandles(c), l, ConnHandles(m.conn), m.ledger)
            && (m.reply.Done? ==>
                  && HasTree(c, sid, tid.value) && !HasTree(m.conn, sid, tid.value)
                  && Closes(c, l, m.conn, m.ledger, TreeHandles(c.sessions[sid].trees[tid.value])))
            && (!m.reply.Done? ==> m.conn == c && m.ledger == l)
  {
    hide Tally, SessionHandles, FirstHandles;
    TallyAt(c.sessions, SessionHandles, sid);
    Settled(ConnHandles(c), l, ConnHandles(Logoff(c, l, sid).conn),
            if sid == 0 then multiset{} else Worth(c.sessions, SessionHandles, sid));
    if TreeRefusal(c, sid, tid).None? {
      TreeRemoved(c, sid, tid.value);
      Settled(ConnHandles(c), l, ConnHandles(WithoutTree(c, sid, tid.value)),
          TreeHandles(c.sessions[sid].trees[tid.value]));
    }
  }

  lemma RequestBalances(p: Policy, c: Conn, l: Ledger, r: Request)
    ensures var m := Serve(p, c, l, r); Keeps(ConnHandles(c), l, ConnHandles(m.conn), m.ledger)
  {
    hide FinishSetup, ConnectTree, CreateFile, CloseFile, Logoff, DisconnectTree, Lookup, FirstHandles, Tally,
         Closes, Worth, HasTree, AnonymousAllowed;
    match r
    case SetupReply(sid, claim) => FinishBalances(c, l, sid, claim, p.users, AnonymousAllowed(p));
    case TreeConnect(sid, share) =>
      if share.Some? {
        ConnectBalances(c, l, sid, Lookup(p, share.value));
      }
    case TreeDisconnect(sid, tid) => TeardownBalances(c, l, sid, tid);
    case LogOff(sid) => TeardownBalances(c, l, sid, None);
    case Create(sid, tid, req, answer) => CreateBalances(c, l, sid, tid, req, answer);
    case Close(sid, tid, fid) => CloseBalances(c, l, sid, tid, fid);
    case _ =>
  }

  // ---- teardown splits what a connection owns ----

  lemma TreesSplit(s: Session, sel: Selector)
    ensures SessionHandles(s) == SessionHandles(SelectTrees(s, sel, true)) + SessionHandles(SelectTrees(s, sel, false))
  {
    hide Tally, Selects, TreeHandles;
    TallySplit(s.trees, SelectTrees(s, sel, true).trees, SelectTrees(s, sel, false).trees, TreeHandles);
  }

  lemma PartSplits(c: Conn, td: Teardown)
    ensures ConnHandles(c) == ConnHandles(Part(c, td, true)) + ConnHandles(Part(c, td, false))
  {
    hide Tally, SelectTrees, SessionHandles;
    var a, b := Part(c, td, true).sessions, Part(c, td, false).sessions;
    forall sid
      ensures Worth(c.sessions, SessionHandles, sid) == Worth(a, SessionHandles, sid) + Worth(b, SessionHandles, sid)
    {
      if td.Trees? && sid in c.sessions {
        TreesSplit(c.sessions[sid], td.sel);
      }
    }
    TallySplit(c.sessions, a, b, SessionHandles);
  }

  /** A teardown on all connections divides the owned handles into those it closes and those it keeps; while
      the books balance no handle is on both sides. */
  lemma EverywhereSplits(conns: map<nat, Conn>, td: Teardown)
    ensures ServerHandles(conns) == ServerHandles(PartAll(conns, td, true)) + ServerHandles(PartAll(conns, td, false))
    ensures forall l :: Balanced(ServerHandles(conns), l) ==>
              ServerHandles(PartAll(conns, td, true)) !! ServerHandles(PartAll(conns, td, false))
  {
    ServerSplits(conns, td);
    forall l | Balanced(ServerHandles(conns), l)
      ensures ServerHandles(PartAll(conns, td, true)) !! ServerHandles(PartAll(conns, td, false))
    {
      OneSide(ServerHandles(PartAll(conns, td, true)), ServerHandles(PartAll(conns, td, false)), l);
    }
  }

  lemma OneSide(a: Handles, b: Handles, l: Ledger)
    requires Balanced(a + b, l)
    ensures a !! b
  {
    hide FirstHandles;
    forall h: nat
      ensures a[h] + b[h] <= 1
    {
      FirstHandlesOnce(l.issued, h);
      assert (a + b + l.closed + l.dropped)[h] == FirstHandles(l.issued)[h];
    }
  }

  lemma ServerSplits(conns: map<nat, Conn>, td: Teardown)
    ensures ServerHandles(conns) == ServerHandles(PartAll(conns, td, true)) + ServerHandles(PartAll(conns, td, false))
  {
    hide Tally, Part, ConnHandles;
    var a, b := PartAll(conns, td, true), PartAll(conns, td, false);
    forall k
      ensures Worth(conns, ConnHandles, k) == Worth(a, ConnHandles, k) + Worth(b, ConnHandles, k)
    {
      if k in conns {
        PartSplits(conns[k], td);
      }
    }
    TallySplit(conns, a, b, ConnHandles);
  }

  // ---- the server ----

  lemma ConfigBalances(s: Server, op: ConfigOp)
    ensures var z := Configure(s, op).0; Keeps(ServerHandles(s.conns), s.ledger, ServerHandles(z.conns), z.ledger)
  {
    hide Configure, Effect, ServerHandles, FirstHandles, PartAll, Balanced;
    if Configure(s, op).1.Some? {
      FailedCallChangesNothing(s, op);
    } else {
      EffectIsTheStep(s, op);
      if Effect(s, op).1.Some? {
        var td := Effect(s, op).1.value;
        EverywhereSplits(s.conns, td);
        Settled(ServerHandles(s.conns), s.ledger, ServerHandles(PartAll(s.conns, td, false)),
            ServerHandles(PartAll(s.conns, td, true)));
      }
    }
  }

  /** Books balanced for a part are balanced for the whole. */
  lemma Within(after: Handles, part: Handles, before: Handles, l: Ledger, part1: Handles, m: Ledger)
    requires Keeps(part, l, part1, m) && after + part == before + part1
    ensures Keeps(before, l, after, m)
  {
    var f, g := FirstHandles(l.issued), FirstHandles(m.issued);
    forall h
      ensures (after + m.closed + m.dropped + f)[h] == (before + l.closed + l.dropped + g)[h]
    {
      assert (after + part)[h] == (before + part1)[h];
      assert (part1 + m.closed + m.dropped + f)[h] == (part + l.closed + l.dropped + g)[h];
    }
  }

  lemma StepBalances(s: Server, op: Op)
    requires s.nextConn !in s.conns
    ensures var z := Step(s, op); Keeps(ServerHandles(s.conns), s.ledger, ServerHandles(z.conns), z.ledger)
  {
    hide Configure, Serve, FirstHandles, Tally, ConnHandles;
    var owned, z := ServerHandles(s.conns), Step(s, op);
    match op
    case Accept =>
      FreshOwnsNothing();
      TallyPut(s.conns, ConnHandles, s.nextConn, FRESH_CONN);
      Nothing(ServerHandles(z.conns));
      Nothing(owned);
      Still(owned, s.ledger);
    case Hangup(cid) =>
      TallyAt(s.conns, ConnHandles, cid);
      Settled(owned, s.ledger, ServerHandles(z.conns), Worth(s.conns, ConnHandles, cid));
    case Config(c) => ConfigBalances(s, c);
    case Message(cid, request) =>
      if cid in s.conns {
        var m := Serve(s.policy, s.conns[cid], s.ledger, request);
        RequestBalances(s.policy, s.conns[cid], s.ledger, request);
        TallyPut(s.conns, ConnHandles, cid, m.conn);
        Within(ServerHandles(z.conns), ConnHandles(s.conns[cid]), owned, s.ledger, ConnHandles(m.conn), m.ledger);
      }
  }

  lemma FreshOwnsNothing()
    ensures ConnHandles(FRESH_CONN) == multiset{}
  {
  }

  ghost predicate Accounted(s: Server) {
    && (forall k :: k in s.conns ==> k < s.nextConn)
    && Balanced(ServerHandles(s.conns), s.ledger)
  }

  lemma StillBalanced(before: Handles, l: Ledger, after: Handles, m: Ledger)
    requires Balanced(before, l) && Keeps(before, l, after, m)
    ensures Balanced(after, m)
  {
    var f, g := FirstHandles(l.issued), FirstHandles(m.issued);
    forall h
      ensures (after + m.closed + m.dropped)[h] == g[h]
    {
      assert (before + l.closed + l.dropped)[h] == f[h];
      assert (after + m.closed + m.dropped + f)[h] == (before + l.closed + l.dropped + g)[h];
    }
  }

  lemma StepAccounts(s: Server, op: Op)
    requires Accounted(s)
    ensures Accounted(Step(s, op))
  {
    hide Serve, ServerHandles, FirstHandles, Configure, Effect, PartAll;
    StepBalances(s, op);
    StillBalanced(ServerHandles(s.conns), s.ledger, ServerHandles(Step(s, op).conns), Step(s, op).ledger);
    if op.Config? {
      if Configure(s, op.op).1.Some? {
        FailedCallChangesNothing(s, op.op);
      } else {
        EffectIsTheStep(s, op.op);
      }
    }
  }

  lemma {:induction false} RunAccounts(s: Server, ops: seq<Op>)
    requires Accounted(s)
    ensures Accounted(Run(s, ops))
  {
    hide Step, Accounted;
    if ops != [] {
      RunAccounts(s, ops[..|ops| - 1]);
      StepAccounts(Run(s, ops[..|ops| - 1]), ops[|ops| - 1]);
    }
  }

  lemma NothingYet()
    ensures Balanced(ServerHandles(map[]), NO_LEDGER)
  {
  }

  /** Linear ownership: after any run each handle given out counts exactly once among those owned by the
      opens of live trees, those closed, and those that went unclosed; no other handle counts at all. */
  lemma OwnershipIsLinear(users: set<string>, decls: seq<ShareDecl>, ops: seq<Op>, h: nat)
    ensures var z := Run(Initial(users, decls), ops);
            ServerHandles(z.conns)[h] + z.ledger.closed[h] + z.ledger.dropped[h] == if h < z.ledger.issued then 1 else 0
  {
    hide Run, ServerHandles, FirstHandles;
    NothingYet();
    RunAccounts(Initial(users, decls), ops);
    FirstHandlesOnce(Run(Initial(users, decls), ops).ledger.issued, h);
  }
}
