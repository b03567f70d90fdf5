/** One connection's tables updated in place: the teardown loops and the request handlers. */
module Connections {
  import opened Bytes
  import opened NtStatus
  import opened Sharing
  import opened Tallies
  import opened Sessions

  /** What the backends are asked to do, and what becomes of their handles. */
  class Backend {
    var issued: nat
    var closed: Handles
    ghost var dropped: Handles

    constructor ()
      ensures View() == Ledger(0, multiset{}, multiset{})
    {
      issued, closed, dropped := 0, multiset{}, multiset{};
    }

    ghost function View(): Ledger
      reads this
    {
      Ledger(issued, closed, dropped)
    }

    method OpenHandle() returns (h: nat)
      modifies this`issued
      ensures h == old(issued) && View() == old(View()).(issued := h + 1)
    {
      h := issued;
      issued := issued + 1;
    }

    method CloseHandle(h: nat)
      modifies this`closed
      ensures View() == Closing(old(View()), multiset{h})
    {
      closed := closed + multiset{h};
    }
  }

  /** `handle.take()` and close. */
  method CloseOpen(o: Open, b: Backend)
    modifies b`closed
    ensures b.View() == Closing(old(b.View()), OpenHandles(o))
  {
    if o.handle.Some? {
      b.CloseHandle(o.handle.value);
    }
  }

  /** `close_tree_state`: drain the opens, closing each handle. */
  method CloseTreeState(t: Tree, b: Backend)
    modifies b`closed
    ensures b.View() == Closing(old(b.View()), TreeHandles(t))
  {
    hide Tally, OpenHandles, ClosedSoFar, Closing;
    ghost var l := b.View();
    ClosedEnds(l, TreeHandles(t));
    var opens := t.opens;
    while opens.Keys != {}
      invariant ClosedSoFar(b.View(), l, Tally(opens, OpenHandles), TreeHandles(t))
      decreases |opens.Keys|
    {
      var fid :| fid in opens.Keys;
      TallyRemove(opens, OpenHandles, fid);
      ClosedMore(b.View(), l, Tally(opens, OpenHandles), TreeHandles(t), OpenHandles(opens[fid]),
          Tally(opens - {fid}, OpenHandles));
      CloseOpen(opens[fid], b);
      opens := opens - {fid};
    }
    TallyNone(opens, OpenHandles);
  }

  /** `close_session_state`. */
  method CloseSessionState(s: Session, b: Backend)
    modifies b`closed
    ensures b.View() == Closing(old(b.View()), SessionHandles(s))
  {
    hide Tally, TreeHandles, ClosedSoFar, Closing;
    ghost var l := b.View();
    ClosedEnds(l, SessionHandles(s));
    var trees := s.trees;
    while trees.Keys != {}
      invariant ClosedSoFar(b.View(), l, Tally(trees, TreeHandles), SessionHandles(s))
      decreases |trees.Keys|
    {
      var tid :| tid in trees.Keys;
      TallyRemove(trees, TreeHandles, tid);
      ClosedMore(b.View(), l, Tally(trees, TreeHandles), SessionHandles(s), TreeHandles(trees[tid]),
          Tally(trees - {tid}, TreeHandles));
      CloseTreeState(trees[tid], b);
      trees := trees - {tid};
    }
    TallyNone(trees, TreeHandles);
  }

  // ---- the teardown loops' bookkeeping ----

  lemma UserSessions(m: map<u64, Session>, user: string)
    ensures var gone := SessionsWhere(m, user, true);
            && gone.Keys == (set sid | sid in m && m[sid].identity == User(user))
            && (forall sid :: sid in gone ==> gone[sid] == m[sid])
            && m - gone.Keys == SessionsWhere(m, user, false)
  {
  }

  lemma SelectedTrees(s: Session, sel: Selector)
    ensures var gone := SelectTrees(s, sel, true).trees;
            && gone.Keys == (set tid | tid in s.trees && Selects(sel, s.identity, s.trees[tid]))
            && (forall tid :: tid in gone ==> gone[tid] == s.trees[tid])
            && s.(trees := s.trees - gone.Keys) == SelectTrees(s, sel, false)
            && s.(trees := gone) == SelectTrees(s, sel, true)
  {
    hide Selects;
    assert s.trees - SelectTrees(s, sel, true).trees.Keys == SelectTrees(s, sel, false).trees;
  }

  lemma ClosedOne(c: Conn, l: Ledger, was: map<u64, Session>, done: set<u64>, sid: u64)
    requires sid in was && sid !in done && c.sessions == was - done
    ensures Sessions.CloseSession(c, l, sid)
         == (c.(sessions := was - (done + {sid})), Closing(l, SessionHandles(was[sid])))
  {
    hide SessionHandles;
    assert was - done - {sid} == was - (done + {sid});
  }

  /** A session's trees but for those in `done`. */
  ghost function Left(c: Conn, sid: u64, done: set<u32>): Conn
    requires sid in c.sessions
  {
    WithSession(c, sid, c.sessions[sid].(trees := c.sessions[sid].trees - done))
  }

  lemma LeftAll(c: Conn, sid: u64)
    requires sid in c.sessions
    ensures Left(c, sid, {}) == c
  {
    assert c.sessions[sid].trees - {} == c.sessions[sid].trees;
    assert c.sessions[sid := c.sessions[sid]] == c.sessions;
  }

  lemma LeftLess(c: Conn, sid: u64, done: set<u32>, tid: u32)
    requires HasTree(c, sid, tid) && tid !in done
    ensures var l := Left(c, sid, done);
            && HasTree(l, sid, tid) && l.sessions[sid].trees[tid] == c.sessions[sid].trees[tid]
            && WithoutTree(l, sid, tid) == Left(c, sid, done + {tid})
  {
    assert c.sessions[sid].trees - done - {tid} == c.sessions[sid].trees - (done + {tid});
  }

  lemma LeftNone(c: Conn, sid: u64, sel: Selector)
    requires sid in c.sessions
    ensures Left(c, sid, SelectTrees(c.sessions[sid], sel, true).trees.Keys)
         == WithSession(c, sid, SelectTrees(c.sessions[sid], sel, false))
  {
    SelectedTrees(c.sessions[sid], sel);
  }

  /** The sessions with the matching trees of those in `done` already torn down. */
  ghost function Pruned(m: map<u64, Session>, sel: Selector, done: set<u64>): map<u64, Session> {
    map sid | sid in m :: if sid in done then SelectTrees(m[sid], sel, false) else m[sid]
  }

  lemma SelectedSessions(m: map<u64, Session>, sel: Selector)
    ensures Pruned(m, sel, {}) == m && Pruned(m, sel, m.Keys) == TreesWhere(m, sel, false)
    ensures forall sid :: sid in m ==> TreesWhere(m, sel, true)[sid] == SelectTrees(m[sid], sel, true)
  {
    hide SelectTrees;
  }

  lemma PrunedOne(m: map<u64, Session>, sel: Selector, done: set<u64>, sid: u64)
    requires sid in m && sid !in done
    ensures sid in Pruned(m, sel, done) && Pruned(m, sel, done)[sid] == m[sid]
    ensures Pruned(m, sel, done)[sid := SelectTrees(m[sid], sel, false)] == Pruned(m, sel, done + {sid})
  {
    hide SelectTrees;
  }

  class Connection {
    const id: nat
    var negotiated: bool
    var nextSession: nat
    var pending: set<u64>
    var sessions: map<u64, Session>

    constructor (id: nat)
      ensures this.id == id && View() == FRESH_CONN
    {
      this.id := id;
      negotiated, nextSession, pending, sessions := false, 1, {}, map[];
    }

    ghost function View(): Conn
      reads this
    {
      Conn(negotiated, nextSession, pending, sessions)
    }

    method CloseSession(sid: u64, b: Backend) returns (found: bool)
      modifies this`sessions, b`closed
      ensures (View(), b.View()) == Sessions.CloseSession(old(View()), old(b.View()), sid)
      ensures found == (sid in old(sessions))
    {
      found := sid in sessions;
      if found {
        var s := sessions[sid];
        sessions := sessions - {sid};
        CloseSessionState(s, b);
      } else {
        assert sessions - {sid} == sessions;
        Nothing(b.closed);
      }
    }

    /** `close_tree`, through `remove_tree_from_session`. */
    method CloseTree(sid: u64, tid: u32, b: Backend) returns (found: bool)
      modifies this`sessions, b`closed
      ensures found == HasTree(old(View()), sid, tid)
      ensures !found ==> (View(), b.View()) == (old(View()), old(b.View()))
      ensures found ==> View() == WithoutTree(old(View()), sid, tid)
      ensures found ==> b.View() == Closing(old(b.View()), TreeHandles(old(sessions)[sid].trees[tid]))
    {
      if sid !in sessions || tid !in sessions[sid].trees {
        return false;
      }
      var s := sessions[sid];
      sessions := sessions[sid := s.(trees := s.trees - {tid})];
      CloseTreeState(s.trees[tid], b);
      return true;
    }

    method CloseSessionsForUser(user: string, b: Backend)
      modifies this`sessions, b`closed
      ensures View() == old(View()).(sessions := SessionsWhere(old(sessions), user, false))
      ensures b.View() == Closing(old(b.View()), SessionsHandles(SessionsWhere(old(sessions), user, true)))
    {
      hide SessionHandles, Tally, SessionsWhere, Remaining, Sessions.CloseSession, ClosedSoFar, Closing;
      ghost var l := b.View();
      ghost var was, gone := sessions, SessionsWhere(sessions, user, true);
      UserSessions(was, user);
      ClosedEnds(l, SessionsHandles(gone));
      var ids := set sid | sid in sessions && sessions[sid].identity == User(user);
      assert ids == gone.Keys;
      ghost var done: set<u64> := {};
      Untouched(was, gone);
      while ids != {}
        invariant Remaining(ids, done, gone.Keys)
        invariant View() == old(View()).(sessions := was - done)
        invariant ClosedSoFar(b.View(), l, Tally(gone - done, SessionHandles), SessionsHandles(gone))
        decreases |ids|
      {
        var sid :| sid in ids;
        Another(ids, done, gone.Keys, sid);
        ClosedOne(View(), b.View(), was, done, sid);
        OneMore(was, gone, done, SessionHandles, sid);
        ClosedMore(b.View(), l, Tally(gone - done, SessionHandles), SessionsHandles(gone), SessionHandles(gone[sid]),
                   Tally(gone - (done + {sid}), SessionHandles));
        var found := CloseSession(sid, b);
        ids, done := ids - {sid}, done + {sid};
      }
      AllDone(done, gone);
      TallyNone(gone - done, SessionHandles);
    }

    /** `close_matching_trees`. */
    method CloseMatchingTrees(sel: Selector, b: Backend)
      modifies this`sessions, b`closed
      ensures View() == old(View()).(sessions := TreesWhere(old(sessions), sel, false))
      ensures b.View() == Closing(old(b.View()), SessionsHandles(TreesWhere(old(sessions), sel, true)))
    {
      hide SessionHandles, Tally, TreesWhere, SelectTrees, Pruned, Remaining, ClosedSoFar, Closing;
      ghost var l := b.View();
      ghost var was, gone := sessions, TreesWhere(sessions, sel, true);
      SelectedSessions(was, sel);
      ClosedEnds(l, SessionsHandles(gone));
      var sids := sessions.Keys;
      ghost var done: set<u64> := {};
      Untouched(was, gone);
      while sids != {}
        invariant Remaining(sids, done, gone.Keys)
        invariant View() == old(View()).(sessions := Pruned(was, sel, done))
        invariant ClosedSoFar(b.View(), l, Tally(gone - done, SessionHandles), SessionsHandles(gone))
        decreases |sids|
      {
        var sid :| sid in sids;
        Another(sids, done, gone.Keys, sid);
        PrunedOne(was, sel, done, sid);
        OneMore(was, gone, done, SessionHandles, sid);
        ClosedMore(b.View(), l, Tally(gone - done, SessionHandles), SessionsHandles(gone), SessionHandles(gone[sid]),
                   Tally(gone - (done + {sid}), SessionHandles));
        CloseTreesOf(sid, sel, b);
        sids, done := sids - {sid}, done + {sid};
      }
      AllDone(done, gone);
      TallyNone(gone - done, SessionHandles);
    }

    /** The inner loop: one session's matching trees. */
    method CloseTreesOf(sid: u64, sel: Selector, b: Backend)
      requires sid in sessions
      modifies this`sessions, b`closed
      ensures View() == WithSession(old(View()), sid, SelectTrees(old(sessions)[sid], sel, false))
      ensures b.View() == Closing(old(b.View()), SessionHandles(SelectTrees(old(sessions)[sid], sel, true)))
    {
      hide TreeHandles, Tally, Selects, SelectTrees, Left, WithoutTree, HasTree, Remaining, ClosedSoFar, Closing;
      ghost var l := b.View();
      ghost var s := sessions[sid];
      ghost var gone := SelectTrees(s, sel, true).trees;
      SelectedTrees(s, sel);
      ClosedEnds(l, Tally(gone, TreeHandles));
      var tids := set tid | tid in sessions[sid].trees && Selects(sel, sessions[sid].identity,
          sessions[sid].trees[tid]);
      assert tids == gone.Keys;
      ghost var done: set<u32> := {};
      Untouched(s.trees, gone);
      ghost var c0 := View();
      LeftAll(c0, sid);
      while tids != {}
        invariant Remaining(tids, done, gone.Keys)
        invariant View() == Left(c0, sid, done)
        invariant ClosedSoFar(b.View(), l, Tally(gone - done, TreeHandles), Tally(gone, TreeHandles))
        decreases |tids|
      {
        var tid :| tid in tids;
        Another(tids, done, gone.Keys, tid);
        LeftLess(c0, sid, done, tid);
        OneMore(s.trees, gone, done, TreeHandles, tid);
        ClosedMore(b.View(), l, Tally(gone - done, TreeHandles), Tally(gone, TreeHandles), TreeHandles(gone[tid]),
                   Tally(gone - (done + {tid}), TreeHandles));
        var found := CloseTree(sid, tid, b);
        tids, done := tids - {tid}, done + {tid};
      }
      AllDone(done, gone);
      TallyNone(gone - done, TreeHandles);
      LeftNone(c0, sid, sel);
    }

    // ---- request handlers ----

    method Negotiate()
      modifies this`negotiated
      ensures View() == old(View()).(negotiated := true)
    {
      negotiated := true;
    }

    method AllocSessionId() returns (sid: u64)
      modifies this`nextSession
      ensures sid == old(nextSession) % U64 && View() == old(View()).(nextSession := old(nextSession) + 1)
    {
      sid := nextSession % U64;
      nextSession := nextSession + 1;
    }

    /** `session_setup::handle`, first round. */
    method OpenSetup(accepted: bool, b: Backend) returns (r: Reply)
      modifies this`nextSession, this`pending
      ensures Moved(View(), b.View(), r) == Sessions.OpenSetup(old(View()), old(b.View()), accepted)
    {
      var sid := AllocSessionId();
      if !accepted {
        return Refused(STATUS_LOGON_FAILURE);
      }
      pending := pending + {sid};
      return SessionPending(sid);
    }

    /** `session_setup::handle`, second round. */
    method FinishSetup(sid: u64, claim: Claim, users: set<string>, anonymous: bool, b: Backend) returns (r: Reply)
      modifies this`pending, this`sessions, b`dropped
      ensures Moved(View(), b.View(), r)
           == Sessions.FinishSetup(old(View()), old(b.View()), sid, claim, users, anonymous)
    {
      if sid == 0 {
        return Refused(STATUS_INVALID_PARAMETER);
      }
      if sid !in pending {
        return Refused(STATUS_USER_SESSION_DELETED);
      }
      pending := pending - {sid};
      var who := Prove(claim, users);
      if who.None? || (who.value.Anonymous? && !anonymous) {
        return Refused(STATUS_LOGON_FAILURE);
      }
      if !negotiated {
        return Refused(STATUS_INVALID_PARAMETER);
      }
      b.dropped := b.dropped + Worth(sessions, SessionHandles, sid);
      sessions := sessions[sid := Session(who.value, 1, map[])];
      return SessionOpened(sid);
    }

    /** `tree_connect::handle`, after the share was looked up. */
    method ConnectTree(sid: u64, found: Option<(Share, Acl)>, b: Backend) returns (r: Reply)
      modifies this`sessions, b`dropped
      ensures Moved(View(), b.View(), r) == Sessions.ConnectTree(old(View()), old(b.View()), sid, found)
    {
      if sid == 0 || sid !in sessions {
        return Refused(STATUS_USER_SESSION_DELETED);
      }
      var s := sessions[sid];
      if found.None? {
        return Refused(STATUS_BAD_NETWORK_NAME);
      }
      var (share, acl) := found.value;
      var allowed := Authorize(acl, s.identity);
      if allowed.None? {
        return Refused(STATUS_ACCESS_DENIED);
      }
      var granted := if share.readOnly then allowed.value.ClampTo(Read) else allowed.value;
      var tid: u32 := s.nextTree % U32;
      b.dropped := b.dropped + Worth(s.trees, TreeHandles, tid);
      var t := Tree(share, granted, 1, map[]);
      sessions := sessions[sid := s.(nextTree := s.nextTree + 1, trees := s.trees[tid := t])];
      return TreeOpened(tid, granted);
    }

    /** `create::handle`: open, stat, register. */
    method CreateFile(sid: u64, tid: Option<u32>, req: OpenRequest, answer: Answer, b: Backend) returns (r: Reply)
      modifies this`sessions, b
      ensures Moved(View(), b.View(), r)
           == Sessions.CreateFile(old(View()), old(b.View()), sid, tid, req, answer)
    {
      var refusal := TreeRefusal(Conn(negotiated, nextSession, pending, sessions), sid, tid);
      if refusal.Some? {
        return Refused(refusal.value);
      }
      var s := sessions[sid];
      var t := s.trees[tid.value];
      refusal := CreateRefusal(req, t.granted);
      if refusal.Some? {
        return Refused(refusal.value);
      }
      if answer.OpenFailed? {
        return Refused(answer.status);
      }
      var h := b.OpenHandle();
      if answer.StatFailed? {
        b.CloseHandle(h);
        return Refused(answer.status);
      }
      var v: u64 := t.nextVolatile % U64;
      var fid := FileId(v, v);
      var o := Open(Some(h), if req.write then t.granted else Read, Mutating(req));
      b.dropped := b.dropped + Worth(t.opens, OpenHandles, fid);
      t := t.(nextVolatile := t.nextVolatile + 1, opens := t.opens[fid := o]);
      sessions := sessions[sid := s.(trees := s.trees[tid.value := t])];
      return FileOpened(fid);
    }

    /** `close::handle`: remove the open, take its handle, close it. */
    method CloseFile(sid: u64, tid: Option<u32>, fid: FileId, b: Backend) returns (r: Reply)
      modifies this`sessions, b`closed
      ensures Moved(View(), b.View(), r) == Sessions.CloseFile(old(View()), old(b.View()), sid, tid, fid)
    {
      var refusal := TreeRefusal(Conn(negotiated, nextSession, pending, sessions), sid, tid);
      if refusal.Some? {
        return Refused(refusal.value);
      }
      var s := sessions[sid];
      var t := s.trees[tid.value];
      if fid !in t.opens {
        return Refused(STATUS_FILE_CLOSED);
      }
      sessions := sessions[sid := s.(trees := s.trees[tid.value := t.(opens := t.opens - {fid})])];
      CloseOpen(t.opens[fid], b);
      return Done;
    }

    /** `logoff::handle`. */
    method Logoff(sid: u64, b: Backend) returns (r: Reply)
      modifies this`sessions, b`closed
      ensures Moved(View(), b.View(), r) == Sessions.Logoff(old(View()), old(b.View()), sid)
    {
      if sid == 0 {
        return Refused(STATUS_USER_SESSION_DELETED);
      }
      var found := CloseSession(sid, b);
      return Done;
    }

    /** `tree_disconnect::handle`. */
    method DisconnectTree(sid: u64, tid: Option<u32>, b: Backend) returns (r: Reply)
      modifies this`sessions, b`closed
      ensures Moved(View(), b.View(), r) == Sessions.DisconnectTree(old(View()), old(b.View()), sid, tid)
    {
      if tid.None? {
        return Refused(STATUS_INVALID_PARAMETER);
      }
      if sid == 0 || sid !in sessions {
        return Refused(STATUS_USER_SESSION_DELETED);
      }
      var found := CloseTree(sid, tid.value, b);
      if !found {
        return Refused(STATUS_NETWORK_NAME_DELETED);
      }
      return Done;
    }
  }
}
