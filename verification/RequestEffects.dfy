/** What each request means to its client: when a session, a tree and an open come to be, with which rights, and which
    status refuses a request. */
module RequestEffects {
  import opened Bytes
  import opened Sharing
  import opened Sessions
  import opened Servers
  import ConfigEffects
  import NtStatus
  import Tallies

  /** A session is opened only by an exchange that was pending, for a user whose proof holds and who is in the
      table, or anonymously while some registered share is public. */
  lemma SessionOpenedMeans(p: Policy, c: Conn, l: Ledger, sid: u64, claim: Claim)
    ensures var m := Serve(p, c, l, SetupReply(sid, claim));
            var known := claim.Somebody? && claim.proven && claim.user in p.users;
            var anonymous := claim.Nobody?
                             && exists key :: key in p.byName && AclOf(p, p.byName[key]).mode != AuthenticatedOnly;
            && (m.reply == SessionOpened(sid) <==> sid != 0 && sid in c.pending && c.negotiated && (known || anonymous))
            && (m.reply == SessionOpened(sid) ==>
                  && sid in m.conn.sessions
                  && m.conn.sessions[sid].identity == if known then User(claim.user) else Anonymous)
  {
    hide Tallies.Worth;
  }

  /** CREATE reaches the backend exactly when the name is good, the disposition known, writing and creating go to
      a writable tree, and the directory options are consistent. */
  lemma CreateReachesBackendIff(req: OpenRequest, granted: Access)
    ensures CreateRefusal(req, granted).None? <==>
      && req.nameValid && req.intent.Some?
      && (granted == ReadWrite || (!req.write && req.intent.value == OpenExisting))
      && (req.directory ==>
            !req.nonDirectory && !req.stream && req.intent.value != OverwriteOrCreate && req.intent.value != Truncate)
  {
  }

  /** TREE_CONNECT by name: `IPC$` is always the synthetic share, for reading; any other name is the share registered
      under it ignoring case, open to all if public, else to the users listed; nothing else changes. */
  lemma ConnectMeans(p: Policy, c: Conn, l: Ledger, sid: u64, name: string)
    requires PolicyOk(p) && sid != 0 && sid in c.sessions
    ensures var m := Serve(p, c, l, TreeConnect(sid, Some(name)));
            var who := c.sessions[sid].identity;
            var list := if ConfigEffects.SameName(name, "IPC$") then Some(Acl(PublicReadOnly, map[]))
                        else ConfigEffects.ListOf(p, name);
            && (list == None ==> m == Moved(c, l, Refused(NtStatus.STATUS_BAD_NETWORK_NAME)))
            && (list.Some? ==>
                  var open := list.value.mode != AuthenticatedOnly || (who.User? && who.name in list.value.users);
                  && (m.reply.TreeOpened? <==> open)
                  && (!open ==> m == Moved(c, l, Refused(NtStatus.STATUS_ACCESS_DENIED))))
            && (m.reply.TreeOpened? ==>
                  && HasTree(m.conn, sid, m.reply.tid)
                  && var t := m.conn.sessions[sid].trees[m.reply.tid];
                     && t.opens == map[] && t.granted == m.reply.granted
                     && if ConfigEffects.SameName(name, "IPC$") then t.share == IPC_SHARE && t.granted == Read
                        else ConfigEffects.SameName(t.share.name, name) && Find(p, name) == Some(t.share))
  {
    hide Lower, Tallies.Worth, AclWithin;
    if Lookup(p, name).Some? {
      var (share, acl) := Lookup(p, name).value;
      ConnectGrants(c, l, sid, share, acl);
    }
  }

  /** CREATE opens a file exactly when its tree is there, the request may reach the backend, and the backend opens
      and stats it; the open then has the new handle, writes only if asked to, and stands beside the others. */
  lemma CreateMeans(c: Conn, l: Ledger, sid: u64, tid: Option<u32>, req: OpenRequest, answer: Answer)
    ensures var m := CreateFile(c, l, sid, tid, req, answer);
            && (m.reply.FileOpened? <==>
                  && sid != 0 && tid.Some? && HasTree(c, sid, tid.value) && answer == Opened
                  && CreateRefusal(req, c.sessions[sid].trees[tid.value].granted).None?)
            && (m.reply.FileOpened? ==>
                  var t, t1 := c.sessions[sid].trees[tid.value], m.conn.sessions[sid].trees[tid.value];
                  var o := Open(Some(l.issued), if req.write then t.granted else Read,
                                req.write || req.intent != Some(OpenExisting));
                  && t1.opens == t.opens[m.reply.fid := o] && t1.share == t.share && t1.granted == t.granted)
            && (!m.reply.FileOpened? ==> m.conn == c && m.reply.Refused?)
  {
    hide Tallies.Worth, CreateRefusal;
  }

  /** CLOSE, CREATE and TREE_DISCONNECT of a tree that is not there: no tree id, no session, no tree, in that order. */
  lemma MissingTree(c: Conn, l: Ledger, sid: u64, tid: Option<u32>, r: Request, p: Policy)
    requires r == TreeDisconnect(sid, tid) || (r.Create? && r.sid == sid && r.tid == tid)
             || (r.Close? && r.sid == sid && r.tid == tid)
    requires tid.None? || sid == 0 || !HasTree(c, sid, tid.value)
    ensures Serve(p, c, l, r) == Moved(c, l, Refused(
      if tid.None? then 0xC000_000D
      else if sid == 0 || sid !in c.sessions then 0xC000_015C
      else 0xC000_00C9))
  {
  }

  /** CLOSE and TREE_DISCONNECT of what is there remove it, once, and nothing else; a second CLOSE finds nothing. */
  lemma RemovedOnce(p: Policy, c: Conn, l: Ledger, sid: u64, tid: u32, fid: FileId)
    requires sid != 0 && HasTree(c, sid, tid)
    ensures var t := c.sessions[sid].trees[tid]; var m := Serve(p, c, l, Close(sid, Some(tid), fid));
            && (fid in t.opens ==>
                  && m.reply == Done && HasTree(m.conn, sid, tid)
                  && m.conn.sessions[sid].trees[tid] == t.(opens := t.opens - {fid})
                  && Serve(p, m.conn, m.ledger, Close(sid, Some(tid), fid))
                  == Moved(m.conn, m.ledger, Refused(0xC000_0128)))
            && (fid !in t.opens ==> m == Moved(c, l, Refused(0xC000_0128)))
    ensures var m := Serve(p, c, l, TreeDisconnect(sid, Some(tid)));
            && m.reply == Done && sid in m.conn.sessions
            && m.conn.sessions[sid].trees == c.sessions[sid].trees - {tid}
            && m.conn.sessions - {sid} == c.sessions - {sid}
  {
    hide OpenHandles, TreeHandles;
  }

  /** LOGOFF removes the named session, or finds none to remove. */
  lemma LogoffMeans(p: Policy, c: Conn, l: Ledger, sid: u64)
    ensures var m := Serve(p, c, l, LogOff(sid));
            && (sid == 0 ==> m == Moved(c, l, Refused(0xC000_015C)))
            && (sid != 0 ==> m.reply == Done && m.conn == c.(sessions := c.sessions - {sid}))
            && (sid !in c.sessions ==> m.conn == c && m.ledger.closed == l.closed)
  {
    hide SessionHandles;
    Tallies.Nothing(l.closed);
    assert sid !in c.sessions ==> c.sessions - {sid} == c.sessions;
  }
}
