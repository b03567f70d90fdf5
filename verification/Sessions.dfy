/** The tables of one connection as a value: its sessions, their trees, their opens, and the backend handles
    those own, with what each handler does to them. */
module Sessions {
  import opened Bytes
  import opened NtStatus
  import opened Sharing
  import opened Tallies

  /** A compiled share binding: its identity and its immutable part. The access list is looked up by id. */
  datatype Share = Share(id: nat, name: string, isIpc: bool, readOnly: bool)

  /** The synthetic share behind `IPC$`: a public read-only list over a backend that supports nothing. */
  const IPC_SHARE := Share(0, IPC, true, true)
  const IPC_ACL := Acl(PublicReadOnly, map[])

  datatype FileId = FileId(persistent: u64, volatile_: u64)

  /** `mutating`: issued for writing, or with a disposition that may create or truncate. */
  datatype Open = Open(handle: Option<nat>, granted: Access, mutating: bool)

  // Id counters count every allocation; the id handed out is the counter at its machine width.

  datatype Tree = Tree(share: Share, granted: Access, nextVolatile: nat, opens: map<FileId, Open>)
  datatype Session = Session(identity: Identity, nextTree: nat, trees: map<u32, Tree>)
  datatype Conn = Conn(negotiated: bool, nextSession: nat, pending: set<u64>, sessions: map<u64, Session>)

  const FRESH_CONN := Conn(false, 1, {}, map[])

  // ---- who owns which handle ----

  ghost function OpenHandles(o: Open): Handles {
    if o.handle.Some? then multiset{o.handle.value} else multiset{}
  }
  ghost function TreeHandles(t: Tree): Handles { Tally(t.opens, OpenHandles) }
  ghost function SessionHandles(s: Session): Handles { Tally(s.trees, TreeHandles) }
  ghost function SessionsHandles(m: map<u64, Session>): Handles { Tally(m, SessionHandles) }
  ghost function ConnHandles(c: Conn): Handles { SessionsHandles(c.sessions) }

  /** What has become of the handles backends gave out: how many there were, those closed (counted as often
      as closed), and those lost without being closed. */
  datatype Ledger = Ledger(issued: nat, closed: Handles, dropped: Handles)

  ghost function Closing(l: Ledger, hs: Handles): Ledger { l.(closed := l.closed + hs) }
  ghost function Dropping(l: Ledger, hs: Handles): Ledger { l.(dropped := l.dropped + hs) }

  /** Of the handles `all`, those but `left` have been closed since `l`. */
  ghost predicate ClosedSoFar(now: Ledger, l: Ledger, left: Handles, all: Handles) {
    now == l.(closed := now.closed) && now.closed + left == l.closed + all
  }

  lemma ClosedEnds(l: Ledger, all: Handles)
    ensures ClosedSoFar(l, l, all, all)
    ensures forall now :: ClosedSoFar(now, l, multiset{}, all) ==> now == Closing(l, all)
  {
    forall now | ClosedSoFar(now, l, multiset{}, all)
      ensures now == Closing(l, all)
    {
      Nothing(now.closed);
    }
  }

  lemma ClosedMore(now: Ledger, l: Ledger, left: Handles, all: Handles, some: Handles, rest: Handles)
    requires ClosedSoFar(now, l, left, all) && left == some + rest
    ensures ClosedSoFar(Closing(now, some), l, rest, all)
  {
  }

  /** Every handle given out is owned, closed or dropped, and only one of these, once. */
  ghost predicate Balanced(owned: Handles, l: Ledger) {
    owned + l.closed + l.dropped == FirstHandles(l.issued)
  }

  datatype Reply =
    | Refused(status: u32) | Done
    | SessionPending(sid: u64) | SessionOpened(sid: u64)
    | TreeOpened(tid: u32, granted: Access) | FileOpened(fid: FileId)

  datatype Moved = Moved(conn: Conn, ledger: Ledger, reply: Reply)

  // ---- inserting and removing ----

  /** Inserting a key; what it overwrites is dropped with everything it owns. */
  ghost function PutSession(c: Conn, l: Ledger, sid: u64, s: Session): (Conn, Ledger) {
    (c.(sessions := c.sessions[sid := s]), Dropping(l, Worth(c.sessions, SessionHandles, sid)))
  }

  ghost function PutTree(s: Session, l: Ledger, tid: u32, t: Tree): (Session, Ledger) {
    (s.(trees := s.trees[tid := t]), Dropping(l, Worth(s.trees, TreeHandles, tid)))
  }

  ghost function PutOpen(t: Tree, l: Ledger, fid: FileId, o: Open): (Tree, Ledger) {
    (t.(opens := t.opens[fid := o]), Dropping(l, Worth(t.opens, OpenHandles, fid)))
  }

  function WithSession(c: Conn, sid: u64, s: Session): Conn {
    c.(sessions := c.sessions[sid := s])
  }

  function WithTree(c: Conn, sid: u64, tid: u32, t: Tree): Conn
    requires sid in c.sessions
  {
    WithSession(c, sid, c.sessions[sid].(trees := c.sessions[sid].trees[tid := t]))
  }

  function WithoutTree(c: Conn, sid: u64, tid: u32): Conn
    requires sid in c.sessions
  {
    WithSession(c, sid, c.sessions[sid].(trees := c.sessions[sid].trees - {tid}))
  }

  predicate HasTree(c: Conn, sid: u64, tid: u32) {
    sid in c.sessions && tid in c.sessions[sid].trees
  }

  /** `lookup_session_tree`: the status that refuses the request, if any. */
  function TreeRefusal(c: Conn, sid: u64, tid: Option<u32>): Option<u32> {
    if tid.None? then Some(STATUS_INVALID_PARAMETER)
    else if sid == 0 || sid !in c.sessions then Some(STATUS_USER_SESSION_DELETED)
    else if tid.value !in c.sessions[sid].trees then Some(STATUS_NETWORK_NAME_DELETED)
    else None
  }

  // ---- teardown by selection ----

  /** Which trees a configuration change tears down. */
  datatype Selector = OfShare(share: string) | OfUserShare(user: string, share: string)

  predicate Selects(sel: Selector, who: Identity, t: Tree) {
    Lower(t.share.name) == Lower(sel.share) && (sel.OfUserShare? ==> who == User(sel.user))
  }

  function SelectTrees(s: Session, sel: Selector, selected: bool): Session {
    s.(trees := map tid | tid in s.trees && Selects(sel, s.identity, s.trees[tid]) == selected :: s.trees[tid])
  }

  /** The sessions with only their selected trees, or only the others. */
  function TreesWhere(m: map<u64, Session>, sel: Selector, selected: bool): (r: map<u64, Session>)
    ensures r.Keys == m.Keys
  {
    map sid | sid in m :: SelectTrees(m[sid], sel, selected)
  }

  function SessionsWhere(m: map<u64, Session>, user: string, named: bool): map<u64, Session> {
    map sid | sid in m && (m[sid].identity == User(user)) == named :: m[sid]
  }

  // ---- SESSION_SETUP ----

  /** What the second token proves: nothing, an anonymous logon, or a claim to be a user. */
  datatype Claim = Invalid | Nobody | Somebody(user: string, proven: bool)

  function Prove(claim: Claim, users: set<string>): Option<Identity> {
    match claim
    case Invalid => None
    case Nobody => Some(Anonymous)
    case Somebody(user, proven) => if user in users && proven then Some(User(user)) else None
  }

  /** The first round spends an id whether or not the token is accepted. */
  ghost function OpenSetup(c: Conn, l: Ledger, accepted: bool): Moved {
    var id: u64 := c.nextSession % U64;
    var c1 := c.(nextSession := c.nextSession + 1);
    if !accepted then Moved(c1, l, Refused(STATUS_LOGON_FAILURE))
    else Moved(c1.(pending := c1.pending + {id}), l, SessionPending(id))
  }

  /** The second round uses up the pending exchange whatever comes of it. */
  ghost function FinishSetup(c: Conn, l: Ledger, sid: u64, claim: Claim, users: set<string>, anonymous: bool): Moved {
    if sid == 0 then Moved(c, l, Refused(STATUS_INVALID_PARAMETER))
    else if sid !in c.pending then Moved(c, l, Refused(STATUS_USER_SESSION_DELETED))
    else
      var c1 := c.(pending := c.pending - {sid});
      var who := Prove(claim, users);
      if who.None? || (who.value.Anonymous? && !anonymous) then Moved(c1, l, Refused(STATUS_LOGON_FAILURE))
      else if !c.negotiated then Moved(c1, l, Refused(STATUS_INVALID_PARAMETER))
      else
        var (c2, l2) := PutSession(c1, l, sid, Session(who.value, 1, map[]));
        Moved(c2, l2, SessionOpened(sid))
  }

  // ---- TREE_CONNECT ----

  ghost function ConnectTree(c: Conn, l: Ledger, sid: u64, found: Option<(Share, Acl)>): Moved {
    if sid == 0 || sid !in c.sessions then Moved(c, l, Refused(STATUS_USER_SESSION_DELETED))
    else if found.None? then Moved(c, l, Refused(STATUS_BAD_NETWORK_NAME))
    else
      var (share, acl) := found.value;
      var s := c.sessions[sid];
      var allowed := Authorize(acl, s.identity);
      if allowed.None? then Moved(c, l, Refused(STATUS_ACCESS_DENIED))
      else
        var granted := if share.readOnly then allowed.value.ClampTo(Read) else allowed.value;
        var tid: u32 := s.nextTree % U32;
        var (s1, l1) := PutTree(s.(nextTree := s.nextTree + 1), l, tid, Tree(share, granted, 1, map[]));
        Moved(WithSession(c, sid, s1), l1, TreeOpened(tid, granted))
  }

  // ---- CREATE and CLOSE ----

  datatype Intent = OpenExisting | CreateNew | OpenOrCreate | OverwriteOrCreate | Truncate

  datatype OpenRequest = OpenRequest(
    nameValid: bool, intent: Option<Intent>, write: bool, directory: bool, nonDirectory: bool, stream: bool)

  predicate Mutating(req: OpenRequest) {
    req.write || req.intent != Some(OpenExisting)
  }

  /** The checks CREATE makes before it reaches the backend. */
  function CreateRefusal(req: OpenRequest, granted: Access): Option<u32> {
    if !req.nameValid then Some(STATUS_OBJECT_NAME_INVALID)
    else if req.intent.None? then Some(STATUS_INVALID_PARAMETER)
    else if req.write && !granted.AllowsWrite() then Some(STATUS_ACCESS_DENIED)
    else if !granted.AllowsWrite() && req.intent.value != OpenExisting then Some(STATUS_ACCESS_DENIED)
    else if req.directory && req.nonDirectory then Some(STATUS_INVALID_PARAMETER)
    else if req.directory && req.intent.value in {OverwriteOrCreate, Truncate} then Some(STATUS_INVALID_PARAMETER)
    else if req.directory && req.stream then Some(STATUS_INVALID_PARAMETER)
    else None
  }

  /** What the backend does when asked to open, and then to stat. */
  datatype Answer = OpenFailed(status: u32) | StatFailed(status: u32) | Opened

  ghost function CreateFile(c: Conn, l: Ledger, sid: u64, tid: Option<u32>, req: OpenRequest, answer: Answer): Moved {
    if TreeRefusal(c, sid, tid).Some? then Moved(c, l, Refused(TreeRefusal(c, sid, tid).value))
    else
      var t := c.sessions[sid].trees[tid.value];
      if CreateRefusal(req, t.granted).Some? then Moved(c, l, Refused(CreateRefusal(req, t.granted).value))
      else match answer
        case OpenFailed(status) => Moved(c, l, Refused(status))
        case StatFailed(status) =>
          Moved(c, Closing(l.(issued := l.issued + 1), multiset{l.issued}), Refused(status))
        case Opened =>
          var v: u64 := t.nextVolatile % U64;
          var o := Open(Some(l.issued), if req.write then t.granted else Read, Mutating(req));
          var (t1, l1) := PutOpen(t.(nextVolatile := t.nextVolatile + 1), l.(issued := l.issued + 1), FileId(v, v), o);
          Moved(WithTree(c, sid, tid.value, t1), l1, FileOpened(FileId(v, v)))
  }

  ghost function CloseFile(c: Conn, l: Ledger, sid: u64, tid: Option<u32>, fid: FileId): Moved {
    if TreeRefusal(c, sid, tid).Some? then Moved(c, l, Refused(TreeRefusal(c, sid, tid).value))
    else
      var t := c.sessions[sid].trees[tid.value];
      if fid !in t.opens then Moved(c, l, Refused(STATUS_FILE_CLOSED))
      else Moved(WithTree(c, sid, tid.value, t.(opens := t.opens - {fid})),
                 Closing(l, OpenHandles(t.opens[fid])), Done)
  }

  // ---- LOGOFF and TREE_DISCONNECT ----

  ghost function CloseSession(c: Conn, l: Ledger, sid: u64): (Conn, Ledger) {
    (c.(sessions := c.sessions - {sid}), Closing(l, Worth(c.sessions, SessionHandles, sid)))
  }

  ghost function Logoff(c: Conn, l: Ledger, sid: u64): Moved {
    if sid == 0 then Moved(c, l, Refused(STATUS_USER_SESSION_DELETED))
    else
      var (c1, l1) := CloseSession(c, l, sid);
      Moved(c1, l1, Done)
  }

  ghost function DisconnectTree(c: Conn, l: Ledger, sid: u64, tid: Option<u32>): Moved {
    if TreeRefusal(c, sid, tid).Some? then Moved(c, l, Refused(TreeRefusal(c, sid, tid).value))
    else
      Moved(WithoutTree(c, sid, tid.value), Closing(l, TreeHandles(c.sessions[sid].trees[tid.value])), Done)
  }
}
