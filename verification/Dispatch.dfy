/** Compound requests: cutting a frame, inheriting the context of related operations, building and
    stitching the responses. Command handlers are an arbitrary state transformer. */
module Dispatch {
  import opened Bytes
  import opened Header
  import opened Stitching

  const MAX_FRAME: nat := 0xFF_FFFF

  type FileId = Sig

  // ---- where a request keeps its file id ----

  /** `file_id_body_offset`. */
  function FileIdBodyOffset(c: Command): Option<nat> {
    match c
    case Close | Flush | Lock | Ioctl | QueryDirectory | ChangeNotify | OplockBreak => Some(8)
    case Read | Write => Some(16)
    case QueryInfo => Some(24)
    case SetInfo => Some(16)
    case _ => None
  }

  /** Sizes of the fixed fields that precede the file id in each request structure, in wire order. */
  function FieldsBeforeFileId(c: Command): Option<seq<nat>> {
    match c
    case Close | Flush | Lock | Ioctl | ChangeNotify => Some([2, 2, 4])
    case QueryDirectory | OplockBreak => Some([2, 1, 1, 4])
    case Read => Some([2, 1, 1, 4, 8])
    case Write => Some([2, 2, 4, 8])
    case QueryInfo => Some([2, 1, 1, 4, 2, 2, 4, 4, 4])
    case SetInfo => Some([2, 1, 1, 4, 2, 2, 4])
    case _ => None
  }

  function Sum(sizes: seq<nat>): nat {
    if sizes == [] then 0 else sizes[0] + Sum(sizes[1..])
  }

  /** The file id a request's own parser reads from its body. */
  function ParsedFileId(c: Command, body: bytes): Option<FileId> {
    match FieldsBeforeFileId(c)
    case None => None
    case Some(sizes) =>
      if Sum(sizes) + 16 <= |body| then Some(body[Sum(sizes)..Sum(sizes) + 16]) else None
  }

  lemma ShortSums()
    ensures Sum([2, 2, 4]) == 8 && Sum([2, 1, 1, 4]) == 8
  {
    assert Sum([1, 1, 4]) == 6;
  }

  lemma TransferSums()
    ensures Sum([2, 1, 1, 4, 8]) == 16 && Sum([2, 2, 4, 8]) == 16
  {
    assert Sum([1, 4, 8]) == 13 && Sum([1, 1, 4, 8]) == 14;
    assert Sum([2, 4, 8]) == 14;
  }

  lemma InfoSums()
    ensures Sum([2, 1, 1, 4, 2, 2, 4]) == 16 && Sum([2, 1, 1, 4, 2, 2, 4, 4, 4]) == 24
  {
    assert Sum([2, 2, 4]) == 8 && Sum([1, 4, 2, 2, 4]) == 13;
    assert Sum([4, 4, 4]) == 12 && Sum([2, 2, 4, 4, 4]) == 16 && Sum([1, 4, 2, 2, 4, 4, 4]) == 21;
  }

  lemma OffsetIsWhereTheParserReads(c: Command)
    ensures FileIdBodyOffset(c) == match FieldsBeforeFileId(c) case None => None case Some(s) => Some(Sum(s))
  {
    hide Sum;
    ShortSums();
    TransferSums();
    InfoSums();
  }

  /** `capture_create_file_id`: the id a successful CREATE response carries. */
  function CaptureCreateFileId(response: bytes): Option<FileId> {
    if |response| < HEADER_LEN + 80 || Get32(response, STATUS_AT) != 0 then None
    else Some(response[HEADER_LEN + 64..HEADER_LEN + 80])
  }

  // ---- inheriting context ----

  datatype Context = Context(session: u64, tree: u32, fileId: Option<FileId>)

  const NOTHING_YET := Context(0, 0, None)

  predicate AllOnes(s: bytes, at: nat)
    requires at + 16 <= |s|
  {
    Get64(s, at) == U64 - 1 && Get64(s, at + 8) == U64 - 1
  }

  /** A placeholder file id is sixteen bytes of ones. */
  lemma AllOnesMeans(s: bytes, at: nat)
    requires at + 16 <= |s|
    ensures AllOnes(s, at) <==> forall i :: at <= i < at + 16 ==> s[i] == 0xFF
  {
    hide Get64;
    EightOnes(s, at);
    EightOnes(s, at + 8);
    if AllOnes(s, at) {
      forall i | at <= i < at + 16
        ensures s[i] == 0xFF
      {
        if i < at + 8 {
          assert s[at..at + 8][i - at] == s[i];
        } else {
          assert s[at + 8..at + 16][i - at - 8] == s[i];
        }
      }
    }
  }

  lemma EightOnes(s: bytes, at: nat)
    requires at + 8 <= |s|
    ensures Get64(s, at) == U64 - 1 <==> s[at..at + 8] == seq(8, i => 0xFF)
  {
    hide FromLe, ToLe;
    PutGet64(s, at);
    OnesDigits(8);
    Widths();
    GetPut64(seq(8, i => 0xFF), 0, U64 - 1);
  }

  lemma {:induction false} OnesDigits(k: nat)
    ensures ToLe(Pow256(k) - 1, k) == seq(k, i => 0xFF)
  {
    if k > 0 {
      OnesDigits(k - 1);
      var n := Pow256(k - 1);
      assert Pow256(k) - 1 == 256 * (n - 1) + 255;
    }
  }

  function SpliceSession(s: bytes, c: Context): (r: bytes)
    requires HEADER_LEN <= |s|
    ensures |r| == |s|
  {
    if Get64(s, SESSION_AT) == U64 - 1 then Patch(s, SESSION_AT, Put64(c.session)) else s
  }

  function SpliceTree(s: bytes, c: Context): (r: bytes)
    requires HEADER_LEN <= |s|
    ensures |r| == |s|
  {
    if Get32(s, TREE_AT) == U32 - 1 then Patch(s, TREE_AT, Put32(c.tree)) else s
  }

  function SpliceFileId(s: bytes, cmd: Command, id: Option<FileId>): (r: bytes)
    requires HEADER_LEN <= |s|
    ensures |r| == |s|
  {
    if id.None? || FileIdBodyOffset(cmd).None? then s
    else
      var at := HEADER_LEN + FileIdBodyOffset(cmd).value;
      if at + 16 <= |s| && AllOnes(s, at) then Patch(s, at, id.value) else s
  }

  /** The sub-frame that a related request is dispatched as. */
  function Inherited(s: bytes, cmd: Command, c: Context): (r: bytes)
    requires HEADER_LEN <= |s|
    ensures |r| == |s|
  {
    SpliceFileId(SpliceTree(SpliceSession(s, c), c), cmd, c.fileId)
  }

  /** The request header as the dispatcher keeps it: only a sync tail's tree id is replaced. */
  function InheritedHeader(s: bytes, h: Smb2Header, c: Context): Smb2Header
    requires HEADER_LEN <= |s|
  {
    var h1 := if Get64(s, SESSION_AT) == U64 - 1 then h.(sessionId := c.session) else h;
    if Get32(s, TREE_AT) == U32 - 1 && h1.tail.Sync? then h1.(tail := Sync(h1.tail.reserved, c.tree)) else h1
  }

  method CopyInto(buf: array<byte>, at: nat, v: bytes)
    requires at + |v| <= buf.Length
    modifies buf
    ensures buf[..] == Patch(old(buf[..]), at, v)
  {
    ghost var was := buf[..];
    for i := 0 to |v|
      invariant forall k :: 0 <= k < buf.Length ==> buf[k] == if at <= k < at + i then v[k - at] else was[k]
    {
      buf[at + i] := v[i];
    }
    assert buf[..] == Patch(was, at, v);
  }

  /** `inherit_related_context`, in place. */
  method InheritRelatedContext(buf: array<byte>, h: Smb2Header, c: Context) returns (r: Smb2Header)
    requires HEADER_LEN <= buf.Length
    modifies buf
    ensures buf[..] == Inherited(old(buf[..]), h.command, c)
    ensures r == InheritedHeader(old(buf[..]), h, c)
  {
    hide Get32, Get64, Put32, Put64, Patch, FileIdBodyOffset;
    r := h;
    ghost var s0 := buf[..];
    if Get64(buf[..], SESSION_AT) == U64 - 1 {
      CopyInto(buf, SESSION_AT, Put64(c.session));
      r := r.(sessionId := c.session);
    }
    ghost var s1 := buf[..];
    assert s1 == SpliceSession(s0, c);
    SessionPatchKeepsTree(s0, c);
    if Get32(buf[..], TREE_AT) == U32 - 1 {
      CopyInto(buf, TREE_AT, Put32(c.tree));
      if r.tail.Sync? {
        r := r.(tail := Sync(r.tail.reserved, c.tree));
      }
    }
    ghost var s2 := buf[..];
    assert s2 == SpliceTree(s1, c);
    if c.fileId.Some? && FileIdBodyOffset(h.command).Some? {
      var at := HEADER_LEN + FileIdBodyOffset(h.command).value;
      if at + 16 <= buf.Length && AllOnes(buf[..], at) {
        CopyInto(buf, at, c.fileId.value);
      }
    }
  }

  lemma SessionPatchKeepsTree(s: bytes, c: Context)
    requires HEADER_LEN <= |s|
    ensures Get32(SpliceSession(s, c), TREE_AT) == Get32(s, TREE_AT)
  {
    hide FromLe, Put64;
    if SpliceSession(s, c) != s {
      SliceOfPatch(s, SESSION_AT, Put64(c.session), TREE_AT, TREE_AT + 4);
    }
  }

  // ---- what the splices mean for the parsed request ----

  predicate Related(h: Smb2Header) {
    HasBit(h.flags, FLAG_RELATED)
  }

  predicate SessionPlaceholder(h: Smb2Header) {
    Related(h) && h.sessionId == U64 - 1
  }

  predicate TreePlaceholder(h: Smb2Header) {
    Related(h) && h.tail.Sync? && h.tail.treeId == U32 - 1
  }

  /** The splice does not look at the tail's form: where a sync header has its tree id, an async one has the
      high half of its async id. */
  function ResolvedTail(t: Tail, tree: u32): Tail {
    match t
    case Sync(reserved, treeId) => Sync(reserved, if treeId == U32 - 1 then tree else treeId)
    case Async(id) => if id / U32 == U32 - 1 then Joined(id % U32, tree) else t
  }

  function Joined(low: u32, high: u32): Tail {
    Async(low + U32 * high)
  }

  /** The header the request is answered under: placeholders replaced, all else as sent. */
  function Resolved(h: Smb2Header, c: Context): Smb2Header {
    var h1 := if SessionPlaceholder(h) then h.(sessionId := c.session) else h;
    if Related(h) then h1.(tail := ResolvedTail(h.tail, c.tree)) else h1
  }

  /** A body's file id resolved: replaced when the parser would read all ones and an id is at hand. */
  function ResolvedBody(cmd: Command, body: bytes, related: bool, id: Option<FileId>): bytes {
    match ParsedFileId(cmd, body)
    case None => body
    case Some(f) =>
      if related && id.Some? && AllOnes(f, 0)
      then Patch(body, Sum(FieldsBeforeFileId(cmd).value), id.value)
      else body
  }

  /** Field reads agree on two messages that agree on the field. */
  lemma SameFields(s: bytes, t: bytes)
    requires HEADER_LEN <= |s| && HEADER_LEN <= |t| && Parse(s).Ok?
    requires s[..TAIL_AT] == t[..TAIL_AT] && s[SIGNATURE_AT..HEADER_LEN] == t[SIGNATURE_AT..HEADER_LEN]
    ensures Parse(t).Ok?
    ensures var h := Parse(s).value.0;
            Parse(t).value.0 == h.(sessionId := Get64(t, SESSION_AT), tail := ReadTail(t, h.flags))
  {
    hide FromLe, ReadTail;
    SubSlice(s, 0, TAIL_AT, 0, 4);   SubSlice(t, 0, TAIL_AT, 0, 4);
    SubSlice(s, 0, TAIL_AT, 4, 6);   SubSlice(t, 0, TAIL_AT, 4, 6);
    SubSlice(s, 0, TAIL_AT, 6, 8);   SubSlice(t, 0, TAIL_AT, 6, 8);
    SubSlice(s, 0, TAIL_AT, 8, 12);  SubSlice(t, 0, TAIL_AT, 8, 12);
    SubSlice(s, 0, TAIL_AT, 12, 14); SubSlice(t, 0, TAIL_AT, 12, 14);
    SubSlice(s, 0, TAIL_AT, 14, 16); SubSlice(t, 0, TAIL_AT, 14, 16);
    SubSlice(s, 0, TAIL_AT, 16, 20); SubSlice(t, 0, TAIL_AT, 16, 20);
    SubSlice(s, 0, TAIL_AT, 20, 24); SubSlice(t, 0, TAIL_AT, 20, 24);
    SubSlice(s, 0, TAIL_AT, 24, 32); SubSlice(t, 0, TAIL_AT, 24, 32);
  }

  /** The header splices, byte for byte. */
  lemma HeaderSplices(s: bytes, c: Context)
    requires HEADER_LEN <= |s|
    ensures var t := SpliceTree(SpliceSession(s, c), c);
            && t[..TREE_AT] == s[..TREE_AT] && t[SIGNATURE_AT..] == s[SIGNATURE_AT..]
            && Get64(t, SESSION_AT) == (if Get64(s, SESSION_AT) == U64 - 1 then c.session else Get64(s, SESSION_AT))
            && Get32(t, TREE_AT) == (if Get32(s, TREE_AT) == U32 - 1 then c.tree else Get32(s, TREE_AT))
  {
    hide FromLe, Put64, Put32;
    var s1 := SpliceSession(s, c);
    var t := SpliceTree(s1, c);
    SessionPatchKeepsTree(s, c);
    if Get64(s, SESSION_AT) == U64 - 1 {
      SliceOfPatch(s, SESSION_AT, Put64(c.session), 0, TREE_AT);
      SliceOfPatch(s, SESSION_AT, Put64(c.session), SIGNATURE_AT, |s|);
      GetPut64(s1, SESSION_AT, c.session);
    }
    if Get32(s1, TREE_AT) == U32 - 1 {
      SliceOfPatch(s1, TREE_AT, Put32(c.tree), 0, TREE_AT);
      SliceOfPatch(s1, TREE_AT, Put32(c.tree), SESSION_AT, SESSION_AT + 8);
      SliceOfPatch(s1, TREE_AT, Put32(c.tree), SIGNATURE_AT, |s|);
      GetPut32(t, TREE_AT, c.tree);
    }
    assert s[..TREE_AT] == s[0..TREE_AT] && t[..TREE_AT] == t[0..TREE_AT] && s1[..TREE_AT] == s1[0..TREE_AT];
    assert s[SIGNATURE_AT..] == s[SIGNATURE_AT..|s|] && t[SIGNATURE_AT..] == t[SIGNATURE_AT..|s|]
           && s1[SIGNATURE_AT..] == s1[SIGNATURE_AT..|s|];
  }

  lemma ResolvedTailReads(s: bytes, t: bytes, flags: nat, tree: u32)
    requires HEADER_LEN <= |s| && HEADER_LEN <= |t|
    requires Get32(t, TAIL_AT) == Get32(s, TAIL_AT)
    requires Get32(t, TREE_AT) == if Get32(s, TREE_AT) == U32 - 1 then tree else Get32(s, TREE_AT)
    ensures ReadTail(t, flags) == ResolvedTail(ReadTail(s, flags), tree)
  {
    hide Get32, Get64, HasBit;
    Halves(s, TAIL_AT);
    Halves(t, TAIL_AT);
    QuotRem(Get32(s, TAIL_AT), Get32(s, TREE_AT));
  }

  lemma QuotRem(low: u32, high: u32)
    ensures (low + U32 * high) / U32 == high && (low + U32 * high) % U32 == low
  {
  }

  /** A related request is answered under exactly the resolved header. */
  lemma DispatchedHeader(s: bytes, c: Context)
    requires Parse(s).Ok? && Related(Parse(s).value.0)
    ensures var h := Parse(s).value.0; var t := SpliceTree(SpliceSession(s, c), c);
            && Parse(t).Ok? && Parse(t).value.0 == Resolved(h, c)
            && InheritedHeader(s, h, c).sessionId == Resolved(h, c).sessionId
            && InheritedHeader(s, h, c).TreeId() == Resolved(h, c).TreeId()
            && InheritedHeader(s, h, c).command == h.command
            && t[HEADER_LEN..] == s[HEADER_LEN..]
  {
    hide FromLe, SpliceTree, SpliceSession, ResolvedTail;
    var t := SpliceTree(SpliceSession(s, c), c);
    HeaderSplices(s, c);
    SubSlice(s, 0, TREE_AT, 0, TAIL_AT);
    SubSlice(t, 0, TREE_AT, 0, TAIL_AT);
    SubSlice(s, 0, TREE_AT, TAIL_AT, TREE_AT);
    SubSlice(t, 0, TREE_AT, TAIL_AT, TREE_AT);
    SubSlice(s, SIGNATURE_AT, |s|, 0, 16);
    SubSlice(t, SIGNATURE_AT, |t|, 0, 16);
    assert s[HEADER_LEN..] == s[SIGNATURE_AT..][16..] && t[HEADER_LEN..] == t[SIGNATURE_AT..][16..];
    SameFields(s, t);
    ResolvedTailReads(s, t, Parse(s).value.0.flags, c.tree);
    TailForms(Parse(s).value.0.tail, c.tree);
  }

  lemma TailForms(t: Tail, tree: u32)
    ensures match t
            case Sync(reserved, treeId) => ResolvedTail(t, tree) == Sync(reserved,
                if treeId == U32 - 1 then tree else treeId)
            case Async(_) => ResolvedTail(t, tree).Async?
  {
  }

  /** A resolved body reads back the new id. */
  lemma ResolvedBodyReads(cmd: Command, body: bytes, id: FileId)
    requires ParsedFileId(cmd, body).Some? && AllOnes(ParsedFileId(cmd, body).value, 0)
    ensures ParsedFileId(cmd, ResolvedBody(cmd, body, true, Some(id))) == Some(id)
  {
  }

  lemma AllOnesInBody(s: bytes, off: nat)
    requires HEADER_LEN + off + 16 <= |s|
    ensures AllOnes(s, HEADER_LEN + off) == AllOnes(s[HEADER_LEN..][off..off + 16], 0)
  {
    hide FromLe;
    var body := s[HEADER_LEN..];
    assert s[HEADER_LEN..|s|] == body;
    SubSlice(s, HEADER_LEN, |s|, off, off + 8);
    SubSlice(s, HEADER_LEN, |s|, off + 8, off + 16);
    SubSlice(body, off, off + 16, 0, 8);
    SubSlice(body, off, off + 16, 8, 16);
  }

  /** For every command, splicing a file id changes exactly the file id the request's parser reads, when
      that is all ones, and nothing else; the parser then reads the inherited id. */
  lemma SpliceIsResolvedBody(s: bytes, cmd: Command, id: Option<FileId>)
    requires HEADER_LEN <= |s|
    ensures SpliceFileId(s, cmd, id)[..HEADER_LEN] == s[..HEADER_LEN]
    ensures SpliceFileId(s, cmd, id)[HEADER_LEN..] == ResolvedBody(cmd, s[HEADER_LEN..], true, id)
    ensures var f := ParsedFileId(cmd, s[HEADER_LEN..]);
            f.Some? && AllOnes(f.value, 0) && id.Some? ==>
              ParsedFileId(cmd, SpliceFileId(s, cmd, id)[HEADER_LEN..]) == id
  {
    hide SpliceFileId, ResolvedBody, AllOnes, Sum;
    SplicedBody(s, cmd, id);
    var f := ParsedFileId(cmd, s[HEADER_LEN..]);
    if f.Some? && AllOnes(f.value, 0) && id.Some? {
      ResolvedBodyReads(cmd, s[HEADER_LEN..], id.value);
    }
  }

  lemma SplicedBody(s: bytes, cmd: Command, id: Option<FileId>)
    requires HEADER_LEN <= |s|
    ensures SpliceFileId(s, cmd, id)[..HEADER_LEN] == s[..HEADER_LEN]
    ensures SpliceFileId(s, cmd, id)[HEADER_LEN..] == ResolvedBody(cmd, s[HEADER_LEN..], true, id)
  {
    hide AllOnes, FileIdBodyOffset, FieldsBeforeFileId, Sum, Patch;
    OffsetIsWhereTheParserReads(cmd);
    var body := s[HEADER_LEN..];
    if FileIdBodyOffset(cmd).Some? && HEADER_LEN + FileIdBodyOffset(cmd).value + 16 <= |s| {
      var off := FileIdBodyOffset(cmd).value;
      AllOnesInBody(s, off);
      if id.Some? {
        assert s == s[..HEADER_LEN] + body;
        PatchSecond(s[..HEADER_LEN], body, off, id.value);
        DropFirst(s[..HEADER_LEN], Patch(body, off, id.value));
      }
    }
  }

  // ---- the walk over a frame ----

  /** One dispatched sub-request: where it was cut, its header as sent, the bytes handed to the handler. */
  datatype Dispatched = Dispatched(off: nat, header: Smb2Header, body: bytes, sent: bytes, ordinal: nat,
      reply: Option<bytes>)

  datatype Outcome<S> = Outcome(complete: bool, steps: seq<Dispatched>, final: S)

  type Handler<!S> = (S, bytes, nat) -> (S, Option<bytes>)

  function NextOrdinal(n: nat): nat {
    if n + 1 < U32 then n + 1 else n
  }

  /** The context after a sub-request, from the header the dispatcher kept and its response. */
  function After(c: Context, kept: Smb2Header, reply: Option<bytes>): Context {
    Context(kept.sessionId, if kept.TreeId().Some? then kept.TreeId().value else 0,
            if reply.Some? && kept.command == Create then CaptureCreateFileId(reply.value) else c.fileId)
  }

  function SubFrame(s: bytes, h: Smb2Header, c: Context): bytes
    requires HEADER_LEN <= |s|
  {
    if Related(h) then Inherited(s, h.command, c) else s
  }

  function Kept(s: bytes, h: Smb2Header, c: Context): Smb2Header
    requires HEADER_LEN <= |s|
  {
    if Related(h) then InheritedHeader(s, h, c) else h
  }

  /** One turn of the loop: the frame is dropped, or a step was taken over `size` bytes. */
  datatype Turn<S> = Cut | Turn(step: Dispatched, size: nat, last: bool, c: Context, st: S)

  function TurnAt<S>(frame: bytes, off: nat, ordinal: nat, c: Context, st: S, handle: Handler<S>): (t: Turn<S>)
    requires off < |frame|
    ensures t.Turn? ==>
      && HEADER_LEN <= t.size <= |frame| - off && (t.last ==> t.size == |frame| - off)
      && t.step.off == off && t.step.ordinal == ordinal
      && |t.step.sent| == HEADER_LEN + |t.step.body| == t.size
  {
    var available := frame[off..];
    match (Parse(available), CutLength(available))
    case (Ok((h, _)), Some(n)) =>
      var s := available[..n];
      var (st1, reply) := handle(st, SubFrame(s, h, c), ordinal);
      Turn(Dispatched(off, h, s[HEADER_LEN..], SubFrame(s, h, c), ordinal, reply), n, h.next == 0,
           After(c, Kept(s, h, c), reply), st1)
    case _ => Cut
  }

  /** Everything the loop does from offset `off` on. */
  function Run<S>(frame: bytes, off: nat, ordinal: nat, c: Context, st: S, handle: Handler<S>): (o: Outcome<S>)
    requires off <= |frame|
    decreases |frame| - off
  {
    if off == |frame| then Outcome(true, [], st)
    else match TurnAt(frame, off, ordinal, c, st, handle)
      case Cut => Outcome(false, [], st)
      case Turn(step, n, last, c1, st1) =>
        if last then Outcome(true, [step], st1)
        else
          var rest := Run(frame, off + n, NextOrdinal(ordinal), c1, st1, handle);
          Outcome(rest.complete, [step] + rest.steps, rest.final)
  }

  function Replies(steps: seq<Dispatched>): seq<bytes> {
    if steps == [] then []
    else (if steps[0].reply.Some? then [steps[0].reply.value] else []) + Replies(steps[1..])
  }

  lemma {:induction false} RepliesSnoc(steps: seq<Dispatched>, d: Dispatched)
    ensures Replies(steps + [d]) == Replies(steps) + if d.reply.Some? then [d.reply.value] else []
  {
    if steps == [] {
      assert Replies([d]) == (if d.reply.Some? then [d.reply.value] else []) + Replies([]);
    } else {
      RepliesSnoc(steps[1..], d);
      assert (steps + [d])[1..] == steps[1..] + [d];
    }
  }

  /** Handlers answer with complete, unchained responses. */
  ghost predicate Answers<S(!new)>(handle: Handler<S>) {
    forall st, s, n :: handle(st, s, n).1.Some? ==> IsResponse(handle(st, s, n).1.value)
  }

  predicate AllResponses(rs: seq<bytes>) {
    forall i :: 0 <= i < |rs| ==> IsResponse(rs[i])
  }

  /** One turn, the related sub-frame patched in place before it is handed over. */
  method TakeTurn<S>(frame: bytes, off: nat, ordinal: nat, c: Context, st: S, handle: Handler<S>)
    returns (t: Turn<S>)
    requires off < |frame|
    ensures t == TurnAt(frame, off, ordinal, c, st, handle)
  {
    hide Inherited, InheritedHeader, HasBit, CaptureCreateFileId, Get32;
    var available := frame[off..];
    var parsed, cut := Parse(available), CutLength(available);
    if parsed.Err? || cut.None? {
      return Cut;
    }
    var h, n := parsed.value.0, cut.value;
    var s := available[..n];
    var sub := new byte[n](i requires 0 <= i < n => s[i]);
    assert sub[..] == s;
    var kept := h;
    if Related(h) {
      kept := InheritRelatedContext(sub, h, c);
    }
    var (st1, reply) := handle(st, sub[..], ordinal);
    t := Turn(Dispatched(off, h, s[HEADER_LEN..], sub[..], ordinal, reply), n, h.next == 0,
              After(c, kept, reply), st1);
  }

  ghost predicate Continues<S>(whole: Outcome<S>, done: seq<Dispatched>, o: Outcome<S>) {
    whole == Outcome(o.complete, done + o.steps, o.final)
  }

  lemma ContinuesLaws<S>(whole: Outcome<S>, done: seq<Dispatched>, d: Dispatched, o: Outcome<S>)
    ensures Continues(whole, [], whole)
    ensures Continues(whole, done, Outcome(o.complete, [d] + o.steps, o.final)) ==> Continues(whole, done + [d], o)
    ensures o.steps == [] && Continues(whole, done, o) ==> whole == Outcome(o.complete, done, o.final)
  {
    assert [] + whole.steps == whole.steps;
    assert done + ([d] + o.steps) == done + [d] + o.steps;
    assert done + [] == done;
  }

  // ---- which frames are answered ----

  /** Every cut from `off` on parses and is in bounds, up to a NextCommand of zero or the end: a check on the
      frame alone. */
  predicate WellCut(frame: bytes, off: nat)
    requires off <= |frame|
    decreases |frame| - off
  {
    off == |frame| ||
    var available := frame[off..];
    match (Parse(available), CutLength(available))
    case (Ok((h, _)), Some(n)) => h.next == 0 || (n > 0 && off + n <= |frame| && WellCut(frame, off + n))
    case _ => false
  }

  /** Whatever the handlers do, the walk is completed exactly on the well-cut frames. */
  lemma {:induction false} CompleteIffWellCut<S>(
    frame: bytes, off: nat, ordinal: nat, c: Context, st: S, handle: Handler<S>)
    requires off <= |frame|
    ensures Run(frame, off, ordinal, c, st, handle).complete <==> WellCut(frame, off)
    decreases |frame| - off
  {
    hide Parse, CutLength, SubFrame, Kept, After;
    if off < |frame| {
      CutInBounds(frame[off..]);
      var t := TurnAt(frame, off, ordinal, c, st, handle);
      if t.Turn? && !t.last {
        CompleteIffWellCut(frame, off + t.size, NextOrdinal(ordinal), t.c, t.st, handle);
      }
    }
  }

  lemma CutInBounds(available: bytes)
    ensures CutLength(available).Some? ==> HEADER_LEN <= CutLength(available).value <= |available|
  {
  }

  /** `dispatch_frame` after the SMB1 bootstrap check: answers nothing when the walk is cut short. */
  method DispatchFrame<S(!new)>(frame: bytes, st0: S, handle: Handler<S>, signer: S -> Signer)
    returns (out: Option<bytes>, st: S)
    requires Answers(handle)
    ensures var o := Run(frame, 0, 0, NOTHING_YET, st0, handle);
            && st == o.final
            && out.Some? == (WellCut(frame, 0) && Replies(o.steps) != [])
            && (out.Some? ==> Responses(Replies(o.steps)) && out.value == Stitched(Replies(o.steps), signer(o.final)))
  {
    hide TurnAt, IsResponse, Stitched, Replies, Continues, WellCut;
    st := st0;
    ghost var whole := Run(frame, 0, 0, NOTHING_YET, st0, handle);
    ghost var done: seq<Dispatched> := [];
    var off: nat, ordinal: nat, c, last := 0, 0, NOTHING_YET, false;
    var responses: seq<bytes> := [];
    NoReplies();
    CompleteIffWellCut(frame, 0, 0, NOTHING_YET, st0, handle);
    ContinuesLaws(whole, [], NoStep(), whole);
    while off < |frame| && !last
      invariant off <= |frame|
      invariant Continues(whole, done, if last then Outcome(true, [], st) else Run(frame, off, ordinal, c, st, handle))
      invariant responses == Replies(done) && AllResponses(responses)
      decreases |frame| - off
    {
      var t := TakeTurn(frame, off, ordinal, c, st, handle);
      if t.Cut? {
        ContinuesLaws(whole, done, NoStep(), Outcome(false, [], st));
        return None, st;
      }
      RepliesSnoc(done, t.step);
      ReplyAnswers(frame, off, ordinal, c, st, handle);
      if t.step.reply.Some? {
        responses := responses + [t.step.reply.value];
      }
      ordinal := NextOrdinal(ordinal);
      off, st, c, last := off + t.size, t.st, t.c, t.last;
      ContinuesLaws(whole, done, t.step,
        if last then Outcome(true, [], st) else Run(frame, off, ordinal, c, st, handle));
      done := done + [t.step];
      assert [t.step] + [] == [t.step];
    }
    ContinuesLaws(whole, done, NoStep(), Outcome(true, [], st));
    if |responses| == 0 {
      return None, st;
    }
    var stitched := Stitch(responses, signer(st));
    out := Some(stitched);
  }

  ghost function NoStep(): Dispatched {
    Dispatched(0, Smb2Header(0, 0, Negotiate, 0, 0, 0, 0, Sync(0, 0), 0, Zeros(16)), [], [], 0, None)
  }

  lemma ReplyAnswers<S(!new)>(frame: bytes, off: nat, ordinal: nat, c: Context, st: S, handle: Handler<S>)
    requires Answers(handle) && off < |frame|
    ensures var t := TurnAt(frame, off, ordinal, c, st, handle);
            t.Turn? && t.step.reply.Some? ==> IsResponse(t.step.reply.value)
  {
    hide IsResponse, Parse, CutLength, SubFrame, Kept, After;
  }

  lemma NoReplies()
    ensures Replies([]) == []
  {
  }

  // ---- tiling and ordinals ----

  /** The dispatched sub-frames lie end to end from `off`, each a whole header at least; they fill the frame
      when the walk is not cut short. */
  lemma {:induction false} SubFramesTile<S>(
    frame: bytes, off: nat, ordinal: nat, c: Context, st: S, handle: Handler<S>, i: nat)
    requires off <= |frame| && i < |Run(frame, off, ordinal, c, st, handle).steps|
    ensures var o := Run(frame, off, ordinal, c, st, handle);
            var d, end := o.steps[i], o.steps[i].off + |o.steps[i].sent|;
            && HEADER_LEN <= |d.sent| == HEADER_LEN + |d.body| && end <= |frame|
            && (i == 0 ==> d.off == off)
            && (i + 1 < |o.steps| ==> o.steps[i + 1].off == end)
            && (i + 1 == |o.steps| && o.complete ==> end == |frame|)
    decreases |frame| - off
  {
    hide TurnAt;
    var t := TurnAt(frame, off, ordinal, c, st, handle);
    if !t.last {
      var next := off + t.size;
      var rest := Run(frame, next, NextOrdinal(ordinal), t.c, t.st, handle);
      if i > 0 {
        SubFramesTile(frame, next, NextOrdinal(ordinal), t.c, t.st, handle, i - 1);
      } else if rest.steps != [] {
        SubFramesTile(frame, next, NextOrdinal(ordinal), t.c, t.st, handle, 0);
      }
    }
  }

  /** Within the transport's frame limit the saturating ordinal counts exactly: all are distinct. */
  lemma {:induction false} OrdinalsCount<S>(
    frame: bytes, off: nat, ordinal: nat, c: Context, st: S, handle: Handler<S>, i: nat)
    requires off <= |frame| <= MAX_FRAME && HEADER_LEN * ordinal <= off
    requires i < |Run(frame, off, ordinal, c, st, handle).steps|
    ensures Run(frame, off, ordinal, c, st, handle).steps[i].ordinal == ordinal + i
    decreases |frame| - off
  {
    hide TurnAt;
    if i > 0 {
      var t := TurnAt(frame, off, ordinal, c, st, handle);
      OrdinalsCount(frame, off + t.size, NextOrdinal(ordinal), t.c, t.st, handle, i - 1);
    }
  }

  // ---- the state each step is dispatched in ----

  /** The handlers' state when step `j` is dispatched; past the last step, the one they end in. */
  function StateAt<S>(
    frame: bytes, off: nat, ordinal: nat, c: Context, st: S, handle: Handler<S>, j: nat): S
    requires off <= |frame|
    decreases |frame| - off
  {
    if j == 0 || off == |frame| then st
    else match TurnAt(frame, off, ordinal, c, st, handle)
      case Cut => st
      case Turn(_, n, last, c1, st1) =>
        if last then st1 else StateAt(frame, off + n, NextOrdinal(ordinal), c1, st1, handle, j - 1)
  }

  /** Each step is the handler's in its state, and leads to the next one's. */
  lemma {:induction false} StepIsHandled<S>(
    frame: bytes, off: nat, ordinal: nat, c: Context, st: S, handle: Handler<S>, j: nat)
    requires off <= |frame| && j < |Run(frame, off, ordinal, c, st, handle).steps|
    ensures var d := Run(frame, off, ordinal, c, st, handle).steps[j];
            handle(StateAt(frame, off, ordinal, c, st, handle, j), d.sent, d.ordinal)
            == (StateAt(frame, off, ordinal, c, st, handle, j + 1), d.reply)
    decreases |frame| - off
  {
    hide Parse, CutLength, SubFrame, Kept, After;
    var t := TurnAt(frame, off, ordinal, c, st, handle);
    if j > 0 {
      StepIsHandled(frame, off + t.size, NextOrdinal(ordinal), t.c, t.st, handle, j - 1);
    } else if !t.last {
      assert StateAt(frame, off + t.size, NextOrdinal(ordinal), t.c, t.st, handle, 0) == t.st;
    }
  }

  // ---- inheritance over a whole frame ----

  /** The context a step leaves behind, from its header as sent. An async header leaves tree 0. */
  function Leaves(c: Context, d: Dispatched): Context {
    var r := Resolved(d.header, c);
    Context(r.sessionId, if r.TreeId().Some? then r.TreeId().value else 0,
            if d.reply.Some? && d.header.command == Create then CaptureCreateFileId(d.reply.value) else c.fileId)
  }

  /** The fold of `Leaves` over the first `i` steps. */
  function ContextAt(c: Context, steps: seq<Dispatched>, i: nat): Context
    requires i <= |steps|
  {
    if i == 0 then c else Leaves(ContextAt(c, steps, i - 1), steps[i - 1])
  }

  lemma {:induction false} ContextShift(c: Context, steps: seq<Dispatched>, i: nat)
    requires i < |steps|
    ensures ContextAt(c, steps, i + 1) == ContextAt(Leaves(c, steps[0]), steps[1..], i)
  {
    if i == 0 {
      assert ContextAt(c, steps, 0) == c;
    } else {
      ContextShift(c, steps, i - 1);
      assert steps[1..][i - 1] == steps[i];
    }
  }

  /** How step `d` is dispatched under context `c`: the handler sees the resolved header and body; an
      unrelated request goes through untouched. */
  ghost predicate DispatchedUnder(c: Context, d: Dispatched) {
    && Parse(d.sent).Ok?
    && Parse(d.sent).value.0 == Resolved(d.header, c)
    && d.sent[HEADER_LEN..] == ResolvedBody(d.header.command, d.body, Related(d.header), c.fileId)
  }

  lemma ParsedLength(s: bytes)
    ensures Parse(s).Ok? ==> HEADER_LEN <= |s|
  {
  }

  lemma StepUnder(s: bytes, h: Smb2Header, c: Context, reply: Option<bytes>, off: nat, ordinal: nat)
    requires Parse(s).Ok? && h == Parse(s).value.0
    ensures var d := Dispatched(off, h, s[HEADER_LEN..], SubFrame(s, h, c), ordinal, reply);
            DispatchedUnder(c, d) && After(c, Kept(s, h, c), reply) == Leaves(c, d)
  {
    hide Parse, HasBit, SpliceFileId, SpliceTree, SpliceSession, ResolvedBody, ResolvedTail, InheritedHeader,
        CaptureCreateFileId;
    ParsedLength(s);
    var d := Dispatched(off, h, s[HEADER_LEN..], SubFrame(s, h, c), ordinal, reply);
    if Related(h) {
      DispatchedHeader(s, c);
      var t := SpliceTree(SpliceSession(s, c), c);
      SpliceIsResolvedBody(t, h.command, c.fileId);
      HeaderPrefixParses(t, d.sent);
    } else {
      UnrelatedBody(h.command, d.body, c.fileId);
    }
  }

  lemma UnrelatedBody(cmd: Command, body: bytes, id: Option<FileId>)
    ensures ResolvedBody(cmd, body, false, id) == body
  {
  }

  /** The first 64 bytes alone decide the header. */
  lemma HeaderPrefixParses(s: bytes, t: bytes)
    requires Parse(s).Ok? && HEADER_LEN <= |t| && t[..HEADER_LEN] == s[..HEADER_LEN]
    ensures Parse(t).Ok? && Parse(t).value.0 == Parse(s).value.0
  {
    hide Parse;
    ParsedLength(s);
    var h := s[..HEADER_LEN];
    assert s == h + s[HEADER_LEN..] && t == h + t[HEADER_LEN..];
    PrefixParses(h, s[HEADER_LEN..]);
    PrefixParses(h, t[HEADER_LEN..]);
  }

  lemma TurnUnder<S>(frame: bytes, off: nat, ordinal: nat, c: Context, st: S, handle: Handler<S>)
    requires off < |frame| && TurnAt(frame, off, ordinal, c, st, handle).Turn?
    ensures var t := TurnAt(frame, off, ordinal, c, st, handle);
            DispatchedUnder(c, t.step) && t.c == Leaves(c, t.step)
  {
    hide Parse, CutLength, Kept, After, HasBit, SubFrame, DispatchedUnder, Leaves;
    var available := frame[off..];
    CutParses(available);
    var h, s := Parse(available).value.0, available[..CutLength(available).value];
    StepUnder(s, h, c, handle(st, SubFrame(s, h, c), ordinal).1, off, ordinal);
  }

  /** Every step of a frame is dispatched under the fold of the steps before it. */
  lemma {:induction false} InheritanceIsAFold<S>(
    frame: bytes, off: nat, ordinal: nat, c: Context, st: S, handle: Handler<S>, i: nat)
    requires off <= |frame| && i < |Run(frame, off, ordinal, c, st, handle).steps|
    ensures var steps := Run(frame, off, ordinal, c, st, handle).steps;
            DispatchedUnder(ContextAt(c, steps, i), steps[i])
    decreases |frame| - off
  {
    hide TurnAt, DispatchedUnder, Leaves, HasBit;
    var steps := Run(frame, off, ordinal, c, st, handle).steps;
    var t := TurnAt(frame, off, ordinal, c, st, handle);
    assert steps[0] == t.step;
    TurnUnder(frame, off, ordinal, c, st, handle);
    if i > 0 {
      var rest := Run(frame, off + t.size, NextOrdinal(ordinal), t.c, t.st, handle).steps;
      assert steps[1..] == rest && steps[i] == rest[i - 1];
      InheritanceIsAFold(frame, off + t.size, NextOrdinal(ordinal), t.c, t.st, handle, i - 1);
      ContextShift(c, steps, i - 1);
    }
  }

  lemma CutParses(available: bytes)
    requires Parse(available).Ok? && CutLength(available).Some?
    ensures var s := available[..CutLength(available).value];
            Parse(s).Ok? && Parse(s).value.0 == Parse(available).value.0
  {
    hide FromLe, HasBit;
    var s := available[..CutLength(available).value];
    assert available == s + available[|s|..];
    PrefixParses(s, available[|s|..]);
  }

  lemma PrefixParses(s: bytes, rest: bytes)
    requires HEADER_LEN <= |s|
    ensures Parse(s).Ok? <==> Parse(s + rest).Ok?
    ensures Parse(s).Ok? ==> Parse(s).value.0 == Parse(s + rest).value.0
  {
    hide FromLe, HasBit;
    SliceFirst(s, rest, 0, 4);   SliceFirst(s, rest, 4, 6);   SliceFirst(s, rest, 6, 8);
    SliceFirst(s, rest, 8, 12);  SliceFirst(s, rest, 12, 14); SliceFirst(s, rest, 14, 16);
    SliceFirst(s, rest, 16, 20); SliceFirst(s, rest, 20, 24); SliceFirst(s, rest, 24, 32);
    SliceFirst(s, rest, 32, 36); SliceFirst(s, rest, 36, 40); SliceFirst(s, rest, 32, 40);
    SliceFirst(s, rest, 40, 48); SliceFirst(s, rest, 48, 64);
    assert (s + rest)[..4] == (s + rest)[0..4] && s[..4] == s[0..4];
  }

  /** The inherited session id is the last one not a placeholder, or zero when all were. */
  lemma {:induction false} InheritedSessionIsMostRecent(steps: seq<Dispatched>, i: nat)
    requires i <= |steps|
    ensures var v := ContextAt(NOTHING_YET, steps, i).session;
            || (v == 0 && forall k :: 0 <= k < i ==> SessionPlaceholder(steps[k].header))
            || exists j :: 0 <= j < i && !SessionPlaceholder(steps[j].header) && v == steps[j].header.sessionId
                           && forall k :: j < k < i ==> SessionPlaceholder(steps[k].header)
  {
    hide HasBit, CaptureCreateFileId;
    if i > 0 {
      InheritedSessionIsMostRecent(steps, i - 1);
    }
  }

  function TreeSent(h: Smb2Header): u32 {
    if h.tail.Sync? then h.tail.treeId else 0
  }

  /** Likewise the tree id; a request with an async header counts as sending tree zero. */
  lemma {:induction false} InheritedTreeIsMostRecent(steps: seq<Dispatched>, i: nat)
    requires i <= |steps|
    ensures var v := ContextAt(NOTHING_YET, steps, i).tree;
            || (v == 0 && forall k :: 0 <= k < i ==> TreePlaceholder(steps[k].header))
            || exists j :: 0 <= j < i && !TreePlaceholder(steps[j].header) && v == TreeSent(steps[j].header)
                           && forall k :: j < k < i ==> TreePlaceholder(steps[k].header)
  {
    hide HasBit, CaptureCreateFileId;
    if i > 0 {
      InheritedTreeIsMostRecent(steps, i - 1);
    }
  }

  predicate AnsweredCreate(d: Dispatched) {
    d.header.command == Create && d.reply.Some?
  }

  /** The inherited file id comes from the latest answered CREATE alone: a failed one clears it. */
  lemma {:induction false} InheritedFileIdIsLatestCreate(steps: seq<Dispatched>, i: nat)
    requires i <= |steps|
    ensures var v := ContextAt(NOTHING_YET, steps, i).fileId;
            || (v == None && forall k :: 0 <= k < i ==> !AnsweredCreate(steps[k]))
            || exists j :: 0 <= j < i && AnsweredCreate(steps[j]) && v == CaptureCreateFileId(steps[j].reply.value)
                           && forall k :: j < k < i ==> !AnsweredCreate(steps[k])
  {
    hide HasBit, CaptureCreateFileId;
    if i > 0 {
      InheritedFileIdIsLatestCreate(steps, i - 1);
    }
  }

  // ---- frames of two requests ----

  function Request(command: Command, flags: u32, next: u32, tree: u32, session: u64): Smb2Header {
    Smb2Header(0, 0, command, 0, flags, next, 0, Sync(0, tree), session, Zeros(16))
  }

  lemma RequestParses(command: Command, flags: u32, next: u32, tree: u32, session: u64, rest: bytes)
    requires !IsAsync(flags)
    ensures var h := Request(command, flags, next, tree, session); Parse(Encode(h) + rest) == Ok((h, rest))
  {
    hide Parse, Encode;
    ParseEncodeIff(Request(command, flags, next, tree, session), rest);
  }

  /** A first request of `|b|` body bytes, not related, and what stands behind it. */
  function Leading(command: Command, tree: u32, session: u64, b: bytes): Smb2Header
    requires HEADER_LEN + |b| < U32
  {
    Request(command, 0, HEADER_LEN + |b|, tree, session)
  }

  lemma LeadingTurn<S>(command: Command, tree: u32, session: u64, b: bytes, rest: bytes, st: S, handle: Handler<S>)
    requires HEADER_LEN + |b| < U32
    ensures var h := Leading(command, tree, session, b); var frame := Encode(h) + b + rest;
            var (st1, reply) := handle(st, Encode(h) + b, 0);
            && TurnAt(frame, 0, 0, NOTHING_YET, st, handle)
               == Turn(Dispatched(0, h, b, Encode(h) + b, 0, reply), HEADER_LEN + |b|, false,
                       After(NOTHING_YET, h, reply), st1)
  {
    hide Parse, Encode, After, Inherited;
    var h := Leading(command, tree, session, b);
    var s := Encode(h) + b;
    RequestParses(command, 0, h.next, tree, session, b + rest);
    Assoc(Encode(h), b, rest);
    LeadingCut(h, b, rest);
    DropFirst(s, rest);
    DropFirst(Encode(h), b);
    NoFlags();
    assert (s + rest)[0..] == s + rest;
  }

  lemma LeadingCut(h: Smb2Header, b: bytes, rest: bytes)
    requires Parse(Encode(h) + (b + rest)) == Ok((h, b + rest)) && h.next == HEADER_LEN + |b|
    ensures CutLength(Encode(h) + b + rest) == Some(HEADER_LEN + |b|)
  {
    hide Encode, FromLe;
    Assoc(Encode(h), b, rest);
  }

  lemma NoFlags()
    ensures !HasBit(0, FLAG_RELATED) && !IsAsync(0)
  {
  }

  /** A first request that is dispatched and answered by its handler, and a tail too short to be a second one:
      the whole frame is answered with nothing. */
  lemma AnswerIsLost<S>(command: Command, tree: u32, session: u64, b: bytes, stray: bytes, st: S, handle: Handler<S>)
    requires HEADER_LEN + |b| < U32 && 0 < |stray| < HEADER_LEN
    ensures var h := Leading(command, tree, session, b); var frame := Encode(h) + b + stray;
            var o := Run(frame, 0, 0, NOTHING_YET, st, handle);
            && !WellCut(frame, 0) && !o.complete
            && o.steps == [Dispatched(0, h, b, Encode(h) + b, 0, handle(st, Encode(h) + b, 0).1)]
            && o.final == handle(st, Encode(h) + b, 0).0
  {
    hide TurnAt, After, Encode, WellCut, Parse;
    var h := Leading(command, tree, session, b);
    var s := Encode(h) + b;
    var frame := s + stray;
    LeadingTurn(command, tree, session, b, stray, st, handle);
    CompleteIffWellCut(frame, 0, 0, NOTHING_YET, st, handle);
    DropFirst(s, stray);
    var t := TurnAt(frame, 0, 0, NOTHING_YET, st, handle);
    TooShort(frame, |s|, t.c, t.st, handle);
  }

  lemma TooShort<S>(frame: bytes, off: nat, c: Context, st: S, handle: Handler<S>)
    requires off < |frame| < off + HEADER_LEN
    ensures Run(frame, off, NextOrdinal(0), c, st, handle) == Outcome(false, [], st)
  {
  }

  /** A related last request behind a first one is dispatched under the ids of the first one's header as sent,
      whatever that was answered. */
  lemma RelatedBehind<S>(
    command: Command, tree: u32, session: u64, b1: bytes, h2: Smb2Header, b2: bytes, st: S, handle: Handler<S>)
    requires HEADER_LEN + |b1| < U32
    requires Related(h2) && h2.next == 0 && (h2.tail.Async? <==> IsAsync(h2.flags))
    ensures var frame := Encode(Leading(command, tree, session, b1)) + b1 + (Encode(h2) + b2);
            var steps := Run(frame, 0, 0, NOTHING_YET, st, handle).steps;
            var s1 := Encode(Leading(command, tree, session, b1)) + b1;
            && |steps| == 2 && steps[0].sent == s1 && steps[0].reply == handle(st, s1, 0).1
            && steps[1].header == h2 && Parse(steps[1].sent).Ok?
            && Parse(steps[1].sent).value.0 == Resolved(h2, Context(session, tree, None))
            && steps[1].sent[HEADER_LEN..]
               == ResolvedBody(h2.command, b2, true, CreatedBy(command, handle(st, s1, 0).1))
  {
    hide TurnAt, Encode, Parse, Leaves, HasBit, ResolvedTail, ResolvedBody, CaptureCreateFileId;
    var h1 := Leading(command, tree, session, b1);
    var s1, s2 := Encode(h1) + b1, Encode(h2) + b2;
    var frame := s1 + s2;
    LeadingTurn(command, tree, session, b1, s2, st, handle);
    var t := TurnAt(frame, 0, 0, NOTHING_YET, st, handle);
    DropFirst(s1, s2);
    ParseEncodeIff(h2, b2);
    DropFirst(Encode(h2), b2);
    LastTurn(frame, |s1|, NextOrdinal(0), t.c, t.st, handle);
    TurnUnder(frame, |s1|, NextOrdinal(0), t.c, t.st, handle);
    KeptIds(h1, t.step.reply);
  }

  /** The file id a first request's answer hands on. */
  function CreatedBy(command: Command, reply: Option<bytes>): Option<FileId> {
    if command == Create && reply.Some? then CaptureCreateFileId(reply.value) else None
  }

  lemma KeptIds(h: Smb2Header, reply: Option<bytes>)
    requires h.tail.Sync?
    ensures After(NOTHING_YET, h, reply) == Context(h.sessionId, h.tail.treeId, CreatedBy(h.command, reply))
  {
  }

  lemma RelatedFlags()
    ensures HasBit(FLAG_RELATED, FLAG_RELATED) && !IsAsync(FLAG_RELATED)
    ensures HasBit(FLAG_RELATED + FLAG_ASYNC, FLAG_RELATED) && IsAsync(FLAG_RELATED + FLAG_ASYNC)
  {
    assert HasBit(3, 2) && HasBit(1, 1);
  }

  /** With placeholders it gets those ids; the ids that the answer of a TREE_CONNECT or SESSION_SETUP mints do
      not matter. */
  lemma MintedIdsAreNotInherited<S>(
    command: Command, tree: u32, session: u64, b1: bytes, later: Command, b2: bytes, st: S, handle: Handler<S>)
    requires HEADER_LEN + |b1| < U32
    ensures var h2 := Request(later, FLAG_RELATED, 0, U32 - 1, U64 - 1);
            var frame := Encode(Leading(command, tree, session, b1)) + b1 + (Encode(h2) + b2);
            var steps := Run(frame, 0, 0, NOTHING_YET, st, handle).steps;
            && |steps| == 2 && steps[1].header == h2 && Parse(steps[1].sent).Ok?
            && Parse(steps[1].sent).value.0 == h2.(sessionId := session, tail := Sync(0, tree))
  {
    hide Run, Parse, Encode, HasBit;
    RelatedFlags();
    RelatedBehind(command, tree, session, b1, Request(later, FLAG_RELATED, 0, U32 - 1, U64 - 1), b2, st, handle);
  }

  /** An async request whose id has all ones in its high half gets a tree id there, although it has none: the
      handler sees a different async id than was sent. */
  lemma AsyncIdIsOverwritten<S>(
    command: Command, tree: u32, session: u64, b1: bytes, later: Command, low: u32, b2: bytes, st: S,
    handle: Handler<S>)
    requires HEADER_LEN + |b1| < U32 && tree != U32 - 1
    ensures var sent := Joined(low, U32 - 1);
            var h2 := Request(later, FLAG_RELATED + FLAG_ASYNC, 0, 0, U64 - 1).(tail := sent);
            var frame := Encode(Leading(command, tree, session, b1)) + b1 + (Encode(h2) + b2);
            var steps := Run(frame, 0, 0, NOTHING_YET, st, handle).steps;
            && |steps| == 2 && steps[1].header == h2 && Parse(steps[1].sent).Ok?
            && Parse(steps[1].sent).value.0 == h2.(sessionId := session, tail := Joined(low, tree))
            && Joined(low, tree) != sent
  {
    hide Run, Parse, Encode, HasBit;
    RelatedFlags();
    QuotRem(low, U32 - 1);
    QuotRem(low, tree);
    var h2 := Request(later, FLAG_RELATED + FLAG_ASYNC, 0, 0, U64 - 1).(tail := Joined(low, U32 - 1));
    RelatedBehind(command, tree, session, b1, h2, b2, st, handle);
  }

  lemma LastTurn<S>(frame: bytes, off: nat, ordinal: nat, c: Context, st: S, handle: Handler<S>)
    requires off < |frame| && Parse(frame[off..]).Ok? && Parse(frame[off..]).value.0.next == 0
    ensures var t := TurnAt(frame, off, ordinal, c, st, handle);
            && t.Turn? && t.last && t.step.header == Parse(frame[off..]).value.0
            && t.step.body == frame[off + HEADER_LEN..]
            && Run(frame, off, ordinal, c, st, handle).steps == [t.step]
  {
    hide SubFrame, Kept, After, FromLe;
  }
}
