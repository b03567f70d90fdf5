/** Where a CREATE response keeps its file id, and a related request that inherits it. */
module CreateReplies {
  import opened Bytes
  import opened Header
  import opened NtStatus
  import opened Responses
  import Stitching
  import Signing
  import Dispatch

  /** The CREATE response (MS-SMB2 section 2.2.14), in wire order but for the sizes and reserved fields. */
  datatype CreateResponse = CreateResponse(
    oplockLevel: byte, flags: byte, action: u32, creation: u64, access: u64, write: u64, change: u64,
    allocation: u64, endOfFile: u64, attributes: u32, persistent: u64, volatile_: u64, contextsOffset: u32,
    contexts: bytes)

  function FileIdBytes(f: CreateResponse): (id: Sig) {
    Put64(f.persistent) + Put64(f.volatile_)
  }

  function Times(f: CreateResponse): (s: bytes)
    ensures |s| == 48
  {
    Put64(f.creation) + Put64(f.access) + Put64(f.write) + Put64(f.change) + Put64(f.allocation) + Put64(f.endOfFile)
  }

  function BeforeFileId(f: CreateResponse): (s: bytes)
    ensures |s| == 64
  {
    Put16(89) + [f.oplockLevel] + [f.flags] + Put32(f.action) + Times(f) + Put32(f.attributes) + Put32(0)
  }

  function Body(f: CreateResponse): bytes {
    BeforeFileId(f) + FileIdBytes(f) + (Put32(f.contextsOffset) + Put32(|f.contexts|) + f.contexts)
  }

  /** What is captured from a built CREATE response: its file id when it succeeded, nothing otherwise. */
  lemma CapturedIsTheFileId(req: Smb2Header, f: CreateResponse, a: HandlerResponse, g: Stitching.Signer)
    requires a.body == Body(f)
    ensures Dispatch.CaptureCreateFileId(BuildResponse(req, a, g))
         == if a.status == STATUS_SUCCESS then Some(FileIdBytes(f)) else None
  {
    hide BuildResponse, AnswerHeader, HasBit, FromLe, Put32, Put16, Put64, ShouldSign, Signing.Authentic,
         Stitching.NeedsSignature;
    ResponseIsWellFormed(req, a, g);
    var out := BuildResponse(req, a, g);
    StatusIs(req, a, g);
    assert out[HEADER_LEN..] == a.body;
    SubSlice(out, HEADER_LEN, |out|, 64, 80);
    assert out[HEADER_LEN..|out|] == a.body;
    FileIdIsAt(f);
  }

  lemma StatusIs(req: Smb2Header, a: HandlerResponse, g: Stitching.Signer)
    ensures AnswerHeader(req, a, g).status == a.status
  {
    hide ShouldSign, AnswerFlags;
  }

  lemma FileIdIsAt(f: CreateResponse)
    ensures |Body(f)| >= 88 && Body(f)[64..80] == FileIdBytes(f)
  {
    hide BeforeFileId, Put32, Put64;
  }

  /** A CLOSE body (MS-SMB2 section 2.2.15) for a file id. */
  function CloseBody(flags: u16, id: Sig): bytes {
    Put16(24) + Put16(flags) + Put32(0) + id
  }

  function AllOnesId(): Sig {
    Put64(U64 - 1) + Put64(U64 - 1)
  }

  lemma AllOnesRead()
    ensures Dispatch.AllOnes(AllOnesId(), 0)
  {
    hide ToLe, FromLe;
    var id := AllOnesId();
    assert id[0..8] == Put64(U64 - 1) && id[8..16] == Put64(U64 - 1);
    GetPut64(id, 0, U64 - 1);
    GetPut64(id, 8, U64 - 1);
  }

  lemma CloseResolved(flags: u16, id: Sig)
    ensures Dispatch.ResolvedBody(Close, CloseBody(flags, AllOnesId()), true, Some(id)) == CloseBody(flags, id)
  {
    hide Put16, Put32, AllOnesId, Dispatch.AllOnes;
    AllOnesRead();
    Dispatch.ShortSums();
    var head, ones := Put16(24) + Put16(flags) + Put32(0), AllOnesId();
    assert CloseBody(flags, ones) == head + ones && (head + ones)[8..24] == ones;
    assert Patch(head + ones, 8, id) == head + id;
  }

  lemma CloseUnresolved(flags: u16)
    ensures Dispatch.ResolvedBody(Close, CloseBody(flags, AllOnesId()), true, None) == CloseBody(flags, AllOnesId())
  {
  }

  function CreateSent(tree: u32, session: u64, b1: bytes): bytes
    requires HEADER_LEN + |b1| < U32
  {
    Encode(Dispatch.Leading(Create, tree, session, b1)) + b1
  }

  function CloseHeader(): Smb2Header {
    Dispatch.Request(Close, FLAG_RELATED, 0, U32 - 1, U64 - 1)
  }

  function CreateThenClose(tree: u32, session: u64, b1: bytes, flags: u16): bytes
    requires HEADER_LEN + |b1| < U32
  {
    CreateSent(tree, session, b1) + (Encode(CloseHeader()) + CloseBody(flags, AllOnesId()))
  }

  /** A CREATE and a related CLOSE of the placeholder id in one frame: the CLOSE is dispatched for exactly the file
      the CREATE response names, and for the placeholder still when the CREATE failed. */
  lemma CloseBehindCreate<S>(
    tree: u32, session: u64, b1: bytes, flags: u16, req: Smb2Header, f: CreateResponse, a: HandlerResponse,
    g: Stitching.Signer, st: S, handle: Dispatch.Handler<S>)
    requires HEADER_LEN + |b1| < U32 && a.body == Body(f)
    requires handle(st, CreateSent(tree, session, b1), 0).1 == Some(BuildResponse(req, a, g))
    ensures var o := Dispatch.Run(CreateThenClose(tree, session, b1, flags), 0, 0, Dispatch.NOTHING_YET, st, handle);
            && |o.steps| == 2 && |o.steps[1].sent| >= HEADER_LEN
            && o.steps[1].sent[HEADER_LEN..]
               == CloseBody(flags, if a.status == STATUS_SUCCESS then FileIdBytes(f) else AllOnesId())
  {
    hide Encode, Parse, Dispatch.Run, BuildResponse, HasBit, CloseBody, Dispatch.ResolvedBody, FileIdBytes, AllOnesId,
         Dispatch.CaptureCreateFileId, Body, Dispatch.Resolved;
    Dispatch.RelatedFlags();
    Dispatch.RelatedBehind(Create, tree, session, b1, CloseHeader(), CloseBody(flags, AllOnesId()), st, handle);
    CapturedIsTheFileId(req, f, a, g);
    CloseResolved(flags, FileIdBytes(f));
    CloseUnresolved(flags);
    var o := Dispatch.Run(CreateThenClose(tree, session, b1, flags), 0, 0, Dispatch.NOTHING_YET, st, handle);
    Dispatch.ParsedLength(o.steps[1].sent);
  }
}
